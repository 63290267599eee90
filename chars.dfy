/** Character classes as the scraper's Python runtime and regular expressions see them. */
module Chars {

  /** Python's `str.isspace()`, the whitespace that `str.split()` and `str.strip()` use:
      the ASCII controls TAB..CR and FS..US, SPACE, NEL, NO-BREAK SPACE and the Unicode
      space separators, LINE SEPARATOR and PARAGRAPH SEPARATOR. */
  predicate IsSpace(c: char) {
    var n := c as int;
    || (9 <= n <= 13) || (28 <= n <= 32) || n == 0x85 || n == 0xA0 || n == 0x1680
    || (0x2000 <= n <= 0x200A) || n == 0x2028 || n == 0x2029 || n == 0x202F
    || n == 0x205F || n == 0x3000
  }

  const NoBreakSpace: char := '\U{A0}'

  /** The ASCII digits, which is what the class `\d` matches in this model. */
  predicate IsDigit(c: char) {
    '0' <= c <= '9'
  }

  /** The single-class patterns the scraper matches with `re.findall` or `str.split()`. */
  datatype CharClass =
    | NonSpace    // a word of `str.split()`
    | Digit       // `\d`
    | PriceChar   // `[\d.,]`
    | RatingChar  // `[\d\.]`

  predicate InClass(k: CharClass, c: char) {
    match k
    case NonSpace => !IsSpace(c)
    case Digit => IsDigit(c)
    case PriceChar => IsDigit(c) || c == '.' || c == ','
    case RatingChar => IsDigit(c) || c == '.'
  }

  predicate AllIn(k: CharClass, s: string) {
    forall i :: 0 <= i < |s| ==> InClass(k, s[i])
  }

  predicate NoneIn(k: CharClass, s: string) {
    forall i :: 0 <= i < |s| ==> !InClass(k, s[i])
  }
}
