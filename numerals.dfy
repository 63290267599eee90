/** Decimal numerals: Python's `str(n)` for the ids in file names and page URLs, and
    `int(...)` for the stock count. */
module Numerals {
  import opened Chars
  import opened Strings

  function DigitChar(d: nat): (c: char)
    requires d < 10
    ensures IsDigit(c) && DigitValue(c) == d
  {
    "0123456789"[d]
  }

  function DigitValue(c: char): nat
    requires IsDigit(c)
  {
    c as int - '0' as int
  }

  /** The numeral that `str(n)` (and an f-string) writes for a non-negative int. */
  function Decimal(n: nat): (s: string)
    ensures |s| >= 1 && AllIn(Digit, s)
    ensures s[0] == '0' ==> n == 0
  {
    if n < 10 then [DigitChar(n)] else Decimal(n / 10) + [DigitChar(n % 10)]
  }

  /** `int(s)` of a string of ASCII digits (leading zeros allowed). */
  function DigitsValue(s: string): nat
    requires AllIn(Digit, s)
  {
    if s == [] then 0 else DigitsValue(s[..|s| - 1]) * 10 + DigitValue(s[|s| - 1])
  }

  /** `int(str(n)) == n`: reading back a written numeral gives the number. */
  lemma {:induction false} DigitsValueOfDecimal(n: nat)
    ensures DigitsValue(Decimal(n)) == n
  {
    if n >= 10 {
      var s := Decimal(n);
      assert s[..|s| - 1] == Decimal(n / 10);
      DigitsValueOfDecimal(n / 10);
    }
  }

  lemma DecimalInjective(m: nat, n: nat)
    ensures Decimal(m) == Decimal(n) ==> m == n
  {
    DigitsValueOfDecimal(m);
    DigitsValueOfDecimal(n);
  }

  /** A numeral followed by a non-digit separator can be split off unambiguously:
      `{m}{sep}{x} == {n}{sep}{y}` forces `m == n` and `x == y`. */
  lemma DecimalPrefixUnique(m: nat, n: nat, sep: char, x: string, y: string)
    requires !IsDigit(sep)
    requires Decimal(m) + [sep] + x == Decimal(n) + [sep] + y
    ensures m == n && x == y
  {
    var a, b := Decimal(m), Decimal(n);
    var s := a + [sep] + x;
    InPrefixOfSeparated(a, sep, x, Digit);
    InPrefixOfSeparated(b, sep, y, Digit);
    assert a == s[..|a|] == b;
    DecimalInjective(m, n);
    assert x == s[|a| + 1..] == y;
  }
}
