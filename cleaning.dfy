/** `clean_text`, the text normalisation each scraper version applies to every string
    it extracts. */
module Cleaning {
  import opened Wrappers
  import opened Chars
  import opened Strings

  /** The two versions of the scraper: `KitkaParser` (main_v1.py) and
      `KitkaParserFinal` (main_v2.py). */
  datatype Version = V1 | V2

  /** main_v2.py `clean_text`: no-break spaces and newlines become spaces, then
      `' '.join(text.split())`; None for None or the empty string. */
  function CleanTextV2(text: Option<string>): Option<string> {
    if Truthy(text) then
      var t := ReplaceChar(ReplaceChar(text.value, NoBreakSpace, ' '), '\n', ' ');
      Some(Join(FindAll(t, NonSpace)))
    else None
  }

  /** main_v1.py `clean_text`: `text.strip()`; None for None or the empty string. */
  function CleanTextV1(text: Option<string>): Option<string> {
    if Truthy(text) then Some(Strip(text.value)) else None
  }

  function CleanText(v: Version, text: Option<string>): Option<string> {
    match v
    case V1 => CleanTextV1(text)
    case V2 => CleanTextV2(text)
  }

  /** Both replacements in v2 are redundant: no-break space and newline are already
      whitespace to `split()`, so the result is `' '.join(text.split())`. */
  lemma CleanTextV2IsCollapse(text: Option<string>)
    requires Truthy(text)
    ensures CleanTextV2(text) == Some(Join(FindAll(text.value, NonSpace)))
  {
    var t1 := ReplaceChar(text.value, NoBreakSpace, ' ');
    RunsFromReplaceSpace(t1, [], '\n');
    RunsFromReplaceSpace(text.value, [], NoBreakSpace);
  }

  /** v2 gives None exactly for None or the empty string; otherwise a text with the same
      words as the input, single spaces between them, nothing around them, and no
      no-break space or newline left. Whitespace-only input gives the empty string. */
  lemma CleanTextV2Spec(text: Option<string>)
    ensures CleanTextV2(text).None? <==> !Truthy(text)
    ensures CleanTextV2(text).Some? ==>
      var r := CleanTextV2(text).value;
      && Normalised(r)
      && NoBreakSpace !in r && '\n' !in r
      && FindAll(r, NonSpace) == FindAll(text.value, NonSpace)
      && (r == [] <==> NoneIn(NonSpace, text.value))
  {
    if Truthy(text) {
      CleanTextV2IsCollapse(text);
      var ws := FindAll(text.value, NonSpace);
      FindAllShape(text.value, NonSpace);
      JoinNormalised(ws);
      WordsOfJoin(ws);
      FindAllEmpty(text.value, NonSpace);
    }
  }

  /** Cleaning an already cleaned, non-empty text changes nothing. */
  lemma CleanTextV2Idempotent(text: Option<string>)
    requires CleanTextV2(text).Some? && CleanTextV2(text).value != []
    ensures CleanTextV2(CleanTextV2(text)) == CleanTextV2(text)
  {
    var r := CleanTextV2(text).value;
    CleanTextV2Spec(text);
    CleanTextV2IsCollapse(Some(r));
    CleanTextV2IsCollapse(text);
  }

  /** v1 gives None exactly for None or the empty string; otherwise the input with its
      leading and trailing whitespace removed and nothing else changed. */
  lemma CleanTextV1Spec(text: Option<string>)
    ensures CleanTextV1(text).None? <==> !Truthy(text)
    ensures CleanTextV1(text).Some? ==>
      var s, r := text.value, CleanTextV1(text).value;
      && (exists i, j :: 0 <= i <= j <= |s| && r == s[i..j] && AllSpace(s[..i]) && AllSpace(s[j..]))
      && (r != [] ==> !IsSpace(r[0]) && !IsSpace(r[|r| - 1]))
  {
    if Truthy(text) {
      var s := text.value;
      StripSpec(s);
      var i, j := StripFrom(s), StripTo(s);
      assert Strip(s) == s[i..j] && AllSpace(s[..i]) && AllSpace(s[j..]);
    }
  }

  lemma CleanTextV1Idempotent(text: Option<string>)
    requires CleanTextV1(text).Some? && CleanTextV1(text).value != []
    ensures CleanTextV1(CleanTextV1(text)) == CleanTextV1(text)
  {
    StripIdempotent(text.value);
  }
}
