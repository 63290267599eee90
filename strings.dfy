/** The Python string operations the scraper relies on: `str.split()`, `' '.join`,
    `str.strip()`, single-character `str.replace`, and `re.findall` of a one-class
    pattern `[...]+`. */
module Strings {
  import opened Wrappers
  import opened Chars

  /** Python truthiness of an optional string: present and not empty. */
  predicate Truthy(o: Option<string>) {
    o.Some? && o.value != ""
  }

  /** The characters of `s` that belong to `k`, in order. */
  function Keep(s: string, k: CharClass): (r: string)
    ensures |r| <= |s| && AllIn(k, r)
  {
    if s == [] then []
    else if InClass(k, s[0]) then [s[0]] + Keep(s[1..], k)
    else Keep(s[1..], k)
  }

  /** Filtering a text that lies wholly inside the class changes nothing. */
  lemma {:induction false} KeepAll(s: string, k: CharClass)
    requires AllIn(k, s)
    ensures Keep(s, k) == s
  {
    if s != [] {
      KeepAll(s[1..], k);
      assert s == [s[0]] + s[1..];
    }
  }

  lemma {:induction false} KeepAppend(a: string, b: string, k: CharClass)
    ensures Keep(a + b, k) == Keep(a, k) + Keep(b, k)
  {
    if a == [] {
      assert a + b == b;
    } else {
      assert (a + b)[0] == a[0] && (a + b)[1..] == a[1..] + b;
      KeepAppend(a[1..], b, k);
      var ka, kb := Keep(a[1..], k), Keep(b, k);
      if InClass(k, a[0]) {
        assert Keep(a + b, k) == [a[0]] + (ka + kb);
        assert [a[0]] + (ka + kb) == ([a[0]] + ka) + kb;
      } else {
        assert Keep(a + b, k) == ka + kb;
      }
    }
  }

  lemma {:induction false} KeepEmpty(s: string, k: CharClass)
    ensures Keep(s, k) == [] <==> NoneIn(k, s)
  {
    if s != [] {
      KeepEmpty(s[1..], k);
      if NoneIn(k, s[1..]) && !InClass(k, s[0]) {
        forall i | 0 <= i < |s| ensures !InClass(k, s[i]) {
          if i > 0 {
            assert s[i] == s[1..][i - 1];
          }
        }
      }
    }
  }

  /** Python's `a or b` on optional strings: `a` when it is a non-empty string, else `b`. */
  function OrElse(a: Option<string>, b: Option<string>): (r: Option<string>)
    ensures Truthy(r) <==> Truthy(a) || Truthy(b)
    ensures Truthy(a) ==> r == a
    ensures !Truthy(a) ==> r == b
  {
    if Truthy(a) then a else b
  }

  predicate EndsWith(s: string, suffix: string) {
    |suffix| <= |s| && s[|s| - |suffix|..] == suffix
  }

  /** `''.join(ws)` */
  function Flatten(ws: seq<string>): string {
    if ws == [] then [] else ws[0] + Flatten(ws[1..])
  }

  /** A sequence of maximal runs of `k`: every entry non-empty and inside the class. */
  predicate IsRuns(ws: seq<string>, k: CharClass) {
    forall i :: 0 <= i < |ws| ==> ws[i] != [] && AllIn(k, ws[i])
  }

  function Pending(cur: string): seq<string> {
    if cur == [] then [] else [cur]
  }

  /** The maximal runs of class `k` in `cur + s`, where `cur` is the run being scanned. */
  function RunsFrom(s: string, cur: string, k: CharClass): seq<string> {
    if s == [] then Pending(cur)
    else if InClass(k, s[0]) then RunsFrom(s[1..], cur + [s[0]], k)
    else Pending(cur) + RunsFrom(s[1..], [], k)
  }

  /** `re.findall('[k]+', s)`; for `NonSpace` it is `s.split()`. */
  function FindAll(s: string, k: CharClass): seq<string> {
    RunsFrom(s, [], k)
  }

  lemma {:induction false} RunsFromShape(s: string, cur: string, k: CharClass)
    requires AllIn(k, cur)
    ensures IsRuns(RunsFrom(s, cur, k), k)
  {
    if s != [] {
      if InClass(k, s[0]) {
        RunsFromShape(s[1..], cur + [s[0]], k);
      } else {
        RunsFromShape(s[1..], [], k);
      }
    }
  }

  lemma FindAllShape(s: string, k: CharClass)
    ensures IsRuns(FindAll(s, k), k)
  {
    RunsFromShape(s, [], k);
  }

  /** Joining what `re.findall` returns is the same as filtering the characters. */
  lemma {:induction false} FlattenRunsFrom(s: string, cur: string, k: CharClass)
    ensures Flatten(RunsFrom(s, cur, k)) == cur + Keep(s, k)
  {
    if s == [] {
      assert cur + [] == cur;
    } else if InClass(k, s[0]) {
      var tail := Keep(s[1..], k);
      FlattenRunsFrom(s[1..], cur + [s[0]], k);
      assert RunsFrom(s, cur, k) == RunsFrom(s[1..], cur + [s[0]], k);
      assert Keep(s, k) == [s[0]] + tail;
      assert (cur + [s[0]]) + tail == cur + ([s[0]] + tail);
    } else {
      var rest := RunsFrom(s[1..], [], k);
      FlattenRunsFrom(s[1..], [], k);
      assert Flatten(rest) == Keep(s[1..], k);
      assert RunsFrom(s, cur, k) == Pending(cur) + rest;
      assert Keep(s, k) == Keep(s[1..], k);
      if cur == [] {
        assert Pending(cur) + rest == rest;
      } else {
        assert ([cur] + rest)[0] == cur && ([cur] + rest)[1..] == rest;
        assert Flatten([cur] + rest) == cur + Flatten(rest);
      }
    }
  }

  lemma FlattenFindAll(s: string, k: CharClass)
    ensures Flatten(FindAll(s, k)) == Keep(s, k)
  {
    FlattenRunsFrom(s, [], k);
  }

  /** Scanning a stretch that lies wholly inside the class only extends the current run. */
  lemma {:induction false} RunsFromInside(w: string, t: string, cur: string, k: CharClass)
    requires AllIn(k, w)
    ensures RunsFrom(w + t, cur, k) == RunsFrom(t, cur + w, k)
  {
    if w != [] {
      assert (w + t)[0] == w[0] && InClass(k, w[0]);
      assert (w + t)[1..] == w[1..] + t;
      assert RunsFrom(w + t, cur, k) == RunsFrom(w[1..] + t, cur + [w[0]], k);
      RunsFromInside(w[1..], t, cur + [w[0]], k);
      assert cur + [w[0]] + w[1..] == cur + w;
    } else {
      assert w + t == t && cur + w == cur;
    }
  }

  /** A character outside the class starts no run: `re.findall` skips it. */
  lemma FindAllSkip(c: char, t: string, k: CharClass)
    requires !InClass(k, c)
    ensures FindAll([c] + t, k) == FindAll(t, k)
  {
    assert ([c] + t)[0] == c && ([c] + t)[1..] == t;
    assert FindAll([c] + t, k) == Pending([]) + RunsFrom(t, [], k);
  }

  /** A non-empty stretch inside the class, followed by the end of the text or by a
      character outside the class, is returned whole as one match: every run is maximal. */
  lemma FindAllRun(w: string, t: string, k: CharClass)
    requires w != [] && AllIn(k, w) && (t == [] || !InClass(k, t[0]))
    ensures FindAll(w + t, k) == [w] + FindAll(t, k)
  {
    RunsFromInside(w, t, [], k);
    assert [] + w == w;
    if t == [] {
      assert RunsFrom(t, w, k) == [w];
      assert [w] + FindAll(t, k) == [w];
    } else {
      assert RunsFrom(t, w, k) == [w] + RunsFrom(t[1..], [], k);
      assert FindAll(t, k) == Pending([]) + RunsFrom(t[1..], [], k) == RunsFrom(t[1..], [], k);
    }
  }

  /** The length of the longest prefix of `s` inside class `k`. */
  function InPrefix(s: string, k: CharClass): (n: nat)
    ensures n <= |s| && AllIn(k, s[..n])
    ensures n < |s| ==> !InClass(k, s[n])
  {
    if s != [] && InClass(k, s[0]) then
      var n := 1 + InPrefix(s[1..], k);
      assert s[..n] == [s[0]] + s[1..][..n - 1];
      n
    else 0
  }

  /** The length of the longest prefix of `s` outside class `k`. */
  function OutPrefix(s: string, k: CharClass): (n: nat)
    ensures n <= |s| && NoneIn(k, s[..n])
    ensures n < |s| ==> InClass(k, s[n])
  {
    if s != [] && !InClass(k, s[0]) then
      var n := 1 + OutPrefix(s[1..], k);
      assert s[..n] == [s[0]] + s[1..][..n - 1];
      n
    else 0
  }

  lemma {:induction false} InPrefixOfSeparated(a: string, sep: char, x: string, k: CharClass)
    requires AllIn(k, a) && !InClass(k, sep)
    ensures InPrefix(a + [sep] + x, k) == |a|
  {
    if a != [] {
      assert (a + [sep] + x)[1..] == a[1..] + [sep] + x;
      InPrefixOfSeparated(a[1..], sep, x, k);
    }
  }

  /** A run in progress ends at the first character outside the class. */
  lemma {:induction false} RunsFromHead(s: string, cur: string, k: CharClass)
    requires cur != []
    ensures RunsFrom(s, cur, k) != []
    ensures RunsFrom(s, cur, k)[0] == cur + s[..InPrefix(s, k)]
  {
    if s != [] && InClass(k, s[0]) {
      RunsFromHead(s[1..], cur + [s[0]], k);
      assert s[..InPrefix(s, k)] == [s[0]] + s[1..][..InPrefix(s[1..], k)];
    }
  }

  /** `re.findall('[k]+', s)` is empty exactly when no character of `s` is in the class. */
  lemma {:induction false} FindAllEmpty(s: string, k: CharClass)
    ensures FindAll(s, k) == [] <==> NoneIn(k, s)
  {
    if s != [] {
      if InClass(k, s[0]) {
        assert [] + [s[0]] == [s[0]];
        RunsFromHead(s[1..], [s[0]], k);
      } else {
        assert FindAll(s, k) == Pending([]) + FindAll(s[1..], k) == FindAll(s[1..], k);
        FindAllEmpty(s[1..], k);
        if NoneIn(k, s[1..]) {
          forall i | 0 <= i < |s| ensures !InClass(k, s[i]) {
            if i > 0 {
              assert s[i] == s[1..][i - 1];
            }
          }
        }
      }
    }
  }

  /** When `s` begins inside the class, the first run is its longest such prefix. */
  lemma FirstRunAtStart(s: string, k: CharClass)
    requires s != [] && InClass(k, s[0])
    ensures FindAll(s, k) != [] && FindAll(s, k)[0] == s[..InPrefix(s, k)]
  {
    assert [] + [s[0]] == [s[0]];
    assert FindAll(s, k) == RunsFrom(s[1..], [s[0]], k);
    RunsFromHead(s[1..], [s[0]], k);
    assert s[..InPrefix(s, k)] == [s[0]] + s[1..][..InPrefix(s[1..], k)];
  }

  /** `re.findall('[k]+', s)[0]` is the run that starts at the first character of the
      class and extends as far as the class does. */
  lemma {:induction false} FirstRun(s: string, k: CharClass)
    requires OutPrefix(s, k) < |s|
    ensures FindAll(s, k) != []
    ensures var i := OutPrefix(s, k);
      FindAll(s, k)[0] == s[i..][..InPrefix(s[i..], k)]
  {
    if InClass(k, s[0]) {
      FirstRunAtStart(s, k);
      assert s[0..] == s;
    } else {
      assert FindAll(s, k) == Pending([]) + FindAll(s[1..], k) == FindAll(s[1..], k);
      FirstRun(s[1..], k);
      assert s[1..][OutPrefix(s[1..], k)..] == s[OutPrefix(s, k)..];
    }
  }

  /** Python's `s.replace(a, b)` for single characters. */
  function ReplaceChar(s: string, a: char, b: char): (r: string)
    ensures |r| == |s|
    ensures forall i :: 0 <= i < |s| ==> r[i] == (if s[i] == a then b else s[i])
  {
    if s == [] then [] else [if s[0] == a then b else s[0]] + ReplaceChar(s[1..], a, b)
  }

  /** `' '.join(ws)` */
  function Join(ws: seq<string>): string {
    if ws == [] then []
    else if |ws| == 1 then ws[0]
    else ws[0] + [' '] + Join(ws[1..])
  }

  /** What `' '.join(s.split())` produces: the only whitespace is a plain space, it never
      begins or ends the text, and no two spaces are adjacent. */
  predicate Normalised(s: string) {
    && (forall i :: 0 <= i < |s| && IsSpace(s[i]) ==> s[i] == ' ')
    && (|s| > 0 ==> !IsSpace(s[0]) && !IsSpace(s[|s| - 1]))
    && (forall i :: 0 <= i < |s| - 1 && s[i] == ' ' ==> s[i + 1] != ' ')
  }

  lemma {:induction false} JoinNormalised(ws: seq<string>)
    requires IsRuns(ws, NonSpace)
    ensures Normalised(Join(ws))
    ensures Join(ws) == [] <==> ws == []
  {
    if |ws| > 1 {
      var w, j := ws[0], Join(ws[1..]);
      JoinNormalised(ws[1..]);
      var s := w + [' '] + j;
      assert s == Join(ws);
      forall i | 0 <= i < |s| && IsSpace(s[i]) ensures s[i] == ' ' {
        if i > |w| {
          assert s[i] == j[i - |w| - 1];
        }
      }
      forall i | 0 <= i < |s| - 1 && s[i] == ' ' ensures s[i + 1] != ' ' {
        if i == |w| {
          assert s[i + 1] == j[0];
        } else {
          assert s[i] == j[i - |w| - 1] && s[i + 1] == j[i - |w|];
        }
      }
      assert s[|s| - 1] == j[|j| - 1];
    }
  }

  /** Splitting what was joined from words gives back the words. */
  lemma {:induction false} WordsOfJoin(ws: seq<string>)
    requires IsRuns(ws, NonSpace)
    ensures FindAll(Join(ws), NonSpace) == ws
  {
    if |ws| == 1 {
      assert ws[0] + [] == ws[0] && [] + ws[0] == ws[0];
      RunsFromInside(ws[0], [], [], NonSpace);
      assert FindAll(Join(ws), NonSpace) == RunsFrom([], ws[0], NonSpace);
    } else if |ws| > 1 {
      var w, j := ws[0], Join(ws[1..]);
      assert Join(ws) == w + ([' '] + j);
      RunsFromInside(w, [' '] + j, [], NonSpace);
      assert [] + w == w;
      assert ([' '] + j)[0] == ' ' && ([' '] + j)[1..] == j;
      assert RunsFrom([' '] + j, w, NonSpace) == [w] + RunsFrom(j, [], NonSpace);
      WordsOfJoin(ws[1..]);
      assert ws == [w] + ws[1..];
    }
  }

  /** Turning one whitespace character into a plain space does not change `split()`. */
  lemma {:induction false} RunsFromReplaceSpace(s: string, cur: string, a: char)
    requires IsSpace(a)
    ensures RunsFrom(ReplaceChar(s, a, ' '), cur, NonSpace) == RunsFrom(s, cur, NonSpace)
  {
    if s != [] {
      var r := ReplaceChar(s, a, ' ');
      assert r[1..] == ReplaceChar(s[1..], a, ' ');
      if InClass(NonSpace, s[0]) {
        RunsFromReplaceSpace(s[1..], cur + [s[0]], a);
      } else {
        RunsFromReplaceSpace(s[1..], [], a);
      }
    }
  }

  predicate AllSpace(s: string) {
    forall c :: c in s ==> IsSpace(c)
  }

  /** `s.lstrip()` */
  function TrimStart(s: string): (r: string)
    ensures |r| <= |s| && r == s[|s| - |r|..]
    ensures r != [] ==> !IsSpace(r[0])
  {
    if s != [] && IsSpace(s[0]) then TrimStart(s[1..]) else s
  }

  /** What `lstrip()` removes is whitespace. */
  lemma {:induction false} TrimStartRemovesSpace(s: string)
    ensures AllSpace(s[..|s| - |TrimStart(s)|])
  {
    if s != [] && IsSpace(s[0]) {
      var n := |s| - |TrimStart(s)|;
      TrimStartRemovesSpace(s[1..]);
      assert s[..n] == [s[0]] + s[1..][..n - 1];
    }
  }

  /** `s.rstrip()` */
  function TrimEnd(s: string): (r: string)
    ensures |r| <= |s| && r == s[..|r|]
    ensures r != [] ==> !IsSpace(r[|r| - 1])
  {
    if s != [] && IsSpace(s[|s| - 1]) then TrimEnd(s[..|s| - 1]) else s
  }

  /** What `rstrip()` removes is whitespace. */
  lemma {:induction false} TrimEndRemovesSpace(s: string)
    ensures AllSpace(s[|TrimEnd(s)|..])
  {
    if s != [] && IsSpace(s[|s| - 1]) {
      var n := |TrimEnd(s)|;
      TrimEndRemovesSpace(s[..|s| - 1]);
      assert s[n..] == s[..|s| - 1][n..] + [s[|s| - 1]];
    }
  }

  /** Where the text `strip()` keeps begins in `s`. */
  function StripFrom(s: string): (i: nat)
    ensures i <= |s|
  {
    |s| - |TrimStart(s)|
  }

  /** `s.strip()`: what it keeps is the stretch of `s` after the part `lstrip()` removes. */
  function Strip(s: string): (r: string)
    ensures StripFrom(s) + |r| <= |s| && r == s[StripFrom(s)..StripFrom(s) + |r|]
  {
    var t := TrimStart(s);
    SliceOfSuffix(s, t, TrimEnd(t));
    TrimEnd(t)
  }

  /** Where the text `strip()` keeps ends in `s`. */
  function StripTo(s: string): (j: nat)
    ensures StripFrom(s) <= j <= |s|
  {
    StripFrom(s) + |Strip(s)|
  }

  /** A prefix `r` of a suffix `t` of `s` is a slice of `s`. */
  lemma SliceOfSuffix(s: string, t: string, r: string)
    requires |t| <= |s| && t == s[|s| - |t|..] && |r| <= |t| && r == t[..|r|]
    ensures r == s[|s| - |t|..|s| - |t| + |r|]
  {
  }

  /** What `strip()` removes at the end is whitespace. */
  lemma StripSuffixSpace(s: string)
    ensures AllSpace(s[StripTo(s)..])
  {
    var t := TrimStart(s);
    var r := TrimEnd(t);
    TrimEndRemovesSpace(t);
    assert t[|r|..] == s[StripTo(s)..];
  }

  /** What `strip()` keeps neither begins nor ends with whitespace. */
  lemma StripEnds(s: string)
    ensures Strip(s) != [] ==> !IsSpace(Strip(s)[0]) && !IsSpace(Strip(s)[|Strip(s)| - 1])
  {
    var t := TrimStart(s);
    if Strip(s) != [] {
      assert Strip(s)[0] == t[0];
    }
  }

  /** `strip()` removes exactly a whitespace prefix and a whitespace suffix, and what is
      left neither begins nor ends with whitespace. */
  lemma StripSpec(s: string)
    ensures Strip(s) == s[StripFrom(s)..StripTo(s)]
    ensures AllSpace(s[..StripFrom(s)]) && AllSpace(s[StripTo(s)..])
    ensures Strip(s) != [] ==> !IsSpace(Strip(s)[0]) && !IsSpace(Strip(s)[|Strip(s)| - 1])
  {
    TrimStartRemovesSpace(s);
    StripSuffixSpace(s);
    StripEnds(s);
  }

  lemma StripIdempotent(s: string)
    ensures Strip(Strip(s)) == Strip(s)
  {
    var r := Strip(s);
    StripEnds(s);
    assert TrimStart(r) == r;
    assert TrimEnd(r) == r;
  }
}
