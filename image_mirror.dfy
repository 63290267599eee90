/** The file-name and URL rules of `download_image`, which mirrors a product's main
    image into the `images/` directory. */
module ImageMirror {
  import opened Wrappers
  import opened Chars
  import opened Strings
  import opened Numerals

  // The characters that download_image's re.sub pattern removes from a product name:
  // backslash, slash, star, question mark, colon, double quote, angle brackets, bar.
  const BannedChars: string := ['\\', '/', '*', '?', ':', '"', '<', '>', '|']

  predicate Banned(c: char) {
    c in BannedChars
  }

  /** The `re.sub` that deletes every banned character. */
  function RemoveBanned(s: string): (r: string)
    ensures |r| <= |s| && forall i :: 0 <= i < |r| ==> !Banned(r[i])
    ensures (forall i :: 0 <= i < |s| ==> !Banned(s[i])) ==> r == s
  {
    if s == [] then [] else (if Banned(s[0]) then [] else [s[0]]) + RemoveBanned(s[1..])
  }

  /** The characters that survive are exactly the non-banned ones of the name. */
  lemma {:induction false} RemoveBannedMembers(s: string)
    ensures forall c :: c in RemoveBanned(s) <==> c in s && !Banned(c)
  {
    if s != [] {
      RemoveBannedMembers(s[1..]);
      assert s == [s[0]] + s[1..];
    }
  }

  /** The deletion keeps the order of what it keeps: the name split in two is cleaned
      part by part (with RemoveBannedSingle, a character is dropped exactly when banned). */
  lemma {:induction false} RemoveBannedAppend(a: string, b: string)
    ensures RemoveBanned(a + b) == RemoveBanned(a) + RemoveBanned(b)
  {
    if a != [] {
      assert (a + b)[0] == a[0] && (a + b)[1..] == a[1..] + b;
      RemoveBannedAppend(a[1..], b);
      var h := if Banned(a[0]) then [] else [a[0]];
      var ra, rb := RemoveBanned(a[1..]), RemoveBanned(b);
      assert RemoveBanned(a + b) == h + (ra + rb);
      assert h + (ra + rb) == (h + ra) + rb;
    } else {
      assert a + b == b;
    }
  }

  lemma RemoveBannedSingle(c: char)
    ensures RemoveBanned([c]) == if Banned(c) then [] else [c]
  {
    assert [c][1..] == [];
  }

  /** The name before truncation: banned characters gone, spaces turned into `_`. */
  function Sanitised(name: string): string {
    ReplaceChar(RemoveBanned(name), ' ', '_')
  }

  /** `safe_name`: the sanitised name cut to its first `width` characters
      (50 in main_v2.py, 30 in main_v1.py). */
  function SafeName(name: string, width: nat): string {
    var t := Sanitised(name);
    if |t| <= width then t else t[..width]
  }

  /** A name that can stand in a file name as `download_image` builds it. */
  predicate IsSafe(s: string, width: nat) {
    |s| <= width && forall i :: 0 <= i < |s| ==> !Banned(s[i]) && s[i] != ' '
  }

  /** `safe_name` holds no banned character and no space, is at most `width` long, and is
      the longest such prefix of the sanitised name. */
  lemma SafeNameSpec(name: string, width: nat)
    ensures IsSafe(SafeName(name, width), width)
    ensures var t := Sanitised(name);
      SafeName(name, width) == t[..if |t| <= width then |t| else width]
  {
    var t := Sanitised(name);
    assert forall i :: 0 <= i < |t| ==> !Banned(t[i]) && t[i] != ' ';
  }

  /** A name that is already safe passes through unchanged. */
  lemma SafeNameKeepsSafe(name: string, width: nat)
    requires IsSafe(name, width)
    ensures SafeName(name, width) == name
  {
    assert RemoveBanned(name) == name;
    assert ReplaceChar(name, ' ', '_') == name;
  }

  lemma SafeNameIdempotent(name: string, width: nat)
    ensures SafeName(SafeName(name, width), width) == SafeName(name, width)
  {
    SafeNameSpec(name, width);
    SafeNameKeepsSafe(SafeName(name, width), width);
  }

  /** `f"images/{index}_{safe_name}.jpg"` */
  function ImagePath(index: nat, safeName: string): string {
    "images/" + (Decimal(index) + "_" + (safeName + ".jpg"))
  }

  /** Different (index, name) pairs never share a file: the index is what keeps two
      products with the same name apart. */
  lemma ImagePathInjective(i: nat, a: string, j: nat, b: string)
    requires ImagePath(i, a) == ImagePath(j, b)
    ensures i == j && a == b
  {
    var dir := "images/";
    var x, y := Decimal(i) + "_" + (a + ".jpg"), Decimal(j) + "_" + (b + ".jpg");
    assert (dir + x)[|dir|..] == x && (dir + y)[|dir|..] == y;
    DecimalPrefixUnique(i, j, '_', a + ".jpg", b + ".jpg");
    assert a == (a + ".jpg")[..|a|] == (b + ".jpg")[..|b|] == b;
  }

  /** The URL rule of `download_image`: an empty or missing URL is refused, one that
      starts with `http` is used as it is, a protocol-relative `//...` one gets `https:`
      in front, and anything else is refused. */
  function AcceptUrl(url: Option<string>): (r: Option<string>)
    ensures r.Some? <==> Truthy(url) && ("http" <= url.value || "//" <= url.value)
    ensures r.Some? ==> "http" <= r.value
    ensures r.Some? && "http" <= url.value ==> r == url
    ensures r.Some? && !("http" <= url.value) ==> r.value == "https:" + url.value
  {
    if !Truthy(url) then None
    else if "http" <= url.value then url
    else if "//" <= url.value then Some("https:" + url.value)
    else None
  }

  lemma AcceptUrlIdempotent(url: Option<string>)
    ensures AcceptUrl(url).Some? ==> AcceptUrl(AcceptUrl(url)) == AcceptUrl(url)
  {
  }

  /** What the image server does with the request: no answer at all (a transport error),
      or an HTTP status together with whether the body could be written to disk. */
  datatype ImageReply = NoReply | Reply(status: int, written: bool)

  /** The path `download_image` derives, when it gets that far: the URL must be accepted
      and the name must be a string (`re.sub` raises on None and the handler returns
      None). */
  function DerivedPath(url: Option<string>, name: Option<string>, index: nat, width: nat): Option<string> {
    if AcceptUrl(url).Some? && name.Some? then Some(ImagePath(index, SafeName(name.value, width)))
    else None
  }

  /** The URL `download_image` requests, or None when it returns before any request:
      refused URL, no name, or the derived file already present. */
  function ImageRequest(url: Option<string>, name: Option<string>, index: nat, existing: set<string>, width: nat): Option<string> {
    match DerivedPath(url, name, index, width)
    case None => None
    case Some(path) => if path in existing then None else AcceptUrl(url)
  }

  /** `download_image(img_url, product_name, index)` over the set of files already in
      `images/` and the server's reply. */
  function DownloadImage(url: Option<string>, name: Option<string>, index: nat, existing: set<string>,
                         reply: ImageReply, width: nat): Option<string>
  {
    match DerivedPath(url, name, index, width)
    case None => None
    case Some(path) =>
      if path in existing then Some(path)
      else if reply.Reply? && reply.status == 200 && reply.written then Some(path)
      else None
  }

  /** The result is the derived path or nothing; it is the path exactly when the file was
      already there or the server answered 200 and the body was written. */
  lemma DownloadImageSpec(url: Option<string>, name: Option<string>, index: nat, existing: set<string>,
                          reply: ImageReply, width: nat)
    ensures var r := DownloadImage(url, name, index, existing, reply, width);
      && (r.Some? <==> && AcceptUrl(url).Some? && name.Some?
                       && (ImagePath(index, SafeName(name.value, width)) in existing || reply == Reply(200, true)))
      && (r.Some? ==> r == DerivedPath(url, name, index, width))
      && (r.Some? ==> "images/" <= r.value && IsSafe(SafeName(name.value, width), width))
  {
    if name.Some? {
      SafeNameSpec(name.value, width);
    }
  }

  /** When no request is made the server's reply cannot matter: an existing file is
      returned as it is. */
  lemma NoRequestNoReply(url: Option<string>, name: Option<string>, index: nat, existing: set<string>,
                         reply1: ImageReply, reply2: ImageReply, width: nat)
    requires ImageRequest(url, name, index, existing, width).None?
    ensures DownloadImage(url, name, index, existing, reply1, width)
         == DownloadImage(url, name, index, existing, reply2, width)
    ensures DerivedPath(url, name, index, width).Some? ==>
      DownloadImage(url, name, index, existing, reply1, width) == DerivedPath(url, name, index, width)
  {
  }

  /** When a request is made the server's reply decides the result: a 200 with the body
      written gives the derived path, no reply gives nothing. */
  lemma RequestReplyMatters(url: Option<string>, name: Option<string>, index: nat, existing: set<string>, width: nat)
    requires ImageRequest(url, name, index, existing, width).Some?
    ensures DownloadImage(url, name, index, existing, NoReply, width).None?
    ensures DownloadImage(url, name, index, existing, Reply(200, true), width) == DerivedPath(url, name, index, width)
    ensures DownloadImage(url, name, index, existing, NoReply, width)
         != DownloadImage(url, name, index, existing, Reply(200, true), width)
  {
  }

  /** A request goes only to an `http` URL, the accepted form of the given one. */
  lemma RequestIsHttp(url: Option<string>, name: Option<string>, index: nat, existing: set<string>, width: nat)
    requires ImageRequest(url, name, index, existing, width).Some?
    ensures ImageRequest(url, name, index, existing, width) == AcceptUrl(url)
    ensures "http" <= ImageRequest(url, name, index, existing, width).value
  {
  }
}
