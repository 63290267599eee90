/** The field extractors shared by both scraper versions, over text that has already
    been located in the markup: the price digits, the rating token, the stock count, the
    attribute table, the breadcrumbs and the gallery links. */
module Extractors {
  import opened Wrappers
  import opened Chars
  import opened Strings
  import opened Numerals
  import opened Cleaning

  /** The `.price` container of a listing entry: its whole text and the texts of its
      first `ins` and `del` descendants (None when there is no such tag). */
  datatype PriceBox = PriceBox(text: string, ins: Option<string>, del: Option<string>)

  /** `''.join(re.findall(r'[\d.,]+', t))`: the body of both versions of `get_digits`. */
  function DigitsText(t: string): string {
    Flatten(FindAll(t, PriceChar))
  }

  /** Joining the runs keeps exactly the digits, dots and commas of the text, in order;
      the result is empty exactly when there are none, and extracting again is a no-op. */
  lemma DigitsTextSpec(t: string)
    ensures DigitsText(t) == Keep(t, PriceChar)
    ensures AllIn(PriceChar, DigitsText(t))
    ensures DigitsText(t) == [] <==> NoneIn(PriceChar, t)
    ensures DigitsText(DigitsText(t)) == DigitsText(t)
  {
    FlattenFindAll(t, PriceChar);
    FlattenFindAll(Keep(t, PriceChar), PriceChar);
    KeepAll(Keep(t, PriceChar), PriceChar);
    KeepEmpty(t, PriceChar);
  }

  /** The runs are concatenated, not chosen: a price range such as "100 - 200" gives the
      one run "100200". */
  lemma DigitsTextJoinsRuns(low: string, sep: string, high: string)
    requires AllIn(PriceChar, low) && NoneIn(PriceChar, sep) && AllIn(PriceChar, high)
    ensures DigitsText(low + sep + high) == low + high
  {
    FlattenFindAll(low + sep + high, PriceChar);
    KeepAppend(low + sep, high, PriceChar);
    KeepAppend(low, sep, PriceChar);
    KeepAll(low, PriceChar);
    KeepAll(high, PriceChar);
    KeepEmpty(sep, PriceChar);
    assert Keep(low + sep, PriceChar) == low;
  }

  /** main_v2.py: `clean.replace(',', '.')`, the text handed to `float`. */
  function DecimalText(t: string): string {
    ReplaceChar(DigitsText(t), ',', '.')
  }

  /** The text for `float` holds only digits and dots, is empty exactly when the digits
      text is, and re-extracting from it gives it back. */
  lemma DecimalTextSpec(t: string)
    ensures forall i :: 0 <= i < |DecimalText(t)| ==> InClass(RatingChar, DecimalText(t)[i])
    ensures DecimalText(t) == [] <==> DigitsText(t) == []
    ensures DecimalText(DecimalText(t)) == DecimalText(t)
  {
    var d := DecimalText(t);
    DigitsTextSpec(t);
    DigitsTextSpec(d);
    assert AllIn(PriceChar, d);
    KeepAll(d, PriceChar);
    assert forall i :: 0 <= i < |d| ==> d[i] != ',';
    assert ReplaceChar(d, ',', '.') == d;
  }

  /** The `.star-rating` element: its `aria-label` attribute (None when missing) and its
      text. */
  datatype StarRating = StarRating(ariaLabel: Option<string>, text: string)

  /** `star_rating.get('aria-label') or star_rating.text` */
  function RatingText(s: StarRating): string {
    OrElse(s.ariaLabel, Some(s.text)).value
  }

  /** `re.findall(r"[\d\.]+", rating_text)[0]`, None when the list is empty. */
  function RatingToken(s: StarRating): Option<string> {
    var ts := FindAll(RatingText(s), RatingChar);
    if ts == [] then None else Some(ts[0])
  }

  /** The rating token is missing exactly when the chosen text has no digit or dot;
      otherwise it is the run of digits and dots that starts at the first such
      character and goes as far as it can. The label wins over the text when present. */
  lemma RatingTokenSpec(s: StarRating)
    ensures Truthy(s.ariaLabel) ==> RatingText(s) == s.ariaLabel.value
    ensures !Truthy(s.ariaLabel) ==> RatingText(s) == s.text
    ensures RatingToken(s).None? <==> NoneIn(RatingChar, RatingText(s))
    ensures RatingToken(s).Some? ==>
      var t := RatingText(s);
      var i := OutPrefix(t, RatingChar);
      var n := InPrefix(t[i..], RatingChar);
      && n > 0 && RatingToken(s).value == t[i..][..n]
      && NoneIn(RatingChar, t[..i]) && AllIn(RatingChar, t[i..][..n])
      && (i + n < |t| ==> !InClass(RatingChar, t[i + n]))
  {
    var t := RatingText(s);
    FindAllEmpty(t, RatingChar);
    if OutPrefix(t, RatingChar) < |t| {
      FirstRun(t, RatingChar);
      var i := OutPrefix(t, RatingChar);
      assert t[i..][0] == t[i];
    }
  }

  /** The `p.stock` element: `int` of the first `\d+` run of its text, 0 when there is
      no element or no digit. */
  function StockQuantity(text: Option<string>): nat {
    if text.None? then 0
    else
      var ns := FindAll(text.value, Digit);
      if ns == [] then 0
      else
        FindAllShape(text.value, Digit);
        DigitsValue(ns[0])
  }

  /** The stock count is 0 without a digit; otherwise it is the value of the digit run
      that starts at the first digit of the text. */
  lemma StockQuantitySpec(text: Option<string>)
    ensures text.None? || NoneIn(Digit, text.value) ==> StockQuantity(text) == 0
    ensures text.Some? && !NoneIn(Digit, text.value) ==>
      var t := text.value;
      var i := OutPrefix(t, Digit);
      var n := InPrefix(t[i..], Digit);
      && n > 0 && NoneIn(Digit, t[..i]) && (i + n < |t| ==> !IsDigit(t[i + n]))
      && StockQuantity(text) == DigitsValue(t[i..][..n])
  {
    if text.Some? {
      var t := text.value;
      FindAllEmpty(t, Digit);
      if OutPrefix(t, Digit) < |t| {
        FirstRun(t, Digit);
        var i := OutPrefix(t, Digit);
        assert t[i..][0] == t[i];
      }
    }
  }

  /** A row of the `shop_attributes` table: the texts of its first `th` and first `td`,
      None when the row has no such cell. */
  datatype Row = Row(th: Option<string>, td: Option<string>)

  predicate Complete(r: Row) {
    r.th.Some? && r.td.Some?
  }

  /** The dict a loop over table rows builds: each row with both cells stores
      `value(row)` under `key(row)`, rows in table order, so later rows overwrite. */
  function Table<K(==), V>(rows: seq<Row>, key: Row -> K, value: Row -> V): map<K, V> {
    if rows == [] then map[]
    else
      var m := Table(rows[..|rows| - 1], key, value);
      var r := rows[|rows| - 1];
      if Complete(r) then m[key(r) := value(r)] else m
  }

  /** Row `i` is complete and its key is `k`. */
  predicate Stores<K(==)>(rows: seq<Row>, key: Row -> K, i: int, k: K) {
    0 <= i < |rows| && Complete(rows[i]) && key(rows[i]) == k
  }

  /** A key is present exactly when some complete row has it. */
  lemma {:induction false} TableKeys<K, V>(rows: seq<Row>, key: Row -> K, value: Row -> V, k: K)
    ensures k in Table(rows, key, value) <==> exists i :: Stores(rows, key, i, k)
  {
    if rows != [] {
      var n := |rows| - 1;
      var init := rows[..n];
      TableKeys(init, key, value, k);
      if Stores(rows, key, n, k) {
        assert k in Table(rows, key, value);
      } else {
        assert k in Table(rows, key, value) <==> k in Table(init, key, value);
        if k in Table(rows, key, value) {
          var i :| Stores(init, key, i, k);
          assert rows[i] == init[i];
          assert Stores(rows, key, i, k);
        }
        if exists i :: Stores(rows, key, i, k) {
          var i :| Stores(rows, key, i, k);
          assert rows[i] == init[i];
          assert Stores(init, key, i, k);
        }
      }
    }
  }

  /** Row `i` is the last complete row whose key is `k`. */
  predicate LastStores<K(==)>(rows: seq<Row>, key: Row -> K, i: int, k: K) {
    Stores(rows, key, i, k) && forall j :: i < j < |rows| ==> !Stores(rows, key, j, k)
  }

  /** A row that does not store `k` keeps the last row storing `k` the last. */
  lemma LastStoresExtend<K>(rows: seq<Row>, key: Row -> K, i: int, k: K)
    requires rows != [] && !Stores(rows, key, |rows| - 1, k)
    requires LastStores(rows[..|rows| - 1], key, i, k)
    ensures LastStores(rows, key, i, k)
  {
    var init := rows[..|rows| - 1];
    assert rows[i] == init[i];
    forall j | i < j < |rows| ensures !Stores(rows, key, j, k) {
      if j < |init| {
        assert rows[j] == init[j];
        assert !Stores(init, key, j, k);
      }
    }
  }

  /** The value stored under a key comes from the last complete row with that key. */
  lemma {:induction false} TableLastWins<K, V>(rows: seq<Row>, key: Row -> K, value: Row -> V, k: K)
    requires k in Table(rows, key, value)
    ensures exists i :: LastStores(rows, key, i, k) && Table(rows, key, value)[k] == value(rows[i])
  {
    var n := |rows| - 1;
    var init := rows[..n];
    if Stores(rows, key, n, k) {
      assert LastStores(rows, key, n, k);
      assert Table(rows, key, value)[k] == value(rows[n]);
    } else {
      assert Table(rows, key, value)[k] == Table(init, key, value)[k];
      TableLastWins(init, key, value, k);
      var i :| LastStores(init, key, i, k) && Table(init, key, value)[k] == value(init[i]);
      LastStoresExtend(rows, key, i, k);
      assert rows[i] == init[i];
    }
  }

  /** The cleaned header and cell text of a row. */
  function KeyOf(v: Version): Row -> Option<string> {
    (r: Row) => CleanText(v, r.th)
  }

  function ValueOf(v: Version): Row -> Option<string> {
    (r: Row) => CleanText(v, r.td)
  }

  /** The attribute dict after the row loop: each row with both cells stores its cleaned
      `td` text under its cleaned `th` text, rows in table order. */
  function Attributes(v: Version, rows: seq<Row>): map<Option<string>, Option<string>> {
    Table(rows, KeyOf(v), ValueOf(v))
  }

  /** Row `i` stores key `k`. */
  predicate HasKey(v: Version, rows: seq<Row>, i: int, k: Option<string>) {
    Stores(rows, KeyOf(v), i, k)
  }

  /** Row `i` is the last row that stores key `k`. */
  predicate LastWithKey(v: Version, rows: seq<Row>, i: int, k: Option<string>) {
    LastStores(rows, KeyOf(v), i, k)
  }

  /** A key is present exactly when some complete row has it: incomplete rows are
      skipped. */
  lemma AttributesKeys(v: Version, rows: seq<Row>, k: Option<string>)
    ensures k in Attributes(v, rows) <==> exists i :: HasKey(v, rows, i, k)
  {
    TableKeys(rows, KeyOf(v), ValueOf(v), k);
    if k in Attributes(v, rows) {
      var i :| Stores(rows, KeyOf(v), i, k);
      assert HasKey(v, rows, i, k);
    }
    if exists i :: HasKey(v, rows, i, k) {
      var i :| HasKey(v, rows, i, k);
      assert Stores(rows, KeyOf(v), i, k);
    }
  }

  /** The value stored under a key comes from the last complete row with that key:
      later rows overwrite earlier ones. */
  lemma AttributesLastWins(v: Version, rows: seq<Row>, k: Option<string>)
    requires k in Attributes(v, rows)
    ensures exists i :: LastWithKey(v, rows, i, k) && Attributes(v, rows)[k] == CleanText(v, rows[i].td)
  {
    TableLastWins(rows, KeyOf(v), ValueOf(v), k);
  }

  /** `[clean_text(link.text) for link in links if link.text]` over the breadcrumb
      link texts. */
  function Breadcrumbs(links: seq<string>): seq<string> {
    if links == [] then []
    else (if links[0] != [] then [CleanTextV2(Some(links[0])).value] else []) + Breadcrumbs(links[1..])
  }

  /** Breadcrumbs keep link order: the list for two stretches of links is the two lists
      one after the other. */
  lemma {:induction false} BreadcrumbsAppend(a: seq<string>, b: seq<string>)
    ensures Breadcrumbs(a + b) == Breadcrumbs(a) + Breadcrumbs(b)
  {
    if a == [] {
      assert a + b == b;
    } else {
      assert (a + b)[0] == a[0] && (a + b)[1..] == a[1..] + b;
      BreadcrumbsAppend(a[1..], b);
    }
  }

  /** Every breadcrumb is the cleaned text of a non-empty link; every non-empty link
      contributes one; empty links contribute nothing. */
  lemma {:induction false} BreadcrumbsSpec(links: seq<string>)
    ensures |Breadcrumbs(links)| <= |links|
    ensures forall x :: x in Breadcrumbs(links) <==>
      exists t :: t in links && t != [] && x == CleanTextV2(Some(t)).value
    ensures (forall t :: t in links ==> t == []) ==> Breadcrumbs(links) == []
  {
    if links != [] {
      var rest := links[1..];
      BreadcrumbsSpec(rest);
      var head: seq<string> := if links[0] != [] then [CleanTextV2(Some(links[0])).value] else [];
      assert Breadcrumbs(links) == head + Breadcrumbs(rest);
      assert links == [links[0]] + rest;
      forall x | x in Breadcrumbs(links)
        ensures exists t :: t in links && t != [] && x == CleanTextV2(Some(t)).value
      {
        if x in head {
          assert links[0] in links;
        } else {
          var t :| t in rest && t != [] && x == CleanTextV2(Some(t)).value;
          assert t in links;
        }
      }
      forall x, t | t in links && t != [] && x == CleanTextV2(Some(t)).value
        ensures x in Breadcrumbs(links)
      {
        if t != links[0] {
          assert t in rest;
        }
      }
      if forall t :: t in links ==> t == [] {
        assert links[0] in links;
        forall t | t in rest ensures t == [] {
          assert t in links;
        }
      }
    }
  }

  /** `url.endswith(('.jpg', '.png', '.jpeg', '.webp'))`, case-sensitive. */
  predicate HasImageExtension(u: string) {
    EndsWith(u, ".jpg") || EndsWith(u, ".png") || EndsWith(u, ".jpeg") || EndsWith(u, ".webp")
  }

  /** The gallery list after the loop over the anchors' hrefs: the image hrefs in order. */
  function Gallery(hrefs: seq<string>): seq<string> {
    if hrefs == [] then []
    else
      var n := |hrefs| - 1;
      Gallery(hrefs[..n]) + (if HasImageExtension(hrefs[n]) then [hrefs[n]] else [])
  }

  /** Exactly the hrefs with an image extension are kept, duplicates included. */
  lemma {:induction false} GalleryMembers(hrefs: seq<string>)
    ensures forall u :: u in Gallery(hrefs) <==> u in hrefs && HasImageExtension(u)
    ensures |Gallery(hrefs)| <= |hrefs|
  {
    if hrefs != [] {
      var n := |hrefs| - 1;
      GalleryMembers(hrefs[..n]);
      assert hrefs == hrefs[..n] + [hrefs[n]];
    }
  }

  /** The gallery keeps href order: two stretches of anchors give their lists in turn. */
  lemma {:induction false} GalleryAppend(a: seq<string>, b: seq<string>)
    ensures Gallery(a + b) == Gallery(a) + Gallery(b)
  {
    if b == [] {
      assert a + b == a;
    } else {
      var n := |b| - 1;
      assert (a + b)[..|a + b| - 1] == a + b[..n];
      GalleryAppend(a, b[..n]);
    }
  }

  /** A detail page as `get_soup` returns it, reduced to the parts the extractors read;
      each part is None when its container is missing from the page. */
  datatype DetailPage = DetailPage(
    table: Option<seq<Row>>,             // rows of table.shop_attributes
    description: Option<string>,         // text of the description tab panel
    stock: Option<string>,               // text of p.stock
    breadcrumbs: Option<seq<string>>,    // texts of the links in div.breadcrumb
    gallery: Option<seq<string>>)        // hrefs of the anchors in .image-additional
}
