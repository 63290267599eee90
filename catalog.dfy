/** The catalog walk that both versions' `run` perform: page URLs, the product
    selector, the stop rule, and the id each listed product consumes. */
module Catalog {
  import opened Wrappers
  import opened Chars
  import opened Numerals
  import opened Extractors
  import opened ImageMirror

  /** The image attributes `run` consults: `data-lazy-src`, `data-src` and `src`. */
  datatype ImageAttrs = ImageAttrs(lazySrc: Option<string>, dataSrc: Option<string>, src: Option<string>)

  /** An element of a listing page, reduced to what `run` reads from it, together with
      what the network answers for it: the detail page behind its link and the reply to
      its image request. */
  datatype Element = Element(
    classes: seq<string>,         // the tokens of its class attribute
    title: Option<string>,        // text of its first h2, else h3, else loop-title element
    link: Option<string>,         // href of its first anchor with an href
    price: Option<PriceBox>,      // its .price container
    star: Option<StarRating>,     // its .star-rating element
    image: Option<ImageAttrs>,    // its first img element
    detail: Option<DetailPage>,   // what get_soup returns for its link
    imageReply: ImageReply)       // what the image server answers

  /** What `get_soup` returns for a listing page: None (404, any request error, any
      other failing status) or the page's elements in document order. */
  datatype PageFetch = NoPage | Page(elements: seq<Element>)

  /** The selector of `run`: the class list holds both `product` and `type-product`. */
  predicate IsProduct(classes: seq<string>) {
    "product" in classes && "type-product" in classes
  }

  /** `soup.find_all(class_=...)` with that selector. */
  function Products(elements: seq<Element>): seq<Element> {
    if elements == [] then []
    else (if IsProduct(elements[0].classes) then [elements[0]] else []) + Products(elements[1..])
  }

  /** The selector keeps exactly the product elements, in document order. */
  lemma {:induction false} ProductsSpec(elements: seq<Element>)
    ensures forall e :: e in Products(elements) <==> e in elements && IsProduct(e.classes)
    ensures |Products(elements)| <= |elements|
  {
    if elements != [] {
      ProductsSpec(elements[1..]);
      assert elements == [elements[0]] + elements[1..];
    }
  }

  /** The selector keeps document order and multiplicity: the products of two stretches
      of elements are those of the first stretch followed by those of the second. */
  lemma {:induction false} ProductsAppend(a: seq<Element>, b: seq<Element>)
    ensures Products(a + b) == Products(a) + Products(b)
  {
    if a == [] {
      assert a + b == b;
    } else {
      assert (a + b)[0] == a[0] && (a + b)[1..] == a[1..] + b;
      ProductsAppend(a[1..], b);
      var h := if IsProduct(a[0].classes) then [a[0]] else [];
      var pa, pb := Products(a[1..]), Products(b);
      assert Products(a + b) == h + (pa + pb);
      assert h + (pa + pb) == (h + pa) + pb;
    }
  }

  /** A single element is selected exactly when its classes mark it as a product. */
  lemma ProductsSingle(e: Element)
    ensures Products([e]) == if IsProduct(e.classes) then [e] else []
  {
    assert [e][1..] == [];
  }

  function ProductsOn(f: PageFetch): seq<Element> {
    if f.NoPage? then [] else Products(f.elements)
  }

  /** The two ways the walk ends on a page: no document, or no product on it. */
  predicate Halts(f: PageFetch) {
    f.NoPage? || Products(f.elements) == []
  }

  /** The fetch result of page `k + 1`; the server has nothing beyond the pages given. */
  function Fetch(pages: seq<PageFetch>, k: nat): PageFetch {
    if k < |pages| then pages[k] else NoPage
  }

  /** The index of the first page at or after `k` on which the walk halts. */
  function StopFrom(pages: seq<PageFetch>, k: nat): (j: nat)
    requires k <= |pages|
    ensures k <= j <= |pages| && Halts(Fetch(pages, j))
    ensures forall i :: k <= i < j ==> !Halts(pages[i])
    decreases |pages| - k
  {
    if k == |pages| || Halts(pages[k]) then k else StopFrom(pages, k + 1)
  }

  /** The index of the page on which the walk halts: pages `1..StopAt(pages)` are
      processed and page `StopAt(pages) + 1` is the last one requested. */
  function StopAt(pages: seq<PageFetch>): (j: nat)
    ensures j <= |pages| && Halts(Fetch(pages, j))
    ensures forall i :: 0 <= i < j ==> !Halts(pages[i])
  {
    StopFrom(pages, 0)
  }

  /** The walk halts on no page before the stop page: the first halting page at or
      before it is the stop page itself. */
  lemma StopIsFirstHalt(pages: seq<PageFetch>, k: nat)
    requires k <= StopAt(pages) && Halts(Fetch(pages, k))
    ensures k == StopAt(pages)
  {
  }

  /** A page at or before the stop page on which the walk goes on lies before it. */
  lemma GoesOnBeforeStop(pages: seq<PageFetch>, k: nat)
    requires k <= StopAt(pages) && !Halts(Fetch(pages, k))
    ensures k < StopAt(pages) && k < |pages|
  {
  }

  /** The products of each page, page by page. */
  function PageProducts(pages: seq<PageFetch>): (r: seq<seq<Element>>)
    ensures |r| == |pages|
  {
    seq(|pages|, i requires 0 <= i < |pages| => ProductsOn(pages[i]))
  }

  /** The first `k` lists, one after the other. */
  function Joined(lists: seq<seq<Element>>, k: nat): seq<Element>
    requires k <= |lists|
  {
    if k == 0 then [] else Joined(lists, k - 1) + lists[k - 1]
  }

  /** The products of the first `k` pages, in the order `run` meets them. */
  function Listed(pages: seq<PageFetch>, k: nat): seq<Element>
    requires k <= |pages|
  {
    Joined(PageProducts(pages), k)
  }

  /** Going on to page `k + 1` lists its products after those of the pages before. */
  lemma ListedStep(pages: seq<PageFetch>, k: nat)
    requires k < |pages|
    ensures Listed(pages, k + 1) == Listed(pages, k) + ProductsOn(pages[k])
  {
    assert PageProducts(pages)[k] == ProductsOn(pages[k]);
  }

  function Emit<T>(o: Option<T>): seq<T> {
    if o.Some? then [o.value] else []
  }

  /** The records appended for the products `ps`, the first of which gets id `firstId`:
      product `j` gets id `firstId + j` whether it succeeds or not, and `assemble`
      yields None where the per-product `try` block raises. */
  function Collect<T>(ps: seq<Element>, firstId: nat, assemble: (Element, nat) -> Option<T>): seq<T> {
    if ps == [] then []
    else
      var n := |ps| - 1;
      Collect(ps[..n], firstId, assemble) + Emit(assemble(ps[n], firstId + n))
  }

  /** The positions of the products whose assembly succeeded, in order. */
  function Kept<T>(ps: seq<Element>, firstId: nat, assemble: (Element, nat) -> Option<T>): seq<nat> {
    if ps == [] then []
    else
      var n := |ps| - 1;
      Kept(ps[..n], firstId, assemble) + (if assemble(ps[n], firstId + n).Some? then [n] else [])
  }

  /** The kept positions are increasing positions of the products, and a position is
      kept exactly when its assembly succeeds. */
  lemma {:induction false} KeptSpec<T>(ps: seq<Element>, firstId: nat, assemble: (Element, nat) -> Option<T>)
    ensures var ks := Kept(ps, firstId, assemble);
      && (forall i :: 0 <= i < |ks| ==> ks[i] < |ps|)
      && (forall i, j :: 0 <= i < j < |ks| ==> ks[i] < ks[j])
      && (forall j :: 0 <= j < |ps| ==> (j in ks <==> assemble(ps[j], firstId + j).Some?))
  {
    if ps != [] {
      var n := |ps| - 1;
      var init := ps[..n];
      KeptSpec(init, firstId, assemble);
      var ks0 := Kept(init, firstId, assemble);
      assert forall j :: 0 <= j < n ==> init[j] == ps[j];
      assert n !in ks0;
    }
  }

  /** The collected records are exactly the successful assemblies, in product order,
      each made with the id of its product's position; failures leave nothing. */
  lemma {:induction false} CollectSpec<T>(ps: seq<Element>, firstId: nat, assemble: (Element, nat) -> Option<T>)
    ensures var c, ks := Collect(ps, firstId, assemble), Kept(ps, firstId, assemble);
      && |c| == |ks|
      && (forall i :: 0 <= i < |ks| ==> ks[i] < |ps| && assemble(ps[ks[i]], firstId + ks[i]) == Some(c[i]))
  {
    if ps != [] {
      var n := |ps| - 1;
      var init := ps[..n];
      CollectSpec(init, firstId, assemble);
      var c0, ks0 := Collect(init, firstId, assemble), Kept(init, firstId, assemble);
      var c, ks := Collect(ps, firstId, assemble), Kept(ps, firstId, assemble);
      var r := assemble(ps[n], firstId + n);
      assert c == c0 + Emit(r);
      assert ks == ks0 + (if r.Some? then [n] else []);
      forall i | 0 <= i < |ks|
        ensures ks[i] < |ps| && assemble(ps[ks[i]], firstId + ks[i]) == Some(c[i])
      {
        if i < |ks0| {
          assert ks[i] == ks0[i] && c[i] == c0[i];
          assert init[ks0[i]] == ps[ks0[i]];
        } else {
          assert ks[i] == n && c[i] == r.value;
        }
      }
    }
  }

  /** When no assembly can fail, every product gives a record, the `i`-th with id
      `firstId + i`. */
  lemma {:induction false} CollectTotal<T>(ps: seq<Element>, firstId: nat, assemble: (Element, nat) -> Option<T>)
    requires forall e, id :: assemble(e, id).Some?
    ensures |Collect(ps, firstId, assemble)| == |ps|
    ensures forall i :: 0 <= i < |ps| ==> Some(Collect(ps, firstId, assemble)[i]) == assemble(ps[i], firstId + i)
  {
    if ps != [] {
      var n := |ps| - 1;
      var init := ps[..n];
      CollectTotal(init, firstId, assemble);
      assert forall i :: 0 <= i < n ==> init[i] == ps[i];
    }
  }

  /** Taking one more product of `ps` appends its assembly, made with the next id. */
  lemma CollectStep<T>(ps: seq<Element>, i: nat, firstId: nat, assemble: (Element, nat) -> Option<T>)
    requires i < |ps|
    ensures Collect(ps[..i + 1], firstId, assemble) == Collect(ps[..i], firstId, assemble) + Emit(assemble(ps[i], firstId + i))
  {
    assert ps[..i + 1][..i] == ps[..i];
  }

  /** Collecting two stretches of products is collecting the first and then the
      second with the ids that follow. */
  lemma {:induction false} CollectAppend<T>(a: seq<Element>, b: seq<Element>, firstId: nat, assemble: (Element, nat) -> Option<T>)
    ensures Collect(a + b, firstId, assemble) == Collect(a, firstId, assemble) + Collect(b, firstId + |a|, assemble)
    decreases |b|
  {
    if b == [] {
      assert a + b == a;
    } else {
      var n := |b| - 1;
      assert (a + b)[..|a + b| - 1] == a + b[..n];
      assert (a + b)[|a + b| - 1] == b[n];
      CollectAppend(a, b[..n], firstId, assemble);
      var ca, cb := Collect(a, firstId, assemble), Collect(b[..n], firstId + |a|, assemble);
      var e := Emit(assemble(b[n], firstId + |a| + n));
      assert Collect(a + b, firstId, assemble) == (ca + cb) + e;
      assert Collect(b, firstId + |a|, assemble) == cb + e;
      assert (ca + cb) + e == ca + (cb + e);
    }
  }

  /** Appending the outcome of product `i` to the records of the products before it,
      on top of earlier records `d0`, gives the records of the products up to `i`. */
  lemma CollectExtend<T>(d0: seq<T>, ps: seq<Element>, i: nat, firstId: nat, assemble: (Element, nat) -> Option<T>)
    requires i < |ps|
    ensures d0 + Collect(ps[..i], firstId, assemble) + Emit(assemble(ps[i], firstId + i))
      == d0 + Collect(ps[..i + 1], firstId, assemble)
  {
    CollectStep(ps, i, firstId, assemble);
  }

  /** Collecting a prefix of the products gives a prefix of the records. */
  lemma CollectPrefix<T>(a: seq<Element>, b: seq<Element>, firstId: nat, assemble: (Element, nat) -> Option<T>)
    requires |a| <= |b| && b[..|a|] == a
    ensures var ca, cb := Collect(a, firstId, assemble), Collect(b, firstId, assemble);
      |ca| <= |cb| && cb[..|ca|] == ca
  {
    assert b == a + b[|a|..];
    CollectAppend(a, b[|a|..], firstId, assemble);
  }

  /** Fewer lists joined are a prefix of more lists joined. */
  lemma {:induction false} JoinedPrefix(lists: seq<seq<Element>>, k: nat, n: nat)
    requires k <= n <= |lists|
    ensures |Joined(lists, k)| <= |Joined(lists, n)| && Joined(lists, n)[..|Joined(lists, k)|] == Joined(lists, k)
    decreases n
  {
    if k < n {
      JoinedPrefix(lists, k, n - 1);
    }
  }

  /** The products of fewer pages are a prefix of the products of more pages. */
  lemma ListedPrefix(pages: seq<PageFetch>, k: nat, n: nat)
    requires k <= n <= |pages|
    ensures |Listed(pages, k)| <= |Listed(pages, n)| && Listed(pages, n)[..|Listed(pages, k)|] == Listed(pages, k)
  {
    JoinedPrefix(PageProducts(pages), k, n);
  }

  /** The records of a whole walk. */
  function Harvest<T>(pages: seq<PageFetch>, assemble: (Element, nat) -> Option<T>): seq<T> {
    Collect(Listed(pages, StopAt(pages)), 1, assemble)
  }

  /** `f"{base_url}page/{page}/" if page > 1 else base_url` */
  function PageUrl(base: string, page: nat): string {
    if page > 1 then base + "page/" + Decimal(page) + "/" else base
  }

  /** No two page numbers share a URL, so the walk never requests a page twice. */
  lemma PageUrlInjective(base: string, m: nat, n: nat)
    requires 1 <= m && 1 <= n && PageUrl(base, m) == PageUrl(base, n)
    ensures m == n
  {
    if m > 1 && n > 1 {
      var k := |base| + 5;
      assert PageUrl(base, m)[k..] == Decimal(m) + ['/'] + [];
      assert PageUrl(base, n)[k..] == Decimal(n) + ['/'] + [];
      DecimalPrefixUnique(m, n, '/', [], []);
    }
  }

  /** The URLs of pages `1..count`, in the order they are requested. */
  function PageUrls(base: string, count: nat): seq<string> {
    if count == 0 then [] else PageUrls(base, count - 1) + [PageUrl(base, count)]
  }

  /** The first `count` requests are pages 1 to `count`, in order. */
  lemma {:induction false} PageUrlsAt(base: string, count: nat)
    ensures |PageUrls(base, count)| == count
    ensures forall i :: 0 <= i < count ==> PageUrls(base, count)[i] == PageUrl(base, i + 1)
  {
    if count > 0 {
      var u, p := PageUrls(base, count), PageUrls(base, count - 1);
      PageUrlsAt(base, count - 1);
      assert u == p + [PageUrl(base, count)];
      forall i | 0 <= i < count
        ensures u[i] == PageUrl(base, i + 1)
      {
        if i < count - 1 {
          assert u[i] == p[i];
        }
      }
    }
  }

  lemma PageUrlsSpec(base: string, count: nat)
    ensures |PageUrls(base, count)| == count
    ensures forall i :: 0 <= i < count ==> PageUrls(base, count)[i] == PageUrl(base, i + 1)
    ensures forall i, j :: 0 <= i < j < count ==> PageUrls(base, count)[i] != PageUrls(base, count)[j]
  {
    PageUrlsAt(base, count);
    forall i, j | 0 <= i < j < count
      ensures PageUrls(base, count)[i] != PageUrls(base, count)[j]
    {
      PageUrlsDiffer(base, count, i, j);
    }
  }

  /** Two different positions of the request log hold different URLs. */
  lemma PageUrlsDiffer(base: string, count: nat, i: nat, j: nat)
    requires i < j < count
    ensures |PageUrls(base, count)| == count
    ensures PageUrls(base, count)[i] != PageUrls(base, count)[j]
  {
    PageUrlsAt(base, count);
    var u, v := PageUrl(base, i + 1), PageUrl(base, j + 1);
    if u == v {
      PageUrlInjective(base, i + 1, j + 1);
    }
  }

  /** Requesting page `count + 1` after the first `count` extends the request log by its URL. */
  lemma PageUrlsNext(log: seq<string>, base: string, count: nat)
    ensures log + PageUrls(base, count) + [PageUrl(base, count + 1)] == log + PageUrls(base, count + 1)
  {
    assert PageUrls(base, count + 1) == PageUrls(base, count) + [PageUrl(base, count + 1)];
  }

  /** The dataset held after the first `k` pages, starting from the records `d0`. */
  function HeldAfter<T>(d0: seq<T>, pages: seq<PageFetch>, assemble: (Element, nat) -> Option<T>, k: nat): seq<T>
    requires k <= |pages|
  {
    d0 + Collect(Listed(pages, k), 1, assemble)
  }

  /** Processing page `k + 1` appends the records of its products, numbered after
      those of the pages before it. */
  lemma HeldAfterStep<T>(d0: seq<T>, pages: seq<PageFetch>, assemble: (Element, nat) -> Option<T>, k: nat)
    requires k < |pages|
    ensures |Listed(pages, k + 1)| == |Listed(pages, k)| + |ProductsOn(pages[k])|
    ensures HeldAfter(d0, pages, assemble, k + 1)
         == HeldAfter(d0, pages, assemble, k) + Collect(ProductsOn(pages[k]), |Listed(pages, k)| + 1, assemble)
  {
    var before, here := Listed(pages, k), ProductsOn(pages[k]);
    ListedStep(pages, k);
    CollectAppend(before, here, 1, assemble);
    var c0, c1 := Collect(before, 1, assemble), Collect(here, |before| + 1, assemble);
    assert HeldAfter(d0, pages, assemble, k + 1) == d0 + (c0 + c1);
    assert d0 + (c0 + c1) == (d0 + c0) + c1;
  }

  /** The datasets a per-page save writes after each of the first `n` pages. */
  function Snapshots<T>(d0: seq<T>, pages: seq<PageFetch>, assemble: (Element, nat) -> Option<T>, n: nat): (r: seq<seq<T>>)
    requires n <= |pages|
    ensures |r| == n
  {
    if n == 0 then [] else Snapshots(d0, pages, assemble, n - 1) + [HeldAfter(d0, pages, assemble, n)]
  }

  /** Saving after page `n + 1` extends the snapshots by the dataset held then. */
  lemma SnapshotsNext<T>(log: seq<seq<T>>, d0: seq<T>, pages: seq<PageFetch>, assemble: (Element, nat) -> Option<T>, n: nat)
    requires n < |pages|
    ensures log + Snapshots(d0, pages, assemble, n) + [HeldAfter(d0, pages, assemble, n + 1)]
      == log + Snapshots(d0, pages, assemble, n + 1)
  {
    assert Snapshots(d0, pages, assemble, n + 1)
      == Snapshots(d0, pages, assemble, n) + [HeldAfter(d0, pages, assemble, n + 1)];
  }

  lemma {:induction false} SnapshotsAt<T>(d0: seq<T>, pages: seq<PageFetch>, assemble: (Element, nat) -> Option<T>, n: nat, i: nat)
    requires i < n <= |pages|
    ensures Snapshots(d0, pages, assemble, n)[i] == HeldAfter(d0, pages, assemble, i + 1)
  {
    var prev := Snapshots(d0, pages, assemble, n - 1);
    assert Snapshots(d0, pages, assemble, n) == prev + [HeldAfter(d0, pages, assemble, n)];
    if i < n - 1 {
      SnapshotsAt(d0, pages, assemble, n - 1, i);
      assert Snapshots(d0, pages, assemble, n)[i] == prev[i];
    }
  }

  /** The dataset only grows from page to page. */
  lemma {:induction false} HeldAfterGrows<T>(d0: seq<T>, pages: seq<PageFetch>, assemble: (Element, nat) -> Option<T>, k: nat, m: nat)
    requires k <= m <= |pages|
    ensures var hk, hm := HeldAfter(d0, pages, assemble, k), HeldAfter(d0, pages, assemble, m);
      |hk| <= |hm| && hm[..|hk|] == hk
  {
    ListedPrefix(pages, k, m);
    CollectPrefix(Listed(pages, k), Listed(pages, m), 1, assemble);
  }
}
