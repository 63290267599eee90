/** `KitkaParser` (main_v1.py): the earlier listing walk, which keeps prices and ratings
    as text, reads only the attribute table of a detail page, and writes the dataset
    file once, after the last page. */
module ParserV1 {
  import opened Wrappers
  import opened Chars
  import opened Strings
  import opened Cleaning
  import opened ImageMirror
  import opened Extractors
  import opened Catalog

  /** `safe_name` is cut to this many characters. */
  const NameWidth: nat := 30

  /** `price_data`: both prices as the digit text `get_digits` returns, and the fixed
      currency. */
  datatype PriceInfo = PriceInfo(price: string, salePrice: Option<string>, currency: string)

  /** `parse_price(price_html)`; `get_digits` is `DigitsText`, which never fails. */
  function ParsePriceV1(box: Option<PriceBox>): PriceInfo {
    if box.None? then PriceInfo("0", None, "UAH")
    else
      var b := box.value;
      if b.ins.Some? && b.del.Some? then PriceInfo(DigitsText(b.del.value), Some(DigitsText(b.ins.value)), "UAH")
      else PriceInfo(DigitsText(b.text), None, "UAH")
  }

  /** Without a container the price is the text "0" and there is no sale price.
      Otherwise a sale price appears exactly when both an `ins` and a `del` tag are
      present; the price is then taken from the crossed-out `del` text and the sale
      price from the `ins` text, and else from the whole container. Each is exactly
      the digits, dots and commas of its text, in order, with nothing converted. */
  lemma ParsePriceV1Spec(box: Option<PriceBox>)
    ensures var r := ParsePriceV1(box);
      && r.currency == "UAH"
      && (box.None? ==> r.price == "0" && r.salePrice.None?)
      && (box.Some? ==> (r.salePrice.Some? <==> box.value.ins.Some? && box.value.del.Some?))
      && (box.Some? && r.salePrice.Some? ==>
            r.price == Keep(box.value.del.value, PriceChar) && r.salePrice.value == Keep(box.value.ins.value, PriceChar))
      && (box.Some? && r.salePrice.None? ==> r.price == Keep(box.value.text, PriceChar))
      && (box.Some? ==> AllIn(PriceChar, r.price))
  {
    if box.Some? {
      var b := box.value;
      DigitsTextSpec(b.text);
      if b.ins.Some? && b.del.Some? {
        DigitsTextSpec(b.del.value);
        DigitsTextSpec(b.ins.value);
      }
    }
  }

  /** The rating: "0" without a `.star-rating` element, otherwise the stripped label, or
      the stripped text when the label is missing or empty (None when that is empty). */
  function RatingV1(star: Option<StarRating>): Option<string> {
    if star.None? then Some("0") else CleanTextV1(Some(RatingText(star.value)))
  }

  /** The rating is "0" without a star element; otherwise it is missing exactly when the
      chosen text is empty, and is that text with the surrounding whitespace removed;
      the label is chosen whenever it is a non-empty string. */
  lemma RatingV1Spec(star: Option<StarRating>)
    ensures star.None? ==> RatingV1(star) == Some("0")
    ensures star.Some? && Truthy(star.value.ariaLabel) ==> RatingV1(star) == Some(Strip(star.value.ariaLabel.value))
    ensures star.Some? && !Truthy(star.value.ariaLabel) ==>
      (RatingV1(star).None? <==> star.value.text == []) &&
      (star.value.text != [] ==> RatingV1(star) == Some(Strip(star.value.text)))
    ensures RatingV1(star).Some? && RatingV1(star).value != [] ==>
      !IsSpace(RatingV1(star).value[0]) && !IsSpace(RatingV1(star).value[|RatingV1(star).value| - 1])
  {
    if star.Some? {
      var t := RatingText(star.value);
      assert RatingV1(star) == CleanTextV1(Some(t));
      StripEnds(t);
    }
  }

  /** The `details` dict of `get_product_details`: the attribute table only. */
  type Details = map<Option<string>, Option<string>>

  /** What `get_product_details(product_url)` returns, given what `get_soup` answers
      for the URL. */
  function DetailsV1(url: Option<string>, page: Option<DetailPage>): Details {
    if !Truthy(url) || page.None? || page.value.table.None? then map[]
    else Attributes(V1, page.value.table.value)
  }

  /** Without a URL, a page or an attribute table the dict is empty. Otherwise a key is
      present exactly when some row with both cells has it as its stripped header
      text, and its value is the stripped data text of the last such row. */
  lemma DetailsV1Spec(url: Option<string>, page: Option<DetailPage>, k: Option<string>)
    ensures !Truthy(url) || page.None? || page.value.table.None? ==> DetailsV1(url, page) == map[]
    ensures Truthy(url) && page.Some? && page.value.table.Some? ==>
      var rows := page.value.table.value;
      && (k in DetailsV1(url, page) <==> exists i :: HasKey(V1, rows, i, k))
      && (k in DetailsV1(url, page) ==>
            exists i :: LastWithKey(V1, rows, i, k) && DetailsV1(url, page)[k] == CleanTextV1(rows[i].td))
  {
    if Truthy(url) && page.Some? && page.value.table.Some? {
      var rows := page.value.table.value;
      AttributesKeys(V1, rows, k);
      if k in Attributes(V1, rows) {
        AttributesLastWins(V1, rows, k);
      }
    }
  }

  /** One record of the dataset. */
  datatype ItemV1 = ItemV1(
    name: Option<string>,
    originalPrice: string,
    salePrice: Option<string>,
    rating: Option<string>,
    url: Option<string>,
    localImagePath: Option<string>,
    additionalInfo: Details)

  /** The name: the stripped title when there is a title element, else the placeholder
      "Unknown Product". */
  function TitleV1(e: Element): Option<string> {
    if e.title.Some? then CleanTextV1(e.title) else Some("Unknown Product")
  }

  /** `img_el.get('data-lazy-src') or img_el.get('data-src') or img_el.get('src')` */
  function ImageUrlV1(img: ImageAttrs): Option<string> {
    OrElse(img.lazySrc, OrElse(img.dataSrc, img.src))
  }

  /** The name is missing only when the title element has empty text; without a title
      element it is "Unknown Product". */
  lemma TitleV1Spec(e: Element)
    ensures TitleV1(e).None? <==> e.title == Some("")
    ensures e.title.None? ==> TitleV1(e) == Some("Unknown Product")
  {
    CleanTextV1Spec(e.title);
  }

  /** The first non-empty of `data-lazy-src`, `data-src` and `src`, or `src` as it is
      when none is. */
  lemma ImageUrlV1Spec(img: ImageAttrs)
    ensures Truthy(ImageUrlV1(img)) <==> Truthy(img.lazySrc) || Truthy(img.dataSrc) || Truthy(img.src)
    ensures Truthy(img.lazySrc) ==> ImageUrlV1(img) == img.lazySrc
    ensures !Truthy(img.lazySrc) && Truthy(img.dataSrc) ==> ImageUrlV1(img) == img.dataSrc
    ensures !Truthy(img.lazySrc) && !Truthy(img.dataSrc) ==> ImageUrlV1(img) == img.src
  {
  }

  /** The body of the per-product `try` of `run` for the product numbered `id`. Nothing
      in it raises: the name, the prices and the rating have total rules, and a failing
      image download is absorbed inside `download_image`. */
  function AssembleV1(e: Element, id: nat, existing: set<string>): ItemV1 {
    var title := TitleV1(e);
    var prices := ParsePriceV1(e.price);
    var rating := RatingV1(e.star);
    var imgPath := if e.image.Some? then DownloadImage(ImageUrlV1(e.image.value), title, id, existing, e.imageReply, NameWidth)
                   else None;
    var additionalInfo := if Truthy(e.link) then DetailsV1(e.link, e.detail) else map[];
    ItemV1(title, prices.price, prices.salePrice, rating, e.link, imgPath, additionalInfo)
  }

  /** `AssembleV1` with the run's fixed inputs bound, as an assembly that never fails. */
  function AssemblerV1(existing: set<string>): (Element, nat) -> Option<ItemV1> {
    (e: Element, id: nat) => Some(AssembleV1(e, id, existing))
  }

  /** A record carries its product's link; without a title element it is named
      "Unknown Product"; the details come only from a product with a link; its image,
      when there is one, is the file `images/<id>_<safe name>.jpg` whose name part has
      no banned character, no space and at most 30 characters. */
  lemma AssembleV1Spec(e: Element, id: nat, existing: set<string>)
    ensures var r := AssembleV1(e, id, existing);
      && r.url == e.link
      && (e.title.None? ==> r.name == Some("Unknown Product"))
      && (!Truthy(e.link) ==> r.additionalInfo == map[])
      && (r.localImagePath.Some? ==>
            && r.name.Some?
            && r.localImagePath.value == ImagePath(id, SafeName(r.name.value, NameWidth))
            && IsSafe(SafeName(r.name.value, NameWidth), 30))
  {
    if e.image.Some? {
      DownloadImageSpec(ImageUrlV1(e.image.value), TitleV1(e), id, existing, e.imageReply, NameWidth);
    }
  }

  /** Product `i` of a stretch gives record `i`, assembled under id `i + 1`. */
  lemma CollectV1At(ps: seq<Element>, existing: set<string>, i: nat)
    requires i < |ps|
    ensures |Collect(ps, 1, AssemblerV1(existing))| == |ps|
    ensures Collect(ps, 1, AssemblerV1(existing))[i] == AssembleV1(ps[i], i + 1, existing)
  {
    var asm := AssemblerV1(existing);
    CollectTotal(ps, 1, asm);
    assert Some(Collect(ps, 1, asm)[i]) == asm(ps[i], 1 + i);
  }

  /** Every listed product of a run gives a record: the `i`-th record is the assembly of
      the `i`-th listed product under id `i + 1`. */
  lemma HarvestV1Total(pages: seq<PageFetch>, existing: set<string>)
    ensures var h, ps := Harvest(pages, AssemblerV1(existing)), Listed(pages, StopAt(pages));
      && |h| == |ps|
      && forall i :: 0 <= i < |h| ==> h[i] == AssembleV1(ps[i], i + 1, existing)
  {
    var asm, ps := AssemblerV1(existing), Listed(pages, StopAt(pages));
    CollectTotal(ps, 1, asm);
    forall i | 0 <= i < |ps|
      ensures Harvest(pages, asm)[i] == AssembleV1(ps[i], i + 1, existing)
    {
      CollectV1At(ps, existing, i);
    }
  }

  /** The scraper object: the shop's base URL, the records gathered so far, the contents
      of every `save_json` in order, and the listing URLs requested in order. */
  class KitkaParser {
    const baseUrl: string
    var data: seq<ItemV1>
    var saves: seq<seq<ItemV1>>
    var pageRequests: seq<string>

    constructor (baseUrl: string)
      ensures this.baseUrl == baseUrl && data == [] && saves == [] && pageRequests == []
    {
      this.baseUrl := baseUrl;
      data := [];
      saves := [];
      pageRequests := [];
    }

    /** `get_product_details(product_url)`, with `page` what `get_soup` answers. */
    method GetProductDetails(url: Option<string>, page: Option<DetailPage>) returns (details: Details)
      ensures details == DetailsV1(url, page)
    {
      details := map[];
      if !Truthy(url) || page.None? {
        return;
      }
      var soup := page.value;
      if soup.table.Some? {
        var rows := soup.table.value;
        var i := 0;
        while i < |rows|
          invariant 0 <= i <= |rows|
          invariant details == Attributes(V1, rows[..i])
        {
          var row := rows[i];
          if row.th.Some? && row.td.Some? {
            var key := CleanTextV1(row.th);
            var value := CleanTextV1(row.td);
            details := details[key := value];
          }
          assert rows[..i + 1][..i] == rows[..i];
          i := i + 1;
        }
        assert rows[..|rows|] == rows;
      }
    }

    /** The `for product in products` loop of `run`, for the per-product body
        `assemble`: every product takes the next index, and the records that assemble
        are appended to `data` in order. */
    method ProcessProducts(products: seq<Element>, start: nat, assemble: (Element, nat) -> Option<ItemV1>)
      returns (globalIndex: nat)
      modifies this`data
      ensures globalIndex == start + |products|
      ensures data == old(data) + Collect(products, start + 1, assemble)
    {
      ghost var d0 := data;
      globalIndex := start;
      var i := 0;
      while i < |products|
        invariant 0 <= i <= |products|
        invariant globalIndex == start + i
        invariant data == d0 + Collect(products[..i], start + 1, assemble)
      {
        globalIndex := globalIndex + 1;
        var item := assemble(products[i], globalIndex);
        CollectExtend(d0, products, i, start + 1, assemble);
        if item.Some? {
          data := data + [item.value];
        }
        i := i + 1;
      }
      assert products[..|products|] == products;
    }

    /** Processing page `k + 1`, a page with products: its products are numbered after
        those of the pages before it and their records appended; nothing is saved. */
    method ProcessPage(pages: seq<PageFetch>, existing: set<string>, ghost d0: seq<ItemV1>, k: nat, start: nat)
      returns (globalIndex: nat)
      requires k < |pages| && !Halts(pages[k])
      requires start == |Listed(pages, k)| && data == HeldAfter(d0, pages, AssemblerV1(existing), k)
      modifies this`data
      ensures globalIndex == |Listed(pages, k + 1)|
      ensures data == HeldAfter(d0, pages, AssemblerV1(existing), k + 1)
    {
      var products := Products(pages[k].elements);
      HeldAfterStep(d0, pages, AssemblerV1(existing), k);
      globalIndex := ProcessProducts(products, start, AssemblerV1(existing));
    }

    /** One pass of the page loop of `run` for page number `page`: request its URL,
        stop (`more` false) when there is no document or no product on it, otherwise
        process its products. */
    method VisitPage(pages: seq<PageFetch>, existing: set<string>, ghost d0: seq<ItemV1>, page: nat, start: nat)
      returns (more: bool, globalIndex: nat)
      requires 1 <= page <= StopAt(pages) + 1
      requires start == |Listed(pages, page - 1)| && data == HeldAfter(d0, pages, AssemblerV1(existing), page - 1)
      modifies this`data, this`pageRequests
      ensures pageRequests == old(pageRequests) + [PageUrl(baseUrl, page)]
      ensures more <==> page <= StopAt(pages)
      ensures more ==> globalIndex == |Listed(pages, page)| && data == HeldAfter(d0, pages, AssemblerV1(existing), page)
      ensures !more ==> data == old(data)
    {
      var k := page - 1;
      var url := PageUrl(baseUrl, page);
      pageRequests := pageRequests + [url];
      var soup := Fetch(pages, k);
      if soup.NoPage? {
        StopIsFirstHalt(pages, k);
        return false, start;
      }
      if Products(soup.elements) == [] {
        StopIsFirstHalt(pages, k);
        return false, start;
      }
      GoesOnBeforeStop(pages, k);
      globalIndex := ProcessPage(pages, existing, d0, k, start);
      more := true;
    }

    /** `run()`: `pages[k]` is what `get_soup` answers for page `k + 1` and `existing`
        the files in `images/` before the run. Pages are requested in order until one
        has no document or no product; every product of the pages before it gets the
        next index and a record; the dataset is saved once, after the loop. */
    method Run(pages: seq<PageFetch>, existing: set<string>)
      modifies this
      ensures data == old(data) + Harvest(pages, AssemblerV1(existing))
      ensures pageRequests == old(pageRequests) + PageUrls(baseUrl, StopAt(pages) + 1)
      ensures saves == old(saves) + [data]
    {
      var page: nat := 1;
      var globalIndex: nat := 0;
      ghost var d0, requests0 := data, pageRequests;
      ghost var stop := StopAt(pages);
      while true
        invariant 1 <= page <= stop + 1
        invariant globalIndex == |Listed(pages, page - 1)|
        invariant data == HeldAfter(d0, pages, AssemblerV1(existing), page - 1)
        invariant pageRequests == requests0 + PageUrls(baseUrl, page - 1)
        invariant saves == old(saves)
        decreases |pages| + 1 - page
      {
        var more;
        more, globalIndex := VisitPage(pages, existing, d0, page, globalIndex);
        PageUrlsNext(requests0, baseUrl, page - 1);
        if !more {
          break;
        }
        page := page + 1;
      }
      saves := saves + [data];
    }
  }
}
