/** `KitkaParserFinal` (main_v2.py): the listing walk that keeps the dataset file up to
    date after every page, with numeric prices and ratings, the detail page of every
    product, and image files named after the product's running index. */
module ParserV2 {
  import opened Wrappers
  import opened Chars
  import opened Strings
  import opened Numerals
  import opened Cleaning
  import opened ImageMirror
  import opened Extractors
  import opened Catalog

  /** `safe_name` is cut to this many characters. */
  const NameWidth: nat := 50

  /** `price_data`: the price, the sale price (only for a discounted entry) and the
      fixed currency. */
  datatype PriceInfo = PriceInfo(price: real, salePrice: Option<real>, currency: string)

  /** What `parse_price` returns for an entry without a `.price` container. */
  const NoPrice := PriceInfo(0.0, None, "UAH")

  /** `get_digits(t)`: 0 when the text has no digit, dot or comma; otherwise `float` of
      the joined runs with commas turned into dots. `parse` stands for `float` and is
      None where `float` raises ValueError. */
  function GetDigits(t: string, parse: string -> Option<real>): Option<real> {
    var clean := DigitsText(t);
    if clean == [] then Some(0.0) else parse(ReplaceChar(clean, ',', '.'))
  }

  /** Only the digits, dots and commas of a text decide its value: a text without any
      is worth 0, and reducing a text to those characters first changes nothing. */
  lemma GetDigitsSpec(t: string, parse: string -> Option<real>)
    ensures NoneIn(PriceChar, t) ==> GetDigits(t, parse) == Some(0.0)
    ensures !NoneIn(PriceChar, t) ==> GetDigits(t, parse) == parse(DecimalText(t))
    ensures GetDigits(Keep(t, PriceChar), parse) == GetDigits(t, parse)
  {
    DigitsTextSpec(t);
    DigitsTextSpec(Keep(t, PriceChar));
  }

  /** `get_digits` raises: there are digits and `float` refuses them. */
  predicate DigitsFail(t: string, parse: string -> Option<real>) {
    DigitsText(t) != [] && parse(DecimalText(t)).None?
  }

  /** `parse_price(price_html)`; None where one of its `float` calls raises. */
  function ParsePriceV2(box: Option<PriceBox>, parse: string -> Option<real>): Option<PriceInfo> {
    if box.None? then Some(NoPrice)
    else
      var b := box.value;
      if b.ins.Some? && b.del.Some? then
        var price := GetDigits(b.del.value, parse);
        var sale := GetDigits(b.ins.value, parse);
        if price.None? || sale.None? then None
        else Some(PriceInfo(price.value, Some(sale.value), "UAH"))
      else
        var price := GetDigits(b.text, parse);
        if price.None? then None else Some(PriceInfo(price.value, None, "UAH"))
  }

  /** The currency is always UAH; a sale price appears exactly when the container has
      both an `ins` and a `del` tag, and then the crossed-out `del` text is the price and
      the `ins` text the sale price; parsing fails exactly when a text it converts has
      digits that `float` refuses. */
  lemma ParsePriceV2Spec(box: Option<PriceBox>, parse: string -> Option<real>)
    ensures var r := ParsePriceV2(box, parse);
      && (box.None? ==> r == Some(PriceInfo(0.0, None, "UAH")))
      && (r.Some? ==> r.value.currency == "UAH")
      && (r.Some? ==> (r.value.salePrice.Some? <==> box.Some? && box.value.ins.Some? && box.value.del.Some?))
      && (box.Some? && box.value.ins.Some? && box.value.del.Some? ==>
            (r.None? <==> DigitsFail(box.value.del.value, parse) || DigitsFail(box.value.ins.value, parse))
            && (r.Some? ==> (Some(r.value.price) == GetDigits(box.value.del.value, parse)
                             && r.value.salePrice == GetDigits(box.value.ins.value, parse))))
      && (box.Some? && !(box.value.ins.Some? && box.value.del.Some?) ==>
            (r.None? <==> DigitsFail(box.value.text, parse))
            && (r.Some? ==> Some(r.value.price) == GetDigits(box.value.text, parse)))
  {
  }

  /** The rating: 0.0 without a `.star-rating` element or without a digit or dot in its
      label (or text), otherwise `float` of the first run of digits and dots. */
  function RatingV2(star: Option<StarRating>, parse: string -> Option<real>): Option<real> {
    if star.None? then Some(0.0)
    else
      var token := RatingToken(star.value);
      if token.None? then Some(0.0) else parse(token.value)
  }

  /** A rating without a star element or without a digit or dot is 0.0; otherwise it is
      the value of the run of digits and dots starting at the first such character of
      the label, or of the text when the label is missing or empty. */
  lemma RatingV2Spec(star: Option<StarRating>, parse: string -> Option<real>)
    ensures star.None? ==> RatingV2(star, parse) == Some(0.0)
    ensures star.Some? && NoneIn(RatingChar, RatingText(star.value)) ==> RatingV2(star, parse) == Some(0.0)
    ensures star.Some? && !NoneIn(RatingChar, RatingText(star.value)) ==>
      var t := RatingText(star.value);
      var i := OutPrefix(t, RatingChar);
      RatingV2(star, parse) == parse(t[i..][..InPrefix(t[i..], RatingChar)])
    ensures star.Some? && Truthy(star.value.ariaLabel) ==> RatingText(star.value) == star.value.ariaLabel.value
  {
    if star.Some? {
      RatingTokenSpec(star.value);
    }
  }

  /** The `info` dict of `get_product_details`. */
  datatype DetailInfo = DetailInfo(
    attributes: map<Option<string>, Option<string>>,
    description: Option<string>,
    stockQuantity: nat,
    breadcrumbs: seq<string>,
    galleryUrls: seq<string>)

  /** The dict `get_product_details` starts from and returns when there is no page. */
  const NoDetails := DetailInfo(map[], None, 0, [], [])

  /** What `get_product_details(product_url)` returns, given what `get_soup` answers
      for the URL; no page is requested for an empty or missing URL. */
  function DetailsV2(url: Option<string>, page: Option<DetailPage>): DetailInfo {
    if !Truthy(url) || page.None? then NoDetails
    else
      var p := page.value;
      DetailInfo(
        if p.table.Some? then Attributes(V2, p.table.value) else map[],
        if p.description.Some? then CleanTextV2(p.description) else None,
        StockQuantity(p.stock),
        if p.breadcrumbs.Some? then Breadcrumbs(p.breadcrumbs.value) else [],
        if p.gallery.Some? then Gallery(p.gallery.value) else [])
  }

  /** Without a URL or a page the defaults come back; otherwise a key is stored exactly
      when a complete row has it, every gallery URL is an image link of the page, every
      breadcrumb is a cleaned non-empty link text, and a page without the table, the
      breadcrumbs or the gallery yields none. */
  lemma DetailsV2Spec(url: Option<string>, page: Option<DetailPage>)
    ensures !Truthy(url) || page.None? ==> DetailsV2(url, page) == NoDetails
    ensures Truthy(url) && page.Some? ==>
      var p, d := page.value, DetailsV2(url, page);
      && (p.table.None? ==> d.attributes == map[])
      && (p.table.Some? ==> forall k :: k in d.attributes <==> exists i :: HasKey(V2, p.table.value, i, k))
      && (p.gallery.None? ==> d.galleryUrls == [])
      && (p.gallery.Some? ==> forall u :: u in d.galleryUrls <==> u in p.gallery.value && HasImageExtension(u))
      && (p.breadcrumbs.None? ==> d.breadcrumbs == [])
      && (p.breadcrumbs.Some? ==> forall x :: x in d.breadcrumbs <==>
            exists t :: t in p.breadcrumbs.value && t != [] && x == CleanTextV2(Some(t)).value)
  {
    if Truthy(url) && page.Some? {
      var p := page.value;
      if p.table.Some? {
        forall k ensures k in Attributes(V2, p.table.value) <==> exists i :: HasKey(V2, p.table.value, i, k) {
          AttributesKeys(V2, p.table.value, k);
        }
      }
      if p.gallery.Some? {
        GalleryMembers(p.gallery.value);
      }
      if p.breadcrumbs.Some? {
        BreadcrumbsSpec(p.breadcrumbs.value);
      }
    }
  }

  /** `"images": {...}` of a record. */
  datatype Images = Images(mainImagePath: Option<string>, galleryUrls: seq<string>)

  /** One record of the dataset. */
  datatype ItemV2 = ItemV2(
    id: nat,
    name: Option<string>,
    categoryPath: seq<string>,
    priceInfo: PriceInfo,
    stockQuantity: nat,
    rating: real,
    url: Option<string>,
    description: Option<string>,
    specifications: map<Option<string>, Option<string>>,
    images: Images)

  /** The name: the cleaned title when there is a title element, else `Product_<id>`. */
  function TitleV2(e: Element, id: nat): Option<string> {
    if e.title.Some? then CleanTextV2(e.title) else Some("Product_" + Decimal(id))
  }

  /** `img_el.get('data-lazy-src') or img_el.get('src')` */
  function ImageUrlV2(img: ImageAttrs): Option<string> {
    OrElse(img.lazySrc, img.src)
  }

  /** The main image path: `download_image` of the chosen URL when there is an `img`. */
  function MainImageV2(e: Element, title: Option<string>, id: nat, existing: set<string>): Option<string> {
    if e.image.Some? then DownloadImage(ImageUrlV2(e.image.value), title, id, existing, e.imageReply, NameWidth)
    else None
  }

  /** The name is missing only when the title element has empty text; without a title
      element it is the placeholder numbered after the product. */
  lemma TitleV2Spec(e: Element, id: nat)
    ensures TitleV2(e, id).None? <==> e.title == Some("")
    ensures e.title.None? ==> TitleV2(e, id) == Some("Product_" + Decimal(id))
  {
    CleanTextV2Spec(e.title);
  }

  /** Placeholder names of products with different numbers differ. */
  lemma TitleV2Distinct(e1: Element, e2: Element, m: nat, n: nat)
    requires e1.title.None? && e2.title.None?
    ensures TitleV2(e1, m) == TitleV2(e2, n) ==> m == n
  {
    var p := "Product_";
    if TitleV2(e1, m) == TitleV2(e2, n) {
      assert (p + Decimal(m))[|p|..] == Decimal(m);
      assert (p + Decimal(n))[|p|..] == Decimal(n);
      DecimalInjective(m, n);
    }
  }

  /** `data-lazy-src` wins when it is non-empty, else `src` is taken as it is. */
  lemma ImageUrlV2Spec(img: ImageAttrs)
    ensures Truthy(ImageUrlV2(img)) <==> Truthy(img.lazySrc) || Truthy(img.src)
    ensures Truthy(img.lazySrc) ==> ImageUrlV2(img) == img.lazySrc
    ensures !Truthy(img.lazySrc) ==> ImageUrlV2(img) == img.src
  {
  }

  /** The main image is present exactly when there is an `img` whose URL is accepted, a
      name, and the file either exists already or is downloaded; it is then the file
      named after the product's number and safe name. */
  lemma MainImageV2Spec(e: Element, title: Option<string>, id: nat, existing: set<string>)
    ensures var r := MainImageV2(e, title, id, existing);
      && (r.Some? <==> && e.image.Some? && AcceptUrl(ImageUrlV2(e.image.value)).Some? && title.Some?
                       && (ImagePath(id, SafeName(title.value, NameWidth)) in existing || e.imageReply == Reply(200, true)))
      && (r.Some? ==> r.value == ImagePath(id, SafeName(title.value, NameWidth)))
  {
    if e.image.Some? {
      DownloadImageSpec(ImageUrlV2(e.image.value), title, id, existing, e.imageReply, NameWidth);
    }
  }

  /** The body of the per-product `try` of `run` for the product numbered `id`: None
      where it raises (a `float` of the price or of the rating), else the record. */
  function AssembleV2(e: Element, id: nat, existing: set<string>, parse: string -> Option<real>): Option<ItemV2> {
    var title := TitleV2(e, id);
    var prices := ParsePriceV2(e.price, parse);
    var rating := RatingV2(e.star, parse);
    if prices.None? || rating.None? then None
    else
      var details := DetailsV2(e.link, e.detail);
      var mainImage := MainImageV2(e, title, id, existing);
      Some(ItemV2(id, title, details.breadcrumbs, prices.value, details.stockQuantity, rating.value,
                  e.link, details.description, details.attributes, Images(mainImage, details.galleryUrls)))
  }

  /** `AssembleV2` with the run's fixed inputs bound. */
  function AssemblerV2(existing: set<string>, parse: string -> Option<real>): (Element, nat) -> Option<ItemV2> {
    (e: Element, id: nat) => AssembleV2(e, id, existing, parse)
  }

  /** A product is dropped exactly when its price or rating cannot be converted. A kept
      record carries its own id and link; without a title element it is named
      `Product_<id>`; its main image, when there is one, is the file
      `images/<id>_<safe name>.jpg` for that id. */
  lemma AssembleV2Spec(e: Element, id: nat, existing: set<string>, parse: string -> Option<real>)
    ensures var r := AssembleV2(e, id, existing, parse);
      && (r.None? <==> ParsePriceV2(e.price, parse).None? || RatingV2(e.star, parse).None?)
      && (r.Some? ==> r.value.id == id && r.value.url == e.link)
      && (r.Some? && e.title.None? ==> r.value.name == Some("Product_" + Decimal(id)))
      && (r.Some? && e.title.Some? ==> r.value.name == CleanTextV2(e.title))
      && (r.Some? && r.value.images.mainImagePath.Some? ==>
            r.value.name.Some? && r.value.images.mainImagePath.value == ImagePath(id, SafeName(r.value.name.value, NameWidth)))
  {
    var title := TitleV2(e, id);
    if e.image.Some? {
      DownloadImageSpec(ImageUrlV2(e.image.value), title, id, existing, e.imageReply, NameWidth);
    }
  }

  /** The records of a whole run carry strictly increasing ids from 1 up to the number of
      products listed, and the record with id `k` is the assembly of the `k`-th listed
      product: a dropped product still uses up its id. */
  lemma {:induction false} HarvestV2Ids(pages: seq<PageFetch>, existing: set<string>, parse: string -> Option<real>)
    ensures var h, ps := Harvest(pages, AssemblerV2(existing, parse)), Listed(pages, StopAt(pages));
      && (forall i :: 0 <= i < |h| ==> 1 <= h[i].id <= |ps| && AssembleV2(ps[h[i].id - 1], h[i].id, existing, parse) == Some(h[i]))
      && (forall i, j :: 0 <= i < j < |h| ==> h[i].id < h[j].id)
  {
    var asm := AssemblerV2(existing, parse);
    var ps := Listed(pages, StopAt(pages));
    var h := Harvest(pages, asm);
    CollectSpec(ps, 1, asm);
    KeptSpec(ps, 1, asm);
    var ks := Kept(ps, 1, asm);
    forall i | 0 <= i < |h|
      ensures h[i].id == 1 + ks[i]
    {
      AssembleV2Spec(ps[ks[i]], 1 + ks[i], existing, parse);
    }
  }

  /** A record assembled under id `id` that has a main image names it after that id. */
  lemma AssembledImage(e: Element, id: nat, existing: set<string>, parse: string -> Option<real>, item: ItemV2)
    requires AssembleV2(e, id, existing, parse) == Some(item) && item.images.mainImagePath.Some?
    ensures item.name.Some? && item.images.mainImagePath.value == ImagePath(id, SafeName(item.name.value, NameWidth))
  {
    AssembleV2Spec(e, id, existing, parse);
  }

  /** A record of a run that has a main image names it after its own id. */
  lemma HarvestV2Image(pages: seq<PageFetch>, existing: set<string>, parse: string -> Option<real>, i: nat)
    requires var h := Harvest(pages, AssemblerV2(existing, parse));
      i < |h| && h[i].images.mainImagePath.Some?
    ensures var r := Harvest(pages, AssemblerV2(existing, parse))[i];
      r.name.Some? && r.images.mainImagePath.value == ImagePath(r.id, SafeName(r.name.value, NameWidth))
  {
    var r := Harvest(pages, AssemblerV2(existing, parse))[i];
    var ps := Listed(pages, StopAt(pages));
    HarvestV2Ids(pages, existing, parse);
    AssembledImage(ps[r.id - 1], r.id, existing, parse, r);
  }

  /** Later records of a run have larger ids. */
  lemma HarvestV2IdOrder(pages: seq<PageFetch>, existing: set<string>, parse: string -> Option<real>, i: nat, j: nat)
    requires i < j < |Harvest(pages, AssemblerV2(existing, parse))|
    ensures var h := Harvest(pages, AssemblerV2(existing, parse));
      h[i].id < h[j].id
  {
    HarvestV2Ids(pages, existing, parse);
  }

  /** No two records of a run share a main image file. */
  lemma HarvestV2DistinctImages(pages: seq<PageFetch>, existing: set<string>, parse: string -> Option<real>, i: nat, j: nat)
    requires var h := Harvest(pages, AssemblerV2(existing, parse));
      i < j < |h| && h[i].images.mainImagePath.Some? && h[j].images.mainImagePath.Some?
    ensures var h := Harvest(pages, AssemblerV2(existing, parse));
      h[i].images.mainImagePath != h[j].images.mainImagePath
  {
    var h := Harvest(pages, AssemblerV2(existing, parse));
    var a, b := h[i], h[j];
    HarvestV2IdOrder(pages, existing, parse, i, j);
    HarvestV2Image(pages, existing, parse, i);
    HarvestV2Image(pages, existing, parse, j);
    if a.images.mainImagePath == b.images.mainImagePath {
      ImagePathInjective(a.id, SafeName(a.name.value, NameWidth), b.id, SafeName(b.name.value, NameWidth));
    }
  }

  /** A catalog whose first page lists two products that assemble and whose second page
      is missing: the walk stops on page 2, requests exactly the root and `page/2/`,
      and keeps two records with ids 1 and 2. */
  lemma TwoPageCatalog(base: string, pages: seq<PageFetch>, existing: set<string>, parse: string -> Option<real>)
    requires |pages| == 2 && pages[0].Page? && pages[1] == NoPage
    requires |Products(pages[0].elements)| == 2
    requires forall j :: 0 <= j < 2 ==> AssembleV2(Products(pages[0].elements)[j], j + 1, existing, parse).Some?
    ensures StopAt(pages) == 1
    ensures PageUrls(base, StopAt(pages) + 1) == [base, base + "page/2/"]
    ensures var h := Harvest(pages, AssemblerV2(existing, parse));
      |h| == 2 && h[0].id == 1 && h[1].id == 2
  {
    assert !Halts(pages[0]);
    assert StopAt(pages) == 1;
    assert Decimal(2) == "2";
    assert PageUrls(base, 1) == [base];
    assert PageUrl(base, 2) == base + "page/2/";
    var ps := Products(pages[0].elements);
    ListedStep(pages, 0);
    assert Listed(pages, 1) == [] + ps == ps;
    var asm := AssemblerV2(existing, parse);
    var r0, r1 := AssembleV2(ps[0], 1, existing, parse), AssembleV2(ps[1], 2, existing, parse);
    assert asm(ps[0], 1) == r0 && asm(ps[1], 2) == r1;
    assert ps[..1][..0] == [] && ps[..2] == ps && ps[..2][..1] == ps[..1];
    assert Collect(ps[..1], 1, asm) == [r0.value];
    assert Collect(ps, 1, asm) == [r0.value, r1.value];
    AssembleV2Spec(ps[0], 1, existing, parse);
    AssembleV2Spec(ps[1], 2, existing, parse);
  }

  /** The scraper object: the shop's base URL, the records gathered so far, the contents
      of every `save_json` in order, and the listing URLs requested in order. */
  class KitkaParserFinal {
    const baseUrl: string
    var data: seq<ItemV2>
    var saves: seq<seq<ItemV2>>
    var pageRequests: seq<string>

    constructor (baseUrl: string)
      ensures this.baseUrl == baseUrl && data == [] && saves == [] && pageRequests == []
    {
      this.baseUrl := baseUrl;
      data := [];
      saves := [];
      pageRequests := [];
    }

    /** `get_product_details(product_url)`, with `page` what `get_soup` answers. */
    method GetProductDetails(url: Option<string>, page: Option<DetailPage>) returns (info: DetailInfo)
      ensures info == DetailsV2(url, page)
    {
      info := NoDetails;
      if !Truthy(url) || page.None? {
        return;
      }
      var soup := page.value;
      if soup.table.Some? {
        var rows := soup.table.value;
        var attributes := map[];
        var i := 0;
        while i < |rows|
          invariant 0 <= i <= |rows|
          invariant attributes == Attributes(V2, rows[..i])
        {
          var row := rows[i];
          if row.th.Some? && row.td.Some? {
            attributes := attributes[CleanTextV2(row.th) := CleanTextV2(row.td)];
          }
          assert rows[..i + 1][..i] == rows[..i];
          i := i + 1;
        }
        assert rows[..|rows|] == rows;
        info := info.(attributes := attributes);
      }
      if soup.description.Some? {
        info := info.(description := CleanTextV2(soup.description));
      }
      if soup.stock.Some? {
        var numbers := FindAll(soup.stock.value, Digit);
        if numbers != [] {
          FindAllShape(soup.stock.value, Digit);
          info := info.(stockQuantity := DigitsValue(numbers[0]));
        }
      }
      if soup.breadcrumbs.Some? {
        info := info.(breadcrumbs := Breadcrumbs(soup.breadcrumbs.value));
      }
      if soup.gallery.Some? {
        var hrefs := soup.gallery.value;
        var urls := [];
        var i := 0;
        while i < |hrefs|
          invariant 0 <= i <= |hrefs|
          invariant urls == Gallery(hrefs[..i])
        {
          if HasImageExtension(hrefs[i]) {
            urls := urls + [hrefs[i]];
          }
          assert hrefs[..i + 1][..i] == hrefs[..i];
          i := i + 1;
        }
        assert hrefs[..|hrefs|] == hrefs;
        info := info.(galleryUrls := urls);
      }
    }

    /** The `for product in products` loop of `run`, for the per-product body
        `assemble`: every product takes the next index, and the records that assemble
        are appended to `data` in order. */
    method ProcessProducts(products: seq<Element>, start: nat, assemble: (Element, nat) -> Option<ItemV2>)
      returns (globalIndex: nat)
      modifies this`data
      ensures globalIndex == start + |products|
      ensures data == old(data) + Collect(products, start + 1, assemble)
    {
      ghost var d0 := data;
      globalIndex := start;
      var i := 0;
      while i < |products|
        invariant 0 <= i <= |products|
        invariant globalIndex == start + i
        invariant data == d0 + Collect(products[..i], start + 1, assemble)
      {
        globalIndex := globalIndex + 1;
        var item := assemble(products[i], globalIndex);
        CollectExtend(d0, products, i, start + 1, assemble);
        if item.Some? {
          data := data + [item.value];
        }
        i := i + 1;
      }
      assert products[..|products|] == products;
    }

    /** One pass of the page loop's body for page `k + 1`, a page with products: its
        products are numbered after those of the pages before it and their records
        appended, then the dataset is saved. */
    method ProcessPage(pages: seq<PageFetch>, assemble: (Element, nat) -> Option<ItemV2>, ghost d0: seq<ItemV2>,
                       k: nat, start: nat) returns (globalIndex: nat)
      requires k < |pages| && !Halts(pages[k])
      requires start == |Listed(pages, k)| && data == HeldAfter(d0, pages, assemble, k)
      modifies this`data, this`saves
      ensures globalIndex == |Listed(pages, k + 1)|
      ensures data == HeldAfter(d0, pages, assemble, k + 1)
      ensures saves == old(saves) + [data]
    {
      var products := Products(pages[k].elements);
      HeldAfterStep(d0, pages, assemble, k);
      globalIndex := ProcessProducts(products, start, assemble);
      saves := saves + [data];
    }

    /** One pass of the page loop of `run` for page number `page`: request its URL,
        stop (`more` false) when there is no document or no product on it, otherwise
        process its products and save. */
    method VisitPage(pages: seq<PageFetch>, assemble: (Element, nat) -> Option<ItemV2>, ghost d0: seq<ItemV2>,
                     page: nat, start: nat) returns (more: bool, globalIndex: nat)
      requires 1 <= page <= StopAt(pages) + 1
      requires start == |Listed(pages, page - 1)| && data == HeldAfter(d0, pages, assemble, page - 1)
      modifies this
      ensures pageRequests == old(pageRequests) + [PageUrl(baseUrl, page)]
      ensures more <==> page <= StopAt(pages)
      ensures more ==> && globalIndex == |Listed(pages, page)|
                       && data == HeldAfter(d0, pages, assemble, page)
                       && saves == old(saves) + [data]
      ensures !more ==> data == old(data) && saves == old(saves)
    {
      var k := page - 1;
      var url := PageUrl(baseUrl, page);
      pageRequests := pageRequests + [url];
      var soup := Fetch(pages, k);
      if soup.NoPage? {
        StopIsFirstHalt(pages, k);
        return false, start;
      }
      if Products(soup.elements) == [] {
        StopIsFirstHalt(pages, k);
        return false, start;
      }
      GoesOnBeforeStop(pages, k);
      globalIndex := ProcessPage(pages, assemble, d0, k, start);
      more := true;
    }

    /** The page loop of `run` for the per-product body `assemble`. */
    method Crawl(pages: seq<PageFetch>, assemble: (Element, nat) -> Option<ItemV2>)
      modifies this
      ensures data == old(data) + Harvest(pages, assemble)
      ensures pageRequests == old(pageRequests) + PageUrls(baseUrl, StopAt(pages) + 1)
      ensures saves == old(saves) + Snapshots(old(data), pages, assemble, StopAt(pages)) + [data]
    {
      var page: nat := 1;
      var globalIndex: nat := 0;
      ghost var d0, saves0, requests0 := data, saves, pageRequests;
      ghost var stop := StopAt(pages);
      while true
        invariant 1 <= page <= stop + 1
        invariant globalIndex == |Listed(pages, page - 1)|
        invariant data == HeldAfter(d0, pages, assemble, page - 1)
        invariant pageRequests == requests0 + PageUrls(baseUrl, page - 1)
        invariant saves == saves0 + Snapshots(d0, pages, assemble, page - 1)
        decreases |pages| + 1 - page
      {
        var more;
        more, globalIndex := VisitPage(pages, assemble, d0, page, globalIndex);
        PageUrlsNext(requests0, baseUrl, page - 1);
        if !more {
          break;
        }
        SnapshotsNext(saves0, d0, pages, assemble, page - 1);
        page := page + 1;
      }
      saves := saves + [data];
    }

    /** `run()`: `pages[k]` is what `get_soup` answers for page `k + 1`, `existing` the
        files in `images/` before the run, `parse` the behaviour of `float`. Pages are
        requested in order until one has no document or no product; every product of the
        pages before it gets the next id and, unless its `try` raises, a record; the
        dataset is saved after each such page and once more at the end. */
    method Run(pages: seq<PageFetch>, existing: set<string>, parse: string -> Option<real>)
      modifies this
      ensures data == old(data) + Harvest(pages, AssemblerV2(existing, parse))
      ensures pageRequests == old(pageRequests) + PageUrls(baseUrl, StopAt(pages) + 1)
      ensures saves == old(saves) + Snapshots(old(data), pages, AssemblerV2(existing, parse), StopAt(pages)) + [data]
    {
      Crawl(pages, AssemblerV2(existing, parse));
    }
  }
}
