# WooCommerce catalog scraper: a Dafny model

This project models the decision-making core of a scraper for a WooCommerce shop
catalog. The scraper exists in two versions: `KitkaParserFinal` in `main_v2.py` and the
earlier `KitkaParser` in `main_v1.py`. The core is modelled in three parts:

- **Text and file-name rules.** `clean_text` in both versions. The URL acceptance rule
  of `download_image`. The derivation of `safe_name` and of the path
  `images/{index}_{safe_name}.jpg`. The "file already exists, reuse it" decision, taken
  over a set of paths that already exist.
- **Field extractors**, over text that has already been located in the page. These are
  the price digits (`get_digits`, `parse_price`), the rating token, the stock count, the
  attribute table, the breadcrumbs and the gallery links.
- **The catalog walk** (`run`) as a class with `data` updated in place. It covers page
  URL construction, the product selector, the stop rule (no page, or no product on it),
  one id per listed product whether its `try` block succeeds or not, append-only
  records, and the save cadence. v2 saves after every page and once more at the end;
  v1 saves only at the end.

Files and modules:

| file | module | contents |
|---|---|---|
| wrappers.dfy | Wrappers | `Option`, Python's None |
| chars.dfy | Chars | `str.isspace()`, `\d` and the character classes of the patterns |
| strings.dfy | Strings | `split`, `' '.join`, `strip`, `replace`, `re.findall` of `[...]+`, `a or b` |
| numerals.dfy | Numerals | `str(n)` and `int(s)` of decimal numerals |
| cleaning.dfy | Cleaning | `clean_text` of both versions |
| image_mirror.dfy | ImageMirror | URL rule, `safe_name`, image path, `download_image` |
| extractors.dfy | Extractors | digits, rating token, stock, attributes, breadcrumbs, gallery |
| catalog.dfy | Catalog | selector, stop page, id assignment, page URLs, dataset growth |
| parser_v2.dfy | ParserV2 | `KitkaParserFinal`: float prices, full details, per-page saving |
| parser_v1.dfy | ParserV1 | `KitkaParser`: text prices, attributes only, save at the end |

Inputs from the outside world are parameters:

- A listing page is a `PageFetch`: `NoPage` for what `get_soup` turns into None, or
  the page's elements in document order.
- Each element carries the texts and attributes `run` reads from it. It also carries
  the detail page behind its link and the image server's reply.
- `float` is an abstract `parse: string -> Option<real>`. None stands for a
  `ValueError`, which sends the product into the per-product skip path.
- The files already in `images/` are a `set<string>`.
- `save_json` records a snapshot of `data` in the field `saves`.
- Every requested listing URL is recorded in `pageRequests`.

## Model

| member | source | states |
|---|---|---|
| Strings.OrElse | main_v2.py:187 | `a or b`: the result is truthy iff either operand is; it is `a` when `a` is truthy and `b` otherwise |
| Chars.IsSpace | main_v2.py:39 | no contract; the `str.isspace()` set that `split()` and `strip()` use, specified through StripSpec, JoinNormalised and WordsOfJoin |
| Strings.FindAll | main_v2.py:136 | no contract; `re.findall('[k]+')`, specified by FlattenFindAll, FindAllEmpty, FirstRun, FindAllSkip and FindAllRun |
| Strings.FlattenFindAll | main_v2.py:136 | joining the runs that `re.findall('[k]+')` returns keeps exactly the characters of class k, in order |
| Strings.FindAllEmpty | main_v2.py:106-107 | `re.findall('[k]+', s)` is empty iff no character of s is in class k |
| Strings.FindAllSkip | main_v2.py:136 | a character outside the class starts no match and is skipped |
| Strings.FindAllRun | main_v2.py:39 | a non-empty in-class stretch ended by the text's end or an out-of-class character is one whole match: every run is maximal |
| Strings.FirstRun | main_v2.py:188-189 | the first match starts at the first character of the class and runs as far as the class does |
| Strings.Strip | main_v1.py:36 | what `strip()` keeps is a contiguous stretch of the input, starting where `lstrip()` stops |
| Strings.ReplaceChar | main_v2.py:38 | `str.replace` of one character by another: the length is kept, every position holds the replacement where the old character was and is unchanged elsewhere |
| Strings.Join | main_v2.py:39 | no contract; `' '.join`, specified by JoinNormalised and WordsOfJoin |
| Strings.JoinNormalised | main_v2.py:39 | `' '.join` of words has only single plain spaces, none at either end, and is empty iff there are no words |
| Strings.WordsOfJoin | main_v2.py:39 | `split()` of a `' '.join` of words gives back the words |
| Strings.StripSpec | main_v1.py:36 | `strip()` removes exactly a whitespace prefix and suffix, and the result neither begins nor ends with whitespace |
| Strings.StripIdempotent | main_v1.py:36 | stripping twice is stripping once |
| Numerals.Decimal | main_v2.py:57 | `str(n)` of a non-negative int in an f-string is a non-empty string of ASCII digits with no leading zero except for 0 itself; DigitsValueOfDecimal says it reads back as n |
| Numerals.DigitsValue | main_v2.py:108 | no contract; `int(...)` of a digit run, specified by DigitsValueOfDecimal and StockQuantitySpec |
| Numerals.DigitsValueOfDecimal | main_v2.py:57 | reading back the decimal numeral of n gives n |
| Numerals.DecimalPrefixUnique | main_v2.py:57 | a numeral followed by a non-digit separator is split off unambiguously |
| Numerals.DecimalInjective | main_v2.py:154 | different page or product numbers are written as different numerals |
| Cleaning.CleanTextV2 | main_v2.py:36-40 | no contract; `clean_text` of v2, specified by CleanTextV2Spec and CleanTextV2Idempotent |
| Cleaning.CleanTextV2IsCollapse | main_v2.py:38-39 | the no-break-space and newline replacements do not change the result of `' '.join(text.split())` |
| Cleaning.CleanTextV2Spec | main_v2.py:36-40 | None iff the input is None or empty; otherwise no edge spaces, no double spaces, no `\xa0` or `\n`, the same words as the input, and empty iff the input is all whitespace |
| Cleaning.CleanTextV2Idempotent | main_v2.py:36-40 | cleaning a non-empty cleaned text gives it back unchanged |
| Cleaning.CleanTextV1 | main_v1.py:34-37 | no contract; `clean_text` of v1, specified by CleanTextV1Spec and CleanTextV1Idempotent |
| Cleaning.CleanTextV1Spec | main_v1.py:34-37 | None iff the input is None or empty; otherwise the input minus a whitespace prefix and suffix |
| Cleaning.CleanTextV1Idempotent | main_v1.py:34-37 | cleaning a non-empty cleaned text gives it back unchanged |
| ImageMirror.RemoveBanned | main_v2.py:54 | the `re.sub` leaves no banned character, never lengthens the name, and leaves a name without banned characters as it is |
| ImageMirror.RemoveBannedMembers | main_v2.py:54 | a character survives the `re.sub` iff it occurs in the name and is not banned |
| ImageMirror.RemoveBannedAppend | main_v1.py:51 | the `re.sub` works character by character and keeps order: the name split in two is cleaned part by part |
| ImageMirror.RemoveBannedSingle | main_v1.py:51 | a single character is deleted iff it is banned |
| ImageMirror.SafeName | main_v2.py:54 | no contract; `safe_name` with width 50 (v2) or 30 (v1), specified by SafeNameSpec, SafeNameKeepsSafe and SafeNameIdempotent |
| ImageMirror.SafeNameSpec | main_v2.py:54 | `safe_name` has no banned character, no space, at most `width` characters, and is the prefix of the sanitised name |
| ImageMirror.SafeNameKeepsSafe | main_v2.py:54 | an already safe name passes through unchanged |
| ImageMirror.SafeNameIdempotent | main_v1.py:51 | deriving `safe_name` twice is deriving it once |
| ImageMirror.ImagePath | main_v2.py:57 | no contract; the file name `images/{index}_{safe_name}.jpg`, specified by ImagePathInjective |
| ImageMirror.ImagePathInjective | main_v2.py:57 | `images/{index}_{safe_name}.jpg` determines both the index and the name |
| ImageMirror.AcceptUrl | main_v2.py:43-51 | a URL is kept iff it is non-empty and starts with `http` or `//`; an `http` one is unchanged, a `//` one gets `https:` in front |
| ImageMirror.AcceptUrlIdempotent | main_v1.py:40-48 | an accepted URL is accepted again unchanged |
| ImageMirror.ImageRequest | main_v2.py:59-62 | no contract; the URL requested, if any, specified by NoRequestNoReply, RequestReplyMatters and RequestIsHttp |
| ImageMirror.DownloadImage | main_v2.py:42-70 | no contract; `download_image` with the file system and the reply as parameters, specified by DownloadImageSpec and NoRequestNoReply |
| ImageMirror.DownloadImageSpec | main_v2.py:42-70 | a path comes back iff the URL is accepted, the name is a string, and the file exists or the reply was 200 with the body written; that path is the derived one |
| ImageMirror.NoRequestNoReply | main_v2.py:59-60 | when the file exists the server's reply cannot affect the result, which is the existing path |
| ImageMirror.RequestReplyMatters | main_v2.py:59-67 | when a request is made, the reply decides the result: 200 with the body written gives the derived path, no reply gives None |
| ImageMirror.RequestIsHttp | main_v2.py:47-62 | a request goes only to the accepted form of the URL, which starts with `http` |
| Extractors.DigitsText | main_v2.py:136 | no contract; the text `''.join(re.findall(r'[\d.,]+', t))`, specified by DigitsTextSpec and DigitsTextJoinsRuns |
| Extractors.DigitsTextSpec | main_v2.py:135-137 | `get_digits`' text is exactly the digits, dots and commas of the input, is empty iff there are none, and is a fixed point |
| Extractors.DigitsTextJoinsRuns | main_v1.py:100-101 | the runs are concatenated, not chosen: a run, a stretch without digits, dots or commas, and a run give the two runs joined ("100 - 200" gives "100200") |
| Extractors.DecimalText | main_v2.py:137 | no contract; `clean.replace(',', '.')`, the text handed to `float`, specified by DecimalTextSpec |
| Extractors.DecimalTextSpec | main_v2.py:137 | after `,`→`.` only digits and dots remain, empty iff the digit text is, and re-extraction is a fixed point |
| Extractors.RatingText | main_v2.py:187 | no contract; `star_rating.get('aria-label') or star_rating.text`, specified by RatingTokenSpec (a non-empty label wins, else the text) |
| Extractors.RatingToken | main_v2.py:187-189 | no contract; the first number-like run of the label or text, specified by RatingTokenSpec |
| Extractors.RatingTokenSpec | main_v2.py:186-189 | a non-empty label wins over the text; the token is absent iff there is no digit or dot, else it is the maximal run at the first one |
| Extractors.StockQuantity | main_v2.py:104-108 | no contract; `int` of the first digit run, specified by StockQuantitySpec |
| Extractors.StockQuantitySpec | main_v2.py:103-108 | the stock is 0 without an element or a digit, else the value of the maximal digit run at the first digit |
| Extractors.Table | main_v2.py:92-96 | no contract; the dict built by the loop over table rows (also main_v1.py:81-87), specified by TableKeys and TableLastWins |
| Extractors.TableKeys | main_v2.py:92-96 | after a loop that stores `value(row)` under `key(row)` for complete rows, a key is present iff some complete row has it |
| Extractors.TableLastWins | main_v2.py:92-96 | after such a loop, the value under a key is that of the last complete row with that key |
| Extractors.Attributes | main_v2.py:88-96 | no contract; the attribute table, specified by AttributesKeys and AttributesLastWins |
| Extractors.AttributesKeys | main_v2.py:88-96 | a key is present iff some row with both `th` and `td` has that cleaned header |
| Extractors.AttributesLastWins | main_v2.py:92-96 | the stored value comes from the last complete row with that key |
| Extractors.Breadcrumbs | main_v2.py:111-114 | no contract; the list comprehension over links, specified by BreadcrumbsSpec and BreadcrumbsAppend |
| Extractors.BreadcrumbsSpec | main_v2.py:110-114 | every breadcrumb is the cleaned text of a non-empty link, every non-empty link gives one, and all-empty links give none |
| Extractors.BreadcrumbsAppend | main_v2.py:114 | breadcrumbs keep link order |
| Extractors.HasImageExtension | main_v2.py:122 | no contract; `url.endswith(('.jpg', '.png', '.jpeg', '.webp'))`, specified through GalleryMembers |
| Extractors.Gallery | main_v2.py:117-123 | no contract; the gallery filter, specified by GalleryMembers and GalleryAppend |
| Extractors.GalleryMembers | main_v2.py:116-123 | exactly the hrefs ending in `.jpg`, `.png`, `.jpeg` or `.webp` are kept |
| Extractors.GalleryAppend | main_v2.py:119-123 | the gallery keeps href order |
| Catalog.IsProduct | main_v2.py:164 | no contract; the class predicate of the selector (both `product` and `type-product`), specified through ProductsSpec and ProductsSingle |
| Catalog.Products | main_v2.py:164 | no contract; the product selector, specified by ProductsSpec, ProductsAppend and ProductsSingle |
| Catalog.ProductsSpec | main_v2.py:164 | an element is selected iff it occurs and its class list has both `product` and `type-product`; the selection is no longer than the input |
| Catalog.ProductsAppend | main_v2.py:164 | the selector keeps document order and multiplicity: two stretches of elements give their products in turn |
| Catalog.ProductsSingle | main_v1.py:129 | a single element is selected iff its classes mark it as a product |
| Catalog.StopFrom | main_v2.py:153-168 | scanning from page k, the walk stops at the first page at or after k that is missing or has no products, and goes on at every page in between |
| Catalog.StopAt | main_v2.py:157-168 | the stop page halts the walk and no page before it does |
| Catalog.StopIsFirstHalt | main_v2.py:159-168 | a halting page at or before the stop page is the stop page |
| Catalog.GoesOnBeforeStop | main_v2.py:166-172 | a non-halting page at or before the stop page lies before it and exists |
| Catalog.ListedStep | main_v2.py:164-172 | page k+1 lists its products after those of the pages before it |
| Catalog.Collect | main_v2.py:172-215 | no contract; the per-product loop as a value, specified by KeptSpec, CollectSpec, CollectStep, CollectExtend, CollectAppend and CollectPrefix |
| Catalog.KeptSpec | main_v2.py:172-220 | a product's position is kept iff its assembly succeeds, in increasing order |
| Catalog.CollectSpec | main_v2.py:172-220 | the records are exactly the successful assemblies, in product order, each made with its position's id |
| Catalog.CollectTotal | main_v1.py:137-189 | when assembly cannot fail, product i gives record i with id `firstId + i` |
| Catalog.CollectStep | main_v2.py:173-215 | one more product appends its assembly with the next id |
| Catalog.CollectExtend | main_v2.py:173-215 | appending the outcome of the next product to the records so far gives the records of one more product |
| Catalog.CollectAppend | main_v2.py:172-223 | two stretches of products give their records in turn, with the ids carrying on |
| Catalog.CollectPrefix | main_v2.py:215 | a prefix of the products gives a prefix of the records |
| Catalog.ListedPrefix | main_v2.py:172 | the products of fewer pages are a prefix of those of more pages |
| Catalog.PageUrl | main_v2.py:154 | no contract; the root for page 1, else `{base}page/{n}/`, specified by PageUrlInjective |
| Catalog.PageUrlInjective | main_v2.py:154 | no two page numbers share a URL |
| Catalog.PageUrlsAt | main_v2.py:153-157 | the walk requests page 1 first, then page 2, and so on: page i+1 is requested i-th |
| Catalog.PageUrlsSpec | main_v2.py:153-157 | page i+1 is requested i-th, and all requested URLs differ |
| Catalog.PageUrlsDiffer | main_v2.py:153-154 | two different passes of the page loop request different URLs |
| Catalog.PageUrlsNext | main_v2.py:153-154 | requesting the next page extends the request log by its URL |
| Catalog.Harvest | main_v2.py:147-215 | no contract; the records of a whole walk, specified by HarvestV2Ids, HarvestV1Total and the Crawl/Run methods |
| Catalog.HeldAfterStep | main_v2.py:172-215 | page k+1 appends its records, numbered after all products of earlier pages |
| Catalog.SnapshotsAt | main_v2.py:222 | save i holds the records of the first i+1 pages |
| Catalog.SnapshotsNext | main_v2.py:222 | saving after the next page extends the saves by the dataset held then |
| Catalog.HeldAfterGrows | main_v2.py:215 | the dataset only grows from page to page |
| ParserV2.GetDigits | main_v2.py:135-137 | no contract; `get_digits` with `float` as a parameter, specified by GetDigitsSpec |
| ParserV2.GetDigitsSpec | main_v2.py:135-137 | 0 without digits, dots or commas, else `float` of the normalised text, which depends on those characters alone |
| ParserV2.ParsePriceV2 | main_v2.py:127-145 | no contract; `parse_price`, specified by ParsePriceV2Spec |
| ParserV2.ParsePriceV2Spec | main_v2.py:127-145 | no container gives 0/None/UAH; a sale price appears iff both `ins` and `del` exist, and then price comes from `del` and sale from `ins`; failure iff a converted text is refused by `float` |
| ParserV2.RatingV2 | main_v2.py:184-189 | no contract; the rating of a product card, specified by RatingV2Spec |
| ParserV2.RatingV2Spec | main_v2.py:184-189 | 0.0 without a star element or a digit or dot, else `float` of the first run; a non-empty label beats the text |
| ParserV2.DetailsV2 | main_v2.py:72-125 | no contract; `get_product_details`, specified by DetailsV2Spec and the GetProductDetails method |
| ParserV2.DetailsV2Spec | main_v2.py:72-125 | the defaults come back without a URL or page; otherwise keys come from complete rows, the gallery holds only image hrefs of the page, and breadcrumbs are cleaned non-empty links |
| ParserV2.TitleV2 | main_v2.py:175-177 | no contract; the product name, specified by TitleV2Spec, TitleV2Distinct and AssembleV2Spec |
| ParserV2.TitleV2Spec | main_v2.py:175-177 | the name is missing only for a title element with empty text; without a title element it is `Product_<id>` |
| ParserV2.TitleV2Distinct | main_v2.py:177 | placeholder names of products with different numbers differ |
| ParserV2.ImageUrlV2 | main_v2.py:196 | no contract; `data-lazy-src or src`, specified by ImageUrlV2Spec |
| ParserV2.ImageUrlV2Spec | main_v2.py:196 | the URL is non-empty iff either attribute is; a non-empty `data-lazy-src` wins, else `src` is taken as it is |
| ParserV2.MainImageV2 | main_v2.py:193-197 | no contract; the main image path, specified by MainImageV2Spec |
| ParserV2.MainImageV2Spec | main_v2.py:193-197 | a path exists iff there is an `img` with an accepted URL, a name, and an existing or downloaded file; it is `images/<id>_<safe name>.jpg` |
| ParserV2.AssembleV2 | main_v2.py:173-215 | no contract; the per-product body, specified by AssembleV2Spec and AssembledImage |
| ParserV2.AssembleV2Spec | main_v2.py:173-215 | a product is dropped iff its price or rating conversion fails; a record has its id and link, is named `Product_<id>` without a title, and its image is `images/<id>_<safe name>.jpg` |
| ParserV2.HarvestV2Ids | main_v2.py:172-215 | the ids of a run's records are strictly increasing, 1-based, and id k is the assembly of the k-th listed product |
| ParserV2.AssembledImage | main_v2.py:193-197 | a record assembled under an id that has a main image names it `images/<id>_<safe name>.jpg` |
| ParserV2.HarvestV2Image | main_v2.py:172-215 | every record of a run with a main image names it after its own id |
| ParserV2.HarvestV2IdOrder | main_v2.py:172-215 | later records of a run have larger ids |
| ParserV2.HarvestV2DistinctImages | main_v2.py:57 | no two records of a run share an image file |
| ParserV2.TwoPageCatalog | main_v2.py:153-168 | a first page with two products and a missing second page: the walk requests only the root and `page/2/` and records ids 1 and 2 |
| ParserV2.KitkaParserFinal.constructor | main_v2.py:11-18 | the scraper starts with no records |
| ParserV2.KitkaParserFinal.GetProductDetails | main_v2.py:72-125 | the loops over rows and gallery links build exactly `DetailsV2` |
| ParserV2.KitkaParserFinal.ProcessProducts | main_v2.py:172-220 | every product consumes an index; successful records are appended in order; nothing else changes |
| ParserV2.KitkaParserFinal.ProcessPage | main_v2.py:172-223 | a page with products appends its records and then saves |
| ParserV2.KitkaParserFinal.VisitPage | main_v2.py:153-172 | one pass of the page loop requests the page URL, goes on iff the page lies before the stop page, and then appends that page's records and saves |
| ParserV2.KitkaParserFinal.Crawl | main_v2.py:147-227 | the loop appends the whole harvest, requests pages 1 to stop+1, saves after each processed page and once at the end |
| ParserV2.KitkaParserFinal.Run | main_v2.py:147-227 | `run` with the v2 per-product body |
| ParserV1.ParsePriceV1 | main_v1.py:91-109 | no contract; `parse_price` without conversion, specified by ParsePriceV1Spec |
| ParserV1.ParsePriceV1Spec | main_v1.py:91-109 | no container gives "0"/None; a sale price appears iff both tags exist; each price is exactly the digits, dots and commas of its text, with no conversion |
| ParserV1.RatingV1 | main_v1.py:154-158 | no contract; the rating string, specified by RatingV1Spec |
| ParserV1.RatingV1Spec | main_v1.py:153-158 | "0" without a star element; else the stripped label, or the stripped text when the label is empty, and None iff that text is empty |
| ParserV1.DetailsV1 | main_v1.py:68-89 | no contract; `get_product_details`, specified by DetailsV1Spec and the GetProductDetails method |
| ParserV1.DetailsV1Spec | main_v1.py:68-89 | empty without a URL, page or table; otherwise keys come from complete rows with stripped headers, and the last such row's stripped value wins |
| ParserV1.TitleV1 | main_v1.py:141-143 | no contract; the product name, specified by TitleV1Spec and AssembleV1Spec |
| ParserV1.TitleV1Spec | main_v1.py:141-143 | the name is missing only for a title element with empty text; without a title element it is "Unknown Product" |
| ParserV1.ImageUrlV1 | main_v1.py:165 | no contract; `data-lazy-src or data-src or src`, specified by ImageUrlV1Spec |
| ParserV1.ImageUrlV1Spec | main_v1.py:165 | the URL is non-empty iff some attribute is; it is the first non-empty of `data-lazy-src`, `data-src`, else `src` as it is |
| ParserV1.AssembleV1 | main_v1.py:139-184 | no contract; the per-product body, specified by AssembleV1Spec |
| ParserV1.AssembleV1Spec | main_v1.py:139-182 | a record has its link, is named "Unknown Product" without a title, has details only with a link, and its image is `images/<id>_<safe name>.jpg` with a safe name of at most 30 characters |
| ParserV1.CollectV1At | main_v1.py:137-184 | on any stretch of products, v1 gives one record per product, and record i is product i assembled under id i+1 |
| ParserV1.HarvestV1Total | main_v1.py:137-189 | every listed product gives a record; record i is the assembly of product i under id i+1 |
| ParserV1.KitkaParser.constructor | main_v1.py:10-16 | the scraper starts with no records |
| ParserV1.KitkaParser.GetProductDetails | main_v1.py:68-89 | the loop over the rows builds exactly `DetailsV1` |
| ParserV1.KitkaParser.ProcessProducts | main_v1.py:137-189 | every product consumes an index and its record is appended in order |
| ParserV1.KitkaParser.ProcessPage | main_v1.py:137-194 | a page with products appends its records and does not save |
| ParserV1.KitkaParser.VisitPage | main_v1.py:117-137 | one pass of the page loop requests the page URL, goes on iff the page lies before the stop page, and then appends that page's records |
| ParserV1.KitkaParser.Run | main_v1.py:111-196 | the loop appends the whole harvest, requests pages 1 to stop+1, and saves exactly once, after the loop |

## Left out

- HTTP: the session, headers, timeouts and status handling of `get_soup` are not modelled. Each fetch is an input value: a `PageFetch`, an `Option<DetailPage>`, or an `ImageReply`.
- `time.sleep` and `random.uniform` are left out. They affect timing only.
- BeautifulSoup parsing and the `find`/`find_all` searches are library calls. Each element and detail page is given as the values those searches select.
- `float` is left out because it is floating-point parsing. It is the abstract `parse` parameter, and its failure takes the per-product skip path.
- Integer 0 and float 0.0 are not told apart: both are the real 0.0.
- `\d` is modelled as the ASCII digits only. Python also matches other Unicode decimal digits.
- `os.makedirs`, the chunked file write, `json.dump` and `print` are I/O. A save is recorded as a snapshot of `data`. A truncated file after a failed mid-stream write is not modelled.
- The set of existing images is fixed before the run. Files written during the run are not added to it. This is safe because no two records of a run share a path (`ParserV2.HarvestV2DistinctImages`), and v1 uses the same `ImagePath` with distinct ids.
- The catalog is a finite sequence of pages. Every page past its end is `NoPage`.
- Non-termination of the page loop is not modelled. The `while True` loops (main_v2.py:153, main_v1.py:115) end only at a missing page or a page without products. A server that answers every `page/{n}/` with products, for example by redirecting out-of-range pages to the last page, would keep them running forever. The finite page sequence above rules that case out.
- The `KeyboardInterrupt` handler in `__main__` is left out. It concerns signals and process control.
- v1 never drops a product: nothing in its per-product body can raise in this model. Its `try` is kept as the general loop over an assembly that always succeeds.
- For whitespace-only input, v2 `clean_text` returns the empty string, not None (main_v2.py:37-39). A v1 product without a title element is named "Unknown Product" (main_v1.py:143).
