/** `get_amazon_product_details` (utils.py:39-139) as a pure function.

    The HTTP request and the HTML parse are inputs: `fetch` maps the URL
    requested to the page's lookups, or to `None` when `requests.get`,
    `raise_for_status` or anything else in the `try` block raised (every
    `except` branch returns `None`). A page is the list of what each
    `soup.find(...)` and `get_text(strip=True)` produced. `toFloat` stands for
    Python's `float()` on a string, `None` being its `ValueError`. */
module Product {
  import opened Wrappers
  import opened Asin
  import opened Prices
  import opened Images

  /** What the scraper reads from a fetched page; `None` is an element
      `soup.find` did not find. Texts are already `get_text(strip=True)`. */
  datatype ProductPage = ProductPage(
    title: Option<string>,           // span#productTitle
    priceWhole: Option<string>,      // span.a-price-whole
    priceFraction: Option<string>,   // span.a-price-fraction
    strikePrice: Option<string>,     // span.a-text-strike
    landingImage: Option<ImageElement>,  // img#landingImage
    blissImage: Option<ImageElement>)    // img#imgBliss

  /** The returned dictionary. `currentPrice` defaults to `0.0`,
      `previousPrice` to `None`, `imageUrl` to `""` (and is `None` only when
      the `src` fallback finds no attribute). */
  datatype ProductRecord = ProductRecord(
    title: string,
    currentPrice: real,
    previousPrice: Option<real>,
    imageUrl: Option<string>,
    productLink: string)

  /** `current_price`: `float` of the combined text when both parts exist and
      it parses, else the default `0.0`. */
  function CurrentPrice(page: ProductPage, toFloat: string -> Option<real>): real
  {
    if page.priceWhole.Some? && page.priceFraction.Some? then
      match toFloat(CurrentPriceText(page.priceWhole.value, page.priceFraction.value))
      case Some(v) => v
      case None => 0.0
    else 0.0
  }

  /** `previous_price`: `float` of the cleaned strike-through text, else `None`. */
  function PreviousPrice(page: ProductPage, toFloat: string -> Option<real>): Option<real>
  {
    if page.strikePrice.Some? then toFloat(CleanOldPrice(page.strikePrice.value)) else None
  }

  /** The whole routine. No ASIN: `None` before anything is fetched. A failed
      fetch, or a missing or empty title: `None`. Otherwise a record whose
      title is the page's title and whose link carries the ASIN and the tag. */
  function ProductDetails(
    amazonUrl: string,
    affiliateTag: string,
    fetch: string -> Option<ProductPage>,
    toFloat: string -> Option<real>): (r: Option<ProductRecord>)
    ensures GetProductAsin(amazonUrl).None? ==> r.None?
    ensures r.Some? ==>
      && GetProductAsin(amazonUrl).Some?
      && var asin := GetProductAsin(amazonUrl).value;
         && fetch(CleanUrl(asin)).Some?
         && fetch(CleanUrl(asin)).value.title == Some(r.value.title)
         && r.value.title != ""
         && r.value.productLink == ProductLink(asin, affiliateTag)
  {
    match GetProductAsin(amazonUrl)
    case None => None
    case Some(asin) =>
      match fetch(CleanUrl(asin))
      case None => None
      case Some(page) =>
        if page.title.None? || page.title.value == "" then None
        else
          Some(ProductRecord(
            page.title.value,
            CurrentPrice(page, toFloat),
            PreviousPrice(page, toFloat),
            SelectImageUrl(page.landingImage, page.blissImage),
            ProductLink(asin, affiliateTag)))
  }

  /** The record is refused exactly when there is no ASIN, the fetch failed,
      or the title is missing or empty. */
  lemma RecordDecision(
    amazonUrl: string, affiliateTag: string,
    fetch: string -> Option<ProductPage>, toFloat: string -> Option<real>)
    ensures var asin := GetProductAsin(amazonUrl);
      ProductDetails(amazonUrl, affiliateTag, fetch, toFloat).None? <==>
        || asin.None?
        || fetch(CleanUrl(asin.value)).None?
        || fetch(CleanUrl(asin.value)).value.title.None?
        || fetch(CleanUrl(asin.value)).value.title.value == ""
  {
  }

  /** Only the clean URL of the extracted ASIN is ever requested: fetchers
      that agree on it give the same result. */
  lemma OnlyCleanUrlFetched(
    amazonUrl: string, affiliateTag: string,
    fetch1: string -> Option<ProductPage>, fetch2: string -> Option<ProductPage>,
    toFloat: string -> Option<real>)
    requires GetProductAsin(amazonUrl).Some? ==>
      fetch1(CleanUrl(GetProductAsin(amazonUrl).value)) == fetch2(CleanUrl(GetProductAsin(amazonUrl).value))
    ensures ProductDetails(amazonUrl, affiliateTag, fetch1, toFloat) == ProductDetails(amazonUrl, affiliateTag, fetch2, toFloat)
  {
  }

  /** A page with a title gives a record; every field whose element is
      missing keeps its default (`0.0`, `None`, `""`), and the link is
      always `https://www.amazon.it/dp/{asin}?tag={tag}`. */
  lemma RecordDefaults(
    amazonUrl: string, affiliateTag: string,
    fetch: string -> Option<ProductPage>, toFloat: string -> Option<real>)
    requires GetProductAsin(amazonUrl).Some?
    requires fetch(CleanUrl(GetProductAsin(amazonUrl).value)).Some?
    requires fetch(CleanUrl(GetProductAsin(amazonUrl).value)).value.title.Some?
    requires fetch(CleanUrl(GetProductAsin(amazonUrl).value)).value.title.value != ""
    ensures var asin := GetProductAsin(amazonUrl).value;
      var page := fetch(CleanUrl(asin)).value;
      var r := ProductDetails(amazonUrl, affiliateTag, fetch, toFloat);
      && r.Some?
      && r.value.title == page.title.value
      && (page.priceWhole.None? || page.priceFraction.None? ==> r.value.currentPrice == 0.0)
      && (page.strikePrice.None? ==> r.value.previousPrice.None?)
      && (page.landingImage.None? && page.blissImage.None? ==> r.value.imageUrl == Some(""))
      && r.value.productLink == "https://www.amazon.it/dp/" + asin + "?tag=" + affiliateTag
  {
  }

  /** The prices in a record are `float()` of the normalised texts: the
      current price of the whole part without dots, a dot and the fraction
      (`0.0` if that does not parse), the previous price of the cleaned
      strike-through text (`None` if that does not parse). */
  lemma RecordPrices(
    amazonUrl: string, affiliateTag: string,
    fetch: string -> Option<ProductPage>, toFloat: string -> Option<real>)
    requires ProductDetails(amazonUrl, affiliateTag, fetch, toFloat).Some?
    ensures var page := fetch(CleanUrl(GetProductAsin(amazonUrl).value)).value;
      var r := ProductDetails(amazonUrl, affiliateTag, fetch, toFloat).value;
      && (page.priceWhole.Some? && page.priceFraction.Some? ==>
            var text := CurrentPriceText(page.priceWhole.value, page.priceFraction.value);
            r.currentPrice == (if toFloat(text).Some? then toFloat(text).value else 0.0))
      && (page.strikePrice.Some? ==> r.previousPrice == toFloat(CleanOldPrice(page.strikePrice.value)))
  {
  }

  /** The record's image URL is the selection over the page's two image
      elements, so every case of `ImageSelection` applies to it. */
  lemma RecordImage(
    amazonUrl: string, affiliateTag: string,
    fetch: string -> Option<ProductPage>, toFloat: string -> Option<real>)
    requires ProductDetails(amazonUrl, affiliateTag, fetch, toFloat).Some?
    ensures var page := fetch(CleanUrl(GetProductAsin(amazonUrl).value)).value;
      ProductDetails(amazonUrl, affiliateTag, fetch, toFloat).value.imageUrl
        == SelectImageUrl(page.landingImage, page.blissImage)
  {
  }

  /** A link the bot itself produced leads back to the same product: the
      record's link and the clean URL both yield the ASIN again. */
  lemma RecordLinkRoundTrip(
    amazonUrl: string, affiliateTag: string,
    fetch: string -> Option<ProductPage>, toFloat: string -> Option<real>)
    requires ProductDetails(amazonUrl, affiliateTag, fetch, toFloat).Some?
    ensures var asin := GetProductAsin(amazonUrl).value;
      var r := ProductDetails(amazonUrl, affiliateTag, fetch, toFloat).value;
      && GetProductAsin(r.productLink) == Some(asin)
      && GetProductAsin(CleanUrl(asin)) == Some(asin)
  {
    var asin := GetProductAsin(amazonUrl).value;
    ProductLinkRoundTrip(asin, affiliateTag);
    CleanUrlRoundTrip(asin);
  }
}
