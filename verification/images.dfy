/** Image-URL selection of `get_amazon_product_details` (utils.py:107-120):
    the element is `img#landingImage`, else `img#imgBliss`; from its
    `data-a-dynamic-image` attribute (a JSON object keyed by image URLs) the
    first match of `"(https?://[^"]+)"` is taken, and only when that
    attribute is missing or empty does the `src` attribute stand in. */
module Images {
  import opened Wrappers
  import opened Search
  import opened PyStr

  /** The two attributes of an image element the scraper reads; `None` is
      an attribute the element does not carry. */
  datatype ImageElement = ImageElement(dynamicImage: Option<string>, src: Option<string>)

  /** The group `https?://[^"]+`: a scheme and at least one more character. */
  predicate IsHttpUrl(u: string) {
    || (StartsWith(u, "http://") && |u| > 7)
    || (StartsWith(u, "https://") && |u| > 8)
  }

  /** Declarative reading of the pattern: a quote at `i`, the next quote at
      `j`, and between them an http(s) URL. */
  ghost predicate QuotedUrlAt(s: string, i: int, j: int) {
    && 0 <= i < j < |s|
    && s[i] == '"' && s[j] == '"'
    && (forall k :: i < k < j ==> s[k] != '"')
    && IsHttpUrl(s[i + 1..j])
  }

  predicate QuoteAt(s: string, j: nat) {
    j < |s| && s[j] == '"'
  }

  /** The first `"` at or after `from`. */
  function NextQuote(s: string, from: nat): (r: Option<nat>)
    ensures r.Some? ==> from <= r.value < |s| && s[r.value] == '"'
    ensures r.Some? ==> forall k :: from <= k < r.value ==> s[k] != '"'
    ensures r.None? ==> forall k :: from <= k < |s| ==> s[k] != '"'
  {
    var r := FirstMatch(|s|, (j: nat) => QuoteAt(s, j), from);
    var bound := if r.Some? then r.value else |s|;
    assert forall k :: from <= k < bound ==> s[k] != '"' by {
      forall k | from <= k < bound ensures s[k] != '"' {
        assert !((j: nat) => QuoteAt(s, j))(k);
      }
    }
    r
  }

  /** No pattern match before `i` means no quoted URL opens before `i`. */
  lemma NoQuotedUrlBefore(data: string, i: int)
    requires forall k :: 0 <= k < i ==> !UrlMatchAt(data, k)
    ensures forall k, j :: 0 <= k < i ==> !QuotedUrlAt(data, k, j)
  {
    forall k, j | 0 <= k < i ensures !QuotedUrlAt(data, k, j) {
      UrlMatchAtMeans(data, k);
    }
  }

  /** The pattern matches at `i`, checked the way the regex engine does it:
      the greedy `[^"]+` runs to the next quote, which must close an http(s) URL. */
  predicate UrlMatchAt(s: string, i: nat) {
    && i < |s| && s[i] == '"'
    && match NextQuote(s, i + 1)
       case Some(j) => IsHttpUrl(s[i + 1..j])
       case None => false
  }

  /** The executable check agrees with the declarative reading. */
  lemma UrlMatchAtMeans(s: string, i: nat)
    ensures UrlMatchAt(s, i) <==> exists j :: QuotedUrlAt(s, i, j)
  {
    if i < |s| && s[i] == '"' {
      var q := NextQuote(s, i + 1);
      if q.Some? && IsHttpUrl(s[i + 1..q.value]) {
        assert QuotedUrlAt(s, i, q.value);
      }
      forall j | QuotedUrlAt(s, i, j) ensures UrlMatchAt(s, i) {
        assert q.Some? && q.value == j;
      }
    }
  }

  /** `re.search(r'"(https?://[^"]+)"', data).group(1)`: the leftmost quoted
      http(s) URL, or `None` when there is none. */
  function FirstImageUrl(data: string): (r: Option<string>)
    ensures r.Some? ==> exists i, j ::
      && QuotedUrlAt(data, i, j) && r.value == data[i + 1..j]
      && (forall i', j' :: 0 <= i' < i ==> !QuotedUrlAt(data, i', j'))
    ensures r.None? <==> forall i, j :: !QuotedUrlAt(data, i, j)
  {
    var m := FirstMatch(|data|, (i: nat) => UrlMatchAt(data, i), 0);
    var bound := if m.Some? then m.value else |data| + 1;
    assert forall k :: 0 <= k < bound ==> !UrlMatchAt(data, k) by {
      forall k | 0 <= k < bound ensures !UrlMatchAt(data, k) {
        assert !((i: nat) => UrlMatchAt(data, i))(k);
      }
    }
    NoQuotedUrlBefore(data, bound);
    match m
    case Some(i) =>
      var j := NextQuote(data, i + 1).value;
      assert QuotedUrlAt(data, i, j);
      Some(data[i + 1..j])
    case None =>
      assert forall i, j :: !QuotedUrlAt(data, i, j) by {
        forall i, j ensures !QuotedUrlAt(data, i, j) {
          if 0 <= i < j < |data| {
            assert i < bound;
          }
        }
      }
      None
  }

  /** The `image_url` field: `""` when neither element exists; the first
      quoted URL of a non-empty dynamic attribute, or `""` when it has none;
      otherwise the `src` attribute, which may itself be missing (`None`). */
  function SelectImageUrl(landingImage: Option<ImageElement>, blissImage: Option<ImageElement>): (r: Option<string>)
  {
    var image := if landingImage.Some? then landingImage else blissImage;
    match image
    case None => Some("")
    case Some(e) =>
      if e.dynamicImage.Some? && e.dynamicImage.value != "" then
        match FirstImageUrl(e.dynamicImage.value)
        case Some(u) => Some(u)
        case None => Some("")
      else e.src
  }

  /** Image selection, all cases. A non-empty dynamic attribute decides alone:
      its leftmost quoted http(s) URL, or `""` when it holds none, and `src`
      is then never consulted. Only a missing or empty dynamic attribute
      falls back to `src`. Without either element the default `""` stays. */
  lemma ImageSelection(landingImage: Option<ImageElement>, blissImage: Option<ImageElement>)
    ensures landingImage.None? && blissImage.None? ==> SelectImageUrl(landingImage, blissImage) == Some("")
    ensures var image := if landingImage.Some? then landingImage else blissImage;
      image.Some? && image.value.dynamicImage.Some? && image.value.dynamicImage.value != "" ==>
        var data := image.value.dynamicImage.value;
        var r := SelectImageUrl(landingImage, blissImage);
        && r.Some?
        && (r.value == "" <==> forall i, j :: !QuotedUrlAt(data, i, j))
        && (r.value != "" ==> exists i, j ::
              && QuotedUrlAt(data, i, j) && r.value == data[i + 1..j]
              && (forall i', j' :: 0 <= i' < i ==> !QuotedUrlAt(data, i', j')))
    ensures var image := if landingImage.Some? then landingImage else blissImage;
      image.Some? && (image.value.dynamicImage.None? || image.value.dynamicImage.value == "") ==>
        SelectImageUrl(landingImage, blissImage) == image.value.src
  {
    var image := if landingImage.Some? then landingImage else blissImage;
    if image.Some? && image.value.dynamicImage.Some? && image.value.dynamicImage.value != "" {
      var data := image.value.dynamicImage.value;
      var u := FirstImageUrl(data);
      if u.Some? {
        var i, j :| QuotedUrlAt(data, i, j) && u.value == data[i + 1..j];
        assert |u.value| > 0;
      }
    }
  }
}
