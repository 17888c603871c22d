/** ASIN extraction from a product URL and the two URLs built from an ASIN
    (utils.py `get_product_asin`, `clean_url`, `product_link`).

    Both regular expressions are modelled as Python's `re` reads them.
    The first, `[/dp/|/gp/product/]([A-Z0-9]{10})`, opens with a CHARACTER
    CLASS: it matches ONE character out of `/ d p | g r o u c t` followed by
    ten upper-case letters or digits, wherever that occurs. The second,
    `([A-Z0-9]{10})(?:/ref|/|$)`, wants the ten characters to be followed by
    `/` (the `/ref` alternative implies it) or by the end of the string,
    where `$` also accepts a single final newline. */
module Asin {
  import opened Wrappers
  import opened Search
  import opened PyStr

  const AsinLength: nat := 10

  /** The class `[A-Z0-9]`. */
  predicate IsAsinChar(c: char) {
    ('A' <= c <= 'Z') || ('0' <= c <= '9')
  }

  /** A well-formed ASIN: ten characters of `[A-Z0-9]`. */
  predicate IsAsin(a: string) {
    |a| == AsinLength && forall k :: 0 <= k < |a| ==> IsAsinChar(a[k])
  }

  /** `[A-Z0-9]{10}` matches at position `i`. */
  predicate AsinRunAt(s: string, i: int) {
    0 <= i && i + AsinLength <= |s| && IsAsin(s[i..i + AsinLength])
  }

  /** `t` occurs in `s` starting at position `i`. */
  predicate OccursAt(s: string, t: string, i: int) {
    0 <= i && i + |t| <= |s| && s[i..i + |t|] == t
  }

  /** The class `[/dp/|/gp/product/]`: the set of its distinct characters. */
  predicate IsMarker(c: char) {
    c in "/dp|gproduct"
  }

  /** Python's `$` without MULTILINE: at the end, or before a final newline. */
  predicate AtEnd(s: string, j: int) {
    j == |s| || (0 <= j && j + 1 == |s| && s[j] == '\n')
  }

  /** Pattern 1 matches with its match starting at `i`; its group starts at `i + 1`. */
  predicate Pattern1At(s: string, i: int) {
    0 <= i < |s| && IsMarker(s[i]) && AsinRunAt(s, i + 1)
  }

  /** Pattern 2 matches with its match (and group) starting at `i`. */
  predicate Pattern2At(s: string, i: int) {
    && AsinRunAt(s, i)
    && var j := i + AsinLength;
       || StartsWith(s[j..], "/ref")
       || StartsWith(s[j..], "/")
       || AtEnd(s, j)
  }

  /** The `/ref` alternative of pattern 2 adds nothing: `/` alone already matches. */
  lemma RefAlternativeSubsumed(s: string, i: nat)
    requires AsinRunAt(s, i)
    ensures Pattern2At(s, i) <==> (i + AsinLength < |s| && s[i + AsinLength] == '/') || AtEnd(s, i + AsinLength)
  {
    var j := i + AsinLength;
    if StartsWith(s[j..], "/ref") {
      assert s[j..][0] == "/ref"[0];
    }
    if j < |s| && s[j] == '/' {
      assert s[j..][..1] == "/";
    }
  }

  /** The characters of a `[A-Z0-9]` run never begin with `ref`. */
  lemma AsinNeverStartsWithRef(a: string)
    requires IsAsin(a)
    ensures !StartsWith(a, "ref")
  {
    assert IsAsinChar(a[0]);
  }

  /** `get_product_asin(url)`: the group of the leftmost pattern-1 match;
      otherwise the leftmost pattern-2 match unless it starts with `ref`;
      otherwise `None`. A result is always ten `[A-Z0-9]` characters copied
      from a contiguous stretch of the URL. */
  function GetProductAsin(url: string): (r: Option<string>)
    ensures r.Some? ==> IsAsin(r.value)
    ensures r.Some? ==> exists i :: OccursAt(url, r.value, i)
  {
    match FirstMatch(|url|, (i: nat) => Pattern1At(url, i), 0)
    case Some(i) =>
      assert url[i + 1..i + 1 + AsinLength] == url[i + 1..][..AsinLength];
      assert OccursAt(url, url[i + 1..i + 1 + AsinLength], i + 1);
      Some(url[i + 1..i + 1 + AsinLength])
    case None =>
      match FirstMatch(|url|, (i: nat) => Pattern2At(url, i), 0)
      case Some(i) =>
        var group := url[i..i + AsinLength];
        assert OccursAt(url, group, i);
        if !StartsWith(group, "ref") then Some(group) else None
      case None => None
  }

  /** `get_product_asin` returns `None` exactly when neither pattern matches
      anywhere: the `startswith("ref")` guard never rejects a candidate. */
  lemma NoneIffNoMatch(url: string)
    ensures GetProductAsin(url).None? <==>
      (forall i :: !Pattern1At(url, i)) && (forall i :: !Pattern2At(url, i))
  {
    var p1 := FirstMatch(|url|, (i: nat) => Pattern1At(url, i), 0);
    var p2 := FirstMatch(|url|, (i: nat) => Pattern2At(url, i), 0);
    if p1.None? {
      assert forall i :: !Pattern1At(url, i) by {
        forall i ensures !Pattern1At(url, i) {
          if 0 <= i <= |url| {
            assert !((i: nat) => Pattern1At(url, i))(i);
          }
        }
      }
      if p2.Some? {
        AsinNeverStartsWithRef(url[p2.value..p2.value + AsinLength]);
      } else {
        forall i ensures !Pattern2At(url, i) {
          if 0 <= i <= |url| {
            assert !((i: nat) => Pattern2At(url, i))(i);
          }
        }
      }
    }
  }

  /** Pattern priority: when pattern 1 matches anywhere, the result is the
      group of its leftmost match, even if pattern 2 matches further left. */
  lemma Pattern1Wins(url: string, i: nat)
    requires Pattern1At(url, i)
    requires forall j :: 0 <= j < i ==> !Pattern1At(url, j)
    ensures GetProductAsin(url) == Some(url[i + 1..i + 1 + AsinLength])
  {
    FirstMatchFinds(|url|, (j: nat) => Pattern1At(url, j), i);
  }

  /** Fallback: when pattern 1 matches nowhere, the result is the leftmost
      pattern-2 match, never rejected by the `ref` guard. */
  lemma Pattern2Fallback(url: string, i: nat)
    requires forall j :: !Pattern1At(url, j)
    requires Pattern2At(url, i)
    requires forall j :: 0 <= j < i ==> !Pattern2At(url, j)
    ensures GetProductAsin(url) == Some(url[i..i + AsinLength])
  {
    var p1 := FirstMatch(|url|, (j: nat) => Pattern1At(url, j), 0);
    assert p1.None?;
    FirstMatchFinds(|url|, (j: nat) => Pattern2At(url, j), i);
    AsinNeverStartsWithRef(url[i..i + AsinLength]);
  }

  /** A pattern-2 result can only come from a run that opens the URL or that
      follows a character outside the class: after a class character the
      same run would already have matched pattern 1. */
  lemma FallbackRunNotAfterMarker(url: string, i: nat)
    requires forall j :: !Pattern1At(url, j)
    requires Pattern2At(url, i)
    ensures i == 0 || !IsMarker(url[i - 1])
  {
    if i > 0 {
      assert !Pattern1At(url, i - 1);
    }
  }

  /** The scheme and host every link of the bot starts with. */
  const ProductUrlPrefix: string := "https://www.amazon.it/dp/"

  /** `clean_url = f"https://www.amazon.it/dp/{asin}"`. */
  function CleanUrl(asin: string): string
  {
    ProductUrlPrefix + asin
  }

  /** `product_link = f"https://www.amazon.it/dp/{asin}?tag={AFFILIATE_TAG}"`. */
  function ProductLink(asin: string, affiliateTag: string): string
  {
    ProductUrlPrefix + asin + "?tag=" + affiliateTag
  }

  /** No character of the prefix belongs to `[A-Z0-9]`. */
  lemma PrefixHasNoAsinChar()
    ensures forall k :: 0 <= k < |ProductUrlPrefix| ==> !IsAsinChar(ProductUrlPrefix[k])
  {
  }

  /** A URL whose first `[A-Z0-9]` character is an ASIN right after a class
      character yields that ASIN: that class character is the leftmost
      pattern-1 match, because no earlier character is followed by a
      `[A-Z0-9]` character. */
  lemma {:induction false} LeadingAsinExtracted(prefix: string, asin: string, rest: string)
    requires |prefix| > 0 && IsMarker(prefix[|prefix| - 1])
    requires forall k :: 0 <= k < |prefix| ==> !IsAsinChar(prefix[k])
    requires IsAsin(asin)
    ensures GetProductAsin(prefix + asin + rest) == Some(asin)
  {
    var url := prefix + asin + rest;
    var i := |prefix| - 1;
    assert url[i + 1..i + 1 + AsinLength] == asin;
    assert Pattern1At(url, i);
    forall j | 0 <= j < i
      ensures !Pattern1At(url, j)
    {
      assert url[j + 1] == prefix[j + 1];
      assert url[j + 1..j + 1 + AsinLength][0] == url[j + 1];
    }
    Pattern1Wins(url, i);
  }

  /** Any URL that begins with the product prefix and an ASIN yields that ASIN. */
  lemma PrefixedAsinExtracted(asin: string, rest: string)
    requires IsAsin(asin)
    ensures GetProductAsin(ProductUrlPrefix + asin + rest) == Some(asin)
  {
    PrefixHasNoAsinChar();
    LeadingAsinExtracted(ProductUrlPrefix, asin, rest);
  }

  /** Round trip through the clean URL. */
  lemma CleanUrlRoundTrip(asin: string)
    requires IsAsin(asin)
    ensures GetProductAsin(CleanUrl(asin)) == Some(asin)
  {
    PrefixedAsinExtracted(asin, "");
    assert ProductUrlPrefix + asin + "" == CleanUrl(asin);
  }

  /** Round trip through the affiliate link, whatever the tag. */
  lemma ProductLinkRoundTrip(asin: string, affiliateTag: string)
    requires IsAsin(asin)
    ensures GetProductAsin(ProductLink(asin, affiliateTag)) == Some(asin)
  {
    PrefixedAsinExtracted(asin, "?tag=" + affiliateTag);
    assert ProductUrlPrefix + asin + ("?tag=" + affiliateTag) == ProductLink(asin, affiliateTag);
  }

  /** What the character class does to a real URL shape: an upper-case slug
      segment in front of `/dp/` is taken for the ASIN, because its leading
      `/` belongs to the class. */
  lemma SlugTakenBeforeDp()
    ensures GetProductAsin("https://www.amazon.it/" + "SAMSUNGTV5" + "5/dp/B0ABCDEFGH") == Some("SAMSUNGTV5")
  {
    var host := "https://www.amazon.it/";
    assert forall k :: 0 <= k < |host| ==> !IsAsinChar(host[k]);
    LeadingAsinExtracted(host, "SAMSUNGTV5", "5/dp/B0ABCDEFGH");
  }
}
