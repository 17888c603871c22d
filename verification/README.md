# Amazon deal scraper and admin list: a Dafny model

This project models the pure logic of the "Legione dei Risparmiatori"
Telegram bot: how `utils.py` extracts an ASIN (Amazon Standard
Identification Number) from a product URL, builds the clean URL and the
affiliate link, normalises the two price texts, picks the product image and
decides whether a scraped product record is returned; and how `handlers.py`
parses the `ADMIN_IDS` environment variable into a list of user IDs and
checks membership in it.

Modules, one per component:

- `Wrappers` (`wrappers.dfy`): `Option`, standing for Python's `None`.
- `Search` (`search.dfy`): leftmost-match search, the scanning order of `re.search`.
- `PyStr` (`pystr.dfy`): the Python string built-ins used: `strip()`,
  `split(',')` and its inverse `join`, `replace` of one character, deletion of
  a character class, `int()` and its inverse `str()`.
- `Asin` (`asin.dfy`): `get_product_asin`, the clean URL and the product link.
- `Prices` (`prices.dfy`): the current-price and old-price text normalisations.
- `Images` (`images.dfy`): image-URL selection from `data-a-dynamic-image` or `src`.
- `Product` (`product.dfy`): `get_amazon_product_details` as a pure function.
- `Admins` (`admins.dfy`): `ADMIN_IDS` parsing and `is_admin`.

Behaviour of the code that a reader might not expect, kept as written:

- The first ASIN pattern, `[/dp/|/gp/product/]([A-Z0-9]{10})`, is a
  character class, not the alternation `/dp/` or `/gp/product/`. It matches
  one of the characters `/ d p | g r o u c t` followed by ten `[A-Z0-9]`
  characters anywhere in the URL. `Asin.SlugTakenBeforeDp` shows the effect:
  for `https://www.amazon.it/SAMSUNGTV55/dp/B0ABCDEFGH` the result is
  `SAMSUNGTV5`, not `B0ABCDEFGH`.
- The fallback pattern is `([A-Z0-9]{10})(?:/ref|/|$)`: the ten characters
  must be followed by `/` or by the end of the string (Python's `$` also
  matches before one final newline). Neither `?` nor `&` ends a token. Its
  `startswith("ref")` guard can never reject anything, because lower-case
  letters are not in `[A-Z0-9]` (`Asin.AsinNeverStartsWithRef`).
- utils.py:63 makes one request, with a fixed header set and no retry,
  backoff or user-agent rotation. No shortened link is resolved: a URL
  without a `[A-Z0-9]{10}` run gives `None` at utils.py:44-47.
- The affiliate link is the f-string at utils.py:58,
  `https://www.amazon.it/dp/{asin}?tag={tag}`. The query string of the input
  URL is never parsed or rewritten. The record (utils.py:53-59) has no
  discount field, and none is computed.
- `image_url` can end up `None`. This happens when the image element has no
  usable dynamic attribute and also no `src` attribute. If the dynamic
  attribute is non-empty but holds no quoted URL, `image_url` stays `""` and
  `src` is not consulted.

## Model

| member | source | states |
|---|---|---|
| `Search.FirstMatch` | utils.py:27-33 | the search returns the leftmost position where the pattern matches, and `None` only when no position matches |
| `Asin.GetProductAsin` | utils.py:23-37 | any ASIN returned is ten `[A-Z0-9]` characters that occur contiguously in the URL |
| `Asin.NoneIffNoMatch` | utils.py:27-37 | `None` is returned exactly when neither pattern matches anywhere in the URL |
| `Asin.Pattern1Wins` | utils.py:27-29 | if pattern 1 matches, the result is the group of its leftmost match, even when pattern 2 matches further left |
| `Asin.Pattern2Fallback` | utils.py:33-35 | if pattern 1 matches nowhere, the result is the leftmost pattern-2 match, and the `ref` guard never rejects it |
| `Asin.RefAlternativeSubsumed` | utils.py:33 | pattern 2 matches exactly when the run is followed by `/` or sits at the end (or before a final newline); the `/ref` alternative adds nothing |
| `Asin.AsinNeverStartsWithRef` | utils.py:34 | no `[A-Z0-9]{10}` group starts with `ref` |
| `Asin.FallbackRunNotAfterMarker` | utils.py:27-35 | a pattern-2 result either opens the URL or follows a character outside the pattern-1 class |
| `Asin.LeadingAsinExtracted` | utils.py:27-29 | a URL whose first `[A-Z0-9]` character starts an ASIN placed right after a class character yields that ASIN |
| `Asin.CleanUrlRoundTrip` | utils.py:50 | extracting the ASIN from `https://www.amazon.it/dp/{asin}` gives `asin` back |
| `Asin.ProductLinkRoundTrip` | utils.py:58 | extracting the ASIN from `https://www.amazon.it/dp/{asin}?tag={tag}` gives `asin` back, for every tag |
| `Asin.SlugTakenBeforeDp` | utils.py:27 | the character class takes an upper-case slug in front of `/dp/` as the ASIN |
| `Prices.CurrentPriceText` | utils.py:84-86 | the text is the dotless whole part, then one `.`, then the fraction; no `.` from the whole part survives |
| `Prices.CurrentPriceTextShape` | utils.py:86 | a `.` inside the whole part is deleted without trace, and a whole part without dots appears verbatim before the inserted `.` and the fraction |
| `Prices.CurrentPriceTextCounts` | utils.py:86 | the whole part keeps every non-dot character with its multiplicity, and the text has one more `.` than the fraction |
| `Prices.CleanOldPrice` | utils.py:97-99 | the cleaned old price contains only ASCII digits and `.` |
| `Prices.OldPriceKeepsDigits` | utils.py:97-99 | cleaning keeps the input's digits, all of them and in order |
| `Prices.OldPriceDotCount` | utils.py:97-99 | the number of `.` in the output is the input's number of `.` plus its number of `,` |
| `Prices.OldPriceIdempotent` | utils.py:97-99 | cleaning a cleaned text changes nothing |
| `Prices.EuroRemovalRedundant` | utils.py:97-99 | removing `€` first makes no difference, because the character filter drops it anyway |
| `Images.UrlMatchAtMeans` | utils.py:115 | the regex engine's check at a position agrees with the declarative reading: a quote, an http(s) URL with no quote in it, then a quote |
| `Images.FirstImageUrl` | utils.py:115-117 | the result is the leftmost quoted http(s) URL, and `None` only when the attribute holds none |
| `Images.ImageSelection` | utils.py:107-120 | a non-empty dynamic attribute alone decides (its first URL, or `""`); a missing or empty one falls back to `src`; with no element the default `""` stays |
| `Product.ProductDetails` | utils.py:39-129 | without an ASIN there is no record; a record has a non-empty page title and the link built from the ASIN and the tag |
| `Product.RecordDecision` | utils.py:44-127 | the result is `None` exactly when there is no ASIN, the fetch failed, or the title is missing or empty |
| `Product.OnlyCleanUrlFetched` | utils.py:50-63 | only the clean URL of the extracted ASIN is requested |
| `Product.RecordDefaults` | utils.py:53-59 | a titled page gives a record; fields whose elements are missing keep `0.0`, `None` and `""`; the link is always `https://www.amazon.it/dp/{asin}?tag={tag}` |
| `Product.RecordPrices` | utils.py:84-101 | the record's prices are `float()` of the normalised texts, with the defaults kept when parsing fails |
| `Product.RecordImage` | utils.py:105-120 | the record's image URL is the selection over the `landingImage` element, or `imgBliss` when that is absent |
| `Product.RecordLinkRoundTrip` | utils.py:50-58 | the record's link and the clean URL both give back the ASIN they were built from |
| `PyStr.Strip` | handlers.py:24 | `strip()` returns a slice of the input; only whitespace is removed, and the result neither starts nor ends with whitespace |
| `PyStr.StripPadded` | handlers.py:24 | whitespace added on either side does not change what `strip()` returns |
| `PyStr.Split` | handlers.py:24 | `split(',')` gives one more piece than there are commas |
| `PyStr.SplitPiecesSeparatorFree` | handlers.py:24 | no piece of a split contains the separator |
| `PyStr.JoinSplit` | handlers.py:24 | joining the pieces with the separator gives the original string |
| `PyStr.SplitJoin` | handlers.py:24 | splitting a join of separator-free pieces gives the pieces back |
| `PyStr.ParseInt` | handlers.py:24 | `int()` accepts only an optional sign followed by a digit; a parsed `-` value is at most zero, any other is at least zero |
| `PyStr.ParseIntDigits` | handlers.py:24 | a non-empty string of ASCII digits parses to its decimal value, leading zeros included |
| `PyStr.ParseIntSign` | handlers.py:24 | before a digit body, `+` keeps the value and `-` negates it |
| `PyStr.ParseIntUnderscore` | handlers.py:24 | one `_` between two digit groups does not change the value |
| `PyStr.ParseIntRejects` | handlers.py:24 | the empty string, and any string with a character other than a digit, `_` or a leading sign, is not an integer |
| `PyStr.ParseFormat` | handlers.py:24 | `int(str(n)) == n` |
| `PyStr.FilterCount` | utils.py:99 | filtering keeps every occurrence of a kept character and drops every other character |
| `PyStr.ReplaceChar` | utils.py:97 | `replace` changes every occurrence of the old character into the new one and leaves the rest in place |
| `PyStr.ReplaceCharCount` | utils.py:97 | `replace` adds the count of the old character to the count of the new one, leaves none of the old, and keeps all other counts |
| `Admins.ParseAll` | handlers.py:24 | the comprehension gives one value per piece, in order, or fails when some piece is not an integer |
| `Admins.AdminIds` | handlers.py:17-30 | an unset or empty variable gives `[]`; a non-empty list has one ID per comma-separated piece |
| `Admins.IsAdmin` | handlers.py:34-36 | `is_admin` holds exactly when the ID is in the list, so with an empty list nobody is an admin |
| `Admins.AdminIdsOnePerSegment` | handlers.py:24 | when every piece parses, the list has the commas' count plus one entries, each parsed from its piece, in order |
| `Admins.AdminIdsAllOrNothing` | handlers.py:21-28 | if any piece fails to parse, the list is empty |
| `Admins.BlankSegmentRejected` | handlers.py:24 | a blank piece is not an integer |
| `Admins.TrailingCommaRejected` | handlers.py:21-28 | a trailing comma empties the list |
| `Admins.AdminIdsIgnorePadding` | handlers.py:24 | whitespace around any piece does not change the list |
| `Admins.FormattedIdParses` | handlers.py:24 | an ID written with `str()` forms one piece, and that piece parses back to the ID |
| `Admins.AdminIdsRoundTrip` | handlers.py:19-36 | writing a non-empty ID list comma-separated into the variable gives the list back, and `is_admin` then admits exactly its members |
| `Admins.ParsedIdAdmitted` | handlers.py:24-36 | every ID produced by a successful parse is admitted by `is_admin` |

## Left out

- HTTP (utils.py:61-68, 131-139): `requests.get`, `raise_for_status` and the
  three `except` branches are network I/O. `Product.ProductDetails` takes a
  `fetch` function from the requested URL to an optional page. `None` stands
  for every exception, and each of those branches returns `None`. The
  `HEADERS` constant is request configuration only.
- HTML parsing (utils.py:70-120): BeautifulSoup is a foreign library. Each
  `soup.find`, `get_text(strip=True)` and `.get(...)` is an `Option` field of
  `Product.ProductPage` or `Images.ImageElement`. A found element is truthy,
  so `landingImage or imgBliss` picks the first one found.
- `float()` (utils.py:89, 101): floating point. It is the parameter
  `toFloat: string -> Option<real>`, where `None` is its `ValueError`.
- Configuration: `AFFILIATE_TAG` (utils.py:12, default `iltuotag-21`) and
  the `ADMIN_IDS` variable (handlers.py:19) are parameters. Logging is not
  modelled.
- `PyStr.IsDigit`: only ASCII digits are modelled. Python's `\d` in
  `[^\d.]` and `int()` also accept other Unicode decimal digits.
- `PyStr.ParseInt`: models `int()` in base 10 with an optional sign and
  underscores between digits, on text that is already stripped.
  `PyStr.IsSpace` is the full `str.isspace()` set.
- `PyStr.ParseInt`: has no digit-count limit. Python 3.11 and later (and
  patched 3.7-3.10) raise `ValueError` when `int()` gets more than 4300
  digits, by default. A piece of 4301 digits therefore empties the source's
  list but not `Admins.AdminIds`. Which limit applies depends on the
  interpreter and on `sys.set_int_max_str_digits`, so the model leaves it out.
- Telegram handlers `start`, `test_channel` and `forza_invio`
  (handlers.py:40-84) are asynchronous bot I/O. They also use the undefined
  name `ADMIN_USER_ID`. bot.py, scheduler.py and database.py are framework
  wiring, message sending and database access. None of these is part of this
  model.
