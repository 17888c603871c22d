/** The two price-text normalisations of `get_amazon_product_details`
    (utils.py:86 and utils.py:97-99). The `float()` that follows each of
    them is not modelled here: the record assembly takes it as a parameter. */
module Prices {
  import opened PyStr

  predicate IsNotDot(c: char) { c != '.' }

  predicate IsNotEuro(c: char) { c != '€' }

  /** The characters `re.sub(r'[^\d.]', '', ...)` keeps. */
  predicate IsDigitOrDot(c: char) { IsDigit(c) || c == '.' }

  /** The current-price text: the whole part with its thousands dots
      removed, a `.`, then the fraction part. The only `.` before the
      fraction is the one inserted. */
  function CurrentPriceText(whole: string, fraction: string): (r: string)
    ensures |r| > |fraction|
    ensures r[|r| - |fraction| - 1] == '.' && r[|r| - |fraction|..] == fraction
    ensures '.' !in r[..|r| - |fraction| - 1]
  {
    Filter(whole, IsNotDot) + "." + fraction
  }

  /** The whole part keeps every character except `.` with its multiplicity,
      and the text holds one `.` more than the fraction part. */
  lemma CurrentPriceTextCounts(whole: string, fraction: string, c: char)
    ensures var r := CurrentPriceText(whole, fraction);
      Count(r[..|r| - |fraction| - 1], c) == (if c == '.' then 0 else Count(whole, c))
    ensures Count(CurrentPriceText(whole, fraction), '.') == Count(fraction, '.') + 1
  {
    var w := Filter(whole, IsNotDot);
    var r := CurrentPriceText(whole, fraction);
    assert r[..|r| - |fraction| - 1] == w;
    FilterCount(whole, IsNotDot, c);
    FilterCount(whole, IsNotDot, '.');
    CountConcat(w, ".", '.');
    CountConcat(w + ".", fraction, '.');
  }

  /** The text is fixed by two facts: deleting a `.` from the whole part
      changes nothing, and a whole part without dots appears verbatim in
      front of the inserted `.` and the fraction. */
  lemma CurrentPriceTextShape(a: string, b: string, whole: string, fraction: string)
    ensures CurrentPriceText(a + "." + b, fraction) == CurrentPriceText(a + b, fraction)
    ensures '.' !in whole ==> CurrentPriceText(whole, fraction) == whole + "." + fraction
  {
    FilterConcat(a + ".", b, IsNotDot);
    FilterConcat(a, ".", IsNotDot);
    FilterConcat(a, b, IsNotDot);
    assert Filter(".", IsNotDot) == "";
    if '.' !in whole {
      FilterKeepsAll(whole, IsNotDot);
    }
  }

  /** The old-price text: `€` removed, every `,` turned into `.`, then every
      character other than a digit or `.` removed. */
  function CleanOldPrice(text: string): (r: string)
    ensures forall k :: 0 <= k < |r| ==> IsDigitOrDot(r[k])
  {
    Filter(ReplaceChar(Filter(text, IsNotEuro), ',', '.'), IsDigitOrDot)
  }

  /** Cleaning keeps exactly the input's digits, in their order. */
  lemma OldPriceKeepsDigits(text: string)
    ensures Filter(CleanOldPrice(text), IsDigit) == Filter(text, IsDigit)
  {
    var noEuro := Filter(text, IsNotEuro);
    var dotted := ReplaceChar(noEuro, ',', '.');
    FilterNarrower(dotted, IsDigitOrDot, IsDigit);
    FilterIgnoresReplace(noEuro, ',', '.', IsDigit);
    FilterNarrower(text, IsNotEuro, IsDigit);
  }

  /** Every `.` and every `,` of the input becomes one `.` of the output. */
  lemma OldPriceDotCount(text: string)
    ensures Count(CleanOldPrice(text), '.') == Count(text, '.') + Count(text, ',')
  {
    var noEuro := Filter(text, IsNotEuro);
    var dotted := ReplaceChar(noEuro, ',', '.');
    FilterCount(dotted, IsDigitOrDot, '.');
    ReplaceCharCount(noEuro, ',', '.', '.');
    FilterCount(text, IsNotEuro, '.');
    FilterCount(text, IsNotEuro, ',');
  }

  /** Cleaning a cleaned text changes nothing. */
  lemma OldPriceIdempotent(text: string)
    ensures CleanOldPrice(CleanOldPrice(text)) == CleanOldPrice(text)
  {
    var r := CleanOldPrice(text);
    FilterKeepsAll(r, IsNotEuro);
    assert ',' !in r by {
      forall k | 0 <= k < |r| ensures r[k] != ',' {
        assert IsDigitOrDot(r[k]);
      }
    }
    ReplaceCharAbsent(r, ',', '.');
    FilterKeepsAll(r, IsDigitOrDot);
  }

  /** Removing `€` first changes nothing: the final filter drops it anyway. */
  lemma {:induction false} EuroRemovalRedundant(text: string)
    ensures CleanOldPrice(text) == Filter(ReplaceChar(text, ',', '.'), IsDigitOrDot)
    decreases |text|
  {
    if |text| > 0 {
      var c, rest := text[0], text[1..];
      assert text == [c] + rest;
      EuroRemovalRedundant(rest);
      var head := if IsNotEuro(c) then [c] else "";
      FilterConcat([c], rest, IsNotEuro);
      ReplaceCharConcat(head, Filter(rest, IsNotEuro), ',', '.');
      FilterConcat(ReplaceChar(head, ',', '.'), ReplaceChar(Filter(rest, IsNotEuro), ',', '.'), IsDigitOrDot);
      ReplaceCharConcat([c], rest, ',', '.');
      FilterConcat(ReplaceChar([c], ',', '.'), ReplaceChar(rest, ',', '.'), IsDigitOrDot);
    }
  }
}
