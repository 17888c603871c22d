/** The Python string built-ins the bot relies on, over `seq<char>`:
    `str.strip()`, `str.split(sep)` with its inverse `sep.join`, `str.replace`
    of one character, deletion of the characters outside a class (what
    `re.sub(r'[^...]', '', s)` and `str.replace(c, '')` do), and `int()`
    with its inverse `str()` on integers. */
module PyStr {
  import opened Wrappers

  // ---------------------------------------------------------------------
  // Character classes
  // ---------------------------------------------------------------------

  /** Python's `str.isspace()`: exactly the characters `str.strip()` removes. */
  predicate IsSpace(c: char) {
    || ('\t' <= c <= '\r')
    || ('\U{1C}' <= c <= '\U{1F}')
    || c == ' ' || c == '\U{85}' || c == '\U{A0}' || c == '\U{1680}'
    || ('\U{2000}' <= c <= '\U{200A}')
    || c == '\U{2028}' || c == '\U{2029}' || c == '\U{202F}' || c == '\U{205F}'
    || c == '\U{3000}'
  }

  /** An ASCII decimal digit (the model's reading of `\d` and of `int()`'s digits). */
  predicate IsDigit(c: char) {
    '0' <= c <= '9'
  }

  predicate AllSpace(s: string) {
    forall k :: 0 <= k < |s| ==> IsSpace(s[k])
  }

  /** `s.count(c)`: how many times `c` occurs in `s`. */
  function Count(s: string, c: char): nat
  {
    if |s| == 0 then 0 else (if s[0] == c then 1 else 0) + Count(s[1..], c)
  }

  lemma {:induction false} CountConcat(a: string, b: string, c: char)
    ensures Count(a + b, c) == Count(a, c) + Count(b, c)
    decreases |a|
  {
    if |a| > 0 {
      assert (a + b)[1..] == a[1..] + b;
      CountConcat(a[1..], b, c);
    } else {
      assert a + b == b;
    }
  }

  predicate StartsWith(s: string, prefix: string) {
    |prefix| <= |s| && s[..|prefix|] == prefix
  }

  // ---------------------------------------------------------------------
  // str.strip()
  // ---------------------------------------------------------------------

  function TrimStart(s: string): (r: string)
    ensures |r| <= |s| && r == s[|s| - |r|..]
    ensures AllSpace(s[..|s| - |r|])
    ensures |r| > 0 ==> !IsSpace(r[0])
  {
    if |s| > 0 && IsSpace(s[0]) then TrimStart(s[1..]) else s
  }

  function TrimEnd(s: string): (r: string)
    ensures |r| <= |s| && r == s[..|r|]
    ensures AllSpace(s[|r|..])
    ensures |r| > 0 ==> !IsSpace(r[|r| - 1])
  {
    if |s| > 0 && IsSpace(s[|s| - 1]) then TrimEnd(s[..|s| - 1]) else s
  }

  /** `s.strip()`: the slice of `s` left after removing leading and trailing
      whitespace; what is removed is whitespace and what is kept neither
      starts nor ends with it. */
  function Strip(s: string): (r: string)
    ensures exists i, j :: 0 <= i <= j <= |s| && r == s[i..j] && AllSpace(s[..i]) && AllSpace(s[j..])
    ensures |r| > 0 ==> !IsSpace(r[0]) && !IsSpace(r[|r| - 1])
  {
    var t := TrimStart(s);
    var r := TrimEnd(t);
    var i := |s| - |t|;
    assert r == s[i..i + |r|];
    assert s[i + |r|..] == t[|r|..];
    r
  }

  lemma {:induction false} TrimStartPadded(pad: string, s: string)
    requires AllSpace(pad)
    ensures TrimStart(pad + s) == TrimStart(s)
    decreases |pad|
  {
    if |pad| > 0 {
      assert (pad + s)[1..] == pad[1..] + s;
      TrimStartPadded(pad[1..], s);
    } else {
      assert pad + s == s;
    }
  }

  lemma {:induction false} TrimEndPadded(s: string, pad: string)
    requires AllSpace(pad)
    ensures TrimEnd(s + pad) == TrimEnd(s)
    decreases |pad|
  {
    if |pad| > 0 {
      assert (s + pad)[..|s + pad| - 1] == s + pad[..|pad| - 1];
      TrimEndPadded(s, pad[..|pad| - 1]);
    } else {
      assert s + pad == s;
    }
  }

  /** Trailing whitespace does not stop `TrimStart`: it passes through unless
      the whole string is whitespace. */
  lemma {:induction false} TrimStartSuffix(s: string, pad: string)
    requires AllSpace(pad)
    ensures TrimStart(s + pad) == TrimStart(s) + pad || (TrimStart(s) == [] && TrimStart(s + pad) == [])
    decreases |s|
  {
    if |s| > 0 {
      assert (s + pad)[0] == s[0];
      assert (s + pad)[1..] == s[1..] + pad;
      if IsSpace(s[0]) {
        TrimStartSuffix(s[1..], pad);
      }
    } else {
      assert s + pad == pad;
      TrimStartPadded(pad, []);
      assert pad + [] == pad;
    }
  }

  /** Whitespace added around a string does not change what `strip()` returns. */
  lemma StripPadded(left: string, s: string, right: string)
    requires AllSpace(left) && AllSpace(right)
    ensures Strip(left + s + right) == Strip(s)
  {
    assert left + s + right == left + (s + right);
    TrimStartPadded(left, s + right);
    TrimStartSuffix(s, right);
    if TrimStart(s + right) == TrimStart(s) + right {
      TrimEndPadded(TrimStart(s), right);
    }
  }

  /** A string with no whitespace at either end is left unchanged by `strip()`. */
  lemma StripUnpadded(s: string)
    requires |s| > 0 && !IsSpace(s[0]) && !IsSpace(s[|s| - 1])
    ensures Strip(s) == s
  {
  }

  // ---------------------------------------------------------------------
  // str.split(sep) and sep.join(parts)
  // ---------------------------------------------------------------------

  /** `sep.join(parts)`. */
  function Join(parts: seq<string>, sep: char): string
  {
    if |parts| == 0 then ""
    else if |parts| == 1 then parts[0]
    else parts[0] + [sep] + Join(parts[1..], sep)
  }

  /** `s.split(sep)` for a one-character separator: one piece per separator
      plus one (empty pieces included), none holding the separator. */
  function Split(s: string, sep: char): (r: seq<string>)
    ensures |r| == Count(s, sep) + 1
    decreases |s|
  {
    if |s| == 0 then [""]
    else
      var rest := Split(s[1..], sep);
      if s[0] == sep then
        [""] + rest
      else
        [[s[0]] + rest[0]] + rest[1..]
  }

  /** No piece of a split holds the separator. */
  lemma {:induction false} SplitPiecesSeparatorFree(s: string, sep: char)
    ensures forall k :: 0 <= k < |Split(s, sep)| ==> sep !in Split(s, sep)[k]
    decreases |s|
  {
    if |s| > 0 {
      SplitPiecesSeparatorFree(s[1..], sep);
      var rest := Split(s[1..], sep);
      if s[0] != sep {
        assert forall x :: x in [s[0]] + rest[0] ==> x == s[0] || x in rest[0];
      }
    }
  }

  lemma JoinCons(p: string, rest: seq<string>, sep: char)
    requires |rest| >= 1
    ensures Join([p] + rest, sep) == p + [sep] + Join(rest, sep)
  {
    assert ([p] + rest)[1..] == rest;
  }

  /** Joining the pieces of a split with the separator gives the string back. */
  lemma {:induction false} JoinSplit(s: string, sep: char)
    ensures Join(Split(s, sep), sep) == s
    decreases |s|
  {
    if |s| > 0 {
      JoinSplit(s[1..], sep);
      assert s == [s[0]] + s[1..];
      if s[0] == sep {
        JoinCons("", Split(s[1..], sep), sep);
      } else {
        JoinSplitStep(s[0], Split(s[1..], sep), sep);
      }
    }
  }

  /** One step of `JoinSplit`: a non-separator character glued to the first piece. */
  lemma JoinSplitStep(c: char, rest: seq<string>, sep: char)
    requires |rest| >= 1
    ensures Join([[c] + rest[0]] + rest[1..], sep) == [c] + Join(rest, sep)
  {
    if |rest| > 1 {
      assert rest == [rest[0]] + rest[1..];
      JoinCons([c] + rest[0], rest[1..], sep);
      JoinCons(rest[0], rest[1..], sep);
    }
  }

  /** Splitting a join of separator-free parts gives the parts back. */
  lemma {:induction false} SplitJoin(parts: seq<string>, sep: char)
    requires |parts| >= 1
    requires forall k :: 0 <= k < |parts| ==> sep !in parts[k]
    ensures Split(Join(parts, sep), sep) == parts
    decreases |parts|, |parts[0]|
  {
    var p := parts[0];
    if |p| > 0 {
      var tail := [p[1..]] + parts[1..];
      assert sep !in p[1..] by {
        assert forall x :: x in p[1..] ==> x in p;
      }
      assert forall k :: 1 <= k < |tail| ==> tail[k] == parts[k];
      SplitJoin(tail, sep);
      SplitJoinHead(parts, sep);
    } else if |parts| > 1 {
      SplitJoin(parts[1..], sep);
      SplitJoinEmptyHead(parts, sep);
    } else {
      assert parts == [""];
    }
  }

  /** A separator at the end of a string opens one more, empty, piece. */
  lemma {:induction false} SplitTrailingSeparator(t: string, sep: char)
    ensures Split(t + [sep], sep) == Split(t, sep) + [""]
    decreases |t|
  {
    if |t| == 0 {
      SplitCons(sep, "", sep);
      assert t + [sep] == [sep] + "";
    } else {
      SplitTrailingSeparator(t[1..], sep);
      assert t + [sep] == [t[0]] + (t[1..] + [sep]);
      SplitCons(t[0], t[1..] + [sep], sep);
      assert t == [t[0]] + t[1..];
      SplitCons(t[0], t[1..], sep);
    }
  }

  /** `Split` on a string with a known first character. */
  lemma SplitCons(c: char, t: string, sep: char)
    ensures Split([c] + t, sep) ==
      if c == sep then [""] + Split(t, sep)
      else [[c] + Split(t, sep)[0]] + Split(t, sep)[1..]
  {
    assert ([c] + t)[1..] == t;
  }

  /** The step of `SplitJoin` that peels the first character of a non-empty first part. */
  lemma SplitJoinHead(parts: seq<string>, sep: char)
    requires |parts| >= 1 && |parts[0]| > 0 && sep !in parts[0]
    requires Split(Join([parts[0][1..]] + parts[1..], sep), sep) == [parts[0][1..]] + parts[1..]
    ensures Split(Join(parts, sep), sep) == parts
  {
    var p := parts[0];
    var tail := [p[1..]] + parts[1..];
    var j := Join(tail, sep);
    assert p == [p[0]] + p[1..];
    assert Join(parts, sep) == [p[0]] + j by {
      if |parts| > 1 {
        assert parts == [p] + parts[1..];
        JoinCons(p, parts[1..], sep);
        JoinCons(p[1..], parts[1..], sep);
      }
    }
    SplitCons(p[0], j, sep);
    assert [[p[0]] + tail[0]] + tail[1..] == parts;
  }

  /** The step of `SplitJoin` for an empty first part. */
  lemma SplitJoinEmptyHead(parts: seq<string>, sep: char)
    requires |parts| > 1 && parts[0] == []
    requires Split(Join(parts[1..], sep), sep) == parts[1..]
    ensures Split(Join(parts, sep), sep) == parts
  {
    assert parts == [[]] + parts[1..];
    JoinCons([], parts[1..], sep);
    SplitCons(sep, Join(parts[1..], sep), sep);
  }

  // ---------------------------------------------------------------------
  // Deleting and replacing characters
  // ---------------------------------------------------------------------

  /** The characters of `s` that satisfy `keep`, in their original order. */
  function Filter(s: string, keep: char -> bool): (r: string)
    ensures |r| <= |s|
    ensures forall k :: 0 <= k < |r| ==> keep(r[k])
  {
    if |s| == 0 then ""
    else (if keep(s[0]) then [s[0]] else "") + Filter(s[1..], keep)
  }

  /** Filtering keeps every occurrence of a kept character and none of the others. */
  lemma {:induction false} FilterCount(s: string, keep: char -> bool, c: char)
    ensures Count(Filter(s, keep), c) == if keep(c) then Count(s, c) else 0
    decreases |s|
  {
    if |s| > 0 {
      FilterCount(s[1..], keep, c);
      var head := if keep(s[0]) then [s[0]] else "";
      CountConcat(head, Filter(s[1..], keep), c);
    }
  }

  lemma {:induction false} FilterConcat(a: string, b: string, keep: char -> bool)
    ensures Filter(a + b, keep) == Filter(a, keep) + Filter(b, keep)
    decreases |a|
  {
    if |a| > 0 {
      assert (a + b)[0] == a[0];
      assert (a + b)[1..] == a[1..] + b;
      FilterConcat(a[1..], b, keep);
      var head := if keep(a[0]) then [a[0]] else "";
      assert Filter(a + b, keep) == head + Filter(a[1..] + b, keep);
    } else {
      assert a + b == b;
    }
  }

  /** Filtering keeps a string whose characters all pass. */
  lemma {:induction false} FilterKeepsAll(s: string, keep: char -> bool)
    requires forall k :: 0 <= k < |s| ==> keep(s[k])
    ensures Filter(s, keep) == s
    decreases |s|
  {
    if |s| > 0 {
      FilterKeepsAll(s[1..], keep);
    }
  }

  /** Filtering by a class, then by a narrower class, is filtering by the narrower one. */
  lemma {:induction false} FilterNarrower(s: string, wide: char -> bool, narrow: char -> bool)
    requires forall c :: narrow(c) ==> wide(c)
    ensures Filter(Filter(s, wide), narrow) == Filter(s, narrow)
    decreases |s|
  {
    if |s| > 0 {
      FilterNarrower(s[1..], wide, narrow);
      var head := if wide(s[0]) then [s[0]] else "";
      FilterConcat(head, Filter(s[1..], wide), narrow);
    }
  }

  /** `s.replace(from, to)` for one-character `from` and `to`: every `from`
      becomes `to`, every other character stays where it was. */
  function ReplaceChar(s: string, from: char, to: char): (r: string)
    ensures |r| == |s|
    ensures forall k :: 0 <= k < |s| ==> r[k] == (if s[k] == from then to else s[k])
  {
    if |s| == 0 then ""
    else [if s[0] == from then to else s[0]] + ReplaceChar(s[1..], from, to)
  }

  lemma ReplaceCharConcat(a: string, b: string, from: char, to: char)
    ensures ReplaceChar(a + b, from, to) == ReplaceChar(a, from, to) + ReplaceChar(b, from, to)
  {
  }

  /** How `ReplaceChar` moves character counts: the `from` ones are added to
      the `to` ones, none are left, and every other count is unchanged. */
  lemma {:induction false} ReplaceCharCount(s: string, from: char, to: char, c: char)
    requires from != to
    ensures Count(ReplaceChar(s, from, to), c) ==
      if c == to then Count(s, to) + Count(s, from)
      else if c == from then 0
      else Count(s, c)
    decreases |s|
  {
    if |s| > 0 {
      ReplaceCharCount(s[1..], from, to, c);
      var r := ReplaceChar(s, from, to);
      assert r[1..] == ReplaceChar(s[1..], from, to);
    }
  }

  /** Replacing one character outside a class by another outside it does not
      change what the class filter keeps. */
  lemma {:induction false} FilterIgnoresReplace(s: string, from: char, to: char, keep: char -> bool)
    requires !keep(from) && !keep(to)
    ensures Filter(ReplaceChar(s, from, to), keep) == Filter(s, keep)
    decreases |s|
  {
    if |s| > 0 {
      FilterIgnoresReplace(s[1..], from, to, keep);
      var r := ReplaceChar(s, from, to);
      assert r[1..] == ReplaceChar(s[1..], from, to);
    }
  }

  lemma ReplaceCharAbsent(s: string, from: char, to: char)
    requires from !in s
    ensures ReplaceChar(s, from, to) == s
  {
  }

  // ---------------------------------------------------------------------
  // int() and str() on integers
  // ---------------------------------------------------------------------

  function DigitValue(c: char): nat
    requires IsDigit(c)
  {
    (c as int) - ('0' as int)
  }

  /** The value of a string of decimal digits, most significant first. */
  function DecimalValue(ds: string): nat
    requires forall k :: 0 <= k < |ds| ==> IsDigit(ds[k])
  {
    if |ds| == 0 then 0
    else DecimalValue(ds[..|ds| - 1]) * 10 + DigitValue(ds[|ds| - 1])
  }

  /** The digit part `int()` accepts in base 10: digits, with single
      underscores allowed between two digits. */
  predicate IsDigitBody(b: string) {
    && |b| > 0
    && IsDigit(b[0])
    && forall k {:trigger b[k]} :: 0 <= k < |b| ==> IsDigit(b[k]) || (b[k] == '_' && k + 1 < |b| && IsDigit(b[k + 1]))
  }

  /** `int(s)` on a stripped string: an optional sign and a digit body, or a
      `ValueError` (`None`). */
  function ParseInt(s: string): (r: Option<int>)
    ensures r.Some? ==> |s| > 0 && (IsDigit(s[0]) || ((s[0] == '+' || s[0] == '-') && |s| > 1 && IsDigit(s[1])))
    ensures r.Some? && s[0] == '-' ==> r.value <= 0
    ensures r.Some? && s[0] != '-' ==> r.value >= 0
  {
    if |s| > 0 && (s[0] == '+' || s[0] == '-') then
      var body := s[1..];
      if IsDigitBody(body) then
        var magnitude: int := DecimalValue(Filter(body, IsDigit));
        Some(if s[0] == '-' then -magnitude else magnitude)
      else None
    else if IsDigitBody(s) then
      Some(DecimalValue(Filter(s, IsDigit)))
    else None
  }

  /** A plain digit string parses to its decimal value (leading zeros included). */
  lemma ParseIntDigits(d: string)
    requires |d| > 0 && forall k :: 0 <= k < |d| ==> IsDigit(d[k])
    ensures ParseInt(d) == Some(DecimalValue(d))
  {
    FilterKeepsAll(d, IsDigit);
  }

  /** A `+` sign leaves the value unchanged and a `-` sign negates it. */
  lemma ParseIntSign(d: string)
    requires IsDigitBody(d)
    ensures ParseInt(d).Some?
    ensures ParseInt("+" + d) == ParseInt(d)
    ensures ParseInt("-" + d) == Some(-ParseInt(d).value)
  {
    assert ("+" + d)[1..] == d;
    assert ("-" + d)[1..] == d;
  }

  /** A single `_` between two digit groups does not change the value. */
  lemma ParseIntUnderscore(a: string, b: string)
    requires |a| > 0 && forall k :: 0 <= k < |a| ==> IsDigit(a[k])
    requires |b| > 0 && forall k :: 0 <= k < |b| ==> IsDigit(b[k])
    ensures ParseInt(a + "_" + b) == ParseInt(a + b)
  {
    var s := a + "_" + b;
    assert IsDigitBody(s) by {
      forall k | 0 <= k < |s|
        ensures IsDigit(s[k]) || (s[k] == '_' && k + 1 < |s| && IsDigit(s[k + 1]))
      {
        if k < |a| {
          assert s[k] == a[k];
        } else if k == |a| {
          assert s[k + 1] == b[0];
        } else {
          assert s[k] == b[k - |a| - 1];
        }
      }
    }
    assert s[0] == a[0];
    FilterConcat(a + "_", b, IsDigit);
    FilterConcat(a, "_", IsDigit);
    assert Filter("_", IsDigit) == "";
    FilterKeepsAll(a, IsDigit);
    FilterKeepsAll(b, IsDigit);
    assert Filter(s, IsDigit) == a + b;
    assert forall k :: 0 <= k < |a + b| ==> IsDigit((a + b)[k]) by {
      forall k | 0 <= k < |a + b| ensures IsDigit((a + b)[k]) {
        if k < |a| { assert (a + b)[k] == a[k]; } else { assert (a + b)[k] == b[k - |a|]; }
      }
    }
    ParseIntDigits(a + b);
  }

  /** One character that is neither a digit nor `_` spoils a digit body. */
  lemma NotDigitBodyAt(b: string, j: int)
    requires 0 <= j < |b| && !IsDigit(b[j]) && b[j] != '_'
    ensures !IsDigitBody(b)
  {
  }

  /** `int()` rejects the empty string and any character other than a digit,
      `_`, or a sign in first position. */
  lemma ParseIntRejects(s: string, k: int)
    requires 0 <= k < |s|
    requires !IsDigit(s[k]) && s[k] != '_'
    requires !(k == 0 && (s[k] == '+' || s[k] == '-'))
    ensures ParseInt(s).None?
    ensures ParseInt("").None?
  {
    if s[0] == '+' || s[0] == '-' {
      assert s[1..][k - 1] == s[k];
      NotDigitBodyAt(s[1..], k - 1);
    } else {
      NotDigitBodyAt(s, k);
    }
  }

  function DigitChar(d: nat): (c: char)
    requires d < 10
    ensures IsDigit(c) && DigitValue(c) == d
  {
    ('0' as int + d) as char
  }

  /** `str(n)` for `n >= 0`: a non-empty digit string whose value is `n`. */
  function FormatNat(n: nat): (r: string)
    ensures |r| > 0
    ensures forall k :: 0 <= k < |r| ==> IsDigit(r[k])
    ensures DecimalValue(r) == n
  {
    if n < 10 then [DigitChar(n)]
    else
      var r := FormatNat(n / 10) + [DigitChar(n % 10)];
      assert r[..|r| - 1] == FormatNat(n / 10);
      r
  }

  /** `str(n)`. */
  function FormatInt(n: int): string
  {
    if n < 0 then "-" + FormatNat(-n) else FormatNat(n)
  }

  /** `int(str(n)) == n`. */
  lemma ParseFormat(n: int)
    ensures ParseInt(FormatInt(n)) == Some(n)
  {
    var digits := FormatNat(if n < 0 then -n else n);
    FilterKeepsAll(digits, IsDigit);
    if n < 0 {
      assert FormatInt(n)[1..] == digits;
    }
  }
}
