/** The administrator list of handlers.py: `ADMIN_IDS` parsed once from the
    `ADMIN_IDS` environment variable (lines 17-30) and `is_admin` (34-36).
    The environment value is a parameter: `None` when the variable is unset. */
module Admins {
  import opened Wrappers
  import opened PyStr

  /** `int(aid.strip())` for one comma-separated piece; `None` is its `ValueError`. */
  function ParseSegment(segment: string): Option<int>
  {
    ParseInt(Strip(segment))
  }

  /** The list comprehension `[int(aid.strip()) for aid in pieces]`: all
      values in order when every piece parses, and `None` (the comprehension
      raised) as soon as one piece does not. */
  function ParseAll(segments: seq<string>): (r: Option<seq<int>>)
    ensures r.Some? ==> |r.value| == |segments|
    ensures r.Some? ==> forall k :: 0 <= k < |segments| ==> ParseSegment(segments[k]) == Some(r.value[k])
    ensures r.None? ==> exists k :: 0 <= k < |segments| && ParseSegment(segments[k]).None?
  {
    if |segments| == 0 then Some([])
    else
      match ParseSegment(segments[0])
      case None => None
      case Some(v) =>
        match ParseAll(segments[1..])
        case None => None
        case Some(vs) => Some([v] + vs)
  }

  /** `ADMIN_IDS` after module load: empty when the variable is unset or
      empty, the parsed pieces when all of them parse, empty otherwise. */
  function AdminIds(env: Option<string>): (ids: seq<int>)
    ensures env.None? || env == Some("") ==> ids == []
    ensures env.Some? && env.value != "" && ids != [] ==> |ids| == Count(env.value, ',') + 1
  {
    if env.None? || env.value == "" then []
    else
      match ParseAll(Split(env.value, ','))
      case Some(ids) => ids
      case None => []
  }

  /** `is_admin(user_id)`: membership in the list; nobody is an admin of an
      empty list. */
  function IsAdmin(adminIds: seq<int>, userId: int): (r: bool)
    ensures r <==> exists k :: 0 <= k < |adminIds| && adminIds[k] == userId
    ensures adminIds == [] ==> !r
  {
    userId in adminIds
  }

  /** A successful parse: one ID per comma-separated piece, in order, so
      one more ID than there are commas. */
  lemma AdminIdsOnePerSegment(s: string)
    requires s != ""
    requires forall k :: 0 <= k < |Split(s, ',')| ==> ParseSegment(Split(s, ',')[k]).Some?
    ensures |AdminIds(Some(s))| == Count(s, ',') + 1
    ensures forall k :: 0 <= k < |Split(s, ',')| ==> AdminIds(Some(s))[k] == ParseSegment(Split(s, ',')[k]).value
  {
  }

  /** All or nothing: one piece that is not an integer empties the list. */
  lemma AdminIdsAllOrNothing(s: string, k: int)
    requires 0 <= k < |Split(s, ',')|
    requires ParseSegment(Split(s, ',')[k]).None?
    ensures AdminIds(Some(s)) == []
  {
  }

  /** A blank piece (as `",,"` or a trailing comma produce) is not an integer. */
  lemma BlankSegmentRejected(segment: string)
    requires AllSpace(segment)
    ensures ParseSegment(segment).None?
  {
    StripPadded(segment, [], []);
    assert segment + [] + [] == segment;
  }

  /** A trailing comma leaves an empty last piece, so the list is empty. */
  lemma TrailingCommaRejected(s: string)
    requires |s| > 0 && s[|s| - 1] == ','
    ensures AdminIds(Some(s)) == []
  {
    var body := s[..|s| - 1];
    assert s == body + [','];
    SplitTrailingSeparator(body, ',');
    var pieces := Split(s, ',');
    BlankSegmentRejected(pieces[|pieces| - 1]);
  }

  /** A join holds at least one separator between each two parts. */
  lemma {:induction false} JoinLength(parts: seq<string>, sep: char)
    ensures |Join(parts, sep)| >= |parts| - 1
    decreases |parts|
  {
    if |parts| > 1 {
      JoinLength(parts[1..], sep);
    }
  }

  /** Pieces that parse alike give the same comprehension result. */
  lemma {:induction false} ParseAllPointwise(a: seq<string>, b: seq<string>)
    requires |a| == |b|
    requires forall k :: 0 <= k < |a| ==> ParseSegment(a[k]) == ParseSegment(b[k])
    ensures ParseAll(a) == ParseAll(b)
    decreases |a|
  {
    if |a| > 0 {
      ParseAllPointwise(a[1..], b[1..]);
    }
  }

  /** `ADMIN_IDS` of a comma-joined list of comma-free pieces. */
  lemma AdminIdsOfJoin(parts: seq<string>)
    requires |parts| >= 1
    requires forall k :: 0 <= k < |parts| ==> ',' !in parts[k]
    ensures AdminIds(Some(Join(parts, ','))) == if ParseAll(parts).Some? then ParseAll(parts).value else []
  {
    if Join(parts, ',') == "" {
      JoinLength(parts, ',');
      assert parts == [parts[0]];
      BlankSegmentRejected(parts[0]);
    } else {
      SplitJoin(parts, ',');
    }
  }

  /** Each piece with its surrounding whitespace. */
  function Pad(segments: seq<string>, lefts: seq<string>, rights: seq<string>): (r: seq<string>)
    requires |lefts| == |segments| && |rights| == |segments|
    ensures |r| == |segments|
    ensures forall k :: 0 <= k < |r| ==> r[k] == lefts[k] + segments[k] + rights[k]
  {
    seq(|segments|, k requires 0 <= k < |segments| => lefts[k] + segments[k] + rights[k])
  }

  /** Whitespace around any piece does not change `ADMIN_IDS`. */
  lemma AdminIdsIgnorePadding(segments: seq<string>, lefts: seq<string>, rights: seq<string>)
    requires |segments| >= 1 && |lefts| == |segments| && |rights| == |segments|
    requires forall k :: 0 <= k < |segments| ==> ',' !in segments[k]
    requires forall k :: 0 <= k < |segments| ==> AllSpace(lefts[k]) && AllSpace(rights[k])
    ensures AdminIds(Some(Join(Pad(segments, lefts, rights), ','))) == AdminIds(Some(Join(segments, ',')))
  {
    var padded := Pad(segments, lefts, rights);
    forall k | 0 <= k < |padded| ensures ',' !in padded[k] && ParseSegment(padded[k]) == ParseSegment(segments[k]) {
      assert ',' !in lefts[k] && ',' !in rights[k] by {
        assert forall i :: 0 <= i < |lefts[k]| ==> IsSpace(lefts[k][i]);
        assert forall i :: 0 <= i < |rights[k]| ==> IsSpace(rights[k][i]);
      }
      StripPadded(lefts[k], segments[k], rights[k]);
    }
    ParseAllPointwise(padded, segments);
    AdminIdsOfJoin(padded);
    AdminIdsOfJoin(segments);
  }

  /** The environment value a list of IDs is written as: `",".join(map(str, ids))`. */
  function FormatIds(ids: seq<int>): (r: seq<string>)
    ensures |r| == |ids|
    ensures forall k :: 0 <= k < |ids| ==> r[k] == FormatInt(ids[k])
  {
    seq(|ids|, k requires 0 <= k < |ids| => FormatInt(ids[k]))
  }

  /** A formatted integer is a piece of its own that parses back to it. */
  lemma FormattedIdParses(n: int)
    ensures ',' !in FormatInt(n)
    ensures ParseSegment(FormatInt(n)) == Some(n)
  {
    var f := FormatInt(n);
    var digits := FormatNat(if n < 0 then -n else n);
    assert forall k :: 0 <= k < |f| ==> IsDigit(f[k]) || f[k] == '-' by {
      if n < 0 {
        assert forall k :: 1 <= k < |f| ==> f[k] == digits[k - 1];
      }
    }
    StripUnpadded(f);
    ParseFormat(n);
  }

  /** Round trip: writing a non-empty list of IDs into the variable gives
      that list back, and then `is_admin` admits exactly its members. */
  lemma AdminIdsRoundTrip(ids: seq<int>, userId: int)
    requires |ids| >= 1
    ensures AdminIds(Some(Join(FormatIds(ids), ','))) == ids
    ensures IsAdmin(AdminIds(Some(Join(FormatIds(ids), ','))), userId) <==> userId in ids
  {
    var parts := FormatIds(ids);
    forall k | 0 <= k < |parts| ensures ',' !in parts[k] && ParseSegment(parts[k]) == Some(ids[k]) {
      FormattedIdParses(ids[k]);
    }
    AdminIdsOfJoin(parts);
    var r := ParseAll(parts);
    assert r.Some?;
    assert r.value == ids;
  }

  /** Every ID a successful parse produced is admitted by `is_admin`. */
  lemma ParsedIdAdmitted(s: string, k: int)
    requires s != ""
    requires forall i :: 0 <= i < |Split(s, ',')| ==> ParseSegment(Split(s, ',')[i]).Some?
    requires 0 <= k < |Split(s, ',')|
    ensures IsAdmin(AdminIds(Some(s)), ParseSegment(Split(s, ',')[k]).value)
  {
    AdminIdsOnePerSegment(s);
  }
}
