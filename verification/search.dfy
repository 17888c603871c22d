/** Leftmost-match search, the scanning order of Python's `re.search`. */
module Search {
  import opened Wrappers

  /** The leftmost candidate position in `from..n` at which `at` holds.
      `re.search` tries start positions 0, 1, ..., |s| in this order and
      reports the first one at which its pattern matches. */
  function FirstMatch(n: nat, at: nat -> bool, from: nat): (r: Option<nat>)
    decreases n + 1 - from
    ensures r.Some? ==> from <= r.value <= n && at(r.value)
    ensures r.Some? ==> forall j :: from <= j < r.value ==> !at(j)
    ensures r.None? ==> forall j :: from <= j <= n ==> !at(j)
  {
    if from > n then None
    else if at(from) then Some(from)
    else FirstMatch(n, at, from + 1)
  }

  /** A position that matches, with no match before it, is what the search finds. */
  lemma FirstMatchFinds(n: nat, at: nat -> bool, i: nat)
    requires i <= n && at(i)
    requires forall j :: 0 <= j < i ==> !at(j)
    ensures FirstMatch(n, at, 0) == Some(i)
  {
  }
}
