/**
 * First-match search over an ordered sequence: the shape shared by the colour
 * classifier, the exposure search, the board inspection and the settle detector,
 * each of which stops at the first element that passes its test.
 */
module Scan {
  import opened Wrappers

  /** The index of the first element of `s` satisfying `p`, or None when no element does. */
  function FirstWhere<T>(s: seq<T>, p: T -> bool): (r: Option<nat>)
    ensures r.Some? ==> r.value < |s| && p(s[r.value])
    ensures r.Some? ==> forall j :: 0 <= j < r.value ==> !p(s[j])
    ensures r.None? <==> forall j :: 0 <= j < |s| ==> !p(s[j])
  {
    if |s| == 0 then None
    else if p(s[0]) then Some(0)
    else match FirstWhere(s[1..], p)
      case None => None
      case Some(k) => Some(k + 1)
  }

  /** The first index is determined by the two properties it has: it passes and nothing before it does. */
  lemma FirstWhereUnique<T>(s: seq<T>, p: T -> bool, i: nat)
    requires i < |s| && p(s[i])
    requires forall j :: 0 <= j < i ==> !p(s[j])
    ensures FirstWhere(s, p) == Some(i)
  {
  }
}
