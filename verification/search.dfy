/**
 First-match search over an ordered sequence. The header uses it twice: the
 section scan stops at the first section straddling the viewport line, and the
 link-colour lookup takes the first section-to-path entry whose path matches.
 */
module Search {
  import opened Wrappers

  /** The index of the first element of `xs` satisfying `p`, or None when no element does. */
  function FirstIndex<T>(xs: seq<T>, p: T -> bool): (r: Option<nat>)
    ensures r.Some? ==> r.value < |xs| && p(xs[r.value])
    ensures r.Some? ==> forall j :: 0 <= j < r.value ==> !p(xs[j])
    ensures r.None? <==> forall j :: 0 <= j < |xs| ==> !p(xs[j])
  {
    if |xs| == 0 then None
    else if p(xs[0]) then Some(0)
    else
      match FirstIndex(xs[1..], p)
      case None => None
      case Some(k) => Some(k + 1)
  }

  /** First match wins: an index whose element matches, with no match before it, is the answer. */
  lemma FirstIndexIsFirstMatch<T>(xs: seq<T>, p: T -> bool, i: nat)
    requires i < |xs| && p(xs[i])
    requires forall j :: 0 <= j < i ==> !p(xs[j])
    ensures FirstIndex(xs, p) == Some(i)
  {
  }

  /** The search only looks at the elements of `xs`: two tests that agree on them give the same answer. */
  lemma FirstIndexDependsOnlyOnElements<T>(xs: seq<T>, p: T -> bool, q: T -> bool)
    requires forall j :: 0 <= j < |xs| ==> p(xs[j]) == q(xs[j])
    ensures FirstIndex(xs, p) == FirstIndex(xs, q)
  {
  }
}
