/**
 * First-match search, the shape of every `for x in xs: if p(x): return ...`
 * loop in the converters: the index of the first element satisfying a
 * test, from a starting index on.
 */
module Search {
  import opened Wrappers

  function FirstIndexFrom<T>(xs: seq<T>, p: T -> bool, k: nat): (r: Option<nat>)
    requires k <= |xs|
    ensures r.Some? ==> k <= r.value < |xs| && p(xs[r.value])
    decreases |xs| - k
  {
    if k == |xs| then None
    else if p(xs[k]) then Some(k)
    else FirstIndexFrom(xs, p, k + 1)
  }

  /** The search finds the first satisfying index from `k` on, and nothing only when there is none. */
  lemma {:induction false} FirstIndexFromSpec<T>(xs: seq<T>, p: T -> bool, k: nat)
    requires k <= |xs|
    ensures var r := FirstIndexFrom(xs, p, k);
      && (r.None? <==> forall i :: k <= i < |xs| ==> !p(xs[i]))
      && (r.Some? ==> forall j :: k <= j < r.value ==> !p(xs[j]))
    decreases |xs| - k
  {
    if k < |xs| && !p(xs[k]) {
      FirstIndexFromSpec(xs, p, k + 1);
    }
  }
}
