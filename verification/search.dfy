/** Searching a sequence from its end. */
module Search {

  /** The position of the last element satisfying `p`, or -1 when none does. */
  function LastWhere<T>(xs: seq<T>, p: T -> bool): (k: int)
    ensures -1 <= k < |xs|
    ensures k >= 0 ==> p(xs[k])
    ensures forall j :: k < j < |xs| ==> !p(xs[j])
  {
    if xs == [] then -1
    else if p(xs[|xs| - 1]) then |xs| - 1
    else
      var front := xs[..|xs| - 1];
      assert forall j :: 0 <= j < |front| ==> front[j] == xs[j];
      LastWhere(front, p)
  }

  /** Putting an element in front shifts a match found in the rest by one;
      the new element is found only when the rest has no match. */
  lemma {:induction false} LastWhereCons<T>(x: T, xs: seq<T>, p: T -> bool)
    ensures LastWhere([x] + xs, p) ==
              if LastWhere(xs, p) >= 0 then LastWhere(xs, p) + 1
              else if p(x) then 0
              else -1
    decreases |xs|
  {
    var all := [x] + xs;
    if xs == [] {
      assert all == [x];
      assert all[..0] == [];
    } else {
      assert all[|all| - 1] == xs[|xs| - 1];
      assert all[..|all| - 1] == [x] + xs[..|xs| - 1];
      if !p(xs[|xs| - 1]) {
        LastWhereCons(x, xs[..|xs| - 1], p);
      }
    }
  }
}
