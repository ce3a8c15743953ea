/** Adding up a weight over a sequence: the measures of the run lemmas. */
module Sums {
  function Sum<T>(xs: seq<T>, weight: T -> nat): nat {
    if xs == [] then 0 else Sum(xs[..|xs| - 1], weight) + weight(xs[|xs| - 1])
  }

  lemma {:induction false} SumUpdate<T>(xs: seq<T>, weight: T -> nat, i: nat, x: T)
    requires i < |xs|
    ensures Sum(xs[i := x], weight) == Sum(xs, weight) - weight(xs[i]) + weight(x)
    decreases |xs|
  {
    var last := |xs| - 1;
    if i == last {
      assert xs[i := x][..last] == xs[..last];
    } else {
      assert xs[i := x][..last] == xs[..last][i := x];
      SumUpdate(xs[..last], weight, i, x);
    }
  }

  lemma SumAppend<T>(xs: seq<T>, weight: T -> nat, x: T)
    ensures Sum(xs + [x], weight) == Sum(xs, weight) + weight(x)
  {
    assert (xs + [x])[..|xs|] == xs;
  }

  /** With weights of at most one the sum counts the elements that have one. */
  lemma {:induction false} SumOfUnits<T>(xs: seq<T>, weight: T -> nat)
    requires forall i | 0 <= i < |xs| :: weight(xs[i]) <= 1
    ensures Sum(xs, weight) <= |xs|
    ensures Sum(xs, weight) == |xs| <==> forall i | 0 <= i < |xs| :: weight(xs[i]) == 1
    decreases |xs|
  {
    if xs != [] {
      var front := xs[..|xs| - 1];
      SumOfUnits(front, weight);
      assert forall i | 0 <= i < |front| :: front[i] == xs[i];
    }
  }
}
