/** Sequences as lists of different things. */
module Sequences {

  ghost predicate AllDifferent<T>(xs: seq<T>) {
    forall i, j | 0 <= i < j < |xs| :: xs[i] != xs[j]
  }

  function Members<T>(xs: seq<T>): set<T> {
    set x | x in xs
  }

  /** Such a list is as long as the set of what it lists. */
  lemma {:induction false} DifferentCount<T>(xs: seq<T>)
    requires AllDifferent(xs)
    ensures |Members(xs)| == |xs|
  {
    if |xs| > 0 {
      var n := |xs| - 1;
      var front := xs[..n];
      DifferentCount(front);
      assert xs == front + [xs[n]];
      assert Members(xs) == Members(front) + {xs[n]};
    }
  }
}
