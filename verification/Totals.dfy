/** Sums over sequences, for counting. */
module Totals {
  ghost function Total<T>(xs: seq<T>, w: T -> nat): nat {
    if xs == [] then 0 else Total(xs[..|xs| - 1], w) + w(xs[|xs| - 1])
  }

  lemma {:induction false} TotalAppend<T>(xs: seq<T>, x: T, w: T -> nat)
    ensures Total(xs + [x], w) == Total(xs, w) + w(x)
  {
    assert (xs + [x])[..|xs|] == xs;
  }

  lemma {:induction false} TotalUpdate<T>(xs: seq<T>, i: nat, x: T, w: T -> nat)
    requires i < |xs|
    ensures Total(xs[i := x], w) + w(xs[i]) == Total(xs, w) + w(x)
  {
    var init, n := xs[..|xs| - 1], |xs| - 1;
    if i == n {
      assert xs[i := x][..n] == init;
    } else {
      TotalUpdate(init, i, x, w);
      assert xs[i := x][..n] == init[i := x];
    }
  }

  lemma {:induction false} TotalAtLeast<T>(xs: seq<T>, i: nat, w: T -> nat)
    requires i < |xs|
    ensures w(xs[i]) <= Total(xs, w)
  {
    if i < |xs| - 1 {
      TotalAtLeast(xs[..|xs| - 1], i, w);
    }
  }

  lemma {:induction false} TotalWitness<T>(xs: seq<T>, w: T -> nat) returns (i: nat)
    requires Total(xs, w) > 0
    ensures i < |xs| && w(xs[i]) > 0
  {
    if w(xs[|xs| - 1]) > 0 {
      i := |xs| - 1;
    } else {
      i := TotalWitness(xs[..|xs| - 1], w);
    }
  }

  lemma {:induction false} TotalPair<T>(xs: seq<T>, i: nat, j: nat, w: T -> nat)
    requires i < |xs| && j < |xs| && i != j
    ensures w(xs[i]) + w(xs[j]) <= Total(xs, w)
  {
    var n := |xs| - 1;
    if i == n {
      TotalAtLeast(xs[..n], j, w);
    } else if j == n {
      TotalAtLeast(xs[..n], i, w);
    } else {
      TotalPair(xs[..n], i, j, w);
    }
  }
}
