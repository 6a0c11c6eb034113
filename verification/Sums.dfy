/** Sums of a natural-valued function over a sequence. */
module Sums {
  function SumOf<T>(xs: seq<T>, f: T -> nat): nat {
    if xs == [] then 0 else SumOf(xs[..|xs| - 1], f) + f(xs[|xs| - 1])
  }

  lemma {:induction false} SumUpdate<T>(xs: seq<T>, i: nat, x: T, f: T -> nat)
    requires i < |xs|
    ensures SumOf(xs[i := x], f) == SumOf(xs, f) + f(x) - f(xs[i])
  {
    var n := |xs| - 1;
    if i < n {
      SumUpdate(xs[..n], i, x, f);
      assert xs[i := x][..n] == xs[..n][i := x];
    } else {
      assert xs[i := x][..n] == xs[..n];
    }
  }

  /** Sums of functions that agree on the elements agree. */
  lemma {:induction false} SumCongruence<T, U>(xs: seq<T>, f: T -> nat, ys: seq<U>, g: U -> nat)
    requires |xs| == |ys| && forall i | 0 <= i < |xs| :: f(xs[i]) == g(ys[i])
    ensures SumOf(xs, f) == SumOf(ys, g)
  {
    if xs == [] {
    } else {
      SumCongruence(xs[..|xs| - 1], f, ys[..|ys| - 1], g);
    }
  }

  lemma {:induction false} SumBound<T>(xs: seq<T>, f: T -> nat, bound: nat)
    requires forall i | 0 <= i < |xs| :: f(xs[i]) <= bound
    ensures SumOf(xs, f) <= |xs| * bound
  {
    if xs == [] {
    } else {
      SumBound(xs[..|xs| - 1], f, bound);
      assert |xs| * bound == (|xs| - 1) * bound + bound;
    }
  }
}
