/** Totals over a list, and how one update moves them. */
module Counting {

  function Weigh<T>(xs: seq<T>, f: T -> nat): nat {
    if xs == [] then 0 else Weigh(xs[..|xs| - 1], f) + f(xs[|xs| - 1])
  }

  lemma {:induction false} WeighAppend<T>(xs: seq<T>, x: T, f: T -> nat)
    ensures Weigh(xs + [x], f) == Weigh(xs, f) + f(x)
  {
    assert (xs + [x])[..|xs|] == xs;
  }

  lemma {:induction false} WeighUpdate<T>(xs: seq<T>, i: nat, x: T, f: T -> nat)
    requires i < |xs|
    ensures Weigh(xs[i := x], f) == Weigh(xs, f) - f(xs[i]) + f(x)
    ensures f(xs[i]) <= Weigh(xs, f)
  {
    var m := |xs| - 1;
    if i == m {
      assert xs[i := x][..m] == xs[..m];
    } else {
      WeighUpdate(xs[..m], i, x, f);
      assert xs[i := x][..m] == xs[..m][i := x];
    }
  }

  lemma {:induction false} WeighZero<T>(xs: seq<T>, f: T -> nat)
    requires forall i :: 0 <= i < |xs| ==> f(xs[i]) == 0
    ensures Weigh(xs, f) == 0
  {
    if xs != [] {
      WeighZero(xs[..|xs| - 1], f);
    }
  }

  lemma {:induction false} WeighPositive<T>(xs: seq<T>, f: T -> nat) returns (i: nat)
    requires Weigh(xs, f) > 0
    ensures i < |xs| && f(xs[i]) > 0
  {
    var m := |xs| - 1;
    if f(xs[m]) > 0 {
      i := m;
    } else {
      i := WeighPositive(xs[..m], f);
    }
  }
}
