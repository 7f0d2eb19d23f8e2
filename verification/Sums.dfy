/** Finite sums of reals, and the exchange of a double sum. */
module Sums {
  import opened Common

  /** The total; the recursion has a name of its own so that products with a total stay plain terms for the solver. */
  function Sum(s: seq<real>): real {
    Fold(s)
  }

  function Fold(s: seq<real>): real {
    if s == [] then 0.0 else Fold(s[..|s| - 1]) + s[|s| - 1]
  }

  function Abs(x: real): real {
    if x < 0.0 then -x else x
  }

  /** The L1 distance of two vectors. */
  function L1(a: seq<real>, b: seq<real>): real
    requires |a| == |b|
  {
    Sum(Gaps(a, b))
  }

  function Gaps(a: seq<real>, b: seq<real>): seq<real>
    requires |a| == |b|
  {
    seq(|a|, i requires 0 <= i < |a| => Abs(a[i] - b[i]))
  }

  function Pow(x: real, k: nat): real {
    if k == 0 then 1.0 else x * Pow(x, k - 1)
  }

  lemma SumAppend(s: seq<real>, x: real)
    ensures Sum(s + [x]) == Sum(s) + x
  {
    assert (s + [x])[..|s|] == s;
  }

  lemma {:induction false} SumPlus(a: seq<real>, b: seq<real>, c: seq<real>)
    requires |a| == |b| == |c|
    requires forall i :: 0 <= i < |a| ==> c[i] == a[i] + b[i]
    ensures Sum(c) == Sum(a) + Sum(b)
  {
    if a != [] {
      var m := |a| - 1;
      SumPlus(a[..m], b[..m], c[..m]);
    }
  }

  lemma {:induction false} SumScale(k: real, a: seq<real>, b: seq<real>)
    requires |a| == |b|
    requires forall i :: 0 <= i < |a| ==> b[i] == k * a[i]
    ensures Sum(b) == k * Sum(a)
  {
    if a != [] {
      var m := |a| - 1;
      SumScale(k, a[..m], b[..m]);
      assert k * (Sum(a[..m]) + a[m]) == k * Sum(a[..m]) + k * a[m];
    }
  }

  function Scaled(k: real, a: seq<real>): seq<real> {
    seq(|a|, i requires 0 <= i < |a| => k * a[i])
  }

  lemma SumScaled(k: real, a: seq<real>)
    ensures Sum(Scaled(k, a)) == k * Sum(a)
  {
    SumScale(k, a, Scaled(k, a));
  }

  lemma {:induction false} SumConst(a: seq<real>, c: real)
    requires forall i :: 0 <= i < |a| ==> a[i] == c
    ensures Sum(a) == |a| as real * c
  {
    if a != [] {
      var m := |a| - 1;
      SumConst(a[..m], c);
      assert (m as real + 1.0) * c == m as real * c + c;
    }
  }

  lemma {:induction false} SumLe(a: seq<real>, b: seq<real>)
    requires |a| == |b|
    requires forall i :: 0 <= i < |a| ==> a[i] <= b[i]
    ensures Sum(a) <= Sum(b)
  {
    if a != [] {
      var m := |a| - 1;
      SumLe(a[..m], b[..m]);
    }
  }

  lemma {:induction false} SumLess(a: seq<real>, b: seq<real>, k: nat)
    requires |a| == |b| && k < |a| && a[k] < b[k]
    requires forall i :: 0 <= i < |a| ==> a[i] <= b[i]
    ensures Sum(a) < Sum(b)
  {
    var m := |a| - 1;
    if k == m {
      SumLe(a[..m], b[..m]);
    } else {
      SumLess(a[..m], b[..m], k);
    }
  }

  lemma {:induction false} SumUpdate(a: seq<real>, k: nat, x: real)
    requires k < |a|
    ensures Sum(a[k := x]) == Sum(a) - a[k] + x
  {
    var m := |a| - 1;
    if k == m {
      assert a[k := x][..m] == a[..m];
    } else {
      SumUpdate(a[..m], k, x);
      assert a[k := x][..m] == a[..m][k := x];
    }
  }

  lemma {:induction false} PrefixSum(a: seq<real>, k: nat)
    requires k <= |a| && forall i :: 0 <= i < |a| ==> 0.0 <= a[i]
    ensures Sum(a[..k]) <= Sum(a)
  {
    if k == |a| {
      assert a[..k] == a;
    } else {
      var m := |a| - 1;
      PrefixSum(a[..m], k);
      assert a[..m][..k] == a[..k];
    }
  }

  lemma {:induction false} SumNonNegative(a: seq<real>)
    requires forall i :: 0 <= i < |a| ==> 0.0 <= a[i]
    ensures 0.0 <= Sum(a)
  {
    if a != [] {
      SumNonNegative(a[..|a| - 1]);
    }
  }

  lemma {:induction false} SumAbs(a: seq<real>, b: seq<real>)
    requires |a| == |b|
    requires forall i :: 0 <= i < |a| ==> Abs(a[i]) <= b[i]
    ensures Abs(Sum(a)) <= Sum(b)
  {
    if a != [] {
      var m := |a| - 1;
      SumAbs(a[..m], b[..m]);
    }
  }

  lemma L1Triangle(a: seq<real>, b: seq<real>, c: seq<real>)
    requires |a| == |b| == |c|
    ensures L1(a, c) <= L1(a, b) + L1(b, c)
  {
    var both := seq(|a|, i requires 0 <= i < |a| => Gaps(a, b)[i] + Gaps(b, c)[i]);
    SumPlus(Gaps(a, b), Gaps(b, c), both);
    SumLe(Gaps(a, c), both);
  }

  lemma L1Properties(a: seq<real>, b: seq<real>)
    requires |a| == |b|
    ensures 0.0 <= L1(a, b) == L1(b, a)
    ensures L1(a, b) == 0.0 ==> a == b
  {
    SumNonNegative(Gaps(a, b));
    assert Gaps(a, b) == Gaps(b, a);
    if L1(a, b) == 0.0 {
      ZeroSum(Gaps(a, b));
      forall i | 0 <= i < |a| ensures a[i] == b[i] {
        assert Gaps(a, b)[i] == 0.0;
      }
    }
  }

  lemma {:induction false} ZeroSum(a: seq<real>)
    requires forall i :: 0 <= i < |a| ==> 0.0 <= a[i]
    requires Sum(a) == 0.0
    ensures forall i :: 0 <= i < |a| ==> a[i] == 0.0
  {
    if a != [] {
      SumNonNegative(a[..|a| - 1]);
      ZeroSum(a[..|a| - 1]);
    }
  }

  ghost predicate IsMatrix(m: seq<seq<real>>, width: nat) {
    forall i :: 0 <= i < |m| ==> |m[i]| == width
  }

  function Column(m: seq<seq<real>>, j: nat): seq<real>
    requires forall i :: 0 <= i < |m| ==> j < |m[i]|
  {
    seq(|m|, i requires 0 <= i < |m| => m[i][j])
  }

  function RowSums(m: seq<seq<real>>): seq<real> {
    seq(|m|, i requires 0 <= i < |m| => Sum(m[i]))
  }

  ghost function ColumnSums(m: seq<seq<real>>, width: nat): seq<real>
    requires IsMatrix(m, width)
  {
    seq(width, j requires 0 <= j < width => Sum(Column(m, j)))
  }

  /** Adding a matrix up by rows or by columns gives the same total. */
  lemma {:induction false} ExchangeSums(m: seq<seq<real>>, width: nat)
    requires IsMatrix(m, width)
    ensures Sum(RowSums(m)) == Sum(ColumnSums(m, width))
  {
    if m == [] {
      SumConst(ColumnSums(m, width), 0.0);
    } else {
      var k := |m| - 1;
      ExchangeSums(m[..k], width);
      assert RowSums(m)[..k] == RowSums(m[..k]);
      forall j | 0 <= j < width
        ensures ColumnSums(m, width)[j] == ColumnSums(m[..k], width)[j] + m[k][j]
      {
        assert Column(m, j)[..k] == Column(m[..k], j);
      }
      SumPlus(ColumnSums(m[..k], width), m[k], ColumnSums(m, width));
    }
  }

  /** The values of f at the members of `picks`, in that order. */
  function Picked(f: seq<real>, picks: seq<nat>): seq<real>
    requires forall k :: 0 <= k < |picks| ==> picks[k] < |f|
  {
    seq(|picks|, k requires 0 <= k < |picks| => f[picks[k]])
  }

  /** f with every position outside `picks` set to zero. */
  function Masked(f: seq<real>, picks: seq<nat>): seq<real> {
    seq(|f|, i requires 0 <= i < |f| => if i in picks then f[i] else 0.0)
  }

  lemma {:induction false} SumOfOne(f: seq<real>, p: nat)
    requires p < |f|
    requires forall i :: 0 <= i < |f| && i != p ==> f[i] == 0.0
    ensures Sum(f) == f[p]
  {
    var m := |f| - 1;
    if p == m {
      SumConst(f[..m], 0.0);
    } else {
      SumOfOne(f[..m], p);
    }
  }

  /** Summing over a duplicate-free list of positions is summing over the positions it contains. */
  lemma {:induction false} SumOverList(f: seq<real>, picks: seq<nat>)
    requires forall k :: 0 <= k < |picks| ==> picks[k] < |f|
    requires Distinct(picks)
    ensures Sum(Picked(f, picks)) == Sum(Masked(f, picks))
  {
    if picks == [] {
      SumConst(Masked(f, picks), 0.0);
    } else {
      var m := |picks| - 1;
      var rest, p := picks[..m], picks[m];
      SumOverList(f, rest);
      assert Picked(f, picks)[..m] == Picked(f, rest);
      var only := seq(|f|, i requires 0 <= i < |f| => if i == p then f[p] else 0.0);
      SumOfOne(only, p);
      assert picks == rest + [p];
      SumPlus(Masked(f, rest), only, Masked(f, picks));
    }
  }
}
