/**
 The stationary vector that PageRank approximates exists for every graph: the
 linear system behind it has negative or zero entries off the diagonal and
 positive column sums, and elimination keeps both.
 */
module Stationary {
  import opened Sums
  import opened PageRank

  function Dot(a: seq<real>, x: seq<real>): seq<real>
    requires |a| == |x|
  {
    seq(|a|, j requires 0 <= j < |a| => a[j] * x[j])
  }

  ghost predicate Eliminable(a: seq<seq<real>>) {
    IsMatrix(a, |a|)
    && (forall i, j :: 0 <= i < |a| && 0 <= j < |a| && i != j ==> a[i][j] <= 0.0)
    && (forall j :: 0 <= j < |a| ==> Sum(Column(a, j)) > 0.0)
  }

  lemma PivotIsPositive(a: seq<seq<real>>)
    requires Eliminable(a) && a != []
    ensures var m := |a| - 1; a[m][m] >= Sum(Column(a, m)) > 0.0
  {
    var m := |a| - 1;
    var column := Column(a, m);
    var zeros := seq(m, i requires 0 <= i < m => 0.0);
    SumLe(column[..m], zeros);
    SumConst(zeros, 0.0);
  }

  /** The system left after the last unknown has been eliminated. */
  function Reduced(a: seq<seq<real>>): (r: seq<seq<real>>)
    requires a != [] && (forall i :: 0 <= i < |a| ==> |a[i]| == |a|) && a[|a| - 1][|a| - 1] > 0.0
  {
    var m := |a| - 1;
    seq(m, i requires 0 <= i < m => ReducedRow(a[i], a[m]))
  }

  function ReducedRow(row: seq<real>, last: seq<real>): (r: seq<real>)
    requires |row| == |last| > 0 && last[|last| - 1] > 0.0
  {
    var m := |last| - 1;
    var q := row[m] / last[m];
    seq(m, j requires 0 <= j < m => row[j] - q * last[j])
  }

  lemma ReducedColumn(a: seq<seq<real>>, j: nat)
    requires Eliminable(a) && j < |a| - 1 && a[|a| - 1][|a| - 1] > 0.0
    ensures IsMatrix(Reduced(a), |a| - 1)
    ensures Sum(Column(Reduced(a), j)) >= Sum(Column(a, j))
  {
    var m := |a| - 1;
    var f := -a[m][j] / a[m][m];
    var own, pivot, reduced := Column(a, j)[..m], Column(a, m)[..m], Column(Reduced(a), j);
    forall i | 0 <= i < m ensures reduced[i] == own[i] + Scaled(f, pivot)[i] {
      ReducedEntry(a, i, j);
    }
    SumPlus(own, Scaled(f, pivot), reduced);
    PivotColumn(a, j);
  }

  lemma PivotColumn(a: seq<seq<real>>, j: nat)
    requires Eliminable(a) && j < |a| - 1 && a[|a| - 1][|a| - 1] > 0.0
    ensures var m := |a| - 1; Sum(Scaled(-a[m][j] / a[m][m], Column(a, m)[..m])) >= a[m][j]
  {
    var m := |a| - 1;
    var p, f := a[m][m], -a[m][j] / a[m][m];
    var pivot := Column(a, m)[..m];
    QuotientNonNegative(-a[m][j], p);
    SumScaled(f, pivot);
    ColumnBound(f, p, a[m][j], Sum(pivot), Sum(Column(a, m)));
  }

  lemma ReducedEntry(a: seq<seq<real>>, i: nat, j: nat)
    requires a != [] && (forall k :: 0 <= k < |a| ==> |a[k]| == |a|) && a[|a| - 1][|a| - 1] > 0.0
    requires i < |a| - 1 && j < |a| - 1
    ensures var m := |a| - 1; var f := -a[m][j] / a[m][m];
            Reduced(a)[i][j] == a[i][j] + Scaled(f, Column(a, m)[..m])[i]
  {
    var m := |a| - 1;
    MoveQuotient(a[i][m], a[m][j], a[m][m]);
  }

  lemma QuotientNonNegative(x: real, p: real)
    requires 0.0 <= x && 0.0 < p
    ensures 0.0 <= x / p
  {
  }

  lemma MoveQuotient(x: real, y: real, p: real)
    requires p != 0.0
    ensures -(x / p * y) == (-y / p) * x
  {
  }

  lemma ColumnBound(f: real, p: real, x: real, above: real, whole: real)
    requires 0.0 <= f && f * p == -x && whole == above + p && whole > 0.0
    ensures f * above >= x
  {
    ProductNonNegative(f, whole);
    assert f * whole == f * above + f * p;
  }

  lemma ReducedIsEliminable(a: seq<seq<real>>)
    requires Eliminable(a) && a != [] && a[|a| - 1][|a| - 1] > 0.0
    ensures Eliminable(Reduced(a))
  {
    var m := |a| - 1;
    var r := Reduced(a);
    forall j | 0 <= j < m ensures Sum(Column(r, j)) > 0.0 {
      ReducedColumn(a, j);
    }
    forall i, j | 0 <= i < m && 0 <= j < m && i != j ensures r[i][j] <= 0.0 {
      OffDiagonal(a[i][j], a[i][m], a[m][j], a[m][m]);
    }
  }

  lemma OffDiagonal(x: real, y: real, z: real, p: real)
    requires x <= 0.0 && y <= 0.0 && z <= 0.0 && p > 0.0
    ensures x - y / p * z <= 0.0
  {
    QuotientNonNegative(-y, p);
    ProductNonNegative(-y / p, -z);
    assert (-y / p) * (-z) == y / p * z;
  }

  ghost predicate Solves(a: seq<seq<real>>, b: seq<real>, x: seq<real>) {
    |a| == |b| == |x| && IsMatrix(a, |x|)
    && forall i :: 0 <= i < |a| ==> Sum(Dot(a[i], x)) == b[i]
  }

  /** Every such system has a solution. */
  lemma {:induction false} SolveByElimination(a: seq<seq<real>>, b: seq<real>) returns (x: seq<real>)
    requires Eliminable(a) && |b| == |a|
    ensures Solves(a, b, x)
    decreases |a|
  {
    if a == [] {
      x := [];
    } else {
      PivotIsPositive(a);
      ReducedIsEliminable(a);
      var y := SolveByElimination(Reduced(a), ReducedRight(a, b));
      x := y + [LastUnknown(a, b, y)];
      forall i | 0 <= i < |a| ensures Sum(Dot(a[i], x)) == b[i] {
        RowIsSolved(a, b, y, i);
      }
    }
  }

  ghost predicate HasPivot(a: seq<seq<real>>) {
    a != [] && IsMatrix(a, |a|) && a[|a| - 1][|a| - 1] > 0.0
  }

  ghost function ReducedRight(a: seq<seq<real>>, b: seq<real>): seq<real>
    requires HasPivot(a) && |b| == |a|
  {
    var m := |a| - 1;
    seq(m, i requires 0 <= i < m && HasPivot(a) => b[i] - a[i][m] / a[m][m] * b[m])
  }

  ghost function LastUnknown(a: seq<seq<real>>, b: seq<real>, y: seq<real>): real
    requires HasPivot(a) && |b| == |a| == |y| + 1
  {
    var m := |a| - 1;
    (b[m] - Sum(Dot(a[m][..m], y))) / a[m][m]
  }

  lemma RowIsSolved(a: seq<seq<real>>, b: seq<real>, y: seq<real>, i: nat)
    requires HasPivot(a) && |b| == |a| == |y| + 1 && i < |a|
    requires Solves(Reduced(a), ReducedRight(a, b), y)
    ensures Sum(Dot(a[i], y + [LastUnknown(a, b, y)])) == b[i]
  {
    var m, z := |a| - 1, LastUnknown(a, b, y);
    DotAppend(a[i], y, z);
    var above := Sum(Dot(a[m][..m], y));
    if i == m {
      BackSubstitute(b[m], above, a[m][m], z);
    } else {
      ReducedRowHolds(a, b, y, i);
      RowHolds(a[i][m], a[m][m], b[i], b[m], Sum(Dot(a[i][..m], y)), above, z);
    }
  }

  lemma ReducedRowHolds(a: seq<seq<real>>, b: seq<real>, y: seq<real>, i: nat)
    requires HasPivot(a) && |b| == |a| == |y| + 1 && i < |a| - 1
    requires Solves(Reduced(a), ReducedRight(a, b), y)
    ensures var m := |a| - 1;
            Sum(Dot(a[i][..m], y)) - a[i][m] / a[m][m] * Sum(Dot(a[m][..m], y)) == b[i] - a[i][m] / a[m][m] * b[m]
  {
    ReducedDot(a[i], a[|a| - 1], y);
    assert Sum(Dot(Reduced(a)[i], y)) == ReducedRight(a, b)[i];
  }

  lemma DotAppend(row: seq<real>, y: seq<real>, z: real)
    requires |row| == |y| + 1
    ensures Sum(Dot(row, y + [z])) == Sum(Dot(row[..|y|], y)) + row[|y|] * z
  {
    var m := |y|;
    var whole, parts := Dot(row, y + [z]), Dot(row[..m], y) + [row[m] * z];
    forall j | 0 <= j < |row| ensures whole[j] == parts[j] {
      SameFactors(row[j], (y + [z])[j], row[j], if j < m then y[j] else z);
      if j < m {
        SameFactors(row[..m][j], y[j], row[j], y[j]);
      }
    }
    assert whole == parts;
    SumAppend(Dot(row[..m], y), row[m] * z);
  }

  lemma SameFactors(a: real, b: real, c: real, d: real)
    requires a == c && b == d
    ensures a * b == c * d
  {
  }

  lemma BackSubstitute(b: real, s: real, p: real, z: real)
    requires p > 0.0 && z == (b - s) / p
    ensures s + p * z == b
  {
  }

  lemma RowHolds(c: real, p: real, bi: real, bm: real, si: real, sm: real, z: real)
    requires p > 0.0 && z == (bm - sm) / p
    requires si - c / p * sm == bi - c / p * bm
    ensures si + c * z == bi
  {
    var q := c / p;
    assert q * p == c;
    assert z * p == bm - sm;
    assert c * z == q * (bm - sm) by {
      assert (q * p) * z == q * (z * p);
    }
    assert q * (bm - sm) == q * bm - q * sm;
  }

  lemma ReducedDot(row: seq<real>, last: seq<real>, y: seq<real>)
    requires |row| == |last| == |y| + 1 && last[|y|] > 0.0
    ensures Sum(Dot(ReducedRow(row, last), y))
         == Sum(Dot(row[..|y|], y)) - row[|y|] / last[|y|] * Sum(Dot(last[..|y|], y))
  {
    var m := |y|;
    var q := row[m] / last[m];
    var reduced, own, pivot := Dot(ReducedRow(row, last), y), Dot(row[..m], y), Dot(last[..m], y);
    forall j | 0 <= j < m ensures own[j] == reduced[j] + Scaled(q, pivot)[j] {
      ReducedDotAt(row, last, y, j);
    }
    SumPlus(reduced, Scaled(q, pivot), own);
    SumScaled(q, pivot);
  }

  lemma ReducedDotAt(row: seq<real>, last: seq<real>, y: seq<real>, j: nat)
    requires |row| == |last| == |y| + 1 && last[|y|] > 0.0 && j < |y|
    ensures var m := |y|;
            Dot(row[..m], y)[j] == Dot(ReducedRow(row, last), y)[j] + Scaled(row[m] / last[m], Dot(last[..m], y))[j]
  {
    var m := |y|;
    var q := row[m] / last[m];
    SplitProduct(row[j], q, last[j], y[j]);
    assert Dot(row[..m], y)[j] == row[j] * y[j];
    assert Dot(ReducedRow(row, last), y)[j] == (row[j] - q * last[j]) * y[j];
    assert Scaled(q, Dot(last[..m], y))[j] == q * (last[j] * y[j]);
  }

  lemma SplitProduct(x: real, q: real, l: real, y: real)
    ensures x * y == (x - q * l) * y + q * (l * y)
  {
  }

  // ---- The surfer's system ----

  /** Row t of the system: what t holds, less the damped share it receives. */
  function System(g: Rows, d: real): seq<seq<real>> {
    seq(|g|, t requires 0 <= t < |g| => SystemRow(g, d, t))
  }

  function SystemRow(g: Rows, d: real, t: nat): seq<real> {
    seq(|g|, s requires 0 <= s < |g| => (if s == t then 1.0 else 0.0) - d * Weight(g, s, t))
  }

  lemma SystemColumn(g: Rows, d: real, s: nat)
    requires WellFormed(g) && s < |g|
    ensures Sum(Column(System(g, d), s)) == 1.0 - d
  {
    var column := Column(System(g, d), s);
    var unit := seq(|g|, t requires 0 <= t < |g| => if s == t then 1.0 else 0.0);
    SumOfOne(unit, s);
    SumPlus(column, Scaled(d, Weights(g, s)), unit);
    SumScaled(d, Weights(g, s));
    WeightsSumToOne(g, s);
    SameProduct(d, Sum(Weights(g, s)), 1.0);
  }

  lemma SystemIsEliminable(g: Rows, d: real)
    requires WellFormed(g) && 0.0 <= d < 1.0
    ensures Eliminable(System(g, d))
  {
    var a := System(g, d);
    forall j | 0 <= j < |a| ensures Sum(Column(a, j)) > 0.0 {
      SystemColumn(g, d, j);
    }
    forall t, s | 0 <= t < |a| && 0 <= s < |a| && t != s ensures a[t][s] <= 0.0 {
      ProductNonNegative(d, Weight(g, s, t));
    }
  }

  /** The vector the power iteration aims at exists, and there is only one. */
  lemma StationaryVectorExists(g: Rows, d: real) returns (p: seq<real>)
    requires WellFormed(g) && |g| > 0 && 0.0 <= d < 1.0
    ensures IsFixedPoint(g, d, p)
    ensures forall q :: IsFixedPoint(g, d, q) ==> q == p
  {
    SystemIsEliminable(g, d);
    p := SolveByElimination(System(g, d), seq(|g|, t requires 0 <= t < |g| => Teleport(d, |g|)));
    forall t | 0 <= t < |g| ensures Surf(g, d, p)[t] == p[t] {
      SystemRowMeaning(g, d, p, t);
      assert System(g, d)[t] == SystemRow(g, d, t);
      SurfAt(g, d, p, t);
    }
    forall q | IsFixedPoint(g, d, q) ensures q == p {
      FixedPointIsUnique(g, d, p, q);
    }
  }

  lemma SystemRowMeaning(g: Rows, d: real, p: seq<real>, t: nat)
    requires |p| == |g| && t < |g|
    ensures Sum(Dot(SystemRow(g, d, t), p)) == p[t] - d * Received(g, p)[t]
  {
    var own := seq(|g|, s requires 0 <= s < |g| => if s == t then p[t] else 0.0);
    SumOfOne(own, t);
    var dot, share := Dot(SystemRow(g, d, t), p), Scaled(d, Flow(g, p, t));
    forall s | 0 <= s < |g| ensures own[s] == dot[s] + share[s] {
      SystemEntry(g, d, p, t, s);
    }
    SumPlus(dot, share, own);
    DampedShare(g, d, p, t);
  }

  lemma DampedShare(g: Rows, d: real, p: seq<real>, t: nat)
    requires |p| == |g| && t < |g|
    ensures Sum(Scaled(d, Flow(g, p, t))) == d * Received(g, p)[t]
  {
    SumScaled(d, Flow(g, p, t));
    SameProduct(d, Sum(Flow(g, p, t)), Received(g, p)[t]);
  }

  lemma SystemEntry(g: Rows, d: real, p: seq<real>, t: nat, s: nat)
    requires |p| == |g| && t < |g| && s < |g|
    ensures (if s == t then p[s] else 0.0) == Dot(SystemRow(g, d, t), p)[s] + Scaled(d, Flow(g, p, t))[s]
  {
    var w, x, u := Weight(g, s, t), p[s], if s == t then 1.0 else 0.0;
    SameFactors(SystemRow(g, d, t)[s], p[s], u - d * w, x);
    SameProduct(d, Flow(g, p, t)[s], x * w);
    Entry(d, w, x);
  }

  lemma Entry(d: real, w: real, x: real)
    ensures (1.0 - d * w) * x + d * (x * w) == x
    ensures (0.0 - d * w) * x + d * (x * w) == 0.0
  {
  }
}
