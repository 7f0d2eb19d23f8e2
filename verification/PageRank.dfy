/**
 PageRank as a random surfer: the transition weights, one step of the power
 iteration, the loop with its two exits, and what they guarantee.
 A graph is its list of out-rows; node i links to the nodes in row i.
 */
module PageRank {
  import opened Common
  import opened Sums

  type Rows = seq<seq<nat>>

  ghost predicate WellFormed(g: Rows) {
    forall s :: 0 <= s < |g| ==> IsRow(g[s], |g|)
  }

  ghost predicate IsRow(row: seq<nat>, n: nat) {
    Distinct(row) && forall k :: 0 <= k < |row| ==> row[k] < n
  }

  /** The chance that a surfer on s moves to t: a random out-link, or anywhere from a dangling node. */
  function Weight(g: Rows, s: nat, t: nat): real
    requires s < |g|
  {
    if g[s] == [] then 1.0 / |g| as real
    else if t in g[s] then 1.0 / |g[s]| as real
    else 0.0
  }

  /** What each node sends to t. */
  function Flow(g: Rows, r: seq<real>, t: nat): seq<real>
    requires |r| == |g|
  {
    seq(|g|, s requires 0 <= s < |g| => r[s] * Weight(g, s, t))
  }

  function Received(g: Rows, r: seq<real>): seq<real>
    requires |r| == |g|
  {
    seq(|g|, t requires 0 <= t < |g| => Sum(Flow(g, r, t)))
  }

  /** One step of the surfer with damping d. */
  function Surf(g: Rows, d: real, r: seq<real>): (next: seq<real>)
    requires |r| == |g|
  {
    seq(|g|, t requires 0 <= t < |g| => Teleport(d, |g|) + Scaled(d, Received(g, r))[t])
  }

  /** What every node gets from surfers who jump to a random page. */
  function Teleport(d: real, n: nat): real
    requires n > 0
  {
    (1.0 - d) / n as real
  }

  lemma SurfAt(g: Rows, d: real, r: seq<real>, t: nat)
    requires |r| == |g| && t < |g|
    ensures Surf(g, d, r)[t] == Teleport(d, |g|) + d * Received(g, r)[t]
  {
    var received := Received(g, r);
    var moved := Scaled(d, received);
    assert moved[t] == d * received[t];
    assert Surf(g, d, r)[t] == Teleport(d, |g|) + moved[t];
  }

  lemma TeleportTotal(d: real, n: nat)
    requires n > 0
    ensures n as real * Teleport(d, n) == 1.0 - d
    ensures 0.0 <= d < 1.0 ==> 0.0 <= Teleport(d, n) <= 1.0 / n as real
  {
  }

  function Uniform(n: nat): seq<real> {
    seq(n, i requires 0 <= i < n => 1.0 / n as real)
  }

  function Iterate(g: Rows, d: real, k: nat): (r: seq<real>)
    ensures |r| == |g|
  {
    if k == 0 then Uniform(|g|) else Surf(g, d, Iterate(g, d, k - 1))
  }

  /** The loop from rank r with `fuel` rounds left: the final rank, and whether the tolerance test fired. */
  function Loop(g: Rows, d: real, tol: real, fuel: nat, r: seq<real>): (result: (seq<real>, bool))
    requires |r| == |g|
    ensures |result.0| == |g|
    decreases fuel
  {
    if fuel == 0 then (r, false)
    else
      var next := Surf(g, d, r);
      if L1(next, r) < tol then (next, true) else Loop(g, d, tol, fuel - 1, next)
  }

  /** range(iterations) is empty for a negative count. */
  function Rounds(iterations: int): nat {
    if iterations < 0 then 0 else iterations
  }

  function Solve(g: Rows, d: real, iterations: int, tol: real): (result: (seq<real>, bool))
    ensures |result.0| == |g|
  {
    Loop(g, d, tol, Rounds(iterations), Uniform(|g|))
  }

  ghost predicate IsFixedPoint(g: Rows, d: real, p: seq<real>) {
    |p| == |g| && Surf(g, d, p) == p
  }

  // ---- The surfer always goes somewhere ----

  function Weights(g: Rows, s: nat): seq<real>
    requires s < |g|
  {
    seq(|g|, t requires 0 <= t < |g| => Weight(g, s, t))
  }

  lemma WeightsSumToOne(g: Rows, s: nat)
    requires WellFormed(g) && s < |g|
    ensures Sum(Weights(g, s)) == 1.0
  {
    if g[s] == [] {
      SumConst(Weights(g, s), 1.0 / |g| as real);
    } else {
      var c := 1.0 / |g[s]| as real;
      var f := seq(|g|, t requires 0 <= t < |g| => c);
      SumOverList(f, g[s]);
      SumConst(Picked(f, g[s]), c);
      assert Masked(f, g[s]) == Weights(g, s);
    }
  }

  function FlowMatrix(g: Rows, r: seq<real>): (m: seq<seq<real>>)
    requires |r| == |g|
    ensures IsMatrix(m, |g|)
  {
    seq(|g|, t requires 0 <= t < |g| => Flow(g, r, t))
  }

  lemma SentMass(g: Rows, r: seq<real>, s: nat)
    requires WellFormed(g) && |r| == |g| && s < |g|
    ensures Sum(Column(FlowMatrix(g, r), s)) == r[s]
  {
    WeightsSumToOne(g, s);
    var column := Column(FlowMatrix(g, r), s);
    assert forall t :: 0 <= t < |g| ==> column[t] == r[s] * Weights(g, s)[t];
    SumScale(r[s], Weights(g, s), column);
  }

  /** A step neither creates nor destroys mass, whatever vector it is applied to. */
  lemma MassIsPassedOn(g: Rows, r: seq<real>)
    requires WellFormed(g) && |r| == |g|
    ensures Sum(Received(g, r)) == Sum(r)
  {
    var m := FlowMatrix(g, r);
    assert RowSums(m) == Received(g, r);
    ExchangeSums(m, |g|);
    forall s | 0 <= s < |g| ensures ColumnSums(m, |g|)[s] == r[s] {
      SentMass(g, r, s);
    }
    assert ColumnSums(m, |g|) == r;
  }

  lemma SurfMass(g: Rows, d: real, r: seq<real>)
    requires WellFormed(g) && |r| == |g| > 0
    ensures Sum(Surf(g, d, r)) == (1.0 - d) + d * Sum(r)
  {
    var base := seq(|g|, i requires 0 <= i < |g| => Teleport(d, |g|));
    TotalTeleport(d, base);
    TotalMoved(g, d, r);
    SumPlus(base, Scaled(d, Received(g, r)), Surf(g, d, r));
  }

  lemma TotalTeleport(d: real, base: seq<real>)
    requires base != []
    requires forall i :: 0 <= i < |base| ==> base[i] == Teleport(d, |base|)
    ensures Sum(base) == 1.0 - d
  {
    SumConst(base, Teleport(d, |base|));
    TeleportTotal(d, |base|);
  }

  lemma TotalMoved(g: Rows, d: real, r: seq<real>)
    requires WellFormed(g) && |r| == |g|
    ensures Sum(Scaled(d, Received(g, r))) == d * Sum(r)
  {
    SumScaled(d, Received(g, r));
    MassIsPassedOn(g, r);
    SameProduct(d, Sum(Received(g, r)), Sum(r));
  }

  lemma Reciprocal(x: real, y: real)
    requires y != 0.0
    ensures x * (1.0 / y) == x / y
  {
  }

  lemma SameProduct(d: real, x: real, y: real)
    requires x == y
    ensures d * x == d * y
  {
  }

  ghost predicate IsDistribution(r: seq<real>, floor: real) {
    Sum(r) == 1.0 && forall i :: 0 <= i < |r| ==> r[i] >= floor
  }

  lemma SurfKeepsFloor(g: Rows, d: real, r: seq<real>)
    requires |r| == |g| > 0 && 0.0 <= d
    requires forall i :: 0 <= i < |r| ==> r[i] >= 0.0
    ensures forall t :: 0 <= t < |g| ==> Surf(g, d, r)[t] >= Teleport(d, |g|)
  {
    forall t | 0 <= t < |g| ensures Surf(g, d, r)[t] >= Teleport(d, |g|) {
      forall s | 0 <= s < |g| ensures Flow(g, r, t)[s] >= 0.0 {
        ProductNonNegative(Weight(g, s, t), r[s]);
      }
      SumNonNegative(Flow(g, r, t));
      ProductNonNegative(d, Received(g, r)[t]);
      SurfAt(g, d, r, t);
    }
  }

  lemma ProductNonNegative(x: real, y: real)
    requires 0.0 <= x && 0.0 <= y
    ensures 0.0 <= x * y
  {
  }

  lemma UniformIsDistribution(n: nat, d: real)
    requires n > 0 && 0.0 <= d < 1.0
    ensures IsDistribution(Uniform(n), Teleport(d, n))
  {
    SumConst(Uniform(n), 1.0 / n as real);
    TeleportTotal(d, n);
  }

  lemma SurfKeepsDistribution(g: Rows, d: real, r: seq<real>)
    requires WellFormed(g) && |r| == |g| > 0 && 0.0 <= d < 1.0
    requires IsDistribution(r, Teleport(d, |g|))
    ensures IsDistribution(Surf(g, d, r), Teleport(d, |g|))
  {
    SurfMass(g, d, r);
    TeleportTotal(d, |g|);
    SurfKeepsFloor(g, d, r);
  }

  /** Every iterate sums to exactly one and leaves each node at least (1-d)/n. */
  lemma {:induction false} IteratesConserveMass(g: Rows, d: real, k: nat)
    requires WellFormed(g) && |g| > 0 && 0.0 <= d < 1.0
    ensures IsDistribution(Iterate(g, d, k), Teleport(d, |g|))
  {
    if k == 0 {
      UniformIsDistribution(|g|, d);
    } else {
      IteratesConserveMass(g, d, k - 1);
      SurfKeepsDistribution(g, d, Iterate(g, d, k - 1));
    }
  }

  // ---- Contraction, uniqueness, existence ----

  function Differences(a: seq<real>, b: seq<real>): seq<real>
    requires |a| == |b|
  {
    seq(|a|, i requires 0 <= i < |a| => a[i] - b[i])
  }

  lemma FlowDifference(g: Rows, a: seq<real>, b: seq<real>, t: nat)
    requires |a| == |b| == |g| && t < |g|
    ensures Sum(Flow(g, a, t)) == Sum(Flow(g, b, t)) + Sum(Flow(g, Differences(a, b), t))
  {
    forall s | 0 <= s < |g|
      ensures Flow(g, a, t)[s] == Flow(g, b, t)[s] + Flow(g, Differences(a, b), t)[s]
    {
      Distribute(a[s], b[s], Weight(g, s, t));
    }
    SumPlus(Flow(g, b, t), Flow(g, Differences(a, b), t), Flow(g, a, t));
  }

  lemma Distribute(x: real, y: real, w: real)
    ensures x * w == y * w + (x - y) * w
  {
  }

  lemma FlowBound(g: Rows, a: seq<real>, b: seq<real>, t: nat)
    requires |a| == |b| == |g| && t < |g|
    ensures Abs(Sum(Flow(g, Differences(a, b), t))) <= Sum(Flow(g, Gaps(a, b), t))
  {
    forall s | 0 <= s < |g|
      ensures Abs(Flow(g, Differences(a, b), t)[s]) <= Flow(g, Gaps(a, b), t)[s]
    {
      AbsScale(Weight(g, s, t), a[s] - b[s]);
    }
    SumAbs(Flow(g, Differences(a, b), t), Flow(g, Gaps(a, b), t));
  }

  lemma FlowGap(g: Rows, a: seq<real>, b: seq<real>, t: nat)
    requires |a| == |b| == |g| && t < |g|
    ensures Abs(Received(g, a)[t] - Received(g, b)[t]) <= Received(g, Gaps(a, b))[t]
  {
    FlowDifference(g, a, b, t);
    FlowBound(g, a, b, t);
  }

  lemma AbsScale(k: real, x: real)
    requires 0.0 <= k
    ensures Abs(k * x) == k * Abs(x)
  {
    if x < 0.0 {
      ProductNonNegative(k, -x);
    } else {
      ProductNonNegative(k, x);
    }
  }

  lemma ScaledGap(d: real, x: real, y: real, z: real)
    requires 0.0 <= d && Abs(x - y) <= z
    ensures Abs(d * x - d * y) <= d * z
  {
    AbsScale(d, x - y);
    ProductNonNegative(d, z - Abs(x - y));
  }

  /** A step brings any two vectors closer by the factor d. */
  lemma Contraction(g: Rows, d: real, a: seq<real>, b: seq<real>)
    requires WellFormed(g) && |a| == |b| == |g| && 0.0 <= d
    ensures L1(Surf(g, d, a), Surf(g, d, b)) <= d * L1(a, b)
  {
    var gaps := Gaps(Surf(g, d, a), Surf(g, d, b));
    var bound := Scaled(d, Received(g, Gaps(a, b)));
    forall t | 0 <= t < |g| ensures gaps[t] <= bound[t] {
      StepGap(g, d, a, b, t);
    }
    SumLe(gaps, bound);
    TotalMoved(g, d, Gaps(a, b));
  }

  lemma StepGap(g: Rows, d: real, a: seq<real>, b: seq<real>, t: nat)
    requires |a| == |b| == |g| && t < |g| && 0.0 <= d
    ensures Abs(Surf(g, d, a)[t] - Surf(g, d, b)[t]) <= Scaled(d, Received(g, Gaps(a, b)))[t]
  {
    FlowGap(g, a, b, t);
    SurfAt(g, d, a, t);
    SurfAt(g, d, b, t);
    ScaledGap(d, Received(g, a)[t], Received(g, b)[t], Received(g, Gaps(a, b))[t]);
  }

  lemma Shrinks(d: real, x: real, excess: real)
    requires 0.0 <= d < 1.0 && x <= d * x + (1.0 - d) * excess
    ensures x <= excess
  {
    var gap := x - excess;
    assert (1.0 - d) * gap == x - d * x - (1.0 - d) * excess;
    if gap > 0.0 {
      ProductPositive(1.0 - d, gap);
    }
  }

  lemma ProductPositive(x: real, y: real)
    requires 0.0 < x && 0.0 < y
    ensures 0.0 < x * y
  {
  }

  lemma FixedPointIsUnique(g: Rows, d: real, p: seq<real>, q: seq<real>)
    requires WellFormed(g) && 0.0 <= d < 1.0
    requires IsFixedPoint(g, d, p) && IsFixedPoint(g, d, q)
    ensures p == q
  {
    Contraction(g, d, p, q);
    L1Properties(p, q);
    Shrinks(d, L1(p, q), 0.0);
  }

  function Zeros(n: nat): seq<real> {
    seq(n, i requires 0 <= i < n => 0.0)
  }

  lemma StepFromZero(g: Rows, d: real)
    requires |g| > 0 && 0.0 <= d < 1.0
    ensures L1(Surf(g, d, Zeros(|g|)), Zeros(|g|)) == 1.0 - d
  {
    var zero := Zeros(|g|);
    var base := Surf(g, d, zero);
    TeleportTotal(d, |g|);
    forall t | 0 <= t < |g| ensures base[t] == Teleport(d, |g|) {
      SumConst(Flow(g, zero, t), 0.0);
      SurfAt(g, d, zero, t);
    }
    SumConst(Gaps(base, zero), Teleport(d, |g|));
  }

  lemma UniformNorm(n: nat)
    requires n > 0
    ensures L1(Uniform(n), Zeros(n)) == 1.0
  {
    SumConst(Gaps(Uniform(n), Zeros(n)), 1.0 / n as real);
  }

  /** The stationary vector has L1 norm at most one, so it is within 2 of the uniform start. */
  lemma FixedPointNearStart(g: Rows, d: real, p: seq<real>)
    requires WellFormed(g) && |g| > 0 && 0.0 <= d < 1.0 && IsFixedPoint(g, d, p)
    ensures L1(Uniform(|g|), p) <= 2.0
  {
    var zero := Zeros(|g|);
    StepFromZero(g, d);
    Contraction(g, d, p, zero);
    L1Triangle(p, Surf(g, d, zero), zero);
    Shrinks(d, L1(p, zero), 1.0);
    UniformNorm(|g|);
    L1Triangle(Uniform(|g|), zero, p);
    L1Properties(p, zero);
  }

  // ---- The two exits of the loop ----

  /** When the tolerance test fires the result is within d*tol/(1-d) of the fixed point. */
  lemma {:induction false} ConvergedExit(g: Rows, d: real, tol: real, fuel: nat, r: seq<real>, p: seq<real>)
    requires WellFormed(g) && |r| == |g| && 0.0 <= d < 1.0 && IsFixedPoint(g, d, p)
    requires Loop(g, d, tol, fuel, r).1
    ensures L1(Loop(g, d, tol, fuel, r).0, p) <= d * tol / (1.0 - d)
    decreases fuel
  {
    var next := Surf(g, d, r);
    if L1(next, r) < tol {
      Contraction(g, d, r, p);
      L1Triangle(r, next, p);
      L1Properties(r, next);
      CloseEnough(d, tol, L1(next, p), L1(r, p), L1(r, next));
    } else {
      ConvergedExit(g, d, tol, fuel - 1, next, p);
    }
  }

  lemma CloseEnough(d: real, tol: real, after: real, before: real, delta: real)
    requires 0.0 <= d < 1.0
    requires after <= d * before && before <= delta + after && delta < tol
    ensures after <= d * tol / (1.0 - d)
  {
    ProductNonNegative(d, delta + after - before);
    ProductNonNegative(d, tol - delta);
    assert (1.0 - d) * after <= d * tol;
    DivideBound(after, d * tol, 1.0 - d);
  }

  lemma DivideBound(x: real, y: real, c: real)
    requires c > 0.0 && c * x <= y
    ensures x <= y / c
  {
    var q := y / c;
    assert q * c == y;
    if x > q {
      assert c * (x - q) > 0.0;
    }
  }

  function Times(x: real, y: real): real {
    x * y
  }

  /** x after k multiplications by d. */
  function Decayed(d: real, k: nat, x: real): real {
    if k == 0 then x else Decayed(d, k - 1, Times(d, x))
  }

  lemma {:induction false} DecayedIsMonotone(d: real, k: nat, x: real, y: real)
    requires 0.0 <= d && x <= y
    ensures Decayed(d, k, x) <= Decayed(d, k, y)
  {
    if k > 0 {
      ProductNonNegative(d, y - x);
      assert d * (y - x) == d * y - d * x;
      DecayedIsMonotone(d, k - 1, Times(d, x), Times(d, y));
    }
  }

  lemma {:induction false} DecayedIsPower(d: real, k: nat, x: real)
    ensures Decayed(d, k, x) == Pow(d, k) * x
  {
    if k > 0 {
      DecayedIsPower(d, k - 1, Times(d, x));
      Regroup(Pow(d, k - 1), d, x);
    }
  }

  lemma Regroup(c: real, d: real, x: real)
    ensures c * (d * x) == (d * c) * x
  {
  }

  /** When the rounds run out the distance to the fixed point has shrunk by d in each of them. */
  lemma {:induction false} CappedExit(g: Rows, d: real, tol: real, fuel: nat, r: seq<real>, p: seq<real>)
    requires WellFormed(g) && |r| == |g| && 0.0 <= d < 1.0 && IsFixedPoint(g, d, p)
    requires !Loop(g, d, tol, fuel, r).1
    ensures L1(Loop(g, d, tol, fuel, r).0, p) <= Decayed(d, fuel, L1(r, p))
    decreases fuel
  {
    if fuel > 0 {
      var next := Surf(g, d, r);
      CappedExit(g, d, tol, fuel - 1, next, p);
      Contraction(g, d, r, p);
      DecayedIsMonotone(d, fuel - 1, L1(next, p), Times(d, L1(r, p)));
    }
  }

  /** The promised accuracy: one bound for an early exit, one for running out of rounds. */
  function ErrorLimit(d: real, iterations: int, tol: real, converged: bool): real
    requires d < 1.0
  {
    if converged then d * tol / (1.0 - d) else 2.0 * Pow(d, Rounds(iterations))
  }

  /** The error of the stored scores against any stationary vector, for both exits. */
  lemma ErrorBound(g: Rows, d: real, iterations: int, tol: real, p: seq<real>)
    requires WellFormed(g) && |g| > 0 && 0.0 <= d < 1.0 && IsFixedPoint(g, d, p)
    ensures L1(Solve(g, d, iterations, tol).0, p) <= ErrorLimit(d, iterations, tol, Solve(g, d, iterations, tol).1)
  {
    var (rank, converged) := Solve(g, d, iterations, tol);
    if converged {
      ConvergedExit(g, d, tol, Rounds(iterations), Uniform(|g|), p);
    } else {
      CappedExit(g, d, tol, Rounds(iterations), Uniform(|g|), p);
      FixedPointNearStart(g, d, p);
      DecayedIsMonotone(d, Rounds(iterations), L1(Uniform(|g|), p), 2.0);
      DecayedIsPower(d, Rounds(iterations), 2.0);
    }
  }

  /** The scores are one of the iterates, so they form a distribution too. */
  lemma {:induction false} LoopIsIterate(g: Rows, d: real, tol: real, fuel: nat, k: nat)
    ensures exists j :: k <= j <= k + fuel && Loop(g, d, tol, fuel, Iterate(g, d, k)).0 == Iterate(g, d, j)
    decreases fuel
  {
    var r := Iterate(g, d, k);
    if fuel == 0 {
      assert Loop(g, d, tol, fuel, r).0 == Iterate(g, d, k);
    } else {
      assert Surf(g, d, r) == Iterate(g, d, k + 1);
      if L1(Surf(g, d, r), r) < tol {
        assert Loop(g, d, tol, fuel, r).0 == Iterate(g, d, k + 1);
      } else {
        LoopIsIterate(g, d, tol, fuel - 1, k + 1);
      }
    }
  }

  lemma ScoresConserveMass(g: Rows, d: real, iterations: int, tol: real)
    requires WellFormed(g) && |g| > 0 && 0.0 <= d < 1.0
    ensures IsDistribution(Solve(g, d, iterations, tol).0, Teleport(d, |g|))
  {
    LoopIsIterate(g, d, tol, Rounds(iterations), 0);
    var j: nat :| Solve(g, d, iterations, tol).0 == Iterate(g, d, j);
    IteratesConserveMass(g, d, j);
  }
}
