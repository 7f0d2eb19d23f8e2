/**
 When the PageRank loop leaves by its tolerance test, whatever the graph: a
 condition on the parameters, and for all other parameters a graph on which the
 rounds run out.
 */
module Convergence {
  import opened PageRank
  import opened Sums

  // ---- Enough rounds for the tolerance ----

  lemma ReceivedIsNonNegative(g: Rows, r: seq<real>, t: nat)
    requires |r| == |g| && t < |g| && forall i :: 0 <= i < |r| ==> r[i] >= 0.0
    ensures Received(g, r)[t] >= 0.0
  {
    forall s | 0 <= s < |g| ensures Flow(g, r, t)[s] >= 0.0 {
      ProductNonNegative(Weight(g, s, t), r[s]);
    }
    SumNonNegative(Flow(g, r, t));
  }

  lemma PositiveEntry(r: seq<real>) returns (i: nat)
    requires Sum(r) > 0.0
    ensures i < |r| && r[i] > 0.0
  {
    if forall k :: 0 <= k < |r| ==> r[k] <= 0.0 {
      SumLe(r, Zeros(|r|));
      SumConst(Zeros(|r|), 0.0);
    }
    i :| i < |r| && r[i] > 0.0;
  }

  /** Two vectors of positive total one, one of them positive everywhere, are closer than two. */
  lemma CloserThanTwo(a: seq<real>, b: seq<real>)
    requires |a| == |b| && Sum(a) == Sum(b) == 1.0
    requires forall i :: 0 <= i < |a| ==> a[i] >= 0.0 && b[i] > 0.0
    ensures L1(a, b) < 2.0
  {
    var both := seq(|a|, i requires 0 <= i < |a| => a[i] + b[i]);
    SumPlus(a, b, both);
    var i := PositiveEntry(a);
    SumLess(Gaps(a, b), both, i);
  }

  lemma ReceivedIsClose(g: Rows)
    requires WellFormed(g) && |g| > 0
    ensures L1(Received(g, Uniform(|g|)), Uniform(|g|)) < 2.0
  {
    var start := Uniform(|g|);
    MassIsPassedOn(g, start);
    SumConst(start, 1.0 / |g| as real);
    forall t | 0 <= t < |g| ensures Received(g, start)[t] >= 0.0 {
      ReceivedIsNonNegative(g, start, t);
    }
    CloserThanTwo(Received(g, start), start);
  }

  lemma FirstGap(g: Rows, d: real, t: nat)
    requires 0.0 <= d && t < |g|
    ensures Abs(Surf(g, d, Uniform(|g|))[t] - Uniform(|g|)[t])
         == Times(d, Abs(Received(g, Uniform(|g|))[t] - Uniform(|g|)[t]))
  {
    SurfAt(g, d, Uniform(|g|), t);
    AroundUniform(d, |g|, Received(g, Uniform(|g|))[t], Surf(g, d, Uniform(|g|))[t]);
  }

  lemma ScaledDistance(d: real, a: seq<real>, b: seq<real>, from: seq<real>)
    requires |a| == |b| == |from|
    requires forall t :: 0 <= t < |a| ==> Abs(a[t] - from[t]) == Times(d, Abs(b[t] - from[t]))
    ensures L1(a, from) == Times(d, L1(b, from))
  {
    SumScale(d, Gaps(b, from), Gaps(a, from));
  }

  lemma FirstGaps(g: Rows, d: real)
    requires |g| > 0 && 0.0 <= d
    ensures L1(Surf(g, d, Uniform(|g|)), Uniform(|g|)) == Times(d, L1(Received(g, Uniform(|g|)), Uniform(|g|)))
  {
    var start := Uniform(|g|);
    forall t | 0 <= t < |g|
      ensures Abs(Surf(g, d, start)[t] - start[t]) == Times(d, Abs(Received(g, start)[t] - start[t]))
    {
      FirstGap(g, d, t);
    }
    ScaledDistance(d, Surf(g, d, start), Received(g, start), start);
  }

  /** The first round moves the uniform start by less than 2d, or not at all. */
  lemma FirstMove(g: Rows, d: real) returns (x: real)
    requires WellFormed(g) && |g| > 0 && 0.0 <= d
    ensures L1(Surf(g, d, Uniform(|g|)), Uniform(|g|)) == Times(d, x) && x < 2.0
  {
    x := L1(Received(g, Uniform(|g|)), Uniform(|g|));
    ReceivedIsClose(g);
    FirstGaps(g, d);
  }

  lemma TeleportIsRest(d: real, n: nat)
    requires n > 0
    ensures Teleport(d, n) == 1.0 / n as real - d * (1.0 / n as real)
  {
    Reciprocal(1.0 - d, n as real);
  }

  lemma AroundUniform(d: real, n: nat, x: real, y: real)
    requires n > 0 && 0.0 <= d && y == Teleport(d, n) + d * x
    ensures Abs(y - 1.0 / n as real) == Times(d, Abs(x - 1.0 / n as real))
  {
    TeleportIsRest(d, n);
    AroundCentre(d, 1.0 / n as real, x, y);
  }

  lemma AroundCentre(d: real, u: real, x: real, y: real)
    requires 0.0 <= d && y == u - d * u + d * x
    ensures Abs(y - u) == Times(d, Abs(x - u))
  {
    AbsScale(d, x - u);
    assert d * (x - u) == d * x - d * u;
  }

  /** If the rounds run out, the last move was no smaller than the tolerance, nor the first one shrunk by the others. */
  lemma {:induction false} CappedMeansSlow(g: Rows, d: real, tol: real, fuel: nat, r: seq<real>)
    requires WellFormed(g) && |r| == |g| && 0.0 <= d && fuel > 0 && !Loop(g, d, tol, fuel, r).1
    ensures tol <= Decayed(d, fuel - 1, L1(Surf(g, d, r), r))
    decreases fuel
  {
    var next := Surf(g, d, r);
    if fuel > 1 {
      CappedMeansSlow(g, d, tol, fuel - 1, next);
      Contraction(g, d, next, r);
      OneRoundEarlier(d, fuel - 1, L1(Surf(g, d, next), next), L1(next, r));
    } else {
      assert Decayed(d, 0, L1(next, r)) == L1(next, r);
    }
  }

  lemma OneRoundEarlier(d: real, k: nat, after: real, before: real)
    requires 0.0 <= d && k > 0 && after <= d * before
    ensures Decayed(d, k - 1, after) <= Decayed(d, k, before)
  {
    DecayedIsMonotone(d, k - 1, after, Times(d, before));
  }

  lemma {:induction false} PowIsNonNegative(d: real, k: nat)
    requires 0.0 <= d
    ensures 0.0 <= Pow(d, k)
  {
    if k > 0 {
      PowIsNonNegative(d, k - 1);
      ProductNonNegative(d, Pow(d, k - 1));
    }
  }

  lemma EnoughRounds(g: Rows, d: real, iterations: int, tol: real)
    requires WellFormed(g) && |g| > 0 && 0.0 <= d && iterations > 0 && tol > 0.0 && 2.0 * Pow(d, iterations) <= tol
    ensures Solve(g, d, iterations, tol).1
  {
    if !Solve(g, d, iterations, tol).1 {
      var x := FirstMove(g, d);
      CappedMeansSlow(g, d, tol, iterations, Uniform(|g|));
      DecayedIsPower(d, iterations, x);
      assert Decayed(d, iterations, x) == Decayed(d, iterations - 1, Times(d, x));
      PowIsNonNegative(d, iterations);
      StillLess(Pow(d, iterations), x, tol);
    }
  }

  lemma StillLess(p: real, x: real, tol: real)
    requires 0.0 <= p && x < 2.0 && 0.0 < tol && 2.0 * p <= tol
    ensures p * x < tol
  {
    if p > 0.0 {
      ProductPositive(p, 2.0 - x);
      assert p * (2.0 - x) == 2.0 * p - p * x;
    } else {
      assert p * x == 0.0;
    }
  }

  // ---- A graph on which the rounds run out ----

  /** m leaves that all link to the first node of a chain; the last node of the chain links to itself. */
  function Chain(m: nat, len: nat): Rows {
    seq(m + len, s requires 0 <= s < m + len => if s < m then [m] else if s + 1 < m + len then [s + 1] else [s])
  }

  lemma ChainIsWellFormed(m: nat, len: nat)
    requires len > 0
    ensures WellFormed(Chain(m, len))
  {
  }

  /** An inner node of the chain receives what its predecessor has. */
  lemma ChainReceives(m: nat, len: nat, r: seq<real>, t: nat)
    requires |r| == m + len && m < t < m + len - 1
    ensures Received(Chain(m, len), r)[t] == r[t - 1]
  {
    var g := Chain(m, len);
    var flow := Flow(g, r, t);
    forall s | 0 <= s < |g| && s != t - 1 ensures flow[s] == 0.0 {
      assert t !in g[s];
    }
    assert g[t - 1] == [t] && Weight(g, t - 1, t) == 1.0;
    SumOfOne(flow, t - 1);
  }

  lemma LeafSends(m: nat, len: nat, s: nat)
    requires len > 0 && s < m + len
    ensures var flow := Flow(Chain(m, len), Uniform(m + len), m);
            flow[s] >= 0.0 && (s < m ==> flow[s] == 1.0 / (m + len) as real)
  {
    var g := Chain(m, len);
    if s < m {
      assert g[s] == [m] && m in g[s] && Weight(g, s, m) == 1.0;
    } else {
      ProductNonNegative(Uniform(m + len)[s], Weight(g, s, m));
    }
  }

  /** The first node of the chain receives what the leaves have. */
  lemma HeadReceives(m: nat, len: nat)
    requires len > 0
    ensures var n := m + len; Received(Chain(m, len), Uniform(n))[m] >= m as real * (1.0 / n as real)
  {
    var flow := Flow(Chain(m, len), Uniform(m + len), m);
    forall s | 0 <= s < |flow| ensures flow[s] >= 0.0 && (s < m ==> flow[s] == 1.0 / (m + len) as real) {
      LeafSends(m, len, s);
    }
    LeavesCount(flow, m, 1.0 / (m + len) as real);
  }

  lemma LeavesCount(flow: seq<real>, m: nat, share: real)
    requires m <= |flow| && forall s :: 0 <= s < |flow| ==> flow[s] >= 0.0 && (s < m ==> flow[s] == share)
    ensures Sum(flow) >= m as real * share
  {
    SumConst(flow[..m], share);
    PrefixSum(flow, m);
  }

  /** How far round k moves all the scores. */
  function RoundMove(g: Rows, d: real, k: nat): real
    requires k > 0
  {
    L1(Iterate(g, d, k), Iterate(g, d, k - 1))
  }

  /** And how far one node's score. */
  function Move(g: Rows, d: real, k: nat, t: nat): real
    requires k > 0 && t < |g|
  {
    Iterate(g, d, k)[t] - Iterate(g, d, k - 1)[t]
  }

  /** The share of the leaves, all but one. */
  function Share(m: nat, len: nat): real
    requires m + len > 0
  {
    (m as real - 1.0) / (m + len) as real
  }

  /** The mass of the leaves arrives at the chain in the first round. */
  lemma FirstJump(m: nat, len: nat, d: real)
    requires len > 0 && m > 0 && 0.0 <= d
    ensures Move(Chain(m, len), d, 1, m) >= Times(d, Share(m, len))
  {
    var n, g := m + len, Chain(m, len);
    var u := 1.0 / n as real;
    HeadReceives(m, len);
    SurfAt(g, d, Uniform(n), m);
    assert Iterate(g, d, 1) == Surf(g, d, Iterate(g, d, 0));
    JumpAtLeast(d, u, Received(g, Uniform(n))[m], m as real);
    assert Teleport(d, n) == (1.0 - d) * u && (m as real - 1.0) / n as real == (m as real - 1.0) * u;
  }

  lemma JumpAtLeast(d: real, u: real, x: real, m: real)
    requires 0.0 <= d && x >= m * u
    ensures (1.0 - d) * u + d * x - u >= d * ((m - 1.0) * u)
  {
    ProductNonNegative(d, x - m * u);
    assert d * (x - m * u) == d * x - d * (m * u);
    assert d * ((m - 1.0) * u) == d * (m * u) - d * u;
  }

  lemma NextMove(m: nat, len: nat, d: real, k: nat)
    requires 1 < k < len
    ensures Move(Chain(m, len), d, k, m + k - 1) == Times(d, Move(Chain(m, len), d, k - 1, m + k - 2))
  {
    var g, t := Chain(m, len), m + k - 1;
    var now, before := Iterate(g, d, k - 1), Iterate(g, d, k - 2);
    SurfAt(g, d, now, t);
    SurfAt(g, d, before, t);
    ChainReceives(m, len, now, t);
    ChainReceives(m, len, before, t);
    assert d * (now[t - 1] - before[t - 1]) == d * now[t - 1] - d * before[t - 1];
  }

  /** From then on it travels one node a round, shrunk by d each time. */
  lemma {:induction false} Travels(m: nat, len: nat, d: real, k: nat)
    requires 0 < k < len
    ensures Move(Chain(m, len), d, k, m + k - 1) == Times(Pow(d, k - 1), Move(Chain(m, len), d, 1, m))
  {
    if k > 1 {
      NextMove(m, len, d, k);
      Travels(m, len, d, k - 1);
      NextPower(d, k - 1, Move(Chain(m, len), d, 1, m));
    }
  }

  lemma NextPower(d: real, k: nat, x: real)
    requires k > 0
    ensures Times(d, Times(Pow(d, k - 1), x)) == Times(Pow(d, k), x)
  {
    Regroup(d, Pow(d, k - 1), x);
  }

  /** In vectors of equal total what one entry gains the others lose. */
  lemma TwiceOneGap(a: seq<real>, b: seq<real>, i: nat)
    requires |a| == |b| && Sum(a) == Sum(b) && i < |a|
    ensures L1(a, b) >= 2.0 * (a[i] - b[i])
  {
    var changes, gaps := Differences(a, b), Gaps(a, b);
    SumPlus(b, changes, a);
    SumUpdate(changes, i, 0.0);
    SumUpdate(gaps, i, 0.0);
    SumAbs(changes[i := 0.0], gaps[i := 0.0]);
  }

  lemma MovesCountTwice(g: Rows, d: real, k: nat, t: nat)
    requires WellFormed(g) && 0.0 <= d < 1.0 && k > 0 && t < |g|
    ensures RoundMove(g, d, k) >= 2.0 * Move(g, d, k, t)
  {
    IteratesConserveMass(g, d, k);
    IteratesConserveMass(g, d, k - 1);
    TwiceOneGap(Iterate(g, d, k), Iterate(g, d, k - 1), t);
  }

  /** So round k, if the chain is long enough, still moves 2 * d^k times the share of the leaves. */
  lemma LastMoveIsLong(m: nat, len: nat, d: real, k: nat)
    requires 0 < k < len && m > 0 && 0.0 <= d < 1.0
    ensures RoundMove(Chain(m, len), d, k)
         >= 2.0 * Times(Pow(d, k), Share(m, len))
  {
    var g := Chain(m, len);
    ChainIsWellFormed(m, len);
    MovesCountTwice(g, d, k, m + k - 1);
    FirstJump(m, len, d);
    Travels(m, len, d, k);
    MoveAtLeast(d, k, Move(g, d, 1, m), Share(m, len));
  }

  lemma MoveAtLeast(d: real, k: nat, x: real, share: real)
    requires 0.0 <= d && k > 0 && x >= Times(d, share)
    ensures Times(Pow(d, k - 1), x) >= Times(Pow(d, k), share)
  {
    PowIsNonNegative(d, k - 1);
    TimesGrows(Pow(d, k - 1), Times(d, share), x);
    TimesSwaps(Pow(d, k - 1), d, share);
    NextPower(d, k, share);
  }

  lemma TimesGrows(p: real, x: real, y: real)
    requires 0.0 <= p && x <= y
    ensures Times(p, x) <= Times(p, y)
  {
    ProductNonNegative(p, y - x);
    assert p * (y - x) == p * y - p * x;
  }

  lemma TimesSwaps(p: real, d: real, x: real)
    ensures Times(p, Times(d, x)) == Times(d, Times(p, x))
  {
    Regroup(p, d, x);
    Regroup(d, p, x);
    assert p * d == d * p;
  }

  lemma {:induction false} MovesShrink(g: Rows, d: real, j: nat, k: nat)
    requires WellFormed(g) && 0.0 <= d < 1.0 && 0 < j <= k
    ensures RoundMove(g, d, k) <= RoundMove(g, d, j)
    decreases k
  {
    if j < k {
      var before := RoundMove(g, d, k - 1);
      MovesShrink(g, d, j, k - 1);
      Contraction(g, d, Iterate(g, d, k - 1), Iterate(g, d, k - 2));
      L1Properties(Iterate(g, d, k - 1), Iterate(g, d, k - 2));
      ProductNonNegative(1.0 - d, before);
      assert (1.0 - d) * before == before - d * before;
    }
  }

  lemma {:induction false} RoundsRunOut(g: Rows, d: real, tol: real, j: nat, fuel: nat)
    requires forall k :: j < k <= j + fuel ==> RoundMove(g, d, k) >= tol
    ensures !Loop(g, d, tol, fuel, Iterate(g, d, j)).1
    decreases fuel
  {
    if fuel > 0 {
      var next := j + 1;
      assert Iterate(g, d, next) == Surf(g, d, Iterate(g, d, j)) && RoundMove(g, d, next) >= tol;
      RoundsRunOut(g, d, tol, next, fuel - 1);
    }
  }

  /** Enough leaves that even the last round moves as much as the tolerance. */
  lemma EnoughLeaves(p: real, tol: real, len: nat) returns (m: nat)
    requires 0.0 < tol < 2.0 * p
    ensures m > 0 && 2.0 * Times(p, Share(m, len)) >= tol
  {
    var gap := 2.0 * p - tol;
    var need := (2.0 * p + tol * len as real) / gap;
    m := need.Floor + 1;
    var n, leaves := (m + len) as real, m as real;
    assert leaves >= need && need * gap == 2.0 * p + tol * len as real;
    ProductNonNegative(leaves - need, gap);
    assert leaves * gap >= 2.0 * p + tol * len as real;
    assert 2.0 * p * (leaves - 1.0) - tol * n == leaves * gap - 2.0 * p - tol * len as real;
    ShareAtLeast(p, leaves - 1.0, n, tol);
  }

  lemma ShareAtLeast(p: real, x: real, n: real, tol: real)
    requires n > 0.0 && 2.0 * p * x >= tol * n
    ensures 2.0 * Times(p, x / n) >= tol
  {
    DivideBound(tol, 2.0 * p * x, n);
    assert (2.0 * p * x) / n == 2.0 * (p * (x / n));
  }

  lemma TooFewRounds(d: real, iterations: int, tol: real) returns (g: Rows)
    requires 0.0 <= d < 1.0 && iterations > 0 && 0.0 < tol < 2.0 * Pow(d, iterations)
    ensures WellFormed(g) && |g| > 0 && !Solve(g, d, iterations, tol).1
  {
    var len := iterations + 1;
    var m := EnoughLeaves(Pow(d, iterations), tol, len);
    g := Chain(m, len);
    ChainIsWellFormed(m, len);
    LastMoveIsLong(m, len, d, iterations);
    forall k | 0 < k <= iterations ensures RoundMove(g, d, k) >= tol {
      MovesShrink(g, d, k, iterations);
    }
    RoundsRunOut(g, d, tol, 0, iterations);
  }

  /** Without rounds, or with a tolerance that no distance is below. */
  lemma NoWayOut(d: real, iterations: int, tol: real) returns (g: Rows)
    requires iterations <= 0 || tol <= 0.0
    ensures WellFormed(g) && |g| > 0 && !Solve(g, d, iterations, tol).1
  {
    g := Chain(0, 1);
    ChainIsWellFormed(0, 1);
    forall k | 0 < k <= Rounds(iterations) ensures RoundMove(g, d, k) >= tol {
      L1Properties(Iterate(g, d, k), Iterate(g, d, k - 1));
    }
    RoundsRunOut(g, d, tol, 0, Rounds(iterations));
  }

  // ---- The exact condition ----

  ghost predicate AlwaysConverges(d: real, iterations: int, tol: real) {
    forall g :: WellFormed(g) && |g| > 0 ==> Solve(g, d, iterations, tol).1
  }

  predicate RoundsSuffice(d: real, iterations: int, tol: real) {
    iterations > 0 && tol > 0.0 && 2.0 * Pow(d, iterations) <= tol
  }

  /** The loop leaves by its tolerance test on every graph exactly if 2 * d^iterations is within the tolerance. */
  lemma AlwaysConvergesIff(d: real, iterations: int, tol: real)
    requires 0.0 <= d < 1.0
    ensures AlwaysConverges(d, iterations, tol) <==> RoundsSuffice(d, iterations, tol)
  {
    if RoundsSuffice(d, iterations, tol) {
      forall g | WellFormed(g) && |g| > 0 ensures Solve(g, d, iterations, tol).1 {
        EnoughRounds(g, d, iterations, tol);
      }
    } else if iterations <= 0 || tol <= 0.0 {
      var g := NoWayOut(d, iterations, tol);
    } else {
      var g := TooFewRounds(d, iterations, tol);
    }
  }

  /** What the parameters alone promise of the scores. */
  function PromisedError(d: real, iterations: int, tol: real): real
    requires 0.0 <= d < 1.0
  {
    var early, late := ErrorLimit(d, iterations, tol, true), ErrorLimit(d, iterations, tol, false);
    if RoundsSuffice(d, iterations, tol) || early >= late then early else late
  }

  lemma ErrorIsPromised(g: Rows, d: real, iterations: int, tol: real, p: seq<real>)
    requires WellFormed(g) && |g| > 0 && 0.0 <= d < 1.0 && IsFixedPoint(g, d, p)
    ensures L1(Solve(g, d, iterations, tol).0, p) <= PromisedError(d, iterations, tol)
  {
    ErrorBound(g, d, iterations, tol, p);
    if RoundsSuffice(d, iterations, tol) {
      EnoughRounds(g, d, iterations, tol);
    }
  }

  // ---- The default parameters ----

  const DAMPING: real := 0.85
  const ITERATIONS: nat := 50
  const TOLERANCE: real := 0.000001

  lemma PowAdds(x: real, j: nat, k: nat, lo: real, hi: real, low: real, high: real)
    requires 0.0 <= lo <= Pow(x, j) <= hi && 0.0 <= low <= Pow(x, k) <= high
    ensures lo * low <= Pow(x, j + k) <= hi * high
  {
    PowSum(x, j, k);
    ProductsBetween(Pow(x, j), Pow(x, k), lo, hi, low, high);
  }

  lemma {:induction false} PowSum(x: real, j: nat, k: nat)
    ensures Pow(x, j + k) == Times(Pow(x, j), Pow(x, k))
  {
    if j > 0 {
      PowSum(x, j - 1, k);
      Regroup(x, Pow(x, j - 1), Pow(x, k));
    }
  }

  lemma ProductsBetween(x: real, y: real, lo: real, hi: real, low: real, high: real)
    requires 0.0 <= lo <= x <= hi && 0.0 <= low <= y <= high
    ensures lo * low <= Times(x, y) <= hi * high
  {
    ProductNonNegative(x - lo, low);
    ProductNonNegative(x, y - low);
    ProductNonNegative(hi - x, high);
    ProductNonNegative(x, high - y);
    assert (x - lo) * low == x * low - lo * low && x * (y - low) == x * y - x * low;
    assert (hi - x) * high == hi * high - x * high && x * (high - y) == x * high - x * y;
  }

  lemma FiftiethPower()
    ensures 0.00029 <= Pow(DAMPING, ITERATIONS) <= 0.0003
  {
    var x := DAMPING;
    assert Pow(x, 0) == 1.0 && Pow(x, 1) == 0.85 && Pow(x, 2) == 0.7225;
    PowAdds(x, 2, 2, 0.7225, 0.7225, 0.7225, 0.7225);
    PowAdds(x, 4, 4, 0.522, 0.5221, 0.522, 0.5221);
    PowAdds(x, 8, 8, 0.2724, 0.2726, 0.2724, 0.2726);
    PowAdds(x, 16, 16, 0.0742, 0.07432, 0.0742, 0.07432);
    PowAdds(x, 32, 16, 0.0055, 0.005524, 0.0742, 0.07432);
    PowAdds(x, 48, 2, 0.000408, 0.00041055, 0.7225, 0.7225);
  }

  /**
   Fifty rounds are too few to reach the default tolerance on every graph, but
   enough for scores within 0.0006 of the exact ones on every graph.
   */
  lemma DefaultParameters()
    ensures !AlwaysConverges(DAMPING, ITERATIONS, TOLERANCE)
    ensures PromisedError(DAMPING, ITERATIONS, TOLERANCE) <= 0.0006
  {
    FiftiethPower();
    AlwaysConvergesIff(DAMPING, ITERATIONS, TOLERANCE);
  }
}
