/**
 Selecting the best k candidates by score: what it means, the filter-then-sort
 reference, and over-fetching past tombstones.
 Candidates are positions 0..n-1 of a score list.
 */
module TopK {
  import opened Common
  import opened Ranking

  function Min(a: nat, b: nat): nat {
    if a < b then a else b
  }

  ghost function Members<T>(xs: seq<T>): set<T> {
    set x | x in xs
  }

  function Positions(n: nat): (ps: seq<nat>)
    ensures |ps| == n && forall i :: 0 <= i < n ==> ps[i] == i
  {
    seq(n, i requires 0 <= i < n => i)
  }

  ghost function All(n: nat): (s: set<nat>)
    ensures |s| == n
    ensures forall i: nat :: i in s <==> i < n
  {
    if n == 0 then {} else All(n - 1) + {n - 1}
  }

  /** ids are k best of the eligible positions (all, if fewer), best first; ties may fall either way. */
  ghost predicate IsTopK(ids: seq<nat>, scores: seq<real>, eligible: set<nat>, k: nat) {
    && (forall i :: 0 <= i < |ids| ==> ids[i] in eligible && ids[i] < |scores|)
    && Distinct(ids)
    && (forall i, j :: 0 <= i < j < |ids| ==> scores[ids[i]] >= scores[ids[j]])
    && |ids| == Min(k, |eligible|)
    && (forall e, i :: e in eligible && e < |scores| && e !in ids && 0 <= i < |ids| ==> scores[e] <= scores[ids[i]])
  }

  function ScoresOf(ids: seq<nat>, scores: seq<real>): seq<real>
    requires forall i :: 0 <= i < |ids| ==> ids[i] < |scores|
  {
    seq(|ids|, i requires 0 <= i < |ids| => scores[ids[i]])
  }

  lemma {:induction false} DistinctCount<T>(xs: seq<T>)
    requires Distinct(xs)
    ensures |Members(xs)| == |xs|
  {
    if xs != [] {
      var m := |xs| - 1;
      DistinctCount(xs[..m]);
      assert xs == xs[..m] + [xs[m]];
      assert Members(xs) == Members(xs[..m]) + {xs[m]};
    }
  }

  /** A longer duplicate-free list has a member that a shorter list lacks. */
  lemma Pigeonhole<T>(long: seq<T>, short: seq<T>) returns (x: T)
    requires Distinct(long) && Distinct(short) && |long| > |short|
    ensures x in long && x !in short
  {
    DistinctCount(long);
    DistinctCount(short);
    if Members(long) <= Members(short) {
      SubsetCount(Members(long), Members(short));
    }
    x :| x in Members(long) && x !in Members(short);
  }

  lemma AboveIsEarlier(a: seq<nat>, scores: seq<real>, eligible: set<nat>, k: nat, i: nat, x: nat)
    requires IsTopK(a, scores, eligible, k) && i < |a|
    requires x in eligible && x < |scores| && scores[x] > scores[a[i]]
    ensures x in a[..i]
  {
    assert x in a;
    var l :| 0 <= l < |a| && a[l] == x;
    assert l < i;
    assert a[..i][l] == x;
  }

  lemma NotBetter(a: seq<nat>, b: seq<nat>, scores: seq<real>, eligible: set<nat>, k: nat, i: nat)
    requires IsTopK(a, scores, eligible, k) && IsTopK(b, scores, eligible, k) && i < |a|
    ensures scores[b[i]] <= scores[a[i]]
  {
    if scores[b[i]] > scores[a[i]] {
      forall x | x in b[..i + 1] ensures x in a[..i] {
        var j :| 0 <= j < i + 1 && b[j] == x;
        AboveIsEarlier(a, scores, eligible, k, i, x);
      }
      var x := Pigeonhole(b[..i + 1], a[..i]);
    }
  }

  /** Up to ties the answer is unique: any two have the same scores, position by position. */
  lemma TopKScoresAreUnique(a: seq<nat>, b: seq<nat>, scores: seq<real>, eligible: set<nat>, k: nat)
    requires IsTopK(a, scores, eligible, k) && IsTopK(b, scores, eligible, k)
    ensures ScoresOf(a, scores) == ScoresOf(b, scores)
  {
    forall i | 0 <= i < |a| ensures scores[a[i]] == scores[b[i]] {
      NotBetter(a, b, scores, eligible, k, i);
      NotBetter(b, a, scores, eligible, k, i);
    }
  }

  // ---- The reference: filter, then sort, then cut ----

  lemma PositionsAreAll(n: nat)
    ensures Members(Positions(n)) == All(n)
  {
    forall i: nat | i < n ensures i in Positions(n) {
      assert Positions(n)[i] == i;
    }
  }

  function ScoreAt(scores: seq<real>, i: nat): real {
    if i < |scores| then scores[i] else 0.0
  }

  function ByScore(scores: seq<real>): nat -> real {
    (i: nat) => ScoreAt(scores, i)
  }

  function FilterThenSort(scores: seq<real>, eligible: set<nat>, k: nat): seq<nat> {
    Prefix(SortDescending(Select(Positions(|scores|), (i: nat) => i in eligible), ByScore(scores)), k)
  }

  lemma {:induction false} SelectKeepsDistinct<T>(xs: seq<T>, test: T -> bool)
    requires Distinct(xs)
    ensures Distinct(Select(xs, test))
  {
    if xs != [] {
      SelectKeepsDistinct(xs[1..], test);
      SelectMembers(xs[1..], test);
      var rest := Select(xs[1..], test);
      forall j | 0 <= j < |rest| ensures rest[j] != xs[0] {
        assert rest[j] in rest;
        assert rest[j] in Select(xs[1..], test);
      }
    }
  }

  lemma SameMembersDistinct<T>(xs: seq<T>, ys: seq<T>)
    requires multiset(xs) == multiset(ys) && Distinct(xs)
    ensures Distinct(ys) && Members(ys) == Members(xs)
  {
    forall x ensures x in ys <==> x in xs {
      assert x in multiset(xs) <==> x in multiset(ys);
    }
    forall i, j | 0 <= i < j < |ys| ensures ys[i] != ys[j] {
      if ys[i] == ys[j] {
        OccursTwice(ys, i, j);
        OccursOnce(xs, ys[i]);
      }
    }
  }

  lemma OccursTwice<T>(xs: seq<T>, i: nat, j: nat)
    requires i < j < |xs| && xs[i] == xs[j]
    ensures multiset(xs)[xs[i]] >= 2
  {
    assert xs == xs[..i] + [xs[i]] + xs[i + 1..j] + [xs[j]] + xs[j + 1..];
  }

  lemma {:induction false} OccursOnce<T>(xs: seq<T>, x: T)
    requires Distinct(xs)
    ensures multiset(xs)[x] <= 1
  {
    if xs != [] {
      var m := |xs| - 1;
      OccursOnce(xs[..m], x);
      assert xs == xs[..m] + [xs[m]];
      if xs[m] == x {
        assert x !in xs[..m];
        assert x !in multiset(xs[..m]);
      }
    }
  }

  lemma ReferenceIsTopK(scores: seq<real>, eligible: set<nat>, k: nat)
    requires forall e :: e in eligible ==> e < |scores|
    ensures IsTopK(FilterThenSort(scores, eligible, k), scores, eligible, k)
  {
    var kept := Select(Positions(|scores|), (i: nat) => i in eligible);
    var sorted := SortDescending(kept, ByScore(scores));
    SelectKeepsDistinct(Positions(|scores|), (i: nat) => i in eligible);
    SelectMembers(Positions(|scores|), (i: nat) => i in eligible);
    SortSorts(kept, ByScore(scores));
    SameMembersDistinct(kept, sorted);
    DistinctCount(sorted);
    forall e | e in eligible ensures e in sorted {
      assert Positions(|scores|)[e] == e;
      assert e in Positions(|scores|);
      assert e in kept;
      assert e in Members(kept);
      assert e in Members(sorted);
    }
    forall i | 0 <= i < |sorted| ensures sorted[i] in eligible && sorted[i] < |scores| {
      assert sorted[i] in Members(sorted);
      assert sorted[i] in kept;
    }
    assert Members(sorted) == eligible;
    PrefixIsTopK(sorted, scores, eligible, k);
  }

  lemma PrefixIsTopK(sorted: seq<nat>, scores: seq<real>, eligible: set<nat>, k: nat)
    requires Distinct(sorted) && Members(sorted) == eligible && |eligible| == |sorted|
    requires forall i :: 0 <= i < |sorted| ==> sorted[i] < |scores|
    requires Descending(sorted, ByScore(scores))
    ensures IsTopK(Prefix(sorted, k), scores, eligible, k)
  {
    var cut := Prefix(sorted, k);
    assert forall m :: 0 <= m < |cut| ==> cut[m] == sorted[m];
    forall i, j | 0 <= i < j < |sorted| ensures scores[sorted[i]] >= scores[sorted[j]] {
      assert ScoreAt(scores, sorted[i]) >= ScoreAt(scores, sorted[j]);
    }
    forall i | 0 <= i < |cut| ensures cut[i] in eligible {
      assert sorted[i] in Members(sorted);
    }
    forall e, i | e in eligible && e < |scores| && e !in cut && 0 <= i < |cut| ensures scores[e] <= scores[cut[i]] {
      LeftOutIsLater(sorted, |cut|, e, i, scores);
    }
  }

  lemma LeftOutIsLater(sorted: seq<nat>, c: nat, e: nat, i: nat, scores: seq<real>)
    requires i < c <= |sorted| && e in sorted && e !in sorted[..c]
    requires forall l :: 0 <= l < |sorted| ==> sorted[l] < |scores|
    requires forall l, m :: 0 <= l < m < |sorted| ==> scores[sorted[l]] >= scores[sorted[m]]
    ensures scores[e] <= scores[sorted[i]]
  {
    var l :| 0 <= l < |sorted| && sorted[l] == e;
    assert l >= c;
  }

  // ---- Over-fetching past tombstones ----

  /** Not tombstoned, and with a positive score where one is asked for. */
  predicate Passes(scores: seq<real>, dead: set<nat>, positiveOnly: bool, i: nat) {
    i !in dead && (positiveOnly ==> ScoreAt(scores, i) > 0.0)
  }

  ghost function Eligible(scores: seq<real>, dead: set<nat>, positiveOnly: bool): set<nat> {
    set i | i in All(|scores|) && Passes(scores, dead, positiveOnly, i)
  }

  /** The library's selection of the k highest scores, in some order among ties. */
  method ArgTop(scores: seq<real>, k: nat) returns (ids: seq<nat>)
    requires k <= |scores|
    ensures IsTopK(ids, scores, All(|scores|), k) && |ids| == k
  {
    RankedFacts(scores);
    PrefixIsTopK(Ranked(scores), scores, All(|scores|), k);
    ids := Prefix(Ranked(scores), k);
  }

  function Ranked(scores: seq<real>): seq<nat> {
    SortDescending<nat>(Positions(|scores|), ByScore(scores))
  }

  lemma RankedFacts(scores: seq<real>)
    ensures var r := Ranked(scores);
            && Distinct(r) && Members(r) == All(|scores|) && |r| == |scores|
            && Descending(r, ByScore(scores))
            && forall i :: 0 <= i < |r| ==> r[i] < |scores|
  {
    SortSorts<nat>(Positions(|scores|), ByScore(scores));
    SameMembersDistinct<nat>(Positions(|scores|), Ranked(scores));
    PositionsAreAll(|scores|);
    forall i | 0 <= i < |Ranked(scores)| ensures Ranked(scores)[i] < |scores| {
      assert Ranked(scores)[i] in Members(Ranked(scores));
    }
  }

  lemma {:induction false} SelectIsOrdered(ids: seq<nat>, scores: seq<real>, test: nat -> bool)
    requires forall i :: 0 <= i < |ids| ==> ids[i] < |scores|
    requires forall i, j :: 0 <= i < j < |ids| ==> scores[ids[i]] >= scores[ids[j]]
    ensures forall x :: x in Select<nat>(ids, test) ==> x < |scores|
    ensures var r := Select<nat>(ids, test);
            forall i, j :: 0 <= i < j < |r| ==> ScoreAt(scores, r[i]) >= ScoreAt(scores, r[j])
  {
    if ids != [] {
      SelectIsOrdered(ids[1..], scores, test);
      SelectMembers(ids[1..], test);
      var rest := Select<nat>(ids[1..], test);
      forall j | 0 <= j < |rest| ensures ScoreAt(scores, ids[0]) >= ScoreAt(scores, rest[j]) {
        assert rest[j] in rest;
        assert rest[j] in ids[1..];
      }
    }
  }

  function Live(idx: seq<nat>, scores: seq<real>, dead: set<nat>, positiveOnly: bool): seq<nat> {
    Select<nat>(idx, (i: nat) => Passes(scores, dead, positiveOnly, i))
  }

  lemma LiveAppend(idx: seq<nat>, scores: seq<real>, dead: set<nat>, positiveOnly: bool, j: nat)
    requires j < |idx|
    ensures Live(idx[..j + 1], scores, dead, positiveOnly)
         == Live(idx[..j], scores, dead, positiveOnly)
            + if Passes(scores, dead, positiveOnly, idx[j]) then [idx[j]] else []
  {
    assert idx[..j + 1] == idx[..j] + [idx[j]];
    SelectConcat<nat>(idx[..j], [idx[j]], (i: nat) => Passes(scores, dead, positiveOnly, i));
  }

  lemma LiveFacts(idx: seq<nat>, scores: seq<real>, dead: set<nat>, positiveOnly: bool)
    requires Distinct(idx) && forall i :: 0 <= i < |idx| ==> idx[i] < |scores|
    requires forall i, j :: 0 <= i < j < |idx| ==> scores[idx[i]] >= scores[idx[j]]
    ensures var r := Live(idx, scores, dead, positiveOnly);
            && Distinct(r)
            && (forall i :: 0 <= i < |r| ==>
                r[i] in Eligible(scores, dead, positiveOnly) && r[i] in idx && r[i] < |scores|)
            && (forall i, j :: 0 <= i < j < |r| ==> scores[r[i]] >= scores[r[j]])
            && (forall x :: x in idx && Passes(scores, dead, positiveOnly, x) ==> x in r)
  {
    var test: nat -> bool := (i: nat) => Passes(scores, dead, positiveOnly, i);
    var r := Live(idx, scores, dead, positiveOnly);
    SelectKeepsDistinct<nat>(idx, test);
    SelectMembers<nat>(idx, test);
    SelectIsOrdered(idx, scores, test);
    forall i | 0 <= i < |r| ensures r[i] in idx && r[i] < |scores| && Passes(scores, dead, positiveOnly, r[i]) {
      assert r[i] in r;
    }
    forall i, j | 0 <= i < j < |r| ensures scores[r[i]] >= scores[r[j]] {
      assert ScoreAt(scores, r[i]) >= ScoreAt(scores, r[j]);
    }
  }

  /** Wherever the walk along a top list stops, the live ones seen are the best so far. */
  lemma CutIsBest(idx: seq<nat>, scores: seq<real>, dead: set<nat>, positiveOnly: bool, j: nat)
    requires IsTopK(idx, scores, All(|scores|), |idx|) && j <= |idx|
    ensures var r := Live(idx[..j], scores, dead, positiveOnly);
            IsTopK(r, scores, Eligible(scores, dead, positiveOnly), |r|)
  {
    var r, eligible := Live(idx[..j], scores, dead, positiveOnly), Eligible(scores, dead, positiveOnly);
    LiveFacts(idx[..j], scores, dead, positiveOnly);
    forall e, i | e in eligible && e < |scores| && e !in r && 0 <= i < |r| ensures scores[e] <= scores[r[i]] {
      LaterIsNoBetter(idx, scores, j, e, r[i]);
    }
    SelectedCount(r, eligible);
  }

  /** Filtering a top list of k plus the number of tombstones, and stopping at k, gives the k best live ones. */
  lemma OverFetchSuffices(idx: seq<nat>, scores: seq<real>, dead: set<nat>, positiveOnly: bool,
                          tombstones: nat, k: nat, j: nat)
    requires IsTopK(idx, scores, All(|scores|), Min(k + tombstones, |scores|)) && j <= |idx| && k > 0
    requires |dead| <= tombstones
    requires var r := Live(idx[..j], scores, dead, positiveOnly);
             |r| == k || (|r| < k && j == |idx|)
    ensures IsTopK(Live(idx[..j], scores, dead, positiveOnly), scores, Eligible(scores, dead, positiveOnly), k)
  {
    CutIsBest(idx, scores, dead, positiveOnly, j);
    if |Live(idx[..j], scores, dead, positiveOnly)| < k {
      assert idx[..j] == idx;
      AllEligibleFetched(idx, scores, dead, positiveOnly, tombstones, k);
    }
  }

  /** How many candidates are looked at: a slice from minus zero is the whole list. */
  function Fetch(topK: nat, tombstones: nat, n: nat): nat {
    if Min(topK + tombstones, n) == 0 then n else Min(topK + tombstones, n)
  }

  /** The walk tests for the end only after it has taken a candidate. */
  function Limit(topK: nat): nat {
    if topK == 0 then 1 else topK
  }

  /**
   What a search for topK returns: the best topK. Asked for none it returns one
   at most, which is the best, and does return it if nothing was deleted.
   */
  ghost predicate IsBest(ids: seq<nat>, scores: seq<real>, eligible: set<nat>, topK: nat, tombstones: nat) {
    && IsTopK(ids, scores, eligible, |ids|) && |ids| <= Limit(topK)
    && (topK > 0 || tombstones == 0 ==> |ids| == Min(Limit(topK), |eligible|))
  }

  /** For a positive topK that is the best-k answer. */
  lemma BestIsTopK(ids: seq<nat>, scores: seq<real>, eligible: set<nat>, topK: nat, tombstones: nat)
    requires topK > 0
    ensures IsBest(ids, scores, eligible, topK, tombstones) <==> IsTopK(ids, scores, eligible, topK)
  {
  }

  lemma CollectedIsBest(idx: seq<nat>, scores: seq<real>, dead: set<nat>, positiveOnly: bool,
                        tombstones: nat, topK: nat, j: nat)
    requires IsTopK(idx, scores, All(|scores|), Fetch(topK, tombstones, |scores|)) && j <= |idx|
    requires |dead| <= tombstones
    requires var r := Live(idx[..j], scores, dead, positiveOnly);
             |r| == Limit(topK) || (|r| < Limit(topK) && j == |idx|)
    ensures IsBest(Live(idx[..j], scores, dead, positiveOnly), scores, Eligible(scores, dead, positiveOnly), topK,
                tombstones)
  {
    CutIsBest(idx, scores, dead, positiveOnly, j);
    if topK > 0 || tombstones == 0 {
      CollectedIsAll(idx, scores, dead, positiveOnly, tombstones, topK, j);
    }
  }

  lemma CollectedIsAll(idx: seq<nat>, scores: seq<real>, dead: set<nat>, positiveOnly: bool,
                       tombstones: nat, topK: nat, j: nat)
    requires IsTopK(idx, scores, All(|scores|), Fetch(topK, tombstones, |scores|)) && j <= |idx|
    requires |dead| <= tombstones && (topK > 0 || tombstones == 0)
    requires var r := Live(idx[..j], scores, dead, positiveOnly);
             |r| == Limit(topK) || (|r| < Limit(topK) && j == |idx|)
    ensures |Live(idx[..j], scores, dead, positiveOnly)| == Min(Limit(topK), |Eligible(scores, dead, positiveOnly)|)
  {
    if topK > 0 {
      OverFetchSuffices(idx, scores, dead, positiveOnly, tombstones, topK, j);
    } else {
      OverFetchSuffices(idx, scores, dead, positiveOnly, |scores|, 1, j);
    }
  }

  lemma AllEligibleFetched(idx: seq<nat>, scores: seq<real>, dead: set<nat>, positiveOnly: bool,
                           tombstones: nat, k: nat)
    requires IsTopK(idx, scores, All(|scores|), Min(k + tombstones, |scores|))
    requires |dead| <= tombstones && |Live(idx, scores, dead, positiveOnly)| < k
    ensures |Live(idx, scores, dead, positiveOnly)| == |Eligible(scores, dead, positiveOnly)|
  {
    var r, eligible := Live(idx, scores, dead, positiveOnly), Eligible(scores, dead, positiveOnly);
    LiveFacts(idx, scores, dead, positiveOnly);
    forall e | e in eligible ensures e in r {
      if e !in r {
        MissedMeansEnough(idx, scores, dead, positiveOnly, tombstones, k, e);
      }
    }
    assert Members(r) == eligible;
    DistinctCount(r);
  }

  lemma SelectedCount(r: seq<nat>, eligible: set<nat>)
    requires Distinct(r) && forall i :: 0 <= i < |r| ==> r[i] in eligible
    ensures |r| <= |eligible|
  {
    DistinctCount(r);
    assert Members(r) <= eligible;
    SubsetCount(Members(r), eligible);
  }

  lemma LaterIsNoBetter(idx: seq<nat>, scores: seq<real>, j: nat, e: nat, x: nat)
    requires IsTopK(idx, scores, All(|scores|), |idx|) && j <= |idx| && e < |scores|
    requires e !in idx[..j] && x in idx[..j]
    ensures scores[e] <= scores[x]
  {
    var i :| 0 <= i < j && idx[i] == x;
    if e in idx {
      var l :| 0 <= l < |idx| && idx[l] == e;
      assert l >= j;
    }
  }

  /** An eligible candidate outside the whole fetched list means that k eligible ones were fetched. */
  lemma MissedMeansEnough(idx: seq<nat>, scores: seq<real>, dead: set<nat>, positiveOnly: bool,
                      tombstones: nat, k: nat, e: nat)
    requires IsTopK(idx, scores, All(|scores|), Min(k + tombstones, |scores|))
    requires |dead| <= tombstones && e in Eligible(scores, dead, positiveOnly) && e !in idx
    ensures |Live(idx, scores, dead, positiveOnly)| >= k
  {
    var r := Live(idx, scores, dead, positiveOnly);
    LiveFacts(idx, scores, dead, positiveOnly);
    DistinctCount(idx);
    DistinctCount(r);
    if |idx| == |scores| {
      assert Members(idx) + {e} <= All(|scores|);
      SubsetCount(Members(idx) + {e}, All(|scores|));
    }
    forall x | x in idx && x !in r ensures x in dead {
      var i :| 0 <= i < |idx| && idx[i] == x;
      assert scores[e] <= scores[idx[i]];
    }
    assert Members(idx) <= Members(r) + dead;
    SubsetCount(Members(idx), Members(r) + dead);
  }
}
