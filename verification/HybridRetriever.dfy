/**
 The hybrid retriever: reciprocal rank fusion of the sparse and dense hits,
 filters, the authority boost, and the final sort. Lower-casing, the extra
 metadata filters and the authority score are arbitrary functions.
 */
module HybridRetrieval {
  import opened Bm25
  import opened Common
  import opened Documents
  import opened Ranking
  import opened VectorStores

  const RRF_K: nat := 60

  datatype SearchResult = SearchResult(
    docId: nat,
    url: string,
    title: string,
    score: real,
    bm25Rank: Option<nat>,
    denseRank: Option<nat>,
    rrfScore: real,
    pagerank: real,
    meta: Metadata,
    rerankScore: Option<real>)

  function FinalScore(r: SearchResult): real {
    if r.rerankScore.Some? then r.rerankScore.value else r.rrfScore
  }

  // ---- Fusion ----

  /** The reciprocal-rank term of a zero-based rank. */
  function Term(weight: real, rank: nat): real {
    weight / (RRF_K + rank + 1) as real
  }

  /** The sum of the terms of all places at which the document stands in a list. */
  function RrfSum(hits: seq<Hit>, weight: real, d: nat): real {
    if hits == [] then 0.0
    else
      var m := |hits| - 1;
      if hits[m].docId == d then RrfSum(hits[..m], weight, d) + Term(weight, m) else RrfSum(hits[..m], weight, d)
  }

  /** The last place of the document in a list, counted from zero. */
  function LastPlace(hits: seq<Hit>, d: nat): (p: Option<nat>)
    ensures p.Some? ==> p.value < |hits| && hits[p.value].docId == d
    ensures p.None? <==> d !in Ids(hits)
  {
    if hits == [] then None
    else
      var m := |hits| - 1;
      IdsSplit(hits);
      if hits[m].docId == d then Some(m) else LastPlace(hits[..m], d)
  }

  function FirstPlace(hits: seq<Hit>, d: nat): (p: Option<nat>)
    ensures p.Some? ==> p.value < |hits| && hits[p.value].docId == d
    ensures p.None? <==> d !in Ids(hits)
  {
    if hits == [] then None
    else
      var m := |hits| - 1;
      IdsSplit(hits);
      var before := FirstPlace(hits[..m], d);
      if before.None? && hits[m].docId == d then Some(m) else before
  }

  lemma IdsSplit(hits: seq<Hit>)
    requires hits != []
    ensures Ids(hits) == Ids(hits[..|hits| - 1]) + [hits[|hits| - 1].docId]
  {
  }

  function RankOf(p: Option<nat>): Option<nat> {
    if p.Some? then Some(p.value + 1) else None
  }

  /** Each id once, in order of first appearance. */
  function Uniq(ids: seq<nat>): (u: seq<nat>)
    ensures Distinct(u) && forall d :: d in u <==> d in ids
  {
    if ids == [] then []
    else
      var m := |ids| - 1;
      var u := Uniq(ids[..m]);
      assert ids == ids[..m] + [ids[m]];
      if ids[m] in u then u else u + [ids[m]]
  }

  datatype Weights = Weights(bm25: real, dense: real)

  /** The metadata a fused document carries: the sparse index's word, or else the first dense hit's. */
  function MetaFor(bm25Hits: seq<Hit>, denseHits: seq<Hit>, d: nat): Metadata
    requires d in Ids(bm25Hits) || d in Ids(denseHits)
  {
    var sparse := LastPlace(bm25Hits, d);
    if sparse.Some? then bm25Hits[sparse.value].meta else denseHits[FirstPlace(denseHits, d).value].meta
  }

  function FusedScore(bm25Hits: seq<Hit>, denseHits: seq<Hit>, w: Weights, d: nat): real {
    RrfSum(bm25Hits, w.bm25, d) + RrfSum(denseHits, w.dense, d)
  }

  /** The fused result of a document that stands in at least one list. */
  function ResultFor(bm25Hits: seq<Hit>, denseHits: seq<Hit>, w: Weights, d: nat): SearchResult
    requires d in Ids(bm25Hits) || d in Ids(denseHits)
  {
    var meta := MetaFor(bm25Hits, denseHits, d);
    var score := FusedScore(bm25Hits, denseHits, w, d);
    SearchResult(d, meta.url, meta.title, score, RankOf(LastPlace(bm25Hits, d)), RankOf(LastPlace(denseHits, d)),
                 score, 0.0, meta, None)
  }

  /** The ids of both lists, each once, in order of first appearance. */
  function FusedIds(bm25Hits: seq<Hit>, denseHits: seq<Hit>): (ids: seq<nat>)
    ensures Distinct(ids) && forall d :: d in ids <==> d in Ids(bm25Hits) || d in Ids(denseHits)
  {
    Uniq(Ids(bm25Hits) + Ids(denseHits))
  }

  function Fused(bm25Hits: seq<Hit>, denseHits: seq<Hit>, w: Weights): seq<SearchResult> {
    var ids := FusedIds(bm25Hits, denseHits);
    seq(|ids|, i requires 0 <= i < |ids| => assert ids[i] in ids; ResultFor(bm25Hits, denseHits, w, ids[i]))
  }

  // The dictionaries that the two loops fill; `order` is the key order of the score dictionary.

  ghost predicate ScoreTable(bm25Hits: seq<Hit>, denseHits: seq<Hit>, w: Weights, order: seq<nat>,
                             scores: map<nat, real>) {
    && order == FusedIds(bm25Hits, denseHits)
    && (forall d :: d in order ==> d in scores)
    && (forall d :: d in scores ==> d in order && scores[d] == FusedScore(bm25Hits, denseHits, w, d))
  }

  ghost predicate MetaTable(bm25Hits: seq<Hit>, denseHits: seq<Hit>, metas: map<nat, Metadata>) {
    && (forall d :: d in Ids(bm25Hits) || d in Ids(denseHits) ==> d in metas)
    && (forall d :: d in metas ==>
          (d in Ids(bm25Hits) || d in Ids(denseHits)) && metas[d] == MetaFor(bm25Hits, denseHits, d))
  }

  ghost predicate RankTable(hits: seq<Hit>, ranks: map<nat, nat>) {
    && (forall d :: d in Ids(hits) ==> d in ranks)
    && (forall d :: d in ranks ==> Some(ranks[d]) == RankOf(LastPlace(hits, d)))
  }

  function Lookup(ranks: map<nat, nat>, d: nat): Option<nat> {
    if d in ranks then Some(ranks[d]) else None
  }

  /** The key order after assigning to key d. */
  function WithKey(order: seq<nat>, scores: map<nat, real>, d: nat): seq<nat> {
    if d in scores then order else order + [d]
  }

  function WithScore(scores: map<nat, real>, d: nat, rrf: real): map<nat, real> {
    scores[d := (if d in scores then scores[d] else 0.0) + rrf]
  }

  function WithDefault(metas: map<nat, Metadata>, d: nat, meta: Metadata): map<nat, Metadata> {
    if d in metas then metas else metas[d := meta]
  }

  function Row(d: nat, scores: map<nat, real>, metas: map<nat, Metadata>,
               bm25Ranks: map<nat, nat>, denseRanks: map<nat, nat>): SearchResult
    requires d in scores && d in metas
  {
    SearchResult(d, metas[d].url, metas[d].title, scores[d], Lookup(bm25Ranks, d), Lookup(denseRanks, d),
                 scores[d], 0.0, metas[d], None)
  }

  lemma RowIsResult(bm25Hits: seq<Hit>, denseHits: seq<Hit>, w: Weights, order: seq<nat>, d: nat,
                    scores: map<nat, real>, metas: map<nat, Metadata>, bm25Ranks: map<nat, nat>,
                    denseRanks: map<nat, nat>)
    requires ScoreTable(bm25Hits, denseHits, w, order, scores) && MetaTable(bm25Hits, denseHits, metas)
    requires RankTable(bm25Hits, bm25Ranks) && RankTable(denseHits, denseRanks)
    requires d in order
    ensures d in Ids(bm25Hits) || d in Ids(denseHits)
    ensures d in scores && d in metas
    ensures Row(d, scores, metas, bm25Ranks, denseRanks) == ResultFor(bm25Hits, denseHits, w, d)
  {
    LookupRank(bm25Hits, bm25Ranks, d);
    LookupRank(denseHits, denseRanks, d);
  }

  lemma LookupRank(hits: seq<Hit>, ranks: map<nat, nat>, d: nat)
    requires RankTable(hits, ranks)
    ensures Lookup(ranks, d) == RankOf(LastPlace(hits, d))
  {
  }

  method CollectResults(order: seq<nat>, scores: map<nat, real>, metas: map<nat, Metadata>,
                        bm25Ranks: map<nat, nat>, denseRanks: map<nat, nat>)
    returns (results: seq<SearchResult>)
    requires forall d :: d in order ==> d in scores && d in metas
    ensures |results| == |order|
    ensures forall i :: 0 <= i < |order| ==> results[i] == Row(order[i], scores, metas, bm25Ranks, denseRanks)
  {
    results := [];
    var i := 0;
    while i < |order|
      invariant 0 <= i <= |order| && |results| == i
      invariant forall j :: 0 <= j < i ==> results[j] == Row(order[j], scores, metas, bm25Ranks, denseRanks)
    {
      results := results + [Row(order[i], scores, metas, bm25Ranks, denseRanks)];
      i := i + 1;
    }
  }

  method RrfFuse(bm25Hits: seq<Hit>, denseHits: seq<Hit>, w: Weights) returns (results: seq<SearchResult>)
    ensures results == Fused(bm25Hits, denseHits, w)
  {
    var order, scores, metas, bm25Ranks := SparseLoop(bm25Hits, w);
    var denseRanks;
    order, scores, metas, denseRanks := DenseLoop(bm25Hits, denseHits, w, order, scores, metas);
    forall d | d in order
      ensures d in Ids(bm25Hits) || d in Ids(denseHits)
      ensures d in scores && d in metas
      ensures Row(d, scores, metas, bm25Ranks, denseRanks) == ResultFor(bm25Hits, denseHits, w, d)
    {
      RowIsResult(bm25Hits, denseHits, w, order, d, scores, metas, bm25Ranks, denseRanks);
    }
    results := CollectResults(order, scores, metas, bm25Ranks, denseRanks);
  }

  method SparseLoop(bm25Hits: seq<Hit>, w: Weights)
    returns (order: seq<nat>, scores: map<nat, real>, metas: map<nat, Metadata>, bm25Ranks: map<nat, nat>)
    ensures ScoreTable(bm25Hits, [], w, order, scores)
    ensures MetaTable(bm25Hits, [], metas) && RankTable(bm25Hits, bm25Ranks)
  {
    order, scores, metas, bm25Ranks := [], map[], map[], map[];
    var rank := 0;
    while rank < |bm25Hits|
      invariant 0 <= rank <= |bm25Hits|
      invariant ScoreTable(bm25Hits[..rank], [], w, order, scores)
      invariant MetaTable(bm25Hits[..rank], [], metas) && RankTable(bm25Hits[..rank], bm25Ranks)
    {
      assert bm25Hits[..rank + 1] == bm25Hits[..rank] + [bm25Hits[rank]];
      order, scores, metas, bm25Ranks :=
        AddSparseHit(bm25Hits[..rank], bm25Hits[rank], rank, w, order, scores, metas, bm25Ranks);
      rank := rank + 1;
    }
    assert bm25Hits[..rank] == bm25Hits;
  }

  /** One turn of the sparse loop. */
  method AddSparseHit(ghost before: seq<Hit>, hit: Hit, rank: nat, w: Weights,
                      order0: seq<nat>, scores0: map<nat, real>, metas0: map<nat, Metadata>, ranks0: map<nat, nat>)
    returns (order: seq<nat>, scores: map<nat, real>, metas: map<nat, Metadata>, bm25Ranks: map<nat, nat>)
    requires rank == |before| && ScoreTable(before, [], w, order0, scores0)
    requires MetaTable(before, [], metas0) && RankTable(before, ranks0)
    ensures ScoreTable(before + [hit], [], w, order, scores)
    ensures MetaTable(before + [hit], [], metas) && RankTable(before + [hit], bm25Ranks)
  {
    var rrf := Term(w.bm25, rank);
    SparseScoreStep(before, hit, w, order0, scores0);
    MetaStep(before, hit, metas0);
    RankStep(before, hit, ranks0);
    order, scores := WithKey(order0, scores0, hit.docId), WithScore(scores0, hit.docId, rrf);
    metas := metas0[hit.docId := hit.meta];
    bm25Ranks := ranks0[hit.docId := rank + 1];
  }

  method DenseLoop(bm25Hits: seq<Hit>, denseHits: seq<Hit>, w: Weights,
                   order0: seq<nat>, scores0: map<nat, real>, metas0: map<nat, Metadata>)
    returns (order: seq<nat>, scores: map<nat, real>, metas: map<nat, Metadata>, denseRanks: map<nat, nat>)
    requires ScoreTable(bm25Hits, [], w, order0, scores0) && MetaTable(bm25Hits, [], metas0)
    ensures ScoreTable(bm25Hits, denseHits, w, order, scores)
    ensures MetaTable(bm25Hits, denseHits, metas) && RankTable(denseHits, denseRanks)
  {
    order, scores, metas, denseRanks := order0, scores0, metas0, map[];
    var rank := 0;
    while rank < |denseHits|
      invariant 0 <= rank <= |denseHits|
      invariant ScoreTable(bm25Hits, denseHits[..rank], w, order, scores)
      invariant MetaTable(bm25Hits, denseHits[..rank], metas) && RankTable(denseHits[..rank], denseRanks)
    {
      assert denseHits[..rank + 1] == denseHits[..rank] + [denseHits[rank]];
      order, scores, metas, denseRanks :=
        AddDenseHit(bm25Hits, denseHits[..rank], denseHits[rank], rank, w, order, scores, metas, denseRanks);
      rank := rank + 1;
    }
    assert denseHits[..rank] == denseHits;
  }

  /** One turn of the dense loop. */
  method AddDenseHit(ghost bm25Hits: seq<Hit>, ghost before: seq<Hit>, hit: Hit, rank: nat, w: Weights,
                     order0: seq<nat>, scores0: map<nat, real>, metas0: map<nat, Metadata>, ranks0: map<nat, nat>)
    returns (order: seq<nat>, scores: map<nat, real>, metas: map<nat, Metadata>, denseRanks: map<nat, nat>)
    requires rank == |before| && ScoreTable(bm25Hits, before, w, order0, scores0)
    requires MetaTable(bm25Hits, before, metas0) && RankTable(before, ranks0)
    ensures ScoreTable(bm25Hits, before + [hit], w, order, scores)
    ensures MetaTable(bm25Hits, before + [hit], metas) && RankTable(before + [hit], denseRanks)
  {
    var rrf := Term(w.dense, rank);
    DenseScoreStep(bm25Hits, before, hit, w, order0, scores0);
    MetaDefaultStep(bm25Hits, before, hit, metas0);
    RankStep(before, hit, ranks0);
    order, scores := WithKey(order0, scores0, hit.docId), WithScore(scores0, hit.docId, rrf);
    metas := WithDefault(metas0, hit.docId, hit.meta);
    denseRanks := ranks0[hit.docId := rank + 1];
  }

  // ---- What one more hit changes ----

  lemma AppendIds(hits: seq<Hit>, hit: Hit)
    ensures Ids(hits + [hit]) == Ids(hits) + [hit.docId]
  {
  }

  lemma AppendUniq(ids: seq<nat>, d: nat)
    ensures Uniq(ids + [d]) == if d in ids then Uniq(ids) else Uniq(ids) + [d]
  {
    assert (ids + [d])[..|ids|] == ids;
  }

  lemma AppendSum(hits: seq<Hit>, hit: Hit, weight: real, d: nat)
    ensures RrfSum(hits + [hit], weight, d)
         == RrfSum(hits, weight, d) + if d == hit.docId then Term(weight, |hits|) else 0.0
  {
    assert (hits + [hit])[..|hits|] == hits;
  }

  lemma AppendPlaces(hits: seq<Hit>, hit: Hit, d: nat)
    ensures LastPlace(hits + [hit], d) == if d == hit.docId then Some(|hits|) else LastPlace(hits, d)
    ensures FirstPlace(hits + [hit], d)
         == if d == hit.docId && d !in Ids(hits) then Some(|hits|) else FirstPlace(hits, d)
  {
    assert (hits + [hit])[..|hits|] == hits;
  }

  lemma AppendSparseId(hits: seq<Hit>, hit: Hit)
    ensures FusedIds(hits + [hit], []) ==
              if hit.docId in Ids(hits) then FusedIds(hits, []) else FusedIds(hits, []) + [hit.docId]
  {
    AppendIds(hits, hit);
    assert Ids(hits) + Ids([]) == Ids(hits);
    assert Ids(hits + [hit]) + Ids([]) == Ids(hits) + [hit.docId];
    AppendUniq(Ids(hits), hit.docId);
  }

  lemma AppendDenseId(bm25Hits: seq<Hit>, hits: seq<Hit>, hit: Hit)
    ensures FusedIds(bm25Hits, hits + [hit]) ==
              if hit.docId in Ids(bm25Hits) || hit.docId in Ids(hits) then FusedIds(bm25Hits, hits)
              else FusedIds(bm25Hits, hits) + [hit.docId]
  {
    AppendIds(hits, hit);
    assert Ids(bm25Hits) + (Ids(hits) + [hit.docId]) == (Ids(bm25Hits) + Ids(hits)) + [hit.docId];
    AppendUniq(Ids(bm25Hits) + Ids(hits), hit.docId);
  }

  /** Assigning to key d extends a score table when the fused lists change at d only, by t. */
  lemma ScoreStep(old1: seq<Hit>, old2: seq<Hit>, new1: seq<Hit>, new2: seq<Hit>, w: Weights,
                  order: seq<nat>, scores: map<nat, real>, d: nat, t: real)
    requires ScoreTable(old1, old2, w, order, scores)
    requires FusedIds(new1, new2)
                 == if d in FusedIds(old1, old2) then FusedIds(old1, old2) else FusedIds(old1, old2) + [d]
    requires forall x :: FusedScore(new1, new2, w, x) == FusedScore(old1, old2, w, x) + if x == d then t else 0.0
    requires d !in FusedIds(old1, old2) ==> FusedScore(old1, old2, w, d) == 0.0
    ensures ScoreTable(new1, new2, w, WithKey(order, scores, d), WithScore(scores, d, t))
  {
  }

  lemma SparseScoreStep(hits: seq<Hit>, hit: Hit, w: Weights, order: seq<nat>, scores: map<nat, real>)
    requires ScoreTable(hits, [], w, order, scores)
    ensures ScoreTable(hits + [hit], [], w, WithKey(order, scores, hit.docId),
                       WithScore(scores, hit.docId, Term(w.bm25, |hits|)))
  {
    AppendSparseId(hits, hit);
    if hit.docId !in FusedIds(hits, []) {
      AbsentSum(hits, w.bm25, hit.docId);
    }
    var t := Term(w.bm25, |hits|);
    forall d
      ensures FusedScore(hits + [hit], [], w, d) == FusedScore(hits, [], w, d) + if d == hit.docId then t else 0.0
    {
      AppendSum(hits, hit, w.bm25, d);
    }
    ScoreStep(hits, [], hits + [hit], [], w, order, scores, hit.docId, t);
  }

  lemma DenseScoreStep(bm25Hits: seq<Hit>, hits: seq<Hit>, hit: Hit, w: Weights, order: seq<nat>,
                       scores: map<nat, real>)
    requires ScoreTable(bm25Hits, hits, w, order, scores)
    ensures ScoreTable(bm25Hits, hits + [hit], w, WithKey(order, scores, hit.docId),
                       WithScore(scores, hit.docId, Term(w.dense, |hits|)))
  {
    AppendDenseId(bm25Hits, hits, hit);
    if hit.docId !in FusedIds(bm25Hits, hits) {
      AbsentSum(bm25Hits, w.bm25, hit.docId);
      AbsentSum(hits, w.dense, hit.docId);
    }
    var t := Term(w.dense, |hits|);
    forall d ensures FusedScore(bm25Hits, hits + [hit], w, d)
                     == FusedScore(bm25Hits, hits, w, d) + if d == hit.docId then t else 0.0
    {
      AppendSum(hits, hit, w.dense, d);
    }
    ScoreStep(bm25Hits, hits, bm25Hits, hits + [hit], w, order, scores, hit.docId, t);
  }

  lemma MetaStep(hits: seq<Hit>, hit: Hit, metas: map<nat, Metadata>)
    requires MetaTable(hits, [], metas)
    ensures MetaTable(hits + [hit], [], metas[hit.docId := hit.meta])
  {
    AppendIds(hits, hit);
    forall d ensures LastPlace(hits + [hit], d) == if d == hit.docId then Some(|hits|) else LastPlace(hits, d) {
      AppendPlaces(hits, hit, d);
    }
  }

  lemma MetaDefaultStep(bm25Hits: seq<Hit>, hits: seq<Hit>, hit: Hit, metas: map<nat, Metadata>)
    requires MetaTable(bm25Hits, hits, metas)
    ensures MetaTable(bm25Hits, hits + [hit], WithDefault(metas, hit.docId, hit.meta))
  {
    AppendIds(hits, hit);
    forall d ensures FirstPlace(hits + [hit], d)
                     == if d == hit.docId && d !in Ids(hits) then Some(|hits|) else FirstPlace(hits, d)
    {
      AppendPlaces(hits, hit, d);
    }
  }

  lemma RankStep(hits: seq<Hit>, hit: Hit, ranks: map<nat, nat>)
    requires RankTable(hits, ranks)
    ensures RankTable(hits + [hit], ranks[hit.docId := |hits| + 1])
  {
    AppendIds(hits, hit);
    forall d ensures LastPlace(hits + [hit], d) == if d == hit.docId then Some(|hits|) else LastPlace(hits, d) {
      AppendPlaces(hits, hit, d);
    }
  }

  lemma {:induction false} AbsentSum(hits: seq<Hit>, weight: real, d: nat)
    requires d !in Ids(hits)
    ensures RrfSum(hits, weight, d) == 0.0
  {
    if hits != [] {
      IdsSplit(hits);
      AbsentSum(hits[..|hits| - 1], weight, d);
    }
  }

  // ---- What fusion promises ----

  /** In a list without repeated ids a document stands at one place, whose term is its whole sum. */
  lemma {:induction false} SumIsTerm(hits: seq<Hit>, weight: real, p: nat)
    requires Distinct(Ids(hits)) && p < |hits|
    ensures RrfSum(hits, weight, hits[p].docId) == Term(weight, p)
    ensures LastPlace(hits, hits[p].docId) == Some(p) == FirstPlace(hits, hits[p].docId)
  {
    var m := |hits| - 1;
    var before := hits[..m];
    IdsSplit(hits);
    assert Ids(before) == Ids(hits)[..m];
    if p == m {
      assert Ids(hits)[m] !in Ids(before);
      AbsentSum(before, weight, hits[p].docId);
    } else {
      assert hits[p] == before[p] && Ids(hits)[p] != Ids(hits)[m];
      SumIsTerm(before, weight, p);
    }
  }

  function TermOf(place: Option<nat>, weight: real): real {
    if place.Some? then Term(weight, place.value) else 0.0
  }

  ghost predicate NoRepeats(bm25Hits: seq<Hit>, denseHits: seq<Hit>) {
    Distinct(Ids(bm25Hits)) && Distinct(Ids(denseHits))
  }

  /** Each document scores exactly the terms of its places: one for each list it is in. */
  lemma ScoreIsSumOfTerms(bm25Hits: seq<Hit>, denseHits: seq<Hit>, w: Weights, d: nat)
    requires NoRepeats(bm25Hits, denseHits)
    ensures FusedScore(bm25Hits, denseHits, w, d)
         == TermOf(FirstPlace(bm25Hits, d), w.bm25) + TermOf(FirstPlace(denseHits, d), w.dense)
  {
    SumOfOneList(bm25Hits, w.bm25, d);
    SumOfOneList(denseHits, w.dense, d);
  }

  lemma SumOfOneList(hits: seq<Hit>, weight: real, d: nat)
    requires Distinct(Ids(hits))
    ensures RrfSum(hits, weight, d) == TermOf(FirstPlace(hits, d), weight)
  {
    var p := FirstPlace(hits, d);
    if p.Some? {
      SumIsTerm(hits, weight, p.value);
    } else {
      AbsentSum(hits, weight, d);
    }
  }

  ghost predicate AtLeastAsWell(a: Option<nat>, b: Option<nat>) {
    b.Some? ==> a.Some? && a.value <= b.value
  }

  lemma BetterRankBetterTerm(weight: real, a: Option<nat>, b: Option<nat>)
    requires weight > 0.0 && AtLeastAsWell(a, b)
    ensures TermOf(a, weight) >= TermOf(b, weight) >= 0.0
  {
    if b.Some? {
      SmallerDivisor(weight, (RRF_K + a.value + 1) as real, (RRF_K + b.value + 1) as real);
    } else if a.Some? {
      SmallerDivisor(weight, (RRF_K + a.value + 1) as real, (RRF_K + a.value + 1) as real);
    }
  }

  lemma SmallerDivisor(x: real, a: real, b: real)
    requires x > 0.0 && 0.0 < a <= b
    ensures x / a >= x / b > 0.0
  {
    var q, r := x / a, x / b;
    assert q * a == x && r * b == x;
  }

  lemma WeakProduct(a: real, b: real, r: real)
    requires a <= b && r >= 0.0
    ensures r * a <= r * b
  {
  }

  /** A document ranked at least as well as another in both lists scores at least as high. */
  lemma RankingInBothDominates(bm25Hits: seq<Hit>, denseHits: seq<Hit>, w: Weights, x: nat, y: nat)
    requires NoRepeats(bm25Hits, denseHits) && w.bm25 > 0.0 && w.dense > 0.0
    requires AtLeastAsWell(FirstPlace(bm25Hits, x), FirstPlace(bm25Hits, y))
    requires AtLeastAsWell(FirstPlace(denseHits, x), FirstPlace(denseHits, y))
    ensures FusedScore(bm25Hits, denseHits, w, x) >= FusedScore(bm25Hits, denseHits, w, y)
  {
    ScoreIsSumOfTerms(bm25Hits, denseHits, w, x);
    ScoreIsSumOfTerms(bm25Hits, denseHits, w, y);
    BetterRankBetterTerm(w.bm25, FirstPlace(bm25Hits, x), FirstPlace(bm25Hits, y));
    BetterRankBetterTerm(w.dense, FirstPlace(denseHits, x), FirstPlace(denseHits, y));
  }

  ghost predicate InBothBy(bm25Hits: seq<Hit>, denseHits: seq<Hit>, d: nat, rank: nat) {
    && FirstPlace(bm25Hits, d).Some? && FirstPlace(bm25Hits, d).value + 1 <= rank
    && FirstPlace(denseHits, d).Some? && FirstPlace(denseHits, d).value + 1 <= rank
  }

  /** With equal weights, standing in both lists at ranks up to K + 1 beats standing in one, whatever the rank there. */
  lemma BothListsBeatOne(bm25Hits: seq<Hit>, denseHits: seq<Hit>, w: Weights, x: nat, y: nat)
    requires NoRepeats(bm25Hits, denseHits) && w.bm25 == w.dense > 0.0
    requires InBothBy(bm25Hits, denseHits, x, RRF_K + 1)
    requires FirstPlace(bm25Hits, y).None? || FirstPlace(denseHits, y).None?
    ensures FusedScore(bm25Hits, denseHits, w, x) > FusedScore(bm25Hits, denseHits, w, y)
  {
    ScoreIsSumOfTerms(bm25Hits, denseHits, w, x);
    ScoreIsSumOfTerms(bm25Hits, denseHits, w, y);
    BetterRankBetterTerm(w.bm25, FirstPlace(bm25Hits, x), Some(RRF_K));
    BetterRankBetterTerm(w.bm25, FirstPlace(denseHits, x), Some(RRF_K));
    BetterRankBetterTerm(w.bm25, Some(0), FirstPlace(bm25Hits, y));
    BetterRankBetterTerm(w.bm25, Some(0), FirstPlace(denseHits, y));
    TwoTermsBeatOne(w.bm25);
  }

  lemma TwoTermsBeatOne(weight: real)
    requires weight > 0.0
    ensures Term(weight, RRF_K) + Term(weight, RRF_K) > Term(weight, 0)
  {
    assert Term(weight, RRF_K) == weight / 121.0;
    assert Term(weight, 0) == weight / 61.0;
  }

  /** The bound K + 1 is tight: rank K + 2 in both lists only ties with rank 1 in one. */
  lemma RankBoundIsTight(bm25Hits: seq<Hit>, denseHits: seq<Hit>, w: Weights, x: nat, y: nat)
    requires NoRepeats(bm25Hits, denseHits) && w.bm25 == w.dense
    requires FirstPlace(bm25Hits, x) == FirstPlace(denseHits, x) == Some(RRF_K + 1)
    requires FirstPlace(bm25Hits, y) == Some(0) && FirstPlace(denseHits, y) == None
    ensures FusedScore(bm25Hits, denseHits, w, x) == FusedScore(bm25Hits, denseHits, w, y)
  {
    ScoreIsSumOfTerms(bm25Hits, denseHits, w, x);
    ScoreIsSumOfTerms(bm25Hits, denseHits, w, y);
    assert Term(w.bm25, RRF_K + 1) == w.bm25 / 122.0 && Term(w.bm25, 0) == w.bm25 / 61.0;
  }

  // ---- Filters ----

  datatype QueryOperators = QueryOperators(site: Option<string>, excludeTerms: seq<string>, mustInclude: seq<string>)

  /** The operators and extra filters that a query comes with; `lower` is lower-casing. */
  datatype Filters = Filters(ops: QueryOperators, extra: Metadata -> bool, lower: string -> string) {
    predicate Site(url: string) {
      ops.site.Some? && ops.site.value != "" ==> Contains(url, ops.site.value)
    }

    predicate Excluded(url: string, title: string) {
      exists i :: 0 <= i < |ops.excludeTerms| &&
        (Contains(url, lower(ops.excludeTerms[i])) || Contains(title, lower(ops.excludeTerms[i])))
    }

    predicate Included(url: string, title: string) {
      forall i :: 0 <= i < |ops.mustInclude| ==> Contains(title + " " + url, lower(ops.mustInclude[i]))
    }

    predicate Keeps(r: SearchResult) {
      var url, title := lower(r.url), lower(r.title);
      Site(url) && !Excluded(url, title) && Included(url, title) && extra(r.meta)
    }

    function Test(): SearchResult -> bool {
      r => Keeps(r)
    }
  }

  method ApplyFilters(results: seq<SearchResult>, filters: Filters) returns (filtered: seq<SearchResult>)
    ensures filtered == Select(results, filters.Test())
  {
    filtered := [];
    var i := 0;
    while i < |results|
      invariant 0 <= i <= |results|
      invariant filtered == Select(results[..i], filters.Test())
    {
      var r := results[i];
      assert results[..i + 1] == results[..i] + [r];
      SelectConcat(results[..i], [r], filters.Test());
      i := i + 1;
      var url, title := filters.lower(r.url), filters.lower(r.title);
      if !filters.Site(url) {
        continue;
      }
      if filters.Excluded(url, title) {
        continue;
      }
      if !filters.Included(url, title) {
        continue;
      }
      if !filters.extra(r.meta) {
        continue;
      }
      filtered := filtered + [r];
    }
    assert results[..i] == results;
  }

  // ---- The authority boost ----

  function BoostedScore(rrf: real, alpha: real, authority: real): real {
    rrf * (1.0 + alpha * authority)
  }

  function Boosted(r: SearchResult, alpha: real, authority: string -> real): SearchResult {
    var rrf := BoostedScore(r.rrfScore, alpha, authority(r.url));
    r.(pagerank := authority(r.url), rrfScore := rrf, score := rrf)
  }

  method PagerankBoost(results: seq<SearchResult>, alpha: real, authority: string -> real)
    returns (boosted: seq<SearchResult>)
    ensures |boosted| == |results|
    ensures forall i :: 0 <= i < |results| ==> boosted[i] == Boosted(results[i], alpha, authority)
  {
    boosted := results;
    var i := 0;
    while i < |results|
      invariant 0 <= i <= |results| == |boosted|
      invariant forall j :: 0 <= j < i ==> boosted[j] == Boosted(results[j], alpha, authority)
      invariant forall j :: i <= j < |results| ==> boosted[j] == results[j]
    {
      var r := boosted[i];
      var pr := authority(r.url);
      var rrf := r.rrfScore * (1.0 + alpha * pr);
      boosted := boosted[i := r.(pagerank := pr, rrfScore := rrf, score := rrf)];
      i := i + 1;
    }
  }

  /** The boost never lowers a score, and keeps a result ahead of one with no more authority. */
  lemma BoostIsMonotone(a: real, b: real, alpha: real, x: real, y: real)
    requires a >= b >= 0.0 && alpha > 0.0 && x >= y >= 0.0
    ensures BoostedScore(a, alpha, x) >= BoostedScore(b, alpha, y) >= b
  {
    WeakProduct(y, x, alpha);
    WeakProduct(0.0, y, alpha);
    var f, g := 1.0 + alpha * x, 1.0 + alpha * y;
    WeakProduct(g, f, a);
    WeakProduct(b, a, g);
    WeakProduct(1.0, g, b);
    assert a * f >= a * g && g * a >= g * b && b * g >= b * 1.0;
  }

  /** Dominance survives the boost when authority agrees with it. */
  lemma DominanceSurvivesBoost(bm25Hits: seq<Hit>, denseHits: seq<Hit>, w: Weights, x: nat, y: nat,
                               alpha: real, authority: string -> real)
    requires NoRepeats(bm25Hits, denseHits) && w.bm25 > 0.0 && w.dense > 0.0 && alpha > 0.0
    requires (x in Ids(bm25Hits) || x in Ids(denseHits)) && (y in Ids(bm25Hits) || y in Ids(denseHits))
    requires AtLeastAsWell(FirstPlace(bm25Hits, x), FirstPlace(bm25Hits, y))
    requires AtLeastAsWell(FirstPlace(denseHits, x), FirstPlace(denseHits, y))
    requires authority(MetaFor(bm25Hits, denseHits, x).url) >= authority(MetaFor(bm25Hits, denseHits, y).url) >= 0.0
    ensures FinalScore(Boosted(ResultFor(bm25Hits, denseHits, w, x), alpha, authority))
         >= FinalScore(Boosted(ResultFor(bm25Hits, denseHits, w, y), alpha, authority))
  {
    RankingInBothDominates(bm25Hits, denseHits, w, x, y);
    ScoreIsSumOfTerms(bm25Hits, denseHits, w, y);
    BetterRankBetterTerm(w.bm25, FirstPlace(bm25Hits, y), FirstPlace(bm25Hits, y));
    BetterRankBetterTerm(w.dense, FirstPlace(denseHits, y), FirstPlace(denseHits, y));
    BoostIsMonotone(FusedScore(bm25Hits, denseHits, w, x), FusedScore(bm25Hits, denseHits, w, y), alpha,
                    authority(MetaFor(bm25Hits, denseHits, x).url), authority(MetaFor(bm25Hits, denseHits, y).url));
  }

  // ---- The retriever ----

  type Authority = string -> real

  function BoostAll(results: seq<SearchResult>, alpha: real, authority: Authority): (boosted: seq<SearchResult>)
    ensures |boosted| == |results|
  {
    seq(|results|, i requires 0 <= i < |results| => Boosted(results[i], alpha, authority))
  }

  /** The whole ranking of which a retrieval returns a prefix. */
  function FinalRanking(bm25Hits: seq<Hit>, denseHits: seq<Hit>, w: Weights, filters: Filters,
                  alpha: real, authority: Option<Authority>): seq<SearchResult>
  {
    var kept := Select(Fused(bm25Hits, denseHits, w), filters.Test());
    var boosted := if authority.Some? && alpha > 0.0 then BoostAll(kept, alpha, authority.value) else kept;
    SortDescending(boosted, FinalScore)
  }

  ghost predicate Names(bm25Hits: seq<Hit>, denseHits: seq<Hit>, r: SearchResult) {
    r.docId in Ids(bm25Hits) || r.docId in Ids(denseHits)
  }

  /** Nothing is ranked that neither index returned, and what is ranked passed the filters; best first. */
  lemma RankedComesFromHits(bm25Hits: seq<Hit>, denseHits: seq<Hit>, w: Weights, filters: Filters,
                            alpha: real, authority: Option<Authority>)
    ensures var ranked := FinalRanking(bm25Hits, denseHits, w, filters, alpha, authority);
            Descending(ranked, FinalScore) && |ranked| <= |FusedIds(bm25Hits, denseHits)|
            && forall r :: r in ranked ==> Names(bm25Hits, denseHits, r) && filters.Keeps(r)
  {
    var fused := Fused(bm25Hits, denseHits, w);
    var kept := Select(fused, filters.Test());
    var boosted := if authority.Some? && alpha > 0.0 then BoostAll(kept, alpha, authority.value) else kept;
    SelectMembers(fused, filters.Test());
    SortSorts(boosted, FinalScore);
    forall r | r in SortDescending(boosted, FinalScore) ensures Names(bm25Hits, denseHits, r) && filters.Keeps(r) {
      assert r in multiset(boosted);
      var i :| 0 <= i < |boosted| && boosted[i] == r;
      assert kept[i] in kept && filters.Test()(kept[i]);
      KeptNames(bm25Hits, denseHits, w, filters, kept[i], r);
    }
  }

  lemma {:induction false} UniqIsShorter(ids: seq<nat>)
    ensures |Uniq(ids)| <= |ids|
  {
    if ids != [] {
      UniqIsShorter(ids[..|ids| - 1]);
    }
  }

  /** A ranking has no more results than both indices gave. */
  lemma RankingIsShort(bm25Hits: seq<Hit>, denseHits: seq<Hit>, w: Weights, filters: Filters,
                       alpha: real, authority: Option<Authority>)
    ensures |FinalRanking(bm25Hits, denseHits, w, filters, alpha, authority)| <= |bm25Hits| + |denseHits|
  {
    RankedComesFromHits(bm25Hits, denseHits, w, filters, alpha, authority);
    UniqIsShorter(Ids(bm25Hits) + Ids(denseHits));
  }

  /** A boost changes neither where a result comes from nor what the filters look at. */
  lemma KeptNames(bm25Hits: seq<Hit>, denseHits: seq<Hit>, w: Weights, filters: Filters, x: SearchResult,
                  r: SearchResult)
    requires x in Fused(bm25Hits, denseHits, w) && filters.Keeps(x)
    requires r.docId == x.docId && r.url == x.url && r.title == x.title && r.meta == x.meta
    ensures Names(bm25Hits, denseHits, r) && filters.Keeps(r)
  {
    FusedNames(bm25Hits, denseHits, w, x);
  }

  lemma FusedNames(bm25Hits: seq<Hit>, denseHits: seq<Hit>, w: Weights, r: SearchResult)
    requires r in Fused(bm25Hits, denseHits, w)
    ensures Names(bm25Hits, denseHits, r)
  {
    var ids := FusedIds(bm25Hits, denseHits);
    var i :| 0 <= i < |ids| && Fused(bm25Hits, denseHits, w)[i] == r;
    assert ids[i] in ids;
  }

  lemma DistinctRowsDistinctIds(docIds: seq<nat>, rows: seq<nat>, hits: seq<Hit>)
    requires Distinct(docIds) && Distinct(rows) && |rows| == |hits|
    requires forall i :: 0 <= i < |hits| ==> rows[i] < |docIds| && hits[i].docId == docIds[rows[i]]
    ensures Distinct(Ids(hits))
  {
    forall i, j | 0 <= i < j < |hits| ensures Ids(hits)[i] != Ids(hits)[j] {
      assert rows[i] != rows[j];
    }
  }

  datatype ProcessedQuery = ProcessedQuery(expanded: string, vector: Vector, filters: Filters)

  class HybridRetriever {
    const bm25: BM25Index
    const vectorStore: VectorStore
    const weights: Weights
    const alpha: real
    const candidateK: nat

    ghost predicate Valid()
      reads bm25, vectorStore
    {
      bm25.Valid() && vectorStore.Valid() && candidateK >= 1
    }

    constructor (bm25: BM25Index, vectorStore: VectorStore, weights: Weights, alpha: real, candidateK: nat)
      requires bm25.Valid() && vectorStore.Valid() && candidateK >= 1
      ensures Valid() && this.bm25 == bm25 && this.vectorStore == vectorStore
      ensures this.weights == weights && this.alpha == alpha && this.candidateK == candidateK
    {
      this.bm25, this.vectorStore, this.weights := bm25, vectorStore, weights;
      this.alpha, this.candidateK := alpha, candidateK;
    }

    /** The first topK of the ranking of what the two indices answer. */
    method Retrieve(query: ProcessedQuery, topK: int, authority: Option<Authority>)
      returns (results: seq<SearchResult>, ghost bm25Hits: seq<Hit>, ghost denseHits: seq<Hit>)
      requires Valid()
      modifies bm25`bm25, bm25`dirty
      ensures Valid()
      ensures results == Prefix(FinalRanking(bm25Hits, denseHits, weights, query.filters, alpha, authority), topK)
      ensures bm25.Answers(query.expanded, candidateK, bm25Hits)
      ensures vectorStore.Answers(query.vector, candidateK, denseHits)
      ensures Distinct(vectorStore.docIds) ==> NoRepeats(bm25Hits, denseHits)
    {
      var bm25Raw := bm25.Search(query.expanded, candidateK);
      var denseRaw := vectorStore.Search(query.vector, candidateK);
      bm25Hits, denseHits := bm25Raw, denseRaw;
      if Distinct(vectorStore.docIds) {
        ghost var rows :| AreRows(vectorStore.Scores(query.vector), vectorStore.docIds, vectorStore.meta,
                                  vectorStore.deleted, candidateK, denseHits, rows);
        DistinctRowsDistinctIds(vectorStore.docIds, rows, denseHits);
      }
      results := FuseAndRank(bm25Raw, denseRaw, weights, query.filters, topK, alpha, authority);
    }
  }

  method FuseAndRank(bm25Raw: seq<Hit>, denseRaw: seq<Hit>, weights: Weights, filters: Filters, topK: int,
                     alpha: real, authority: Option<Authority>)
    returns (results: seq<SearchResult>)
    ensures results == Prefix(FinalRanking(bm25Raw, denseRaw, weights, filters, alpha, authority), topK)
  {
    var fused := RrfFuse(bm25Raw, denseRaw, weights);
    fused := ApplyFilters(fused, filters);
    if authority.Some? && alpha > 0.0 {
      ghost var kept := fused;
      fused := PagerankBoost(fused, alpha, authority.value);
      assert fused == BoostAll(kept, alpha, authority.value);
    }
    results := Prefix(SortDescending(fused, FinalScore), topK);
  }
}
