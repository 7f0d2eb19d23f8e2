/**
 From one fixed ranking to a page: the window of candidates, the neural
 filter, the reranker, and the final slice. The filter's test and the
 reranker's score are arbitrary functions of a result.
 */
module Pagination {
  import opened Common
  import opened Documents
  import opened HybridRetrieval
  import opened Ranking
  import opened TopK

  datatype PageRequest = PageRequest(topK: nat, offset: nat, rerank: bool, neuralFilter: bool) {
    function Window(): nat {
      offset + topK
    }

    /** How many results the retriever is asked for. */
    function Fetched(): nat {
      if rerank then Window() * 5 else Window()
    }
  }

  datatype Models = Models(passes: SearchResult -> bool, score: SearchResult -> real)

  function WithScores(results: seq<SearchResult>, score: SearchResult -> real): (scored: seq<SearchResult>)
    ensures |scored| == |results|
  {
    seq(|results|, i requires 0 <= i < |results| => results[i].(rerankScore := Some(score(results[i]))))
  }

  function RerankKey(r: SearchResult): real {
    if r.rerankScore.Some? then r.rerankScore.value else 0.0
  }

  /** xs[i:j] with non-negative bounds. */
  function Slice<T>(xs: seq<T>, i: nat, j: nat): seq<T> {
    if i <= j <= |xs| then xs[i..j]
    else if i <= |xs| < j then xs[i..]
    else []
  }

  // ---- The stages ----

  method NeuralFilter(results: seq<SearchResult>, passes: SearchResult -> bool) returns (passed: seq<SearchResult>)
    ensures passed == Select(results, passes)
  {
    passed := [];
    var i := 0;
    while i < |results|
      invariant 0 <= i <= |results| && passed == Select(results[..i], passes)
    {
      assert results[..i + 1] == results[..i] + [results[i]];
      SelectConcat(results[..i], [results[i]], passes);
      if passes(results[i]) {
        passed := passed + [results[i]];
      }
      i := i + 1;
    }
    assert results[..i] == results;
  }

  method Rerank(results: seq<SearchResult>, score: SearchResult -> real, topK: nat)
    returns (reranked: seq<SearchResult>)
    ensures reranked == if topK == 0 then SortDescending(WithScores(results, score), RerankKey)
                        else Prefix(SortDescending(WithScores(results, score), RerankKey), topK)
  {
    reranked := results;
    var i := 0;
    while i < |results|
      invariant 0 <= i <= |results| == |reranked|
      invariant forall j :: 0 <= j < i ==> reranked[j] == WithScores(results, score)[j]
      invariant forall j :: i <= j < |results| ==> reranked[j] == results[j]
    {
      reranked := reranked[i := reranked[i].(rerankScore := Some(score(reranked[i])))];
      i := i + 1;
    }
    assert reranked == WithScores(results, score);
    reranked := SortDescending(reranked, RerankKey);
    if topK != 0 {
      reranked := Prefix(reranked, topK);
    }
  }

  /** The page that a request gets from the retriever's candidates. */
  method PageOf(candidates: seq<SearchResult>, req: PageRequest, models: Models) returns (page: seq<SearchResult>)
    requires req.topK >= 1
    ensures page == Slice(Order(Passed(candidates, req, models), req, models), req.offset, req.Window())
  {
    if candidates == [] {
      return [];
    }
    page := candidates;
    if req.neuralFilter {
      page := NeuralFilter(page, models.passes);
    }
    if req.rerank && page != [] {
      page := Rerank(page, models.score, req.Window());
    } else {
      page := Prefix(page, req.Window());
    }
    page := Slice(page, req.offset, req.Window());
  }

  function Passed(results: seq<SearchResult>, req: PageRequest, models: Models): seq<SearchResult> {
    if req.neuralFilter then Select(results, models.passes) else results
  }

  function Order(results: seq<SearchResult>, req: PageRequest, models: Models): seq<SearchResult> {
    if req.rerank then SortDescending(WithScores(results, models.score), RerankKey) else results
  }

  /** The page served from a ranking. */
  function Page(ranking: seq<SearchResult>, req: PageRequest, models: Models): seq<SearchResult> {
    Slice(Order(Passed(Prefix(ranking, req.Fetched()), req, models), req, models), req.offset, req.Window())
  }

  /** The whole ranking filtered and reranked: what pages ought to be slices of. */
  function FullOrder(ranking: seq<SearchResult>, req: PageRequest, models: Models): seq<SearchResult> {
    Order(Passed(ranking, req, models), req, models)
  }

  function DocIds(results: seq<SearchResult>): seq<nat> {
    seq(|results|, i requires 0 <= i < |results| => results[i].docId)
  }

  /** The documents that the request's candidates contain. */
  function Among(ids: seq<nat>): SearchResult -> bool {
    (r: SearchResult) => r.docId in ids
  }

  // ---- Selecting from a sorted list ----

  function HeldBy<T>(key: T -> real, v: real): T -> bool {
    (x: T) => key(x) == v
  }

  lemma {:induction false} TiedIsSelection<T>(xs: seq<T>, key: T -> real, v: real)
    ensures Tied(xs, key, v) == Select(xs, HeldBy(key, v))
  {
    if xs != [] {
      TiedIsSelection(xs[1..], key, v);
    }
  }

  lemma TiedAfterSelect<T>(xs: seq<T>, key: T -> real, v: real, test: T -> bool)
    ensures Tied(Select(xs, test), key, v) == Select(Tied(xs, key, v), test)
  {
    TiedIsSelection(xs, key, v);
    TiedIsSelection(Select(xs, test), key, v);
    SelectCommutes(xs, test, HeldBy(key, v));
  }

  lemma {:induction false} SelectKeepsOrder<T>(xs: seq<T>, key: T -> real, test: T -> bool)
    requires Descending(xs, key)
    ensures Descending(Select(xs, test), key)
  {
    if xs != [] {
      SelectKeepsOrder(xs[1..], key, test);
      SelectMembers(xs[1..], test);
      var rest := Select(xs[1..], test);
      forall k | 0 <= k < |rest| ensures key(xs[0]) >= key(rest[k]) {
        assert rest[k] in rest;
        var m :| 0 <= m < |xs[1..]| && xs[1..][m] == rest[k];
        assert xs[m + 1] == rest[k];
      }
    }
  }

  /** A stable sort commutes with leaving elements out. */
  lemma SortSelect<T>(xs: seq<T>, key: T -> real, test: T -> bool)
    ensures SortDescending(Select(xs, test), key) == Select(SortDescending(xs, key), test)
  {
    var a, b := SortDescending(Select(xs, test), key), Select(SortDescending(xs, key), test);
    SortSorts(Select(xs, test), key);
    SortSorts(xs, key);
    SelectKeepsOrder(SortDescending(xs, key), key, test);
    forall v ensures Tied(a, key, v) == Tied(b, key, v) {
      TiedAfterSelect(xs, key, v, test);
      TiedAfterSelect(SortDescending(xs, key), key, v, test);
      assert Tied(xs, key, v) == Tied(SortDescending(xs, key), key, v);
      assert Tied(Select(xs, test), key, v) == Tied(a, key, v);
    }
    StableSortIsUnique(a, b, key);
  }

  lemma {:induction false} SelectAll<T>(xs: seq<T>, test: T -> bool)
    requires forall i :: 0 <= i < |xs| ==> test(xs[i])
    ensures Select(xs, test) == xs
  {
    if xs != [] {
      SelectAll(xs[1..], test);
    }
  }

  lemma {:induction false} SelectNone<T>(xs: seq<T>, test: T -> bool)
    requires forall i :: 0 <= i < |xs| ==> !test(xs[i])
    ensures Select(xs, test) == []
  {
    if xs != [] {
      SelectNone(xs[1..], test);
    }
  }

  lemma {:induction false} SelectShorter<T>(xs: seq<T>, test: T -> bool, j: nat)
    requires j < |xs| && !test(xs[j])
    ensures |Select(xs, test)| < |xs|
  {
    SelectMembers(xs[1..], test);
    if j > 0 {
      SelectShorter(xs[1..], test, j - 1);
    }
  }

  lemma {:induction false} SelectCommutes<T>(xs: seq<T>, a: T -> bool, b: T -> bool)
    ensures Select(Select(xs, a), b) == Select(Select(xs, b), a)
  {
    if xs != [] {
      SelectCommutes(xs[1..], a, b);
      SelectHead(xs, a, b);
      SelectHead(xs, b, a);
    }
  }

  lemma SelectHead<T>(xs: seq<T>, a: T -> bool, b: T -> bool)
    requires xs != []
    ensures Select(Select(xs, a), b)
         == if a(xs[0]) && b(xs[0]) then [xs[0]] + Select(Select(xs[1..], a), b) else Select(Select(xs[1..], a), b)
  {
    var rest := Select(xs[1..], a);
    if a(xs[0]) {
      assert Select(xs, a) == [xs[0]] + rest && ([xs[0]] + rest)[1..] == rest;
    } else {
      assert Select(xs, a) == rest;
    }
  }

  /** The first to be kept is not the first of the list unless it passes; later ones never are. */
  lemma LaterIsNotFirst<T>(xs: seq<T>, test: T -> bool, i: nat)
    requires Distinct(xs) && xs != [] && 1 <= i < |Select(xs, test)|
    ensures Select(xs, test)[i] != xs[0]
  {
    var rest := Select(xs[1..], test);
    SelectMembers(xs[1..], test);
    assert Select(xs, test)[i] in rest;
    assert xs[0] !in xs[1..];
  }

  /**
   A slice survives leaving elements out exactly when it was empty anyway or
   everything up to its end stayed.
   */
  lemma SliceOfSelection<T>(xs: seq<T>, test: T -> bool, o: nat, w: nat)
    requires Distinct(xs) && o < w
    ensures Slice(Select(xs, test), o, w) == Slice(xs, o, w)
        <==> |xs| <= o || forall i :: 0 <= i < Min(w, |xs|) ==> test(xs[i])
  {
    if |xs| <= o {
      SelectMembers(xs, test);
    } else if j: nat :| j < Min(w, |xs|) && !test(xs[j]) {
      LostElementShows(xs, test, o, w, j);
    } else {
      KeptSlice(xs, test, o, w);
    }
  }

  lemma KeptSlice<T>(xs: seq<T>, test: T -> bool, o: nat, w: nat)
    requires forall i :: 0 <= i < Min(w, |xs|) ==> test(xs[i])
    ensures Slice(Select(xs, test), o, w) == Slice(xs, o, w)
  {
    var m := Min(w, |xs|);
    assert xs == xs[..m] + xs[m..];
    SelectConcat(xs[..m], xs[m..], test);
    SelectAll(xs[..m], test);
    if m == |xs| {
      assert Select(xs, test) == xs;
    } else {
      assert Select(xs, test)[..w] == xs[..w];
    }
  }

  lemma SliceAt<T>(xs: seq<T>, o: nat, w: nat, i: nat)
    requires o <= i < w
    ensures i - o < |Slice(xs, o, w)| <==> i < |xs|
    ensures i < |xs| ==> Slice(xs, o, w)[i - o] == xs[i]
  {
  }

  lemma LostElementShows<T>(xs: seq<T>, test: T -> bool, o: nat, w: nat, j: nat)
    requires Distinct(xs) && o < w && o < |xs| && j < Min(w, |xs|) && !test(xs[j])
    ensures Slice(Select(xs, test), o, w) != Slice(xs, o, w)
  {
    if j >= o {
      LostInside(xs, test, o, w, j);
    } else {
      LostBefore(xs, test, o, j);
      SliceAt(xs, o, w, o);
      SliceAt(Select(xs, test), o, w, o);
    }
  }

  lemma LostInside<T>(xs: seq<T>, test: T -> bool, o: nat, w: nat, j: nat)
    requires Distinct(xs) && o <= j < Min(w, |xs|) && !test(xs[j])
    ensures Slice(Select(xs, test), o, w) != Slice(xs, o, w)
  {
    var kept := Select(xs, test);
    SelectMembers(xs, test);
    SliceAt(xs, o, w, j);
    SliceAt(kept, o, w, j);
    assert xs[j] !in kept;
    if j < |kept| {
      assert kept[j] in kept;
    }
  }

  lemma LostBefore<T>(xs: seq<T>, test: T -> bool, o: nat, j: nat)
    requires Distinct(xs) && j < o < |xs| && !test(xs[j])
    ensures o < |Select(xs, test)| ==> Select(xs, test)[o] != xs[o]
  {
    assert xs == xs[..o] + xs[o..];
    SelectConcat(xs[..o], xs[o..], test);
    SelectShorter(xs[..o], test, j);
    if o < |Select(xs, test)| {
      LaterIsNotFirst(xs[o..], test, o - |Select(xs[..o], test)|);
    }
  }

  // ---- Candidates as a selection of the full order ----

  ghost predicate DistinctIds(results: seq<SearchResult>) {
    forall i, j :: 0 <= i < j < |results| ==> results[i].docId != results[j].docId
  }

  lemma PrefixIsSelection(ranking: seq<SearchResult>, n: nat)
    requires DistinctIds(ranking)
    ensures Prefix(ranking, n) == Select(ranking, Among(DocIds(Prefix(ranking, n))))
  {
    var p := Prefix(ranking, n);
    var rest := ranking[|p|..];
    var among := Among(DocIds(p));
    assert ranking == p + rest;
    SelectConcat(p, rest, among);
    forall i | 0 <= i < |p| ensures among(p[i]) {
      assert DocIds(p)[i] == p[i].docId;
    }
    SelectAll(p, among);
    forall i | 0 <= i < |rest| ensures !among(rest[i]) {
      assert ranking[|p| + i] == rest[i];
    }
    SelectNone(rest, among);
  }

  lemma {:induction false} WithScoresSelect(results: seq<SearchResult>, score: SearchResult -> real, ids: seq<nat>)
    ensures WithScores(Select(results, Among(ids)), score) == Select(WithScores(results, score), Among(ids))
  {
    if results != [] {
      WithScoresSelect(results[1..], score, ids);
      assert WithScores(results, score)[1..] == WithScores(results[1..], score);
      assert WithScores(results, score)[0].docId == results[0].docId;
    }
  }

  /** What a request gets to see is the full order with the unfetched documents left out. */
  lemma CandidateOrder(ranking: seq<SearchResult>, req: PageRequest, models: Models)
    requires DistinctIds(ranking)
    ensures var p := Prefix(ranking, req.Fetched());
            Order(Passed(p, req, models), req, models) == Select(FullOrder(ranking, req, models), Among(DocIds(p)))
  {
    var p := Prefix(ranking, req.Fetched());
    var among := Among(DocIds(p));
    PrefixIsSelection(ranking, req.Fetched());
    SelectCommutes(ranking, models.passes, among);
    assert Passed(p, req, models) == Select(Passed(ranking, req, models), among);
    WithScoresSelect(Passed(ranking, req, models), models.score, DocIds(p));
    SortSelect(WithScores(Passed(ranking, req, models), models.score), RerankKey, among);
  }

  lemma {:induction false} SelectKeepsDistinctIds(results: seq<SearchResult>, test: SearchResult -> bool)
    requires DistinctIds(results)
    ensures DistinctIds(Select(results, test))
  {
    if results != [] {
      SelectKeepsDistinctIds(results[1..], test);
      SelectMembers(results[1..], test);
      var rest := Select(results[1..], test);
      forall k | 0 <= k < |rest| ensures rest[k].docId != results[0].docId {
        assert rest[k] in results[1..];
      }
    }
  }

  lemma FullOrderIsDistinct(ranking: seq<SearchResult>, req: PageRequest, models: Models)
    requires DistinctIds(ranking)
    ensures Distinct(FullOrder(ranking, req, models))
  {
    var passed := Passed(ranking, req, models);
    SelectKeepsDistinctIds(ranking, models.passes);
    assert DistinctIds(passed);
    var scored := WithScores(passed, models.score);
    forall i, j | 0 <= i < j < |scored| ensures scored[i] != scored[j] {
      assert scored[i].docId == passed[i].docId && scored[j].docId == passed[j].docId;
    }
    SortSorts(scored, RerankKey);
    SameMembersDistinct(scored, SortDescending(scored, RerankKey));
  }

  lemma SortKeepsDistinctIds(results: seq<SearchResult>, key: SearchResult -> real)
    requires DistinctIds(results)
    ensures DistinctIds(SortDescending(results, key))
  {
    var sorted := SortDescending(results, key);
    SortSorts(results, key);
    forall i, j | 0 <= i < j < |results| ensures results[i] != results[j] {
      assert results[i].docId != results[j].docId;
    }
    SameMembersDistinct(results, sorted);
    forall i, j | 0 <= i < j < |sorted| ensures sorted[i].docId != sorted[j].docId {
      assert sorted[i] in Members(results) && sorted[j] in Members(results);
      var p :| 0 <= p < |results| && results[p] == sorted[i];
      var q :| 0 <= q < |results| && results[q] == sorted[j];
    }
  }

  /** Every ranking a retrieval cuts its answer from names each document once. */
  lemma FinalRankingHasDistinctIds(bm25Hits: seq<Hit>, denseHits: seq<Hit>, w: Weights, filters: Filters,
                                   alpha: real, authority: Option<Authority>)
    ensures DistinctIds(FinalRanking(bm25Hits, denseHits, w, filters, alpha, authority))
  {
    var fused := Fused(bm25Hits, denseHits, w);
    var kept := Select(fused, filters.Test());
    var boosted := if authority.Some? && alpha > 0.0 then BoostAll(kept, alpha, authority.value) else kept;
    assert DistinctIds(fused) by {
      var ids := FusedIds(bm25Hits, denseHits);
      assert forall i :: 0 <= i < |ids| ==> fused[i].docId == ids[i];
    }
    SelectKeepsDistinctIds(fused, filters.Test());
    assert DistinctIds(boosted) by {
      assert forall i :: 0 <= i < |kept| ==> boosted[i].docId == kept[i].docId;
    }
    SortKeepsDistinctIds(boosted, FinalScore);
  }

  // ---- Pages ----

  ghost predicate WindowIsFetched(ranking: seq<SearchResult>, req: PageRequest, models: Models) {
    var full := FullOrder(ranking, req, models);
    forall i :: 0 <= i < Min(req.Window(), |full|) ==> full[i].docId in DocIds(Prefix(ranking, req.Fetched()))
  }

  /**
   A page is the right slice of the filtered and reranked whole exactly when it
   lies past the end of it, or everything up to the end of the window was
   among the fetched candidates.
   */
  lemma PageIsSliceIff(ranking: seq<SearchResult>, req: PageRequest, models: Models)
    requires DistinctIds(ranking) && req.topK >= 1
    ensures Page(ranking, req, models) == Slice(FullOrder(ranking, req, models), req.offset, req.Window())
        <==> |FullOrder(ranking, req, models)| <= req.offset || WindowIsFetched(ranking, req, models)
  {
    var full := FullOrder(ranking, req, models);
    var ids := DocIds(Prefix(ranking, req.Fetched()));
    CandidateOrder(ranking, req, models);
    FullOrderIsDistinct(ranking, req, models);
    SliceOfSelection(full, Among(ids), req.offset, req.Window());
    assert forall i :: 0 <= i < |full| ==> Among(ids)(full[i]) == (full[i].docId in ids);
  }

  lemma OrderKeepsDocuments(results: seq<SearchResult>, req: PageRequest, models: Models)
    ensures |Order(results, req, models)| == |results|
    ensures forall r :: r in Order(results, req, models) ==> r.docId in DocIds(results)
  {
    var scored := WithScores(results, models.score);
    SortSorts(scored, RerankKey);
    forall r | r in Order(results, req, models) ensures r.docId in DocIds(results) {
      assert r in multiset(if req.rerank then scored else results);
      var i :| 0 <= i < |results| && (if req.rerank then scored else results)[i] == r;
      assert DocIds(results)[i] == r.docId;
    }
  }

  lemma PassedAreMembers(results: seq<SearchResult>, req: PageRequest, models: Models)
    ensures forall d :: d in DocIds(Passed(results, req, models)) ==> d in DocIds(results)
  {
    var passed := Passed(results, req, models);
    SelectMembers(results, models.passes);
    forall d | d in DocIds(passed) ensures d in DocIds(results) {
      var i :| 0 <= i < |passed| && DocIds(passed)[i] == d;
      assert passed[i] in results;
      var k :| 0 <= k < |results| && results[k] == passed[i];
      assert DocIds(results)[k] == d;
    }
  }

  /** Fetching five windows is enough whenever that covers all candidates: pages are then slices of one global order. */
  lemma CoveredPagesAreSlices(ranking: seq<SearchResult>, req: PageRequest, models: Models)
    requires DistinctIds(ranking) && req.topK >= 1 && req.Fetched() >= |ranking|
    ensures Page(ranking, req, models) == Slice(FullOrder(ranking, req, models), req.offset, req.Window())
  {
    assert Prefix(ranking, req.Fetched()) == ranking;
  }

  ghost predicate PageIsSlice(ranking: seq<SearchResult>, req: PageRequest, models: Models) {
    Page(ranking, req, models) == Slice(FullOrder(ranking, req, models), req.offset, req.Window())
  }

  /** All pass, and the one document scores above all others. */
  function Prefers(id: nat): Models {
    Models((r: SearchResult) => true, (r: SearchResult) => if r.docId == id then 1.0 else 0.0)
  }

  /** All pass but the one document. */
  function Drops(id: nat): Models {
    Models((r: SearchResult) => r.docId != id, (r: SearchResult) => 0.0)
  }

  lemma PreferredIsFirst(ranking: seq<SearchResult>, req: PageRequest, k: nat)
    requires req.rerank && k < |ranking|
    ensures var full := FullOrder(ranking, req, Prefers(ranking[k].docId));
            |full| == |ranking| && full[0].docId == ranking[k].docId
  {
    var models := Prefers(ranking[k].docId);
    SelectAll(ranking, models.passes);
    var scored := WithScores(ranking, models.score);
    var full := SortDescending(scored, RerankKey);
    SortSorts(scored, RerankKey);
    assert scored[k] in multiset(full) && full[0] in multiset(scored);
    var i :| 0 <= i < |full| && full[i] == scored[k];
    var j :| 0 <= j < |scored| && scored[j] == full[0];
    assert RerankKey(full[0]) >= RerankKey(full[i]) == 1.0;
  }

  lemma UnfetchedIsNotAmong(ranking: seq<SearchResult>, n: nat, k: nat)
    requires DistinctIds(ranking) && n <= k < |ranking|
    ensures ranking[k].docId !in DocIds(Prefix(ranking, n))
  {
  }

  /** If the reranker prefers an unfetched document, the page is wrong. */
  lemma PreferenceIsMissed(ranking: seq<SearchResult>, req: PageRequest)
    requires DistinctIds(ranking) && req.topK >= 1 && req.rerank && req.Fetched() < |ranking|
    ensures !PageIsSlice(ranking, req, Prefers(ranking[req.Fetched()].docId))
  {
    var k := req.Fetched();
    var models := Prefers(ranking[k].docId);
    PreferredIsFirst(ranking, req, k);
    UnfetchedIsNotAmong(ranking, k, k);
    WindowIsMissed(ranking, req, models, 0);
  }

  lemma DroppedIsFirst(ranking: seq<SearchResult>, req: PageRequest)
    requires DistinctIds(ranking) && ranking != [] && !req.rerank && req.neuralFilter
    ensures FullOrder(ranking, req, Drops(ranking[0].docId)) == ranking[1..]
  {
    var test := Drops(ranking[0].docId).passes;
    forall i | 0 <= i < |ranking[1..]| ensures test(ranking[1..][i]) {
      assert ranking[1..][i] == ranking[i + 1];
    }
    SelectAll(ranking[1..], test);
    assert Select(ranking, test) == Select(ranking[1..], test);
  }

  /** If the filter drops the first candidate, the page is one short. */
  lemma GapIsNotFilled(ranking: seq<SearchResult>, req: PageRequest)
    requires DistinctIds(ranking) && req.topK >= 1 && !req.rerank && req.neuralFilter && req.Fetched() < |ranking|
    ensures !PageIsSlice(ranking, req, Drops(ranking[0].docId))
  {
    var models := Drops(ranking[0].docId);
    var w := req.Window();
    DroppedIsFirst(ranking, req);
    assert ranking[1..][w - 1] == ranking[w];
    UnfetchedIsNotAmong(ranking, w, w);
    WindowIsMissed(ranking, req, models, w - 1);
  }

  lemma WindowIsMissed(ranking: seq<SearchResult>, req: PageRequest, models: Models, i: nat)
    requires DistinctIds(ranking) && req.topK >= 1
    requires req.offset < |FullOrder(ranking, req, models)| && i < Min(req.Window(), |FullOrder(ranking, req, models)|)
    requires FullOrder(ranking, req, models)[i].docId !in DocIds(Prefix(ranking, req.Fetched()))
    ensures !PageIsSlice(ranking, req, models)
  {
    PageIsSliceIff(ranking, req, models);
  }

  /**
   Pages are right whatever the models say exactly if no model is asked or all
   candidates are fetched: a condition on the request alone.
   */
  lemma AlwaysSliceIff(ranking: seq<SearchResult>, req: PageRequest)
    requires DistinctIds(ranking) && req.topK >= 1
    ensures (forall models :: PageIsSlice(ranking, req, models))
       <==> (!req.rerank && !req.neuralFilter) || req.Fetched() >= |ranking|
  {
    if !req.rerank && !req.neuralFilter {
      forall models ensures PageIsSlice(ranking, req, models) {
        PlainPageIsSlice(ranking, req, models);
      }
    } else if req.Fetched() >= |ranking| {
      forall models ensures PageIsSlice(ranking, req, models) {
        CoveredPagesAreSlices(ranking, req, models);
      }
    } else if req.rerank {
      PreferenceIsMissed(ranking, req);
    } else {
      GapIsNotFilled(ranking, req);
    }
  }

  lemma PlainPageIsSlice(ranking: seq<SearchResult>, req: PageRequest, models: Models)
    requires req.topK >= 1 && !req.rerank && !req.neuralFilter
    ensures Page(ranking, req, models) == Slice(ranking, req.offset, req.Window())
  {
  }

  /** The pages of size k from an offset on, one after the other, until the ranking is exhausted. */
  function PlainPages(ranking: seq<SearchResult>, k: nat, offset: nat, models: Models): seq<SearchResult>
    requires k >= 1
    decreases |ranking| - offset
  {
    if offset >= |ranking| then []
    else Page(ranking, PageRequest(k, offset, false, false), models) + PlainPages(ranking, k, offset + k, models)
  }

  /** Without filter and reranker the pages tile the ranking: none lost, none repeated, none out of order. */
  lemma {:induction false} PlainPagesTile(ranking: seq<SearchResult>, k: nat, offset: nat, models: Models)
    requires k >= 1 && offset <= |ranking|
    ensures PlainPages(ranking, k, offset, models) == ranking[offset..]
    decreases |ranking| - offset
  {
    if offset < |ranking| {
      var next := offset + k;
      NextPlainPage(ranking, k, offset, models);
      if next <= |ranking| {
        PlainPagesTile(ranking, k, next, models);
        SliceTiles(ranking, offset, next);
      } else {
        SliceTiles(ranking, offset, next);
      }
    }
  }

  lemma NextPlainPage(ranking: seq<SearchResult>, k: nat, offset: nat, models: Models)
    requires k >= 1 && offset < |ranking|
    ensures PlainPages(ranking, k, offset, models)
         == Slice(ranking, offset, offset + k) + PlainPages(ranking, k, offset + k, models)
    ensures offset + k > |ranking| ==> PlainPages(ranking, k, offset + k, models) == []
  {
    PlainPageIsSlice(ranking, PageRequest(k, offset, false, false), models);
  }

  lemma SliceTiles<T>(xs: seq<T>, o: nat, w: nat)
    requires o <= |xs| && o <= w
    ensures w <= |xs| ==> Slice(xs, o, w) + xs[w..] == xs[o..]
    ensures w > |xs| ==> Slice(xs, o, w) + [] == xs[o..]
  {
  }

  /** Without the reranker a page holds only what belongs there: a prefix of its slice of the fully filtered ranking. */
  lemma FilteredPageIsPrefix(ranking: seq<SearchResult>, req: PageRequest, models: Models)
    requires req.topK >= 1 && !req.rerank
    ensures Page(ranking, req, models) <= Slice(FullOrder(ranking, req, models), req.offset, req.Window())
  {
    var p := Prefix(ranking, req.Window());
    var rest := ranking[|p|..];
    assert ranking == p + rest;
    SelectConcat(p, rest, models.passes);
    assert Passed(p, req, models) <= FullOrder(ranking, req, models);
  }

  lemma FilteredPosition(ranking: seq<SearchResult>, req: PageRequest, models: Models, i: nat)
    requires req.topK >= 1 && !req.rerank && i < |Page(ranking, req, models)|
    ensures i < req.topK && req.offset + i < |Passed(ranking, req, models)|
    ensures Page(ranking, req, models)[i] == Passed(ranking, req, models)[req.offset + i]
  {
    FilteredPageIsPrefix(ranking, req, models);
    assert Page(ranking, req, models)[i] == Slice(Passed(ranking, req, models), req.offset, req.Window())[i];
  }

  /** So pages of one filtered ranking never share a document. */
  lemma FilteredPagesDoNotOverlap(ranking: seq<SearchResult>, first: PageRequest, second: PageRequest, models: Models,
                                  i: nat, j: nat)
    requires DistinctIds(ranking) && first.topK >= 1 && second.topK >= 1
    requires !first.rerank && !second.rerank && first.neuralFilter == second.neuralFilter
    requires first.Window() <= second.offset
    requires i < |Page(ranking, first, models)| && j < |Page(ranking, second, models)|
    ensures Page(ranking, first, models)[i].docId != Page(ranking, second, models)[j].docId
  {
    FilteredPosition(ranking, first, models, i);
    FilteredPosition(ranking, second, models, j);
    SelectKeepsDistinctIds(ranking, models.passes);
    assert DistinctIds(Passed(ranking, first, models));
  }

  // ---- Reranking pages one at a time can repeat and lose documents ----

  lemma {:induction false} SortPutsBestFirst(xs: seq<SearchResult>, best: SearchResult)
    requires Descending(xs, RerankKey)
    requires forall i :: 0 <= i < |xs| ==> RerankKey(best) > RerankKey(xs[i])
    ensures SortDescending(xs + [best], RerankKey) == [best] + xs
  {
    if xs == [] {
      assert xs + [best] == [best] && [best] + xs == [best];
    } else {
      SortPutsBestFirst(xs[1..], best);
      assert (xs + [best])[0] == xs[0] && (xs + [best])[1..] == xs[1..] + [best];
      InsertSecond(xs[0], best, xs[1..]);
      PairThenRest(best, xs);
    }
  }

  lemma PairThenRest<T>(first: T, xs: seq<T>)
    requires xs != []
    ensures [first, xs[0]] + xs[1..] == [first] + xs
  {
  }

  lemma InsertSecond(x: SearchResult, y: SearchResult, ys: seq<SearchResult>)
    requires RerankKey(y) > RerankKey(x) && (ys == [] || RerankKey(ys[0]) <= RerankKey(x))
    ensures Insert(x, [y] + ys, RerankKey) == [y, x] + ys
  {
    assert ([y] + ys)[1..] == ys;
  }

  function RerankedRequest(k: nat, offset: nat): PageRequest {
    PageRequest(k, offset, true, false)
  }

  /** 5k + 1 documents: the reranker prefers the last one to all others, and leaves those in order. */
  ghost predicate BestIsLast(head: seq<SearchResult>, best: SearchResult, k: nat, models: Models) {
    && k >= 1 && |head| == 5 * k && DistinctIds(head + [best])
    && Descending(WithScores(head, models.score), RerankKey)
    && forall i :: 0 <= i < |head| ==> models.score(best) > models.score(head[i])
  }

  lemma FirstReranked(head: seq<SearchResult>, best: SearchResult, k: nat, models: Models)
    requires BestIsLast(head, best, k, models)
    ensures Page(head + [best], RerankedRequest(k, 0), models) == WithScores(head, models.score)[..k]
  {
    var scored := WithScores(head, models.score);
    assert Prefix(head + [best], 5 * k) == head;
    SortSorts(scored, RerankKey);
    StableSortIsUnique(scored, SortDescending(scored, RerankKey), RerankKey);
  }

  lemma LaterReranked(head: seq<SearchResult>, best: SearchResult, k: nat, offset: nat, models: Models)
    requires BestIsLast(head, best, k, models) && offset >= 1
    ensures Page(head + [best], RerankedRequest(k, offset), models)
         == Slice(WithScores([best], models.score) + WithScores(head, models.score), offset, offset + k)
  {
    var scored := WithScores(head, models.score);
    var top := best.(rerankScore := Some(models.score(best)));
    assert Prefix(head + [best], (offset + k) * 5) == head + [best];
    assert WithScores(head + [best], models.score) == scored + [top];
    forall i | 0 <= i < |scored| ensures RerankKey(top) > RerankKey(scored[i]) {
      assert scored[i] == head[i].(rerankScore := Some(models.score(head[i])));
    }
    SortPutsBestFirst(scored, top);
    assert WithScores([best], models.score) == [top];
  }

  /** The second page then repeats the last document of the first. */
  lemma RerankedPagesRepeat(head: seq<SearchResult>, best: SearchResult, k: nat, models: Models)
    requires BestIsLast(head, best, k, models)
    ensures var first := Page(head + [best], RerankedRequest(k, 0), models);
            var second := Page(head + [best], RerankedRequest(k, k), models);
            |first| == |second| == k && first[k - 1] == second[0]
  {
    FirstReranked(head, best, k, models);
    LaterReranked(head, best, k, k, models);
  }

  /** And no page, whatever its offset, shows the best document. */
  lemma RerankedPagesLose(head: seq<SearchResult>, best: SearchResult, k: nat, offset: nat, models: Models)
    requires BestIsLast(head, best, k, models)
    ensures forall r :: r in Page(head + [best], RerankedRequest(k, offset), models) ==> r.docId != best.docId
  {
    var scored := WithScores(head, models.score);
    forall i | 0 <= i < |head| ensures scored[i].docId != best.docId {
      assert (head + [best])[i] == head[i] && (head + [best])[|head|] == best;
    }
    if offset == 0 {
      FirstReranked(head, best, k, models);
    } else {
      LaterReranked(head, best, k, offset, models);
      SliceWithoutFirst(WithScores([best], models.score) + scored, offset, offset + k);
    }
  }

  lemma SliceWithoutFirst<T>(xs: seq<T>, o: nat, w: nat)
    requires xs != [] && o >= 1
    ensures forall x :: x in Slice(xs, o, w) ==> x in xs[1..]
  {
    forall x | x in Slice(xs, o, w) ensures x in xs[1..] {
      var i :| 0 <= i < |Slice(xs, o, w)| && Slice(xs, o, w)[i] == x;
      assert xs[1..][o + i - 1] == x;
    }
  }
}
