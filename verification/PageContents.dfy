/** What a page holds: candidates that the neural filter let pass, with the reranker's scores and in its order. */
module PageContents {
  import opened Common
  import opened Documents
  import opened HybridRetrieval
  import opened Pagination
  import opened Ranking
  import opened TopK

  /** How a candidate appears on a page. */
  function Shown(x: SearchResult, req: PageRequest, models: Models): SearchResult {
    if req.rerank then x.(rerankScore := Some(models.score(x))) else x
  }

  ghost predicate MayBeShown(x: SearchResult, candidates: seq<SearchResult>, req: PageRequest, models: Models) {
    x in candidates && (req.neuralFilter ==> models.passes(x))
  }

  lemma PassedIff(candidates: seq<SearchResult>, req: PageRequest, models: Models, x: SearchResult)
    ensures x in Passed(candidates, req, models) <==> MayBeShown(x, candidates, req, models)
  {
    SelectMembers(candidates, models.passes);
  }

  lemma ScoredIff(results: seq<SearchResult>, req: PageRequest, models: Models, r: SearchResult)
    ensures r in Order(results, req, models) <==> exists x :: x in results && r == Shown(x, req, models)
  {
    if req.rerank {
      var scored := WithScores(results, models.score);
      SortSorts(scored, RerankKey);
      assert r in SortDescending(scored, RerankKey) <==> r in multiset(scored);
      if r in scored {
        var i :| 0 <= i < |scored| && scored[i] == r;
        assert results[i] in results && r == Shown(results[i], req, models);
      }
      if x :| x in results && r == Shown(x, req, models) {
        var i :| 0 <= i < |results| && results[i] == x;
        assert scored[i] == r;
      }
    } else if r in results {
      assert r == Shown(r, req, models);
    }
  }

  /** Before it is cut, the order holds exactly the candidates that pass the filter, each with its score. */
  lemma OrderIff(candidates: seq<SearchResult>, req: PageRequest, models: Models, r: SearchResult)
    ensures r in Order(Passed(candidates, req, models), req, models)
       <==> exists x :: MayBeShown(x, candidates, req, models) && r == Shown(x, req, models)
  {
    var passed := Passed(candidates, req, models);
    ScoredIff(passed, req, models, r);
    if x :| x in passed && r == Shown(x, req, models) {
      PassedIff(candidates, req, models, x);
    }
    if x :| MayBeShown(x, candidates, req, models) && r == Shown(x, req, models) {
      PassedIff(candidates, req, models, x);
    }
  }

  lemma SliceHolds<T>(xs: seq<T>, o: nat, w: nat, i: nat)
    requires o <= w && i < |Slice(xs, o, w)|
    ensures o + i < |xs| && o + i < w && Slice(xs, o, w)[i] == xs[o + i]
  {
  }

  /**
   Every result on a page is a fetched candidate that passed the filter, with the
   reranker's score if one was asked.
  */
  lemma PageHoldsPassing(ranking: seq<SearchResult>, req: PageRequest, models: Models, i: nat)
    requires i < |Page(ranking, req, models)|
    ensures exists x :: MayBeShown(x, Prefix(ranking, req.Fetched()), req, models)
                     && Page(ranking, req, models)[i] == Shown(x, req, models)
  {
    var order := Order(Passed(Prefix(ranking, req.Fetched()), req, models), req, models);
    SliceHolds(order, req.offset, req.Window(), i);
    OrderIff(Prefix(ranking, req.Fetched()), req, models, order[req.offset + i]);
  }

  /**
   With the reranker no fetched candidate that passes scores higher than what stands
   before it, on this page or before.
  */
  lemma RerankedPageIsBest(ranking: seq<SearchResult>, req: PageRequest, models: Models, i: nat, x: SearchResult)
    requires req.rerank && i < |Page(ranking, req, models)|
    requires MayBeShown(x, Prefix(ranking, req.Fetched()), req, models)
    ensures var order := Order(Passed(Prefix(ranking, req.Fetched()), req, models), req, models);
            && Page(ranking, req, models)[i].rerankScore.Some?
            && (Shown(x, req, models) in order[..req.offset + i]
                || models.score(x) <= Page(ranking, req, models)[i].rerankScore.value)
  {
    var candidates := Prefix(ranking, req.Fetched());
    var order := Order(Passed(candidates, req, models), req, models);
    var r := Shown(x, req, models);
    SliceHolds(order, req.offset, req.Window(), i);
    OrderIff(candidates, req, models, r);
    SortSorts(WithScores(Passed(candidates, req, models), models.score), RerankKey);
    PageHoldsPassing(ranking, req, models, i);
    BehindIsNoBetter(order, req.offset + i, r);
  }

  lemma BehindIsNoBetter(order: seq<SearchResult>, i: nat, r: SearchResult)
    requires Descending(order, RerankKey) && i < |order| && r in order
    ensures r in order[..i] || RerankKey(r) <= RerankKey(order[i])
  {
    var k :| 0 <= k < |order| && order[k] == r;
    if k < i {
      assert order[..i][k] == r;
    }
  }

  /** How many a request fetches, and how many it shows at most. */
  lemma PageSizes(ranking: seq<SearchResult>, req: PageRequest, models: Models)
    ensures |Page(ranking, req, models)| <= req.topK
    ensures |Prefix(ranking, req.Fetched())|
         == Min(if req.rerank then 5 * (req.offset + req.topK) else req.offset + req.topK, |ranking|)
  {
  }

  /** xs[:k] in Python: the first k, all if there are fewer; a negative k leaves out that many at the end. */
  lemma PrefixHolds<T>(xs: seq<T>, k: int)
    ensures k >= 0 ==> |Prefix(xs, k)| == Min(k, |xs|)
    ensures k < 0 ==> |Prefix(xs, k)| == if |xs| + k >= 0 then |xs| + k else 0
    ensures Prefix(xs, k) == xs[..|Prefix(xs, k)|]
  {
  }
}
