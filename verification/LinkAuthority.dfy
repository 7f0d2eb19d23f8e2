/**
 The authority that the retriever boosts by: the logarithm of the stored
 PageRank. The logarithm is an arbitrary function; what is used of it is that
 it is monotone and not negative.
 */
module LinkAuthority {
  import opened Documents
  import opened HybridRetrieval
  import opened LinkGraphs
  import opened PageRank

  /** What log_score answers for each URL, from the stored scores. */
  function LogScores(nodes: map<string, nat>, scores: map<nat, real>, log1p: real -> real): string -> real {
    (url: string) => log1p(Magnified(StoredScore(nodes, scores, url)))
  }

  ghost predicate GrowsFromZero(f: real -> real) {
    forall x, y :: 0.0 <= x <= y ==> 0.0 <= f(x) <= f(y)
  }

  lemma StoredScoresAreNotNegative(g: LinkGraph, url: string)
    requires g.Valid() && !g.dirty && 0.0 <= g.damping < 1.0
    ensures StoredScore(g.urlToId, g.scores, url) >= 0.0
  {
    if url in g.urlToId {
      var rank, exact := StoredScoresAreAccurate(g);
      TeleportTotal(g.damping, g.NodeCount());
      assert rank[g.urlToId[url]] >= Teleport(g.damping, g.NodeCount());
    }
  }

  lemma MoreRankMoreAuthority(nodes: map<string, nat>, scores: map<nat, real>, log1p: real -> real, u: string,
                              v: string)
    requires GrowsFromZero(log1p) && StoredScore(nodes, scores, u) >= StoredScore(nodes, scores, v) >= 0.0
    ensures LogScores(nodes, scores, log1p)(u) >= LogScores(nodes, scores, log1p)(v) >= 0.0
  {
    var x, y := Magnified(StoredScore(nodes, scores, u)), Magnified(StoredScore(nodes, scores, v));
    assert 0.0 <= y <= x;
  }

  /**
   From both indices and the link graph to the final score: a document ranked at
   least as well in both lists, with at least as high a PageRank, scores at least
   as high.
   */
  lemma DominanceInRanksAndLinks(g: LinkGraph, log1p: real -> real, bm25Hits: seq<Hit>, denseHits: seq<Hit>, w: Weights,
                                 alpha: real, x: nat, y: nat)
    requires g.Valid() && !g.dirty && 0.0 <= g.damping < 1.0 && GrowsFromZero(log1p)
    requires NoRepeats(bm25Hits, denseHits) && w.bm25 > 0.0 && w.dense > 0.0 && alpha > 0.0
    requires (x in Ids(bm25Hits) || x in Ids(denseHits)) && (y in Ids(bm25Hits) || y in Ids(denseHits))
    requires AtLeastAsWell(FirstPlace(bm25Hits, x), FirstPlace(bm25Hits, y))
    requires AtLeastAsWell(FirstPlace(denseHits, x), FirstPlace(denseHits, y))
    requires StoredScore(g.urlToId, g.scores, MetaFor(bm25Hits, denseHits, x).url)
          >= StoredScore(g.urlToId, g.scores, MetaFor(bm25Hits, denseHits, y).url)
    ensures var authority := LogScores(g.urlToId, g.scores, log1p);
            FinalScore(Boosted(ResultFor(bm25Hits, denseHits, w, x), alpha, authority))
            >= FinalScore(Boosted(ResultFor(bm25Hits, denseHits, w, y), alpha, authority))
  {
    var u, v := MetaFor(bm25Hits, denseHits, x).url, MetaFor(bm25Hits, denseHits, y).url;
    StoredScoresAreNotNegative(g, v);
    MoreRankMoreAuthority(g.urlToId, g.scores, log1p, u, v);
    DominanceSurvivesBoost(bm25Hits, denseHits, w, x, y, alpha, LogScores(g.urlToId, g.scores, log1p));
  }
}
