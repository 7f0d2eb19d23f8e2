/**
 What is in the final ranking and where: exactly the documents of either index
 that pass the filters, each once, boosted if there is an authority, the higher
 final score first and equal scores in order of first appearance.
 */
module RankingContents {
  import opened Bm25
  import opened Common
  import opened Documents
  import opened HybridRetrieval
  import opened Pagination
  import opened Ranking
  import opened VectorStores

  // ---- A fused result ----

  ghost predicate StandsAt(hits: seq<Hit>, d: nat, i: nat) {
    i < |hits| && hits[i].docId == d
  }

  /** One list's share of the score: the weight over sixty plus the rank, counted from one. */
  function ListShare(rank: Option<nat>, weight: real): real {
    if rank.Some? then weight / (60 + rank.value) as real else 0.0
  }

  lemma PlaceIsRank(hits: seq<Hit>, d: nat)
    requires Distinct(Ids(hits))
    ensures var rank := RankOf(LastPlace(hits, d));
            && (forall i: nat :: StandsAt(hits, d, i) ==> rank == Some(i + 1))
            && (d !in Ids(hits) ==> rank == None)
    ensures LastPlace(hits, d) == FirstPlace(hits, d)
  {
    forall i: nat | StandsAt(hits, d, i) ensures LastPlace(hits, d) == Some(i) == FirstPlace(hits, d) {
      SumIsTerm(hits, 1.0, i);
    }
    if d in Ids(hits) {
      var i :| 0 <= i < |hits| && Ids(hits)[i] == d;
      assert StandsAt(hits, d, i);
    }
  }

  lemma TermIsShare(place: Option<nat>, weight: real)
    ensures TermOf(place, weight) == ListShare(RankOf(place), weight)
  {
  }

  /**
   Its ranks are the places in the two lists, its metadata the sparse index's if it has
   any, its score the two shares.
  */
  lemma FusedResultIs(bm25Hits: seq<Hit>, denseHits: seq<Hit>, w: Weights, d: nat)
    requires NoRepeats(bm25Hits, denseHits) && (d in Ids(bm25Hits) || d in Ids(denseHits))
    ensures var r := ResultFor(bm25Hits, denseHits, w, d);
            && r.docId == d && r.url == r.meta.url && r.title == r.meta.title
            && r.pagerank == 0.0 && r.rerankScore == None
            && (forall i: nat :: StandsAt(bm25Hits, d, i) ==> r.bm25Rank == Some(i + 1) && r.meta == bm25Hits[i].meta)
            && (forall i: nat :: StandsAt(denseHits, d, i) ==>
                  r.denseRank == Some(i + 1) && (d !in Ids(bm25Hits) ==> r.meta == denseHits[i].meta))
            && (d !in Ids(bm25Hits) ==> r.bm25Rank == None) && (d !in Ids(denseHits) ==> r.denseRank == None)
            && r.score == r.rrfScore == ListShare(r.bm25Rank, w.bm25) + ListShare(r.denseRank, w.dense)
  {
    PlaceIsRank(bm25Hits, d);
    PlaceIsRank(denseHits, d);
    ScoreIsSumOfTerms(bm25Hits, denseHits, w, d);
    TermIsShare(FirstPlace(bm25Hits, d), w.bm25);
    TermIsShare(FirstPlace(denseHits, d), w.dense);
  }

  // ---- The filters ----

  ghost predicate IsPart(text: string, part: string) {
    exists before, after :: text == before + part + after
  }

  lemma ContainsIff(text: string, part: string)
    ensures Contains(text, part) <==> IsPart(text, part)
  {
    if Contains(text, part) {
      var i :| 0 <= i <= |text| && part <= text[i..];
      assert text == text[..i] + part + text[i + |part|..];
    }
    if IsPart(text, part) {
      var before, after :| text == before + part + after;
      assert text[|before|..] == part + after;
    }
  }

  /** The query's operators: a site in the URL, no excluded term in URL or title, every required one in either. */
  ghost predicate ObeysOperators(filters: Filters, url: string, title: string) {
    var ops, lower := filters.ops, filters.lower;
    && (ops.site.Some? && ops.site.value != "" ==> IsPart(lower(url), ops.site.value))
    && (forall term :: term in ops.excludeTerms ==>
          !IsPart(lower(url), lower(term)) && !IsPart(lower(title), lower(term)))
    && (forall term :: term in ops.mustInclude ==> IsPart(lower(title) + " " + lower(url), lower(term)))
  }

  lemma KeepsIff(filters: Filters, r: SearchResult)
    ensures filters.Keeps(r) <==> ObeysOperators(filters, r.url, r.title) && filters.extra(r.meta)
  {
    var url, title := filters.lower(r.url), filters.lower(r.title);
    if filters.ops.site.Some? {
      ContainsIff(url, filters.ops.site.value);
    }
    ExcludedIff(filters, url, title);
    IncludedIff(filters, url, title);
  }

  lemma ExcludedIff(filters: Filters, url: string, title: string)
    ensures filters.Excluded(url, title) <==>
              exists term :: term in filters.ops.excludeTerms
                && (IsPart(url, filters.lower(term)) || IsPart(title, filters.lower(term)))
  {
    forall term ensures Contains(url, filters.lower(term)) <==> IsPart(url, filters.lower(term)) {
      ContainsIff(url, filters.lower(term));
    }
    forall term ensures Contains(title, filters.lower(term)) <==> IsPart(title, filters.lower(term)) {
      ContainsIff(title, filters.lower(term));
    }
  }

  lemma IncludedIff(filters: Filters, url: string, title: string)
    ensures filters.Included(url, title) <==>
              forall term :: term in filters.ops.mustInclude ==> IsPart(title + " " + url, filters.lower(term))
  {
    forall term ensures Contains(title + " " + url, filters.lower(term))
        <==> IsPart(title + " " + url, filters.lower(term)) {
      ContainsIff(title + " " + url, filters.lower(term));
    }
  }

  // ---- The ranking ----

  /** A score with the share of authority on top. */
  function Raised(rrf: real, alpha: real, pr: real): real {
    rrf * (1.0 + alpha * pr)
  }

  /** A fused result with the share of authority that the boost adds. */
  function WithAuthority(x: SearchResult, alpha: real, authority: Option<Authority>): SearchResult {
    if authority.Some? && alpha > 0.0 then
      var pr := authority.value(x.url);
      var rrf := Raised(x.rrfScore, alpha, pr);
      x.(pagerank := pr, rrfScore := rrf, score := rrf)
    else x
  }

  /** A document of either list whose fused result passes the filters. */
  ghost predicate IsRanked(bm25Hits: seq<Hit>, denseHits: seq<Hit>, w: Weights, filters: Filters, d: nat) {
    && (d in Ids(bm25Hits) || d in Ids(denseHits))
    && ObeysOperators(filters, ResultFor(bm25Hits, denseHits, w, d).url, ResultFor(bm25Hits, denseHits, w, d).title)
    && filters.extra(ResultFor(bm25Hits, denseHits, w, d).meta)
  }

  ghost predicate IsResultOf(bm25Hits: seq<Hit>, denseHits: seq<Hit>, w: Weights, filters: Filters,
                             alpha: real, authority: Option<Authority>, d: nat, r: SearchResult) {
    && IsRanked(bm25Hits, denseHits, w, filters, d)
    && r == WithAuthority(ResultFor(bm25Hits, denseHits, w, d), alpha, authority)
  }

  function Boosts(kept: seq<SearchResult>, alpha: real, authority: Option<Authority>): seq<SearchResult> {
    if authority.Some? && alpha > 0.0 then BoostAll(kept, alpha, authority.value) else kept
  }

  lemma BoostsAt(kept: seq<SearchResult>, alpha: real, authority: Option<Authority>, i: nat)
    requires i < |kept|
    ensures |Boosts(kept, alpha, authority)| == |kept|
    ensures Boosts(kept, alpha, authority)[i] == WithAuthority(kept[i], alpha, authority)
  {
  }

  lemma FusedIff(bm25Hits: seq<Hit>, denseHits: seq<Hit>, w: Weights, x: SearchResult)
    ensures x in Fused(bm25Hits, denseHits, w)
       <==> exists d :: (d in Ids(bm25Hits) || d in Ids(denseHits)) && x == ResultFor(bm25Hits, denseHits, w, d)
  {
    var ids := FusedIds(bm25Hits, denseHits);
    if d :| (d in Ids(bm25Hits) || d in Ids(denseHits)) && x == ResultFor(bm25Hits, denseHits, w, d) {
      assert d in ids;
      var i :| 0 <= i < |ids| && ids[i] == d;
      assert Fused(bm25Hits, denseHits, w)[i] == x;
    }
    if x in Fused(bm25Hits, denseHits, w) {
      var i :| 0 <= i < |ids| && Fused(bm25Hits, denseHits, w)[i] == x;
      assert ids[i] in ids && x == ResultFor(bm25Hits, denseHits, w, ids[i]);
    }
  }

  lemma KeptIff(bm25Hits: seq<Hit>, denseHits: seq<Hit>, w: Weights, filters: Filters, x: SearchResult)
    ensures x in Select(Fused(bm25Hits, denseHits, w), filters.Test())
       <==> exists d :: IsRanked(bm25Hits, denseHits, w, filters, d) && x == ResultFor(bm25Hits, denseHits, w, d)
  {
    SelectMembers(Fused(bm25Hits, denseHits, w), filters.Test());
    FusedIff(bm25Hits, denseHits, w, x);
    KeepsIff(filters, x);
    assert filters.Test()(x) == filters.Keeps(x);
  }

  /**
   The ranking holds a result exactly if it is that of a document of either list
   which passes the filters, boosted by the authority of its URL when there is one.
   */
  lemma RankingIff(bm25Hits: seq<Hit>, denseHits: seq<Hit>, w: Weights, filters: Filters,
                   alpha: real, authority: Option<Authority>, r: SearchResult)
    ensures r in FinalRanking(bm25Hits, denseHits, w, filters, alpha, authority)
       <==> exists d :: IsResultOf(bm25Hits, denseHits, w, filters, alpha, authority, d, r)
  {
    var kept := Select(Fused(bm25Hits, denseHits, w), filters.Test());
    var boosted := Boosts(kept, alpha, authority);
    SortSorts(boosted, FinalScore);
    assert r in FinalRanking(bm25Hits, denseHits, w, filters, alpha, authority) <==> r in multiset(boosted);
    if r in boosted {
      var i :| 0 <= i < |boosted| && boosted[i] == r;
      BoostsAt(kept, alpha, authority, i);
      assert kept[i] in kept;
      KeptIff(bm25Hits, denseHits, w, filters, kept[i]);
      var d :| IsRanked(bm25Hits, denseHits, w, filters, d) && kept[i] == ResultFor(bm25Hits, denseHits, w, d);
      assert IsResultOf(bm25Hits, denseHits, w, filters, alpha, authority, d, r);
    }
    if d :| IsResultOf(bm25Hits, denseHits, w, filters, alpha, authority, d, r) {
      var x := ResultFor(bm25Hits, denseHits, w, d);
      KeptIff(bm25Hits, denseHits, w, filters, x);
      var i :| 0 <= i < |kept| && kept[i] == x;
      BoostsAt(kept, alpha, authority, i);
      assert boosted[i] == r;
    }
  }

  function AuthorityScore(x: SearchResult, alpha: real, authority: Authority): real {
    Raised(x.rrfScore, alpha, authority(x.url))
  }

  lemma RankedScore(bm25Hits: seq<Hit>, denseHits: seq<Hit>, w: Weights, filters: Filters,
                    alpha: real, authority: Authority, r: SearchResult, d: nat)
    requires alpha > 0.0 && r in FinalRanking(bm25Hits, denseHits, w, filters, alpha, Some(authority)) && r.docId == d
    ensures d in Ids(bm25Hits) || d in Ids(denseHits)
    ensures FinalScore(r) == AuthorityScore(ResultFor(bm25Hits, denseHits, w, d), alpha, authority)
  {
    RankedIsDocument(bm25Hits, denseHits, w, filters, alpha, Some(authority), r);
  }

  /** Of two ranked documents the one with the higher score, authority included, stands first. */
  lemma HigherStandsFirst(bm25Hits: seq<Hit>, denseHits: seq<Hit>, w: Weights, filters: Filters,
                          alpha: real, authority: Authority, ranking: seq<SearchResult>, d: nat, e: nat, i: nat, j: nat)
    requires alpha > 0.0 && ranking == FinalRanking(bm25Hits, denseHits, w, filters, alpha, Some(authority))
    requires (d in Ids(bm25Hits) || d in Ids(denseHits)) && (e in Ids(bm25Hits) || e in Ids(denseHits))
    requires i < |ranking| && ranking[i].docId == d && j < |ranking| && ranking[j].docId == e
    requires AuthorityScore(ResultFor(bm25Hits, denseHits, w, d), alpha, authority)
           > AuthorityScore(ResultFor(bm25Hits, denseHits, w, e), alpha, authority)
    ensures i < j
  {
    RankedScore(bm25Hits, denseHits, w, filters, alpha, authority, ranking[i], d);
    RankedScore(bm25Hits, denseHits, w, filters, alpha, authority, ranking[j], e);
    RankedComesFromHits(bm25Hits, denseHits, w, filters, alpha, Some(authority));
    FirstIfHigher(ranking, i, j);
  }

  lemma FirstIfHigher(ranking: seq<SearchResult>, i: nat, j: nat)
    requires Descending(ranking, FinalScore) && i < |ranking| && j < |ranking|
    requires FinalScore(ranking[i]) > FinalScore(ranking[j])
    ensures i < j
  {
  }

  lemma RankedIsDocument(bm25Hits: seq<Hit>, denseHits: seq<Hit>, w: Weights, filters: Filters,
                         alpha: real, authority: Option<Authority>, r: SearchResult)
    requires r in FinalRanking(bm25Hits, denseHits, w, filters, alpha, authority)
    ensures IsResultOf(bm25Hits, denseHits, w, filters, alpha, authority, r.docId, r)
    ensures FinalScore(r) == r.rrfScore
  {
    RankingIff(bm25Hits, denseHits, w, filters, alpha, authority, r);
    var d :| IsResultOf(bm25Hits, denseHits, w, filters, alpha, authority, d, r);
    assert r.docId == d;
  }

  /** Unboosted, the higher fused score stands first. */
  lemma HigherStandsFirstUnboosted(bm25Hits: seq<Hit>, denseHits: seq<Hit>, w: Weights, filters: Filters,
                                   alpha: real, authority: Option<Authority>, i: nat, j: nat)
    requires authority.None? || alpha <= 0.0
    requires var ranking := FinalRanking(bm25Hits, denseHits, w, filters, alpha, authority);
      i < |ranking| && j < |ranking| && ranking[i].rrfScore > ranking[j].rrfScore
    ensures i < j
  {
    var ranking := FinalRanking(bm25Hits, denseHits, w, filters, alpha, authority);
    RankedIsDocument(bm25Hits, denseHits, w, filters, alpha, authority, ranking[i]);
    RankedIsDocument(bm25Hits, denseHits, w, filters, alpha, authority, ranking[j]);
    RankedComesFromHits(bm25Hits, denseHits, w, filters, alpha, authority);
    FirstIfHigher(ranking, i, j);
  }

  // ---- Order of first appearance ----

  /** x first occurs at p, and y not up to there. */
  ghost predicate AppearsBefore(ids: seq<nat>, x: nat, y: nat) {
    exists p :: 0 <= p < |ids| && ids[p] == x && y !in ids[..p]
  }

  lemma AppearsStill(ids: seq<nat>, more: seq<nat>, x: nat, y: nat)
    requires AppearsBefore(ids, x, y)
    ensures AppearsBefore(ids + more, x, y)
  {
    var p :| 0 <= p < |ids| && ids[p] == x && y !in ids[..p];
    assert (ids + more)[..p] == ids[..p] && (ids + more)[p] == x;
  }

  lemma {:induction false} FirstAppearanceOrder(ids: seq<nat>, i: nat, j: nat)
    requires i < j < |Uniq(ids)|
    ensures AppearsBefore(ids, Uniq(ids)[i], Uniq(ids)[j])
  {
    var m := |ids| - 1;
    var u := Uniq(ids[..m]);
    assert ids == ids[..m] + [ids[m]];
    if j < |u| {
      FirstAppearanceOrder(ids[..m], i, j);
      AppearsStill(ids[..m], [ids[m]], u[i], u[j]);
    } else {
      assert u[i] in u && ids[m] !in ids[..m];
      var p :| 0 <= p < m && ids[..m][p] == u[i];
      assert ids[p] == u[i] && ids[m] !in ids[..p];
    }
  }

  /** So the fused results, which a stable sort then orders, come in order of first appearance. */
  lemma FusedInOrder(bm25Hits: seq<Hit>, denseHits: seq<Hit>, w: Weights, i: nat, j: nat)
    requires i < j < |Fused(bm25Hits, denseHits, w)|
    ensures var fused := Fused(bm25Hits, denseHits, w);
            AppearsBefore(Ids(bm25Hits) + Ids(denseHits), fused[i].docId, fused[j].docId)
  {
    FirstAppearanceOrder(Ids(bm25Hits) + Ids(denseHits), i, j);
  }
}
