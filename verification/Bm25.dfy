/**
 The sparse index: staged documents, a scoring object rebuilt lazily, and
 soft deletion. Tokenisation and BM25 scoring are arbitrary functions.
 */
module Bm25 {
  import opened Common
  import opened Documents
  import opened TopK

  type Tokens = seq<string>

  /** Walks the fetched positions best first, skipping tombstones and scores that are not positive. */
  method CollectDocuments(idx: seq<nat>, scores: seq<real>, deleted: set<nat>, metadata: seq<Metadata>, topK: nat)
    returns (hits: seq<Hit>)
    requires |metadata| == |scores|
    requires IsTopK(idx, scores, All(|scores|), Fetch(topK, |deleted|, |scores|))
    ensures IsBest(Ids(hits), scores, Eligible(scores, deleted, true), topK, |deleted|)
    ensures forall i :: 0 <= i < |hits| ==> IsLiveDocument(hits[i], scores, metadata, deleted)
  {
    hits := [];
    ghost var rows: seq<nat> := [];
    var j := 0;
    while j < |idx| && |hits| < Limit(topK)
      invariant 0 <= j <= |idx| && |hits| <= Limit(topK)
      invariant rows == Live(idx[..j], scores, deleted, true) && rows == Ids(hits)
      invariant forall i :: 0 <= i < |hits| ==> IsLiveDocument(hits[i], scores, metadata, deleted)
    {
      var docId := idx[j];
      LiveAppend(idx, scores, deleted, true, j);
      if docId !in deleted && scores[docId] > 0.0 {
        hits := hits + [Hit(docId, scores[docId], metadata[docId])];
        rows := rows + [docId];
      }
      j := j + 1;
    }
    CollectedIsBest(idx, scores, deleted, true, |deleted|, topK, j);
  }

  method PickLive(scores: seq<real>, deleted: set<nat>, metadata: seq<Metadata>, topK: nat) returns (hits: seq<Hit>)
    requires |metadata| == |scores|
    ensures IsBest(Ids(hits), scores, Eligible(scores, deleted, true), topK, |deleted|)
    ensures forall i :: 0 <= i < |hits| ==> IsLiveDocument(hits[i], scores, metadata, deleted)
  {
    var idx := ArgTop(scores, Fetch(topK, |deleted|, |scores|));
    hits := CollectDocuments(idx, scores, deleted, metadata, topK);
  }

  /** A hit is a live document with its score and metadata. */
  ghost predicate IsLiveDocument(hit: Hit, scores: seq<real>, metadata: seq<Metadata>, deleted: set<nat>) {
    && hit.docId < |scores| && hit.docId < |metadata| && hit.docId !in deleted
    && hit == Hit(hit.docId, scores[hit.docId], metadata[hit.docId])
  }

  /** The best topK documents that are live and have a positive score; none for a query without tokens. */
  ghost predicate SparseAnswer(tokens: Tokens, scores: seq<real>, metadata: seq<Metadata>, deleted: set<nat>,
                               topK: nat, hits: seq<Hit>) {
    && (if tokens == [] then hits == []
        else IsBest(Ids(hits), scores, Eligible(scores, deleted, true), topK, |deleted|))
    && forall i :: 0 <= i < |hits| ==> IsLiveDocument(hits[i], scores, metadata, deleted)
  }

  class BM25Index {
    const tokenize: string -> Tokens
    const scorer: (seq<Tokens>, Tokens) -> seq<real>  // scores of a query against a corpus

    var tokenizedCorpus: seq<Tokens>
    var metadata: seq<Metadata>
    var bm25: Option<seq<Tokens>>                     // the corpus the scoring object was built from
    var dirty: bool
    var deleted: set<nat>
    var urlToId: map<string, nat>

    ghost predicate Valid()
      reads this
    {
      && |metadata| == |tokenizedCorpus|
      && (forall d :: d in deleted ==> d < |tokenizedCorpus|)
      && (forall u :: u in urlToId ==> urlToId[u] < |tokenizedCorpus|)
      && (bm25.Some? ==> tokenizedCorpus != [])
      && (!dirty ==> bm25 == if tokenizedCorpus == [] then None else Some(tokenizedCorpus))
      && (forall corpus, query :: |scorer(corpus, query)| == |corpus|)
    }

    constructor (tokenize: string -> Tokens, scorer: (seq<Tokens>, Tokens) -> seq<real>)
      requires forall corpus, query :: |scorer(corpus, query)| == |corpus|
      ensures Valid() && tokenizedCorpus == [] && deleted == {} && urlToId == map[]
      ensures this.tokenize == tokenize && this.scorer == scorer
    {
      this.tokenize, this.scorer := tokenize, scorer;
      tokenizedCorpus, metadata, bm25, dirty, deleted, urlToId := [], [], None, false, {}, map[];
    }

    method Add(text: string, meta: Metadata) returns (docId: nat)
      requires Valid()
      modifies this`tokenizedCorpus, this`metadata, this`dirty, this`urlToId
      ensures Valid() && docId == |old(tokenizedCorpus)|
      ensures tokenizedCorpus == old(tokenizedCorpus) + [tokenize(text)] && metadata == old(metadata) + [meta]
      ensures urlToId == if meta.url == "" then old(urlToId) else old(urlToId)[meta.url := docId]
    {
      docId := |tokenizedCorpus|;
      tokenizedCorpus := tokenizedCorpus + [tokenize(text)];
      metadata := metadata + [meta];
      dirty := true;
      if meta.url != "" {
        urlToId := urlToId[meta.url := docId];
      }
    }

    method Rebuild()
      requires Valid()
      modifies this`bm25, this`dirty
      ensures Valid() && bm25 == if tokenizedCorpus == [] then old(bm25) else Some(tokenizedCorpus)
    {
      if tokenizedCorpus == [] {
        return;
      }
      bm25 := Some(tokenizedCorpus);
      dirty := false;
    }

    /** The scores a query gets on the documents added so far, whether or not the index was rebuilt since. */
    ghost function Scores(query: string): (scores: seq<real>)
      requires Valid()
      reads this
      ensures |scores| == |tokenizedCorpus|
    {
      scorer(tokenizedCorpus, tokenize(query))
    }

    ghost predicate Answers(query: string, topK: nat, hits: seq<Hit>)
      requires Valid()
      reads this
    {
      SparseAnswer(tokenize(query), Scores(query), metadata, deleted, topK, hits)
    }

    method Search(query: string, topK: nat) returns (hits: seq<Hit>)
      requires Valid()
      modifies this`bm25, this`dirty
      ensures Valid()
      ensures Answers(query, topK, hits)
    {
      if dirty || bm25.None? {
        Rebuild();
      }
      if bm25.None? {
        EmptyIsBest(Scores(query), deleted, topK);
        return [];
      }
      assert bm25.value == tokenizedCorpus;
      var tokens := tokenize(query);
      if tokens == [] {
        return [];
      }
      var scores := scorer(bm25.value, tokens);
      hits := PickLive(scores, deleted, metadata, topK);
    }

    function Length(): int
      reads this
    {
      |tokenizedCorpus| - |deleted|
    }

    method Delete(docId: int) returns (removed: bool)
      requires Valid()
      modifies this`deleted
      ensures Valid()
      ensures removed <==> 0 <= docId < |tokenizedCorpus| && docId !in old(deleted)
      ensures deleted == if removed then old(deleted) + {docId} else old(deleted)
      ensures Length() == old(Length()) - if removed then 1 else 0
    {
      if !(0 <= docId < |tokenizedCorpus|) || docId in deleted {
        return false;
      }
      deleted := deleted + {docId};
      removed := true;
    }

    method UrlToDocId(url: string) returns (docId: Option<nat>)
      requires Valid()
      ensures docId == if url in urlToId then Some(urlToId[url]) else None
      ensures docId.Some? ==> docId.value < |tokenizedCorpus|
    {
      docId := if url in urlToId then Some(urlToId[url]) else None;
    }

    method DeleteByUrl(url: string) returns (removed: bool)
      requires Valid()
      modifies this`deleted
      ensures Valid()
      ensures removed <==> url in urlToId && urlToId[url] !in old(deleted)
      ensures deleted == if removed then old(deleted) + {urlToId[url]} else old(deleted)
    {
      var docId := UrlToDocId(url);
      if docId.None? {
        return false;
      }
      removed := Delete(docId.value);
    }
  }

  lemma EmptyIsBest(scores: seq<real>, dead: set<nat>, topK: nat)
    requires scores == []
    ensures IsBest([], scores, Eligible(scores, dead, true), topK, |dead|)
  {
    assert Eligible(scores, dead, true) == {};
  }
}
