/**
 The search service: both indices, the retriever and the response cache, and
 the requests that change or read them. Between two awaits the event loop runs
 nothing else, so the requests below interleave as whole steps. A cache that is
 absent behaves like one whose ttl is zero.
 */
module SearchApi {
  import opened Bm25
  import opened CacheTrace
  import opened Common
  import opened HybridRetrieval
  import opened Pagination
  import opened SearchLedger
  import opened TopK
  import opened TtlCache
  import opened VectorStores

  class SearchService {
    const engine: Engine
    const bm25: BM25Index
    const vectorStore: VectorStore
    const retriever: HybridRetriever
    const cache: TTLCache<string, Response>
    ghost var ledger: Ledger  // what was ever added and deleted

    ghost predicate Wired()
      reads bm25, vectorStore
    {
      && retriever.bm25 == bm25 && retriever.vectorStore == vectorStore && retriever.Valid()
      && bm25.tokenize == engine.tokenize && bm25.scorer == engine.scorer && vectorStore.similarity == engine.similarity
      && retriever.weights == engine.weights && retriever.alpha == engine.alpha
      && retriever.candidateK == engine.candidateK
    }

    ghost predicate SparseHolds()
      reads this, bm25
    {
      && bm25.tokenizedCorpus == Corpus(engine, ledger.pages) && bm25.metadata == Metas(ledger.pages)
      && bm25.urlToId == ledger.urls && bm25.deleted == ledger.deleted
    }

    /** Row r of the dense index is document r of the sparse one, and both hold the same tombstones. */
    ghost predicate DenseHolds()
      reads this, vectorStore
    {
      && vectorStore.docIds == Positions(|ledger.pages|) && vectorStore.index == Vectors(ledger.pages)
      && vectorStore.meta == Metas(ledger.pages) && vectorStore.deleted == ledger.deleted
    }

    ghost predicate Valid()
      reads this, bm25, vectorStore, cache
    {
      Wired() && SparseHolds() && DenseHolds() && cache.Valid() && CacheClean(cache.data, ledger)
    }

    constructor (engine: Engine, cacheSize: int, cacheTtl: real)
      requires forall corpus, query :: |engine.scorer(corpus, query)| == |corpus|
      requires engine.candidateK >= 1
      ensures Valid() && fresh(bm25) && fresh(vectorStore) && fresh(cache)
      ensures this.engine == engine && ledger == EMPTY && cache.data == []
      ensures cache.maxsize == cacheSize && cache.ttl == cacheTtl
    {
      var sparse := new BM25Index(engine.tokenize, engine.scorer);
      var dense := new VectorStore(engine.similarity);
      var hybrid := new HybridRetriever(sparse, dense, engine.weights, engine.alpha, engine.candidateK);
      var store := new TTLCache<string, Response>(cacheSize, cacheTtl);
      this.engine := engine;
      bm25, vectorStore, retriever, cache := sparse, dense, hybrid, store;
      ledger := EMPTY;
    }

    // ---- Indexing ----

    /** Adds one page of a flushed batch to both indices. */
    method AddPage(page: IndexedPage) returns (docId: nat)
      requires Valid()
      modifies this`ledger, bm25`tokenizedCorpus, bm25`metadata, bm25`dirty, bm25`urlToId
      modifies vectorStore`index, vectorStore`docIds, vectorStore`meta
      ensures Valid() && docId == |old(ledger).pages| && ledger == RecordPage(old(ledger), page)
    {
      docId := bm25.Add(page.text, page.meta);
      vectorStore.Add(docId, page.vector, page.meta);
      AppendPage(engine, ledger.pages, page);
      ledger := RecordPage(ledger, page);
    }

    /** Flushing a batch: its pages get the next document ids, in order. */
    method Flush(pages: seq<IndexedPage>) returns (indexed: nat)
      requires Valid()
      modifies this`ledger, bm25`tokenizedCorpus, bm25`metadata, bm25`dirty, bm25`urlToId
      modifies vectorStore`index, vectorStore`docIds, vectorStore`meta
      ensures Valid() && indexed == |pages| && ledger == RecordPages(old(ledger), pages)
      ensures ledger.pages == old(ledger).pages + pages
    {
      indexed := 0;
      while indexed < |pages|
        invariant Valid() && 0 <= indexed <= |pages|
        invariant ledger == RecordPages(old(ledger), pages[..indexed])
        invariant ledger.pages == old(ledger).pages + pages[..indexed]
      {
        assert pages[..indexed + 1][..indexed] == pages[..indexed];
        var _ := AddPage(pages[indexed]);
        indexed := indexed + 1;
      }
      assert pages[..indexed] == pages;
    }

    /** The end of a batch job. */
    method FinishBatch(indexed: nat)
      requires Valid()
      modifies cache`data
      ensures Valid()
      ensures cache.data == if indexed != 0 then [] else old(cache.data)
    {
      if indexed != 0 {
        cache.Clear();
      }
    }

    // ---- Deletion ----

    /**
     Tombstones a document in both indices and empties the cache; None when the
     URL is unknown. Whether the URL itself is gone then is UrlIsGoneIff's matter.
     */
    method DeleteUrl(url: string) returns (docId: Option<nat>)
      requires Valid()
      modifies this`ledger, bm25`deleted, vectorStore`deleted, cache`data
      ensures Valid() && ledger == Record(old(ledger), Event.DeleteUrl(url))
      ensures docId == if url in old(ledger).urls then Some(old(ledger).urls[url]) else None
      ensures cache.data == if docId.Some? then [] else old(cache.data)
    {
      docId := bm25.UrlToDocId(url);
      if docId.None? {
        return;
      }
      Tombstone(docId.value);
    }

    /** The deletion of one document, dead already or not. */
    method Tombstone(docId: nat)
      requires Valid() && docId < |ledger.pages|
      modifies this`ledger, bm25`deleted, vectorStore`deleted, cache`data
      ensures Valid() && ledger == old(ledger).(deleted := old(ledger).deleted + {docId}) && cache.data == []
    {
      var _ := bm25.Delete(docId);
      assert vectorStore.docIds[docId] == docId;
      var _ := vectorStore.Delete(docId);
      cache.Clear();
      ledger := ledger.(deleted := ledger.deleted + {docId});
    }

    // ---- Searching ----

    /** A response that is not cached: the requested page of the ranking that the indices give now. */
    method Fresh(req: SearchRequest, authority: Option<Authority>) returns (response: Response)
      requires Valid() && req.page.topK >= 1
      modifies bm25`bm25, bm25`dirty
      ensures Valid() && Answers(engine, ledger, req, authority, response)
    {
      var candidates, bm25Hits, denseHits := retriever.Retrieve(req.query, req.page.Fetched(), authority);
      assert vectorStore.Scores(req.query.vector) == Similarities(engine, vectorStore.index, req.query.vector);
      assert AreHits(engine, ledger, req.query, bm25Hits, denseHits);
      var results := PageOf(candidates, req.page, engine.models);
      response := Response(results, |candidates|);
      assert response == ResponseFrom(engine, req, authority, bm25Hits, denseHits);
    }

    method Lookup(key: string, now: real) returns (found: Option<Response>)
      requires Valid()
      modifies cache
      ensures Valid()
      ensures (cache.data, found) == Step(cache.maxsize, cache.ttl, old(cache.data), Op.Get(key, now))
      ensures found.Some? ==> Clean(found.value.results, ledger)
    {
      GetKeepsClean(cache.maxsize, cache.ttl, cache.data, key, now, ledger);
      found := cache.Get(key, now);
    }

    method Store(key: string, response: Response, now: real)
      requires Valid() && Clean(response.results, ledger)
      modifies cache`data
      ensures Valid()
      ensures cache.data == Step(cache.maxsize, cache.ttl, old(cache.data), Op.Set(key, response, now)).0
    {
      SetKeepsClean(cache.maxsize, cache.ttl, cache.data, key, response, now, ledger);
      cache.Set(key, response, now);
    }

    /** Serves a request from the cache or afresh. Either way no result names a deleted document. */
    method Search(req: SearchRequest, authority: Option<Authority>, arrived: real, answered: real)
      returns (response: Response, cached: bool)
      requires Valid() && req.page.topK >= 1
      modifies bm25`bm25, bm25`dirty, cache
      ensures Valid() && Clean(response.results, ledger)
      ensures IsStep(engine, cache.maxsize, cache.ttl, ledger, Event.Search(req, authority, arrived, answered),
                     response, cached, old(cache.data), cache.data)
    {
      var found := Lookup(req.key, arrived);
      if found.Some? {
        return found.value, true;
      }
      response := Fresh(req, authority);
      cached := false;
      AnswersAreClean(engine, ledger, req, authority, response);
      Store(req.key, response, answered);
    }

    // ---- Whole runs ----

    method Handle(event: Event) returns (answer: Option<Response>, cached: bool)
      requires Valid() && (event.Search? ==> event.req.page.topK >= 1)
      modifies this`ledger, bm25, vectorStore, cache
      ensures Valid() && ledger == Record(old(ledger), event)
      ensures answer.Some? <==> event.Search?
      ensures !event.Search? ==> cache.data == if Clears(old(ledger), event) then [] else old(cache.data)
      ensures event.Search? ==> Clean(answer.value.results, ledger)
      ensures event.Search? ==>
                IsStep(engine, cache.maxsize, cache.ttl, ledger, event, answer.value, cached, old(cache.data),
                    cache.data)
    {
      answer, cached := None, false;
      match event
      case Flush(pages) => var _ := Flush(pages);
      case FinishBatch(indexed) => FinishBatch(indexed);
      case DeleteUrl(url) => var _ := DeleteUrl(url);
      case Search(req, authority, arrived, answered) =>
        var response;
        response, cached := Search(req, authority, arrived, answered);
        answer := Some(response);
    }

    method HandleNext(events: seq<Event>, i: nat, ghost start: Ledger) returns (answer: Option<Response>, cached: bool)
      requires i < |events| && Valid() && ledger == LedgerAt(start, events, i)
      requires forall e :: e in events && e.Search? ==> e.req.page.topK >= 1
      modifies this`ledger, bm25, vectorStore, cache
      ensures Valid() && ledger == LedgerAt(start, events, i + 1)
      ensures answer.Some? <==> events[i].Search?
      ensures answer.Some? ==> Clean(answer.value.results, LedgerAt(start, events, i))
      ensures Effect(TraceSetting(engine, cache.ttl, start, events), i, answer, cached, old(cache.data), cache.data)
    {
      ghost var before := cache.data;
      answer, cached := Handle(events[i]);
      NextLedger(start, events, i);
      if answer.Some? {
        SearchHasEffect(engine, cache.maxsize, cache.ttl, start, events, i, answer.value, cached, before, cache.data);
      }
    }

    /**
     Any interleaving of flushes, batch ends, deletions and searches. Each search
     is answered, without the documents that the events before it deleted; and on
     a cache that was empty at the start, each answer is a fresh one or that of an
     earlier search with the same key, at most ttl old, since when nothing was
     deleted: `sources` names it.
     */
    method Serve(events: seq<Event>) returns (answers: seq<Option<Response>>, ghost sources: seq<nat>)
      requires Valid() && forall e :: e in events && e.Search? ==> e.req.page.topK >= 1
      modifies this`ledger, bm25, vectorStore, cache
      ensures Valid() && ledger == LedgerAfter(old(ledger), events)
      ensures |answers| == |events| && AllClean(old(ledger), events, answers)
      ensures old(cache.data) == [] ==> AllComeFrom(engine, cache.ttl, old(ledger), events, answers, sources)
    {
      ghost var start, fromEmpty := ledger, cache.data == [];
      answers, sources := [], [];
      NothingRun(engine, cache.ttl, start, events, cache.data);
      while |answers| < |events|
        invariant Progress(start, events, answers, sources, fromEmpty)
        decreases |events| - |answers|
      {
        answers, sources := Advance(start, events, answers, sources, fromEmpty);
      }
      assert events[..|answers|] == events;
      RunIsExplained(engine, cache.ttl, start, events, answers, sources, cache.data, fromEmpty);
    }

    /** What holds after as many events as there are answers. */
    ghost predicate Progress(start: Ledger, events: seq<Event>, answers: seq<Option<Response>>, sources: seq<nat>,
                             fromEmpty: bool)
      reads this, bm25, vectorStore, cache
    {
      && Valid() && |answers| <= |events| && ledger == LedgerAt(start, events, |answers|)
      && RunSoFar(engine, cache.ttl, start, events, answers, sources, cache.data, fromEmpty)
    }

    method Advance(ghost start: Ledger, events: seq<Event>, before: seq<Option<Response>>, ghost known: seq<nat>,
                   ghost fromEmpty: bool)
      returns (answers: seq<Option<Response>>, ghost sources: seq<nat>)
      requires Progress(start, events, before, known, fromEmpty) && |before| < |events|
      requires forall e :: e in events && e.Search? ==> e.req.page.topK >= 1
      modifies this`ledger, bm25, vectorStore, cache
      ensures Progress(start, events, answers, sources, fromEmpty) && |answers| == |before| + 1
    {
      ghost var contents := cache.data;
      var answer, cached := HandleNext(events, |before|, start);
      ghost var source :=
        RunStep(engine, cache.ttl, start, events, before, known, answer, cached, contents, cache.data, fromEmpty);
      answers, sources := before + [answer], known + [source];
    }
  }

  method IndexTwice(engine: Engine, cacheSize: int, cacheTtl: real, first: IndexedPage, second: IndexedPage)
    returns (service: SearchService)
    requires forall corpus, query :: |engine.scorer(corpus, query)| == |corpus|
    requires engine.candidateK >= 1 && first.meta.url == second.meta.url != ""
    ensures fresh(service) && fresh(service.bm25) && fresh(service.vectorStore) && fresh(service.cache)
    ensures service.Valid() && service.ledger == Ledger([first, second], map[first.meta.url := 1], {})
  {
    service := new SearchService(engine, cacheSize, cacheTtl);
    var _ := service.AddPage(first);
    var _ := service.AddPage(second);
  }

  /** A URL indexed twice survives its deletion: only the later copy is tombstoned, the earlier one stays live. */
  method DeleteLeavesEarlierCopy(engine: Engine, cacheSize: int, cacheTtl: real, first: IndexedPage,
                                 second: IndexedPage)
    returns (service: SearchService)
    requires forall corpus, query :: |engine.scorer(corpus, query)| == |corpus|
    requires engine.candidateK >= 1 && first.meta.url == second.meta.url != ""
    ensures service.Valid() && LiveWith(service.ledger, first.meta.url) == {0}
    ensures service.ledger == Ledger([first, second], map[first.meta.url := 1], {1})
  {
    service := IndexTwice(engine, cacheSize, cacheTtl, first, second);
    var _ := service.DeleteUrl(first.meta.url);
    EarlierCopyIsLive(first, second);
  }
}
