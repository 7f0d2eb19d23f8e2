/**
 The search service seen from outside: what the events so far have added and
 deleted, which responses that state of affairs allows, and where a cached
 response may come from. Everything here is about values; the service in
 SearchApi is proved against it.
 */
module SearchLedger {
  import opened Bm25
  import opened CacheCalls
  import opened CacheTrace
  import opened Common
  import opened Documents
  import opened HybridRetrieval
  import opened Pagination
  import opened Ranking
  import opened TopK
  import opened TtlCache
  import opened VectorStores

  datatype IndexedPage = IndexedPage(text: string, meta: Metadata, vector: Vector)

  datatype SearchRequest = SearchRequest(key: string, query: ProcessedQuery, page: PageRequest)

  datatype Response = Response(results: seq<SearchResult>, total: nat)

  datatype Event =
    | Flush(pages: seq<IndexedPage>)
    | FinishBatch(indexed: nat)
    | DeleteUrl(url: string)
    | Search(req: SearchRequest, authority: Option<Authority>, arrived: real, answered: real)

  /** The arbitrary functions and the settings that a service is built with. */
  datatype Engine = Engine(
    tokenize: string -> Tokens,
    scorer: (seq<Tokens>, Tokens) -> seq<real>,
    similarity: (Vector, Vector) -> real,
    weights: Weights,
    alpha: real,
    candidateK: nat,
    models: Models)

  // ---- What events add and delete ----

  /** The pages in order of their document ids, the latest document of each URL, and the tombstones. */
  datatype Ledger = Ledger(pages: seq<IndexedPage>, urls: map<string, nat>, deleted: set<nat>)

  const EMPTY: Ledger := Ledger([], map[], {})

  function RecordPage(l: Ledger, page: IndexedPage): Ledger {
    Ledger(l.pages + [page], if page.meta.url == "" then l.urls else l.urls[page.meta.url := |l.pages|], l.deleted)
  }

  function RecordPages(l: Ledger, pages: seq<IndexedPage>): Ledger {
    if pages == [] then l else RecordPage(RecordPages(l, pages[..|pages| - 1]), pages[|pages| - 1])
  }

  function Record(l: Ledger, event: Event): Ledger {
    match event
    case Flush(pages) => RecordPages(l, pages)
    case DeleteUrl(url) => if url in l.urls then l.(deleted := l.deleted + {l.urls[url]}) else l
    case _ => l
  }

  function LedgerAfter(l: Ledger, events: seq<Event>): Ledger {
    if events == [] then l else Record(LedgerAfter(l, events[..|events| - 1]), events[|events| - 1])
  }

  function LedgerAt(l: Ledger, events: seq<Event>, k: nat): Ledger
    requires k <= |events|
  {
    LedgerAfter(l, events[..k])
  }

  lemma NextLedger(l: Ledger, events: seq<Event>, k: nat)
    requires k < |events|
    ensures LedgerAt(l, events, k + 1) == Record(LedgerAt(l, events, k), events[k])
  {
    assert events[..k + 1][..k] == events[..k];
  }

  /** The events that empty the response cache. */
  predicate Clears(l: Ledger, event: Event) {
    match event
    case FinishBatch(indexed) => indexed != 0
    case DeleteUrl(url) => url in l.urls
    case _ => false
  }

  lemma {:induction false} PagesKeepTombstones(l: Ledger, pages: seq<IndexedPage>)
    ensures RecordPages(l, pages).deleted == l.deleted
  {
    if pages != [] {
      PagesKeepTombstones(l, pages[..|pages| - 1]);
    }
  }

  lemma TombstonesGrow(l: Ledger, event: Event)
    ensures l.deleted <= Record(l, event).deleted
    ensures !event.DeleteUrl? ==> Record(l, event).deleted == l.deleted
  {
    if event.Flush? {
      PagesKeepTombstones(l, event.pages);
    }
  }

  /** The live documents that carry a URL: several, when the URL was indexed more than once. */
  ghost function LiveWith(l: Ledger, url: string): set<nat> {
    set d | d in All(|l.pages|) && l.pages[d].meta.url == url && d !in l.deleted
  }

  /** Deleting a known URL removes it exactly if no other live document carries it. */
  lemma UrlIsGoneIff(l: Ledger, url: string)
    requires url in l.urls
    ensures LiveWith(Record(l, Event.DeleteUrl(url)), url) == {} <==> LiveWith(l, url) <= {l.urls[url]}
  {
    var after := LiveWith(Record(l, Event.DeleteUrl(url)), url);
    forall d ensures d in after <==> d in LiveWith(l, url) && d != l.urls[url] {
    }
  }

  lemma EarlierCopyIsLive(first: IndexedPage, second: IndexedPage)
    requires first.meta.url == second.meta.url
    ensures LiveWith(Ledger([first, second], map[first.meta.url := 1], {1}), first.meta.url) == {0}
  {
  }

  /** What one event deletes stays deleted. */
  lemma {:induction false} DeletedForEver(l: Ledger, events: seq<Event>, j: nat, k: nat)
    requires j < k <= |events| && events[j].DeleteUrl? && events[j].url in LedgerAt(l, events, j).urls
    ensures LedgerAt(l, events, j).urls[events[j].url] in LedgerAt(l, events, k).deleted
    decreases k
  {
    NextLedger(l, events, k - 1);
    if k > j + 1 {
      DeletedForEver(l, events, j, k - 1);
      TombstonesGrow(LedgerAt(l, events, k - 1), events[k - 1]);
    }
  }

  // ---- What deletions can ever reach ----

  /** The latest document of each URL carries that URL. */
  ghost predicate Agrees(l: Ledger) {
    forall u :: u in l.urls ==> l.urls[u] < |l.pages| && l.pages[l.urls[u]].meta.url == u
  }

  /** The document that a deletion of its URL hits. */
  predicate IsLatest(l: Ledger, d: nat)
    requires d < |l.pages|
  {
    var url := l.pages[d].meta.url;
    url in l.urls && l.urls[url] == d
  }

  /** Live, and superseded by a later document of its URL or without a URL. */
  ghost predicate IsOutOfReach(l: Ledger, d: nat) {
    d < |l.pages| && d !in l.deleted && !IsLatest(l, d)
  }

  ghost predicate IsDeletedBy(l: Ledger, events: seq<Event>, d: nat) {
    d in LedgerAfter(l, events).deleted
  }

  lemma RecordPageKeeps(l: Ledger, page: IndexedPage, d: nat)
    requires Agrees(l)
    ensures Agrees(RecordPage(l, page))
    ensures IsOutOfReach(l, d) ==> IsOutOfReach(RecordPage(l, page), d)
  {
  }

  lemma {:induction false} RecordPagesKeeps(l: Ledger, pages: seq<IndexedPage>, d: nat)
    requires Agrees(l)
    ensures Agrees(RecordPages(l, pages))
    ensures IsOutOfReach(l, d) ==> IsOutOfReach(RecordPages(l, pages), d)
  {
    if pages != [] {
      RecordPagesKeeps(l, pages[..|pages| - 1], d);
      RecordPageKeeps(RecordPages(l, pages[..|pages| - 1]), pages[|pages| - 1], d);
    }
  }

  lemma RecordKeeps(l: Ledger, event: Event, d: nat)
    requires Agrees(l)
    ensures Agrees(Record(l, event))
    ensures IsOutOfReach(l, d) ==> IsOutOfReach(Record(l, event), d)
  {
    if event.Flush? {
      RecordPagesKeeps(l, event.pages, d);
    }
  }

  /** In every run from a ledger that agrees, as the empty one does. */
  lemma {:induction false} RunKeepsOutOfReach(l: Ledger, events: seq<Event>, d: nat)
    requires Agrees(l)
    ensures Agrees(LedgerAfter(l, events))
    ensures IsOutOfReach(l, d) ==> IsOutOfReach(LedgerAfter(l, events), d)
  {
    if events != [] {
      RunKeepsOutOfReach(l, events[..|events| - 1], d);
      RecordKeeps(LedgerAfter(l, events[..|events| - 1]), events[|events| - 1], d);
    }
  }

  /**
   A live document can be deleted by some sequence of events exactly if it is
   the latest of its URL: a superseded copy stays for ever.
   */
  lemma RemovableIff(l: Ledger, d: nat)
    requires Agrees(l) && d < |l.pages| && d !in l.deleted
    ensures (exists events :: IsDeletedBy(l, events, d)) <==> IsLatest(l, d)
  {
    if IsLatest(l, d) {
      LatestIsDeletedBy(l, d);
    } else {
      forall events ensures !IsDeletedBy(l, events, d) {
        RunKeepsOutOfReach(l, events, d);
      }
    }
  }

  lemma LatestIsDeletedBy(l: Ledger, d: nat)
    requires d < |l.pages| && IsLatest(l, d)
    ensures IsDeletedBy(l, [Event.DeleteUrl(l.pages[d].meta.url)], d)
  {
    var deletion := [Event.DeleteUrl(l.pages[d].meta.url)];
    assert deletion[..0] == [] && LedgerAfter(l, deletion[..0]) == l;
    assert LedgerAfter(l, deletion) == Record(l, deletion[0]);
  }

  // ---- Responses ----

  function Metas(pages: seq<IndexedPage>): seq<Metadata> {
    seq(|pages|, i requires 0 <= i < |pages| => pages[i].meta)
  }

  function Corpus(engine: Engine, pages: seq<IndexedPage>): seq<Tokens> {
    seq(|pages|, i requires 0 <= i < |pages| => engine.tokenize(pages[i].text))
  }

  function Vectors(pages: seq<IndexedPage>): seq<Vector> {
    seq(|pages|, i requires 0 <= i < |pages| => pages[i].vector)
  }

  function Similarities(engine: Engine, vectors: seq<Vector>, query: Vector): seq<real> {
    seq(|vectors|, i requires 0 <= i < |vectors| => engine.similarity(vectors[i], query))
  }

  /** What the two indices may answer: the best live documents by the one score and by the other. */
  ghost predicate AreHits(engine: Engine, l: Ledger, query: ProcessedQuery, bm25Hits: seq<Hit>, denseHits: seq<Hit>) {
    var tokens := engine.tokenize(query.expanded);
    && SparseAnswer(tokens, engine.scorer(Corpus(engine, l.pages), tokens), Metas(l.pages), l.deleted,
                    engine.candidateK, bm25Hits)
    && DenseAnswer(Similarities(engine, Vectors(l.pages), query.vector), Positions(|l.pages|), Metas(l.pages),
                   l.deleted, engine.candidateK, denseHits)
    && NoRepeats(bm25Hits, denseHits)
  }

  function ResponseFrom(engine: Engine, req: SearchRequest, authority: Option<Authority>,
                        bm25Hits: seq<Hit>, denseHits: seq<Hit>): Response
  {
    var ranking := FinalRanking(bm25Hits, denseHits, engine.weights, req.query.filters, engine.alpha, authority);
    Response(Page(ranking, req.page, engine.models), |Prefix(ranking, req.page.Fetched())|)
  }

  /** The response is the requested page of a ranking that the indices give in this state of the ledger. */
  ghost predicate Answers(engine: Engine, l: Ledger, req: SearchRequest, authority: Option<Authority>,
                          response: Response) {
    exists bm25Hits, denseHits ::
      && AreHits(engine, l, req.query, bm25Hits, denseHits)
      && response == ResponseFrom(engine, req, authority, bm25Hits, denseHits)
  }

  function DenseScores(engine: Engine, l: Ledger, query: ProcessedQuery): seq<real> {
    Similarities(engine, Vectors(l.pages), query.vector)
  }

  function SparseScores(engine: Engine, l: Ledger, query: ProcessedQuery): seq<real> {
    engine.scorer(Corpus(engine, l.pages), engine.tokenize(query.expanded))
  }

  /** Rows and documents are numbered alike, so the dense rows name the best live documents. */
  lemma DenseHitsAreTopK(scores: seq<real>, metas: seq<Metadata>, deleted: set<nat>, k: nat, hits: seq<Hit>)
    requires k > 0 && DenseAnswer(scores, Positions(|scores|), metas, deleted, k, hits)
    ensures IsTopK(Ids(hits), scores, Eligible(scores, deleted, false), k)
  {
    var docIds := Positions(|scores|);
    var rows :| AreRows(scores, docIds, metas, deleted, k, hits, rows);
    assert Ids(hits) == rows;
    assert Eligible(scores, DeadRows(docIds, deleted), false) == Eligible(scores, deleted, false);
    BestIsTopK(rows, scores, Eligible(scores, deleted, false), k, |deleted|);
  }

  /** Each index answers with the best live documents by its score, as many as there are candidates or all there are. */
  lemma HitsAreTopK(engine: Engine, l: Ledger, query: ProcessedQuery, bm25Hits: seq<Hit>, denseHits: seq<Hit>)
    requires AreHits(engine, l, query, bm25Hits, denseHits) && engine.candidateK > 0
    ensures var scores := SparseScores(engine, l, query);
            if engine.tokenize(query.expanded) == [] then bm25Hits == []
            else IsTopK(Ids(bm25Hits), scores, Eligible(scores, l.deleted, true), engine.candidateK)
    ensures var scores := DenseScores(engine, l, query);
            IsTopK(Ids(denseHits), scores, Eligible(scores, l.deleted, false), engine.candidateK)
    ensures |bm25Hits| <= engine.candidateK && |denseHits| <= engine.candidateK
  {
    var scores := SparseScores(engine, l, query);
    if engine.tokenize(query.expanded) != [] {
      BestIsTopK(Ids(bm25Hits), scores, Eligible(scores, l.deleted, true), engine.candidateK, |l.deleted|);
    }
    DenseHitsAreTopK(DenseScores(engine, l, query), Metas(l.pages), l.deleted, engine.candidateK, denseHits);
  }

  /** So a request that fetches twice as many gets slices of one order, whatever the models say. */
  lemma EnoughFetched(engine: Engine, l: Ledger, req: SearchRequest, authority: Option<Authority>,
                      bm25Hits: seq<Hit>, denseHits: seq<Hit>, models: Models)
    requires AreHits(engine, l, req.query, bm25Hits, denseHits) && engine.candidateK > 0
    requires req.page.topK >= 1 && req.page.Fetched() >= 2 * engine.candidateK
    ensures PageIsSlice(FinalRanking(bm25Hits, denseHits, engine.weights, req.query.filters, engine.alpha, authority),
                        req.page, models)
  {
    HitsAreTopK(engine, l, req.query, bm25Hits, denseHits);
    RankingIsShort(bm25Hits, denseHits, engine.weights, req.query.filters, engine.alpha, authority);
    FinalRankingHasDistinctIds(bm25Hits, denseHits, engine.weights, req.query.filters, engine.alpha, authority);
    CoveredPagesAreSlices(FinalRanking(bm25Hits, denseHits, engine.weights, req.query.filters, engine.alpha, authority),
                          req.page, models);
  }

  /** Every result names a live document. */
  ghost predicate Clean(results: seq<SearchResult>, l: Ledger) {
    forall r :: r in results ==> r.docId < |l.pages| && r.docId !in l.deleted
  }

  // ---- Where cached responses come from ----

  type Cached = Entry<string, Response>

  ghost predicate CacheClean(entries: seq<Cached>, l: Ledger) {
    forall e :: e in entries ==> Clean(e.value.results, l)
  }

  /** The events as the cache sees them. */
  function Searches(events: seq<Event>): seq<Option<Read>> {
    seq(|events|, i requires 0 <= i < |events| =>
      if events[i].Search? then Some(Read(events[i].req.key, events[i].arrived, events[i].answered)) else None)
  }

  ghost predicate IsFreshAnswer(engine: Engine, l: Ledger, events: seq<Event>, k: nat, response: Response) {
    && k < |events| && events[k].Search?
    && Answers(engine, LedgerAt(l, events, k), events[k].req, events[k].authority, response)
  }

  predicate ClearsAt(l: Ledger, events: seq<Event>, k: nat) {
    k < |events| && Clears(LedgerAt(l, events, k), events[k])
  }

  ghost function TraceSetting(engine: Engine, ttl: real, l: Ledger, events: seq<Event>): Setting<Response> {
    Setting(ttl, Searches(events), (k: nat, r: Response) => IsFreshAnswer(engine, l, events, k, r),
            (k: nat) => ClearsAt(l, events, k))
  }

  /**
   The response to event k is a fresh answer to search j with the same key:
   event k itself, or an earlier one at most ttl before, with nothing deleted or
   indexed by a finished batch in between.
   */
  ghost predicate ComesFrom(engine: Engine, ttl: real, l: Ledger, events: seq<Event>, j: nat, k: nat,
                            response: Response) {
    && j <= k < |events| && events[j].Search? && events[k].Search? && events[j].req.key == events[k].req.key
    && IsFreshAnswer(engine, l, events, j, response)
    && (j < k ==> events[k].arrived <= events[j].answered + ttl)
    && NothingClearsBetween(l, events, j, k)
  }

  ghost predicate NothingClearsBetween(l: Ledger, events: seq<Event>, j: nat, k: nat) {
    forall m :: j < m < k ==> !ClearsAt(l, events, m)
  }

  lemma FreshIsAnswer(engine: Engine, ttl: real, l: Ledger, events: seq<Event>, j: nat, response: Response)
    requires TraceSetting(engine, ttl, l, events).isFresh(j, response)
    ensures IsFreshAnswer(engine, l, events, j, response)
  {
  }

  lemma NothingClearsHere(engine: Engine, ttl: real, l: Ledger, events: seq<Event>, j: nat, k: nat)
    requires NothingClears(TraceSetting(engine, ttl, l, events).clears, j, k)
    ensures NothingClearsBetween(l, events, j, k)
  {
    var clears := TraceSetting(engine, ttl, l, events).clears;
    forall m | j < m < k ensures !ClearsAt(l, events, m) {
      assert !clears(m);
    }
  }

  lemma SourceIsOrigin(engine: Engine, ttl: real, l: Ledger, events: seq<Event>, j: nat, k: nat, response: Response)
    requires IsSource(TraceSetting(engine, ttl, l, events), j, k, response)
    ensures ComesFrom(engine, ttl, l, events, j, k, response)
  {
    FreshIsAnswer(engine, ttl, l, events, j, response);
    NothingClearsHere(engine, ttl, l, events, j, k);
    assert Searches(events)[j].Some? && Searches(events)[k].Some?;
  }

  /** Every answer comes from the source named for it, which was answered alike. */
  ghost predicate AllComeFrom(engine: Engine, ttl: real, l: Ledger, events: seq<Event>, answers: seq<Option<Response>>,
                              sources: seq<nat>) {
    |sources| == |answers| && forall k :: 0 <= k < |answers| && answers[k].Some? ==>
      && sources[k] <= k && answers[sources[k]] == answers[k]
      && ComesFrom(engine, ttl, l, events, sources[k], k, answers[k].value)
  }

  lemma SourcesAreOrigins(engine: Engine, ttl: real, l: Ledger, events: seq<Event>, answers: seq<Option<Response>>,
                          sources: seq<nat>)
    requires AllSourced(TraceSetting(engine, ttl, l, events), answers, sources)
    ensures AllComeFrom(engine, ttl, l, events, answers, sources)
  {
    forall k | 0 <= k < |answers| && answers[k].Some?
      ensures sources[k] <= k && answers[sources[k]] == answers[k]
      ensures ComesFrom(engine, ttl, l, events, sources[k], k, answers[k].value)
    {
      assert Explains(TraceSetting(engine, ttl, l, events), answers, sources[k], k);
      SourceIsOrigin(engine, ttl, l, events, sources[k], k, answers[k].value);
    }
  }

  /**
   In particular no batch that indexed something was finished, and no known URL
   deleted, between the fresh answer and the one it is given to again.
   */
  lemma NothingChangedSince(engine: Engine, ttl: real, l: Ledger, events: seq<Event>, j: nat, k: nat,
                            response: Response,
                            m: nat)
    requires ComesFrom(engine, ttl, l, events, j, k, response) && j < m < k
    ensures events[m].FinishBatch? ==> events[m].indexed == 0
    ensures events[m].DeleteUrl? ==> events[m].url !in LedgerAt(l, events, m).urls
  {
    assert !ClearsAt(l, events, m);
  }

  /** What a response is made of: the page of the one ranking, and how many candidates were fetched for it. */
  lemma ResponseHolds(engine: Engine, l: Ledger, req: SearchRequest, authority: Option<Authority>, response: Response)
    requires Answers(engine, l, req, authority, response)
    ensures exists bm25Hits, denseHits :: AreHits(engine, l, req.query, bm25Hits, denseHits) &&
              var ranking := FinalRanking(bm25Hits, denseHits, engine.weights, req.query.filters, engine.alpha,
                  authority);
              && response.results == Page(ranking, req.page, engine.models)
              && response.total == Min(req.page.Fetched(), |ranking|)
  {
  }

  /** What the events leave: pages in order, the latest page of each URL, and the ids that were deleted. */
  lemma {:induction false} PagesAreAppended(l: Ledger, pages: seq<IndexedPage>)
    ensures RecordPages(l, pages).pages == l.pages + pages
    ensures forall u :: u in RecordPages(l, pages).urls <==>
              u in l.urls || exists k :: 0 <= k < |pages| && pages[k].meta.url == u != ""
  {
    if pages != [] {
      var m := |pages| - 1;
      PagesAreAppended(l, pages[..m]);
      assert pages == pages[..m] + [pages[m]];
    }
  }

  /** So the source saw the same tombstones. */
  lemma {:induction false} SameTombstones(l: Ledger, events: seq<Event>, j: nat, k: nat)
    requires j < k <= |events| && forall m :: j <= m < k ==> !ClearsAt(l, events, m)
    ensures LedgerAt(l, events, j).deleted == LedgerAt(l, events, k).deleted
    decreases k
  {
    NextLedger(l, events, k - 1);
    assert !ClearsAt(l, events, k - 1);
    TombstonesGrow(LedgerAt(l, events, k - 1), events[k - 1]);
    if k > j + 1 {
      SameTombstones(l, events, j, k - 1);
    }
  }

  // ---- Why nothing deleted is answered ----

  ghost predicate HitsAreLive(hits: seq<Hit>, l: Ledger) {
    forall i :: 0 <= i < |hits| ==> hits[i].docId < |l.pages| && hits[i].docId !in l.deleted
  }

  lemma NamedAreLive(hits: seq<Hit>, l: Ledger, d: nat)
    requires HitsAreLive(hits, l)
    ensures d in Ids(hits) ==> d < |l.pages| && d !in l.deleted
  {
  }

  lemma AnswersAreLive(engine: Engine, l: Ledger, query: ProcessedQuery, bm25Hits: seq<Hit>, denseHits: seq<Hit>)
    requires AreHits(engine, l, query, bm25Hits, denseHits)
    ensures HitsAreLive(bm25Hits, l) && HitsAreLive(denseHits, l)
  {
  }

  lemma PageIsClean(engine: Engine, l: Ledger, req: SearchRequest, authority: Option<Authority>,
                    bm25Hits: seq<Hit>, denseHits: seq<Hit>)
    requires HitsAreLive(bm25Hits, l) && HitsAreLive(denseHits, l)
    ensures Clean(ResponseFrom(engine, req, authority, bm25Hits, denseHits).results, l)
  {
    var ranking := FinalRanking(bm25Hits, denseHits, engine.weights, req.query.filters, engine.alpha, authority);
    var candidates := Prefix(ranking, req.page.Fetched());
    RankedComesFromHits(bm25Hits, denseHits, engine.weights, req.query.filters, engine.alpha, authority);
    forall r | r in Page(ranking, req.page, engine.models) ensures r.docId < |l.pages| && r.docId !in l.deleted {
      PageComesFromCandidates(ranking, req.page, engine.models, r);
      var i :| 0 <= i < |candidates| && DocIds(candidates)[i] == r.docId;
      assert candidates[i] in ranking;
      assert Names(bm25Hits, denseHits, candidates[i]);
      NamedAreLive(bm25Hits, l, r.docId);
      NamedAreLive(denseHits, l, r.docId);
    }
  }

  lemma PageComesFromCandidates(ranking: seq<SearchResult>, req: PageRequest, models: Models, r: SearchResult)
    requires r in Page(ranking, req, models)
    ensures r.docId in DocIds(Prefix(ranking, req.Fetched()))
  {
    var candidates := Prefix(ranking, req.Fetched());
    var passed := Passed(candidates, req, models);
    PassedAreMembers(candidates, req, models);
    OrderKeepsDocuments(passed, req, models);
    assert r in Order(passed, req, models);
  }

  /** Every response that the ledger allows names live documents only. */
  lemma AnswersAreClean(engine: Engine, l: Ledger, req: SearchRequest, authority: Option<Authority>, response: Response)
    requires Answers(engine, l, req, authority, response)
    ensures Clean(response.results, l)
  {
    var bm25Hits, denseHits :| AreHits(engine, l, req.query, bm25Hits, denseHits)
                               && response == ResponseFrom(engine, req, authority, bm25Hits, denseHits);
    AnswersAreLive(engine, l, req.query, bm25Hits, denseHits);
    PageIsClean(engine, l, req, authority, bm25Hits, denseHits);
  }

  lemma GetKeepsClean(maxsize: int, ttl: real, d: seq<Cached>, key: string, now: real, l: Ledger)
    requires CacheClean(d, l)
    ensures CacheClean(Step(maxsize, ttl, d, Op.Get(key, now)).0, l)
    ensures var value := Step(maxsize, ttl, d, Op.Get(key, now)).1; value.Some? ==> Clean(value.value.results, l)
  {
    FindFinds(d, key);
    WithoutMembers(d, key);
  }

  lemma SetKeepsClean(maxsize: int, ttl: real, d: seq<Cached>, key: string, response: Response, now: real, l: Ledger)
    requires CacheClean(d, l) && Clean(response.results, l)
    ensures CacheClean(Step(maxsize, ttl, d, Op.Set(key, response, now)).0, l)
  {
    WithoutMembers(d, key);
  }

  /** A hit is an entry that has not expired, and a get adds no entry. */
  lemma GetFindsEntry(maxsize: int, ttl: real, d: seq<Cached>, key: string, now: real)
    ensures forall e :: e in Step(maxsize, ttl, d, Op.Get(key, now)).0 ==> e in d
    ensures var value := Step(maxsize, ttl, d, Op.Get(key, now)).1;
            value.Some? ==> exists e :: e in d && e.key == key && e.value == value.value && now <= e.expires
  {
    FindFinds(d, key);
    WithoutMembers(d, key);
  }

  lemma SetAddsEntry(maxsize: int, ttl: real, d: seq<Cached>, key: string, response: Response, now: real)
    ensures forall e :: e in Step(maxsize, ttl, d, Op.Set(key, response, now)).0 ==>
              e in d || e == Entry(key, response, now + ttl)
  {
    WithoutMembers(d, key);
  }

  /** A search does to the cache what the trace expects. */
  lemma SearchHasEffect(engine: Engine, maxsize: int, ttl: real, l: Ledger, events: seq<Event>, i: nat,
                        response: Response, cached: bool, before: seq<Cached>, after: seq<Cached>)
    requires i < |events| && events[i].Search?
    requires IsStep(engine, maxsize, ttl, LedgerAt(l, events, i), events[i], response, cached, before, after)
    ensures Effect(TraceSetting(engine, ttl, l, events), i, Some(response), cached, before, after)
  {
    var event := events[i];
    GetFindsEntry(maxsize, ttl, before, event.req.key, event.arrived);
    if cached {
      var e :| e in before && e.key == event.req.key && e.value == response && event.arrived <= e.expires;
      assert Matches(e, Searches(events)[i].value, response);
    } else {
      SetAddsEntry(maxsize, ttl, Step(maxsize, ttl, before, Op.Get(event.req.key, event.arrived)).0,
                   event.req.key, response, event.answered);
    }
  }

  /** The contents of the cache after a search, and what it answers. */
  ghost predicate IsStep(engine: Engine, maxsize: int, ttl: real, l: Ledger, event: Event, response: Response,
                         cached: bool,
                         before: seq<Cached>, after: seq<Cached>)
    requires event.Search?
  {
    var looked := Step(maxsize, ttl, before, Op.Get(event.req.key, event.arrived));
    if cached then (after, Some(response)) == looked
    else looked.1 == None && Answers(engine, l, event.req, event.authority, response)
         && after == Step(maxsize, ttl, looked.0, Op.Set(event.req.key, response, event.answered)).0
  }

  /** A fresh answer is put into the cache. */
  lemma FreshIsStored(engine: Engine, maxsize: int, ttl: real, l: Ledger, event: Event, response: Response,
                      before: seq<Cached>, after: seq<Cached>)
    returns (looked: seq<Cached>)
    requires event.Search? && IsStep(engine, maxsize, ttl, l, event, response, false, before, after)
    ensures after == Step(maxsize, ttl, looked, Op.Set(event.req.key, response, event.answered)).0
  {
    looked := Step(maxsize, ttl, before, Op.Get(event.req.key, event.arrived)).0;
  }

  /** What the cache finds is the answer. */
  lemma FoundIsAnswered(engine: Engine, maxsize: int, ttl: real, l: Ledger, event: Event, response: Response,
                        cached: bool, before: seq<Cached>, after: seq<Cached>, found: Response)
    requires event.Search? && IsStep(engine, maxsize, ttl, l, event, response, cached, before, after)
    requires Step(maxsize, ttl, before, Op.Get(event.req.key, event.arrived)).1 == Some(found)
    ensures cached && response == found
  {
  }

  /**
   The same request again, next: it is answered from the cache, with the same
   response, as long as the fresh answer has not expired.
   */
  lemma RepeatIsServedFromCache(engine: Engine, maxsize: int, ttl: real, l: Ledger, first: Event, second: Event,
                                response: Response, before: seq<Cached>, between: seq<Cached>,
                                again: Response, cached: bool, after: seq<Cached>)
    requires first.Search? && second.Search? && first.req.key == second.req.key && ttl > 0.0 && maxsize > 0
    requires IsStep(engine, maxsize, ttl, l, first, response, false, before, between)
    requires IsStep(engine, maxsize, ttl, l, second, again, cached, between, after)
    requires second.arrived <= first.answered + ttl
    ensures cached && again == response
  {
    var looked := FreshIsStored(engine, maxsize, ttl, l, first, response, before, between);
    WriteIsReadBack(maxsize, ttl, looked, first.req.key, response, first.answered, second.arrived);
    FoundIsAnswered(engine, maxsize, ttl, l, second, again, cached, between, after, response);
  }

  // ---- Runs so far ----

  /** Searches are answered, without what was deleted before; other events are not. */
  ghost predicate AllClean(l: Ledger, events: seq<Event>, answers: seq<Option<Response>>)
    requires |answers| <= |events|
  {
    forall k :: 0 <= k < |answers| ==>
      && (answers[k].Some? <==> events[k].Search?)
      && (answers[k].Some? ==> Clean(answers[k].value.results, LedgerAt(l, events, k)))
  }

  /** So a document that one event deletes is in no later answer. */
  lemma DeletedIsNeverServed(l: Ledger, events: seq<Event>, answers: seq<Option<Response>>, j: nat, k: nat)
    requires |answers| == |events| && AllClean(l, events, answers)
    requires j < k < |events| && events[j].DeleteUrl? && events[j].url in LedgerAt(l, events, j).urls
    requires answers[k].Some?
    ensures forall r :: r in answers[k].value.results ==> r.docId != LedgerAt(l, events, j).urls[events[j].url]
  {
    DeletedForEver(l, events, j, k);
  }

  lemma CleanStep(l: Ledger, events: seq<Event>, answers: seq<Option<Response>>, answer: Option<Response>)
    requires |answers| < |events| && AllClean(l, events, answers)
    requires answer.Some? <==> events[|answers|].Search?
    requires answer.Some? ==> Clean(answer.value.results, LedgerAt(l, events, |answers|))
    ensures AllClean(l, events, answers + [answer])
  {
  }

  /** Answers are clean, and if the cache was empty at the start, answers and entries are traced. */
  ghost predicate RunSoFar(engine: Engine, ttl: real, l: Ledger, events: seq<Event>, answers: seq<Option<Response>>,
                           sources: seq<nat>, entries: seq<Cached>, fromEmpty: bool)
    requires |answers| <= |events|
  {
    && AllClean(l, events, answers)
    && (fromEmpty ==> Traced(TraceSetting(engine, ttl, l, events), answers, sources, entries))
  }

  lemma NothingRun(engine: Engine, ttl: real, l: Ledger, events: seq<Event>, entries: seq<Cached>)
    ensures RunSoFar(engine, ttl, l, events, [], [], entries, entries == [])
  {
  }

  lemma RunStep(engine: Engine, ttl: real, l: Ledger, events: seq<Event>, answers: seq<Option<Response>>,
                sources: seq<nat>,
                answer: Option<Response>, cached: bool, before: seq<Cached>, after: seq<Cached>, fromEmpty: bool)
    returns (source: nat)
    requires |answers| < |events| && RunSoFar(engine, ttl, l, events, answers, sources, before, fromEmpty)
    requires answer.Some? <==> events[|answers|].Search?
    requires answer.Some? ==> Clean(answer.value.results, LedgerAt(l, events, |answers|))
    requires Effect(TraceSetting(engine, ttl, l, events), |answers|, answer, cached, before, after)
    ensures RunSoFar(engine, ttl, l, events, answers + [answer], sources + [source], after, fromEmpty)
  {
    CleanStep(l, events, answers, answer);
    source := 0;
    if fromEmpty {
      source := TraceStep(TraceSetting(engine, ttl, l, events), answers, sources, answer, cached, before, after);
    }
  }

  lemma RunIsExplained(engine: Engine, ttl: real, l: Ledger, events: seq<Event>, answers: seq<Option<Response>>,
                       sources: seq<nat>, entries: seq<Cached>, fromEmpty: bool)
    requires |answers| <= |events| && RunSoFar(engine, ttl, l, events, answers, sources, entries, fromEmpty)
    ensures AllClean(l, events, answers)
    ensures fromEmpty ==> AllComeFrom(engine, ttl, l, events, answers, sources)
  {
    if fromEmpty {
      SourcesAreOrigins(engine, ttl, l, events, answers, sources);
    }
  }

  lemma AppendPage(engine: Engine, pages: seq<IndexedPage>, page: IndexedPage)
    ensures Corpus(engine, pages + [page]) == Corpus(engine, pages) + [engine.tokenize(page.text)]
    ensures Metas(pages + [page]) == Metas(pages) + [page.meta]
    ensures Vectors(pages + [page]) == Vectors(pages) + [page.vector]
    ensures Positions(|pages| + 1) == Positions(|pages|) + [|pages|]
  {
  }
}
