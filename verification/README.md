# Verified model of the Axon search engine core

This project models the algorithmic core of the search engine in Dafny and
proves what its parts promise, for every input, every run and every
interleaving. Machine-learned models, HTTP, HTML parsing and the scoring
libraries are arbitrary functions; clock readings are arguments.

- `LinkGraph.dfy` is the link graph as a class over its five dictionaries, with
  the nested PageRank loops. `PageRank.dfy` is the specification, a damped random
  surfer, and its theory: conservation of mass, L1 contraction, uniqueness, and
  the error at either exit of the loop. `Stationary.dfy` shows by elimination that
  the stationary vector exists, so the error bound is never about nothing.
  `LinkEquation.dfy` ties the surfer to the links: the one even division of a page's
  rank, and the equation that the exact score of every URL solves.
  `Convergence.dfy` says for which parameters the loop converges on every graph, and
  `LinkAuthority.dfy` carries the scores over to the retriever's boost.
- `CrawlScheduler.dfy` (with `CrawlLimits.dfy` and `CrawlSpin.dfy`), `RobotsCache.dfy`
  and `Pipeline.dfy` (with `PipelineConservation.dfy`, `PipelineDuplicates.dfy` and
  `PipelineProgress.dfy`) are
  transition systems: states, actions, an inductive invariant, and theorems about every
  reachable state or every run. Tasks may be interrupted at more points than
  the single-threaded event loop allows, so the systems have all the original's
  runs and some more; what is proved of all of them holds of the original's.
- `TtlCache.dfy`, `RateLimiter.dfy` and `DomainBucket.dfy` are classes whose
  methods are tied to a step function, or to a ghost history, about which the
  theorems speak. `CacheCalls.dfy` says what one call does to the entries themselves.
- `TopK.dfy`, `Bm25.dfy`, `VectorStore.dfy`, `HybridRetriever.dfy`,
  `Pagination.dfy` and `SearchApi.dfy` follow a query from the two tombstoned
  indices through fusion, filters, boost, reranking and slicing to the cached
  response, and follow deletions and batch flushes through the same state.
  `IndexAnswers.dfy`, `RankingContents.dfy` and `PageContents.dfy` say what every such
  list holds, hit by hit, with both directions, and what stands before what.
  `SearchLedger.dfy` says what the events of a run have added and deleted and which
  responses that allows; `CacheTrace.dfy` traces cached responses to their origin.
- `TextChunker.dfy` and `Snippets.dfy` are the text algorithms; `ChunkedText.dfy` and
  `ChunkCuts.dfy` say which text, and which sentences, each chunk holds.
- `Ranking.dfy` (stable sort, prefix, selection), `Sums.dfy`, `Counting.dfy`,
  `Decimal.dfy`, `Documents.dfy` and `Common.dfy` are shared.

`dafny verify dfyconfig.toml` checks everything.

## What the proofs found

- **The crawl can spin for ever.** The frontier loop collects results only right
  after it spawns a worker. Once nothing is left to spawn, the workers' results stay
  in the queue, `active` stays positive, and the loop sleeps without end.
  `CanSpinIff`: with a permit at hand some run ends so exactly if there is a seed and
  `max_pages` is positive, and then some run does it with a fetched page that is never
  yielded (`SeedPageIsLost` gives it, for any seeds). `StuckIffNothingChanges`
  characterises the states. Only the trailing drain is therefore proved to terminate.
- **Reranked or filtered pages can be wrong.** Each page works on the first
  `5 * (offset + top_k)` candidates only, or on the first `offset + top_k` without the
  reranker. `AlwaysSliceIff`: pages are slices of one global order, whatever the models
  say, exactly if no model is asked or the fetched candidates are all there are.
  `PageIsSliceIff` is the condition for given models; `RerankedPagesRepeat` and
  `RerankedPagesLose` give a family, for every page size, in which page two repeats a
  document of page one and the best document appears on no page at any offset.
- **Deleting a URL removes its latest copy.** A URL indexed twice maps to its last
  document only, and `DeleteLeavesEarlierCopy` shows the earlier one still live after
  the deletion. `UrlIsGoneIff`: a known URL is gone exactly if no other live document
  carries it. `RemovableIff`: whatever is added and deleted later, a live document can
  ever be removed exactly if it is the latest of its URL.
- **Long sentences are hard-split only at the start of a text.** A sentence is
  hard-split exactly if it and all sentences before it reach `max_chars`
  (`HardSplitIff`). Any other long sentence is kept whole behind the overlap, so a
  chunk can exceed `max_chars` (`LongSentenceIsNotSplit`). `AlwaysWithinIff` is the
  exact condition, for all limits and all n: chunks of texts with sentences of up to n
  characters keep to `max_chars` exactly if nothing can be buffered at all
  (`max_chars <= 1` or n = 0), or there is an overlap and `overlap + 1 + n <= max_chars`;
  for n = 1 an even overlap of `max_chars - 1` will do as well, since the cut then falls
  on a blank, which is stripped.
- **Without an overlap nothing bounds the chunks.** An overlap of zero keeps the whole
  buffer. The bound `max(max_chars, overlap + 1 + longest sentence)` holds for all texts
  exactly if there is an overlap or no room for a buffer (`AlwaysBoundedIff`); otherwise
  chunks of one-character words exceed every number (`NoOverlapNoBound`).
- **An overlap that reaches the limit loses text.** No sentence is ever lost exactly
  if `overlap < max_chars` (`AlwaysCoversIff`); otherwise a long first sentence
  vanishes, or raises if the two are equal.
- **The default rounds are too few for the default tolerance.** The PageRank loop leaves
  by its tolerance test on every graph exactly if `2 * d^iterations <= tol`, with a
  positive tolerance and at least one round (`AlwaysConvergesIff`). With the defaults it
  does not, but the scores are within 0.0006 of the exact ones in L1 on every graph
  (`DefaultParameters`).
- **The cache evicts entries that could still be read.** Its documentation
  (`src/utils/cache.py:23-25`) promises eviction in LRU order among unexpired entries;
  the code evicts the least recently used entry whether it has expired or not.
  `ExpiredOutlivesReadable` gives four calls that drop a readable entry and keep an
  expired one; `EvictsReadableIff` says exactly when a set does so.

## Model

| member | source | states |
|---|---|---|
| LinkGraphs.LinkGraph.constructor | src/crawler/link_graph.py:25-35 | a new graph is valid, empty and dirty |
| LinkGraphs.LinkGraph.GetOrCreate | src/crawler/link_graph.py:158-163 | known URLs keep their id, a new one gets the next number, and ids stay a numbering 0..n-1 with its inverse |
| LinkGraphs.LinkGraph.AddLink | src/crawler/link_graph.py:41-48 | exactly one link is added to the set of links and both ends to the URLs, earlier ids survive, in-rows stay the duplicate-free transpose of the out-rows, and the cache becomes dirty just when the link is new |
| LinkGraphs.LinkGraph.AddPage | src/crawler/link_graph.py:50-53 | the links of the page are added as a set, a page without links adds nothing, and the invariant is kept |
| LinkGraphs.Round | src/crawler/link_graph.py:77-96 | one pass over in-rows with the dangling sum computes one step of the random surfer, and delta is its L1 change |
| LinkGraphs.InRowSum | src/crawler/link_graph.py:79-92 | summing over in-rows plus the dangling share equals summing over all nodes' outgoing weights: needs the in-row to be the duplicate-free transpose |
| LinkGraphs.LinkGraph.ComputePageRank | src/crawler/link_graph.py:65-100 | the stored scores are those of the specification loop with both exits, the graph is clean after, and an empty graph is left alone |
| LinkGraphs.LinkGraph.GetScore | src/crawler/link_graph.py:102-109 | never stale: the score of a fresh computation on the current graph, zero for an unknown URL |
| LinkGraphs.LinkGraph.LogScore | src/crawler/link_graph.py:122-125 | the logarithm of the fresh score, magnified |
| LinkGraphs.LinkGraph.TopK | src/crawler/link_graph.py:111-120 | the first k of the stable descending sort of all URLs by fresh score, also for negative k |
| LinkGraphs.LinkGraph.ToDict | src/crawler/link_graph.py:131-138 | the data decodes to ids, edges and fresh scores, and is well formed |
| LinkGraphs.LinkGraph.FromDict | src/crawler/link_graph.py:140-152 | for any data: loading fails exactly on a key that is not an integer; otherwise ids and decoded edges and scores come back, the in-rows are the transpose, and the graph is consistent exactly if the ids are a numbering and the edge lists are rows of it |
| LinkGraphs.WellFormedDataLoads | src/crawler/link_graph.py:131-152 | what to_dict writes always loads, and into one graph only |
| Decimal.CanonicalKeysAreRead | src/crawler/link_graph.py:136-149 | keys that str() wrote are all read, and decode to one dictionary only |
| LinkGraphs.Reload | src/crawler/link_graph.py:131-152 | saving and loading gives a valid graph with equal ids, edges, links and fresh scores |
| LinkGraphs.StoredScoresAreAccurate | src/crawler/link_graph.py:65-100 | clean scores are a distribution with floor (1-d)/n and lie within the error limit of the unique stationary vector, which exists; and within the error that the parameters alone promise |
| Decimal.DecodeEncode | src/crawler/link_graph.py:136-149 | writing integer keys as decimal strings and reading them back is the identity on dictionaries |
| PageRank.WeightsSumToOne | src/crawler/link_graph.py:79-92 | the surfer's outgoing weights sum to one from every node, dangling or not |
| LinkEquation.WeightsIff | src/crawler/link_graph.py:79-93 | the weights are the one way to divide a page's rank that gives out all of it, the same to every linked page and nothing to others, and the same to every page if it links to none |
| LinkEquation.StepEquation | src/crawler/link_graph.py:75-94 | one step gives each page (1-d)/n, and d times the sum of rank over out-degree of the pages that link to it plus its share of the dangling pages |
| LinkEquation.StationaryIff | src/crawler/link_graph.py:75-94 | a vector is stationary exactly if it solves these equations |
| LinkEquation.ScoreEquation | src/crawler/link_graph.py:65-100 | in a valid graph the exact score of every URL solves the equation of its hyperlinks, with the number of distinct linked pages as out-degree |
| PageRank.MassIsPassedOn | src/crawler/link_graph.py:79-92 | a step conserves the total of any vector, by exchanging the double sum |
| PageRank.IteratesConserveMass | src/crawler/link_graph.py:72-96 | every iterate sums to exactly one and gives each node at least (1-d)/n |
| PageRank.Contraction | src/crawler/link_graph.py:75-94 | one step brings any two vectors closer in L1 by the factor d |
| PageRank.FixedPointIsUnique | src/crawler/link_graph.py:75-94 | there is at most one stationary vector |
| PageRank.ConvergedExit | src/crawler/link_graph.py:96-98 | leaving by delta < tol puts the scores within d*tol/(1-d) of any fixed point |
| PageRank.CappedExit | src/crawler/link_graph.py:75-96 | running out of rounds leaves the initial distance shrunk by d in every round |
| PageRank.ErrorBound | src/crawler/link_graph.py:65-100 | for every graph, tolerance and round count: d*tol/(1-d) after convergence, 2*d^iterations after the cap |
| Convergence.AlwaysConvergesIff | src/crawler/link_graph.py:65-98 | the tolerance test fires on every graph exactly if there is a round, the tolerance is positive and 2*d^iterations is within it; else a long chain with many leaves outlasts the rounds |
| Convergence.ErrorIsPromised | src/crawler/link_graph.py:65-100 | so the parameters alone decide which error to expect: d*tol/(1-d) if the rounds suffice, else the worse of the two |
| Convergence.DefaultParameters | src/crawler/link_graph.py:25-98 | with damping 0.85, 50 rounds and tolerance 1e-6 the test does not fire on every graph, and the error is at most 0.0006 on every graph |
| PageRank.ScoresConserveMass | src/crawler/link_graph.py:65-100 | the stored scores themselves form a distribution with floor (1-d)/n |
| Stationary.StationaryVectorExists | src/crawler/link_graph.py:75-94 | every well-formed graph with 0 <= d < 1 has a stationary vector |
| CrawlScheduler.ReachableInv | src/crawler/async_crawler.py:182-269 | in every reachable state active equals unfinished workers plus queued markers, yielded plus queued pages are the produced ones in order, every found link is spawned or pending, and every entry has its origin |
| CrawlLimits.SpawnsBelowLimit | src/crawler/async_crawler.py:231-244 | in every run a worker is added only while fewer than max_pages pages are counted, and for the first entry of the frontier |
| CrawlLimits.LimitIsFinal | src/crawler/async_crawler.py:233-244 | once the frontier loop meets the limit no worker is ever added again |
| CrawlLimits.OvershootIsPending | src/crawler/async_crawler.py:231-269 | from then on the pages yielded exceed the count by no more than was queued or in flight |
| CrawlLimits.NoRoomNoCrawl | src/crawler/async_crawler.py:233-269 | with max_pages zero or negative nothing is ever spawned, produced or yielded |
| CrawlLimits.GeneratorIsDeterministic | src/crawler/async_crawler.py:231-269 | in every state at most one step of the generator is possible |
| CrawlLimits.GeneratorWaitsIff | src/crawler/async_crawler.py:231-269 | and none exactly after the return, or in the drain with an empty queue and active positive |
| CrawlLimits.WaitsIffAllPermitsAreUsed | src/crawler/async_crawler.py:186-200 | a waiting worker cannot enter exactly while as many workers as there are permits are inside |
| CrawlLimits.EverySeedIsVisited | src/crawler/async_crawler.py:182-184 | leaving by the break, each seed has its worker, at depth zero and in the order of the seeds |
| CrawlLimits.FrontierIsFifo | src/crawler/async_crawler.py:182-244 | what is pushed stays behind all that was pushed before, so workers start in the order of discovery |
| CrawlLimits.NewEntriesInOrder | src/crawler/async_crawler.py:216-221 | the new links of a page are pushed in their order on the page |
| CrawlLimits.NothingSeenIsRevisited | src/crawler/async_crawler.py:165-227 | a later crawl of the same crawler visits nothing that an earlier one has seen, except seeds |
| CrawlLimits.EveryFetchedPageIsYielded | src/crawler/async_crawler.py:199-269 | every page that any worker fetched was yielded when the crawl returns |
| CrawlScheduler.QuiescenceIsSound | src/crawler/async_crawler.py:231-240 | after the active == 0 break no worker runs, queue and frontier are empty, everything produced was yielded, and every link of a yielded page below the depth limit was spawned |
| CrawlScheduler.EveryLinkIsVisited | src/crawler/async_crawler.py:215-240 | with a fresh crawler and an injective hash, such a link has a worker with exactly that URL |
| CrawlScheduler.ReturnYieldsEverything | src/crawler/async_crawler.py:257-269 | on return, by either exit, every produced page was yielded exactly once, in order, and all workers are done |
| CrawlScheduler.DrainMakesProgress | src/crawler/async_crawler.py:260-269 | the trailing get never waits for ever: an empty queue with positive active leaves a worker that can move |
| CrawlScheduler.DrainTerminates | src/crawler/async_crawler.py:260-269 | the drain's runs are bounded by a measure of unfinished work plus queue length |
| CrawlScheduler.NoUrlSpawnedTwice | src/crawler/async_crawler.py:215-227 | with seeds of distinct hash no URL is spawned twice in any interleaving |
| CrawlScheduler.NoUrlYieldedTwice | src/crawler/async_crawler.py:199-269 | nor yielded twice |
| CrawlScheduler.SpawnedDepths | src/crawler/async_crawler.py:182-184 | a spawned depth is zero or at most max_depth, and is the length of a path of links over fetched pages from a seed |
| CrawlScheduler.ConcurrencyIsBounded | src/crawler/async_crawler.py:186-200 | never more fetching workers than permits |
| CrawlSpin.StuckIffNothingChanges | src/crawler/async_crawler.py:231-254 | the unfinished reachable states from which nothing changes are exactly those with the frontier loop's sleeping guards and all workers done |
| CrawlSpin.SeedPageIsLost | src/crawler/async_crawler.py:231-254 | from any seeds, with room for a page and a permit, a run into a stuck state whose one fetched page is never yielded |
| CrawlSpin.CanSpinIff | src/crawler/async_crawler.py:199-254 | with a permit, some run gets stuck exactly if there is a seed and max_pages is positive, and some run loses a page under the same condition |
| TtlCache.TTLCache.Get | src/utils/cache.py:35-52 | the step function's contents and answer, and the hit and miss counters |
| TtlCache.TTLCache.Set | src/utils/cache.py:54-61 | the step function's contents: touched last, cut to the newest maxsize entries |
| TtlCache.TTLCache.Clear | src/utils/cache.py:63-65 | nothing is left |
| TtlCache.RunKeepsShape | src/utils/cache.py:35-65 | after any run keys are distinct and the size is at most maxsize |
| CacheCalls.ReadDoes | src/utils/cache.py:35-52 | a read takes an expired entry out, moves any other to the end and returns its value; all others keep their places |
| CacheCalls.WriteDoes | src/utils/cache.py:54-61 | a write of a stored key takes its entry out and puts the new one last, expiring ttl later |
| CacheCalls.WriteOfNewKeyDoes | src/utils/cache.py:54-61 | a write of a new key puts it last, and drops the first entry exactly if the cache is full |
| CacheCalls.WriteIsReadBack | src/utils/cache.py:35-61 | whatever the cache holds, what was just written is read back until it expires |
| CacheCalls.NothingDone | src/utils/cache.py:35-61 | a cache that is off keeps what it has, and a missing key is a miss that changes nothing |
| TtlCache.LargerCacheIncludesSmaller | src/utils/cache.py:35-65 | for one sequence of calls a larger cache holds all entries of a smaller one, and each hit of the smaller is the same hit in the larger |
| TtlCache.HitsAreCurrent | src/utils/cache.py:35-61 | a hit returns what the latest set since the last clear stored, not later than ttl after it |
| TtlCache.EverySetIsAccounted | src/utils/cache.py:35-65 | after any run a key's latest entry is present with only rivals newer, was pushed out by maxsize rivals, or was read after expiry |
| TtlCache.CurrentKeysHit | src/utils/cache.py:35-61 | an unexpired key with fewer than maxsize rivals since its last touch must hit |
| TtlCache.EvictsReadableIff | src/utils/cache.py:54-61 | a set drops a readable entry and keeps an expired one exactly if the cache is on and overflows, its least recently used entry is unexpired and another one has expired |
| TtlCache.ExpiredOutlivesReadable | src/utils/cache.py:23-61 | four calls on a cache of two entries that do so |
| RateLimiter.RateLimitMiddleware.Dispatch | src/api/rate_limit.py:44-66 | the decision function on this client's window; other clients' windows and exempt requests are untouched |
| RateLimiter.WindowIsRecentAdmissions | src/api/rate_limit.py:51-64 | the deque holds just the admission times at most a window old |
| RateLimiter.AdmissionTest | src/api/rate_limit.py:51-56 | a request passes exactly if fewer than limit were admitted in the closed window that ends now |
| RateLimiter.LimiterIsSafe | src/api/rate_limit.py:48-64 | every closed 60 s interval, wherever it starts, has at most limit admissions |
| RateLimiter.GreedyIsOptimal | src/api/rate_limit.py:48-64 | no policy that keeps that bound admits more requests in any prefix of the same arrivals |
| RateLimiter.RetryAfterIsExact | src/api/rate_limit.py:56-62 | the advertised seconds are the least whole number after which the client is admitted, if nothing of its is admitted meanwhile (section 10.2.3 of RFC 9110, section 4 of RFC 6585) |
| RateLimiter.RejectionsChangeNothing | src/api/rate_limit.py:56-62 | a further rejected attempt does not postpone admission |
| RateLimiter.WindowNeverExceedsLimit | src/api/rate_limit.py:52-64 | the deque never grows past limit |
| RateLimiter.ClientsAreIndependent | src/api/rate_limit.py:35-64 | each client's deque is that of its own requests alone, whatever the others do |
| RobotsCache.ReachableInv | src/crawler/robots.py:74-98 | the locking and log invariants hold in every reachable state |
| RobotsCache.OneFetchPerDomain | src/crawler/robots.py:88-98 | at most one fetch of a domain is in flight |
| RobotsCache.NoRedundantFetch | src/crawler/robots.py:33-98 | a later fetch starts only more than 24 h (section 2.4 of RFC 9309) after fetched_at of every earlier one |
| RobotsCache.AnswersAreFresh | src/crawler/robots.py:74-98 | in every run, whenever a task finishes there is an entry of its domain that was stored by a fetch at most a day before |
| RobotsCache.FetchBeginsIff | src/crawler/robots.py:89-98 | a fetch begins exactly when a holder of the lock finds nothing stored or something older than a day |
| RobotsCache.OneLockForEver | src/crawler/robots.py:84-88 | a domain's lock never changes and all its tasks use it |
| RobotsCache.NoDeadlock | src/crawler/robots.py:79-98 | while a task is unfinished some task can move |
| RobotsCache.SixStepsEach | src/crawler/robots.py:79-98 | a run takes at most six steps for each task, besides arrivals and clock ticks |
| TopK.OverFetchSuffices | src/indexer/bm25.py:147-174 | skipping tombstones in the best k + tombstones candidates leaves exactly the best k eligible ones, in descending order |
| TopK.MissedMeansEnough | src/indexer/bm25.py:155-158 | if an eligible document is not among the fetched ones, at least k eligible ones are: over-fetching by the tombstone count is enough |
| TopK.ReferenceIsTopK | src/indexer/bm25.py:147-174 | filter, then sort, then cut is such a best-k answer |
| TopK.TopKScoresAreUnique | src/indexer/bm25.py:147-174 | up to ties there is only one answer: equal scores position by position |
| IndexAnswers.SparseAnswerIs | src/indexer/bm25.py:137-174 | the hits are live documents with positive scores, each once with its own score and metadata, higher scores first; a live positive document is left out only if there are top_k hits that score no lower |
| IndexAnswers.DenseAnswerIs | src/indexer/vector_store.py:114-149 | the same of the live rows, whatever the sign of their scores |
| Bm25.BM25Index.Add | src/indexer/bm25.py:90-106 | the next id, the document appended, and its URL pointing to it unless empty |
| Bm25.BM25Index.Rebuild | src/indexer/bm25.py:122-131 | the scoring object covers the whole corpus; an empty corpus is left alone |
| Bm25.BM25Index.Search | src/indexer/bm25.py:137-174 | the best top_k live documents of positive score under the current corpus, even right after an add; at most one when asked for none; nothing for a query without tokens |
| Bm25.BM25Index.Delete | src/indexer/bm25.py:188-193 | true exactly for a known live id, which becomes a tombstone and leaves the length |
| Bm25.BM25Index.DeleteByUrl | src/indexer/bm25.py:195-203 | tombstones the document last added under the URL |
| VectorStores.VectorStore.Add | src/indexer/vector_store.py:85-91 | one row is appended to vectors, ids and metadata alike |
| VectorStores.VectorStore.Search | src/indexer/vector_store.py:114-149 | the hits are stored rows, none of a tombstoned document; with distinct ids the best top_k live rows in descending order; nothing on an empty index |
| VectorStores.VectorStore.Delete | src/indexer/vector_store.py:155-160 | true exactly for a stored live id, which becomes a tombstone |
| HybridRetrieval.RrfFuse | src/search/hybrid_retriever.py:146-184 | one result per document of either list, in order of first appearance, with its summed terms, its ranks, and the sparse metadata if there is any |
| RankingContents.FusedResultIs | src/search/hybrid_retriever.py:146-184 | a fused result has the ranks, counted from one, at which its document first stands in each list, weight/(60 + rank) for each, and the metadata of the sparse hit if there is one |
| RankingContents.FusedInOrder | src/search/hybrid_retriever.py:146-184 | fused results come in the order in which their documents first appear in the sparse and then the dense list |
| HybridRetrieval.ScoreIsSumOfTerms | src/search/hybrid_retriever.py:157-169 | without repeated ids each document scores exactly one reciprocal-rank term for each list that contains it |
| HybridRetrieval.RankingInBothDominates | src/search/hybrid_retriever.py:157-169 | with positive weights, ranked at least as well in both lists means scoring at least as high |
| HybridRetrieval.BothListsBeatOne | src/search/hybrid_retriever.py:157-169 | with equal weights a document in both lists at ranks up to 61 strictly beats every one-list document |
| HybridRetrieval.RankBoundIsTight | src/search/hybrid_retriever.py:57-169 | rank 62 in both lists only ties with rank 1 in one |
| HybridRetrieval.ApplyFilters | src/search/hybrid_retriever.py:190-230 | exactly the results that pass site, exclusion, inclusion and extra filters, in order |
| RankingContents.KeepsIff | src/search/hybrid_retriever.py:190-230 | a result is kept exactly if its URL contains the site, no excluded term occurs in URL or title, every required one occurs in either, and the extra filters hold |
| HybridRetrieval.PagerankBoost | src/search/hybrid_retriever.py:236-242 | each result gets its authority and the boosted score, at its place |
| HybridRetrieval.BoostIsMonotone | src/search/hybrid_retriever.py:236-242 | the boost never lowers a score and keeps a result ahead of one with no more authority |
| HybridRetrieval.DominanceSurvivesBoost | src/search/hybrid_retriever.py:146-242 | dominance in both lists and in authority gives a final score at least as high |
| LinkAuthority.DominanceInRanksAndLinks | src/search/hybrid_retriever.py:146-242 | with a logarithm that is monotone and not negative: ranked at least as well in both lists and with at least as high a stored PageRank means a final score at least as high |
| HybridRetrieval.RankedComesFromHits | src/search/hybrid_retriever.py:124-140 | the ranking is descending and holds only documents that an index returned and the filters passed |
| RankingContents.RankingIff | src/search/hybrid_retriever.py:124-140 | a result is in the ranking exactly if it belongs to a document of either list whose fused result passes the filters, boosted by the authority of its URL if there is a link graph and alpha is positive |
| RankingContents.HigherStandsFirst | src/search/hybrid_retriever.py:134-140 | of two such documents the one with the larger rrf * (1 + alpha * authority) stands first |
| RankingContents.HigherStandsFirstUnboosted | src/search/hybrid_retriever.py:134-140 | without a boost, the one with the larger fused score |
| HybridRetrieval.RankingIsShort | src/search/hybrid_retriever.py:124-140 | a ranking has at most as many results as both indices gave |
| HybridRetrieval.HybridRetriever.Retrieve | src/search/hybrid_retriever.py:98-140 | the first top_k of the ranking of what both indices answer; aligned indices give lists without repeated ids |
| Pagination.NeuralFilter | src/search/neural_filter.py:49-95 | exactly the passing results, in order |
| Pagination.Rerank | src/search/reranker.py:59-99 | the stable descending sort of the scored results, cut unless the cut is zero |
| Pagination.PageOf | src/api/routes/search.py:80-117 | the requested slice of the candidates after filter and reranker, also when there are none |
| PageContents.OrderIff | src/api/routes/search.py:74-114 | before it is cut, the order holds exactly the candidates that pass the neural filter if it is asked for, each with its reranker score if that is |
| PageContents.PageHoldsPassing | src/api/routes/search.py:74-117 | every result on a page is a passing candidate, with its score |
| PageContents.RerankedPageIsBest | src/search/reranker.py:59-99 | with the reranker, every passing candidate stands before a given place of the page or scores no higher than the result there |
| Pagination.SortSelect | src/search/reranker.py:95-99 | a stable sort commutes with leaving elements out |
| Pagination.CandidateOrder | src/api/routes/search.py:74-114 | what a request gets to see is the fully filtered and reranked order minus the unfetched documents |
| Pagination.FinalRankingHasDistinctIds | src/search/hybrid_retriever.py:98-140 | every ranking names each document once, so the page theorems apply to it |
| Pagination.PageIsSliceIff | src/api/routes/search.py:63-117 | a page is the right slice of the global order exactly if it lies past the end or everything up to the end of its window was among the candidates |
| Pagination.CoveredPagesAreSlices | src/api/routes/search.py:74-117 | in particular once 5*(offset+top_k) covers all candidates |
| Pagination.AlwaysSliceIff | src/api/routes/search.py:63-117 | pages are right whatever the models say exactly if neither model is asked or the candidates fetched are all there are |
| SearchLedger.EnoughFetched | src/api/routes/search.py:63-117 | which the caller can know: fetching twice candidate_k is enough, for all models and all states of the indices |
| Pagination.PlainPagesTile | src/api/routes/search.py:63-117 | without filter and reranker the pages put together are the ranking: none lost, repeated or reordered |
| Pagination.FilteredPageIsPrefix | src/api/routes/search.py:95-117 | with the filter only, a page is a prefix of its slice of the fully filtered ranking |
| Pagination.FilteredPagesDoNotOverlap | src/api/routes/search.py:95-117 | so two pages never share a document |
| Pagination.RerankedPagesRepeat | src/api/routes/search.py:74-117 | with the reranker the second page can repeat the last document of the first, for every page size |
| Pagination.RerankedPagesLose | src/api/routes/search.py:74-117 | and the best document can be missing from every page |
| SearchApi.SearchService.AddPage | src/indexer/pipeline.py:203-214 | both indices take the page under the next document id and agree with the ledger of what was ever added and deleted |
| SearchApi.SearchService.Flush | src/indexer/pipeline.py:190-214 | the pages of a batch get the next ids in order, and the invariant is kept |
| SearchApi.SearchService.DeleteUrl | src/api/routes/index.py:73-100 | the latest document of a known URL is tombstoned in both indices and the cache emptied, an unknown URL changes nothing, and the id is returned |
| SearchApi.DeleteLeavesEarlierCopy | src/indexer/bm25.py:100-103 | a URL indexed twice and then deleted leaves its earlier document live |
| SearchLedger.UrlIsGoneIff | src/api/routes/index.py:73-100 | deleting a known URL leaves no live document with it exactly if no other live document carried it |
| SearchApi.SearchService.FinishBatch | src/api/routes/index.py:201-203 | the cache is emptied exactly if something was indexed |
| SearchLedger.RemovableIff | src/api/routes/index.py:73-100 | over all later runs: a live document can be deleted exactly if it is the latest of its URL |
| SearchLedger.RunKeepsOutOfReach | src/indexer/bm25.py:90-203 | in every run latest documents carry their URL, and a superseded live document stays live and superseded |
| SearchApi.SearchService.Fresh | src/api/routes/search.py:65-154 | the requested page of a ranking of the best live documents of both indices as they are now |
| SearchLedger.HitsAreTopK | src/search/hybrid_retriever.py:115-126 | for a positive candidate_k each index gives the best candidate_k live documents by its own score, or all if there are fewer |
| SearchApi.SearchService.Search | src/api/routes/search.py:43-157 | the unexpired cached response or a fresh one, the cache's exact new contents, and no deleted document either way |
| SearchLedger.ResponseHolds | src/api/routes/search.py:65-154 | the results are the requested page of one ranking of what the indices may answer, and the total is how many of it were fetched |
| SearchLedger.RepeatIsServedFromCache | src/api/routes/search.py:54-156 | the same request again, next, gets the same response from the cache until that expires |
| SearchLedger.NothingChangedSince | src/api/routes/search.py:54-156 | between a fresh answer and its reuse no batch that indexed something was finished and no known URL deleted |
| SearchApi.SearchService.Serve | src/api/routes/search.py:54-156 | under any interleaving of flushes, batch ends, deletions and searches: the state is what the events recorded, exactly the searches are answered, no answer holds a document deleted by an event before it, and from an empty cache on each answer is that of a named search with the same key, fresh then, at most ttl before, with nothing that empties the cache in between |
| SearchLedger.DeletedIsNeverServed | src/api/routes/search.py:54-156 | so the document that a deletion hits is in no later answer of the run |
| SearchLedger.AnswersAreClean | src/indexer/bm25.py:159-174 | every response that the indices' answers allow names live documents only |
| SearchLedger.SameTombstones | src/api/routes/search.py:54-156 | while nothing empties the cache nothing is deleted: a cached answer's source saw the same tombstones |
| CacheTrace.TraceStep | src/api/routes/search.py:54-156 | one more event, whatever it does to the cache, leaves every answer and every cached entry traced to the fresh answer it came from |
| PipelineConservation.ReachableInv | src/indexer/pipeline.py:100-225 | both queues are the unread part of their streams, the semaphore and queue bounds hold, and counters agree with task states |
| PipelineConservation.NothingIsLost | src/indexer/pipeline.py:124-225 | at the end crawled = extracted + quality_dropped + deduped + rejected, indexed = extracted, and the flushed batches concatenate to the queued pages, which are exactly the accepted ones |
| PipelineConservation.CountersAreDeterministic | src/indexer/pipeline.py:144-171 | in every interleaving the rejected and quality-dropped counts are those the gates give each result on its own, and every queued page passes the quality gate |
| PipelineConservation.BatchesAreFull | src/indexer/pipeline.py:216-225 | all flushed batches are full except possibly the last, and none is empty |
| PipelineConservation.NoTextQueuedTwice | src/indexer/pipeline.py:158-163 | if the duplicate test recognises equal texts, no two queued pages have the same text in any interleaving |
| PipelineDuplicates.GateIsJust | src/indexer/pipeline.py:158-163 | in every reachable state a page counted as a duplicate was found one by the test over some beginning of the accepted pages, and an accepted page was not, over those before it |
| PipelineDuplicates.OnePagePerText | src/indexer/pipeline.py:144-225 | if the test recognises exactly equal texts, the pages indexed in every interleaving are as many as the distinct texts that pass the quality gate |
| PipelineProgress.StopsIffFinal | src/indexer/pipeline.py:100-225 | no deadlock: nothing can move exactly when all three stages have ended, or when there are pages to extract and the number of extraction workers is zero |
| PipelineProgress.StepsDecrease | src/indexer/pipeline.py:100-225 | every step lowers a measure |
| PipelineProgress.RunsAreShort | src/indexer/pipeline.py:100-225 | no run over n crawl results has more than 8n + 5 steps |
| TextChunker.Sentences | src/utils/text_cleaner.py:67-70 | the stripped non-empty parts, in order |
| ChunkedText.StripIff | src/utils/text_cleaner.py:67-70 | stripping takes off the white space at both ends, all of it and nothing else |
| ChunkedText.SentencesIff | src/utils/text_cleaner.py:67-70 | the sentences are exactly the stripped parts that are not all white space |
| TextChunker.Chunk | src/utils/text_cleaner.py:72-109 | for all limits the two loops compute the chunk function about which the lemmas below speak, or fail, exactly if overlap and limit are equal and the first sentence reaches them |
| ChunkCuts.ChunksAreGreedy | src/utils/text_cleaner.py:85-109 | behind the hard-split front the sentences are divided among the chunks in order; each chunk is the overlap and its sentences joined by blanks, is closed only when the next sentence does not fit, and takes a second sentence only if it fits |
| ChunkedText.ChunksSpellText | src/utils/text_cleaner.py:85-109 | without their overlaps those chunks spell these sentences again |
| TextChunker.HeadsRestore | src/utils/text_cleaner.py:99-101 | the first max_chars - overlap_chars characters of hard-split pieces concatenate to the sentence |
| TextChunker.NoSentenceIsLost | src/utils/text_cleaner.py:85-109 | if long sentences can be split or the first is short, every sentence shorter than the limit lies within one chunk; a longer one does too or is spelt by the heads of consecutive chunks |
| TextChunker.AlwaysCoversIff | src/utils/text_cleaner.py:72-109 | no sentence of any text is lost exactly if the overlap is below the limit |
| TextChunker.HardSplitIff | src/utils/text_cleaner.py:92-102 | a sentence is hard-split exactly if it and all before it reach the limit |
| TextChunker.PiecesAreFull | src/utils/text_cleaner.py:99-101 | a hard-split piece has max_chars characters, or is the end of the sentence |
| TextChunker.PiecesOverlap | src/utils/text_cleaner.py:100-101 | each hard-split piece begins with what the piece before has beyond its head |
| TextChunker.ChunksOverlap | src/utils/text_cleaner.py:85-109 | the chunks are the front pieces, and then each begins with the stripped last overlap_chars characters of the one before |
| TextChunker.ChunksAreBounded | src/utils/text_cleaner.py:85-109 | no chunk exceeds max(max_chars, overlap_chars + 1 + longest sentence) |
| TextChunker.AlwaysBoundedIff | src/utils/text_cleaner.py:85-109 | that bound holds for all texts exactly if the overlap is positive or the limit at most one |
| TextChunker.NoOverlapNoBound | src/utils/text_cleaner.py:93-98 | with overlap 0 and a limit above one, for every number a text of one-character words with a longer chunk |
| TextChunker.LongSentenceIsNotSplit | src/utils/text_cleaner.py:93-98 | a sentence that overflows a non-empty buffer is kept whole behind the overlap, whatever its length, and the chunk can reach the bound |
| TextChunker.AlwaysWithinIff | src/utils/text_cleaner.py:85-109 | for all limits and all n: all chunks of all texts with sentences of up to n characters keep to max_chars exactly if nothing can be buffered, or there is an overlap and it fits with a blank and n characters, or n is 1 and the overlap is even and one below the limit |
| DomainBuckets.DomainBucket.Acquire | src/crawler/async_crawler.py:106-112 | sleeping the missing time puts the next grant at least one delay after the previous one, whatever else passes |
| DomainBuckets.RequestsAreFarApart | src/crawler/async_crawler.py:98-112 | the n-th next grant is at least n delays later |
| Snippets.BestStart | src/search/reranker.py:129-139 | the leftmost window with the most query terms |
| Snippets.HitsCountMatches | src/search/reranker.py:129-139 | what is counted is the positions in the window that hold a query term |
| Snippets.GenerateSnippet | src/search/reranker.py:115-149 | that window's words between the right ellipses, cut to the maximal length and not before |

## Left out

- Floating point: scores and times are reals; rounding of scores and float32 vectors are not modelled. `log1p` is an arbitrary function, and so is authority where nothing is said of the link graph.
- Termination of the crawl's frontier loop is not claimed, because it is false (`CrawlSpin.CanSpinIff`).
- A hard `max_pages` cap is not claimed: results collected after the test can exceed it, by what `CrawlLimits.OvershootIsPending` allows.
- `_extract_links` and the robots fetch are total; an exception in them, task cancellation and the `output_queue` of `crawl` are not modelled.
- PipelineProgress.RunsAreShort: takes the crawl as a finite list of results, since the crawl itself may not end.
- CrawlScheduler.SpawnedDepths: seeds are spawned at depth zero even when max_depth is negative.
- DomainBuckets.DomainBucket.Acquire: a sleep lasts at least as long as asked for. The robots Crawl-Delay never reaches the bucket in the original and is not modelled.
- LinkGraphs.LinkGraph.ToDict: the data is an immutable value; the original shares its dictionaries and lists with the graph. Reading a missing row of a defaultdict inserts an empty list there; rows are looked up without that here.
- LinkGraphs.LinkGraph.FromDict: ids are not negative, and negative keys count as not integers; of the characters that `int()` takes for blanks and digits only the ASCII ones are modelled. Where the original lets the last of several URLs with one id, or of several keys that read the same, win, the model lets any of them.
- VectorStores.VectorStore.Search: the flat exact index only, which refuses to look for zero neighbours; HNSW and IVF are approximate and may return empty slots.
- Bm25.BM25Index.Search: ties may fall either way, as numpy leaves them open. Vocabulary, suggestions, batch add and file formats are not modelled.
- TextChunker.Chunk: the regular expression that finds sentence ends is abstract, and limits are not negative.
- SearchApi.SearchService.Search: a cached answer may miss documents that were added since, because indexing a single URL does not clear the cache; its source says how old it is. The elapsed times, snippets and rounded fields of a response are not part of it, and the cache key is a given string.
- Pagination.PageOf: the metadata field that the neural filter writes is not modelled; its test and the reranker's score are functions of the result alone.
- Duplicate detection, quality heuristics, query parsing, authentication, metrics, settings and logging would only add abstract functions or easy members.
