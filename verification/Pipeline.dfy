/**
 The indexing pipeline as an interleaving transition system: crawl stage,
 extraction tasks under a semaphore, and index stage, joined by two bounded
 queues with end markers. Pages are named by the position of their crawl
 result. Extraction, quality scoring and duplicate detection are arbitrary
 total functions; the crawl is a finite list of results.
 */
module Pipeline {
  import opened Common
  import opened Counting

  const QUEUE_SIZE: nat := 256

  datatype ExtractedPage = ExtractedPage(url: string, text: string)

  datatype Setup = Setup(
    results: seq<string>,                                // the crawl results
    extract: string -> Option<ExtractedPage>,
    passesQuality: ExtractedPage -> bool,
    isDuplicate: (seq<string>, string) -> bool,          // of the texts accepted so far
    extractWorkers: nat,
    embedBatch: int)
  {
    function Page(k: nat): Option<ExtractedPage> {
      if k < |results| then extract(results[k]) else None
    }

    function HasNoPage(): nat -> bool {
      (k: nat) => Page(k).None?
    }

    function IsLowQuality(): nat -> bool {
      (k: nat) => Page(k).Some? && !passesQuality(Page(k).value)
    }

    function Text(k: nat): string {
      if Page(k).Some? then Page(k).value.text else ""
    }

    function Texts(ks: seq<nat>): seq<string> {
      seq(|ks|, i requires 0 <= i < |ks| => Text(ks[i]))
    }

    /** A batch is flushed as soon as it has this many pages. */
    function BatchSize(): nat {
      if embedBatch < 1 then 1 else embedBatch
    }
  }

  datatype Outcome = NoPage | LowQuality | Duplicate | Kept

  datatype Status = Waiting | Extracting | Putting | Finished(outcome: Outcome)

  datatype Dispatcher = Dispatching | Gathering | Closed

  datatype Indexer = Collecting | Flushing | LastFlush | Stopped

  datatype State = State(
    crawled: nat, put: nat, sentinel: bool,              // crawl stage
    crawlQ: seq<Option<nat>>,
    dispatcher: Dispatcher, tasks: seq<Status>,          // extract stage
    kept: seq<nat>,                                      // accepted by quality and duplicate gates, in order
    extracted: nat, qualityDropped: nat, deduped: nat,
    rejected: nat,                                       // no page extracted; the statistics do not count these
    extractQ: seq<Option<nat>>,
    queued: seq<nat>,                                    // put on extractQ and recorded in the link graph, in order
    indexer: Indexer, batch: seq<nat>,                   // index stage
    flushed: seq<seq<nat>>, indexed: nat)

  datatype Action =
    | Yield | PutResult | PutSentinel
    | Dispatch | Start(k: nat) | Judge(k: nat) | PutPage(k: nat) | Close
    | Take | Flush

  const INITIAL: State :=
    State(0, 0, false, [], Dispatching, [], [], 0, 0, 0, 0, [], [], Collecting, [], [], 0)

  function Busy(t: Status): nat {
    if t.Extracting? || t.Putting? then 1 else 0
  }

  function Judged(t: Status): nat {
    if t.Putting? || t.Finished? then 1 else 0
  }

  function WithoutPage(t: Status): nat {
    if t == Finished(NoPage) then 1 else 0
  }

  function Dropped(t: Status): nat {
    if t == Finished(LowQuality) then 1 else 0
  }

  predicate AllFinished(tasks: seq<Status>) {
    forall k :: 0 <= k < |tasks| ==> tasks[k].Finished?
  }

  predicate Enabled(p: Setup, s: State, a: Action) {
    match a
    case Yield => s.put == s.crawled < |p.results|
    case PutResult => s.put < s.crawled && |s.crawlQ| < QUEUE_SIZE
    case PutSentinel => s.put == s.crawled == |p.results| && !s.sentinel && |s.crawlQ| < QUEUE_SIZE
    case Dispatch => s.dispatcher.Dispatching? && s.crawlQ != []
    case Start(k) => k < |s.tasks| && s.tasks[k].Waiting? && Weigh(s.tasks, Busy) < p.extractWorkers
    case Judge(k) => k < |s.tasks| && s.tasks[k].Extracting?
    case PutPage(k) => k < |s.tasks| && s.tasks[k].Putting? && |s.extractQ| < QUEUE_SIZE
    case Close => s.dispatcher.Gathering? && AllFinished(s.tasks) && |s.extractQ| < QUEUE_SIZE
    case Take => s.indexer.Collecting? && s.extractQ != []
    case Flush => s.indexer.Flushing? || s.indexer.LastFlush?
  }

  function Move(s: State, k: nat, t: Status): State
    requires k < |s.tasks|
  {
    s.(tasks := s.tasks[k := t])
  }

  /** Extraction, then the quality gate, then the duplicate gate. */
  function JudgeTask(p: Setup, s: State, k: nat): State
    requires k < |s.tasks|
  {
    match p.Page(k)
    case None => Move(s, k, Finished(NoPage)).(rejected := s.rejected + 1)
    case Some(page) =>
      if !p.passesQuality(page) then Move(s, k, Finished(LowQuality)).(qualityDropped := s.qualityDropped + 1)
      else if p.isDuplicate(p.Texts(s.kept), page.text) then Move(s, k, Finished(Duplicate)).(deduped := s.deduped + 1)
      else Move(s, k, Putting).(extracted := s.extracted + 1, kept := s.kept + [k])
  }

  function TakeItem(p: Setup, s: State): State
    requires s.extractQ != []
  {
    match s.extractQ[0]
    case None => s.(extractQ := s.extractQ[1..], indexer := if s.batch == [] then Stopped else LastFlush)
    case Some(k) =>
      var batch := s.batch + [k];
      s.(extractQ := s.extractQ[1..], batch := batch,
          indexer := if |batch| >= p.embedBatch then Flushing else Collecting)
  }

  /** An action that is not enabled changes nothing. */
  function Apply(p: Setup, s: State, a: Action): State {
    if !Enabled(p, s, a) then s
    else match a
    case Yield => s.(crawled := s.crawled + 1)
    case PutResult => s.(crawlQ := s.crawlQ + [Some(s.put)], put := s.put + 1)
    case PutSentinel => s.(crawlQ := s.crawlQ + [None], sentinel := true)
    case Dispatch =>
      if s.crawlQ[0].None? then s.(crawlQ := s.crawlQ[1..], dispatcher := Gathering)
      else s.(crawlQ := s.crawlQ[1..], tasks := s.tasks + [Waiting])
    case Start(k) => Move(s, k, Extracting)
    case Judge(k) => JudgeTask(p, s, k)
    case PutPage(k) => Move(s, k, Finished(Kept)).(extractQ := s.extractQ + [Some(k)], queued := s.queued + [k])
    case Close => s.(extractQ := s.extractQ + [None], dispatcher := Closed)
    case Take => TakeItem(p, s)
    case Flush =>
      s.(flushed := s.flushed + [s.batch], indexed := s.indexed + |s.batch|, batch := [],
         indexer := if s.indexer.LastFlush? then Stopped else Collecting)
  }

  ghost predicate Run(p: Setup, states: seq<State>, actions: seq<Action>) {
    && |states| == |actions| + 1
    && forall i :: 0 <= i < |actions| ==>
        Enabled(p, states[i], actions[i]) && states[i + 1] == Apply(p, states[i], actions[i])
  }

  ghost predicate Reachable(p: Setup, s: State) {
    exists states, actions :: Run(p, states, actions) && states[0] == INITIAL && states[|actions|] == s
  }

  predicate Final(s: State) {
    s.sentinel && s.dispatcher.Closed? && s.indexer.Stopped?
  }

  // ---- The invariant ----

  /** The pages from a up to b on a queue, and the end marker when it was sent. */
  function Stream(pages: seq<nat>, ended: bool): seq<Option<nat>> {
    seq(|pages|, i requires 0 <= i < |pages| => Some(pages[i])) + if ended then [None] else []
  }

  function Range(a: nat, b: nat): seq<nat>
    requires a <= b
  {
    seq(b - a, i requires 0 <= i < b - a => a + i)
  }

  ghost predicate CrawlInv(p: Setup, s: State) {
    && s.put <= s.crawled <= s.put + 1 && s.crawled <= |p.results|
    && (s.sentinel ==> s.put == |p.results|)
    && |s.crawlQ| <= QUEUE_SIZE
    && Dispatched(s.crawlQ, s.dispatcher.Dispatching?, |s.tasks|, s.put, s.sentinel)
  }

  /** The queue holds what the crawl has put there and no task was started for. */
  ghost predicate Dispatched(crawlQ: seq<Option<nat>>, dispatching: bool, tasks: nat, put: nat, ended: bool) {
    && tasks <= put
    && (if dispatching then crawlQ == Stream(Range(tasks, put), ended) else crawlQ == [] && ended && tasks == put)
  }

  ghost predicate Accepted(s: State, k: nat) {
    k < |s.tasks| && (s.tasks[k].Putting? || s.tasks[k] == Finished(Kept))
  }

  ghost predicate Delivered(s: State, k: nat) {
    k < |s.tasks| && s.tasks[k] == Finished(Kept)
  }

  ghost predicate Passes(p: Setup, k: nat) {
    p.Page(k).Some? && p.passesQuality(p.Page(k).value)
  }

  /** The permits held, and what the counters say of the tasks; the duplicates are the rest of the judged ones. */
  ghost predicate CountersAgree(permits: nat, tasks: seq<Status>, extracted: nat, qualityDropped: nat,
                                deduped: nat, rejected: nat) {
    && Weigh(tasks, Busy) <= permits
    && extracted + qualityDropped + deduped + rejected == Weigh(tasks, Judged)
    && rejected == Weigh(tasks, WithoutPage)
    && qualityDropped == Weigh(tasks, Dropped)
  }

  ghost predicate TaskInv(p: Setup, s: State) {
    && CountersAgree(p.extractWorkers, s.tasks, s.extracted, s.qualityDropped, s.deduped, s.rejected)
    && s.extracted == |s.kept|
  }

  /** Without a permit nothing is ever judged. */
  ghost predicate IdleInv(p: Setup, s: State) {
    p.extractWorkers == 0 ==> forall k :: 0 <= k < |s.tasks| ==> s.tasks[k].Waiting?
  }

  /** Each verdict has its reason. */
  ghost predicate OutcomeInv(p: Setup, s: State) {
    forall k :: 0 <= k < |s.tasks| && s.tasks[k].Finished? ==>
      match s.tasks[k].outcome
      case NoPage => p.Page(k).None?
      case LowQuality => p.Page(k).Some? && !p.passesQuality(p.Page(k).value)
      case Duplicate => Passes(p, k)
      case Kept => Passes(p, k)
  }

  ghost predicate ClosedInv(s: State) {
    s.dispatcher.Closed? ==> AllFinished(s.tasks)
  }

  ghost predicate KeptInv(p: Setup, s: State) {
    && Distinct(s.kept)
    && (forall k :: k in s.kept ==> Accepted(s, k) && Passes(p, k))
    && (forall k :: Accepted(s, k) ==> k in s.kept)
  }

  ghost predicate QueuedInv(s: State) {
    && Distinct(s.queued)
    && (forall k :: k in s.queued ==> Delivered(s, k))
    && (forall k :: Delivered(s, k) ==> k in s.queued)
  }

  function Concat(batches: seq<seq<nat>>): seq<nat> {
    if batches == [] then [] else Concat(batches[..|batches| - 1]) + batches[|batches| - 1]
  }

  /** What the index stage has taken from its queue. */
  function Taken(s: State): seq<nat> {
    Concat(s.flushed) + s.batch
  }

  predicate IsCollecting(indexer: Indexer) {
    indexer.Collecting? || indexer.Flushing?
  }

  /** The queue holds what was queued and not yet taken, and the end marker once the queue was closed. */
  ghost predicate QueueAgrees(extractQ: seq<Option<nat>>, closed: bool, collecting: bool, taken: seq<nat>,
                              queued: seq<nat>) {
    && |extractQ| <= QUEUE_SIZE
    && taken <= queued
    && (if collecting then extractQ == Stream(queued[|taken|..], closed)
        else extractQ == [] && closed && taken == queued)
  }

  ghost predicate IndexInv(s: State) {
    && QueueAgrees(s.extractQ, s.dispatcher.Closed?, IsCollecting(s.indexer), Taken(s), s.queued)
    && s.indexed == |Concat(s.flushed)|
  }

  /** How full the batch is in each phase of the index stage. */
  predicate BatchFits(size: nat, indexer: Indexer, batch: seq<nat>) {
    match indexer
    case Collecting => |batch| < size
    case Flushing => |batch| == size
    case LastFlush => 0 < |batch| < size
    case Stopped => batch == []
  }

  /** No flushed batch is empty, and none but a last one is short. */
  ghost predicate AreFull(size: nat, stopped: bool, flushed: seq<seq<nat>>) {
    && (forall j :: 0 <= j < |flushed| ==> 0 < |flushed[j]| <= size)
    && (forall j :: 0 <= j < |flushed| && |flushed[j]| < size ==> j == |flushed| - 1 && stopped)
  }

  ghost predicate BatchInv(p: Setup, s: State) {
    BatchFits(p.BatchSize(), s.indexer, s.batch) && AreFull(p.BatchSize(), s.indexer.Stopped?, s.flushed)
  }

  ghost predicate Inv(p: Setup, s: State) {
    && CrawlInv(p, s) && TaskInv(p, s) && IdleInv(p, s) && OutcomeInv(p, s) && ClosedInv(s)
    && KeptInv(p, s) && QueuedInv(s) && IndexInv(s) && BatchInv(p, s)
  }

  lemma InitialInv(p: Setup)
    ensures Inv(p, INITIAL)
  {
    assert Stream(Range(0, 0), false) == [];
    assert Stream([], false) == [];
  }

  // ---- Each step keeps the invariant ----

  lemma StreamAppend(pages: seq<nat>, k: nat)
    ensures Stream(pages + [k], false) == Stream(pages, false) + [Some(k)]
  {
  }

  lemma StreamEnd(pages: seq<nat>)
    ensures Stream(pages, true) == Stream(pages, false) + [None]
  {
  }

  lemma StreamTail(pages: seq<nat>, ended: bool)
    requires Stream(pages, ended) != []
    ensures pages == [] ==> ended && Stream(pages, ended) == [None]
    ensures pages != [] ==>
                Stream(pages, ended)[0] == Some(pages[0]) && Stream(pages, ended)[1..] == Stream(pages[1..], ended)
  {
  }

  lemma ResultIsPut(crawlQ: seq<Option<nat>>, tasks: nat, put: nat)
    requires Dispatched(crawlQ, true, tasks, put, false)
    ensures Dispatched(crawlQ + [Some(put)], true, tasks, put + 1, false)
  {
    assert Range(tasks, put + 1) == Range(tasks, put) + [put];
    StreamAppend(Range(tasks, put), put);
  }

  lemma NextIsDispatched(crawlQ: seq<Option<nat>>, tasks: nat, put: nat, ended: bool)
    requires Dispatched(crawlQ, true, tasks, put, ended) && crawlQ != []
    ensures crawlQ[0].None? ==> Dispatched(crawlQ[1..], false, tasks, put, ended)
    ensures crawlQ[0].Some? ==> Dispatched(crawlQ[1..], true, tasks + 1, put, ended)
  {
    StreamTail(Range(tasks, put), ended);
    if tasks < put {
      assert Range(tasks, put)[1..] == Range(tasks + 1, put);
    }
  }

  lemma CrawlFieldsStay(p: Setup, s: State, a: Action)
    requires Enabled(p, s, a) && !a.Yield? && !a.PutResult? && !a.PutSentinel? && !a.Dispatch?
    ensures var t := Apply(p, s, a);
      t.crawlQ == s.crawlQ && t.crawled == s.crawled && t.put == s.put && t.sentinel == s.sentinel
          && |t.tasks| == |s.tasks|
      && t.dispatcher.Dispatching? == s.dispatcher.Dispatching?
  {
  }

  lemma CrawlStays(p: Setup, s: State, t: State)
    requires CrawlInv(p, s)
    requires t.crawlQ == s.crawlQ && t.crawled == s.crawled && t.put == s.put && t.sentinel == s.sentinel
    requires |t.tasks| == |s.tasks|
    requires t.dispatcher.Dispatching? == s.dispatcher.Dispatching?
    ensures CrawlInv(p, t)
  {
  }

  lemma CrawlStep(p: Setup, s: State, a: Action)
    requires CrawlInv(p, s) && Enabled(p, s, a)
    ensures CrawlInv(p, Apply(p, s, a))
  {
    match a
    case Yield =>
    case PutResult => ResultIsPut(s.crawlQ, |s.tasks|, s.put);
    case PutSentinel => StreamEnd(Range(|s.tasks|, s.put));
    case Dispatch => NextIsDispatched(s.crawlQ, |s.tasks|, s.put, s.sentinel);
    case _ =>
      CrawlFieldsStay(p, s, a);
      CrawlStays(p, s, Apply(p, s, a));
  }

  /** What a move of one task does to the counts. */
  lemma MoveCounts(permits: nat, tasks: seq<Status>, k: nat, t: Status, e: nat, q: nat, d: nat, r: nat,
                   e': nat, q': nat, d': nat, r': nat)
    requires k < |tasks| && CountersAgree(permits, tasks, e, q, d, r)
    requires Weigh(tasks, Busy) - Busy(tasks[k]) + Busy(t) <= permits
    requires e' + q' + d' + r' - (e + q + d + r) == Judged(t) - Judged(tasks[k])
    requires r' - r == WithoutPage(t) - WithoutPage(tasks[k])
    requires q' - q == Dropped(t) - Dropped(tasks[k])
    ensures CountersAgree(permits, tasks[k := t], e', q', d', r')
  {
    WeighUpdate(tasks, k, t, Busy);
    WeighUpdate(tasks, k, t, Judged);
    WeighUpdate(tasks, k, t, WithoutPage);
    WeighUpdate(tasks, k, t, Dropped);
  }

  lemma DispatchCounts(permits: nat, tasks: seq<Status>, e: nat, q: nat, d: nat, r: nat)
    requires CountersAgree(permits, tasks, e, q, d, r)
    ensures CountersAgree(permits, tasks + [Waiting], e, q, d, r)
  {
    WeighAppend(tasks, Waiting, Busy);
    WeighAppend(tasks, Waiting, Judged);
    WeighAppend(tasks, Waiting, WithoutPage);
    WeighAppend(tasks, Waiting, Dropped);
  }

  lemma MoveStep(p: Setup, s: State, t: State, k: nat, status: Status)
    requires TaskInv(p, s) && k < |s.tasks| && t.tasks == s.tasks[k := status]
    requires Weigh(s.tasks, Busy) - Busy(s.tasks[k]) + Busy(status) <= p.extractWorkers
    requires t.extracted - s.extracted == |t.kept| - |s.kept|
    requires t.extracted + t.qualityDropped + t.deduped + t.rejected
           - (s.extracted + s.qualityDropped + s.deduped + s.rejected)
          == Judged(status) - Judged(s.tasks[k])
    requires t.rejected - s.rejected == WithoutPage(status) - WithoutPage(s.tasks[k])
    requires t.qualityDropped - s.qualityDropped == Dropped(status) - Dropped(s.tasks[k])
    ensures TaskInv(p, t)
  {
    MoveCounts(p.extractWorkers, s.tasks, k, status, s.extracted, s.qualityDropped, s.deduped, s.rejected,
               t.extracted, t.qualityDropped, t.deduped, t.rejected);
  }

  lemma TaskStep(p: Setup, s: State, a: Action)
    requires TaskInv(p, s) && Enabled(p, s, a)
    ensures TaskInv(p, Apply(p, s, a))
  {
    match a
    case Dispatch => DispatchCounts(p.extractWorkers, s.tasks, s.extracted, s.qualityDropped, s.deduped, s.rejected);
    case Start(k) => StartStep(p, s, k);
    case Judge(k) => JudgeStep(p, s, k);
    case PutPage(k) => PutPageStep(p, s, k);
    case _ => CountersStay(p, s, a);
  }

  lemma CountersStay(p: Setup, s: State, a: Action)
    requires TaskInv(p, s) && Enabled(p, s, a) && !a.Dispatch? && !a.Start? && !a.Judge? && !a.PutPage?
    ensures TaskInv(p, Apply(p, s, a))
  {
    var t := Apply(p, s, a);
    assert t.tasks == s.tasks && t.kept == s.kept;
  }

  lemma StartStep(p: Setup, s: State, k: nat)
    requires TaskInv(p, s) && Enabled(p, s, Start(k))
    ensures TaskInv(p, Apply(p, s, Start(k)))
  {
    MoveStep(p, s, Apply(p, s, Start(k)), k, Extracting);
  }

  lemma PutPageStep(p: Setup, s: State, k: nat)
    requires TaskInv(p, s) && Enabled(p, s, PutPage(k))
    ensures TaskInv(p, Apply(p, s, PutPage(k)))
  {
    MoveStep(p, s, Apply(p, s, PutPage(k)), k, Finished(Kept));
  }

  lemma JudgeStep(p: Setup, s: State, k: nat)
    requires TaskInv(p, s) && Enabled(p, s, Judge(k))
    ensures TaskInv(p, Apply(p, s, Judge(k)))
  {
    var t := Apply(p, s, Judge(k));
    MoveStep(p, s, t, k, t.tasks[k]);
  }

  lemma IdleStep(p: Setup, s: State, a: Action)
    requires IdleInv(p, s) && Enabled(p, s, a)
    ensures IdleInv(p, Apply(p, s, a))
  {
    if p.extractWorkers == 0 {
      assert !a.Start? && !a.Judge? && !a.PutPage?;
    }
  }

  lemma OutcomeStep(p: Setup, s: State, a: Action)
    requires OutcomeInv(p, s) && KeptInv(p, s) && Enabled(p, s, a)
    ensures OutcomeInv(p, Apply(p, s, a))
  {
    if a.PutPage? {
      assert Accepted(s, a.k);
    }
  }

  lemma ClosedStep(p: Setup, s: State, a: Action)
    requires ClosedInv(s) && Enabled(p, s, a)
    ensures ClosedInv(Apply(p, s, a))
  {
  }

  lemma AcceptedAfter(p: Setup, s: State, a: Action, k: nat)
    requires Enabled(p, s, a)
    ensures Accepted(Apply(p, s, a), k) <==> Accepted(s, k) || (a.Judge? && a.k == k && Apply(p, s, a).kept != s.kept)
  {
  }

  /** A task joins the accepted ones when both gates let it pass, and at no other time. */
  lemma KeptAfter(p: Setup, s: State, a: Action)
    requires Enabled(p, s, a)
    ensures var t := Apply(p, s, a);
      t.kept == s.kept || (a.Judge? && t.kept == s.kept + [a.k] && Passes(p, a.k) && !Accepted(s, a.k))
  {
  }

  lemma KeptStep(p: Setup, s: State, a: Action)
    requires KeptInv(p, s) && Enabled(p, s, a)
    ensures KeptInv(p, Apply(p, s, a))
  {
    var t := Apply(p, s, a);
    forall k: nat ensures Accepted(t, k) <==> Accepted(s, k) || (a.Judge? && a.k == k && t.kept != s.kept) {
      AcceptedAfter(p, s, a, k);
    }
    KeptAfter(p, s, a);
  }

  lemma DeliveredAfter(p: Setup, s: State, a: Action, k: nat)
    requires Enabled(p, s, a)
    ensures Delivered(Apply(p, s, a), k) <==> Delivered(s, k) || (a.PutPage? && a.k == k)
  {
  }

  lemma QueuedStep(p: Setup, s: State, a: Action)
    requires QueuedInv(s) && Enabled(p, s, a)
    ensures QueuedInv(Apply(p, s, a))
  {
    var t := Apply(p, s, a);
    forall k: nat ensures Delivered(t, k) <==> Delivered(s, k) || (a.PutPage? && a.k == k) {
      DeliveredAfter(p, s, a, k);
    }
    if a.PutPage? {
      assert !Delivered(s, a.k);
      assert t.queued == s.queued + [a.k];
    } else {
      assert t.queued == s.queued;
    }
  }

  lemma ConcatAppend(batches: seq<seq<nat>>, batch: seq<nat>)
    ensures Concat(batches + [batch]) == Concat(batches) + batch
  {
    assert (batches + [batch])[..|batches|] == batches;
  }

  lemma PutOnQueue(extractQ: seq<Option<nat>>, taken: seq<nat>, queued: seq<nat>, k: nat)
    requires QueueAgrees(extractQ, false, true, taken, queued) && |extractQ| < QUEUE_SIZE
    ensures QueueAgrees(extractQ + [Some(k)], false, true, taken, queued + [k])
  {
    assert (queued + [k])[|taken|..] == queued[|taken|..] + [k];
    StreamAppend(queued[|taken|..], k);
  }

  lemma CloseQueue(extractQ: seq<Option<nat>>, taken: seq<nat>, queued: seq<nat>)
    requires QueueAgrees(extractQ, false, true, taken, queued) && |extractQ| < QUEUE_SIZE
    ensures QueueAgrees(extractQ + [None], true, true, taken, queued)
  {
    StreamEnd(queued[|taken|..]);
  }

  lemma TakeFromQueue(extractQ: seq<Option<nat>>, closed: bool, taken: seq<nat>, queued: seq<nat>)
    requires QueueAgrees(extractQ, closed, true, taken, queued) && extractQ != []
    ensures extractQ[0].None? ==> QueueAgrees(extractQ[1..], closed, false, taken, queued)
    ensures extractQ[0].Some? ==> QueueAgrees(extractQ[1..], closed, true, taken + [extractQ[0].value], queued)
  {
    var rest := queued[|taken|..];
    StreamTail(rest, closed);
    assert queued == taken + rest;
    if rest != [] {
      assert queued == (taken + [rest[0]]) + rest[1..];
    }
  }

  lemma TakeStep(p: Setup, s: State)
    requires IndexInv(s) && Enabled(p, s, Take)
    ensures IndexInv(Apply(p, s, Take))
  {
    var t := Apply(p, s, Take);
    TakeFromQueue(s.extractQ, s.dispatcher.Closed?, Taken(s), s.queued);
    if s.extractQ[0].Some? {
      assert Taken(t) == Taken(s) + [s.extractQ[0].value];
    }
  }

  lemma FlushStep(p: Setup, s: State)
    requires IndexInv(s) && Enabled(p, s, Flush)
    ensures IndexInv(Apply(p, s, Flush))
  {
    ConcatAppend(s.flushed, s.batch);
    assert Taken(Apply(p, s, Flush)) == Taken(s);
  }

  lemma IndexFieldsStay(p: Setup, s: State, a: Action)
    requires Enabled(p, s, a) && !a.PutPage? && !a.Close? && !a.Take? && !a.Flush?
    ensures var t := Apply(p, s, a);
      t.extractQ == s.extractQ && t.queued == s.queued && t.dispatcher.Closed? == s.dispatcher.Closed?
      && t.indexer == s.indexer && t.flushed == s.flushed && t.batch == s.batch && t.indexed == s.indexed
  {
  }

  lemma IndexStays(s: State, t: State)
    requires IndexInv(s)
    requires t.extractQ == s.extractQ && t.queued == s.queued && t.dispatcher.Closed? == s.dispatcher.Closed?
    requires t.indexer == s.indexer && t.flushed == s.flushed && t.batch == s.batch && t.indexed == s.indexed
    ensures IndexInv(t)
  {
  }

  lemma IndexStep(p: Setup, s: State, a: Action)
    requires IndexInv(s) && ClosedInv(s) && Enabled(p, s, a)
    ensures IndexInv(Apply(p, s, a))
  {
    match a
    case Take => TakeStep(p, s);
    case PutPage(k) => PutOnQueue(s.extractQ, Taken(s), s.queued, k);
    case Close => CloseQueue(s.extractQ, Taken(s), s.queued);
    case Flush => FlushStep(p, s);
    case _ =>
      IndexFieldsStay(p, s, a);
      IndexStays(s, Apply(p, s, a));
  }

  lemma FlushFits(p: Setup, s: State)
    requires BatchInv(p, s) && Enabled(p, s, Flush)
    ensures BatchInv(p, Apply(p, s, Flush))
  {
  }

  lemma BatchStep(p: Setup, s: State, a: Action)
    requires BatchInv(p, s) && Enabled(p, s, a)
    ensures BatchInv(p, Apply(p, s, a))
  {
    if a.Flush? {
      FlushFits(p, s);
    } else {
      assert Apply(p, s, a).flushed == s.flushed;
    }
  }

  lemma StepKeepsInv(p: Setup, s: State, a: Action)
    requires Inv(p, s) && Enabled(p, s, a)
    ensures Inv(p, Apply(p, s, a))
  {
    CrawlStep(p, s, a);
    TaskStep(p, s, a);
    ClosedStep(p, s, a);
    IdleStep(p, s, a);
    OutcomeStep(p, s, a);
    KeptStep(p, s, a);
    QueuedStep(p, s, a);
    IndexStep(p, s, a);
    BatchStep(p, s, a);
  }
}
