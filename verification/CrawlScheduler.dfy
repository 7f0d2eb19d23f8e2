/**
 The crawl scheduler as an interleaving transition system: the frontier, the
 seen set, workers under a semaphore, and one result queue that carries pages
 and the markers that finished workers leave. Every action is one stretch of
 code between two points where another task may run.
 */
module CrawlScheduler {
  import opened Counting

  datatype Page = Page(url: string, depth: int, parent: string, links: seq<string>)

  datatype Entry = Entry(url: string, depth: int, parent: string)

  /** None on the result queue is a marker: its worker is done. */
  datatype Item = Result(page: Page) | Marker

  datatype Phase =
    | Waiting
    | Fetching
    | Fetched(page: Page)
    | Discovering(page: Page)
    | Signalling
    | Done

  datatype Worker = Worker(task: Entry, phase: Phase)

  /** Where the crawl generator is; byBreak says that it left the frontier loop because active == 0. */
  datatype Control = Frontier | Collecting | Draining(byBreak: bool) | Finished(byBreak: bool)

  datatype State = State(
    control: Control,
    frontier: seq<Entry>,
    seen: set<string>,
    workers: seq<Worker>,
    permits: int,
    queue: seq<Item>,
    active: int,
    pages: int,
    yielded: seq<Page>,
    produced: seq<Page>)  // every page put on the queue so far, in order

  datatype Crawl = Crawl(
    maxDepth: int,
    maxPages: int,
    concurrency: nat,
    seeds: seq<string>,
    seenBefore: set<string>,  // empty on a fresh crawler
    hash: string -> string)

  datatype Action =
    | Spawn | Idle | Break | Cap | Collect | CollectDone | Drain | Finish
    | Acquire(w: nat)
    | Fetch(w: nat, page: Page)
    | FetchNothing(w: nat)
    | Put(w: nat)
    | Discover(w: nat)
    | Signal(w: nat)

  function SeedEntries(seeds: seq<string>): seq<Entry> {
    seq(|seeds|, i requires 0 <= i < |seeds| => Entry(seeds[i], 0, ""))
  }

  function Hashes(c: Crawl, es: seq<Entry>): set<string> {
    set e | e in es :: c.hash(e.url)
  }

  function Start(c: Crawl): State {
    State(Frontier, SeedEntries(c.seeds), c.seenBefore + Hashes(c, SeedEntries(c.seeds)), [], c.concurrency,
          [], 0, 0, [], [])
  }

  /** The links of a page that were not seen before, in order, as new frontier entries. */
  function NewEntries(c: Crawl, links: seq<string>, depth: int, parent: string, seen: set<string>): seq<Entry> {
    if links == [] then []
    else
      var h := c.hash(links[0]);
      if h in seen then NewEntries(c, links[1..], depth, parent, seen)
      else [Entry(links[0], depth, parent)] + NewEntries(c, links[1..], depth, parent, seen + {h})
  }

  predicate Enabled(c: Crawl, s: State, a: Action) {
    match a
    case Spawn => s.control == Frontier && s.pages < c.maxPages && s.frontier != []
    case Idle => s.control == Frontier && s.pages < c.maxPages && s.frontier == [] && s.active != 0
    case Break => s.control == Frontier && s.pages < c.maxPages && s.frontier == [] && s.active == 0
    case Cap => s.control == Frontier && s.pages >= c.maxPages
    case Collect => s.control == Collecting && s.queue != []
    case CollectDone => s.control == Collecting && s.queue == []
    case Drain => s.control.Draining? && s.queue != []
    case Finish => s.control.Draining? && s.queue == [] && s.active <= 0
    case Acquire(w) => w < |s.workers| && s.workers[w].phase.Waiting? && s.permits > 0
    case Fetch(w, page) =>
      && w < |s.workers| && s.workers[w].phase.Fetching?
      && Entry(page.url, page.depth, page.parent) == s.workers[w].task
    case FetchNothing(w) => w < |s.workers| && s.workers[w].phase.Fetching?
    case Put(w) => w < |s.workers| && s.workers[w].phase.Fetched?
    case Discover(w) => w < |s.workers| && s.workers[w].phase.Discovering?
    case Signal(w) => w < |s.workers| && s.workers[w].phase.Signalling?
  }

  predicate IsWorkerAction(a: Action) {
    a.Acquire? || a.Fetch? || a.FetchNothing? || a.Put? || a.Discover? || a.Signal?
  }

  function Move(s: State, w: nat, phase: Phase): State
    requires w < |s.workers|
  {
    s.(workers := s.workers[w := s.workers[w].(phase := phase)])
  }

  /** Taking the head of the result queue. */
  function TakeItem(s: State): State
    requires s.queue != []
  {
    match s.queue[0]
    case Marker => s.(queue := s.queue[1..], active := s.active - 1)
    case Result(page) => s.(queue := s.queue[1..], pages := s.pages + 1, yielded := s.yielded + [page])
  }

  /** An action that is not enabled changes nothing. */
  function Apply(c: Crawl, s: State, a: Action): State {
    if !Enabled(c, s, a) then s
    else match a
    case Spawn =>
      s.(control := Collecting, frontier := s.frontier[1..], active := s.active + 1,
         workers := s.workers + [Worker(s.frontier[0], Waiting)])
    case Idle => s
    case Break => s.(control := Draining(true))
    case Cap => s.(control := Draining(false))
    case Collect => TakeItem(s)
    case CollectDone => s.(control := Frontier)
    case Drain => TakeItem(s)
    case Finish => s.(control := Finished(s.control.byBreak))
    case Acquire(w) => Move(s, w, Fetching).(permits := s.permits - 1)
    case Fetch(w, page) => Move(s, w, Fetched(page))
    case FetchNothing(w) => Move(s, w, Signalling).(permits := s.permits + 1)
    case Put(w) =>
      var page := s.workers[w].phase.page;
      var put := s.(queue := s.queue + [Result(page)], produced := s.produced + [page]);
      if s.workers[w].task.depth < c.maxDepth then Move(put, w, Discovering(page))
      else Move(put, w, Signalling).(permits := s.permits + 1)
    case Discover(w) =>
      var task := s.workers[w].task;
      var found := NewEntries(c, s.workers[w].phase.page.links, task.depth + 1, task.url, s.seen);
      Move(s, w, Signalling).(permits := s.permits + 1, frontier := s.frontier + found,
                              seen := s.seen + Hashes(c, found))
    case Signal(w) => Move(s, w, Done).(queue := s.queue + [Marker])
  }

  /** An interleaving: a state before and after each action. */
  ghost predicate Run(c: Crawl, states: seq<State>, actions: seq<Action>) {
    && |states| == |actions| + 1
    && forall i :: 0 <= i < |actions| ==>
        Enabled(c, states[i], actions[i]) && states[i + 1] == Apply(c, states[i], actions[i])
  }

  /** The states some interleaving reaches. */
  ghost predicate Reachable(c: Crawl, s: State) {
    exists states, actions :: Run(c, states, actions) && states[0] == Start(c) && states[|actions|] == s
  }

  // ---- Counting ----

  function UnfinishedWeight(w: Worker): nat {
    if w.phase.Done? then 0 else 1
  }

  function PermitWeight(w: Worker): nat {
    if w.phase.Fetching? || w.phase.Fetched? || w.phase.Discovering? then 1 else 0
  }

  /** How many steps a worker has left, plus one for each item it will still put on the queue. */
  function WorkWeight(w: Worker): nat {
    match w.phase
    case Waiting => 7
    case Fetching => 6
    case Fetched(_) => 5
    case Discovering(_) => 3
    case Signalling => 2
    case Done => 0
  }

  function Unfinished(s: State): nat {
    Weigh(s.workers, UnfinishedWeight)
  }

  function Markers(q: seq<Item>): nat {
    if q == [] then 0 else (if q[0].Marker? then 1 else 0) + Markers(q[1..])
  }

  function Results(q: seq<Item>): seq<Page> {
    if q == [] then [] else (if q[0].Result? then [q[0].page] else []) + Results(q[1..])
  }

  lemma AllDone(s: State)
    ensures Unfinished(s) == 0 <==> forall w :: 0 <= w < |s.workers| ==> s.workers[w].phase.Done?
  {
    if Unfinished(s) > 0 {
      var w := WeighPositive(s.workers, UnfinishedWeight);
    } else {
      forall w | 0 <= w < |s.workers| ensures s.workers[w].phase.Done? {
        WeighUpdate(s.workers, w, s.workers[w], UnfinishedWeight);
      }
    }
    if forall w :: 0 <= w < |s.workers| ==> s.workers[w].phase.Done? {
      WeighZero(s.workers, UnfinishedWeight);
    }
  }

  lemma {:induction false} QueueAppend(q: seq<Item>, item: Item)
    ensures Markers(q + [item]) == Markers(q) + if item.Marker? then 1 else 0
    ensures Results(q + [item]) == Results(q) + if item.Result? then [item.page] else []
  {
    if q == [] {
      assert (q + [item])[1..] == [];
    } else {
      assert (q + [item])[1..] == q[1..] + [item];
      QueueAppend(q[1..], item);
    }
  }

  // ---- The invariant, clause by clause ----

  /** active counts unfinished workers and uncollected markers; permits count the free slots. */
  ghost predicate Accounting(c: Crawl, s: State) {
    && s.active == Unfinished(s) + Markers(s.queue)
    && s.permits == c.concurrency - Weigh(s.workers, PermitWeight)
    && s.permits >= 0
    && (s.queue != [] && s.queue[|s.queue| - 1].Result? ==> Unfinished(s) > 0)
    && (s.control in {Draining(true), Finished(true)} ==> s.active == 0 && s.frontier == [])
    && (s.control.Finished? ==> s.active == 0 && s.queue == [])
  }

  /** Pages leave the queue in the order they were put, each once. */
  ghost predicate Conservation(s: State) {
    && s.produced == s.yielded + Results(s.queue)
    && s.pages == |s.yielded|
  }

  function Tasks(ws: seq<Worker>): seq<Entry> {
    seq(|ws|, i requires 0 <= i < |ws| => ws[i].task)
  }

  /** Everything ever put on the frontier, in order: the spawned tasks, then what still waits. */
  function Pushed(s: State): seq<Entry> {
    Tasks(s.workers) + s.frontier
  }

  function LinkHashes(c: Crawl, links: seq<string>): set<string> {
    set l | l in links :: c.hash(l)
  }

  ghost predicate Discovered(c: Crawl, s: State, p: Page) {
    LinkHashes(c, p.links) <= s.seen
  }

  ghost predicate IsCovered(c: Crawl, s: State, p: Page) {
    Discovered(c, s, p) || exists w :: 0 <= w < |s.workers| && s.workers[w].phase == Discovering(p)
  }

  /** The seen set is what was pushed, and the links of every produced page are in it or about to be. */
  ghost predicate Coverage(c: Crawl, s: State) {
    && s.seen == c.seenBefore + Hashes(c, Pushed(s))
    && forall p :: p in s.produced && p.depth < c.maxDepth ==> IsCovered(c, s, p)
  }

  ghost predicate Leads(c: Crawl, p: Page, e: Entry) {
    p.url == e.parent && p.depth == e.depth - 1 && p.depth < c.maxDepth && e.url in p.links
  }

  /** Every entry is a seed at depth 0 or was found on a page one level up that was fetched. */
  ghost predicate HasOrigin(c: Crawl, s: State, e: Entry) {
    || (e.depth == 0 && e.parent == "" && e.url in c.seeds)
    || (e.depth > 0 && exists p :: p in s.produced && Leads(c, p, e))
  }

  ghost predicate PageOf(w: Worker) {
    match w.phase
    case Fetched(p) => TaskOf(p) == w.task
    case Discovering(p) => TaskOf(p) == w.task
    case _ => true
  }

  /** The page a worker looks for links on was produced, and is above the depth limit. */
  ghost predicate MayDiscover(c: Crawl, s: State, w: Worker) {
    w.phase.Discovering? ==> w.phase.page in s.produced && w.task.depth < c.maxDepth
  }

  ghost predicate WorkersAgree(c: Crawl, s: State) {
    forall w :: 0 <= w < |s.workers| ==> PageOf(s.workers[w]) && MayDiscover(c, s, s.workers[w])
  }

  function TaskOf(p: Page): Entry {
    Entry(p.url, p.depth, p.parent)
  }

  ghost predicate Provenance(c: Crawl, s: State) {
    && (forall e :: e in Pushed(s) ==> HasOrigin(c, s, e))
    && WorkersAgree(c, s)
    && (forall p :: p in s.produced ==> TaskOf(p) in Tasks(s.workers))
  }

  ghost predicate Inv(c: Crawl, s: State) {
    Accounting(c, s) && Conservation(s) && Coverage(c, s) && Provenance(c, s)
  }

  // ---- Every action keeps the invariant ----

  lemma MoveWeight(s: State, w: nat, phase: Phase, f: Worker -> nat)
    requires w < |s.workers|
    ensures Weigh(Move(s, w, phase).workers, f)
                == Weigh(s.workers, f) - f(s.workers[w]) + f(s.workers[w].(phase := phase))
    ensures f(s.workers[w]) <= Weigh(s.workers, f)
  {
    WeighUpdate(s.workers, w, s.workers[w].(phase := phase), f);
  }

  /** Moving one worker, and putting at most one item, changes the two counts by what that worker weighs. */
  lemma WorkerMoves(c: Crawl, s: State, t: State, w: nat, phase: Phase, put: seq<Item>)
    requires Accounting(c, s) && w < |s.workers|
    requires t.workers == Move(s, w, phase).workers && t.queue == s.queue + put && |put| <= 1
    requires t.control == s.control && t.active == s.active
    requires s.control in {Draining(true), Finished(true)} ==> t.frontier == []
    requires !s.workers[w].phase.Done?
    requires t.permits == s.permits + PermitWeight(s.workers[w]) - PermitWeight(s.workers[w].(phase := phase))
                 && t.permits >= 0
    requires phase.Done? <==> put == [Marker]
    requires put != [] && put[0].Result? ==> !phase.Done?
    ensures Accounting(c, t)
  {
    MoveWeight(s, w, phase, UnfinishedWeight);
    MoveWeight(s, w, phase, PermitWeight);
    if put == [] {
      assert t.queue == s.queue;
    } else {
      assert put == [put[0]];
      QueueAppend(s.queue, put[0]);
    }
    WeighUpdate(t.workers, w, t.workers[w], UnfinishedWeight);
  }

  lemma AccountingStep(c: Crawl, s: State, a: Action)
    requires Accounting(c, s) && Enabled(c, s, a)
    ensures Accounting(c, Apply(c, s, a))
  {
    var t := Apply(c, s, a);
    match a {
      case Acquire(w) => WorkerMoves(c, s, t, w, Fetching, []);
      case Fetch(w, page) => WorkerMoves(c, s, t, w, Fetched(page), []);
      case FetchNothing(w) => WorkerMoves(c, s, t, w, Signalling, []);
      case Put(w) => WorkerMoves(c, s, t, w, t.workers[w].phase, [Result(s.workers[w].phase.page)]);
      case Discover(w) =>
        MoveWeight(s, w, Signalling, UnfinishedWeight);
        WorkerMoves(c, s, t, w, Signalling, []);
      case Signal(w) => WorkerMoves(c, s, t, w, Done, [Marker]);
      case _ => SchedulerAccounting(c, s, a);
    }
  }

  lemma SchedulerAccounting(c: Crawl, s: State, a: Action)
    requires Accounting(c, s) && Enabled(c, s, a)
    requires a in {Spawn, Idle, Break, Cap, Collect, CollectDone, Drain, Finish}
    ensures Accounting(c, Apply(c, s, a))
  {
    if a == Spawn {
      WeighAppend(s.workers, Worker(s.frontier[0], Waiting), UnfinishedWeight);
      WeighAppend(s.workers, Worker(s.frontier[0], Waiting), PermitWeight);
    } else if a in {Collect, Drain} {
      TakeAccounting(c, s);
    } else if a == Finish {
      QueueEmptyWhenQuiet(c, s);
    }
  }

  lemma TakeAccounting(c: Crawl, s: State)
    requires Accounting(c, s) && s.queue != []
    ensures Accounting(c, TakeItem(s))
  {
    if s.active == 0 {
      QueueEmptyWhenQuiet(c, s);
    }
    var t := TakeItem(s);
    assert t.workers == s.workers && t.queue == s.queue[1..];
    assert t.queue != [] ==> t.queue[|t.queue| - 1] == s.queue[|s.queue| - 1];
  }

  lemma PutConserves(s: State, t: State, item: Item)
    requires Conservation(s) && t.queue == s.queue + [item] && t.yielded == s.yielded && t.pages == s.pages
    requires t.produced == s.produced + if item.Result? then [item.page] else []
    ensures Conservation(t)
  {
    QueueAppend(s.queue, item);
  }

  lemma TakeConserves(s: State)
    requires Conservation(s) && s.queue != []
    ensures Conservation(TakeItem(s))
  {
  }

  lemma ConservationStep(c: Crawl, s: State, a: Action)
    requires Conservation(s) && Enabled(c, s, a)
    ensures Conservation(Apply(c, s, a))
  {
    var t := Apply(c, s, a);
    match a {
      case Put(w) => PutConserves(s, t, Result(s.workers[w].phase.page));
      case Signal(w) => PutConserves(s, t, Marker);
      case Collect => TakeConserves(s);
      case Drain => TakeConserves(s);
      case _ => assert t.queue == s.queue && t.produced == s.produced && t.yielded == s.yielded && t.pages == s.pages;
    }
  }

  lemma {:induction false} NewEntriesCover(c: Crawl, links: seq<string>, depth: int, parent: string, seen: set<string>)
    ensures var found := NewEntries(c, links, depth, parent, seen);
            && LinkHashes(c, links) <= seen + Hashes(c, found)
            && forall e :: e in found ==>
                e.depth == depth && e.parent == parent && e.url in links && c.hash(e.url) !in seen
  {
    if links != [] {
      var h := c.hash(links[0]);
      var rest := NewEntries(c, links[1..], depth, parent, seen + {h});
      var found := NewEntries(c, links, depth, parent, seen);
      NewEntriesCover(c, links[1..], depth, parent, if h in seen then seen else seen + {h});
      forall l | l in links ensures c.hash(l) in seen + Hashes(c, found) {
        if l != links[0] {
          assert l in links[1..];
          assert c.hash(l) in LinkHashes(c, links[1..]);
        }
        if h !in seen {
          assert found == [Entry(links[0], depth, parent)] + rest;
          assert found[0] in found;
          forall e | e in rest ensures c.hash(e.url) in Hashes(c, found) {
            assert e in found;
          }
        }
      }
    }
  }

  lemma HashesConcat(c: Crawl, xs: seq<Entry>, ys: seq<Entry>)
    ensures Hashes(c, xs + ys) == Hashes(c, xs) + Hashes(c, ys)
  {
  }

  /** What an action finds to push on the frontier. */
  function Found(c: Crawl, s: State, a: Action): seq<Entry>
    requires Enabled(c, s, a)
  {
    if a.Discover? then
      NewEntries(c, s.workers[a.w].phase.page.links, s.workers[a.w].task.depth + 1, s.workers[a.w].task.url, s.seen)
    else []
  }

  lemma PushedAfter(c: Crawl, s: State, a: Action)
    requires Enabled(c, s, a)
    ensures Pushed(Apply(c, s, a)) == Pushed(s) + Found(c, s, a)
    ensures !a.Spawn? ==> Tasks(Apply(c, s, a).workers) == Tasks(s.workers)
    ensures Tasks(s.workers) <= Tasks(Apply(c, s, a).workers)
  {
    if a.Spawn? {
      PushedAfterSpawn(c, s);
    } else if IsWorkerAction(a) {
      PushedAfterMove(c, s, a);
    }
  }

  lemma PushedAfterSpawn(c: Crawl, s: State)
    requires Enabled(c, s, Spawn)
    ensures Pushed(Apply(c, s, Spawn)) == Pushed(s) && Tasks(s.workers) <= Tasks(Apply(c, s, Spawn).workers)
  {
    assert s.frontier == [s.frontier[0]] + s.frontier[1..];
    assert Tasks(Apply(c, s, Spawn).workers) == Tasks(s.workers) + [s.frontier[0]];
  }

  lemma PushedAfterMove(c: Crawl, s: State, a: Action)
    requires Enabled(c, s, a) && IsWorkerAction(a)
    ensures Tasks(Apply(c, s, a).workers) == Tasks(s.workers)
    ensures Apply(c, s, a).frontier == s.frontier + Found(c, s, a)
  {
    OthersStay(c, s, a);
    MoveKeepsTasks(s, a.w, Apply(c, s, a).workers[a.w].phase);
  }

  /** A worker's step changes that worker's phase and no other worker. */
  lemma OthersStay(c: Crawl, s: State, a: Action)
    requires Enabled(c, s, a) && IsWorkerAction(a)
    ensures |Apply(c, s, a).workers| == |s.workers|
    ensures Apply(c, s, a).workers == Move(s, a.w, Apply(c, s, a).workers[a.w].phase).workers
  {
  }

  lemma MoveKeepsTasks(s: State, w: nat, phase: Phase)
    requires w < |s.workers|
    ensures Tasks(Move(s, w, phase).workers) == Tasks(s.workers)
  {
  }

  lemma SeenStep(c: Crawl, s: State, a: Action)
    requires Coverage(c, s) && Enabled(c, s, a)
    ensures var t := Apply(c, s, a);
            t.seen == c.seenBefore + Hashes(c, Pushed(t)) && s.seen <= t.seen
    ensures a.Discover? ==> Discovered(c, Apply(c, s, a), s.workers[a.w].phase.page)
  {
    PushedAfter(c, s, a);
    HashesConcat(c, Pushed(s), Found(c, s, a));
    if a.Discover? {
      NewEntriesCover(c, s.workers[a.w].phase.page.links, s.workers[a.w].task.depth + 1, s.workers[a.w].task.url,
                      s.seen);
    } else {
      assert Apply(c, s, a).seen == s.seen;
    }
  }

  lemma CoverageStep(c: Crawl, s: State, a: Action)
    requires Coverage(c, s) && Provenance(c, s) && Enabled(c, s, a)
    ensures Coverage(c, Apply(c, s, a))
  {
    var t := Apply(c, s, a);
    SeenStep(c, s, a);
    forall p | p in t.produced && p.depth < c.maxDepth ensures IsCovered(c, t, p) {
      if p in s.produced {
        StaysCovered(c, s, a, p);
      } else {
        PutIsCovered(c, s, a, p);
      }
    }
  }

  lemma StaysCovered(c: Crawl, s: State, a: Action, p: Page)
    requires IsCovered(c, s, p) && Enabled(c, s, a)
    requires s.seen <= Apply(c, s, a).seen
    requires a.Discover? ==> Discovered(c, Apply(c, s, a), s.workers[a.w].phase.page)
    ensures IsCovered(c, Apply(c, s, a), p)
  {
    if !Discovered(c, s, p) {
      var w :| 0 <= w < |s.workers| && s.workers[w].phase == Discovering(p);
      if a != Discover(w) {
        DiscovererStays(c, s, a, w);
      }
    }
  }

  lemma DiscovererStays(c: Crawl, s: State, a: Action, w: nat)
    requires Enabled(c, s, a) && w < |s.workers| && s.workers[w].phase.Discovering? && a != Discover(w)
    ensures w < |Apply(c, s, a).workers| && Apply(c, s, a).workers[w] == s.workers[w]
  {
  }

  /** Only a put produces a page. */
  lemma ProducedAfter(c: Crawl, s: State, a: Action)
    requires Enabled(c, s, a)
    ensures Apply(c, s, a).produced == s.produced + if a.Put? then [s.workers[a.w].phase.page] else []
  {
  }

  lemma PutIsCovered(c: Crawl, s: State, a: Action, p: Page)
    requires Provenance(c, s) && Enabled(c, s, a)
    requires p in Apply(c, s, a).produced && p !in s.produced && p.depth < c.maxDepth
    ensures IsCovered(c, Apply(c, s, a), p)
  {
    ProducedAfter(c, s, a);
    assert PageOf(s.workers[a.w]);
    assert Apply(c, s, a).workers[a.w].phase == Discovering(p);
  }

  lemma OriginKept(c: Crawl, s: State, t: State, e: Entry)
    requires HasOrigin(c, s, e) && s.produced <= t.produced
    ensures HasOrigin(c, t, e)
  {
    if e.depth > 0 {
      var p :| p in s.produced && Leads(c, p, e);
      assert p in t.produced;
    }
  }

  lemma ProvenanceStep(c: Crawl, s: State, a: Action)
    requires Provenance(c, s) && Enabled(c, s, a)
    ensures Provenance(c, Apply(c, s, a))
  {
    var t := Apply(c, s, a);
    PushedAfter(c, s, a);
    ProducedAfter(c, s, a);
    forall e | e in Pushed(t) ensures HasOrigin(c, t, e) {
      if e in Pushed(s) {
        OriginKept(c, s, t, e);
      } else {
        FoundHasOrigin(c, s, a, e);
        OriginKept(c, s, t, e);
      }
    }
    WorkersStep(c, s, a);
    forall p | p in t.produced ensures TaskOf(p) in Tasks(t.workers) {
      PageHasTask(c, s, a, p);
    }
  }

  lemma FoundHasOrigin(c: Crawl, s: State, a: Action, e: Entry)
    requires Provenance(c, s) && Enabled(c, s, a) && e in Found(c, s, a)
    ensures HasOrigin(c, s, e)
  {
    var page, task := s.workers[a.w].phase.page, s.workers[a.w].task;
    NewEntriesCover(c, page.links, task.depth + 1, task.url, s.seen);
    assert PageOf(s.workers[a.w]) && MayDiscover(c, s, s.workers[a.w]);
    TaskDepth(c, s, a.w);
    assert page in s.produced && Leads(c, page, e);
  }

  lemma WorkersStep(c: Crawl, s: State, a: Action)
    requires WorkersAgree(c, s) && Enabled(c, s, a)
    ensures WorkersAgree(c, Apply(c, s, a))
  {
    var t := Apply(c, s, a);
    ProducedAfter(c, s, a);
    forall w | 0 <= w < |t.workers| ensures PageOf(t.workers[w]) && MayDiscover(c, t, t.workers[w]) {
      WorkerAgreesAfter(c, s, a, w);
    }
  }

  lemma WorkerAgreesAfter(c: Crawl, s: State, a: Action, w: nat)
    requires WorkersAgree(c, s) && Enabled(c, s, a) && w < |Apply(c, s, a).workers|
    requires s.produced <= Apply(c, s, a).produced
    ensures PageOf(Apply(c, s, a).workers[w]) && MayDiscover(c, Apply(c, s, a), Apply(c, s, a).workers[w])
  {
    if w < |s.workers| {
      assert PageOf(s.workers[w]) && MayDiscover(c, s, s.workers[w]);
    }
  }

  lemma PageHasTask(c: Crawl, s: State, a: Action, p: Page)
    requires Provenance(c, s) && Enabled(c, s, a) && p in Apply(c, s, a).produced
    ensures TaskOf(p) in Tasks(Apply(c, s, a).workers)
  {
    PushedAfter(c, s, a);
    ProducedAfter(c, s, a);
    if p !in s.produced {
      assert PageOf(s.workers[a.w]);
      assert Tasks(s.workers)[a.w] == TaskOf(p);
    }
  }

  lemma TaskDepth(c: Crawl, s: State, w: nat)
    requires Provenance(c, s) && w < |s.workers|
    ensures s.workers[w].task.depth >= 0
  {
    assert Tasks(s.workers)[w] in Pushed(s);
    assert HasOrigin(c, s, s.workers[w].task);
  }

  lemma StartHolds(c: Crawl)
    ensures Inv(c, Start(c))
  {
    var s := Start(c);
    assert Pushed(s) == SeedEntries(c.seeds);
  }

  lemma InvStep(c: Crawl, s: State, a: Action)
    requires Inv(c, s) && Enabled(c, s, a)
    ensures Inv(c, Apply(c, s, a))
  {
    AccountingStep(c, s, a);
    ConservationStep(c, s, a);
    CoverageStep(c, s, a);
    ProvenanceStep(c, s, a);
  }

  lemma {:induction false} RunKeepsInv(c: Crawl, states: seq<State>, actions: seq<Action>)
    requires Run(c, states, actions) && Inv(c, states[0])
    ensures Inv(c, states[|actions|])
  {
    if actions != [] {
      var m := |actions| - 1;
      RunKeepsInv(c, states[..m + 1], actions[..m]);
      InvStep(c, states[m], actions[m]);
    }
  }

  /** The invariant holds in every state any interleaving reaches. */
  lemma ReachableInv(c: Crawl, s: State)
    requires Reachable(c, s)
    ensures Inv(c, s)
  {
    var states, actions :| Run(c, states, actions) && states[0] == Start(c) && states[|actions|] == s;
    StartHolds(c);
    RunKeepsInv(c, states, actions);
  }

  // ---- Quiescence, return, progress, termination ----

  /** A worker was started for some URL with this hash. */
  ghost predicate SpawnedHash(c: Crawl, s: State, h: string) {
    exists w :: 0 <= w < |s.workers| && c.hash(s.workers[w].task.url) == h
  }

  lemma QueueEmptyWhenQuiet(c: Crawl, s: State)
    requires Accounting(c, s) && s.active == 0
    ensures Unfinished(s) == 0 && s.queue == []
  {
    if s.queue != [] {
      var m := |s.queue| - 1;
      assert s.queue == s.queue[..m] + [s.queue[m]];
      QueueAppend(s.queue[..m], s.queue[m]);
    }
  }

  /**
   Leaving by the active == 0 break: no worker runs, nothing is queued or
   waiting, every page was yielded, and each link of a page above the depth
   limit was seen before this crawl or has a spawned entry with its hash.
   */
  lemma QuiescenceIsSound(c: Crawl, s: State)
    requires Reachable(c, s) && s.control in {Draining(true), Finished(true)}
    ensures forall w :: 0 <= w < |s.workers| ==> s.workers[w].phase.Done?
    ensures s.queue == [] && s.frontier == [] && s.yielded == s.produced
    ensures forall p, l :: p in s.yielded && p.depth < c.maxDepth && l in p.links ==>
              c.hash(l) in c.seenBefore || SpawnedHash(c, s, c.hash(l))
  {
    ReachableInv(c, s);
    QueueEmptyWhenQuiet(c, s);
    AllDone(s);
    forall p, l | p in s.yielded && p.depth < c.maxDepth && l in p.links
      ensures c.hash(l) in c.seenBefore || SpawnedHash(c, s, c.hash(l))
    {
      assert Discovered(c, s, p);
      assert c.hash(l) in LinkHashes(c, p.links);
      if c.hash(l) !in c.seenBefore {
        var e :| e in Pushed(s) && c.hash(e.url) == c.hash(l);
        var w :| 0 <= w < |s.workers| && Tasks(s.workers)[w] == e;
        assert c.hash(s.workers[w].task.url) == c.hash(l);
      }
    }
  }

  /** With an injective hash on a fresh crawler, the link itself was spawned. */
  lemma EveryLinkIsVisited(c: Crawl, s: State, p: Page, l: string)
    requires Reachable(c, s) && s.control in {Draining(true), Finished(true)}
    requires c.seenBefore == {} && forall x, y :: c.hash(x) == c.hash(y) ==> x == y
    requires p in s.yielded && p.depth < c.maxDepth && l in p.links
    ensures exists w :: 0 <= w < |s.workers| && s.workers[w].task.url == l
  {
    QuiescenceIsSound(c, s);
    assert SpawnedHash(c, s, c.hash(l));
    var w :| 0 <= w < |s.workers| && c.hash(s.workers[w].task.url) == c.hash(l);
    assert s.workers[w].task.url == l;
  }

  /** Whatever the exit, on return every page produced was yielded, once and in order. */
  lemma ReturnYieldsEverything(c: Crawl, s: State)
    requires Reachable(c, s) && s.control.Finished?
    ensures s.yielded == s.produced && s.active == 0 && s.queue == []
    ensures forall w :: 0 <= w < |s.workers| ==> s.workers[w].phase.Done?
  {
    ReachableInv(c, s);
    QueueEmptyWhenQuiet(c, s);
    AllDone(s);
  }

  /**
   In the trailing drain something can always happen; when its get() finds the
   queue empty, what can happen is a step of a worker that has yet to signal.
   */
  lemma DrainMakesProgress(c: Crawl, s: State) returns (a: Action)
    requires Reachable(c, s) && s.control.Draining? && c.concurrency > 0
    ensures Enabled(c, s, a) && Apply(c, s, a) != s
    ensures s.queue == [] && s.active > 0 ==> IsWorkerAction(a)
  {
    ReachableInv(c, s);
    a := DrainOrWork(c, s);
  }

  function DrainMeasure(s: State): nat {
    Weigh(s.workers, WorkWeight) + |s.queue| + if s.control.Draining? then 1 else 0
  }

  /** A worker's move that puts less on the queue than the worker gives up. */
  lemma MoveShrinks(s: State, t: State, w: nat, phase: Phase)
    requires w < |s.workers| && t.workers == Move(s, w, phase).workers && t.control == s.control
    requires WorkWeight(s.workers[w].(phase := phase)) + |t.queue| < WorkWeight(s.workers[w]) + |s.queue|
    ensures DrainMeasure(t) < DrainMeasure(s)
  {
    MoveWeight(s, w, phase, WorkWeight);
  }

  lemma DrainShrinks(c: Crawl, s: State, a: Action)
    requires s.control.Draining? || s.control.Finished?
    requires Enabled(c, s, a)
    ensures DrainMeasure(Apply(c, s, a)) < DrainMeasure(s)
    ensures Apply(c, s, a).control.Draining? || Apply(c, s, a).control.Finished?
  {
    var t := Apply(c, s, a);
    match a {
      case Acquire(w) => MoveShrinks(s, t, w, Fetching);
      case Fetch(w, page) => MoveShrinks(s, t, w, Fetched(page));
      case FetchNothing(w) => MoveShrinks(s, t, w, Signalling);
      case Put(w) => MoveShrinks(s, t, w, t.workers[w].phase);
      case Discover(w) => MoveShrinks(s, t, w, Signalling);
      case Signal(w) => MoveShrinks(s, t, w, Done);
      case Drain => assert t.workers == s.workers;
      case _ =>
    }
  }

  /** From the trailing drain on, no interleaving runs longer than the measure. */
  lemma {:induction false} DrainTerminates(c: Crawl, states: seq<State>, actions: seq<Action>)
    requires Run(c, states, actions) && (states[0].control.Draining? || states[0].control.Finished?)
    ensures |actions| + DrainMeasure(states[|actions|]) <= DrainMeasure(states[0])
    ensures states[|actions|].control.Draining? || states[|actions|].control.Finished?
  {
    if actions != [] {
      var m := |actions| - 1;
      DrainTerminates(c, states[..m + 1], actions[..m]);
      DrainShrinks(c, states[m], actions[m]);
    }
  }

  // ---- Visits ----

  ghost predicate DistinctHashes(c: Crawl, es: seq<Entry>) {
    forall i, j :: 0 <= i < j < |es| ==> c.hash(es[i].url) != c.hash(es[j].url)
  }

  lemma {:induction false} NewEntriesDistinct(c: Crawl, links: seq<string>, depth: int, parent: string,
                                              seen: set<string>)
    ensures DistinctHashes(c, NewEntries(c, links, depth, parent, seen))
  {
    if links != [] {
      var h := c.hash(links[0]);
      NewEntriesDistinct(c, links[1..], depth, parent, if h in seen then seen else seen + {h});
      NewEntriesCover(c, links[1..], depth, parent, if h in seen then seen else seen + {h});
      if h !in seen {
        var rest := NewEntries(c, links[1..], depth, parent, seen + {h});
        forall j | 0 <= j < |rest| ensures c.hash(rest[j].url) != h {
          assert rest[j] in rest;
        }
      }
    }
  }

  lemma DistinctStep(c: Crawl, s: State, a: Action)
    requires Hashes(c, Pushed(s)) <= s.seen && DistinctHashes(c, Pushed(s)) && Enabled(c, s, a)
    ensures DistinctHashes(c, Pushed(Apply(c, s, a)))
  {
    PushedAfter(c, s, a);
    if a.Discover? {
      DistinctAppend(c, Pushed(s), s.workers[a.w].phase.page.links, s.workers[a.w].task.depth + 1,
          s.workers[a.w].task.url,
                     s.seen);
    } else {
      assert Pushed(Apply(c, s, a)) == Pushed(s);
    }
  }

  lemma DistinctAppend(c: Crawl, before: seq<Entry>, links: seq<string>, depth: int, parent: string, seen: set<string>)
    requires DistinctHashes(c, before) && Hashes(c, before) <= seen
    ensures DistinctHashes(c, before + NewEntries(c, links, depth, parent, seen))
  {
    var found := NewEntries(c, links, depth, parent, seen);
    NewEntriesCover(c, links, depth, parent, seen);
    NewEntriesDistinct(c, links, depth, parent, seen);
    forall i, j | 0 <= i < |before| && 0 <= j < |found| ensures c.hash(before[i].url) != c.hash(found[j].url) {
      assert before[i] in before && found[j] in found;
      assert c.hash(before[i].url) in Hashes(c, before);
    }
  }

  lemma {:induction false} RunKeepsDistinct(c: Crawl, states: seq<State>, actions: seq<Action>)
    requires Run(c, states, actions) && states[0] == Start(c)
    requires DistinctHashes(c, SeedEntries(c.seeds))
    ensures DistinctHashes(c, Pushed(states[|actions|])) && Inv(c, states[|actions|])
  {
    if actions == [] {
      StartHolds(c);
      assert Pushed(states[0]) == SeedEntries(c.seeds);
    } else {
      var m := |actions| - 1;
      RunKeepsDistinct(c, states[..m + 1], actions[..m]);
      DistinctStep(c, states[m], actions[m]);
      InvStep(c, states[m], actions[m]);
    }
  }

  /** With seeds of distinct hashes no URL is ever spawned twice, whatever the interleaving. */
  lemma NoUrlSpawnedTwice(c: Crawl, s: State, v: nat, w: nat)
    requires Reachable(c, s) && v < w < |s.workers|
    requires forall i, j :: 0 <= i < j < |c.seeds| ==> c.hash(c.seeds[i]) != c.hash(c.seeds[j])
    ensures s.workers[v].task.url != s.workers[w].task.url
  {
    var states, actions :| Run(c, states, actions) && states[0] == Start(c) && states[|actions|] == s;
    RunKeepsDistinct(c, states, actions);
    assert Pushed(s)[v] == s.workers[v].task && Pushed(s)[w] == s.workers[w].task;
  }

  /** A chain of fetched pages from a seed, each linking to the next. */
  ghost predicate LinkPath(c: Crawl, s: State, path: seq<Page>, url: string) {
    && (forall i :: 0 <= i < |path| ==> path[i] in s.produced && path[i].depth == i)
    && (forall i :: 0 <= i < |path| - 1 ==> path[i + 1].url in path[i].links)
    && (if path == [] then url in c.seeds else path[0].url in c.seeds && url in path[|path| - 1].links)
  }

  /** A spawned depth is at most max_depth (or 0) and is the length of a real link path from a seed. */
  lemma {:induction false} DepthIsPathLength(c: Crawl, s: State, e: Entry) returns (path: seq<Page>)
    requires Inv(c, s) && e in Pushed(s)
    ensures 0 <= e.depth && (e.depth > 0 ==> e.depth <= c.maxDepth)
    ensures |path| == e.depth && LinkPath(c, s, path, e.url)
    decreases e.depth
  {
    assert HasOrigin(c, s, e);
    if e.depth == 0 {
      path := [];
    } else {
      var p :| p in s.produced && Leads(c, p, e);
      var from := Entry(p.url, p.depth, p.parent);
      assert from in Pushed(s);
      var before := DepthIsPathLength(c, s, from);
      path := before + [p];
      ExtendPath(c, s, before, p, e);
    }
  }

  lemma ExtendPath(c: Crawl, s: State, before: seq<Page>, p: Page, e: Entry)
    requires LinkPath(c, s, before, p.url) && |before| == p.depth
    requires p in s.produced && e.url in p.links
    ensures LinkPath(c, s, before + [p], e.url)
  {
    var path := before + [p];
    forall i | 0 <= i < |path| ensures path[i] in s.produced && path[i].depth == i {
      if i < |before| {
        assert path[i] == before[i];
      }
    }
    forall i | 0 <= i < |path| - 1 ensures path[i + 1].url in path[i].links {
      if i + 1 < |before| {
        assert path[i + 1] == before[i + 1] && path[i] == before[i];
      }
    }
  }

  lemma SpawnedDepths(c: Crawl, s: State, w: nat) returns (path: seq<Page>)
    requires Reachable(c, s) && w < |s.workers|
    ensures 0 <= s.workers[w].task.depth && (s.workers[w].task.depth > 0 ==> s.workers[w].task.depth <= c.maxDepth)
    ensures |path| == s.workers[w].task.depth && LinkPath(c, s, path, s.workers[w].task.url)
  {
    ReachableInv(c, s);
    assert Tasks(s.workers)[w] in Pushed(s);
    path := DepthIsPathLength(c, s, s.workers[w].task);
  }

  /** At most `concurrency` workers are inside the semaphore. */
  lemma ConcurrencyIsBounded(c: Crawl, s: State)
    requires Reachable(c, s)
    ensures Weigh(s.workers, PermitWeight) <= c.concurrency
  {
    ReachableInv(c, s);
  }

  // ---- Something can always move ----

  lemma DrainOrWork(c: Crawl, s: State) returns (a: Action)
    requires Inv(c, s) && c.concurrency > 0 && s.control.Draining?
    ensures Enabled(c, s, a) && Apply(c, s, a) != s
    ensures s.queue == [] && s.active > 0 ==> IsWorkerAction(a)
  {
    if s.queue != [] {
      a := Drain;
    } else if s.active == 0 {
      a := Finish;
    } else {
      a := WorkerCanMove(c, s);
    }
  }

  lemma WorkerCanMove(c: Crawl, s: State) returns (a: Action)
    requires Inv(c, s) && c.concurrency > 0 && Unfinished(s) > 0
    ensures Enabled(c, s, a) && Apply(c, s, a) != s
    ensures IsWorkerAction(a)
  {
    var w := WeighPositive(s.workers, UnfinishedWeight);
    if s.workers[w].phase.Waiting? && s.permits == 0 {
      w := WeighPositive(s.workers, PermitWeight);
    }
    match s.workers[w].phase {
      case Waiting => a := Acquire(w);
      case Fetching => a := FetchNothing(w);
      case Fetched(_) => a := Put(w);
      case Discovering(_) => a := Discover(w);
      case Signalling => a := Signal(w);
    }
    MoveIsVisible(c, s, a);
  }

  lemma MoveIsVisible(c: Crawl, s: State, a: Action)
    requires Enabled(c, s, a) && IsWorkerAction(a)
    ensures Apply(c, s, a) != s
  {
    assert Apply(c, s, a).workers[a.w].phase != s.workers[a.w].phase;
  }

  // ---- No page twice ----

  /** A worker that has not put its page yet has no page among those produced. */
  ghost predicate OnePageEach(c: Crawl, s: State) {
    && (forall i, j :: 0 <= i < j < |s.produced| ==> s.produced[i].url != s.produced[j].url)
    && (forall w, p :: 0 <= w < |s.workers| && p in s.produced
          && (s.workers[w].phase.Waiting? || s.workers[w].phase.Fetching? || s.workers[w].phase.Fetched?)
          ==> p.url != s.workers[w].task.url)
  }

  lemma SpawnIsNew(c: Crawl, s: State, p: Page)
    requires Provenance(c, s) && DistinctHashes(c, Pushed(s)) && s.frontier != [] && p in s.produced
    ensures p.url != s.frontier[0].url
  {
    var v :| 0 <= v < |s.workers| && Tasks(s.workers)[v] == Entry(p.url, p.depth, p.parent);
    assert Pushed(s)[v].url == p.url && Pushed(s)[|s.workers|] == s.frontier[0];
  }

  lemma PutIsNew(c: Crawl, s: State, a: Action)
    requires Provenance(c, s) && DistinctHashes(c, Pushed(s)) && OnePageEach(c, s)
    requires Enabled(c, s, a) && a.Put?
    ensures OnePageEach(c, Apply(c, s, a))
  {
    assert PageOf(s.workers[a.w]);
    var page := s.workers[a.w].phase.page;
    forall w | 0 <= w < |s.workers| && w != a.w ensures s.workers[w].task.url != page.url {
      assert Pushed(s)[w] == s.workers[w].task && Pushed(s)[a.w] == s.workers[a.w].task;
    }
    forall i | 0 <= i < |s.produced| ensures s.produced[i].url != page.url {
      assert s.produced[i] in s.produced;
    }
  }

  lemma OnePageStep(c: Crawl, s: State, a: Action)
    requires Inv(c, s) && DistinctHashes(c, Pushed(s)) && OnePageEach(c, s) && Enabled(c, s, a)
    ensures OnePageEach(c, Apply(c, s, a))
  {
    if a.Put? {
      PutIsNew(c, s, a);
    } else if a.Spawn? {
      forall p | p in s.produced ensures p.url != s.frontier[0].url {
        SpawnIsNew(c, s, p);
      }
    } else {
      OtherStepsKeepPages(c, s, a);
    }
  }

  lemma OtherStepsKeepPages(c: Crawl, s: State, a: Action)
    requires OnePageEach(c, s) && Enabled(c, s, a) && !a.Put? && !a.Spawn?
    ensures OnePageEach(c, Apply(c, s, a))
  {
    var t := Apply(c, s, a);
    assert t.produced == s.produced && |t.workers| == |s.workers|;
    forall w | 0 <= w < |t.workers|
      ensures t.workers[w].task == s.workers[w].task
      ensures t.workers[w].phase.Waiting? || t.workers[w].phase.Fetching? || t.workers[w].phase.Fetched?
              ==> s.workers[w].phase.Waiting? || s.workers[w].phase.Fetching? || s.workers[w].phase.Fetched?
    {
    }
  }

  lemma {:induction false} RunKeepsOnePage(c: Crawl, states: seq<State>, actions: seq<Action>)
    requires Run(c, states, actions) && states[0] == Start(c) && DistinctHashes(c, SeedEntries(c.seeds))
    ensures OnePageEach(c, states[|actions|])
  {
    if actions != [] {
      var m := |actions| - 1;
      RunKeepsOnePage(c, states[..m + 1], actions[..m]);
      RunKeepsDistinct(c, states[..m + 1], actions[..m]);
      OnePageStep(c, states[m], actions[m]);
    }
  }

  /** No URL is yielded twice. */
  lemma NoUrlYieldedTwice(c: Crawl, s: State, i: nat, j: nat)
    requires Reachable(c, s) && i < j < |s.yielded|
    requires forall k, l :: 0 <= k < l < |c.seeds| ==> c.hash(c.seeds[k]) != c.hash(c.seeds[l])
    ensures s.yielded[i].url != s.yielded[j].url
  {
    ReachableInv(c, s);
    var states, actions :| Run(c, states, actions) && states[0] == Start(c) && states[|actions|] == s;
    RunKeepsOnePage(c, states, actions);
    assert s.produced[i] == s.yielded[i] && s.produced[j] == s.yielded[j];
  }
}
