/**
 What bounds a crawl and what it must not miss: the page limit, the permits, the
 order in which the crawl generator moves on, and the seeds.
 */
module CrawlLimits {
  import opened Counting
  import opened CrawlScheduler

  // ---- The page limit ----

  lemma WorkersAfter(c: Crawl, s: State, a: Action)
    requires Enabled(c, s, a)
    ensures |Apply(c, s, a).workers| == |s.workers| + if a.Spawn? then 1 else 0
    ensures s.pages <= Apply(c, s, a).pages
  {
  }

  /** In every run a worker is added only below the limit, for the first entry of the frontier. */
  lemma SpawnsBelowLimit(c: Crawl, states: seq<State>, actions: seq<Action>, i: nat)
    requires Run(c, states, actions) && i < |actions|
    ensures var s, t := states[i], states[i + 1];
            |t.workers| > |s.workers| ==>
              s.pages < c.maxPages && s.frontier != [] && t.frontier == s.frontier[1..]
              && t.workers == s.workers + [Worker(s.frontier[0], Waiting)]
  {
    var s, a := states[i], actions[i];
    assert Enabled(c, s, a);
    WorkersAfter(c, s, a);
  }

  /** The frontier loop has reached the limit, or was left. */
  predicate HasStopped(c: Crawl, s: State) {
    match s.control
    case Frontier => s.pages >= c.maxPages
    case Collecting => false
    case Draining(_) => true
    case Finished(_) => true
  }

  lemma StopStep(c: Crawl, s: State, a: Action)
    requires HasStopped(c, s) && Enabled(c, s, a)
    ensures HasStopped(c, Apply(c, s, a)) && |Apply(c, s, a).workers| == |s.workers|
  {
  }

  /** Once the limit is reached no worker is ever added again. */
  lemma {:induction false} LimitIsFinal(c: Crawl, states: seq<State>, actions: seq<Action>, i: nat)
    requires Run(c, states, actions) && i <= |actions| && HasStopped(c, states[i])
    ensures HasStopped(c, states[|actions|]) && |states[|actions|].workers| == |states[i].workers|
    decreases |actions|
  {
    if i < |actions| {
      var m := |actions| - 1;
      LimitIsFinal(c, states[..m + 1], actions[..m], i);
      StopStep(c, states[m], actions[m]);
    }
  }

  function MayPut(w: Worker): nat {
    if w.phase.Waiting? || w.phase.Fetching? || w.phase.Fetched? then 1 else 0
  }

  /** The pages that may still come without another spawn. */
  function Pending(s: State): nat {
    |Results(s.queue)| + Weigh(s.workers, MayPut)
  }

  lemma MoveUsesUp(s: State, t: State, w: nat, phase: Phase, put: seq<Page>)
    requires w < |s.workers| && t.workers == Move(s, w, phase).workers && t.yielded == s.yielded
    requires Results(t.queue) == Results(s.queue) + put
    requires MayPut(s.workers[w].(phase := phase)) + |put| <= MayPut(s.workers[w])
    ensures |t.yielded| + Pending(t) <= |s.yielded| + Pending(s)
  {
    MoveWeight(s, w, phase, MayPut);
  }

  lemma PendingStep(c: Crawl, s: State, a: Action)
    requires Enabled(c, s, a) && !a.Spawn?
    ensures var t := Apply(c, s, a); |t.yielded| + Pending(t) <= |s.yielded| + Pending(s)
  {
    var t := Apply(c, s, a);
    match a {
      case Acquire(w) => MoveUsesUp(s, t, w, Fetching, []);
      case Fetch(w, page) => MoveUsesUp(s, t, w, Fetched(page), []);
      case FetchNothing(w) => MoveUsesUp(s, t, w, Signalling, []);
      case Put(w) =>
        QueueAppend(s.queue, Result(s.workers[w].phase.page));
        MoveUsesUp(s, t, w, t.workers[w].phase, [s.workers[w].phase.page]);
      case Discover(w) => MoveUsesUp(s, t, w, Signalling, []);
      case Signal(w) =>
        QueueAppend(s.queue, Marker);
        MoveUsesUp(s, t, w, Done, []);
      case Collect => assert t.workers == s.workers;
      case Drain => assert t.workers == s.workers;
      case _ =>
    }
  }

  /** How far the soft limit is overshot: by what was fetched or in flight when it was reached. */
  lemma {:induction false} OvershootIsPending(c: Crawl, states: seq<State>, actions: seq<Action>, i: nat)
    requires Run(c, states, actions) && i <= |actions| && HasStopped(c, states[i])
    ensures |states[|actions|].yielded| + Pending(states[|actions|]) <= |states[i].yielded| + Pending(states[i])
    decreases |actions|
  {
    if i < |actions| {
      var m := |actions| - 1;
      OvershootIsPending(c, states[..m + 1], actions[..m], i);
      LimitIsFinal(c, states[..m + 1], actions[..m], i);
      LimitForbidsSpawn(c, states[m], actions[m]);
      PendingStep(c, states[m], actions[m]);
    }
  }

  lemma LimitForbidsSpawn(c: Crawl, s: State, a: Action)
    requires HasStopped(c, s) && Enabled(c, s, a)
    ensures !a.Spawn?
  {
  }

  /** With a limit of zero or less nothing is spawned and nothing is yielded. */
  lemma NoRoomNoCrawl(c: Crawl, s: State)
    requires Reachable(c, s) && c.maxPages <= 0
    ensures s.workers == [] && s.produced == [] && s.yielded == []
  {
    var states, actions :| Run(c, states, actions) && states[0] == Start(c) && states[|actions|] == s;
    LimitIsFinal(c, states, actions, 0);
    ReachableInv(c, s);
    PagesNeedWorkers(s.produced, s.workers);
  }

  lemma PagesNeedWorkers(pages: seq<Page>, workers: seq<Worker>)
    requires forall p :: p in pages ==> TaskOf(p) in Tasks(workers)
    ensures pages != [] ==> workers != []
  {
    if pages != [] {
      assert TaskOf(pages[0]) in Tasks(workers);
    }
  }

  // ---- The crawl generator ----

  /** When the generator leaves each of its loops. */
  lemma ControlMoves(c: Crawl, s: State, a: Action)
    requires Enabled(c, s, a)
    ensures var t := Apply(c, s, a);
      && (t.control == Collecting && s.control != Collecting ==> s.control == Frontier && s.pages < c.maxPages)
      && (t.control == Frontier && s.control != Frontier ==> s.control == Collecting && s.queue == [])
      && (t.control == Draining(true) && s.control != t.control ==>
            s.control == Frontier && s.frontier == [] && s.active == 0 && s.pages < c.maxPages)
      && (t.control == Draining(false) && s.control != t.control ==> s.control == Frontier && s.pages >= c.maxPages)
      && (t.control.Finished? && !s.control.Finished? ==>
            s.control.Draining? && s.queue == [] && s.active <= 0 && t.control.byBreak == s.control.byBreak)
  {
  }

  /** The generator never has a choice. */
  lemma GeneratorIsDeterministic(c: Crawl, s: State, a: Action, b: Action)
    requires Enabled(c, s, a) && Enabled(c, s, b) && !IsWorkerAction(a) && !IsWorkerAction(b)
    ensures a == b
  {
  }

  /** It waits only in the drain, with an empty queue and workers that have yet to signal. */
  lemma GeneratorWaitsIff(c: Crawl, s: State)
    ensures (forall a :: Enabled(c, s, a) ==> IsWorkerAction(a))
       <==> s.control.Finished? || (s.control.Draining? && s.queue == [] && s.active > 0)
  {
    var a := match s.control
      case Frontier => if s.pages >= c.maxPages then Cap else if s.frontier != [] then Spawn
                       else if s.active == 0 then Break else Idle
      case Collecting => if s.queue == [] then CollectDone else Collect
      case Draining(_) => if s.queue == [] then Finish else Drain
      case Finished(_) => Idle;
    assert !IsWorkerAction(a);
  }

  // ---- Permits ----

  /** A waiting worker has to wait exactly while all permits are in use. */
  lemma WaitsIffAllPermitsAreUsed(c: Crawl, s: State, w: nat)
    requires Reachable(c, s) && w < |s.workers| && s.workers[w].phase.Waiting?
    ensures Enabled(c, s, Acquire(w)) <==> Weigh(s.workers, PermitWeight) < c.concurrency
  {
    ReachableInv(c, s);
  }

  // ---- Seeds ----

  lemma {:induction false} SeedsArePushedFirst(c: Crawl, states: seq<State>, actions: seq<Action>)
    requires Run(c, states, actions) && states[0] == Start(c)
    ensures SeedEntries(c.seeds) <= Pushed(states[|actions|])
  {
    if actions == [] {
      assert Pushed(states[0]) == SeedEntries(c.seeds);
    } else {
      var m := |actions| - 1;
      SeedsArePushedFirst(c, states[..m + 1], actions[..m]);
      PushedAfter(c, states[m], actions[m]);
    }
  }

  /** Leaving by the break, every seed has its worker, in the order of the seeds. */
  lemma EverySeedIsVisited(c: Crawl, s: State, k: nat)
    requires Reachable(c, s) && s.control in {Draining(true), Finished(true)} && k < |c.seeds|
    ensures k < |s.workers| && s.workers[k].task == Entry(c.seeds[k], 0, "")
  {
    var states, actions :| Run(c, states, actions) && states[0] == Start(c) && states[|actions|] == s;
    SeedsArePushedFirst(c, states, actions);
    QuiescenceIsSound(c, s);
    assert Pushed(s) == Tasks(s.workers);
    assert SeedEntries(c.seeds)[k] == Tasks(s.workers)[k];
  }

  // ---- Earlier crawls ----

  /** What an earlier crawl of the same crawler has seen is not visited again, unless it is a seed. */
  lemma {:induction false} SeenBeforeIsNotPushed(c: Crawl, states: seq<State>, actions: seq<Action>, k: nat)
    requires Run(c, states, actions) && states[0] == Start(c)
    requires |c.seeds| <= k < |Pushed(states[|actions|])|
    ensures c.hash(Pushed(states[|actions|])[k].url) !in c.seenBefore
  {
    if actions != [] {
      var m := |actions| - 1;
      var s := states[m];
      PushedAfter(c, s, actions[m]);
      RunKeepsInv(c, states[..m + 1], actions[..m]);
      if k < |Pushed(s)| {
        SeenBeforeIsNotPushed(c, states[..m + 1], actions[..m], k);
      } else {
        FoundIsNew(c, s, actions[m], Pushed(states[|actions|])[k]);
      }
    }
  }

  lemma FoundIsNew(c: Crawl, s: State, a: Action, e: Entry)
    requires Enabled(c, s, a) && e in Found(c, s, a)
    ensures c.hash(e.url) !in s.seen
  {
    var task := s.workers[a.w].task;
    NewEntriesCover(c, s.workers[a.w].phase.page.links, task.depth + 1, task.url, s.seen);
  }

  lemma NothingSeenIsRevisited(c: Crawl, s: State, w: nat)
    requires Reachable(c, s) && w < |s.workers| && s.workers[w].task.url !in c.seeds
    ensures c.hash(s.workers[w].task.url) !in c.seenBefore
  {
    var states, actions :| Run(c, states, actions) && states[0] == Start(c) && states[|actions|] == s;
    assert Pushed(s)[w] == s.workers[w].task;
    SeedsArePushedFirst(c, states, actions);
    if w >= |c.seeds| {
      SeenBeforeIsNotPushed(c, states, actions, w);
    }
  }

  // ---- Breadth first ----

  /** Entries are only ever added behind all that were added before: the crawl is breadth first. */
  lemma {:induction false} FrontierIsFifo(c: Crawl, states: seq<State>, actions: seq<Action>, i: nat)
    requires Run(c, states, actions) && i <= |actions|
    ensures Pushed(states[i]) <= Pushed(states[|actions|])
    decreases |actions|
  {
    if i < |actions| {
      var m := |actions| - 1;
      FrontierIsFifo(c, states[..m + 1], actions[..m], i);
      PushedAfter(c, states[m], actions[m]);
    }
  }

  ghost predicate StandsBefore(links: seq<string>, u: string, v: string) {
    exists p, q :: 0 <= p < q < |links| && links[p] == u && links[q] == v
  }

  lemma StandsBeforeLater(links: seq<string>, u: string, v: string)
    requires links != [] && StandsBefore(links[1..], u, v)
    ensures StandsBefore(links, u, v)
  {
    var p, q :| 0 <= p < q < |links[1..]| && links[1..][p] == u && links[1..][q] == v;
    assert links[p + 1] == u && links[q + 1] == v;
  }

  /** The new links of a page are added in their order on the page. */
  lemma {:induction false} NewEntriesInOrder(c: Crawl, links: seq<string>, depth: int, parent: string,
                                             seen: set<string>,
                                             i: nat, j: nat)
    requires i < j < |NewEntries(c, links, depth, parent, seen)|
    ensures var found := NewEntries(c, links, depth, parent, seen); StandsBefore(links, found[i].url, found[j].url)
  {
    var h := c.hash(links[0]);
    var found := NewEntries(c, links, depth, parent, seen);
    if h in seen {
      NewEntriesInOrder(c, links[1..], depth, parent, seen, i, j);
      StandsBeforeLater(links, found[i].url, found[j].url);
    } else {
      var rest := NewEntries(c, links[1..], depth, parent, seen + {h});
      assert found[1..] == rest && found[j] == rest[j - 1];
      if i > 0 {
        NewEntriesInOrder(c, links[1..], depth, parent, seen + {h}, i - 1, j - 1);
        StandsBeforeLater(links, found[i].url, found[j].url);
      } else {
        NewEntriesCover(c, links[1..], depth, parent, seen + {h});
        assert rest[j - 1] in rest && rest[j - 1].url in links[1..];
        var q :| 0 <= q < |links[1..]| && links[1..][q] == found[j].url;
        assert links[0] == found[0].url && links[q + 1] == found[j].url;
      }
    }
  }

  // ---- No fetched page is dropped ----

  ghost predicate IsKept(s: State, w: nat, page: Page) {
    w < |s.workers| && (s.workers[w].phase == Fetched(page) || page in s.produced)
  }

  lemma KeptStays(c: Crawl, s: State, a: Action, w: nat, page: Page)
    requires Enabled(c, s, a) && IsKept(s, w, page)
    ensures IsKept(Apply(c, s, a), w, page)
  {
    ProducedAfter(c, s, a);
    WorkersAfter(c, s, a);
  }

  lemma {:induction false} FetchedIsKept(c: Crawl, states: seq<State>, actions: seq<Action>, i: nat)
    requires Run(c, states, actions) && i < |actions| && actions[i].Fetch?
    ensures IsKept(states[|actions|], actions[i].w, actions[i].page)
    decreases |actions|
  {
    var m := |actions| - 1;
    assert Enabled(c, states[m], actions[m]);
    if i < m {
      FetchedIsKept(c, states[..m + 1], actions[..m], i);
      KeptStays(c, states[m], actions[m], actions[i].w, actions[i].page);
    }
  }

  /** When the crawl returns, every page that any worker ever fetched was yielded. */
  lemma EveryFetchedPageIsYielded(c: Crawl, states: seq<State>, actions: seq<Action>, i: nat)
    requires Run(c, states, actions) && states[0] == Start(c) && states[|actions|].control.Finished?
    requires i < |actions| && actions[i].Fetch?
    ensures actions[i].page in states[|actions|].yielded
  {
    var s := states[|actions|];
    assert Reachable(c, s);
    FetchedIsKept(c, states, actions, i);
    ReturnYieldsEverything(c, s);
  }
}
