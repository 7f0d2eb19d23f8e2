/**
 Where the frontier loop spins for ever. It collects results only right after a
 spawn, so once nothing is left to spawn the workers' results stay in the queue,
 `active` stays positive, and the loop sleeps and looks again without end.
 */
module CrawlSpin {
  import opened Counting
  import opened CrawlScheduler

  /** The frontier is empty, all workers are done, and their markers lie uncollected. */
  ghost predicate Stuck(c: Crawl, s: State) {
    && s.control == Frontier && s.pages < c.maxPages && s.frontier == []
    && Unfinished(s) == 0 && s.active != 0
  }

  /** The states from which nothing can ever change, other than a finished crawl, are exactly the stuck ones. */
  lemma StuckIffNothingChanges(c: Crawl, s: State)
    requires Reachable(c, s) && c.concurrency > 0 && !s.control.Finished?
    ensures Stuck(c, s) <==> forall a :: Enabled(c, s, a) ==> Apply(c, s, a) == s
  {
    ReachableInv(c, s);
    if Stuck(c, s) {
      forall a | Enabled(c, s, a) ensures Apply(c, s, a) == s {
        StuckOnlyIdles(c, s, a);
      }
    } else {
      var a := SomethingChanges(c, s);
    }
  }

  lemma StuckOnlyIdles(c: Crawl, s: State, a: Action)
    requires Stuck(c, s) && Enabled(c, s, a)
    ensures a == Idle
  {
    AllDone(s);
  }

  lemma SomethingChanges(c: Crawl, s: State) returns (a: Action)
    requires Inv(c, s) && c.concurrency > 0 && !s.control.Finished? && !Stuck(c, s)
    ensures Enabled(c, s, a) && Apply(c, s, a) != s
  {
    match s.control {
      case Collecting => a := if s.queue == [] then CollectDone else Collect;
      case Draining(_) => a := DrainOrWork(c, s);
      case Frontier =>
        if s.pages >= c.maxPages {
          a := Cap;
        } else if s.frontier != [] {
          a := Spawn;
        } else if s.active == 0 {
          a := Break;
        } else {
          a := WorkerCanMove(c, s);
        }
    }
  }

  lemma ReachableStep(c: Crawl, s: State, a: Action)
    requires Reachable(c, s) && Enabled(c, s, a)
    ensures Reachable(c, Apply(c, s, a))
  {
    var states, actions :| Run(c, states, actions) && states[0] == Start(c) && states[|actions|] == s;
    var longer, more := states + [Apply(c, s, a)], actions + [a];
    forall i | 0 <= i < |more| ensures Enabled(c, longer[i], more[i]) && longer[i + 1] == Apply(c, longer[i], more[i]) {
      if i < |actions| {
        assert longer[i] == states[i] && longer[i + 1] == states[i + 1] && more[i] == actions[i];
      } else {
        assert longer[i] == s && longer[i + 1] == Apply(c, s, a) && more[i] == a;
      }
    }
    assert Run(c, longer, more) && longer[0] == Start(c) && longer[|more|] == Apply(c, s, a);
  }

  lemma Then(c: Crawl, s: State, a: Action) returns (t: State)
    requires Reachable(c, s) && Enabled(c, s, a)
    ensures t == Apply(c, s, a) && Reachable(c, t)
  {
    t := Apply(c, s, a);
    ReachableStep(c, s, a);
  }

  // ---- A run into a stuck state ----

  /** The seeds spawned so far, none of whose workers has started yet. */
  function SeedWorkers(c: Crawl, n: nat): seq<Worker>
    requires n <= |c.seeds|
  {
    seq(n, i requires 0 <= i < n => Worker(Entry(c.seeds[i], 0, ""), Waiting))
  }

  lemma {:induction false} SpawnSeeds(c: Crawl, n: nat) returns (s: State)
    requires n <= |c.seeds| && c.maxPages > 0
    ensures Reachable(c, s) && s.control == Frontier && s.workers == SeedWorkers(c, n)
    ensures s.frontier == SeedEntries(c.seeds)[n..] && s.permits == c.concurrency
    ensures s.queue == [] && s.active == n && s.pages == 0 && s.yielded == s.produced == []
  {
    if n == 0 {
      s := Start(c);
      assert Run(c, [s], []) && [s][0] == s;
    } else {
      s := SpawnSeeds(c, n - 1);
      s := SpawnSeed(c, s, n - 1);
    }
  }

  lemma SpawnSeed(c: Crawl, s: State, n: nat) returns (t: State)
    requires n < |c.seeds| && Reachable(c, s) && s.control == Frontier && s.pages < c.maxPages && s.queue == []
    requires s.workers == SeedWorkers(c, n) && s.frontier == SeedEntries(c.seeds)[n..]
    ensures Reachable(c, t) && t.workers == SeedWorkers(c, n + 1) && t.frontier == SeedEntries(c.seeds)[n + 1..]
    ensures t == s.(workers := t.workers, frontier := t.frontier, active := s.active + 1)
  {
    t := Then(c, s, Spawn);
    t := Then(c, t, CollectDone);
    NextSeed(c, n);
  }

  lemma NextSeed(c: Crawl, n: nat)
    requires n < |c.seeds|
    ensures var rest := SeedEntries(c.seeds)[n..];
      rest != [] && rest[1..] == SeedEntries(c.seeds)[n + 1..]
      && SeedWorkers(c, n) + [Worker(rest[0], Waiting)] == SeedWorkers(c, n + 1)
  {
  }

  /** The loop sleeps while workers are at work: nothing to spawn, all permits free. */
  ghost predicate Sleeping(c: Crawl, s: State) {
    s.control == Frontier && s.frontier == [] && s.permits == c.concurrency > 0
  }

  /** A worker gives up on its URL and leaves only its marker. */
  lemma WorkerGivesUp(c: Crawl, s: State, w: nat) returns (t: State)
    requires Reachable(c, s) && Sleeping(c, s) && w < |s.workers| && s.workers[w].phase.Waiting?
    ensures Reachable(c, t) && Sleeping(c, t)
    ensures t == Move(s, w, Done).(queue := s.queue + [Marker])
  {
    t := Then(c, s, Acquire(w));
    t := Then(c, t, FetchNothing(w));
    t := Then(c, t, Signal(w));
    assert t.workers == Move(s, w, Done).workers;
  }

  /** A worker fetches a page without links and leaves it with its marker. */
  lemma WorkerFetches(c: Crawl, s: State, w: nat, page: Page) returns (t: State)
    requires Reachable(c, s) && Sleeping(c, s) && w < |s.workers|
    requires s.workers[w] == Worker(Entry(page.url, page.depth, page.parent), Waiting) && page.links == []
    ensures Reachable(c, t) && Sleeping(c, t)
    ensures t == Move(s, w, Done).(queue := s.queue + [Result(page), Marker], produced := s.produced + [page])
  {
    t := Then(c, s, Acquire(w));
    t := Then(c, t, Fetch(w, page));
    t := PageIsPut(c, s, t, w, page);
    t := Then(c, t, Signal(w));
    assert t.workers == Move(s, w, Done).workers;
    assert t.queue == s.queue + [Result(page), Marker];
  }

  lemma PageIsPut(c: Crawl, s: State, fetched: State, w: nat, page: Page) returns (t: State)
    requires Reachable(c, fetched) && w < |s.workers| && page.links == []
    requires fetched == Move(s, w, Fetched(page)).(permits := s.permits - 1)
    ensures Reachable(c, t)
    ensures t == Move(s, w, Signalling).(queue := s.queue + [Result(page)], produced := s.produced + [page])
  {
    t := Then(c, fetched, Put(w));
    if s.workers[w].task.depth < c.maxDepth {
      t := Then(c, t, Discover(w));
      assert Hashes(c, []) == {} && t.frontier == s.frontier && t.seen == s.seen;
    }
    assert t.workers == Move(s, w, Signalling).workers;
  }

  /** Workers up to n are done; the others give up one after the other. */
  lemma {:induction false} OthersGiveUp(c: Crawl, s: State, n: nat) returns (t: State)
    requires Reachable(c, s) && Sleeping(c, s) && n <= |s.workers|
    requires forall w :: 0 <= w < |s.workers| ==> s.workers[w].phase == if w < n then Done else Waiting
    ensures Reachable(c, t) && Sleeping(c, t) && |t.workers| == |s.workers|
    ensures forall w :: 0 <= w < |t.workers| ==> t.workers[w].phase.Done?
    ensures t.active == s.active && t.pages == s.pages && t.yielded == s.yielded && t.produced == s.produced
    decreases |s.workers| - n
  {
    if n == |s.workers| {
      t := s;
    } else {
      t := WorkerGivesUp(c, s, n);
      t := OthersGiveUp(c, t, n + 1);
    }
  }

  /**
   From any seeds, if there is room for a page and a permit: the first seed's page
   is fetched but never yielded, the other fetches fail, and the loop spins.
   */
  lemma SeedPageIsLost(c: Crawl, page: Page) returns (s: State)
    requires c.seeds != [] && page == Page(c.seeds[0], 0, "", [])
    requires c.concurrency > 0 && c.maxPages > 0
    ensures Reachable(c, s) && Stuck(c, s) && s.produced == [page] && s.yielded == []
  {
    s := SpawnSeeds(c, |c.seeds|);
    s := WorkerFetches(c, s, 0, page);
    s := OthersGiveUp(c, s, 1);
    WeighZero(s.workers, UnfinishedWeight);
  }

  // ---- The exact condition ----

  /** Without seeds nothing ever happens. */
  ghost predicate Quiet(s: State) {
    s.frontier == [] && s.workers == [] && s.queue == [] && s.active == 0
  }

  lemma {:induction false} NoSeedsNothingHappens(c: Crawl, states: seq<State>, actions: seq<Action>)
    requires Run(c, states, actions) && states[0] == Start(c) && c.seeds == []
    ensures Quiet(states[|actions|])
  {
    if actions != [] {
      var m := |actions| - 1;
      NoSeedsNothingHappens(c, states[..m + 1], actions[..m]);
      assert Quiet(states[m]);
    }
  }

  ghost predicate CanSpin(c: Crawl) {
    exists s :: Reachable(c, s) && Stuck(c, s)
  }

  ghost predicate CanSpinAndLose(c: Crawl) {
    exists s :: Reachable(c, s) && Stuck(c, s) && s.yielded != s.produced
  }

  lemma StuckNeedsSeeds(c: Crawl, s: State)
    requires Reachable(c, s) && Stuck(c, s)
    ensures c.seeds != [] && c.maxPages > 0
  {
    ReachableInv(c, s);
    if c.seeds == [] {
      var states, actions :| Run(c, states, actions) && states[0] == Start(c) && states[|actions|] == s;
      NoSeedsNothingHappens(c, states, actions);
    }
  }

  /**
   A crawl can spin for ever exactly if it is given a seed and may yield a page,
   and then it can do so with a fetched page that is never yielded.
   */
  lemma CanSpinIff(c: Crawl)
    requires c.concurrency > 0
    ensures CanSpin(c) <==> c.seeds != [] && c.maxPages > 0
    ensures CanSpinAndLose(c) <==> c.seeds != [] && c.maxPages > 0
  {
    if c.seeds != [] && c.maxPages > 0 {
      var s := SeedPageIsLost(c, Page(c.seeds[0], 0, "", []));
      assert s.yielded != s.produced;
    }
    if CanSpin(c) {
      var s :| Reachable(c, s) && Stuck(c, s);
      StuckNeedsSeeds(c, s);
    }
  }
}
