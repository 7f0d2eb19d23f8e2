/** With a worker to extract pages the pipeline never deadlocks, and all its runs are short. */
module PipelineProgress {
  import opened Counting
  import opened Pipeline
  import opened PipelineConservation

  // ---- Deadlock freedom ----

  /** Some task that has not finished can move, if the queue has room. */
  lemma TaskProgress(p: Setup, s: State) returns (a: Action)
    requires TaskInv(p, s) && p.extractWorkers >= 1 && |s.extractQ| < QUEUE_SIZE && !AllFinished(s.tasks)
    ensures Enabled(p, s, a)
  {
    if Weigh(s.tasks, Busy) > 0 {
      var k := WeighPositive(s.tasks, Busy);
      a := if s.tasks[k].Extracting? then Judge(k) else PutPage(k);
    } else {
      var k: nat :| k < |s.tasks| && !s.tasks[k].Finished?;
      if s.tasks[k].Extracting? || s.tasks[k].Putting? {
        WeighUpdate(s.tasks, k, s.tasks[k], Busy);
      }
      a := Start(k);
    }
  }

  lemma CrawlProgress(p: Setup, s: State) returns (a: Action)
    requires CrawlInv(p, s) && s.dispatcher.Dispatching?
    ensures Enabled(p, s, a)
  {
    if s.crawlQ != [] {
      a := Dispatch;
    } else if s.put < s.crawled {
      a := PutResult;
    } else if s.crawled < |p.results| {
      a := Yield;
    } else {
      a := PutSentinel;
    }
  }

  lemma SomeActionIsEnabled(p: Setup, s: State) returns (a: Action)
    requires Inv(p, s) && !Final(s) && !Starved(p, s)
    ensures Enabled(p, s, a)
  {
    if s.indexer.Flushing? || s.indexer.LastFlush? {
      a := Flush;
    } else if s.extractQ != [] {
      a := Take;
    } else if s.dispatcher.Dispatching? {
      a := CrawlProgress(p, s);
    } else if !AllFinished(s.tasks) {
      a := TaskProgress(p, s);
    } else {
      a := Close;
    }
  }

  /** Without a single permit all tasks wait for ever. */
  ghost predicate Starved(p: Setup, s: State) {
    p.extractWorkers == 0 && s.tasks != [] && s.dispatcher.Gathering? && s.extractQ == []
  }

  lemma StarvedIsStuck(p: Setup, s: State, a: Action)
    requires Inv(p, s) && Starved(p, s)
    ensures !Enabled(p, s, a)
  {
    assert s.tasks[0].Waiting?;
    assert forall k :: k in s.queued ==> Delivered(s, k);
    SomeMember(s.queued);
  }

  lemma SomeMember(xs: seq<nat>)
    ensures xs == [] || exists x :: x in xs
  {
    if xs != [] {
      assert xs[0] in xs;
    }
  }

  /**
   However the stages interleave, the pipeline stops exactly when it has ended
   or when there is a page to extract and no worker is allowed at all.
   */
  lemma StopsIffFinal(p: Setup, s: State)
    requires Reachable(p, s)
    ensures (forall a :: !Enabled(p, s, a)) <==> Final(s) || Starved(p, s)
    ensures Starved(p, s) ==> p.extractWorkers == 0 && p.results != []
    ensures Final(s) ==> p.extractWorkers > 0 || p.results == []
  {
    ReachableInv(p, s);
    if Starved(p, s) {
      forall a ensures !Enabled(p, s, a) {
        StarvedIsStuck(p, s, a);
      }
    } else if Final(s) {
      WeighOnes(s.tasks);
    } else {
      var a := SomeActionIsEnabled(p, s);
    }
  }

  // ---- Termination ----

  function TaskSteps(t: Status): nat {
    match t
    case Waiting => 5
    case Extracting => 4
    case Putting => 3
    case Finished(_) => 0
  }

  /** What is left to do before and while tasks are started. */
  function CrawlSteps(p: Setup, s: State): int {
    8 * (|p.results| - s.crawled) + 7 * (s.crawled - s.put) + 6 * (s.put - |s.tasks|)
    + (if s.sentinel then 0 else 1)
    + (match s.dispatcher case Dispatching => 2 case Gathering => 1 case Closed => 0)
  }

  /** What is left to do with the queued pages. */
  function IndexSteps(s: State): int {
    2 * (|s.queued| - |Taken(s)|) + |s.batch|
    + (match s.indexer case Collecting => 2 case Flushing => 2 case LastFlush => 1 case Stopped => 0)
  }

  function Steps(p: Setup, s: State): int {
    CrawlSteps(p, s) + Weigh(s.tasks, TaskSteps) + IndexSteps(s)
  }

  lemma StepsAreLeft(p: Setup, s: State)
    requires Inv(p, s)
    ensures Steps(p, s) >= 0
  {
  }

  /** A move of task k, with what comes along, leaves fewer steps. */
  lemma MoveDecreases(p: Setup, s: State, t: State, k: nat, status: Status)
    requires k < |s.tasks| && t.tasks == s.tasks[k := status]
    requires TaskSteps(status) + 2 * (|t.queued| - |s.queued|) < TaskSteps(s.tasks[k])
    requires CrawlSteps(p, t) == CrawlSteps(p, s)
    requires t.flushed == s.flushed && t.batch == s.batch && t.indexer == s.indexer
    ensures Steps(p, t) < Steps(p, s)
  {
    WeighUpdate(s.tasks, k, status, TaskSteps);
  }

  lemma TaskStepsDecrease(p: Setup, s: State, a: Action)
    requires Enabled(p, s, a) && (a.Start? || a.Judge? || a.PutPage?)
    ensures Steps(p, Apply(p, s, a)) < Steps(p, s)
  {
    var t := Apply(p, s, a);
    MoveDecreases(p, s, t, a.k, t.tasks[a.k]);
  }

  lemma CrawlStepsDecrease(p: Setup, s: State, a: Action)
    requires Enabled(p, s, a) && (a.Yield? || a.PutResult? || a.PutSentinel? || a.Close?)
    ensures Steps(p, Apply(p, s, a)) < Steps(p, s)
  {
    var t := Apply(p, s, a);
    assert CrawlSteps(p, t) < CrawlSteps(p, s);
    assert t.tasks == s.tasks;
    assert IndexSteps(t) == IndexSteps(s);
  }

  lemma DispatchDecreases(p: Setup, s: State)
    requires Enabled(p, s, Dispatch)
    ensures Steps(p, Apply(p, s, Dispatch)) < Steps(p, s)
  {
    var t := Apply(p, s, Dispatch);
    assert IndexSteps(t) == IndexSteps(s);
    if s.crawlQ[0].Some? {
      WeighAppend(s.tasks, Waiting, TaskSteps);
    } else {
      assert t.tasks == s.tasks;
    }
  }

  lemma TakeDecreases(p: Setup, s: State)
    requires Enabled(p, s, Take)
    ensures Steps(p, Apply(p, s, Take)) < Steps(p, s)
  {
    var t := Apply(p, s, Take);
    assert CrawlSteps(p, t) == CrawlSteps(p, s) && t.tasks == s.tasks;
  }

  lemma FlushDecreases(p: Setup, s: State)
    requires BatchInv(p, s) && Enabled(p, s, Flush)
    ensures Steps(p, Apply(p, s, Flush)) < Steps(p, s)
  {
    var t := Apply(p, s, Flush);
    assert CrawlSteps(p, t) == CrawlSteps(p, s) && t.tasks == s.tasks;
    ConcatAppend(s.flushed, s.batch);
    assert Taken(t) == Taken(s);
  }

  lemma EachStepDecreases(p: Setup, s: State, a: Action)
    requires BatchInv(p, s) && Enabled(p, s, a)
    ensures Steps(p, Apply(p, s, a)) < Steps(p, s)
  {
    match a
    case Dispatch => DispatchDecreases(p, s);
    case Take => TakeDecreases(p, s);
    case Flush => FlushDecreases(p, s);
    case Start(_) => TaskStepsDecrease(p, s, a);
    case Judge(_) => TaskStepsDecrease(p, s, a);
    case PutPage(_) => TaskStepsDecrease(p, s, a);
    case _ => CrawlStepsDecrease(p, s, a);
  }

  /** Every step brings the end closer: a run over n results has at most 8n + 5 steps. */
  lemma StepsDecrease(p: Setup, s: State, a: Action)
    requires Inv(p, s) && Enabled(p, s, a)
    ensures 0 <= Steps(p, Apply(p, s, a)) < Steps(p, s)
  {
    StepKeepsInv(p, s, a);
    StepsAreLeft(p, Apply(p, s, a));
    EachStepDecreases(p, s, a);
  }

  /** So no run is longer than that, and every run that cannot be continued has ended properly. */
  lemma {:induction false} RunsAreShort(p: Setup, states: seq<State>, actions: seq<Action>)
    requires Run(p, states, actions) && states[0] == INITIAL
    ensures |actions| + Steps(p, states[|actions|]) <= 8 * |p.results| + 5
    ensures |actions| <= 8 * |p.results| + 5
  {
    InitialInv(p);
    RunKeepsInv(p, states, actions);
    StepsAreLeft(p, states[|actions|]);
    if actions != [] {
      var m := |actions| - 1;
      RunsAreShort(p, states[..m + 1], actions[..m]);
      RunKeepsInv(p, states[..m + 1], actions[..m]);
      StepsDecrease(p, states[m], actions[m]);
    }
  }
}
