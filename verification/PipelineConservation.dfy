/** The invariant along runs, and what has become of every crawl result when the pipeline has ended. */
module PipelineConservation {
  import opened Common
  import opened Counting
  import opened Pipeline
  import TopK

  lemma {:induction false} RunKeepsInv(p: Setup, states: seq<State>, actions: seq<Action>)
    requires Run(p, states, actions) && Inv(p, states[0])
    ensures Inv(p, states[|actions|])
  {
    if actions != [] {
      var m := |actions| - 1;
      RunKeepsInv(p, states[..m + 1], actions[..m]);
      StepKeepsInv(p, states[m], actions[m]);
    }
  }

  lemma ReachableInv(p: Setup, s: State)
    requires Reachable(p, s)
    ensures Inv(p, s)
  {
    var states, actions :| Run(p, states, actions) && states[0] == INITIAL && states[|actions|] == s;
    InitialInv(p);
    RunKeepsInv(p, states, actions);
  }

  lemma {:induction false} WeighOnes(tasks: seq<Status>)
    requires AllFinished(tasks)
    ensures Weigh(tasks, Judged) == |tasks|
  {
    if tasks != [] {
      WeighOnes(tasks[..|tasks| - 1]);
    }
  }

  lemma SameCount(a: seq<nat>, b: seq<nat>)
    requires Distinct(a) && Distinct(b)
    requires (forall k :: k in a ==> k in b) && (forall k :: k in b ==> k in a)
    ensures |a| == |b|
  {
    TopK.DistinctCount(a);
    TopK.DistinctCount(b);
    assert TopK.Members(a) == TopK.Members(b);
  }

  /** Accepted by both gates. */
  ghost predicate IsKept(s: State, k: nat) {
    k in s.kept
  }

  /**
   At the end every crawl result is accounted for once: extracted, dropped for
   quality, dropped as a duplicate, or without a page; and exactly the extracted
   ones are indexed, in the order in which they were queued, batch after batch.
   */
  lemma NothingIsLost(p: Setup, s: State)
    requires Reachable(p, s) && Final(s)
    ensures s.crawled == |p.results|
    ensures s.crawled == s.extracted + s.qualityDropped + s.deduped + s.rejected
    ensures s.indexed == s.extracted
    ensures Concat(s.flushed) == s.queued && Distinct(s.queued)
    ensures forall k :: IsKept(s, k) <==> k in s.queued
  {
    ReachableInv(p, s);
    WeighOnes(s.tasks);
    forall k | k in s.kept ensures k in s.queued {
      assert Accepted(s, k);
      assert Delivered(s, k);
    }
    forall k | k in s.queued ensures k in s.kept {
      assert Delivered(s, k);
      assert Accepted(s, k);
    }
    SameCount(s.kept, s.queued);
    assert Taken(s) == Concat(s.flushed);
  }

  /** How many of the first n crawl results pass a test. */
  function CountOf(n: nat, test: nat -> bool): nat {
    if n == 0 then 0 else CountOf(n - 1, test) + if test(n - 1) then 1 else 0
  }

  lemma {:induction false} WeighIsCount(tasks: seq<Status>, f: Status -> nat, test: nat -> bool)
    requires forall k :: 0 <= k < |tasks| ==> f(tasks[k]) == if test(k) then 1 else 0
    ensures Weigh(tasks, f) == CountOf(|tasks|, test)
  {
    if tasks != [] {
      WeighIsCount(tasks[..|tasks| - 1], f, test);
    }
  }

  /**
   However the tasks interleave, the final counters say what the gates decide
   about each crawl result on its own; only which of several duplicates is kept
   depends on the order.
   */
  lemma CountersAreDeterministic(p: Setup, s: State)
    requires Reachable(p, s) && Final(s)
    ensures s.rejected == CountOf(|p.results|, p.HasNoPage())
    ensures s.qualityDropped == CountOf(|p.results|, p.IsLowQuality())
    ensures forall k :: k in s.queued ==> k < |p.results| && Passes(p, k)
  {
    ReachableInv(p, s);
    WeighIsCount(s.tasks, WithoutPage, p.HasNoPage());
    WeighIsCount(s.tasks, Dropped, p.IsLowQuality());
    forall k | k in s.queued ensures k < |p.results| && Passes(p, k) {
      assert Delivered(s, k);
    }
  }

  /** All batches are full except possibly the last. */
  lemma BatchesAreFull(p: Setup, s: State, j: nat)
    requires Reachable(p, s) && j < |s.flushed|
    ensures 0 < |s.flushed[j]| <= p.BatchSize()
    ensures j < |s.flushed| - 1 ==> |s.flushed[j]| == p.BatchSize()
  {
    ReachableInv(p, s);
  }

  ghost predicate CatchesEqualTexts(p: Setup) {
    forall texts: seq<string>, text :: text in texts ==> p.isDuplicate(texts, text)
  }

  lemma TextsStep(p: Setup, s: State, a: Action)
    requires CatchesEqualTexts(p) && Enabled(p, s, a) && Distinct(p.Texts(s.kept))
    ensures Distinct(p.Texts(Apply(p, s, a).kept))
  {
    var t := Apply(p, s, a);
    if a.Judge? && t.kept != s.kept {
      assert p.Texts(t.kept) == p.Texts(s.kept) + [p.Text(a.k)];
    }
  }

  lemma {:induction false} RunKeepsTexts(p: Setup, states: seq<State>, actions: seq<Action>)
    requires CatchesEqualTexts(p) && Run(p, states, actions) && Distinct(p.Texts(states[0].kept))
    ensures Distinct(p.Texts(states[|actions|].kept))
  {
    if actions != [] {
      var m := |actions| - 1;
      RunKeepsTexts(p, states[..m + 1], actions[..m]);
      TextsStep(p, states[m], actions[m]);
    }
  }

  /**
   No two pages of one run with the same text are queued for indexing, if the duplicate
   test recognises equal texts.
  */
  lemma NoTextQueuedTwice(p: Setup, s: State, i: nat, j: nat)
    requires CatchesEqualTexts(p) && Reachable(p, s) && i < j < |s.queued|
    ensures p.Text(s.queued[i]) != p.Text(s.queued[j])
  {
    var states, actions :| Run(p, states, actions) && states[0] == INITIAL && states[|actions|] == s;
    RunKeepsTexts(p, states, actions);
    ReachableInv(p, s);
    var x, y := s.queued[i], s.queued[j];
    assert Delivered(s, x) && Delivered(s, y);
    assert Accepted(s, x) && Accepted(s, y);
    var m :| 0 <= m < |s.kept| && s.kept[m] == x;
    var n :| 0 <= n < |s.kept| && s.kept[n] == y;
    assert p.Texts(s.kept)[m] == p.Text(x) && p.Texts(s.kept)[n] == p.Text(y);
  }
}
