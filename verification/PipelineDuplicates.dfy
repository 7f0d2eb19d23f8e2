/** The duplicate gate: each page it drops was a duplicate when it was judged, and each page it lets pass was not. */
module PipelineDuplicates {
  import opened Common
  import opened Counting
  import opened Pipeline
  import opened PipelineConservation
  import TopK

  /** Some beginning of the accepted pages, in their order, made this page a duplicate. */
  ghost predicate WasDuplicate(p: Setup, kept: seq<nat>, k: nat) {
    exists n :: 0 <= n <= |kept| && p.isDuplicate(p.Texts(kept[..n]), p.Text(k))
  }

  ghost predicate DuplicatesHaveReason(p: Setup, tasks: seq<Status>, kept: seq<nat>) {
    forall k :: 0 <= k < |tasks| && tasks[k] == Finished(Duplicate) ==> WasDuplicate(p, kept, k)
  }

  /** Each accepted page was no duplicate of those accepted before it. */
  ghost predicate KeptWereNew(p: Setup, kept: seq<nat>) {
    forall i :: 0 <= i < |kept| ==> !p.isDuplicate(p.Texts(kept[..i]), p.Text(kept[i]))
  }

  ghost predicate GateInv(p: Setup, s: State) {
    DuplicatesHaveReason(p, s.tasks, s.kept) && KeptWereNew(p, s.kept)
  }

  lemma ReasonStays(p: Setup, kept: seq<nat>, more: seq<nat>, k: nat)
    requires WasDuplicate(p, kept, k)
    ensures WasDuplicate(p, kept + more, k)
  {
    var n :| 0 <= n <= |kept| && p.isDuplicate(p.Texts(kept[..n]), p.Text(k));
    assert (kept + more)[..n] == kept[..n];
  }

  lemma KeptGrows(p: Setup, kept: seq<nat>, k: nat)
    requires KeptWereNew(p, kept) && !p.isDuplicate(p.Texts(kept), p.Text(k))
    ensures KeptWereNew(p, kept + [k])
  {
    var all := kept + [k];
    forall i | 0 <= i < |all| ensures !p.isDuplicate(p.Texts(all[..i]), p.Text(all[i])) {
      assert all[..i] == kept[..i];
      assert kept[..|kept|] == kept;
    }
  }

  /** What one verdict does. */
  lemma JudgeKeepsGate(p: Setup, s: State, k: nat)
    requires GateInv(p, s) && Enabled(p, s, Judge(k))
    ensures GateInv(p, Apply(p, s, Judge(k)))
  {
    var t := Apply(p, s, Judge(k));
    if t.kept != s.kept {
      KeptGrows(p, s.kept, k);
    }
    forall j | 0 <= j < |t.tasks| && t.tasks[j] == Finished(Duplicate) ensures WasDuplicate(p, t.kept, j) {
      if j == k {
        assert s.kept[..|s.kept|] == s.kept && p.isDuplicate(p.Texts(s.kept), p.Text(k));
      } else {
        assert s.tasks[j] == Finished(Duplicate);
        ReasonStays(p, s.kept, t.kept[|s.kept|..], j);
        assert t.kept == s.kept + t.kept[|s.kept|..];
      }
    }
  }

  lemma OtherStepsKeepGate(p: Setup, s: State, a: Action)
    requires GateInv(p, s) && Enabled(p, s, a) && !a.Judge?
    ensures GateInv(p, Apply(p, s, a))
  {
    var t := Apply(p, s, a);
    assert t.kept == s.kept;
    forall j | 0 <= j < |t.tasks| && t.tasks[j] == Finished(Duplicate) ensures WasDuplicate(p, t.kept, j) {
      assert j < |s.tasks| && s.tasks[j] == Finished(Duplicate);
    }
  }

  lemma {:induction false} RunKeepsGate(p: Setup, states: seq<State>, actions: seq<Action>)
    requires Run(p, states, actions) && states[0] == INITIAL
    ensures GateInv(p, states[|actions|])
  {
    if actions != [] {
      var m := |actions| - 1;
      RunKeepsGate(p, states[..m + 1], actions[..m]);
      if actions[m].Judge? {
        JudgeKeepsGate(p, states[m], actions[m].k);
      } else {
        OtherStepsKeepGate(p, states[m], actions[m]);
      }
    }
  }

  /**
   In every reachable state a page was dropped as a duplicate only if the test
   found it one of those accepted so far, and accepted only if it did not.
   */
  lemma GateIsJust(p: Setup, s: State)
    requires Reachable(p, s)
    ensures DuplicatesHaveReason(p, s.tasks, s.kept) && KeptWereNew(p, s.kept)
  {
    var states, actions :| Run(p, states, actions) && states[0] == INITIAL && states[|actions|] == s;
    RunKeepsGate(p, states, actions);
  }

  // ---- With a test that recognises exactly the equal texts ----

  ghost predicate RecognisesEqualTexts(p: Setup) {
    forall texts: seq<string>, text :: p.isDuplicate(texts, text) <==> text in texts
  }

  /** The texts of the pages that pass the quality gate. */
  ghost function PassingTexts(p: Setup): set<string> {
    set k | 0 <= k < |p.results| && Passes(p, k) :: p.Text(k)
  }

  lemma KeptTextsPass(p: Setup, s: State)
    requires Inv(p, s)
    ensures TopK.Members(p.Texts(s.kept)) <= PassingTexts(p)
  {
    forall text | text in TopK.Members(p.Texts(s.kept)) ensures text in PassingTexts(p) {
      var i :| 0 <= i < |s.kept| && p.Texts(s.kept)[i] == text;
      assert s.kept[i] in s.kept && Accepted(s, s.kept[i]);
    }
  }

  lemma PassingTextsAreKept(p: Setup, s: State)
    requires Inv(p, s) && Final(s) && GateInv(p, s) && RecognisesEqualTexts(p)
    ensures PassingTexts(p) <= TopK.Members(p.Texts(s.kept))
  {
    forall text | text in PassingTexts(p) ensures text in p.Texts(s.kept) {
      var k: nat :| k < |p.results| && Passes(p, k) && p.Text(k) == text;
      JudgedTextIsKept(p, s, k);
    }
  }

  lemma JudgedTextIsKept(p: Setup, s: State, k: nat)
    requires Inv(p, s) && Final(s) && GateInv(p, s) && RecognisesEqualTexts(p) && k < |p.results| && Passes(p, k)
    ensures p.Text(k) in p.Texts(s.kept)
  {
    assert k < |s.tasks| && s.tasks[k].Finished?;
    if s.tasks[k].outcome.Kept? {
      assert Accepted(s, k);
      var i :| 0 <= i < |s.kept| && s.kept[i] == k;
      assert p.Texts(s.kept)[i] == p.Text(k);
    } else {
      assert s.tasks[k] == Finished(Duplicate);
      var n :| 0 <= n <= |s.kept| && p.isDuplicate(p.Texts(s.kept[..n]), p.Text(k));
      var i :| 0 <= i < n && p.Texts(s.kept[..n])[i] == p.Text(k);
      assert p.Texts(s.kept)[i] == p.Text(k);
    }
  }

  lemma KeptTextsAreDistinct(p: Setup, s: State)
    requires Reachable(p, s) && RecognisesEqualTexts(p)
    ensures |TopK.Members(p.Texts(s.kept))| == |s.kept|
  {
    var states, actions :| Run(p, states, actions) && states[0] == INITIAL && states[|actions|] == s;
    RunKeepsTexts(p, states, actions);
    TopK.DistinctCount(p.Texts(s.kept));
  }

  lemma SameTexts(p: Setup, s: State)
    requires Inv(p, s) && Final(s) && GateInv(p, s) && RecognisesEqualTexts(p)
    ensures TopK.Members(p.Texts(s.kept)) == PassingTexts(p)
  {
    KeptTextsPass(p, s);
    PassingTextsAreKept(p, s);
  }

  lemma ExtractedAreKept(p: Setup, s: State)
    requires Inv(p, s)
    ensures s.extracted == |s.kept|
  {
  }

  /**
   Then in every interleaving as many pages are extracted and indexed as there
   are different texts that pass the quality gate: no text is lost, none doubled.
   */
  lemma OnePagePerText(p: Setup, s: State)
    requires Reachable(p, s) && Final(s) && RecognisesEqualTexts(p)
    ensures s.indexed == s.extracted == |PassingTexts(p)|
    ensures TopK.Members(p.Texts(s.kept)) == PassingTexts(p)
  {
    KeptTextsAreDistinct(p, s);
    ReachableInv(p, s);
    GateIsJust(p, s);
    SameTexts(p, s);
    NothingIsLost(p, s);
    ExtractedAreKept(p, s);
  }

  // ---- Who waits for whom ----

  /**
   A stage is held up by a queue only while that queue is full, and a task by the
   permits only while all are in use.
  */
  lemma WaitsIff(p: Setup, s: State, k: nat)
    ensures s.put < s.crawled ==> (Enabled(p, s, PutResult) <==> |s.crawlQ| < 256)
    ensures k < |s.tasks| && s.tasks[k].Putting? ==> (Enabled(p, s, PutPage(k)) <==> |s.extractQ| < 256)
    ensures k < |s.tasks| && s.tasks[k].Waiting? ==>
              (Enabled(p, s, Start(k)) <==> Weigh(s.tasks, Busy) < p.extractWorkers)
  {
  }
}
