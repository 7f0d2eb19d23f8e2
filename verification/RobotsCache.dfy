/**
 The robots.txt cache under concurrency: a fast-path lookup, a global lock that
 guards the table of per-domain locks, and a second lookup under the domain's
 lock before a fetch. Tasks interleave at every step.
 */
module RobotsCache {
  import opened Common
  import opened Counting

  const TTL: real := 86400.0

  datatype Phase =
    | Starting
    | WantGlobal
    | InGlobal
    | WantLock(lock: nat)
    | Holding(lock: nat)
    | Fetching(lock: nat)
    | Done

  datatype Task = Task(domain: string, phase: Phase)

  /** A fetch of one domain's robots.txt: when it began and, once stored, its fetched_at. */
  datatype FetchRecord = FetchRecord(started: real, fetchedAt: Option<real>)

  datatype State = State(
    now: real,
    cache: map<string, real>,             // domain to fetched_at
    locks: map<string, nat>,              // domain to lock
    created: nat,                         // locks made so far
    global: Option<nat>,                  // who is inside the global lock
    held: map<nat, nat>,                  // lock to its holder
    tasks: seq<Task>,
    log: map<string, seq<FetchRecord>>)   // every fetch ever begun

  datatype Action =
    | Arrive(domain: string)
    | Tick(now: real)
    | Lookup(t: nat)
    | EnterGlobal(t: nat)
    | LeaveGlobal(t: nat)
    | EnterLock(t: nat)
    | Recheck(t: nat)
    | Store(t: nat)

  const START: State := State(0.0, map[], map[], 0, None, map[], [], map[])

  predicate IsExpired(fetchedAt: real, now: real) {
    now - fetchedAt > TTL
  }

  predicate HasFresh(s: State, domain: string) {
    domain in s.cache && !IsExpired(s.cache[domain], s.now)
  }

  function LogOf(s: State, domain: string): seq<FetchRecord> {
    if domain in s.log then s.log[domain] else []
  }

  predicate Enabled(s: State, a: Action) {
    match a
    case Arrive(_) => true
    case Tick(now) => now >= s.now
    case Lookup(t) => t < |s.tasks| && s.tasks[t].phase.Starting?
    case EnterGlobal(t) => t < |s.tasks| && s.tasks[t].phase.WantGlobal? && s.global.None?
    case LeaveGlobal(t) => t < |s.tasks| && s.tasks[t].phase.InGlobal?
    case EnterLock(t) => t < |s.tasks| && s.tasks[t].phase.WantLock? && s.tasks[t].phase.lock !in s.held
    case Recheck(t) => t < |s.tasks| && s.tasks[t].phase.Holding?
    case Store(t) => t < |s.tasks| && s.tasks[t].phase.Fetching? && LogOf(s, s.tasks[t].domain) != []
  }

  function Move(s: State, t: nat, phase: Phase): State
    requires t < |s.tasks|
  {
    s.(tasks := s.tasks[t := s.tasks[t].(phase := phase)])
  }

  /** An action that is not enabled changes nothing. */
  function Apply(s: State, a: Action): State {
    if !Enabled(s, a) then s
    else match a
    case Arrive(domain) => s.(tasks := s.tasks + [Task(domain, Starting)])
    case Tick(now) => s.(now := now)
    case Lookup(t) => Move(s, t, if HasFresh(s, s.tasks[t].domain) then Done else WantGlobal)
    case EnterGlobal(t) => Move(s, t, InGlobal).(global := Some(t))
    case LeaveGlobal(t) =>
      var domain := s.tasks[t].domain;
      if domain in s.locks then Move(s, t, WantLock(s.locks[domain])).(global := None)
      else Move(s, t, WantLock(s.created)).(global := None,
          locks := s.locks[domain := s.created], created := s.created + 1)
    case EnterLock(t) =>
      var lock := s.tasks[t].phase.lock;
      Move(s, t, Holding(lock)).(held := s.held[lock := t])
    case Recheck(t) =>
      var lock, domain := s.tasks[t].phase.lock, s.tasks[t].domain;
      if HasFresh(s, domain) then Move(s, t, Done).(held := s.held - {lock})
      else Move(s, t, Fetching(lock)).(log := s.log[domain := LogOf(s, domain) + [FetchRecord(s.now, None)]])
    case Store(t) =>
      var lock, domain := s.tasks[t].phase.lock, s.tasks[t].domain;
      var records := LogOf(s, domain);
      var last := |records| - 1;
      Move(s, t, Done).(held := s.held - {lock}, cache := s.cache[domain := s.now],
                        log := s.log[domain := records[last := records[last].(fetchedAt := Some(s.now))]])
  }

  ghost predicate Run(states: seq<State>, actions: seq<Action>) {
    && |states| == |actions| + 1
    && forall i :: 0 <= i < |actions| ==>
        Enabled(states[i], actions[i]) && states[i + 1] == Apply(states[i], actions[i])
  }

  ghost predicate Reachable(s: State) {
    exists states, actions :: Run(states, actions) && states[0] == START && states[|actions|] == s
  }

  predicate Owns(p: Phase) {
    p.Holding? || p.Fetching?
  }

  predicate Knows(p: Phase) {
    p.WantLock? || Owns(p)
  }

  ghost predicate LocksDiffer(s: State) {
    && (forall d :: d in s.locks ==> s.locks[d] < s.created)
    && (forall d, e :: d in s.locks && e in s.locks && s.locks[d] == s.locks[e] ==> d == e)
  }

  ghost predicate LocksKnown(s: State) {
    forall t :: 0 <= t < |s.tasks| && Knows(s.tasks[t].phase) ==>
      s.tasks[t].domain in s.locks && s.locks[s.tasks[t].domain] == s.tasks[t].phase.lock
  }

  ghost predicate LocksHeld(s: State) {
    && (forall t :: 0 <= t < |s.tasks| && Owns(s.tasks[t].phase) ==>
          s.tasks[t].phase.lock in s.held && s.held[s.tasks[t].phase.lock] == t)
    && (forall l :: l in s.held ==>
          s.held[l] < |s.tasks| && Owns(s.tasks[s.held[l]].phase) && s.tasks[s.held[l]].phase.lock == l)
  }

  ghost predicate GlobalHeld(s: State) {
    && (forall t :: 0 <= t < |s.tasks| ==> (s.tasks[t].phase.InGlobal? <==> s.global == Some(t)))
    && (s.global.Some? ==> s.global.value < |s.tasks|)
  }

  /** Each domain has its own lock; whoever is past the global lock uses that one, and holders are recorded. */
  ghost predicate LocksAgree(s: State) {
    LocksDiffer(s) && LocksKnown(s) && LocksHeld(s) && GlobalHeld(s)
  }

  /** Fetches of a domain follow one another, each only after the stored result of the one before has expired. */
  ghost predicate Spaced(records: seq<FetchRecord>) {
    forall i :: 0 <= i < |records| - 1 ==>
      records[i].fetchedAt.Some? && records[i + 1].started > records[i].fetchedAt.value + TTL
  }

  ghost predicate IsFetching(s: State, d: string) {
    exists t :: 0 <= t < |s.tasks| && s.tasks[t].phase.Fetching? && s.tasks[t].domain == d
  }

  function StoredAt(s: State, d: string): Option<real> {
    if d in s.cache then Some(s.cache[d]) else None
  }

  /** The stored entry is the latest finished fetch; the latest record is open exactly while a task fetches. */
  ghost predicate RecordsAgree(records: seq<FetchRecord>, fetching: bool, stored: Option<real>, now: real) {
    var finished :=
      if records != [] && records[|records| - 1].fetchedAt.None? then records[..|records| - 1] else records;
    && Spaced(records)
    && (fetching <==> finished != records)
    && (finished == [] <==> stored.None?)
    && (finished != [] ==> finished[|finished| - 1].fetchedAt == stored && stored.value <= now)
  }

  ghost predicate LogAgrees(s: State, d: string) {
    RecordsAgree(LogOf(s, d), IsFetching(s, d), StoredAt(s, d), s.now)
  }

  ghost predicate Inv(s: State) {
    LocksAgree(s) && forall d :: LogAgrees(s, d)
  }

  lemma MoveKeepsOthers(s: State, t: nat, phase: Phase)
    requires t < |s.tasks|
    ensures |Move(s, t, phase).tasks| == |s.tasks|
    ensures Move(s, t, phase).tasks[t] == Task(s.tasks[t].domain, phase)
    ensures forall u :: 0 <= u < |s.tasks| && u != t ==> Move(s, t, phase).tasks[u] == s.tasks[u]
  {
  }

  lemma NewLock(s: State, domain: string)
    requires LocksAgree(s) && domain !in s.locks
    ensures LocksAgree(s.(locks := s.locks[domain := s.created], created := s.created + 1))
  {
  }

  /** A step that neither takes nor frees a domain lock, and leaves the global lock with at most this task. */
  lemma QuietMove(s: State, t: nat, phase: Phase, u: State)
    requires LocksAgree(s) && t < |s.tasks| && u.tasks == Move(s, t, phase).tasks
    requires u.locks == s.locks && u.created == s.created && u.held == s.held
    requires Owns(s.tasks[t].phase) <==> Owns(phase)
    requires Knows(phase) ==> s.tasks[t].domain in s.locks && s.locks[s.tasks[t].domain] == phase.lock
    requires if phase.InGlobal? then s.global.None? && u.global == Some(t)
             else if s.tasks[t].phase.InGlobal? then u.global.None?
             else u.global == s.global
    ensures LocksAgree(u)
  {
    MoveKeepsOthers(s, t, phase);
  }

  lemma LeaveGlobalKeepsLocks(s: State, t: nat)
    requires LocksAgree(s) && Enabled(s, LeaveGlobal(t))
    ensures LocksAgree(Apply(s, LeaveGlobal(t)))
  {
    var domain, u := s.tasks[t].domain, Apply(s, LeaveGlobal(t));
    if domain in s.locks {
      QuietMove(s, t, WantLock(s.locks[domain]), u);
    } else {
      NewLock(s, domain);
      QuietMove(s.(locks := s.locks[domain := s.created], created := s.created + 1), t, WantLock(s.created), u);
    }
  }

  lemma EnterLockKeepsLocks(s: State, t: nat)
    requires LocksAgree(s) && Enabled(s, EnterLock(t))
    ensures LocksAgree(Apply(s, EnterLock(t)))
  {
    MoveKeepsOthers(s, t, Holding(s.tasks[t].phase.lock));
  }

  lemma ReleaseKeepsLocks(s: State, t: nat, u: State)
    requires LocksAgree(s) && t < |s.tasks| && Owns(s.tasks[t].phase)
    requires u.tasks == Move(s, t, Done).tasks && u.held == s.held - {s.tasks[t].phase.lock}
    requires u.locks == s.locks && u.created == s.created && u.global == s.global
    ensures LocksAgree(u)
  {
    MoveKeepsOthers(s, t, Done);
    ReleaseKeepsHolders(s, t, u);
  }

  lemma ReleaseKeepsHolders(s: State, t: nat, u: State)
    requires LocksHeld(s) && t < |s.tasks| && Owns(s.tasks[t].phase)
    requires u.tasks == Move(s, t, Done).tasks && u.held == s.held - {s.tasks[t].phase.lock}
    ensures LocksHeld(u)
  {
    MoveKeepsOthers(s, t, Done);
    forall l | l in u.held ensures u.held[l] != t {
    }
  }

  lemma ArrivalKeepsLocks(s: State, domain: string)
    requires LocksAgree(s)
    ensures LocksAgree(Apply(s, Arrive(domain)))
  {
    var u := Apply(s, Arrive(domain));
    assert forall t :: 0 <= t < |s.tasks| ==> u.tasks[t] == s.tasks[t];
  }

  lemma LocksStep(s: State, a: Action)
    requires LocksAgree(s) && Enabled(s, a)
    ensures LocksAgree(Apply(s, a))
  {
    match a {
      case LeaveGlobal(t) => LeaveGlobalKeepsLocks(s, t);
      case EnterLock(t) => EnterLockKeepsLocks(s, t);
      case Store(t) => ReleaseKeepsLocks(s, t, Apply(s, a));
      case Recheck(t) =>
        if HasFresh(s, s.tasks[t].domain) {
          ReleaseKeepsLocks(s, t, Apply(s, a));
        } else {
          QuietMove(s, t, Fetching(s.tasks[t].phase.lock), Apply(s, a));
        }
      case Lookup(t) => QuietMove(s, t, Apply(s, a).tasks[t].phase, Apply(s, a));
      case EnterGlobal(t) => QuietMove(s, t, InGlobal, Apply(s, a));
      case Arrive(domain) => ArrivalKeepsLocks(s, domain);
      case Tick(_) =>
    }
  }

  /** Two tasks never hold the lock of one domain together. */
  lemma MutualExclusion(s: State, t: nat, u: nat)
    requires LocksAgree(s) && t < |s.tasks| && u < |s.tasks|
    requires Owns(s.tasks[t].phase) && Owns(s.tasks[u].phase) && s.tasks[t].domain == s.tasks[u].domain
    ensures t == u
  {
  }

  lemma LogUntouched(s: State, u: State, d: string)
    requires LogAgrees(s, d) && LogOf(u, d) == LogOf(s, d) && StoredAt(u, d) == StoredAt(s, d)
    requires s.now <= u.now && (IsFetching(u, d) <==> IsFetching(s, d))
    ensures LogAgrees(u, d)
  {
  }

  /** Moving a task that was not fetching and is not fetching leaves the set of fetched domains alone. */
  lemma FetchingUnchanged(s: State, t: nat, phase: Phase, u: State, d: string)
    requires t < |s.tasks| && u.tasks == Move(s, t, phase).tasks
    requires (s.tasks[t].phase.Fetching? <==> phase.Fetching?) || s.tasks[t].domain != d
    ensures IsFetching(u, d) <==> IsFetching(s, d)
  {
    MoveKeepsOthers(s, t, phase);
    if IsFetching(s, d) {
      var v :| 0 <= v < |s.tasks| && s.tasks[v].phase.Fetching? && s.tasks[v].domain == d;
      assert u.tasks[v].phase.Fetching? && u.tasks[v].domain == d;
    }
    if IsFetching(u, d) {
      var v :| 0 <= v < |u.tasks| && u.tasks[v].phase.Fetching? && u.tasks[v].domain == d;
      assert s.tasks[v].phase.Fetching? && s.tasks[v].domain == d;
    }
  }

  lemma FetchBegins(records: seq<FetchRecord>, stored: Option<real>, now: real)
    requires RecordsAgree(records, false, stored, now) && (stored.Some? ==> now > stored.value + TTL)
    ensures RecordsAgree(records + [FetchRecord(now, None)], true, stored, now)
  {
    assert (records + [FetchRecord(now, None)])[..|records|] == records;
  }

  lemma FetchEnds(records: seq<FetchRecord>, stored: Option<real>, now: real)
    requires RecordsAgree(records, true, stored, now)
    ensures records != []
    ensures var last := |records| - 1;
            RecordsAgree(records[last := records[last].(fetchedAt := Some(now))], false, Some(now), now)
  {
  }

  lemma RecheckLog(s: State, t: nat, d: string)
    requires LocksAgree(s) && LogAgrees(s, d) && Enabled(s, Recheck(t)) && !HasFresh(s, d) && d == s.tasks[t].domain
    ensures LogAgrees(Apply(s, Recheck(t)), d)
  {
    var u := Apply(s, Recheck(t));
    HolderExcludesFetch(s, t);
    assert u.tasks[t].phase.Fetching? && u.tasks[t].domain == d;
    FetchBegins(LogOf(s, d), StoredAt(s, d), s.now);
  }

  lemma HolderExcludesFetch(s: State, t: nat)
    requires LocksAgree(s) && t < |s.tasks| && s.tasks[t].phase.Holding?
    ensures !IsFetching(s, s.tasks[t].domain)
  {
    if IsFetching(s, s.tasks[t].domain) {
      var v :| 0 <= v < |s.tasks| && s.tasks[v].phase.Fetching? && s.tasks[v].domain == s.tasks[t].domain;
      MutualExclusion(s, t, v);
    }
  }

  lemma StoreLog(s: State, t: nat, d: string)
    requires LocksAgree(s) && LogAgrees(s, d) && Enabled(s, Store(t)) && d == s.tasks[t].domain
    ensures LogAgrees(Apply(s, Store(t)), d)
  {
    var u := Apply(s, Store(t));
    assert IsFetching(s, d);
    MoveKeepsOthers(s, t, Done);
    if IsFetching(u, d) {
      var v :| 0 <= v < |u.tasks| && u.tasks[v].phase.Fetching? && u.tasks[v].domain == d;
      MutualExclusion(s, t, v);
    }
    FetchEnds(LogOf(s, d), StoredAt(s, d), s.now);
  }

  /** A step of one task that neither begins nor ends a fetch of the domain. */
  lemma OtherTaskLog(s: State, a: Action, d: string)
    requires LogAgrees(s, d) && Enabled(s, a) && !a.Arrive? && !a.Tick?
    requires a.Recheck? ==> HasFresh(s, s.tasks[a.t].domain) || s.tasks[a.t].domain != d
    requires a.Store? ==> s.tasks[a.t].domain != d
    ensures LogAgrees(Apply(s, a), d)
  {
    var u := Apply(s, a);
    FetchingUnchanged(s, a.t, u.tasks[a.t].phase, u, d);
    LogUntouched(s, u, d);
  }

  lemma LogStep(s: State, a: Action, d: string)
    requires LocksAgree(s) && LogAgrees(s, d) && Enabled(s, a)
    ensures LogAgrees(Apply(s, a), d)
  {
    if a.Arrive? {
      ArrivalFetchesNothing(s, a.domain, d);
      LogUntouched(s, Apply(s, a), d);
    } else if a.Tick? {
      assert IsFetching(Apply(s, a), d) <==> IsFetching(s, d);
      LogUntouched(s, Apply(s, a), d);
    } else if a.Recheck? && !HasFresh(s, d) && d == s.tasks[a.t].domain {
      RecheckLog(s, a.t, d);
    } else if a.Store? && d == s.tasks[a.t].domain {
      StoreLog(s, a.t, d);
    } else {
      OtherTaskLog(s, a, d);
    }
  }

  lemma ArrivalFetchesNothing(s: State, domain: string, d: string)
    ensures IsFetching(Apply(s, Arrive(domain)), d) <==> IsFetching(s, d)
  {
    var u := Apply(s, Arrive(domain));
    if IsFetching(s, d) {
      var v :| 0 <= v < |s.tasks| && s.tasks[v].phase.Fetching? && s.tasks[v].domain == d;
      assert u.tasks[v] == s.tasks[v];
    }
  }

  lemma InvStep(s: State, a: Action)
    requires Inv(s) && Enabled(s, a)
    ensures Inv(Apply(s, a))
  {
    LocksStep(s, a);
    forall d ensures LogAgrees(Apply(s, a), d) {
      LogStep(s, a, d);
    }
  }

  lemma {:induction false} RunKeepsInv(states: seq<State>, actions: seq<Action>)
    requires Run(states, actions) && Inv(states[0])
    ensures Inv(states[|actions|])
  {
    if actions != [] {
      var m := |actions| - 1;
      RunKeepsInv(states[..m + 1], actions[..m]);
      InvStep(states[m], actions[m]);
    }
  }

  lemma StartHolds()
    ensures Inv(START)
  {
  }

  lemma ReachableInv(s: State)
    requires Reachable(s)
    ensures Inv(s)
  {
    var states, actions :| Run(states, actions) && states[0] == START && states[|actions|] == s;
    StartHolds();
    RunKeepsInv(states, actions);
  }

  // ---- The promises ----

  /** At most one fetch per domain is in flight. */
  lemma OneFetchPerDomain(s: State, t: nat, u: nat)
    requires Reachable(s) && t < |s.tasks| && u < |s.tasks|
    requires s.tasks[t].phase.Fetching? && s.tasks[u].phase.Fetching? && s.tasks[t].domain == s.tasks[u].domain
    ensures t == u
  {
    ReachableInv(s);
    MutualExclusion(s, t, u);
  }

  /** A later fetch of a domain begins only more than the TTL after the fetched_at of each earlier one. */
  lemma {:induction false} NoRedundantFetch(s: State, d: string, i: nat, j: nat)
    requires Reachable(s) && i < j < |LogOf(s, d)|
    ensures LogOf(s, d)[i].fetchedAt.Some?
    ensures LogOf(s, d)[j].started > LogOf(s, d)[i].fetchedAt.value + TTL
    decreases j
  {
    ReachableInv(s);
    assert LogAgrees(s, d);
    var states, actions :| Run(states, actions) && states[0] == START && states[|actions|] == s;
    RunKeepsOrder(states, actions, d);
    SpacedFarApart(LogOf(s, d), i, j);
  }

  /** A finished fetch ends no earlier than it began. */
  ghost predicate EndsAfterStart(records: seq<FetchRecord>, now: real) {
    forall i :: 0 <= i < |records| ==>
      && records[i].started <= now
      && (records[i].fetchedAt.Some? ==> records[i].started <= records[i].fetchedAt.value <= now)
  }

  lemma {:induction false} RunKeepsOrder(states: seq<State>, actions: seq<Action>, d: string)
    requires Run(states, actions) && states[0] == START
    ensures EndsAfterStart(LogOf(states[|actions|], d), states[|actions|].now)
  {
    if actions != [] {
      var m := |actions| - 1;
      RunKeepsOrder(states[..m + 1], actions[..m], d);
      assert Enabled(states[m], actions[m]);
    }
  }

  lemma {:induction false} SpacedFarApart(records: seq<FetchRecord>, i: nat, j: nat)
    requires Spaced(records) && i < j < |records|
    requires forall k :: 0 <= k < |records| && records[k].fetchedAt.Some? ==>
                 records[k].started <= records[k].fetchedAt.value
    ensures records[i].fetchedAt.Some? && records[j].started > records[i].fetchedAt.value + TTL
    decreases j
  {
    if i < j - 1 {
      SpacedFarApart(records, i, j - 1);
    }
  }

  lemma LockStays(s: State, a: Action, d: string)
    requires Enabled(s, a) && d in s.locks
    ensures d in Apply(s, a).locks && Apply(s, a).locks[d] == s.locks[d]
  {
  }

  lemma {:induction false} LocksStay(states: seq<State>, actions: seq<Action>, i: nat, d: string)
    requires Run(states, actions) && i <= |actions| && d in states[i].locks
    ensures d in states[|actions|].locks && states[|actions|].locks[d] == states[i].locks[d]
    decreases |actions|
  {
    if i < |actions| {
      var m := |actions| - 1;
      LocksStay(states[..m + 1], actions[..m], i, d);
      LockStays(states[m], actions[m], d);
    }
  }

  /** Once a domain has a lock it keeps it, and every task of the domain past the global lock uses that lock. */
  lemma OneLockForEver(states: seq<State>, actions: seq<Action>, i: nat, d: string)
    requires Run(states, actions) && states[0] == START && i <= |actions| && d in states[i].locks
    ensures var s := states[|actions|];
            && d in s.locks && s.locks[d] == states[i].locks[d]
            && forall t :: 0 <= t < |s.tasks| && s.tasks[t].domain == d && Knows(s.tasks[t].phase) ==>
                 s.tasks[t].phase.lock == states[i].locks[d]
  {
    StartHolds();
    RunKeepsInv(states, actions);
    LocksStay(states, actions, i, d);
  }

  /** Some task can always move until all are done, so the two-level locking never deadlocks. */
  lemma NoDeadlock(s: State, t: nat) returns (a: Action)
    requires Reachable(s) && t < |s.tasks| && !s.tasks[t].phase.Done?
    ensures Enabled(s, a) && !a.Arrive? && !a.Tick?
  {
    ReachableInv(s);
    match s.tasks[t].phase {
      case Starting => a := Lookup(t);
      case WantGlobal => a := if s.global.None? then EnterGlobal(t) else LeaveGlobal(s.global.value);
      case InGlobal => a := LeaveGlobal(t);
      case WantLock(l) => a := if l !in s.held then EnterLock(t) else OwnerStep(s, s.held[l]);
      case Holding(_) => a := OwnerStep(s, t);
      case Fetching(_) => a := OwnerStep(s, t);
    }
    if Owns(s.tasks[t].phase) {
      OwnerCanMove(s, t);
    } else if s.tasks[t].phase.WantLock? && s.tasks[t].phase.lock in s.held {
      OwnerCanMove(s, s.held[s.tasks[t].phase.lock]);
    }
  }

  function OwnerStep(s: State, t: nat): Action
    requires t < |s.tasks|
  {
    if s.tasks[t].phase.Holding? then Recheck(t) else Store(t)
  }

  lemma OwnerCanMove(s: State, t: nat)
    requires Inv(s) && t < |s.tasks| && Owns(s.tasks[t].phase)
    ensures Enabled(s, OwnerStep(s, t))
  {
    assert LogAgrees(s, s.tasks[t].domain);
    if s.tasks[t].phase.Fetching? {
      assert IsFetching(s, s.tasks[t].domain);
    }
  }

  // ---- No task goes on for ever ----

  function StepsLeft(t: Task): nat {
    match t.phase
    case Starting => 6
    case WantGlobal => 5
    case InGlobal => 4
    case WantLock(_) => 3
    case Holding(_) => 2
    case Fetching(_) => 1
    case Done => 0
  }

  /** A step of a task leaves it fewer steps; the clock takes none. */
  lemma StepsShrink(s: State, a: Action) returns (task: Task)
    requires Enabled(s, a) && !a.Arrive? && !a.Tick?
    ensures a.t < |s.tasks| && Apply(s, a).tasks == s.tasks[a.t := task]
    ensures StepsLeft(task) < StepsLeft(s.tasks[a.t])
  {
    task := Apply(s, a).tasks[a.t];
  }

  /** How many steps of tasks a run has, arrivals and the clock apart. */
  function TaskSteps(actions: seq<Action>): nat {
    if actions == [] then 0
    else
      var last := actions[|actions| - 1];
      TaskSteps(actions[..|actions| - 1]) + if last.Arrive? || last.Tick? then 0 else 1
  }

  lemma {:induction false} StepsAreBounded(states: seq<State>, actions: seq<Action>)
    requires Run(states, actions)
    ensures TaskSteps(actions) + Weigh(states[|actions|].tasks, StepsLeft)
         <= Weigh(states[0].tasks, StepsLeft) + 6 * (|states[|actions|].tasks| - |states[0].tasks|)
  {
    if actions != [] {
      var m := |actions| - 1;
      var s, a := states[m], actions[m];
      StepsAreBounded(states[..m + 1], actions[..m]);
      if a.Arrive? {
        WeighAppend(s.tasks, Task(a.domain, Starting), StepsLeft);
      } else if !a.Tick? {
        var task := StepsShrink(s, a);
        WeighUpdate(s.tasks, a.t, task, StepsLeft);
      }
    }
  }

  /** Every task is done after at most six steps, however many there are and however they interleave. */
  lemma SixStepsEach(states: seq<State>, actions: seq<Action>)
    requires Run(states, actions) && states[0] == START
    ensures TaskSteps(actions) <= 6 * |states[|actions|].tasks|
  {
    StepsAreBounded(states, actions);
  }

  // ---- What tasks are answered with ----

  /** The stored entry of the domain is that of a finished fetch, and at most a day old. */
  ghost predicate IsAnsweredAfresh(s: State, d: string) {
    && d in s.cache && s.now - s.cache[d] <= 86400.0
    && exists k :: 0 <= k < |LogOf(s, d)| && LogOf(s, d)[k].fetchedAt == Some(s.cache[d])
  }

  lemma StoredIsLogged(s: State, d: string)
    requires Inv(s) && d in s.cache
    ensures exists k :: 0 <= k < |LogOf(s, d)| && LogOf(s, d)[k].fetchedAt == Some(s.cache[d])
  {
    assert LogAgrees(s, d);
    var records := LogOf(s, d);
    var k := if records[|records| - 1].fetchedAt.None? then |records| - 2 else |records| - 1;
    assert records[k].fetchedAt == Some(s.cache[d]);
  }

  ghost predicate Finishes(s: State, a: Action, t: nat) {
    && Enabled(s, a) && t < |Apply(s, a).tasks| && Apply(s, a).tasks[t].phase.Done?
    && !(t < |s.tasks| && s.tasks[t].phase.Done?)
  }

  lemma FinishIsFresh(s: State, a: Action, t: nat)
    requires Finishes(s, a, t)
    ensures var u := Apply(s, a);
            u.tasks[t].domain in u.cache && u.now - u.cache[u.tasks[t].domain] <= 86400.0
  {
  }

  /** Whenever a task finishes, it finds a stored entry of its domain that was fetched at most a day before. */
  lemma AnswersAreFresh(s: State, a: Action, t: nat)
    requires Reachable(s) && Finishes(s, a, t)
    ensures IsAnsweredAfresh(Apply(s, a), Apply(s, a).tasks[t].domain)
  {
    ReachableInv(s);
    InvStep(s, a);
    FinishIsFresh(s, a, t);
    StoredIsLogged(Apply(s, a), Apply(s, a).tasks[t].domain);
  }

  ghost predicate IsStale(s: State, d: string) {
    d !in s.cache || s.now - s.cache[d] > 86400.0
  }

  /** Fetches begin exactly where a holder of the domain's lock finds nothing stored, or something older than a day. */
  lemma FetchBeginsIff(s: State, a: Action, d: string)
    requires Enabled(s, a)
    ensures |LogOf(Apply(s, a), d)| > |LogOf(s, d)| <==> a.Recheck? && s.tasks[a.t].domain == d && IsStale(s, d)
    ensures |LogOf(Apply(s, a), d)| > |LogOf(s, d)| ==>
              Apply(s, a).tasks[a.t].phase.Fetching?
                  && LogOf(Apply(s, a), d) == LogOf(s, d) + [FetchRecord(s.now, None)]
  {
  }

  /** A task waits for a lock exactly if it finds no entry that is at most a day old. */
  lemma FreshNeedsNoLock(s: State, t: nat)
    requires Enabled(s, Lookup(t))
    ensures Apply(s, Lookup(t)).tasks[t].phase == if IsStale(s, s.tasks[t].domain) then WantGlobal else Done
  {
  }
}
