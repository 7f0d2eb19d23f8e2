/**
 The sliding-window rate limiter: a deque of admission times per client.
 Clock readings are arguments.
 */
module RateLimiter {

  const WINDOW_S: real := 60.0

  datatype Verdict = Passed | Limited(retryAfter: int)

  datatype Request = Request(client: string, exempt: bool, now: real)

  /** Dropping from the front what is more than a window old. */
  function Prune(window: seq<real>, now: real): (pruned: seq<real>)
    ensures |pruned| <= |window|
  {
    if window != [] && now - window[0] > WINDOW_S then Prune(window[1..], now) else window
  }

  /** One decision on one client's window. */
  function Decide(limit: nat, window: seq<real>, now: real): (seq<real>, Verdict)
    requires limit > 0
  {
    var kept := Prune(window, now);
    if |kept| >= limit then (kept, Limited(RetryAfter(kept[0], now)))
    else (kept + [now], Passed)
  }

  /** int(retry_after) + 1, in whole seconds. */
  function RetryAfter(oldest: real, now: real): int {
    var wait := WINDOW_S - (now - oldest);
    (if wait < 0.0 then 0.0 else wait).Floor + 1
  }

  function WindowOf(hits: map<string, seq<real>>, client: string): seq<real> {
    if client in hits then hits[client] else []
  }

  class RateLimitMiddleware {
    const limit: int
    var hits: map<string, seq<real>>

    constructor (requestsPerMinute: int)
      ensures limit == requestsPerMinute && hits == map[]
    {
      limit := requestsPerMinute;
      hits := map[];
    }

    method Dispatch(request: Request) returns (verdict: Verdict)
      modifies this
      ensures limit <= 0 || request.exempt ==> verdict == Passed && hits == old(hits)
      ensures limit > 0 && !request.exempt ==>
                var (window, decision) := Decide(limit, WindowOf(old(hits), request.client), request.now);
                verdict == decision && hits == old(hits)[request.client := window]
    {
      if limit <= 0 || request.exempt {
        return Passed;
      }
      var now := request.now;
      var window := WindowOf(hits, request.client);
      while window != [] && now - window[0] > WINDOW_S
        invariant Prune(window, now) == Prune(WindowOf(old(hits), request.client), now)
      {
        window := window[1..];
      }
      if |window| >= limit {
        var wait := WINDOW_S - (now - window[0]);
        var retryAfter := if wait < 0.0 then 0.0 else wait;
        hits := hits[request.client := window];
        return Limited(retryAfter.Floor + 1);
      }
      window := window + [now];
      hits := hits[request.client := window];
      verdict := Passed;
    }
  }

  // ---- One client's whole run ----

  ghost predicate Sorted(times: seq<real>) {
    forall i, j :: 0 <= i < j < |times| ==> times[i] <= times[j]
  }

  function ClientWindow(limit: nat, arrivals: seq<real>): seq<real>
    requires limit > 0
  {
    if arrivals == [] then []
    else Decide(limit, ClientWindow(limit, arrivals[..|arrivals| - 1]), arrivals[|arrivals| - 1]).0
  }

  /** Which arrivals the limiter admits. */
  function Decisions(limit: nat, arrivals: seq<real>): (ds: seq<bool>)
    requires limit > 0
    ensures |ds| == |arrivals|
  {
    if arrivals == [] then []
    else
      var m := |arrivals| - 1;
      Decisions(limit, arrivals[..m]) + [Decide(limit, ClientWindow(limit, arrivals[..m]), arrivals[m]).1.Passed?]
  }

  /** How many are admitted. */
  function Total(ds: seq<bool>): nat {
    if ds == [] then 0 else Total(ds[..|ds| - 1]) + if ds[|ds| - 1] then 1 else 0
  }

  /** How many are admitted in the closed minute that starts at t. */
  function CountIn(arrivals: seq<real>, ds: seq<bool>, t: real): nat
    requires |ds| == |arrivals|
  {
    if ds == [] then 0
    else
      var m := |ds| - 1;
      CountIn(arrivals[..m], ds[..m], t) + if ds[m] && t <= arrivals[m] <= t + 60.0 then 1 else 0
  }

  /** Every closed minute has at most `limit` admissions. */
  ghost predicate Obeys(limit: nat, arrivals: seq<real>, ds: seq<bool>) {
    |ds| == |arrivals| && forall t :: CountIn(arrivals, ds, t) <= limit
  }

  function Admitted(arrivals: seq<real>, ds: seq<bool>): seq<real>
    requires |ds| == |arrivals|
  {
    if ds == [] then []
    else
      var m := |ds| - 1;
      var before := Admitted(arrivals[..m], ds[..m]);
      if ds[m] then before + [arrivals[m]] else before
  }

  lemma {:induction false} PruneAppend(window: seq<real>, x: real, now: real)
    requires now - x <= WINDOW_S
    ensures Prune(window + [x], now) == Prune(window, now) + [x]
  {
    if window != [] && now - window[0] > WINDOW_S {
      assert (window + [x])[1..] == window[1..] + [x];
      PruneAppend(window[1..], x, now);
    }
  }

  lemma {:induction false} PruneTwice(window: seq<real>, earlier: real, now: real)
    requires earlier <= now
    ensures Prune(Prune(window, earlier), now) == Prune(window, now)
  {
    if window != [] && earlier - window[0] > WINDOW_S {
      PruneTwice(window[1..], earlier, now);
    }
  }

  lemma {:induction false} AdmittedAreArrivals(arrivals: seq<real>, ds: seq<bool>)
    requires |ds| == |arrivals|
    ensures forall x :: x in Admitted(arrivals, ds) ==> x in arrivals
  {
    if ds != [] {
      AdmittedAreArrivals(arrivals[..|ds| - 1], ds[..|ds| - 1]);
    }
  }

  /** The deque holds the admission times that are at most a window old. */
  lemma {:induction false} WindowIsRecentAdmissions(limit: nat, arrivals: seq<real>, now: real)
    requires limit > 0 && Sorted(arrivals + [now])
    ensures Prune(ClientWindow(limit, arrivals), now) == Prune(Admitted(arrivals, Decisions(limit, arrivals)), now)
  {
    if arrivals != [] {
      var m := |arrivals| - 1;
      var before, last := arrivals[..m], arrivals[m];
      var w, admitted := ClientWindow(limit, before), Admitted(before, Decisions(limit, before));
      SortedPrefix(arrivals, now);
      assert (arrivals + [now])[m] <= (arrivals + [now])[m + 1];
      WindowIsRecentAdmissions(limit, before, last);
      assert Decisions(limit, arrivals)[..m] == Decisions(limit, before);
      if Decisions(limit, arrivals)[m] {
        PruneAppend(admitted, last, last);
        PruneTwice(admitted + [last], last, now);
      } else {
        PruneTwice(admitted, last, now);
      }
    }
  }

  lemma SortedPrefix(arrivals: seq<real>, now: real)
    requires arrivals != [] && Sorted(arrivals + [now])
    ensures Sorted(arrivals[..|arrivals| - 1] + [arrivals[|arrivals| - 1]]) && Sorted(arrivals)
  {
    assert arrivals[..|arrivals| - 1] + [arrivals[|arrivals| - 1]] == arrivals;
    forall i, j | 0 <= i < j < |arrivals| ensures arrivals[i] <= arrivals[j] {
      assert (arrivals + [now])[i] <= (arrivals + [now])[j];
    }
  }

  lemma {:induction false} PruneAllOld(window: seq<real>, now: real)
    requires forall i :: 0 <= i < |window| ==> now - window[i] > WINDOW_S
    ensures Prune(window, now) == []
  {
    if window != [] {
      PruneAllOld(window[1..], now);
    }
  }

  lemma AllOld(arrivals: seq<real>, ds: seq<bool>, now: real)
    requires |ds| == |arrivals| && forall i :: 0 <= i < |arrivals| ==> now - arrivals[i] > WINDOW_S
    ensures Prune(Admitted(arrivals, ds), now) == []
  {
    var admitted := Admitted(arrivals, ds);
    AdmittedAreArrivals(arrivals, ds);
    forall i | 0 <= i < |admitted| ensures now - admitted[i] > WINDOW_S {
      assert admitted[i] in admitted;
    }
    PruneAllOld(admitted, now);
  }

  /** What survives pruning is counted by the interval that ends now. */
  lemma {:induction false} PruneCounts(arrivals: seq<real>, ds: seq<bool>, now: real)
    requires |ds| == |arrivals| && Sorted(arrivals + [now])
    ensures |Prune(Admitted(arrivals, ds), now)| == CountIn(arrivals, ds, now - WINDOW_S)
  {
    if ds != [] {
      var m := |ds| - 1;
      var x := arrivals[m];
      SortedPrefix(arrivals, now);
      assert (arrivals + [now])[m] <= (arrivals + [now])[m + 1];
      forall i, j | 0 <= i < j < |arrivals[..m] + [now]|
        ensures (arrivals[..m] + [now])[i] <= (arrivals[..m] + [now])[j]
      {
        assert (arrivals + [now])[i] <= (arrivals + [now])[j];
        assert (arrivals + [now])[i] <= (arrivals + [now])[m + 1];
      }
      PruneCounts(arrivals[..m], ds[..m], now);
      if ds[m] {
        if now - x <= WINDOW_S {
          PruneAppend(Admitted(arrivals[..m], ds[..m]), x, now);
        } else {
          AllOld(arrivals, ds, now);
          AllOld(arrivals[..m], ds[..m], now);
        }
      }
    }
  }

  /** The length the admission test looks at is the number admitted in the last closed window. */
  lemma AdmissionTest(limit: nat, arrivals: seq<real>, now: real)
    requires limit > 0 && Sorted(arrivals + [now])
    ensures Decide(limit, ClientWindow(limit, arrivals), now).1.Passed?
       <==> CountIn(arrivals, Decisions(limit, arrivals), now - WINDOW_S) < limit
  {
    WindowIsRecentAdmissions(limit, arrivals, now);
    PruneCounts(arrivals, Decisions(limit, arrivals), now);
  }

  lemma {:induction false} CountShifts(arrivals: seq<real>, ds: seq<bool>, t: real, now: real)
    requires |ds| == |arrivals| && Sorted(arrivals + [now]) && t <= now <= t + WINDOW_S
    ensures CountIn(arrivals, ds, t) <= CountIn(arrivals, ds, now - WINDOW_S)
  {
    if ds != [] {
      var m := |ds| - 1;
      assert (arrivals + [now])[m] <= (arrivals + [now])[m + 1];
      forall i, j | 0 <= i < j < |arrivals[..m] + [now]|
        ensures (arrivals[..m] + [now])[i] <= (arrivals[..m] + [now])[j]
      {
        assert (arrivals + [now])[i] <= (arrivals + [now])[if j == m then m + 1 else j];
      }
      CountShifts(arrivals[..m], ds[..m], t, now);
    }
  }

  /** An arrival that passes only below the limit leaves every window within it. */
  lemma OneMoreIsSafe(limit: nat, arrivals: seq<real>, ds: seq<bool>, t: real)
    requires arrivals != [] && |ds| == |arrivals| && Sorted(arrivals)
    requires var m := |arrivals| - 1;
      && CountIn(arrivals[..m], ds[..m], t) <= limit
      && (ds[m] ==> CountIn(arrivals[..m], ds[..m], arrivals[m] - WINDOW_S) < limit)
    ensures CountIn(arrivals, ds, t) <= limit
  {
    var m := |arrivals| - 1;
    assert arrivals[..m] + [arrivals[m]] == arrivals;
    if t <= arrivals[m] <= t + WINDOW_S {
      CountShifts(arrivals[..m], ds[..m], t, arrivals[m]);
    }
  }

  /** The limiter keeps the bound in every closed window, not only those that end at an arrival. */
  lemma {:induction false} LimiterIsSafe(limit: nat, arrivals: seq<real>)
    requires limit > 0 && Sorted(arrivals)
    ensures Obeys(limit, arrivals, Decisions(limit, arrivals))
  {
    var ds := Decisions(limit, arrivals);
    if arrivals != [] {
      var m := |arrivals| - 1;
      assert arrivals[..m] + [arrivals[m]] == arrivals;
      LimiterIsSafe(limit, arrivals[..m]);
      AdmissionTest(limit, arrivals[..m], arrivals[m]);
      assert ds[..m] == Decisions(limit, arrivals[..m]);
      assert ds[m] == Decide(limit, ClientWindow(limit, arrivals[..m]), arrivals[m]).1.Passed?;
      forall t ensures CountIn(arrivals, ds, t) <= limit {
        assert CountIn(arrivals[..m], ds[..m], t) <= limit;
        OneMoreIsSafe(limit, arrivals, ds, t);
      }
    }
  }

  // ---- Greedy is optimal ----

  /** Split at the first arrival of the interval that ends now. */
  lemma {:induction false} TotalSplits(arrivals: seq<real>, ds: seq<bool>, p: nat, t: real)
    requires |ds| == |arrivals| && p <= |arrivals|
    requires forall i :: 0 <= i < p ==> arrivals[i] < t
    requires forall i :: p <= i < |arrivals| ==> t <= arrivals[i] <= t + WINDOW_S
    ensures Total(ds) == Total(ds[..p]) + CountIn(arrivals, ds, t)
  {
    var m := |ds| - 1;
    if p == |ds| {
      assert ds[..p] == ds;
      NothingCounted(arrivals, ds, t);
    } else {
      TotalSplits(arrivals[..m], ds[..m], p, t);
      assert ds[..m][..p] == ds[..p];
    }
  }

  lemma {:induction false} NothingCounted(arrivals: seq<real>, ds: seq<bool>, t: real)
    requires |ds| == |arrivals| && forall i :: 0 <= i < |arrivals| ==> arrivals[i] < t
    ensures CountIn(arrivals, ds, t) == 0
  {
    if ds != [] {
      NothingCounted(arrivals[..|ds| - 1], ds[..|ds| - 1], t);
    }
  }

  lemma {:induction false} FirstAtLeast(arrivals: seq<real>, t: real) returns (p: nat)
    requires Sorted(arrivals)
    ensures p <= |arrivals|
    ensures forall i :: 0 <= i < p ==> arrivals[i] < t
    ensures forall i :: p <= i < |arrivals| ==> t <= arrivals[i]
  {
    if arrivals == [] || arrivals[|arrivals| - 1] < t {
      p := |arrivals|;
    } else {
      p := FirstAtLeast(arrivals[..|arrivals| - 1], t);
    }
  }

  lemma {:induction false} CountOfPrefix(arrivals: seq<real>, ds: seq<bool>, n: nat, t: real)
    requires |ds| == |arrivals| && n <= |ds|
    ensures CountIn(arrivals[..n], ds[..n], t) <= CountIn(arrivals, ds, t)
    decreases |ds|
  {
    if n == |ds| {
      assert arrivals[..n] == arrivals && ds[..n] == ds;
    } else {
      var m := |ds| - 1;
      CountOfPrefix(arrivals[..m], ds[..m], n, t);
      assert arrivals[..m][..n] == arrivals[..n] && ds[..m][..n] == ds[..n];
    }
  }

  lemma {:induction false} DecisionsOfPrefix(limit: nat, arrivals: seq<real>, n: nat)
    requires limit > 0 && n <= |arrivals|
    ensures Decisions(limit, arrivals)[..n] == Decisions(limit, arrivals[..n])
    decreases |arrivals|
  {
    if n == |arrivals| {
      assert arrivals[..n] == arrivals;
    } else {
      var m := |arrivals| - 1;
      DecisionsOfPrefix(limit, arrivals[..m], n);
      assert arrivals[..m][..n] == arrivals[..n];
    }
  }

  /** No policy that keeps the bound admits more requests in any prefix of the same arrivals. */
  lemma {:induction false} GreedyIsOptimal(limit: nat, arrivals: seq<real>, policy: seq<bool>, n: nat)
    requires limit > 0 && Sorted(arrivals) && Obeys(limit, arrivals, policy) && n <= |arrivals|
    ensures Total(policy[..n]) <= Total(Decisions(limit, arrivals)[..n])
    decreases n
  {
    if n > 0 {
      var m := n - 1;
      var greedy := Decisions(limit, arrivals);
      GreedyIsOptimal(limit, arrivals, policy, m);
      assert policy[..n][..m] == policy[..m] && greedy[..n][..m] == greedy[..m];
      if policy[m] && !greedy[m] {
        var t := arrivals[m] - WINDOW_S;
        var p := FirstAtLeast(arrivals[..m], t);
        GreedyIsOptimal(limit, arrivals, policy, p);
        RejectedWindowIsFull(limit, arrivals, m, p);
        PolicyWindowIsBounded(limit, arrivals, policy, m, p);
      }
    }
  }

  lemma RejectedWindowIsFull(limit: nat, arrivals: seq<real>, m: nat, p: nat)
    requires limit > 0 && Sorted(arrivals) && p <= m < |arrivals| && !Decisions(limit, arrivals)[m]
    requires forall i :: 0 <= i < p ==> arrivals[i] < arrivals[m] - WINDOW_S
    requires forall i :: p <= i < m ==> arrivals[m] - WINDOW_S <= arrivals[i]
    ensures Total(Decisions(limit, arrivals)[..m]) >= Total(Decisions(limit, arrivals)[..p]) + limit
  {
    var ds, before, now := Decisions(limit, arrivals), arrivals[..m], arrivals[m];
    RejectedSeesLimit(limit, arrivals, m);
    assert ds[..m] == Decisions(limit, before) by {
      DecisionAt(limit, arrivals, m);
    }
    TotalSplits(before, ds[..m], p, now - WINDOW_S);
    assert ds[..m][..p] == ds[..p];
  }

  lemma RejectedSeesLimit(limit: nat, arrivals: seq<real>, m: nat)
    requires limit > 0 && Sorted(arrivals) && m < |arrivals| && !Decisions(limit, arrivals)[m]
    ensures CountIn(arrivals[..m], Decisions(limit, arrivals[..m]), arrivals[m] - WINDOW_S) >= limit
  {
    DecisionAt(limit, arrivals, m);
    assert arrivals[..m] + [arrivals[m]] == arrivals[..m + 1];
    AdmissionTest(limit, arrivals[..m], arrivals[m]);
  }

  lemma DecisionAt(limit: nat, arrivals: seq<real>, m: nat)
    requires limit > 0 && m < |arrivals|
    ensures Decisions(limit, arrivals)[..m] == Decisions(limit, arrivals[..m])
    ensures Decisions(limit, arrivals)[m] == Decide(limit, ClientWindow(limit, arrivals[..m]), arrivals[m]).1.Passed?
  {
    DecisionsOfPrefix(limit, arrivals, m);
    DecisionsOfPrefix(limit, arrivals, m + 1);
    assert arrivals[..m + 1][..m] == arrivals[..m];
    assert Decisions(limit, arrivals)[..m + 1][m] == Decisions(limit, arrivals)[m];
  }

  lemma PolicyWindowIsBounded(limit: nat, arrivals: seq<real>, policy: seq<bool>, m: nat, p: nat)
    requires Sorted(arrivals) && Obeys(limit, arrivals, policy) && p <= m < |arrivals| && policy[m]
    requires forall i :: 0 <= i < p ==> arrivals[i] < arrivals[m] - WINDOW_S
    requires forall i :: p <= i < m ==> arrivals[m] - WINDOW_S <= arrivals[i]
    ensures Total(policy[..m + 1]) <= Total(policy[..p]) + limit
  {
    var t := arrivals[m] - WINDOW_S;
    TotalSplits(arrivals[..m + 1], policy[..m + 1], p, t);
    assert policy[..m + 1][..p] == policy[..p];
    CountOfPrefix(arrivals, policy, m + 1, t);
  }

  // ---- Retry-After ----

  /** The advertised wait is the least whole number of seconds after which this client gets in again. */
  lemma RetryAfterIsExact(limit: nat, window: seq<real>, now: real, seconds: nat)
    requires limit > 0 && |window| <= limit && Decide(limit, window, now).1.Limited?
    ensures 1 <= Decide(limit, window, now).1.retryAfter
    ensures Decide(limit, Decide(limit, window, now).0, now + seconds as real).1.Passed?
       <==> seconds >= Decide(limit, window, now).1.retryAfter
  {
    var kept := Prune(window, now);
    PruneTwice(window, now, now + seconds as real);
    StillKept(window, now);
  }

  lemma {:induction false} StillKept(window: seq<real>, now: real)
    ensures Prune(window, now) != [] ==> now - Prune(window, now)[0] <= WINDOW_S
  {
    if window != [] && now - window[0] > WINDOW_S {
      StillKept(window[1..], now);
    }
  }

  /** A rejection leaves the window as it was, so further attempts do not postpone admission. */
  lemma RejectionsChangeNothing(limit: nat, window: seq<real>, now: real, later: real)
    requires limit > 0 && |window| <= limit && now <= later
    requires Decide(limit, window, now).1.Limited? && Decide(limit, Decide(limit, window, now).0, later).1.Limited?
    ensures Decide(limit, Decide(limit, window, now).0, later).0 == Decide(limit, window, now).0
  {
    PruneIsSuffix(Decide(limit, window, now).0, later);
  }

  lemma {:induction false} PruneIsSuffix(window: seq<real>, now: real)
    ensures |Prune(window, now)| == |window| ==> Prune(window, now) == window
  {
  }

  lemma {:induction false} WindowNeverExceedsLimit(limit: nat, arrivals: seq<real>)
    requires limit > 0
    ensures |ClientWindow(limit, arrivals)| <= limit
  {
    if arrivals != [] {
      WindowNeverExceedsLimit(limit, arrivals[..|arrivals| - 1]);
    }
  }

  // ---- Many clients ----

  /** The deques after a stream of requests from all clients. */
  function HitsAfter(limit: nat, requests: seq<Request>): map<string, seq<real>>
    requires limit > 0
  {
    if requests == [] then map[]
    else
      var m := |requests| - 1;
      var hits, r := HitsAfter(limit, requests[..m]), requests[m];
      if r.exempt then hits else hits[r.client := Decide(limit, WindowOf(hits, r.client), r.now).0]
  }

  function ArrivalsOf(requests: seq<Request>, client: string): seq<real> {
    if requests == [] then []
    else
      var m := |requests| - 1;
      var before := ArrivalsOf(requests[..m], client);
      if !requests[m].exempt && requests[m].client == client then before + [requests[m].now] else before
  }

  /** Clients do not affect one another: each deque is that of the client's own requests. */
  lemma {:induction false} ClientsAreIndependent(limit: nat, requests: seq<Request>, client: string)
    requires limit > 0
    ensures WindowOf(HitsAfter(limit, requests), client) == ClientWindow(limit, ArrivalsOf(requests, client))
  {
    if requests != [] {
      var m := |requests| - 1;
      ClientsAreIndependent(limit, requests[..m], client);
      if !requests[m].exempt && requests[m].client == client {
        var before := ArrivalsOf(requests[..m], client);
        assert (before + [requests[m].now])[..|before|] == before;
      }
    }
  }
}
