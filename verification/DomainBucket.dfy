/**
 The politeness limiter of one domain. The clock readings are given: the first
 as such, the second as the time that passed besides the sleep.
 */
module DomainBuckets {

  ghost predicate Spaced(grants: seq<real>, delay: real) {
    forall i :: 0 < i < |grants| ==> grants[i] - grants[i - 1] >= delay
  }

  class DomainBucket {
    const delay: real
    var lastAccess: real
    ghost var grants: seq<real>  // when the lock was given up, oldest first

    ghost predicate Valid()
      reads this
    {
      && Spaced(grants, delay)
      && lastAccess == if grants == [] then 0.0 else grants[|grants| - 1]
    }

    constructor (delay: real)
      ensures Valid() && this.delay == delay && grants == []
    {
      this.delay, lastAccess, grants := delay, 0.0, [];
    }

    function Wait(now: real): real
      reads this
    {
      delay - (now - lastAccess)
    }

    /**
     One passage under the lock, entered at `now`. The sleep takes what is missing
     to the delay; `extra` is what passes besides until the clock is read again.
     */
    method Acquire(now: real, extra: real) returns (later: real)
      requires Valid() && extra >= 0.0
      modifies this
      ensures Valid() && lastAccess == later && grants == old(grants) + [later]
      ensures later == (if old(Wait(now)) > 0.0 then old(lastAccess) + delay else now) + extra
      ensures later >= old(lastAccess) + delay && later >= now
    {
      var wait := delay - (now - lastAccess);
      var slept := 0.0;
      if wait > 0.0 {
        slept := wait;
      }
      later := now + slept + extra;
      lastAccess := later;
      grants := grants + [later];
    }
  }

  function Times(n: int, x: real): real {
    n as real * x
  }

  /**
   The n-th next request to a domain is n delays later or more, so no span of time
   holds more requests than delays.
  */
  lemma {:induction false} RequestsAreFarApart(grants: seq<real>, delay: real, i: nat, j: nat)
    requires Spaced(grants, delay) && i <= j < |grants|
    ensures grants[j] - grants[i] >= Times(j - i, delay)
  {
    if i < j {
      RequestsAreFarApart(grants, delay, i, j - 1);
      assert Times(j - i, delay) == Times(j - 1 - i, delay) + delay;
    }
  }
}
