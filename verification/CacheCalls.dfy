/**
 What one cache call does, said of the list of entries itself: which entry goes,
 which is moved to the end, and which stay where they are.
 */
module CacheCalls {
  import opened Common
  import opened TtlCache

  ghost predicate Lacks<K, V>(d: seq<Entry<K, V>>, key: K) {
    forall i :: 0 <= i < |d| ==> d[i].key != key
  }

  /** The one entry of a key, with the entries before and after it. */
  ghost predicate IsAt<K, V>(d: seq<Entry<K, V>>, before: seq<Entry<K, V>>, e: Entry<K, V>, after: seq<Entry<K, V>>,
                             key: K) {
    d == before + [e] + after && e.key == key && Lacks(before, key) && Lacks(after, key)
  }

  lemma {:induction false} LackingIsUntouched<K, V>(d: seq<Entry<K, V>>, key: K)
    requires Lacks(d, key)
    ensures Without(d, key) == d && Find(d, key) == None
  {
    if d != [] {
      LackingIsUntouched(d[1..], key);
    }
  }

  lemma {:induction false} OneGoes<K, V>(d: seq<Entry<K, V>>, before: seq<Entry<K, V>>, e: Entry<K, V>,
                                         after: seq<Entry<K, V>>, key: K)
    requires IsAt(d, before, e, after, key)
    ensures Without(d, key) == before + after && Find(d, key) == Some(e)
  {
    if before == [] {
      assert d[1..] == after;
      LackingIsUntouched(after, key);
    } else {
      assert d[0] == before[0] && d[1..] == before[1..] + [e] + after;
      OneGoes(d[1..], before[1..], e, after, key);
      assert before == [before[0]] + before[1..];
    }
  }

  /**
   A read of a stored key, on a cache that is on: an expired entry leaves, and with
   it the place it took; any other is moved to the end and its value returned.
   */
  lemma ReadDoes<K, V>(maxsize: int, ttl: real, d: seq<Entry<K, V>>, before: seq<Entry<K, V>>, e: Entry<K, V>,
                       after: seq<Entry<K, V>>, key: K, now: real)
    requires ttl > 0.0 && IsAt(d, before, e, after, key)
    ensures now > e.expires ==> Step(maxsize, ttl, d, Op.Get(key, now)) == (before + after, None)
    ensures now <= e.expires ==> Step(maxsize, ttl, d, Op.Get(key, now)) == (before + after + [e], Some(e.value))
  {
    OneGoes(d, before, e, after, key);
  }

  /** A write, on a cache that is on, puts the new entry last; what is over the size goes from the front. */
  lemma WriteDoes<K, V>(maxsize: int, ttl: real, d: seq<Entry<K, V>>, before: seq<Entry<K, V>>, e: Entry<K, V>,
                        after: seq<Entry<K, V>>, key: K, value: V, now: real)
    requires ttl > 0.0 && maxsize > 0 && IsAt(d, before, e, after, key) && |d| <= maxsize
    ensures Step(maxsize, ttl, d, Op.Set(key, value, now)).0 == before + after + [Entry(key, value, now + ttl)]
  {
    OneGoes(d, before, e, after, key);
  }

  lemma WriteOfNewKeyDoes<K, V>(maxsize: int, ttl: real, d: seq<Entry<K, V>>, key: K, value: V, now: real)
    requires ttl > 0.0 && maxsize > 0 && Lacks(d, key) && |d| <= maxsize
    ensures Step(maxsize, ttl, d, Op.Set(key, value, now)).0
         == (if |d| == maxsize then d[1..] else d) + [Entry(key, value, now + ttl)]
  {
    LackingIsUntouched(d, key);
  }

  lemma {:induction false} LastIsFound<K, V>(d: seq<Entry<K, V>>, key: K)
    requires d != [] && d[|d| - 1].key == key && Lacks(d[..|d| - 1], key)
    ensures Find(d, key) == Some(d[|d| - 1])
  {
    if |d| > 1 {
      assert d[0] == d[..|d| - 1][0] && d[1..][..|d| - 2] == d[..|d| - 1][1..];
      LastIsFound(d[1..], key);
    }
  }

  lemma NewestIsFound<K, V>(maxsize: int, others: seq<Entry<K, V>>, e: Entry<K, V>)
    requires maxsize > 0 && Lacks(others, e.key)
    ensures Find(Newest(others + [e], maxsize), e.key) == Some(e)
  {
    var stored := Newest(others + [e], maxsize);
    assert stored[|stored| - 1] == e && forall i :: 0 <= i < |stored| - 1 ==> stored[i] in others;
    LastIsFound(stored, e.key);
  }

  lemma WriteStores<K, V>(maxsize: int, ttl: real, d: seq<Entry<K, V>>, key: K, value: V, now: real)
    returns (stored: seq<Entry<K, V>>)
    requires ttl > 0.0 && maxsize > 0
    ensures Step(maxsize, ttl, d, Op.Set(key, value, now)).0 == stored
    ensures Find(stored, key) == Some(Entry(key, value, now + ttl))
  {
    var others, e := Without(d, key), Entry(key, value, now + ttl);
    stored := Newest(others + [e], maxsize);
    WithoutMembers(d, key);
    NewestIsFound(maxsize, others, e);
  }

  lemma FoundIsRead<K, V>(maxsize: int, ttl: real, d: seq<Entry<K, V>>, e: Entry<K, V>, now: real)
    requires ttl > 0.0 && Find(d, e.key) == Some(e) && now <= e.expires
    ensures Step(maxsize, ttl, d, Op.Get(e.key, now)).1 == Some(e.value)
  {
  }

  /** What was just written is read back until it expires, on any cache that is on. */
  lemma WriteIsReadBack<K, V>(maxsize: int, ttl: real, d: seq<Entry<K, V>>, key: K, value: V, written: real, now: real)
    requires ttl > 0.0 && maxsize > 0 && now <= written + ttl
    ensures var stored := Step(maxsize, ttl, d, Op.Set(key, value, written)).0;
            Step(maxsize, ttl, stored, Op.Get(key, now)).1 == Some(value)
  {
    var stored := WriteStores(maxsize, ttl, d, key, value, written);
    FoundIsRead(maxsize, ttl, stored, Entry(key, value, written + ttl), now);
  }

  /** A cache that is off keeps what it has, and a key that is not there is not found. */
  lemma NothingDone<K, V>(maxsize: int, ttl: real, d: seq<Entry<K, V>>, key: K, value: V, now: real)
    ensures ttl <= 0.0 || Lacks(d, key) ==> Step(maxsize, ttl, d, Op.Get(key, now)) == (d, None)
    ensures ttl <= 0.0 || maxsize <= 0 ==> Step(maxsize, ttl, d, Op.Set(key, value, now)).0 == d
  {
    if Lacks(d, key) {
      LackingIsUntouched(d, key);
    }
  }

  /** Every list with distinct keys is of one of the two kinds for every key. */
  lemma {:induction false} IsAtOrLacks<K, V>(d: seq<Entry<K, V>>, key: K)
    requires DistinctKeys(d)
    ensures Lacks(d, key) || exists before, e, after :: IsAt(d, before, e, after, key)
  {
    if i :| 0 <= i < |d| && d[i].key == key {
      assert d == d[..i] + [d[i]] + d[i + 1..];
      assert IsAt(d, d[..i], d[i], d[i + 1..], key);
    }
  }
}
