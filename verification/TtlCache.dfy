/**
 The search cache: least-recently-used eviction plus a time to live. The
 ordered dictionary is a list of entries, least recently used first.
 Clock readings are arguments.
 */
module TtlCache {
  import opened Common

  datatype Entry<K, V> = Entry(key: K, value: V, expires: real)

  datatype Op<K, V> = Get(key: K, now: real) | Set(key: K, value: V, now: real) | Clear

  function Find<K(==), V>(d: seq<Entry<K, V>>, key: K): Option<Entry<K, V>> {
    if d == [] then None
    else if d[0].key == key then Some(d[0])
    else Find(d[1..], key)
  }

  function Without<K(==), V>(d: seq<Entry<K, V>>, key: K): seq<Entry<K, V>> {
    if d == [] then []
    else if d[0].key == key then Without(d[1..], key)
    else [d[0]] + Without(d[1..], key)
  }

  ghost function Keys<K, V>(d: seq<Entry<K, V>>): set<K> {
    set e | e in d :: e.key
  }

  ghost predicate DistinctKeys<K, V>(d: seq<Entry<K, V>>) {
    forall i, j :: 0 <= i < j < |d| ==> d[i].key != d[j].key
  }

  function Capacity(maxsize: int): nat {
    if maxsize < 0 then 0 else maxsize
  }

  /** The newest `size` entries. */
  function Newest<K, V>(d: seq<Entry<K, V>>, size: nat): seq<Entry<K, V>> {
    if |d| > size then d[|d| - size..] else d
  }

  /** What one call does to the contents, and what it returns. */
  function Step<K(==), V>(maxsize: int, ttl: real, d: seq<Entry<K, V>>, op: Op<K, V>): (seq<Entry<K, V>>, Option<V>) {
    match op
    case Clear => ([], None)
    case Set(key, value, now) =>
      if ttl <= 0.0 || maxsize <= 0 then (d, None)
      else (Newest(Without(d, key) + [Entry(key, value, now + ttl)], maxsize), None)
    case Get(key, now) =>
      var found := Find(d, key);
      if ttl <= 0.0 || found.None? then (d, None)
      else if now > found.value.expires then (Without(d, key), None)
      else (Without(d, key) + [found.value], Some(found.value.value))
  }

  class TTLCache<K(==), V> {
    const maxsize: int
    const ttl: real
    var data: seq<Entry<K, V>>
    var hits: nat
    var misses: nat

    ghost predicate Valid()
      reads this
    {
      DistinctKeys(data) && |data| <= Capacity(maxsize)
    }

    constructor (maxsize: int, ttl: real)
      ensures Valid() && data == [] && hits == misses == 0
      ensures this.maxsize == maxsize && this.ttl == ttl
    {
      this.maxsize, this.ttl := maxsize, ttl;
      data, hits, misses := [], 0, 0;
    }

    method Get(key: K, now: real) returns (value: Option<V>)
      requires Valid()
      modifies this
      ensures Valid()
      ensures (data, value) == Step(maxsize, ttl, old(data), Op.Get(key, now))
      ensures hits == old(hits) + if value.Some? then 1 else 0
      ensures misses == old(misses) + if ttl > 0.0 && value.None? then 1 else 0
    {
      if ttl <= 0.0 {
        return None;
      }
      var entry := Find(data, key);
      if entry.None? {
        misses := misses + 1;
        return None;
      }
      StepKeepsShape(maxsize, ttl, data, Op.Get(key, now));
      if now > entry.value.expires {
        data := Without(data, key);
        misses := misses + 1;
        return None;
      }
      data := Without(data, key) + [entry.value];
      hits := hits + 1;
      value := Some(entry.value.value);
    }

    method Set(key: K, value: V, now: real)
      requires Valid()
      modifies this`data
      ensures Valid()
      ensures data == Step(maxsize, ttl, old(data), Op.Set(key, value, now)).0
    {
      if ttl <= 0.0 || maxsize <= 0 {
        return;
      }
      StepKeepsShape(maxsize, ttl, data, Op.Set(key, value, now));
      data := Without(data, key) + [Entry(key, value, now + ttl)];
      ghost var touched := data;
      while |data| > maxsize
        invariant Newest(data, maxsize) == Newest(touched, maxsize)
      {
        data := data[1..];
      }
    }

    method Clear()
      modifies this`data
      ensures Valid() && data == []
    {
      data := [];
    }
  }

  // ---- Shape: distinct keys, at most maxsize entries ----

  lemma {:induction false} FindFinds<K, V>(d: seq<Entry<K, V>>, key: K)
    ensures Find(d, key).Some? <==> key in Keys(d)
    ensures Find(d, key).Some? ==> Find(d, key).value in d && Find(d, key).value.key == key
  {
    if d != [] && d[0].key != key {
      FindFinds(d[1..], key);
      assert d == [d[0]] + d[1..];
    }
  }

  lemma {:induction false} WithoutMembers<K, V>(d: seq<Entry<K, V>>, key: K)
    ensures forall e :: e in Without(d, key) ==> e in d && e.key != key
    ensures forall e :: e in d && e.key != key ==> e in Without(d, key)
    ensures |Without(d, key)| <= |d|
  {
    if d != [] {
      WithoutMembers(d[1..], key);
    }
  }

  lemma {:induction false} WithoutKeeps<K, V>(d: seq<Entry<K, V>>, key: K)
    ensures DistinctKeys(d) ==> DistinctKeys(Without(d, key))
    ensures key !in Keys(d) ==> Without(d, key) == d
  {
    if d != [] {
      WithoutKeeps(d[1..], key);
      WithoutMembers(d[1..], key);
      var rest := Without(d[1..], key);
      assert d == [d[0]] + d[1..];
      if DistinctKeys(d) && d[0].key != key {
        forall j | 0 <= j < |rest| ensures rest[j].key != d[0].key {
          assert rest[j] in rest;
          assert rest[j] in d[1..];
        }
      }
    }
  }

  lemma {:induction false} DistinctWithout<K, V>(d: seq<Entry<K, V>>, key: K)
    requires DistinctKeys(d) && key in Keys(d)
    ensures |Without(d, key)| == |d| - 1
  {
    if d[0].key == key {
      assert key !in Keys(d[1..]);
      WithoutKeeps(d[1..], key);
    } else {
      assert d == [d[0]] + d[1..];
      DistinctWithout(d[1..], key);
    }
  }

  lemma TouchKeepsShape<K, V>(d: seq<Entry<K, V>>, e: Entry<K, V>)
    requires DistinctKeys(d)
    ensures DistinctKeys(Without(d, e.key) + [e])
    ensures |Without(d, e.key) + [e]| == |d| + if e.key in Keys(d) then 0 else 1
  {
    var rest := Without(d, e.key);
    WithoutKeeps(d, e.key);
    WithoutMembers(d, e.key);
    if e.key in Keys(d) {
      DistinctWithout(d, e.key);
    }
    forall i | 0 <= i < |rest| ensures rest[i].key != e.key {
      assert rest[i] in rest;
      assert rest[i] in Without(d, e.key);
    }
  }

  lemma StepKeepsShape<K, V>(maxsize: int, ttl: real, d: seq<Entry<K, V>>, op: Op<K, V>)
    requires DistinctKeys(d) && |d| <= Capacity(maxsize)
    ensures DistinctKeys(Step(maxsize, ttl, d, op).0)
    ensures |Step(maxsize, ttl, d, op).0| <= Capacity(maxsize)
  {
    if op.Set? {
      TouchKeepsShape(d, Entry(op.key, op.value, op.now + ttl));
    } else if op.Get? {
      FindFinds(d, op.key);
      WithoutKeeps(d, op.key);
      WithoutMembers(d, op.key);
      if Find(d, op.key).Some? {
        TouchKeepsShape(d, Find(d, op.key).value);
      }
    }
  }

  // ---- Whole runs ----

  function Run<K(==), V>(maxsize: int, ttl: real, ops: seq<Op<K, V>>): seq<Entry<K, V>> {
    if ops == [] then [] else Step(maxsize, ttl, Run(maxsize, ttl, ops[..|ops| - 1]), ops[|ops| - 1]).0
  }

  /** What the last call of a run returns. */
  function Output<K(==), V>(maxsize: int, ttl: real, ops: seq<Op<K, V>>): Option<V>
    requires ops != []
  {
    Step(maxsize, ttl, Run(maxsize, ttl, ops[..|ops| - 1]), ops[|ops| - 1]).1
  }

  lemma {:induction false} RunKeepsShape<K, V>(maxsize: int, ttl: real, ops: seq<Op<K, V>>)
    ensures DistinctKeys(Run(maxsize, ttl, ops))
    ensures |Run(maxsize, ttl, ops)| <= Capacity(maxsize)
  {
    if ops != [] {
      RunKeepsShape(maxsize, ttl, ops[..|ops| - 1]);
      StepKeepsShape(maxsize, ttl, Run(maxsize, ttl, ops[..|ops| - 1]), ops[|ops| - 1]);
    }
  }

  // ---- Two caches of different size on one run ----

  /** s is obtained from l by leaving entries out. */
  ghost predicate Sub<K, V>(s: seq<Entry<K, V>>, l: seq<Entry<K, V>>) {
    if s == [] then true
    else if l == [] then false
    else if s[0] == l[0] then Sub(s[1..], l[1..])
    else Sub(s, l[1..])
  }

  lemma {:induction false} SubTail<K, V>(s: seq<Entry<K, V>>, l: seq<Entry<K, V>>)
    requires Sub(s, l) && s != []
    ensures Sub(s[1..], l)
    decreases |l|, 0
  {
    if s[0] == l[0] {
      SubCons(s[1..], l[1..], l[0]);
    } else {
      SubTail(s, l[1..]);
      SubCons(s[1..], l[1..], l[0]);
    }
    assert [l[0]] + l[1..] == l;
  }

  lemma {:induction false} SubCons<K, V>(s: seq<Entry<K, V>>, l: seq<Entry<K, V>>, x: Entry<K, V>)
    requires Sub(s, l)
    ensures Sub(s, [x] + l)
    decreases |l|, 1
  {
    assert ([x] + l)[1..] == l;
    if s != [] && s[0] == x {
      SubTail(s, l);
    }
  }

  lemma {:induction false} SubWithout<K, V>(s: seq<Entry<K, V>>, l: seq<Entry<K, V>>, key: K)
    requires Sub(s, l)
    ensures Sub(Without(s, key), Without(l, key))
    decreases |l|
  {
    if s != [] {
      if s[0] == l[0] {
        SubWithout(s[1..], l[1..], key);
      } else {
        SubWithout(s, l[1..], key);
        SubCons(Without(s, key), Without(l[1..], key), l[0]);
      }
    }
  }

  lemma {:induction false} SubAppend<K, V>(s: seq<Entry<K, V>>, l: seq<Entry<K, V>>, e: Entry<K, V>)
    requires Sub(s, l)
    ensures Sub(s + [e], l + [e])
    decreases |l|
  {
    if l == [] {
      assert s + [e] == [e] && l + [e] == [e];
      assert Sub(([e])[1..], ([e])[1..]);
    } else {
      assert (l + [e])[1..] == l[1..] + [e];
      if s != [] && s[0] == l[0] {
        assert (s + [e])[1..] == s[1..] + [e];
        SubAppend(s[1..], l[1..], e);
      } else {
        SubAppend(s, l[1..], e);
        SubCons(s + [e], l[1..] + [e], l[0]);
        assert [l[0]] + (l[1..] + [e]) == l + [e];
      }
    }
  }

  lemma {:induction false} SubMembers<K, V>(s: seq<Entry<K, V>>, l: seq<Entry<K, V>>)
    requires Sub(s, l)
    ensures |s| <= |l| && forall e :: e in s ==> e in l
    decreases |l|
  {
    if s != [] {
      if s[0] == l[0] {
        SubMembers(s[1..], l[1..]);
        assert s == [s[0]] + s[1..];
      } else {
        SubMembers(s, l[1..]);
      }
    }
  }

  /** The small cache's recency list is a sub-list of the large one's, and not too much shorter. */
  ghost predicate Included<K, V>(small: int, large: int, s: seq<Entry<K, V>>, l: seq<Entry<K, V>>) {
    && Sub(s, l) && DistinctKeys(s) && DistinctKeys(l)
    && |s| <= Capacity(small) && |l| <= Capacity(large)
    && |l| - |s| <= Capacity(large) - Capacity(small)
  }

  /** Evicting from both down to their sizes keeps the inclusion. */
  lemma EvictBoth<K, V>(small: nat, large: nat, s: seq<Entry<K, V>>, l: seq<Entry<K, V>>)
    requires 0 < small <= large && Sub(s, l)
    requires |s| <= small + 1 && |l| <= large + 1 && |l| - |s| <= large - small
    ensures Sub(Newest(s, small), Newest(l, large))
    ensures |Newest(l, large)| - |Newest(s, small)| <= large - small
  {
    if |s| > small {
      if |l| > large && s[0] != l[0] {
        SubTail(s, l[1..]);
      } else {
        SubTail(s, l);
      }
    }
  }

  lemma FindIncluded<K, V>(s: seq<Entry<K, V>>, l: seq<Entry<K, V>>, key: K)
    requires Sub(s, l) && DistinctKeys(s) && DistinctKeys(l)
    ensures Find(s, key).Some? ==> Find(l, key) == Find(s, key)
  {
    FindFinds(s, key);
    FindFinds(l, key);
    SubMembers(s, l);
  }

  lemma TouchIncluded<K, V>(s: seq<Entry<K, V>>, l: seq<Entry<K, V>>, e: Entry<K, V>)
    requires Sub(s, l) && DistinctKeys(s) && DistinctKeys(l)
    ensures Sub(Without(s, e.key) + [e], Without(l, e.key) + [e])
    ensures |Without(l, e.key) + [e]| - |Without(s, e.key) + [e]| <= |l| - |s|
  {
    SubWithout(s, l, e.key);
    SubAppend(Without(s, e.key), Without(l, e.key), e);
    TouchKeepsShape(s, e);
    TouchKeepsShape(l, e);
    SubMembers(s, l);
  }

  lemma GetKeepsInclusion<K, V>(small: int, large: int, ttl: real, s: seq<Entry<K, V>>, l: seq<Entry<K, V>>,
                                key: K, now: real)
    requires small <= large && Included(small, large, s, l)
    ensures Included(small, large, Step(small, ttl, s, Op.Get(key, now)).0, Step(large, ttl, l, Op.Get(key, now)).0)
    ensures Step(small, ttl, s, Op.Get(key, now)).1.Some? ==>
              Step(large, ttl, l, Op.Get(key, now)).1 == Step(small, ttl, s, Op.Get(key, now)).1
  {
    FindIncluded(s, l, key);
    FindFinds(s, key);
    FindFinds(l, key);
    StepKeepsShape(small, ttl, s, Op.Get(key, now));
    StepKeepsShape(large, ttl, l, Op.Get(key, now));
    if ttl > 0.0 && Find(l, key).Some? {
      var e := Find(l, key).value;
      SubWithout(s, l, key);
      TouchIncluded(s, l, e);
      TouchKeepsShape(l, e);
      if Find(s, key).None? {
        WithoutKeeps(s, key);
        SubOfTouched(Without(s, key), Without(l, key), e);
      } else {
        TouchKeepsShape(s, e);
      }
    }
  }

  lemma {:induction false} SubOfTouched<K, V>(s: seq<Entry<K, V>>, l: seq<Entry<K, V>>, e: Entry<K, V>)
    requires Sub(s, l)
    ensures Sub(s, l + [e])
    decreases |l|
  {
    if s != [] {
      assert (l + [e])[1..] == l[1..] + [e];
      if s[0] == l[0] {
        SubOfTouched(s[1..], l[1..], e);
      } else {
        SubOfTouched(s, l[1..], e);
      }
    }
  }

  lemma SetKeepsInclusion<K, V>(small: int, large: int, ttl: real, s: seq<Entry<K, V>>, l: seq<Entry<K, V>>,
                                key: K, value: V, now: real)
    requires small <= large && Included(small, large, s, l)
    ensures Included(small, large, Step(small, ttl, s, Op.Set(key, value, now)).0,
                                   Step(large, ttl, l, Op.Set(key, value, now)).0)
  {
    StepKeepsShape(small, ttl, s, Op.Set(key, value, now));
    StepKeepsShape(large, ttl, l, Op.Set(key, value, now));
    if ttl > 0.0 && small > 0 {
      TouchAndEvict(small, large, s, l, Entry(key, value, now + ttl));
    }
  }

  lemma TouchAndEvict<K, V>(small: nat, large: nat, s: seq<Entry<K, V>>, l: seq<Entry<K, V>>, e: Entry<K, V>)
    requires 0 < small <= large && Included(small, large, s, l)
    ensures var a, b := Newest(Without(s, e.key) + [e], small), Newest(Without(l, e.key) + [e], large);
            Sub(a, b) && |b| - |a| <= large - small
  {
    TouchIncluded(s, l, e);
    TouchKeepsShape(s, e);
    TouchKeepsShape(l, e);
    EvictBoth(small, large, Without(s, e.key) + [e], Without(l, e.key) + [e]);
  }

  lemma {:induction false} RunsStayIncluded<K, V>(small: int, large: int, ttl: real, ops: seq<Op<K, V>>)
    requires small <= large
    ensures Included(small, large, Run(small, ttl, ops), Run(large, ttl, ops))
  {
    if ops != [] {
      var m := |ops| - 1;
      RunsStayIncluded(small, large, ttl, ops[..m]);
      var s, l := Run(small, ttl, ops[..m]), Run(large, ttl, ops[..m]);
      match ops[m] {
        case Clear =>
        case Get(key, now) => GetKeepsInclusion(small, large, ttl, s, l, key, now);
        case Set(key, value, now) => SetKeepsInclusion(small, large, ttl, s, l, key, value, now);
      }
    }
  }

  /**
   On one sequence of calls with the same clock readings, a larger cache holds
   every entry of a smaller one with the same value and expiry, and each hit of
   the smaller cache is the same hit in the larger.
   */
  lemma LargerCacheIncludesSmaller<K, V>(small: int, large: int, ttl: real, ops: seq<Op<K, V>>)
    requires small <= large
    ensures forall e :: e in Run(small, ttl, ops) ==> e in Run(large, ttl, ops)
    ensures ops != [] && Output(small, ttl, ops).Some? ==> Output(large, ttl, ops) == Output(small, ttl, ops)
  {
    RunsStayIncluded(small, large, ttl, ops);
    SubMembers(Run(small, ttl, ops), Run(large, ttl, ops));
    if ops != [] && ops[|ops| - 1].Get? {
      var m := |ops| - 1;
      RunsStayIncluded(small, large, ttl, ops[..m]);
      GetKeepsInclusion(small, large, ttl, Run(small, ttl, ops[..m]), Run(large, ttl, ops[..m]), ops[m].key,
                        ops[m].now);
    }
  }

  // ---- Agreement with the plain history of calls ----

  /** The latest set of the key since the last clear, as an index into the history. */
  function LastSet<K(==), V>(ops: seq<Op<K, V>>, key: K): (r: Option<nat>)
    ensures r.Some? ==> r.value < |ops| && ops[r.value].Set? && ops[r.value].key == key
  {
    if ops == [] then None
    else
      var m := |ops| - 1;
      match ops[m]
      case Clear => None
      case Set(k, _, _) => if k == key then Some(m) else LastSet(ops[..m], key)
      case Get(_, _) => LastSet(ops[..m], key)
  }

  /** The other keys that were set, or found by a get, since the key itself last was. */
  ghost function Rivals<K, V>(maxsize: int, ttl: real, ops: seq<Op<K, V>>, key: K): set<K> {
    if ops == [] then {}
    else
      var m := |ops| - 1;
      var before := Rivals(maxsize, ttl, ops[..m], key);
      match ops[m]
      case Clear => {}
      case Set(k, _, _) => if k == key then {} else before + {k}
      case Get(k, _) =>
        if Output(maxsize, ttl, ops).None? then before
        else if k == key then {} else before + {k}
  }

  ghost predicate ReadAfter<K, V>(ops: seq<Op<K, V>>, t: real) {
    exists i :: 0 <= i < |ops| && !ops[i].Clear? && ops[i].now > t
  }

  ghost predicate StoredBy<K, V>(e: Entry<K, V>, op: Op<K, V>, ttl: real) {
    op.Set? && e == Entry(op.key, op.value, op.now + ttl)
  }

  ghost predicate AgreesWithHistory<K, V>(ttl: real, d: seq<Entry<K, V>>, ops: seq<Op<K, V>>) {
    forall e :: e in d ==> LastSet(ops, e.key).Some? && StoredBy(e, ops[LastSet(ops, e.key).value], ttl)
  }

  /** Every entry is the one that the latest set of its key since the last clear stored. */
  lemma {:induction false} ContentsAgree<K, V>(maxsize: int, ttl: real, ops: seq<Op<K, V>>)
    requires ttl > 0.0 && maxsize > 0
    ensures AgreesWithHistory(ttl, Run(maxsize, ttl, ops), ops)
  {
    if ops != [] {
      var m := |ops| - 1;
      ContentsAgree(maxsize, ttl, ops[..m]);
      forall e | e in Run(maxsize, ttl, ops)
        ensures LastSet(ops, e.key).Some? && StoredBy(e, ops[LastSet(ops, e.key).value], ttl)
      {
        EntryAgrees(maxsize, ttl, ops, e);
      }
    }
  }

  lemma EntryAgrees<K, V>(maxsize: int, ttl: real, ops: seq<Op<K, V>>, e: Entry<K, V>)
    requires ttl > 0.0 && maxsize > 0 && ops != [] && e in Run(maxsize, ttl, ops)
    requires AgreesWithHistory(ttl, Run(maxsize, ttl, ops[..|ops| - 1]), ops[..|ops| - 1])
    ensures LastSet(ops, e.key).Some? && StoredBy(e, ops[LastSet(ops, e.key).value], ttl)
  {
    var m := |ops| - 1;
    var d := Run(maxsize, ttl, ops[..m]);
    WithoutMembers(d, ops[m].key);
    FindFinds(d, ops[m].key);
    if ops[m].Set? && e.key == ops[m].key {
      assert e !in Without(d, ops[m].key);
      assert StoredBy(e, ops[m], ttl);
    } else {
      assert e in d && LastSet(ops, e.key) == LastSet(ops[..m], e.key);
    }
  }

  /** A get returns v only if the latest set since the last clear stored v and has not expired. */
  lemma HitsAreCurrent<K, V>(maxsize: int, ttl: real, ops: seq<Op<K, V>>, key: K, now: real)
    requires ttl > 0.0 && maxsize > 0
    ensures var r := Output(maxsize, ttl, ops + [Op.Get(key, now)]); var last := LastSet(ops, key);
            r.Some? ==> last.Some? && r.value == ops[last.value].value && now <= ops[last.value].now + ttl
  {
    ContentsAgree(maxsize, ttl, ops);
    FindFinds(Run(maxsize, ttl, ops), key);
    assert (ops + [Op.Get(key, now)])[..|ops|] == ops;
  }

  /** The keys of the entries touched after this key's entry. */
  ghost function Newer<K, V>(d: seq<Entry<K, V>>, key: K): set<K> {
    if d == [] then {}
    else if d[0].key == key then Keys(d[1..])
    else Newer(d[1..], key)
  }

  /**
   What became of the latest set of a key: its entry is present with only rivals
   newer than it, or enough rivals pushed it out, or it was seen to be expired.
   */
  ghost predicate Accounted<K, V>(maxsize: int, ttl: real, d: seq<Entry<K, V>>, ops: seq<Op<K, V>>, key: K) {
    LastSet(ops, key).Some? ==>
      || Outlived(maxsize, d, key, Rivals(maxsize, ttl, ops, key))
      || ReadAfter(ops, ops[LastSet(ops, key).value].now + ttl)
  }

  ghost predicate Outlived<K, V>(maxsize: int, d: seq<Entry<K, V>>, key: K, rivals: set<K>) {
    (Find(d, key).Some? && Newer(d, key) <= rivals) || |rivals| >= maxsize
  }

  lemma {:induction false} FindWithout<K, V>(d: seq<Entry<K, V>>, key: K, other: K)
    ensures Find(Without(d, other), key) == if key == other then None else Find(d, key)
    ensures key != other ==> Newer(Without(d, other), key) <= Newer(d, key)
  {
    if d != [] {
      FindWithout(d[1..], key, other);
      WithoutMembers(d[1..], other);
      if d[0].key != other {
        assert Without(d, other)[1..] == Without(d[1..], other);
      }
    }
  }

  lemma {:induction false} FindAppend<K, V>(d: seq<Entry<K, V>>, e: Entry<K, V>, key: K)
    ensures Find(d + [e], key) == if Find(d, key).None? && e.key == key then Some(e) else Find(d, key)
    ensures Newer(d + [e], key) == if Find(d, key).Some? then Newer(d, key) + {e.key} else {}
  {
    if d == [] {
      assert (d + [e])[1..] == [];
    } else {
      assert (d + [e])[1..] == d[1..] + [e];
      FindAppend(d[1..], e, key);
    }
  }

  lemma {:induction false} KeysCount<K, V>(d: seq<Entry<K, V>>)
    requires DistinctKeys(d)
    ensures |Keys(d)| == |d|
  {
    if d != [] {
      KeysCount(d[1..]);
      assert d == [d[0]] + d[1..];
      assert Keys(d) == Keys(d[1..]) + {d[0].key};
    }
  }

  /** The oldest entry is dropped only when all others are newer, and those are rivals. */
  lemma EvictionNeedsRivals<K, V>(maxsize: nat, touched: seq<Entry<K, V>>, key: K, rivals: set<K>)
    requires maxsize > 0 && DistinctKeys(touched) && |touched| <= maxsize + 1
    requires Find(touched, key).Some? && Newer(touched, key) <= rivals
    ensures Outlived(maxsize, Newest(touched, maxsize), key, rivals)
  {
    if |touched| > maxsize && touched[0].key == key {
      KeysCount(touched[1..]);
      SubsetCount(Newer(touched, key), rivals);
    }
  }

  lemma SetOutlived<K, V>(maxsize: nat, d: seq<Entry<K, V>>, e: Entry<K, V>, key: K, rivals: set<K>)
    requires maxsize > 0 && DistinctKeys(d) && |d| <= maxsize
    requires e.key != key ==> Outlived(maxsize, d, key, rivals)
    ensures Outlived(maxsize, Newest(Without(d, e.key) + [e], maxsize), key,
                     if e.key == key then {} else rivals + {e.key})
  {
    var rivals' := if e.key == key then {} else rivals + {e.key};
    FindWithout(d, key, e.key);
    FindAppend(Without(d, e.key), e, key);
    if e.key != key && |rivals| >= maxsize {
      SubsetCount(rivals, rivals');
    } else {
      TouchKeepsShape(d, e);
      EvictionNeedsRivals(maxsize, Without(d, e.key) + [e], key, rivals');
    }
  }

  lemma HitOutlived<K, V>(maxsize: int, d: seq<Entry<K, V>>, e: Entry<K, V>, key: K, rivals: set<K>)
    requires Find(d, e.key) == Some(e)
    requires e.key != key ==> Outlived(maxsize, d, key, rivals)
    ensures Outlived(maxsize, Without(d, e.key) + [e], key, if e.key == key then {} else rivals + {e.key})
  {
    FindWithout(d, key, e.key);
    FindAppend(Without(d, e.key), e, key);
    SubsetCount(rivals, rivals + {e.key});
  }

  lemma ReadAfterGrows<K, V>(ops: seq<Op<K, V>>, t: real)
    requires ops != [] && ReadAfter(ops[..|ops| - 1], t)
    ensures ReadAfter(ops, t)
  {
    var i :| 0 <= i < |ops| - 1 && !ops[..|ops| - 1][i].Clear? && ops[..|ops| - 1][i].now > t;
    assert ops[i] == ops[..|ops| - 1][i];
  }

  lemma AccountedAfterSet<K, V>(maxsize: int, ttl: real, ops: seq<Op<K, V>>, key: K)
    requires ttl > 0.0 && maxsize > 0 && ops != [] && ops[|ops| - 1].Set?
    requires Accounted(maxsize, ttl, Run(maxsize, ttl, ops[..|ops| - 1]), ops[..|ops| - 1], key)
    ensures Accounted(maxsize, ttl, Run(maxsize, ttl, ops), ops, key)
  {
    var m := |ops| - 1;
    var d, before := Run(maxsize, ttl, ops[..m]), Rivals(maxsize, ttl, ops[..m], key);
    var e := Entry(ops[m].key, ops[m].value, ops[m].now + ttl);
    RunKeepsShape(maxsize, ttl, ops[..m]);
    if e.key == key || Outlived(maxsize, d, key, before) {
      SetOutlived(maxsize, d, e, key, before);
    } else if LastSet(ops, key).Some? {
      ReadAfterGrows(ops, ops[LastSet(ops, key).value].now + ttl);
    }
  }

  lemma AccountedAfterGet<K, V>(maxsize: int, ttl: real, ops: seq<Op<K, V>>, key: K)
    requires ttl > 0.0 && maxsize > 0 && ops != [] && ops[|ops| - 1].Get?
    requires Accounted(maxsize, ttl, Run(maxsize, ttl, ops[..|ops| - 1]), ops[..|ops| - 1], key)
    ensures Accounted(maxsize, ttl, Run(maxsize, ttl, ops), ops, key)
  {
    var m := |ops| - 1;
    var d, before := Run(maxsize, ttl, ops[..m]), Rivals(maxsize, ttl, ops[..m], key);
    var k, now := ops[m].key, ops[m].now;
    FindFinds(d, k);
    if Find(d, k).Some? && now <= Find(d, k).value.expires {
      if k == key || Outlived(maxsize, d, key, before) {
        HitOutlived(maxsize, d, Find(d, k).value, key, before);
      } else if LastSet(ops, key).Some? {
        ReadAfterGrows(ops, ops[LastSet(ops, key).value].now + ttl);
      }
    } else if LastSet(ops, key).Some? {
      if ReadAfter(ops[..m], ops[LastSet(ops, key).value].now + ttl) {
        ReadAfterGrows(ops, ops[LastSet(ops, key).value].now + ttl);
      } else if Find(d, k).Some? {
        FindWithout(d, key, k);
        ContentsAgree(maxsize, ttl, ops[..m]);
        assert k == key ==> now > ops[LastSet(ops, key).value].now + ttl;
      }
    }
  }

  lemma {:induction false} EverySetIsAccounted<K, V>(maxsize: int, ttl: real, ops: seq<Op<K, V>>, key: K)
    requires ttl > 0.0 && maxsize > 0
    ensures Accounted(maxsize, ttl, Run(maxsize, ttl, ops), ops, key)
  {
    if ops != [] {
      EverySetIsAccounted(maxsize, ttl, ops[..|ops| - 1], key);
      match ops[|ops| - 1] {
        case Clear =>
        case Set(_, _, _) => AccountedAfterSet(maxsize, ttl, ops, key);
        case Get(_, _) => AccountedAfterGet(maxsize, ttl, ops, key);
      }
    }
  }

  /** With a clock that does not run backwards, an unexpired key with fewer than maxsize rivals must hit. */
  lemma CurrentKeysHit<K, V>(maxsize: int, ttl: real, ops: seq<Op<K, V>>, key: K, now: real)
    requires ttl > 0.0 && maxsize > 0
    requires forall i :: 0 <= i < |ops| && !ops[i].Clear? ==> ops[i].now <= now
    requires LastSet(ops, key).Some? && now <= ops[LastSet(ops, key).value].now + ttl
    requires |Rivals(maxsize, ttl, ops, key)| < maxsize
    ensures Output(maxsize, ttl, ops + [Op.Get(key, now)]) == Some(ops[LastSet(ops, key).value].value)
  {
    EverySetIsAccounted(maxsize, ttl, ops, key);
    ContentsAgree(maxsize, ttl, ops);
    FindFinds(Run(maxsize, ttl, ops), key);
    assert (ops + [Op.Get(key, now)])[..|ops|] == ops;
  }

  // ---- Eviction looks at use, not at expiry ----

  /** The contents before anything is evicted, with the new entry touched last. */
  function Touched<K(==), V>(d: seq<Entry<K, V>>, e: Entry<K, V>): seq<Entry<K, V>> {
    Without(d, e.key) + [e]
  }

  ghost predicate HasExpired<K, V>(d: seq<Entry<K, V>>, now: real) {
    exists i :: 0 <= i < |d| && now > d[i].expires
  }

  /** A set drops an entry that could still be read while it keeps one that could not. */
  ghost predicate EvictsReadable<K, V>(maxsize: int, ttl: real, d: seq<Entry<K, V>>, key: K, value: V, now: real) {
    var after := Step(maxsize, ttl, d, Op.Set(key, value, now)).0;
    HasExpired(after, now) && DropsReadable(d, key, after, now)
  }

  ghost predicate DropsReadable<K, V>(d: seq<Entry<K, V>>, key: K, after: seq<Entry<K, V>>, now: real) {
    exists i :: 0 <= i < |d| && d[i].key != key && now <= d[i].expires && d[i] !in after
  }

  /** What a set leaves: all touched entries, or all but the least recently used one. */
  lemma AfterSet<K, V>(maxsize: int, ttl: real, d: seq<Entry<K, V>>, key: K, value: V, now: real)
    requires ttl > 0.0 && maxsize > 0 && DistinctKeys(d) && |d| <= maxsize
    ensures var touched := Touched(d, Entry(key, value, now + ttl));
            Step(maxsize, ttl, d, Op.Set(key, value, now)).0 == if |touched| > maxsize then touched[1..] else touched
  {
    TouchKeepsShape(d, Entry(key, value, now + ttl));
  }

  lemma OverflowDecides<K, V>(d: seq<Entry<K, V>>, e: Entry<K, V>, now: real)
    requires DistinctKeys(d) && |Touched(d, e)| > 1
    ensures DropsReadable(d, e.key, Touched(d, e)[1..], now) <==> now <= Touched(d, e)[0].expires
  {
    TouchKeepsShape(d, e);
    HeadIsDropped(d, e);
    HeadDecides(d, e.key, Touched(d, e), now);
  }

  /**
   That happens exactly if the cache is not disabled, it overflows, its least
   recently used entry has not expired, and one of the others has.
   */
  lemma EvictsReadableIff<K, V>(maxsize: int, ttl: real, d: seq<Entry<K, V>>, key: K, value: V, now: real)
    requires DistinctKeys(d) && (d == [] || |d| <= maxsize)
    ensures EvictsReadable(maxsize, ttl, d, key, value, now) <==>
              var touched := Touched(d, Entry(key, value, now + ttl));
              ttl > 0.0 && |touched| > maxsize && now <= touched[0].expires && HasExpired(touched[1..], now)
  {
    if ttl <= 0.0 {
    } else if maxsize <= 0 {
      assert Touched(d, Entry(key, value, now + ttl))[1..] == [];
    } else {
      var e := Entry(key, value, now + ttl);
      AfterSet(maxsize, ttl, d, key, value, now);
      NothingIsDropped(d, e);
      if |Touched(d, e)| > maxsize {
        OverflowDecides(d, e, now);
      }
    }
  }

  lemma HeadDecides<K, V>(d: seq<Entry<K, V>>, key: K, touched: seq<Entry<K, V>>, now: real)
    requires touched != [] && touched[0] in d && touched[0].key != key && touched[0] !in touched[1..]
    requires forall i :: 0 <= i < |d| && d[i].key != key && d[i] !in touched[1..] ==> d[i] == touched[0]
    ensures DropsReadable(d, key, touched[1..], now) <==> now <= touched[0].expires
  {
  }

  lemma NothingIsDropped<K, V>(d: seq<Entry<K, V>>, e: Entry<K, V>)
    ensures forall i :: 0 <= i < |d| && d[i].key != e.key ==> d[i] in Touched(d, e)
  {
    WithoutMembers(d, e.key);
    forall i | 0 <= i < |d| && d[i].key != e.key ensures d[i] in Touched(d, e) {
      assert d[i] in Without(d, e.key);
    }
  }

  lemma HeadIsDropped<K, V>(d: seq<Entry<K, V>>, e: Entry<K, V>)
    requires DistinctKeys(Touched(d, e)) && |Touched(d, e)| > 1
    ensures var touched := Touched(d, e);
            touched[0] in d && touched[0].key != e.key && touched[0] !in touched[1..]
    ensures forall i :: 0 <= i < |d| && d[i].key != e.key && d[i] !in Touched(d, e)[1..] ==> d[i] == Touched(d, e)[0]
  {
    var touched := Touched(d, e);
    NothingIsDropped(d, e);
    WithoutMembers(d, e.key);
    assert touched[0] in Without(d, e.key);
    assert touched == [touched[0]] + touched[1..];
  }

  lemma NextRun<K, V>(maxsize: int, ttl: real, ops: seq<Op<K, V>>, op: Op<K, V>)
    ensures Run(maxsize, ttl, ops + [op]) == Step(maxsize, ttl, Run(maxsize, ttl, ops), op).0
  {
    assert (ops + [op])[..|ops|] == ops;
  }

  lemma TwoEntries(a: Entry<char, int>, b: Entry<char, int>, k: char)
    requires a.key != b.key && k != a.key && k != b.key
    ensures Without([a], b.key) == [a]
    ensures Without([a, b], a.key) == [b] && Find([a, b], a.key) == Some(a)
    ensures Without([a, b], k) == [a, b]
  {
    assert [a][1..] == [] && [a, b][1..] == [b] && [b][1..] == [];
    assert Without([b], a.key) == [b] && Without([b], k) == [b];
    assert [a] + [b] == [a, b];
  }

  lemma AfterTwoSets() returns (ops: seq<Op<char, int>>)
    ensures ops == [Op.Set('a', 1, 0.0), Op.Set('b', 2, 5.0)]
    ensures Run(2, 10.0, ops) == [Entry('a', 1, 10.0), Entry('b', 2, 15.0)]
  {
    var a, b := Entry('a', 1, 10.0), Entry('b', 2, 15.0);
    TwoEntries(a, b, 'c');
    NextRun<char, int>(2, 10.0, [], Op.Set('a', 1, 0.0));
    assert [] + [Op.Set('a', 1, 0.0)] == [Op.Set('a', 1, 0.0)] && [] + [a] == [a];
    NextRun<char, int>(2, 10.0, [Op.Set('a', 1, 0.0)], Op.Set('b', 2, 5.0));
    assert [Op.Set('a', 1, 0.0)] + [Op.Set('b', 2, 5.0)] == [Op.Set('a', 1, 0.0), Op.Set('b', 2, 5.0)];
    assert [a] + [b] == [a, b];
    ops := [Op.Set('a', 1, 0.0), Op.Set('b', 2, 5.0)];
  }

  /** Four calls on a cache of two: b, readable for four more seconds, makes room while the expired a stays. */
  lemma ExpiredOutlivesReadable() returns (ops: seq<Op<char, int>>)
    ensures ops == [Op.Set('a', 1, 0.0), Op.Set('b', 2, 5.0), Op.Get('a', 6.0)]
    ensures Run(2, 10.0, ops) == [Entry('b', 2, 15.0), Entry('a', 1, 10.0)]
    ensures Run(2, 10.0, ops + [Op.Set('c', 3, 11.0)]) == [Entry('a', 1, 10.0), Entry('c', 3, 21.0)]
    ensures EvictsReadable(2, 10.0, Run(2, 10.0, ops), 'c', 3, 11.0)
  {
    var a, b := Entry('a', 1, 10.0), Entry('b', 2, 15.0);
    var sets := AfterTwoSets();
    NextRun(2, 10.0, sets, Op.Get('a', 6.0));
    TwoEntries(a, b, 'c');
    assert [b] + [a] == [b, a];
    ops := [Op.Set('a', 1, 0.0), Op.Set('b', 2, 5.0), Op.Get('a', 6.0)];
    assert ops == sets + [Op.Get('a', 6.0)];
    LastSetEvicts(a, b, ops);
  }

  lemma LastSetEvicts(a: Entry<char, int>, b: Entry<char, int>, ops: seq<Op<char, int>>)
    requires a == Entry('a', 1, 10.0) && b == Entry('b', 2, 15.0) && Run(2, 10.0, ops) == [b, a]
    ensures Run(2, 10.0, ops + [Op.Set('c', 3, 11.0)]) == [a, Entry('c', 3, 21.0)]
    ensures EvictsReadable(2, 10.0, [b, a], 'c', 3, 11.0)
  {
    var after := [a, Entry('c', 3, 21.0)];
    TwoEntries(b, a, 'c');
    NextRun(2, 10.0, ops, Op.Set('c', 3, 11.0));
    assert ([b, a] + [Entry('c', 3, 21.0)])[1..] == after;
    assert 11.0 > after[0].expires && 11.0 <= [b, a][0].expires && [b, a][0] !in after;
  }
}
