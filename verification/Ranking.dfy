/**
 Stable descending sort (a list sorted by key with reverse=True), the list
 prefix xs[:k], and selection by a test.
 */
module Ranking {

  ghost predicate Descending<T>(xs: seq<T>, key: T -> real) {
    forall i, j :: 0 <= i < j < |xs| ==> key(xs[i]) >= key(xs[j])
  }

  function Insert<T>(x: T, ys: seq<T>, key: T -> real): seq<T> {
    if ys == [] || key(ys[0]) <= key(x) then [x] + ys else [ys[0]] + Insert(x, ys[1..], key)
  }

  function SortDescending<T>(xs: seq<T>, key: T -> real): seq<T> {
    if xs == [] then [] else Insert(xs[0], SortDescending(xs[1..], key), key)
  }

  /** The elements with key v, in their order. */
  function Tied<T>(xs: seq<T>, key: T -> real, v: real): seq<T> {
    if xs == [] then []
    else (if key(xs[0]) == v then [xs[0]] else []) + Tied(xs[1..], key, v)
  }

  /** A stable rearrangement: each group of equal keys keeps its members and their order. */
  ghost predicate SameGroups<T>(xs: seq<T>, ys: seq<T>, key: T -> real) {
    forall v :: Tied(xs, key, v) == Tied(ys, key, v)
  }

  /** xs[:k], where a negative k counts from the end. */
  function Prefix<T>(xs: seq<T>, k: int): (p: seq<T>)
    ensures p <= xs
  {
    if k < 0 then (if -k <= |xs| then xs[..|xs| + k] else [])
    else if k <= |xs| then xs[..k]
    else xs
  }

  function Select<T>(xs: seq<T>, test: T -> bool): seq<T> {
    if xs == [] then []
    else (if test(xs[0]) then [xs[0]] else []) + Select(xs[1..], test)
  }

  lemma {:induction false} InsertKeepsMembers<T>(x: T, ys: seq<T>, key: T -> real)
    ensures multiset(Insert(x, ys, key)) == multiset{x} + multiset(ys)
  {
    if ys != [] && key(ys[0]) > key(x) {
      InsertKeepsMembers(x, ys[1..], key);
      assert ys == [ys[0]] + ys[1..];
    }
  }

  lemma {:induction false} InsertKeepsOrder<T>(x: T, ys: seq<T>, key: T -> real)
    requires Descending(ys, key)
    ensures Descending(Insert(x, ys, key), key)
  {
    if ys != [] && key(ys[0]) > key(x) {
      var rest := Insert(x, ys[1..], key);
      InsertKeepsOrder(x, ys[1..], key);
      InsertKeepsMembers(x, ys[1..], key);
      forall k | 0 <= k < |rest| ensures key(ys[0]) >= key(rest[k]) {
        assert rest[k] in multiset(rest);
        assert rest[k] == x || rest[k] in ys[1..];
      }
    }
  }

  lemma TiedCons<T>(x: T, ys: seq<T>, key: T -> real, v: real)
    ensures Tied([x] + ys, key, v) == (if key(x) == v then [x] else []) + Tied(ys, key, v)
  {
    assert ([x] + ys)[1..] == ys;
  }

  lemma {:induction false} InsertKeepsGroups<T>(x: T, ys: seq<T>, key: T -> real, v: real)
    ensures Tied(Insert(x, ys, key), key, v) == (if key(x) == v then [x] else []) + Tied(ys, key, v)
  {
    if ys == [] || key(ys[0]) <= key(x) {
      TiedCons(x, ys, key, v);
    } else {
      InsertKeepsGroups(x, ys[1..], key, v);
      TiedCons(ys[0], Insert(x, ys[1..], key), key, v);
    }
  }

  lemma {:induction false} SortSorts<T>(xs: seq<T>, key: T -> real)
    ensures Descending(SortDescending(xs, key), key)
    ensures multiset(SortDescending(xs, key)) == multiset(xs)
    ensures |SortDescending(xs, key)| == |xs|
    ensures SameGroups(xs, SortDescending(xs, key), key)
  {
    if xs != [] {
      var rest := SortDescending(xs[1..], key);
      SortSorts(xs[1..], key);
      InsertKeepsOrder(xs[0], rest, key);
      InsertKeepsMembers(xs[0], rest, key);
      assert xs == [xs[0]] + xs[1..];
      forall v ensures Tied(xs, key, v) == Tied(SortDescending(xs, key), key, v) {
        InsertKeepsGroups(xs[0], rest, key, v);
      }
      assert |multiset(SortDescending(xs, key))| == |multiset(xs)|;
    }
  }

  lemma {:induction false} TiedMembers<T>(xs: seq<T>, key: T -> real, v: real)
    ensures forall t :: t in Tied(xs, key, v) ==> t in xs && key(t) == v
    ensures forall t :: t in xs && key(t) == v ==> t in Tied(xs, key, v)
  {
    if xs != [] {
      TiedMembers(xs[1..], key, v);
    }
  }

  lemma {:induction false} HeadOfGroup<T>(xs: seq<T>, ys: seq<T>, key: T -> real)
    requires xs != [] && Descending(xs, key) && SameGroups(xs, ys, key)
    ensures ys != [] && Tied(xs, key, key(xs[0]))[0] == xs[0]
    ensures exists y :: y in ys && key(y) == key(xs[0])
  {
    var v := key(xs[0]);
    assert Tied(ys, key, v) == Tied(xs, key, v);
    TiedMembers(ys, key, v);
    assert xs[0] in Tied(ys, key, v);
  }

  /** Taking away the common head keeps the groups the same. */
  lemma TailsHaveSameGroups<T>(xs: seq<T>, ys: seq<T>, key: T -> real)
    requires xs != [] && ys != [] && key(xs[0]) == key(ys[0]) && SameGroups(xs, ys, key)
    ensures SameGroups(xs[1..], ys[1..], key)
  {
    forall v ensures Tied(xs[1..], key, v) == Tied(ys[1..], key, v) {
      assert Tied(xs, key, v) == Tied(ys, key, v);
      TailOfGroup(xs, key, v);
      TailOfGroup(ys, key, v);
    }
  }

  lemma TailOfGroup<T>(xs: seq<T>, key: T -> real, v: real)
    requires xs != []
    ensures Tied(xs[1..], key, v) == if key(xs[0]) == v then Tied(xs, key, v)[1..] else Tied(xs, key, v)
  {
  }

  /** A descending stable rearrangement is unique, so SortDescending is the only stable sort there is. */
  lemma {:induction false} StableSortIsUnique<T>(xs: seq<T>, ys: seq<T>, key: T -> real)
    requires Descending(xs, key) && Descending(ys, key) && SameGroups(xs, ys, key)
    ensures xs == ys
  {
    if xs == [] {
      if ys != [] {
        HeadOfGroup(ys, xs, key);
      }
    } else {
      SameHead(xs, ys, key);
      TailsHaveSameGroups(xs, ys, key);
      StableSortIsUnique(xs[1..], ys[1..], key);
      assert xs == [xs[0]] + xs[1..] && ys == [ys[0]] + ys[1..];
    }
  }

  lemma SameHead<T>(xs: seq<T>, ys: seq<T>, key: T -> real)
    requires xs != [] && Descending(xs, key) && Descending(ys, key) && SameGroups(xs, ys, key)
    ensures ys != [] && key(xs[0]) == key(ys[0]) && xs[0] == ys[0]
  {
    HeadOfGroup(xs, ys, key);
    HeadOfGroup(ys, xs, key);
    assert Tied(xs, key, key(xs[0])) == Tied(ys, key, key(xs[0]));
  }

  lemma {:induction false} SelectConcat<T>(xs: seq<T>, ys: seq<T>, test: T -> bool)
    ensures Select(xs + ys, test) == Select(xs, test) + Select(ys, test)
  {
    if xs == [] {
      assert xs + ys == ys;
    } else {
      var head := if test(xs[0]) then [xs[0]] else [];
      SelectConcat(xs[1..], ys, test);
      assert (xs + ys)[0] == xs[0] && (xs + ys)[1..] == xs[1..] + ys;
      assert head + (Select(xs[1..], test) + Select(ys, test)) == (head + Select(xs[1..], test)) + Select(ys, test);
    }
  }

  lemma {:induction false} SelectMembers<T>(xs: seq<T>, test: T -> bool)
    ensures forall x :: x in Select(xs, test) ==> x in xs && test(x)
    ensures forall x :: x in xs && test(x) ==> x in Select(xs, test)
    ensures |Select(xs, test)| <= |xs|
  {
    if xs != [] {
      SelectMembers(xs[1..], test);
    }
  }
}
