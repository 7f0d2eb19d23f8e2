/**
 Where cached responses come from, along a run. Events are numbered; `searches` has
 those that are searches, `isFresh` says which responses would be a fresh answer to
 an event, and `clears` which events empty the cache.
 */
module CacheTrace {
  import opened Common
  import opened TtlCache

  /** A search as the cache sees it: its key and the two clock readings. */
  datatype Read = Read(key: string, arrived: real, answered: real)

  datatype Setting<!R> = Setting(
    ttl: real,
    searches: seq<Option<Read>>,
    isFresh: (nat, R) -> bool,
    clears: nat -> bool)

  /** No event after j and before i empties the cache. */
  ghost predicate NothingClears(clears: nat -> bool, j: nat, i: nat) {
    forall m :: j < m < i ==> !clears(m)
  }

  /** Event j is a search with this key to which this is a fresh answer, and nothing emptied the cache up to event i. */
  ghost predicate Origin<R>(s: Setting<R>, j: nat, i: nat, key: string, response: R) {
    && j < |s.searches| && s.searches[j].Some? && s.searches[j].value.key == key
    && s.isFresh(j, response) && NothingClears(s.clears, j, i)
  }

  ghost predicate Stored<R>(s: Setting<R>, answers: seq<Option<R>>, j: nat, i: nat, e: Entry<string, R>) {
    && j < |answers| && answers[j] == Some(e.value)
    && Origin(s, j, i, e.key, e.value) && e.expires == s.searches[j].value.answered + s.ttl
  }

  ghost predicate IsStored<R>(s: Setting<R>, answers: seq<Option<R>>, i: nat, e: Entry<string, R>) {
    exists j: nat :: Stored(s, answers, j, i, e)
  }

  /** The response to event k has its origin in event k itself, or in an earlier one at most ttl before. */
  ghost predicate IsSource<R>(s: Setting<R>, j: nat, k: nat, response: R) {
    && j <= k < |s.searches| && s.searches[k].Some? && Origin(s, j, k, s.searches[k].value.key, response)
    && (j < k ==> s.searches[k].value.arrived <= s.searches[j].value.answered + s.ttl)
  }

  /** Every answer so far has a source that was answered alike, and so has every cached entry. */
  ghost predicate Traced<R>(s: Setting<R>, answers: seq<Option<R>>, sources: seq<nat>, entries: seq<Entry<string, R>>) {
    AllSourced(s, answers, sources) && AllStored(s, answers, |answers|, entries)
  }

  ghost predicate AllStored<R>(s: Setting<R>, answers: seq<Option<R>>, i: nat, entries: seq<Entry<string, R>>) {
    forall e :: e in entries ==> IsStored(s, answers, i, e)
  }

  ghost predicate AllSourced<R>(s: Setting<R>, answers: seq<Option<R>>, sources: seq<nat>) {
    |sources| == |answers| && forall k :: 0 <= k < |answers| && answers[k].Some? ==> Explains(s, answers, sources[k], k)
  }

  ghost predicate Explains<R>(s: Setting<R>, answers: seq<Option<R>>, j: nat, k: nat) {
    j <= k < |answers| && answers[k].Some? && answers[j] == answers[k] && IsSource(s, j, k, answers[k].value)
  }

  /** What event i does to the cache and what it answers. */
  ghost predicate Effect<R>(s: Setting<R>, i: nat, answer: Option<R>, cached: bool,
                            before: seq<Entry<string, R>>, after: seq<Entry<string, R>>)
    requires i < |s.searches|
  {
    && (answer.Some? <==> s.searches[i].Some?)
    && if answer.None? then after == if s.clears(i) then [] else before
       else var read := s.searches[i].value;
            && !s.clears(i)
            && (forall e :: e in after ==>
                  e in before || (!cached && e == Entry(read.key, answer.value, read.answered + s.ttl)))
            && if cached then exists e :: e in before && Matches(e, read, answer.value) else s.isFresh(i, answer.value)
  }

  ghost predicate Matches<R>(e: Entry<string, R>, read: Read, response: R) {
    e.key == read.key && e.value == response && read.arrived <= e.expires
  }

  lemma StaysStored<R>(s: Setting<R>, answers: seq<Option<R>>, answer: Option<R>, j: nat, e: Entry<string, R>)
    requires Stored(s, answers, j, |answers|, e) && !s.clears(|answers|)
    ensures Stored(s, answers + [answer], j, |answers| + 1, e)
  {
  }

  lemma SourceOfAnswer<R>(s: Setting<R>, answers: seq<Option<R>>, answer: Option<R>, cached: bool,
                          before: seq<Entry<string, R>>, after: seq<Entry<string, R>>) returns (source: nat)
    requires |answers| < |s.searches| && AllStored(s, answers, |answers|, before)
    requires answer.Some? && Effect(s, |answers|, answer, cached, before, after)
    ensures Explains(s, answers + [answer], source, |answers|)
  {
    var i := |answers|;
    if cached {
      var e :| e in before && Matches(e, s.searches[i].value, answer.value);
      assert IsStored(s, answers, i, e);
      source :| Stored(s, answers, source, i, e);
      assert (answers + [answer])[source] == Some(e.value) == (answers + [answer])[i];
    } else {
      source := i;
    }
  }

  lemma EntriesStay<R>(s: Setting<R>, answers: seq<Option<R>>, answer: Option<R>, cached: bool,
                       before: seq<Entry<string, R>>, after: seq<Entry<string, R>>)
    requires |answers| < |s.searches| && AllStored(s, answers, |answers|, before)
    requires Effect(s, |answers|, answer, cached, before, after)
    ensures AllStored(s, answers + [answer], |answers| + 1, after)
  {
    forall e | e in after ensures IsStored(s, answers + [answer], |answers| + 1, e) {
      EntryStays(s, answers, answer, cached, before, after, e);
    }
  }

  lemma EntryStays<R>(s: Setting<R>, answers: seq<Option<R>>, answer: Option<R>, cached: bool,
                      before: seq<Entry<string, R>>, after: seq<Entry<string, R>>, e: Entry<string, R>)
    requires |answers| < |s.searches| && AllStored(s, answers, |answers|, before)
    requires Effect(s, |answers|, answer, cached, before, after) && e in after
    ensures IsStored(s, answers + [answer], |answers| + 1, e)
  {
    if e in before {
      assert IsStored(s, answers, |answers|, e);
      var j: nat :| Stored(s, answers, j, |answers|, e);
      StaysStored(s, answers, answer, j, e);
    } else {
      assert Stored(s, answers + [answer], |answers|, |answers| + 1, e);
    }
  }

  lemma SourcesStay<R>(s: Setting<R>, answers: seq<Option<R>>, sources: seq<nat>, answer: Option<R>, source: nat)
    requires AllSourced(s, answers, sources)
    requires answer.Some? ==> Explains(s, answers + [answer], source, |answers|)
    ensures AllSourced(s, answers + [answer], sources + [source])
  {
    var longer, more := answers + [answer], sources + [source];
    forall k | 0 <= k < |longer| && longer[k].Some? ensures Explains(s, longer, more[k], k) {
      if k < |answers| {
        assert Explains(s, answers, sources[k], k);
      }
    }
  }

  /** One more event leaves everything traced. */
  lemma TraceStep<R>(s: Setting<R>, answers: seq<Option<R>>, sources: seq<nat>, answer: Option<R>, cached: bool,
                     before: seq<Entry<string, R>>, after: seq<Entry<string, R>>) returns (source: nat)
    requires |answers| < |s.searches| && Traced(s, answers, sources, before)
    requires Effect(s, |answers|, answer, cached, before, after)
    ensures Traced(s, answers + [answer], sources + [source], after)
  {
    source := 0;
    if answer.Some? {
      source := SourceOfAnswer(s, answers, answer, cached, before, after);
    }
    SourcesStay(s, answers, sources, answer, source);
    EntriesStay(s, answers, answer, cached, before, after);
    assert |answers + [answer]| == |answers| + 1;
  }
}
