/**
 Snippet generation: the leftmost window of words with the most query terms.
 The words come split, and which of them are query terms is an arbitrary test.
 */
module Snippets {
  import opened Common

  const ELLIPSIS := "\U{2026}"

  function Window(tokens: seq<string>, start: nat, window: nat): seq<string>
    requires start <= |tokens|
  {
    if start + window <= |tokens| then tokens[start..start + window] else tokens[start..]
  }

  function Hits(tokens: seq<string>, inQuery: string -> bool): nat {
    if tokens == [] then 0
    else Hits(tokens[..|tokens| - 1], inQuery) + if inQuery(tokens[|tokens| - 1]) then 1 else 0
  }

  method CountHits(chunk: seq<string>, inQuery: string -> bool) returns (hits: nat)
    ensures hits == Hits(chunk, inQuery)
  {
    hits := 0;
    var i := 0;
    while i < |chunk|
      invariant 0 <= i <= |chunk| && hits == Hits(chunk[..i], inQuery)
    {
      assert chunk[..i + 1][..i] == chunk[..i];
      if inQuery(chunk[i]) {
        hits := hits + 1;
      }
      i := i + 1;
    }
    assert chunk[..i] == chunk;
  }

  function HitsAt(tokens: seq<string>, inQuery: string -> bool, window: nat, j: nat): nat {
    if j <= |tokens| then Hits(Window(tokens, j, window), inQuery) else 0
  }

  /** No window has more hits than the one at `best`, and every earlier one has fewer. */
  ghost predicate LeftmostBest(tokens: seq<string>, inQuery: string -> bool, window: nat, best: nat) {
    && best <= |tokens|
    && (forall j :: 0 <= j < |tokens| ==> HitsAt(tokens, inQuery, window, j) <= HitsAt(tokens, inQuery, window, best))
    && (forall j :: 0 <= j < best ==> HitsAt(tokens, inQuery, window, j) < HitsAt(tokens, inQuery, window, best))
  }

  ghost predicate AreCounts(tokens: seq<string>, inQuery: string -> bool, window: nat, counts: seq<nat>) {
    forall j :: 0 <= j < |counts| ==> counts[j] == HitsAt(tokens, inQuery, window, j)
  }

  lemma AppendCount(tokens: seq<string>, inQuery: string -> bool, window: nat, counts: seq<nat>, hits: nat)
    requires AreCounts(tokens, inQuery, window, counts) && |counts| < |tokens|
    requires hits == Hits(Window(tokens, |counts|, window), inQuery)
    ensures AreCounts(tokens, inQuery, window, counts + [hits])
  {
    var more := counts + [hits];
    forall j | 0 <= j < |more| ensures more[j] == HitsAt(tokens, inQuery, window, j) {
    }
  }

  method BestStart(tokens: seq<string>, inQuery: string -> bool, window: nat) returns (best: nat)
    ensures LeftmostBest(tokens, inQuery, window, best)
  {
    best := 0;
    var bestHits := 0;
    ghost var counts: seq<nat> := [];
    var i := 0;
    while i < |tokens|
      invariant 0 <= best <= i <= |tokens| && |counts| == i
      invariant AreCounts(tokens, inQuery, window, counts)
      invariant bestHits == if best < i then counts[best] else 0
      invariant bestHits == 0 ==> best == 0
      invariant forall j :: 0 <= j < i ==> counts[j] <= bestHits
      invariant forall j :: 0 <= j < best ==> counts[j] < bestHits
    {
      var hits := CountHits(Window(tokens, i, window), inQuery);
      AppendCount(tokens, inQuery, window, counts, hits);
      counts := counts + [hits];
      if hits > bestHits {
        bestHits := hits;
        best := i;
      }
      i := i + 1;
    }
  }

  /** The window's words between ellipses where text was left out, cut to the maximal length. */
  method GenerateSnippet(tokens: seq<string>, inQuery: string -> bool, window: nat, maxLength: nat)
    returns (snippet: string, ghost best: nat)
    ensures LeftmostBest(tokens, inQuery, window, best)
    ensures |snippet| <= maxLength
    ensures var full := (if best > 0 then ELLIPSIS + " " else "") + Join(Window(tokens, best, window))
                        + (if best + window < |tokens| then " " + ELLIPSIS else "");
            snippet <= full && (|snippet| < maxLength ==> snippet == full)
  {
    var start := BestStart(tokens, inQuery, window);
    best := start;
    snippet := Join(Window(tokens, start, window));
    if start > 0 {
      snippet := ELLIPSIS + " " + snippet;
    }
    if start + window < |tokens| {
      snippet := snippet + " " + ELLIPSIS;
    }
    if |snippet| > maxLength {
      snippet := snippet[..maxLength];
    }
  }

  // ---- What windows, hits and joined words are ----

  /** A window holds the words from its start on, as many as it is long or as there are. */
  lemma WindowHolds(tokens: seq<string>, start: nat, window: nat, i: nat)
    requires start <= |tokens|
    ensures i < |Window(tokens, start, window)| <==> i < window && start + i < |tokens|
    ensures i < |Window(tokens, start, window)| ==> Window(tokens, start, window)[i] == tokens[start + i]
  {
  }

  ghost function Matches(tokens: seq<string>, inQuery: string -> bool): set<nat> {
    set i: nat | i < |tokens| && inQuery(tokens[i])
  }

  /** The hits are the places at which a query term stands. */
  lemma {:induction false} HitsCountMatches(tokens: seq<string>, inQuery: string -> bool)
    ensures Hits(tokens, inQuery) == |Matches(tokens, inQuery)|
  {
    if tokens != [] {
      var m := |tokens| - 1;
      var before := Matches(tokens[..m], inQuery);
      HitsCountMatches(tokens[..m], inQuery);
      assert Matches(tokens, inQuery) == before + if inQuery(tokens[m]) then {m} else {};
    } else {
      assert Matches(tokens, inQuery) == {};
    }
  }
}
