/**
 Which sentences a chunk holds. Chunks are filled greedily: one is closed only
 when the next sentence does not fit, and takes a second sentence only if it fits.
 */
module ChunkCuts {
  import opened ChunkedText
  import opened Common
  import opened TextChunker

  /** What a chunk begins with: nothing, or the overlap kept from the chunk before. */
  function Lead(chunks: seq<string>, i: nat, l: Limits, isSpace: char -> bool): string
    requires i <= |chunks|
  {
    if i == 0 then "" else Strip(LastChars(chunks[i - 1], l.overlap), isSpace) + " "
  }

  /** The chunk holds the sentences from a up to b, and neither fewer nor more than fit. */
  ghost predicate Holds(sents: seq<string>, a: nat, b: nat, lead: string, chunk: string, l: Limits) {
    && a < b <= |sents|
    && chunk == lead + Join(sents[a..b])
    && (b - a > 1 ==> |chunk| <= l.maxChars)
    && (b < |sents| ==> |chunk| + 1 + |sents[b]| > l.maxChars)
  }

  ghost predicate HoldsAt(sents: seq<string>, chunks: seq<string>, cuts: seq<nat>, i: nat, l: Limits,
                          isSpace: char -> bool)
    requires i < |chunks| && |cuts| == |chunks| + 1
  {
    Holds(sents, cuts[i], cuts[i + 1], Lead(chunks, i, l, isSpace), chunks[i], l)
  }

  /** The cuts divide the sentences among the chunks: none is left over, shared or out of order. */
  ghost predicate AreCuts(sents: seq<string>, chunks: seq<string>, cuts: seq<nat>, l: Limits, isSpace: char -> bool) {
    && |cuts| == |chunks| + 1 && cuts[0] == 0 && cuts[|chunks|] == |sents|
    && forall i :: 0 <= i < |chunks| ==> HoldsAt(sents, chunks, cuts, i, l, isSpace)
  }

  lemma FirstCut(sent: string, l: Limits, isSpace: char -> bool)
    ensures AreCuts([sent], [sent], [0, 1], l, isSpace)
  {
    assert [sent][0..1] == [sent] && Join([sent]) == sent && "" + sent == sent;
    assert HoldsAt([sent], [sent], [0, 1], 0, l, isSpace);
  }

  /** A closed chunk stays as it is, whatever comes behind the sentence that did not fit. */
  lemma HoldsStays(sents: seq<string>, sent: string, a: nat, b: nat, lead: string, chunk: string, l: Limits)
    requires Holds(sents, a, b, lead, chunk, l)
    requires b < |sents| || |chunk| + 1 + |sent| > l.maxChars
    ensures Holds(sents + [sent], a, b, lead, chunk, l)
  {
    assert (sents + [sent])[a..b] == sents[a..b];
  }

  lemma HoldsOneMore(sents: seq<string>, sent: string, a: nat, lead: string, chunk: string, l: Limits)
    requires Holds(sents, a, |sents|, lead, chunk, l) && |chunk| + |sent| + 1 <= l.maxChars
    ensures Holds(sents + [sent], a, |sents| + 1, lead, chunk + " " + sent, l)
  {
    var all := sents + [sent];
    assert all[a..|all|] == sents[a..|sents|] + [sent];
    JoinConcat(sents[a..|sents|], [sent]);
    assert Join([sent]) == sent;
    assert lead + Join(sents[a..|sents|]) + " " + sent == lead + (Join(sents[a..|sents|]) + " " + sent);
  }

  lemma HoldsOne(sents: seq<string>, sent: string, lead: string, l: Limits)
    ensures Holds(sents + [sent], |sents|, |sents| + 1, lead, lead + sent, l)
  {
    assert (sents + [sent])[|sents|..|sents| + 1] == [sent] && Join([sent]) == sent;
  }

  lemma CutGrows(sents: seq<string>, sent: string, chunks: seq<string>, last: string, cuts: seq<nat>, l: Limits,
                 isSpace: char -> bool)
    requires AreCuts(sents, chunks + [last], cuts, l, isSpace) && |last| + |sent| + 1 <= l.maxChars
    ensures AreCuts(sents + [sent], chunks + [last + " " + sent], cuts[..|chunks| + 1] + [|sents| + 1], l, isSpace)
  {
    var m, was, all := |chunks|, chunks + [last], chunks + [last + " " + sent];
    var after := cuts[..m + 1] + [|sents| + 1];
    forall i | 0 <= i < |all| ensures HoldsAt(sents + [sent], all, after, i, l, isSpace) {
      assert HoldsAt(sents, was, cuts, i, l, isSpace);
      assert Lead(all, i, l, isSpace) == Lead(was, i, l, isSpace);
      if i < m {
        assert HoldsAt(sents, was, cuts, m, l, isSpace);
        CutsRise(sents, was, cuts, i + 1, l, isSpace);
        HoldsStays(sents, sent, cuts[i], cuts[i + 1], Lead(was, i, l, isSpace), chunks[i], l);
      } else {
        HoldsOneMore(sents, sent, cuts[m], Lead(was, m, l, isSpace), last, l);
      }
    }
  }

  lemma {:induction false} CutsRise(sents: seq<string>, chunks: seq<string>, cuts: seq<nat>, i: nat, l: Limits,
                                    isSpace: char -> bool)
    requires AreCuts(sents, chunks, cuts, l, isSpace) && i < |chunks|
    ensures cuts[i] < |sents|
  {
    assert HoldsAt(sents, chunks, cuts, i, l, isSpace);
  }

  lemma CutCloses(sents: seq<string>, sent: string, chunks: seq<string>, last: string, cuts: seq<nat>, l: Limits,
                  isSpace: char -> bool)
    requires AreCuts(sents, chunks + [last], cuts, l, isSpace) && |last| + |sent| + 1 > l.maxChars
    ensures var next := Strip(LastChars(last, l.overlap), isSpace) + " " + sent;
            AreCuts(sents + [sent], chunks + [last] + [next], cuts + [|sents| + 1], l, isSpace)
  {
    var m, was := |chunks|, chunks + [last];
    var lead := Strip(LastChars(last, l.overlap), isSpace) + " ";
    var all, after := was + [lead + sent], cuts + [|sents| + 1];
    forall i | 0 <= i < |all| ensures HoldsAt(sents + [sent], all, after, i, l, isSpace) {
      if i <= m {
        assert HoldsAt(sents, was, cuts, i, l, isSpace);
        assert Lead(all, i, l, isSpace) == Lead(was, i, l, isSpace);
        if i < m {
          CutsRise(sents, was, cuts, i + 1, l, isSpace);
        }
        HoldsStays(sents, sent, cuts[i], cuts[i + 1], Lead(was, i, l, isSpace), was[i], l);
      } else {
        assert Lead(all, i, l, isSpace) == lead;
        HoldsOne(sents, sent, lead, l);
      }
    }
  }

  /** The chunks behind the front pieces, with the buffer as the last of them. */
  function Later(front: seq<string>, b: Buffers): seq<string>
    requires |front| <= |b.chunks|
  {
    b.chunks[|front|..] + if b.current != "" then [b.current] else []
  }

  ghost predicate HaveCuts(sents: seq<string>, chunks: seq<string>, l: Limits, isSpace: char -> bool) {
    exists cuts :: AreCuts(sents, chunks, cuts, l, isSpace)
  }

  ghost predicate IsDivided(front: seq<string>, b: Buffers, rest: seq<string>, l: Limits, isSpace: char -> bool) {
    && front <= b.chunks && (b.current == "" ==> b.chunks == front) && (b.current == "" <==> rest == [])
    && HaveCuts(rest, Later(front, b), l, isSpace)
  }

  lemma DivideFirst(b: Buffers, sent: string, l: Limits, isSpace: char -> bool)
    requires isSpace(' ') && IsSentence(sent, isSpace) && b.current == ""
    ensures var n := AddSentence(b, sent, l, isSpace);
            if |sent| >= l.maxChars then IsDivided(b.chunks + Split(sent, l), n, [], l, isSpace)
            else IsDivided(b.chunks, n, [sent], l, isSpace)
  {
    BufferAfter(b, sent, l, isSpace);
    var n := AddSentence(b, sent, l, isSpace);
    if |sent| < l.maxChars {
      assert Later(b.chunks, n) == [sent];
      FirstCut(sent, l, isSpace);
    } else {
      assert Later(b.chunks + Split(sent, l), n) == [];
      assert AreCuts([], [], [0], l, isSpace);
    }
  }

  lemma DivideNext(front: seq<string>, b: Buffers, rest: seq<string>, sent: string, l: Limits, isSpace: char -> bool)
    requires isSpace(' ') && Trimmed(b.current, isSpace) && IsSentence(sent, isSpace) && b.current != ""
    requires IsDivided(front, b, rest, l, isSpace)
    ensures IsDivided(front, AddSentence(b, sent, l, isSpace), rest + [sent], l, isSpace)
  {
    BufferAfter(b, sent, l, isSpace);
    var cuts :| AreCuts(rest, Later(front, b), cuts, l, isSpace);
    var n, closed := AddSentence(b, sent, l, isSpace), b.chunks[|front|..];
    if |b.current| + |sent| + 1 <= l.maxChars {
      CutGrows(rest, sent, closed, b.current, cuts, l, isSpace);
      assert Later(front, n) == closed + [b.current + " " + sent];
    } else {
      CutCloses(rest, sent, closed, b.current, cuts, l, isSpace);
      assert Later(front, n) == closed + [b.current] + [Strip(LastChars(b.current, l.overlap), isSpace) + " " + sent];
    }
  }

  lemma DivideStep(sents: seq<string>, b: Buffers, sent: string, l: Limits, isSpace: char -> bool)
    requires isSpace(' ') && Trimmed(b.current, isSpace) && IsSentence(sent, isSpace)
    requires b.current == "" <==> AllLong(sents, l)
    requires IsDivided(FrontPieces(sents, l), b, AfterFront(sents, l), l, isSpace)
    ensures IsDivided(FrontPieces(sents + [sent], l), AddSentence(b, sent, l, isSpace), AfterFront(sents + [sent], l),
                      l, isSpace)
  {
    FrontPiecesGrow(sents, sent, l);
    AfterFrontGrows(sents, sent, l);
    AllLongAppend(sents, sent, l);
    if b.current == "" {
      DivideFirst(b, sent, l, isSpace);
      assert b.chunks == FrontPieces(sents, l);
      assert AfterFront(sents + [sent], l) == if |sent| >= l.maxChars then [] else [sent];
    } else {
      DivideNext(FrontPieces(sents, l), b, AfterFront(sents, l), sent, l, isSpace);
    }
  }

  lemma NothingIsDivided(l: Limits, isSpace: char -> bool)
    ensures IsDivided([], Buffers([], ""), [], l, isSpace)
  {
    assert AreCuts([], [], [0], l, isSpace);
    assert Later([], Buffers([], "")) == [];
  }

  lemma {:induction false} BuffersAreDivided(sents: seq<string>, l: Limits, isSpace: char -> bool)
    requires Sentencelike(sents, isSpace)
    ensures IsDivided(FrontPieces(sents, l), AddAll(sents, l, isSpace), AfterFront(sents, l), l, isSpace)
  {
    if sents == [] {
      NothingIsDivided(l, isSpace);
    } else {
      var m := |sents| - 1;
      assert sents[..m] + [sents[m]] == sents;
      BuffersAreDivided(sents[..m], l, isSpace);
      BufferIsTrimmed(sents[..m], l, isSpace);
      EmptyBufferIff(sents[..m], l, isSpace);
      DivideStep(sents[..m], AddAll(sents[..m], l, isSpace), sents[m], l, isSpace);
    }
  }

  /**
   The chunks behind the front pieces divide the sentences behind the long ones
   among them, in order, each with the overlap before its own sentences. A chunk
   is closed exactly when the next sentence would exceed the limit, and only a
   chunk with one sentence of its own is ever longer than the limit.
   */
  lemma ChunksAreGreedy(sents: seq<string>, l: Limits, isSpace: char -> bool)
    requires Sentencelike(sents, isSpace)
    ensures FrontPieces(sents, l) <= ChunksOf(sents, l, isSpace)
    ensures HaveCuts(AfterFront(sents, l), ChunksOf(sents, l, isSpace)[|FrontPieces(sents, l)|..], l, isSpace)
  {
    var b := AddAll(sents, l, isSpace);
    BuffersAreDivided(sents, l, isSpace);
    BufferIsTrimmed(sents, l, isSpace);
    StripTrims(b.current, isSpace);
    assert ChunksOf(sents, l, isSpace)[|FrontPieces(sents, l)|..] == Later(FrontPieces(sents, l), b);
  }
}
