/**
 What the sentences of a text are, and that nothing of them changes in the
 chunks: without their overlaps the chunks spell the text again.
 */
module ChunkedText {
  import opened Common
  import opened TextChunker

  // ---- Stripping ----

  ghost predicate AllSpace(s: string, isSpace: char -> bool) {
    forall i :: 0 <= i < |s| ==> isSpace(s[i])
  }

  lemma {:induction false} TrimLeftDrops(a: string, s: string, isSpace: char -> bool)
    requires AllSpace(a, isSpace)
    ensures TrimLeft(a + s, isSpace) == TrimLeft(s, isSpace)
  {
    if a == [] {
      assert a + s == s;
    } else {
      assert (a + s)[1..] == a[1..] + s;
      TrimLeftDrops(a[1..], s, isSpace);
    }
  }

  lemma {:induction false} TrimRightDrops(s: string, b: string, isSpace: char -> bool)
    requires AllSpace(b, isSpace)
    ensures TrimRight(s + b, isSpace) == TrimRight(s, isSpace)
  {
    if b == [] {
      assert s + b == s;
    } else {
      var m := |b| - 1;
      assert (s + b)[..|s + b| - 1] == s + b[..m];
      TrimRightDrops(s, b[..m], isSpace);
    }
  }

  lemma {:induction false} TrimLeftLeaves(s: string, isSpace: char -> bool) returns (a: string)
    ensures s == a + TrimLeft(s, isSpace) && AllSpace(a, isSpace)
  {
    if s != [] && isSpace(s[0]) {
      a := TrimLeftLeaves(s[1..], isSpace);
      a := [s[0]] + a;
    } else {
      a := [];
    }
  }

  lemma {:induction false} TrimRightLeaves(s: string, isSpace: char -> bool) returns (b: string)
    ensures s == TrimRight(s, isSpace) + b && AllSpace(b, isSpace)
  {
    var m := |s| - 1;
    if s != [] && isSpace(s[m]) {
      b := TrimRightLeaves(s[..m], isSpace);
      assert s == s[..m] + [s[m]];
      b := b + [s[m]];
    } else {
      b := [];
    }
  }

  /** r with white space around it. */
  ghost predicate Surrounds(s: string, a: string, r: string, b: string, isSpace: char -> bool) {
    s == a + r + b && AllSpace(a, isSpace) && AllSpace(b, isSpace)
  }

  ghost predicate IsCore(s: string, r: string, isSpace: char -> bool) {
    Trimmed(r, isSpace) && exists a, b :: Surrounds(s, a, r, b, isSpace)
  }

  lemma CoreIsStripped(s: string, a: string, r: string, b: string, isSpace: char -> bool)
    requires Trimmed(r, isSpace) && Surrounds(s, a, r, b, isSpace)
    ensures Strip(s, isSpace) == r
  {
    assert a + r + b == a + (r + b);
    TrimLeftDrops(a, r + b, isSpace);
    if r == [] {
      TrimLeftDrops(b, [], isSpace);
      assert r + b == b && b + [] == b;
    } else {
      assert (r + b)[0] == r[0];
      TrimRightDrops(r, b, isSpace);
    }
  }

  lemma StripIsCore(s: string, isSpace: char -> bool)
    ensures IsCore(s, Strip(s, isSpace), isSpace)
  {
    StripTrims(s, isSpace);
    var a := TrimLeftLeaves(s, isSpace);
    var b := TrimRightLeaves(TrimLeft(s, isSpace), isSpace);
    assert s == a + Strip(s, isSpace) + b;
    assert Surrounds(s, a, Strip(s, isSpace), b, isSpace);
  }

  /** Stripping takes off the white space at both ends, all of it and nothing else. */
  lemma StripIff(s: string, r: string, isSpace: char -> bool)
    ensures r == Strip(s, isSpace) <==> IsCore(s, r, isSpace)
  {
    StripIsCore(s, isSpace);
    if IsCore(s, r, isSpace) {
      var a, b :| Surrounds(s, a, r, b, isSpace);
      CoreIsStripped(s, a, r, b, isSpace);
    }
  }

  lemma StrippedAwayIff(s: string, isSpace: char -> bool)
    ensures Strip(s, isSpace) == [] <==> AllSpace(s, isSpace)
  {
    StripIsCore(s, isSpace);
    var a, b :| Surrounds(s, a, Strip(s, isSpace), b, isSpace);
    if AllSpace(s, isSpace) {
      CoreIsStripped(s, s, [], [], isSpace);
    }
  }

  // ---- Sentences ----

  lemma {:induction false} SentencesConcat(parts: seq<string>, more: seq<string>, isSpace: char -> bool)
    ensures NonEmptyStripped(parts + more, isSpace)
                == NonEmptyStripped(parts, isSpace) + NonEmptyStripped(more, isSpace)
  {
    if more == [] {
      assert parts + more == parts;
    } else {
      var m := |more| - 1;
      assert (parts + more)[..|parts + more| - 1] == parts + more[..m];
      SentencesConcat(parts, more[..m], isSpace);
    }
  }

  /** A part gives itself, stripped, or nothing if it is white space; with SentencesConcat that fixes all sentences. */
  lemma SentenceOfPart(part: string, isSpace: char -> bool)
    ensures NonEmptyStripped([part], isSpace)
         == if AllSpace(part, isSpace) then [] else [Strip(part, isSpace)]
  {
    assert [part][..0] == [];
    StrippedAwayIff(part, isSpace);
  }

  /** The sentences are the parts that are not all white space, stripped. */
  lemma {:induction false} SentencesIff(parts: seq<string>, isSpace: char -> bool, s: string)
    ensures s in NonEmptyStripped(parts, isSpace)
       <==> exists k :: 0 <= k < |parts| && !AllSpace(parts[k], isSpace) && s == Strip(parts[k], isSpace)
  {
    if parts != [] {
      var m := |parts| - 1;
      SentencesIff(parts[..m], isSpace, s);
      SentencesConcat(parts[..m], [parts[m]], isSpace);
      SentenceOfPart(parts[m], isSpace);
      assert parts == parts[..m] + [parts[m]];
    }
  }

  // ---- The text again ----

  /** What a chunk has beyond the overlap it begins with. */
  function Beyond(before: string, chunk: string, l: Limits, isSpace: char -> bool): string {
    var kept := |Strip(LastChars(before, l.overlap), isSpace)| + 1;
    if kept <= |chunk| then chunk[kept..] else ""
  }

  /** The first chunk, and what each later one has beyond its overlap. */
  function Unchunk(chunks: seq<string>, l: Limits, isSpace: char -> bool): string {
    if chunks == [] then ""
    else if |chunks| == 1 then chunks[0]
    else
      var m := |chunks| - 1;
      Unchunk(chunks[..m], l, isSpace) + " " + Beyond(chunks[m - 1], chunks[m], l, isSpace)
  }

  /** The sentences after the long ones at the front. */
  function AfterFront(sents: seq<string>, l: Limits): seq<string> {
    if sents == [] || |sents[0]| < l.maxChars then sents else AfterFront(sents[1..], l)
  }

  lemma {:induction false} AfterFrontGrows(sents: seq<string>, sent: string, l: Limits)
    ensures AfterFront(sents + [sent], l)
         == if AllLong(sents + [sent], l) then [] else AfterFront(sents, l) + [sent]
    ensures AllLong(sents, l) ==> AfterFront(sents, l) == []
  {
    if sents == [] {
      assert (sents + [sent])[1..] == [] && sents + [sent] == [sent];
      assert AllLong([sent], l) <==> |[sent][0]| >= l.maxChars;
    } else {
      assert (sents + [sent])[1..] == sents[1..] + [sent];
      if |sents[0]| >= l.maxChars {
        AfterFrontGrows(sents[1..], sent, l);
        AllLongTail(sents, sent, l);
        assert AllLong(sents, l) ==> AllLong(sents[1..], l);
      } else {
        assert (sents + [sent])[0] == sents[0];
      }
    }
  }

  lemma BeyondGrows(before: string, current: string, sent: string, l: Limits, isSpace: char -> bool)
    requires Follows(before, current, l, isSpace)
    ensures Beyond(before, current + " " + sent, l, isSpace) == Beyond(before, current, l, isSpace) + " " + sent
  {
  }

  lemma UnchunkNext(chunks: seq<string>, next: string, l: Limits, isSpace: char -> bool)
    requires chunks != []
    ensures Unchunk(chunks + [next], l, isSpace)
         == Unchunk(chunks, l, isSpace) + " " + Beyond(chunks[|chunks| - 1], next, l, isSpace)
  {
    assert (chunks + [next])[..|chunks|] == chunks;
  }

  lemma AddLastWord(text: string, beyond: string, sent: string)
    ensures text + " " + (beyond + " " + sent) == (text + " " + beyond) + " " + sent
  {
  }

  /** A sentence that fits is added at the end. */
  lemma SpellFits(finished: seq<string>, current: string, sent: string, l: Limits, isSpace: char -> bool)
    requires finished != [] ==> Follows(finished[|finished| - 1], current, l, isSpace)
    ensures Unchunk(finished + [current + " " + sent], l, isSpace)
         == Unchunk(finished + [current], l, isSpace) + " " + sent
  {
    if finished == [] {
      assert finished + [current] == [current] && finished + [current + " " + sent] == [current + " " + sent];
    } else {
      var last := finished[|finished| - 1];
      UnchunkNext(finished, current, l, isSpace);
      UnchunkNext(finished, current + " " + sent, l, isSpace);
      BeyondGrows(last, current, sent, l, isSpace);
      AddLastWord(Unchunk(finished, l, isSpace), Beyond(last, current, l, isSpace), sent);
    }
  }

  /** One that does not fit is added too, behind the overlap. */
  lemma SpellCut(finished: seq<string>, current: string, sent: string, l: Limits, isSpace: char -> bool)
    ensures Unchunk(finished + [current] + [Strip(LastChars(current, l.overlap), isSpace) + " " + sent], l, isSpace)
         == Unchunk(finished + [current], l, isSpace) + " " + sent
  {
    var next := Strip(LastChars(current, l.overlap), isSpace) + " " + sent;
    UnchunkNext(finished + [current], next, l, isSpace);
    assert Beyond(current, next, l, isSpace) == sent;
  }

  ghost predicate Spells(front: seq<string>, b: Buffers, rest: seq<string>, l: Limits, isSpace: char -> bool) {
    && front <= b.chunks
    && (if rest == [] then b.current == "" && b.chunks == front
        else b.current != "" && Unchunk(b.chunks[|front|..] + [b.current], l, isSpace) == Join(rest))
  }

  lemma SpellStep(sents: seq<string>, b: Buffers, sent: string, l: Limits, isSpace: char -> bool)
    requires isSpace(' ') && Trimmed(b.current, isSpace) && IsSentence(sent, isSpace)
    requires Layout(sents, b, l, isSpace) && (b.current == "" <==> AllLong(sents, l))
    requires Spells(FrontPieces(sents, l), b, AfterFront(sents, l), l, isSpace)
    ensures Spells(FrontPieces(sents + [sent], l), AddSentence(b, sent, l, isSpace), AfterFront(sents + [sent], l),
                l, isSpace)
  {
    FrontPiecesGrow(sents, sent, l);
    AfterFrontGrows(sents, sent, l);
    AllLongAppend(sents, sent, l);
    BufferAfter(b, sent, l, isSpace);
    if b.current == "" {
      SpellFirst(b, sent, l, isSpace);
    } else {
      SpellNext(FrontPieces(sents, l), b, AfterFront(sents, l), sent, l, isSpace);
    }
  }

  lemma SpellFirst(b: Buffers, sent: string, l: Limits, isSpace: char -> bool)
    requires isSpace(' ') && IsSentence(sent, isSpace) && b.current == ""
    ensures var n := AddSentence(b, sent, l, isSpace);
            if |sent| >= l.maxChars then Spells(b.chunks + Split(sent, l), n, [], l, isSpace)
            else Spells(b.chunks, n, [sent], l, isSpace)
  {
    BufferAfter(b, sent, l, isSpace);
    if |sent| < l.maxChars {
      assert b.chunks[|b.chunks|..] + [sent] == [sent];
    }
  }

  lemma SpellNext(front: seq<string>, b: Buffers, rest: seq<string>, sent: string, l: Limits, isSpace: char -> bool)
    requires isSpace(' ') && Trimmed(b.current, isSpace) && IsSentence(sent, isSpace) && b.current != ""
    requires LaidOut(front, b.chunks, b.current, l, isSpace) && Spells(front, b, rest, l, isSpace)
    ensures Spells(front, AddSentence(b, sent, l, isSpace), rest + [sent], l, isSpace)
  {
    BufferAfter(b, sent, l, isSpace);
    JoinConcat(rest, [sent]);
    assert Join([sent]) == sent;
    if |b.current| + |sent| + 1 <= l.maxChars {
      SpellFits(b.chunks[|front|..], b.current, sent, l, isSpace);
    } else {
      CutSpells(front, b, rest, sent, l, isSpace);
    }
  }

  lemma CutSpells(front: seq<string>, b: Buffers, rest: seq<string>, sent: string, l: Limits, isSpace: char -> bool)
    requires Spells(front, b, rest, l, isSpace) && rest != [] && Join(rest + [sent]) == Join(rest) + " " + sent
    ensures Spells(front, Buffers(b.chunks + [b.current], Strip(LastChars(b.current, l.overlap), isSpace) + " " + sent),
                   rest + [sent], l, isSpace)
  {
    var finished := b.chunks[|front|..];
    SpellCut(finished, b.current, sent, l, isSpace);
    assert (b.chunks + [b.current])[|front|..] == finished + [b.current];
  }

  lemma {:induction false} BuffersSpell(sents: seq<string>, l: Limits, isSpace: char -> bool)
    requires Sentencelike(sents, isSpace)
    ensures Spells(FrontPieces(sents, l), AddAll(sents, l, isSpace), AfterFront(sents, l), l, isSpace)
  {
    if sents != [] {
      var m := |sents| - 1;
      assert sents[..m] + [sents[m]] == sents;
      BuffersSpell(sents[..m], l, isSpace);
      BuffersAreLaidOut(sents[..m], l, isSpace);
      BufferIsTrimmed(sents[..m], l, isSpace);
      EmptyBufferIff(sents[..m], l, isSpace);
      SpellStep(sents[..m], AddAll(sents[..m], l, isSpace), sents[m], l, isSpace);
    }
  }

  /**
   The chunks after the front pieces, each without the overlap it begins with,
   spell all sentences after the long ones at the front, in order and with single
   blanks between them.
   */
  lemma ChunksSpellText(sents: seq<string>, l: Limits, isSpace: char -> bool)
    requires Sentencelike(sents, isSpace)
    ensures FrontPieces(sents, l) <= ChunksOf(sents, l, isSpace)
    ensures Unchunk(ChunksOf(sents, l, isSpace)[|FrontPieces(sents, l)|..], l, isSpace) == Join(AfterFront(sents, l))
  {
    var b, front := AddAll(sents, l, isSpace), FrontPieces(sents, l);
    BuffersSpell(sents, l, isSpace);
    BufferIsTrimmed(sents, l, isSpace);
    StripTrims(b.current, isSpace);
    if b.current != "" {
      assert (b.chunks + [b.current])[|front|..] == b.chunks[|front|..] + [b.current];
    } else {
      assert b.chunks[|front|..] == [];
    }
  }
}
