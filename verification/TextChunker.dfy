/**
 Splitting text into overlapping chunks. The sentence-boundary split is given
 as its parts, and which characters are white space is an arbitrary test that
 accepts the blank.
 */
module TextChunker {
  import opened Common

  /** Nothing to strip. */
  predicate Trimmed(s: string, isSpace: char -> bool) {
    s != [] ==> !isSpace(s[0]) && !isSpace(s[|s| - 1])
  }

  /** A sentence: not empty, nothing to strip. */
  predicate IsSentence(s: string, isSpace: char -> bool) {
    s != [] && Trimmed(s, isSpace)
  }

  /** s[-n:], which is all of s when n is zero. */
  function LastChars(s: string, n: nat): string {
    if n == 0 || n >= |s| then s else s[|s| - n..]
  }

  // ---- Strip ----

  lemma {:induction false} TrimLeftTrims(s: string, isSpace: char -> bool)
    ensures TrimLeft(s, isSpace) != [] ==> !isSpace(TrimLeft(s, isSpace)[0])
    ensures |TrimLeft(s, isSpace)| <= |s| && TrimLeft(s, isSpace) == s[|s| - |TrimLeft(s, isSpace)|..]
  {
    if s != [] && isSpace(s[0]) {
      TrimLeftTrims(s[1..], isSpace);
    }
  }

  lemma {:induction false} TrimRightTrims(s: string, isSpace: char -> bool)
    ensures TrimRight(s, isSpace) <= s
    ensures TrimRight(s, isSpace) != [] ==> !isSpace(TrimRight(s, isSpace)[|TrimRight(s, isSpace)| - 1])
    ensures (forall i :: 0 <= i < |s| ==> isSpace(s[i])) <==> TrimRight(s, isSpace) == []
  {
    if s != [] && isSpace(s[|s| - 1]) {
      TrimRightTrims(s[..|s| - 1], isSpace);
    }
  }

  lemma StripTrims(s: string, isSpace: char -> bool)
    ensures Trimmed(Strip(s, isSpace), isSpace)
    ensures |Strip(s, isSpace)| <= |s|
    ensures Trimmed(s, isSpace) ==> Strip(s, isSpace) == s
    ensures s != [] && !isSpace(s[|s| - 1]) ==> Strip(s, isSpace) != []
  {
    var left := TrimLeft(s, isSpace);
    TrimLeftTrims(s, isSpace);
    TrimRightTrims(left, isSpace);
    if s != [] && !isSpace(s[|s| - 1]) {
      LastStays(s, isSpace);
    }
  }

  lemma {:induction false} LastStays(s: string, isSpace: char -> bool)
    requires s != [] && !isSpace(s[|s| - 1])
    ensures TrimLeft(s, isSpace) != [] && TrimLeft(s, isSpace)[|TrimLeft(s, isSpace)| - 1] == s[|s| - 1]
  {
    if isSpace(s[0]) {
      LastStays(s[1..], isSpace);
    }
  }

  // ---- Sentences ----

  function NonEmptyStripped(parts: seq<string>, isSpace: char -> bool): seq<string> {
    if parts == [] then []
    else
      var s := Strip(parts[|parts| - 1], isSpace);
      NonEmptyStripped(parts[..|parts| - 1], isSpace) + if s != [] then [s] else []
  }

  lemma {:induction false} SentencesAreTrimmed(parts: seq<string>, isSpace: char -> bool)
    ensures forall s :: s in NonEmptyStripped(parts, isSpace) ==> IsSentence(s, isSpace)
  {
    if parts != [] {
      SentencesAreTrimmed(parts[..|parts| - 1], isSpace);
      StripTrims(parts[|parts| - 1], isSpace);
    }
  }

  // ---- Chunks ----

  datatype Limits = Limits(maxChars: nat, overlap: nat) {
    /** How far apart hard-split pieces start. */
    function Stride(): int {
      maxChars - overlap
    }

    predicate Splits() {
      Stride() > 0
    }
  }

  /** s[i:j], cut off at the end of s. */
  function Piece(s: string, i: nat, j: nat): string
    requires i <= |s| && i <= j
  {
    if j <= |s| then s[i..j] else s[i..]
  }

  /** The pieces of a sentence that is split without regard to words, from offset i on. */
  function Pieces(sent: string, l: Limits, i: nat): seq<string>
    requires l.Splits()
    decreases |sent| - i
  {
    if i >= |sent| then []
    else [Piece(sent, i, i + l.maxChars)] + Pieces(sent, l, i + l.Stride())
  }

  datatype Buffers = Buffers(chunks: seq<string>, current: string)

  /** The hard split: a range with a negative step is empty, so there are no pieces then. */
  function Split(sent: string, l: Limits): seq<string> {
    if l.Splits() then Pieces(sent, l, 0) else []
  }

  /** What one sentence does to the finished chunks and the current buffer. */
  function AddSentence(b: Buffers, sent: string, l: Limits, isSpace: char -> bool): Buffers {
    if |b.current| + |sent| + 1 > l.maxChars then
      if b.current != [] then
        Buffers(b.chunks + [Strip(b.current, isSpace)], Strip(LastChars(b.current, l.overlap), isSpace) + " " + sent)
      else
        Buffers(b.chunks + Split(sent, l), "")
    else
      Buffers(b.chunks, Strip(b.current + " " + sent, isSpace))
  }

  function AddAll(sents: seq<string>, l: Limits, isSpace: char -> bool): Buffers {
    if sents == [] then Buffers([], "")
    else AddSentence(AddAll(sents[..|sents| - 1], l, isSpace), sents[|sents| - 1], l, isSpace)
  }

  function ChunksOf(sents: seq<string>, l: Limits, isSpace: char -> bool): seq<string> {
    var b := AddAll(sents, l, isSpace);
    if b.current != [] then b.chunks + [Strip(b.current, isSpace)] else b.chunks
  }

  /** A step of zero is an error. */
  method HardSplit(sent: string, l: Limits) returns (pieces: Option<seq<string>>)
    ensures pieces == if l.Stride() == 0 then None else Some(Split(sent, l))
  {
    if l.Stride() == 0 {
      return None;
    }
    var done: seq<string> := [];
    var i := 0;
    while i < |sent| && l.Stride() > 0
      invariant 0 <= i && (!l.Splits() ==> done == [])
      invariant l.Splits() ==> done + Pieces(sent, l, i) == Pieces(sent, l, 0)
      decreases |sent| - i
    {
      var piece := Piece(sent, i, i + l.maxChars);
      MoveOne(done, piece, Pieces(sent, l, i + l.Stride()));
      done := done + [piece];
      i := i + l.Stride();
    }
    assert l.Splits() ==> done + Pieces(sent, l, i) == done;
    pieces := Some(done);
  }

  lemma MoveOne(done: seq<string>, next: string, rest: seq<string>)
    ensures done + ([next] + rest) == (done + [next]) + rest
  {
  }

  method Sentences(parts: seq<string>, isSpace: char -> bool) returns (sents: seq<string>)
    ensures sents == NonEmptyStripped(parts, isSpace)
  {
    sents := [];
    var i := 0;
    while i < |parts|
      invariant 0 <= i <= |parts| && sents == NonEmptyStripped(parts[..i], isSpace)
    {
      assert parts[..i + 1][..i] == parts[..i];
      var s := Strip(parts[i], isSpace);
      if s != [] {
        sents := sents + [s];
      }
      i := i + 1;
    }
    assert parts[..i] == parts;
  }

  /** Chunking fails only if the overlap is the limit and the first sentence reaches it. */
  ghost predicate Fails(sents: seq<string>, l: Limits) {
    l.Stride() == 0 && sents != [] && |sents[0]| >= l.maxChars
  }

  lemma AddOne(sents: seq<string>, k: nat, l: Limits, isSpace: char -> bool)
    requires k < |sents|
    ensures AddAll(sents[..k + 1], l, isSpace) == AddSentence(AddAll(sents[..k], l, isSpace), sents[k], l, isSpace)
  {
    assert sents[..k + 1][..k] == sents[..k];
  }

  method Chunk(parts: seq<string>, l: Limits, isSpace: char -> bool) returns (result: Option<seq<string>>)
    ensures var sents := NonEmptyStripped(parts, isSpace);
            result == if Fails(sents, l) then None else Some(ChunksOf(sents, l, isSpace))
  {
    var sents := Sentences(parts, isSpace);
    SentencesAreTrimmed(parts, isSpace);
    var current := "";
    var chunks: seq<string> := [];
    var k := 0;
    while k < |sents|
      invariant 0 <= k <= |sents| && Buffers(chunks, current) == AddAll(sents[..k], l, isSpace)
      invariant k > 0 && l.Stride() == 0 ==> current != "" && !Fails(sents, l)
    {
      var sent := sents[k];
      AddOne(sents, k, l, isSpace);
      ghost var before := Buffers(chunks, current);
      assert sent in sents;
      if |current| + |sent| + 1 > l.maxChars {
        if current != [] {
          chunks := chunks + [Strip(current, isSpace)];
          current := Strip(LastChars(current, l.overlap), isSpace) + " " + sent;
        } else {
          var pieces := HardSplit(sent, l);
          if pieces.None? {
            return None;
          }
          chunks := chunks + pieces.value;
          current := "";
        }
      } else {
        StripTrims(current + " " + sent, isSpace);
        current := Strip(current + " " + sent, isSpace);
      }
      assert Buffers(chunks, current) == AddSentence(before, sent, l, isSpace);
      k := k + 1;
    }
    assert sents[..k] == sents;
    if current != [] {
      chunks := chunks + [Strip(current, isSpace)];
    }
    result := Some(chunks);
  }

  // ---- Nothing is lost ----

  ghost predicate Sentencelike(sents: seq<string>, isSpace: char -> bool) {
    isSpace(' ') && forall i :: 0 <= i < |sents| ==> IsSentence(sents[i], isSpace)
  }

  function Head(piece: string, l: Limits): string
    requires l.Splits()
  {
    Piece(piece, 0, l.Stride())
  }

  /** The first Stride() characters of each piece, one after the other. */
  function Heads(pieces: seq<string>, l: Limits): string
    requires l.Splits()
  {
    if pieces == [] then "" else Head(pieces[0], l) + Heads(pieces[1..], l)
  }

  lemma HeadOfPiece(sent: string, l: Limits, i: nat)
    requires l.Splits() && i <= |sent|
    ensures Head(Piece(sent, i, i + l.maxChars), l) == Piece(sent, i, i + l.Stride())
  {
  }

  /** s[i:]. */
  function From(s: string, i: nat): string {
    if i <= |s| then s[i..] else ""
  }

  lemma PieceThenRest(sent: string, l: Limits, i: nat)
    requires l.Splits() && i <= |sent|
    ensures Piece(sent, i, i + l.Stride()) + From(sent, i + l.Stride()) == From(sent, i)
  {
  }

  lemma HeadsCons(piece: string, rest: seq<string>, l: Limits)
    requires l.Splits()
    ensures Heads([piece] + rest, l) == Head(piece, l) + Heads(rest, l)
  {
    assert ([piece] + rest)[1..] == rest;
  }

  lemma OneMoreHead(sent: string, l: Limits, i: nat, rest: seq<string>)
    requires l.Splits() && i < |sent|
    requires Heads(rest, l) == From(sent, i + l.Stride())
    ensures Heads([Piece(sent, i, i + l.maxChars)] + rest, l) == From(sent, i)
  {
    HeadsCons(Piece(sent, i, i + l.maxChars), rest, l);
    HeadOfPiece(sent, l, i);
    PieceThenRest(sent, l, i);
  }

  /** Hard-split pieces overlap, but their heads spell the sentence. */
  lemma {:induction false} HeadsRestore(sent: string, l: Limits, i: nat)
    requires l.Splits()
    ensures Heads(Pieces(sent, l, i), l) == From(sent, i)
    decreases |sent| - i
  {
    if i >= |sent| {
      NoHeads(sent, l, i);
    } else {
      HeadsRestore(sent, l, i + l.Stride());
      HeadsStep(sent, l, i);
    }
  }

  lemma NoHeads(sent: string, l: Limits, i: nat)
    requires l.Splits() && i >= |sent|
    ensures Heads(Pieces(sent, l, i), l) == From(sent, i)
  {
    assert Pieces(sent, l, i) == [];
  }

  lemma HeadsStep(sent: string, l: Limits, i: nat)
    requires l.Splits() && i < |sent|
    requires Heads(Pieces(sent, l, i + l.Stride()), l) == From(sent, i + l.Stride())
    ensures Heads(Pieces(sent, l, i), l) == From(sent, i)
  {
    var rest := Pieces(sent, l, i + l.Stride());
    OneMoreHead(sent, l, i, rest);
    assert Pieces(sent, l, i) == [Piece(sent, i, i + l.maxChars)] + rest;
  }

  ghost predicate InSomeChunk(sent: string, chunks: seq<string>) {
    exists j :: 0 <= j < |chunks| && Contains(chunks[j], sent)
  }

  /** A run of consecutive chunks whose heads spell the sentence. */
  ghost predicate IsHardSplit(sent: string, chunks: seq<string>, l: Limits)
    requires l.Splits()
  {
    exists a, b :: 0 <= a <= b <= |chunks| && Heads(chunks[a..b], l) == sent
  }

  ghost predicate Covered(sent: string, chunks: seq<string>, l: Limits)
  {
    InSomeChunk(sent, chunks) || (l.Splits() && |sent| >= l.maxChars && IsHardSplit(sent, chunks, l))
  }

  lemma CoveredStays(sent: string, chunks: seq<string>, more: seq<string>, l: Limits)
    requires Covered(sent, chunks, l)
    ensures Covered(sent, chunks + more, l)
  {
    if InSomeChunk(sent, chunks) {
      var j :| 0 <= j < |chunks| && Contains(chunks[j], sent);
      assert (chunks + more)[j] == chunks[j];
    } else {
      var a, b :| 0 <= a <= b <= |chunks| && Heads(chunks[a..b], l) == sent;
      assert (chunks + more)[a..b] == chunks[a..b];
    }
  }

  lemma ContainedIn(text: string, before: string, part: string, after: string)
    requires text == before + part + after
    ensures Contains(text, part)
  {
    assert text[|before|..] == part + after;
  }

  lemma ContainsExtends(text: string, part: string, after: string)
    requires Contains(text, part)
    ensures Contains(text + after, part)
  {
    var i :| 0 <= i <= |text| && part <= text[i..];
    assert (text + after)[i..] == text[i..] + after;
  }

  /** Each sentence so far is in the current buffer or covered by finished chunks. */
  ghost predicate AllCovered(sents: seq<string>, b: Buffers, l: Limits)
  {
    forall i :: 0 <= i < |sents| ==> Contains(b.current, sents[i]) || Covered(sents[i], b.chunks, l)
  }

  /** The buffer never needs stripping, and its new value after a sentence. */
  lemma BufferAfter(b: Buffers, sent: string, l: Limits, isSpace: char -> bool)
    requires isSpace(' ') && Trimmed(b.current, isSpace) && IsSentence(sent, isSpace)
    ensures Trimmed(AddSentence(b, sent, l, isSpace).current, isSpace)
    ensures |b.current| + |sent| + 1 <= l.maxChars ==>
              AddSentence(b, sent, l, isSpace).current == if b.current == [] then sent else b.current + " " + sent
    ensures Strip(b.current, isSpace) == b.current
  {
    StripTrims(b.current, isSpace);
    var last := LastChars(b.current, l.overlap);
    StripTrims(last, isSpace);
    if b.current == [] {
      assert "" + " " + sent == " " + sent && (" " + sent)[1..] == sent;
      assert TrimLeft(" " + sent, isSpace) == TrimLeft(sent, isSpace);
      StripTrims(sent, isSpace);
    } else {
      StripTrims(b.current + " " + sent, isSpace);
    }
  }

  lemma NewSentenceIsCovered(b: Buffers, sent: string, l: Limits, isSpace: char -> bool)
    requires l.Splits() || b.current != "" || |sent| < l.maxChars
    requires isSpace(' ') && Trimmed(b.current, isSpace) && IsSentence(sent, isSpace)
    ensures var n := AddSentence(b, sent, l, isSpace); Contains(n.current, sent) || Covered(sent, n.chunks, l)
  {
    var n := AddSentence(b, sent, l, isSpace);
    BufferAfter(b, sent, l, isSpace);
    if |b.current| + |sent| + 1 > l.maxChars && b.current == [] {
      HardSplitCovers(b, sent, l);
    } else {
      ContainedIn(n.current, n.current[..|n.current| - |sent|], sent, "");
    }
  }

  lemma CoverageStep(sents: seq<string>, b: Buffers, sent: string, l: Limits, isSpace: char -> bool)
    requires l.Splits() || b.current != "" || |sent| < l.maxChars
    requires AllCovered(sents, b, l) && Sentencelike(sents, isSpace)
    requires Trimmed(b.current, isSpace) && IsSentence(sent, isSpace)
    ensures AllCovered(sents + [sent], AddSentence(b, sent, l, isSpace), l)
  {
    var n := AddSentence(b, sent, l, isSpace);
    NewSentenceIsCovered(b, sent, l, isSpace);
    forall i | 0 <= i < |sents| ensures Contains(n.current, sents[i]) || Covered(sents[i], n.chunks, l) {
      OldSentenceStays(sents[i], b, sent, l, isSpace);
    }
  }

  lemma HardSplitCovers(b: Buffers, sent: string, l: Limits)
    requires l.Splits() && |sent| >= l.maxChars
    ensures Covered(sent, b.chunks + Split(sent, l), l)
  {
    var all := b.chunks + Pieces(sent, l, 0);
    HeadsRestore(sent, l, 0);
    assert all[|b.chunks|..|all|] == Pieces(sent, l, 0);
    assert Heads(all[|b.chunks|..|all|], l) == sent;
  }

  lemma OldSentenceStays(s: string, b: Buffers, sent: string, l: Limits, isSpace: char -> bool)
    requires isSpace(' ') && Trimmed(b.current, isSpace) && IsSentence(sent, isSpace)
    requires s != [] && (Contains(b.current, s) || Covered(s, b.chunks, l))
    ensures Contains(AddSentence(b, sent, l, isSpace).current, s)
                || Covered(s, AddSentence(b, sent, l, isSpace).chunks, l)
  {
    BufferAfter(b, sent, l, isSpace);
    if |b.current| + |sent| + 1 <= l.maxChars {
      StaysInBuffer(s, b.current, sent);
    } else if b.current != [] {
      MovesToChunks(s, b.chunks, b.current, l);
    } else {
      if Covered(s, b.chunks, l) {
        CoveredStays(s, b.chunks, Split(sent, l), l);
      }
    }
  }

  lemma StaysInBuffer(s: string, current: string, sent: string)
    requires s != []
    ensures Contains(current, s) ==> current != [] && Contains(current + " " + sent, s)
  {
    if Contains(current, s) {
      ContainsExtends(current, s, " " + sent);
      assert current + " " + sent == current + (" " + sent);
    }
  }

  lemma MovesToChunks(s: string, chunks: seq<string>, current: string, l: Limits)
    requires Contains(current, s) || Covered(s, chunks, l)
    ensures Covered(s, chunks + [current], l)
  {
    if Covered(s, chunks, l) {
      CoveredStays(s, chunks, [current], l);
    } else {
      assert (chunks + [current])[|chunks|] == current;
      assert InSomeChunk(s, chunks + [current]);
    }
  }

  lemma {:induction false} BufferIsTrimmed(sents: seq<string>, l: Limits, isSpace: char -> bool)
    requires Sentencelike(sents, isSpace)
    ensures Trimmed(AddAll(sents, l, isSpace).current, isSpace)
  {
    if sents != [] {
      var m := |sents| - 1;
      BufferIsTrimmed(sents[..m], l, isSpace);
      BufferAfter(AddAll(sents[..m], l, isSpace), sents[m], l, isSpace);
    }
  }

  ghost predicate AllLong(sents: seq<string>, l: Limits) {
    forall i :: 0 <= i < |sents| ==> |sents[i]| >= l.maxChars
  }

  /** The buffer is empty only while every sentence so far was too long for one. */
  lemma {:induction false} EmptyBufferIff(sents: seq<string>, l: Limits, isSpace: char -> bool)
    requires Sentencelike(sents, isSpace)
    ensures AddAll(sents, l, isSpace).current == "" <==> AllLong(sents, l)
  {
    if sents != [] {
      var m := |sents| - 1;
      EmptyBufferIff(sents[..m], l, isSpace);
      BufferIsTrimmed(sents[..m], l, isSpace);
      BufferAfter(AddAll(sents[..m], l, isSpace), sents[m], l, isSpace);
      AllLongAppend(sents[..m], sents[m], l);
      assert sents[..m] + [sents[m]] == sents;
    }
  }

  /** No long sentence has to be split, or splitting works. */
  ghost predicate Splittable(sents: seq<string>, l: Limits) {
    l.Splits() || sents == [] || |sents[0]| < l.maxChars
  }

  /** The last sentence meets a buffer, is short, or can be split. */
  lemma SplittableStep(sents: seq<string>, last: string, l: Limits)
    requires Splittable(sents + [last], l)
    ensures Splittable(sents, l)
    ensures l.Splits() || !AllLong(sents, l) || |last| < l.maxChars
  {
    var all := sents + [last];
    if sents == [] {
      assert all[0] == last;
    } else {
      assert all[0] == sents[0];
    }
  }

  lemma {:induction false} SentencesAreCovered(sents: seq<string>, l: Limits, isSpace: char -> bool)
    requires Sentencelike(sents, isSpace) && Splittable(sents, l)
    ensures AllCovered(sents, AddAll(sents, l, isSpace), l)
  {
    if sents != [] {
      var m := |sents| - 1;
      assert sents[..m] + [sents[m]] == sents;
      SplittableStep(sents[..m], sents[m], l);
      SentencesAreCovered(sents[..m], l, isSpace);
      BufferIsTrimmed(sents[..m], l, isSpace);
      EmptyBufferIff(sents[..m], l, isSpace);
      CoverageStep(sents[..m], AddAll(sents[..m], l, isSpace), sents[m], l, isSpace);
    }
  }

  /**
   Every sentence shorter than the limit is a substring of some chunk; a longer
   one is too, or else the heads of consecutive chunks spell it out.
   */
  lemma NoSentenceIsLost(sents: seq<string>, l: Limits, isSpace: char -> bool, k: nat)
    requires Sentencelike(sents, isSpace) && Splittable(sents, l) && k < |sents|
    ensures Covered(sents[k], ChunksOf(sents, l, isSpace), l)
  {
    var b := AddAll(sents, l, isSpace);
    var chunks := ChunksOf(sents, l, isSpace);
    BufferIsTrimmed(sents, l, isSpace);
    SentencesAreCovered(sents, l, isSpace);
    StripTrims(b.current, isSpace);
    if Covered(sents[k], b.chunks, l) {
      CoveredStays(sents[k], b.chunks, chunks[|b.chunks|..], l);
      assert chunks == b.chunks + chunks[|b.chunks|..];
    } else if b.current != [] {
      assert chunks[|b.chunks|] == b.current;
      assert InSomeChunk(sents[k], chunks);
    }
  }

  // ---- Which sentences are split, and how chunks overlap ----

  /** So a sentence is hard-split exactly if it and all sentences before it reach the limit. */
  lemma HardSplitIff(sents: seq<string>, l: Limits, isSpace: char -> bool, k: nat)
    requires Sentencelike(sents, isSpace) && k < |sents|
    ensures var b := AddAll(sents[..k], l, isSpace); var n := AddSentence(b, sents[k], l, isSpace);
            n == Buffers(b.chunks + Split(sents[k], l), "") <==> AllLong(sents[..k + 1], l)
  {
    EmptyBufferIff(sents[..k], l, isSpace);
    EmptyBufferIff(sents[..k + 1], l, isSpace);
    assert sents[..k + 1][..k] == sents[..k];
  }

  /** Each hard-split piece begins with what the one before has beyond its head. */
  lemma {:induction false} PiecesOverlap(sent: string, l: Limits, i: nat, j: nat)
    requires l.Splits() && j + 1 < |Pieces(sent, l, i)|
    ensures |Pieces(sent, l, i)[j]| >= l.Stride() && Pieces(sent, l, i)[j][l.Stride()..] <= Pieces(sent, l, i)[j + 1]
    decreases j
  {
    var next := i + l.Stride();
    var rest := Pieces(sent, l, next);
    assert Pieces(sent, l, i)[1..] == rest;
    if j > 0 {
      PiecesOverlap(sent, l, next, j - 1);
    } else {
      assert next < |sent| && rest[0] == Piece(sent, next, next + l.maxChars);
    }
  }

  ghost predicate EndsWith(text: string, part: string) {
    exists before :: text == before + part
  }

  /** A hard-split piece has the full length, or is all that is left of the sentence. */
  lemma {:induction false} PiecesAreFull(sent: string, l: Limits, i: nat, j: nat)
    requires l.Splits() && j < |Pieces(sent, l, i)|
    ensures |Pieces(sent, l, i)[j]| == l.maxChars || (EndsWith(sent, Pieces(sent, l, i)[j])
                && |Pieces(sent, l, i)[j]| < l.maxChars)
    decreases j
  {
    var rest := Pieces(sent, l, i + l.Stride());
    assert Pieces(sent, l, i)[1..] == rest;
    if j > 0 {
      PiecesAreFull(sent, l, i + l.Stride(), j - 1);
    } else if i + l.maxChars > |sent| {
      assert sent == sent[..i] + Piece(sent, i, i + l.maxChars);
    }
  }

  /** The chunk begins with the overlap kept from the chunk before. */
  ghost predicate Follows(before: string, chunk: string, l: Limits, isSpace: char -> bool) {
    Strip(LastChars(before, l.overlap), isSpace) + " " <= chunk
  }

  ghost predicate Chained(chunks: seq<string>, start: nat, l: Limits, isSpace: char -> bool) {
    forall i, j :: start <= i && i + 1 == j < |chunks| ==> Follows(chunks[i], chunks[j], l, isSpace)
  }

  /** The pieces of the long sentences at the front, which come before all other chunks. */
  function FrontPieces(sents: seq<string>, l: Limits): seq<string>
  {
    if sents == [] || |sents[0]| < l.maxChars then [] else Split(sents[0], l) + FrontPieces(sents[1..], l)
  }

  lemma {:induction false} FrontPiecesGrow(sents: seq<string>, sent: string, l: Limits)
    ensures FrontPieces(sents + [sent], l)
         == if AllLong(sents + [sent], l) then FrontPieces(sents, l) + Split(sent, l) else FrontPieces(sents, l)
  {
    if sents == [] {
      assert sents + [sent] == [sent] && [sent][1..] == [];
      assert Split(sent, l) + [] == Split(sent, l);
    } else {
      assert (sents + [sent])[0] == sents[0] && (sents + [sent])[1..] == sents[1..] + [sent];
      if |sents[0]| >= l.maxChars {
        FrontPiecesGrow(sents[1..], sent, l);
        AllLongTail(sents, sent, l);
        assert Split(sents[0], l) + (FrontPieces(sents[1..], l) + Split(sent, l))
            == (Split(sents[0], l) + FrontPieces(sents[1..], l)) + Split(sent, l);
      }
    }
  }

  lemma AllLongTail(sents: seq<string>, sent: string, l: Limits)
    requires sents != [] && |sents[0]| >= l.maxChars
    ensures AllLong(sents + [sent], l) <==> AllLong(sents[1..] + [sent], l)
  {
    AllLongAppend(sents, sent, l);
    AllLongAppend(sents[1..], sent, l);
    assert sents == [sents[0]] + sents[1..];
  }

  lemma AllLongAppend(sents: seq<string>, sent: string, l: Limits)
    ensures AllLong(sents + [sent], l) <==> AllLong(sents, l) && |sent| >= l.maxChars
  {
    var all := sents + [sent];
    assert all[|sents|] == sent && forall i :: 0 <= i < |sents| ==> all[i] == sents[i];
  }

  /** Front pieces first; after them every chunk follows the one before, and the buffer follows the last. */
  ghost predicate LaidOut(front: seq<string>, chunks: seq<string>, current: string, l: Limits, isSpace: char -> bool) {
    && front <= chunks
    && (current == "" ==> chunks == front)
    && Chained(chunks, |front|, l, isSpace)
    && (|chunks| > |front| ==> Follows(chunks[|chunks| - 1], current, l, isSpace))
  }

  ghost predicate Layout(sents: seq<string>, b: Buffers, l: Limits, isSpace: char -> bool) {
    LaidOut(FrontPieces(sents, l), b.chunks, b.current, l, isSpace)
  }

  lemma LayoutStep(sents: seq<string>, b: Buffers, sent: string, l: Limits, isSpace: char -> bool)
    requires isSpace(' ') && Trimmed(b.current, isSpace) && IsSentence(sent, isSpace)
    requires Layout(sents, b, l, isSpace) && (b.current == "" <==> AllLong(sents, l))
    ensures Layout(sents + [sent], AddSentence(b, sent, l, isSpace), l, isSpace)
  {
    FrontPiecesGrow(sents, sent, l);
    AllLongAppend(sents, sent, l);
    BufferAfter(b, sent, l, isSpace);
    if |b.current| + |sent| + 1 <= l.maxChars {
      BufferGrows(FrontPieces(sents, l), b, sent, l, isSpace);
    } else if b.current != "" {
      ChunkFollows(FrontPieces(sents, l), b, sent, l, isSpace);
    } else {
      FrontGrows(b.chunks, Split(sent, l), l, isSpace);
    }
  }

  lemma BufferGrows(front: seq<string>, b: Buffers, sent: string, l: Limits, isSpace: char -> bool)
    requires LaidOut(front, b.chunks, b.current, l, isSpace) && sent != []
    ensures LaidOut(front, b.chunks, if b.current == [] then sent else b.current + " " + sent, l, isSpace)
  {
  }

  lemma ChunkFollows(front: seq<string>, b: Buffers, sent: string, l: Limits, isSpace: char -> bool)
    requires LaidOut(front, b.chunks, b.current, l, isSpace)
    ensures LaidOut(front, b.chunks + [b.current], Strip(LastChars(b.current, l.overlap), isSpace) + " " + sent, l,
                isSpace)
  {
    ChainGrows(b.chunks, b.current, |front|, l, isSpace);
  }

  lemma FrontGrows(front: seq<string>, pieces: seq<string>, l: Limits, isSpace: char -> bool)
    ensures LaidOut(front + pieces, front + pieces, "", l, isSpace)
  {
  }

  lemma ChainGrows(chunks: seq<string>, next: string, start: nat, l: Limits, isSpace: char -> bool)
    requires Chained(chunks, start, l, isSpace) && start <= |chunks|
    requires |chunks| > start ==> Follows(chunks[|chunks| - 1], next, l, isSpace)
    ensures Chained(chunks + [next], start, l, isSpace)
  {
    var all := chunks + [next];
    forall i, j | start <= i && i + 1 == j < |all| ensures Follows(all[i], all[j], l, isSpace) {
      if j < |chunks| {
        assert Follows(chunks[i], chunks[j], l, isSpace);
      }
    }
  }

  lemma {:induction false} BuffersAreLaidOut(sents: seq<string>, l: Limits, isSpace: char -> bool)
    requires Sentencelike(sents, isSpace)
    ensures Layout(sents, AddAll(sents, l, isSpace), l, isSpace)
  {
    if sents != [] {
      var m := |sents| - 1;
      assert sents[..m] + [sents[m]] == sents;
      BuffersAreLaidOut(sents[..m], l, isSpace);
      BufferIsTrimmed(sents[..m], l, isSpace);
      EmptyBufferIff(sents[..m], l, isSpace);
      LayoutStep(sents[..m], AddAll(sents[..m], l, isSpace), sents[m], l, isSpace);
    }
  }

  /** The chunks are the front pieces and then chunks that each begin with the overlap of the one before. */
  lemma ChunksOverlap(sents: seq<string>, l: Limits, isSpace: char -> bool)
    requires Sentencelike(sents, isSpace)
    ensures FrontPieces(sents, l) <= ChunksOf(sents, l, isSpace)
    ensures Chained(ChunksOf(sents, l, isSpace), |FrontPieces(sents, l)|, l, isSpace)
  {
    var b := AddAll(sents, l, isSpace);
    BuffersAreLaidOut(sents, l, isSpace);
    BufferIsTrimmed(sents, l, isSpace);
    StripTrims(b.current, isSpace);
    LastIsChained(sents, b, l, isSpace);
  }

  lemma LastIsChained(sents: seq<string>, b: Buffers, l: Limits, isSpace: char -> bool)
    requires Layout(sents, b, l, isSpace)
    ensures Chained(b.chunks + [b.current], |FrontPieces(sents, l)|, l, isSpace)
    ensures Chained(b.chunks, |FrontPieces(sents, l)|, l, isSpace)
  {
    ChainGrows(b.chunks, b.current, |FrontPieces(sents, l)|, l, isSpace);
  }

  // ---- Chunks are bounded ----

  function Max(a: int, b: int): int {
    if a >= b then a else b
  }

  function Longest(sents: seq<string>): nat {
    if sents == [] then 0 else Max(Longest(sents[..|sents| - 1]), |sents[|sents| - 1]|)
  }

  /** What no chunk exceeds. */
  function Bound(sents: seq<string>, l: Limits): int {
    Max(l.maxChars, l.overlap + 1 + Longest(sents))
  }

  ghost predicate Within(chunks: seq<string>, n: int) {
    forall j :: 0 <= j < |chunks| ==> |chunks[j]| <= n
  }

  lemma {:induction false} PiecesAreShort(sent: string, l: Limits, i: nat)
    requires l.Splits()
    ensures Within(Pieces(sent, l, i), l.maxChars)
    decreases |sent| - i
  {
    if i < |sent| {
      PiecesAreShort(sent, l, i + l.Stride());
    }
  }

  lemma BoundStep(b: Buffers, sent: string, l: Limits, isSpace: char -> bool, n: int)
    requires l.overlap > 0 && l.maxChars <= n && l.overlap + 1 + |sent| <= n
    requires Within(b.chunks, n) && |b.current| <= n
    ensures Within(AddSentence(b, sent, l, isSpace).chunks, n) && |AddSentence(b, sent, l, isSpace).current| <= n
  {
    StripTrims(b.current, isSpace);
    StripTrims(LastChars(b.current, l.overlap), isSpace);
    StripTrims(b.current + " " + sent, isSpace);
    if l.Splits() {
      PiecesAreShort(sent, l, 0);
    }
  }

  lemma {:induction false} BuffersAreBounded(sents: seq<string>, l: Limits, isSpace: char -> bool, n: int)
    requires l.overlap > 0 && Bound(sents, l) <= n
    ensures Within(AddAll(sents, l, isSpace).chunks, n) && |AddAll(sents, l, isSpace).current| <= n
  {
    if sents != [] {
      var m := |sents| - 1;
      BuffersAreBounded(sents[..m], l, isSpace, n);
      BoundStep(AddAll(sents[..m], l, isSpace), sents[m], l, isSpace, n);
    }
  }

  /** No chunk is longer than the limit, or than an overlap, a blank and the longest sentence. */
  lemma ChunksAreBounded(sents: seq<string>, l: Limits, isSpace: char -> bool)
    requires l.overlap > 0
    ensures Within(ChunksOf(sents, l, isSpace), Max(l.maxChars, l.overlap + 1 + Longest(sents)))
  {
    BuffersAreBounded(sents, l, isSpace, Bound(sents, l));
    StripTrims(AddAll(sents, l, isSpace).current, isSpace);
  }

  /** A long sentence after a buffered one is kept whole behind the overlap, over the limit or not. */
  lemma LongSentenceIsNotSplit(first: string, second: string, l: Limits, isSpace: char -> bool)
    requires isSpace(' ') && IsSentence(first, isSpace) && IsSentence(second, isSpace)
    requires |first| + 1 <= l.maxChars < |first| + |second| + 1
    ensures ChunksOf([first, second], l, isSpace) == [first, Strip(LastChars(first, l.overlap), isSpace) + " " + second]
    ensures 0 < l.overlap <= |first| && !isSpace(first[|first| - l.overlap]) ==>
              |ChunksOf([first, second], l, isSpace)[1]| == l.overlap + 1 + |second|
  {
    var one := Buffers([], first);
    var sents := [first, second];
    assert sents[..1] == [first] && [first][..0] == [];
    BufferAfter(Buffers([], ""), first, l, isSpace);
    assert AddAll([first], l, isSpace) == one;
    BufferAfter(one, second, l, isSpace);
    var two := AddSentence(one, second, l, isSpace);
    assert AddAll(sents, l, isSpace) == two;
    StripTrims(two.current, isSpace);
    StripTrims(LastChars(first, l.overlap), isSpace);
  }

  function Repeat(c: char, n: nat): string {
    seq(n, i requires 0 <= i < n => c)
  }

  lemma AddLast(sents: seq<string>, sent: string, l: Limits, isSpace: char -> bool)
    ensures AddAll(sents + [sent], l, isSpace) == AddSentence(AddAll(sents, l, isSpace), sent, l, isSpace)
  {
    assert (sents + [sent])[..|sents|] == sents;
  }

  /** What is left in the buffer is the last chunk. */
  lemma LastChunk(sents: seq<string>, l: Limits, isSpace: char -> bool)
    requires Trimmed(AddAll(sents, l, isSpace).current, isSpace) && AddAll(sents, l, isSpace).current != []
    ensures var chunks := ChunksOf(sents, l, isSpace);
            chunks != [] && chunks[|chunks| - 1] == AddAll(sents, l, isSpace).current
  {
    StripTrims(AddAll(sents, l, isSpace).current, isSpace);
  }

  // ---- When chunks keep to the limit ----

  /** An overlap of zero or one that covers the buffer keeps all of it. */
  predicate KeepsWhole(current: string, l: Limits) {
    l.overlap == 0 || |current| <= l.overlap
  }

  lemma BufferAccumulates(b: Buffers, sent: string, l: Limits, isSpace: char -> bool)
    requires isSpace(' ') && Trimmed(b.current, isSpace) && IsSentence(sent, isSpace) && b.current != ""
    requires KeepsWhole(b.current, l) || |b.current| + 1 + |sent| <= l.maxChars
    ensures AddSentence(b, sent, l, isSpace).current == b.current + " " + sent
  {
    BufferAfter(b, sent, l, isSpace);
  }

  /**
   A text that fills a buffer to the given length with words of one character, but for
   the first if the length is even.
  */
  function Fill(c: char, len: nat): seq<string> {
    if len <= 2 then [Repeat(c, len)] else Fill(c, len - 2) + [Repeat(c, 1)]
  }

  lemma {:induction false} FillWords(c: char, len: nat, isSpace: char -> bool)
    requires isSpace(' ') && !isSpace(c) && len > 0
    ensures Sentencelike(Fill(c, len), isSpace)
    ensures Longest(Fill(c, len)) == if len % 2 == 1 then 1 else 2
  {
    if len > 2 {
      FillWords(c, len - 2, isSpace);
      LongestAppend(Fill(c, len - 2), Repeat(c, 1));
    } else {
      assert Fill(c, len)[..0] == [];
    }
  }

  lemma LongestAppend(sents: seq<string>, sent: string)
    ensures Longest(sents + [sent]) == Max(Longest(sents), |sent|)
  {
    assert (sents + [sent])[..|sents|] == sents;
  }

  ghost predicate HasLength(b: Buffers, len: nat, isSpace: char -> bool) {
    |b.current| == len && Trimmed(b.current, isSpace)
  }

  lemma FirstFills(word: string, l: Limits, isSpace: char -> bool)
    requires isSpace(' ') && IsSentence(word, isSpace) && |word| + 1 <= l.maxChars
    ensures HasLength(AddAll([word], l, isSpace), |word|, isSpace)
  {
    AddLast([], word, l, isSpace);
    assert [] + [word] == [word];
    BufferAfter(Buffers([], ""), word, l, isSpace);
  }

  lemma NextFills(b: Buffers, word: string, len: nat, l: Limits, isSpace: char -> bool)
    requires isSpace(' ') && IsSentence(word, isSpace) && HasLength(b, len, isSpace) && len > 0
    requires KeepsWhole(b.current, l) || len + 1 + |word| <= l.maxChars
    ensures HasLength(AddSentence(b, word, l, isSpace), len + 1 + |word|, isSpace)
  {
    BufferAccumulates(b, word, l, isSpace);
    BufferAfter(b, word, l, isSpace);
  }

  lemma {:induction false} FillFills(c: char, len: nat, l: Limits, isSpace: char -> bool)
    requires isSpace(' ') && !isSpace(c) && len > 0 && l.maxChars >= 3 - len % 2
    requires len <= l.maxChars || l.overlap == 0 || len - 2 <= l.overlap
    ensures HasLength(AddAll(Fill(c, len), l, isSpace), len, isSpace)
  {
    if len <= 2 {
      FirstFills(Repeat(c, len), l, isSpace);
    } else {
      var sents, word := Fill(c, len - 2), Repeat(c, 1);
      FillFills(c, len - 2, l, isSpace);
      AddLast(sents, word, l, isSpace);
      NextFills(AddAll(sents, l, isSpace), word, len - 2, l, isSpace);
    }
  }

  /** All chunks of all texts whose sentences have at most n characters. */
  ghost predicate AlwaysWithin(l: Limits, isSpace: char -> bool, n: nat) {
    forall sents :: Sentencelike(sents, isSpace) && Longest(sents) <= n ==>
        Within(ChunksOf(sents, l, isSpace), l.maxChars)
  }

  lemma TooLong(sents: seq<string>, l: Limits, isSpace: char -> bool, n: nat)
    requires Sentencelike(sents, isSpace) && Longest(sents) <= n
    requires Trimmed(AddAll(sents, l, isSpace).current, isSpace) && |AddAll(sents, l, isSpace).current| > l.maxChars
    ensures !AlwaysWithin(l, isSpace, n)
  {
    LastIsLong(sents, l, isSpace, l.maxChars);
  }

  lemma LastIsLong(sents: seq<string>, l: Limits, isSpace: char -> bool, n: nat)
    requires Trimmed(AddAll(sents, l, isSpace).current, isSpace) && |AddAll(sents, l, isSpace).current| > n
    ensures !Within(ChunksOf(sents, l, isSpace), n)
  {
    LastChunk(sents, l, isSpace);
    var chunks := ChunksOf(sents, l, isSpace);
    assert |chunks[|chunks| - 1]| > n;
  }

  /** With an overlap of zero, or one that covers a buffer at the limit, words of one character suffice. */
  lemma WordsOverflow(l: Limits, isSpace: char -> bool, c: char, n: nat)
    requires isSpace(' ') && !isSpace(c) && n > 0 && l.maxChars >= 2
    requires l.overlap == 0 || l.overlap >= l.maxChars - 1 + l.maxChars % 2
    ensures !AlwaysWithin(l, isSpace, n)
  {
    var len := l.maxChars + 1 + l.maxChars % 2;
    FillWords(c, len, isSpace);
    FillFills(c, len, l, isSpace);
    TooLong(Fill(c, len), l, isSpace, n);
  }

  /** A buffer that the overlap covers, and then a sentence that does not fit behind it. */
  lemma LongWordOverflows(l: Limits, isSpace: char -> bool, c: char, n: nat)
    requires isSpace(' ') && !isSpace(c) && n >= 2 && l.maxChars >= 2 && l.overlap > 0 && l.overlap + 1 + n > l.maxChars
    ensures !AlwaysWithin(l, isSpace, n)
  {
    var len := if l.maxChars <= n then 1 else l.maxChars - n;
    var sents, long := Fill(c, len), Repeat(c, n);
    FillWords(c, len, isSpace);
    FillFills(c, len, l, isSpace);
    LongestAppend(sents, long);
    AddLast(sents, long, l, isSpace);
    NextFills(AddAll(sents, l, isSpace), long, len, l, isSpace);
    assert Sentencelike(sents + [long], isSpace);
    TooLong(sents + [long], l, isSpace, n);
  }

  /** Characters at even places, blanks at odd ones, a character last. */
  ghost predicate Alternates(current: string, isSpace: char -> bool) {
    && |current| % 2 == 1
    && forall i :: 0 <= i < |current| ==> if i % 2 == 0 then !isSpace(current[i]) else current[i] == ' '
  }

  lemma CutAlternates(current: string, isSpace: char -> bool)
    requires isSpace(' ') && Alternates(current, isSpace) && |current| >= 3
    ensures Strip(current[1..], isSpace) == current[2..] && Alternates(current[2..], isSpace)
  {
    assert current[1..][0] == ' ' && current[1..][1..] == current[2..];
    assert Trimmed(current[2..], isSpace);
    StripTrims(current[2..], isSpace);
    assert TrimLeft(current[1..], isSpace) == TrimLeft(current[2..], isSpace);
  }

  lemma AlternatesAppend(current: string, sent: string, isSpace: char -> bool)
    requires Alternates(current, isSpace) && IsSentence(sent, isSpace) && |sent| == 1
    ensures Alternates(current + " " + sent, isSpace)
  {
  }

  /** The buffer loses one word and its blank for each it gains once it has reached the limit. */
  lemma AlternatingStep(b: Buffers, sent: string, l: Limits, isSpace: char -> bool)
    requires isSpace(' ') && IsSentence(sent, isSpace) && |sent| == 1
    requires l.maxChars >= 3 && l.maxChars % 2 == 1 && l.overlap == l.maxChars - 1
    requires b.current == [] || (Alternates(b.current, isSpace) && |b.current| <= l.maxChars)
    ensures var n := AddSentence(b, sent, l, isSpace);
            (n.chunks == b.chunks || n.chunks == b.chunks + [b.current])
            && Alternates(n.current, isSpace) && |n.current| <= l.maxChars
  {
    BufferAfter(b, sent, l, isSpace);
    if b.current != [] {
      AlternatesAppend(b.current, sent, isSpace);
      if |b.current| + 2 > l.maxChars {
        AlternatingCut(b, sent, l, isSpace);
      }
    }
  }

  lemma AlternatingCut(b: Buffers, sent: string, l: Limits, isSpace: char -> bool)
    requires isSpace(' ') && IsSentence(sent, isSpace) && |sent| == 1
    requires l.overlap == l.maxChars - 1 && |b.current| == l.maxChars >= 3 && Alternates(b.current, isSpace)
    ensures Strip(b.current, isSpace) == b.current
    ensures AddSentence(b, sent, l, isSpace) == Buffers(b.chunks + [b.current], b.current[2..] + " " + sent)
    ensures Alternates(b.current[2..] + " " + sent, isSpace)
  {
    StripTrims(b.current, isSpace);
    CutAlternates(b.current, isSpace);
    assert LastChars(b.current, l.overlap) == b.current[1..];
    AlternatesAppend(b.current[2..], sent, isSpace);
  }

  lemma {:induction false} WordsAlternate(sents: seq<string>, l: Limits, isSpace: char -> bool)
    requires Sentencelike(sents, isSpace) && Longest(sents) <= 1
    requires l.maxChars >= 3 && l.maxChars % 2 == 1 && l.overlap == l.maxChars - 1
    ensures var b := AddAll(sents, l, isSpace);
            Within(b.chunks, l.maxChars) && (b.current == [] || Alternates(b.current, isSpace))
                && |b.current| <= l.maxChars
  {
    if sents != [] {
      var m := |sents| - 1;
      WordsAlternate(sents[..m], l, isSpace);
      AlternatingStep(AddAll(sents[..m], l, isSpace), sents[m], l, isSpace);
    }
  }

  /** With room for one character at most nothing is ever buffered. */
  lemma NothingFits(sents: seq<string>, l: Limits, isSpace: char -> bool)
    requires Sentencelike(sents, isSpace) && l.maxChars <= 1
    ensures Within(ChunksOf(sents, l, isSpace), l.maxChars)
  {
    EmptyBufferIff(sents, l, isSpace);
    BuffersStaySmall(sents, l, isSpace);
  }

  lemma {:induction false} BuffersStaySmall(sents: seq<string>, l: Limits, isSpace: char -> bool)
    requires Sentencelike(sents, isSpace) && l.maxChars <= 1
    ensures Within(AddAll(sents, l, isSpace).chunks, l.maxChars)
  {
    if sents != [] {
      var m := |sents| - 1;
      BuffersStaySmall(sents[..m], l, isSpace);
      EmptyBufferIff(sents[..m], l, isSpace);
      if l.Splits() {
        PiecesAreShort(sents[m], l, 0);
      }
    }
  }

  /** An overlap, a blank and n characters fit; or single characters leave a blank at the cut, which is stripped. */
  predicate FitsBehind(l: Limits, n: nat) {
    l.overlap > 0 && (l.overlap + 1 + n <= l.maxChars || (n == 1 && l.overlap + 1 == l.maxChars && l.overlap % 2 == 0))
  }

  lemma FittingTextsKeepTheLimit(sents: seq<string>, l: Limits, isSpace: char -> bool, n: nat)
    requires Sentencelike(sents, isSpace) && Longest(sents) <= n
    requires n == 0 || l.maxChars <= 1 || FitsBehind(l, n)
    ensures Within(ChunksOf(sents, l, isSpace), l.maxChars)
  {
    if l.maxChars <= 1 {
      NothingFits(sents, l, isSpace);
    } else if n == 0 {
      LongestIsZero(sents);
    } else if l.overlap + 1 + n <= l.maxChars {
      ChunksAreBounded(sents, l, isSpace);
    } else {
      WordsAlternate(sents, l, isSpace);
      BufferIsTrimmed(sents, l, isSpace);
      StripTrims(AddAll(sents, l, isSpace).current, isSpace);
    }
  }

  lemma LongestIsZero(sents: seq<string>)
    requires Longest(sents) == 0
    ensures sents == [] || sents[|sents| - 1] == []
  {
  }

  /**
   For sentences of up to n characters, whatever the limits, chunks keep to
   max_chars exactly if nothing can be buffered at all or n fit behind an overlap.
   */
  lemma AlwaysWithinIff(l: Limits, isSpace: char -> bool, c: char, n: nat)
    requires isSpace(' ') && !isSpace(c)
    ensures AlwaysWithin(l, isSpace, n) <==> n == 0 || l.maxChars <= 1 || FitsBehind(l, n)
  {
    if n == 0 || l.maxChars <= 1 || FitsBehind(l, n) {
      forall sents | Sentencelike(sents, isSpace) && Longest(sents) <= n
        ensures Within(ChunksOf(sents, l, isSpace), l.maxChars)
      {
        FittingTextsKeepTheLimit(sents, l, isSpace, n);
      }
    } else if l.overlap == 0 || n == 1 {
      WordsOverflow(l, isSpace, c, n);
    } else {
      LongWordOverflows(l, isSpace, c, n);
    }
  }

  ghost predicate AlwaysBounded(l: Limits, isSpace: char -> bool) {
    forall sents :: Sentencelike(sents, isSpace) ==> Within(ChunksOf(sents, l, isSpace), Bound(sents, l))
  }

  /** The bound by overlap and longest sentence holds exactly if there is an overlap, or no room for a buffer. */
  lemma AlwaysBoundedIff(l: Limits, isSpace: char -> bool, c: char)
    requires isSpace(' ') && !isSpace(c)
    ensures AlwaysBounded(l, isSpace) <==> l.overlap > 0 || l.maxChars <= 1
  {
    if l.overlap > 0 || l.maxChars <= 1 {
      forall sents | Sentencelike(sents, isSpace) ensures Within(ChunksOf(sents, l, isSpace), Bound(sents, l)) {
        if l.overlap > 0 {
          ChunksAreBounded(sents, l, isSpace);
        } else {
          NothingFits(sents, l, isSpace);
        }
      }
    } else {
      var sents := NoOverlapNoBound(l, isSpace, c, Max(l.maxChars, 2));
      assert !Within(ChunksOf(sents, l, isSpace), Bound(sents, l));
    }
  }

  /** Without an overlap nothing bounds the chunks, not even for words of one character. */
  lemma NoOverlapNoBound(l: Limits, isSpace: char -> bool, c: char, n: nat) returns (sents: seq<string>)
    requires isSpace(' ') && !isSpace(c) && l.overlap == 0 && l.maxChars >= 2
    ensures Sentencelike(sents, isSpace) && Longest(sents) == 1 && !Within(ChunksOf(sents, l, isSpace), n)
  {
    var len := 2 * n + 1;
    sents := Fill(c, len);
    FillWords(c, len, isSpace);
    FillFills(c, len, l, isSpace);
    LastIsLong(sents, l, isSpace, n);
  }

  // ---- Limits that do not fit together ----

  ghost predicate AlwaysCovers(l: Limits, isSpace: char -> bool) {
    forall sents, k :: Sentencelike(sents, isSpace) && 0 <= k < |sents| ==>
        Covered(sents[k], ChunksOf(sents, l, isSpace), l)
  }

  /** Nothing is ever lost exactly if the overlap is below the limit; else a long first sentence vanishes. */
  lemma AlwaysCoversIff(l: Limits, isSpace: char -> bool, c: char)
    requires isSpace(' ') && !isSpace(c)
    ensures AlwaysCovers(l, isSpace) <==> l.overlap < l.maxChars
  {
    if l.overlap < l.maxChars {
      forall sents, k | Sentencelike(sents, isSpace) && 0 <= k < |sents|
        ensures Covered(sents[k], ChunksOf(sents, l, isSpace), l)
      {
        NoSentenceIsLost(sents, l, isSpace, k);
      }
    } else {
      var sent := Repeat(c, l.maxChars + 1);
      assert [sent][..0] == [] && AddAll([sent], l, isSpace) == Buffers([] + [], "");
      assert ChunksOf([sent], l, isSpace) == [];
      assert Sentencelike([sent], isSpace) && !Covered([sent][0], [], l);
    }
  }
}
