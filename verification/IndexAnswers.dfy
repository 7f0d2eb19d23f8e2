/** What the two indices' answers are, said of the documents and their scores alone. */
module IndexAnswers {
  import opened Bm25
  import opened Common
  import opened Documents
  import opened TopK
  import opened VectorStores

  /** A live document with its own score and metadata. */
  ghost predicate IsLiveHit(hit: Hit, scores: seq<real>, metadata: seq<Metadata>, deleted: set<nat>) {
    && hit.docId < |scores| == |metadata| && hit.docId !in deleted
    && hit.score == scores[hit.docId] && hit.meta == metadata[hit.docId]
  }

  ghost predicate HasHit(hits: seq<Hit>, d: nat) {
    exists i :: 0 <= i < |hits| && hits[i].docId == d
  }

  lemma HitIff(hits: seq<Hit>, d: nat)
    ensures HasHit(hits, d) <==> d in Ids(hits)
  {
    if HasHit(hits, d) {
      var i :| 0 <= i < |hits| && hits[i].docId == d;
      assert Ids(hits)[i] == d;
    }
  }

  /** Live documents with their scores, each once, the higher score first. */
  ghost predicate AreLiveHits(hits: seq<Hit>, scores: seq<real>, metadata: seq<Metadata>, deleted: set<nat>) {
    && (forall i :: 0 <= i < |hits| ==> IsLiveHit(hits[i], scores, metadata, deleted))
    && (forall i, j :: 0 <= i < j < |hits| ==> hits[i].docId != hits[j].docId && hits[i].score >= hits[j].score)
  }

  lemma BestAreLiveHits(hits: seq<Hit>, scores: seq<real>, metadata: seq<Metadata>, deleted: set<nat>,
                        eligible: set<nat>)
    requires |metadata| == |scores| && IsTopK(Ids(hits), scores, eligible, |hits|)
    requires forall i :: 0 <= i < |hits| ==> IsLiveHit(hits[i], scores, metadata, deleted)
    ensures AreLiveHits(hits, scores, metadata, deleted)
  {
    forall i, j | 0 <= i < j < |hits| ensures hits[i].docId != hits[j].docId && hits[i].score >= hits[j].score {
      assert Ids(hits)[i] != Ids(hits)[j] && scores[Ids(hits)[i]] >= scores[Ids(hits)[j]];
    }
  }

  /** Left out: so the answer is full, and of documents that score no lower. */
  lemma LeftOutMeansFull(hits: seq<Hit>, scores: seq<real>, eligible: set<nat>, k: nat, d: nat)
    requires IsTopK(Ids(hits), scores, eligible, k)
    requires forall i :: 0 <= i < |hits| ==> hits[i].docId < |scores| && hits[i].score == scores[hits[i].docId]
    requires d in eligible && d < |scores| && !HasHit(hits, d)
    ensures |hits| == k && forall i :: 0 <= i < |hits| ==> scores[d] <= hits[i].score
  {
    HitIff(hits, d);
    if |hits| < k {
      DistinctCount(Ids(hits));
      SubsetCount(Members(Ids(hits)) + {d}, eligible);
    }
    forall i | 0 <= i < |hits| ensures scores[d] <= hits[i].score {
      assert Ids(hits)[i] == hits[i].docId;
    }
  }

  /**
   A sparse answer for a positive top_k: live documents of positive score, best
   first; and a live document of positive score is left out only if top_k others
   score no lower.
   */
  lemma SparseAnswerIs(tokens: Tokens, scores: seq<real>, metadata: seq<Metadata>, deleted: set<nat>, topK: nat,
                       hits: seq<Hit>)
    requires |metadata| == |scores| && topK > 0 && SparseAnswer(tokens, scores, metadata, deleted, topK, hits)
    ensures |hits| <= topK && AreLiveHits(hits, scores, metadata, deleted)
    ensures forall i :: 0 <= i < |hits| ==> hits[i].score > 0.0
    ensures tokens != [] ==> forall d: nat :: d < |scores| && d !in deleted && scores[d] > 0.0 && !HasHit(hits, d) ==>
              |hits| == topK && forall i :: 0 <= i < |hits| ==> scores[d] <= hits[i].score
  {
    if tokens != [] {
      var eligible := Eligible(scores, deleted, true);
      BestIsTopK(Ids(hits), scores, eligible, topK, |deleted|);
      BestAreLiveHits(hits, scores, metadata, deleted, eligible);
      forall i | 0 <= i < |hits| ensures hits[i].score > 0.0 {
        assert Ids(hits)[i] in eligible;
      }
      forall d: nat | d < |scores| && d !in deleted && scores[d] > 0.0 && !HasHit(hits, d)
        ensures |hits| == topK && forall i :: 0 <= i < |hits| ==> scores[d] <= hits[i].score
      {
        assert ScoreAt(scores, d) > 0.0 && d in eligible;
        LeftOutMeansFull(hits, scores, eligible, topK, d);
      }
    }
  }

  /**
   A dense answer over rows with distinct ids: live rows, best first, and a live row is
   left out only if top_k others score no lower.
  */
  lemma DenseAnswerIs(scores: seq<real>, docIds: seq<nat>, meta: seq<Metadata>, deleted: set<nat>, topK: nat,
                      hits: seq<Hit>)
    returns (rows: seq<nat>)
    requires |docIds| == |meta| == |scores| && Distinct(docIds) && topK > 0
    requires DenseAnswer(scores, docIds, meta, deleted, topK, hits)
    ensures |rows| == |hits| <= topK && Distinct(rows)
    ensures forall i :: 0 <= i < |hits| ==>
              rows[i] < |scores| && hits[i] == Hit(docIds[rows[i]], scores[rows[i]], meta[rows[i]])
                  && hits[i].docId !in deleted
    ensures forall i, j :: 0 <= i < j < |hits| ==> hits[i].score >= hits[j].score
    ensures forall r: nat :: r < |scores| && docIds[r] !in deleted && r !in rows ==>
              |rows| == topK && forall i :: 0 <= i < |rows| ==> scores[r] <= hits[i].score
  {
    rows :| AreRows(scores, docIds, meta, deleted, topK, hits, rows);
    var eligible := Eligible(scores, DeadRows(docIds, deleted), false);
    BestIsTopK(rows, scores, eligible, topK, |deleted|);
    forall i, j | 0 <= i < j < |hits| ensures hits[i].score >= hits[j].score {
      assert scores[rows[i]] >= scores[rows[j]];
    }
    forall r: nat | r < |scores| && docIds[r] !in deleted && r !in rows
      ensures |rows| == topK && forall i :: 0 <= i < |rows| ==> scores[r] <= hits[i].score
    {
      assert r in eligible;
      if |rows| < topK {
        DistinctCount(rows);
        SubsetCount(Members(rows) + {r}, eligible);
      }
    }
  }
}
