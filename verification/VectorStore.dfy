/**
 The dense index, in its exact flat form: one vector per row, a parallel list
 of document ids, and soft deletion by document id. Similarity is an arbitrary function.
 */
module VectorStores {
  import opened Common
  import opened Documents
  import opened TopK

  type Vector = seq<real>

  /** Walks the fetched rows best first, skipping those of tombstoned documents. */
  method CollectRows(indices: seq<nat>, scores: seq<real>, docIds: seq<nat>, meta: seq<Metadata>, deleted: set<nat>,
                     topK: nat)
    returns (hits: seq<Hit>)
    requires |docIds| == |meta| == |scores|
    requires IsTopK(indices, scores, All(|scores|), Fetch(topK, |deleted|, |scores|))
    ensures DenseAnswer(scores, docIds, meta, deleted, topK, hits)
  {
    hits := [];
    ghost var rows, dead := [], DeadRows(docIds, deleted);
    var j := 0;
    while j < |indices| && |hits| < Limit(topK)
      invariant 0 <= j <= |indices| && |hits| <= Limit(topK)
      invariant rows == Live(indices[..j], scores, dead, false) && |rows| == |hits|
      invariant forall i :: 0 <= i < |hits| ==> IsLiveRow(hits[i], rows[i], scores, docIds, meta, deleted)
    {
      var row := indices[j];
      LiveAppend(indices, scores, dead, false, j);
      if docIds[row] !in deleted {
        rows := rows + [row];
        hits := hits + [Hit(docIds[row], scores[row], meta[row])];
      }
      j := j + 1;
    }
    EnoughRows(indices, scores, docIds, deleted, topK, j);
    assert AreRows(scores, docIds, meta, deleted, topK, hits, rows);
  }

  /** A hit is a row of a live document with its score and metadata. */
  ghost predicate IsLiveRow(hit: Hit, row: nat, scores: seq<real>, docIds: seq<nat>, meta: seq<Metadata>,
                            deleted: set<nat>) {
    && row < |docIds| && row < |scores| && row < |meta|
    && hit == Hit(docIds[row], scores[row], meta[row]) && hit.docId !in deleted
  }

  /** The rows whose document is tombstoned. */
  ghost function DeadRows(docIds: seq<nat>, deleted: set<nat>): set<nat> {
    set r | r in All(|docIds|) && docIds[r] in deleted
  }

  /** The hits are the given rows, none of a tombstoned document; with distinct ids the best topK live ones. */
  ghost predicate AreRows(scores: seq<real>, docIds: seq<nat>, meta: seq<Metadata>, deleted: set<nat>, topK: nat,
                          hits: seq<Hit>, rows: seq<nat>) {
    && |rows| == |hits|
    && (forall i :: 0 <= i < |hits| ==> IsLiveRow(hits[i], rows[i], scores, docIds, meta, deleted))
    && (Distinct(docIds) ==> IsBest(rows, scores, Eligible(scores, DeadRows(docIds, deleted), false), topK, |deleted|))
  }

  ghost predicate DenseAnswer(scores: seq<real>, docIds: seq<nat>, meta: seq<Metadata>, deleted: set<nat>, topK: nat,
                              hits: seq<Hit>) {
    exists rows :: AreRows(scores, docIds, meta, deleted, topK, hits, rows)
  }

  lemma EnoughRows(indices: seq<nat>, scores: seq<real>, docIds: seq<nat>, deleted: set<nat>, topK: nat, j: nat)
    requires |docIds| == |scores| && j <= |indices|
    requires IsTopK(indices, scores, All(|scores|), Fetch(topK, |deleted|, |scores|))
    requires var live := Live(indices[..j], scores, DeadRows(docIds, deleted), false);
             |live| <= Limit(topK) && (j == |indices| || |live| == Limit(topK))
    ensures var dead := DeadRows(docIds, deleted);
            Distinct(docIds) ==>
              IsBest(Live(indices[..j], scores, dead, false), scores, Eligible(scores, dead, false), topK, |deleted|)
  {
    if Distinct(docIds) {
      var dead := DeadRows(docIds, deleted);
      DeadRowsCount(docIds, dead, deleted);
      CollectedIsBest(indices, scores, dead, false, |deleted|, topK, j);
    }
  }

  class VectorStore {
    const similarity: (Vector, Vector) -> real

    var index: seq<Vector>
    var docIds: seq<nat>
    var meta: seq<Metadata>
    var deleted: set<nat>

    ghost predicate Valid()
      reads this
    {
      && |docIds| == |index| == |meta|
      && forall d :: d in deleted ==> d in docIds
    }

    constructor (similarity: (Vector, Vector) -> real)
      ensures Valid() && index == [] && docIds == [] && deleted == {}
      ensures this.similarity == similarity
    {
      this.similarity := similarity;
      index, docIds, meta, deleted := [], [], [], {};
    }

    method Add(docId: nat, vector: Vector, metadata: Metadata)
      requires Valid()
      modifies this`index, this`docIds, this`meta
      ensures Valid()
      ensures index == old(index) + [vector] && docIds == old(docIds) + [docId] && meta == old(meta) + [metadata]
    {
      index := index + [vector];
      docIds := docIds + [docId];
      meta := meta + [metadata];
    }

    function Length(): nat
      reads this
    {
      |index|
    }

    function Scores(query: Vector): (scores: seq<real>)
      reads this
      ensures |scores| == |index|
    {
      seq(|index|, i requires 0 <= i < |index| reads this => similarity(index[i], query))
    }

    ghost predicate Answers(query: Vector, topK: nat, hits: seq<Hit>)
      requires Valid()
      reads this
    {
      DenseAnswer(Scores(query), docIds, meta, deleted, topK, hits)
    }

    /** The library that searches the rows refuses to be asked for none of them. */
    method Search(query: Vector, topK: nat) returns (hits: seq<Hit>)
      requires Valid()
      requires index == [] || topK + |deleted| > 0
      ensures Answers(query, topK, hits)
    {
      if |index| == 0 {
        NoRows(Scores(query), docIds, meta, deleted, topK);
        return [];
      }
      var scores := Scores(query);
      var k := Min(topK + |deleted|, |index|);
      var indices := ArgTop(scores, k);
      hits := CollectRows(indices, scores, docIds, meta, deleted, topK);
    }

    method Delete(docId: nat) returns (removed: bool)
      requires Valid()
      modifies this`deleted
      ensures Valid()
      ensures removed <==> docId in docIds && docId !in old(deleted)
      ensures deleted == if removed then old(deleted) + {docId} else old(deleted)
    {
      if docId !in docIds || docId in deleted {
        return false;
      }
      deleted := deleted + {docId};
      removed := true;
    }
  }

  lemma NoRows(scores: seq<real>, docIds: seq<nat>, meta: seq<Metadata>, deleted: set<nat>, topK: nat)
    requires scores == [] && docIds == []
    ensures DenseAnswer(scores, docIds, meta, deleted, topK, [])
  {
    assert Eligible(scores, DeadRows(docIds, deleted), false) == {};
    assert AreRows(scores, docIds, meta, deleted, topK, [], []);
  }

  /** With distinct ids there are no more dead rows than tombstones. */
  lemma {:induction false} DeadRowsCount(docIds: seq<nat>, rows: set<nat>, deleted: set<nat>)
    requires Distinct(docIds)
    requires forall r :: r in rows ==> r < |docIds| && docIds[r] in deleted
    ensures |rows| <= |deleted|
    decreases rows
  {
    if rows != {} {
      var r :| r in rows;
      DeadRowsCount(docIds, rows - {r}, deleted - {docIds[r]});
    }
  }
}
