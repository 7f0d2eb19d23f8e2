/**
 The link graph: URL ids, the adjacency kept as out-rows and in-rows, the dirty
 flag over the cached PageRank scores, and serialisation.
 A missing row of either dictionary reads as the empty row.
 */
module LinkGraphs {
  import opened Common
  import opened Convergence
  import opened Decimal
  import opened PageRank
  import opened Ranking
  import opened Stationary
  import opened Sums

  function Row(m: map<nat, seq<nat>>, i: nat): seq<nat> {
    if i in m then m[i] else []
  }

  function RowsOf(out: map<nat, seq<nat>>, n: nat): Rows {
    seq(n, i requires 0 <= i < n => Row(out, i))
  }

  function ScoreMap(rank: seq<real>): map<nat, real> {
    map i: nat | i < |rank| :: rank[i]
  }

  /** The scores a computation on these rows stores; an empty graph has none. */
  function FreshScores(g: Rows, d: real, iterations: int, tol: real): map<nat, real> {
    ScoreMap(Solve(g, d, iterations, tol).0)
  }

  /** The score kept for a URL; an unknown URL counts as zero. */
  function StoredScore(nodes: map<string, nat>, scores: map<nat, real>, url: string): real {
    if url in nodes && nodes[url] in scores then scores[nodes[url]] else 0.0
  }

  function Magnified(score: real): real {
    score * 1000000.0
  }

  ghost predicate Numbered(urlToId: map<string, nat>, idToUrl: map<nat, string>) {
    && (forall i: nat :: i in idToUrl <==> i < |urlToId|)
    && (forall u :: u in urlToId ==> urlToId[u] in idToUrl && idToUrl[urlToId[u]] == u)
    && (forall i :: i in idToUrl ==> idToUrl[i] in urlToId && urlToId[idToUrl[i]] == i)
  }

  ghost predicate Edges(m: map<nat, seq<nat>>, n: nat) {
    forall i :: i in m ==> i < n && IsRow(m[i], n)
  }

  /** The in-rows are the transpose of the out-rows. */
  ghost predicate Transposed(out: map<nat, seq<nat>>, into: map<nat, seq<nat>>) {
    forall s: nat, t: nat :: s in Row(into, t) <==> t in Row(out, s)
  }

  ghost function LinkPairs(urlToId: map<string, nat>, out: map<nat, seq<nat>>): set<(string, string)> {
    set u, v | u in urlToId && v in urlToId && urlToId[v] in Row(out, urlToId[u]) :: (u, v)
  }

  /** Numbering new URLs adds no links. */
  lemma LinksUnderGrowth(before: map<string, nat>, after: map<string, nat>, out: map<nat, seq<nat>>)
    requires Edges(out, |before|)
    requires forall u :: u in before ==> u in after && after[u] == before[u]
    requires forall u :: u in after && u !in before ==> after[u] >= |before|
    ensures LinkPairs(before, out) == LinkPairs(after, out)
  {
    forall s: nat | s >= |before| ensures Row(out, s) == [] {
    }
    forall s: nat, t | t in Row(out, s) ensures t < |before| {
      assert IsRow(out[s], |before|);
    }
  }

  lemma LinkIsEdge(urlToId: map<string, nat>, out: map<nat, seq<nat>>, src: string, dst: string)
    requires src in urlToId && dst in urlToId
    ensures (src, dst) in LinkPairs(urlToId, out) <==> urlToId[dst] in Row(out, urlToId[src])
  {
  }

  lemma LinksAfterAppend(urlToId: map<string, nat>, idToUrl: map<nat, string>, out: map<nat, seq<nat>>,
                         src: string, dst: string)
    requires Numbered(urlToId, idToUrl) && src in urlToId && dst in urlToId
    ensures var s, t := urlToId[src], urlToId[dst];
            LinkPairs(urlToId, out[s := Row(out, s) + [t]]) == LinkPairs(urlToId, out) + {(src, dst)}
  {
    var s, t := urlToId[src], urlToId[dst];
    var grown := out[s := Row(out, s) + [t]];
    forall u, v | u in urlToId && v in urlToId
      ensures urlToId[v] in Row(grown, urlToId[u])
         <==> urlToId[v] in Row(out, urlToId[u]) || (u == src && v == dst)
    {
      assert idToUrl[urlToId[u]] == u && idToUrl[urlToId[v]] == v;
    }
  }

  ghost function LinksFrom(url: string, outlinks: seq<string>): set<(string, string)> {
    set v | v in outlinks :: (url, v)
  }

  /** A page with no out-links is not entered into the graph. */
  ghost function PageUrls(url: string, outlinks: seq<string>): set<string> {
    if outlinks == [] then {} else {url} + set v | v in outlinks
  }

  lemma PageAppend(url: string, outlinks: seq<string>, i: nat, links: set<(string, string)>, urls: set<string>)
    requires i < |outlinks|
    ensures links + LinksFrom(url, outlinks[..i + 1]) == links + LinksFrom(url, outlinks[..i]) + {(url, outlinks[i])}
    ensures urls + PageUrls(url, outlinks[..i + 1]) == urls + PageUrls(url, outlinks[..i]) + {url, outlinks[i]}
  {
    assert outlinks[..i + 1] == outlinks[..i] + [outlinks[i]];
  }

  lemma EdgesAfterAppend(m: map<nat, seq<nat>>, n: nat, i: nat, x: nat)
    requires Edges(m, n) && i < n && x < n && x !in Row(m, i)
    ensures Edges(m[i := Row(m, i) + [x]], n)
  {
    var row := Row(m, i) + [x];
    forall a, b | 0 <= a < b < |row| ensures row[a] != row[b] {
      assert row[a] in Row(m, i);
    }
  }

  lemma TransposeAfterAppend(out: map<nat, seq<nat>>, into: map<nat, seq<nat>>, s: nat, t: nat)
    requires Transposed(out, into)
    ensures Transposed(out[s := Row(out, s) + [t]], into[t := Row(into, t) + [s]])
  {
    var out', into' := out[s := Row(out, s) + [t]], into[t := Row(into, t) + [s]];
    forall a: nat, b: nat ensures a in Row(into', b) <==> b in Row(out', a) {
      assert a in Row(into, b) <==> b in Row(out, a);
    }
  }

  /** Every id has one of its URLs as name. */
  ghost predicate IsNamed(nodes: map<string, nat>, names: map<nat, string>) {
    && (forall u :: u in nodes ==> nodes[u] in names)
    && (forall i :: i in names ==> names[i] in nodes && nodes[names[i]] == i)
  }

  /** The ids are 0..n-1, each of one URL. */
  ghost predicate IsNumbering(nodes: map<string, nat>) {
    exists idToUrl :: Numbered(nodes, idToUrl)
  }

  lemma NamesNumber(nodes: map<string, nat>, names: map<nat, string>)
    requires IsNamed(nodes, names)
    ensures Numbered(nodes, names) <==> IsNumbering(nodes)
  {
    if IsNumbering(nodes) {
      var idToUrl :| Numbered(nodes, idToUrl);
      forall u | u in nodes ensures names[nodes[u]] == u {
        assert idToUrl[nodes[u]] == u == idToUrl[nodes[names[nodes[u]]]];
      }
      forall i: nat ensures i in names <==> i < |nodes| {
        if i in names {
          assert nodes[names[i]] in idToUrl;
        }
        if i < |nodes| {
          assert nodes[idToUrl[i]] == i;
        }
      }
    }
  }

  datatype GraphData = GraphData(
    nodes: map<string, nat>,
    edges: map<string, seq<nat>>,
    scores: map<string, real>)

  /** Data that to_dict writes: ids 0..n-1, integer keys, duplicate-free edge lists. */
  ghost predicate WellFormedData(data: GraphData) {
    && IsNumbering(data.nodes)
    && (forall k :: k in data.edges ==> Canonical(k))
    && (forall k :: k in data.scores ==> Canonical(k))
    && Edges(DecodeKeys(data.edges), |data.nodes|)
  }

  /** What a serialised graph says about the graph it was written from. */
  lemma EncodedDataIsWellFormed(urlToId: map<string, nat>, idToUrl: map<nat, string>,
                                out: map<nat, seq<nat>>, scores: map<nat, real>)
    requires Numbered(urlToId, idToUrl) && Edges(out, |urlToId|)
    ensures var data := GraphData(urlToId, EncodeKeys(out), EncodeKeys(scores));
            WellFormedData(data) && DecodeKeys(data.edges) == out && DecodeKeys(data.scores) == scores
  {
    DecodeEncode(out);
    DecodeEncode(scores);
  }

  // ---- Sums over in-rows and over the random surfer's weights ----

  function OutShares(g: Rows, r: seq<real>): seq<real>
    requires |r| == |g|
  {
    seq(|g|, s requires 0 <= s < |g| => if g[s] == [] then 0.0 else r[s] / |g[s]| as real)
  }

  function DanglingShares(g: Rows, r: seq<real>): seq<real>
    requires |r| == |g|
  {
    seq(|g|, s requires 0 <= s < |g| => if g[s] == [] then r[s] / |g| as real else 0.0)
  }

  /** in_sum over the in-row plus dangling_sum is what the surfer model sends to t. */
  lemma InRowSum(g: Rows, r: seq<real>, t: nat, inRow: seq<nat>)
    requires |r| == |g| && t < |g|
    requires Distinct(inRow) && forall s: nat :: s in inRow <==> s < |g| && t in g[s]
    ensures forall k :: 0 <= k < |inRow| ==> inRow[k] < |g|
    ensures Sum(Picked(OutShares(g, r), inRow)) + Sum(DanglingShares(g, r)) == Received(g, r)[t]
  {
    forall k | 0 <= k < |inRow| ensures inRow[k] < |g| {
      assert inRow[k] in inRow;
    }
    SumOverList(OutShares(g, r), inRow);
    var masked, dangling, flow := Masked(OutShares(g, r), inRow), DanglingShares(g, r), Flow(g, r, t);
    forall s | 0 <= s < |g| ensures flow[s] == masked[s] + dangling[s] {
      if g[s] == [] {
        Reciprocal(r[s], |g| as real);
      } else if t in g[s] {
        Reciprocal(r[s], |g[s]| as real);
      }
    }
    SumPlus(masked, dangling, flow);
  }

  lemma StepValue(g: Rows, d: real, r: seq<real>, n: nat, t: nat, x: real)
    requires |r| == |g| == n && t < n && x == Received(g, r)[t]
    ensures (1.0 - d) / n as real + d * x == Surf(g, d, r)[t]
  {
    SurfAt(g, d, r, t);
    SameProduct(d, x, Received(g, r)[t]);
  }

  /** The share of the dangling nodes, the same for every target. */
  method DanglingSum(out: map<nat, seq<nat>>, rank: seq<real>) returns (total: real)
    ensures total == Sum(DanglingShares(RowsOf(out, |rank|), rank))
  {
    var n := |rank|;
    ghost var terms := DanglingShares(RowsOf(out, n), rank);
    total := 0.0;
    var i := 0;
    while i < n
      invariant 0 <= i <= n && total == Sum(terms[..i])
    {
      SumAppend(terms[..i], terms[i]);
      assert terms[..i + 1] == terms[..i] + [terms[i]];
      if Row(out, i) == [] {
        total := total + rank[i] / n as real;
      }
      i := i + 1;
    }
    assert terms[..i] == terms;
  }

  /** What arrives over the links of an in-row. */
  method InSum(out: map<nat, seq<nat>>, rank: seq<real>, inRow: seq<nat>) returns (total: real)
    requires forall k :: 0 <= k < |inRow| ==> inRow[k] < |rank|
    ensures total == Sum(Picked(OutShares(RowsOf(out, |rank|), rank), inRow))
  {
    ghost var terms := Picked(OutShares(RowsOf(out, |rank|), rank), inRow);
    total := 0.0;
    var k := 0;
    while k < |inRow|
      invariant 0 <= k <= |inRow| && total == Sum(terms[..k])
    {
      SumAppend(terms[..k], terms[k]);
      assert terms[..k + 1] == terms[..k] + [terms[k]];
      var outCount := |Row(out, inRow[k])|;
      if outCount != 0 {
        total := total + rank[inRow[k]] / outCount as real;
      }
      k := k + 1;
    }
    assert terms[..k] == terms;
  }

  /** One round over all nodes: the new rank, and the L1 change it made. */
  method Round(out: map<nat, seq<nat>>, into: map<nat, seq<nat>>, d: real, rank: seq<real>)
    returns (newRank: seq<real>, delta: real)
    requires rank != [] && Edges(out, |rank|) && Edges(into, |rank|) && Transposed(out, into)
    ensures newRank == Surf(RowsOf(out, |rank|), d, rank) && delta == L1(newRank, rank)
  {
    var n := |rank|;
    ghost var g := RowsOf(out, n);
    ghost var next := Surf(g, d, rank);
    ghost var gaps := Gaps(next, rank);
    var danglingSum := DanglingSum(out, rank);
    newRank, delta := [], 0.0;
    var node := 0;
    while node < n
      invariant 0 <= node <= n && newRank == next[..node] && delta == Sum(gaps[..node])
    {
      var inRow := Row(into, node);
      InRowSum(g, rank, node, inRow);
      var inSum := InSum(out, rank, inRow);
      var received := inSum + danglingSum;
      StepValue(g, d, rank, n, node, received);
      var score := (1.0 - d) / n as real + d * received;
      assert score == next[node];
      newRank := newRank + [score];
      assert next[..node + 1] == next[..node] + [next[node]];
      delta := delta + Abs(newRank[node] - rank[node]);
      SumAppend(gaps[..node], gaps[node]);
      assert gaps[..node + 1] == gaps[..node] + [gaps[node]];
      node := node + 1;
    }
    assert gaps[..node] == gaps;
  }

  /** The ids with their URLs; an id given twice keeps one of them. */
  method Names(nodes: map<string, nat>) returns (names: map<nat, string>)
    ensures IsNamed(nodes, names)
  {
    names := map[];
    var todo := nodes.Keys;
    while todo != {}
      invariant todo <= nodes.Keys
      invariant forall u :: u in nodes && u !in todo ==> nodes[u] in names
      invariant forall i :: i in names ==> names[i] in nodes && nodes[names[i]] == i
      decreases todo
    {
      var u :| u in todo;
      names := names[nodes[u] := u];
      todo := todo - {u};
    }
  }

  class LinkGraph {
    const damping: real
    const iterations: int
    const tol: real

    var urlToId: map<string, nat>
    var idToUrl: map<nat, string>
    var outEdges: map<nat, seq<nat>>
    var inEdges: map<nat, seq<nat>>
    var scores: map<nat, real>
    var dirty: bool

    function NodeCount(): nat
      reads this
    {
      |urlToId|
    }

    function OutRows(): Rows
      reads this
    {
      RowsOf(outEdges, |urlToId|)
    }

    /** The scores a computation on the current graph gives. */
    function Fresh(): map<nat, real>
      reads this
    {
      FreshScores(OutRows(), damping, iterations, tol)
    }

    ghost predicate Structure()
      reads this
    {
      && Numbered(urlToId, idToUrl)
      && Edges(outEdges, |urlToId|)
      && Edges(inEdges, |urlToId|)
      && Transposed(outEdges, inEdges)
    }

    /** Cached scores are never stale. */
    ghost predicate Valid()
      reads this
    {
      Structure() && (!dirty || urlToId == map[] ==> scores == Fresh())
    }

    /** The hyperlinks recorded, as pairs of URLs. */
    ghost function Links(): set<(string, string)>
      reads this
    {
      LinkPairs(urlToId, outEdges)
    }

    constructor (damping: real, iterations: int, tol: real)
      ensures Valid() && dirty
      ensures this.damping == damping && this.iterations == iterations && this.tol == tol
      ensures urlToId == map[] && outEdges == map[] && inEdges == map[]
    {
      this.damping, this.iterations, this.tol := damping, iterations, tol;
      urlToId, idToUrl, outEdges, inEdges, scores := map[], map[], map[], map[], map[];
      dirty := true;
    }

    method GetOrCreate(url: string) returns (id: nat)
      requires Structure()
      modifies this`urlToId, this`idToUrl
      ensures Structure() && url in urlToId && urlToId[url] == id
      ensures urlToId == old(urlToId)[url := id]
      ensures url in old(urlToId) ==> unchanged(this)
      ensures url !in old(urlToId) ==> id == |old(urlToId)|
    {
      if url !in urlToId {
        var newId := |urlToId|;
        urlToId := urlToId[url := newId];
        idToUrl := idToUrl[newId := url];
      }
      id := urlToId[url];
    }

    method AddLink(src: string, dst: string)
      requires Valid()
      modifies this
      ensures Valid()
      ensures urlToId.Keys == old(urlToId.Keys) + {src, dst}
      ensures forall u :: u in old(urlToId) ==> urlToId[u] == old(urlToId[u])
      ensures Links() == old(Links()) + {(src, dst)}
      ensures scores == old(scores)
      ensures dirty == (old(dirty) || (src, dst) !in old(Links()))
    {
      var srcId, dstId := Register(src, dst);
      Connect(src, srcId, dst, dstId);
    }

    method Register(src: string, dst: string) returns (srcId: nat, dstId: nat)
      requires Structure()
      modifies this`urlToId, this`idToUrl
      ensures Structure()
      ensures src in urlToId && urlToId[src] == srcId && dst in urlToId && urlToId[dst] == dstId
      ensures urlToId.Keys == old(urlToId.Keys) + {src, dst}
      ensures forall u :: u in old(urlToId) ==> urlToId[u] == old(urlToId[u])
      ensures Links() == old(Links())
      ensures dstId in Row(outEdges, srcId) ==> unchanged(this)
    {
      srcId := GetOrCreate(src);
      dstId := GetOrCreate(dst);
      LinksUnderGrowth(old(urlToId), urlToId, outEdges);
    }

    method Connect(src: string, srcId: nat, dst: string, dstId: nat)
      requires Structure() && src in urlToId && dst in urlToId
      requires urlToId[src] == srcId && urlToId[dst] == dstId
      modifies this`outEdges, this`inEdges, this`dirty
      ensures Structure()
      ensures Links() == old(Links()) + {(src, dst)}
      ensures dirty == (old(dirty) || (src, dst) !in old(Links()))
      ensures dstId in old(Row(outEdges, srcId)) ==> unchanged(this)
      ensures dstId !in old(Row(outEdges, srcId)) ==> dirty
    {
      LinkIsEdge(urlToId, outEdges, src, dst);
      if dstId !in Row(outEdges, srcId) {
        AppendEdge(src, dst);
      }
    }

    method AppendEdge(src: string, dst: string)
      requires Structure() && src in urlToId && dst in urlToId
      requires urlToId[dst] !in Row(outEdges, urlToId[src])
      modifies this`outEdges, this`inEdges, this`dirty
      ensures Structure() && dirty
      ensures Links() == old(Links()) + {(src, dst)}
    {
      var s, t := urlToId[src], urlToId[dst];
      EdgesAfterAppend(outEdges, |urlToId|, s, t);
      EdgesAfterAppend(inEdges, |urlToId|, t, s);
      TransposeAfterAppend(outEdges, inEdges, s, t);
      LinksAfterAppend(urlToId, idToUrl, outEdges, src, dst);
      outEdges := outEdges[s := Row(outEdges, s) + [t]];
      inEdges := inEdges[t := Row(inEdges, t) + [s]];
      dirty := true;
    }

    method AddPage(url: string, outlinks: seq<string>)
      requires Valid()
      modifies this
      ensures Valid()
      ensures Links() == old(Links()) + LinksFrom(url, outlinks)
      ensures urlToId.Keys == old(urlToId.Keys) + PageUrls(url, outlinks)
      ensures forall u :: u in old(urlToId) ==> urlToId[u] == old(urlToId[u])
    {
      var i := 0;
      while i < |outlinks|
        invariant 0 <= i <= |outlinks| && Valid()
        invariant Links() == old(Links()) + LinksFrom(url, outlinks[..i])
        invariant urlToId.Keys == old(urlToId.Keys) + PageUrls(url, outlinks[..i])
        invariant forall u :: u in old(urlToId) ==> urlToId[u] == old(urlToId[u])
      {
        AddLink(url, outlinks[i]);
        PageAppend(url, outlinks, i, old(Links()), old(urlToId.Keys));
        i := i + 1;
      }
      assert outlinks[..i] == outlinks;
    }

    // ---- PageRank ----

    method ComputePageRank()
      requires Structure() && (urlToId == map[] ==> scores == Fresh())
      modifies this`scores, this`dirty
      ensures Valid() && scores == Fresh()
      ensures dirty == (old(dirty) && urlToId == map[])
    {
      var n := |urlToId|;
      if n == 0 {
        return;
      }
      var rank := seq(n, i requires 0 <= i < n => 1.0 / n as real);
      ghost var g := OutRows();
      var round := 0;
      var converged := false;
      while round < iterations && !converged
        invariant 0 <= round <= Rounds(iterations) && |rank| == n
        invariant Solve(g, damping, iterations, tol).0
               == if converged then rank else Loop(g, damping, tol, Rounds(iterations) - round, rank).0
        decreases iterations - round
      {
        var newRank, delta := Round(outEdges, inEdges, damping, rank);
        rank := newRank;
        round := round + 1;
        converged := delta < tol;
      }
      scores := map i: nat | i < n :: rank[i];
      dirty := false;
    }

    method GetScore(url: string) returns (score: real)
      requires Valid()
      modifies this`scores, this`dirty
      ensures Valid() && scores == Fresh() && (!dirty || urlToId == map[])
      ensures score == StoredScore(urlToId, scores, url)
      ensures score == if url in urlToId then Solve(OutRows(), damping, iterations, tol).0[urlToId[url]] else 0.0
    {
      if dirty {
        ComputePageRank();
      }
      if url !in urlToId {
        return 0.0;
      }
      var id := urlToId[url];
      score := if id in scores then scores[id] else 0.0;
    }

    /** The score on a logarithmic scale, as a ranking feature. */
    method LogScore(url: string, log1p: real -> real) returns (score: real)
      requires Valid()
      modifies this`scores, this`dirty
      ensures Valid() && scores == Fresh() && (!dirty || urlToId == map[])
      ensures score == log1p(Magnified(StoredScore(urlToId, scores, url)))
    {
      var raw := GetScore(url);
      score := log1p(raw * 1000000.0);
    }

    /** Every URL with its score, in the order the URLs were first seen. */
    ghost function ScoredUrls(): seq<(string, real)>
      requires Structure()
      reads this
    {
      seq(NodeCount(), i requires 0 <= i < NodeCount() && Structure() reads this =>
        (idToUrl[i], Solve(OutRows(), damping, iterations, tol).0[i]))
    }

    method TopK(k: int) returns (ranked: seq<(string, real)>)
      requires Valid()
      modifies this`scores, this`dirty
      ensures Valid()
      ensures ranked == Prefix(SortDescending(ScoredUrls(), (x: (string, real)) => x.1), k)
    {
      if dirty {
        ComputePageRank();
      }
      var items: seq<(string, real)> := [];
      var i := 0;
      while i < |urlToId|
        invariant 0 <= i <= |urlToId| && items == ScoredUrls()[..i]
      {
        items := items + [(idToUrl[i], scores[i])];
        i := i + 1;
      }
      assert items == ScoredUrls();
      ranked := Prefix(SortDescending(items, (x: (string, real)) => x.1), k);
    }

    // ---- Serialisation ----

    method ToDict() returns (data: GraphData)
      requires Valid()
      modifies this`scores, this`dirty
      ensures Valid() && scores == Fresh()
      ensures WellFormedData(data) && data.nodes == urlToId
      ensures DecodeKeys(data.edges) == outEdges && DecodeKeys(data.scores) == scores
    {
      if dirty {
        ComputePageRank();
      }
      data := GraphData(urlToId, EncodeKeys(outEdges), EncodeKeys(scores));
      EncodedDataIsWellFormed(urlToId, idToUrl, outEdges, scores);
    }

    /**
     Loading fails exactly on a key that is not a number. What it loads is a
     consistent graph exactly if the ids are a numbering and the edge lists are
     rows of it; the in-rows are rebuilt as the transpose in any case.
     */
    static method FromDict(data: GraphData, damping: real, iterations: int, tol: real)
      returns (loaded: Option<LinkGraph>)
      ensures loaded.None? <==> exists k :: (k in data.edges || k in data.scores) && ReadInt(k).None?
      ensures loaded.Some? ==> var g := loaded.value;
        && fresh(g) && g.damping == damping && g.iterations == iterations && g.tol == tol
        && g.urlToId == data.nodes && !g.dirty
        && Decodes(data.edges, g.outEdges) && Decodes(data.scores, g.scores)
        && IsNamed(g.urlToId, g.idToUrl) && Transposed(g.outEdges, g.inEdges)
        && (g.Structure() <==> IsNumbering(data.nodes) && Edges(g.outEdges, |data.nodes|))
    {
      var edges := ReadKeys(data.edges);
      var stored := ReadKeys(data.scores);
      if edges.None? || stored.None? {
        return None;
      }
      var g := new LinkGraph(damping, iterations, tol);
      var names := Names(data.nodes);
      g.Restore(data.nodes, names, edges.value, stored.value);
      NamesNumber(data.nodes, names);
      loaded := Some(g);
    }

    method Restore(nodes: map<string, nat>, names: map<nat, string>, edges: map<nat, seq<nat>>, stored: map<nat, real>)
      requires inEdges == map[]
      modifies this
      ensures urlToId == nodes && idToUrl == names && outEdges == edges && scores == stored && !dirty
      ensures Transposed(outEdges, inEdges) && (Edges(outEdges, |urlToId|) ==> Edges(inEdges, |urlToId|))
    {
      urlToId, idToUrl, outEdges, scores, dirty := nodes, names, edges, stored, false;
      RebuildInEdges();
    }

    method RebuildInEdges()
      requires inEdges == map[]
      modifies this`inEdges
      ensures Transposed(outEdges, inEdges) && (Edges(outEdges, |urlToId|) ==> Edges(inEdges, |urlToId|))
    {
      var todo := outEdges.Keys;
      while todo != {}
        invariant todo <= outEdges.Keys
        invariant Edges(outEdges, |urlToId|) ==> Edges(inEdges, |urlToId|)
        invariant forall s: nat, t: nat :: s in Row(inEdges, t) <==> s !in todo && t in Row(outEdges, s)
        decreases todo
      {
        var src :| src in todo;
        AppendToInRows(src);
        todo := todo - {src};
      }
    }

    method AppendToInRows(src: nat)
      requires src in outEdges
      requires forall t: nat :: src !in Row(inEdges, t)
      modifies this`inEdges
      ensures Edges(outEdges, |urlToId|) && old(Edges(inEdges, |urlToId|)) ==> Edges(inEdges, |urlToId|)
      ensures forall s: nat, t: nat ::
                s in Row(inEdges, t) <==> if s == src then t in outEdges[src] else s in old(Row(inEdges, t))
    {
      var dsts := outEdges[src];
      var k := 0;
      while k < |dsts|
        invariant 0 <= k <= |dsts|
        invariant Edges(outEdges, |urlToId|) && old(Edges(inEdges, |urlToId|)) ==> Edges(inEdges, |urlToId|)
        invariant forall s: nat, t: nat ::
                    s in Row(inEdges, t) <==> if s == src then t in dsts[..k] else s in old(Row(inEdges, t))
      {
        var dst := dsts[k];
        assert dsts[..k + 1] == dsts[..k] + [dst];
        ghost var before := inEdges;
        inEdges := inEdges[dst := Row(inEdges, dst) + [src]];
        forall s: nat, t: nat
          ensures s in Row(inEdges, t) <==> if s == src then t in dsts[..k + 1] else s in old(Row(inEdges, t))
        {
          assert s in Row(before, t) <==> if s == src then t in dsts[..k] else s in old(Row(inEdges, t));
          assert s in Row(inEdges, t) <==> s in Row(before, t) || (s == src && t == dst);
        }
        if Edges(outEdges, |urlToId|) && old(Edges(inEdges, |urlToId|)) {
          assert IsRow(dsts, |urlToId|) && dst !in dsts[..k];
          EdgesAfterAppend(before, |urlToId|, dst, src);
        }
        k := k + 1;
      }
    }
  }

  lemma GraphRowsAreWellFormed(out: map<nat, seq<nat>>, n: nat)
    requires Edges(out, n)
    ensures WellFormed(RowsOf(out, n))
  {
  }

  /**
   Clean scores form a probability distribution with floor (1-d)/n, and they are
   close to the one stationary vector of the graph: within d*tol/(1-d) if the
   loop converged, within 2*d^iterations if it ran out of rounds; which of the
   two to expect is known from the parameters.
   */
  lemma StoredScoresAreAccurate(g: LinkGraph) returns (rank: seq<real>, exact: seq<real>)
    requires g.Valid() && !g.dirty && g.urlToId != map[] && 0.0 <= g.damping < 1.0
    ensures g.scores == ScoreMap(rank) && |rank| == g.NodeCount()
    ensures IsDistribution(rank, Teleport(g.damping, g.NodeCount()))
    ensures IsFixedPoint(g.OutRows(), g.damping, exact)
    ensures forall q :: IsFixedPoint(g.OutRows(), g.damping, q) ==> q == exact
    ensures L1(rank, exact) <= ErrorLimit(g.damping, g.iterations, g.tol,
                                          Solve(g.OutRows(), g.damping, g.iterations, g.tol).1)
    ensures L1(rank, exact) <= PromisedError(g.damping, g.iterations, g.tol)
  {
    var rows := g.OutRows();
    GraphRowsAreWellFormed(g.outEdges, g.NodeCount());
    rank := Solve(rows, g.damping, g.iterations, g.tol).0;
    exact := StationaryVectorExists(rows, g.damping);
    ScoresConserveMass(rows, g.damping, g.iterations, g.tol);
    ErrorBound(rows, g.damping, g.iterations, g.tol, exact);
    ErrorIsPromised(rows, g.damping, g.iterations, g.tol, exact);
  }

  /** Data that to_dict wrote loads, into the one graph it describes. */
  lemma WellFormedDataLoads(data: GraphData)
    requires WellFormedData(data)
    ensures forall k :: k in data.edges || k in data.scores ==> ReadInt(k).Some?
    ensures forall out :: Decodes(data.edges, out) ==> out == DecodeKeys(data.edges) && Edges(out, |data.nodes|)
    ensures forall out :: Decodes(data.scores, out) ==> out == DecodeKeys(data.scores)
  {
    CanonicalKeysAreRead(data.edges);
    CanonicalKeysAreRead(data.scores);
  }

  /** Saving and loading with the same parameters gives a valid graph with equal ids, edges and scores. */
  method Reload(g: LinkGraph) returns (h: LinkGraph)
    requires g.Valid()
    modifies g`scores, g`dirty
    ensures h.Valid() && h.damping == g.damping && h.iterations == g.iterations && h.tol == g.tol
    ensures h.urlToId == g.urlToId && h.outEdges == g.outEdges && h.Links() == g.Links()
    ensures h.scores == g.scores == g.Fresh()
  {
    var data := g.ToDict();
    WellFormedDataLoads(data);
    var loaded := LinkGraph.FromDict(data, g.damping, g.iterations, g.tol);
    h := loaded.value;
  }
}
