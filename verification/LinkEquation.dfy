/**
 What the random surfer comes down to, said of links: the one way in which a page
 can divide its rank, the equation that links impose on each score, and the same
 equation over the URLs and hyperlinks of a link graph.
 */
module LinkEquation {
  import opened Common
  import opened LinkGraphs
  import opened PageRank
  import opened Sums
  import TopK

  // ---- How a page divides its rank ----

  /** All of it, to the linked pages alone and to each the same; a page without links gives every page the same. */
  ghost predicate DividesEvenly(g: Rows, s: nat, w: seq<real>)
    requires s < |g|
  {
    && |w| == |g| && Sum(w) == 1.0
    && (g[s] != [] ==> forall t :: 0 <= t < |w| && t !in g[s] ==> w[t] == 0.0)
    && (forall t, u :: 0 <= t < |w| && 0 <= u < |w| && (g[s] == [] || (t in g[s] && u in g[s])) ==> w[t] == w[u])
  }

  lemma PartOfWhole(n: nat, c: real)
    requires n > 0 && n as real * c == 1.0
    ensures c == 1.0 / n as real
  {
  }

  lemma EvenDivisionIsWeights(g: Rows, s: nat, w: seq<real>)
    requires WellFormed(g) && s < |g| && DividesEvenly(g, s, w)
    ensures w == Weights(g, s)
  {
    if g[s] == [] {
      SumConst(w, w[0]);
      PartOfWhole(|g|, w[0]);
    } else {
      var c := w[g[s][0]];
      var f := seq(|g|, t requires 0 <= t < |g| => c);
      assert g[s][0] in g[s];
      SumOverList(f, g[s]);
      SumConst(Picked(f, g[s]), c);
      assert Masked(f, g[s]) == w;
      PartOfWhole(|g[s]|, c);
    }
  }

  lemma WeightsDivideEvenly(g: Rows, s: nat)
    requires WellFormed(g) && s < |g|
    ensures DividesEvenly(g, s, Weights(g, s))
  {
    WeightsSumToOne(g, s);
  }

  /** The surfer's weights are the one even division of a page's rank. */
  lemma WeightsIff(g: Rows, s: nat, w: seq<real>)
    requires WellFormed(g) && s < |g|
    ensures DividesEvenly(g, s, w) <==> w == Weights(g, s)
  {
    WeightsDivideEvenly(g, s);
    if DividesEvenly(g, s, w) {
      EvenDivisionIsWeights(g, s, w);
    }
  }

  // ---- The equation of a score ----

  /** What the first k pages send over their links to t. */
  function OverLinks(g: Rows, r: seq<real>, t: nat, k: nat): real
    requires k <= |g| == |r|
  {
    if k == 0 then 0.0
    else OverLinks(g, r, t, k - 1) + if t in g[k - 1] then r[k - 1] / |g[k - 1]| as real else 0.0
  }

  /** What the first k pages have that link to none. */
  function OfDangling(g: Rows, r: seq<real>, k: nat): real
    requires k <= |g| == |r|
  {
    if k == 0 then 0.0
    else OfDangling(g, r, k - 1) + if g[k - 1] == [] then r[k - 1] else 0.0
  }

  function Inflow(g: Rows, r: seq<real>, t: nat): real
    requires |g| == |r| > 0
  {
    OverLinks(g, r, t, |g|) + OfDangling(g, r, |g|) / |g| as real
  }

  lemma FlowOfOne(g: Rows, r: seq<real>, t: nat, s: nat)
    requires |g| == |r| && s < |g|
    ensures Flow(g, r, t)[s] == (if t in g[s] then r[s] / |g[s]| as real else 0.0)
                              + (if g[s] == [] then r[s] / |g| as real else 0.0)
  {
    if g[s] == [] {
      Reciprocal(r[s], |g| as real);
    } else if t in g[s] {
      Reciprocal(r[s], |g[s]| as real);
    }
  }

  lemma SumOfQuotients(x: real, y: real, n: real)
    requires n > 0.0
    ensures (x + y) / n == x / n + y / n
  {
  }

  lemma {:induction false} FlowUpTo(g: Rows, r: seq<real>, t: nat, k: nat)
    requires k <= |g| == |r| && |g| > 0 && t < |g|
    ensures Sum(Flow(g, r, t)[..k]) == OverLinks(g, r, t, k) + OfDangling(g, r, k) / |g| as real
  {
    var flow, n := Flow(g, r, t), |g| as real;
    if k > 0 {
      FlowUpTo(g, r, t, k - 1);
      FlowOfOne(g, r, t, k - 1);
      assert flow[..k] == flow[..k - 1] + [flow[k - 1]];
      SumAppend(flow[..k - 1], flow[k - 1]);
      SumOfQuotients(OfDangling(g, r, k - 1), if g[k - 1] == [] then r[k - 1] else 0.0, n);
    }
  }

  lemma ReceivedIsInflow(g: Rows, r: seq<real>, t: nat)
    requires |g| == |r| && t < |g|
    ensures Received(g, r)[t] == Inflow(g, r, t)
  {
    FlowUpTo(g, r, t, |g|);
    assert Flow(g, r, t)[..|g|] == Flow(g, r, t);
  }

  /** The score that an inflow gives one of n pages. */
  function ScoreFrom(d: real, n: nat, inflow: real): real
    requires n > 0
  {
    (1.0 - d) / n as real + d * inflow
  }

  /** One step gives each page (1-d)/n, and d times what arrives over links and from the pages without links. */
  lemma StepEquation(g: Rows, d: real, r: seq<real>, t: nat)
    requires |g| == |r| && t < |g|
    ensures Surf(g, d, r)[t] == ScoreFrom(d, |g|, Inflow(g, r, t))
  {
    SurfAt(g, d, r, t);
    ReceivedIsInflow(g, r, t);
    SameProduct(d, Received(g, r)[t], Inflow(g, r, t));
  }

  ghost predicate SolvesEquations(g: Rows, d: real, p: seq<real>) {
    |p| == |g| && forall t :: 0 <= t < |g| ==> p[t] == ScoreFrom(d, |g|, Inflow(g, p, t))
  }

  /** A vector is stationary exactly if it solves the equations. */
  lemma StationaryIff(g: Rows, d: real, p: seq<real>)
    ensures IsFixedPoint(g, d, p) <==> SolvesEquations(g, d, p)
  {
    if |p| == |g| {
      forall t | 0 <= t < |g| ensures Surf(g, d, p)[t] == ScoreFrom(d, |g|, Inflow(g, p, t)) {
        StepEquation(g, d, p, t);
      }
    }
  }

  // ---- Over URLs and hyperlinks ----

  /** How many pages a page links to. */
  ghost function OutDegree(g: LinkGraph, url: string): nat
    reads g
  {
    |set v | v in g.urlToId && (url, v) in g.Links()|
  }

  lemma DegreeIsRowLength(g: LinkGraph, s: nat)
    requires g.Structure() && s < g.NodeCount()
    ensures s in g.idToUrl && OutDegree(g, g.idToUrl[s]) == |g.OutRows()[s]|
  {
    var url, row := g.idToUrl[s], g.OutRows()[s];
    assert url in g.urlToId && g.urlToId[url] == s;
    forall k | 0 <= k < |row| ensures row[k] in g.idToUrl && g.idToUrl[row[k]] in g.urlToId {
      assert IsRow(g.outEdges[s], g.NodeCount());
    }
    var names := g.idToUrl;
    var targets := seq(|row|, k requires 0 <= k < |row| && row[k] in names => names[row[k]]);
    TargetsAreDistinct(g, row, targets);
    TopK.DistinctCount(targets);
    TargetsAreLinks(g, s, row, targets);
  }

  lemma TargetsAreDistinct(g: LinkGraph, row: seq<nat>, targets: seq<string>)
    requires g.Structure() && Distinct(row) && |targets| == |row|
    requires forall k :: 0 <= k < |row| ==> row[k] in g.idToUrl && targets[k] == g.idToUrl[row[k]]
    ensures Distinct(targets)
  {
    forall i, j | 0 <= i < j < |row| ensures targets[i] != targets[j] {
      assert g.urlToId[targets[i]] == row[i] && g.urlToId[targets[j]] == row[j];
    }
  }

  lemma TargetsAreLinks(g: LinkGraph, s: nat, row: seq<nat>, targets: seq<string>)
    requires g.Structure() && s < g.NodeCount() && row == Row(g.outEdges, s) && |targets| == |row|
    requires forall k :: 0 <= k < |row| ==> row[k] in g.idToUrl && targets[k] == g.idToUrl[row[k]]
    ensures TopK.Members(targets) == set v | v in g.urlToId && (g.idToUrl[s], v) in g.Links()
  {
    var url := g.idToUrl[s];
    forall v | v in g.urlToId ensures v in targets <==> (url, v) in g.Links() {
      LinkIsEdge(g.urlToId, g.outEdges, url, v);
      if g.urlToId[v] in row {
        var k :| 0 <= k < |row| && row[k] == g.urlToId[v];
        assert targets[k] == v;
      }
    }
    forall v | v in targets ensures v in g.urlToId {
      var k :| 0 <= k < |targets| && targets[k] == v;
    }
  }

  /** What the first k pages send over their hyperlinks to a URL. */
  ghost function OverHyperlinks(g: LinkGraph, r: seq<real>, url: string, k: nat): real
    requires g.Structure() && k <= g.NodeCount() == |r|
    reads g
  {
    if k == 0 then 0.0
    else
      var v := g.idToUrl[k - 1];
      OverHyperlinks(g, r, url, k - 1)
      + if (v, url) in g.Links() && OutDegree(g, v) > 0 then r[k - 1] / OutDegree(g, v) as real else 0.0
  }

  /** What the first k pages have that link to no page. */
  ghost function OfLinkless(g: LinkGraph, r: seq<real>, k: nat): real
    requires g.Structure() && k <= g.NodeCount() == |r|
    reads g
  {
    if k == 0 then 0.0
    else OfLinkless(g, r, k - 1) + if OutDegree(g, g.idToUrl[k - 1]) == 0 then r[k - 1] else 0.0
  }

  lemma {:induction false} SameSums(g: LinkGraph, r: seq<real>, url: string, k: nat)
    requires g.Structure() && k <= g.NodeCount() == |r| && url in g.urlToId
    ensures OverHyperlinks(g, r, url, k) == OverLinks(g.OutRows(), r, g.urlToId[url], k)
    ensures OfLinkless(g, r, k) == OfDangling(g.OutRows(), r, k)
  {
    if k > 0 {
      SameSums(g, r, url, k - 1);
      SameTerm(g, k - 1, url);
    }
  }

  lemma SameTerm(g: LinkGraph, s: nat, url: string)
    requires g.Structure() && s < g.NodeCount() && url in g.urlToId
    ensures OutDegree(g, g.idToUrl[s]) == |g.OutRows()[s]|
    ensures (g.idToUrl[s], url) in g.Links() <==> g.urlToId[url] in g.OutRows()[s]
  {
    DegreeIsRowLength(g, s);
    LinkIsEdge(g.urlToId, g.outEdges, g.idToUrl[s], url);
  }

  /**
   The sum, over the pages that link to a URL, of their score by the number of their
   links, together with an equal part of the scores of the pages that link to none.
   */
  ghost function UrlInflow(g: LinkGraph, r: seq<real>, url: string): real
    requires g.Structure() && g.NodeCount() == |r| > 0
    reads g
  {
    OverHyperlinks(g, r, url, |r|) + OfLinkless(g, r, |r|) / |r| as real
  }

  lemma SameInflow(g: LinkGraph, r: seq<real>, url: string)
    requires g.Structure() && g.NodeCount() == |r| > 0 && url in g.urlToId
    ensures UrlInflow(g, r, url) == Inflow(g.OutRows(), r, g.urlToId[url])
  {
    SameSums(g, r, url, |r|);
  }

  /** The exact score of each URL solves the equation of its hyperlinks: (1-d)/n, and d times its inflow. */
  lemma ScoreEquation(g: LinkGraph, exact: seq<real>, url: string)
    requires g.Structure() && url in g.urlToId && IsFixedPoint(g.OutRows(), g.damping, exact)
    ensures |exact| == g.NodeCount() > 0 && g.urlToId[url] < |exact|
    ensures exact[g.urlToId[url]] == ScoreFrom(g.damping, |exact|, UrlInflow(g, exact, url))
  {
    StationaryIff(g.OutRows(), g.damping, exact);
    SameInflow(g, exact, url);
  }
}
