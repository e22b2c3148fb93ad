/**
 * What the result of `transformGraph` is, stated against the original
 * graph: the proxy count, the layout of the proxy ids, the proxy of an
 * isolated vertex, the zero-weight cycles, and the translated edges.
 */
module GraphTransformFacts {
  import opened Common
  import opened Graphs
  import opened GraphTransform

  // ---------------------------------------------------------------------
  // The neighbour lists against the neighbour sets

  /** The neighbour list of v holds each vertex of in(v) ∪ out(v) exactly once. */
  lemma NeighbourListIsSet(adj: Adjacency, v: int)
    requires WellFormed(adj) && 0 <= v < |adj|
    ensures Distinct(AllNeighbors(adj, v))
    ensures (set x | x in AllNeighbors(adj, v)) == NeighbourSet(adj, v)
  {
    AllNeighborsProps(adj, v);
    NeighboursInRange(adj, v);
  }

  /** The number of proxies of v is max(1, |in(v) ∪ out(v)|). */
  lemma SizeIsDegree(adj: Adjacency, nb: seq<seq<int>>, v: int)
    requires WellFormed(adj) && |nb| == |adj| && 0 <= v < |adj| && nb[v] == AllNeighbors(adj, v)
    ensures Size(nb, v) == if |NeighbourSet(adj, v)| == 0 then 1 else |NeighbourSet(adj, v)|
  {
    NeighbourListIsSet(adj, v);
    DistinctCard(nb[v]);
  }

  lemma {:induction false} BaseIsNeighbourSum(adj: Adjacency, nb: seq<seq<int>>, v: nat)
    requires WellFormed(adj) && |nb| == |adj| && v <= |adj|
    requires forall x :: 0 <= x < |adj| ==> nb[x] == AllNeighbors(adj, x)
    ensures Base(nb, v) == NeighbourSum(adj, v)
    decreases v
  {
    if v > 0 {
      BaseIsNeighbourSum(adj, nb, v - 1);
      SizeIsDegree(adj, nb, v - 1);
      assert Base(nb, v) == Base(nb, v - 1) + Size(nb, v - 1);
    }
  }

  /** The proxy count `transformGraph` returns is Σ_v max(1, |in(v) ∪ out(v)|). */
  lemma ProxyCount(adj: Adjacency)
    requires WellFormed(adj)
    ensures Base(Neighbours(adj), |adj|) == NeighbourSum(adj, |adj|)
  {
    var nb := Neighbours(adj);
    assert forall x :: 0 <= x < |adj| ==> nb[x] == AllNeighbors(adj, x);
    BaseIsNeighbourSum(adj, nb, |adj|);
  }

  // ---------------------------------------------------------------------
  // The result, over any neighbour lists with the layout's properties

  /** The i-th proxy of v is a vertex of the result and carries the edges TransformedEdges describes. */
  lemma TransformedAt(adj: Adjacency, nb: seq<seq<int>>, count: int, newAdj: seq<seq<Edge>>, rep: seq<int>, v: int, i: int)
    requires |nb| == |adj| && Transformed(adj, nb, count, newAdj, rep) && 0 <= v < |adj| && 0 <= i < Size(nb, v)
    ensures 0 <= rep[v] <= ProxyId(nb, v, i) < count && ProxyId(nb, v, i) == rep[v] + i
    ensures newAdj[ProxyId(nb, v, i)] == TransformedEdges(adj, nb, v, i)
  {
    ProxyIdRange(nb, v, i);
    assert newAdj[ProxyId(nb, v, i)] == TransformedEdges(adj, nb, v, i);
  }

  /**
   * rep[v] is the first proxy of v: the proxies of 0, 1, ... follow each
   * other in blocks of Size(v) contiguous ids from 0 up to count.
   */
  lemma RepLayout(adj: Adjacency, nb: seq<seq<int>>, count: int, newAdj: seq<seq<Edge>>, rep: seq<int>)
    requires |nb| == |adj| && Transformed(adj, nb, count, newAdj, rep)
    ensures forall v :: 0 <= v < |adj| ==> 0 <= rep[v] < count
    ensures |adj| > 0 ==> rep[0] == 0 && count == rep[|adj| - 1] + Size(nb, |adj| - 1)
    ensures forall v :: 0 <= v < |adj| - 1 ==> rep[v + 1] == rep[v] + Size(nb, v)
  {
    forall v | 0 <= v < |adj|
      ensures 0 <= rep[v] < count
    {
      TransformedAt(adj, nb, count, newAdj, rep, v, 0);
    }
    forall v | 0 <= v < |adj| - 1
      ensures rep[v + 1] == rep[v] + Size(nb, v)
    {
      assert Base(nb, v + 1) == Base(nb, v) + Size(nb, v);
    }
    if |adj| > 0 {
      assert Base(nb, |adj|) == Base(nb, |adj| - 1) + Size(nb, |adj| - 1);
    }
  }

  /** A vertex without neighbours has exactly one proxy, and it has no edges. */
  lemma IsolatedProxy(adj: Adjacency, nb: seq<seq<int>>, count: int, newAdj: seq<seq<Edge>>, rep: seq<int>, v: int)
    requires |nb| == |adj| && Transformed(adj, nb, count, newAdj, rep) && 0 <= v < |adj| && |nb[v]| == 0
    ensures Size(nb, v) == 1 && 0 <= rep[v] < count && newAdj[rep[v]] == []
  {
    TransformedAt(adj, nb, count, newAdj, rep, v, 0);
  }

  /** The same for the lists `transformGraph` computes: a vertex with no in- or out-neighbour gets one proxy without edges. */
  lemma IsolatedVertex(adj: Adjacency, count: int, newAdj: seq<seq<Edge>>, rep: seq<int>, v: int)
    requires WellFormed(adj) && Transformed(adj, Neighbours(adj), count, newAdj, rep)
    requires 0 <= v < |adj| && NeighbourSet(adj, v) == {}
    ensures 0 <= rep[v] < count && newAdj[rep[v]] == []
    ensures v + 1 < |adj| ==> rep[v + 1] == rep[v] + 1
    ensures v + 1 == |adj| ==> count == rep[v] + 1
  {
    var nb := Neighbours(adj);
    assert nb[v] == AllNeighbors(adj, v);
    NeighbourListIsSet(adj, v);
    DistinctCard(nb[v]);
    IsolatedProxy(adj, nb, count, newAdj, rep, v);
    RepLayout(adj, nb, count, newAdj, rep);
  }

  /**
   * A vertex with d > 0 neighbours has proxies rep[v] .. rep[v] + d - 1, and
   * the first edge of proxy i is the weight-0 edge to proxy i + 1, and that of
   * the last proxy the weight-0 edge back to the first.
   */
  lemma ProxyCycleEdge(adj: Adjacency, nb: seq<seq<int>>, count: int, newAdj: seq<seq<Edge>>, rep: seq<int>, v: int, i: int)
    requires |nb| == |adj| && Transformed(adj, nb, count, newAdj, rep) && 0 <= v < |adj| && 0 <= i < |nb[v]|
    ensures 0 <= rep[v] + i < count && |newAdj[rep[v] + i]| >= 1
    ensures i + 1 < |nb[v]| ==> newAdj[rep[v] + i][0] == Edge(rep[v] + i + 1, 0.0)
    ensures i + 1 == |nb[v]| ==> newAdj[rep[v] + i][0] == Edge(rep[v], 0.0)
  {
    TransformedAt(adj, nb, count, newAdj, rep, v, i);
  }

  /** Edge j of es is towards w exactly when its translation is in CrossEdges; translations keep the weight. */
  lemma {:induction false} CrossEdgesHas(nb: seq<seq<int>>, u: int, es: seq<Edge>, w: int, j: int)
    requires 0 <= u < |nb| && 0 <= w < |nb| && 0 <= j < |es| && es[j].target == w
    ensures Edge(NodeId(nb, w, u), es[j].weight) in CrossEdges(nb, u, es, w)
    decreases |es|
  {
    if j < |es| - 1 {
      CrossEdgesHas(nb, u, es[..|es| - 1], w, j);
    }
  }

  lemma {:induction false} CrossEdgesOnly(nb: seq<seq<int>>, u: int, es: seq<Edge>, w: int, t: int)
    requires 0 <= u < |nb| && 0 <= w < |nb| && 0 <= t < |CrossEdges(nb, u, es, w)|
    ensures exists j :: 0 <= j < |es| && es[j].target == w && CrossEdges(nb, u, es, w)[t] == Edge(NodeId(nb, w, u), es[j].weight)
    decreases |es|
  {
    var p := es[..|es| - 1];
    var e := es[|es| - 1];
    if t < |CrossEdges(nb, u, p, w)| {
      CrossEdgesOnly(nb, u, p, w, t);
      var j :| 0 <= j < |p| && p[j].target == w && CrossEdges(nb, u, p, w)[t] == Edge(NodeId(nb, w, u), p[j].weight);
      assert es[j] == p[j];
    } else {
      assert es[|es| - 1].target == w;
    }
  }

  /** For every original edge u -> v of weight w, proxy (u, v) has an edge of weight w to proxy (v, u). */
  lemma CrossEdgePresent(adj: Adjacency, nb: seq<seq<int>>, count: int, newAdj: seq<seq<Edge>>, rep: seq<int>, u: int, j: int)
    requires NeighbourLists(adj, nb) && Transformed(adj, nb, count, newAdj, rep)
    requires 0 <= u < |adj| && 0 <= j < |adj[u]|
    ensures var v := adj[u][j].target;
      && 0 <= NodeId(nb, u, v) < count && 1 <= |newAdj[NodeId(nb, u, v)]|
      && Edge(NodeId(nb, v, u), adj[u][j].weight) in newAdj[NodeId(nb, u, v)][1..]
  {
    var v := adj[u][j].target;
    var i := IndexOf(nb[u], v);
    IndexOfIn(nb[u], v);
    TransformedAt(adj, nb, count, newAdj, rep, u, i);
    var edges := newAdj[ProxyId(nb, u, i)];
    assert adj[u][..|adj[u]|] == adj[u];
    CrossEdgesHas(nb, u, adj[u], v, j);
    assert edges[1..] == CrossEdges(nb, u, adj[u], v);
  }

  /**
   * Apart from the cycle edge, an edge of a proxy (x, w) is the translation
   * of an original edge x -> w: it goes to proxy (w, x) with the same weight.
   */
  lemma OnlyCrossEdges(adj: Adjacency, nb: seq<seq<int>>, count: int, newAdj: seq<seq<Edge>>, rep: seq<int>, x: int, i: int, t: int)
    requires NeighbourLists(adj, nb) && Transformed(adj, nb, count, newAdj, rep)
    requires 0 <= x < |adj| && 0 <= i < Size(nb, x) && ProxyId(nb, x, i) < |newAdj|
    requires 1 <= t < |newAdj[ProxyId(nb, x, i)]|
    ensures |nb[x]| > 0
    ensures exists j ::
      0 <= j < |adj[x]| && adj[x][j].target == nb[x][i] && newAdj[ProxyId(nb, x, i)][t] == Edge(NodeId(nb, nb[x][i], x), adj[x][j].weight)
  {
    TransformedAt(adj, nb, count, newAdj, rep, x, i);
    var edges := newAdj[ProxyId(nb, x, i)];
    assert adj[x][..|adj[x]|] == adj[x];
    CrossEdgesOnly(nb, x, adj[x], nb[x][i], t - 1);
  }

  /** Every edge of the transformed graph ends at a proxy, so it is a graph on count vertices. */
  lemma TransformedWellFormed(adj: Adjacency, nb: seq<seq<int>>, count: int, newAdj: seq<seq<Edge>>, rep: seq<int>)
    requires NeighbourLists(adj, nb) && Transformed(adj, nb, count, newAdj, rep)
    ensures WellFormed(newAdj)
  {
    forall id, t | 0 <= id < |newAdj| && 0 <= t < |newAdj[id]|
      ensures 0 <= newAdj[id][t].target < |newAdj|
    {
      ProxyIdCover(nb, |nb|, id);
      var x, i :| 0 <= x < |nb| && 0 <= i < Size(nb, x) && ProxyId(nb, x, i) == id;
      if t == 0 {
        ProxyCycleEdge(adj, nb, count, newAdj, rep, x, i);
        ProxyIdRange(nb, x, (i + 1) % |nb[x]|);
      } else {
        OnlyCrossEdges(adj, nb, count, newAdj, rep, x, i, t);
        var j :| 0 <= j < |adj[x]| && adj[x][j].target == nb[x][i] &&
          newAdj[id][t] == Edge(NodeId(nb, nb[x][i], x), adj[x][j].weight);
        var w := nb[x][i];
        assert x in nb[w];
        IndexOfIn(nb[w], x);
        ProxyIdRange(nb, w, IndexOf(nb[w], x));
      }
    }
  }
}
