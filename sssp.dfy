/**
 * `singleSourceShortestPaths(n, adj, s)`, the library's entry point: graphs
 * of at most 64 vertices go to plain Dijkstra; larger ones are transformed
 * into the constant-degree graph and solved by BMSSP from the source's
 * representative with bound +infinity, and vertex v reads the distance of
 * its representative.
 *
 * The parameters k, t and l that the library derives from log2 n with
 * floating-point `ln`, `pow`, `floor` and `ceil` are inputs here, and the
 * BMSSP rounds take a fuel bound.
 *
 * The end of the file holds the three example graphs of the library's test
 * suite (a chain, a star, and a chain with an isolated vertex) with their
 * exact distances, proved from the shortest-distance contract of the small
 * graph path by a potential argument.
 */
module ShortestPaths {
  import opened Common
  import opened Graphs
  import opened Dijkstras
  import opened GraphTransform
  import opened GraphTransformFacts
  import opened Bmssps

  /** The tables BMSSP starts from: 0 at root, +infinity elsewhere, and no predecessors. */
  ghost predicate InitialTables(d: seq<Dist>, pred: seq<int>, root: int) {
    && |pred| == |d| && 0 <= root < |d| && d[root] == Fin(0.0)
    && (forall v :: 0 <= v < |d| && v != root ==> d[v] == Inf)
    && (forall v :: 0 <= v < |pred| ==> pred[v] == -1)
  }

  /** The initial tables meet what BMSSP requires of its tables. */
  lemma InitialTablesOk(adj: Adjacency, root: int, d: seq<Dist>, pred: seq<int>)
    requires WellFormed(adj) && |d| == |adj| && InitialTables(d, pred, root)
    ensures Tables(adj, root, d, pred)
  {
    InitialSound(adj, root, d);
  }

  /**
   * `singleSourceShortestPaths`. For n <= 64 the result is a table of
   * shortest distances from s. Otherwise it is read through the
   * representatives of the transformed graph tAdj: entry v is the distance
   * BMSSP left at rep[v], which is 0 for s and, when finite, the length of a
   * walk from rep[s] to rep[v] in tAdj; dist is that final table.
   */
  method SingleSourceShortestPaths(n: nat, adj: Adjacency, s: int, k: nat, t: nat, l: nat, fuel: nat)
    returns (result: seq<Dist>, ghost tAdj: Adjacency, ghost rep: seq<int>, ghost dist: seq<Dist>)
    requires n == |adj| && WellFormed(adj) && 0 <= s < n
    ensures |result| == n && result[s] == Fin(0.0)
    ensures n <= 64 ==> ShortestDistances(adj, s, result)
    ensures n > 64 ==>
      && Transformed(adj, Neighbours(adj), |tAdj|, tAdj, rep) && WellFormed(tAdj)
      && |dist| == |tAdj| && Sound(tAdj, rep[s], dist) && |rep| == n
      && (forall v :: 0 <= v < n ==> 0 <= rep[v] < |dist| && result[v] == dist[rep[v]])
      && forall v :: 0 <= v < n && result[v].Fin? ==> Reached(tAdj, rep[s], rep[v], result[v].r)
  {
    if n <= 64 {
      var table := Dijkstra(n, adj, s);
      result, tAdj, rep := table[..], [], [];
      dist := [];
      return;
    }
    var count, newAdj, repA := TransformGraph(n, adj, s);
    var repS := repA[..];
    tAdj, rep := newAdj, repS;
    NeighboursProps(adj);
    RepLayout(adj, Neighbours(adj), count, newAdj, repS);
    TransformedWellFormed(adj, Neighbours(adj), count, newAdj, repS);
    var root := repS[s];
    var d := SolveFromRoot(newAdj, root, k, t, l, fuel);
    dist := d;
    result := seq(n, v requires 0 <= v < n => d[repS[v]]);
    ReadThroughRep(newAdj, root, d, repS, result);
  }

  /**
   * Lines 354-358 of `singleSourceShortestPaths`: the tables start as
   * `InitialTables` describes and BMSSP runs at level l with bound
   * +infinity and source set {root}. The distances it leaves are sound for
   * walks from root, with 0 at root.
   */
  method SolveFromRoot(adj: Adjacency, root: int, k: nat, t: nat, l: nat, fuel: nat) returns (dist: seq<Dist>)
    requires WellFormed(adj) && 0 <= root < |adj|
    ensures |dist| == |adj| && dist[root] == Fin(0.0) && Sound(adj, root, dist)
  {
    var d := new Dist[|adj|](_ => Inf);
    d[root] := Fin(0.0);
    var pred := new int[|adj|](_ => -1);
    InitialTablesOk(adj, root, d[..], pred[..]);
    ghost var d0 := d[..];
    var bPrime, U;
    ghost var call;
    bPrime, U, call := Bmssp(l, Inf, [root], adj, d, pred, k, t, fuel, root);
    assert Le(d[root], d0[root]);
    dist := d[..];
  }

  /** Reading a sound table through the representatives gives walk lengths between representatives. */
  lemma ReadThroughRep(tAdj: Adjacency, root: int, d: seq<Dist>, rep: seq<int>, result: seq<Dist>)
    requires Sound(tAdj, root, d) && |result| == |rep|
    requires forall v :: 0 <= v < |rep| ==> 0 <= rep[v] < |d| && result[v] == d[rep[v]]
    ensures forall v :: 0 <= v < |result| && result[v].Fin? ==> Reached(tAdj, root, rep[v], result[v].r)
  {
    forall v | 0 <= v < |result| && result[v].Fin?
      ensures Reached(tAdj, root, rep[v], result[v].r)
    {
      assert d[rep[v]].Fin? && Reached(tAdj, root, rep[v], d[rep[v]].r);
    }
  }

  /**
   * A table of shortest distances is unique: so for n <= 64 the result is
   * exactly what `dijkstra(n, adj, s)` returns.
   */
  lemma ShortestUnique(adj: Adjacency, src: int, d1: seq<Dist>, d2: seq<Dist>)
    requires ShortestDistances(adj, src, d1) && ShortestDistances(adj, src, d2)
    ensures d1 == d2
  {
    forall v | 0 <= v < |d1|
      ensures d1[v] == d2[v]
    {
      if d1[v].Fin? {
        assert Reached(adj, src, v, d1[v].r);
        var p :| WalkTo(adj, src, p, v, d1[v].r);
      }
      if d2[v].Fin? {
        assert Reached(adj, src, v, d2[v].r);
        var p :| WalkTo(adj, src, p, v, d2[v].r);
      }
    }
  }

  // ---------------------------------------------------------------------
  // Exact distances by a potential

  /** c is 0 at src and no edge u -> v has c[u] + w below c[v]. */
  ghost predicate Potential(adj: Adjacency, src: int, c: seq<Dist>) {
    && |c| == |adj| && 0 <= src < |c| && c[src] == Fin(0.0)
    && forall u, j :: 0 <= u < |adj| && 0 <= j < |adj[u]| ==>
         0 <= adj[u][j].target < |c| && Le(c[adj[u][j].target], Add(c[u], adj[u][j].weight))
  }

  /** Every walk from src is at least as long as the potential of where it ends. */
  lemma {:induction false} PotentialBound(adj: Adjacency, src: int, c: seq<Dist>, p: seq<Step>)
    requires Potential(adj, src, c) && IsWalk(adj, src, p)
    ensures 0 <= WalkEnd(adj, src, p) < |c| && Le(c[WalkEnd(adj, src, p)], Fin(WalkLength(adj, p)))
    decreases |p|
  {
    if p != [] {
      var q := p[..|p| - 1];
      var st := p[|p| - 1];
      PotentialBound(adj, src, c, q);
      assert Le(c[StepTarget(adj, st)], Add(c[st.from], StepWeight(adj, st)));
    }
  }

  /**
   * A potential that every vertex of finite potential reaches by a walk of
   * exactly that length is the table of shortest distances.
   */
  lemma PotentialExact(adj: Adjacency, src: int, d: seq<Dist>, c: seq<Dist>)
    requires ShortestDistances(adj, src, d) && Potential(adj, src, c)
    requires forall v :: 0 <= v < |c| && c[v].Fin? ==> Reached(adj, src, v, c[v].r)
    ensures d == c
  {
    forall v | 0 <= v < |d|
      ensures d[v] == c[v]
    {
      if d[v].Fin? {
        assert Reached(adj, src, v, d[v].r);
        var p :| WalkTo(adj, src, p, v, d[v].r);
        PotentialBound(adj, src, c, p);
      }
      if c[v].Fin? {
        var p :| WalkTo(adj, src, p, v, c[v].r);
      }
    }
  }

  // ---------------------------------------------------------------------
  // The test suite's graphs

  /** Chain: 0 -> 1 (1), 1 -> 2 (2), 2 -> 3 (3). */
  function ChainGraph(): (adj: Adjacency)
    ensures |adj| == 4 && WellFormed(adj)
  {
    [[Edge(1, 1.0)], [Edge(2, 2.0)], [Edge(3, 3.0)], []]
  }

  /** Star: 0 -> 1 (1), 0 -> 2 (2), 0 -> 3 (3). */
  function StarGraph(): (adj: Adjacency)
    ensures |adj| == 4 && WellFormed(adj)
  {
    [[Edge(1, 1.0), Edge(2, 2.0), Edge(3, 3.0)], [], [], []]
  }

  /** A chain 0 -> 1 -> 2 -> 3 of weight-2 edges and an isolated vertex 4. */
  function IsolatedGraph(): (adj: Adjacency)
    ensures |adj| == 5 && WellFormed(adj)
  {
    [[Edge(1, 2.0)], [Edge(2, 2.0)], [Edge(3, 2.0)], [], []]
  }

  /** The walk along the first edge of each of the vertices 0, 1, ..., m - 1. */
  function FirstEdges(m: nat): seq<Step> {
    seq(m, i => Step(i, 0))
  }

  /** The total weight of the first edges of the vertices 0, 1, ..., m - 1. */
  function FirstSum(adj: Adjacency, m: nat): real
    requires m <= |adj| && forall i :: 0 <= i < m ==> |adj[i]| > 0
  {
    if m == 0 then 0.0 else FirstSum(adj, m - 1) + adj[m - 1][0].weight
  }

  /**
   * In a chain whose vertex i has its edge to i + 1 first, the first-edge
   * walk of m steps from 0 ends at m and weighs the sum of those edges.
   */
  lemma {:induction false} ChainWalk(adj: Adjacency, m: nat)
    requires m < |adj| && forall i :: 0 <= i < m ==> |adj[i]| > 0 && adj[i][0].target == i + 1
    ensures WalkTo(adj, 0, FirstEdges(m), m, FirstSum(adj, m))
  {
    if m > 0 {
      ChainWalk(adj, m - 1);
      assert FirstEdges(m) == FirstEdges(m - 1) + [Step(m - 1, 0)];
      WalkExtend(adj, 0, FirstEdges(m - 1), Step(m - 1, 0));
    } else {
      assert FirstEdges(0) == [];
    }
  }

  /** The shortest distances of the chain are 0, 1, 3, 6. */
  lemma ChainDistances(d: seq<Dist>)
    requires ShortestDistances(ChainGraph(), 0, d)
    ensures d == [Fin(0.0), Fin(1.0), Fin(3.0), Fin(6.0)]
  {
    var adj, c := ChainGraph(), [Fin(0.0), Fin(1.0), Fin(3.0), Fin(6.0)];
    forall v | 0 <= v < 4
      ensures Reached(adj, 0, v, c[v].r)
    {
      ChainWalk(adj, v);
      assert FirstSum(adj, v) == c[v].r;
    }
    PotentialExact(adj, 0, d, c);
  }

  /** The shortest distances of the star are 0, 1, 2, 3. */
  lemma StarDistances(d: seq<Dist>)
    requires ShortestDistances(StarGraph(), 0, d)
    ensures d == [Fin(0.0), Fin(1.0), Fin(2.0), Fin(3.0)]
  {
    var adj, c := StarGraph(), [Fin(0.0), Fin(1.0), Fin(2.0), Fin(3.0)];
    assert WalkTo(adj, 0, [], 0, 0.0);
    forall v | 1 <= v < 4
      ensures Reached(adj, 0, v, c[v].r)
    {
      WalkExtend(adj, 0, [], Step(0, v - 1));
      assert [] + [Step(0, v - 1)] == [Step(0, v - 1)];
      assert WalkTo(adj, 0, [Step(0, v - 1)], v, c[v].r);
    }
    PotentialExact(adj, 0, d, c);
  }

  /** In the graph with an isolated vertex, the source is at 0 and vertex 4 is unreachable. */
  lemma IsolatedDistances(d: seq<Dist>)
    requires ShortestDistances(IsolatedGraph(), 0, d)
    ensures d == [Fin(0.0), Fin(2.0), Fin(4.0), Fin(6.0), Inf]
  {
    var adj, c := IsolatedGraph(), [Fin(0.0), Fin(2.0), Fin(4.0), Fin(6.0), Inf];
    forall v | 0 <= v < 5 && c[v].Fin?
      ensures Reached(adj, 0, v, c[v].r)
    {
      ChainWalk(adj, v);
      assert FirstSum(adj, v) == c[v].r;
    }
    PotentialExact(adj, 0, d, c);
  }

  /** `chainGraphShortestPaths`: the chain from 0 gives [0, 1, 3, 6]. */
  method ChainExample(k: nat, t: nat, l: nat, fuel: nat) returns (dist: seq<Dist>)
    ensures dist == [Fin(0.0), Fin(1.0), Fin(3.0), Fin(6.0)]
  {
    ghost var tAdj, rep, table;
    dist, tAdj, rep, table := SingleSourceShortestPaths(4, ChainGraph(), 0, k, t, l, fuel);
    ChainDistances(dist);
  }

  /** `starFromSourceShortestPaths`: the star from 0 gives [0, 1, 2, 3]. */
  method StarExample(k: nat, t: nat, l: nat, fuel: nat) returns (dist: seq<Dist>)
    ensures dist == [Fin(0.0), Fin(1.0), Fin(2.0), Fin(3.0)]
  {
    ghost var tAdj, rep, table;
    dist, tAdj, rep, table := SingleSourceShortestPaths(4, StarGraph(), 0, k, t, l, fuel);
    StarDistances(dist);
  }

  /** `disconnectedNodeRemainsInfinite`: the source gets 0 and the isolated vertex 4 stays infinite. */
  method IsolatedExample(k: nat, t: nat, l: nat, fuel: nat) returns (dist: seq<Dist>)
    ensures |dist| == 5 && dist[0] == Fin(0.0) && dist[4] == Inf
  {
    ghost var tAdj, rep, table;
    dist, tAdj, rep, table := SingleSourceShortestPaths(5, IsolatedGraph(), 0, k, t, l, fuel);
    IsolatedDistances(dist);
  }
}
