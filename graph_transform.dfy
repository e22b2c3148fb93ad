/**
 * The degree-bounding rewrite `transformGraph`: every vertex v becomes a
 * directed cycle of zero-weight proxy vertices, one per distinct neighbour
 * of v (in- or out-neighbour), or a single proxy without edges when v has no
 * neighbour; each original edge u -> v of weight w becomes an edge of weight
 * w from the proxy of (u, v) to the proxy of (v, u).
 *
 * Kotlin's `mutableSetOf` is insertion-ordered, so the neighbour lists, and
 * with them the whole output, are determined by the input. A set is kept as
 * a duplicate-free sequence that `Add1` extends.
 */
module GraphTransform {
  import opened Common
  import opened Graphs

  /** Some edge of es ends at y. */
  predicate HasTarget(es: seq<Edge>, y: int) {
    exists j :: 0 <= j < |es| && es[j].target == y
  }

  /** The out-neighbour set that the first loop builds from the edge list es. */
  function OutList(es: seq<Edge>): seq<int>
    decreases |es|
  {
    if es == [] then [] else Add1(OutList(es[..|es| - 1]), es[|es| - 1].target)
  }

  /** The in-neighbour set of v once the edges of the vertices below u have been scanned. */
  function InUpTo(adj: Adjacency, v: int, u: nat): seq<int>
    requires u <= |adj|
  {
    if u == 0 then [] else InUpTo(adj, v, u - 1) + (if HasTarget(adj[u - 1], v) then [u - 1] else [])
  }

  /** `allNeighbors[v]`: the in-neighbours of v, then its out-neighbours not yet present. */
  function AllNeighbors(adj: Adjacency, v: int): seq<int>
    requires 0 <= v < |adj|
  {
    AddAll(AddAll([], InUpTo(adj, v, |adj|)), OutList(adj[v]))
  }

  /** The neighbour list of every vertex. */
  function Neighbours(adj: Adjacency): seq<seq<int>> {
    seq(|adj|, v requires 0 <= v < |adj| => AllNeighbors(adj, v))
  }

  /**
   * nb is a list of neighbour lists for adj that has what the layout needs:
   * each list is duplicate-free and holds vertices, and both ends of every
   * edge are neighbours of each other.
   */
  ghost predicate NeighbourLists(adj: Adjacency, nb: seq<seq<int>>) {
    && |nb| == |adj|
    && (forall v :: 0 <= v < |nb| ==> Distinct(nb[v]))
    && (forall v, x :: 0 <= v < |nb| && x in nb[v] ==> 0 <= x < |adj|)
    && (forall u, j :: 0 <= u < |adj| && 0 <= j < |adj[u]| ==>
          adj[u][j].target in nb[u] && 0 <= adj[u][j].target < |nb| && u in nb[adj[u][j].target])
  }

  // The proxy layout, given the neighbour lists nb.

  /** The number of proxies of v: one per neighbour, at least one. */
  function Size(nb: seq<seq<int>>, v: int): nat
    requires 0 <= v < |nb|
  {
    if |nb[v]| == 0 then 1 else |nb[v]|
  }

  /** The proxy count of every vertex, in vertex order. */
  function Sizes(nb: seq<seq<int>>): (r: seq<nat>)
    ensures |r| == |nb| && forall k :: 0 <= k < |r| ==> r[k] >= 1
  {
    seq(|nb|, v requires 0 <= v < |nb| => Size(nb, v))
  }

  function PrefixSum(sz: seq<nat>, v: nat): nat
    requires v <= |sz|
  {
    if v == 0 then 0 else PrefixSum(sz, v - 1) + sz[v - 1]
  }

  /** The first proxy id of v, `rep[v]`: the proxies of the vertices below v come first. */
  function Base(nb: seq<seq<int>>, v: nat): nat
    requires v <= |nb|
  {
    PrefixSum(Sizes(nb), v)
  }

  /** The i-th proxy of v. */
  function ProxyId(nb: seq<seq<int>>, v: int, i: int): int
    requires 0 <= v < |nb|
  {
    Base(nb, v) + i
  }

  /** The position of x in s, or |s| when x is absent. */
  function IndexOf(s: seq<int>, x: int): nat
  {
    if s == [] then 0 else if s[0] == x then 0 else 1 + IndexOf(s[1..], x)
  }

  /** `nodeId[Pair(v, w)]`: the proxy of v that stands for its neighbour w. */
  function NodeId(nb: seq<seq<int>>, v: int, w: int): int
    requires 0 <= v < |nb|
  {
    ProxyId(nb, v, IndexOf(nb[v], w))
  }

  /** The zero-weight cycle edge of the i-th proxy of v: to the next proxy, the last one back to the first. */
  function CycleEdge(nb: seq<seq<int>>, v: int, i: int): seq<Edge>
    requires 0 <= v < |nb|
  {
    if |nb[v]| == 0 then [] else [Edge(ProxyId(nb, v, if i + 1 < |nb[v]| then i + 1 else 0), 0.0)]
  }

  /** The edge lists of the proxies of v once the proxy loop has handled v. */
  function CycleBlock(nb: seq<seq<int>>, v: int): seq<seq<Edge>>
    requires 0 <= v < |nb|
  {
    seq(Size(nb, v), i requires 0 <= i < Size(nb, v) => CycleEdge(nb, v, i))
  }

  /** `newAdj` once the proxy loop has handled the vertices below v. */
  function Blocks(nb: seq<seq<int>>, v: nat): seq<seq<Edge>>
    requires v <= |nb|
  {
    if v == 0 then [] else Blocks(nb, v - 1) + CycleBlock(nb, v - 1)
  }

  /** The translated edges u -> w among the original edges es of u: proxy (u, w) to proxy (w, u). */
  function CrossEdges(nb: seq<seq<int>>, u: int, es: seq<Edge>, w: int): seq<Edge>
    requires 0 <= u < |nb| && 0 <= w < |nb|
    decreases |es|
  {
    if es == [] then []
    else
      var e := es[|es| - 1];
      CrossEdges(nb, u, es[..|es| - 1], w) + (if e.target == w then [Edge(NodeId(nb, w, u), e.weight)] else [])
  }

  /**
   * The edge list of the i-th proxy of x once the first m original edges of
   * x are translated. (The neighbour is always a vertex for the lists the
   * transform builds; the guard only keeps the function total.)
   */
  function PartialEdges(adj: Adjacency, nb: seq<seq<int>>, x: int, i: int, m: nat): seq<Edge>
    requires |nb| == |adj| && 0 <= x < |adj| && 0 <= i < Size(nb, x) && m <= |adj[x]|
  {
    CycleEdge(nb, x, i) +
      (if |nb[x]| == 0 || !(0 <= nb[x][i] < |nb|) then [] else CrossEdges(nb, x, adj[x][..m], nb[x][i]))
  }

  /** The edge list of the i-th proxy of x in the transformed graph. */
  function TransformedEdges(adj: Adjacency, nb: seq<seq<int>>, x: int, i: int): seq<Edge>
    requires |nb| == |adj| && 0 <= x < |adj| && 0 <= i < Size(nb, x)
  {
    PartialEdges(adj, nb, x, i, |adj[x]|)
  }

  /** How many original edges of x the edge loop has translated when it is at edge j of u. */
  function Done(adj: Adjacency, x: int, u: int, j: nat): nat
    requires 0 <= x < |adj|
  {
    if x < u then |adj[x]| else if x == u then j else 0
  }

  /** `newAdj` holds the cycle edges and the translated original edges up to edge j of u. */
  ghost predicate PartialInv(adj: Adjacency, nb: seq<seq<int>>, newAdj: seq<seq<Edge>>, u: int, j: nat)
    requires |nb| == |adj|
    requires 0 <= u <= |adj| && (u < |adj| ==> j <= |adj[u]|) && (u == |adj| ==> j == 0)
  {
    && |newAdj| == Base(nb, |adj|)
    && forall x, i {:trigger newAdj[ProxyId(nb, x, i)]} :: 0 <= x < |adj| && 0 <= i < Size(nb, x) ==>
         ProxyId(nb, x, i) < |newAdj| && newAdj[ProxyId(nb, x, i)] == PartialEdges(adj, nb, x, i, Done(adj, x, u, j))
  }

  /** The neighbour set `inNeighbors[v] ∪ outNeighbors[v]`, as a set. */
  ghost function NeighbourSet(adj: Adjacency, v: int): set<int>
    requires 0 <= v < |adj|
  {
    set x | 0 <= x < |adj| && (HasTarget(adj[x], v) || HasTarget(adj[v], x))
  }

  /** Σ_{x < v} max(1, |in(x) ∪ out(x)|): the number of proxies of the vertices below v, at least one each. */
  ghost function NeighbourSum(adj: Adjacency, v: nat): nat
    requires v <= |adj|
  {
    if v == 0 then 0 else NeighbourSum(adj, v - 1) + (if |NeighbourSet(adj, v - 1)| == 0 then 1 else |NeighbourSet(adj, v - 1)|)
  }

  /** HasTarget of a non-empty list splits into its prefix and its last edge. */
  lemma HasTargetSnoc(es: seq<Edge>, y: int)
    requires es != []
    ensures HasTarget(es, y) <==> HasTarget(es[..|es| - 1], y) || es[|es| - 1].target == y
  {
    var p := es[..|es| - 1];
    if HasTarget(es, y) {
      var j :| 0 <= j < |es| && es[j].target == y;
      if j < |p| {
        assert p[j].target == y;
      }
    }
    if HasTarget(p, y) {
      var j :| 0 <= j < |p| && p[j].target == y;
      assert es[j].target == y;
    }
  }

  /** The out-neighbour set holds each target of es exactly once. */
  lemma {:induction false} OutListProps(es: seq<Edge>)
    ensures forall y :: y in OutList(es) <==> HasTarget(es, y)
    ensures Distinct(OutList(es))
    decreases |es|
  {
    if es != [] {
      var p := es[..|es| - 1];
      OutListProps(p);
      Add1Props(OutList(p), es[|es| - 1].target);
      forall y
        ensures y in OutList(es) <==> HasTarget(es, y)
      {
        HasTargetSnoc(es, y);
      }
    }
  }

  /** The in-neighbour set scanned up to u holds, once each and in increasing order, the vertices below u with an edge to v. */
  lemma {:induction false} InUpToProps(adj: Adjacency, v: int, u: nat)
    requires u <= |adj|
    ensures forall x :: x in InUpTo(adj, v, u) <==> 0 <= x < u && HasTarget(adj[x], v)
    ensures Distinct(InUpTo(adj, v, u))
    decreases u
  {
    if u > 0 {
      InUpToProps(adj, v, u - 1);
    }
  }

  /** `allNeighbors[v]` is duplicate-free and holds exactly the in- and out-neighbours of v. */
  lemma AllNeighborsProps(adj: Adjacency, v: int)
    requires 0 <= v < |adj|
    ensures Distinct(AllNeighbors(adj, v))
    ensures forall x :: x in AllNeighbors(adj, v) <==> (0 <= x < |adj| && HasTarget(adj[x], v)) || HasTarget(adj[v], x)
  {
    var ins, outs := InUpTo(adj, v, |adj|), OutList(adj[v]);
    var a: seq<int> := AddAll([], ins);
    InUpToProps(adj, v, |adj|);
    AddAllProps([], ins);
    OutListProps(adj[v]);
    AddAllProps(a, outs);
    assert AllNeighbors(adj, v) == AddAll(a, outs);
  }

  /** In a well-formed graph every neighbour is a vertex. */
  lemma NeighboursInRange(adj: Adjacency, v: int)
    requires WellFormed(adj) && 0 <= v < |adj|
    ensures forall x :: x in AllNeighbors(adj, v) ==> 0 <= x < |adj|
  {
    AllNeighborsProps(adj, v);
    forall x | x in AllNeighbors(adj, v)
      ensures 0 <= x < |adj|
    {
      if HasTarget(adj[v], x) {
        var j :| 0 <= j < |adj[v]| && adj[v][j].target == x;
      }
    }
  }

  lemma {:induction false} IndexOfDistinct(s: seq<int>, k: nat)
    requires Distinct(s) && k < |s|
    ensures IndexOf(s, s[k]) == k
    decreases k
  {
    if k > 0 {
      assert s[0] != s[k];
      assert s[1..][k - 1] == s[k];
      IndexOfDistinct(s[1..], k - 1);
    }
  }

  lemma {:induction false} IndexOfIn(s: seq<int>, x: int)
    requires x in s
    ensures IndexOf(s, x) < |s| && s[IndexOf(s, x)] == x
    decreases |s|
  {
    if s[0] != x {
      assert x in s[1..];
      IndexOfIn(s[1..], x);
    }
  }

  lemma {:induction false} DistinctCard(s: seq<int>)
    requires Distinct(s)
    ensures |set x | x in s| == |s|
    decreases |s|
  {
    if s != [] {
      var p := s[..|s| - 1];
      DistinctCard(p);
      assert (set x | x in s) == (set x | x in p) + {s[|s| - 1]};
      assert s[|s| - 1] !in p;
    }
  }

  /** The neighbour lists the transform computes have what the layout needs. */
  lemma NeighboursProps(adj: Adjacency)
    requires WellFormed(adj)
    ensures NeighbourLists(adj, Neighbours(adj))
  {
    var nb := Neighbours(adj);
    forall v | 0 <= v < |nb|
      ensures Distinct(nb[v]) && forall x :: x in nb[v] ==> 0 <= x < |adj|
    {
      AllNeighborsProps(adj, v);
      NeighboursInRange(adj, v);
    }
    forall u, j | 0 <= u < |adj| && 0 <= j < |adj[u]|
      ensures adj[u][j].target in nb[u] && 0 <= adj[u][j].target < |nb| && u in nb[adj[u][j].target]
    {
      EdgeEndsAreNeighbours(adj, u, j);
    }
  }

  /** Both ends of an original edge are neighbours of each other, so the `nodeId` lookups succeed. */
  lemma EdgeEndsAreNeighbours(adj: Adjacency, u: int, j: int)
    requires WellFormed(adj) && 0 <= u < |adj| && 0 <= j < |adj[u]|
    ensures adj[u][j].target in AllNeighbors(adj, u)
    ensures u in AllNeighbors(adj, adj[u][j].target)
  {
    var v := adj[u][j].target;
    AllNeighborsProps(adj, u);
    AllNeighborsProps(adj, v);
    assert HasTarget(adj[u], v);
  }

  // ---------------------------------------------------------------------
  // Layout of the proxy ids

  lemma {:induction false} PrefixSumMono(sz: seq<nat>, a: nat, b: nat)
    requires a < b <= |sz| && forall k :: 0 <= k < |sz| ==> sz[k] >= 1
    ensures PrefixSum(sz, a) + sz[a] <= PrefixSum(sz, b)
    decreases b
  {
    if a < b - 1 {
      PrefixSumMono(sz, a, b - 1);
    }
  }

  lemma BaseMono(nb: seq<seq<int>>, a: nat, b: nat)
    requires a < b <= |nb|
    ensures Base(nb, a) + Size(nb, a) <= Base(nb, b)
  {
    PrefixSumMono(Sizes(nb), a, b);
  }

  /** The proxies of x are the ids from Base(x) up to Base(x + 1), all below Base(|nb|). */
  lemma ProxyIdRange(nb: seq<seq<int>>, x: int, i: int)
    requires 0 <= x < |nb| && 0 <= i < Size(nb, x)
    ensures Base(nb, x) <= ProxyId(nb, x, i) < Base(nb, x + 1) <= Base(nb, |nb|)
  {
    if x + 1 < |nb| {
      BaseMono(nb, x + 1, |nb|);
    }
  }

  lemma ProxyIdInjective(nb: seq<seq<int>>, x: int, i: int, y: int, k: int)
    requires 0 <= x < |nb| && 0 <= i < Size(nb, x)
    requires 0 <= y < |nb| && 0 <= k < Size(nb, y)
    requires ProxyId(nb, x, i) == ProxyId(nb, y, k)
    ensures x == y && i == k
  {
    if x < y {
      BaseMono(nb, x, y);
    } else if y < x {
      BaseMono(nb, y, x);
    }
  }

  /** Every id below Base(v) is a proxy of a vertex below v. */
  lemma {:induction false} ProxyIdCover(nb: seq<seq<int>>, v: nat, id: int)
    requires v <= |nb| && 0 <= id < Base(nb, v)
    ensures exists x, i :: 0 <= x < v && 0 <= i < Size(nb, x) && ProxyId(nb, x, i) == id
    decreases v
  {
    if id < Base(nb, v - 1) {
      ProxyIdCover(nb, v - 1, id);
    } else {
      assert ProxyId(nb, v - 1, id - Base(nb, v - 1)) == id;
    }
  }

  lemma {:induction false} BlocksLength(nb: seq<seq<int>>, v: nat)
    requires v <= |nb|
    ensures |Blocks(nb, v)| == Base(nb, v)
    decreases v
  {
    if v > 0 {
      BlocksLength(nb, v - 1);
    }
  }

  /** After the proxy loop the i-th proxy of x holds exactly its cycle edge. */
  lemma {:induction false} BlocksAt(nb: seq<seq<int>>, v: nat, x: int, i: int)
    requires v <= |nb| && 0 <= x < v && 0 <= i < Size(nb, x)
    ensures |Blocks(nb, v)| == Base(nb, v) && ProxyId(nb, x, i) < Base(nb, v)
    ensures Blocks(nb, v)[ProxyId(nb, x, i)] == CycleEdge(nb, x, i)
    decreases v
  {
    BlocksLength(nb, v);
    BlocksLength(nb, v - 1);
    if x < v - 1 {
      BlocksAt(nb, v - 1, x, i);
    } else {
      assert CycleBlock(nb, x)[i] == CycleEdge(nb, x, i);
    }
  }

  /** The edge loop starts from the proxy loop's result. */
  lemma BlocksArePartial(adj: Adjacency, nb: seq<seq<int>>)
    requires |nb| == |adj|
    ensures PartialInv(adj, nb, Blocks(nb, |adj|), 0, 0)
  {
    BlocksLength(nb, |adj|);
    forall x, i | 0 <= x < |adj| && 0 <= i < Size(nb, x)
      ensures ProxyId(nb, x, i) < |Blocks(nb, |adj|)|
      ensures Blocks(nb, |adj|)[ProxyId(nb, x, i)] == PartialEdges(adj, nb, x, i, Done(adj, x, 0, 0))
    {
      BlocksAt(nb, |adj|, x, i);
      assert adj[x][..0] == [];
    }
  }

  // ---------------------------------------------------------------------
  // The original edges

  /** Translating edge j of x appends to the i-th proxy of x exactly when the edge leads to its neighbour. */
  lemma PartialEdgesStep(adj: Adjacency, nb: seq<seq<int>>, x: int, i: int, j: int)
    requires |nb| == |adj| && 0 <= x < |adj| && 0 <= i < Size(nb, x) && 0 <= j < |adj[x]|
    ensures PartialEdges(adj, nb, x, i, j + 1) == PartialEdges(adj, nb, x, i, j) +
      (if |nb[x]| > 0 && 0 <= nb[x][i] < |nb| && adj[x][j].target == nb[x][i]
       then [Edge(NodeId(nb, nb[x][i], x), adj[x][j].weight)] else [])
  {
    assert adj[x][..j + 1][..j] == adj[x][..j];
  }

  /** Translating edge j of u extends exactly the edge list of the proxy (u, target). */
  lemma CrossStep(adj: Adjacency, nb: seq<seq<int>>, newAdj: seq<seq<Edge>>, u: int, j: int)
    requires |nb| == |adj| && 0 <= u < |adj| && 0 <= j < |adj[u]|
    requires Distinct(nb[u]) && adj[u][j].target in nb[u] && 0 <= adj[u][j].target < |nb|
    requires PartialInv(adj, nb, newAdj, u, j)
    ensures 0 <= NodeId(nb, u, adj[u][j].target) < |newAdj|
    ensures var v := adj[u][j].target; var x := NodeId(nb, u, v);
      PartialInv(adj, nb, newAdj[x := newAdj[x] + [Edge(NodeId(nb, v, u), adj[u][j].weight)]], u, j + 1)
  {
    var v, w := adj[u][j].target, adj[u][j].weight;
    IndexOfIn(nb[u], v);
    var slot := IndexOf(nb[u], v);
    var xuv := ProxyId(nb, u, slot);
    ProxyIdRange(nb, u, slot);
    var e := Edge(NodeId(nb, v, u), w);
    var n' := newAdj[xuv := newAdj[xuv] + [e]];
    forall x, i | 0 <= x < |adj| && 0 <= i < Size(nb, x)
      ensures ProxyId(nb, x, i) < |n'| && n'[ProxyId(nb, x, i)] == PartialEdges(adj, nb, x, i, Done(adj, x, u, j + 1))
    {
      ProxyIdRange(nb, x, i);
      if x == u {
        PartialEdgesStep(adj, nb, x, i, j);
        if i != slot {
          IndexOfDistinct(nb[u], i);
        }
      } else if ProxyId(nb, x, i) == xuv {
        ProxyIdInjective(nb, x, i, u, slot);
      }
    }
  }

  // ---------------------------------------------------------------------
  // transformGraph

  /** The neighbour sets once the edges of the vertices below u and the first j edges of u are scanned. */
  ghost predicate ScanInv(adj: Adjacency, inN: seq<seq<int>>, outN: seq<seq<int>>, u: int, j: int)
    requires 0 <= u < |adj| && 0 <= j <= |adj[u]|
  {
    && |inN| == |adj| && |outN| == |adj|
    && (forall x :: 0 <= x < |adj| ==>
          outN[x] == if x < u then OutList(adj[x]) else if x == u then OutList(adj[u][..j]) else [])
    && (forall x :: 0 <= x < |adj| ==>
          inN[x] == InUpTo(adj, x, u) + (if HasTarget(adj[u][..j], x) then [u] else []))
  }

  /** The neighbour sets once the edges of the vertices below u are scanned. */
  ghost predicate ScanDone(adj: Adjacency, inN: seq<seq<int>>, outN: seq<seq<int>>, u: int)
    requires 0 <= u <= |adj|
  {
    && |inN| == |adj| && |outN| == |adj|
    && (forall x :: 0 <= x < |adj| ==> outN[x] == if x < u then OutList(adj[x]) else [])
    && (forall x :: 0 <= x < |adj| ==> inN[x] == InUpTo(adj, x, u))
  }

  /** Scanning edge j of u adds its target to the out-set of u and u to the in-set of the target. */
  lemma ScanStep(adj: Adjacency, inN: seq<seq<int>>, outN: seq<seq<int>>, u: int, j: int)
    requires WellFormed(adj) && 0 <= u < |adj| && 0 <= j < |adj[u]| && ScanInv(adj, inN, outN, u, j)
    ensures var v := adj[u][j].target;
      0 <= v < |adj| && ScanInv(adj, inN[v := Add1(inN[v], u)], outN[u := Add1(outN[u], v)], u, j + 1)
  {
    var v := adj[u][j].target;
    var es := adj[u][..j + 1];
    assert es[..j] == adj[u][..j];
    InUpToProps(adj, v, u);
    forall x | 0 <= x < |adj|
      ensures HasTarget(es, x) <==> HasTarget(adj[u][..j], x) || x == v
    {
      HasTargetSnoc(es, x);
    }
  }

  lemma ScanStart(adj: Adjacency, inN: seq<seq<int>>, outN: seq<seq<int>>, u: int)
    requires 0 <= u < |adj| && ScanDone(adj, inN, outN, u)
    ensures ScanInv(adj, inN, outN, u, 0)
  {
    assert adj[u][..0] == [];
  }

  lemma ScanNext(adj: Adjacency, inN: seq<seq<int>>, outN: seq<seq<int>>, u: int)
    requires 0 <= u < |adj| && ScanInv(adj, inN, outN, u, |adj[u]|)
    ensures ScanDone(adj, inN, outN, u + 1)
  {
    assert adj[u][..|adj[u]|] == adj[u];
  }

  /** The first phase (lines 4-11): scan every edge into the out-set of its source and the in-set of its target. */
  method ScanNeighbours(n: nat, adj: Adjacency) returns (inNeighbors: seq<seq<int>>, outNeighbors: seq<seq<int>>)
    requires n == |adj| && WellFormed(adj)
    ensures |inNeighbors| == n && |outNeighbors| == n
    ensures forall x :: 0 <= x < n ==> outNeighbors[x] == OutList(adj[x]) && inNeighbors[x] == InUpTo(adj, x, n)
  {
    inNeighbors := seq(n, _ => []);
    outNeighbors := seq(n, _ => []);
    var u := 0;
    while u < n
      invariant 0 <= u <= n && ScanDone(adj, inNeighbors, outNeighbors, u)
    {
      inNeighbors, outNeighbors := ScanEdges(adj, inNeighbors, outNeighbors, u);
      u := u + 1;
    }
  }

  /** The `for ((v, _) in adj[u])` loop of the scan: the edges of u are added to both neighbour sets. */
  method ScanEdges(adj: Adjacency, inN: seq<seq<int>>, outN: seq<seq<int>>, u: int) returns (inN': seq<seq<int>>, outN': seq<seq<int>>)
    requires WellFormed(adj) && 0 <= u < |adj| && ScanDone(adj, inN, outN, u)
    ensures ScanDone(adj, inN', outN', u + 1)
  {
    inN', outN' := inN, outN;
    ScanStart(adj, inN', outN', u);
    var j := 0;
    while j < |adj[u]|
      invariant 0 <= j <= |adj[u]| && ScanInv(adj, inN', outN', u, j)
    {
      var v := adj[u][j].target;
      ScanStep(adj, inN', outN', u, j);
      outN' := outN'[u := Add1(outN'[u], v)];
      inN' := inN'[v := Add1(inN'[v], u)];
      j := j + 1;
    }
    ScanNext(adj, inN', outN', u);
  }

  /** `rep` once the proxy loop has handled the vertices below v and created k proxies of v. */
  function RepAt(nb: seq<seq<int>>, v: int, k: int): seq<int>
    requires 0 <= v <= |nb|
  {
    seq(|nb|, x requires 0 <= x < |nb| => if x < v then Base(nb, x) else if x == v && k > 0 then Base(nb, x) else -1)
  }

  /** The keys of `nodeId` once the proxy loop has handled the vertices below v and the first k neighbours of v. */
  ghost function NodeKeys(nb: seq<seq<int>>, v: int, k: int): set<(int, int)>
    requires 0 <= v <= |nb| && (v < |nb| ==> 0 <= k <= |nb[v]|)
  {
    (set x, w | 0 <= x < v && w in nb[x] :: (x, w)) + (if v < |nb| then set w | w in nb[v][..k] :: (v, w) else {})
  }

  /** `nodeId` at that point: each key mapped to its proxy. */
  ghost function NodeMap(nb: seq<seq<int>>, v: int, k: int): map<(int, int), int>
    requires 0 <= v <= |nb| && (v < |nb| ==> 0 <= k <= |nb[v]|)
  {
    map key | key in NodeKeys(nb, v, k) && 0 <= key.0 < |nb| :: NodeId(nb, key.0, key.1)
  }

  /** The edge lists of the proxies of v once the first i cycle edges are added. */
  function CyclePrefix(nb: seq<seq<int>>, v: int, i: int): seq<seq<Edge>>
    requires 0 <= v < |nb|
  {
    seq(|nb[v]|, t requires 0 <= t < |nb[v]| => if t < i then [Edge(Base(nb, v) + t + 1, 0.0)] else [])
  }

  /** An isolated vertex gets one proxy without edges and no `nodeId` entry. */
  lemma IsolatedStep(nb: seq<seq<int>>, v: int)
    requires 0 <= v < |nb| && |nb[v]| == 0
    ensures Base(nb, v + 1) == Base(nb, v) + 1 && Blocks(nb, v + 1) == Blocks(nb, v) + [[]]
    ensures RepAt(nb, v + 1, 0) == RepAt(nb, v, 0)[v := Base(nb, v)]
    ensures NodeMap(nb, v + 1, 0) == NodeMap(nb, v, 0)
  {
    assert CycleBlock(nb, v) == [[]];
    assert NodeKeys(nb, v + 1, 0) == NodeKeys(nb, v, 0);
  }

  /** Creating proxy k of v maps (v, nb[v][k]) to it, and the first one becomes `rep[v]`. */
  lemma ProxyStep(nb: seq<seq<int>>, v: int, k: int)
    requires 0 <= v < |nb| && 0 <= k < |nb[v]| && Distinct(nb[v])
    ensures NodeMap(nb, v, k + 1) == NodeMap(nb, v, k)[(v, nb[v][k]) := Base(nb, v) + k]
    ensures RepAt(nb, v, k)[v] == -1 <==> k == 0
    ensures RepAt(nb, v, k + 1) == if k == 0 then RepAt(nb, v, k)[v := Base(nb, v)] else RepAt(nb, v, k)
  {
    IndexOfDistinct(nb[v], k);
    assert nb[v][..k + 1] == nb[v][..k] + [nb[v][k]];
    assert NodeKeys(nb, v, k + 1) == NodeKeys(nb, v, k) + {(v, nb[v][k])};
  }

  /** Adding the cycle edge of proxy i of v, to proxy i + 1. */
  lemma CycleStep(nb: seq<seq<int>>, v: int, i: int)
    requires 0 <= v < |nb| && 0 <= i < |nb[v]| - 1
    ensures var s := Blocks(nb, v) + CyclePrefix(nb, v, i); var id := Base(nb, v) + i;
      id < |s| && s[id := s[id] + [Edge(id + 1, 0.0)]] == Blocks(nb, v) + CyclePrefix(nb, v, i + 1)
  {
    BlocksLength(nb, v);
    var s := Blocks(nb, v) + CyclePrefix(nb, v, i);
    var id := Base(nb, v) + i;
    var s' := s[id := s[id] + [Edge(id + 1, 0.0)]];
    var r := Blocks(nb, v) + CyclePrefix(nb, v, i + 1);
    forall t | 0 <= t < |s'|
      ensures s'[t] == r[t]
    {
      if t >= Base(nb, v) {
        assert CyclePrefix(nb, v, i)[t - Base(nb, v)] == if t - Base(nb, v) < i then [Edge(t + 1, 0.0)] else [];
      }
    }
  }

  /** The cycle closes with the edge from the last proxy of v back to the first, and the loop moves on to v + 1. */
  lemma CycleClose(nb: seq<seq<int>>, v: int)
    requires 0 <= v < |nb| && |nb[v]| > 0
    ensures var s := Blocks(nb, v) + CyclePrefix(nb, v, |nb[v]| - 1); var id := Base(nb, v) + |nb[v]| - 1;
      id < |s| && s[id := s[id] + [Edge(Base(nb, v), 0.0)]] == Blocks(nb, v + 1)
    ensures Base(nb, v + 1) == Base(nb, v) + |nb[v]|
    ensures RepAt(nb, v, |nb[v]|) == RepAt(nb, v + 1, 0)
    ensures NodeMap(nb, v, |nb[v]|) == NodeMap(nb, v + 1, 0)
  {
    BlocksLength(nb, v);
    var s := Blocks(nb, v) + CyclePrefix(nb, v, |nb[v]| - 1);
    var id := Base(nb, v) + |nb[v]| - 1;
    var s' := s[id := s[id] + [Edge(Base(nb, v), 0.0)]];
    forall t | 0 <= t < |s'|
      ensures s'[t] == Blocks(nb, v + 1)[t]
    {
      if t >= Base(nb, v) {
        assert CycleBlock(nb, v)[t - Base(nb, v)] == CycleEdge(nb, v, t - Base(nb, v));
      }
    }
    assert nb[v][..|nb[v]|] == nb[v];
    assert NodeKeys(nb, v, |nb[v]|) == NodeKeys(nb, v + 1, 0);
  }

  /** After the proxy loop `nodeId` maps exactly the neighbour pairs to their proxies. */
  lemma NodeMapDone(nb: seq<seq<int>>)
    ensures NodeIds(nb, NodeMap(nb, |nb|, 0))
  {
    forall key: (int, int) | 0 <= key.0 < |nb| && key.1 in nb[key.0]
      ensures key in NodeKeys(nb, |nb|, 0)
    {
      var (x, w) := key;
      assert (x, w) in (set x', w' | 0 <= x' < |nb| && w' in nb[x'] :: (x', w'));
    }
  }

  /** The state of the proxy loop before vertex v. */
  ghost predicate ProxyOuter(nb: seq<seq<int>>, v: int, idCounter: int, newAdj: seq<seq<Edge>>, rep: seq<int>, nodeId: map<(int, int), int>) {
    && 0 <= v <= |nb| && idCounter == Base(nb, v) && newAdj == Blocks(nb, v)
    && rep == RepAt(nb, v, 0) && nodeId == NodeMap(nb, v, 0)
  }

  /** The state after the first k proxies of the non-isolated vertex v, numbered from b. */
  ghost predicate ProxyInner(nb: seq<seq<int>>, v: int, b: int, k: int, idCounter: int, newAdj: seq<seq<Edge>>,
                             cycleIds: seq<int>, rep: seq<int>, nodeId: map<(int, int), int>) {
    && 0 <= v < |nb| && Distinct(nb[v]) && 0 <= k <= |nb[v]| && b == Base(nb, v) && idCounter == b + k
    && newAdj == Blocks(nb, v) + seq<seq<Edge>>(k, _ => []) && cycleIds == seq(k, t => b + t)
    && rep == RepAt(nb, v, k) && nodeId == NodeMap(nb, v, k)
  }

  /** The state after the first i cycle edges of v. */
  ghost predicate ProxyCycle(nb: seq<seq<int>>, v: int, i: int, newAdj: seq<seq<Edge>>, cycleIds: seq<int>) {
    && 0 <= v < |nb| && 0 <= i < |nb[v]|
    && newAdj == Blocks(nb, v) + CyclePrefix(nb, v, i) && cycleIds == seq(|nb[v]|, t => Base(nb, v) + t)
  }

  lemma ProxyOuterStart(nb: seq<seq<int>>)
    ensures ProxyOuter(nb, 0, 0, [], seq(|nb|, _ => -1), map[])
  {
    assert NodeKeys(nb, 0, 0) == {};
  }

  lemma ProxyIsolated(nb: seq<seq<int>>, v: int, idCounter: int, newAdj: seq<seq<Edge>>, rep: seq<int>, nodeId: map<(int, int), int>)
    requires ProxyOuter(nb, v, idCounter, newAdj, rep, nodeId) && v < |nb| && |nb[v]| == 0
    ensures ProxyOuter(nb, v + 1, idCounter + 1, newAdj + [[]], rep[v := idCounter], nodeId)
  {
    IsolatedStep(nb, v);
  }

  lemma ProxyInnerStart(nb: seq<seq<int>>, v: int, idCounter: int, newAdj: seq<seq<Edge>>, rep: seq<int>, nodeId: map<(int, int), int>)
    requires ProxyOuter(nb, v, idCounter, newAdj, rep, nodeId) && v < |nb| && |nb[v]| > 0 && Distinct(nb[v])
    ensures ProxyInner(nb, v, idCounter, 0, idCounter, newAdj, [], rep, nodeId)
  {
  }

  lemma ProxyInnerStep(nb: seq<seq<int>>, v: int, b: int, k: int, idCounter: int, newAdj: seq<seq<Edge>>,
                       cycleIds: seq<int>, rep: seq<int>, nodeId: map<(int, int), int>)
    requires ProxyInner(nb, v, b, k, idCounter, newAdj, cycleIds, rep, nodeId) && k < |nb[v]|
    ensures |rep| == |nb| && ProxyInner(nb, v, b, k + 1, idCounter + 1, newAdj + [[]], cycleIds + [idCounter],
      if rep[v] == -1 then rep[v := idCounter] else rep, nodeId[(v, nb[v][k]) := idCounter])
  {
    ProxyStep(nb, v, k);
    assert seq<seq<Edge>>(k + 1, _ => []) == seq<seq<Edge>>(k, _ => []) + [[]];
    assert seq(k + 1, t => b + t) == seq(k, t => b + t) + [idCounter];
  }

  lemma ProxyCycleStart(nb: seq<seq<int>>, v: int, b: int, idCounter: int, newAdj: seq<seq<Edge>>,
                        cycleIds: seq<int>, rep: seq<int>, nodeId: map<(int, int), int>)
    requires 0 <= v < |nb| && ProxyInner(nb, v, b, |nb[v]|, idCounter, newAdj, cycleIds, rep, nodeId) && |nb[v]| > 0
    ensures ProxyCycle(nb, v, 0, newAdj, cycleIds)
  {
    assert seq(|nb[v]|, _ => []) == CyclePrefix(nb, v, 0);
  }

  lemma ProxyCycleStep(nb: seq<seq<int>>, v: int, i: int, newAdj: seq<seq<Edge>>, cycleIds: seq<int>)
    requires ProxyCycle(nb, v, i, newAdj, cycleIds) && i < |nb[v]| - 1
    ensures i + 1 < |cycleIds| && 0 <= cycleIds[i] < |newAdj|
    ensures ProxyCycle(nb, v, i + 1, newAdj[cycleIds[i] := newAdj[cycleIds[i]] + [Edge(cycleIds[i + 1], 0.0)]], cycleIds)
  {
    CycleStep(nb, v, i);
  }

  lemma ProxyCycleClose(nb: seq<seq<int>>, v: int, b: int, idCounter: int, newAdj: seq<seq<Edge>>,
                        cycleIds: seq<int>, rep: seq<int>, nodeId: map<(int, int), int>, cycled: seq<seq<Edge>>)
    requires 0 <= v < |nb| && ProxyInner(nb, v, b, |nb[v]|, idCounter, newAdj, cycleIds, rep, nodeId) && |nb[v]| > 0
    requires ProxyCycle(nb, v, |nb[v]| - 1, cycled, cycleIds)
    ensures 0 < |cycleIds| && 0 <= cycleIds[|cycleIds| - 1] < |cycled|
    ensures var last := cycleIds[|cycleIds| - 1];
      ProxyOuter(nb, v + 1, idCounter, cycled[last := cycled[last] + [Edge(cycleIds[0], 0.0)]], rep, nodeId)
  {
    CycleClose(nb, v);
  }

  lemma ProxyOuterDone(nb: seq<seq<int>>, idCounter: int, newAdj: seq<seq<Edge>>, rep: seq<int>, nodeId: map<(int, int), int>)
    requires ProxyOuter(nb, |nb|, idCounter, newAdj, rep, nodeId)
    ensures idCounter == Base(nb, |nb|) && newAdj == Blocks(nb, |nb|)
    ensures |rep| == |nb| && forall x :: 0 <= x < |nb| ==> rep[x] == Base(nb, x)
    ensures NodeIds(nb, nodeId)
  {
    NodeMapDone(nb);
  }

  /**
   * The proxies of a vertex v with neighbours (lines 27-46): one proxy per
   * neighbour, the first recorded as `rep[v]`, joined into a zero-weight cycle.
   */
  method CreateCycle(ghost nb: seq<seq<int>>, v: int, neighList: seq<int>, idCounter0: nat, newAdj0: seq<seq<Edge>>,
                     rep: array<int>, nodeId0: map<(int, int), int>)
    returns (idCounter: nat, newAdj: seq<seq<Edge>>, nodeId: map<(int, int), int>)
    requires 0 <= v < |nb| && neighList == nb[v] && |neighList| > 0 && Distinct(neighList) && rep.Length == |nb|
    requires ProxyOuter(nb, v, idCounter0, newAdj0, rep[..], nodeId0)
    modifies rep
    ensures ProxyOuter(nb, v + 1, idCounter, newAdj, rep[..], nodeId)
  {
    idCounter, newAdj, nodeId := idCounter0, newAdj0, nodeId0;
    var b := idCounter;
    var cycleIds: seq<int> := [];
    var k := 0;
    ProxyInnerStart(nb, v, idCounter, newAdj, rep[..], nodeId);
    while k < |neighList|
      invariant 0 <= k <= |neighList| && rep.Length == |nb|
      invariant ProxyInner(nb, v, b, k, idCounter, newAdj, cycleIds, rep[..], nodeId)
    {
      var w := neighList[k];
      ProxyInnerStep(nb, v, b, k, idCounter, newAdj, cycleIds, rep[..], nodeId);
      nodeId := nodeId[(v, w) := idCounter];
      cycleIds := cycleIds + [idCounter];
      if rep[v] == -1 {
        rep[v] := idCounter;
      }
      newAdj := newAdj + [[]];
      idCounter := idCounter + 1;
      k := k + 1;
    }
    ProxyCycleStart(nb, v, b, idCounter, newAdj, cycleIds, rep[..], nodeId);
    ghost var blocks, repS := newAdj, rep[..];
    var i := 0;
    while i < |neighList| - 1
      invariant 0 <= i <= |neighList| - 1 && rep[..] == repS
      invariant ProxyCycle(nb, v, i, newAdj, cycleIds)
    {
      ProxyCycleStep(nb, v, i, newAdj, cycleIds);
      newAdj := newAdj[cycleIds[i] := newAdj[cycleIds[i]] + [Edge(cycleIds[i + 1], 0.0)]];
      i := i + 1;
    }
    ProxyCycleClose(nb, v, b, idCounter, blocks, cycleIds, rep[..], nodeId, newAdj);
    var last := cycleIds[|cycleIds| - 1];
    newAdj := newAdj[last := newAdj[last] + [Edge(cycleIds[0], 0.0)]];
  }

  /**
   * The second phase (lines 18-47): create the proxies vertex by vertex, an
   * isolated vertex one proxy without edges, any other vertex one proxy per
   * neighbour joined into a zero-weight cycle, and record `rep` and `nodeId`.
   */
  method CreateProxies(n: nat, allNeighbors: seq<seq<int>>)
    returns (idCounter: nat, newAdj: seq<seq<Edge>>, rep: array<int>, nodeId: map<(int, int), int>)
    requires n == |allNeighbors| && forall v :: 0 <= v < n ==> Distinct(allNeighbors[v])
    ensures idCounter == Base(allNeighbors, n) && newAdj == Blocks(allNeighbors, n)
    ensures rep.Length == n && forall x :: 0 <= x < n ==> rep[x] == Base(allNeighbors, x)
    ensures NodeIds(allNeighbors, nodeId)
  {
    ghost var nb := allNeighbors;
    nodeId := map[];
    idCounter := 0;
    rep := new int[n](_ => -1);
    newAdj := [];
    ProxyOuterStart(nb);
    var v := 0;
    while v < n
      invariant 0 <= v <= n && rep.Length == n && ProxyOuter(nb, v, idCounter, newAdj, rep[..], nodeId)
    {
      var neighList := allNeighbors[v];
      if |neighList| == 0 {
        ProxyIsolated(nb, v, idCounter, newAdj, rep[..], nodeId);
        rep[v] := idCounter;
        newAdj := newAdj + [[]];
        idCounter := idCounter + 1;
      } else {
        idCounter, newAdj, nodeId := CreateCycle(nb, v, neighList, idCounter, newAdj, rep, nodeId);
      }
      v := v + 1;
    }
    ProxyOuterDone(nb, idCounter, newAdj, rep[..], nodeId);
  }

  /** nodeId maps exactly the pairs (v, w) with w a neighbour of v, each to the proxy `NodeId(nb, v, w)`. */
  ghost predicate NodeIds(nb: seq<seq<int>>, nodeId: map<(int, int), int>) {
    && (forall key :: key in nodeId <==> 0 <= key.0 < |nb| && key.1 in nb[key.0])
    && (forall key :: key in nodeId ==> nodeId[key] == NodeId(nb, key.0, key.1))
  }

  /** What translating edge j of u needs: both lookups succeed, and the neighbour list of u is duplicate-free. */
  lemma EdgeLookup(adj: Adjacency, nb: seq<seq<int>>, nodeId: map<(int, int), int>, u: int, j: int)
    requires NeighbourLists(adj, nb) && NodeIds(nb, nodeId) && 0 <= u < |adj| && 0 <= j < |adj[u]|
    ensures var v := adj[u][j].target;
      && 0 <= v < |nb| && v in nb[u] && Distinct(nb[u])
      && (u, v) in nodeId && nodeId[(u, v)] == NodeId(nb, u, v)
      && (v, u) in nodeId && nodeId[(v, u)] == NodeId(nb, v, u)
  {
  }

  /** The third phase (lines 49-56): add, for every original edge u -> v of weight w, the edge proxy (u, v) -> proxy (v, u). */
  method TranslateEdges(n: nat, adj: Adjacency, allNeighbors: seq<seq<int>>, nodeId: map<(int, int), int>, blocks: seq<seq<Edge>>)
    returns (newAdj: seq<seq<Edge>>)
    requires n == |adj| && NeighbourLists(adj, allNeighbors) && NodeIds(allNeighbors, nodeId)
    requires PartialInv(adj, allNeighbors, blocks, 0, 0)
    ensures PartialInv(adj, allNeighbors, newAdj, n, 0)
  {
    ghost var nb := allNeighbors;
    newAdj := blocks;
    var u := 0;
    while u < n
      invariant 0 <= u <= n && PartialInv(adj, nb, newAdj, u, 0)
    {
      var j := 0;
      while j < |adj[u]|
        invariant 0 <= j <= |adj[u]| && PartialInv(adj, nb, newAdj, u, j)
      {
        var v, wuv := adj[u][j].target, adj[u][j].weight;
        EdgeLookup(adj, nb, nodeId, u, j);
        CrossStep(adj, nb, newAdj, u, j);
        var xuv := nodeId[(u, v)];
        var xvu := nodeId[(v, u)];
        newAdj := newAdj[xuv := newAdj[xuv] + [Edge(xvu, wuv)]];
        j := j + 1;
      }
      NextVertex(adj, nb, newAdj, u);
      u := u + 1;
    }
  }

  /** Once every edge of u is translated the edge loop moves on to u + 1. */
  lemma NextVertex(adj: Adjacency, nb: seq<seq<int>>, newAdj: seq<seq<Edge>>, u: int)
    requires |nb| == |adj| && 0 <= u < |adj| && PartialInv(adj, nb, newAdj, u, |adj[u]|)
    ensures PartialInv(adj, nb, newAdj, u + 1, 0)
  {
    forall x, i | 0 <= x < |adj| && 0 <= i < Size(nb, x)
      ensures ProxyId(nb, x, i) < |newAdj| && newAdj[ProxyId(nb, x, i)] == PartialEdges(adj, nb, x, i, Done(adj, x, u + 1, 0))
    {
      ProxyIdRange(nb, x, i);
      assert Done(adj, x, u + 1, 0) == Done(adj, x, u, |adj[u]|);
    }
  }

  /**
   * The result of `transformGraph` over the neighbour lists nb: count proxies,
   * rep[v] the first proxy of v, and every proxy's edge list its cycle edge
   * followed by the translated out-edges of its vertex towards its neighbour.
   */
  ghost predicate Transformed(adj: Adjacency, nb: seq<seq<int>>, count: int, newAdj: seq<seq<Edge>>, rep: seq<int>)
    requires |nb| == |adj|
  {
    && count == Base(nb, |adj|) && |newAdj| == count
    && |rep| == |adj| && (forall v :: 0 <= v < |adj| ==> rep[v] == Base(nb, v))
    && forall v, i {:trigger newAdj[ProxyId(nb, v, i)]} :: 0 <= v < |adj| && 0 <= i < Size(nb, v) ==>
         ProxyId(nb, v, i) < count && newAdj[ProxyId(nb, v, i)] == TransformedEdges(adj, nb, v, i)
  }

  lemma TransformedDone(adj: Adjacency, nb: seq<seq<int>>, count: int, newAdj: seq<seq<Edge>>, rep: seq<int>)
    requires |nb| == |adj| && count == Base(nb, |adj|) && PartialInv(adj, nb, newAdj, |adj|, 0)
    requires |rep| == |adj| && forall v :: 0 <= v < |adj| ==> rep[v] == Base(nb, v)
    ensures Transformed(adj, nb, count, newAdj, rep)
  {
    forall v, i | 0 <= v < |adj| && 0 <= i < Size(nb, v)
      ensures ProxyId(nb, v, i) < count && newAdj[ProxyId(nb, v, i)] == TransformedEdges(adj, nb, v, i)
    {
      ProxyIdRange(nb, v, i);
    }
  }

  /**
   * `transformGraph`: the three phases in order. The argument s is never
   * read, so the result depends on n and adj alone.
   */
  method TransformGraph(n: nat, adj: Adjacency, s: int) returns (count: nat, newAdj: seq<seq<Edge>>, rep: array<int>)
    requires n == |adj| && WellFormed(adj)
    ensures rep.Length == n && Transformed(adj, Neighbours(adj), count, newAdj, rep[..])
  {
    var inNeighbors, outNeighbors := ScanNeighbours(n, adj);
    var allNeighbors := seq(n, v requires 0 <= v < n => AddAll(AddAll([], inNeighbors[v]), outNeighbors[v]));
    ghost var nb := Neighbours(adj);
    assert allNeighbors == nb;
    NeighboursProps(adj);
    var nodeId, blocks;
    count, blocks, rep, nodeId := CreateProxies(n, allNeighbors);
    BlocksArePartial(adj, allNeighbors);
    newAdj := TranslateEdges(n, adj, allNeighbors, nodeId, blocks);
    TransformedDone(adj, nb, count, newAdj, rep[..]);
  }
}
