/**
 * Directed graphs as adjacency lists of (target, weight) edges, walks in
 * them, and the two invariants every distance-table writer of the library
 * keeps: each finite distance is the length of a walk from the source, and
 * each recorded predecessor bears the distance it was relaxed to.
 */
module Graphs {
  import opened Common

  /** An adjacency-list entry `Pair<Int, Double>`: the target vertex and the edge weight. */
  datatype Edge = Edge(target: int, weight: NonNegReal)

  type Adjacency = seq<seq<Edge>>

  /** Every edge target is a vertex of the graph. */
  predicate WellFormed(adj: Adjacency) {
    forall u, j :: 0 <= u < |adj| && 0 <= j < |adj[u]| ==> 0 <= adj[u][j].target < |adj|
  }

  /** One step of a walk: edge number `index` of `adj[from]`. */
  datatype Step = Step(from: int, index: int)

  predicate StepIn(adj: Adjacency, st: Step) {
    0 <= st.from < |adj| && 0 <= st.index < |adj[st.from]|
  }

  function StepTarget(adj: Adjacency, st: Step): int
    requires StepIn(adj, st)
  {
    adj[st.from][st.index].target
  }

  function StepWeight(adj: Adjacency, st: Step): NonNegReal
    requires StepIn(adj, st)
  {
    adj[st.from][st.index].weight
  }

  /** p is a walk that starts at src: each step leaves the vertex where the previous one arrived. */
  ghost predicate IsWalk(adj: Adjacency, src: int, p: seq<Step>)
    decreases |p|
  {
    p == [] ||
      (IsWalk(adj, src, p[..|p| - 1]) && StepIn(adj, p[|p| - 1]) && p[|p| - 1].from == WalkEnd(adj, src, p[..|p| - 1]))
  }

  /** The vertex a walk from src arrives at. */
  ghost function WalkEnd(adj: Adjacency, src: int, p: seq<Step>): int {
    if p == [] then src else if StepIn(adj, p[|p| - 1]) then StepTarget(adj, p[|p| - 1]) else -1
  }

  /** The sum of the weights along a walk. */
  ghost function WalkLength(adj: Adjacency, p: seq<Step>): NonNegReal {
    if p == [] then 0.0
    else WalkLength(adj, p[..|p| - 1]) + (if StepIn(adj, p[|p| - 1]) then StepWeight(adj, p[|p| - 1]) else 0.0)
  }

  /** p is a walk from src to v of total weight len. */
  ghost predicate WalkTo(adj: Adjacency, src: int, p: seq<Step>, v: int, len: real) {
    IsWalk(adj, src, p) && WalkEnd(adj, src, p) == v && WalkLength(adj, p) == len
  }

  /** Some walk from src reaches v with total weight len. */
  ghost predicate Reached(adj: Adjacency, src: int, v: int, len: real) {
    exists p :: WalkTo(adj, src, p, v, len)
  }

  /**
   * Every finite entry of d is the length of some walk from src. (The trigger
   * keeps the quantifier from firing on every read of d in client code.)
   */
  ghost predicate Sound(adj: Adjacency, src: int, d: seq<Dist>) {
    forall v {:trigger Reached(adj, src, v, d[v].r)} :: 0 <= v < |d| && d[v].Fin? ==> Reached(adj, src, v, d[v].r)
  }

  /** u has an edge to v whose relaxation from d[u] is no worse than d[v]. */
  ghost predicate Supports(adj: Adjacency, d: seq<Dist>, u: int, v: int)
    requires 0 <= u < |adj| && 0 <= u < |d| && 0 <= v < |d|
  {
    exists j :: 0 <= j < |adj[u]| && adj[u][j].target == v && Le(Add(d[u], adj[u][j].weight), d[v])
  }

  /** Every recorded predecessor is a vertex that supports the recorded distance. */
  ghost predicate PredLink(adj: Adjacency, d: seq<Dist>, pred: seq<int>) {
    && |d| == |adj| && |pred| == |adj|
    && forall v :: 0 <= v < |pred| && pred[v] != -1 ==> 0 <= pred[v] < |adj| && Supports(adj, d, pred[v], v)
  }

  /** All out-edges of u are relaxed: no edge leaving u improves its target. */
  ghost predicate Relaxed(adj: Adjacency, d: seq<Dist>, u: int)
    requires 0 <= u < |adj| && |d| == |adj| && WellFormed(adj)
  {
    forall j :: 0 <= j < |adj[u]| ==> Le(d[adj[u][j].target], Add(d[u], adj[u][j].weight))
  }

  /**
   * d holds exactly the shortest-walk distances from src: every finite entry
   * is the length of a walk, and no walk from src is shorter than the entry
   * of the vertex it reaches (so an unreachable vertex holds infinity).
   */
  ghost predicate ShortestDistances(adj: Adjacency, src: int, d: seq<Dist>) {
    && |d| == |adj|
    && Sound(adj, src, d)
    && forall p :: IsWalk(adj, src, p) ==> 0 <= WalkEnd(adj, src, p) < |d| && Le(d[WalkEnd(adj, src, p)], Fin(WalkLength(adj, p)))
  }

  /** Appending an edge that leaves the end of a walk gives a walk one edge longer. */
  lemma WalkExtend(adj: Adjacency, src: int, p: seq<Step>, st: Step)
    requires IsWalk(adj, src, p) && StepIn(adj, st) && st.from == WalkEnd(adj, src, p)
    ensures IsWalk(adj, src, p + [st])
    ensures WalkEnd(adj, src, p + [st]) == StepTarget(adj, st)
    ensures WalkLength(adj, p + [st]) == WalkLength(adj, p) + StepWeight(adj, st)
  {
    assert (p + [st])[..|p|] == p;
  }

  /** The table that is infinite except for a 0 at src is sound. */
  lemma InitialSound(adj: Adjacency, src: int, d: seq<Dist>)
    requires forall v :: 0 <= v < |d| && v != src ==> d[v] == Inf
    requires 0 <= src < |d| ==> d[src] == Fin(0.0)
    ensures Sound(adj, src, d)
  {
    forall v | 0 <= v < |d| && d[v].Fin?
      ensures Reached(adj, src, v, d[v].r)
    {
      assert WalkTo(adj, src, [], v, d[v].r);
    }
  }

  /** Relaxing an edge u -> v keeps the table sound: the new value of v is a walk to u plus the edge. */
  lemma RelaxKeepsSound(adj: Adjacency, src: int, d: seq<Dist>, u: int, j: int)
    requires WellFormed(adj) && |d| == |adj| && Sound(adj, src, d)
    requires 0 <= u < |adj| && 0 <= j < |adj[u]|
    ensures Sound(adj, src, d[adj[u][j].target := Add(d[u], adj[u][j].weight)])
  {
    var v := adj[u][j].target;
    var d' := d[v := Add(d[u], adj[u][j].weight)];
    forall x | 0 <= x < |d'| && d'[x].Fin?
      ensures Reached(adj, src, x, d'[x].r)
    {
      if x == v {
        assert Reached(adj, src, u, d[u].r);
        var p :| WalkTo(adj, src, p, u, d[u].r);
        WalkExtend(adj, src, p, Step(u, j));
        assert WalkTo(adj, src, p + [Step(u, j)], x, d'[x].r);
      } else {
        assert Reached(adj, src, x, d[x].r);
      }
    }
  }

  /**
   * Relaxing u -> v under the guard `d[u] + w <= d[v]` and recording u as the
   * predecessor of v keeps every predecessor link supported.
   */
  lemma RelaxKeepsPredLink(adj: Adjacency, d: seq<Dist>, pred: seq<int>, u: int, j: int)
    requires WellFormed(adj) && PredLink(adj, d, pred)
    requires 0 <= u < |adj| && 0 <= j < |adj[u]|
    requires Le(Add(d[u], adj[u][j].weight), d[adj[u][j].target])
    ensures PredLink(adj, d[adj[u][j].target := Add(d[u], adj[u][j].weight)], pred[adj[u][j].target := u])
  {
    var v := adj[u][j].target;
    var d' := d[v := Add(d[u], adj[u][j].weight)];
    var pred' := pred[v := u];
    forall x | 0 <= x < |pred'| && pred'[x] != -1
      ensures 0 <= pred'[x] < |adj| && Supports(adj, d', pred'[x], x)
    {
      if x == v {
        if u == v {
          assert Le(Add(d'[u], adj[u][j].weight), d'[v]);
        } else {
          assert Le(Add(d'[u], adj[u][j].weight), d'[v]);
        }
      } else {
        var y := pred[x];
        var i :| 0 <= i < |adj[y]| && adj[y][i].target == x && Le(Add(d[y], adj[y][i].weight), d[x]);
        assert Le(Add(d'[y], adj[y][i].weight), d'[x]);
      }
    }
  }

  /**
   * With d[src] = 0 and every finitely-reached vertex relaxed, no walk from
   * src is shorter than the entry of the vertex it reaches.
   */
  lemma {:induction false} RelaxedBoundsWalks(adj: Adjacency, src: int, d: seq<Dist>, p: seq<Step>)
    requires WellFormed(adj) && |d| == |adj| && 0 <= src < |adj| && d[src] == Fin(0.0)
    requires forall u :: 0 <= u < |adj| && d[u].Fin? ==> Relaxed(adj, d, u)
    requires IsWalk(adj, src, p)
    ensures 0 <= WalkEnd(adj, src, p) < |d|
    ensures Le(d[WalkEnd(adj, src, p)], Fin(WalkLength(adj, p)))
    decreases |p|
  {
    if p != [] {
      var q := p[..|p| - 1];
      var st := p[|p| - 1];

      RelaxedBoundsWalks(adj, src, d, q);
      var u := WalkEnd(adj, src, q);
      assert st.from == u;
      assert d[u].Fin?;
      assert Relaxed(adj, d, u);
      assert Le(d[StepTarget(adj, st)], Add(d[u], StepWeight(adj, st)));
    }
  }

  /** Soundness plus relaxation of every finite vertex is exactly the shortest-distance property. */
  lemma RelaxedSoundIsShortest(adj: Adjacency, src: int, d: seq<Dist>)
    requires WellFormed(adj) && |d| == |adj| && 0 <= src < |adj| && d[src] == Fin(0.0)
    requires Sound(adj, src, d)
    requires forall u :: 0 <= u < |adj| && d[u].Fin? ==> Relaxed(adj, d, u)
    ensures ShortestDistances(adj, src, d)
  {
    forall p | IsWalk(adj, src, p)
      ensures 0 <= WalkEnd(adj, src, p) < |d| && Le(d[WalkEnd(adj, src, p)], Fin(WalkLength(adj, p)))
    {
      RelaxedBoundsWalks(adj, src, d, p);
    }
  }
}
