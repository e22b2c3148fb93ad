/**
 * `dijkstra(n, adj, s)`: the classical algorithm with a binary heap and lazy
 * deletion (stale heap entries are skipped when popped). It serves both as
 * the small-graph fallback and as the reference the library compares with.
 *
 * The loop state is summarised by `DijkstraInv`, a predicate over values
 * (the distance table, the multiset of heap entries, the ghost set of settled
 * vertices and the distance of the last settled vertex); one lemma per
 * transition of the loop shows it is preserved.
 */
module Dijkstras {
  import opened Common
  import opened Graphs
  import opened BinaryHeaps

  /** The first j out-edges of u are relaxed. */
  ghost predicate RelaxedUpTo(adj: Adjacency, d: seq<Dist>, u: int, j: int)
    requires 0 <= u < |adj| && |d| == |adj| && WellFormed(adj) && j <= |adj[u]|
  {
    forall i :: 0 <= i < j ==> Le(d[adj[u][i].target], Add(d[u], adj[u][i].weight))
  }

  /** Every heap entry is a finite upper bound of its vertex's distance, at or above `last`. */
  ghost predicate EntriesAbove(d: seq<Dist>, h: multiset<Entry>, last: Dist) {
    forall e :: e in h ==> 0 <= e.key < |d| && e.value.Fin? && Le(d[e.key], e.value) && Le(last, e.value)
  }

  /** Settled vertices have finite distances at or below `last`. */
  ghost predicate SettledBelow(d: seq<Dist>, done: set<int>, last: Dist) {
    forall w :: w in done ==> 0 <= w < |d| && d[w].Fin? && Le(d[w], last)
  }

  /** Every settled vertex other than u is relaxed. */
  ghost predicate SettledRelaxed(adj: Adjacency, d: seq<Dist>, done: set<int>, u: int)
    requires WellFormed(adj) && |d| == |adj|
  {
    forall w :: w in done && w != u && 0 <= w < |adj| ==> Relaxed(adj, d, w)
  }

  /** An unsettled finite vertex has exactly one heap entry carrying its current distance. */
  ghost predicate Counted(d: seq<Dist>, h: multiset<Entry>, done: set<int>) {
    forall w {:trigger h[Entry(w, d[w])]} :: 0 <= w < |d| ==> h[Entry(w, d[w])] == if w in done || d[w].Inf? then 0 else 1
  }

  /**
   * The loop invariant. `done` holds the settled vertices, `last` the distance
   * of the most recently settled one, `u` the vertex whose edges are being
   * relaxed (of which the first `j` are done), or -1 between vertices.
   */
  ghost predicate DijkstraInv(adj: Adjacency, s: int, d: seq<Dist>, h: multiset<Entry>,
                              done: set<int>, last: Dist, u: int, j: int)
  {
    && WellFormed(adj) && |d| == |adj| && 0 <= s < |adj| && d[s] == Fin(0.0)
    && Sound(adj, s, d)
    && last.Fin?
    && EntriesAbove(d, h, last)
    && SettledBelow(d, done, last)
    && SettledRelaxed(adj, d, done, u)
    && (u in done ==> 0 <= u < |adj| && 0 <= j <= |adj[u]| && RelaxedUpTo(adj, d, u, j))
    && Counted(d, h, done)
  }

  /** The state after `dist[s] = 0.0` and `heap.add(Pair(s, 0.0))`. */
  lemma InitInv(adj: Adjacency, s: int, d: seq<Dist>)
    requires WellFormed(adj) && |d| == |adj| && 0 <= s < |adj|
    requires forall v :: 0 <= v < |d| ==> d[v] == if v == s then Fin(0.0) else Inf
    ensures DijkstraInv(adj, s, d, multiset{Entry(s, Fin(0.0))}, {}, Fin(0.0), -1, 0)
  {
    InitialSound(adj, s, d);
  }

  /** Popping an entry whose distance is above the table's (`du > dist[u]`) changes nothing else. */
  lemma PopStale(adj: Adjacency, s: int, d: seq<Dist>, h: multiset<Entry>, done: set<int>, last: Dist, e: Entry)
    requires DijkstraInv(adj, s, d, h, done, last, -1, 0) && e in h
    requires Lt(d[e.key], e.value)
    ensures DijkstraInv(adj, s, d, h - multiset{e}, done, last, -1, 0)
  {
    var h' := h - multiset{e};
    forall w | 0 <= w < |d|
      ensures h'[Entry(w, d[w])] == if w in done || d[w].Inf? then 0 else 1
    {
      assert Entry(w, d[w]) != e;
    }
  }

  /**
   * Popping the minimum entry whose distance equals the table's settles its
   * vertex: it was not settled before, and its distance becomes `last`.
   */
  lemma PopFresh(adj: Adjacency, s: int, d: seq<Dist>, h: multiset<Entry>, done: set<int>, last: Dist,
                 e: Entry, rest: multiset<Entry>)
    requires DijkstraInv(adj, s, d, h, done, last, -1, 0) && e in h && rest == h - multiset{e}
    requires forall x :: x in h ==> Le(e.value, x.value)
    requires !Lt(d[e.key], e.value)
    ensures e.key !in done && d[e.key] == e.value && |done + {e.key}| == |done| + 1 <= |adj|
    ensures DijkstraInv(adj, s, d, rest, done + {e.key}, e.value, e.key, 0)
  {
    var u := e.key;
    assert e == Entry(u, d[u]);
    var h' := h - multiset{e};
    var done' := done + {u};
    forall w | 0 <= w < |d|
      ensures h'[Entry(w, d[w])] == if w in done' || d[w].Inf? then 0 else 1
    {
      assert w == u || Entry(w, d[w]) != e;
    }
    forall w | w in done'
      ensures 0 <= w < |d| && d[w].Fin? && Le(d[w], e.value) && (w != u ==> Relaxed(adj, d, w))
    {
    }
    VertexSetSize(done', |adj|);
  }

  /** The relaxed target is neither settled nor u itself: its distance is above `last`. */
  lemma RelaxTargetUnsettled(d: seq<Dist>, done: set<int>, last: Dist, u: int, v: int, nd: Dist)
    requires SettledBelow(d, done, last) && u in done && Le(last, nd) && 0 <= v < |d|
    requires Lt(nd, d[v])
    ensures v !in done && v != u
  {
  }

  lemma RelaxEntries(d: seq<Dist>, h: multiset<Entry>, last: Dist, v: int, nd: Dist)
    requires EntriesAbove(d, h, last) && 0 <= v < |d| && nd.Fin? && Le(last, nd) && Le(nd, d[v])
    ensures EntriesAbove(d[v := nd], h + multiset{Entry(v, nd)}, last)
  {
    var d' := d[v := nd];
    forall e | e in h + multiset{Entry(v, nd)}
      ensures 0 <= e.key < |d'| && e.value.Fin? && Le(d'[e.key], e.value) && Le(last, e.value)
    {
      if e != Entry(v, nd) {
        assert e in h;
      }
    }
  }

  lemma RelaxCounted(d: seq<Dist>, h: multiset<Entry>, done: set<int>, last: Dist, v: int, nd: Dist)
    requires Counted(d, h, done) && EntriesAbove(d, h, last)
    requires 0 <= v < |d| && v !in done && nd.Fin? && Lt(nd, d[v])
    ensures Counted(d[v := nd], h + multiset{Entry(v, nd)}, done)
  {
    var d', h' := d[v := nd], h + multiset{Entry(v, nd)};
    assert Entry(v, nd) !in h;
    forall w | 0 <= w < |d'|
      ensures h'[Entry(w, d'[w])] == if w in done || d'[w].Inf? then 0 else 1
    {
      if w != v {
        assert Entry(w, d[w]) != Entry(v, nd);
      }
    }
  }

  /** Lowering an unsettled entry keeps every settled vertex relaxed and below `last`. */
  lemma RelaxSettled(adj: Adjacency, d: seq<Dist>, done: set<int>, last: Dist, u: int, v: int, nd: Dist)
    requires WellFormed(adj) && |d| == |adj| && SettledRelaxed(adj, d, done, u) && SettledBelow(d, done, last)
    requires 0 <= v < |d| && v !in done && Le(nd, d[v])
    ensures SettledRelaxed(adj, d[v := nd], done, u) && SettledBelow(d[v := nd], done, last)
  {
    var d' := d[v := nd];
    forall w | w in done && w != u && 0 <= w < |adj|
      ensures Relaxed(adj, d', w)
    {
      assert Relaxed(adj, d, w);
      forall i | 0 <= i < |adj[w]|
        ensures Le(d'[adj[w][i].target], Add(d'[w], adj[w][i].weight))
      {
        assert Le(d'[adj[w][i].target], d[adj[w][i].target]);
      }
    }
  }

  /** Relaxing edge j keeps the first j edges of u relaxed and adds edge j. */
  lemma RelaxPrefix(adj: Adjacency, d: seq<Dist>, u: int, j: int)
    requires WellFormed(adj) && |d| == |adj| && 0 <= u < |adj| && 0 <= j < |adj[u]|
    requires RelaxedUpTo(adj, d, u, j) && adj[u][j].target != u
    requires Le(Add(d[u], adj[u][j].weight), d[adj[u][j].target])
    ensures RelaxedUpTo(adj, d[adj[u][j].target := Add(d[u], adj[u][j].weight)], u, j + 1)
  {
    var v, nd := adj[u][j].target, Add(d[u], adj[u][j].weight);
    var d' := d[v := nd];
    forall i | 0 <= i < j + 1
      ensures Le(d'[adj[u][i].target], Add(d'[u], adj[u][i].weight))
    {
      if i < j {
        assert Le(d'[adj[u][i].target], d[adj[u][i].target]);
      }
    }
  }

  /** Relaxing edge j of u when `du + w < dist[v]`: lower dist[v] and push the new entry. */
  lemma RelaxEdge(adj: Adjacency, s: int, d: seq<Dist>, h: multiset<Entry>, done: set<int>, last: Dist, u: int, j: int)
    requires DijkstraInv(adj, s, d, h, done, last, u, j) && u in done && d[u] == last && j < |adj[u]|
    requires Lt(Add(last, adj[u][j].weight), d[adj[u][j].target])
    ensures adj[u][j].target !in done
    ensures DijkstraInv(adj, s, d[adj[u][j].target := Add(last, adj[u][j].weight)],
                        h + multiset{Entry(adj[u][j].target, Add(last, adj[u][j].weight))}, done, last, u, j + 1)
  {
    var v, nd := adj[u][j].target, Add(last, adj[u][j].weight);
    RelaxTargetUnsettled(d, done, last, u, v, nd);
    RelaxKeepsSound(adj, s, d, u, j);
    RelaxEntries(d, h, last, v, nd);
    RelaxCounted(d, h, done, last, v, nd);
    RelaxSettled(adj, d, done, last, u, v, nd);
    RelaxPrefix(adj, d, u, j);
  }

  /** Edge j of u does not improve its target: it is already relaxed. */
  lemma SkipEdge(adj: Adjacency, s: int, d: seq<Dist>, h: multiset<Entry>, done: set<int>, last: Dist, u: int, j: int)
    requires DijkstraInv(adj, s, d, h, done, last, u, j) && u in done && d[u] == last && j < |adj[u]|
    requires !Lt(Add(last, adj[u][j].weight), d[adj[u][j].target])
    ensures DijkstraInv(adj, s, d, h, done, last, u, j + 1)
  {
  }

  /** Once every edge of u is relaxed, u is relaxed like the other settled vertices. */
  lemma FinishVertex(adj: Adjacency, s: int, d: seq<Dist>, h: multiset<Entry>, done: set<int>, last: Dist, u: int)
    requires 0 <= u < |adj| && u in done && DijkstraInv(adj, s, d, h, done, last, u, |adj[u]|)
    ensures DijkstraInv(adj, s, d, h, done, last, -1, 0)
  {
  }

  /** With the heap empty every finitely-reached vertex is settled, so the table is exact. */
  lemma EmptyHeapShortest(adj: Adjacency, s: int, d: seq<Dist>, done: set<int>, last: Dist)
    requires DijkstraInv(adj, s, d, multiset{}, done, last, -1, 0)
    ensures ShortestDistances(adj, s, d)
  {
    forall w | 0 <= w < |adj| && d[w].Fin?
      ensures Relaxed(adj, d, w)
    {
      assert multiset{}[Entry(w, d[w])] == 0;
    }
    RelaxedSoundIsShortest(adj, s, d);
  }

  /** A set of vertices of an n-vertex graph has at most n elements. */
  lemma {:induction false} VertexSetSize(vs: set<int>, n: nat)
    requires forall w :: w in vs ==> 0 <= w < n
    ensures |vs| <= n
    decreases n
  {
    if n > 0 {
      VertexSetSize(vs - {n - 1}, n - 1);
    } else {
      assert forall w :: w !in vs;
      assert vs == {};
    }
  }

  /**
   * `dijkstra(n, adj, s)`: the returned table holds, for every vertex, the
   * length of a shortest walk from s, and infinity for unreachable vertices.
   */
  method Dijkstra(n: nat, adj: Adjacency, s: int) returns (dist: array<Dist>)
    requires n == |adj| && WellFormed(adj) && 0 <= s < n
    ensures dist.Length == n
    ensures dist[s] == Fin(0.0)
    ensures ShortestDistances(adj, s, dist[..])
  {
    dist := new Dist[n](_ => Inf);
    dist[s] := Fin(0.0);
    var heap := new BinaryHeap();
    heap.Add(Entry(s, Fin(0.0)));
    InitInv(adj, s, dist[..]);
    ghost var done: set<int> := {};
    ghost var last := Fin(0.0);
    while heap.IsNotEmpty()
      invariant heap.Valid() && |done| <= n
      invariant DijkstraInv(adj, s, dist[..], heap.Contents, done, last, -1, 0)
      decreases n - |done|, |heap.Contents|
    {
      ghost var d, h := dist[..], heap.Contents;
      var r := heap.Poll();
      if r.None? {
        assert false;
        break;
      }
      assert dist[..] == d;
      var u, du := r.value.key, r.value.value;
      if Lt(dist[u], du) {
        // `continue`: the entry is stale
        PopStale(adj, s, d, h, done, last, r.value);
        assert |heap.Contents| < |h|;
      } else {
        PopFresh(adj, s, d, h, done, last, r.value, heap.Contents);
        done, last := done + {u}, du;
        RelaxOutEdges(adj, s, dist, heap, u, du, done, last);
      }
    }
    EmptyHeapShortest(adj, s, dist[..], done, last);
  }

  /** The `for ((v, wuv) in adj[u])` loop of `dijkstra`: relax every out-edge of the settled vertex u. */
  method RelaxOutEdges(adj: Adjacency, s: int, dist: array<Dist>, heap: BinaryHeap, u: int, du: Dist,
                       ghost done: set<int>, ghost last: Dist)
    requires heap.Valid() && u in done && 0 <= u < dist.Length && dist[u] == du == last
    requires DijkstraInv(adj, s, dist[..], heap.Contents, done, last, u, 0)
    modifies dist, heap
    ensures heap.Valid()
    ensures DijkstraInv(adj, s, dist[..], heap.Contents, done, last, -1, 0)
  {
    var j := 0;
    while j < |adj[u]|
      invariant heap.Valid() && 0 <= j <= |adj[u]|
      invariant dist[u] == du
      invariant DijkstraInv(adj, s, dist[..], heap.Contents, done, last, u, j)
    {
      var v, w := adj[u][j].target, adj[u][j].weight;
      var nd := Add(du, w);
      if Lt(nd, dist[v]) {
        ghost var d', h' := dist[..][v := nd], heap.Contents + multiset{Entry(v, nd)};
        RelaxEdge(adj, s, dist[..], heap.Contents, done, last, u, j);
        dist[v] := nd;
        heap.Add(Entry(v, nd));
        assert dist[..] == d' && heap.Contents == h';
      } else {
        SkipEdge(adj, s, dist[..], heap.Contents, done, last, u, j);
      }
      j := j + 1;
    }
    FinishVertex(adj, s, dist[..], heap.Contents, done, last, u);
  }
}
