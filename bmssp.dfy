/**
 * The bounded multi-source shortest-path recursion `BMSSP` with its two
 * helpers `baseCase` (a Dijkstra search from one vertex that stops after
 * k + 1 settled vertices) and `findPivots` (k rounds of Bellman-Ford-style
 * relaxation from the frontier, then the sizes of the tight-edge forest).
 *
 * All of them relax into the shared tables `d` and `pred`. What is proved is
 * local: every write lowers an entry of `d` and records the vertex it came
 * from in `pred` (`Relaxations`), every finite distance stays the length of
 * a walk from the source and every predecessor supports its vertex's
 * distance (`Tables`), and the bounds and subset relations each function
 * promises. Kotlin's insertion-ordered sets are duplicate-free sequences.
 */
module Bmssps {
  import opened Common
  import opened Graphs
  import opened BinaryHeaps
  import opened BlockBatches
  import opened PartialHeaps
  import opened Dijkstras

  /** `1 shl x`, as an unbounded integer. */
  function Pow2(x: nat): (r: nat)
    ensures r >= 1
  {
    if x == 0 then 1 else 2 * Pow2(x - 1)
  }

  // ---------------------------------------------------------------------
  // The shared tables

  /** Every finite distance is the length of a walk from src, and every recorded predecessor supports its vertex. */
  ghost predicate Tables(adj: Adjacency, src: int, d: seq<Dist>, pred: seq<int>) {
    WellFormed(adj) && Sound(adj, src, d) && PredLink(adj, d, pred)
  }

  /**
   * (d1, p1) comes from (d0, p0) by relaxations only: no distance rose, a
   * distance that changed has a recorded predecessor, and no recorded
   * predecessor was erased.
   */
  ghost predicate Relaxations(d0: seq<Dist>, p0: seq<int>, d1: seq<Dist>, p1: seq<int>) {
    && |d1| == |d0| && |p0| == |d0| && |p1| == |d0|
    && forall v :: 0 <= v < |d0| ==>
         && Le(d1[v], d0[v])
         && (d1[v] != d0[v] ==> p1[v] != -1)
         && (p0[v] != -1 ==> p1[v] != -1)
  }

  /** No distance rose from d0 to d1. */
  ghost predicate Lowered(d0: seq<Dist>, d1: seq<Dist>) {
    |d1| == |d0| && forall v :: 0 <= v < |d0| ==> Le(d1[v], d0[v])
  }

  /** Every distance that changed from d0 to d1 is below B. */
  ghost predicate WritesBelow(d0: seq<Dist>, d1: seq<Dist>, B: Dist)
    requires |d0| == |d1|
  {
    forall v :: 0 <= v < |d0| && d1[v] != d0[v] ==> Lt(d1[v], B)
  }

  /** Every element of s is a vertex. */
  predicate Vertices(adj: Adjacency, s: seq<int>) {
    InRange(s, |adj|)
  }

  /** Every element of s lies in [0, n). */
  predicate InRange(s: seq<int>, n: int) {
    forall i :: 0 <= i < |s| ==> 0 <= s[i] < n
  }

  lemma RelaxationsTrans(d0: seq<Dist>, p0: seq<int>, d1: seq<Dist>, p1: seq<int>, d2: seq<Dist>, p2: seq<int>)
    requires Relaxations(d0, p0, d1, p1) && Relaxations(d1, p1, d2, p2)
    ensures Relaxations(d0, p0, d2, p2)
  {
    forall v | 0 <= v < |d0|
      ensures Le(d2[v], d0[v]) && (d2[v] != d0[v] ==> p2[v] != -1)
    {
      if d2[v] != d0[v] && d2[v] == d1[v] {
        assert p1[v] != -1;
      }
    }
  }

  /**
   * Relaxing edge j of u under `d[u] + w <= d[v]`, writing d[v] and
   * recording u in pred[v], keeps the tables and is a relaxation.
   */
  lemma Relax(adj: Adjacency, src: int, d0: seq<Dist>, p0: seq<int>, d: seq<Dist>, p: seq<int>, u: int, j: int)
    requires Tables(adj, src, d, p) && Relaxations(d0, p0, d, p)
    requires 0 <= u < |adj| && 0 <= j < |adj[u]|
    requires Le(Add(d[u], adj[u][j].weight), d[adj[u][j].target])
    ensures Tables(adj, src, d[adj[u][j].target := Add(d[u], adj[u][j].weight)], p[adj[u][j].target := u])
    ensures Relaxations(d0, p0, d[adj[u][j].target := Add(d[u], adj[u][j].weight)], p[adj[u][j].target := u])
  {
    RelaxKeepsSound(adj, src, d, u, j);
    RelaxKeepsPredLink(adj, d, p, u, j);
    var v, nd := adj[u][j].target, Add(d[u], adj[u][j].weight);
    assert Relaxations(d, p, d[v := nd], p[v := u]);
    RelaxationsTrans(d0, p0, d, p, d[v := nd], p[v := u]);
  }

  /**
   * After the write, `d[u] + w` read again is the value just written: it
   * differs only when the edge is a self-loop, and then the guard forces the
   * weight to 0 or the distance to be infinite.
   */
  lemma ReadAgain(du: Dist, w: NonNegReal, dv: Dist, du': Dist)
    requires Le(Add(du, w), dv)
    requires du' == du || (du' == Add(du, w) && dv == du)
    ensures Add(du', w) == Add(du, w)
  {
  }

  // ---------------------------------------------------------------------
  // Collection helpers: `maxOf`, `minOf`, `filter`

  /** `vs.maxOf { d[it] }`: a value of d over vs that is at least every other. */
  function MaxDist(d: seq<Dist>, vs: seq<int>): (r: Dist)
    requires vs != [] && InRange(vs, |d|)
    ensures exists i :: 0 <= i < |vs| && r == d[vs[i]]
    ensures forall i :: 0 <= i < |vs| ==> Le(d[vs[i]], r)
    decreases |vs|
  {
    if |vs| == 1 then d[vs[0]]
    else
      var m := MaxDist(d, vs[1..]);
      assert forall i :: 1 <= i < |vs| ==> vs[i] == vs[1..][i - 1];
      if Le(d[vs[0]], m) then m else d[vs[0]]
  }

  /** `vs.minOf { d[it] }`: a value of d over vs that is at most every other. */
  function MinDist(d: seq<Dist>, vs: seq<int>): (r: Dist)
    requires vs != [] && InRange(vs, |d|)
    ensures exists i :: 0 <= i < |vs| && r == d[vs[i]]
    ensures forall i :: 0 <= i < |vs| ==> Le(r, d[vs[i]])
    decreases |vs|
  {
    if |vs| == 1 then d[vs[0]]
    else
      var m := MinDist(d, vs[1..]);
      assert forall i :: 1 <= i < |vs| ==> vs[i] == vs[1..][i - 1];
      if Le(m, d[vs[0]]) then m else d[vs[0]]
  }

  /**
   * `vs.filter { d[it] < b }.toSet()`: the elements of vs whose distance is
   * below b, in order; it is shorter than vs when some element is not below b.
   */
  function Below(d: seq<Dist>, vs: seq<int>, b: Dist): (r: seq<int>)
    requires InRange(vs, |d|)
    ensures forall v :: v in r <==> v in vs && Lt(d[v], b)
    ensures Distinct(vs) ==> Distinct(r)
    ensures InRange(r, |d|) && |r| <= |vs|
    ensures (exists v :: v in vs && !Lt(d[v], b)) ==> |r| < |vs|
    decreases |vs|
  {
    if vs == [] then []
    else
      var rest := Below(d, vs[1..], b);
      assert forall v :: v in vs ==> v == vs[0] || v in vs[1..];
      (if Lt(d[vs[0]], b) then [vs[0]] else []) + rest
  }

  /**
   * `si.filter { d[it] >= lo && d[it] < hi }.map { Pair(it, d[it]) }.toSet()`:
   * the vertices of si whose distance lies in [lo, hi), paired with it. The
   * vertices of si are distinct, so `toSet` drops nothing.
   */
  function AddBack(d: seq<Dist>, si: seq<int>, lo: Dist, hi: Dist): (r: seq<Entry>)
    requires InRange(si, |d|)
    ensures forall e :: e in r <==> e.key in si && e.value == d[e.key] && Le(lo, e.value) && Lt(e.value, hi)
    ensures Distinct(si) ==> DistinctKeys(r)
    decreases |si|
  {
    if si == [] then []
    else
      var rest := AddBack(d, si[1..], lo, hi);
      assert forall v :: v in si ==> v == si[0] || v in si[1..];
      (if Le(lo, d[si[0]]) && Lt(d[si[0]], hi) then [Entry(si[0], d[si[0]])] else []) + rest
  }

  // ---------------------------------------------------------------------
  // baseCase

  /**
   * The invariant of the heap loop of `baseCase`, started from x with the
   * tables d0, p0. `done` holds the vertices whose edges were relaxed, `last`
   * the distance of the latest one. Every heap entry bounds its vertex's
   * distance from above, lies at or above `last`, and is below B unless it
   * is x's; every current distance has at most one entry, and none once its
   * vertex is done.
   */
  ghost predicate BaseInv(adj: Adjacency, src: int, x: int, B: Dist, d0: seq<Dist>, p0: seq<int>,
                          d: seq<Dist>, p: seq<int>, h: multiset<Entry>, done: set<int>, last: Dist)
  {
    && Tables(adj, src, d, p) && Relaxations(d0, p0, d, p) && WritesBelow(d0, d, B)
    && 0 <= x < |adj|
    && HeapEntries(d, h, last, x, B) && DoneBelow(d, done, last) && AtMostOne(d, h, done)
  }

  /** Every entry bounds its vertex's distance from above, lies at or above last, and is below B unless it is x's. */
  ghost predicate HeapEntries(d: seq<Dist>, h: multiset<Entry>, last: Dist, x: int, B: Dist) {
    forall e :: e in h ==> 0 <= e.key < |d| && Le(d[e.key], e.value) && Le(last, e.value) && (e.key == x || Lt(e.value, B))
  }

  /** The done vertices have distances at most last. */
  ghost predicate DoneBelow(d: seq<Dist>, done: set<int>, last: Dist) {
    forall w :: w in done ==> 0 <= w < |d| && Le(d[w], last)
  }

  /** Each current distance has at most one entry, and a done vertex's has none. */
  ghost predicate AtMostOne(d: seq<Dist>, h: multiset<Entry>, done: set<int>) {
    forall w {:trigger h[Entry(w, d[w])]} :: 0 <= w < |d| ==> h[Entry(w, d[w])] <= if w in done then 0 else 1
  }

  /** The state after `heap.add(Pair(x, d[x]))`. */
  lemma BaseInit(adj: Adjacency, src: int, x: int, B: Dist, d: seq<Dist>, p: seq<int>)
    requires Tables(adj, src, d, p) && 0 <= x < |adj|
    ensures BaseInv(adj, src, x, B, d, p, d, p, multiset{Entry(x, d[x])}, {}, d[x])
  {
    var h := multiset{Entry(x, d[x])};
    forall w | 0 <= w < |d|
      ensures h[Entry(w, d[w])] <= 1
    {
    }
  }

  /** Popping an entry above its vertex's distance (`dist > d[u]`, skipped) keeps the invariant. */
  lemma BasePopStale(adj: Adjacency, src: int, x: int, B: Dist, d0: seq<Dist>, p0: seq<int>,
                     d: seq<Dist>, p: seq<int>, h: multiset<Entry>, done: set<int>, last: Dist, e: Entry)
    requires BaseInv(adj, src, x, B, d0, p0, d, p, h, done, last) && e in h
    ensures BaseInv(adj, src, x, B, d0, p0, d, p, h - multiset{e}, done, last)
  {
    var h' := h - multiset{e};
    forall w | 0 <= w < |d|
      ensures h'[Entry(w, d[w])] <= if w in done then 0 else 1
    {
      assert h'[Entry(w, d[w])] <= h[Entry(w, d[w])];
    }
  }

  /**
   * Popping the minimum entry, when it equals its vertex's distance, makes
   * the vertex done: it was not done before, and its distance becomes `last`.
   */
  lemma BasePopFresh(adj: Adjacency, src: int, x: int, B: Dist, d0: seq<Dist>, p0: seq<int>,
                     d: seq<Dist>, p: seq<int>, h: multiset<Entry>, done: set<int>, last: Dist, e: Entry)
    requires BaseInv(adj, src, x, B, d0, p0, d, p, h, done, last) && e in h
    requires forall y :: y in h ==> Le(e.value, y.value)
    requires !Lt(d[e.key], e.value)
    ensures e.key !in done && d[e.key] == e.value && (e.key == x || Lt(e.value, B))
    ensures |done + {e.key}| == |done| + 1 <= |adj|
    ensures BaseInv(adj, src, x, B, d0, p0, d, p, h - multiset{e}, done + {e.key}, e.value)
  {
    var u := e.key;
    assert e == Entry(u, d[u]);
    assert u !in done;
    var h' := h - multiset{e};
    var done' := done + {u};
    PoppedCount(d, h, done, e);
    PoppedEntries(d, h, last, x, B, e);
    assert DoneBelow(d, done', e.value);
    VertexSetSize(done', |adj|);
  }

  /** Removing the entry of u's current distance and marking u done keeps at most one entry per distance. */
  lemma PoppedCount(d: seq<Dist>, h: multiset<Entry>, done: set<int>, e: Entry)
    requires AtMostOne(d, h, done) && e in h && 0 <= e.key < |d| && e == Entry(e.key, d[e.key])
    ensures AtMostOne(d, h - multiset{e}, done + {e.key})
  {
    var h', done' := h - multiset{e}, done + {e.key};
    forall w | 0 <= w < |d|
      ensures h'[Entry(w, d[w])] <= if w in done' then 0 else 1
    {
      assert w == e.key || Entry(w, d[w]) != e;
    }
  }

  /** The entries left after popping the minimum lie at or above its value. */
  lemma PoppedEntries(d: seq<Dist>, h: multiset<Entry>, last: Dist, x: int, B: Dist, e: Entry)
    requires HeapEntries(d, h, last, x, B) && e in h
    requires forall y :: y in h ==> Le(e.value, y.value)
    ensures HeapEntries(d, h - multiset{e}, e.value, x, B)
  {
  }

  /**
   * Relaxing edge j of the done vertex u when `d[u] + w < d[v]` and
   * `d[u] + w < B`: the target is neither done nor u, and writing it and
   * pushing its new entry keeps the invariant.
   */
  lemma BaseRelaxEdge(adj: Adjacency, src: int, x: int, B: Dist, d0: seq<Dist>, p0: seq<int>,
                      d: seq<Dist>, p: seq<int>, h: multiset<Entry>, done: set<int>, last: Dist, u: int, j: int)
    requires BaseInv(adj, src, x, B, d0, p0, d, p, h, done, last) && u in done && d[u] == last
    requires 0 <= j < |adj[u]|
    requires Lt(Add(d[u], adj[u][j].weight), d[adj[u][j].target]) && Lt(Add(d[u], adj[u][j].weight), B)
    ensures adj[u][j].target != u
    ensures BaseInv(adj, src, x, B, d0, p0, d[adj[u][j].target := Add(d[u], adj[u][j].weight)], p[adj[u][j].target := u],
                    h + multiset{Entry(adj[u][j].target, Add(d[u], adj[u][j].weight))}, done, last)
  {
    var v, nd := adj[u][j].target, Add(d[u], adj[u][j].weight);
    Relax(adj, src, d0, p0, d, p, u, j);
    assert v !in done;
    PushedCount(d, h, done, v, nd);
    PushedEntries(d, h, last, x, B, v, nd);
    var d' := d[v := nd];
    assert DoneBelow(d', done, last);
    forall w | 0 <= w < |d0| && d'[w] != d0[w]
      ensures Lt(d'[w], B)
    {
    }
  }

  /** Lowering the distance of a vertex that is not done and pushing its new entry keeps at most one entry per distance. */
  lemma PushedCount(d: seq<Dist>, h: multiset<Entry>, done: set<int>, v: int, nd: Dist)
    requires AtMostOne(d, h, done) && 0 <= v < |d| && v !in done && Lt(nd, d[v])
    requires forall e :: e in h ==> 0 <= e.key < |d| && Le(d[e.key], e.value)
    ensures AtMostOne(d[v := nd], h + multiset{Entry(v, nd)}, done)
  {
    var d', h' := d[v := nd], h + multiset{Entry(v, nd)};
    assert Entry(v, nd) !in h;
    forall w | 0 <= w < |d'|
      ensures h'[Entry(w, d'[w])] <= if w in done then 0 else 1
    {
      if w != v {
        assert Entry(w, d[w]) != Entry(v, nd);
      }
    }
  }

  /** The pushed entry, at or above last and below B, with every other entry still above its lowered vertex. */
  lemma PushedEntries(d: seq<Dist>, h: multiset<Entry>, last: Dist, x: int, B: Dist, v: int, nd: Dist)
    requires HeapEntries(d, h, last, x, B) && 0 <= v < |d| && Le(nd, d[v]) && Le(last, nd) && Lt(nd, B)
    ensures HeapEntries(d[v := nd], h + multiset{Entry(v, nd)}, last, x, B)
  {
    var d', h' := d[v := nd], h + multiset{Entry(v, nd)};
    forall y | y in h'
      ensures 0 <= y.key < |d'| && Le(d'[y.key], y.value) && Le(last, y.value) && (y.key == x || Lt(y.value, B))
    {
      if y != Entry(v, nd) {
        assert y in h;
      }
    }
  }

  /**
   * The settled list u0 of `baseCase`, started at x: duplicate-free vertices,
   * at most k + 1 of them, each after x with a distance below B.
   */
  ghost predicate SettledOk(adj: Adjacency, d: seq<Dist>, settled: seq<int>, x: int, B: Dist, k: nat) {
    && Distinct(settled) && 1 <= |settled| <= k + 1 && settled[0] == x && Vertices(adj, settled) && |d| == |adj|
    && forall i :: 0 < i < |settled| ==> Lt(d[settled[i]], B)
  }

  /** Lowering distances keeps the settled vertices below B. */
  lemma SettledLowered(adj: Adjacency, d: seq<Dist>, d': seq<Dist>, settled: seq<int>, x: int, B: Dist, k: nat)
    requires SettledOk(adj, d, settled, x, B, k) && Lowered(d, d')
    ensures SettledOk(adj, d', settled, x, B, k)
  {
    forall i | 0 < i < |settled|
      ensures Lt(d'[settled[i]], B)
    {
      assert Le(d'[settled[i]], d[settled[i]]);
    }
  }

  /** `u0.add(u)` for x itself or a vertex below B, while fewer than k + 1 are settled. */
  lemma SettledAdd(adj: Adjacency, d: seq<Dist>, settled: seq<int>, x: int, B: Dist, k: nat, u: int)
    requires SettledOk(adj, d, settled, x, B, k) && |settled| < k + 1 && 0 <= u < |adj| && (u == x || Lt(d[u], B))
    ensures SettledOk(adj, d, Add1(settled, u), x, B, k)
  {
    Add1Props(settled, u);
  }

  /** The `for ((v, wuv) in adj[u])` loop of `baseCase`, for the vertex u just made done. */
  method BaseRelax(adj: Adjacency, d: array<Dist>, pred: array<int>, heap: BinaryHeap, u: int, B: Dist,
                   ghost src: int, ghost x: int, ghost d0: seq<Dist>, ghost p0: seq<int>, ghost done: set<int>, ghost last: Dist)
    requires heap.Valid() && u in done && 0 <= u < d.Length && d[u] == last
    requires BaseInv(adj, src, x, B, d0, p0, d[..], pred[..], heap.Contents, done, last)
    modifies d, pred, heap
    ensures heap.Valid()
    ensures BaseInv(adj, src, x, B, d0, p0, d[..], pred[..], heap.Contents, done, last)
    ensures Lowered(old(d[..]), d[..])
  {
    var j := 0;
    while j < |adj[u]|
      invariant 0 <= j <= |adj[u]| && heap.Valid() && d[u] == last
      invariant BaseInv(adj, src, x, B, d0, p0, d[..], pred[..], heap.Contents, done, last)
      invariant Lowered(old(d[..]), d[..])
    {
      var v, w := adj[u][j].target, adj[u][j].weight;
      if Lt(Add(d[u], w), d[v]) && Lt(Add(d[u], w), B) {
        ghost var dd, pp, hh := d[..], pred[..], heap.Contents;
        BaseRelaxEdge(adj, src, x, B, d0, p0, dd, pp, hh, done, last, u, j);
        d[v] := Add(d[u], w);
        pred[v] := u;
        heap.Add(Entry(v, d[v]));
        assert d[..] == dd[v := Add(last, w)] && pred[..] == pp[v := u];
      }
      j := j + 1;
    }
  }

  /**
   * One iteration of the heap loop of `baseCase`: poll the minimum entry;
   * skip it when stale, otherwise settle its vertex and relax its edges.
   * Either one more vertex is done or the heap shrank.
   */
  method BaseStep(adj: Adjacency, d: array<Dist>, pred: array<int>, heap: BinaryHeap, settled: seq<int>, B: Dist, k: nat,
                  ghost src: int, ghost x: int, ghost d0: seq<Dist>, ghost p0: seq<int>, ghost done: set<int>, ghost last: Dist)
    returns (settled': seq<int>, ghost done': set<int>, ghost last': Dist)
    requires heap.Valid() && heap.Contents != multiset{} && |done| <= |adj|
    requires BaseInv(adj, src, x, B, d0, p0, d[..], pred[..], heap.Contents, done, last)
    requires SettledOk(adj, d[..], settled, x, B, k) && |settled| < k + 1
    modifies d, pred, heap
    ensures heap.Valid() && |done'| <= |adj|
    ensures BaseInv(adj, src, x, B, d0, p0, d[..], pred[..], heap.Contents, done', last')
    ensures SettledOk(adj, d[..], settled', x, B, k)
    ensures |done'| > |done| || (done' == done && |heap.Contents| < |old(heap.Contents)|)
  {
    ghost var dd, hh := d[..], heap.Contents;
    var r := heap.Poll();
    if r.None? {
      assert false;
      return settled, done, last;
    }
    var u, dist := r.value.key, r.value.value;
    if Lt(d[u], dist) {
      // `continue`: the entry is stale
      BasePopStale(adj, src, x, B, d0, p0, dd, pred[..], hh, done, last, r.value);
      settled', done', last' := settled, done, last;
    } else {
      BasePopFresh(adj, src, x, B, d0, p0, dd, pred[..], hh, done, last, r.value);
      done', last' := done + {u}, dist;
      SettledAdd(adj, dd, settled, x, B, k, u);
      settled' := Add1(settled, u);
      BaseRelax(adj, d, pred, heap, u, B, src, x, d0, p0, done', last');
      SettledLowered(adj, dd, d[..], settled', x, B, k);
    }
  }

  /**
   * `baseCase(B, S, adj, d, pred, k)`: a Dijkstra search from the first
   * vertex x of S that writes only distances below B and stops once k + 1
   * vertices are settled. The settled set u0 starts with x and holds at most
   * k + 1 vertices, each after x with distance below B. With at most k of
   * them the result is (B, u0); otherwise the bound is their largest
   * distance and U the settled vertices strictly below it, at most k.
   */
  method BaseCase(B: Dist, S: seq<int>, adj: Adjacency, d: array<Dist>, pred: array<int>, k: nat, ghost src: int)
    returns (bound: Dist, U: seq<int>, ghost u0: seq<int>)
    requires Tables(adj, src, d[..], pred[..]) && S != [] && Vertices(adj, S)
    modifies d, pred
    ensures Tables(adj, src, d[..], pred[..])
    ensures Relaxations(old(d[..]), old(pred[..]), d[..], pred[..]) && WritesBelow(old(d[..]), d[..], B)
    ensures Distinct(u0) && 1 <= |u0| <= k + 1 && u0[0] == S[0] && Vertices(adj, u0)
    ensures forall i :: 0 < i < |u0| ==> Lt(d[u0[i]], B)
    ensures Distinct(U) && Vertices(adj, U) && |U| <= k
    ensures |u0| <= k ==> bound == B && U == u0
    ensures |u0| > k ==>
      && (exists v :: v in u0 && d[v] == bound)
      && (forall v :: v in u0 ==> Le(d[v], bound))
      && (forall v :: v in U <==> v in u0 && Lt(d[v], bound))
  {
    var x := S[0];
    var settled := [x];
    var heap := new BinaryHeap();
    heap.Add(Entry(x, d[x]));
    ghost var d0, p0 := d[..], pred[..];
    ghost var done: set<int> := {};
    ghost var last := d[x];
    BaseInit(adj, src, x, B, d0, p0);
    while heap.IsNotEmpty() && |settled| < k + 1
      invariant fresh(heap) && heap.Valid() && |done| <= |adj|
      invariant BaseInv(adj, src, x, B, d0, p0, d[..], pred[..], heap.Contents, done, last)
      invariant SettledOk(adj, d[..], settled, x, B, k)
      decreases |adj| - |done|, |heap.Contents|
    {
      settled, done, last := BaseStep(adj, d, pred, heap, settled, B, k, src, x, d0, p0, done, last);
    }
    u0 := settled;
    if |settled| <= k {
      bound, U := B, settled;
    } else {
      bound := MaxDist(d[..], settled);
      U := Below(d[..], settled, bound);
    }
  }

  // ---------------------------------------------------------------------
  // findPivots

  /** The vertices of s are distinct and all have distances below B. */
  ghost predicate FrontierBelow(adj: Adjacency, d: seq<Dist>, s: seq<int>, B: Dist) {
    Distinct(s) && Vertices(adj, s) && |d| == |adj| && forall i :: 0 <= i < |s| ==> Lt(d[s[i]], B)
  }

  /** Lowering distances keeps a frontier below B. */
  lemma FrontierLowered(adj: Adjacency, d: seq<Dist>, d': seq<Dist>, s: seq<int>, B: Dist)
    requires FrontierBelow(adj, d, s, B) && Lowered(d, d')
    ensures FrontierBelow(adj, d', s, B)
  {
    forall i | 0 <= i < |s|
      ensures Lt(d'[s[i]], B)
    {
      assert Le(d'[s[i]], d[s[i]]);
    }
  }

  /** `newWi.add(v)` for a vertex below B. */
  lemma FrontierAdd(adj: Adjacency, d: seq<Dist>, s: seq<int>, B: Dist, v: int)
    requires FrontierBelow(adj, d, s, B) && 0 <= v < |adj| && Lt(d[v], B)
    ensures FrontierBelow(adj, d, Add1(s, v), B)
  {
    Add1Props(s, v);
  }

  /** Every vertex of W is in S or has a distance below B. */
  ghost predicate SourcedOrBelow(d: seq<Dist>, W: seq<int>, S: seq<int>, B: Dist) {
    forall v :: v in W ==> v in S || (0 <= v < |d| && Lt(d[v], B))
  }

  /** Adding a frontier below B to W, after lowering distances, keeps W sourced or below B. */
  lemma SourcedOrBelowGrow(adj: Adjacency, d: seq<Dist>, d': seq<Dist>, W: seq<int>, S: seq<int>, B: Dist, s: seq<int>)
    requires SourcedOrBelow(d, W, S, B) && Lowered(d, d') && FrontierBelow(adj, d', s, B)
    ensures SourcedOrBelow(d', AddAll(W, s), S, B)
  {
    AddAllProps(W, s);
    forall v | v in AddAll(W, s) && v !in S
      ensures 0 <= v < |d'| && Lt(d'[v], B)
    {
      if v in W {
        assert Le(d'[v], d[v]);
      } else {
        var i :| 0 <= i < |s| && s[i] == v;
      }
    }
  }

  /** The `for ((v, wuv) in adj[u])` loop of one `findPivots` round: relax under `<=` and collect targets below B. */
  method PivotEdges(B: Dist, u: int, adj: Adjacency, d: array<Dist>, pred: array<int>, newWi: seq<int>, ghost src: int)
    returns (newWi': seq<int>)
    requires Tables(adj, src, d[..], pred[..]) && 0 <= u < |adj|
    requires FrontierBelow(adj, d[..], newWi, B)
    modifies d, pred
    ensures Tables(adj, src, d[..], pred[..]) && Relaxations(old(d[..]), old(pred[..]), d[..], pred[..])
    ensures FrontierBelow(adj, d[..], newWi', B)
  {
    newWi' := newWi;
    ghost var d0, p0 := d[..], pred[..];
    var j := 0;
    while j < |adj[u]|
      invariant 0 <= j <= |adj[u]|
      invariant Tables(adj, src, d[..], pred[..]) && Relaxations(d0, p0, d[..], pred[..])
      invariant FrontierBelow(adj, d[..], newWi', B)
    {
      var v, w := adj[u][j].target, adj[u][j].weight;
      if Le(Add(d[u], w), d[v]) {
        ghost var dd, pp := d[..], pred[..];
        Relax(adj, src, d0, p0, dd, pp, u, j);
        d[v] := Add(d[u], w);
        pred[v] := u;
        assert d[..] == dd[v := Add(dd[u], w)] && pred[..] == pp[v := u];
        assert Lowered(dd, d[..]);
        FrontierLowered(adj, dd, d[..], newWi', B);
        ReadAgain(dd[u], w, dd[v], d[u]);
        if Lt(Add(d[u], w), B) {
          FrontierAdd(adj, d[..], newWi', B, v);
          newWi' := Add1(newWi', v);
        }
      }
      j := j + 1;
    }
  }

  /** One round of `findPivots`: relax the out-edges of every frontier vertex; the next frontier is below B. */
  method PivotRound(B: Dist, wi: seq<int>, adj: Adjacency, d: array<Dist>, pred: array<int>, ghost src: int)
    returns (newWi: seq<int>)
    requires Tables(adj, src, d[..], pred[..]) && Vertices(adj, wi)
    modifies d, pred
    ensures Tables(adj, src, d[..], pred[..]) && Relaxations(old(d[..]), old(pred[..]), d[..], pred[..])
    ensures FrontierBelow(adj, d[..], newWi, B)
  {
    newWi := [];
    ghost var d0, p0 := d[..], pred[..];
    for a := 0 to |wi|
      invariant Tables(adj, src, d[..], pred[..]) && Relaxations(d0, p0, d[..], pred[..])
      invariant FrontierBelow(adj, d[..], newWi, B)
    {
      ghost var dd, pp := d[..], pred[..];
      newWi := PivotEdges(B, wi[a], adj, d, pred, newWi, src);
      RelaxationsTrans(d0, p0, dd, pp, d[..], pred[..]);
    }
  }

  /** An edge u -> v with `d[v] == d[u] + w`. */
  ghost predicate Tight(adj: Adjacency, d: seq<Dist>, u: int, v: int)
    requires 0 <= u < |adj|
  {
    exists j :: 0 <= j < |adj[u]| && adj[u][j].target == v && 0 <= v < |d| && 0 <= u < |d| && d[v] == Add(d[u], adj[u][j].weight)
  }

  /** The children row of u lists tight edges out of u, a vertex of W, only. */
  ghost predicate TightRow(adj: Adjacency, d: seq<Dist>, W: seq<int>, u: int, row: seq<int>)
    requires 0 <= u < |adj|
  {
    row != [] ==> u in W && forall i :: 0 <= i < |row| ==> Tight(adj, d, u, row[i])
  }

  /** Every edge of tree leaves a vertex of W along a tight edge. */
  ghost predicate TightForest(adj: Adjacency, d: seq<Dist>, W: seq<int>, tree: seq<seq<int>>) {
    && |tree| == |adj|
    && forall u :: 0 <= u < |tree| ==> TightRow(adj, d, W, u, tree[u])
  }

  /** Every child in tree is a vertex of it. */
  predicate TreeOk(tree: seq<seq<int>>) {
    forall u, i :: 0 <= u < |tree| && 0 <= i < |tree[u]| ==> 0 <= tree[u][i] < |tree|
  }

  /** The vertices whose size is not computed yet. */
  ghost function Unvisited(sizes: array<int>): set<int>
    reads sizes
  {
    set v | 0 <= v < sizes.Length && sizes[v] == 0
  }

  /**
   * The local `dfs(u)` of `findPivots`: a memoised size of the subtree of u.
   * `sizes[u]` is set to 1 before the children are visited, so a cycle of
   * tight edges stops at a vertex already begun, and each call lowers the
   * set of unvisited vertices. The result is positive and, for a vertex not
   * visited before, counts itself and at least one per child; sizes
   * already set are not changed.
   */
  method Dfs(u: int, tree: seq<seq<int>>, sizes: array<int>) returns (r: int)
    requires TreeOk(tree) && sizes.Length == |tree| && 0 <= u < |tree|
    requires forall v :: 0 <= v < sizes.Length ==> sizes[v] >= 0
    modifies sizes
    decreases Unvisited(sizes)
    ensures r == sizes[u] && r >= 1
    ensures forall v :: 0 <= v < sizes.Length ==> sizes[v] >= 0
    ensures forall v :: 0 <= v < sizes.Length && old(sizes[v]) != 0 ==> sizes[v] == old(sizes[v])
    ensures old(sizes[u]) == 0 ==> r >= 1 + |tree[u]|
  {
    if sizes[u] > 0 {
      return sizes[u];
    }
    sizes[u] := 1;
    var i := 0;
    while i < |tree[u]|
      invariant 0 <= i <= |tree[u]| && sizes[u] >= 1 + i
      invariant forall v :: 0 <= v < sizes.Length ==> sizes[v] >= 0
      invariant forall v :: 0 <= v < sizes.Length && old(sizes[v]) != 0 ==> sizes[v] == old(sizes[v])
      invariant Unvisited(sizes) <= old(Unvisited(sizes)) - {u}
    {
      var cur := sizes[u];
      var c := Dfs(tree[u][i], tree, sizes);
      sizes[u] := cur + c;
      i := i + 1;
    }
    r := sizes[u];
  }

  /** After adding one sequence of vertices to another, all are still vertices. */
  lemma VerticesAddAll(adj: Adjacency, W: seq<int>, s: seq<int>)
    requires Vertices(adj, W) && Vertices(adj, s)
    ensures Vertices(adj, AddAll(W, s))
  {
    AddAllProps(W, s);
    var r := AddAll(W, s);
    forall i | 0 <= i < |r|
      ensures 0 <= r[i] < |adj|
    {
      assert r[i] in r;
      if r[i] in W {
        var j :| 0 <= j < |W| && W[j] == r[i];
      } else {
        var j :| 0 <= j < |s| && s[j] == r[i];
      }
    }
  }

  /**
   * The `for (i in 1..k)` rounds of `findPivots`. `early` says the loop
   * stopped because W grew past k|S|; when it ran all k >= 1 rounds, W stayed
   * within k|S|.
   */
  method PivotRounds(B: Dist, S: seq<int>, adj: Adjacency, d: array<Dist>, pred: array<int>, k: nat, ghost src: int)
    returns (W: seq<int>, early: bool)
    requires Tables(adj, src, d[..], pred[..]) && Distinct(S) && Vertices(adj, S)
    modifies d, pred
    ensures Tables(adj, src, d[..], pred[..]) && Relaxations(old(d[..]), old(pred[..]), d[..], pred[..])
    ensures Distinct(W) && Vertices(adj, W) && Elems(S) <= Elems(W)
    ensures SourcedOrBelow(d[..], W, S, B)
    ensures early ==> |W| > k * |S|
    ensures !early && k >= 1 ==> |W| <= k * |S|
  {
    W, early := S, false;
    var wi := S;
    ghost var d0, p0 := d[..], pred[..];
    var i := 1;
    while i <= k
      invariant 1 <= i <= k + 1
      invariant Tables(adj, src, d[..], pred[..]) && Relaxations(d0, p0, d[..], pred[..])
      invariant Distinct(W) && Vertices(adj, W) && Elems(S) <= Elems(W)
      invariant SourcedOrBelow(d[..], W, S, B) && Vertices(adj, wi)
      invariant i > 1 ==> |W| <= k * |S|
    {
      ghost var dd, pp := d[..], pred[..];
      var newWi := PivotRound(B, wi, adj, d, pred, src);
      RelaxationsTrans(d0, p0, dd, pp, d[..], pred[..]);
      SourcedOrBelowGrow(adj, dd, d[..], W, S, B, newWi);
      AddAllProps(W, newWi);
      VerticesAddAll(adj, W, newWi);
      W := AddAll(W, newWi);
      if |W| > k * |S| {
        early := true;
        return;
      }
      wi := newWi;
      i := i + 1;
    }
  }

  /** `treeAdj`: the tight edges of f, grouped by their first vertex. */
  method BuildForest(adj: Adjacency, d: array<Dist>, W: seq<int>, f: seq<(int, int)>) returns (treeAdj: array<seq<int>>)
    requires forall q :: q in f ==> 0 <= q.0 < |adj| && 0 <= q.1 < |adj| && q.0 in W && Tight(adj, d[..], q.0, q.1)
    ensures fresh(treeAdj) && TightForest(adj, d[..], W, treeAdj[..]) && TreeOk(treeAdj[..])
  {
    treeAdj := new seq<int>[|adj|](_ => []);
    ghost var dd := d[..];
    for a := 0 to |f|
      invariant d[..] == dd
      invariant TightForest(adj, dd, W, treeAdj[..]) && TreeOk(treeAdj[..])
      modifies treeAdj
    {
      var (u, v) := f[a];
      assert f[a] in f;
      ghost var t0 := treeAdj[..];
      treeAdj[u] := treeAdj[u] + [v];
      assert treeAdj[..] == t0[u := t0[u] + [v]];
      ForestAdd(adj, dd, W, t0, u, v);
    }
  }

  /** Adding one tight edge out of W to a tight forest keeps it one. */
  lemma ForestAdd(adj: Adjacency, d: seq<Dist>, W: seq<int>, tree: seq<seq<int>>, u: int, v: int)
    requires TightForest(adj, d, W, tree) && TreeOk(tree)
    requires 0 <= u < |adj| && 0 <= v < |adj| && u in W && Tight(adj, d, u, v)
    ensures TightForest(adj, d, W, tree[u := tree[u] + [v]])
    ensures TreeOk(tree[u := tree[u] + [v]])
  {
    var row := tree[u] + [v];
    assert TightRow(adj, d, W, u, tree[u]);
    forall i | 0 <= i < |row| ensures Tight(adj, d, u, row[i]) {
      if i < |tree[u]| {
        assert row[i] == tree[u][i];
      }
    }
    assert TightRow(adj, d, W, u, row);
  }

  /** `S.forEach { if (dfs(it) >= k) p.add(it) }`: the sources with a subtree of at least k vertices. */
  method SelectPivots(S: seq<int>, treeAdj: array<seq<int>>, k: nat) returns (P: seq<int>)
    requires TreeOk(treeAdj[..]) && InRange(S, treeAdj.Length)
    ensures Distinct(P) && Elems(P) <= Elems(S)
    ensures k <= 1 && Distinct(S) ==> P == S
  {
    var sizes := new int[treeAdj.Length](_ => 0);
    P := [];
    for a := 0 to |S|
      invariant Distinct(P) && Elems(P) <= Elems(S[..a])
      invariant k <= 1 && Distinct(S) ==> P == S[..a]
      invariant forall v :: 0 <= v < sizes.Length ==> sizes[v] >= 0
      modifies sizes
    {
      var r := Dfs(S[a], treeAdj[..], sizes);
      Add1Props(P, S[a]);
      assert S[..a + 1] == S[..a] + [S[a]];
      if r >= k {
        P := Add1(P, S[a]);
      }
    }
    assert S[..|S|] == S;
  }

  /**
   * `findPivots(B, S, adj, d, pred, k)`: up to k rounds of relaxation from
   * the frontier, collecting into W the sources and the vertices lowered
   * below B. When W grows past k|S| the pivots are all of S; otherwise they
   * are the sources whose tight-edge subtree has at least k vertices, which
   * is all of S when k <= 1.
   */
  method FindPivots(B: Dist, S: seq<int>, adj: Adjacency, d: array<Dist>, pred: array<int>, k: nat, ghost src: int)
    returns (P: seq<int>, W: seq<int>, ghost tree: seq<seq<int>>)
    requires Tables(adj, src, d[..], pred[..]) && Distinct(S) && Vertices(adj, S)
    modifies d, pred
    ensures Tables(adj, src, d[..], pred[..]) && Relaxations(old(d[..]), old(pred[..]), d[..], pred[..])
    ensures Distinct(W) && Vertices(adj, W) && Elems(S) <= Elems(W)
    ensures forall v :: v in W ==> v in S || Lt(d[v], B)
    ensures Distinct(P) && Elems(P) <= Elems(S)
    ensures |W| > k * |S| || k <= 1 ==> P == S
    ensures |W| <= k * |S| ==> TightForest(adj, d[..], W, tree)
  {
    var early;
    W, early := PivotRounds(B, S, adj, d, pred, k, src);
    if early {
      P, tree := S, [];
      return;
    }
    var f := TightEdges(adj, d, W);
    var treeAdj := BuildForest(adj, d, W, f);
    tree := treeAdj[..];
    P := SelectPivots(S, treeAdj, k);
  }
  /** The list f of `findPivots`: the tight edges leaving W, as (u, v) pairs. */
  method TightEdges(adj: Adjacency, d: array<Dist>, W: seq<int>) returns (f: seq<(int, int)>)
    requires WellFormed(adj) && d.Length == |adj| && Vertices(adj, W)
    ensures forall q :: q in f ==> 0 <= q.0 < |adj| && 0 <= q.1 < |adj| && q.0 in W && Tight(adj, d[..], q.0, q.1)
  {
    f := [];
    for a := 0 to |W|
      invariant forall q :: q in f ==> 0 <= q.0 < |adj| && 0 <= q.1 < |adj| && q.0 in W && Tight(adj, d[..], q.0, q.1)
    {
      var u := W[a];
      for j := 0 to |adj[u]|
        invariant forall q :: q in f ==> 0 <= q.0 < |adj| && 0 <= q.1 < |adj| && q.0 in W && Tight(adj, d[..], q.0, q.1)
      {
        var v, w := adj[u][j].target, adj[u][j].weight;
        if d[v] == Add(d[u], w) {
          f := f + [(u, v)];
        }
      }
    }
  }

  // ---------------------------------------------------------------------
  // BMSSP

  /** Every key of the queue is a vertex, stored with a value at least its current distance. */
  ghost predicate QueueAbove(d: seq<Dist>, c: map<int, Dist>) {
    forall key :: key in c ==> 0 <= key < |d| && Le(d[key], c[key])
  }

  /** Every vertex of s has a finite distance: by Tables, the length of a walk from the source. */
  ghost predicate AllFinite(d: seq<Dist>, s: seq<int>) {
    forall v :: v in s ==> 0 <= v < |d| && d[v].Fin?
  }

  /** Every value in the queue is finite. */
  ghost predicate QueueFinite(c: map<int, Dist>) {
    forall key :: key in c ==> c[key].Fin?
  }

  /** Lowering distances keeps finite distances finite. */
  lemma FiniteLowered(d: seq<Dist>, d': seq<Dist>, s: seq<int>)
    requires AllFinite(d, s) && Lowered(d, d')
    ensures AllFinite(d', s)
  {
    forall v | v in s ensures 0 <= v < |d'| && d'[v].Fin? {
      assert Le(d'[v], d[v]);
    }
  }

  /** `insert(key, value)` with a finite value keeps the queue finite. */
  lemma QueueFiniteInsert(c: map<int, Dist>, c': map<int, Dist>, key: int, value: Dist)
    requires QueueFinite(c) && value.Fin? && (c' == c || c' == c[key := value])
    ensures QueueFinite(c')
  {
  }

  /** A union of two sets of vertices with finite distances has finite distances. */
  lemma FiniteUnion(d: seq<Dist>, a: seq<int>, b: seq<int>, u: seq<int>)
    requires AllFinite(d, a) && AllFinite(d, b) && Elems(u) == Elems(a) + Elems(b)
    ensures AllFinite(d, u)
  {
    forall v | v in u ensures 0 <= v < |d| && d[v].Fin? {
      assert v in Elems(u);
    }
  }

  /** `U.addAll(W.filter { d[it] < b })`: exactly U and the members of W below b, with finite distances when U's are. */
  lemma JoinBelow(adj: Adjacency, d: seq<Dist>, U: seq<int>, W: seq<int>, b: Dist)
    requires |d| == |adj| && Distinct(U) && Vertices(adj, U) && Vertices(adj, W)
    ensures var r := AddAll(U, Below(d, W, b));
      && Distinct(r) && Vertices(adj, r)
      && (forall v :: v in r <==> v in U || (v in W && Lt(d[v], b)))
      && (AllFinite(d, U) ==> AllFinite(d, r))
  {
    var addW := Below(d, W, b);
    AddAllProps(U, addW);
    VerticesAddAll(adj, U, addW);
    if AllFinite(d, U) {
      FiniteUnion(d, U, addW, AddAll(U, addW));
    }
  }

  /** Every element of a subset of s is one of s. */
  lemma FiniteSubset(d: seq<Dist>, p: seq<int>, s: seq<int>)
    requires AllFinite(d, s) && Elems(p) <= Elems(s)
    ensures AllFinite(d, p)
  {
    forall v | v in p ensures 0 <= v < |d| && d[v].Fin? {
      assert v in Elems(p);
    }
  }

  /** The vertices of `baseCase` have finite distances when its first source has one. */
  lemma BaseFinite(d0: seq<Dist>, d: seq<Dist>, B: Dist, S: seq<int>, bound: Dist, U: seq<int>, u0: seq<int>)
    requires AllFinite(d0, S) && Lowered(d0, d) && S != [] && u0 != [] && u0[0] == S[0]
    requires forall i :: 0 < i < |u0| ==> 0 <= u0[i] < |d| && Lt(d[u0[i]], B)
    requires InRange(u0, |d|) && ((U == u0) || (forall v :: v in U <==> v in u0 && Lt(d[v], bound)))
    ensures AllFinite(d, U)
  {
    assert S[0] in S;
    assert Le(d[S[0]], d0[S[0]]);
    forall v | v in U ensures 0 <= v < |d| && d[v].Fin? {
      var i :| 0 <= i < |u0| && u0[i] == v;
      if i > 0 {
        assert Lt(d[u0[i]], B);
      }
    }
  }

  /** Values routed below hi and a merged batch of values below bi leave every queued value finite. */
  lemma QueueFiniteKept(c0: map<int, Dist>, c1: map<int, Dist>, c2: map<int, Dist>, L: seq<Entry>, lo: Dist, hi: Dist, bi: Dist)
    requires QueueFinite(c0) && Routed(c0, c1, lo, hi) && MinMerge(c1, L, c2)
    requires forall e :: e in L ==> Lt(e.value, bi)
    ensures QueueFinite(c2)
  {
    forall key | key in c1 ensures c1[key].Fin? {
      if !(key in c0 && c1[key] == c0[key]) {
        assert Lt(c1[key], hi);
      }
    }
    forall key | key in c2 ensures c2[key].Fin? {
      if !(key in c1 && c2[key] == c1[key]) {
        var i :| 0 <= i < |L| && L[i].key == key && c2[key] == L[i].value;
        assert L[i] in L;
      }
    }
  }

  /** Every key of c that is new or has a new value carries a value in [lo, hi). */
  ghost predicate Routed(c0: map<int, Dist>, c: map<int, Dist>, lo: Dist, hi: Dist) {
    forall key :: key in c ==> (key in c0 && c[key] == c0[key]) || (Le(lo, c[key]) && Lt(c[key], hi))
  }

  /** Every pair of the batch names a vertex, holds a value at least its current distance, and lies in [lo, hi). */
  ghost predicate BatchOk(d: seq<Dist>, ks: seq<Entry>, lo: Dist, hi: Dist) {
    forall e :: e in ks ==> 0 <= e.key < |d| && Le(d[e.key], e.value) && Le(lo, e.value) && Lt(e.value, hi)
  }

  lemma RoutedTrans(c0: map<int, Dist>, c1: map<int, Dist>, c2: map<int, Dist>, lo: Dist, hi: Dist)
    requires Routed(c0, c1, lo, hi) && Routed(c1, c2, lo, hi)
    ensures Routed(c0, c2, lo, hi)
  {
  }

  /** Lowering distances keeps the queue's values above them, and the batch's too. */
  lemma AboveLowered(d: seq<Dist>, d': seq<Dist>, c: map<int, Dist>, ks: seq<Entry>, lo: Dist, hi: Dist)
    requires Lowered(d, d')
    ensures QueueAbove(d, c) ==> QueueAbove(d', c)
    ensures BatchOk(d, ks, lo, hi) ==> BatchOk(d', ks, lo, hi)
  {
  }

  /** A merge with pairs that bound their vertices' distances keeps the queue's values above them. */
  lemma QueueAboveMerge(d: seq<Dist>, c: map<int, Dist>, L: seq<Entry>, r: map<int, Dist>)
    requires QueueAbove(d, c) && MinMerge(c, L, r)
    requires forall i :: 0 <= i < |L| ==> 0 <= L[i].key < |d| && Le(d[L[i].key], L[i].value)
    ensures QueueAbove(d, r)
  {
    forall key | key in r
      ensures 0 <= key < |d| && Le(d[key], r[key])
    {
      if !(key in c && r[key] == c[key]) {
        var i :| 0 <= i < |L| && L[i].key == key && r[key] == L[i].value;
      }
    }
  }

  /** The pulled keys are vertices. */
  lemma PulledVertices(adj: Adjacency, d: seq<Dist>, c: map<int, Dist>, si: seq<int>, gathered: seq<Entry>)
    requires QueueAbove(d, c) && |d| == |adj| && Elems(si) <= KeySet(gathered)
    requires forall e :: e in gathered ==> e.key in c
    ensures Vertices(adj, si)
  {
    forall i | 0 <= i < |si|
      ensures 0 <= si[i] < |adj|
    {
      assert si[i] in Elems(si);
    }
  }

  /**
   * Where a BMSSP round sends a relaxed target v with its new value: into
   * the queue when the value lies in [bi, B), into kSet when it lies in
   * [b'i, bi), and nowhere otherwise.
   */
  method Route(v: int, newVal: Dist, heap: PartialHeap, bi: Dist, bPrimeNew: Dist, B: Dist, kSet: seq<Entry>, ghost d: seq<Dist>)
    returns (kSet': seq<Entry>)
    requires 0 <= v < |d| && d[v] == newVal
    requires heap.Valid() && QueueAbove(d, heap.Content) && BatchOk(d, kSet, bPrimeNew, bi)
    modifies heap
    ensures heap.Valid() && QueueAbove(d, heap.Content) && Routed(old(heap.Content), heap.Content, bi, B)
    ensures BatchOk(d, kSet', bPrimeNew, bi) && forall e :: e in kSet ==> e in kSet'
    ensures Le(bi, newVal) && Lt(newVal, B) ==> kSet' == kSet && v in heap.Content && Le(heap.Content[v], newVal)
    ensures !(Le(bi, newVal) && Lt(newVal, B)) ==> heap.Content == old(heap.Content)
    ensures Entry(v, newVal) in kSet' <==> Entry(v, newVal) in kSet || (!(Le(bi, newVal) && Lt(newVal, B)) && Le(bPrimeNew, newVal) && Lt(newVal, bi))
  {
    kSet' := kSet;
    if Le(bi, newVal) && Lt(newVal, B) {
      heap.Insert(v, newVal);
    } else if Le(bPrimeNew, newVal) && Lt(newVal, bi) {
      Add1Props(kSet, Entry(v, newVal));
      kSet' := Add1(kSet, Entry(v, newVal));
    }
  }

  /**
   * The `for ((v, wuv) in adj[u])` loop of a BMSSP round: relax under `<=`;
   * a new value in [bi, B) goes into the queue, one in [b'i, bi) into kSet,
   * and any other value into neither.
   */
  method RelaxFrom(u: int, adj: Adjacency, d: array<Dist>, pred: array<int>, heap: PartialHeap,
                   bi: Dist, bPrimeNew: Dist, B: Dist, kSet: seq<Entry>, ghost src: int)
    returns (kSet': seq<Entry>)
    requires Tables(adj, src, d[..], pred[..]) && 0 <= u < |adj|
    requires heap.Valid() && QueueAbove(d[..], heap.Content) && BatchOk(d[..], kSet, bPrimeNew, bi)
    modifies d, pred, heap
    ensures Tables(adj, src, d[..], pred[..]) && Relaxations(old(d[..]), old(pred[..]), d[..], pred[..])
    ensures heap.Valid() && QueueAbove(d[..], heap.Content) && Routed(old(heap.Content), heap.Content, bi, B)
    ensures BatchOk(d[..], kSet', bPrimeNew, bi) && forall e :: e in kSet ==> e in kSet'
  {
    kSet' := kSet;
    ghost var d0, p0, c0 := d[..], pred[..], heap.Content;
    var j := 0;
    while j < |adj[u]|
      invariant 0 <= j <= |adj[u]|
      invariant Tables(adj, src, d[..], pred[..]) && Relaxations(d0, p0, d[..], pred[..])
      invariant heap.Valid() && QueueAbove(d[..], heap.Content) && Routed(c0, heap.Content, bi, B)
      invariant BatchOk(d[..], kSet', bPrimeNew, bi) && forall e :: e in kSet ==> e in kSet'
    {
      var v, w := adj[u][j].target, adj[u][j].weight;
      if Le(Add(d[u], w), d[v]) {
        ghost var dd, pp := d[..], pred[..];
        Relax(adj, src, d0, p0, dd, pp, u, j);
        d[v] := Add(d[u], w);
        pred[v] := u;
        assert d[..] == dd[v := Add(dd[u], w)] && pred[..] == pp[v := u];
        assert Lowered(dd, d[..]);
        AboveLowered(dd, d[..], heap.Content, kSet', bPrimeNew, bi);
        ReadAgain(dd[u], w, dd[v], d[u]);
        var newVal := Add(d[u], w);
        ghost var c1 := heap.Content;
        kSet' := Route(v, newVal, heap, bi, bPrimeNew, B, kSet', d[..]);
        RoutedTrans(c0, c1, heap.Content, bi, B);
      }
      j := j + 1;
    }
  }

  /** The `for (u in ui)` loop of a BMSSP round. */
  method RelaxAll(ui: seq<int>, adj: Adjacency, d: array<Dist>, pred: array<int>, heap: PartialHeap,
                  bi: Dist, bPrimeNew: Dist, B: Dist, ghost src: int)
    returns (kSet: seq<Entry>)
    requires Tables(adj, src, d[..], pred[..]) && Vertices(adj, ui)
    requires heap.Valid() && QueueAbove(d[..], heap.Content)
    modifies d, pred, heap
    ensures Tables(adj, src, d[..], pred[..]) && Relaxations(old(d[..]), old(pred[..]), d[..], pred[..])
    ensures heap.Valid() && QueueAbove(d[..], heap.Content) && Routed(old(heap.Content), heap.Content, bi, B)
    ensures BatchOk(d[..], kSet, bPrimeNew, bi)
  {
    kSet := [];
    ghost var d0, p0, c0 := d[..], pred[..], heap.Content;
    for a := 0 to |ui|
      invariant Tables(adj, src, d[..], pred[..]) && Relaxations(d0, p0, d[..], pred[..])
      invariant heap.Valid() && QueueAbove(d[..], heap.Content) && Routed(c0, heap.Content, bi, B)
      invariant BatchOk(d[..], kSet, bPrimeNew, bi)
    {
      ghost var dd, pp, c1 := d[..], pred[..], heap.Content;
      kSet := RelaxFrom(ui[a], adj, d, pred, heap, bi, bPrimeNew, B, kSet, src);
      RelaxationsTrans(d0, p0, dd, pp, d[..], pred[..]);
      RoutedTrans(c0, c1, heap.Content, bi, B);
    }
  }

  /** `kSet + addBack`: every pair of the batch prepended at the end of a round bounds its vertex's distance. */
  lemma BatchBounds(d: seq<Dist>, kSet: seq<Entry>, addBack: seq<Entry>, lo: Dist, hi: Dist)
    requires BatchOk(d, kSet, lo, hi)
    requires forall e :: e in addBack ==> 0 <= e.key < |d| && e.value == d[e.key] && Le(lo, e.value) && Lt(e.value, hi)
    ensures BatchOk(d, AddAll(kSet, addBack), lo, hi)
    ensures forall i :: 0 <= i < |AddAll(kSet, addBack)| ==> 0 <= AddAll(kSet, addBack)[i].key < |d|
    ensures forall i :: 0 <= i < |AddAll(kSet, addBack)| ==> Le(d[AddAll(kSet, addBack)[i].key], AddAll(kSet, addBack)[i].value)
  {
    AddAllProps(kSet, addBack);
    var L := AddAll(kSet, addBack);
    forall i | 0 <= i < |L|
      ensures 0 <= L[i].key < |d| && Le(d[L[i].key], L[i].value)
    {
      assert L[i] in L;
    }
  }

  /** A subsequence, by elements, of vertices holds only vertices. */
  lemma VerticesSubset(adj: Adjacency, P: seq<int>, S: seq<int>)
    requires Elems(P) <= Elems(S) && Vertices(adj, S)
    ensures Vertices(adj, P)
  {
    forall i | 0 <= i < |P|
      ensures 0 <= P[i] < |adj|
    {
      assert P[i] in Elems(P);
      var j :| 0 <= j < |S| && S[j] == P[i];
    }
  }

  /** Lowering distances keeps W sourced or below B. */
  lemma SourcedLowered(d: seq<Dist>, d': seq<Dist>, W: seq<int>, S: seq<int>, B: Dist)
    requires SourcedOrBelow(d, W, S, B) && Lowered(d, d')
    ensures SourcedOrBelow(d', W, S, B)
  {
    forall v | v in W && v !in S
      ensures 0 <= v < |d'| && Lt(d'[v], B)
    {
      assert Le(d'[v], d[v]);
    }
  }

  /** `P.forEach { partialHeap.insert(it, d[it]) }`. */
  method InsertPivots(P: seq<int>, heap: PartialHeap, d: array<Dist>)
    requires heap.Valid() && QueueAbove(d[..], heap.Content) && InRange(P, d.Length)
    modifies heap
    ensures heap.Valid() && QueueAbove(d[..], heap.Content)
    ensures forall i :: 0 <= i < |P| ==> P[i] in heap.Content && Le(heap.Content[P[i]], d[P[i]])
    ensures QueueFinite(old(heap.Content)) && AllFinite(d[..], P) ==> QueueFinite(heap.Content)
  {
    ghost var finite := QueueFinite(heap.Content) && AllFinite(d[..], P);
    for a := 0 to |P|
      invariant heap.Valid() && QueueAbove(d[..], heap.Content)
      invariant forall i :: 0 <= i < a ==> P[i] in heap.Content && Le(heap.Content[P[i]], d[P[i]])
      invariant finite ==> QueueFinite(heap.Content)
    {
      ghost var c := heap.Content;
      heap.Insert(P[a], d[P[a]]);
      if finite {
        assert P[a] in P;
        QueueFiniteInsert(c, heap.Content, P[a], d[P[a]]);
      }
    }
  }

  /** What level 0 of BMSSP returns: the facts of `baseCase`, with W the settled vertices u0. */
  ghost predicate BaseResult(d0: seq<Dist>, d: seq<Dist>, B: Dist, S: seq<int>, k: nat, bPrime: Dist, U: seq<int>, W: seq<int>) {
    && |d0| == |d| && WritesBelow(d0, d, B) && |U| <= k && S != []
    && Distinct(W) && InRange(W, |d|) && 1 <= |W| <= k + 1 && W[0] == S[0]
    && (|W| <= k ==> bPrime == B && U == W)
    && (|W| > k ==>
         && (forall v :: v in W ==> Le(d[v], bPrime))
         && (exists v :: v in W && d[v] == bPrime)
         && (forall v :: v in U <==> v in W && Lt(d[v], bPrime)))
  }

  /**
   * What a level above 0 returns: a bound at most B, the pivots' W holding
   * S and otherwise only vertices below B, and U made of the rounds'
   * vertices loop and exactly the vertices of W below the bound.
   */
  ghost predicate LevelResult(d: seq<Dist>, B: Dist, S: seq<int>, bPrime: Dist, U: seq<int>, W: seq<int>, loop: set<int>) {
    && InRange(W, |d|) && Le(bPrime, B) && Elems(S) <= Elems(W)
    && (forall v :: v in W ==> v in S || Lt(d[v], B))
    && (forall v :: v in U <==> v in loop || (v in W && Lt(d[v], bPrime)))
  }

  /**
   * The record of one BMSSP call: its bound B and sources S, the table
   * before and after it, the bound and vertices it returns, the vertices W
   * its base case settled or its pivot search collected, and the record of
   * the level l - 1 call made by each round of its loop.
   */
  datatype Call = Call(B: Dist, S: seq<int>, before: seq<Dist>, after: seq<Dist>,
                       bPrime: Dist, U: seq<int>, W: seq<int>, rounds: seq<Call>)

  /** The vertices that the rounds' calls returned. */
  ghost function RoundVertices(rounds: seq<Call>): set<int>
    decreases |rounds|
  {
    if rounds == [] then {} else RoundVertices(rounds[..|rounds| - 1]) + Elems(rounds[|rounds| - 1].U)
  }

  /**
   * The rounds of a loop, each a call at level l from non-empty sources,
   * in order: each starts from a table below d0 and the one before it
   * ends, and ends at a table above d.
   */
  ghost predicate RoundsOk(l: nat, k: nat, rounds: seq<Call>, d0: seq<Dist>, d: seq<Dist>) {
    && Recorded(l, k, rounds)
    && forall j :: 0 <= j < |rounds| ==>
      && rounds[j].S != []
      && Lowered(d0, rounds[j].before) && Lowered(rounds[j].after, d)
      && (j > 0 ==> Lowered(rounds[j - 1].after, rounds[j].before))
  }

  /**
   * What one BMSSP call at level l promises of itself: level 0 gives the
   * facts of `baseCase` over the tables before and after it; a level above
   * 0 gives LevelResult with the rounds' vertices, returns min(last b'i, B)
   * when a round ran, and makes its rounds from non-empty sources, each
   * starting from a table below the one before the call and the one the
   * round before it ended with, and ending at a table above the one after
   * the call.
   */
  ghost predicate Node(l: nat, k: nat, c: Call) {
    && |c.before| == |c.after|
    && (l == 0 ==> c.rounds == [] && BaseResult(c.before, c.after, c.B, c.S, k, c.bPrime, c.U, c.W))
    && (l > 0 ==>
         && LevelResult(c.after, c.B, c.S, c.bPrime, c.U, c.W, RoundVertices(c.rounds))
         && (c.rounds != [] ==> c.bPrime == Min(c.rounds[|c.rounds| - 1].bPrime, c.B))
         && forall j :: 0 <= j < |c.rounds| ==>
              && c.rounds[j].S != []
              && Lowered(c.before, c.rounds[j].before) && Lowered(c.rounds[j].after, c.after)
              && (j > 0 ==> Lowered(c.rounds[j - 1].after, c.rounds[j].before)))
  }

  /** Every record in calls is a call at level l, traced down its whole tree. */
  ghost predicate Recorded(l: nat, k: nat, calls: seq<Call>) {
    forall j :: 0 <= j < |calls| ==> Traced(l, k, calls[j])
  }

  /** What `BMSSP(l, B, S, ...)` promises, down the whole tree of calls: Node at every call. */
  ghost predicate Traced(l: nat, k: nat, c: Call)
    decreases c
  {
    Node(l, k, c) && (l > 0 ==> forall j :: 0 <= j < |c.rounds| ==> Traced(l - 1, k, c.rounds[j]))
  }

  /** The vertices that a call's base cases settled or its pivot searches collected, at every level. */
  ghost function Settled(c: Call): set<int>
    decreases c
  {
    Elems(c.W) + set j, v | 0 <= j < |c.rounds| && v in Settled(c.rounds[j]) :: v
  }

  /** A vertex is among the rounds' vertices exactly when some round returned it. */
  lemma {:induction false} RoundVerticesHas(rounds: seq<Call>, v: int)
    ensures v in RoundVertices(rounds) <==> exists j :: 0 <= j < |rounds| && v in rounds[j].U
    decreases |rounds|
  {
    if rounds != [] {
      var front := rounds[..|rounds| - 1];
      RoundVerticesHas(front, v);
      if v in RoundVertices(front) {
        var j :| 0 <= j < |front| && v in front[j].U;
        assert rounds[j] == front[j];
      }
      if exists j :: 0 <= j < |rounds| && v in rounds[j].U {
        var j :| 0 <= j < |rounds| && v in rounds[j].U;
        if j < |front| {
          assert front[j] == rounds[j];
        }
      }
    }
  }

  /**
   * Every vertex a recorded call returns was settled by a base case or
   * collected by a pivot search somewhere in its tree of calls.
   */
  lemma {:induction false} ReturnedSettled(l: nat, k: nat, c: Call)
    requires Recorded(l, k, [c])
    ensures Elems(c.U) <= Settled(c)
    decreases c
  {
    assert [c][0] == c;
    forall v | v in Elems(c.U) ensures v in Settled(c) {
      if l > 0 && v !in Elems(c.W) {
        assert v in RoundVertices(c.rounds);
        RoundVerticesHas(c.rounds, v);
        var j :| 0 <= j < |c.rounds| && v in c.rounds[j].U;
        assert [c.rounds[j]][0] == c.rounds[j];
        ReturnedSettled(l - 1, k, c.rounds[j]);
        assert v in Elems(c.rounds[j].U);
        SettledBelow(c, j, v);
      }
    }
  }

  /** What a round's call settled, its caller settled. */
  lemma SettledBelow(c: Call, j: int, v: int)
    requires 0 <= j < |c.rounds| && v in Settled(c.rounds[j])
    ensures v in Settled(c)
  {
  }

  /**
   * What `pull` tells of its bound x and keys S, taken from the queue c of
   * bound B and block size M: the bound is B, or M keys came back whose
   * values were at most x.
   */
  ghost predicate PullBound(c: map<int, Dist>, B: Dist, M: nat, x: Dist, S: seq<int>) {
    && Elems(S) <= c.Keys
    && (x == B || (|S| == M && forall v :: v in S ==> Le(c[v], x)))
  }

  /** `partialHeap.pull()` as a round uses it: a non-empty queue gives a non-empty set of vertices. */
  method PullNext(heap: PartialHeap, ghost adj: Adjacency, ghost d: seq<Dist>) returns (bi: Dist, si: seq<int>)
    requires heap.Valid() && QueueAbove(d, heap.Content) && heap.Content != map[] && |d| == |adj|
    modifies heap
    ensures heap.Valid() && QueueAbove(d, heap.Content)
    ensures si != [] && Distinct(si) && Vertices(adj, si)
    ensures heap.Content == old(heap.Content) - Elems(si)
    ensures PullBound(old(heap.Content), heap.B, heap.M, bi, si)
    ensures QueueFinite(old(heap.Content)) ==> QueueFinite(heap.Content) && AllFinite(d, si)
  {
    ghost var c0 := heap.Content;
    ghost var gathered;
    bi, si, gathered := heap.Pull();
    PulledVertices(adj, d, c0, si, gathered);
    if QueueFinite(c0) {
      forall v | v in si ensures 0 <= v < |d| && d[v].Fin? {
        assert v in Elems(si);
        var e :| e in gathered && e.key == v;
        assert Le(d[v], c0[v]);
      }
    }
  }

  /**
   * The recursive call `BMSSP(l - 1, bi, si)` of a round, with the record
   * of that call: its bound and sources are bi and si, it starts on the
   * current table and ends on the new one, and it is a level l - 1 call
   * down its whole tree.
   */
  method Descend(l: nat, bi: Dist, si: seq<int>, adj: Adjacency, d: array<Dist>, pred: array<int>,
                 k: nat, t: nat, fuel: nat, ghost src: int)
    returns (bPrimeNew: Dist, ui: seq<int>, ghost sub: Call)
    requires l > 0 && si != []
    requires Tables(adj, src, d[..], pred[..]) && Distinct(si) && Vertices(adj, si)
    modifies d, pred
    decreases l, 0
    ensures Tables(adj, src, d[..], pred[..]) && Relaxations(old(d[..]), old(pred[..]), d[..], pred[..])
    ensures Distinct(ui) && Vertices(adj, ui)
    ensures Recorded(l - 1, k, [sub]) && sub.bPrime == bPrimeNew && sub.before == old(d[..]) && sub.after == d[..]
    ensures sub.U == ui && sub.B == bi && sub.S == si
    ensures AllFinite(old(d[..]), si) ==> AllFinite(d[..], ui)
  {
    bPrimeNew, ui, sub := Bmssp(l - 1, bi, si, adj, d, pred, k, t, fuel, src);
  }

  /**
   * One pass of the `while` loop of BMSSP at level l > 0: pull the next
   * bound bi and source set si from the queue, solve level l - 1 below bi,
   * and add its vertices ui to U, which becomes U together with exactly
   * them; then relax and prepend. The ghost record sub is that call, from
   * the sources and bound the pull gave, made on the round's starting
   * table and ending at a table the relaxation then only lowers. The queue
   * keeps only vertices, each with a value at least its current distance;
   * when it held only finite values, it still does and every vertex of ui
   * has a finite distance.
   */
  method Round(l: nat, B: Dist, U: seq<int>, heap: PartialHeap, adj: Adjacency, d: array<Dist>, pred: array<int>,
               k: nat, t: nat, fuel: nat, ghost src: int)
    returns (U': seq<int>, bPrimeNew: Dist, ghost sub: Call)
    requires l > 0
    requires Tables(adj, src, d[..], pred[..]) && Distinct(U) && Vertices(adj, U)
    requires heap.Valid() && QueueAbove(d[..], heap.Content) && heap.Content != map[]
    modifies d, pred, heap
    decreases l, 1
    ensures Tables(adj, src, d[..], pred[..]) && Relaxations(old(d[..]), old(pred[..]), d[..], pred[..])
    ensures heap.Valid() && QueueAbove(d[..], heap.Content)
    ensures Distinct(U') && Vertices(adj, U') && Elems(U') == Elems(U) + Elems(sub.U)
    ensures QueueFinite(old(heap.Content)) ==> QueueFinite(heap.Content) && AllFinite(d[..], sub.U)
    ensures sub.S != [] && Distinct(sub.S) && Vertices(adj, sub.S)
    ensures PullBound(old(heap.Content), heap.B, heap.M, sub.B, sub.S)
    ensures Recorded(l - 1, k, [sub]) && sub.bPrime == bPrimeNew && sub.before == old(d[..]) && Lowered(sub.after, d[..])
  {
    ghost var d0, p0, c0 := d[..], pred[..], heap.Content;
    var bi, si := PullNext(heap, adj, d[..]);
    var ui;
    bPrimeNew, ui, sub := Descend(l, bi, si, adj, d, pred, k, t, fuel, src);
    ghost var d1, p1 := d[..], pred[..];
    assert Lowered(d0, d1);
    AboveLowered(d0, d1, heap.Content, [], bPrimeNew, bi);
    AddAllProps(U, ui);
    VerticesAddAll(adj, U, ui);
    U' := AddAll(U, ui);
    RelaxAndPrepend(ui, si, adj, d, pred, heap, bi, bPrimeNew, B, src);
    RelaxationsTrans(d0, p0, d1, p1, d[..], pred[..]);
    if QueueFinite(c0) {
      FiniteLowered(d1, d[..], ui);
    }
  }

  /**
   * The end of a round: relax out of the vertices ui returned by level
   * l - 1, then prepend to the queue the batch kSet together with the
   * sources si whose distance landed in [b'i, bi). The queue keeps only
   * vertices, each with a value at least its current distance, and only
   * finite values when it held only finite values before.
   */
  method RelaxAndPrepend(ui: seq<int>, si: seq<int>, adj: Adjacency, d: array<Dist>, pred: array<int>, heap: PartialHeap,
                         bi: Dist, bPrimeNew: Dist, B: Dist, ghost src: int)
    requires Tables(adj, src, d[..], pred[..]) && Vertices(adj, ui) && Vertices(adj, si)
    requires heap.Valid() && QueueAbove(d[..], heap.Content)
    modifies d, pred, heap
    ensures Tables(adj, src, d[..], pred[..]) && Relaxations(old(d[..]), old(pred[..]), d[..], pred[..])
    ensures heap.Valid() && QueueAbove(d[..], heap.Content)
    ensures QueueFinite(old(heap.Content)) ==> QueueFinite(heap.Content)
  {
    ghost var c1 := heap.Content;
    var kSet := RelaxAll(ui, adj, d, pred, heap, bi, bPrimeNew, B, src);
    var addBack := AddBack(d[..], si, bPrimeNew, bi);
    BatchBounds(d[..], kSet, addBack, bPrimeNew, bi);
    ghost var c2 := heap.Content;
    ghost var kept, nf := heap.BatchPrepend(AddAll(kSet, addBack));
    QueueAboveMerge(d[..], c2, AddAll(kSet, addBack), heap.Content);
    if QueueFinite(c1) {
      QueueFiniteKept(c1, c2, heap.Content, AddAll(kSet, addBack), bi, B, bi);
    }
  }

  /**
   * What the loop of BMSSP knows of its rounds: RoundsOk, U exactly the
   * union of their vertices, and lastBPrime the bound the last of them
   * returned, or bPrime0 before the first.
   */
  ghost predicate LoopTrace(l: nat, k: nat, rounds: seq<Call>, d0: seq<Dist>, d: seq<Dist>,
                            U: seq<int>, lastBPrime: Dist, bPrime0: Dist) {
    && RoundsOk(l, k, rounds, d0, d) && Elems(U) == RoundVertices(rounds)
    && lastBPrime == if rounds == [] then bPrime0 else rounds[|rounds| - 1].bPrime
  }

  /**
   * A finished round extends the loop's record: the rounds so far, then
   * the new call, which starts where they left the table.
   */
  lemma RoundsExtend(l: nat, k: nat, rounds: seq<Call>, sub: Call, d0: seq<Dist>, dd: seq<Dist>, d: seq<Dist>,
                     U0: seq<int>, U: seq<int>, last0: Dist, lastBPrime: Dist, bPrime0: Dist)
    requires LoopTrace(l, k, rounds, d0, dd, U0, last0, bPrime0)
    requires Lowered(d0, dd) && Lowered(dd, d)
    requires sub.S != [] && Recorded(l, k, [sub]) && sub.before == dd && Lowered(sub.after, d)
    requires Elems(U) == Elems(U0) + Elems(sub.U) && lastBPrime == sub.bPrime
    ensures LoopTrace(l, k, rounds + [sub], d0, d, U, lastBPrime, bPrime0)
  {
    var rs := rounds + [sub];
    assert rs[..|rounds|] == rounds;
    forall j | 0 <= j < |rs|
      ensures Traced(l, k, rs[j]) && rs[j].S != []
      ensures Lowered(d0, rs[j].before) && Lowered(rs[j].after, d)
      ensures j > 0 ==> Lowered(rs[j - 1].after, rs[j].before)
    {
      if j < |rounds| {
        assert rs[j] == rounds[j];
        LoweredTrans(rounds[j].after, dd, d);
      } else {
        assert rs[j] == [sub][0];
        if j > 0 {
          assert rs[j - 1] == rounds[j - 1];
        }
      }
    }
  }

  /** Lowering twice lowers. */
  lemma LoweredTrans(d0: seq<Dist>, d1: seq<Dist>, d2: seq<Dist>)
    requires Lowered(d0, d1) && Lowered(d1, d2)
    ensures Lowered(d0, d2)
  {
    forall v | 0 <= v < |d0| ensures Le(d2[v], d0[v]) {
      assert Le(d2[v], d1[v]) && Le(d1[v], d0[v]);
    }
  }

  /** A loop's record stays true when its start is raised and its end lowered. */
  lemma RoundsWiden(l: nat, k: nat, rounds: seq<Call>, d0: seq<Dist>, d0': seq<Dist>, d: seq<Dist>, d': seq<Dist>)
    requires RoundsOk(l, k, rounds, d0', d) && Lowered(d0, d0') && Lowered(d, d')
    ensures RoundsOk(l, k, rounds, d0, d')
  {
    forall j | 0 <= j < |rounds|
      ensures Lowered(d0, rounds[j].before) && Lowered(rounds[j].after, d')
    {
      LoweredTrans(d0, d0', rounds[j].before);
      LoweredTrans(rounds[j].after, d, d');
    }
  }

  /**
   * The `while` loop of BMSSP at level l > 0: rounds while U holds fewer
   * than k 2^(lt) vertices and the queue is not empty (here also while the
   * fuel lasts). The ghost rounds record each round's level l - 1 call, in
   * order; U is exactly the union of their vertices, and lastBPrime is the
   * bound the last of them returned, or bPrime0 when no round runs. When
   * every queued value is finite, so is every distance in U.
   */
  method RunRounds(l: nat, B: Dist, S: seq<int>, ghost W: seq<int>, heap: PartialHeap, adj: Adjacency,
                   d: array<Dist>, pred: array<int>, k: nat, t: nat, fuel: nat, ghost src: int, bPrime0: Dist)
    returns (U: seq<int>, lastBPrime: Dist, ghost rounds: seq<Call>)
    requires l > 0
    requires Tables(adj, src, d[..], pred[..]) && SourcedOrBelow(d[..], W, S, B)
    requires heap.Valid() && QueueAbove(d[..], heap.Content)
    modifies d, pred, heap
    decreases l, 2
    ensures Tables(adj, src, d[..], pred[..]) && Relaxations(old(d[..]), old(pred[..]), d[..], pred[..])
    ensures Distinct(U) && Vertices(adj, U) && SourcedOrBelow(d[..], W, S, B)
    ensures QueueFinite(old(heap.Content)) ==> AllFinite(d[..], U)
    ensures LoopTrace(l - 1, k, rounds, old(d[..]), d[..], U, lastBPrime, bPrime0)
  {
    ghost var d0, p0 := d[..], pred[..];
    ghost var finite := QueueFinite(heap.Content);
    lastBPrime := bPrime0;
    U := [];
    rounds := [];
    var i := 0;
    while |U| < k * Pow2(l * t) && !heap.IsEmpty() && i < fuel
      invariant 0 <= i <= fuel
      invariant heap.Valid() && QueueAbove(d[..], heap.Content)
      invariant Tables(adj, src, d[..], pred[..]) && Relaxations(d0, p0, d[..], pred[..])
      invariant Distinct(U) && Vertices(adj, U) && SourcedOrBelow(d[..], W, S, B)
      invariant finite ==> QueueFinite(heap.Content) && AllFinite(d[..], U)
      invariant LoopTrace(l - 1, k, rounds, d0, d[..], U, lastBPrime, bPrime0)
      decreases fuel - i
    {
      i := i + 1;
      ghost var dd, pp, U0, last0 := d[..], pred[..], U, lastBPrime;
      ghost var sub;
      U, lastBPrime, sub := Round(l, B, U, heap, adj, d, pred, k, t, fuel, src);
      RelaxationsTrans(d0, p0, dd, pp, d[..], pred[..]);
      RoundsExtend(l - 1, k, rounds, sub, d0, dd, d[..], U0, U, last0, lastBPrime, bPrime0);
      rounds := rounds + [sub];
      SourcedLowered(dd, d[..], W, S, B);
      if finite {
        FiniteLowered(dd, d[..], U0);
        FiniteUnion(d[..], U0, sub.U, U);
      }
    }
  }

  /** A finished `baseCase` call is a recorded call at level 0. */
  lemma BaseRecorded(k: nat, c: Call)
    requires c.rounds == [] && BaseResult(c.before, c.after, c.B, c.S, k, c.bPrime, c.U, c.W)
    ensures Recorded(0, k, [c])
  {
    assert [c][0] == c;
  }

  /**
   * A finished call above level 0 is recorded at its level: its loop ran
   * the rounds from a table below the one before the call, U holds the
   * rounds' vertices loopU and exactly the vertices of W below the bound,
   * and the bound is min(lastBPrime, B).
   */
  lemma LevelRecorded(l: nat, k: nat, c: Call, d1: seq<Dist>, loopU: seq<int>, lastBPrime: Dist, bPrime0: Dist)
    requires l > 0 && Lowered(c.before, d1) && |c.before| == |c.after|
    requires LoopTrace(l - 1, k, c.rounds, d1, c.after, loopU, lastBPrime, bPrime0)
    requires c.bPrime == Min(lastBPrime, c.B)
    requires InRange(c.W, |c.after|) && Elems(c.S) <= Elems(c.W) && SourcedOrBelow(c.after, c.W, c.S, c.B)
    requires forall v :: v in c.U <==> v in loopU || (v in c.W && Lt(c.after[v], c.bPrime))
    ensures Recorded(l, k, [c])
  {
    RoundsWiden(l - 1, k, c.rounds, c.before, d1, c.after, c.after);
    assert [c][0] == c;
    assert Node(l, k, c);
    forall j | 0 <= j < |c.rounds| ensures Traced(l - 1, k, c.rounds[j]) {
      assert [c.rounds[j]][0] == c.rounds[j];
    }
  }

  /**
   * `BMSSP(l, B, S, adj, d, pred, k, t)`: level 0 is `baseCase`; a higher
   * level is Level. The ghost record call is this call with its whole tree
   * of rounds, which Traced describes. When the sources have finite
   * distances, so has every vertex of U: each is reached from the source.
   */
  method Bmssp(l: nat, B: Dist, S: seq<int>, adj: Adjacency, d: array<Dist>, pred: array<int>,
               k: nat, t: nat, fuel: nat, ghost src: int)
    returns (bPrime: Dist, U: seq<int>, ghost call: Call)
    requires Tables(adj, src, d[..], pred[..]) && Distinct(S) && Vertices(adj, S) && (l == 0 ==> S != [])
    modifies d, pred
    decreases l, 4
    ensures Tables(adj, src, d[..], pred[..]) && Relaxations(old(d[..]), old(pred[..]), d[..], pred[..])
    ensures Distinct(U) && Vertices(adj, U) && Vertices(adj, call.W)
    ensures call == Call(B, S, old(d[..]), d[..], bPrime, U, call.W, call.rounds) && Recorded(l, k, [call])
    ensures AllFinite(old(d[..]), S) ==> AllFinite(d[..], U)
  {
    if l == 0 {
      ghost var d0 := d[..];
      ghost var W;
      bPrime, U, W := BaseCase(B, S, adj, d, pred, k, src);
      call := Call(B, S, d0, d[..], bPrime, U, W, []);
      BaseRecorded(k, call);
      if AllFinite(d0, S) {
        BaseFinite(d0, d[..], B, S, bPrime, U, W);
      }
    } else {
      bPrime, U, call := Level(l, B, S, adj, d, pred, k, t, fuel, src);
    }
  }

  /**
   * BMSSP at level l > 0: find pivots, seed a `PartialHeap` of block size
   * 2^((l-1)t) with them and run the rounds. The ghost record call is
   * this call: U is the rounds' vertices together with exactly the
   * vertices of W below the bound, the bound is at most B and is
   * min(last b'i, B) when a round ran, and each round is recorded as a
   * level l - 1 call.
   */
  method Level(l: nat, B: Dist, S: seq<int>, adj: Adjacency, d: array<Dist>, pred: array<int>,
               k: nat, t: nat, fuel: nat, ghost src: int)
    returns (bPrime: Dist, U: seq<int>, ghost call: Call)
    requires l > 0 && Tables(adj, src, d[..], pred[..]) && Distinct(S) && Vertices(adj, S)
    modifies d, pred
    decreases l, 3
    ensures Tables(adj, src, d[..], pred[..]) && Relaxations(old(d[..]), old(pred[..]), d[..], pred[..])
    ensures Distinct(U) && Vertices(adj, U) && Vertices(adj, call.W)
    ensures call == Call(B, S, old(d[..]), d[..], bPrime, U, call.W, call.rounds) && Recorded(l, k, [call])
    ensures AllFinite(old(d[..]), S) ==> AllFinite(d[..], U)
  {
    ghost var d0, p0 := d[..], pred[..];
    var P, pivotW;
    ghost var tree;
    P, pivotW, tree := FindPivots(B, S, adj, d, pred, k, src);
    VerticesSubset(adj, P, S);
    var heap := new PartialHeap(Pow2((l - 1) * t), B);
    ghost var finite := AllFinite(d0, S);
    if finite {
      FiniteLowered(d0, d[..], S);
      FiniteSubset(d[..], P, S);
    }
    InsertPivots(P, heap, d);
    var bPrime0 := if P == [] then B else MinDist(d[..], P);
    ghost var d1, p1 := d[..], pred[..];
    var lastBPrime;
    ghost var rounds;
    U, lastBPrime, rounds := RunRounds(l, B, S, pivotW, heap, adj, d, pred, k, t, fuel, src, bPrime0);
    RelaxationsTrans(d0, p0, d1, p1, d[..], pred[..]);
    bPrime := Min(lastBPrime, B);
    var addW := Below(d[..], pivotW, bPrime);
    JoinBelow(adj, d[..], U, pivotW, bPrime);
    ghost var loopU := U;
    U := AddAll(U, addW);
    call := Call(B, S, d0, d[..], bPrime, U, pivotW, rounds);
    LevelRecorded(l, k, call, d1, loopU, lastBPrime, bPrime0);
  }
}
