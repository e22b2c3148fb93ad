/**
 * The state invariant of the two-tier block queue of PartialHeap.kt, stated
 * on values.
 *
 * `D0` holds the blocks that `batchPrepend` puts in front, `D1` the blocks
 * that `insert` fills in value order, each with an entry of `upperBounds`.
 * Every block is a DoublyLinkedList; all their nodes live in one arena, where
 * an id stands for a Kotlin `Node` reference, and `keyToNode` maps a key to
 * the id of its node. Every node records the tier (`isD0`) and position
 * (`blockIndex`) of its block. The ghost map `content` is the key -> value
 * map the queue stores.
 *
 * The lemmas here say how each step of an operation carries the invariant
 * from one state to the next; the class in PartialHeaps applies them.
 */
module BlockQueues {
  import opened Common
  import opened LinkedLists

  /** The arena of all `Node<Pair<Int, Double>>` objects of the queue. */
  type Arena = seq<Node<Entry>>

  /**
   * A `DoublyLinkedList<Pair<Int, Double>>` over the arena: its `head`,
   * `tail` and `size`, with the ids (`order`) and values (`vals`) of its
   * chain from head to tail.
   */
  datatype Blk = Blk(head: int, tail: int, size: int, ghost order: seq<nat>, ghost vals: seq<Entry>)

  /** `DoublyLinkedList()`. */
  const EmptyBlk: Blk := Blk(Nil, Nil, 0, [], [])

  /** The tier named by isD0. */
  function Tier<X>(d0: seq<X>, d1: seq<X>, isD0: bool): seq<X> {
    if isD0 then d0 else d1
  }

  // ---------------------------------------------------------------------
  // The invariant

  /** The list's own invariant, DoublyLinkedList's `Valid`, on the arena. */
  ghost predicate BlkOk(nodes: Arena, b: Blk) {
    Wf(nodes, b.head, b.tail, b.size, b.order, b.vals)
  }

  /** No node is linked in two blocks. */
  ghost predicate Disjoint(all: seq<Blk>) {
    forall p, q, x :: 0 <= p < |all| && 0 <= q < |all| && p != q && x in all[p].order ==> x !in all[q].order
  }

  /** Every linked entry is indexed by `keyToNode` at its own node, and content holds its value. */
  ghost predicate Covered(all: seq<Blk>, k2n: map<int, nat>, content: map<int, Dist>) {
    forall p, i {:trigger all[p].vals[i]} :: 0 <= p < |all| && 0 <= i < |all[p].vals| && i < |all[p].order| ==>
      && all[p].vals[i].key in k2n && k2n[all[p].vals[i].key] == all[p].order[i]
      && all[p].vals[i].key in content && content[all[p].vals[i].key] == all[p].vals[i].value
  }

  /** Some block holds an entry with key k. */
  ghost predicate HasKey(all: seq<Blk>, k: int) {
    exists p, i :: 0 <= p < |all| && 0 <= i < |all[p].vals| && all[p].vals[i].key == k
  }

  /** Every key of content is indexed and linked in some block. */
  ghost predicate Indexed(all: seq<Blk>, k2n: map<int, nat>, content: map<int, Dist>) {
    && (forall k :: k in content <==> k in k2n)
    && forall k :: k in content ==> HasKey(all, k)
  }

  /** The state invariant apart from the node tags and the bounds. */
  ghost predicate Core(nodes: Arena, all: seq<Blk>, k2n: map<int, nat>, content: map<int, Dist>) {
    && (forall p :: 0 <= p < |all| ==> BlkOk(nodes, all[p]))
    && Disjoint(all)
    && Covered(all, k2n, content)
    && Indexed(all, k2n, content)
  }

  /** Every linked node of b has `isD0 == flag`. */
  ghost predicate FlagOk(nodes: Arena, b: Blk, flag: bool) {
    forall i {:trigger nodes[b.order[i]]} :: 0 <= i < |b.order| && b.order[i] < |nodes| ==> nodes[b.order[i]].isD0 == flag
  }

  /** Every linked node of b has `blockIndex == j`. */
  ghost predicate IndexOk(nodes: Arena, b: Blk, j: int) {
    forall i {:trigger nodes[b.order[i]]} :: 0 <= i < |b.order| && b.order[i] < |nodes| ==> nodes[b.order[i]].blockIndex == j
  }

  ghost predicate Flags(nodes: Arena, blks: seq<Blk>, flag: bool) {
    forall j :: 0 <= j < |blks| ==> FlagOk(nodes, blks[j], flag)
  }

  /** The blocks lo .. hi - 1 carry their position as `blockIndex`. */
  ghost predicate Indices(nodes: Arena, blks: seq<Blk>, lo: int, hi: int) {
    forall j :: lo <= j < hi && 0 <= j < |blks| ==> IndexOk(nodes, blks[j], j)
  }

  /** Both tiers carry correct tier flags, and correct positions below s0 in D0 and below s1 in D1. */
  ghost predicate Tagged(nodes: Arena, d0: seq<Blk>, d1: seq<Blk>, s0: int, s1: int) {
    Flags(nodes, d0, true) && Flags(nodes, d1, false) && Indices(nodes, d0, 0, s0) && Indices(nodes, d1, 0, s1)
  }

  /** `upperBounds` is non-decreasing. */
  ghost predicate SortedBounds(ub: seq<Dist>) {
    forall i, j :: 0 <= i < j < |ub| ==> Le(ub[i], ub[j])
  }

  /**
   * One bound per D1 block, non-decreasing, and every value in block j is at
   * least `ub[j - 1]` and, unless j is the last block, at most `ub[j]`.
   */
  ghost predicate Bounded(d1: seq<Blk>, ub: seq<Dist>) {
    && |d1| == |ub|
    && SortedBounds(ub)
    && forall j, i {:trigger d1[j].vals[i]} :: 0 <= j < |d1| && 0 <= i < |d1[j].vals| ==>
         && (0 < j ==> Le(ub[j - 1], d1[j].vals[i].value))
         && (j < |d1| - 1 ==> Le(d1[j].vals[i].value, ub[j]))
  }

  /** The invariant with the positions of D0 correct only below s0 and those of D1 only below s1. */
  ghost predicate Stale(nodes: Arena, d0: seq<Blk>, d1: seq<Blk>, ub: seq<Dist>, k2n: map<int, nat>, content: map<int, Dist>,
                        s0: int, s1: int) {
    Core(nodes, d0 + d1, k2n, content) && Tagged(nodes, d0, d1, s0, s1) && Bounded(d1, ub)
  }

  /** The whole state invariant of the queue. */
  ghost predicate Inv(nodes: Arena, d0: seq<Blk>, d1: seq<Blk>, ub: seq<Dist>, k2n: map<int, nat>, content: map<int, Dist>) {
    Stale(nodes, d0, d1, ub, k2n, content, |d0|, |d1|)
  }

  /** A stored key is in keyToNode. */
  lemma StoredIndexed(nodes: Arena, d0: seq<Blk>, d1: seq<Blk>, ub: seq<Dist>, k2n: map<int, nat>, content: map<int, Dist>, key: int)
    requires Inv(nodes, d0, d1, ub, k2n, content) && key in content
    ensures key in k2n
  {
  }

  /** keyToNode has exactly the stored keys. */
  lemma KeyStored(nodes: Arena, d0: seq<Blk>, d1: seq<Blk>, ub: seq<Dist>, k2n: map<int, nat>, content: map<int, Dist>, key: int)
    requires Inv(nodes, d0, d1, ub, k2n, content)
    ensures key in k2n <==> key in content
  {
    assert Indexed(d0 + d1, k2n, content);
  }

  /** The state of `PartialHeap(M, B)`: D0 empty, D1 one empty block with bound B. */
  lemma EmptyInv(bound: Dist)
    ensures Inv([], [], [EmptyBlk], [bound], map[], map[])
  {
    assert [] + [EmptyBlk] == [EmptyBlk];
  }

  /** A non-empty block p holds a stored key. */
  lemma StoredKeys(nodes: Arena, all: seq<Blk>, k2n: map<int, nat>, content: map<int, Dist>, p: nat)
    requires Core(nodes, all, k2n, content) && p < |all|
    ensures all[p].size == |all[p].vals|
    ensures all[p].vals != [] ==> all[p].vals[0].key in content
  {
    assert BlkOk(nodes, all[p]);
  }

  /** Every block has size 0 exactly when no key is stored. */
  lemma EmptyBlocks(nodes: Arena, d0: seq<Blk>, d1: seq<Blk>, k2n: map<int, nat>, content: map<int, Dist>)
    requires Core(nodes, d0 + d1, k2n, content)
    ensures ((forall i :: 0 <= i < |d0| ==> d0[i].size == 0) && (forall i :: 0 <= i < |d1| ==> d1[i].size == 0))
            <==> content == map[]
  {
    var all := d0 + d1;
    forall p | 0 <= p < |all| ensures all[p].size == |all[p].vals| {
      StoredKeys(nodes, all, k2n, content, p);
    }
    if (forall i :: 0 <= i < |d0| ==> d0[i].size == 0) && (forall i :: 0 <= i < |d1| ==> d1[i].size == 0) {
      forall p | 0 <= p < |all| ensures all[p].vals == [] {
        if p < |d0| {
          assert all[p] == d0[p];
        } else {
          assert all[p] == d1[p - |d0|];
        }
      }
      forall k ensures k !in content {
        assert !HasKey(all, k);
      }
    }
    if content == map[] {
      forall p | 0 <= p < |all| ensures all[p].vals == [] {
        StoredKeys(nodes, all, k2n, content, p);
      }
      forall i | 0 <= i < |d0| ensures d0[i].size == 0 {
        assert all[i] == d0[i];
      }
      forall i | 0 <= i < |d1| ensures d1[i].size == 0 {
        assert all[|d0| + i] == d1[i];
      }
    }
  }

  // ---------------------------------------------------------------------
  // Finding a key

  /** The node at position i of a well-formed block is found at position i. */
  lemma PositionOf(nodes: Arena, b: Blk, i: nat)
    requires BlkOk(nodes, b) && i < |b.order|
    ensures b.order[i] in b.order && IndexOf(b.order, b.order[i]) == i
  {
    ChainDistinct(nodes, b.order);
  }

  /**
   * The node that keyToNode maps a stored key to: its tags name the tier and
   * position of the block that holds it, at position i of that block's chain.
   */
  lemma Locate(nodes: Arena, d0: seq<Blk>, d1: seq<Blk>, ub: seq<Dist>, k2n: map<int, nat>, content: map<int, Dist>, key: int)
    returns (isD0: bool, bi: nat, i: nat)
    requires Inv(nodes, d0, d1, ub, k2n, content) && key in k2n
    ensures bi < |Tier(d0, d1, isD0)|
    ensures var b, id := Tier(d0, d1, isD0)[bi], k2n[key];
      && key in content && BlkOk(nodes, b)
      && i < |b.order| && b.order[i] == id && IndexOf(b.order, id) == i
      && id < |nodes| && nodes[id].isD0 == isD0 && nodes[id].blockIndex == bi
      && nodes[id].value == Entry(key, content[key]) && b.vals[i] == nodes[id].value
  {
    var all := d0 + d1;
    var p, j :| 0 <= p < |all| && 0 <= j < |all[p].vals| && all[p].vals[j].key == key;
    i := j;
    isD0 := p < |d0|;
    bi := if isD0 then p else p - |d0|;
    var b := all[p];
    assert BlkOk(nodes, b);
    assert b.vals[i] == b.vals[i];
    if isD0 {
      assert b == d0[bi];
      assert FlagOk(nodes, d0[bi], true) && IndexOk(nodes, d0[bi], bi);
    } else {
      assert b == d1[bi];
      assert FlagOk(nodes, d1[bi], false) && IndexOk(nodes, d1[bi], bi);
    }
    PositionOf(nodes, b, i);
  }

  /** A key sits at one position only: two positions holding the same key are the same. */
  lemma KeyUnique(nodes: Arena, all: seq<Blk>, k2n: map<int, nat>, content: map<int, Dist>, p: nat, i: nat, q: nat, j: nat)
    requires Core(nodes, all, k2n, content)
    requires p < |all| && i < |all[p].vals| && q < |all| && j < |all[q].vals|
    ensures all[p].vals[i].key == all[q].vals[j].key ==> p == q && i == j
  {
    assert BlkOk(nodes, all[p]) && BlkOk(nodes, all[q]);
    ChainDistinct(nodes, all[q].order);
    if all[p].vals[i].key == all[q].vals[j].key {
      assert all[p].vals[i] == all[p].vals[i] && all[q].vals[j] == all[q].vals[j];
      assert all[p].order[i] == all[q].order[j];
      assert all[p].order[i] in all[p].order && all[q].order[j] in all[q].order;
    }
  }

  // ---------------------------------------------------------------------
  // Frames: blocks whose nodes an arena update leaves alone

  /** Every linked node of b is the same in nodes2 as in nodes. */
  ghost predicate Kept(nodes: Arena, nodes2: Arena, b: Blk) {
    forall x :: x in b.order && x < |nodes| ==> x < |nodes2| && nodes2[x] == nodes[x]
  }

  /** A block whose nodes are kept keeps them at every position. */
  lemma KeptAt(nodes: Arena, nodes2: Arena, b: Blk)
    requires BlkOk(nodes, b) && Kept(nodes, nodes2, b)
    ensures forall i :: 0 <= i < |b.order| ==> b.order[i] < |nodes2| && nodes2[b.order[i]] == nodes[b.order[i]]
  {
    forall i | 0 <= i < |b.order| ensures b.order[i] < |nodes2| && nodes2[b.order[i]] == nodes[b.order[i]] {
      assert b.order[i] in b.order;
    }
  }

  /** A block whose nodes are kept stays well formed. */
  lemma KeptBlk(nodes: Arena, nodes2: Arena, b: Blk)
    requires BlkOk(nodes, b) && Kept(nodes, nodes2, b)
    ensures BlkOk(nodes2, b)
  {
    KeptAt(nodes, nodes2, b);
    forall i | 0 <= i < |b.order| ensures nodes2[b.order[i]].prev == Before(b.order, i) && nodes2[b.order[i]].next == After(b.order, i) {
      assert nodes[b.order[i]].prev == Before(b.order, i);
    }
    forall i | 0 <= i < |b.vals| ensures b.vals[i] == nodes2[b.order[i]].value {
      assert b.vals[i] == nodes[b.order[i]].value;
    }
  }

  /** A block whose nodes are kept keeps its tags. */
  lemma KeptTags(nodes: Arena, nodes2: Arena, b: Blk, flag: bool, j: int)
    requires BlkOk(nodes, b) && Kept(nodes, nodes2, b)
    ensures FlagOk(nodes, b, flag) ==> FlagOk(nodes2, b, flag)
    ensures IndexOk(nodes, b, j) ==> IndexOk(nodes2, b, j)
  {
    KeptAt(nodes, nodes2, b);
  }

  /** s with position k cut out. */
  function Cut<X>(s: seq<X>, k: nat): (r: seq<X>)
    requires k < |s|
    ensures |r| == |s| - 1
    ensures forall j :: 0 <= j < |r| ==> r[j] == (if j < k then s[j] else s[j + 1])
  {
    s[..k] + s[k + 1..]
  }
  /**
   * Tier t is t0 with entry i of block bi unlinked: the block is dropped
   * when that empties it, and otherwise loses exactly that entry; every
   * other block stays as it was.
   */
  ghost predicate Removed(t0: seq<Blk>, t: seq<Blk>, bi: nat, i: nat)
    requires bi < |t0| && i < |t0[bi].vals|
  {
    if t0[bi].size == 1 then t == t0[..bi] + t0[bi + 1..]
    else
      && |t| == |t0| && t[..bi] == t0[..bi] && t[bi + 1..] == t0[bi + 1..]
      && t[bi].vals == Cut(t0[bi].vals, i) && t[bi].size == t0[bi].size - 1
  }

  /**
   * The tiers and bounds after `removeNode` of entry e, entry i of block bi
   * of the tier isD0 names: that tier is Removed, the other tier is kept,
   * and the bounds lose the block's bound exactly when a D1 block is
   * dropped.
   */
  ghost predicate TierRemoved(d0: seq<Blk>, d1: seq<Blk>, ub: seq<Dist>, d0': seq<Blk>, d1': seq<Blk>, ub': seq<Dist>,
                              isD0: bool, bi: nat, i: nat, e: Entry)
  {
    var t0 := Tier(d0, d1, isD0);
    && bi < |t0| && i < |t0[bi].vals| && t0[bi].vals[i] == e
    && Removed(t0, Tier(d0', d1', isD0), bi, i)
    && Tier(d0', d1', !isD0) == Tier(d0, d1, !isD0)
    && (!isD0 && t0[bi].size == 1 ==> bi < |ub| && ub' == ub[..bi] + ub[bi + 1..])
    && (isD0 || t0[bi].size != 1 ==> ub' == ub)
  }


  lemma UpdateAppend<X>(a: seq<X>, b: seq<X>, p: nat, x: X)
    ensures p < |a| ==> (a + b)[p] == a[p] && (a + b)[p := x] == a[p := x] + b
    ensures p < |b| ==> (a + b)[|a| + p] == b[p] && (a + b)[|a| + p := x] == a + b[p := x]
  {
  }

  // ---------------------------------------------------------------------
  // Removing one entry: `block.remove(node)` and `keyToNode.remove(key)`

  /**
   * nodes2 and b2 are the arena and block b after `remove` of the node at
   * position i: that position is cut out, no node outside b changes, and no
   * node changes its value or tags.
   */
  ghost predicate RemovedAt(nodes: Arena, b: Blk, i: nat, nodes2: Arena, b2: Blk) {
    && i < |b.order| && i < |b.vals|
    && |nodes2| == |nodes| && SameData(nodes, nodes2)
    && (forall x :: 0 <= x < |nodes| && x !in b.order ==> nodes2[x] == nodes[x])
    && b2.order == Cut(b.order, i) && b2.vals == Cut(b.vals, i)
    && BlkOk(nodes2, b2)
  }

  /** Unlinking the node at position i of a chain changes only nodes of that chain. */
  lemma UnlinkFrame(nodes: Arena, order: seq<nat>, i: nat)
    requires i < |order| && order[i] < |nodes|
    requires forall j :: 0 <= j < |order| ==> order[j] < |nodes|
    requires nodes[order[i]].prev == Before(order, i) && nodes[order[i]].next == After(order, i)
    ensures forall x :: 0 <= x < |nodes| && x !in order ==> Unlinked(nodes, order[i])[x] == nodes[x]
  {
    assert Before(order, i) == Nil || Before(order, i) in order;
    assert After(order, i) == Nil || After(order, i) in order;
  }

  /** `block.remove(node)` for the node at position i of a well-formed block (`ListRemove`) is a removal at i. */
  lemma Unlink(nodes: Arena, b: Blk, i: nat, nodes2: Arena, b2: Blk)
    requires BlkOk(nodes, b) && i < |b.order|
    requires nodes2 == Unlinked(nodes, b.order[i]) && SameData(nodes, nodes2)
    requires b2.order == Cut(b.order, i) && b2.vals == Cut(b.vals, i) && BlkOk(nodes2, b2)
    ensures RemovedAt(nodes, b, i, nodes2, b2)
  {
    assert nodes[b.order[i]].prev == Before(b.order, i) && nodes[b.order[i]].next == After(b.order, i);
    UnlinkFrame(nodes, b.order, i);
  }

  /** Position j of block q after the removal is the old position of the same entry, which is not (p, i). */
  lemma RemoveCovers(nodes: Arena, all: seq<Blk>, k2n: map<int, nat>, content: map<int, Dist>, p: nat, i: nat, b2: Blk, q: nat, j: nat)
    requires Core(nodes, all, k2n, content) && p < |all| && i < |all[p].vals| && i < |all[p].order|
    requires b2.order == Cut(all[p].order, i) && b2.vals == Cut(all[p].vals, i)
    requires q < |all| && j < |all[p := b2][q].vals| && j < |all[p := b2][q].order|
    ensures var key, b := all[p].vals[i].key, all[p := b2][q];
      && b.vals[j].key in k2n - {key} && (k2n - {key})[b.vals[j].key] == b.order[j]
      && b.vals[j].key in content - {key} && (content - {key})[b.vals[j].key] == b.vals[j].value
  {
    var j' := if q == p && j >= i then j + 1 else j;
    var b := all[p := b2][q];
    if q == p {
      assert b == b2;
    }
    assert b.vals[j] == all[q].vals[j'] && b.order[j] == all[q].order[j'];
    assert BlkOk(nodes, all[q]);
    KeyUnique(nodes, all, k2n, content, q, j', p, i);
  }

  lemma RemoveIndexes(all: seq<Blk>, p: nat, i: nat, b2: Blk, k: int)
    requires p < |all| && i < |all[p].vals| && b2.vals == Cut(all[p].vals, i)
    requires HasKey(all, k) && k != all[p].vals[i].key
    ensures HasKey(all[p := b2], k)
  {
    var all' := all[p := b2];
    var q, j :| 0 <= q < |all| && 0 <= j < |all[q].vals| && all[q].vals[j].key == k;
    if q != p {
      assert all'[q].vals[j].key == k;
    } else if j < i {
      assert all'[p].vals[j].key == k;
    } else {
      assert j != i;
      assert all'[p].vals[j - 1].key == k;
    }
  }

  lemma CutMembers<X>(s: seq<X>, k: nat)
    requires k < |s|
    ensures forall x :: x in Cut(s, k) ==> x in s
  {
    forall x | x in Cut(s, k) ensures x in s {
      var j :| 0 <= j < |Cut(s, k)| && Cut(s, k)[j] == x;
      assert s[if j < k then j else j + 1] == x;
    }
  }

  /** Blocks that only lose nodes stay disjoint. */
  lemma DisjointSub(all: seq<Blk>, all2: seq<Blk>)
    requires Disjoint(all) && |all2| == |all|
    requires forall q, x :: 0 <= q < |all2| && x in all2[q].order ==> x in all[q].order
    ensures Disjoint(all2)
  {
  }

  /** When only nodes of block p change, every other block keeps its nodes. */
  lemma OthersKept(nodes: Arena, nodes2: Arena, all: seq<Blk>, p: nat)
    requires Disjoint(all) && p < |all|
    requires |nodes2| >= |nodes| && forall x :: 0 <= x < |nodes| && x !in all[p].order ==> nodes2[x] == nodes[x]
    ensures forall q :: 0 <= q < |all| && q != p ==> Kept(nodes, nodes2, all[q])
  {
    forall q, x | 0 <= q < |all| && q != p && x in all[q].order && x < |nodes| ensures x < |nodes2| && nodes2[x] == nodes[x] {
      assert x !in all[p].order;
    }
  }

  /** Removing the entry at (p, i) removes its key from keyToNode and from the content. */
  lemma RemoveEntry(nodes: Arena, all: seq<Blk>, k2n: map<int, nat>, content: map<int, Dist>, p: nat, i: nat, nodes2: Arena, b2: Blk)
    requires Core(nodes, all, k2n, content) && p < |all| && RemovedAt(nodes, all[p], i, nodes2, b2)
    ensures Core(nodes2, all[p := b2], k2n - {all[p].vals[i].key}, content - {all[p].vals[i].key})
    ensures forall q :: 0 <= q < |all| && q != p ==> Kept(nodes, nodes2, all[q])
  {
    RemoveBlks(nodes, all, p, i, nodes2, b2);
    var all' := all[p := b2];
    assert forall q :: 0 <= q < |all'| ==> BlkOk(nodes2, all'[q]);
    RemoveCore(nodes, all, k2n, content, p, i, nodes2, b2);
  }

  lemma RemoveBlks(nodes: Arena, all: seq<Blk>, p: nat, i: nat, nodes2: Arena, b2: Blk)
    requires (forall q :: 0 <= q < |all| ==> BlkOk(nodes, all[q])) && Disjoint(all)
    requires p < |all| && RemovedAt(nodes, all[p], i, nodes2, b2)
    ensures forall q :: 0 <= q < |all| && q != p ==> BlkOk(nodes2, all[q])
    ensures Disjoint(all[p := b2])
    ensures forall q :: 0 <= q < |all| && q != p ==> Kept(nodes, nodes2, all[q])
  {
    var all' := all[p := b2];
    OthersKept(nodes, nodes2, all, p);
    forall q | 0 <= q < |all| && q != p ensures BlkOk(nodes2, all[q]) {
      KeptBlk(nodes, nodes2, all[q]);
    }
    forall q, x | 0 <= q < |all'| && x in all'[q].order ensures x in all[q].order {
      CutMembers(all[p].order, i);
    }
    DisjointSub(all, all');
  }

  lemma RemoveCore(nodes: Arena, all: seq<Blk>, k2n: map<int, nat>, content: map<int, Dist>, p: nat, i: nat, nodes2: Arena, b2: Blk)
    requires Core(nodes, all, k2n, content) && p < |all| && RemovedAt(nodes, all[p], i, nodes2, b2)
    ensures Covered(all[p := b2], k2n - {all[p].vals[i].key}, content - {all[p].vals[i].key})
    ensures Indexed(all[p := b2], k2n - {all[p].vals[i].key}, content - {all[p].vals[i].key})
  {
    RemoveCovered(nodes, all, k2n, content, p, i, b2);
    RemoveIndexed(all, k2n, content, p, i, b2);
  }

  lemma RemoveCovered(nodes: Arena, all: seq<Blk>, k2n: map<int, nat>, content: map<int, Dist>, p: nat, i: nat, b2: Blk)
    requires Core(nodes, all, k2n, content) && p < |all| && i < |all[p].vals| && i < |all[p].order|
    requires b2.order == Cut(all[p].order, i) && b2.vals == Cut(all[p].vals, i)
    ensures Covered(all[p := b2], k2n - {all[p].vals[i].key}, content - {all[p].vals[i].key})
  {
    var key := all[p].vals[i].key;
    var all', k2n', content' := all[p := b2], k2n - {key}, content - {key};
    forall q, j | 0 <= q < |all'| && 0 <= j < |all'[q].vals| && j < |all'[q].order|
      ensures && all'[q].vals[j].key in k2n' && k2n'[all'[q].vals[j].key] == all'[q].order[j]
              && all'[q].vals[j].key in content' && content'[all'[q].vals[j].key] == all'[q].vals[j].value
    {
      RemoveCovers(nodes, all, k2n, content, p, i, b2, q, j);
    }
  }

  lemma RemoveIndexed(all: seq<Blk>, k2n: map<int, nat>, content: map<int, Dist>, p: nat, i: nat, b2: Blk)
    requires Indexed(all, k2n, content) && p < |all| && i < |all[p].vals| && b2.vals == Cut(all[p].vals, i)
    ensures Indexed(all[p := b2], k2n - {all[p].vals[i].key}, content - {all[p].vals[i].key})
  {
    var key := all[p].vals[i].key;
    forall k | k in content - {key} ensures HasKey(all[p := b2], k) {
      RemoveIndexes(all, p, i, b2, k);
    }
  }

  /** The removal keeps the tags of every block of a tier. */
  lemma RemoveTags(nodes: Arena, nodes2: Arena, blks: seq<Blk>, p: nat, i: nat, b2: Blk, flag: bool, lo: int, hi: int)
    requires p < |blks| && RemovedAt(nodes, blks[p], i, nodes2, b2)
    requires forall q :: 0 <= q < |blks| && q != p ==> BlkOk(nodes, blks[q]) && Kept(nodes, nodes2, blks[q])
    requires Flags(nodes, blks, flag) && Indices(nodes, blks, lo, hi)
    ensures Flags(nodes2, blks[p := b2], flag) && Indices(nodes2, blks[p := b2], lo, hi)
  {
    var b := blks[p := b2];
    forall q | 0 <= q < |b| ensures FlagOk(nodes2, b[q], flag) && (lo <= q < hi ==> IndexOk(nodes2, b[q], q)) {
      if q == p {
        forall x | 0 <= x < |b2.order| && b2.order[x] < |nodes2|
          ensures nodes2[b2.order[x]].isD0 == flag && (lo <= q < hi ==> nodes2[b2.order[x]].blockIndex == q)
        {
          var x' := if x < i then x else x + 1;
          assert b2.order[x] == blks[p].order[x'];
        }
      } else {
        KeptTags(nodes, nodes2, blks[q], flag, q);
      }
    }
  }

  lemma RemoveBounded(d1: seq<Blk>, ub: seq<Dist>, p: nat, i: nat, b2: Blk)
    requires p < |d1| && i < |d1[p].vals| && b2.vals == Cut(d1[p].vals, i) && Bounded(d1, ub)
    ensures Bounded(d1[p := b2], ub)
  {
    var b := d1[p := b2];
    forall j, x | 0 <= j < |b| && 0 <= x < |b[j].vals|
      ensures && (0 < j ==> Le(ub[j - 1], b[j].vals[x].value))
              && (j < |b| - 1 ==> Le(b[j].vals[x].value, ub[j]))
    {
      if j == p {
        var x' := if x < i then x else x + 1;
        assert b2.vals[x] == d1[p].vals[x'];
      }
    }
  }

  /** A tier whose blocks all keep their nodes keeps its tags. */
  lemma KeptTier(nodes: Arena, nodes2: Arena, blks: seq<Blk>, flag: bool, lo: int, hi: int)
    requires forall q :: 0 <= q < |blks| ==> BlkOk(nodes, blks[q]) && Kept(nodes, nodes2, blks[q])
    requires Flags(nodes, blks, flag) && Indices(nodes, blks, lo, hi)
    ensures Flags(nodes2, blks, flag) && Indices(nodes2, blks, lo, hi)
  {
    forall q | 0 <= q < |blks| ensures FlagOk(nodes2, blks[q], flag) && (lo <= q < hi ==> IndexOk(nodes2, blks[q], q)) {
      KeptTags(nodes, nodes2, blks[q], flag, q);
    }
  }

  /** The blocks of both tiers, D0 first. */
  lemma TierAt(d0: seq<Blk>, d1: seq<Blk>, isD0: bool, bi: nat)
    requires bi < |Tier(d0, d1, isD0)|
    ensures var p := if isD0 then bi else |d0| + bi;
      p < |d0 + d1| && (d0 + d1)[p] == Tier(d0, d1, isD0)[bi]
    ensures forall q :: 0 <= q < |d0| ==> (d0 + d1)[q] == d0[q]
    ensures forall q :: 0 <= q < |d1| ==> (d0 + d1)[|d0| + q] == d1[q]
  {
  }

  /**
   * `block.remove(node)` and `keyToNode.remove(key)` for the entry at
   * position i of block bi of a tier keep the invariant, without that key.
   */
  lemma RemoveInv(nodes: Arena, d0: seq<Blk>, d1: seq<Blk>, ub: seq<Dist>, k2n: map<int, nat>, content: map<int, Dist>,
                  isD0: bool, bi: nat, i: nat, nodes2: Arena, b2: Blk)
    requires Inv(nodes, d0, d1, ub, k2n, content) && bi < |Tier(d0, d1, isD0)|
    requires RemovedAt(nodes, Tier(d0, d1, isD0)[bi], i, nodes2, b2)
    ensures var key := Tier(d0, d1, isD0)[bi].vals[i].key;
      Inv(nodes2, if isD0 then d0[bi := b2] else d0, if isD0 then d1 else d1[bi := b2], ub, k2n - {key}, content - {key})
  {
    if isD0 {
      RemoveStep0(nodes, d0, d1, ub, k2n, content, bi, i, nodes2, b2);
    } else {
      RemoveStep1(nodes, d0, d1, ub, k2n, content, bi, i, nodes2, b2);
    }
  }

  lemma RemoveStep0(nodes: Arena, d0: seq<Blk>, d1: seq<Blk>, ub: seq<Dist>, k2n: map<int, nat>, content: map<int, Dist>,
                    bi: nat, i: nat, nodes2: Arena, b2: Blk)
    requires Inv(nodes, d0, d1, ub, k2n, content) && bi < |d0| && RemovedAt(nodes, d0[bi], i, nodes2, b2)
    ensures Inv(nodes2, d0[bi := b2], d1, ub, k2n - {d0[bi].vals[i].key}, content - {d0[bi].vals[i].key})
  {
    TierAt(d0, d1, true, bi);
    RemoveEntry(nodes, d0 + d1, k2n, content, bi, i, nodes2, b2);
    UpdateAppend(d0, d1, bi, b2);
    assert forall q :: 0 <= q < |d0| && q != bi ==> BlkOk(nodes, d0[q]) && Kept(nodes, nodes2, d0[q]) by {
      forall q | 0 <= q < |d0| && q != bi ensures BlkOk(nodes, d0[q]) && Kept(nodes, nodes2, d0[q]) {
        assert (d0 + d1)[q] == d0[q];
      }
    }
    assert forall q :: 0 <= q < |d1| ==> BlkOk(nodes, d1[q]) && Kept(nodes, nodes2, d1[q]) by {
      forall q | 0 <= q < |d1| ensures BlkOk(nodes, d1[q]) && Kept(nodes, nodes2, d1[q]) {
        assert (d0 + d1)[|d0| + q] == d1[q];
      }
    }
    RemoveTags(nodes, nodes2, d0, bi, i, b2, true, 0, |d0|);
    KeptTier(nodes, nodes2, d1, false, 0, |d1|);
  }

  lemma RemoveStep1(nodes: Arena, d0: seq<Blk>, d1: seq<Blk>, ub: seq<Dist>, k2n: map<int, nat>, content: map<int, Dist>,
                    bi: nat, i: nat, nodes2: Arena, b2: Blk)
    requires Inv(nodes, d0, d1, ub, k2n, content) && bi < |d1| && RemovedAt(nodes, d1[bi], i, nodes2, b2)
    ensures Inv(nodes2, d0, d1[bi := b2], ub, k2n - {d1[bi].vals[i].key}, content - {d1[bi].vals[i].key})
  {
    var p := |d0| + bi;
    TierAt(d0, d1, false, bi);
    RemoveEntry(nodes, d0 + d1, k2n, content, p, i, nodes2, b2);
    UpdateAppend(d0, d1, bi, b2);
    assert forall q :: 0 <= q < |d0| ==> BlkOk(nodes, d0[q]) && Kept(nodes, nodes2, d0[q]) by {
      forall q | 0 <= q < |d0| ensures BlkOk(nodes, d0[q]) && Kept(nodes, nodes2, d0[q]) {
        assert (d0 + d1)[q] == d0[q];
      }
    }
    assert forall q :: 0 <= q < |d1| && q != bi ==> BlkOk(nodes, d1[q]) && Kept(nodes, nodes2, d1[q]) by {
      forall q | 0 <= q < |d1| && q != bi ensures BlkOk(nodes, d1[q]) && Kept(nodes, nodes2, d1[q]) {
        assert (d0 + d1)[|d0| + q] == d1[q];
      }
    }
    KeptTier(nodes, nodes2, d0, true, 0, |d0|);
    RemoveTags(nodes, nodes2, d1, bi, i, b2, false, 0, |d1|);
    RemoveBounded(d1, ub, bi, i, b2);
  }

  // ---------------------------------------------------------------------
  // Dropping an empty block: `D0.removeAt(i)`, or `D1.removeAt(i)` with `upperBounds.removeAt(i)`

  lemma DropHasKey(all: seq<Blk>, p: nat, k: int)
    requires p < |all| && all[p].vals == [] && HasKey(all, k)
    ensures HasKey(Cut(all, p), k)
  {
    var q, j :| 0 <= q < |all| && 0 <= j < |all[q].vals| && all[q].vals[j].key == k;
    var q' := if q < p then q else q - 1;
    assert Cut(all, p)[q'] == all[q];
  }

  lemma CutPrefix<X>(a: seq<X>, b: seq<X>, p: nat)
    requires p < |a|
    ensures Cut(a + b, p) == Cut(a, p) + b
  {
    assert (a + b)[p + 1..] == a[p + 1..] + b;
    assert (a + b)[..p] == a[..p];
  }

  lemma CutAppend<X>(a: seq<X>, b: seq<X>, p: nat)
    requires p < |b|
    ensures (a + b)[|a| + p] == b[p] && Cut(a + b, |a| + p) == a + Cut(b, p)
  {
    assert (a + b)[|a| + p + 1..] == b[p + 1..];
    assert (a + b)[..|a| + p] == a + b[..p];
  }

  /** An empty block holds no entry, so dropping it keeps keyToNode and the content. */
  lemma DropCore(nodes: Arena, all: seq<Blk>, k2n: map<int, nat>, content: map<int, Dist>, p: nat)
    requires Core(nodes, all, k2n, content) && p < |all| && all[p].vals == []
    ensures Core(nodes, Cut(all, p), k2n, content)
  {
    var all' := Cut(all, p);
    forall q | 0 <= q < |all'| ensures BlkOk(nodes, all'[q]) {
      assert all'[q] == all[if q < p then q else q + 1];
    }
    forall q, r, x | 0 <= q < |all'| && 0 <= r < |all'| && q != r && x in all'[q].order ensures x !in all'[r].order {
      assert all'[q] == all[if q < p then q else q + 1] && all'[r] == all[if r < p then r else r + 1];
    }
    forall q, j | 0 <= q < |all'| && 0 <= j < |all'[q].vals| && j < |all'[q].order|
      ensures && all'[q].vals[j].key in k2n && k2n[all'[q].vals[j].key] == all'[q].order[j]
              && all'[q].vals[j].key in content && content[all'[q].vals[j].key] == all'[q].vals[j].value
    {
      var q' := if q < p then q else q + 1;
      assert all'[q] == all[q'] && all'[q].vals[j] == all[q'].vals[j];
    }
    forall k | k in content ensures HasKey(all', k) {
      DropHasKey(all, p, k);
    }
  }

  /** Dropping block p keeps the tier flags, and the positions below p. */
  lemma DropTags(nodes: Arena, blks: seq<Blk>, p: nat, flag: bool)
    requires p < |blks| && Flags(nodes, blks, flag) && Indices(nodes, blks, 0, p)
    ensures Flags(nodes, Cut(blks, p), flag) && Indices(nodes, Cut(blks, p), 0, p)
  {
    var b := Cut(blks, p);
    forall j | 0 <= j < |b| ensures FlagOk(nodes, b[j], flag) && (j < p ==> IndexOk(nodes, b[j], j)) {
      assert b[j] == blks[if j < p then j else j + 1];
    }
  }

  /** Dropping an empty D1 block with its bound keeps the bounds in order. */
  lemma DropBounded(d1: seq<Blk>, ub: seq<Dist>, p: nat)
    requires p < |d1| && d1[p].vals == [] && Bounded(d1, ub)
    ensures Bounded(Cut(d1, p), Cut(ub, p))
  {
    var b, u := Cut(d1, p), Cut(ub, p);
    forall j, x | 0 <= j < |b| && 0 <= x < |b[j].vals|
      ensures && (0 < j ==> Le(u[j - 1], b[j].vals[x].value))
              && (j < |b| - 1 ==> Le(b[j].vals[x].value, u[j]))
    {
      var j' := if j < p then j else j + 1;
      assert b[j] == d1[j'] && b[j].vals[x] == d1[j'].vals[x];
      if 0 < j && p <= j {
        assert Le(ub[j - 1], ub[j]);
      }
    }
  }

  /** Dropping an empty D0 block leaves the positions from bi on stale. */
  lemma DropInv0(nodes: Arena, d0: seq<Blk>, d1: seq<Blk>, ub: seq<Dist>, k2n: map<int, nat>, content: map<int, Dist>, bi: nat)
    requires Inv(nodes, d0, d1, ub, k2n, content) && bi < |d0| && d0[bi].size == 0
    ensures Stale(nodes, Cut(d0, bi), d1, ub, k2n, content, bi, |d1|)
  {
    assert (d0 + d1)[bi] == d0[bi];
    StoredKeys(nodes, d0 + d1, k2n, content, bi);
    CutPrefix(d0, d1, bi);
    DropCore(nodes, d0 + d1, k2n, content, bi);
    DropTags(nodes, d0, bi, true);
  }

  /** Dropping an empty D1 block and its bound leaves the positions from bi on stale. */
  lemma DropInv1(nodes: Arena, d0: seq<Blk>, d1: seq<Blk>, ub: seq<Dist>, k2n: map<int, nat>, content: map<int, Dist>, bi: nat)
    requires Inv(nodes, d0, d1, ub, k2n, content) && bi < |d1| && d1[bi].size == 0
    ensures Stale(nodes, d0, Cut(d1, bi), Cut(ub, bi), k2n, content, |d0|, bi)
  {
    TierAt(d0, d1, false, bi);
    StoredKeys(nodes, d0 + d1, k2n, content, |d0| + bi);
    CutAppend(d0, d1, bi);
    DropCore(nodes, d0 + d1, k2n, content, |d0| + bi);
    DropTags(nodes, d1, bi, false);
    DropBounded(d1, ub, bi);
  }

  // ---------------------------------------------------------------------
  // Renumbering: `updateBlockIndices(blocks, startIndex)`

  /** The arena with `blockIndex` set to j on every node of order. */
  ghost function Retagged(nodes: Arena, order: seq<nat>, j: int): (r: Arena)
    ensures |r| == |nodes|
    ensures forall x :: 0 <= x < |nodes| ==> r[x] == if x in order then nodes[x].(blockIndex := j) else nodes[x]
  {
    seq(|nodes|, x requires 0 <= x < |nodes| => if x in order then nodes[x].(blockIndex := j) else nodes[x])
  }

  /** The arena after the loop of `updateBlockIndices(blks, s)` has renumbered blocks s .. i - 1. */
  ghost function RetagUpTo(nodes: Arena, blks: seq<Blk>, s: nat, i: nat): (r: Arena)
    requires i <= |blks|
    ensures |r| == |nodes|
    decreases i
  {
    if i <= s then nodes else Retagged(RetagUpTo(nodes, blks, s, i - 1), blks[i - 1].order, i - 1)
  }

  /** The arena after `updateBlockIndices(blks, s)`. */
  ghost function RetagTier(nodes: Arena, blks: seq<Blk>, s: nat): Arena {
    RetagUpTo(nodes, blks, s, |blks|)
  }

  /** b differs from a at most in the `blockIndex` of its nodes. */
  ghost predicate OnlyIndex(a: Arena, b: Arena) {
    |a| == |b| && forall x :: 0 <= x < |a| ==> b[x] == a[x].(blockIndex := b[x].blockIndex)
  }

  /** Renumbering changes nothing but the `blockIndex` of nodes. */
  lemma {:induction false} RetagOnlyIndex(nodes: Arena, blks: seq<Blk>, s: nat, i: nat)
    requires i <= |blks|
    ensures OnlyIndex(nodes, RetagUpTo(nodes, blks, s, i))
    decreases i
  {
    if i > s {
      RetagOnlyIndex(nodes, blks, s, i - 1);
    }
  }

  /** Renumbering blocks s .. i - 1 leaves every node outside them alone. */
  lemma {:induction false} RetagOthers(nodes: Arena, blks: seq<Blk>, s: nat, i: nat, x: nat)
    requires i <= |blks| && x < |nodes|
    requires forall j :: s <= j < i ==> x !in blks[j].order
    ensures RetagUpTo(nodes, blks, s, i)[x] == nodes[x]
    decreases i
  {
    if i > s {
      RetagOthers(nodes, blks, s, i - 1, x);
    }
  }

  /** Renumbering blocks s .. i - 1 gives each of their nodes its block's position. */
  lemma {:induction false} RetagOwn(nodes: Arena, blks: seq<Blk>, s: nat, i: nat, j: nat, x: nat)
    requires s <= j < i <= |blks| && Disjoint(blks) && x in blks[j].order && x < |nodes|
    ensures RetagUpTo(nodes, blks, s, i)[x].blockIndex == j
    decreases i
  {
    if j < i - 1 {
      RetagOwn(nodes, blks, s, i - 1, j, x);
      assert x !in blks[i - 1].order;
    }
  }

  /** A block stays well formed, with its flags, when only `blockIndex` changes. */
  lemma OnlyIndexBlk(nodes: Arena, r: Arena, b: Blk, flag: bool)
    requires BlkOk(nodes, b) && OnlyIndex(nodes, r)
    ensures BlkOk(r, b)
    ensures FlagOk(nodes, b, flag) ==> FlagOk(r, b, flag)
  {
    forall i | 0 <= i < |b.order| ensures r[b.order[i]].prev == Before(b.order, i) && r[b.order[i]].next == After(b.order, i) {
      assert nodes[b.order[i]].prev == Before(b.order, i);
    }
    forall i | 0 <= i < |b.vals| ensures b.vals[i] == r[b.order[i]].value {
      assert b.vals[i] == nodes[b.order[i]].value;
    }
  }

  lemma OnlyIndexCore(nodes: Arena, r: Arena, d0: seq<Blk>, d1: seq<Blk>, k2n: map<int, nat>, content: map<int, Dist>)
    requires Core(nodes, d0 + d1, k2n, content) && OnlyIndex(nodes, r)
    requires Flags(nodes, d0, true) && Flags(nodes, d1, false)
    ensures Core(r, d0 + d1, k2n, content) && Flags(r, d0, true) && Flags(r, d1, false)
  {
    var all := d0 + d1;
    forall p | 0 <= p < |all| ensures BlkOk(r, all[p]) {
      OnlyIndexBlk(nodes, r, all[p], true);
    }
    forall p | 0 <= p < |d0| ensures FlagOk(r, d0[p], true) {
      assert all[p] == d0[p];
      OnlyIndexBlk(nodes, r, d0[p], true);
    }
    forall p | 0 <= p < |d1| ensures FlagOk(r, d1[p], false) {
      assert all[|d0| + p] == d1[p];
      OnlyIndexBlk(nodes, r, d1[p], false);
    }
  }

  /** The blocks of each tier are disjoint, and no node is linked in both tiers. */
  lemma TierDisjoint(d0: seq<Blk>, d1: seq<Blk>)
    requires Disjoint(d0 + d1)
    ensures Disjoint(d0) && Disjoint(d1)
    ensures forall p, q, x :: 0 <= p < |d0| && 0 <= q < |d1| && x in d0[p].order ==> x !in d1[q].order
  {
    var all := d0 + d1;
    forall p, q, x | 0 <= p < |d0| && 0 <= q < |d0| && p != q && x in d0[p].order ensures x !in d0[q].order {
      assert all[p] == d0[p] && all[q] == d0[q];
    }
    forall p, q, x | 0 <= p < |d1| && 0 <= q < |d1| && p != q && x in d1[p].order ensures x !in d1[q].order {
      assert all[|d0| + p] == d1[p] && all[|d0| + q] == d1[q];
    }
    forall p, q, x | 0 <= p < |d0| && 0 <= q < |d1| && x in d0[p].order ensures x !in d1[q].order {
      assert all[p] == d0[p] && all[|d0| + q] == d1[q];
    }
  }

  /** After renumbering blks from s, every block of blks carries its position. */
  lemma RetagIndices(nodes: Arena, blks: seq<Blk>, s: nat)
    requires s <= |blks| && Disjoint(blks) && Indices(nodes, blks, 0, s)
    requires forall j :: 0 <= j < |blks| ==> forall i :: 0 <= i < |blks[j].order| ==> blks[j].order[i] < |nodes|
    ensures Indices(RetagTier(nodes, blks, s), blks, 0, |blks|)
  {
    var r := RetagTier(nodes, blks, s);
    forall j, i | 0 <= j < |blks| && 0 <= i < |blks[j].order| && blks[j].order[i] < |r|
      ensures r[blks[j].order[i]].blockIndex == j
    {
      var x := blks[j].order[i];
      assert x in blks[j].order;
      if j < s {
        forall j' | s <= j' < |blks| ensures x !in blks[j'].order {
        }
        RetagOthers(nodes, blks, s, |blks|, x);
        assert IndexOk(nodes, blks[j], j);
      } else {
        RetagOwn(nodes, blks, s, |blks|, j, x);
      }
    }
  }

  /** Renumbering one tier leaves the positions of the other tier's nodes alone. */
  lemma RetagOtherTier(nodes: Arena, blks: seq<Blk>, s: nat, other: seq<Blk>, lo: int, hi: int)
    requires s <= |blks| && Indices(nodes, other, lo, hi)
    requires forall p, q, x :: 0 <= p < |blks| && 0 <= q < |other| && x in blks[p].order ==> x !in other[q].order
    ensures Indices(RetagTier(nodes, blks, s), other, lo, hi)
  {
    var r := RetagTier(nodes, blks, s);
    forall j, i | lo <= j < hi && 0 <= j < |other| && 0 <= i < |other[j].order| && other[j].order[i] < |r|
      ensures r[other[j].order[i]].blockIndex == j
    {
      var x := other[j].order[i];
      assert x in other[j].order;
      RetagOthers(nodes, blks, s, |blks|, x);
      assert IndexOk(nodes, other[j], j);
    }
  }

  /** Every node linked in a tier lies in the arena. */
  lemma TierInArena(nodes: Arena, d0: seq<Blk>, d1: seq<Blk>, k2n: map<int, nat>, content: map<int, Dist>)
    requires Core(nodes, d0 + d1, k2n, content)
    ensures forall j :: 0 <= j < |d0| ==> BlkOk(nodes, d0[j])
    ensures forall j :: 0 <= j < |d1| ==> BlkOk(nodes, d1[j])
    ensures forall j :: 0 <= j < |d0| ==> forall i :: 0 <= i < |d0[j].order| ==> d0[j].order[i] < |nodes|
    ensures forall j :: 0 <= j < |d1| ==> forall i :: 0 <= i < |d1[j].order| ==> d1[j].order[i] < |nodes|
  {
    var all := d0 + d1;
    forall j | 0 <= j < |d0| ensures BlkOk(nodes, d0[j]) {
      assert all[j] == d0[j];
    }
    forall j | 0 <= j < |d1| ensures BlkOk(nodes, d1[j]) {
      assert all[|d0| + j] == d1[j];
    }
  }

  /** `updateBlockIndices(D0, s)` on D0 blocks whose positions are stale from s on restores the invariant. */
  lemma RetagInv0(nodes: Arena, d0: seq<Blk>, d1: seq<Blk>, ub: seq<Dist>, k2n: map<int, nat>, content: map<int, Dist>, s: nat)
    requires Stale(nodes, d0, d1, ub, k2n, content, s, |d1|) && s <= |d0|
    ensures Inv(RetagTier(nodes, d0, s), d0, d1, ub, k2n, content)
  {
    var r := RetagTier(nodes, d0, s);
    RetagOnlyIndex(nodes, d0, s, |d0|);
    OnlyIndexCore(nodes, r, d0, d1, k2n, content);
    TierDisjoint(d0, d1);
    TierInArena(nodes, d0, d1, k2n, content);
    RetagIndices(nodes, d0, s);
    RetagOtherTier(nodes, d0, s, d1, 0, |d1|);
  }

  /** `updateBlockIndices(D1, s)` on D1 blocks whose positions are stale from s on restores the invariant. */
  lemma RetagInv1(nodes: Arena, d0: seq<Blk>, d1: seq<Blk>, ub: seq<Dist>, k2n: map<int, nat>, content: map<int, Dist>, s: nat)
    requires Stale(nodes, d0, d1, ub, k2n, content, |d0|, s) && s <= |d1|
    ensures Inv(RetagTier(nodes, d1, s), d0, d1, ub, k2n, content)
  {
    var r := RetagTier(nodes, d1, s);
    RetagOnlyIndex(nodes, d1, s, |d1|);
    OnlyIndexCore(nodes, r, d0, d1, k2n, content);
    TierDisjoint(d0, d1);
    TierInArena(nodes, d0, d1, k2n, content);
    RetagIndices(nodes, d1, s);
    RetagOtherTier(nodes, d1, s, d0, 0, |d0|);
  }

  /** `updateBlockIndices(D1, s)` renumbers D1 from s on and leaves D0's positions as they were. */
  lemma RetagStale1(nodes: Arena, d0: seq<Blk>, d1: seq<Blk>, ub: seq<Dist>, k2n: map<int, nat>, content: map<int, Dist>,
                    s0: nat, s: nat)
    requires Stale(nodes, d0, d1, ub, k2n, content, s0, s) && s <= |d1|
    ensures Stale(RetagTier(nodes, d1, s), d0, d1, ub, k2n, content, s0, |d1|)
  {
    var r := RetagTier(nodes, d1, s);
    RetagOnlyIndex(nodes, d1, s, |d1|);
    OnlyIndexCore(nodes, r, d0, d1, k2n, content);
    TierDisjoint(d0, d1);
    TierInArena(nodes, d0, d1, k2n, content);
    RetagIndices(nodes, d1, s);
    RetagOtherTier(nodes, d1, s, d0, 0, s0);
  }

  // ---------------------------------------------------------------------
  // Adding one entry to a D1 block: `block.add(pair)`, the node's tags and `keyToNode[key] = node`

  /** A value may go into D1 block bi: at least the bound before it, and at most its own unless bi is last. */
  ghost predicate Placed(ub: seq<Dist>, bi: int, v: Dist) {
    && 0 <= bi < |ub|
    && (0 < bi ==> Le(ub[bi - 1], v))
    && (bi < |ub| - 1 ==> Le(v, ub[bi]))
  }

  /** The arena after `block.add(e)` on a block ending at tail, with the new node tagged (bi, flag). */
  ghost function AddedTagged(nodes: Arena, tail: int, e: Entry, bi: int, flag: bool): (r: Arena)
    requires tail == Nil || 0 <= tail < |nodes|
    ensures |r| == |nodes| + 1
  {
    var n1 := Appended(nodes, tail, e);
    n1[|nodes| := n1[|nodes|].(blockIndex := bi, isD0 := flag)]
  }

  /**
   * The block b2 that `add(e)` makes of block b: well formed on the new
   * arena, whose old nodes keep their values and tags and outside b do not
   * change at all.
   */
  lemma AddBlk(nodes: Arena, b: Blk, e: Entry, bi: int, flag: bool, b2: Blk)
    requires BlkOk(nodes, b)
    requires Wf(Appended(nodes, b.tail, e), b2.head, b2.tail, b2.size, b.order + [|nodes|], b.vals + [e])
    requires b2.order == b.order + [|nodes|] && b2.vals == b.vals + [e]
    ensures var n2 := AddedTagged(nodes, b.tail, e, bi, flag);
      && BlkOk(n2, b2)
      && SameData(nodes, n2)
      && n2[|nodes|].blockIndex == bi && n2[|nodes|].isD0 == flag
      && (forall x :: 0 <= x < |nodes| && x !in b.order ==> n2[x] == nodes[x])
  {
    var n1 := Appended(nodes, b.tail, e);
    var n2 := AddedTagged(nodes, b.tail, e, bi, flag);
    var id := |nodes|;
    assert b.tail == Nil || b.tail in b.order;
    forall i | 0 <= i < |b2.order| ensures n2[b2.order[i]].prev == Before(b2.order, i) && n2[b2.order[i]].next == After(b2.order, i) {
      assert n1[b2.order[i]].prev == Before(b2.order, i);
    }
    forall i | 0 <= i < |b2.vals| ensures b2.vals[i] == n2[b2.order[i]].value {
      assert b2.vals[i] == n1[b2.order[i]].value;
    }
  }

  /** The new node is in no block yet. */
  lemma FreshId(nodes: Arena, all: seq<Blk>)
    requires forall p :: 0 <= p < |all| ==> BlkOk(nodes, all[p])
    ensures forall p :: 0 <= p < |all| ==> |nodes| !in all[p].order
  {
    forall p | 0 <= p < |all| ensures |nodes| !in all[p].order {
      assert BlkOk(nodes, all[p]);
    }
  }

  /** Adding entry e of a new key at the end of block p keeps Core, with the key indexed at the new node. */
  lemma AddCore(nodes: Arena, all: seq<Blk>, k2n: map<int, nat>, content: map<int, Dist>, p: nat, e: Entry,
                nodes2: Arena, b2: Blk)
    requires Core(nodes, all, k2n, content) && p < |all| && e.key !in k2n
    requires b2.order == all[p].order + [|nodes|] && b2.vals == all[p].vals + [e]
    requires BlkOk(nodes2, b2) && |nodes2| == |nodes| + 1
    requires forall x :: 0 <= x < |nodes| && x !in all[p].order ==> nodes2[x] == nodes[x]
    ensures Core(nodes2, all[p := b2], k2n[e.key := |nodes|], content[e.key := e.value])
    ensures forall q :: 0 <= q < |all| && q != p ==> Kept(nodes, nodes2, all[q])
  {
    AddBlks(nodes, all, p, nodes2, b2);
    var all' := all[p := b2];
    assert forall q :: 0 <= q < |all'| ==> BlkOk(nodes2, all'[q]);
    assert BlkOk(nodes, all[p]);
    AddCovered(nodes, all, k2n, content, p, e, b2);
  }

  lemma AddBlks(nodes: Arena, all: seq<Blk>, p: nat, nodes2: Arena, b2: Blk)
    requires (forall q :: 0 <= q < |all| ==> BlkOk(nodes, all[q])) && Disjoint(all) && p < |all|
    requires b2.order == all[p].order + [|nodes|] && |nodes2| == |nodes| + 1
    requires forall x :: 0 <= x < |nodes| && x !in all[p].order ==> nodes2[x] == nodes[x]
    ensures forall q :: 0 <= q < |all| && q != p ==> BlkOk(nodes2, all[q]) && Kept(nodes, nodes2, all[q])
    ensures Disjoint(all[p := b2])
  {
    var all' := all[p := b2];
    OthersKept(nodes, nodes2, all, p);
    FreshId(nodes, all);
    forall q | 0 <= q < |all| && q != p ensures BlkOk(nodes2, all[q]) {
      KeptBlk(nodes, nodes2, all[q]);
    }
    forall q, x | 0 <= q < |all'| && x in all'[q].order ensures x in all[q].order || (q == p && x == |nodes|) {
      if q == p {
        assert x in all[p].order + [|nodes|];
      }
    }
    DisjointGrow(all, all', p, |nodes|);
  }

  /** Blocks that gain only a node no block holds, all in block p, stay disjoint. */
  lemma DisjointGrow(all: seq<Blk>, all2: seq<Blk>, p: nat, newId: nat)
    requires Disjoint(all) && |all2| == |all|
    requires forall q :: 0 <= q < |all| ==> newId !in all[q].order
    requires forall q, x :: 0 <= q < |all2| && x in all2[q].order ==> x in all[q].order || (q == p && x == newId)
    ensures Disjoint(all2)
  {
  }

  lemma AddCovered(nodes: Arena, all: seq<Blk>, k2n: map<int, nat>, content: map<int, Dist>, p: nat, e: Entry, b2: Blk)
    requires Covered(all, k2n, content) && Indexed(all, k2n, content) && p < |all| && e.key !in k2n
    requires |all[p].vals| == |all[p].order|
    requires b2.order == all[p].order + [|nodes|] && b2.vals == all[p].vals + [e]
    ensures Covered(all[p := b2], k2n[e.key := |nodes|], content[e.key := e.value])
    ensures Indexed(all[p := b2], k2n[e.key := |nodes|], content[e.key := e.value])
  {
    var all' := all[p := b2];
    var k2n', content' := k2n[e.key := |nodes|], content[e.key := e.value];
    forall q, j | 0 <= q < |all'| && 0 <= j < |all'[q].vals| && j < |all'[q].order|
      ensures && all'[q].vals[j].key in k2n' && k2n'[all'[q].vals[j].key] == all'[q].order[j]
              && all'[q].vals[j].key in content' && content'[all'[q].vals[j].key] == all'[q].vals[j].value
    {
      if q != p || j < |all[p].vals| {
        assert all'[q].vals[j] == all[q].vals[j] && all'[q].order[j] == all[q].order[j];
        assert all[q].vals[j].key in k2n;
      }
    }
    forall k | k in content' ensures HasKey(all', k) {
      if k == e.key {
        assert all'[p].vals[|all[p].vals|] == e;
      } else {
        var q, j :| 0 <= q < |all| && 0 <= j < |all[q].vals| && all[q].vals[j].key == k;
        assert all'[q].vals[j] == all[q].vals[j];
      }
    }
  }

  /** Placing an entry by its bound keeps D1 bounded. */
  lemma AddBounded(d1: seq<Blk>, ub: seq<Dist>, p: nat, e: Entry, b2: Blk)
    requires Bounded(d1, ub) && p < |d1| && Placed(ub, p, e.value) && b2.vals == d1[p].vals + [e]
    ensures Bounded(d1[p := b2], ub)
  {
    var b := d1[p := b2];
    forall j, x | 0 <= j < |b| && 0 <= x < |b[j].vals|
      ensures && (0 < j ==> Le(ub[j - 1], b[j].vals[x].value))
              && (j < |b| - 1 ==> Le(b[j].vals[x].value, ub[j]))
    {
      if j == p && x < |d1[p].vals| {
        assert b[j].vals[x] == d1[p].vals[x];
      }
    }
  }

  /** `insert`'s `block.add`: adding an entry of a new key to D1 block bi, where its value is placed, keeps the invariant. */
  lemma AddInv(nodes: Arena, d0: seq<Blk>, d1: seq<Blk>, ub: seq<Dist>, k2n: map<int, nat>, content: map<int, Dist>,
               bi: nat, e: Entry, b2: Blk)
    requires Inv(nodes, d0, d1, ub, k2n, content) && e.key !in k2n && bi < |d1| && Placed(ub, bi, e.value)
    requires BlkOk(nodes, d1[bi])
    requires Wf(Appended(nodes, d1[bi].tail, e), b2.head, b2.tail, b2.size, d1[bi].order + [|nodes|], d1[bi].vals + [e])
    requires b2.order == d1[bi].order + [|nodes|] && b2.vals == d1[bi].vals + [e]
    ensures Inv(AddedTagged(nodes, d1[bi].tail, e, bi, false), d0, d1[bi := b2], ub, k2n[e.key := |nodes|], content[e.key := e.value])
  {
    var n2 := AddedTagged(nodes, d1[bi].tail, e, bi, false);
    TierAt(d0, d1, false, bi);
    AddBlk(nodes, d1[bi], e, bi, false, b2);
    AddCore(nodes, d0 + d1, k2n, content, |d0| + bi, e, n2, b2);
    UpdateAppend(d0, d1, bi, b2);
    assert forall q :: 0 <= q < |d0| ==> BlkOk(nodes, d0[q]) && Kept(nodes, n2, d0[q]) by {
      forall q | 0 <= q < |d0| ensures BlkOk(nodes, d0[q]) && Kept(nodes, n2, d0[q]) {
        assert (d0 + d1)[q] == d0[q];
      }
    }
    assert forall q :: 0 <= q < |d1| && q != bi ==> BlkOk(nodes, d1[q]) && Kept(nodes, n2, d1[q]) by {
      forall q | 0 <= q < |d1| && q != bi ensures BlkOk(nodes, d1[q]) && Kept(nodes, n2, d1[q]) {
        assert (d0 + d1)[|d0| + q] == d1[q];
      }
    }
    KeptTier(nodes, n2, d0, true, 0, |d0|);
    AddTags(nodes, n2, d1, bi, b2, false);
    AddBounded(d1, ub, bi, e, b2);
  }

  /** Block bi gains the new node, tagged with its tier and position; the other blocks keep theirs. */
  lemma AddTags(nodes: Arena, nodes2: Arena, blks: seq<Blk>, p: nat, b2: Blk, flag: bool)
    requires p < |blks| && Flags(nodes, blks, flag) && Indices(nodes, blks, 0, |blks|)
    requires forall q :: 0 <= q < |blks| && q != p ==> BlkOk(nodes, blks[q]) && Kept(nodes, nodes2, blks[q])
    requires b2.order == blks[p].order + [|nodes|] && SameData(nodes, nodes2) && |nodes2| == |nodes| + 1
    requires nodes2[|nodes|].blockIndex == p && nodes2[|nodes|].isD0 == flag
    ensures Flags(nodes2, blks[p := b2], flag) && Indices(nodes2, blks[p := b2], 0, |blks|)
  {
    var b := blks[p := b2];
    forall q | 0 <= q < |b| ensures FlagOk(nodes2, b[q], flag) && IndexOk(nodes2, b[q], q) {
      if q == p {
        forall x | 0 <= x < |b2.order| && b2.order[x] < |nodes2|
          ensures nodes2[b2.order[x]].isD0 == flag && nodes2[b2.order[x]].blockIndex == q
        {
          if x < |blks[p].order| {
            assert b2.order[x] == blks[p].order[x];
          }
        }
      } else {
        KeptTags(nodes, nodes2, blks[q], flag, q);
      }
    }
  }

  // ---------------------------------------------------------------------
  // Where a key lives

  /** A key that is not stored is held by no D0 block. */
  lemma AbsentKey(nodes: Arena, d0: seq<Blk>, d1: seq<Blk>, k2n: map<int, nat>, content: map<int, Dist>, key: int)
    requires Core(nodes, d0 + d1, k2n, content) && key !in content
    ensures !HasKey(d0, key)
  {
    var all := d0 + d1;
    forall p, i | 0 <= p < |d0| && 0 <= i < |d0[p].vals| ensures d0[p].vals[i].key != key {
      assert all[p] == d0[p] && BlkOk(nodes, all[p]);
      assert all[p].vals[i] == d0[p].vals[i];
    }
  }

  /**
   * A stored key that no D0 block holds: keyToNode maps it to a node with
   * `isD0 == false` holding the key and its value, linked in the D1 block
   * that the node's `blockIndex` names.
   */
  lemma LocatedInD1(nodes: Arena, d0: seq<Blk>, d1: seq<Blk>, ub: seq<Dist>, k2n: map<int, nat>, content: map<int, Dist>, key: int)
    requires Inv(nodes, d0, d1, ub, k2n, content) && key in content && !HasKey(d0, key)
    ensures key in k2n && k2n[key] < |nodes|
    ensures var id := k2n[key];
      && !nodes[id].isD0 && nodes[id].value == Entry(key, content[key])
      && 0 <= nodes[id].blockIndex < |d1| && id in d1[nodes[id].blockIndex].order
  {
    var isD0, bi, i := Locate(nodes, d0, d1, ub, k2n, content, key);
    assert Tier(d0, d1, true) == d0 && Tier(d0, d1, false) == d1;
    assert Tier(d0, d1, isD0)[bi].order[i] in Tier(d0, d1, isD0)[bi].order;
  }

  /** `D1 = [DoublyLinkedList()]` with `upperBounds = [B]` when D1 has no block left. */
  lemma ReseedInv(nodes: Arena, d0: seq<Blk>, ub: seq<Dist>, k2n: map<int, nat>, content: map<int, Dist>, bound: Dist)
    requires Inv(nodes, d0, [], ub, k2n, content)
    ensures Inv(nodes, d0, [EmptyBlk], [bound], k2n, content)
  {
    assert d0 + [] == d0;
    ReseedBlks(nodes, d0);
    ReseedCovered(d0, k2n, content);
    ReseedIndexed(d0, k2n, content);
  }

  lemma ReseedBlks(nodes: Arena, d0: seq<Blk>)
    requires forall p :: 0 <= p < |d0| ==> BlkOk(nodes, d0[p])
    requires Disjoint(d0)
    ensures forall p :: 0 <= p < |d0 + [EmptyBlk]| ==> BlkOk(nodes, (d0 + [EmptyBlk])[p])
    ensures Disjoint(d0 + [EmptyBlk])
  {
    var all := d0 + [EmptyBlk];
    forall p | 0 <= p < |all| ensures BlkOk(nodes, all[p]) {
      if p < |d0| {
        assert all[p] == d0[p];
      }
    }
    forall p, q, x | 0 <= p < |all| && 0 <= q < |all| && p != q && x in all[p].order ensures x !in all[q].order {
      if p < |d0| && q < |d0| {
        assert all[p] == d0[p] && all[q] == d0[q];
      }
    }
  }

  lemma ReseedCovered(d0: seq<Blk>, k2n: map<int, nat>, content: map<int, Dist>)
    requires Covered(d0, k2n, content)
    ensures Covered(d0 + [EmptyBlk], k2n, content)
  {
    var all := d0 + [EmptyBlk];
    forall p, i | 0 <= p < |all| && 0 <= i < |all[p].vals| && i < |all[p].order|
      ensures && all[p].vals[i].key in k2n && k2n[all[p].vals[i].key] == all[p].order[i]
              && all[p].vals[i].key in content && content[all[p].vals[i].key] == all[p].vals[i].value
    {
      assert all[p] == d0[p] && d0[p].vals[i] == all[p].vals[i];
    }
  }

  lemma ReseedIndexed(d0: seq<Blk>, k2n: map<int, nat>, content: map<int, Dist>)
    requires Indexed(d0, k2n, content)
    ensures Indexed(d0 + [EmptyBlk], k2n, content)
  {
    var all := d0 + [EmptyBlk];
    forall k | k in content ensures HasKey(all, k) {
      var p, i :| 0 <= p < |d0| && 0 <= i < |d0[p].vals| && d0[p].vals[i].key == k;
      assert all[p] == d0[p];
    }
  }
}
