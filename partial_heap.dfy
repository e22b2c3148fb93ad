/**
 * `PartialHeap(M, B)` of PartialHeap.kt: the block-based queue that BMSSP
 * pulls its next batch of at most M vertices from.
 *
 * The class keeps the fields of the Kotlin class: the tiers `D0` and `D1` of
 * blocks, `upperBounds` and `keyToNode`, with the arena `nodes` that holds
 * the nodes of all blocks (an id in it stands for a Kotlin `Node`
 * reference). The ghost map `Content` is the key -> value map they store.
 * `Valid()` is the invariant `Inv` of BlockQueues, and each step of an
 * operation is justified by the BlockQueues lemma for that step.
 */
module PartialHeaps {
  import opened Common
  import opened LinkedLists
  import opened BlockQueues
  import opened BlockBuilds
  import opened BlockSplits
  import opened EntrySorting
  import opened BlockBatches
  import opened BlockPulls

  /** Setting the tag of the next node of the walk extends the renumbered prefix by one. */
  lemma RetaggedStep(nodes: Arena, order: seq<nat>, k: nat, j: int)
    requires k < |order| && order[k] < |nodes|
    ensures var r := Retagged(nodes, order[..k], j);
      r[order[k] := r[order[k]].(blockIndex := j)] == Retagged(nodes, order[..k + 1], j)
  {
    var r := Retagged(nodes, order[..k], j);
    var r' := Retagged(nodes, order[..k + 1], j);
    assert order[..k + 1] == order[..k] + [order[k]];
    forall x | 0 <= x < |nodes| ensures r[order[k] := r[order[k]].(blockIndex := j)][x] == r'[x] {
      assert (x in order[..k + 1]) <==> (x in order[..k] || x == order[k]);
    }
  }

  /** The inner loop of `updateBlockIndices`: walks b's chain from `head`, setting `blockIndex = j` on each node. */
  method RetagBlock(nodes: Arena, b: Blk, j: int) returns (r: Arena)
    requires BlkOk(nodes, b)
    ensures r == Retagged(nodes, b.order, j)
  {
    r := nodes;
    var current := b.head;
    ghost var k := 0;
    while current != Nil
      invariant 0 <= k <= |b.order|
      invariant current == (if k < |b.order| then b.order[k] else Nil)
      invariant r == Retagged(nodes, b.order[..k], j)
      decreases |b.order| - k
    {
      assert nodes[b.order[k]].next == After(b.order, k);
      RetaggedStep(nodes, b.order, k, j);
      r := r[current := r[current].(blockIndex := j)];
      current := r[current].next;
      k := k + 1;
    }
    assert b.order[..k] == b.order;
  }

  /**
   * `updateBlockIndices(blocks, startIndex)` on the arena: walks the chain of
   * every block from startIndex on, setting each node's `blockIndex` to the
   * block's position.
   */
  method UpdateBlockIndices(nodes: Arena, blocks: seq<Blk>, start: nat) returns (r: Arena)
    requires start <= |blocks|
    requires forall j :: start <= j < |blocks| ==> BlkOk(nodes, blocks[j])
    ensures r == RetagTier(nodes, blocks, start)
  {
    r := nodes;
    for i := start to |blocks|
      invariant r == RetagUpTo(nodes, blocks, start, i)
    {
      RetagOnlyIndex(nodes, blocks, start, i);
      OnlyIndexBlk(nodes, r, blocks[i], true);
      r := RetagBlock(r, blocks[i], i);
    }
  }

  /**
   * The first half of `removeNode(node)`: the node's tags name its block,
   * which loses the node, and keyToNode loses its key.
   */
  method Unindex(nodes: Arena, d0: seq<Blk>, d1: seq<Blk>, ub: seq<Dist>, k2n: map<int, nat>, ghost content: map<int, Dist>,
                 ghost key: int, id: nat)
    returns (nodes2: Arena, d0': seq<Blk>, d1': seq<Blk>, k2n': map<int, nat>, isD0: bool, bi: nat, block2: Blk, ghost i: nat)
    requires Inv(nodes, d0, d1, ub, k2n, content) && key in k2n && k2n[key] == id
    ensures Inv(nodes2, d0', d1', ub, k2n', content - {key}) && k2n' == k2n - {key}
    ensures bi < |Tier(d0', d1', isD0)| && Tier(d0', d1', isD0)[bi] == block2
    ensures isD0 ==> |d0'| == |d0| && d1' == d1
    ensures !isD0 ==> d0' == d0 && |d1'| == |d1|
    ensures var t0 := Tier(d0, d1, isD0);
      && bi < |t0| && i < |t0[bi].vals| && t0[bi].vals[i] == Entry(key, content[key])
      && Tier(d0', d1', isD0) == t0[bi := block2]
      && block2.vals == Cut(t0[bi].vals, i) && block2.size == t0[bi].size - 1
  {
    ghost var isD0', bi';
    isD0', bi', i := Locate(nodes, d0, d1, ub, k2n, content, key);
    var node := nodes[id];
    isD0 := node.isD0;
    bi := node.blockIndex;
    var block := if isD0 then d0[bi] else d1[bi];
    var h, t, sz;
    nodes2, h, t, sz := ListRemove(nodes, block.head, block.tail, block.size, block.order, block.vals, id);
    block2 := Blk(h, t, sz, Cut(block.order, i), Cut(block.vals, i));
    Unlink(nodes, block, i, nodes2, block2);
    RemoveInv(nodes, d0, d1, ub, k2n, content, isD0, bi, i, nodes2, block2);
    if isD0 {
      d0', d1' := d0[bi := block2], d1;
    } else {
      d0', d1' := d0, d1[bi := block2];
    }
    k2n' := k2n - {node.value.key};
  }

  /**
   * `split(bi)` on values: the entries of D1 block bi, sorted by value;
   * the first half (`take(size / 2)`) goes to a new left block tagged bi,
   * the rest to a new right block tagged bi + 1, each recorded in
   * keyToNode; the two blocks take the old block's place with their
   * largest values as bounds. The later D1 blocks are not renumbered here.
   */
  method SplitBlock(nodes: Arena, d0: seq<Blk>, d1: seq<Blk>, ub: seq<Dist>, k2n: map<int, nat>, ghost content: map<int, Dist>,
                    bi: nat, bound: Dist)
    returns (nodes2: Arena, d1': seq<Blk>, ub': seq<Dist>, k2n': map<int, nat>)
    requires Inv(nodes, d0, d1, ub, k2n, content) && bi < |d1| && d1[bi].size >= 2
    ensures |d1'| == |d1| + 1 && d1' == SplitTier(d1, bi, d1'[bi], d1'[bi + 1])
    ensures ub' == SplitBounds(ub, bi, d1'[bi].vals, d1'[bi + 1].vals, bound)
    ensures Stale(nodes2, d0, d1', ub', k2n', content, |d0|, bi + 2)
    ensures forall q :: 0 <= q < |d0 + d1| ==> Kept(nodes, nodes2, (d0 + d1)[q])
    ensures multiset(d1'[bi].vals + d1'[bi + 1].vals) == multiset(d1[bi].vals)
    ensures |d1'[bi].vals| == d1[bi].size / 2 && ValueSorted(d1'[bi].vals + d1'[bi + 1].vals)
  {
    var elements := SortedEntries(nodes, d0, d1, k2n, content, bi);
    var medianIndex := |elements| / 2;
    var left, right := elements[..medianIndex], elements[medianIndex..];
    var leftBlock, rightBlock;
    nodes2, leftBlock, rightBlock, k2n' := BuildHalves(nodes, d0, d1, ub, k2n, content, bi, bound, elements);
    d1' := d1[..bi] + [leftBlock, rightBlock] + d1[bi + 1..];
    ub' := ub[..bi] + [MaxValueOr(left, ub[bi]), MaxValueOr(right, bound)] + ub[bi + 1..];
    assert d1'[bi] == leftBlock && d1'[bi + 1] == rightBlock;
    assert d1'[bi].vals + d1'[bi + 1].vals == elements;
  }

  /** `block.toMutableList()` and `sortBy { it.second }` for D1 block bi: its entries in order of value. */
  method SortedEntries(nodes: Arena, d0: seq<Blk>, d1: seq<Blk>, k2n: map<int, nat>, ghost content: map<int, Dist>, bi: nat)
    returns (elements: seq<Entry>)
    requires Core(nodes, d0 + d1, k2n, content) && bi < |d1|
    ensures |elements| == d1[bi].size == |d1[bi].vals| && multiset(elements) == multiset(d1[bi].vals)
    ensures ValueSorted(elements) && DistinctKeys(elements)
  {
    TierInArena(nodes, d0, d1, k2n, content);
    var block := d1[bi];
    assert block.size == |block.vals|;
    elements := Collect(nodes, block.head, block.tail, block.size, block.order, block.vals);
    elements := SortByValue(elements);
    TierAt(d0, d1, false, bi);
    BlockKeysDistinct(nodes, d0 + d1, k2n, content, |d0| + bi);
    PermutedKeys(block.vals, elements);
  }

  /**
   * The two `forEach` loops of `split`: the first half of the sorted
   * entries becomes a new list tagged bi, the rest one tagged bi + 1.
   */
  method BuildHalves(nodes: Arena, d0: seq<Blk>, d1: seq<Blk>, ub: seq<Dist>, k2n: map<int, nat>, ghost content: map<int, Dist>,
                     bi: nat, bound: Dist, elements: seq<Entry>)
    returns (nodes2: Arena, leftBlock: Blk, rightBlock: Blk, k2n': map<int, nat>)
    requires Inv(nodes, d0, d1, ub, k2n, content) && bi < |d1| && |d1[bi].vals| >= 2
    requires multiset(elements) == multiset(d1[bi].vals) && ValueSorted(elements) && DistinctKeys(elements)
    ensures leftBlock.vals == elements[..|elements| / 2] && rightBlock.vals == elements[|elements| / 2..]
    ensures Stale(nodes2, d0, SplitTier(d1, bi, leftBlock, rightBlock), SplitBounds(ub, bi, leftBlock.vals, rightBlock.vals, bound),
                  k2n', content, |d0|, bi + 2)
    ensures forall q :: 0 <= q < |d0 + d1| ==> Kept(nodes, nodes2, (d0 + d1)[q])
  {
    var medianIndex := |elements| / 2;
    var left, right := elements[..medianIndex], elements[medianIndex..];
    var nodes1, k2n1;
    nodes1, leftBlock, k2n1 := FillBlock(nodes, k2n, left, bi, false);
    nodes2, rightBlock, k2n' := FillBlock(nodes1, k2n1, right, bi + 1, false);
    SplitInv(nodes, nodes1, nodes2, d0, d1, ub, k2n, k2n1, k2n', content, bi, bound, elements, leftBlock, rightBlock);
  }

  /**
   * `block.add(pair)` on D1 block bi, with the node tagged (bi, D1) and
   * `keyToNode[key] = node`, for a key that is not stored and a value that
   * fits the block's bounds.
   */
  method AddToD1(nodes: Arena, d0: seq<Blk>, d1: seq<Blk>, ub: seq<Dist>, k2n: map<int, nat>, ghost content: map<int, Dist>,
                 bi: nat, e: Entry)
    returns (nodes2: Arena, d1': seq<Blk>, k2n': map<int, nat>)
    requires Inv(nodes, d0, d1, ub, k2n, content) && e.key !in content && Placed(ub, bi, e.value)
    ensures Inv(nodes2, d0, d1', ub, k2n', content[e.key := e.value])
    ensures bi < |d1| && |d1'| == |d1| && d1'[bi].vals == d1[bi].vals + [e] && d1'[bi].size == d1[bi].size + 1
    ensures forall j :: 0 <= j < |d1| && j != bi ==> d1'[j] == d1[j]
  {
    TierInArena(nodes, d0, d1, k2n, content);
    var block := d1[bi];
    var n1, h, t, sz, id := ListAdd(nodes, block.head, block.tail, block.size, block.order, block.vals, e);
    var b2 := Blk(h, t, sz, block.order + [id], block.vals + [e]);
    AddInv(nodes, d0, d1, ub, k2n, content, bi, e, b2);
    nodes2 := n1[id := n1[id].(blockIndex := bi, isD0 := false)];
    d1' := d1[bi := b2];
    k2n' := k2n[e.key := id];
  }

  /** `sortedBy { it.second }` then `createBlocks` on the kept pairs. */
  method SortedBlocks(nodes: Arena, k2n: map<int, nat>, list: seq<Entry>, M: nat)
    returns (sorted: seq<Entry>, nodes2: Arena, blocks: seq<Blk>, k2n2: map<int, nat>)
    requires M >= 1 && DistinctKeys(list)
    ensures |sorted| == |list| && multiset(sorted) == multiset(list) && ValueSorted(sorted) && DistinctKeys(sorted)
    ensures Built(nodes, nodes2, blocks, true) && Recorded(k2n, k2n2, blocks) && Flat(blocks) == sorted
    ensures |blocks| >= 1 && forall j :: 0 <= j < |blocks| ==> blocks[j].size <= M && (list != [] ==> blocks[j].size > 0)
    ensures list != [] ==> SortedLayout(blocks, list, M)
  {
    sorted := SortByValue(list);
    PermutedKeys(list, sorted);
    nodes2, blocks, k2n2 := CreateBlocks(nodes, k2n, sorted, M);
  }

  /**
   * The end of `batchPrepend`: the kept pairs, sorted by value, become
   * blocks of at most M entries in front of D0, and `updateBlockIndices(D0,
   * 0)` renumbers D0.
   */
  method PrependBatch(nodes: Arena, d0: seq<Blk>, d1: seq<Blk>, ub: seq<Dist>, k2n: map<int, nat>, ghost content: map<int, Dist>,
                      list: seq<Entry>, ghost added: map<int, Dist>, M: nat)
    returns (nodes2: Arena, d0': seq<Blk>, k2n': map<int, nat>)
    requires Inv(nodes, d0, d1, ub, k2n, content) && M >= 1 && Pending(list, added, content)
    ensures Inv(nodes2, d0', d1, ub, k2n', content + added)
    ensures |d0'| > |d0| && d0'[|d0'| - |d0|..] == d0
    ensures forall j :: 0 <= j < |d0'| - |d0| ==> d0'[j].size <= M && (list != [] ==> d0'[j].size > 0)
    ensures list != [] ==> SortedLayout(d0'[..|d0'| - |d0|], list, M)
  {
    var sorted, n1, blocks, k1 := SortedBlocks(nodes, k2n, list, M);
    PrependFacts(list, sorted, added, content, blocks);
    PrependInv(nodes, n1, d0, d1, ub, k2n, k1, content, content + added, blocks);
    d0' := blocks + d0;
    assert d0'[|d0'| - |d0|..] == d0 && d0'[..|d0'| - |d0|] == blocks;
    TierInArena(n1, d0', d1, k1, content + added);
    nodes2 := UpdateBlockIndices(n1, d0', 0);
    RetagInv0(n1, d0', d1, ub, k1, content + added, 0);
    k2n' := k1;
  }

  /**
   * The two loops of `pull` that gather entries: whole blocks from the
   * front of D0, then of D1, each walked as `toMutableList()`, while fewer
   * than M entries are gathered. The result is the entries of the first c0
   * blocks of D0 and the first c1 of D1; fewer than M only when every block
   * was gathered, and each gathered block was taken while fewer than M
   * entries were gathered.
   */
  method Gather(nodes: Arena, d0: seq<Blk>, d1: seq<Blk>, k2n: map<int, nat>, ghost content: map<int, Dist>, M: nat)
    returns (collected: seq<Entry>, c0: nat, c1: nat)
    requires Core(nodes, d0 + d1, k2n, content)
    ensures c0 <= |d0| && c1 <= |d1| && collected == Flat(Front(d0, d1, c0, c1))
    ensures |collected| < M ==> c0 == |d0| && c1 == |d1|
    ensures c1 > 0 ==> c0 == |d0| && |Flat(Front(d0, d1, c0, c1 - 1))| < M
    ensures c1 == 0 && c0 > 0 ==> |Flat(Front(d0, d1, c0 - 1, 0))| < M
  {
    TierInArena(nodes, d0, d1, k2n, content);
    collected, c0 := [], 0;
    while |collected| < M && c0 < |d0|
      invariant c0 <= |d0| && collected == Flat(Front(d0, d1, c0, 0))
      invariant c0 > 0 ==> |Flat(Front(d0, d1, c0 - 1, 0))| < M
    {
      var b := d0[c0];
      var part := Collect(nodes, b.head, b.tail, b.size, b.order, b.vals);
      FrontSnoc0(d0, d1, c0);
      collected := collected + part;
      c0 := c0 + 1;
    }
    c1 := 0;
    while |collected| < M && c1 < |d1|
      invariant c1 <= |d1| && collected == Flat(Front(d0, d1, c0, c1))
      invariant (c1 > 0 || |collected| < M) ==> c0 == |d0|
      invariant c1 > 0 ==> |Flat(Front(d0, d1, c0, c1 - 1))| < M
    {
      var b := d1[c1];
      var part := Collect(nodes, b.head, b.tail, b.size, b.order, b.vals);
      FrontSnoc1(d0, d1, c0, c1);
      collected := collected + part;
      c1 := c1 + 1;
    }
  }

  /** `collected.forEach { keyToNode.remove(it.first) }`: keyToNode without the gathered keys. */
  method Unmap(k2n: map<int, nat>, es: seq<Entry>) returns (r: map<int, nat>)
    ensures r == k2n - KeySet(es)
  {
    r := k2n;
    for i := 0 to |es|
      invariant r == k2n - KeySet(es[..i])
    {
      KeySetSnoc(es, i);
      MinusOneMore(k2n, KeySet(es[..i]), es[i].key);
      r := r - {es[i].key};
    }
    assert es[..|es|] == es;
  }

  /**
   * The fast path of `pull` as written: the first c0 blocks of D0 and the
   * first c1 of D1 with their bounds are dropped (`repeat(n) { removeAt(0)
   * }`) and keyToNode loses the gathered keys; the blocks left keep the
   * positions their nodes had.
   */
  method DropBlocks(nodes: Arena, d0: seq<Blk>, d1: seq<Blk>, ub: seq<Dist>, k2n: map<int, nat>, ghost content: map<int, Dist>,
                    collected: seq<Entry>, c0: nat, c1: nat)
    returns (d0': seq<Blk>, d1': seq<Blk>, ub': seq<Dist>, k2n': map<int, nat>)
    requires Inv(nodes, d0, d1, ub, k2n, content) && c0 <= |d0| && c1 <= |d1| && collected == Flat(Front(d0, d1, c0, c1))
    ensures d0' == d0[c0..] && d1' == d1[c1..] && ub' == ub[c1..]
    ensures k2n' == k2n - KeySet(collected)
    ensures Stale(nodes, d0', d1', ub', k2n', content - KeySet(collected), 0, 0)
  {
    d0', d1', ub' := d0, d1, ub;
    for i := 0 to c0
      invariant d0' == d0[i..]
    {
      d0' := d0'[1..];
    }
    for i := 0 to c1
      invariant d1' == d1[i..] && ub' == ub[i..]
    {
      d1', ub' := d1'[1..], ub'[1..];
    }
    k2n' := Unmap(k2n, collected);
    FrontDropStale(nodes, d0, d1, ub, k2n, content, c0, c1);
  }

  /**
   * The fast path of `pull` after gathering, with the renumbering the
   * Kotlin code leaves out: after DropBlocks, `updateBlockIndices(D1, 0)`
   * and `updateBlockIndices(D0, 0)` restore the invariant for what is left.
   */
  method DropFront(nodes: Arena, d0: seq<Blk>, d1: seq<Blk>, ub: seq<Dist>, k2n: map<int, nat>, ghost content: map<int, Dist>,
                   collected: seq<Entry>, c0: nat, c1: nat)
    returns (nodes2: Arena, d0': seq<Blk>, d1': seq<Blk>, ub': seq<Dist>, k2n': map<int, nat>)
    requires Inv(nodes, d0, d1, ub, k2n, content) && c0 <= |d0| && c1 <= |d1| && collected == Flat(Front(d0, d1, c0, c1))
    ensures d0' == d0[c0..] && d1' == d1[c1..] && ub' == ub[c1..]
    ensures k2n' == k2n - KeySet(collected)
    ensures Inv(nodes2, d0', d1', ub', k2n', content - KeySet(collected))
  {
    d0', d1', ub', k2n' := DropBlocks(nodes, d0, d1, ub, k2n, content, collected, c0, c1);
    ghost var c2 := content - KeySet(collected);
    TierInArena(nodes, d0', d1', k2n', c2);
    var n1 := UpdateBlockIndices(nodes, d1', 0);
    RetagStale1(nodes, d0', d1', ub', k2n', c2, 0, 0);
    TierInArena(n1, d0', d1', k2n', c2);
    nodes2 := UpdateBlockIndices(n1, d0', 0);
    RetagInv0(n1, d0', d1', ub', k2n', c2, 0);
  }

  /** Removing the keys of es one at a time: the next key is still there, and one more key is gone. */
  lemma RemoveStep(c: map<int, Dist>, es: seq<Entry>, i: nat)
    requires DistinctKeys(es) && i < |es| && forall e :: e in es ==> e.key in c
    ensures es[i].key in c - KeySet(es[..i])
    ensures c - KeySet(es[..i + 1]) == (c - KeySet(es[..i])) - {es[i].key}
  {
    KeySetSnoc(es, i);
    KeyNotBefore(es, i);
    assert es[i] in es;
    MinusOneMore(c, KeySet(es[..i]), es[i].key);
  }

  lemma MinusOneMore<V>(c: map<int, V>, A: set<int>, k: int)
    ensures c - (A + {k}) == (c - A) - {k}
  {
  }

  class PartialHeap {
    const M: nat
    const B: Dist
    /** Every `Node` the queue has created. */
    var nodes: Arena
    var D0: seq<Blk>
    var D1: seq<Blk>
    var upperBounds: seq<Dist>
    var keyToNode: map<int, nat>
    /** The stored key -> value map. */
    ghost var Content: map<int, Dist>

    ghost predicate Valid()
      reads this
    {
      M >= 1 && Inv(nodes, D0, D1, upperBounds, keyToNode, Content)
    }

    /** `PartialHeap(M, B)`: no entries, D1 one empty block bounded by B. */
    constructor (M: nat, B: Dist)
      requires M >= 1
      ensures Valid() && this.M == M && this.B == B
      ensures Content == map[] && D0 == [] && D1 == [EmptyBlk] && upperBounds == [B]
    {
      this.M := M;
      this.B := B;
      nodes := [];
      D0 := [];
      D1 := [EmptyBlk];
      upperBounds := [B];
      keyToNode := map[];
      Content := map[];
      new;
      EmptyInv(B);
    }

    /** `isEmpty()`: every block of both tiers is empty, which holds exactly when no key is stored. */
    function IsEmpty(): (r: bool)
      reads this
      requires Valid()
      ensures r <==> Content == map[]
    {
      EmptyBlocks(nodes, D0, D1, keyToNode, Content);
      (forall i :: 0 <= i < |D0| ==> D0[i].size == 0) && (forall i :: 0 <= i < |D1| ==> D1[i].size == 0)
    }

    /**
     * `removeNode(node)` for the node that keyToNode maps key to: the node's
     * tags name its block, which loses the node; an emptied block is dropped
     * from its tier (with its bound in D1) and the later blocks renumbered.
     */
    method RemoveNode(ghost key: int, id: nat) returns (ghost isD0: bool, ghost bi: nat, ghost i: nat)
      requires Valid() && key in keyToNode && keyToNode[key] == id
      modifies this
      ensures Valid()
      ensures Content == old(Content) - {key} && keyToNode == old(keyToNode) - {key}
      ensures key in old(Content) && TierRemoved(old(D0), old(D1), old(upperBounds), D0, D1, upperBounds, isD0, bi, i, Entry(key, old(Content)[key]))
    {
      ghost var d0, d1 := D0, D1;
      var isD0', blockIndex, block2;
      nodes, D0, D1, keyToNode, isD0', blockIndex, block2, i := Unindex(nodes, D0, D1, upperBounds, keyToNode, Content, key, id);
      isD0, bi := isD0', blockIndex;
      Content := Content - {key};
      ghost var t1 := Tier(D0, D1, isD0);
      if block2.size == 0 {
        DropEmptyBlock(isD0', blockIndex);
        assert Tier(D0, D1, isD0) == t1[..bi] + t1[bi + 1..];
        assert t1[..bi] + t1[bi + 1..] == Tier(d0, d1, isD0)[..bi] + Tier(d0, d1, isD0)[bi + 1..];
      }
    }

    /** `D0.removeAt(bi)`, or `D1.removeAt(bi)` with `upperBounds.removeAt(bi)`, for an empty block, then the renumbering. */
    method DropEmptyBlock(isD0: bool, bi: nat)
      requires Valid() && bi < |Tier(D0, D1, isD0)| && Tier(D0, D1, isD0)[bi].size == 0
      modifies this
      ensures Valid()
      ensures Content == old(Content) && keyToNode == old(keyToNode)
      ensures isD0 ==> D0 == old(D0[..bi] + D0[bi + 1..]) && D1 == old(D1) && upperBounds == old(upperBounds)
      ensures !isD0 ==> D0 == old(D0) && D1 == old(D1[..bi] + D1[bi + 1..])
                        && upperBounds == old(upperBounds[..bi] + upperBounds[bi + 1..])
    {
      var n, d0, d1, ub := nodes, D0, D1, upperBounds;
      ghost var k2n, c := keyToNode, Content;
      if isD0 {
        DropInv0(n, d0, d1, ub, k2n, c, bi);
        d0 := d0[..bi] + d0[bi + 1..];
        TierInArena(n, d0, d1, k2n, c);
        n := UpdateBlockIndices(n, d0, bi);
        RetagInv0(nodes, d0, d1, ub, k2n, c, bi);
      } else {
        DropInv1(n, d0, d1, ub, k2n, c, bi);
        d1 := d1[..bi] + d1[bi + 1..];
        ub := ub[..bi] + ub[bi + 1..];
        TierInArena(n, d0, d1, k2n, c);
        n := UpdateBlockIndices(n, d1, bi);
        RetagInv1(nodes, d0, d1, ub, k2n, c, bi);
      }
      nodes, D0, D1, upperBounds := n, d0, d1, ub;
    }
  
    /**
     * `binarySearchUpperBounds(value)`: the first D1 block whose bound is at
     * least value, or the last block when there is none; -1 when D1 has no
     * block.
     */
    method BinarySearchUpperBounds(value: Dist) returns (r: int)
      requires SortedBounds(upperBounds)
      ensures |upperBounds| == 0 ==> r == -1
      ensures |upperBounds| > 0 ==> 0 <= r < |upperBounds|
      ensures forall i :: 0 <= i < r ==> Lt(upperBounds[i], value)
      ensures 0 <= r < |upperBounds| - 1 ==> Le(value, upperBounds[r])
    {
      var low, high := 0, |upperBounds| - 1;
      while low <= high
        invariant 0 <= low <= high + 1 <= |upperBounds|
        invariant forall i :: 0 <= i < low ==> Lt(upperBounds[i], value)
        invariant forall i :: high < i < |upperBounds| ==> Le(value, upperBounds[i])
        decreases high - low
      {
        var mid := (low + high) / 2;
        if Le(value, upperBounds[mid]) {
          high := mid - 1;
        } else {
          low := mid + 1;
        }
      }
      r := if low <= |upperBounds| - 1 then low else |upperBounds| - 1;
    }

    /**
     * `split(bi)` followed by `updateBlockIndices(D1, bi + 2)`: the
     * overfull block's smaller half stays at bi, the rest follows at
     * bi + 1, and the later blocks are renumbered.
     */
    method Split(bi: nat)
      requires Valid() && bi < |D1| && D1[bi].size > M
      modifies this
      ensures Valid() && Content == old(Content) && D0 == old(D0)
      ensures |D1| == old(|D1|) + 1 && D1 == SplitTier(old(D1), bi, D1[bi], D1[bi + 1])
      ensures upperBounds == SplitBounds(old(upperBounds), bi, D1[bi].vals, D1[bi + 1].vals, B)
      ensures multiset(D1[bi].vals + D1[bi + 1].vals) == multiset(old(D1[bi].vals))
      ensures |D1[bi].vals| == old(D1[bi].size) / 2 && ValueSorted(D1[bi].vals + D1[bi + 1].vals)
    {
      ghost var d10, c := D1, Content;
      var n, d1, ub, k2n := SplitBlock(nodes, D0, D1, upperBounds, keyToNode, Content, bi, B);
      TierInArena(n, D0, d1, k2n, c);
      var n2 := UpdateBlockIndices(n, d1, bi + 2);
      RetagInv1(n, D0, d1, ub, k2n, c, bi + 2);
      nodes, D1, upperBounds, keyToNode := n2, d1, ub, k2n;
    }

    /**
     * `split(bi)` as written: without renumbering, a non-empty D1 block
     * after the split one still carries its old position, so the state
     * breaks the invariant.
     */
    method SplitAsWritten(bi: nat)
      requires Valid() && bi < |D1| && D1[bi].size > M
      modifies this
      ensures Stale(nodes, D0, D1, upperBounds, keyToNode, Content, |D0|, bi + 2)
      ensures Content == old(Content) && |D1| == old(|D1|) + 1
      ensures old(bi + 1 < |D1| && D1[bi + 1].size > 0) ==> !Valid()
    {
      ghost var n0, d0, d10, ub0, k2n0 := nodes, D0, D1, upperBounds, keyToNode;
      var n, d1, ub, k2n := SplitBlock(nodes, D0, D1, upperBounds, keyToNode, Content, bi, B);
      if bi + 1 < |D1| && D1[bi + 1].size > 0 {
        SplitBreaksInv(n0, n, d0, d10, ub0, k2n0, Content, bi, d1[bi], d1[bi + 1], ub, k2n, Content);
      }
      nodes, D1, upperBounds, keyToNode := n, d1, ub, k2n;
    }

    /**
     * `insert(key, value)`: nothing changes when the key is stored with a
     * value at most the new one; otherwise the stored entry is removed, the
     * pair goes to the first D1 block whose bound is at least value, and a
     * block that grows past M entries is split. When removals have left D1
     * without a block, D1 and upperBounds start again as in the
     * constructor.
     */
    method Insert(key: int, value: Dist)
      requires Valid()
      modifies this
      ensures Valid()
      ensures key in old(Content) && Le(old(Content[key]), value) ==>
        && Content == old(Content) && nodes == old(nodes) && keyToNode == old(keyToNode)
        && D0 == old(D0) && D1 == old(D1) && upperBounds == old(upperBounds)
      ensures !(key in old(Content) && Le(old(Content[key]), value)) ==>
        && Content == old(Content)[key := value]
        && key in keyToNode && keyToNode[key] < |nodes|
        && var node := nodes[keyToNode[key]];
           && node.value == Entry(key, value) && !node.isD0
           && 0 <= node.blockIndex < |D1| && keyToNode[key] in D1[node.blockIndex].order
    {
      ghost var c0 := Content;
      if key in keyToNode {
        var id := keyToNode[key];
        ghost var isD0, bi, i := Locate(nodes, D0, D1, upperBounds, keyToNode, Content, key);
        if Le(nodes[id].value.value, value) {
          return;
        }
        ghost var isD0', bi', i' := RemoveNode(key, id);
      }
      ghost var c1 := Content;
      assert c1 == c0 - {key} || c1 == c0;
      assert c1[key := value] == c0[key := value];
      Place(key, value);
    }

    /** The part of `insert` after the stored entry, if any, is gone: a pair whose key is not stored goes into D1. */
    method Place(key: int, value: Dist)
      requires Valid() && key !in Content
      modifies this
      ensures Valid() && Content == old(Content)[key := value]
      ensures key in keyToNode && keyToNode[key] < |nodes|
      ensures var node := nodes[keyToNode[key]];
        && node.value == Entry(key, value) && !node.isD0
        && 0 <= node.blockIndex < |D1| && keyToNode[key] in D1[node.blockIndex].order
    {
      ghost var d0 := D0;
      AbsentKey(nodes, D0, D1, keyToNode, Content, key);
      if |D1| == 0 {
        ReseedInv(nodes, D0, upperBounds, keyToNode, Content, B);
        D1, upperBounds := [EmptyBlk], [B];
      }
      var blockIndex := BinarySearchUpperBounds(value);
      var n, d1, k2n := AddToD1(nodes, D0, D1, upperBounds, keyToNode, Content, blockIndex, Entry(key, value));
      nodes, D1, keyToNode, Content := n, d1, k2n, Content[key := value];
      if D1[blockIndex].size > M {
        Split(blockIndex);
      }
      assert D0 == d0;
      LocatedInD1(nodes, D0, D1, upperBounds, keyToNode, Content, key);
    }

    /**
     * One pair of the filter of `batchPrepend`, which also compares the pair
     * with the pairs it has kept so far: a smaller value for a kept key
     * replaces the kept pair; otherwise a stored key with a smaller value is
     * removed from the queue and the pair kept, and a key neither kept nor
     * stored is kept.
     */
    method FilterPair(pair: Entry, list: seq<Entry>, ghost added: map<int, Dist>)
      returns (list': seq<Entry>, ghost added': map<int, Dist>)
      requires Valid() && Pending(list, added, Content)
      modifies this
      ensures Valid() && Pending(list', added', Content)
      ensures Content + added' == MergeOne(old(Content) + added, pair)
      ensures LowerStep(old(Content) + added, added, Content + added', added', pair)
    {
      KeyStored(nodes, D0, D1, upperBounds, keyToNode, Content, pair.key);
      ghost var c := Content;
      var p := FindKey(list, pair.key);
      if p >= 0 {
        if Lt(pair.value, list[p].value) {
          PendingReplace(list, added, Content, p, pair);
          list', added' := list[p := pair], added[pair.key := pair.value];
        } else {
          list', added' := list, added;
        }
      } else if pair.key in keyToNode {
        list', added' := FilterStored(pair, list, added);
      } else {
        PendingAppend(list, added, Content, pair);
        list', added' := list + [pair], added[pair.key := pair.value];
      }
      MergeOutcome(c, added, Content, added', pair);
    }

    /** The stored-key case of FilterPair: a smaller value removes the stored node and keeps the pair. */
    method FilterStored(pair: Entry, list: seq<Entry>, ghost added: map<int, Dist>)
      returns (list': seq<Entry>, ghost added': map<int, Dist>)
      requires Valid() && Pending(list, added, Content) && !KeyIn(list, pair.key) && pair.key in keyToNode
      modifies this
      ensures Valid() && Pending(list', added', Content) && pair.key in old(Content)
      ensures || (list' == list && added' == added && Content == old(Content) && Le(old(Content)[pair.key], pair.value))
              || (list' == list + [pair] && added' == added[pair.key := pair.value]
                  && Content == old(Content) - {pair.key} && Lt(pair.value, old(Content)[pair.key]))
    {
      var id := keyToNode[pair.key];
      ghost var isD0, bi, i := Locate(nodes, D0, D1, upperBounds, keyToNode, Content, pair.key);
      if Lt(pair.value, nodes[id].value.value) {
        ghost var isD0', bi', i' := RemoveNode(pair.key, id);
        PendingSub(list, added, old(Content), Content);
        PendingAppend(list, added, Content, pair);
        list', added' := list + [pair], added[pair.key := pair.value];
      } else {
        list', added' := list, added;
      }
    }

    /**
     * `batchPrepend(L)`, for the pairs of L in any order: every key of L
     * ends up with the least of its stored value and the values L gives it,
     * and the pairs that lowered or added a value go, in blocks of at most M
     * entries, in front of D0.
     */
    method BatchPrepend(L: seq<Entry>) returns (ghost kept: seq<Entry>, ghost nf: nat)
      requires Valid()
      modifies this
      ensures Valid() && MinMerge(old(Content), L, Content)
      ensures DistinctKeys(kept) && forall e :: e in kept ==> e.key in Content && Content[e.key] == e.value
      ensures forall k :: KeyIn(kept, k) <==> k in Content && (k !in old(Content) || Content[k] != old(Content)[k])
      ensures nf <= |D0| && SortedLayout(D0[..nf], kept, M) && forall j :: 0 <= j < nf ==> 0 < D0[j].size <= M
    {
      ghost var c0 := Content;
      var list, added := FilterAll(L);
      PendingKept(list, added, Content, c0);
      kept := list;
      nf := PrependKept(list, added);
    }

    /** The loop of `batchPrepend` over L: each pair goes through FilterPair. */
    method FilterAll(L: seq<Entry>) returns (list: seq<Entry>, ghost added: map<int, Dist>)
      requires Valid()
      modifies this
      ensures Valid() && Pending(list, added, Content) && MinMerge(old(Content), L, Content + added)
      ensures ChangedKeys(old(Content), Content + added, added)
    {
      ghost var c0 := Content;
      list, added := [], map[];
      MergeNone(c0, L[..0]);
      assert Content + added == c0;
      for i := 0 to |L|
        invariant Valid() && Pending(list, added, Content)
        invariant MinMerge(c0, L[..i], Content + added) && ChangedKeys(c0, Content + added, added)
      {
        list, added := FilterNext(L, i, list, added, c0);
      }
      assert L[..|L|] == L;
    }

    /** The body of the loop of `batchPrepend`, for pair i of L. */
    method FilterNext(L: seq<Entry>, i: nat, list: seq<Entry>, ghost added: map<int, Dist>, ghost c0: map<int, Dist>)
      returns (list': seq<Entry>, ghost added': map<int, Dist>)
      requires Valid() && Pending(list, added, Content) && i < |L|
      requires MinMerge(c0, L[..i], Content + added) && ChangedKeys(c0, Content + added, added)
      modifies this
      ensures Valid() && Pending(list', added', Content)
      ensures MinMerge(c0, L[..i + 1], Content + added') && ChangedKeys(c0, Content + added', added')
    {
      ghost var r := Content + added;
      list', added' := FilterPair(L[i], list, added);
      FilterFacts(c0, L, i, r, added, Content + added', added');
    }

    /**
     * The end of `batchPrepend`: the kept pairs join the queue in front of
     * D0, sorted and cut into blocks as `createBlocks` cuts; nothing is
     * prepended when no pair was kept.
     */
    method PrependKept(list: seq<Entry>, ghost added: map<int, Dist>) returns (ghost nf: nat)
      requires Valid() && Pending(list, added, Content)
      modifies this
      ensures Valid() && Content == old(Content) + added
      ensures nf <= |D0| && SortedLayout(D0[..nf], list, M) && forall j :: 0 <= j < nf ==> 0 < D0[j].size <= M
    {
      if |list| == 0 {
        PendingEmpty(list, added, Content);
        assert Content + added == Content;
        nf := 0;
        assert Flat(D0[..0]) == [];
        return;
      }
      ghost var n0 := |D0|;
      var n, d0, k2n := PrependBatch(nodes, D0, D1, upperBounds, keyToNode, Content, list, added, M);
      nodes, D0, keyToNode, Content := n, d0, k2n, Content + added;
      nf := |D0| - n0;
    }

    /** `collected.take(M).forEach { removeNode(keyToNode[it.first]!!) }`: the keys of es leave the queue. */
    method RemoveKeys(es: seq<Entry>)
      requires Valid() && DistinctKeys(es) && forall e :: e in es ==> e.key in Content
      modifies this
      ensures Valid() && Content == old(Content) - KeySet(es)
    {
      ghost var c0 := Content;
      for i := 0 to |es|
        invariant Valid() && Content == c0 - KeySet(es[..i])
      {
        RemoveStep(c0, es, i);
        StoredIndexed(nodes, D0, D1, upperBounds, keyToNode, Content, es[i].key);
        ghost var isD0, bi, j := RemoveNode(es[i].key, keyToNode[es[i].key]);
      }
      assert es[..|es|] == es;
    }

    /**
     * The fast path of `pull`: the gathered blocks and their keys leave the
     * queue and the bound is B; when fewer than M entries were gathered,
     * which happens only once every block is gathered, the queue is left
     * empty.
     */
    method TakeFront(collected: seq<Entry>, c0: nat, c1: nat) returns (x: Dist, S: seq<int>)
      requires Valid() && c0 <= |D0| && c1 <= |D1| && collected == Flat(Front(D0, D1, c0, c1))
      requires |collected| < M ==> c0 == |D0| && c1 == |D1|
      modifies this
      ensures Valid() && x == B && S == Keys(collected) && Distinct(S) && Elems(S) == KeySet(collected)
      ensures Content == old(Content) - Elems(S)
      ensures D0 == old(D0[c0..]) && D1 == old(D1[c1..]) && upperBounds == old(upperBounds[c1..])
      ensures |collected| < M ==> Content == map[] && D0 == [] && D1 == [] && upperBounds == []
      ensures |S| == |collected| && (S == [] ==> old(Content) == map[])
    {
      FrontFacts(nodes, D0, D1, keyToNode, Content, c0, c1);
      KeysElems(collected);
      S, x := Keys(collected), B;
      if |collected| < M {
        AllRemoved(Content, Elems(S));
        assert D0[c0..] == [] && D1[c1..] == [] && upperBounds[c1..] == [];
        if S == [] {
          assert Content - Elems(S) == Content;
        }
      }
      var n, d0, d1, ub, k2n := DropFront(nodes, D0, D1, upperBounds, keyToNode, Content, collected, c0, c1);
      nodes, D0, D1, upperBounds, keyToNode, Content := n, d0, d1, ub, k2n, Content - Elems(S);
    }

    /**
     * The fast path of `pull` as written, without renumbering: when a
     * non-empty block stays behind a dropped one in its tier, its nodes keep
     * their old positions and the state breaks the invariant.
     */
    method TakeFrontAsWritten(collected: seq<Entry>, c0: nat, c1: nat)
      requires Valid() && c0 <= |D0| && c1 <= |D1| && collected == Flat(Front(D0, D1, c0, c1))
      modifies this
      ensures Stale(nodes, D0, D1, upperBounds, keyToNode, Content, 0, 0) && Content == old(Content) - KeySet(collected)
      ensures old((0 < c1 < |D1| && D1[c1].size > 0) || (0 < c0 < |D0| && D0[c0].size > 0)) ==> !Valid()
    {
      var d0, d1, ub, k2n := DropBlocks(nodes, D0, D1, upperBounds, keyToNode, Content, collected, c0, c1);
      if (0 < c1 < |D1| && D1[c1].size > 0) || (0 < c0 < |D0| && D0[c0].size > 0) {
        DropFrontBreaksInv(nodes, D0, D1, upperBounds, keyToNode, Content, c0, c1, k2n, Content - KeySet(collected));
      }
      D0, D1, upperBounds, keyToNode, Content := d0, d1, ub, k2n, Content - KeySet(collected);
    }

    /**
     * The slow path of `pull`: the gathered entries sorted by value; the
     * keys of the first M leave the queue, and the value of the next one is
     * the bound.
     */
    method TakeSmallest(collected: seq<Entry>) returns (x: Dist, S: seq<int>)
      requires Valid() && DistinctKeys(collected) && |collected| > M
      requires forall e :: e in collected ==> e.key in Content && Content[e.key] == e.value
      modifies this
      ensures Valid() && Distinct(S) && Content == old(Content) - Elems(S)
      ensures Elems(S) <= KeySet(collected) && |S| == M
      ensures forall k :: k in S ==> k in old(Content) && Le(old(Content)[k], x)
      ensures exists e :: e in collected && e.key !in S && e.value == x
      ensures forall e :: e in collected && e.key !in S ==> Le(x, e.value)
    {
      var sorted := SortByValue(collected);
      PermutedKeys(collected, sorted);
      SlowPathFacts(collected, sorted, M, Content);
      KeysElems(sorted[..M]);
      S := Keys(sorted[..M]);
      x := sorted[M].value;
      RemoveKeys(sorted[..M]);
    }

    /**
     * `pull()`: gathers whole blocks from the front of D0, then of D1, while
     * fewer than M entries are gathered. With at most M entries, they all
     * leave the queue with their blocks and the bound is B; with fewer than
     * M the queue is left empty. With more, the M smallest by value leave
     * the queue and the bound is the next value: at least theirs and at
     * most that of every other gathered entry. The keys come back in the
     * order gathered (or sorted), without repetition, and some key comes
     * back unless the queue was empty.
     */
    method Pull() returns (x: Dist, S: seq<int>, ghost gathered: seq<Entry>)
      requires Valid()
      modifies this
      ensures Valid() && Distinct(S)
      ensures DistinctKeys(gathered) && forall e :: e in gathered ==> e.key in old(Content) && old(Content)[e.key] == e.value
      ensures Elems(S) <= KeySet(gathered) && |S| <= M && Content == old(Content) - Elems(S)
      ensures S == [] ==> old(Content) == map[]
      ensures |gathered| <= M ==> x == B && Elems(S) == KeySet(gathered)
      ensures |gathered| < M ==> Content == map[] && D0 == [] && D1 == [] && upperBounds == []
      ensures |gathered| > M ==>
        && |S| == M
        && (forall k :: k in S ==> Le(old(Content)[k], x))
        && (exists e :: e in gathered && e.key !in S && e.value == x)
        && (forall e :: e in gathered && e.key !in S ==> Le(x, e.value))
    {
      var collected, c0, c1 := Gather(nodes, D0, D1, keyToNode, Content, M);
      FrontFacts(nodes, D0, D1, keyToNode, Content, c0, c1);
      gathered := collected;
      if |collected| <= M {
        x, S := TakeFront(collected, c0, c1);
      } else {
        x, S := TakeSmallest(collected);
      }
    }
  }

  /**
   * `insert` after a `pull` that gathered fewer than M entries, as
   * written: that pull drops every block of D1 with its bound, so
   * `binarySearchUpperBounds` returns -1 and `D1[blockIndex]` is out of
   * range. Here from a new queue: the pull gathers D1's one empty block.
   */
  method SearchAfterDrainingPull(B: Dist, value: Dist) returns (h: PartialHeap, r: int)
    ensures |h.D1| == 0 && |h.upperBounds| == 0 && r == -1
  {
    h := new PartialHeap(1, B);
    var x, S, gathered := h.Pull();
    StoredAtMost(gathered, map[]);
    r := h.BinarySearchUpperBounds(value);
  }
}
