/**
 * Building new blocks for PartialHeap.kt: the `forEach { node = block.add(it);
 * tags; keyToNode[it.first] = node }` loops of `split` and `createBlocks`,
 * and the lemmas that carry the queue's invariant across putting such
 * blocks in place of old ones.
 *
 * New nodes are appended to the arena, so a built block holds the nodes
 * lo, lo + 1, ... of the new arena and every old node is unchanged.
 */
module BlockBuilds {
  import opened Common
  import opened LinkedLists
  import opened BlockQueues

  /** nodes2 keeps every node of nodes and may add more after them. */
  ghost predicate Extends(nodes: Arena, nodes2: Arena) {
    |nodes| <= |nodes2| && forall x :: 0 <= x < |nodes| ==> nodes2[x] == nodes[x]
  }

  /** Block b is a list of the entries es on the nodes lo, lo + 1, ... of nodes2, each with `isD0 == flag`. */
  ghost predicate FreshBlk(nodes2: Arena, b: Blk, es: seq<Entry>, lo: nat, flag: bool) {
    && BlkOk(nodes2, b) && b.vals == es && |b.order| == |es|
    && (forall i :: 0 <= i < |es| ==> b.order[i] == lo + i)
    && FlagOk(nodes2, b, flag)
  }

  /** Some entry of es has key k. */
  ghost predicate KeyIn(es: seq<Entry>, k: int) {
    exists i :: 0 <= i < |es| && es[i].key == k
  }

  /**
   * keyToNode after `keyToNode[es[i].first] = node` for the nodes lo, lo + 1,
   * ... made for es: the keys of es name those nodes, the other keys are
   * unchanged.
   */
  ghost predicate Repointed(k2n: map<int, nat>, k2n2: map<int, nat>, es: seq<Entry>, lo: nat) {
    && (forall i :: 0 <= i < |es| ==> es[i].key in k2n2 && k2n2[es[i].key] == lo + i)
    && (forall k :: k in k2n2 ==> k in k2n || KeyIn(es, k))
    && (forall k :: k in k2n && !KeyIn(es, k) ==> k in k2n2 && k2n2[k] == k2n[k])
  }

  /** One more `add` with its tags extends a fresh block by the next entry. */
  lemma FreshStep(nodes: Arena, nodes2: Arena, b: Blk, es: seq<Entry>, i: nat, bi: int, flag: bool, b2: Blk)
    requires i < |es| && Extends(nodes, nodes2) && |nodes2| == |nodes| + i
    requires FreshBlk(nodes2, b, es[..i], |nodes|, flag) && IndexOk(nodes2, b, bi)
    requires Wf(Appended(nodes2, b.tail, es[i]), b2.head, b2.tail, b2.size, b.order + [|nodes2|], b.vals + [es[i]])
    requires b2.order == b.order + [|nodes2|] && b2.vals == b.vals + [es[i]]
    ensures var n3 := AddedTagged(nodes2, b.tail, es[i], bi, flag);
      Extends(nodes, n3) && |n3| == |nodes| + i + 1 && FreshBlk(n3, b2, es[..i + 1], |nodes|, flag) && IndexOk(n3, b2, bi)
  {
    var n3 := AddedTagged(nodes2, b.tail, es[i], bi, flag);
    AddBlk(nodes2, b, es[i], bi, flag, b2);
    assert es[..i + 1] == es[..i] + [es[i]];
    forall x | 0 <= x < |nodes| ensures n3[x] == nodes[x] {
      assert x !in b.order;
    }
    FreshTags(nodes2, n3, b, b2, bi, flag);
  }

  /** The old nodes of the block keep their tags and the new one gets (bi, flag). */
  lemma FreshTags(nodes2: Arena, n3: Arena, b: Blk, b2: Blk, bi: int, flag: bool)
    requires FlagOk(nodes2, b, flag) && IndexOk(nodes2, b, bi) && SameData(nodes2, n3) && |n3| == |nodes2| + 1
    requires forall j :: 0 <= j < |b.order| ==> b.order[j] < |nodes2|
    requires b2.order == b.order + [|nodes2|] && n3[|nodes2|].blockIndex == bi && n3[|nodes2|].isD0 == flag
    ensures FlagOk(n3, b2, flag) && IndexOk(n3, b2, bi)
  {
    forall j | 0 <= j < |b2.order| && b2.order[j] < |n3|
      ensures n3[b2.order[j]].isD0 == flag && n3[b2.order[j]].blockIndex == bi
    {
      if j < |b.order| {
        assert b2.order[j] == b.order[j];
      }
    }
  }

  /** Recording the next entry's node in keyToNode extends the repointed prefix, as the keys are distinct. */
  lemma RepointStep(k2n: map<int, nat>, k2n2: map<int, nat>, es: seq<Entry>, i: nat, lo: nat)
    requires i < |es| && DistinctKeys(es) && Repointed(k2n, k2n2, es[..i], lo)
    ensures Repointed(k2n, k2n2[es[i].key := lo + i], es[..i + 1], lo)
  {
    var pre, pre' := es[..i], es[..i + 1];
    forall k | KeyIn(pre', k) ensures KeyIn(pre, k) || k == es[i].key {
      var j :| 0 <= j < |pre'| && pre'[j].key == k;
      if j < i {
        assert pre[j] == pre'[j];
      }
    }
    forall k | KeyIn(pre, k) ensures KeyIn(pre', k) && k != es[i].key {
      var j :| 0 <= j < |pre| && pre[j].key == k;
      assert pre'[j] == pre[j];
    }
    assert pre'[i] == es[i];
  }

  /** The state after the first i steps of the `forEach` loop that fills a new block with es. */
  ghost predicate Filling(nodes: Arena, nodes2: Arena, k2n: map<int, nat>, k2n2: map<int, nat>, b: Blk, es: seq<Entry>,
                          i: nat, bi: int, flag: bool) {
    && i <= |es| && Extends(nodes, nodes2) && |nodes2| == |nodes| + i
    && FreshBlk(nodes2, b, es[..i], |nodes|, flag) && IndexOk(nodes2, b, bi)
    && Repointed(k2n, k2n2, es[..i], |nodes|)
  }

  /** One step of the loop: `add` the next entry, tag its node and record it in keyToNode. */
  lemma FillStep(nodes: Arena, nodes2: Arena, k2n: map<int, nat>, k2n2: map<int, nat>, b: Blk, es: seq<Entry>,
                 i: nat, bi: int, flag: bool, n1: Arena, b2: Blk)
    requires Filling(nodes, nodes2, k2n, k2n2, b, es, i, bi, flag) && i < |es| && DistinctKeys(es)
    requires n1 == Appended(nodes2, b.tail, es[i])
    requires Wf(n1, b2.head, b2.tail, b2.size, b.order + [|nodes2|], b.vals + [es[i]])
    requires b2.order == b.order + [|nodes2|] && b2.vals == b.vals + [es[i]]
    ensures Filling(nodes, n1[|nodes2| := n1[|nodes2|].(blockIndex := bi, isD0 := flag)], k2n, k2n2[es[i].key := |nodes2|],
                    b2, es, i + 1, bi, flag)
  {
    FreshStep(nodes, nodes2, b, es, i, bi, flag, b2);
    RepointStep(k2n, k2n2, es, i, |nodes|);
  }

  /**
   * The `forEach` loop of `split` and `createBlocks`: a new list of the
   * entries es, each node tagged (bi, flag) and recorded in keyToNode.
   * `createBlocks` does not set `blockIndex`, so it passes the default -1.
   */
  method FillBlock(nodes: Arena, k2n: map<int, nat>, es: seq<Entry>, bi: int, flag: bool)
    returns (nodes2: Arena, b: Blk, k2n2: map<int, nat>)
    requires DistinctKeys(es)
    ensures Extends(nodes, nodes2) && |nodes2| == |nodes| + |es|
    ensures FreshBlk(nodes2, b, es, |nodes|, flag) && IndexOk(nodes2, b, bi)
    ensures Repointed(k2n, k2n2, es, |nodes|)
  {
    nodes2, b, k2n2 := nodes, EmptyBlk, k2n;
    for i := 0 to |es|
      invariant Filling(nodes, nodes2, k2n, k2n2, b, es, i, bi, flag)
    {
      var n1, h, t, sz, id := ListAdd(nodes2, b.head, b.tail, b.size, b.order, b.vals, es[i]);
      var b2 := Blk(h, t, sz, b.order + [id], b.vals + [es[i]]);
      FillStep(nodes, nodes2, k2n, k2n2, b, es, i, bi, flag, n1, b2);
      nodes2 := n1[id := n1[id].(blockIndex := bi, isD0 := flag)];
      b := b2;
      k2n2 := k2n2[es[i].key := id];
    }
    assert es[..|es|] == es;
  }

  /** A fresh block stays fresh when the arena grows. */
  lemma FreshKept(nodes1: Arena, nodes2: Arena, b: Blk, es: seq<Entry>, lo: nat, flag: bool, bi: int)
    requires FreshBlk(nodes1, b, es, lo, flag) && Extends(nodes1, nodes2)
    ensures FreshBlk(nodes2, b, es, lo, flag)
    ensures IndexOk(nodes1, b, bi) ==> IndexOk(nodes2, b, bi)
  {
    assert Kept(nodes1, nodes2, b);
    KeptBlk(nodes1, nodes2, b);
    KeptTags(nodes1, nodes2, b, flag, bi);
  }

  // ---------------------------------------------------------------------
  // Sequences of new blocks

  /** The entries of the blocks bs, block after block. */
  ghost function Flat(bs: seq<Blk>): seq<Entry>
    decreases |bs|
  {
    if bs == [] then [] else bs[0].vals + Flat(bs[1..])
  }

  lemma {:induction false} FlatConcat(a: seq<Blk>, b: seq<Blk>)
    ensures Flat(a + b) == Flat(a) + Flat(b)
    decreases |a|
  {
    if a == [] {
      assert a + b == b;
    } else {
      assert (a + b)[0] == a[0] && (a + b)[1..] == a[1..] + b;
      FlatConcat(a[1..], b);
    }
  }

  /** The entries of Flat(bs) are those of the blocks. */
  lemma {:induction false} FlatMembers(bs: seq<Blk>)
    ensures forall j, i :: 0 <= j < |bs| && 0 <= i < |bs[j].vals| ==> bs[j].vals[i] in Flat(bs)
    ensures forall e :: e in Flat(bs) ==> exists j, i :: 0 <= j < |bs| && 0 <= i < |bs[j].vals| && bs[j].vals[i] == e
    decreases |bs|
  {
    if bs != [] {
      var rest := bs[1..];
      FlatMembers(rest);
      forall j, i | 0 < j < |bs| && 0 <= i < |bs[j].vals| ensures bs[j].vals[i] in Flat(bs) {
        assert bs[j] == rest[j - 1];
      }
      forall e | e in Flat(bs) ensures exists j, i :: 0 <= j < |bs| && 0 <= i < |bs[j].vals| && bs[j].vals[i] == e {
        if e !in bs[0].vals {
          assert e in Flat(rest);
          var j, i :| 0 <= j < |rest| && 0 <= i < |rest[j].vals| && rest[j].vals[i] == e;
          assert bs[j + 1] == rest[j];
        } else {
          var i :| 0 <= i < |bs[0].vals| && bs[0].vals[i] == e;
        }
      }
    }
  }

  /** The blocks hold a key exactly when their entries do. */
  lemma FlatKeys(bs: seq<Blk>)
    ensures forall k :: HasKey(bs, k) <==> KeyIn(Flat(bs), k)
  {
    FlatMembers(bs);
    var f := Flat(bs);
    forall k | KeyIn(f, k) ensures HasKey(bs, k) {
      var m :| 0 <= m < |f| && f[m].key == k;
      assert f[m] in f;
    }
    forall k | HasKey(bs, k) ensures KeyIn(f, k) {
      var j, i :| 0 <= j < |bs| && 0 <= i < |bs[j].vals| && bs[j].vals[i].key == k;
      assert bs[j].vals[i] in f;
    }
  }

  /** The blocks bs are well formed, disjoint, flagged, and on nodes that nodes2 added to nodes. */
  ghost predicate Built(nodes: Arena, nodes2: Arena, bs: seq<Blk>, flag: bool) {
    && Extends(nodes, nodes2)
    && (forall j :: 0 <= j < |bs| ==> BlkOk(nodes2, bs[j]) && FlagOk(nodes2, bs[j], flag))
    && (forall j, x :: 0 <= j < |bs| && x in bs[j].order ==> |nodes| <= x < |nodes2|)
    && Disjoint(bs)
  }

  /** keyToNode names the node of every entry of bs, and otherwise is unchanged. */
  ghost predicate Recorded(k2n: map<int, nat>, k2n2: map<int, nat>, bs: seq<Blk>) {
    && (forall j, i {:trigger bs[j].vals[i]} :: 0 <= j < |bs| && 0 <= i < |bs[j].vals| && i < |bs[j].order| ==>
          bs[j].vals[i].key in k2n2 && k2n2[bs[j].vals[i].key] == bs[j].order[i])
    && (forall k :: k in k2n2 ==> k in k2n || HasKey(bs, k))
    && (forall k :: k in k2n && !HasKey(bs, k) ==> k in k2n2 && k2n2[k] == k2n[k])
  }

  /** One block that FillBlock built. */
  lemma BuiltOne(nodes: Arena, nodes2: Arena, b: Blk, es: seq<Entry>, flag: bool, k2n: map<int, nat>, k2n2: map<int, nat>)
    requires Extends(nodes, nodes2) && |nodes2| == |nodes| + |es|
    requires FreshBlk(nodes2, b, es, |nodes|, flag) && Repointed(k2n, k2n2, es, |nodes|)
    ensures Built(nodes, nodes2, [b], flag) && Recorded(k2n, k2n2, [b]) && Flat([b]) == es
  {
    assert [b][0] == b && [b][1..] == [];
    forall x | x in b.order ensures |nodes| <= x < |nodes2| {
      var i :| 0 <= i < |b.order| && b.order[i] == x;
    }
    forall k ensures HasKey([b], k) <==> KeyIn(es, k) {
      if KeyIn(es, k) {
        var i :| 0 <= i < |es| && es[i].key == k;
        assert [b][0].vals[i].key == k;
      }
    }
  }

  /** Blocks built after other blocks, over their keys, on the nodes after theirs. */
  lemma BuiltConcat(nodes: Arena, nodes1: Arena, nodes2: Arena, bs1: seq<Blk>, bs2: seq<Blk>, flag: bool)
    requires Built(nodes, nodes1, bs1, flag) && Built(nodes1, nodes2, bs2, flag)
    ensures Built(nodes, nodes2, bs1 + bs2, flag)
  {
    var bs := bs1 + bs2;
    forall j | 0 <= j < |bs1| ensures BlkOk(nodes2, bs1[j]) && FlagOk(nodes2, bs1[j], flag) {
      assert Kept(nodes1, nodes2, bs1[j]);
      KeptBlk(nodes1, nodes2, bs1[j]);
      KeptTags(nodes1, nodes2, bs1[j], flag, 0);
    }
    forall j | 0 <= j < |bs| ensures BlkOk(nodes2, bs[j]) && FlagOk(nodes2, bs[j], flag) {
      if j >= |bs1| {
        assert bs[j] == bs2[j - |bs1|];
      }
    }
    forall j, x | 0 <= j < |bs| && x in bs[j].order ensures |nodes| <= x < |nodes2| {
      if j >= |bs1| {
        assert bs[j] == bs2[j - |bs1|];
      }
    }
    forall p, q, x | 0 <= p < |bs| && 0 <= q < |bs| && p != q && x in bs[p].order ensures x !in bs[q].order {
      if p < |bs1| && q < |bs1| {
      } else if p >= |bs1| && q >= |bs1| {
        assert bs[p] == bs2[p - |bs1|] && bs[q] == bs2[q - |bs1|];
      } else if p < |bs1| {
        assert bs[q] == bs2[q - |bs1|];
      } else {
        assert bs[p] == bs2[p - |bs1|];
      }
    }
  }

  /** Some block of a + b holds k exactly when a block of a or of b does. */
  lemma HasKeyConcat(a: seq<Blk>, b: seq<Blk>, k: int)
    ensures HasKey(a + b, k) <==> HasKey(a, k) || HasKey(b, k)
  {
    if HasKey(a + b, k) {
      var p, i :| 0 <= p < |a + b| && 0 <= i < |(a + b)[p].vals| && (a + b)[p].vals[i].key == k;
      if p >= |a| {
        assert b[p - |a|] == (a + b)[p];
      }
    }
    if HasKey(b, k) {
      var p, i :| 0 <= p < |b| && 0 <= i < |b[p].vals| && b[p].vals[i].key == k;
      assert (a + b)[|a| + p] == b[p];
    }
    if HasKey(a, k) {
      var p, i :| 0 <= p < |a| && 0 <= i < |a[p].vals| && a[p].vals[i].key == k;
      assert (a + b)[p] == a[p];
    }
  }

  /** Recording the keys of bs1, then those of bs2 (which bs1 does not hold), records the keys of both. */
  lemma RecordedConcat(k2n: map<int, nat>, k2n1: map<int, nat>, k2n2: map<int, nat>, bs1: seq<Blk>, bs2: seq<Blk>)
    requires Recorded(k2n, k2n1, bs1) && Recorded(k2n1, k2n2, bs2)
    requires forall k :: HasKey(bs1, k) ==> !HasKey(bs2, k)
    ensures Recorded(k2n, k2n2, bs1 + bs2)
  {
    var bs := bs1 + bs2;
    forall k ensures HasKey(bs, k) <==> HasKey(bs1, k) || HasKey(bs2, k) {
      HasKeyConcat(bs1, bs2, k);
    }
    forall j, i | 0 <= j < |bs| && 0 <= i < |bs[j].vals| && i < |bs[j].order|
      ensures bs[j].vals[i].key in k2n2 && k2n2[bs[j].vals[i].key] == bs[j].order[i]
    {
      if j < |bs1| {
        assert bs[j] == bs1[j] && bs1[j].vals[i] == bs1[j].vals[i];
        assert HasKey(bs1, bs1[j].vals[i].key);
      } else {
        assert bs[j] == bs2[j - |bs1|] && bs2[j - |bs1|].vals[i] == bs2[j - |bs1|].vals[i];
      }
    }
  }

  // ---------------------------------------------------------------------
  // Putting new blocks in place of old ones: pre + mid + post becomes pre + bs + post

  /** Block q of pre + bs + post is block q of pre, block q - |pre| of bs, or the block |bs| - |mid| positions back in post. */
  lemma SpliceAt(pre: seq<Blk>, mid: seq<Blk>, post: seq<Blk>, bs: seq<Blk>, q: nat)
    requires q < |pre| + |bs| + |post|
    ensures q < |pre| ==> (pre + bs + post)[q] == (pre + mid + post)[q]
    ensures |pre| <= q < |pre| + |bs| ==> (pre + bs + post)[q] == bs[q - |pre|]
    ensures |pre| + |bs| <= q ==> (pre + bs + post)[q] == (pre + mid + post)[q - |bs| + |mid|]
  {
  }

  /** The blocks of mid sit at |pre| .. |pre| + |mid| - 1 of pre + mid + post. */
  lemma MidAt(pre: seq<Blk>, mid: seq<Blk>, post: seq<Blk>)
    ensures forall m :: 0 <= m < |mid| ==> (pre + mid + post)[|pre| + m] == mid[m]
  {
  }

  /** The new blocks and the old blocks that stay are well formed and disjoint; the old ones keep their nodes. */
  lemma SpliceBlks(nodes: Arena, nodes2: Arena, pre: seq<Blk>, mid: seq<Blk>, post: seq<Blk>, bs: seq<Blk>, flag: bool)
    requires forall q :: 0 <= q < |pre + mid + post| ==> BlkOk(nodes, (pre + mid + post)[q])
    requires Disjoint(pre + mid + post) && Built(nodes, nodes2, bs, flag)
    ensures forall q :: 0 <= q < |pre + bs + post| ==> BlkOk(nodes2, (pre + bs + post)[q])
    ensures Disjoint(pre + bs + post)
    ensures forall q :: 0 <= q < |pre + mid + post| ==> Kept(nodes, nodes2, (pre + mid + post)[q])
  {
    var all, all2 := pre + mid + post, pre + bs + post;
    forall q | 0 <= q < |all|
      ensures Kept(nodes, nodes2, all[q]) && BlkOk(nodes2, all[q]) && forall x :: x in all[q].order ==> x < |nodes|
    {
      assert Kept(nodes, nodes2, all[q]);
      KeptBlk(nodes, nodes2, all[q]);
    }
    forall q | 0 <= q < |all2| ensures BlkOk(nodes2, all2[q]) {
      SpliceAt(pre, mid, post, bs, q);
    }
    forall p, q, x | 0 <= p < |all2| && 0 <= q < |all2| && p != q && x in all2[p].order ensures x !in all2[q].order {
      SpliceAt(pre, mid, post, bs, p);
      SpliceAt(pre, mid, post, bs, q);
    }
  }

  /** No block outside mid holds a key of mid. */
  lemma OutsideMid(nodes: Arena, pre: seq<Blk>, mid: seq<Blk>, post: seq<Blk>, k2n: map<int, nat>, content: map<int, Dist>, s: nat, i: nat)
    requires Core(nodes, pre + mid + post, k2n, content)
    requires s < |pre + mid + post| && (s < |pre| || |pre| + |mid| <= s) && i < |(pre + mid + post)[s].vals|
    ensures forall m, j :: 0 <= m < |mid| && 0 <= j < |mid[m].vals| ==> mid[m].vals[j].key != (pre + mid + post)[s].vals[i].key
  {
    var all := pre + mid + post;
    MidAt(pre, mid, post);
    forall m, j | 0 <= m < |mid| && 0 <= j < |mid[m].vals| ensures mid[m].vals[j].key != all[s].vals[i].key {
      KeyUnique(nodes, all, k2n, content, s, i, |pre| + m, j);
    }
  }

  /**
   * The entries of the new blocks are covered by the new maps; an old entry
   * that stays has a key no new block holds, so the maps keep it.
   */
  lemma SpliceCovered(nodes: Arena, pre: seq<Blk>, mid: seq<Blk>, post: seq<Blk>, bs: seq<Blk>,
                      k2n: map<int, nat>, content: map<int, Dist>, k2n2: map<int, nat>, content2: map<int, Dist>)
    requires Core(nodes, pre + mid + post, k2n, content) && Covered(bs, k2n2, content2)
    requires forall k :: k in content && !HasKey(bs, k) ==> k in k2n2 && k2n2[k] == k2n[k] && k in content2 && content2[k] == content[k]
    requires forall k :: HasKey(bs, k) ==> k !in content || HasKey(mid, k)
    ensures Covered(pre + bs + post, k2n2, content2)
  {
    var all, all2 := pre + mid + post, pre + bs + post;
    forall q, i | 0 <= q < |all2| && 0 <= i < |all2[q].vals| && i < |all2[q].order|
      ensures && all2[q].vals[i].key in k2n2 && k2n2[all2[q].vals[i].key] == all2[q].order[i]
              && all2[q].vals[i].key in content2 && content2[all2[q].vals[i].key] == all2[q].vals[i].value
    {
      SpliceAt(pre, mid, post, bs, q);
      if |pre| <= q < |pre| + |bs| {
        assert bs[q - |pre|].vals[i] == all2[q].vals[i];
      } else {
        var s := if q < |pre| then q else q - |bs| + |mid|;
        assert all2[q] == all[s] && all[s].vals[i] == all2[q].vals[i];
        OutsideMid(nodes, pre, mid, post, k2n, content, s, i);
      }
    }
  }

  /** Every key of the new content is held by a new block or by an old block that stays. */
  lemma SpliceIndexed(pre: seq<Blk>, mid: seq<Blk>, post: seq<Blk>, bs: seq<Blk>,
                      k2n: map<int, nat>, content: map<int, Dist>, k2n2: map<int, nat>, content2: map<int, Dist>)
    requires Indexed(pre + mid + post, k2n, content)
    requires forall k :: k in content2 <==> k in k2n2
    requires forall k :: k in content2 ==> HasKey(bs, k) || (k in content && !HasKey(mid, k))
    ensures Indexed(pre + bs + post, k2n2, content2)
  {
    var all, all2 := pre + mid + post, pre + bs + post;
    MidAt(pre, mid, post);
    forall k | k in content2 ensures HasKey(all2, k) {
      if HasKey(bs, k) {
        var m, j :| 0 <= m < |bs| && 0 <= j < |bs[m].vals| && bs[m].vals[j].key == k;
        SpliceAt(pre, mid, post, bs, |pre| + m);
      } else {
        var q, j :| 0 <= q < |all| && 0 <= j < |all[q].vals| && all[q].vals[j].key == k && (q < |pre| || |pre| + |mid| <= q);
        var q2 := if q < |pre| then q else q - |mid| + |bs|;
        SpliceAt(pre, mid, post, bs, q2);
      }
    }
  }

  /**
   * Putting new blocks bs, which hold the entries of mid and possibly
   * entries of new keys, in place of mid keeps Core, for maps that record
   * the new blocks' entries and keep every other key.
   */
  lemma SpliceCore(nodes: Arena, nodes2: Arena, pre: seq<Blk>, mid: seq<Blk>, post: seq<Blk>, bs: seq<Blk>, flag: bool,
                   k2n: map<int, nat>, content: map<int, Dist>, k2n2: map<int, nat>, content2: map<int, Dist>)
    requires Core(nodes, pre + mid + post, k2n, content) && Built(nodes, nodes2, bs, flag)
    requires Recorded(k2n, k2n2, bs)
    requires forall j, i :: 0 <= j < |bs| && 0 <= i < |bs[j].vals| ==>
      bs[j].vals[i].key in content2 && content2[bs[j].vals[i].key] == bs[j].vals[i].value
    requires forall k :: k in content2 <==> k in content || HasKey(bs, k)
    requires forall k :: k in content && !HasKey(bs, k) ==> content2[k] == content[k]
    requires forall k :: HasKey(bs, k) ==> k !in content || HasKey(mid, k)
    requires forall k :: HasKey(mid, k) ==> HasKey(bs, k)
    ensures Core(nodes2, pre + bs + post, k2n2, content2)
    ensures forall q :: 0 <= q < |pre + mid + post| ==> Kept(nodes, nodes2, (pre + mid + post)[q])
  {
    SpliceBlks(nodes, nodes2, pre, mid, post, bs, flag);
    assert Covered(bs, k2n2, content2) by {
      forall j, i | 0 <= j < |bs| && 0 <= i < |bs[j].vals| && i < |bs[j].order|
        ensures && bs[j].vals[i].key in k2n2 && k2n2[bs[j].vals[i].key] == bs[j].order[i]
                && bs[j].vals[i].key in content2 && content2[bs[j].vals[i].key] == bs[j].vals[i].value
      {
      }
    }
    SpliceCovered(nodes, pre, mid, post, bs, k2n, content, k2n2, content2);
    SpliceIndexed(pre, mid, post, bs, k2n, content, k2n2, content2);
  }
}
