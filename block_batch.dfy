/**
 * `batchPrepend(L)` and `createBlocks(list)` of PartialHeap.kt on values:
 * the filter of the batch against the stored entries, the recursive cut of
 * the sorted survivors into blocks of at most M entries, and the lemma that
 * carries the queue's invariant across putting those blocks in front of D0.
 */
module BlockBatches {
  import opened Common
  import opened LinkedLists
  import opened BlockQueues
  import opened BlockBuilds
  import opened BlockSplits
  import opened EntrySorting

  // ---------------------------------------------------------------------
  // createBlocks

  /** A slice of a list with distinct keys has distinct keys. */
  lemma DistinctSlice(s: seq<Entry>, a: nat, b: nat)
    requires DistinctKeys(s) && a <= b <= |s|
    ensures DistinctKeys(s[a..b])
  {
    forall i, j | 0 <= i < j < b - a ensures s[a..b][i].key != s[a..b][j].key {
      assert s[a..b][i] == s[a + i] && s[a..b][j] == s[a + j];
    }
  }

  /** Blocks built one run after the other from the two halves of a list with distinct keys are built from the list. */
  lemma BatchJoin(nodes: Arena, nodes1: Arena, nodes2: Arena, k2n: map<int, nat>, k2n1: map<int, nat>, k2n2: map<int, nat>,
                  list: seq<Entry>, m: nat, bs1: seq<Blk>, bs2: seq<Blk>, flag: bool)
    requires DistinctKeys(list) && m <= |list|
    requires Built(nodes, nodes1, bs1, flag) && Recorded(k2n, k2n1, bs1) && Flat(bs1) == list[..m]
    requires Built(nodes1, nodes2, bs2, flag) && Recorded(k2n1, k2n2, bs2) && Flat(bs2) == list[m..]
    ensures Built(nodes, nodes2, bs1 + bs2, flag) && Recorded(k2n, k2n2, bs1 + bs2) && Flat(bs1 + bs2) == list
  {
    BuiltConcat(nodes, nodes1, nodes2, bs1, bs2, flag);
    FlatKeys(bs1);
    FlatKeys(bs2);
    forall k | HasKey(bs1, k) ensures !HasKey(bs2, k) {
      var i :| 0 <= i < |list[..m]| && list[..m][i].key == k;
      forall j | 0 <= j < |list[m..]| ensures list[m..][j].key != k {
        assert list[..m][i] == list[i] && list[m..][j] == list[m + j];
      }
    }
    RecordedConcat(k2n, k2n1, k2n2, bs1, bs2);
    FlatConcat(bs1, bs2);
    assert list == list[..m] + list[m..];
  }

  /** The length of the longest prefix of list whose values are at most v (`takeWhile { it.second <= v }`). */
  function PrefixAtMost(list: seq<Entry>, v: Dist): (r: nat)
    ensures r <= |list|
    ensures forall i :: 0 <= i < r ==> Le(list[i].value, v)
    ensures r < |list| ==> !Le(list[r].value, v)
  {
    if list == [] || !Le(list[0].value, v) then 0 else 1 + PrefixAtMost(list[1..], v)
  }

  /**
   * The cut of `createBlocks` as written: `left = takeWhile { it.second <=
   * median }` and `right = dropWhile { it.second <= median }`, with the
   * median the value at index `size / 2`.
   */
  function MedianCut(list: seq<Entry>): (r: (seq<Entry>, seq<Entry>))
    requires |list| > 0
    ensures r.0 + r.1 == list
  {
    var c := PrefixAtMost(list, list[|list| / 2].value);
    assert list == list[..c] + list[c..];
    (list[..c], list[c..])
  }

  /**
   * On a list sorted by value, BlockCut is the cut as written wherever the
   * cut as written leaves a non-empty right part.
   */
  lemma SortedCutAgrees(list: seq<Entry>)
    requires |list| > 1 && ValueSorted(list) && PrefixAtMost(list, list[|list| / 2].value) < |list|
    ensures list[..BlockCut(list)] == MedianCut(list).0 && list[BlockCut(list)..] == MedianCut(list).1
  {
    CutPastMedian(list);
  }

  /** On a list sorted by value, the cut as written keeps the median and everything before it on the left. */
  lemma CutPastMedian(list: seq<Entry>)
    requires |list| > 0 && ValueSorted(list)
    ensures |list| / 2 < PrefixAtMost(list, list[|list| / 2].value)
  {
    var m := |list| / 2;
    forall i | 0 <= i <= m ensures Le(list[i].value, list[m].value) {
      if i < m {
        assert Le(list[i].value, list[m].value);
      }
    }
  }

  /**
   * The cut of the corrected `createBlocks` for a list of at least two
   * entries: the cut as written wherever both its parts are non-empty,
   * else the median index. On a list sorted by value the left part of the
   * cut as written is never empty (CutPastMedian), so the median index is
   * used only where the cut as written takes the whole list and the
   * recursion of `createBlocks` would not end.
   */
  function BlockCut(list: seq<Entry>): (c: nat)
    requires |list| > 1
    ensures 0 < c < |list|
    ensures 0 < PrefixAtMost(list, list[|list| / 2].value) < |list| ==>
      list[..c] == MedianCut(list).0 && list[c..] == MedianCut(list).1
    ensures PrefixAtMost(list, list[|list| / 2].value) == |list| ==> c == |list| / 2
  {
    var p := PrefixAtMost(list, list[|list| / 2].value);
    if 0 < p < |list| then p else |list| / 2
  }

  /**
   * The entries of the blocks the corrected `createBlocks` builds from a
   * list, front to back: the whole list when it fits in one block, else
   * the blocks of the two sides of BlockCut.
   */
  ghost function Layout(list: seq<Entry>, M: nat): seq<seq<Entry>>
    requires M >= 1
    decreases |list|
  {
    if |list| <= M then [list]
    else Layout(list[..BlockCut(list)], M) + Layout(list[BlockCut(list)..], M)
  }

  /** The entries of each block, front to back. */
  ghost function BlockVals(bs: seq<Blk>): (r: seq<seq<Entry>>)
    ensures |r| == |bs| && forall j :: 0 <= j < |bs| ==> r[j] == bs[j].vals
  {
    seq(|bs|, j requires 0 <= j < |bs| => bs[j].vals)
  }

  lemma BlockValsOne(b: Blk, list: seq<Entry>, M: nat)
    requires M >= 1 && |list| <= M && b.vals == list
    ensures BlockVals([b]) == Layout(list, M)
  {
    assert BlockVals([b])[0] == list;
  }

  /** Blocks of 1 to M entries, one run after the other, are blocks of 1 to M entries. */
  lemma SizesConcat(a: seq<Blk>, b: seq<Blk>, M: nat)
    requires forall j :: 0 <= j < |a| ==> 0 < a[j].size <= M
    requires forall j :: 0 <= j < |b| ==> 0 < b[j].size <= M
    ensures forall j :: 0 <= j < |a + b| ==> 0 < (a + b)[j].size <= M
  {
    forall j | 0 <= j < |a + b| ensures 0 < (a + b)[j].size <= M {
      if j < |a| {
        assert (a + b)[j] == a[j];
      } else {
        assert (a + b)[j] == b[j - |a|];
      }
    }
  }

  /** The blocks of the two sides of the cut, one run after the other, are laid out as the whole list. */
  lemma LayoutJoin(list: seq<Entry>, M: nat, a: seq<Blk>, b: seq<Blk>)
    requires M >= 1 && |list| > M
    requires BlockVals(a) == Layout(list[..BlockCut(list)], M) && BlockVals(b) == Layout(list[BlockCut(list)..], M)
    ensures BlockVals(a + b) == Layout(list, M)
  {
    BlockValsConcat(a, b);
  }

  lemma BlockValsConcat(a: seq<Blk>, b: seq<Blk>)
    ensures BlockVals(a + b) == BlockVals(a) + BlockVals(b)
  {
    assert |BlockVals(a + b)| == |BlockVals(a) + BlockVals(b)|;
    forall j | 0 <= j < |a + b| ensures BlockVals(a + b)[j] == (BlockVals(a) + BlockVals(b))[j] {
      if j < |a| {
        assert (a + b)[j] == a[j];
      } else {
        assert (a + b)[j] == b[j - |a|];
      }
    }
  }

  /**
   * `createBlocks(list)` with the cut of BlockCut (the list is sorted by
   * value where `batchPrepend` calls it): a list of at most M entries
   * becomes one new block (nodes flagged D0, `blockIndex` left at its
   * default -1, each key recorded in keyToNode); a longer list is cut in
   * two and the blocks of both parts follow each other. The blocks hold
   * the entries of Layout, so the list in order; none holds more than M
   * entries and, for a non-empty list, none is empty.
   */
  method CreateBlocks(nodes: Arena, k2n: map<int, nat>, list: seq<Entry>, M: nat)
    returns (nodes2: Arena, blocks: seq<Blk>, k2n2: map<int, nat>)
    requires M >= 1 && DistinctKeys(list)
    ensures Built(nodes, nodes2, blocks, true) && Recorded(k2n, k2n2, blocks) && Flat(blocks) == list
    ensures BlockVals(blocks) == Layout(list, M)
    ensures |blocks| >= 1
    ensures forall j :: 0 <= j < |blocks| ==> blocks[j].size <= M && (list != [] ==> blocks[j].size > 0)
    decreases |list|, 1
  {
    if |list| <= M {
      var block;
      nodes2, block, k2n2 := FillBlock(nodes, k2n, list, -1, true);
      BuiltOne(nodes, nodes2, block, list, true, k2n, k2n2);
      blocks := [block];
      BlockValsOne(block, list, M);
      assert BlkOk(nodes2, blocks[0]);
    } else {
      nodes2, blocks, k2n2 := CreateCutBlocks(nodes, k2n, list, M);
    }
  }

  /** The `else` branch of `createBlocks`: the blocks of the two sides of BlockCut, one after the other. */
  method CreateCutBlocks(nodes: Arena, k2n: map<int, nat>, list: seq<Entry>, M: nat)
    returns (nodes2: Arena, blocks: seq<Blk>, k2n2: map<int, nat>)
    requires M >= 1 && DistinctKeys(list) && |list| > M
    ensures Built(nodes, nodes2, blocks, true) && Recorded(k2n, k2n2, blocks) && Flat(blocks) == list
    ensures BlockVals(blocks) == Layout(list, M)
    ensures |blocks| >= 1
    ensures forall j :: 0 <= j < |blocks| ==> blocks[j].size <= M && blocks[j].size > 0
    decreases |list|, 0
  {
    var cut := BlockCut(list);
    var left, right := list[..cut], list[cut..];
    DistinctSlice(list, 0, cut);
    DistinctSlice(list, cut, |list|);
    var nodes1, leftBlocks, k2n1 := CreateBlocks(nodes, k2n, left, M);
    var rightBlocks;
    nodes2, rightBlocks, k2n2 := CreateBlocks(nodes1, k2n1, right, M);
    blocks := leftBlocks + rightBlocks;
    BatchJoin(nodes, nodes1, nodes2, k2n, k2n1, k2n2, list, cut, leftBlocks, rightBlocks, true);
    LayoutJoin(list, M, leftBlocks, rightBlocks);
    SizesConcat(leftBlocks, rightBlocks, M);
  }

  /**
   * When the median of a sorted list is also its largest value, the left
   * part of the cut as written is the whole list, so `createBlocks(left)`
   * is the call it is made from, and the recursion does not end.
   */
  lemma MedianCutStalls(list: seq<Entry>)
    requires |list| > 0 && ValueSorted(list) && list[|list| / 2].value == list[|list| - 1].value
    ensures MedianCut(list).0 == list
  {
    var last := |list| - 1;
    forall j | 0 <= j < |list| ensures Le(list[j].value, list[last].value) {
      if j < last {
        assert Le(list[j].value, list[last].value);
      }
    }
  }

  /** With M = 1, every sorted list of two entries recurses on itself in `createBlocks` as written. */
  lemma TwoEntriesStall(list: seq<Entry>)
    requires |list| == 2 && ValueSorted(list)
    ensures |list| > 1 && MedianCut(list).0 == list
  {
    MedianCutStalls(list);
  }

  // ---------------------------------------------------------------------
  // batchPrepend

  /**
   * r holds, for every key of c or of L, the least of its stored value and
   * the values L gives it: the outcome of inserting every pair of L with
   * decrease-key semantics.
   */
  ghost predicate MinMerge(c: map<int, Dist>, L: seq<Entry>, r: map<int, Dist>) {
    && (forall k :: k in r <==> k in c || KeyIn(L, k))
    && (forall k :: k in c ==> k in r && Le(r[k], c[k]))
    && (forall i :: 0 <= i < |L| ==> L[i].key in r && Le(r[L[i].key], L[i].value))
    && (forall k :: k in r ==> (k in c && r[k] == c[k]) || exists i :: 0 <= i < |L| && L[i].key == k && r[k] == L[i].value)
  }

  /** The map after one pair: its key takes the pair's value unless it already holds a value at most that. */
  function MergeOne(r: map<int, Dist>, e: Entry): (r2: map<int, Dist>)
    ensures e.key in r2 && Le(r2[e.key], e.value) && r2.Keys == r.Keys + {e.key}
    ensures e.key in r ==> Le(r2[e.key], r[e.key]) && (r2[e.key] == r[e.key] || r2[e.key] == e.value)
    ensures forall k :: k in r && k != e.key ==> r2[k] == r[k]
  {
    if e.key in r && Le(r[e.key], e.value) then r else r[e.key := e.value]
  }

  /** Nothing merged into c leaves c. */
  lemma MergeNone(c: map<int, Dist>, L: seq<Entry>)
    requires L == []
    ensures MinMerge(c, L, c)
  {
  }

  /** The keys of L[..i + 1] are those of L[..i] and the key of L[i]. */
  lemma KeyInSnoc(L: seq<Entry>, i: nat)
    requires i < |L|
    ensures forall k :: KeyIn(L[..i + 1], k) <==> KeyIn(L[..i], k) || k == L[i].key
  {
    var pre, pre' := L[..i], L[..i + 1];
    forall k ensures KeyIn(pre', k) <==> KeyIn(pre, k) || k == L[i].key {
      if KeyIn(pre', k) {
        var j :| 0 <= j < |pre'| && pre'[j].key == k;
        if j < i {
          assert pre[j].key == k;
        }
      }
      if KeyIn(pre, k) {
        var j :| 0 <= j < |pre| && pre[j].key == k;
        assert pre'[j].key == k;
      }
      if k == L[i].key {
        assert pre'[i].key == k;
      }
    }
  }

  /** After one more pair e, every pair merged so far is still at least its key's merged value. */
  lemma MergeStepBelow(pre: seq<Entry>, pre': seq<Entry>, e: Entry, r: map<int, Dist>)
    requires pre' == pre + [e] && forall j :: 0 <= j < |pre| ==> pre[j].key in r && Le(r[pre[j].key], pre[j].value)
    ensures forall j :: 0 <= j < |pre'| ==> pre'[j].key in MergeOne(r, e) && Le(MergeOne(r, e)[pre'[j].key], pre'[j].value)
  {
    var r' := MergeOne(r, e);
    forall j | 0 <= j < |pre'| ensures pre'[j].key in r' && Le(r'[pre'[j].key], pre'[j].value) {
      if j < |pre| {
        assert pre'[j] == pre[j];
        if pre[j].key == e.key {
          assert Le(r'[e.key], r[e.key]);
        }
      }
    }
  }

  /** After one more pair e, every merged value is still a stored value or the value of a merged pair. */
  lemma MergeStepFrom(c: map<int, Dist>, pre: seq<Entry>, pre': seq<Entry>, e: Entry, r: map<int, Dist>)
    requires pre' == pre + [e]
    requires forall k :: k in r ==> (k in c && r[k] == c[k]) || exists j :: 0 <= j < |pre| && pre[j].key == k && r[k] == pre[j].value
    ensures forall k :: k in MergeOne(r, e) ==>
      (k in c && MergeOne(r, e)[k] == c[k]) || exists j :: 0 <= j < |pre'| && pre'[j].key == k && MergeOne(r, e)[k] == pre'[j].value
  {
    var r' := MergeOne(r, e);
    forall k | k in r' ensures (k in c && r'[k] == c[k]) || exists j :: 0 <= j < |pre'| && pre'[j].key == k && r'[k] == pre'[j].value {
      if k == e.key && r'[k] == e.value {
        assert pre'[|pre|].key == k && r'[k] == pre'[|pre|].value;
      } else {
        assert k in r && r'[k] == r[k];
        if !(k in c && r[k] == c[k]) {
          var j :| 0 <= j < |pre| && pre[j].key == k && r[k] == pre[j].value;
          assert pre'[j] == pre[j];
        }
      }
    }
  }

  /** Merging one more pair extends the merge by that pair. */
  lemma MergeStep(c: map<int, Dist>, L: seq<Entry>, i: nat, r: map<int, Dist>)
    requires i < |L| && MinMerge(c, L[..i], r)
    ensures MinMerge(c, L[..i + 1], MergeOne(r, L[i]))
  {
    KeyInSnoc(L, i);
    assert L[..i + 1] == L[..i] + [L[i]];
    MergeStepBelow(L[..i], L[..i + 1], L[i], r);
    MergeStepFrom(c, L[..i], L[..i + 1], L[i], r);
  }

  /**
   * The keys that batchPrepend has changed so far, going from the stored
   * map c0 to r: exactly the keys of added, which r holds with a value
   * that c0 lacks or holds differently (lower, given MinMerge).
   */
  ghost predicate ChangedKeys(c0: map<int, Dist>, r: map<int, Dist>, added: map<int, Dist>) {
    forall k :: k in added <==> k in r && (k !in c0 || r[k] != c0[k])
  }

  /**
   * One pair of `batchPrepend` changes the merged map r and the kept pairs
   * added either not at all, or by giving its key its value in both, a
   * value below the one r held.
   */
  ghost predicate LowerStep(r: map<int, Dist>, added: map<int, Dist>, r2: map<int, Dist>, added': map<int, Dist>, e: Entry) {
    || (added' == added && r2 == r)
    || (added' == added[e.key := e.value] && r2 == r[e.key := e.value] && (e.key in r ==> Lt(e.value, r[e.key])))
  }

  /**
   * The four outcomes of FilterPair for pair e, over the stored map c and
   * the kept values added: e lowers a kept value or not; e lowers a stored
   * value (which leaves c) or not; e has a new key. Each merges e into c + added.
   */
  lemma MergeOutcome(c: map<int, Dist>, added: map<int, Dist>, c2: map<int, Dist>, added': map<int, Dist>, e: Entry)
    requires forall k :: k in added ==> k !in c
    requires || (c2 == c && e.key in added && Lt(e.value, added[e.key]) && added' == added[e.key := e.value])
             || (c2 == c && e.key in added && Le(added[e.key], e.value) && added' == added)
             || (e.key in c && e.key !in added && c2 == c - {e.key} && Lt(e.value, c[e.key]) && added' == added[e.key := e.value])
             || (e.key in c && e.key !in added && c2 == c && Le(c[e.key], e.value) && added' == added)
             || (e.key !in c && e.key !in added && c2 == c && added' == added[e.key := e.value])
    ensures c2 + added' == MergeOne(c + added, e)
    ensures LowerStep(c + added, added, c2 + added', added', e)
  {
    var r := c + added;
    if added' == added {
      assert c2 + added' == r;
    } else {
      assert c2 + added' == r[e.key := e.value];
    }
  }

  /** A LowerStep keeps added the set of changed keys, for values that only go down. */
  lemma ChangedStep(c0: map<int, Dist>, r: map<int, Dist>, r2: map<int, Dist>, added: map<int, Dist>, added': map<int, Dist>, e: Entry)
    requires ChangedKeys(c0, r, added) && (forall k :: k in c0 ==> k in r && Le(r[k], c0[k]))
    requires LowerStep(r, added, r2, added', e)
    ensures ChangedKeys(c0, r2, added')
  {
    if added' != added || r2 != r {
      forall k ensures k in added' <==> k in r2 && (k !in c0 || r2[k] != c0[k]) {
        if k == e.key && k in c0 {
          assert Le(r[k], c0[k]);
        }
      }
    }
  }

  /** One pair of the loop of `batchPrepend` keeps both MinMerge and ChangedKeys. */
  lemma FilterFacts(c0: map<int, Dist>, L: seq<Entry>, i: nat, r: map<int, Dist>, added: map<int, Dist>,
                    r2: map<int, Dist>, added': map<int, Dist>)
    requires i < |L| && MinMerge(c0, L[..i], r) && ChangedKeys(c0, r, added)
    requires r2 == MergeOne(r, L[i]) && LowerStep(r, added, r2, added', L[i])
    ensures MinMerge(c0, L[..i + 1], r2) && ChangedKeys(c0, r2, added')
  {
    MergeStep(c0, L, i, r);
    ChangedStep(c0, r, r2, added, added', L[i]);
  }

  /**
   * The pending pairs, once merged into content, are exactly the stored
   * entries whose key is new or whose value changed since c0.
   */
  lemma PendingKept(list: seq<Entry>, added: map<int, Dist>, content: map<int, Dist>, c0: map<int, Dist>)
    requires Pending(list, added, content) && ChangedKeys(c0, content + added, added)
    ensures DistinctKeys(list)
    ensures forall e :: e in list ==> e.key in content + added && (content + added)[e.key] == e.value
    ensures forall k :: KeyIn(list, k) <==> k in content + added && (k !in c0 || (content + added)[k] != c0[k])
  {
    forall e | e in list ensures e.key in content + added && (content + added)[e.key] == e.value {
      var j :| 0 <= j < |list| && list[j] == e;
    }
  }

  /** Blocks that hold the entries of list, sorted by value, cut as `createBlocks` cuts; none for no entries. */
  ghost predicate SortedLayout(front: seq<Blk>, list: seq<Entry>, M: nat) {
    && M >= 1
    && ValueSorted(Flat(front)) && multiset(Flat(front)) == multiset(list)
    && BlockVals(front) == if list == [] then [] else Layout(Flat(front), M)
  }

  /**
   * The pairs kept so far: distinct keys, exactly the keys of the ghost map
   * added with their values, none of them stored in the queue.
   */
  ghost predicate Pending(list: seq<Entry>, added: map<int, Dist>, content: map<int, Dist>) {
    && DistinctKeys(list)
    && (forall k :: k in added <==> KeyIn(list, k))
    && (forall j :: 0 <= j < |list| ==> list[j].key in added && added[list[j].key] == list[j].value)
    && (forall k :: k in added ==> k !in content)
  }

  /** A kept pair with a new key, not stored, joins the pending pairs. */
  lemma PendingAppend(list: seq<Entry>, added: map<int, Dist>, content: map<int, Dist>, e: Entry)
    requires Pending(list, added, content) && e.key !in added && e.key !in content
    ensures Pending(list + [e], added[e.key := e.value], content)
  {
    var l2 := list + [e];
    forall i, j | 0 <= i < j < |l2| ensures l2[i].key != l2[j].key {
      if j == |list| {
        assert l2[i] == list[i] && list[i].key in added;
      } else {
        assert l2[i] == list[i] && l2[j] == list[j];
      }
    }
    forall k ensures k in added[e.key := e.value] <==> KeyIn(l2, k) {
      if KeyIn(l2, k) {
        var j :| 0 <= j < |l2| && l2[j].key == k;
        if j < |list| {
          assert list[j].key == k;
        }
      }
      if k in added {
        var j :| 0 <= j < |list| && list[j].key == k;
        assert l2[j].key == k;
      }
      if k == e.key {
        assert l2[|list|].key == k;
      }
    }
    forall j | 0 <= j < |l2| ensures l2[j].key in added[e.key := e.value] && added[e.key := e.value][l2[j].key] == l2[j].value {
      if j < |list| {
        assert l2[j] == list[j];
      }
    }
  }

  /** A smaller value for a pending key replaces the pending pair. */
  lemma PendingReplace(list: seq<Entry>, added: map<int, Dist>, content: map<int, Dist>, p: nat, e: Entry)
    requires Pending(list, added, content) && p < |list| && list[p].key == e.key
    ensures Pending(list[p := e], added[e.key := e.value], content)
  {
    var l2 := list[p := e];
    forall i, j | 0 <= i < j < |l2| ensures l2[i].key != l2[j].key {
      assert l2[i].key == list[i].key && l2[j].key == list[j].key;
    }
    forall k ensures k in added[e.key := e.value] <==> KeyIn(l2, k) {
      if KeyIn(l2, k) {
        var j :| 0 <= j < |l2| && l2[j].key == k;
        assert list[j].key == k;
      }
      if k in added {
        var j :| 0 <= j < |list| && list[j].key == k;
        assert l2[j].key == k;
      }
    }
    forall j | 0 <= j < |l2| ensures l2[j].key in added[e.key := e.value] && added[e.key := e.value][l2[j].key] == l2[j].value {
      if j != p {
        assert l2[j] == list[j] && list[j].key != e.key;
      }
    }
  }

  /** The first position of a pending pair with the given key, or -1. */
  method FindKey(list: seq<Entry>, key: int) returns (p: int)
    ensures -1 <= p < |list|
    ensures p >= 0 ==> list[p].key == key
    ensures p < 0 <==> !KeyIn(list, key)
  {
    p := 0;
    while p < |list| && list[p].key != key
      invariant 0 <= p <= |list|
      invariant forall j :: 0 <= j < p ==> list[j].key != key
    {
      p := p + 1;
    }
    if p == |list| {
      p := -1;
    }
  }

  /**
   * Putting the blocks bs, built on new nodes from entries whose keys are
   * not stored, in front of D0 keeps the invariant except for the positions
   * of D0's blocks, which `updateBlockIndices(D0, 0)` then sets.
   */
  lemma PrependInv(nodes: Arena, nodes2: Arena, d0: seq<Blk>, d1: seq<Blk>, ub: seq<Dist>,
                   k2n: map<int, nat>, k2n2: map<int, nat>, content: map<int, Dist>, content2: map<int, Dist>, bs: seq<Blk>)
    requires Inv(nodes, d0, d1, ub, k2n, content)
    requires Built(nodes, nodes2, bs, true) && Recorded(k2n, k2n2, bs)
    requires forall j, i :: 0 <= j < |bs| && 0 <= i < |bs[j].vals| ==>
      bs[j].vals[i].key in content2 && content2[bs[j].vals[i].key] == bs[j].vals[i].value
    requires forall k :: k in content2 <==> k in content || HasKey(bs, k)
    requires forall k :: k in content && !HasKey(bs, k) ==> content2[k] == content[k]
    requires forall k :: HasKey(bs, k) ==> k !in content
    ensures Stale(nodes2, bs + d0, d1, ub, k2n2, content2, 0, |d1|)
  {
    var post := d0 + d1;
    assert [] + [] + post == d0 + d1;
    assert [] + bs + post == (bs + d0) + d1;
    assert forall k :: !HasKey([], k);
    SpliceCore(nodes, nodes2, [], [], post, bs, true, k2n, content, k2n2, content2);
    PrependTags(nodes, nodes2, d0, d1, k2n, content, bs);
  }

  /** The tier flags and D1's positions survive the prepend. */
  lemma PrependTags(nodes: Arena, nodes2: Arena, d0: seq<Blk>, d1: seq<Blk>, k2n: map<int, nat>, content: map<int, Dist>, bs: seq<Blk>)
    requires Core(nodes, d0 + d1, k2n, content) && Tagged(nodes, d0, d1, |d0|, |d1|)
    requires Built(nodes, nodes2, bs, true)
    requires forall q :: 0 <= q < |[] + [] + (d0 + d1)| ==> Kept(nodes, nodes2, ([] + [] + (d0 + d1))[q])
    ensures Tagged(nodes2, bs + d0, d1, 0, |d1|)
  {
    TierInArena(nodes, d0, d1, k2n, content);
    assert [] + [] + (d0 + d1) == d0 + d1;
    forall j | 0 <= j < |d0| ensures Kept(nodes, nodes2, d0[j]) {
      assert (d0 + d1)[j] == d0[j];
    }
    forall j | 0 <= j < |d1| ensures Kept(nodes, nodes2, d1[j]) {
      assert (d0 + d1)[|d0| + j] == d1[j];
    }
    KeptTier(nodes, nodes2, d0, true, 0, 0);
    KeptTier(nodes, nodes2, d1, false, 0, |d1|);
    forall j | 0 <= j < |bs + d0| ensures FlagOk(nodes2, (bs + d0)[j], true) {
      if j >= |bs| {
        assert (bs + d0)[j] == d0[j - |bs|];
      }
    }
  }

  /** No pending pair, no added key. */
  lemma PendingEmpty(list: seq<Entry>, added: map<int, Dist>, content: map<int, Dist>)
    requires Pending(list, added, content) && list == []
    ensures added == map[]
  {
    forall k ensures k !in added {
      assert !KeyIn(list, k);
    }
    assert added.Keys == {};
  }

  /** A pending state stays pending when stored keys go. */
  lemma PendingSub(list: seq<Entry>, added: map<int, Dist>, content: map<int, Dist>, content2: map<int, Dist>)
    requires Pending(list, added, content) && content2.Keys <= content.Keys
    ensures Pending(list, added, content2)
  {
  }

  /**
   * Blocks that hold a sorted copy of the pending pairs meet the side
   * conditions of PrependInv for the stored map extended by the pairs.
   */
  lemma PrependFacts(list: seq<Entry>, sorted: seq<Entry>, added: map<int, Dist>, content: map<int, Dist>, bs: seq<Blk>)
    requires Pending(list, added, content) && multiset(sorted) == multiset(list) && Flat(bs) == sorted
    ensures forall j, i :: 0 <= j < |bs| && 0 <= i < |bs[j].vals| ==>
      bs[j].vals[i].key in content + added && (content + added)[bs[j].vals[i].key] == bs[j].vals[i].value
    ensures forall k :: k in content + added <==> k in content || HasKey(bs, k)
    ensures forall k :: k in content && !HasKey(bs, k) ==> (content + added)[k] == content[k]
    ensures forall k :: HasKey(bs, k) ==> k !in content
  {
    FlatMembers(bs);
    FlatKeys(bs);
    PermutedKeyIn(sorted, list);
    forall j, i | 0 <= j < |bs| && 0 <= i < |bs[j].vals|
      ensures bs[j].vals[i].key in content + added && (content + added)[bs[j].vals[i].key] == bs[j].vals[i].value
    {
      var e := bs[j].vals[i];
      assert e in multiset(list);
      var m :| 0 <= m < |list| && list[m] == e;
    }
  }

  /**
   * The filter of `batchPrepend` as written: a pair is kept when its key is
   * not stored, or when its value is below the stored one, which is then
   * removed; the filter sees only the stored entries, never the pairs it
   * has kept before.
   */
  function FilterAsWritten(c: map<int, Dist>, L: seq<Entry>): (r: seq<Entry>)
    ensures |r| <= |L| && forall e :: e in r ==> e in L
    decreases |L|
  {
    if L == [] then []
    else if L[0].key in c && !Lt(L[0].value, c[L[0].key]) then FilterAsWritten(c, L[1..])
    else [L[0]] + FilterAsWritten(c - {L[0].key}, L[1..])
  }

  /**
   * A batch with two pairs for one key, as BMSSP's `kSet + addBack` can be,
   * passes the filter as written with both pairs, whether or not the key
   * is stored; their blocks would hold the key twice.
   */
  lemma FilterKeepsDuplicates()
    ensures var L := [Entry(7, Fin(5.0)), Entry(7, Fin(3.0))];
      && FilterAsWritten(map[], L) == L
      && FilterAsWritten(map[7 := Fin(9.0)], L) == L
      && !DistinctKeys(L)
  {
    var L := [Entry(7, Fin(5.0)), Entry(7, Fin(3.0))];
    assert L[1..] == [Entry(7, Fin(3.0))] && L[1..][1..] == [];
    assert map[7 := Fin(9.0)] - {7} == map[];
  }

  /** Blocks that hold one key twice cannot satisfy the invariant. */
  lemma DuplicateBreaksCore(nodes: Arena, all: seq<Blk>, k2n: map<int, nat>, content: map<int, Dist>, p: nat, i: nat, q: nat, j: nat)
    requires p < |all| && i < |all[p].vals| && q < |all| && j < |all[q].vals| && (p, i) != (q, j)
    requires all[p].vals[i].key == all[q].vals[j].key
    ensures !Core(nodes, all, k2n, content)
  {
    if Core(nodes, all, k2n, content) {
      KeyUnique(nodes, all, k2n, content, p, i, q, j);
    }
  }
}
