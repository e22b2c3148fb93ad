/**
 * `split(blockIndex)` of PartialHeap.kt on values: the entries of an
 * overfull D1 block, sorted by value, go to a new left block (the smaller
 * half) and a new right block, which take the old block's place; the
 * bounds of both halves are their largest values.
 */
module BlockSplits {
  import opened Common
  import opened LinkedLists
  import opened BlockQueues
  import opened BlockBuilds
  import opened EntrySorting

  /** `maxOfOrNull { it.second } ?: default`: the largest value of es, or default when es is empty. */
  function MaxValueOr(es: seq<Entry>, default: Dist): (r: Dist)
    ensures |es| == 0 ==> r == default
    ensures forall i :: 0 <= i < |es| ==> Le(es[i].value, r)
    ensures |es| > 0 ==> exists i :: 0 <= i < |es| && es[i].value == r
    decreases |es|
  {
    if |es| == 0 then default
    else if |es| == 1 then es[0].value
    else
      var m := MaxValueOr(es[1..], default);
      assert forall i :: 1 <= i < |es| ==> es[i] == es[1..][i - 1];
      if Le(es[0].value, m) then m else es[0].value
  }

  /** D1 after `D1[bi] = leftBlock` and `D1.add(bi + 1, rightBlock)`. */
  function SplitTier(d1: seq<Blk>, bi: nat, L: Blk, R: Blk): seq<Blk>
    requires bi < |d1|
  {
    d1[..bi] + [L, R] + d1[bi + 1..]
  }

  /** `upperBounds[bi] = max(left) ?: upperBounds[bi]` and `upperBounds.add(bi + 1, max(right) ?: B)`. */
  function SplitBounds(ub: seq<Dist>, bi: nat, left: seq<Entry>, right: seq<Entry>, bound: Dist): seq<Dist>
    requires bi < |ub|
  {
    ub[..bi] + [MaxValueOr(left, ub[bi]), MaxValueOr(right, bound)] + ub[bi + 1..]
  }

  /** Block q of the split tier. */
  lemma SplitAt(d1: seq<Blk>, bi: nat, L: Blk, R: Blk, q: nat)
    requires bi < |d1| && q < |d1| + 1
    ensures var d2 := SplitTier(d1, bi, L, R);
      |d2| == |d1| + 1
      && (q < bi ==> d2[q] == d1[q])
      && (q == bi ==> d2[q] == L)
      && (q == bi + 1 ==> d2[q] == R)
      && (bi + 1 < q ==> d2[q] == d1[q - 1])
  {
  }

  /** Every entry of a block of the entries of all lies between the block's bounds. */
  lemma InBlock(d1: seq<Blk>, ub: seq<Dist>, bi: nat)
    requires Bounded(d1, ub) && bi < |d1|
    ensures forall e :: e in d1[bi].vals ==>
      (0 < bi ==> Le(ub[bi - 1], e.value)) && (bi < |d1| - 1 ==> Le(e.value, ub[bi]))
  {
    forall e | e in d1[bi].vals ensures (0 < bi ==> Le(ub[bi - 1], e.value)) && (bi < |d1| - 1 ==> Le(e.value, ub[bi])) {
      var i :| 0 <= i < |d1[bi].vals| && d1[bi].vals[i] == e;
    }
  }

  /** The bounds after the split stay sorted. */
  lemma SplitSorted(ub: seq<Dist>, bi: nat, mL: Dist, mR: Dist)
    requires SortedBounds(ub) && bi < |ub|
    requires 0 < bi ==> Le(ub[bi - 1], mL)
    requires Le(mL, mR) && (bi < |ub| - 1 ==> Le(mR, ub[bi]))
    ensures SortedBounds(ub[..bi] + [mL, mR] + ub[bi + 1..])
  {
    var u := ub[..bi] + [mL, mR] + ub[bi + 1..];
    forall i, j | 0 <= i < j < |u| ensures Le(u[i], u[j]) {
      if j < bi {
        assert u[i] == ub[i] && u[j] == ub[j];
      } else if j == bi {
        assert u[i] == ub[i] && Le(ub[i], ub[bi - 1]);
      } else if j == bi + 1 {
        if i < bi {
          assert u[i] == ub[i] && Le(ub[i], ub[bi - 1]);
        }
      } else if i < bi {
        assert u[i] == ub[i] && u[j] == ub[j - 1];
      } else if i <= bi + 1 {
        assert u[j] == ub[j - 1] && Le(ub[bi], ub[j - 1]);
      } else {
        assert u[i] == ub[i - 1] && u[j] == ub[j - 1];
      }
    }
  }

  /**
   * The split keeps `Bounded`: the left half lies below its own maximum,
   * the right half above it and below the old bound, and the neighbours
   * keep their bounds.
   */
  lemma SplitBounded(d1: seq<Blk>, ub: seq<Dist>, bi: nat, L: Blk, R: Blk, bound: Dist)
    requires Bounded(d1, ub) && bi < |d1|
    requires |L.vals| >= 1 && |R.vals| >= 1
    requires forall i :: 0 <= i < |L.vals| ==> L.vals[i] in d1[bi].vals
    requires forall i :: 0 <= i < |R.vals| ==> R.vals[i] in d1[bi].vals
    requires forall i, j :: 0 <= i < |L.vals| && 0 <= j < |R.vals| ==> Le(L.vals[i].value, R.vals[j].value)
    ensures Bounded(SplitTier(d1, bi, L, R), SplitBounds(ub, bi, L.vals, R.vals, bound))
  {
    var d2, u := SplitTier(d1, bi, L, R), SplitBounds(ub, bi, L.vals, R.vals, bound);
    var mL, mR := MaxValueOr(L.vals, ub[bi]), MaxValueOr(R.vals, bound);
    InBlock(d1, ub, bi);
    var a :| 0 <= a < |L.vals| && L.vals[a].value == mL;
    var c :| 0 <= c < |R.vals| && R.vals[c].value == mR;
    assert L.vals[a] in d1[bi].vals && R.vals[c] in d1[bi].vals;
    assert Le(mL, R.vals[0].value);
    SplitSorted(ub, bi, mL, mR);
    forall j, i | 0 <= j < |d2| && 0 <= i < |d2[j].vals|
      ensures && (0 < j ==> Le(u[j - 1], d2[j].vals[i].value))
              && (j < |d2| - 1 ==> Le(d2[j].vals[i].value, u[j]))
    {
      SplitAt(d1, bi, L, R, j);
      if j < bi {
        assert d1[j].vals[i] == d2[j].vals[i];
      } else if j == bi {
        assert L.vals[i] in d1[bi].vals;
      } else if j == bi + 1 {
        assert R.vals[i] in d1[bi].vals && Le(L.vals[a].value, R.vals[i].value);
      } else {
        assert d1[j - 1].vals[i] == d2[j].vals[i];
        if j == bi + 2 {
          assert Le(mR, ub[bi]);
        }
      }
    }
  }

  /** The split keeps every tag of the other blocks and puts the halves at bi and bi + 1; the later blocks are not renumbered. */
  lemma SplitTags(nodes: Arena, nodes2: Arena, d0: seq<Blk>, d1: seq<Blk>, bi: nat, L: Blk, R: Blk)
    requires Tagged(nodes, d0, d1, |d0|, |d1|) && bi < |d1|
    requires forall j :: 0 <= j < |d0| ==> BlkOk(nodes, d0[j]) && Kept(nodes, nodes2, d0[j])
    requires forall j :: 0 <= j < |d1| ==> BlkOk(nodes, d1[j]) && Kept(nodes, nodes2, d1[j])
    requires FlagOk(nodes2, L, false) && IndexOk(nodes2, L, bi) && FlagOk(nodes2, R, false) && IndexOk(nodes2, R, bi + 1)
    ensures Tagged(nodes2, d0, SplitTier(d1, bi, L, R), |d0|, bi + 2)
  {
    KeptTier(nodes, nodes2, d0, true, 0, |d0|);
    KeptTier(nodes, nodes2, d1, false, 0, |d1|);
    var d2 := SplitTier(d1, bi, L, R);
    forall j | 0 <= j < |d2| ensures FlagOk(nodes2, d2[j], false) && (j < bi + 2 ==> IndexOk(nodes2, d2[j], j)) {
      SplitAt(d1, bi, L, R, j);
    }
  }

  /**
   * Without renumbering, the block after the split halves keeps the
   * position it had before the split: if it is not empty, its nodes' tags
   * are wrong.
   */
  lemma SplitStaleTag(nodes: Arena, nodes2: Arena, d1: seq<Blk>, bi: nat, L: Blk, R: Blk)
    requires bi + 1 < |d1| && BlkOk(nodes, d1[bi + 1]) && d1[bi + 1].size > 0
    requires IndexOk(nodes, d1[bi + 1], bi + 1) && Kept(nodes, nodes2, d1[bi + 1])
    ensures !Indices(nodes2, SplitTier(d1, bi, L, R), 0, |d1| + 1)
  {
    var d2 := SplitTier(d1, bi, L, R);
    SplitAt(d1, bi, L, R, bi + 2);
    KeptAt(nodes, nodes2, d1[bi + 1]);
    assert nodes2[d2[bi + 2].order[0]].blockIndex == bi + 1;
  }

  /** Blocks whose entries are a permutation of b's hold b's entries and exactly b's keys. */
  lemma Regrouped(bs: seq<Blk>, b: Blk)
    requires multiset(Flat(bs)) == multiset(b.vals)
    ensures forall j, i :: 0 <= j < |bs| && 0 <= i < |bs[j].vals| ==> bs[j].vals[i] in b.vals
    ensures forall k :: HasKey(bs, k) <==> HasKey([b], k)
  {
    RegroupedEntries(bs, b);
    FlatKeys(bs);
    FlatKeys([b]);
    assert Flat([b]) == b.vals by {
      assert [b][0] == b && [b][1..] == [];
    }
    PermutedKeyIn(Flat(bs), b.vals);
  }

  lemma RegroupedEntries(bs: seq<Blk>, b: Blk)
    requires multiset(Flat(bs)) == multiset(b.vals)
    ensures forall j, i :: 0 <= j < |bs| && 0 <= i < |bs[j].vals| ==> bs[j].vals[i] in b.vals
  {
    FlatMembers(bs);
    forall j, i | 0 <= j < |bs| && 0 <= i < |bs[j].vals| ensures bs[j].vals[i] in b.vals {
      assert bs[j].vals[i] in multiset(Flat(bs));
    }
  }

  /** Two permutations hold the same keys. */
  lemma PermutedKeyIn(s: seq<Entry>, r: seq<Entry>)
    requires multiset(s) == multiset(r)
    ensures forall k :: KeyIn(s, k) <==> KeyIn(r, k)
  {
    forall k | KeyIn(s, k) ensures KeyIn(r, k) {
      var i :| 0 <= i < |s| && s[i].key == k;
      assert s[i] in multiset(r);
      var j :| 0 <= j < |r| && r[j] == s[i];
    }
    forall k | KeyIn(r, k) ensures KeyIn(s, k) {
      var i :| 0 <= i < |r| && r[i].key == k;
      assert r[i] in multiset(s);
      var j :| 0 <= j < |s| && s[j] == r[i];
    }
  }

  /** The entries of a block have distinct keys. */
  lemma BlockKeysDistinct(nodes: Arena, all: seq<Blk>, k2n: map<int, nat>, content: map<int, Dist>, p: nat)
    requires Core(nodes, all, k2n, content) && p < |all|
    ensures DistinctKeys(all[p].vals)
  {
    forall i, j | 0 <= i < j < |all[p].vals| ensures all[p].vals[i].key != all[p].vals[j].key {
      KeyUnique(nodes, all, k2n, content, p, i, p, j);
    }
  }

  /** The entries of a stored block are the stored key -> value pairs. */
  lemma BlockEntries(nodes: Arena, all: seq<Blk>, k2n: map<int, nat>, content: map<int, Dist>, p: nat)
    requires Core(nodes, all, k2n, content) && p < |all|
    ensures forall e :: e in all[p].vals ==> e.key in content && content[e.key] == e.value
  {
    assert BlkOk(nodes, all[p]);
    forall e | e in all[p].vals ensures e.key in content && content[e.key] == e.value {
      var i :| 0 <= i < |all[p].vals| && all[p].vals[i] == e;
    }
  }

  /** The two halves of a list with distinct keys share no key. */
  lemma HalvesDisjoint(L: Blk, R: Blk, s: seq<Entry>, m: nat)
    requires DistinctKeys(s) && m <= |s| && L.vals == s[..m] && R.vals == s[m..]
    ensures forall k :: HasKey([L], k) ==> !HasKey([R], k)
  {
    assert [L][0] == L && [R][0] == R;
    forall k | HasKey([L], k) ensures !HasKey([R], k) {
      var p, i :| 0 <= p < 1 && 0 <= i < |[L][p].vals| && [L][p].vals[i].key == k;
      forall q, j | 0 <= q < 1 && 0 <= j < |[R][q].vals| ensures [R][q].vals[j].key != k {
        assert s[m + j] == R.vals[j] && s[i] == L.vals[i];
      }
    }
  }

  /** The halves of the sorted entries, built into two blocks one after the other. */
  lemma SplitBuilt(nodes: Arena, nodes1: Arena, nodes2: Arena, k2n: map<int, nat>, k2n1: map<int, nat>, k2n2: map<int, nat>,
                   sorted: seq<Entry>, m: nat, L: Blk, R: Blk)
    requires DistinctKeys(sorted) && m <= |sorted|
    requires Extends(nodes, nodes1) && |nodes1| == |nodes| + m
    requires FreshBlk(nodes1, L, sorted[..m], |nodes|, false) && Repointed(k2n, k2n1, sorted[..m], |nodes|)
    requires Extends(nodes1, nodes2) && |nodes2| == |nodes1| + (|sorted| - m)
    requires FreshBlk(nodes2, R, sorted[m..], |nodes1|, false) && Repointed(k2n1, k2n2, sorted[m..], |nodes1|)
    ensures Built(nodes, nodes2, [L, R], false) && Recorded(k2n, k2n2, [L, R]) && Flat([L, R]) == sorted
  {
    BuiltOne(nodes, nodes1, L, sorted[..m], false, k2n, k2n1);
    BuiltOne(nodes1, nodes2, R, sorted[m..], false, k2n1, k2n2);
    SplitJoin(nodes, nodes1, nodes2, k2n, k2n1, k2n2, sorted, m, L, R);
  }

  lemma SplitJoin(nodes: Arena, nodes1: Arena, nodes2: Arena, k2n: map<int, nat>, k2n1: map<int, nat>, k2n2: map<int, nat>,
                  sorted: seq<Entry>, m: nat, L: Blk, R: Blk)
    requires DistinctKeys(sorted) && m <= |sorted|
    requires Built(nodes, nodes1, [L], false) && Recorded(k2n, k2n1, [L]) && Flat([L]) == sorted[..m]
    requires Built(nodes1, nodes2, [R], false) && Recorded(k2n1, k2n2, [R]) && Flat([R]) == sorted[m..]
    ensures Built(nodes, nodes2, [L, R], false) && Recorded(k2n, k2n2, [L, R]) && Flat([L, R]) == sorted
  {
    assert [L] + [R] == [L, R];
    assert L.vals == sorted[..m] && R.vals == sorted[m..] by {
      assert [L][0] == L && [L][1..] == [] && [R][0] == R && [R][1..] == [];
    }
    BuiltConcat(nodes, nodes1, nodes2, [L], [R], false);
    HalvesDisjoint(L, R, sorted, m);
    RecordedConcat(k2n, k2n1, k2n2, [L], [R]);
    FlatConcat([L], [R]);
    assert sorted == sorted[..m] + sorted[m..];
  }

  /**
   * The left and right blocks built from the sorted entries of D1 block bi
   * hold the stored entries of that block and take its place in Core.
   */
  lemma SplitCore(nodes: Arena, nodes1: Arena, nodes2: Arena, d0: seq<Blk>, d1: seq<Blk>,
                  k2n: map<int, nat>, k2n1: map<int, nat>, k2n2: map<int, nat>, content: map<int, Dist>,
                  bi: nat, sorted: seq<Entry>, m: nat, L: Blk, R: Blk)
    requires Core(nodes, d0 + d1, k2n, content) && bi < |d1|
    requires multiset(sorted) == multiset(d1[bi].vals) && DistinctKeys(sorted) && m <= |sorted|
    requires Extends(nodes, nodes1) && |nodes1| == |nodes| + m
    requires FreshBlk(nodes1, L, sorted[..m], |nodes|, false) && Repointed(k2n, k2n1, sorted[..m], |nodes|)
    requires Extends(nodes1, nodes2) && |nodes2| == |nodes1| + (|sorted| - m)
    requires FreshBlk(nodes2, R, sorted[m..], |nodes1|, false) && Repointed(k2n1, k2n2, sorted[m..], |nodes1|)
    ensures Core(nodes2, d0 + SplitTier(d1, bi, L, R), k2n2, content)
    ensures forall q :: 0 <= q < |d0 + d1| ==> Kept(nodes, nodes2, (d0 + d1)[q])
    ensures forall i :: 0 <= i < |L.vals| ==> L.vals[i] in d1[bi].vals
    ensures forall i :: 0 <= i < |R.vals| ==> R.vals[i] in d1[bi].vals
  {
    var pre, mid, post, bs := d0 + d1[..bi], [d1[bi]], d1[bi + 1..], [L, R];
    assert d0 + d1 == pre + mid + post by {
      assert d1 == d1[..bi] + [d1[bi]] + d1[bi + 1..];
    }
    assert d0 + SplitTier(d1, bi, L, R) == pre + bs + post;
    SplitBuilt(nodes, nodes1, nodes2, k2n, k2n1, k2n2, sorted, m, L, R);
    Regrouped(bs, d1[bi]);
    assert (pre + mid + post)[|pre|] == d1[bi];
    BlockEntries(nodes, pre + mid + post, k2n, content, |pre|);
    forall j, i | 0 <= j < |bs| && 0 <= i < |bs[j].vals|
      ensures bs[j].vals[i].key in content && content[bs[j].vals[i].key] == bs[j].vals[i].value
    {
      assert bs[j].vals[i] in d1[bi].vals;
    }
    forall k | HasKey(bs, k) ensures k in content {
      var j, i :| 0 <= j < |bs| && 0 <= i < |bs[j].vals| && bs[j].vals[i].key == k;
    }
    SpliceCore(nodes, nodes2, pre, mid, post, bs, false, k2n, content, k2n2, content);
    assert L == bs[0] && R == bs[1];
  }

  /**
   * After the split of D1 block bi, with at least two entries, into the
   * halves L and R of its sorted entries, the invariant holds except for
   * the positions of the D1 blocks from bi + 2 on.
   */
  lemma SplitInv(nodes: Arena, nodes1: Arena, nodes2: Arena, d0: seq<Blk>, d1: seq<Blk>, ub: seq<Dist>,
                 k2n: map<int, nat>, k2n1: map<int, nat>, k2n2: map<int, nat>, content: map<int, Dist>,
                 bi: nat, bound: Dist, sorted: seq<Entry>, L: Blk, R: Blk)
    requires Inv(nodes, d0, d1, ub, k2n, content) && bi < |d1| && |d1[bi].vals| >= 2
    requires multiset(sorted) == multiset(d1[bi].vals) && ValueSorted(sorted) && DistinctKeys(sorted)
    requires Extends(nodes, nodes1) && |nodes1| == |nodes| + |sorted| / 2
    requires FreshBlk(nodes1, L, sorted[..|sorted| / 2], |nodes|, false) && IndexOk(nodes1, L, bi)
    requires Repointed(k2n, k2n1, sorted[..|sorted| / 2], |nodes|)
    requires Extends(nodes1, nodes2) && |nodes2| == |nodes1| + (|sorted| - |sorted| / 2)
    requires FreshBlk(nodes2, R, sorted[|sorted| / 2..], |nodes1|, false) && IndexOk(nodes2, R, bi + 1)
    requires Repointed(k2n1, k2n2, sorted[|sorted| / 2..], |nodes1|)
    ensures Stale(nodes2, d0, SplitTier(d1, bi, L, R), SplitBounds(ub, bi, L.vals, R.vals, bound), k2n2, content, |d0|, bi + 2)
    ensures forall q :: 0 <= q < |d0 + d1| ==> Kept(nodes, nodes2, (d0 + d1)[q])
  {
    var m := |sorted| / 2;
    SplitCore(nodes, nodes1, nodes2, d0, d1, k2n, k2n1, k2n2, content, bi, sorted, m, L, R);
    TierInArena(nodes, d0, d1, k2n, content);
    TierAt(d0, d1, false, bi);
    FreshKept(nodes1, nodes2, L, sorted[..m], |nodes|, false, bi);
    SplitTags(nodes, nodes2, d0, d1, bi, L, R);
    assert |sorted| == |multiset(d1[bi].vals)| == |d1[bi].vals|;
    Halves(sorted, m, L.vals, R.vals);
    SplitBounded(d1, ub, bi, L, R, bound);
  }

  /** The two halves of entries sorted by value: the left one is below the right one. */
  lemma Halves(sorted: seq<Entry>, m: nat, left: seq<Entry>, right: seq<Entry>)
    requires ValueSorted(sorted) && m <= |sorted| && left == sorted[..m] && right == sorted[m..]
    ensures forall i, j :: 0 <= i < |left| && 0 <= j < |right| ==> Le(left[i].value, right[j].value)
  {
    forall i, j | 0 <= i < |left| && 0 <= j < |right| ensures Le(left[i].value, right[j].value) {
      assert left[i] == sorted[i] && right[j] == sorted[m + j];
    }
  }

  /**
   * `split` as written: when a non-empty D1 block follows the split one,
   * the state after the split, which keeps that block's nodes, breaks the
   * invariant, for its nodes still carry its old position.
   */
  lemma SplitBreaksInv(nodes: Arena, nodes2: Arena, d0: seq<Blk>, d1: seq<Blk>, ub: seq<Dist>, k2n: map<int, nat>,
                       content: map<int, Dist>, bi: nat, L: Blk, R: Blk,
                       ub2: seq<Dist>, k2n2: map<int, nat>, content2: map<int, Dist>)
    requires Inv(nodes, d0, d1, ub, k2n, content) && bi + 1 < |d1| && d1[bi + 1].size > 0
    requires forall q :: 0 <= q < |d0 + d1| ==> Kept(nodes, nodes2, (d0 + d1)[q])
    ensures !Inv(nodes2, d0, SplitTier(d1, bi, L, R), ub2, k2n2, content2)
  {
    TierInArena(nodes, d0, d1, k2n, content);
    TierAt(d0, d1, false, bi + 1);
    SplitStaleTag(nodes, nodes2, d1, bi, L, R);
  }
}
