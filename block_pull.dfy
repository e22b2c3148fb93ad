/**
 * `pull()` of PartialHeap.kt on values: the blocks it gathers from the front
 * of D0 and then of D1, the facts about their entries, and the state after
 * its fast path drops those blocks.
 */
module BlockPulls {
  import opened Common
  import opened LinkedLists
  import opened BlockQueues
  import opened BlockBuilds
  import opened BlockSplits
  import opened EntrySorting

  /** The blocks pull gathers: the first c0 blocks of D0, then the first c1 of D1. */
  function Front(d0: seq<Blk>, d1: seq<Blk>, c0: nat, c1: nat): seq<Blk>
    requires c0 <= |d0| && c1 <= |d1|
  {
    d0[..c0] + d1[..c1]
  }

  /** Gathering one more block of D0 appends its entries. */
  lemma FrontSnoc0(d0: seq<Blk>, d1: seq<Blk>, c0: nat)
    requires c0 < |d0|
    ensures Flat(Front(d0, d1, c0 + 1, 0)) == Flat(Front(d0, d1, c0, 0)) + d0[c0].vals
  {
    assert Front(d0, d1, c0 + 1, 0) == Front(d0, d1, c0, 0) + [d0[c0]];
    FlatConcat(Front(d0, d1, c0, 0), [d0[c0]]);
    assert Flat([d0[c0]]) == d0[c0].vals + Flat([]);
  }

  /** Gathering one more block of D1 appends its entries. */
  lemma FrontSnoc1(d0: seq<Blk>, d1: seq<Blk>, c0: nat, c1: nat)
    requires c0 <= |d0| && c1 < |d1|
    ensures Flat(Front(d0, d1, c0, c1 + 1)) == Flat(Front(d0, d1, c0, c1)) + d1[c1].vals
  {
    assert Front(d0, d1, c0, c1 + 1) == Front(d0, d1, c0, c1) + [d1[c1]];
    FlatConcat(Front(d0, d1, c0, c1), [d1[c1]]);
    assert Flat([d1[c1]]) == d1[c1].vals + Flat([]);
  }

  /** Where front block q sits in d0 + d1. */
  function FrontPos(n0: nat, c0: nat, q: nat): nat {
    if q < c0 then q else n0 + (q - c0)
  }

  /** Where block q of `d0[c0..] + d1[c1..]` sits in d0 + d1. */
  function RestPos(n0: nat, c0: nat, c1: nat, q: nat): nat {
    if q < n0 - c0 then c0 + q else n0 + c1 + (q - (n0 - c0))
  }

  /** A position of d0 + d1 outside the front. */
  predicate InRest(n0: nat, c0: nat, c1: nat, p: nat) {
    (c0 <= p < n0) || n0 + c1 <= p
  }

  lemma FrontAt(d0: seq<Blk>, d1: seq<Blk>, c0: nat, c1: nat, q: nat)
    requires c0 <= |d0| && c1 <= |d1| && q < c0 + c1
    ensures FrontPos(|d0|, c0, q) < |d0 + d1| && !InRest(|d0|, c0, c1, FrontPos(|d0|, c0, q))
    ensures Front(d0, d1, c0, c1)[q] == (d0 + d1)[FrontPos(|d0|, c0, q)]
  {
  }

  lemma RestAt(d0: seq<Blk>, d1: seq<Blk>, c0: nat, c1: nat, q: nat)
    requires c0 <= |d0| && c1 <= |d1| && q < |d0[c0..] + d1[c1..]|
    ensures RestPos(|d0|, c0, c1, q) < |d0 + d1| && InRest(|d0|, c0, c1, RestPos(|d0|, c0, c1, q))
    ensures (d0[c0..] + d1[c1..])[q] == (d0 + d1)[RestPos(|d0|, c0, c1, q)]
  {
  }

  /** No key occurs at two positions of the blocks. */
  ghost predicate UniqueKeys(bs: seq<Blk>) {
    forall p, i, q, j {:trigger bs[p].vals[i], bs[q].vals[j]} ::
      0 <= p < |bs| && 0 <= i < |bs[p].vals| && 0 <= q < |bs| && 0 <= j < |bs[q].vals| && bs[p].vals[i].key == bs[q].vals[j].key
      ==> p == q && i == j
  }

  lemma CoreUnique(nodes: Arena, all: seq<Blk>, k2n: map<int, nat>, content: map<int, Dist>)
    requires Core(nodes, all, k2n, content)
    ensures UniqueKeys(all)
  {
    forall p, i, q, j | 0 <= p < |all| && 0 <= i < |all[p].vals| && 0 <= q < |all| && 0 <= j < |all[q].vals|
      ensures all[p].vals[i].key == all[q].vals[j].key ==> p == q && i == j
    {
      KeyUnique(nodes, all, k2n, content, p, i, q, j);
    }
  }

  lemma FrontUnique(d0: seq<Blk>, d1: seq<Blk>, c0: nat, c1: nat)
    requires UniqueKeys(d0 + d1) && c0 <= |d0| && c1 <= |d1|
    ensures UniqueKeys(Front(d0, d1, c0, c1))
  {
    var f := Front(d0, d1, c0, c1);
    forall p, i, q, j | 0 <= p < |f| && 0 <= i < |f[p].vals| && 0 <= q < |f| && 0 <= j < |f[q].vals|
      ensures f[p].vals[i].key == f[q].vals[j].key ==> p == q && i == j
    {
      FrontAt(d0, d1, c0, c1, p);
      FrontAt(d0, d1, c0, c1, q);
    }
  }

  /** Two lists with distinct keys and no key in common make a list with distinct keys. */
  lemma DistinctConcat(a: seq<Entry>, b: seq<Entry>)
    requires DistinctKeys(a) && DistinctKeys(b)
    requires forall i, j :: 0 <= i < |a| && 0 <= j < |b| ==> a[i].key != b[j].key
    ensures DistinctKeys(a + b)
  {
    forall i, j | 0 <= i < j < |a + b| ensures (a + b)[i].key != (a + b)[j].key {
      if j < |a| {
        assert (a + b)[i] == a[i] && (a + b)[j] == a[j];
      } else if i < |a| {
        assert (a + b)[i] == a[i] && (a + b)[j] == b[j - |a|];
      } else {
        assert (a + b)[i] == b[i - |a|] && (a + b)[j] == b[j - |a|];
      }
    }
  }

  /** The entries of blocks without repeated keys have distinct keys. */
  lemma {:induction false} FlatDistinct(bs: seq<Blk>)
    requires UniqueKeys(bs)
    ensures DistinctKeys(Flat(bs))
    decreases |bs|
  {
    if bs != [] {
      var a, rest := bs[0].vals, bs[1..];
      forall p, i, q, j | 0 <= p < |rest| && 0 <= i < |rest[p].vals| && 0 <= q < |rest| && 0 <= j < |rest[q].vals|
        ensures rest[p].vals[i].key == rest[q].vals[j].key ==> p == q && i == j
      {
        assert rest[p] == bs[p + 1] && rest[q] == bs[q + 1];
      }
      FlatDistinct(rest);
      FlatMembers(rest);
      forall i, m | 0 <= i < |a| && 0 <= m < |Flat(rest)| ensures a[i].key != Flat(rest)[m].key {
        assert Flat(rest)[m] in Flat(rest);
        var j, i' :| 0 <= j < |rest| && 0 <= i' < |rest[j].vals| && rest[j].vals[i'] == Flat(rest)[m];
        assert rest[j] == bs[j + 1] && bs[0].vals[i] == a[i];
      }
      forall i, j | 0 <= i < j < |a| ensures a[i].key != a[j].key {
        assert bs[0].vals[i] == a[i] && bs[0].vals[j] == a[j];
      }
      DistinctConcat(a, Flat(rest));
    }
  }

  /**
   * The entries gathered from the front blocks have distinct keys and are
   * stored entries; when every block is gathered, every stored key is among
   * them.
   */
  lemma FrontFacts(nodes: Arena, d0: seq<Blk>, d1: seq<Blk>, k2n: map<int, nat>, content: map<int, Dist>, c0: nat, c1: nat)
    requires Core(nodes, d0 + d1, k2n, content) && c0 <= |d0| && c1 <= |d1|
    ensures var f := Flat(Front(d0, d1, c0, c1));
      && DistinctKeys(f)
      && (forall e :: e in f ==> e.key in content && content[e.key] == e.value)
      && (c0 == |d0| && c1 == |d1| ==> forall k :: k in content ==> k in KeySet(f))
  {
    var all, fr := d0 + d1, Front(d0, d1, c0, c1);
    var f := Flat(fr);
    CoreUnique(nodes, all, k2n, content);
    FrontUnique(d0, d1, c0, c1);
    FlatDistinct(fr);
    FlatMembers(fr);
    forall e | e in f ensures e.key in content && content[e.key] == e.value {
      var j, i :| 0 <= j < |fr| && 0 <= i < |fr[j].vals| && fr[j].vals[i] == e;
      FrontAt(d0, d1, c0, c1, j);
      BlockEntries(nodes, all, k2n, content, FrontPos(|d0|, c0, j));
    }
    if c0 == |d0| && c1 == |d1| {
      assert fr == all;
      FlatMembers(all);
      forall k | k in content ensures k in KeySet(f) {
        var p, i :| 0 <= p < |all| && 0 <= i < |all[p].vals| && all[p].vals[i].key == k;
        assert all[p].vals[i] in f;
      }
    }
  }

  /** The entries of the front blocks, with their positions in d0 + d1. */
  lemma FrontKeys(d0: seq<Blk>, d1: seq<Blk>, c0: nat, c1: nat)
    requires c0 <= |d0| && c1 <= |d1|
    ensures forall k :: k in KeySet(Flat(Front(d0, d1, c0, c1))) ==>
      exists p, i :: 0 <= p < |d0 + d1| && !InRest(|d0|, c0, c1, p) && 0 <= i < |(d0 + d1)[p].vals| && (d0 + d1)[p].vals[i].key == k
    ensures forall p, i :: 0 <= p < |d0 + d1| && !InRest(|d0|, c0, c1, p) && 0 <= i < |(d0 + d1)[p].vals| ==>
      (d0 + d1)[p].vals[i].key in KeySet(Flat(Front(d0, d1, c0, c1)))
  {
    var all, fr := d0 + d1, Front(d0, d1, c0, c1);
    FlatMembers(fr);
    forall k | k in KeySet(Flat(fr))
      ensures exists p, i :: 0 <= p < |all| && !InRest(|d0|, c0, c1, p) && 0 <= i < |all[p].vals| && all[p].vals[i].key == k
    {
      var e :| e in Flat(fr) && e.key == k;
      var j, i :| 0 <= j < |fr| && 0 <= i < |fr[j].vals| && fr[j].vals[i] == e;
      FrontAt(d0, d1, c0, c1, j);
    }
    forall p, i | 0 <= p < |all| && !InRest(|d0|, c0, c1, p) && 0 <= i < |all[p].vals|
      ensures all[p].vals[i].key in KeySet(Flat(fr))
    {
      var q := if p < c0 then p else c0 + (p - |d0|);
      FrontAt(d0, d1, c0, c1, q);
      assert fr[q].vals[i] in Flat(fr);
    }
  }

  /** The blocks that stay are well formed and disjoint. */
  lemma RestBlks(nodes: Arena, d0: seq<Blk>, d1: seq<Blk>, c0: nat, c1: nat)
    requires (forall q :: 0 <= q < |d0 + d1| ==> BlkOk(nodes, (d0 + d1)[q])) && Disjoint(d0 + d1)
    requires c0 <= |d0| && c1 <= |d1|
    ensures forall q :: 0 <= q < |d0[c0..] + d1[c1..]| ==> BlkOk(nodes, (d0[c0..] + d1[c1..])[q])
    ensures Disjoint(d0[c0..] + d1[c1..])
  {
    var rest := d0[c0..] + d1[c1..];
    forall q | 0 <= q < |rest| ensures BlkOk(nodes, rest[q]) {
      RestAt(d0, d1, c0, c1, q);
    }
    forall p, q, x | 0 <= p < |rest| && 0 <= q < |rest| && p != q && x in rest[p].order ensures x !in rest[q].order {
      RestAt(d0, d1, c0, c1, p);
      RestAt(d0, d1, c0, c1, q);
    }
  }

  /** The entries that stay keep their index and content entries once the gathered keys S are gone. */
  lemma RestCovered(nodes: Arena, d0: seq<Blk>, d1: seq<Blk>, k2n: map<int, nat>, content: map<int, Dist>, c0: nat, c1: nat)
    requires Core(nodes, d0 + d1, k2n, content) && c0 <= |d0| && c1 <= |d1|
    ensures var S := KeySet(Flat(Front(d0, d1, c0, c1)));
      Covered(d0[c0..] + d1[c1..], k2n - S, content - S)
  {
    var all, rest, S := d0 + d1, d0[c0..] + d1[c1..], KeySet(Flat(Front(d0, d1, c0, c1)));
    FrontKeys(d0, d1, c0, c1);
    forall q, i | 0 <= q < |rest| && 0 <= i < |rest[q].vals| && i < |rest[q].order|
      ensures && rest[q].vals[i].key in k2n - S && (k2n - S)[rest[q].vals[i].key] == rest[q].order[i]
              && rest[q].vals[i].key in content - S && (content - S)[rest[q].vals[i].key] == rest[q].vals[i].value
    {
      RestAt(d0, d1, c0, c1, q);
      var P := RestPos(|d0|, c0, c1, q);
      forall p, j | 0 <= p < |all| && !InRest(|d0|, c0, c1, p) && 0 <= j < |all[p].vals| ensures all[p].vals[j].key != rest[q].vals[i].key {
        KeyUnique(nodes, all, k2n, content, p, j, P, i);
      }
      assert all[P].vals[i] == rest[q].vals[i];
    }
  }

  /** Every stored key that is not gathered is in a block that stays. */
  lemma RestIndexed(nodes: Arena, d0: seq<Blk>, d1: seq<Blk>, k2n: map<int, nat>, content: map<int, Dist>, c0: nat, c1: nat)
    requires Indexed(d0 + d1, k2n, content) && c0 <= |d0| && c1 <= |d1|
    ensures var S := KeySet(Flat(Front(d0, d1, c0, c1)));
      Indexed(d0[c0..] + d1[c1..], k2n - S, content - S)
  {
    var all, rest, S := d0 + d1, d0[c0..] + d1[c1..], KeySet(Flat(Front(d0, d1, c0, c1)));
    FrontKeys(d0, d1, c0, c1);
    forall k | k in content - S ensures HasKey(rest, k) {
      assert HasKey(all, k);
      var p, i :| 0 <= p < |all| && 0 <= i < |all[p].vals| && all[p].vals[i].key == k;
      assert InRest(|d0|, c0, c1, p);
      var q := if p < |d0| then p - c0 else (|d0| - c0) + (p - |d0| - c1);
      RestAt(d0, d1, c0, c1, q);
      assert rest[q].vals[i].key == k;
    }
  }

  /** Dropping the first c blocks of D1 with their bounds keeps the bounds. */
  lemma RestBounded(d1: seq<Blk>, ub: seq<Dist>, c: nat)
    requires Bounded(d1, ub) && c <= |d1|
    ensures Bounded(d1[c..], ub[c..])
  {
    var b, u := d1[c..], ub[c..];
    forall j, x | 0 <= j < |b| && 0 <= x < |b[j].vals|
      ensures && (0 < j ==> Le(u[j - 1], b[j].vals[x].value))
              && (j < |b| - 1 ==> Le(b[j].vals[x].value, u[j]))
    {
      assert b[j] == d1[c + j] && d1[c + j].vals[x] == b[j].vals[x];
    }
  }

  /** The tier flags survive dropping front blocks. */
  lemma RestFlags(nodes: Arena, blks: seq<Blk>, c: nat, flag: bool)
    requires Flags(nodes, blks, flag) && c <= |blks|
    ensures Flags(nodes, blks[c..], flag)
  {
    forall j | 0 <= j < |blks[c..]| ensures FlagOk(nodes, blks[c..][j], flag) {
      assert blks[c..][j] == blks[c + j];
    }
  }

  /**
   * The fast path of `pull` drops the gathered blocks (with their bounds)
   * and their keys: the state keeps the invariant except for the positions
   * of every block.
   */
  lemma FrontDropStale(nodes: Arena, d0: seq<Blk>, d1: seq<Blk>, ub: seq<Dist>, k2n: map<int, nat>, content: map<int, Dist>,
                       c0: nat, c1: nat)
    requires Inv(nodes, d0, d1, ub, k2n, content) && c0 <= |d0| && c1 <= |d1|
    ensures var S := KeySet(Flat(Front(d0, d1, c0, c1)));
      Stale(nodes, d0[c0..], d1[c1..], ub[c1..], k2n - S, content - S, 0, 0)
  {
    RestBlks(nodes, d0, d1, c0, c1);
    RestCovered(nodes, d0, d1, k2n, content, c0, c1);
    RestIndexed(nodes, d0, d1, k2n, content, c0, c1);
    RestFlags(nodes, d0, c0, true);
    RestFlags(nodes, d1, c1, false);
    RestBounded(d1, ub, c1);
  }

  /**
   * The fast path of `pull` as written, which drops the gathered blocks but
   * does not renumber the rest: when a non-empty block stays behind a
   * dropped one in its tier, its nodes still carry the old position, and
   * whatever keyToNode and content are, the state breaks the invariant.
   */
  lemma DropFrontBreaksInv(nodes: Arena, d0: seq<Blk>, d1: seq<Blk>, ub: seq<Dist>, k2n: map<int, nat>, content: map<int, Dist>,
                           c0: nat, c1: nat, k2n2: map<int, nat>, content2: map<int, Dist>)
    requires Inv(nodes, d0, d1, ub, k2n, content) && c0 <= |d0| && c1 <= |d1|
    requires (0 < c1 < |d1| && d1[c1].size > 0) || (0 < c0 < |d0| && d0[c0].size > 0)
    ensures !Inv(nodes, d0[c0..], d1[c1..], ub[c1..], k2n2, content2)
  {
    TierInArena(nodes, d0, d1, k2n, content);
    if 0 < c1 < |d1| && d1[c1].size > 0 {
      var b := d1[c1];
      assert d1[c1..][0] == b && IndexOk(nodes, b, c1);
      assert nodes[b.order[0]].blockIndex == c1;
      assert !IndexOk(nodes, d1[c1..][0], 0);
    } else {
      var b := d0[c0];
      assert d0[c0..][0] == b && IndexOk(nodes, b, c0);
      assert nodes[b.order[0]].blockIndex == c0;
      assert !IndexOk(nodes, d0[c0..][0], 0);
    }
  }

  // ---------------------------------------------------------------------
  // Keys of gathered entries

  lemma KeySetSnoc(es: seq<Entry>, i: nat)
    requires i < |es|
    ensures KeySet(es[..i + 1]) == KeySet(es[..i]) + {es[i].key}
  {
    assert es[..i + 1] == es[..i] + [es[i]];
    forall k | k in KeySet(es[..i + 1]) ensures k in KeySet(es[..i]) + {es[i].key} {
      var e :| e in es[..i + 1] && e.key == k;
      if e != es[i] {
        assert e in es[..i];
      }
    }
    forall k | k in KeySet(es[..i]) + {es[i].key} ensures k in KeySet(es[..i + 1]) {
      if k != es[i].key {
        var e :| e in es[..i] && e.key == k;
        assert e in es[..i + 1];
      } else {
        assert es[i] in es[..i + 1];
      }
    }
  }

  /** Dropping the first entry keeps the keys distinct; the first key is not among the others. */
  lemma DistinctTail(es: seq<Entry>)
    requires DistinctKeys(es) && es != []
    ensures DistinctKeys(es[1..]) && es[0].key !in KeySet(es[1..])
  {
    var rest := es[1..];
    forall i, j | 0 <= i < j < |rest| ensures rest[i].key != rest[j].key {
      assert rest[i] == es[i + 1] && rest[j] == es[j + 1];
    }
    forall e | e in rest ensures e.key != es[0].key {
      var j :| 0 <= j < |rest| && rest[j] == e;
      assert es[j + 1] == e;
    }
  }

  /** Distinct keys: as many keys as entries. */
  lemma {:induction false} KeySetSize(es: seq<Entry>)
    requires DistinctKeys(es)
    ensures |KeySet(es)| == |es|
    decreases |es|
  {
    if es != [] {
      DistinctTail(es);
      KeySetSize(es[1..]);
    }
  }

  /** A key that occurs after the first i entries only is not among their keys. */
  lemma KeyNotBefore(es: seq<Entry>, i: nat)
    requires DistinctKeys(es) && i < |es|
    ensures es[i].key !in KeySet(es[..i])
  {
    forall e | e in es[..i] ensures e.key != es[i].key {
      var j :| 0 <= j < i && es[..i][j] == e;
    }
  }

  /** Entries with distinct stored keys are no more than the stored keys. */
  lemma {:induction false} StoredAtMost(es: seq<Entry>, content: map<int, Dist>)
    requires DistinctKeys(es) && forall e :: e in es ==> e.key in content
    ensures |es| <= |content.Keys|
    decreases |es|
  {
    if es != [] {
      var k := es[0].key;
      assert es[0] in es;
      DistinctTail(es);
      forall e | e in es[1..] ensures e.key in content - {k} {
        assert e in es;
      }
      StoredAtMost(es[1..], content - {k});
      assert (content - {k}).Keys == content.Keys - {k};
    }
  }

  /** The keys of entries with distinct keys, in order, make a set of those keys. */
  lemma KeysElems(es: seq<Entry>)
    requires DistinctKeys(es)
    ensures Distinct(Keys(es)) && Elems(Keys(es)) == KeySet(es)
  {
    var ks := Keys(es);
    forall x ensures x in ks <==> x in KeySet(es) {
      if x in ks {
        var i :| 0 <= i < |ks| && ks[i] == x;
        assert es[i] in es;
      }
      if x in KeySet(es) {
        var e :| e in es && e.key == x;
        var i :| 0 <= i < |es| && es[i] == e;
        assert ks[i] == x;
      }
    }
  }

  /** Sets of keys removed from a map: removing all of its keys leaves nothing. */
  lemma AllRemoved(c: map<int, Dist>, S: set<int>)
    requires forall k :: k in c ==> k in S
    ensures c - S == map[]
  {
    forall k ensures k !in c - S {
    }
    assert (c - S).Keys == {};
  }

  /** Two lists that are permutations of each other have the same members. */
  lemma SameMembers(a: seq<Entry>, b: seq<Entry>)
    requires multiset(a) == multiset(b)
    ensures forall e :: e in a <==> e in b
  {
    forall e ensures e in a <==> e in b {
      assert e in a <==> e in multiset(a);
      assert e in b <==> e in multiset(b);
    }
  }

  /** The first M entries of a list with distinct keys have M distinct keys, none of them the next entry's. */
  lemma PrefixDistinct(sorted: seq<Entry>, M: nat)
    requires DistinctKeys(sorted) && M < |sorted|
    ensures DistinctKeys(sorted[..M]) && |KeySet(sorted[..M])| == M && sorted[M].key !in KeySet(sorted[..M])
  {
    var pre := sorted[..M];
    forall i, j | 0 <= i < j < M ensures pre[i].key != pre[j].key {
      assert pre[i] == sorted[i] && pre[j] == sorted[j];
    }
    KeySetSize(pre);
    KeyNotBefore(sorted, M);
  }

  /** In a list sorted by value, the first M entries are at most the next one. */
  lemma PrefixBelow(sorted: seq<Entry>, M: nat)
    requires ValueSorted(sorted) && M < |sorted|
    ensures forall e :: e in sorted[..M] ==> e in sorted && Le(e.value, sorted[M].value)
  {
    forall e | e in sorted[..M] ensures e in sorted && Le(e.value, sorted[M].value) {
      var i :| 0 <= i < M && sorted[..M][i] == e;
      assert e == sorted[i];
    }
  }

  /** In a list sorted by value, an entry whose key is not among the first M is at least entry M. */
  lemma PrefixAbove(sorted: seq<Entry>, M: nat)
    requires ValueSorted(sorted) && M < |sorted|
    ensures forall j :: 0 <= j < |sorted| ==> sorted[j].key in KeySet(sorted[..M]) || Le(sorted[M].value, sorted[j].value)
  {
    forall j | 0 <= j < |sorted| ensures sorted[j].key in KeySet(sorted[..M]) || Le(sorted[M].value, sorted[j].value) {
      if j < M {
        assert sorted[j] == sorted[..M][j];
      }
    }
  }

  /**
   * The slow path of `pull`: of the gathered entries sorted by value, the
   * first M give the returned keys, the next one the returned bound, which
   * is at least the values of those keys and at most the values of every
   * other gathered entry.
   */
  lemma SlowPathFacts(collected: seq<Entry>, sorted: seq<Entry>, M: nat, content: map<int, Dist>)
    requires forall e :: e in collected ==> e.key in content && content[e.key] == e.value
    requires multiset(sorted) == multiset(collected) && ValueSorted(sorted) && DistinctKeys(sorted)
    requires |sorted| > M
    ensures var S, x := KeySet(sorted[..M]), sorted[M].value;
      && S <= KeySet(collected) && |S| == M && DistinctKeys(sorted[..M])
      && (forall e :: e in sorted[..M] ==> e.key in content)
      && (forall k :: k in S ==> k in content && Le(content[k], x))
      && (exists e :: e in collected && e.key !in S && e.value == x)
      && (forall e :: e in collected && e.key !in S ==> Le(x, e.value))
  {
    SameMembers(sorted, collected);
    PrefixDistinct(sorted, M);
    PrefixBelow(sorted, M);
    PrefixAbove(sorted, M);
    var S := KeySet(sorted[..M]);
    forall k | k in S ensures k in KeySet(collected) {
      var e :| e in sorted[..M] && e.key == k;
      assert e in sorted;
    }
    assert sorted[M] in sorted;
    forall e | e in collected && e.key !in S ensures Le(sorted[M].value, e.value) {
      var j :| 0 <= j < |sorted| && sorted[j] == e;
    }
  }
}
