/**
 * `sortBy { it.second }` and `sortedBy { it.second }` on lists of
 * (key, value) pairs, as PartialHeap uses them: an insertion sort by value
 * that returns a permutation of its input, with the facts about
 * permutations that the queue needs (the keys stay distinct).
 */
module EntrySorting {
  import opened Common

  /** The values of s are non-decreasing. */
  ghost predicate ValueSorted(s: seq<Entry>) {
    forall i, j :: 0 <= i < j < |s| ==> Le(s[i].value, s[j].value)
  }

  /** Inserts e after every entry whose value is at most e's, keeping the order by value. */
  method InsertSorted(r: seq<Entry>, e: Entry) returns (r2: seq<Entry>)
    requires ValueSorted(r)
    ensures |r2| == |r| + 1 && multiset(r2) == multiset(r) + multiset{e} && ValueSorted(r2)
  {
    var k := 0;
    while k < |r| && Le(r[k].value, e.value)
      invariant 0 <= k <= |r|
      invariant forall m :: 0 <= m < k ==> Le(r[m].value, e.value)
    {
      k := k + 1;
    }
    r2 := r[..k] + [e] + r[k..];
    assert r == r[..k] + r[k..];
    Inserted(r, e, k);
  }

  /** Putting e after the entries of value at most e's value, and before the rest, keeps the order by value. */
  lemma Inserted(r: seq<Entry>, e: Entry, k: nat)
    requires ValueSorted(r) && k <= |r|
    requires forall m :: 0 <= m < k ==> Le(r[m].value, e.value)
    requires k < |r| ==> !Le(r[k].value, e.value)
    ensures ValueSorted(r[..k] + [e] + r[k..])
  {
    var r2 := r[..k] + [e] + r[k..];
    forall i, j | 0 <= i < j < |r2| ensures Le(r2[i].value, r2[j].value) {
      if j <= k {
        assert r2[i] == r[i] && (j < k ==> r2[j] == r[j]);
      } else if i < k {
        assert r2[i] == r[i] && r2[j] == r[j - 1];
      } else if i == k {
        assert r2[j] == r[j - 1] && Le(r[k].value, r[j - 1].value);
      } else {
        assert r2[i] == r[i - 1] && r2[j] == r[j - 1];
      }
    }
  }

  /** `sortBy { it.second }`: a permutation of s in order of value. */
  method SortByValue(s: seq<Entry>) returns (r: seq<Entry>)
    ensures |r| == |s| && multiset(r) == multiset(s) && ValueSorted(r)
  {
    r := [];
    for i := 0 to |s|
      invariant |r| == i && multiset(r) == multiset(s[..i]) && ValueSorted(r)
    {
      assert s[..i + 1] == s[..i] + [s[i]];
      r := InsertSorted(r, s[i]);
    }
    assert s[..|s|] == s;
  }

  /** An entry that occurs at two positions occurs at least twice in the multiset. */
  lemma TwiceCounted(s: seq<Entry>, i: nat, j: nat)
    requires i < j < |s| && s[i] == s[j]
    ensures multiset(s)[s[i]] >= 2
  {
    assert s == s[..j] + [s[j]] + s[j + 1..];
    assert s[i] in s[..j];
  }

  /** An entry counted twice occurs at two positions. */
  lemma TwoPositions(s: seq<Entry>, x: Entry) returns (a: nat, b: nat)
    requires multiset(s)[x] >= 2
    ensures a < b < |s| && s[a] == x && s[b] == x
  {
    a :| 0 <= a < |s| && s[a] == x;
    assert s == s[..a] + [s[a]] + s[a + 1..];
    if x in s[a + 1..] {
      var c :| 0 <= c < |s[a + 1..]| && s[a + 1..][c] == x;
      b := a + 1 + c;
    } else {
      assert multiset(s[..a])[x] >= 1;
      assert x in s[..a];
      var c :| 0 <= c < a && s[c] == x;
      b := a;
      a := c;
    }
  }

  /** A permutation of entries with distinct keys has distinct keys. */
  lemma PermutedKeys(s: seq<Entry>, r: seq<Entry>)
    requires multiset(r) == multiset(s) && DistinctKeys(s)
    ensures DistinctKeys(r)
  {
    forall i, j | 0 <= i < j < |r| ensures r[i].key != r[j].key {
      assert r[i] in multiset(s) && r[j] in multiset(s);
      if r[i] == r[j] {
        TwiceCounted(r, i, j);
        var a, b := TwoPositions(s, r[i]);
      } else {
        var a :| 0 <= a < |s| && s[a] == r[i];
        var b :| 0 <= b < |s| && s[b] == r[j];
        assert a != b;
      }
    }
  }
}
