/**
 * The array-backed binary min-heap of BinaryHeap.kt, specialised to the
 * (vertex, distance) pairs that both of its users store, ordered by distance
 * (`compareBy { it.second }`). The backing `MutableList` is the sequence
 * field `heap`; the element at index i has its parent at (i - 1) / 2.
 */
module BinaryHeaps {
  import opened Common

  /** `comparator.compare(a, b) < 0` for `compareBy { it.second }`. */
  predicate Less(a: Entry, b: Entry) {
    Lt(a.value, b.value)
  }

  /** No element is smaller than its parent. */
  ghost predicate IsHeap(h: seq<Entry>) {
    forall p, c :: 0 <= p < c < |h| && p == (c - 1) / 2 ==> Le(h[p].value, h[c].value)
  }

  /**
   * Heap order holds for every parent/child pair except the pair whose child
   * is k, and k's parent is no greater than k's children: the state while k
   * sifts up.
   */
  ghost predicate HeapExceptUp(h: seq<Entry>, k: nat) {
    && (forall p, c :: 0 <= p < c < |h| && p == (c - 1) / 2 && c != k ==> Le(h[p].value, h[c].value))
    && (0 < k < |h| ==> forall c :: 0 < c < |h| && (c - 1) / 2 == k ==> Le(h[(k - 1) / 2].value, h[c].value))
  }

  /**
   * Heap order holds for every parent/child pair except the pairs whose
   * parent is k, and k's parent is no greater than k's children: the state
   * while k sifts down.
   */
  ghost predicate HeapExceptDown(h: seq<Entry>, k: nat) {
    && (forall p, c :: 0 <= p < c < |h| && p == (c - 1) / 2 && p != k ==> Le(h[p].value, h[c].value))
    && (0 < k < |h| ==> forall c :: 0 < c < |h| && (c - 1) / 2 == k ==> Le(h[(k - 1) / 2].value, h[c].value))
  }

  /** h with the elements at i and j exchanged, as `swap(i, j)` leaves it. */
  function Swapped(h: seq<Entry>, i: nat, j: nat): (r: seq<Entry>)
    requires i < |h| && j < |h|
    ensures |r| == |h| && r[i] == h[j] && r[j] == h[i]
    ensures forall x :: 0 <= x < |h| && x != i && x != j ==> r[x] == h[x]
    ensures multiset(r) == multiset(h)
  {
    h[i := h[j]][j := h[i]]
  }

  /** The root of a heap is no greater than any element. */
  lemma HeapRootMin(h: seq<Entry>)
    requires IsHeap(h) && h != []
    ensures forall e :: e in multiset(h) ==> Le(h[0].value, e.value)
  {
    forall e | e in multiset(h) ensures Le(h[0].value, e.value) {
      assert e in h;
      var i :| 0 <= i < |h| && h[i] == e;
      RootBelow(h, i);
    }
  }

  lemma {:induction false} RootBelow(h: seq<Entry>, i: nat)
    requires IsHeap(h) && i < |h|
    ensures Le(h[0].value, h[i].value)
    decreases i
  {
    if i > 0 {
      var p := (i - 1) / 2;
      RootBelow(h, p);
      assert Le(h[p].value, h[i].value);
    }
  }

  /** A heap with an element appended is a heap except that the new last element may sift up. */
  lemma AppendExceptUp(h: seq<Entry>, e: Entry)
    requires IsHeap(h)
    ensures HeapExceptUp(h + [e], |h|)
  {
    var h' := h + [e];
    forall p, c | 0 <= p < c < |h'| && p == (c - 1) / 2 && c != |h|
      ensures Le(h'[p].value, h'[c].value)
    {
      assert h'[p] == h[p] && h'[c] == h[c];
    }
  }

  /** One step of `siftUp`: swapping k with its greater parent moves the hole to the parent. */
  lemma SiftUpStep(h: seq<Entry>, k: nat)
    requires 0 < k < |h| && HeapExceptUp(h, k) && Less(h[k], h[(k - 1) / 2])
    ensures HeapExceptUp(Swapped(h, k, (k - 1) / 2), (k - 1) / 2)
  {
    var q := (k - 1) / 2;
    var h' := Swapped(h, k, q);
    forall p, c | 0 <= p < c < |h'| && p == (c - 1) / 2 && c != q
      ensures Le(h'[p].value, h'[c].value)
    {
      if c == k {
      } else if p == k {
        assert Le(h[q].value, h[c].value);
      } else if p == q {
        assert Le(h[q].value, h[c].value);
      } else {
        assert h'[p] == h[p] && h'[c] == h[c];
      }
    }
    if 0 < q {
      var g := (q - 1) / 2;
      forall c | 0 < c < |h'| && (c - 1) / 2 == q
        ensures Le(h'[g].value, h'[c].value)
      {
        assert Le(h[g].value, h[q].value);
        if c != k {
          assert Le(h[q].value, h[c].value);
        }
      }
    }
  }

  /** `siftUp` stops when k is the root or no smaller than its parent: the heap is restored. */
  lemma SiftUpDone(h: seq<Entry>, k: nat)
    requires k < |h| && HeapExceptUp(h, k)
    requires k == 0 || !Less(h[k], h[(k - 1) / 2])
    ensures IsHeap(h)
  {
  }

  /** Replacing the root of a heap leaves a heap except that the root may sift down. */
  lemma ReplaceRootExceptDown(h: seq<Entry>, e: Entry)
    requires IsHeap(h) && h != []
    ensures HeapExceptDown(h[0 := e], 0)
  {
    var h' := h[0 := e];
    forall p, c | 0 <= p < c < |h'| && p == (c - 1) / 2 && p != 0
      ensures Le(h'[p].value, h'[c].value)
    {
      assert h'[p] == h[p] && h'[c] == h[c];
    }
  }

  /** A prefix of a heap is a heap. */
  lemma PrefixHeap(h: seq<Entry>, n: nat)
    requires IsHeap(h) && n <= |h|
    ensures IsHeap(h[..n])
  {
    var h' := h[..n];
    forall p, c | 0 <= p < c < |h'| && p == (c - 1) / 2
      ensures Le(h'[p].value, h'[c].value)
    {
      assert h'[p] == h[p] && h'[c] == h[c];
    }
  }

  /**
   * One step of `siftDown`: swapping k with its smallest child s, when that
   * child is smaller than k, moves the hole down to s.
   */
  lemma SiftDownStep(h: seq<Entry>, k: nat, s: nat)
    requires k < s < |h| && (s == 2 * k + 1 || s == 2 * k + 2) && HeapExceptDown(h, k)
    requires Less(h[s], h[k])
    requires 2 * k + 1 < |h| ==> Le(h[s].value, h[2 * k + 1].value)
    requires 2 * k + 2 < |h| ==> Le(h[s].value, h[2 * k + 2].value)
    ensures HeapExceptDown(Swapped(h, k, s), s)
  {
    forall c | 0 < c < |h| && (c - 1) / 2 == k ensures Le(h[s].value, h[c].value) {
      ChildOf(k, c);
    }
    SiftDownPairs(h, k, s);
    var h' := Swapped(h, k, s);
    forall c | 0 < c < |h'| && (c - 1) / 2 == s
      ensures Le(h'[k].value, h'[c].value)
    {
      assert Le(h[s].value, h[c].value);
    }
  }

  /** After the swap of k with its smallest child s, every pair except those with parent s is ordered. */
  lemma SiftDownPairs(h: seq<Entry>, k: nat, s: nat)
    requires k < s < |h| && (s - 1) / 2 == k && HeapExceptDown(h, k)
    requires Less(h[s], h[k])
    requires forall c :: 0 < c < |h| && (c - 1) / 2 == k ==> Le(h[s].value, h[c].value)
    ensures forall p, c :: 0 <= p < c < |h| && p == (c - 1) / 2 && p != s ==>
      Le(Swapped(h, k, s)[p].value, Swapped(h, k, s)[c].value)
  {
    var h' := Swapped(h, k, s);
    forall p, c | 0 <= p < c < |h'| && p == (c - 1) / 2 && p != s
      ensures Le(h'[p].value, h'[c].value)
    {
      if p == k {
        assert Le(h[s].value, h[c].value);
      } else if c == k {
        assert Le(h[p].value, h[k].value);
      } else {
        assert h'[p] == h[p] && h'[c] == h[c];
      }
    }
  }

  /** `siftDown` stops when no child of k is smaller than k: the heap is restored. */
  lemma SiftDownDone(h: seq<Entry>, k: nat)
    requires k < |h| && HeapExceptDown(h, k)
    requires 2 * k + 1 < |h| ==> !Less(h[2 * k + 1], h[k])
    requires 2 * k + 2 < |h| ==> !Less(h[2 * k + 2], h[k])
    ensures IsHeap(h)
  {
    forall c | 0 < c < |h| && (c - 1) / 2 == k ensures !Less(h[c], h[k]) {
      ChildOf(k, c);
    }
  }

  /** The children of k are 2k + 1 and 2k + 2. */
  lemma ChildOf(k: nat, c: int)
    requires 0 < c && (c - 1) / 2 == k
    ensures c == 2 * k + 1 || c == 2 * k + 2
  {
  }

  /**
   * What `poll` does to a non-empty heap before sifting: dropping the last
   * element keeps a heap, and moving it to the root leaves a heap except at
   * the root holding every element but one copy of the old root.
   */
  lemma PollShape(h: seq<Entry>)
    requires IsHeap(h) && h != []
    ensures var t, last := h[..|h| - 1], h[|h| - 1];
      && (t == [] ==> multiset(t) == multiset(h) - multiset{h[0]})
      && (t != [] ==> HeapExceptDown(t[0 := last], 0) && multiset(t[0 := last]) == multiset(h) - multiset{h[0]})
  {
    var t, last := h[..|h| - 1], h[|h| - 1];
    if t == [] {
      assert h == [h[0]];
    } else {
      PrefixHeap(h, |h| - 1);
      ReplaceRootExceptDown(t, last);
      LastToRoot(h);
    }
  }

  /** Moving the last element over the root removes one copy of the root. */
  lemma LastToRoot(h: seq<Entry>)
    requires |h| >= 2
    ensures multiset(h[..|h| - 1][0 := h[|h| - 1]]) == multiset(h) - multiset{h[0]}
  {
    var t, last := h[..|h| - 1], h[|h| - 1];
    assert h == [h[0]] + t[1..] + [last];
    assert t[0 := last] == [last] + t[1..];
  }

  class BinaryHeap {
    var heap: seq<Entry>
    /** The elements held, as a multiset: what callers reason about. */
    ghost var Contents: multiset<Entry>

    ghost predicate Valid()
      reads this
    {
      IsHeap(heap) && Contents == multiset(heap)
    }

    constructor ()
      ensures Valid() && Contents == multiset{}
    {
      heap := [];
      Contents := multiset{};
    }

    /** `add(element)`: append, then restore heap order by sifting the new element up. */
    method Add(element: Entry)
      requires Valid()
      modifies this
      ensures Valid() && Contents == old(Contents) + multiset{element}
    {
      AppendExceptUp(heap, element);
      heap := heap + [element];
      SiftUp(|heap| - 1);
      Contents := Contents + multiset{element};
    }

    /**
     * `poll()`: None on an empty heap; otherwise an element no greater than
     * any element held (the root), with exactly one copy of it removed.
     */
    method Poll() returns (r: Option<Entry>)
      requires Valid()
      modifies this
      ensures Valid()
      ensures r.None? <==> old(Contents) == multiset{}
      ensures r.None? ==> Contents == old(Contents)
      ensures r.Some? ==> r.value in old(Contents) && Contents == old(Contents) - multiset{r.value}
      ensures r.Some? ==> forall e :: e in old(Contents) ==> Le(r.value.value, e.value)
    {
      if heap == [] {
        return None;
      }
      PollShape(heap);
      HeapRootMin(heap);
      ghost var rest := Contents - multiset{heap[0]};
      var result := heap[0];
      var last := heap[|heap| - 1];
      heap := heap[..|heap| - 1];
      if heap != [] {
        heap := heap[0 := last];
        SiftDown(0);
      }
      assert multiset(heap) == rest;
      Contents := rest;
      r := Some(result);
    }

    /** `isNotEmpty()`. */
    function IsNotEmpty(): (r: bool)
      reads this
      requires Valid()
      ensures r <==> Contents != multiset{}
    {
      |heap| != 0
    }

    /** `siftUp(index)`: swap with the parent while smaller than it. */
    method SiftUp(index: nat)
      requires index < |heap| && HeapExceptUp(heap, index)
      modifies this`heap
      ensures IsHeap(heap) && multiset(heap) == multiset(old(heap))
    {
      var i: nat := index;
      while i > 0
        invariant i < |heap| && HeapExceptUp(heap, i)
        invariant multiset(heap) == multiset(old(heap))
        decreases i
      {
        var parent := (i - 1) / 2;
        if Less(heap[i], heap[parent]) {
          SiftUpStep(heap, i);
          Swap(i, parent);
          i := parent;
        } else {
          break;
        }
      }
      SiftUpDone(heap, i);
    }

    /** `siftDown(index)`: swap with the smaller child while some child is smaller. */
    method SiftDown(index: nat)
      requires index < |heap| && HeapExceptDown(heap, index)
      modifies this`heap
      ensures IsHeap(heap) && multiset(heap) == multiset(old(heap))
    {
      var i: nat := index;
      var size := |heap|;
      while true
        invariant i < |heap| == size && HeapExceptDown(heap, i)
        invariant multiset(heap) == multiset(old(heap))
        decreases size - i
      {
        var smallest := i;
        var left := 2 * i + 1;
        var right := 2 * i + 2;
        if left < size && Less(heap[left], heap[smallest]) {
          smallest := left;
        }
        if right < size && Less(heap[right], heap[smallest]) {
          smallest := right;
        }
        if smallest != i {
          SiftDownStep(heap, i, smallest);
          Swap(i, smallest);
          i := smallest;
        } else {
          SiftDownDone(heap, i);
          break;
        }
      }
    }

    /** `swap(i, j)`. */
    method Swap(i: nat, j: nat)
      requires i < |heap| && j < |heap|
      modifies this`heap
      ensures heap == Swapped(old(heap), i, j)
    {
      var temp := heap[i];
      heap := heap[i := heap[j]];
      heap := heap[j := temp];
    }
  }
}
