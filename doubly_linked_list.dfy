/**
 * The append-at-tail doubly linked list of DoublyLinkedList.kt.
 *
 * Nodes live in an arena, a sequence in which a node is named by its id (the
 * position where `add` put it) and `prev`/`next` hold ids (Nil for null); an
 * id stands for a Kotlin `Node` reference. The ghost `order` lists the ids of
 * the linked nodes from head to tail and the ghost `vals` their values. A
 * removed node stays in the arena with its old links, as the Kotlin object
 * does. The operations take the arena as a value, so several lists may share
 * one arena, as the blocks of PartialHeap do; the class DoublyLinkedList
 * keeps an arena of its own.
 */
module LinkedLists {
  import opened Common

  const Nil: int := -1

  /** `Node<T>(value, prev, next)` with its mutable `blockIndex` and `isD0` fields. */
  datatype Node<T> = Node(value: T, prev: int, next: int, blockIndex: int, isD0: bool)

  /** The id linked before position i of order (Nil at the head). */
  function Before(order: seq<nat>, i: nat): int
    requires i < |order|
  {
    if i == 0 then Nil else order[i - 1]
  }

  /** The id linked after position i of order (Nil at the tail). */
  function After(order: seq<nat>, i: nat): int
    requires i < |order|
  {
    if i == |order| - 1 then Nil else order[i + 1]
  }

  /**
   * The ids of `order` name distinct nodes of the arena, linked both ways in
   * that order, with a null `prev` at the first and a null `next` at the last.
   */
  ghost predicate Chain<T>(nodes: seq<Node<T>>, order: seq<nat>) {
    && (forall i :: 0 <= i < |order| ==> order[i] < |nodes|)
    && (forall i {:trigger nodes[order[i]]} :: 0 <= i < |order| ==>
          nodes[order[i]].prev == Before(order, i) && nodes[order[i]].next == After(order, i))
  }

  /**
   * A chain never visits a node twice: two positions holding the same node
   * would have equal successors all the way to the tail, where one successor
   * is null and the other is not.
   */
  lemma ChainDistinct<T>(nodes: seq<Node<T>>, order: seq<nat>)
    requires Chain(nodes, order)
    ensures Distinct(order)
  {
    forall i, j | 0 <= i < j < |order| ensures order[i] != order[j] {
      ChainNoRepeat(nodes, order, i, j);
    }
  }

  lemma {:induction false} ChainNoRepeat<T>(nodes: seq<Node<T>>, order: seq<nat>, i: nat, j: nat)
    requires Chain(nodes, order) && i < j < |order|
    ensures order[i] != order[j]
    decreases |order| - j
  {
    if order[i] == order[j] {
      assert nodes[order[i]].next == After(order, i);
      assert nodes[order[j]].next == After(order, j);
      if j < |order| - 1 {
        ChainNoRepeat(nodes, order, i + 1, j + 1);
      }
    }
  }

  /** vals lists the values held by the nodes of order, in that order. */
  ghost predicate Holds<T>(nodes: seq<Node<T>>, order: seq<nat>, vals: seq<T>) {
    |vals| == |order| &&
    forall i {:trigger vals[i]} :: 0 <= i < |order| ==> order[i] < |nodes| && vals[i] == nodes[order[i]].value
  }

  /** Nodes below |a| keep their value and tags from a to b (links may change). */
  ghost predicate SameData<T>(a: seq<Node<T>>, b: seq<Node<T>>) {
    |a| <= |b| &&
    forall x :: 0 <= x < |a| ==>
      b[x].value == a[x].value && b[x].blockIndex == a[x].blockIndex && b[x].isD0 == a[x].isD0
  }

  /** The position of x in s (|s| when absent). */
  function IndexOf(s: seq<nat>, x: nat): (i: nat)
    ensures i <= |s|
    ensures i < |s| ==> s[i] == x
    ensures forall j :: 0 <= j < i ==> s[j] != x
    ensures x in s ==> i < |s|
  {
    if s == [] then 0 else if s[0] == x then 0 else 1 + IndexOf(s[1..], x)
  }

  /** Indexing into a sequence with position k cut out. */
  lemma CutIndex<X>(s: seq<X>, k: nat)
    requires k < |s|
    ensures |s[..k] + s[k + 1..]| == |s| - 1
    ensures forall i :: 0 <= i < |s| - 1 ==> (s[..k] + s[k + 1..])[i] == (if i < k then s[i] else s[i + 1])
  {
  }

  // ----- add -----

  /** The arena after `add(value)`: a new node after the old tail, which now points to it. */
  function Appended<T>(nodes: seq<Node<T>>, tail: int, value: T): (r: seq<Node<T>>)
    requires tail == Nil || 0 <= tail < |nodes|
    ensures |r| == |nodes| + 1
    ensures r[|nodes|] == Node(value, tail, Nil, -1, false)
    ensures tail != Nil ==> r[tail] == nodes[tail].(next := |nodes|)
    ensures forall x :: 0 <= x < |nodes| && x != tail ==> r[x] == nodes[x]
  {
    var n1 := nodes + [Node(value, tail, Nil, -1, false)];
    if tail != Nil then n1[tail := n1[tail].(next := |nodes|)] else n1
  }

  /** Appending a node after the tail extends the chain by its id. */
  lemma AppendKeepsChain<T>(nodes: seq<Node<T>>, order: seq<nat>, value: T)
    requires Chain(nodes, order)
    ensures var tail := if order == [] then Nil else order[|order| - 1];
      && Chain(Appended(nodes, tail, value), order + [|nodes|])
      && SameData(nodes, Appended(nodes, tail, value))
  {
    var tail := if order == [] then Nil else order[|order| - 1];
    var n := Appended(nodes, tail, value);
    var o := order + [|nodes|];
    forall i | 0 <= i < |o| ensures o[i] < |n| {
      if i < |order| {
        assert o[i] == order[i];
      }
    }
    forall i | 0 <= i < |o| ensures n[o[i]].prev == Before(o, i) && n[o[i]].next == After(o, i) {
      AppendLinkAt(nodes, order, value, i);
    }
  }

  lemma AppendLinkAt<T>(nodes: seq<Node<T>>, order: seq<nat>, value: T, i: nat)
    requires Chain(nodes, order) && i <= |order|
    ensures var tail := if order == [] then Nil else order[|order| - 1];
      var n, o := Appended(nodes, tail, value), order + [|nodes|];
      n[o[i]].prev == Before(o, i) && n[o[i]].next == After(o, i)
  {
    var tail := if order == [] then Nil else order[|order| - 1];
    var o := order + [|nodes|];
    if i < |order| {
      assert o[i] == order[i];
      assert nodes[order[i]].prev == Before(order, i) && nodes[order[i]].next == After(order, i);
      if i > 0 {
        assert o[i - 1] == order[i - 1];
      }
      if i < |order| - 1 {
        assert o[i + 1] == order[i + 1];
        assert order[i] != tail;
      }
    } else if i > 0 {
      assert o[i - 1] == tail;
    }
  }

  lemma AppendHolds<T>(nodes: seq<Node<T>>, n: seq<Node<T>>, order: seq<nat>, vals: seq<T>, value: T)
    requires Holds(nodes, order, vals) && SameData(nodes, n)
    requires |n| == |nodes| + 1 && n[|nodes|].value == value
    ensures Holds(n, order + [|nodes|], vals + [value])
  {
    var o, v := order + [|nodes|], vals + [value];
    forall i | 0 <= i < |o| ensures o[i] < |n| && v[i] == n[o[i]].value {
      if i < |order| {
        assert o[i] == order[i] && v[i] == vals[i];
      }
    }
  }

  // ----- remove -----

  /** The arena after unlinking node id: its neighbours now point past it. */
  function Unlinked<T>(nodes: seq<Node<T>>, id: nat): (r: seq<Node<T>>)
    requires id < |nodes|
    requires nodes[id].prev == Nil || 0 <= nodes[id].prev < |nodes|
    requires nodes[id].next == Nil || 0 <= nodes[id].next < |nodes|
    ensures |r| == |nodes|
    ensures var p, q := nodes[id].prev, nodes[id].next;
      && (p != Nil && p != q ==> r[p] == nodes[p].(next := q))
      && (q != Nil && p != q ==> r[q] == nodes[q].(prev := p))
      && forall x :: 0 <= x < |nodes| && x != p && x != q ==> r[x] == nodes[x]
  {
    var node := nodes[id];
    var n1 := if node.prev != Nil then nodes[node.prev := nodes[node.prev].(next := node.next)] else nodes;
    if node.next != Nil then n1[node.next := n1[node.next].(prev := node.prev)] else n1
  }

  /** Unlinking the node at position k of order cuts k out of the chain. */
  lemma UnlinkKeepsChain<T>(nodes: seq<Node<T>>, order: seq<nat>, k: nat)
    requires Chain(nodes, order) && k < |order|
    ensures nodes[order[k]].prev == Before(order, k) && nodes[order[k]].next == After(order, k)
    ensures Chain(Unlinked(nodes, order[k]), order[..k] + order[k + 1..])
    ensures SameData(nodes, Unlinked(nodes, order[k]))
  {
    UnlinkEnds(nodes, order, k);
    UnlinkLinks(nodes, order, k);
  }

  /** The neighbours of the node at position k are distinct ids (or Nil). */
  lemma UnlinkEnds<T>(nodes: seq<Node<T>>, order: seq<nat>, k: nat)
    requires Chain(nodes, order) && k < |order|
    ensures nodes[order[k]].prev == Before(order, k) && nodes[order[k]].next == After(order, k)
    ensures Before(order, k) != After(order, k) || Before(order, k) == Nil
    ensures Before(order, k) == Nil || 0 <= Before(order, k) < |nodes|
    ensures After(order, k) == Nil || 0 <= After(order, k) < |nodes|
  {
    ChainDistinct(nodes, order);
    assert nodes[order[k]].prev == Before(order, k);
  }

  lemma UnlinkLinks<T>(nodes: seq<Node<T>>, order: seq<nat>, k: nat)
    requires Chain(nodes, order) && k < |order|
    requires nodes[order[k]].prev == Before(order, k) && nodes[order[k]].next == After(order, k)
    requires Before(order, k) != After(order, k) || Before(order, k) == Nil
    ensures Chain(Unlinked(nodes, order[k]), order[..k] + order[k + 1..])
  {
    var n := Unlinked(nodes, order[k]);
    var o := order[..k] + order[k + 1..];
    CutIndex(order, k);
    forall i | 0 <= i < |o| ensures n[o[i]].prev == Before(o, i) && n[o[i]].next == After(o, i) {
      UnlinkLinkAt(nodes, order, k, i);
    }
  }

  lemma UnlinkLinkAt<T>(nodes: seq<Node<T>>, order: seq<nat>, k: nat, i: nat)
    requires Chain(nodes, order) && k < |order| && i < |order| - 1
    requires nodes[order[k]].prev == Before(order, k) && nodes[order[k]].next == After(order, k)
    requires Before(order, k) != After(order, k) || Before(order, k) == Nil
    ensures var n, o := Unlinked(nodes, order[k]), order[..k] + order[k + 1..];
      n[o[i]].prev == Before(o, i) && n[o[i]].next == After(o, i)
  {
    CutIndex(order, k);
    var x := if i < k then i else i + 1;
    if x == k - 1 {
      UnlinkLinkBefore(nodes, order, k);
    } else if x == k + 1 {
      UnlinkLinkAfter(nodes, order, k);
    } else {
      UnlinkLinkOther(nodes, order, k, i, x);
    }
  }

  lemma UnlinkLinkBefore<T>(nodes: seq<Node<T>>, order: seq<nat>, k: nat)
    requires Chain(nodes, order) && 0 < k < |order|
    requires nodes[order[k]].prev == Before(order, k) && nodes[order[k]].next == After(order, k)
    requires Before(order, k) != After(order, k)
    ensures var n, o := Unlinked(nodes, order[k]), order[..k] + order[k + 1..];
      n[o[k - 1]].prev == Before(o, k - 1) && n[o[k - 1]].next == After(o, k - 1)
  {
    var o := order[..k] + order[k + 1..];
    CutIndex(order, k);
    assert o[k - 1] == order[k - 1];
    assert nodes[order[k - 1]].prev == Before(order, k - 1);
    if k > 1 {
      assert o[k - 2] == order[k - 2];
    }
    if k < |order| - 1 {
      assert o[k] == order[k + 1];
    }
  }

  lemma UnlinkLinkAfter<T>(nodes: seq<Node<T>>, order: seq<nat>, k: nat)
    requires Chain(nodes, order) && k + 1 < |order|
    requires nodes[order[k]].prev == Before(order, k) && nodes[order[k]].next == After(order, k)
    requires Before(order, k) != After(order, k) || Before(order, k) == Nil
    ensures var n, o := Unlinked(nodes, order[k]), order[..k] + order[k + 1..];
      n[o[k]].prev == Before(o, k) && n[o[k]].next == After(o, k)
  {
    var o := order[..k] + order[k + 1..];
    CutIndex(order, k);
    assert o[k] == order[k + 1];
    assert nodes[order[k + 1]].next == After(order, k + 1);
    if k > 0 {
      assert o[k - 1] == order[k - 1];
    }
    if k + 2 < |order| {
      assert o[k + 1] == order[k + 2];
    }
  }

  lemma UnlinkLinkOther<T>(nodes: seq<Node<T>>, order: seq<nat>, k: nat, i: nat, x: nat)
    requires Chain(nodes, order) && k < |order| && i < |order| - 1
    requires nodes[order[k]].prev == Before(order, k) && nodes[order[k]].next == After(order, k)
    requires Before(order, k) != After(order, k) || Before(order, k) == Nil
    requires x == (if i < k then i else i + 1) && x != k - 1 && x != k + 1
    ensures var n, o := Unlinked(nodes, order[k]), order[..k] + order[k + 1..];
      n[o[i]].prev == Before(o, i) && n[o[i]].next == After(o, i)
  {
    var o := order[..k] + order[k + 1..];
    CutIndex(order, k);
    var id := order[x];
    if k > 0 {
      if x < k - 1 { ChainNoRepeat(nodes, order, x, k - 1); } else { ChainNoRepeat(nodes, order, k - 1, x); }
      assert id != Before(order, k);
    }
    if k + 1 < |order| {
      if x < k + 1 { ChainNoRepeat(nodes, order, x, k + 1); } else { ChainNoRepeat(nodes, order, k + 1, x); }
      assert id != After(order, k);
    }
    assert o[i] == id;
    assert Unlinked(nodes, order[k])[id] == nodes[id];
    assert nodes[id].prev == Before(order, x) && nodes[id].next == After(order, x);
    if i > 0 {
      assert o[i - 1] == order[x - 1];
    }
    assert Before(o, i) == Before(order, x);
    if i + 1 < |o| {
      assert o[i + 1] == order[x + 1];
    }
    assert After(o, i) == After(order, x);
  }

  lemma UnlinkHolds<T>(nodes: seq<Node<T>>, n: seq<Node<T>>, order: seq<nat>, vals: seq<T>, k: nat)
    requires Holds(nodes, order, vals) && SameData(nodes, n) && |n| == |nodes| && k < |order|
    ensures Holds(n, order[..k] + order[k + 1..], vals[..k] + vals[k + 1..])
  {
    var o, v := order[..k] + order[k + 1..], vals[..k] + vals[k + 1..];
    CutIndex(order, k);
    CutIndex(vals, k);
    forall i | 0 <= i < |o| ensures o[i] < |n| && v[i] == n[o[i]].value {
      if i < k {
        assert o[i] == order[i] && v[i] == vals[i];
      } else {
        assert o[i] == order[i + 1] && v[i] == vals[i + 1];
      }
    }
  }

  /**
   * The ends of order after cutting out position k: the head moves to the
   * next id exactly when k is the head, the tail to the previous id exactly
   * when k is the tail.
   */
  lemma CutEnds(order: seq<nat>, k: nat)
    requires k < |order| && Distinct(order)
    ensures var o := order[..k] + order[k + 1..];
      && (if order[0] == order[k] then After(order, k) else order[0]) == (if o == [] then Nil else o[0])
      && (if order[|order| - 1] == order[k] then Before(order, k) else order[|order| - 1]) ==
         (if o == [] then Nil else o[|o| - 1])
  {
    CutIndex(order, k);
  }

  /** The state invariant of a list, on the values of its fields. */
  ghost predicate Wf<T>(nodes: seq<Node<T>>, head: int, tail: int, size: int, order: seq<nat>, vals: seq<T>) {
    && size == |order|
    && head == (if order == [] then Nil else order[0])
    && tail == (if order == [] then Nil else order[|order| - 1])
    && Chain(nodes, order)
    && Holds(nodes, order, vals)
  }

  /** `remove(node)` on a well-formed state gives the well-formed state without position k. */
  lemma RemoveKeepsWf<T>(nodes: seq<Node<T>>, head: int, tail: int, size: int, order: seq<nat>, vals: seq<T>, k: nat)
    requires Wf(nodes, head, tail, size, order, vals) && k < |order|
    ensures nodes[order[k]].prev == Before(order, k) && nodes[order[k]].next == After(order, k)
    ensures Before(order, k) != After(order, k) || Before(order, k) == Nil
    ensures var id := order[k];
      Wf(Unlinked(nodes, id),
         if head == id then nodes[id].next else head,
         if tail == id then nodes[id].prev else tail,
         size - 1, order[..k] + order[k + 1..], vals[..k] + vals[k + 1..])
    ensures SameData(nodes, Unlinked(nodes, order[k]))
  {
    UnlinkKeepsChain(nodes, order, k);
    UnlinkHolds(nodes, Unlinked(nodes, order[k]), order, vals, k);
    ChainDistinct(nodes, order);
    CutEnds(order, k);
  }

  // ----- the list operations on an arena -----

  /**
   * `add(value)` on the list (head, tail, size) whose nodes lie in the
   * arena: the new node is the arena's next id and becomes the tail.
   */
  method ListAdd<T>(nodes: seq<Node<T>>, head: int, tail: int, size: int, ghost order: seq<nat>, ghost vals: seq<T>, value: T)
    returns (nodes2: seq<Node<T>>, head2: int, tail2: int, size2: int, id: nat)
    requires Wf(nodes, head, tail, size, order, vals)
    ensures id == |nodes| && nodes2 == Appended(nodes, tail, value)
    ensures Wf(nodes2, head2, tail2, size2, order + [id], vals + [value])
    ensures SameData(nodes, nodes2)
  {
    AppendKeepsChain(nodes, order, value);
    AppendHolds(nodes, Appended(nodes, tail, value), order, vals, value);
    id := |nodes|;
    nodes2 := nodes + [Node(value, tail, Nil, -1, false)];
    if tail != Nil {
      nodes2 := nodes2[tail := nodes2[tail].(next := id)];
    }
    head2 := if head == Nil then id else head;
    tail2 := id;
    size2 := size + 1;
  }

  /** `remove(node)` for the node `id` linked at position k of the list. */
  method ListRemove<T>(nodes: seq<Node<T>>, head: int, tail: int, size: int, ghost order: seq<nat>, ghost vals: seq<T>, id: nat)
    returns (nodes2: seq<Node<T>>, head2: int, tail2: int, size2: int)
    requires Wf(nodes, head, tail, size, order, vals) && id in order
    ensures var k := IndexOf(order, id);
      && nodes2 == Unlinked(nodes, id) && SameData(nodes, nodes2)
      && Wf(nodes2, head2, tail2, size2, order[..k] + order[k + 1..], vals[..k] + vals[k + 1..])
  {
    ghost var k := IndexOf(order, id);
    RemoveKeepsWf(nodes, head, tail, size, order, vals, k);
    var node := nodes[id];
    nodes2 := nodes;
    if node.prev != Nil {
      nodes2 := nodes2[node.prev := nodes2[node.prev].(next := node.next)];
    }
    if node.next != Nil {
      nodes2 := nodes2[node.next := nodes2[node.next].(prev := node.prev)];
    }
    head2 := if head == id then node.next else head;
    tail2 := if tail == id then node.prev else tail;
    size2 := size - 1;
  }

  /** `toMutableList()`: follows `next` from `head` until null, collecting the values. */
  method Collect<T>(nodes: seq<Node<T>>, head: int, ghost tail: int, ghost size: int, ghost order: seq<nat>, ghost vals: seq<T>)
    returns (list: seq<T>)
    requires Wf(nodes, head, tail, size, order, vals)
    ensures list == vals
  {
    list := [];
    var current := head;
    ghost var i := 0;
    while current != Nil
      invariant 0 <= i <= |order|
      invariant current == (if i < |order| then order[i] else Nil)
      invariant list == vals[..i]
      decreases |order| - i
    {
      assert nodes[order[i]].next == After(order, i);
      assert vals[..i + 1] == vals[..i] + [vals[i]];
      list := list + [nodes[current].value];
      current := nodes[current].next;
      i := i + 1;
    }
    assert vals[..i] == vals;
  }

  /**
   * `DoublyLinkedList<T>` with its own arena. (PartialHeap keeps the nodes of
   * all its lists in one arena and applies the operations above to it.)
   */
  class DoublyLinkedList<T> {
    var nodes: seq<Node<T>>
    var head: int
    var tail: int
    var size: int
    ghost var Order: seq<nat>
    /** The values of the list, head first: what `toMutableList` returns. */
    ghost var Contents: seq<T>

    /** The chain from head to tail runs through exactly the ids of Order, and size counts them. */
    ghost predicate Valid()
      reads this
    {
      Wf(nodes, head, tail, size, Order, Contents)
    }

    constructor ()
      ensures Valid() && Order == [] && Contents == [] && nodes == []
    {
      nodes := [];
      head, tail, size := Nil, Nil, 0;
      Order := [];
      Contents := [];
    }

    /** Appends `value` in a new node, which becomes the tail; returns that node's id. */
    method Add(value: T) returns (id: nat)
      requires Valid()
      modifies this
      ensures Valid()
      ensures id == |old(nodes)| && nodes == Appended(old(nodes), old(tail), value)
      ensures Order == old(Order) + [id]
      ensures Contents == old(Contents) + [value]
      ensures tail == id && size == old(size) + 1
    {
      nodes, head, tail, size, id := ListAdd(nodes, head, tail, size, Order, Contents, value);
      Order := Order + [id];
      Contents := Contents + [value];
    }

    /** Unlinks the node `id`, which must be linked in this list; the others keep their order. */
    method Remove(id: nat)
      requires Valid() && id in Order
      modifies this
      ensures Valid()
      ensures nodes == Unlinked(old(nodes), id)
      ensures var k := IndexOf(old(Order), id);
        Order == old(Order)[..k] + old(Order)[k + 1..] &&
        Contents == old(Contents)[..k] + old(Contents)[k + 1..]
      ensures size == old(size) - 1
    {
      ghost var k := IndexOf(Order, id);
      nodes, head, tail, size := ListRemove(nodes, head, tail, size, Order, Contents, id);
      Order := Order[..k] + Order[k + 1..];
      Contents := Contents[..k] + Contents[k + 1..];
    }

    /** `isEmpty()`: `size == 0`, which holds exactly when no node is linked. */
    function IsEmpty(): (r: bool)
      reads this
      requires Valid()
      ensures r <==> Contents == []
    {
      size == 0
    }

    /** `toMutableList()`: the values from head to tail. */
    method ToMutableList() returns (list: seq<T>)
      requires Valid()
      ensures list == Contents
    {
      list := Collect(nodes, head, tail, size, Order, Contents);
    }
  }
}
