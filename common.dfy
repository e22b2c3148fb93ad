/**
 * Values shared by every part of the shortest-path library: distances with
 * an explicit infinity, the (vertex, distance) pairs that the queues store,
 * and an optional value for operations that may return nothing.
 */
module Common {

  type NonNegReal = r: real | r >= 0.0

  /**
   * A distance as the algorithm uses it: a non-negative real number or
   * positive infinity (`Double.POSITIVE_INFINITY` in the library).
   */
  datatype Dist = Fin(r: NonNegReal) | Inf

  /** `a <= b` on distances; every value is at most infinity. */
  predicate Le(a: Dist, b: Dist) {
    b.Inf? || (a.Fin? && a.r <= b.r)
  }

  /** `a < b` on distances. */
  predicate Lt(a: Dist, b: Dist) {
    !Le(b, a)
  }

  /** `a + w` for a finite weight w; infinity absorbs every weight. */
  function Add(a: Dist, w: NonNegReal): (r: Dist)
    ensures Le(a, r)
    ensures a.Inf? <==> r.Inf?
  {
    if a.Inf? then Inf else Fin(a.r + w)
  }

  /** `kotlin.math.min` on distances. */
  function Min(a: Dist, b: Dist): (r: Dist)
    ensures Le(r, a) && Le(r, b)
    ensures r == a || r == b
  {
    if Le(a, b) then a else b
  }

  /** A `Pair<Int, Double>` of a vertex (the key) and a distance. */
  datatype Entry = Entry(key: int, value: Dist)

  datatype Option<T> = None | Some(value: T)

  /** The keys of a sequence of entries, as the set `map { it.first }.toSet()` builds. */
  function KeySet(s: seq<Entry>): (r: set<int>)
    ensures forall e :: e in s ==> e.key in r
    ensures forall k :: k in r ==> exists e :: e in s && e.key == k
    ensures |r| <= |s|
  {
    if s == [] then {} else
      var rest := KeySet(s[1..]);
      assert forall e :: e in s ==> e == s[0] || e in s[1..];
      {s[0].key} + rest
  }

  /** The keys of a sequence of entries, in order. */
  function Keys(s: seq<Entry>): (r: seq<int>)
    ensures |r| == |s|
    ensures forall i :: 0 <= i < |s| ==> r[i] == s[i].key
  {
    if s == [] then [] else [s[0].key] + Keys(s[1..])
  }

  /** No key occurs twice in s. */
  predicate DistinctKeys(s: seq<Entry>) {
    forall i, j :: 0 <= i < j < |s| ==> s[i].key != s[j].key
  }

  // Kotlin's `mutableSetOf` and `toSet` build insertion-ordered sets; one is
  // kept as a duplicate-free sequence in iteration order.

  /** No element occurs twice in s. */
  predicate Distinct<T(==)>(s: seq<T>) {
    forall i, j :: 0 <= i < j < |s| ==> s[i] != s[j]
  }

  /** The elements of s, as a set. */
  function Elems(s: seq<int>): (r: set<int>)
    ensures forall x :: x in r <==> x in s
  {
    set x | x in s
  }

  /** `MutableSet.add` on an insertion-ordered set. */
  function Add1<T(==)>(s: seq<T>, x: T): seq<T> {
    if x in s then s else s + [x]
  }

  /** `MutableSet.addAll`: the elements of t added one after another. */
  function AddAll<T(==)>(s: seq<T>, t: seq<T>): seq<T>
    decreases |t|
  {
    if t == [] then s else Add1(AddAll(s, t[..|t| - 1]), t[|t| - 1])
  }

  lemma Add1Props<T>(s: seq<T>, x: T)
    ensures forall y :: y in Add1(s, x) <==> y in s || y == x
    ensures Distinct(s) ==> Distinct(Add1(s, x))
  {
  }

  lemma {:induction false} AddAllProps<T>(s: seq<T>, t: seq<T>)
    ensures forall y :: y in AddAll(s, t) <==> y in s || y in t
    ensures Distinct(s) ==> Distinct(AddAll(s, t))
    decreases |t|
  {
    if t != [] {
      var t' := t[..|t| - 1];
      AddAllProps(s, t');
      Add1Props(AddAll(s, t'), t[|t| - 1]);
      assert t == t' + [t[|t| - 1]];
    }
  }
}
