/**
 * A stable sort over a total preorder, the behaviour `Array.prototype.sort` guarantees
 * for a consistent comparator: the output is a permutation of the input, ordered by
 * the preorder, and elements the preorder cannot tell apart keep their input order.
 */
module Sorting {
  import opened Seqs

  /** `le` is total (any two elements compare) and transitive, hence also reflexive. */
  ghost predicate IsTotalPreorder<T(!new)>(le: (T, T) -> bool) {
    && (forall a, b :: le(a, b) || le(b, a))
    && (forall a, b, c :: le(a, b) && le(b, c) ==> le(a, c))
  }

  predicate SortedBy<T>(le: (T, T) -> bool, s: seq<T>) {
    forall i, j | 0 <= i < j < |s| :: le(s[i], s[j])
  }

  /** The elements that `le` cannot tell apart from `x`. */
  function EquivalentTo<T>(le: (T, T) -> bool, x: T): T -> bool {
    y => le(x, y) && le(y, x)
  }

  /** Every class of mutually equivalent elements of `s` appears in `r` in the order it has in `s`. */
  predicate StableFor<T(==)>(le: (T, T) -> bool, s: seq<T>, r: seq<T>) {
    forall x | x in s :: Filter(EquivalentTo(le, x), r) == Filter(EquivalentTo(le, x), s)
  }

  /** Puts `x` just before the first element it does not exceed. */
  function Insert<T(==,!new)>(le: (T, T) -> bool, x: T, s: seq<T>): (r: seq<T>)
    requires IsTotalPreorder(le)
    requires SortedBy(le, s)
    ensures SortedBy(le, r)
    ensures multiset(r) == multiset(s) + multiset{x}
    ensures forall y | y in r :: y == x || y in s
  {
    if s == [] then [x]
    else if le(x, s[0]) then
      assert forall j | 0 < j < |s| :: le(x, s[j]);
      [x] + s
    else
      var tail := Insert(le, x, s[1..]);
      assert s == [s[0]] + s[1..];
      assert le(s[0], x);
      assert forall j | 0 <= j < |tail| :: le(s[0], tail[j]) by {
        forall j | 0 <= j < |tail| ensures le(s[0], tail[j]) {
          assert tail[j] in tail;
        }
      }
      [s[0]] + tail
  }

  /** Insertion sort: each element is inserted ahead of the equivalent ones sorted after it. */
  function InsertionSort<T(==,!new)>(le: (T, T) -> bool, s: seq<T>): (r: seq<T>)
    requires IsTotalPreorder(le)
    ensures SortedBy(le, r)
    ensures multiset(r) == multiset(s)
    ensures |r| == |s|
  {
    if s == [] then []
    else
      assert s == [s[0]] + s[1..];
      var r := Insert(le, s[0], InsertionSort(le, s[1..]));
      assert |r| == |multiset(r)|;
      r
  }

  /** Inserting `x` adds it at the front of any class it belongs to, provided
      it does not exceed the class members already present. */
  lemma {:induction false} InsertFilter<T(!new)>(le: (T, T) -> bool, q: T -> bool, x: T, s: seq<T>)
    requires IsTotalPreorder(le)
    requires SortedBy(le, s)
    requires q(x) ==> forall i | 0 <= i < |s| && q(s[i]) :: le(x, s[i])
    ensures Filter(q, Insert(le, x, s)) == if q(x) then [x] + Filter(q, s) else Filter(q, s)
  {
    if s != [] && !le(x, s[0]) {
      InsertFilter(le, q, x, s[1..]);
    }
  }

  /** Sorting keeps the input order within the class of elements equivalent to `x`. */
  lemma {:induction false} InsertionSortStableAt<T(!new)>(le: (T, T) -> bool, s: seq<T>, x: T)
    requires IsTotalPreorder(le)
    ensures Filter(EquivalentTo(le, x), InsertionSort(le, s)) == Filter(EquivalentTo(le, x), s)
  {
    if s != [] {
      var q := EquivalentTo(le, x);
      var rest := InsertionSort(le, s[1..]);
      InsertionSortStableAt(le, s[1..], x);
      InsertFilter(le, q, s[0], rest);
    }
  }

  /** The sort is stable: restricted to any class of equivalent elements, it is the identity. */
  lemma InsertionSortStable<T(!new)>(le: (T, T) -> bool, s: seq<T>)
    requires IsTotalPreorder(le)
    ensures StableFor(le, s, InsertionSort(le, s))
  {
    forall x | x in s
      ensures Filter(EquivalentTo(le, x), InsertionSort(le, s)) == Filter(EquivalentTo(le, x), s)
    {
      InsertionSortStableAt(le, s, x);
    }
  }
}
