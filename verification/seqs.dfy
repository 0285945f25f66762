/**
 * Order-preserving filtering of sequences, the `Array.prototype.filter` that the
 * store and the list view are built from, with the counting facts the statistics need.
 */
module Seqs {

  /** `a` is obtained from `b` by deleting elements, keeping the order of the rest. */
  predicate IsSubsequence<T(==)>(a: seq<T>, b: seq<T>)
    decreases |b|
  {
    if a == [] then true
    else if b == [] then false
    else (a[0] == b[0] && IsSubsequence(a[1..], b[1..])) || IsSubsequence(a, b[1..])
  }

  /** The elements of `s` satisfying `p`, in their original order. */
  function Filter<T(==)>(p: T -> bool, s: seq<T>): (r: seq<T>)
    ensures IsSubsequence(r, s)
    ensures forall i | 0 <= i < |r| :: p(r[i])
    ensures forall x | x in r :: x in s
    ensures forall x | x in s :: multiset(r)[x] == if p(x) then multiset(s)[x] else 0
  {
    if s == [] then []
    else
      assert s == [s[0]] + s[1..];
      if p(s[0]) then [s[0]] + Filter(p, s[1..]) else Filter(p, s[1..])
  }

  /** Number of elements of `s` satisfying `p` (the source's `filter(...).length`). */
  function CountWhere<T(==)>(p: T -> bool, s: seq<T>): nat {
    |Filter(p, s)|
  }

  lemma {:induction false} SubsequenceMembers<T>(a: seq<T>, b: seq<T>)
    requires IsSubsequence(a, b)
    ensures forall x | x in a :: x in b
    decreases |b|
  {
    if a != [] {
      if a[0] == b[0] && IsSubsequence(a[1..], b[1..]) {
        SubsequenceMembers(a[1..], b[1..]);
        assert forall x | x in a :: x == a[0] || x in a[1..];
      } else {
        SubsequenceMembers(a, b[1..]);
      }
    }
  }

  /** Filtering with a predicate that every element meets changes nothing. */
  lemma {:induction false} FilterKeepsAll<T>(p: T -> bool, s: seq<T>)
    requires forall i | 0 <= i < |s| :: p(s[i])
    ensures Filter(p, s) == s
  {
    if s != [] {
      FilterKeepsAll(p, s[1..]);
    }
  }

  /** Filtering twice with the same predicate is filtering once. */
  lemma FilterIdempotent<T>(p: T -> bool, s: seq<T>)
    ensures Filter(p, Filter(p, s)) == Filter(p, s)
  {
    FilterKeepsAll(p, Filter(p, s));
  }

  /** Filters by pointwise-equal predicates agree. */
  lemma {:induction false} FilterExtensional<T>(p: T -> bool, q: T -> bool, s: seq<T>)
    requires forall i | 0 <= i < |s| :: p(s[i]) == q(s[i])
    ensures Filter(p, s) == Filter(q, s)
  {
    if s != [] {
      FilterExtensional(p, q, s[1..]);
    }
  }

  /** A predicate and its complement split the sequence between them. */
  lemma {:induction false} CountComplement<T>(p: T -> bool, q: T -> bool, s: seq<T>)
    requires forall i | 0 <= i < |s| :: q(s[i]) == !p(s[i])
    ensures CountWhere(p, s) + CountWhere(q, s) == |s|
  {
    if s != [] {
      CountComplement(p, q, s[1..]);
    }
  }

  /** A stronger predicate never counts more elements. */
  lemma {:induction false} CountMonotone<T>(p: T -> bool, q: T -> bool, s: seq<T>)
    requires forall i | 0 <= i < |s| :: p(s[i]) ==> q(s[i])
    ensures CountWhere(p, s) <= CountWhere(q, s)
  {
    if s != [] {
      CountMonotone(p, q, s[1..]);
    }
  }

  function Indicator(b: bool): nat {
    if b then 1 else 0
  }

  lemma CountCons<T>(p: T -> bool, s: seq<T>)
    requires s != []
    ensures CountWhere(p, s) == Indicator(p(s[0])) + CountWhere(p, s[1..])
  {
  }

  /** Replacing the element at `k` moves a count by at most that one element. */
  lemma {:induction false} CountPointUpdate<T>(p: T -> bool, s: seq<T>, s': seq<T>, k: nat)
    requires |s| == |s'| && k < |s|
    requires forall i | 0 <= i < |s| && i != k :: s[i] == s'[i]
    ensures CountWhere(p, s') + Indicator(p(s[k])) == CountWhere(p, s) + Indicator(p(s'[k]))
  {
    CountCons(p, s);
    CountCons(p, s');
    if k == 0 {
      assert s[1..] == s'[1..];
    } else {
      CountPointUpdate(p, s[1..], s'[1..], k - 1);
    }
  }

  /** Appending one element adds one to the count exactly when it satisfies the predicate. */
  lemma {:induction false} CountAppend<T>(p: T -> bool, s: seq<T>, x: T)
    ensures CountWhere(p, s + [x]) == CountWhere(p, s) + Indicator(p(x))
  {
    if s == [] {
      assert s + [x] == [x];
    } else {
      CountCons(p, s);
      CountCons(p, s + [x]);
      assert (s + [x])[1..] == s[1..] + [x];
      CountAppend(p, s[1..], x);
    }
  }
}
