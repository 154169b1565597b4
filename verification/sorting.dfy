/** Ordering and filtering of query results: the `WHERE` and `ORDER BY` of the repositories'
    SELECT statements, as a filter and a stable insertion sort over a sequence of rows. */
module Sorting {

  /** `le` relates every pair of values one way or the other. */
  ghost predicate Total<T(!new)>(le: (T, T) -> bool) {
    forall a, b :: le(a, b) || le(b, a)
  }

  /** Each element is `le` its successor. */
  predicate Sorted<T>(s: seq<T>, le: (T, T) -> bool) {
    forall i :: 0 <= i < |s| - 1 ==> le(s[i], s[i + 1])
  }

  /** Puts `x` before the first element it is `le` to. */
  function Insert<T>(x: T, s: seq<T>, le: (T, T) -> bool): (r: seq<T>)
    ensures multiset(r) == multiset(s) + multiset{x}
    ensures |r| == |s| + 1
  {
    if s == [] then [x]
    else if le(x, s[0]) then [x] + s
    else
      assert s == [s[0]] + s[1..];
      [s[0]] + Insert(x, s[1..], le)
  }

  /** Insertion sort. */
  function SortBy<T>(s: seq<T>, le: (T, T) -> bool): (r: seq<T>)
    ensures multiset(r) == multiset(s)
    ensures |r| == |s|
  {
    if s == [] then []
    else
      assert s == [s[0]] + s[1..];
      Insert(s[0], SortBy(s[1..], le), le)
  }

  lemma {:induction false} InsertSorted<T(!new)>(x: T, s: seq<T>, le: (T, T) -> bool)
    requires Total(le) && Sorted(s, le)
    ensures Sorted(Insert(x, s, le), le)
    ensures s != [] ==> Insert(x, s, le)[0] == x || Insert(x, s, le)[0] == s[0]
  {
    if s != [] && !le(x, s[0]) {
      InsertSorted(x, s[1..], le);
      var t := Insert(x, s[1..], le);
      assert le(s[0], x);
      var r := [s[0]] + t;
      forall i | 0 <= i < |r| - 1 ensures le(r[i], r[i + 1]) {
        if i > 0 { assert r[i] == t[i - 1] && r[i + 1] == t[i]; }
      }
    }
  }

  /** With a total order the sort result is ordered. */
  lemma {:induction false} SortBySorted<T(!new)>(s: seq<T>, le: (T, T) -> bool)
    requires Total(le)
    ensures Sorted(SortBy(s, le), le)
  {
    if s != [] {
      SortBySorted(s[1..], le);
      InsertSorted(s[0], SortBy(s[1..], le), le);
    }
  }

  /** The rows that satisfy `p`, in their original order. */
  function Filter<T(!new)>(s: seq<T>, p: T -> bool): (r: seq<T>)
    ensures forall x :: x in r <==> x in s && p(x)
    ensures forall x :: multiset(r)[x] == if p(x) then multiset(s)[x] else 0
    ensures |r| <= |s|
  {
    if s == [] then []
    else
      assert s == [s[0]] + s[1..];
      (if p(s[0]) then [s[0]] else []) + Filter(s[1..], p)
  }

  /** A filter followed by a sort: exactly the rows satisfying `p`, each as often as in `s`,
      in `le` order. */
  lemma SelectOrdered<T(!new)>(s: seq<T>, p: T -> bool, le: (T, T) -> bool)
    requires Total(le)
    ensures var r := SortBy(Filter(s, p), le);
      Sorted(r, le) && (forall x :: x in r <==> x in s && p(x))
      && (forall x :: multiset(r)[x] == if p(x) then multiset(s)[x] else 0)
  {
    SortBySorted(Filter(s, p), le);
  }
}
