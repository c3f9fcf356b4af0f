/**
  Sorting by a strict total order, as Python's `sorted` does for tuples and
  lists of tuples.  `SortUnique` is `sorted(set(...))`; `Sort` keeps duplicates.
 */
module Sorting {

  ghost predicate StrictTotalOrder<T(!new)>(less: (T, T) -> bool) {
    && (forall x :: !less(x, x))
    && (forall x, y :: less(x, y) || less(y, x) || x == y)
    && (forall x, y, z :: less(x, y) && less(y, z) ==> less(x, z))
  }

  predicate StrictlySorted<T>(less: (T, T) -> bool, s: seq<T>) {
    forall i, j :: 0 <= i < j < |s| ==> less(s[i], s[j])
  }

  ghost predicate SameElements<T(!new)>(a: seq<T>, b: seq<T>) {
    forall x :: x in a <==> x in b
  }

  function Insert<T(!new)>(less: (T, T) -> bool, x: T, s: seq<T>): (r: seq<T>)
    ensures forall y :: y in r <==> y == x || y in s
    ensures |r| == |s| + 1
  {
    if s == [] then [x]
    else if less(s[0], x) then [s[0]] + Insert(less, x, s[1..])
    else [x] + s
  }

  function Sort<T(!new)>(less: (T, T) -> bool, s: seq<T>): (r: seq<T>)
    ensures SameElements(r, s)
    ensures |r| == |s|
  {
    if s == [] then [] else Insert(less, s[0], Sort(less, s[1..]))
  }

  function SortUnique<T(==,!new)>(less: (T, T) -> bool, s: seq<T>): (r: seq<T>)
    ensures SameElements(r, s)
  {
    if s == [] then []
    else
      var rest := SortUnique(less, s[1..]);
      if s[0] in rest then rest else Insert(less, s[0], rest)
  }

  lemma {:induction false} InsertKeepsSorted<T(!new)>(less: (T, T) -> bool, x: T, s: seq<T>)
    requires StrictTotalOrder(less) && StrictlySorted(less, s) && x !in s
    ensures StrictlySorted(less, Insert(less, x, s))
  {
    if s == [] {
    } else if less(s[0], x) {
      InsertKeepsSorted(less, x, s[1..]);
      var t := Insert(less, x, s[1..]);
      forall j | 0 <= j < |t| ensures less(s[0], t[j]) {
        assert t[j] in t;
      }
    } else {
      assert less(x, s[0]);
    }
  }

  lemma {:induction false} SortUniqueSorts<T(!new)>(less: (T, T) -> bool, s: seq<T>)
    requires StrictTotalOrder(less)
    ensures StrictlySorted(less, SortUnique(less, s))
  {
    if s == [] {
    } else {
      SortUniqueSorts(less, s[1..]);
      var rest := SortUnique(less, s[1..]);
      if s[0] !in rest {
        InsertKeepsSorted(less, s[0], rest);
      }
    }
  }

  /** A strictly sorted list is determined by its elements. */
  lemma {:induction false} SortedIsDetermined<T(!new)>(less: (T, T) -> bool, a: seq<T>, b: seq<T>)
    requires StrictTotalOrder(less) && StrictlySorted(less, a) && StrictlySorted(less, b)
    requires SameElements(a, b)
    ensures a == b
  {
    if a == [] {
      assert forall i :: 0 <= i < |b| ==> b[i] in a;
    } else {
      assert a[0] in b && b != [] && b[0] in a;
      assert a[0] == b[0];
      forall x ensures x in a[1..] <==> x in b[1..] {
        assert a[0] !in a[1..] && b[0] !in b[1..];
        assert x in a <==> x == a[0] || x in a[1..];
        assert x in b <==> x == b[0] || x in b[1..];
      }
      SortedIsDetermined(less, a[1..], b[1..]);
    }
  }

  /** `Sort` of a list without repetitions is the strictly sorted list of its elements. */
  lemma {:induction false} SortSorts<T(!new)>(less: (T, T) -> bool, s: seq<T>)
    requires StrictTotalOrder(less)
    requires forall i, j :: 0 <= i < j < |s| ==> s[i] != s[j]
    ensures StrictlySorted(less, Sort(less, s))
  {
    if s == [] {
    } else {
      SortSorts(less, s[1..]);
      assert s[0] !in s[1..];
      InsertKeepsSorted(less, s[0], Sort(less, s[1..]));
    }
  }

  /** A list is its own canonical form exactly when it is strictly sorted. */
  lemma CanonicalIffSorted<T(!new)>(less: (T, T) -> bool, s: seq<T>)
    requires StrictTotalOrder(less)
    ensures SortUnique(less, s) == s <==> StrictlySorted(less, s)
  {
    SortUniqueSorts(less, s);
    if StrictlySorted(less, s) {
      SortedIsDetermined(less, SortUnique(less, s), s);
    }
  }

  lemma SortKeepsSorted<T(!new)>(less: (T, T) -> bool, s: seq<T>)
    requires StrictTotalOrder(less) && StrictlySorted(less, s)
    ensures Sort(less, s) == s
  {
    assert forall i, j :: 0 <= i < j < |s| ==> s[i] != s[j];
    SortSorts(less, s);
    SortedIsDetermined(less, Sort(less, s), s);
  }
}
