/** Results of lookups, and sets as lists. */
module Wrappers {
  datatype Option<+T> = None | Some(value: T)

  lemma Member<T(!new)>(s: set<T>) returns (x: T)
    requires s != {}
    ensures x in s
  {
    x :| x in s;
  }

  predicate Distinct<T(==)>(q: seq<T>) {
    forall i, j :: 0 <= i < j < |q| ==> q[i] != q[j]
  }

  /** The elements of a set, each once, in some order. */
  method ListOf<T(==)>(s: set<T>) returns (q: seq<T>)
    ensures forall x :: x in q <==> x in s
    ensures Distinct(q) && |q| == |s|
  {
    q := [];
    var rest := s;
    while rest != {}
      invariant rest <= s && |q| + |rest| == |s|
      invariant forall x :: x in q <==> x in s - rest
      invariant Distinct(q)
      decreases |rest|
    {
      var x :| x in rest;
      forall i | 0 <= i < |q| ensures q[i] != x { assert q[i] in q; }
      rest := rest - {x};
      q := q + [x];
    }
  }

  /** `a` is what is left of `b` after some elements were dropped. */
  predicate Sublist<T(==)>(a: seq<T>, b: seq<T>)
    decreases |b|
  {
    if a == [] then true
    else if b == [] then false
    else (a[0] == b[0] && Sublist(a[1..], b[1..])) || Sublist(a, b[1..])
  }

  lemma {:induction false} SublistSelf<T>(a: seq<T>)
    ensures Sublist(a, a)
    decreases |a|
  {
    if a != [] { SublistSelf(a[1..]); }
  }

  lemma {:induction false} SublistTwice<T>(a: seq<T>, b: seq<T>, c: seq<T>)
    requires Sublist(a, b) && Sublist(b, c)
    ensures Sublist(a, c)
    decreases |c|
  {
    if a != [] {
      if b[0] == c[0] && Sublist(b[1..], c[1..]) {
        if a[0] == b[0] && Sublist(a[1..], b[1..]) {
          SublistTwice(a[1..], b[1..], c[1..]);
        } else {
          SublistTwice(a, b[1..], c[1..]);
        }
      } else {
        SublistTwice(a, b, c[1..]);
      }
    }
  }

  lemma {:induction false} SublistPush<T>(a: seq<T>, b: seq<T>, x: T)
    requires Sublist(a, b)
    ensures Sublist(a, b + [x]) && Sublist(a + [x], b + [x])
    decreases |b|
  {
    var more := b + [x];
    if b == [] {
      assert more[1..] == [];
    } else {
      assert more[0] == b[0] && more[1..] == b[1..] + [x];
      if a == [] {
        SublistPush([], b[1..], x);
        assert [] + [x] == [x];
      } else if a[0] == b[0] && Sublist(a[1..], b[1..]) {
        SublistPush(a[1..], b[1..], x);
        assert (a + [x])[1..] == a[1..] + [x];
      } else {
        SublistPush(a, b[1..], x);
      }
    }
  }

  lemma {:induction false} SublistOne<T>(b: seq<T>, x: T)
    requires x in b
    ensures Sublist([x], b)
    decreases |b|
  {
    if b[0] != x { SublistOne(b[1..], x); }
  }

  /** `set(range(n))` */
  function Range(n: int): (r: set<int>)
    ensures forall x :: x in r <==> 0 <= x < n
  {
    if n <= 0 then {} else Range(n - 1) + {n - 1}
  }
}
