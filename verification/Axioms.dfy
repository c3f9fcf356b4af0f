/**
  Simplifying and negating the axioms of one derived atom.  Axioms are objects
  whose conditions are edited in place.  Conditions are sorted by their atoms
  only, so a literal and its negation compare as equal.
 */
module Axioms {
  import opened Sorting
  import opened Strips
  import opened Wrappers

  class PropositionalAxiom {
    const name: string
    var condition: seq<Literal>
    const effect: Literal

    constructor (name: string, condition: seq<Literal>, effect: Literal)
      ensures this.name == name && this.condition == condition && this.effect == effect
    {
      this.name, this.condition, this.effect := name, condition, effect;
    }

    method Clone() returns (a: PropositionalAxiom)
      ensures fresh(a) && a.name == name && a.condition == condition && a.effect == effect
    {
      a := new PropositionalAxiom(name, condition, effect);
    }
  }

  // ----- Sorting a condition and removing repetitions -----

  /** The list without the elements that equal their predecessor. */
  function Compress(s: seq<Literal>): (r: seq<Literal>)
    ensures forall l :: l in r <==> l in s
    ensures s != [] ==> r != [] && r[0] == s[0]
  {
    if |s| <= 1 then s
    else
      assert s == [s[0]] + s[1..];
      if s[0] == s[1] then Compress(s[1..]) else [s[0]] + Compress(s[1..])
  }

  lemma {:induction false} CompressOneMore(s: seq<Literal>, x: Literal)
    requires s != []
    ensures Compress(s + [x]) == if s[|s| - 1] == x then Compress(s) else Compress(s) + [x]
  {
    var t := s + [x];
    assert t[1..] == s[1..] + [x];
    if |s| == 1 {
      assert Compress(t[1..]) == [x];
    } else {
      CompressOneMore(s[1..], x);
    }
  }

  method RemoveDuplicates(list: seq<Literal>) returns (alist: seq<Literal>)
    ensures alist == Compress(list)
  {
    alist := list;
    if list == [] { return; }
    var nextElem := 1;
    assert list[..1] == [list[0]];
    for i := 1 to |list|
      invariant 1 <= nextElem <= i && |alist| == |list|
      invariant alist[..nextElem] == Compress(list[..i])
      invariant forall k :: i - 1 <= k < |list| ==> alist[k] == list[k]
    {
      assert list[..i + 1] == list[..i] + [list[i]];
      CompressOneMore(list[..i], list[i]);
      if alist[i] != alist[i - 1] {
        alist := alist[nextElem := alist[i]];
        nextElem := nextElem + 1;
      }
    }
    assert list[..|list|] == list;
    alist := alist[..nextElem];
  }

  function ByAtom(before: (Atom, Atom) -> bool): (Literal, Literal) -> bool {
    (k: Literal, l: Literal) => before(k.atom, l.atom)
  }

  function Canonical(before: (Atom, Atom) -> bool, s: seq<Literal>): (r: seq<Literal>)
    ensures forall l :: l in r <==> l in s
  {
    Compress(Sort(ByAtom(before), s))
  }

  /** The literals over one atom, in order. */
  function Over(s: seq<Literal>, a: Atom): seq<Literal> {
    if s == [] then [] else (if s[0].atom == a then [s[0]] else []) + Over(s[1..], a)
  }

  predicate WeaklySorted(before: (Atom, Atom) -> bool, s: seq<Literal>) {
    forall i, j :: 0 <= i < j < |s| ==> !before(s[j].atom, s[i].atom)
  }

  lemma {:induction false} InsertKeepsWeaklySorted(before: (Atom, Atom) -> bool, x: Literal, s: seq<Literal>)
    requires StrictTotalOrder(before) && WeaklySorted(before, s)
    ensures WeaklySorted(before, Insert(ByAtom(before), x, s))
  {
    var less := ByAtom(before);
    if s == [] {
    } else if less(s[0], x) {
      InsertKeepsWeaklySorted(before, x, s[1..]);
      var t := Insert(less, x, s[1..]);
      forall j | 0 <= j < |t| ensures !before(t[j].atom, s[0].atom) {
        assert t[j] in t;
        if t[j] != x {
          var k :| 0 <= k < |s[1..]| && s[1..][k] == t[j];
          var on := k + 1;
          assert s[on] == t[j];
        }
      }
    } else {
      forall j | 0 <= j < |s| ensures !before(s[j].atom, x.atom) {
        assert !before(s[0].atom, x.atom) && (j > 0 ==> !before(s[j].atom, s[0].atom));
      }
    }
  }

  lemma {:induction false} InsertStable(before: (Atom, Atom) -> bool, x: Literal, s: seq<Literal>, a: Atom)
    requires StrictTotalOrder(before)
    ensures Over(Insert(ByAtom(before), x, s), a) == (if x.atom == a then [x] else []) + Over(s, a)
  {
    var less := ByAtom(before);
    var r := Insert(less, x, s);
    if s == [] {
    } else if less(s[0], x) {
      InsertStable(before, x, s[1..], a);
      assert r[1..] == Insert(less, x, s[1..]);
    } else {
      assert r[1..] == s;
    }
  }

  /** The sort is stable, and groups the literals of each atom together. */
  lemma {:induction false} SortStable(before: (Atom, Atom) -> bool, s: seq<Literal>)
    requires StrictTotalOrder(before)
    ensures WeaklySorted(before, Sort(ByAtom(before), s))
    ensures forall a :: Over(Sort(ByAtom(before), s), a) == Over(s, a)
  {
    if s != [] {
      var rest := Sort(ByAtom(before), s[1..]);
      SortStable(before, s[1..]);
      InsertKeepsWeaklySorted(before, s[0], rest);
      forall a ensures Over(Sort(ByAtom(before), s), a) == Over(s, a) {
        InsertStable(before, s[0], rest, a);
      }
    }
  }

  // ----- Which repetitions survive -----

  /** The pattern occurs in order, not necessarily contiguously. */
  predicate Occurs(pattern: seq<Literal>, s: seq<Literal>)
    decreases |s|
  {
    pattern == []
    || (s != [] && (Occurs(pattern, s[1..]) || (s[0] == pattern[0] && Occurs(pattern[1..], s[1..]))))
  }

  /** A literal, later its negation, later the literal again. */
  ghost predicate Alternates(s: seq<Literal>) {
    exists l: Literal :: Occurs([l, l.Negate(), l], s)
  }

  lemma {:induction false} OccursOver(pattern: seq<Literal>, s: seq<Literal>, a: Atom)
    requires forall i :: 0 <= i < |pattern| ==> pattern[i].atom == a
    ensures Occurs(pattern, s) <==> Occurs(pattern, Over(s, a))
    decreases |s|
  {
    if pattern != [] && s != [] {
      OccursOver(pattern, s[1..], a);
      OccursOver(pattern[1..], s[1..], a);
      if s[0].atom == a {
        assert Over(s, a)[1..] == Over(s[1..], a);
      } else {
        assert Over(s, a) == Over(s[1..], a) && s[0] != pattern[0];
      }
    }
  }

  lemma {:induction false} OccursOne(l: Literal, s: seq<Literal>)
    ensures Occurs([l], s) <==> l in s
  {
    if s != [] { OccursOne(l, s[1..]); }
  }

  lemma {:induction false} OccursLater(pattern: seq<Literal>, s: seq<Literal>)
    requires pattern != [] && Occurs(pattern, s)
    ensures pattern[0] in s && Occurs(pattern[1..], s)
    decreases |s|
  {
    if Occurs(pattern, s[1..]) { OccursLater(pattern, s[1..]); }
    if pattern[1..] != [] && s[0] == pattern[0] && Occurs(pattern[1..], s[1..]) {
      assert Occurs(pattern[1..], s);
    }
  }

  lemma DistinctFirst(x: Literal, c: seq<Literal>)
    ensures Distinct([x] + c) <==> Distinct(c) && x !in c
  {
    var d := [x] + c;
    if Distinct(d) {
      forall i, j | 0 <= i < j < |c| ensures c[i] != c[j] {
        assert d[i + 1] != d[j + 1];
      }
      forall i | 0 <= i < |c| ensures c[i] != x {
        assert d[0] != d[i + 1];
      }
    }
  }

  lemma {:induction false} CompressDistinct(before: (Atom, Atom) -> bool, s: seq<Literal>)
    requires StrictTotalOrder(before) && WeaklySorted(before, s)
    ensures Distinct(Compress(s)) <==> !Alternates(s)
  {
    if |s| <= 1 {
      forall l: Literal ensures !Occurs([l, l.Negate(), l], s) {
        if s != [] { assert s[1..] == []; }
      }
    } else {
      var rest := s[1..];
      CompressDistinct(before, rest);
      FirstAlternation(s);
      if s[0] != s[1] {
        DistinctFirst(s[0], Compress(rest));
        Surrounded(before, s);
      }
    }
  }

  lemma FirstAlternation(s: seq<Literal>)
    requires s != []
    ensures Alternates(s) <==> Alternates(s[1..]) || Occurs([s[0].Negate(), s[0]], s[1..])
    ensures |s| >= 2 && s[0] == s[1] && Occurs([s[0].Negate(), s[0]], s[1..]) ==> Alternates(s[1..])
  {
    forall l: Literal ensures Occurs([l, l.Negate(), l], s)
        <==> Occurs([l, l.Negate(), l], s[1..]) || (s[0] == l && Occurs([l.Negate(), l], s[1..])) {
      assert [l, l.Negate(), l][1..] == [l.Negate(), l];
    }
    if |s| >= 2 && s[0] == s[1] && Occurs([s[0].Negate(), s[0]], s[1..]) {
      var l := s[0];
      assert [l, l.Negate(), l][1..] == [l.Negate(), l];
      assert Occurs([l.Negate(), l], s[1..][1..]);
      assert Occurs([l, l.Negate(), l], s[1..]);
    }
  }

  /** In a sorted list, a literal that returns after another one comes back after its negation. */
  lemma Surrounded(before: (Atom, Atom) -> bool, s: seq<Literal>)
    requires StrictTotalOrder(before) && WeaklySorted(before, s) && |s| >= 2 && s[0] != s[1]
    ensures s[0] in s[1..] <==> Occurs([s[0].Negate(), s[0]], s[1..])
  {
    var l, rest := s[0], s[1..];
    var pattern := [l.Negate(), l];
    assert pattern[1..] == [l];
    if Occurs(pattern, rest) {
      OccursLater(pattern, rest);
      OccursOne(l, rest);
    }
    if l in rest {
      var k :| 0 <= k < |rest| && rest[k] == l;
      var on := k + 1;
      assert s[on] == l && !before(s[1].atom, s[0].atom) && !before(s[on].atom, s[1].atom);
      assert s[1].atom == l.atom && s[1] == l.Negate();
      assert rest[1..][k - 1] == l;
      OccursOne(l, rest[1..]);
      assert Occurs(pattern[1..], rest[1..]);
    }
  }

  /** The canonical condition is free of repetitions exactly when no literal of the condition
      comes back after its negation. */
  lemma CanonicalDistinct(before: (Atom, Atom) -> bool, s: seq<Literal>)
    requires StrictTotalOrder(before)
    ensures Distinct(Canonical(before, s)) <==> !Alternates(s)
  {
    var r := Sort(ByAtom(before), s);
    SortStable(before, s);
    CompressDistinct(before, r);
    forall l: Literal ensures Occurs([l, l.Negate(), l], r) <==> Occurs([l, l.Negate(), l], s) {
      OccursOver([l, l.Negate(), l], r, l.atom);
      OccursOver([l, l.Negate(), l], s, l.atom);
    }
  }

  /** An input on which a repetition survives. */
  lemma RepetitionSurvives(before: (Atom, Atom) -> bool, l: Literal)
    requires StrictTotalOrder(before)
    ensures !Distinct(Canonical(before, [l, l.Negate(), l]))
  {
    var p := [l, l.Negate(), l];
    assert p[1..] == [l.Negate(), l] && p[1..][1..] == [l] && p[1..][1..][1..] == [];
    assert Occurs([l], [l]) && Occurs([l.Negate(), l], [l.Negate(), l]);
    assert Occurs(p, p);
    CanonicalDistinct(before, p);
  }
}
