/**
  Conjunctions of equalities between variables and objects.  Equivalence classes
  are shared, mutable sets that are merged into the larger one; the mapping sends
  each term to the smallest term of its class, objects before variables.
 */
module Assignments {
  import opened Wrappers

  datatype Term = Variable(id: int) | Object(id: int)

  /** An infinite domain in which different objects are different. */
  datatype Value = Named(id: int) | Anonymous(id: int)

  type Valuation = Term -> Value

  predicate Satisfied(eqs: seq<(Term, Term)>, f: Valuation) {
    forall i :: 0 <= i < |eqs| ==> f(eqs[i].0) == f(eqs[i].1)
  }

  /** Every valuation that satisfies the equalities, whatever it does to objects, identifies
      the two terms. */
  ghost predicate Entailed(eqs: seq<(Term, Term)>, a: Term, b: Term) {
    forall f: Valuation :: Satisfied(eqs, f) ==> f(a) == f(b)
  }

  /** Objects stand for themselves. */
  ghost predicate Proper(f: Valuation) {
    forall o :: f(Object(o)) == Named(o)
  }

  predicate Mentions(eqs: seq<(Term, Term)>, t: Term) {
    exists i :: 0 <= i < |eqs| && (eqs[i].0 == t || eqs[i].1 == t)
  }

  predicate TermLess(a: Term, b: Term) {
    (a.Object? && b.Variable?) || (a.Object? == b.Object? && a.id < b.id)
  }

  class EqClass {
    var items: set<Term>

    constructor (t: Term)
      ensures items == {t}
    {
      items := {t};
    }
  }

  type Classes = map<Term, EqClass>

  /** Each key is in its class, and the members of a class share it. */
  ghost predicate Partition(m: Classes)
    reads m.Values
  {
    forall t :: t in m ==> t in m[t].items && forall u :: u in m[t].items ==> u in m && m[u] == m[t]
  }

  /** The classes of `m` follow from the equalities. */
  ghost predicate SoundClasses(eqs: seq<(Term, Term)>, m: Classes) {
    forall a, b :: a in m && b in m && m[a] == m[b] ==> Entailed(eqs, a, b)
  }

  /** Each equality is inside a class. */
  ghost predicate Joined(eqs: seq<(Term, Term)>, m: Classes) {
    forall i :: 0 <= i < |eqs| ==> eqs[i].0 in m && eqs[i].1 in m && m[eqs[i].0] == m[eqs[i].1]
  }

  ghost predicate KeysMentioned(eqs: seq<(Term, Term)>, m: Classes) {
    forall t :: t in m ==> Mentions(eqs, t)
  }

  ghost predicate Describes(eqs: seq<(Term, Term)>, m: Classes)
    reads m.Values
  {
    Partition(m) && SoundClasses(eqs, m) && Joined(eqs, m) && KeysMentioned(eqs, m)
  }

  lemma EntailedGrows(eqs: seq<(Term, Term)>, e: (Term, Term), a: Term, b: Term)
    requires Entailed(eqs, a, b)
    ensures Entailed(eqs + [e], a, b)
  {
    forall f: Valuation | Satisfied(eqs + [e], f) ensures f(a) == f(b) {
      assert forall i :: 0 <= i < |eqs| ==> (eqs + [e])[i] == eqs[i];
      assert Satisfied(eqs, f);
    }
  }

  lemma EntailedChain(eqs: seq<(Term, Term)>, e: (Term, Term), a: Term, b: Term)
    requires Entailed(eqs, a, e.0) && Entailed(eqs, b, e.1)
    ensures Entailed(eqs + [e], a, b) && Entailed(eqs + [e], b, a)
  {
    forall f: Valuation | Satisfied(eqs + [e], f) ensures f(a) == f(b) {
      assert forall i :: 0 <= i < |eqs| ==> (eqs + [e])[i] == eqs[i];
      assert (eqs + [e])[|eqs|] == e;
      assert Satisfied(eqs, f);
    }
  }

  /** `eq_classes.setdefault(t, set([t]))` */
  method SetDefault(ghost eqs: seq<(Term, Term)>, m: Classes, t: Term) returns (m': Classes)
    requires Partition(m) && SoundClasses(eqs, m)
    ensures Partition(m') && SoundClasses(eqs, m')
    ensures t in m' && m'.Keys == m.Keys + {t} && forall u :: u in m ==> m'[u] == m[u]
    ensures fresh(m'.Values - m.Values)
  {
    m' := m;
    if t !in m {
      var c := new EqClass(t);
      assert c !in m.Values;
      m' := m[t := c];
      forall u | u in m ensures m[u] in m.Values && m[u] != c { }
    }
  }

  /** Point the members of `c2` at `c1`. */
  method Redirect(m: Classes, members: set<Term>, c1: EqClass) returns (m': Classes)
    requires members <= m.Keys
    ensures m'.Keys == m.Keys && forall t :: t in m ==> m'[t] == if t in members then c1 else m[t]
  {
    m' := m;
    var rest := members;
    while rest != {}
      invariant rest <= members && m'.Keys == m.Keys
      invariant forall t :: t in m ==> m'[t] == if t in members - rest then c1 else m[t]
      decreases |rest|
    {
      var t :| t in rest;
      m' := m'[t := c1];
      rest := rest - {t};
    }
  }

  /** Merge the smaller of the two classes into the larger, in place. */
  method Join(ghost eqs: seq<(Term, Term)>, m: Classes, e: (Term, Term)) returns (m': Classes)
    requires Partition(m) && SoundClasses(eqs, m) && Joined(eqs, m) && KeysMentioned(eqs + [e], m)
    requires e.0 in m && e.1 in m
    modifies m.Values
    ensures Describes(eqs + [e], m') && m'.Values <= m.Values
  {
    hide Partition, SoundClasses, Joined, PartitionBut;
    var c1, c2 := m[e.0], m[e.1];
    ClassMembers(m, e.0);
    ClassMembers(m, e.1);
    if c1 == c2 {
      m' := m;
      AlreadyJoined(eqs, m, e);
    } else {
      if |c2.items| > |c1.items| {
        c1, c2 := c2, c1;
      }
      c1.items := c1.items + c2.items;
      m' := Redirect(m, c2.items, c1);
      MergedPartition(m, m', c1, c2);
      MergedClasses(eqs, m, m', c1, c2, e);
    }
  }

  method AddEquality(ghost eqs: seq<(Term, Term)>, m: Classes, e: (Term, Term)) returns (m': Classes)
    requires Describes(eqs, m)
    modifies m.Values
    ensures Describes(eqs + [e], m') && fresh(m'.Values - m.Values)
  {
    hide Entailed, Partition, SoundClasses;
    var m1 := SetDefault(eqs, m, e.0);
    var m2 := SetDefault(eqs, m1, e.1);
    assert Joined(eqs, m2);
    KeysGrow(eqs, m, m2, e);
    assert fresh(m2.Values - m.Values);
    m' := Join(eqs, m2, e);
  }

  lemma KeysGrow(eqs: seq<(Term, Term)>, m: Classes, m': Classes, e: (Term, Term))
    requires KeysMentioned(eqs, m) && m'.Keys == m.Keys + {e.0} + {e.1}
    ensures KeysMentioned(eqs + [e], m')
  {
    assert (eqs + [e])[|eqs|] == e;
    forall t | t in m' ensures Mentions(eqs + [e], t) {
      if t in m {
        var i :| 0 <= i < |eqs| && (eqs[i].0 == t || eqs[i].1 == t);
        assert (eqs + [e])[i] == eqs[i];
      }
    }
  }

  predicate InClass(m: Classes, c: EqClass, t: Term) {
    t in m && m[t] == c
  }

  lemma ClassMembers(m: Classes, t: Term)
    requires Partition(m) && t in m
    ensures m[t] in m.Values && forall u :: u in m[t].items <==> InClass(m, m[t], u)
    ensures PartitionBut(m, m[t])
  {
  }

  /** `Partition`, except for the class that is about to grow. */
  ghost predicate PartitionBut(m: Classes, c: EqClass)
    reads m.Values - {c}
  {
    forall t :: t in m && m[t] != c ==> t in m[t].items && forall u :: u in m[t].items ==> InClass(m, m[t], u)
  }

  lemma MergedPartition(m: Classes, m': Classes, c1: EqClass, c2: EqClass)
    requires m'.Keys == m.Keys && c1 in m.Values && c2 in m.Values && c1 != c2 && PartitionBut(m, c1)
    requires forall u :: u in c2.items <==> InClass(m, c2, u)
    requires forall u :: u in c1.items <==> InClass(m, c1, u) || InClass(m, c2, u)
    requires forall t :: t in m ==> m'[t] == if m[t] == c2 then c1 else m[t]
    ensures Partition(m') && m'.Values <= m.Values
  {
    forall t | t in m' ensures t in m'[t].items && forall u :: u in m'[t].items ==> u in m' && m'[u] == m'[t] {
      if m'[t] == c1 {
        assert InClass(m, c1, t) || InClass(m, c2, t);
      }
    }
  }

  lemma AlreadyJoined(eqs: seq<(Term, Term)>, m: Classes, e: (Term, Term))
    requires SoundClasses(eqs, m) && Joined(eqs, m) && e.0 in m && e.1 in m && m[e.0] == m[e.1]
    ensures SoundClasses(eqs + [e], m) && Joined(eqs + [e], m)
  {
    forall a, b | a in m && b in m && m[a] == m[b] ensures Entailed(eqs + [e], a, b) {
      EntailedGrows(eqs, e, a, b);
    }
  }

  lemma MergedClasses(eqs: seq<(Term, Term)>, m: Classes, m': Classes, c1: EqClass, c2: EqClass, e: (Term, Term))
    requires SoundClasses(eqs, m) && Joined(eqs, m) && e.0 in m && e.1 in m && m'.Keys == m.Keys
    requires (m[e.0] == c1 && m[e.1] == c2) || (m[e.0] == c2 && m[e.1] == c1)
    requires forall t :: t in m ==> m'[t] == if m[t] == c2 then c1 else m[t]
    ensures SoundClasses(eqs + [e], m') && Joined(eqs + [e], m')
  {
    forall a, b | a in m' && b in m' && m'[a] == m'[b] ensures Entailed(eqs + [e], a, b) {
      if m[a] == m[b] {
        EntailedGrows(eqs, e, a, b);
      } else if m[a] == m[e.0] {
        EntailedChain(eqs, e, a, b);
      } else {
        EntailedChain(eqs, e, b, a);
      }
    }
  }

  lemma NothingDescribed()
    ensures Describes([], map[])
  {
  }

  /** What the mapping of a consistent assignment is. */
  ghost predicate IsMapping(eqs: seq<(Term, Term)>, mp: map<Term, Term>) {
    && (forall t :: t in mp <==> Mentions(eqs, t))
    && (forall a :: a in mp ==> mp[a] in mp && Entailed(eqs, a, mp[a]))
    && (forall a, b :: a in mp && b in mp ==> (mp[a] == mp[b] <==> Entailed(eqs, a, b)))
    && (forall a, b :: a in mp && b in mp && Entailed(eqs, a, b) ==> !TermLess(b, mp[a]))
  }

  /** Two different objects would have to be equal. */
  ghost predicate Clash(eqs: seq<(Term, Term)>) {
    exists o, p :: o != p && Mentions(eqs, Object(o)) && Mentions(eqs, Object(p)) && Entailed(eqs, Object(o), Object(p))
  }

  /** The members of the classes, as values. */
  ghost function Members(m: Classes): map<Term, set<Term>>
    reads m.Values
  {
    map t | t in m :: m[t].items
  }

  /** The classes are the components of the equalities: two mentioned terms share a class
      exactly when the equalities force them to be equal. */
  ghost predicate ExactClasses(eqs: seq<(Term, Term)>, members: map<Term, set<Term>>) {
    && (forall t :: t in members <==> Mentions(eqs, t))
    && (forall t, u :: t in members ==> (u in members[t] <==> u in members && Entailed(eqs, t, u)))
  }

  ghost function Pick(s: set<Term>): (t: Term)
    requires s != {}
    ensures t in s
  {
    var t :| t in s;
    t
  }

  function Code(t: Term): Value {
    match t
    case Variable(v) => Anonymous(v)
    case Object(o) => Named(o)
  }

  /** The valuation that sends a term to a chosen member of its class. */
  ghost function Chosen(m: Classes): (f: Valuation)
    requires Partition(m)
    reads m.Values
  {
    var picks := map t | t in m :: Pick(m[t].items);
    t => if t in picks then Code(picks[t]) else Code(t)
  }

  lemma ChosenSatisfies(eqs: seq<(Term, Term)>, m: Classes)
    requires Partition(m) && Joined(eqs, m)
    ensures Satisfied(eqs, Chosen(m))
    ensures forall a, b :: a in m && b in m && Chosen(m)(a) == Chosen(m)(b) ==> m[a] == m[b]
  {
    forall a, b | a in m && b in m && Chosen(m)(a) == Chosen(m)(b) ensures m[a] == m[b] {
      var p := Pick(m[a].items);
      assert p == Pick(m[b].items);
      assert m[p] == m[a] && m[p] == m[b];
    }
  }

  lemma DescribesExactly(eqs: seq<(Term, Term)>, m: Classes)
    requires Describes(eqs, m)
    ensures ExactClasses(eqs, Members(m))
  {
    ChosenSatisfies(eqs, m);
    forall t, u | t in m ensures u in m[t].items <==> u in m && Entailed(eqs, t, u) {
      if u in m && Entailed(eqs, t, u) {
        assert Chosen(m)(t) == Chosen(m)(u);
      }
    }
  }

  /** `x` is a smallest member of its class. */
  predicate IsLeast(s: set<Term>, x: Term) {
    x in s && forall y :: y in s ==> !TermLess(y, x)
  }

  ghost predicate TwoObjects(s: set<Term>) {
    exists o, p :: o != p && Object(o) in s && Object(p) in s
  }

  /** `min(variables)` */
  method LeastOf(s: set<Term>) returns (x: Term)
    requires s != {}
    ensures IsLeast(s, x)
  {
    var rest := s;
    x :| x in s;
    rest := rest - {x};
    while rest != {}
      invariant rest <= s && IsLeast(s - rest, x)
      decreases |rest|
    {
      var y :| y in rest;
      ghost var seen, was := s - rest, x;
      if TermLess(y, x) { x := y; }
      rest := rest - {y};
      forall z | z in s - rest ensures !TermLess(z, x) { assert z in seen || z == y; }
    }
  }

  /** The term that stands for a class: its only object, or its smallest variable. */
  method Representative(items: set<Term>) returns (x: Option<Term>)
    requires items != {}
    ensures x == None <==> TwoObjects(items)
    ensures x.Some? ==> IsLeast(items, x.value)
  {
    var constants, variables := set t | t in items && t.Object?, set t | t in items && t.Variable?;
    if |constants| >= 2 {
      var a := Member(constants);
      OneLess(constants, a);
      var b := Member(constants - {a});
      assert Object(a.id) in items && Object(b.id) in items;
      x := None;
    } else if constants != {} {
      var c :| c in constants;
      OneLess(constants, c);
      forall t | t in items && t.Object? ensures t == c { assert t in constants; }
      x := Some(c);
    } else {
      assert variables == items by {
        forall t | t in items ensures t in variables { assert t !in constants; }
      }
      forall t | t in items ensures t.Variable? { assert t in variables; }
      var v := LeastOf(variables);
      x := Some(v);
    }
  }

  lemma OneLess(s: set<Term>, a: Term)
    requires a in s
    ensures |s - {a}| == |s| - 1 && (|s| == 1 ==> s == {a})
  {
    assert s == (s - {a}) + {a};
  }

  class Assignment {
    const equalities: seq<(Term, Term)>
    var consistent: Option<bool>
    var mapping: Option<map<Term, Term>>
    var eqClasses: Option<Classes>

    /** The cached fields are unset, or right. */
    ghost predicate Valid()
      reads this
    {
      match consistent
      case None => eqClasses == None
      case Some(true) => mapping.Some? && IsMapping(equalities, mapping.value) && !Clash(equalities)
      case Some(false) => mapping == None && Clash(equalities)
    }

    constructor (equalities: seq<(Term, Term)>)
      ensures this.equalities == equalities && Valid() && consistent == None
    {
      this.equalities := equalities;
      consistent, mapping, eqClasses := None, None, None;
    }

    method ComputeEquivalenceClasses()
      modifies this`eqClasses
      ensures eqClasses.Some? && Describes(equalities, eqClasses.value) && fresh(eqClasses.value.Values)
    {
      hide Entailed, Describes;
      var m: Classes := map[];
      NothingDescribed();
      assert equalities[..0] == [];
      for i := 0 to |equalities|
        invariant Describes(equalities[..i], m) && fresh(m.Values)
      {
        m := AddEquality(equalities[..i], m, equalities[i]);
        assert equalities[..i + 1] == equalities[..i] + [equalities[i]];
      }
      assert equalities[..|equalities|] == equalities;
      eqClasses := Some(m);
    }

    method ComputeMapping()
      requires Valid() && consistent == None
      modifies this
      ensures Valid() && consistent.Some?
    {
      hide Entailed, Describes, TwoObjects, IsLeast, MappedSoFar;
      ComputeEquivalenceClasses();
      var m := eqClasses.value;
      DescribesExactly(equalities, m);
      ghost var members := Members(m);
      var keys := ListOf(m.Keys);
      var mp: map<Term, Term> := map[];
      assert MappedSoFar(members, mp) by { NothingMapped(members); }
      for i := 0 to |keys|
        invariant members == Members(m) && MappedSoFar(members, mp) && forall k :: 0 <= k < i ==> keys[k] in mp
      {
        assert keys[i] in keys;
        var items := m[keys[i]].items;
        OwnClass(equalities, members, keys[i]);
        var setVal := Representative(items);
        if setVal == None {
          ClashFound(equalities, members, keys[i]);
          consistent, mapping := Some(false), None;
          return;
        }
        MapClass(equalities, members, mp, keys[i], setVal.value);
        mp := mp + map e | e in items :: setVal.value;
      }
      forall t | t in members ensures t in mp { assert t in keys; }
      MappedAll(equalities, members, mp);
      consistent, mapping := Some(true), Some(mp);
    }

    method IsConsistent() returns (b: bool)
      requires Valid()
      modifies this
      ensures Valid() && consistent == Some(b) && (b <==> !Clash(equalities))
    {
      if consistent == None { ComputeMapping(); }
      b := consistent.value;
    }

    method GetMapping() returns (mp: Option<map<Term, Term>>)
      requires Valid()
      modifies this
      ensures Valid() && consistent.Some? && mapping == mp
      ensures mp.Some? <==> !Clash(equalities)
      ensures mp.Some? ==> IsMapping(equalities, mp.value)
    {
      if consistent == None { ComputeMapping(); }
      mp := mapping;
    }
  }

  ghost predicate MappedSoFar(members: map<Term, set<Term>>, mp: map<Term, Term>) {
    forall t :: t in mp ==> MappedClass(members, mp, t)
  }

  ghost predicate MappedClass(members: map<Term, set<Term>>, mp: map<Term, Term>, t: Term) {
    && t in mp && t in members && !TwoObjects(members[t]) && IsLeast(members[t], mp[t])
    && forall u :: u in members[t] ==> u in mp && mp[u] == mp[t]
  }

  lemma NothingMapped(members: map<Term, set<Term>>)
    ensures MappedSoFar(members, map[])
  {
  }

  lemma ClashFound(eqs: seq<(Term, Term)>, members: map<Term, set<Term>>, t: Term)
    requires ExactClasses(eqs, members) && t in members && TwoObjects(members[t])
    ensures Clash(eqs)
  {
    var o, p :| o != p && Object(o) in members[t] && Object(p) in members[t];
    SameClass(eqs, members, t, Object(o), Object(p));
  }

  lemma EntailedEquivalence(eqs: seq<(Term, Term)>, a: Term, b: Term, c: Term)
    requires Entailed(eqs, a, b)
    ensures Entailed(eqs, a, a) && Entailed(eqs, b, a) && (Entailed(eqs, b, c) <==> Entailed(eqs, a, c))
  {
  }

  lemma SameClass(eqs: seq<(Term, Term)>, members: map<Term, set<Term>>, t: Term, a: Term, b: Term)
    requires ExactClasses(eqs, members) && t in members && a in members[t] && b in members[t]
    ensures a in members && b in members && Entailed(eqs, a, b) && members[a] == members[t]
  {
    hide Entailed;
    EntailedEquivalence(eqs, t, a, b);
    forall u ensures u in members[a] <==> u in members[t] {
      EntailedEquivalence(eqs, t, a, u);
    }
  }

  lemma OwnClass(eqs: seq<(Term, Term)>, members: map<Term, set<Term>>, t: Term)
    requires ExactClasses(eqs, members) && t in members
    ensures t in members[t]
  {
    assert Entailed(eqs, t, t);
  }

  lemma MapClass(eqs: seq<(Term, Term)>, members: map<Term, set<Term>>, mp: map<Term, Term>, t: Term, x: Term)
    requires ExactClasses(eqs, members) && t in members && MappedSoFar(members, mp)
    requires !TwoObjects(members[t]) && IsLeast(members[t], x)
    ensures MappedSoFar(members, mp + map e | e in members[t] :: x)
    ensures t in members[t]
  {
    hide Entailed, TwoObjects, IsLeast;
    OwnClass(eqs, members, t);
    var mp' := mp + map e | e in members[t] :: x;
    forall a | a in mp' ensures MappedClass(members, mp', a) {
      if a in members[t] {
        SameClass(eqs, members, t, a, a);
      } else {
        assert MappedClass(members, mp, a);
        forall u | u in members[a] ensures u !in members[t] {
          if u in members[t] {
            OwnClass(eqs, members, a);
            SameClass(eqs, members, a, u, a);
            SameClass(eqs, members, t, u, u);
          }
        }
      }
    }
  }

  lemma MappedAll(eqs: seq<(Term, Term)>, members: map<Term, set<Term>>, mp: map<Term, Term>)
    requires ExactClasses(eqs, members) && MappedSoFar(members, mp) && forall t :: t in members ==> t in mp
    ensures IsMapping(eqs, mp) && !Clash(eqs)
  {
    hide Entailed, TwoObjects;
    forall t | t in mp ensures MappedClass(members, mp, t) && t in members[t] {
      OwnClass(eqs, members, t);
    }
    forall a, b | a in mp && b in mp ensures mp[a] == mp[b] <==> Entailed(eqs, a, b) {
      if mp[a] == mp[b] {
        SameClass(eqs, members, a, mp[a], a);
        SameClass(eqs, members, b, mp[b], b);
        assert a in members[b];
        SameClass(eqs, members, b, b, a);
      }
    }
    forall o, p | Mentions(eqs, Object(o)) && Mentions(eqs, Object(p)) && Entailed(eqs, Object(o), Object(p)) ensures o == p {
      assert Object(o) in members && Object(p) in members[Object(o)];
      OneObject(members[Object(o)], o, p);
    }
  }

  lemma OneObject(s: set<Term>, o: int, p: int)
    requires !TwoObjects(s) && Object(o) in s && Object(p) in s
    ensures o == p
  {
  }

  // ----- The classes are the connected components -----

  predicate IsEdge(eqs: seq<(Term, Term)>, a: Term, b: Term) {
    exists i :: 0 <= i < |eqs| && (eqs[i] == (a, b) || eqs[i] == (b, a))
  }

  predicate IsPath(eqs: seq<(Term, Term)>, path: seq<Term>) {
    path != [] && forall i :: 0 <= i < |path| - 1 ==> var next := i + 1; IsEdge(eqs, path[i], path[next])
  }

  ghost predicate Linked(eqs: seq<(Term, Term)>, a: Term, b: Term) {
    exists path :: IsPath(eqs, path) && path[0] == a && path[|path| - 1] == b
  }

  lemma LinkedOn(eqs: seq<(Term, Term)>, a: Term, b: Term, c: Term)
    requires Linked(eqs, a, b) && IsEdge(eqs, b, c)
    ensures Linked(eqs, a, c)
  {
    var path :| IsPath(eqs, path) && path[0] == a && path[|path| - 1] == b;
    var longer := path + [c];
    forall i | 0 <= i < |longer| - 1 ensures IsEdge(eqs, longer[i], longer[i + 1]) {
      if i < |path| - 1 {
        var next := i + 1;
        assert IsEdge(eqs, path[i], path[next]);
      }
    }
    assert IsPath(eqs, longer);
  }

  lemma {:induction false} PathEntails(eqs: seq<(Term, Term)>, path: seq<Term>)
    requires IsPath(eqs, path)
    ensures Entailed(eqs, path[0], path[|path| - 1])
    decreases |path|
  {
    if |path| > 1 {
      var init, n := path[..|path| - 1], |path| - 2;
      assert IsPath(eqs, init) by {
        forall i | 0 <= i < |init| - 1 ensures IsEdge(eqs, init[i], init[i + 1]) {
          var next := i + 1;
          assert IsEdge(eqs, path[i], path[next]);
        }
      }
      PathEntails(eqs, init);
      var next := n + 1;
      assert IsEdge(eqs, path[n], path[next]);
    }
  }

  /** Two terms are forced to be equal exactly when the equalities link them. */
  lemma EntailedIffLinked(eqs: seq<(Term, Term)>, a: Term, b: Term)
    ensures Entailed(eqs, a, b) <==> Linked(eqs, a, b)
  {
    if Linked(eqs, a, b) {
      var path :| IsPath(eqs, path) && path[0] == a && path[|path| - 1] == b;
      PathEntails(eqs, path);
    } else {
      var f: Valuation := t => if Linked(eqs, a, t) then Named(0) else Named(1);
      forall i | 0 <= i < |eqs| ensures f(eqs[i].0) == f(eqs[i].1) {
        assert IsEdge(eqs, eqs[i].0, eqs[i].1) && IsEdge(eqs, eqs[i].1, eqs[i].0);
        if Linked(eqs, a, eqs[i].0) { LinkedOn(eqs, a, eqs[i].0, eqs[i].1); }
        if Linked(eqs, a, eqs[i].1) { LinkedOn(eqs, a, eqs[i].1, eqs[i].0); }
      }
      assert IsPath(eqs, [a]);
      assert Satisfied(eqs, f) && f(a) != f(b);
    }
  }
}
