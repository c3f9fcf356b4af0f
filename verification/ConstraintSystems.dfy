/**
  Constraint systems: one assignment out of each disjunction must hold, and every
  negative clause must contain an inequality that holds.
 */
module ConstraintSystems {
  import opened Assignments

  datatype NegativeClause = NegativeClause(parts: seq<(Term, Term)>) {
    predicate IsSatisfiable() {
      exists i :: 0 <= i < |parts| && parts[i].0 != parts[i].1
    }

    function ApplyMapping(m: map<Term, Term>): NegativeClause {
      NegativeClause(seq(|parts|, i requires 0 <= i < |parts| => (Get(m, parts[i].0), Get(m, parts[i].1))))
    }
  }

  function Get(m: map<Term, Term>, t: Term): Term {
    if t in m then m[t] else t
  }

  // ----- Meaning -----

  ghost predicate ClauseHolds(c: NegativeClause, f: Valuation) {
    exists i :: 0 <= i < |c.parts| && f(c.parts[i].0) != f(c.parts[i].1)
  }

  ghost predicate ClausesHold(cs: seq<NegativeClause>, f: Valuation) {
    forall i :: 0 <= i < |cs| ==> ClauseHolds(cs[i], f)
  }

  ghost predicate SomeHolds(disjunction: seq<Assignment>, f: Valuation) {
    exists j :: 0 <= j < |disjunction| && Satisfied(disjunction[j].equalities, f)
  }

  /** A valuation with distinct objects that satisfies the whole system. */
  ghost predicate Solution(assignments: seq<seq<Assignment>>, cs: seq<NegativeClause>, f: Valuation) {
    && Proper(f) && ClausesHold(cs, f)
    && forall i :: 0 <= i < |assignments| ==> SomeHolds(assignments[i], f)
  }

  // ----- The canonical valuation of a mapping -----

  ghost function Canonical(mp: map<Term, Term>): Valuation {
    t => Code(Get(mp, t))
  }

  lemma CanonicalProper(eqs: seq<(Term, Term)>, mp: map<Term, Term>, o: int)
    requires IsMapping(eqs, mp) && !Clash(eqs)
    ensures Canonical(mp)(Object(o)) == Named(o)
  {
    hide Entailed;
    var t := Object(o);
    if t in mp {
      assert Entailed(eqs, t, mp[t]) && Mentions(eqs, mp[t]);
      EntailedEquivalence(eqs, t, mp[t], t);
      assert !TermLess(t, mp[t]);
    }
  }

  lemma CanonicalSolves(eqs: seq<(Term, Term)>, mp: map<Term, Term>)
    requires IsMapping(eqs, mp) && !Clash(eqs)
    ensures Proper(Canonical(mp)) && Satisfied(eqs, Canonical(mp))
  {
    hide Clash;
    forall o ensures Canonical(mp)(Object(o)) == Named(o) {
      CanonicalProper(eqs, mp, o);
    }
    forall i | 0 <= i < |eqs| ensures Get(mp, eqs[i].0) == Get(mp, eqs[i].1) {
      assert Mentions(eqs, eqs[i].0) && Mentions(eqs, eqs[i].1) && Entailed(eqs, eqs[i].0, eqs[i].1);
    }
  }

  /** The canonical valuation keeps apart whatever any solution keeps apart. */
  lemma CanonicalIsFreest(eqs: seq<(Term, Term)>, mp: map<Term, Term>, f: Valuation, a: Term, b: Term)
    requires IsMapping(eqs, mp) && Satisfied(eqs, f) && f(a) != f(b)
    ensures Get(mp, a) != Get(mp, b)
  {
    if a in mp {
      assert Entailed(eqs, a, mp[a]);
    }
    if b in mp {
      assert Entailed(eqs, b, mp[b]);
    }
  }

  lemma ClauseExact(eqs: seq<(Term, Term)>, mp: map<Term, Term>, c: NegativeClause)
    requires IsMapping(eqs, mp)
    ensures c.ApplyMapping(mp).IsSatisfiable() <==> ClauseHolds(c, Canonical(mp))
    ensures forall f :: Satisfied(eqs, f) && ClauseHolds(c, f) ==> ClauseHolds(c, Canonical(mp))
  {
    var d := c.ApplyMapping(mp);
    forall i | 0 <= i < |c.parts| ensures d.parts[i].0 != d.parts[i].1 <==> Canonical(mp)(c.parts[i].0) != Canonical(mp)(c.parts[i].1) {
    }
    forall f | Satisfied(eqs, f) && ClauseHolds(c, f) ensures ClauseHolds(c, Canonical(mp)) {
      var i :| 0 <= i < |c.parts| && f(c.parts[i].0) != f(c.parts[i].1);
      CanonicalIsFreest(eqs, mp, f, c.parts[i].0, c.parts[i].1);
    }
  }

  lemma ConsistencyNeeded(eqs: seq<(Term, Term)>)
    ensures Clash(eqs) ==> forall f :: Proper(f) ==> !Satisfied(eqs, f)
  {
    if Clash(eqs) {
      var o, p :| o != p && Mentions(eqs, Object(o)) && Mentions(eqs, Object(p)) && Entailed(eqs, Object(o), Object(p));
      forall f: Valuation | Proper(f) ensures !Satisfied(eqs, f) {
        assert f(Object(o)) != f(Object(p));
      }
    }
  }

  // ----- Choices -----

  /** `itertools.product(*lists)` */
  function Product(lists: seq<seq<Assignment>>): (r: seq<seq<Assignment>>) {
    if lists == [] then [[]]
    else Extend(Product(lists[..|lists| - 1]), lists[|lists| - 1])
  }

  function Extend(choices: seq<seq<Assignment>>, last: seq<Assignment>): seq<seq<Assignment>> {
    if choices == [] then []
    else
      var first := seq(|last|, j requires 0 <= j < |last| => choices[0] + [last[j]]);
      first + Extend(choices[1..], last)
  }

  predicate IsExtension(choices: seq<seq<Assignment>>, last: seq<Assignment>, c: seq<Assignment>) {
    exists i, j :: 0 <= i < |choices| && 0 <= j < |last| && c == choices[i] + [last[j]]
  }

  lemma {:induction false} ExtendIsExtensions(choices: seq<seq<Assignment>>, last: seq<Assignment>, c: seq<Assignment>)
    ensures c in Extend(choices, last) <==> IsExtension(choices, last, c)
    decreases |choices|
  {
    if choices != [] {
      ExtendIsExtensions(choices[1..], last, c);
      ExtensionSplit(choices, last, c);
      var first := seq(|last|, j requires 0 <= j < |last| => choices[0] + [last[j]]);
      if IsExtension(choices[..1], last, c) {
        var i, j :| 0 <= i < 1 && 0 <= j < |last| && c == choices[..1][i] + [last[j]];
        assert first[j] == c;
      }
      forall j | 0 <= j < |first| ensures IsExtension(choices[..1], last, first[j]) {
        assert first[j] == choices[..1][0] + [last[j]];
      }
    }
  }

  lemma ExtensionSplit(choices: seq<seq<Assignment>>, last: seq<Assignment>, c: seq<Assignment>)
    requires choices != []
    ensures IsExtension(choices, last, c) <==> IsExtension(choices[..1], last, c) || IsExtension(choices[1..], last, c)
  {
    if IsExtension(choices, last, c) {
      var i, j :| 0 <= i < |choices| && 0 <= j < |last| && c == choices[i] + [last[j]];
      if i > 0 {
        var back := i - 1;
        assert c == choices[1..][back] + [last[j]];
      } else {
        assert c == choices[..1][0] + [last[j]];
      }
    }
    if IsExtension(choices[1..], last, c) {
      var i, j :| 0 <= i < |choices[1..]| && 0 <= j < |last| && c == choices[1..][i] + [last[j]];
      var on := i + 1;
      assert c == choices[on] + [last[j]];
    }
  }

  predicate IsChoice(lists: seq<seq<Assignment>>, c: seq<Assignment>) {
    |c| == |lists| && forall i :: 0 <= i < |c| ==> c[i] in lists[i]
  }

  lemma {:induction false} ProductIsChoices(lists: seq<seq<Assignment>>, c: seq<Assignment>)
    ensures c in Product(lists) <==> IsChoice(lists, c)
    decreases |lists|
  {
    if lists == [] {
      assert c in Product([]) <==> c == [];
    } else {
      hide IsExtension, Extend, IsChoice;
      var n := |lists| - 1;
      ExtendIsExtensions(Product(lists[..n]), lists[n], c);
      if |c| == |lists| {
        ProductIsChoices(lists[..n], c[..n]);
        ExtensionIsChoice(lists, Product(lists[..n]), c);
      } else {
        WrongLength(lists, Product(lists[..n]), c);
      }
    }
  }

  lemma ExtensionIsChoice(lists: seq<seq<Assignment>>, choices: seq<seq<Assignment>>, c: seq<Assignment>)
    requires lists != [] && |c| == |lists|
    requires c[..|c| - 1] in choices <==> IsChoice(lists[..|lists| - 1], c[..|c| - 1])
    ensures IsExtension(choices, lists[|lists| - 1], c) <==> IsChoice(lists, c)
  {
    var n, last := |c| - 1, lists[|lists| - 1];
    if IsExtension(choices, last, c) {
      var i, j :| 0 <= i < |choices| && 0 <= j < |last| && c == choices[i] + [last[j]];
      assert c[..n] == choices[i];
      assert forall k :: 0 <= k < n ==> c[..n][k] in lists[..n][k];
    }
    if IsChoice(lists, c) {
      assert IsChoice(lists[..n], c[..n]);
      var i :| 0 <= i < |choices| && choices[i] == c[..n];
      var j :| 0 <= j < |last| && last[j] == c[n];
      assert c == choices[i] + [last[j]];
    }
  }

  lemma WrongLength(lists: seq<seq<Assignment>>, choices: seq<seq<Assignment>>, c: seq<Assignment>)
    requires lists != [] && |c| != |lists| && choices == Product(lists[..|lists| - 1])
    ensures !IsExtension(choices, lists[|lists| - 1], c) && !IsChoice(lists, c)
  {
    var n, last := |lists| - 1, lists[|lists| - 1];
    forall i, j | 0 <= i < |choices| && 0 <= j < |last| ensures c != choices[i] + [last[j]] {
      ProductLengths(lists[..n], choices[i]);
    }
  }

  lemma {:induction false} ProductLengths(lists: seq<seq<Assignment>>, c: seq<Assignment>)
    requires c in Product(lists)
    ensures |c| == |lists|
    decreases |lists|
  {
    if lists != [] {
      var n := |lists| - 1;
      var choices, last := Product(lists[..n]), lists[n];
      ExtendIsExtensions(choices, last, c);
      var i, j :| 0 <= i < |choices| && 0 <= j < |last| && c == choices[i] + [last[j]];
      ProductLengths(lists[..n], choices[i]);
    }
  }

  ghost predicate AllSatisfied(c: seq<Assignment>, f: Valuation) {
    forall i :: 0 <= i < |c| ==> Satisfied(c[i].equalities, f)
  }

  /** Choosing one assignment of each disjunction loses no valuation. */
  lemma SomeChoice(lists: seq<seq<Assignment>>, f: Valuation) returns (c: seq<Assignment>)
    requires forall i :: 0 <= i < |lists| ==> SomeHolds(lists[i], f)
    ensures IsChoice(lists, c) && AllSatisfied(c, f)
  {
    c := [];
    for n := 0 to |lists|
      invariant IsChoice(lists[..n], c) && AllSatisfied(c, f)
    {
      var j :| 0 <= j < |lists[n]| && Satisfied(lists[n][j].equalities, f);
      c := c + [lists[n][j]];
    }
    assert lists[..|lists|] == lists;
  }

  // ----- Deciding solvability -----

  method CombineAssignments(assignments: seq<Assignment>) returns (a: Assignment)
    ensures a.Valid() && fresh(a)
    ensures forall f :: Satisfied(a.equalities, f) <==> AllSatisfied(assignments, f)
  {
    var eqs := [];
    for i := 0 to |assignments|
      invariant forall f :: Satisfied(eqs, f) <==> AllSatisfied(assignments[..i], f)
    {
      ConcatSatisfied(eqs, assignments[i].equalities);
      eqs := eqs + assignments[i].equalities;
      assert assignments[..i + 1] == assignments[..i] + [assignments[i]];
    }
    assert assignments[..|assignments|] == assignments;
    a := new Assignment(eqs);
  }

  lemma ConcatSatisfied(a: seq<(Term, Term)>, b: seq<(Term, Term)>)
    ensures forall f :: Satisfied(a + b, f) <==> Satisfied(a, f) && Satisfied(b, f)
  {
    forall f: Valuation ensures Satisfied(a + b, f) <==> Satisfied(a, f) && Satisfied(b, f) {
      assert forall i :: 0 <= i < |a| ==> (a + b)[i] == a[i];
      assert forall i :: 0 <= i < |b| ==> (a + b)[|a| + i] == b[i];
    }
  }

  /** Joining two systems intersects their solutions. */
  lemma SolutionConcat(a: seq<seq<Assignment>>, b: seq<seq<Assignment>>, c: seq<NegativeClause>,
      d: seq<NegativeClause>, f: Valuation)
    ensures Solution(a + b, c + d, f) <==> Solution(a, c, f) && Solution(b, d, f)
  {
    hide SomeHolds, ClauseHolds;
    if Solution(a + b, c + d, f) {
      assert forall i :: 0 <= i < |a| ==> (a + b)[i] == a[i];
      assert forall i :: 0 <= i < |b| ==> (a + b)[|a| + i] == b[i];
      assert forall i :: 0 <= i < |c| ==> (c + d)[i] == c[i];
      assert forall i :: 0 <= i < |d| ==> (c + d)[|c| + i] == d[i];
    }
  }

  lemma AddedDisjunction(alts: seq<seq<Assignment>>, cs: seq<NegativeClause>, a: seq<Assignment>, f: Valuation)
    ensures Solution(alts + [a], cs, f) <==> Solution(alts, cs, f) && SomeHolds(a, f)
  {
    SolutionConcat(alts, [a], cs, [], f);
    assert cs + [] == cs && [a][0] == a;
  }

  lemma AddedClause(alts: seq<seq<Assignment>>, cs: seq<NegativeClause>, c: NegativeClause, f: Valuation)
    ensures Solution(alts, cs + [c], f) <==> Solution(alts, cs, f) && ClauseHolds(c, f)
  {
    SolutionConcat(alts, [], cs, [c], f);
    assert alts + [] == alts && [c][0] == c;
  }

  lemma ChoiceSolves(lists: seq<seq<Assignment>>, cs: seq<NegativeClause>, c: seq<Assignment>, f: Valuation)
    requires IsChoice(lists, c) && AllSatisfied(c, f) && Proper(f) && ClausesHold(cs, f)
    ensures Solution(lists, cs, f)
  {
    forall i | 0 <= i < |lists| ensures SomeHolds(lists[i], f) {
      var j :| 0 <= j < |lists[i]| && lists[i][j] == c[i];
    }
  }

  /** If no choice can be satisfied together with the clauses, nothing can. */
  lemma NoSolution(lists: seq<seq<Assignment>>, cs: seq<NegativeClause>, f: Valuation)
    requires forall c :: c in Product(lists) && AllSatisfied(c, f) && Proper(f) ==> !ClausesHold(cs, f)
    ensures !Solution(lists, cs, f)
  {
    if Solution(lists, cs, f) {
      var c := SomeChoice(lists, f);
      ProductIsChoices(lists, c);
    }
  }

  class ConstraintSystem {
    var combinatorialAssignments: seq<seq<Assignment>>
    var negClauses: seq<NegativeClause>

    constructor ()
      ensures combinatorialAssignments == [] && negClauses == []
    {
      combinatorialAssignments, negClauses := [], [];
    }

    ghost predicate SolvedBy(f: Valuation)
      reads this
    {
      Solution(combinatorialAssignments, negClauses, f)
    }

    method AddAssignmentDisjunction(assignments: seq<Assignment>)
      modifies this
      ensures forall f :: SolvedBy(f) <==> old(SolvedBy(f)) && SomeHolds(assignments, f)
    {
      forall f: Valuation ensures Solution(combinatorialAssignments + [assignments], negClauses, f)
          <==> Solution(combinatorialAssignments, negClauses, f) && SomeHolds(assignments, f) {
        AddedDisjunction(combinatorialAssignments, negClauses, assignments, f);
      }
      combinatorialAssignments := combinatorialAssignments + [assignments];
    }

    method AddNegativeClause(clause: NegativeClause)
      modifies this
      ensures forall f :: SolvedBy(f) <==> old(SolvedBy(f)) && ClauseHolds(clause, f)
    {
      forall f: Valuation ensures Solution(combinatorialAssignments, negClauses + [clause], f)
          <==> Solution(combinatorialAssignments, negClauses, f) && ClauseHolds(clause, f) {
        AddedClause(combinatorialAssignments, negClauses, clause, f);
      }
      negClauses := negClauses + [clause];
    }

    /** The combined system is solved by the common solutions. */
    method Combine(other: ConstraintSystem) returns (combined: ConstraintSystem)
      ensures fresh(combined)
      ensures forall f :: combined.SolvedBy(f) <==> SolvedBy(f) && other.SolvedBy(f)
    {
      forall f: Valuation {
        SolutionConcat(combinatorialAssignments, other.combinatorialAssignments, negClauses, other.negClauses, f);
      }
      combined := new ConstraintSystem();
      combined.combinatorialAssignments := combinatorialAssignments + other.combinatorialAssignments;
      combined.negClauses := negClauses + other.negClauses;
    }

    /** The mapped clauses are satisfiable exactly when the canonical valuation satisfies the clauses. */
    method AllClausesSatisfiable(assignment: Assignment) returns (b: bool)
      requires assignment.Valid() && !Clash(assignment.equalities)
      modifies assignment
      ensures assignment.Valid()
      ensures b <==> exists f :: Proper(f) && Satisfied(assignment.equalities, f) && ClausesHold(negClauses, f)
    {
      var mapping := assignment.GetMapping();
      var mp := mapping.value;
      ghost var eqs := assignment.equalities;
      CanonicalSolves(eqs, mp);
      for i := 0 to |negClauses|
        invariant assignment.Valid()
        invariant forall k :: 0 <= k < i ==> ClauseHolds(negClauses[k], Canonical(mp))
      {
        var clause := negClauses[i].ApplyMapping(mp);
        ClauseExact(eqs, mp, negClauses[i]);
        if !clause.IsSatisfiable() {
          return false;
        }
      }
      b := true;
    }

    /** True exactly when some valuation with distinct objects satisfies one assignment of each
        disjunction and every negative clause. */
    method IsSolvable() returns (b: bool)
      ensures b <==> exists f :: SolvedBy(f)
    {
      hide Clash, ClausesHold, Solution, AllSatisfied;
      var choices := Product(combinatorialAssignments);
      for i := 0 to |choices|
        invariant forall k, f :: 0 <= k < i && Proper(f) && AllSatisfied(choices[k], f) ==> !ClausesHold(negClauses, f)
      {
        var combined := CombineAssignments(choices[i]);
        var consistent := combined.IsConsistent();
        ConsistencyNeeded(combined.equalities);
        if consistent {
          var satisfiable := AllClausesSatisfiable(combined);
          if satisfiable {
            ghost var f :| Proper(f) && Satisfied(combined.equalities, f) && ClausesHold(negClauses, f);
            ProductIsChoices(combinatorialAssignments, choices[i]);
            ChoiceSolves(combinatorialAssignments, negClauses, choices[i], f);
            assert SolvedBy(f);
            return true;
          }
        }
      }
      forall f: Valuation ensures !SolvedBy(f) {
        NoSolution(combinatorialAssignments, negClauses, f);
      }
      b := false;
    }
  }
}
