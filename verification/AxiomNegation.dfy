/**
  The axioms of a negated derived atom: one literal of each original condition
  is negated, in every combination, and the result is simplified.
 */
module AxiomNegation {
  import opened Axioms
  import opened AxiomSimplification
  import opened Strips
  import opened Wrappers

  ghost function Conditions(axioms: seq<PropositionalAxiom>): (r: seq<seq<Literal>>)
    reads axioms
    ensures |r| == |axioms| && forall i :: 0 <= i < |r| ==> r[i] == axioms[i].condition
  {
    seq(|axioms|, i requires 0 <= i < |axioms| reads axioms => axioms[i].condition)
  }

  ghost predicate SomeTrue(conds: seq<seq<Literal>>, s: World) {
    exists i :: 0 <= i < |conds| && AllTrue(s, conds[i])
  }

  /** Some condition of `conds` holds exactly when no condition of `done` holds. */
  ghost predicate Complements(conds: seq<seq<Literal>>, done: seq<seq<Literal>>) {
    forall s: World :: SomeTrue(conds, s) <==> !SomeTrue(done, s)
  }

  /** Every condition with the literal appended. */
  function Pushed(conds: seq<seq<Literal>>, l: Literal): (r: seq<seq<Literal>>)
    ensures |r| == |conds| && forall i :: 0 <= i < |r| ==> r[i] == conds[i] + [l]
  {
    seq(|conds|, i requires 0 <= i < |conds| => conds[i] + [l])
  }

  /** The conditions with the negation of one of the literals appended, in every combination. */
  function Spread(conds: seq<seq<Literal>>, literals: seq<Literal>): seq<seq<Literal>> {
    if literals == [] then []
    else Spread(conds, literals[..|literals| - 1]) + Pushed(conds, literals[|literals| - 1].Negate())
  }

  lemma AppendTrue(s: World, c: seq<Literal>, l: Literal)
    ensures AllTrue(s, c + [l]) <==> AllTrue(s, c) && True(s, l)
  {
    var d := c + [l];
    assert d[|c|] == l && forall i :: 0 <= i < |c| ==> d[i] == c[i];
  }

  lemma ConcatTrue(a: seq<seq<Literal>>, b: seq<seq<Literal>>, s: World)
    ensures SomeTrue(a + b, s) <==> SomeTrue(a, s) || SomeTrue(b, s)
  {
    if SomeTrue(a, s) {
      var i :| 0 <= i < |a| && AllTrue(s, a[i]);
      assert (a + b)[i] == a[i];
    }
    if SomeTrue(b, s) {
      var i :| 0 <= i < |b| && AllTrue(s, b[i]);
      assert (a + b)[|a| + i] == b[i];
    }
  }

  lemma PushedTrue(conds: seq<seq<Literal>>, l: Literal, s: World)
    ensures SomeTrue(Pushed(conds, l), s) <==> SomeTrue(conds, s) && True(s, l)
  {
    var r := Pushed(conds, l);
    forall i | 0 <= i < |conds| ensures AllTrue(s, r[i]) <==> AllTrue(s, conds[i]) && True(s, l) {
      AppendTrue(s, conds[i], l);
    }
    if SomeTrue(conds, s) && True(s, l) {
      var i :| 0 <= i < |conds| && AllTrue(s, conds[i]);
      assert AllTrue(s, r[i]);
    }
  }

  lemma {:induction false} SpreadTrue(conds: seq<seq<Literal>>, literals: seq<Literal>, s: World)
    ensures SomeTrue(Spread(conds, literals), s) <==> SomeTrue(conds, s) && !AllTrue(s, literals)
    decreases |literals|
  {
    if literals != [] {
      var init, l := literals[..|literals| - 1], literals[|literals| - 1];
      assert literals == init + [l];
      SpreadTrue(conds, init, s);
      PushedTrue(conds, l.Negate(), s);
      ConcatTrue(Spread(conds, init), Pushed(conds, l.Negate()), s);
      AppendTrue(s, init, l);
    }
  }

  /** Handling one more axiom keeps the conditions complementary. */
  lemma SpreadComplements(conds: seq<seq<Literal>>, done: seq<seq<Literal>>, c: seq<Literal>)
    requires Complements(conds, done)
    ensures Complements(Spread(conds, c), done + [c])
  {
    forall s: World ensures SomeTrue(Spread(conds, c), s) <==> !SomeTrue(done + [c], s) {
      SpreadTrue(conds, c, s);
      ConcatTrue(done, [c], s);
      assert SomeTrue([c], s) <==> AllTrue(s, c) by { assert [c][0] == c; }
    }
  }

  /** `for result_axiom in result: result_axiom.condition.append(new_literal)` */
  method AppendToAll(result: seq<PropositionalAxiom>, l: Literal)
    requires Distinct(result)
    modifies result
    ensures Conditions(result) == Pushed(old(Conditions(result)), l)
  {
    for i := 0 to |result|
      invariant forall k :: 0 <= k < i ==> result[k].condition == old(result[k].condition) + [l]
      invariant forall k :: i <= k < |result| ==> result[k].condition == old(result[k].condition)
    {
      result[i].condition := result[i].condition + [l];
    }
  }

  /** Fresh copies of all axioms, with the literal appended. */
  method CloneAll(result: seq<PropositionalAxiom>, l: Literal) returns (clones: seq<PropositionalAxiom>)
    ensures Distinct(clones) && fresh(clones)
    ensures Conditions(clones) == Pushed(Conditions(result), l)
    ensures forall i :: 0 <= i < |clones| ==> clones[i].name == result[i].name && clones[i].effect == result[i].effect
  {
    clones := [];
    for i := 0 to |result|
      invariant |clones| == i && Distinct(clones) && fresh(clones)
      invariant forall k :: 0 <= k < i ==> clones[k].name == result[k].name && clones[k].effect == result[k].effect
      invariant forall k :: 0 <= k < i ==> clones[k].condition == result[k].condition + [l]
    {
      var a := result[i].Clone();
      a.condition := a.condition + [l];
      forall k | 0 <= k < i ensures clones[k] != a { assert clones[k] in clones; }
      clones := clones + [a];
    }
  }

  lemma FiresIsTrue(axioms: seq<PropositionalAxiom>, s: World)
    ensures SomeFires(axioms, s) <==> SomeTrue(Conditions(axioms), s)
  {
    hide AllTrue;
    var conds := Conditions(axioms);
    if SomeTrue(conds, s) {
      var i :| 0 <= i < |conds| && AllTrue(s, conds[i]);
      assert AllTrue(s, axioms[i].condition);
    }
    if SomeFires(axioms, s) {
      var i :| 0 <= i < |axioms| && AllTrue(s, axioms[i].condition);
      assert AllTrue(s, conds[i]);
    }
  }

  /** The new axioms derive the negated atom. */
  predicate Labelled(axioms: seq<PropositionalAxiom>, name: string, effect: Literal) {
    forall i :: 0 <= i < |axioms| ==> axioms[i].name == name && axioms[i].effect == effect
  }

  lemma SpreadNothing(result: seq<PropositionalAxiom>)
    ensures Conditions([]) == Spread(Conditions(result), []) && Distinct<PropositionalAxiom>([])
    ensures forall name, effect :: Labelled([], name, effect)
  {
  }

  lemma SpreadStep(conds: seq<seq<Literal>>, condition: seq<Literal>, k: nat)
    requires k < |condition|
    ensures Spread(conds, condition[..k + 1]) == Spread(conds, condition[..k]) + Pushed(conds, condition[k].Negate())
  {
    assert condition[..k + 1][..k] == condition[..k];
  }

  lemma ConditionsConcat(a: seq<PropositionalAxiom>, b: seq<PropositionalAxiom>)
    ensures Conditions(a + b) == Conditions(a) + Conditions(b)
  {
  }

  lemma LabelsConcat(result: seq<PropositionalAxiom>, a: seq<PropositionalAxiom>, b: seq<PropositionalAxiom>)
    requires forall name, effect :: Labelled(result, name, effect) ==> Labelled(a, name, effect)
    requires |b| == |result|
    requires forall i :: 0 <= i < |b| ==> b[i].name == result[i].name && b[i].effect == result[i].effect
    ensures forall name, effect :: Labelled(result, name, effect) ==> Labelled(a + b, name, effect)
  {
    forall name, effect | Labelled(result, name, effect) ensures Labelled(a + b, name, effect) {
      assert Labelled(a, name, effect);
    }
  }

  lemma LabelsOfPart(axioms: seq<PropositionalAxiom>, result: seq<PropositionalAxiom>, name: string, effect: Literal)
    requires Labelled(axioms, name, effect) && Represents(axioms, result)
    ensures Labelled(result, name, effect) && forall i :: 0 <= i < |result| ==> result[i] in axioms
  {
    forall i | 0 <= i < |result| ensures result[i] in axioms { assert result[i] in result; }
  }

  /** The general case: a copy of every axiom for every literal of the condition. */
  method SpreadAll(result: seq<PropositionalAxiom>, condition: seq<Literal>)
      returns (newResult: seq<PropositionalAxiom>)
    ensures Distinct(newResult) && fresh(newResult)
    ensures Conditions(newResult) == Spread(Conditions(result), condition)
    ensures forall name, effect :: Labelled(result, name, effect) ==> Labelled(newResult, name, effect)
  {
    hide Spread, Pushed, Labelled, Distinct;
    newResult := [];
    SpreadNothing(result);
    assert condition[..0] == [];
    for k := 0 to |condition|
      invariant Distinct(newResult) && fresh(newResult)
      invariant Conditions(newResult) == Spread(Conditions(result), condition[..k])
      invariant forall name, effect :: Labelled(result, name, effect) ==> Labelled(newResult, name, effect)
    {
      var clones := CloneAll(result, condition[k].Negate());
      SpreadStep(Conditions(result), condition, k);
      DistinctConcat(newResult, clones);
      LabelsConcat(result, newResult, clones);
      ConditionsConcat(newResult, clones);
      newResult := newResult + clones;
    }
    assert condition[..|condition|] == condition;
  }

  lemma DistinctConcat(a: seq<PropositionalAxiom>, b: seq<PropositionalAxiom>)
    requires Distinct(a) && Distinct(b) && forall i, k :: 0 <= i < |a| && 0 <= k < |b| ==> a[i] != b[k]
    ensures Distinct(a + b)
  {
    var c := a + b;
    forall i, j | 0 <= i < j < |c| ensures c[i] != c[j] {
      if i < |a| <= j { assert c[j] == b[j - |a|] && c[i] == a[i]; }
    }
  }

  /** One original axiom with a non-empty condition. */
  method NegateOne(result: seq<PropositionalAxiom>, condition: seq<Literal>)
      returns (newResult: seq<PropositionalAxiom>)
    requires Distinct(result) && condition != []
    modifies result
    ensures Distinct(newResult) && (newResult == result || fresh(newResult))
    ensures Conditions(newResult) == Spread(old(Conditions(result)), condition)
    ensures forall name, effect :: Labelled(result, name, effect) ==> Labelled(newResult, name, effect)
  {
    if |condition| == 1 {
      AppendToAll(result, condition[0].Negate());
      newResult := result;
      assert condition[..0] == [];
    } else {
      newResult := SpreadAll(result, condition);
    }
  }

  /** The negations before they are simplified; none if some axiom has no condition. */
  method Combinations(axioms: seq<PropositionalAxiom>) returns (r: Option<seq<PropositionalAxiom>>)
    requires axioms != []
    ensures r == None ==> exists i :: 0 <= i < |axioms| && axioms[i].condition == []
    ensures r.Some? ==> Distinct(r.value) && fresh(r.value)
    ensures r.Some? ==> Complements(Conditions(r.value), Conditions(axioms))
    ensures r.Some? ==> Labelled(r.value, axioms[0].name, axioms[0].effect.Negate())
  {
    hide Complements, Spread;
    var first := new PropositionalAxiom(axioms[0].name, [], axioms[0].effect.Negate());
    var result := [first];
    ghost var conds := Conditions(axioms);
    StartNegation();
    assert Conditions(result) == [[]] && conds[..0] == [];
    for i := 0 to |axioms|
      invariant Distinct(result) && fresh(result)
      invariant Complements(Conditions(result), conds[..i]) && conds == Conditions(axioms)
      invariant Labelled(result, axioms[0].name, axioms[0].effect.Negate())
    {
      var condition := axioms[i].condition;
      if |condition| == 0 {
        return None;
      }
      SpreadComplements(Conditions(result), conds[..i], condition);
      assert conds[..i + 1] == conds[..i] + [condition];
      result := NegateOne(result, condition);
    }
    assert conds[..|axioms|] == conds;
    r := Some(result);
  }

  /** The axioms have the canonical forms of conditions that complement `axioms`. */
  ghost predicate CanonicalNegation(before: (Atom, Atom) -> bool, axioms: seq<PropositionalAxiom>,
      all: seq<PropositionalAxiom>, raw: seq<seq<Literal>>)
    reads axioms, all
  {
    && Complements(raw, Conditions(axioms)) && |all| == |raw|
    && forall i :: 0 <= i < |all| ==> all[i].condition == Canonical(before, raw[i])
  }

  /** In every state, some axiom of the result fires exactly when no given axiom does; the
      result is what simplifying leaves of all combinations. */
  method Negate(axioms: seq<PropositionalAxiom>, before: (Atom, Atom) -> bool)
      returns (result: seq<PropositionalAxiom>, ghost all: seq<PropositionalAxiom>, ghost raw: seq<seq<Literal>>)
    requires axioms != []
    ensures CanonicalNegation(before, axioms, all, raw) && Reduces(all, result)
    ensures forall s :: SomeFires(result, s) <==> !SomeFires(axioms, s)
    ensures Labelled(result, axioms[0].name, axioms[0].effect.Negate()) && fresh(result)
  {
    hide Complements, SomeFires, Represents, NearlyMinimal, Canonical, Labelled;
    all, raw := [], [];
    var combined := Combinations(axioms);
    if combined == None {
      AlwaysFires(axioms);
      NothingReduces();
      return [], [], [];
    }
    result := combined.value;
    all, raw := result, Conditions(result);
    forall s: World ensures SomeFires(result, s) <==> !SomeFires(axioms, s) {
      ComplementFires(result, axioms, s);
    }
    result := Simplify(result, before);
    LabelsOfPart(combined.value, result, axioms[0].name, axioms[0].effect.Negate());
  }

  lemma NothingReduces()
    ensures Reduces([], [])
  {
  }

  lemma StartNegation()
    ensures Complements([[]], [])
  {
    forall s: World ensures SomeTrue([[]], s) {
      assert AllTrue(s, [[]][0]);
    }
  }

  lemma AlwaysFires(axioms: seq<PropositionalAxiom>)
    requires exists i :: 0 <= i < |axioms| && axioms[i].condition == []
    ensures forall s :: SomeFires(axioms, s) && !SomeFires([], s)
    ensures Complements([], Conditions(axioms))
    ensures Labelled([], axioms[0].name, axioms[0].effect.Negate())
  {
    var i :| 0 <= i < |axioms| && axioms[i].condition == [];
    forall s: World ensures SomeFires(axioms, s) {
      assert AllTrue(s, axioms[i].condition);
    }
  }

  lemma ComplementFires(result: seq<PropositionalAxiom>, axioms: seq<PropositionalAxiom>, s: World)
    requires Complements(Conditions(result), Conditions(axioms))
    ensures SomeFires(result, s) <==> !SomeFires(axioms, s)
  {
    FiresIsTrue(result, s);
    FiresIsTrue(axioms, s);
  }
}
