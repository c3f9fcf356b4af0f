/**
  Validated rules (build_model.py:13-27, 81-93, 120-129, 170-171): the assertions of
  the three rule types, and what they give once the variables are numbered.
 */
module RuleValidation {
  import opened Wrappers
  import opened Datalog
  import opened RuleFiring
  import opened BuildRules
  import opened RuleSoundness

  function SumOfSizes(cs: seq<SymAtom>): nat {
    if cs == [] then 0 else SumOfSizes(cs[..|cs| - 1]) + |VarsOf(cs[|cs| - 1].args)|
  }

  /** The assertions of `validate`, on the variables of the rule. */
  predicate Validates(r: Rule) {
    var eff := VarsOf(r.effect.args);
    match r.kind
    case Join =>
      && |r.conditions| == 2
      && (var left, right := VarsOf(r.conditions[0].args), VarsOf(r.conditions[1].args);
          left * right != {} && left + right == left * right + eff)
    case Product =>
      && |r.conditions| >= 2
      && |Variables(r.conditions)| == |eff| && |Variables(r.conditions)| == SumOfSizes(r.conditions)
    case Project => |r.conditions| == 1
  }

  lemma VariablesSplit(cs: seq<SymAtom>)
    requires cs != []
    ensures Variables(cs) == Variables(cs[..|cs| - 1]) + VarsOf(cs[|cs| - 1].args)
  {
    assert cs[..|cs|] == cs;
    VariablesAppend(cs, |cs| - 1);
  }

  lemma {:induction false} UnionAtMostSum(cs: seq<SymAtom>)
    ensures |Variables(cs)| <= SumOfSizes(cs)
  {
    if cs == [] {
      assert Variables(cs) == {};
    } else {
      UnionAtMostSum(cs[..|cs| - 1]);
      VariablesSplit(cs);
    }
  }

  lemma UnionSize<T(!new)>(a: set<T>, b: set<T>)
    ensures |a + b| == |a| + |b| - |a * b|
    ensures |a + b| == |a| + |b| ==> a !! b
  {
    assert a + b == a + (b - a);
    assert |a + b| == |a| + |b - a|;
    assert b == (b - a) + (a * b);
    assert |b| == |b - a| + |a * b|;
    if a * b != {} {
      var x := Member(a * b);
      assert |a * b| > 0;
    }
  }

  lemma DisjointFront(cs: seq<SymAtom>)
    requires cs != [] && DisjointConditions(cs[..|cs| - 1])
    requires Variables(cs[..|cs| - 1]) !! VarsOf(cs[|cs| - 1].args)
    ensures DisjointConditions(cs)
  {
    hide VarsOf, Variables;
    var front := cs[..|cs| - 1];
    forall i, j | 0 <= i < j < |cs| ensures VarsOf(cs[i].args) !! VarsOf(cs[j].args) {
      assert cs[i] == front[i];
      VarsInVariables(front, i);
      if j < |front| { assert cs[j] == front[j]; }
    }
  }

  lemma VarsInVariables(cs: seq<SymAtom>, i: nat)
    requires i < |cs|
    ensures VarsOf(cs[i].args) <= Variables(cs)
  {
  }

  /** If the sizes add up, then no two conditions share a variable. */
  lemma {:induction false} SumMeansDisjoint(cs: seq<SymAtom>)
    requires |Variables(cs)| == SumOfSizes(cs)
    ensures DisjointConditions(cs)
  {
    hide DisjointConditions, Variables, VarsOf;
    if cs != [] {
      var front, last := cs[..|cs| - 1], VarsOf(cs[|cs| - 1].args);
      VariablesSplit(cs);
      UnionAtMostSum(front);
      UnionSize(Variables(front), last);
      SumMeansDisjoint(front);
      DisjointFront(cs);
    } else {
      NoConditions();
    }
  }

  lemma NoConditions()
    ensures DisjointConditions([])
  {
  }

  // ----- After conversion -----

  lemma RenamedVariable(r: Rule, t: SymAtom, k: nat)
    requires NumberFree(r) && DistinctVariables(r.effect.args) && k < |t.args|
    ensures var a := RenameAll(r.effect.args, t.args)[k];
      a.Num? && !t.args[k].Num? ==> NumberOf(Converted(r), a.n)
  {
    var a := Rename(r.effect.args, t.args[k]);
    if a.Num? && !t.args[k].Num? { RenameEffect(r.effect.args, a.n); }
  }

  lemma RenameInjective(effect: seq<Arg>, a: Arg, b: Arg)
    requires !a.Num? && !b.Num? && Rename(effect, a) == Rename(effect, b)
    ensures a == b
  {
  }

  lemma RenamedDistinct(effect: seq<Arg>, args: seq<Arg>)
    requires NoNumbers(args) && DistinctVariables(args)
    ensures DistinctVariables(RenameAll(effect, args))
  {
    var rs := RenameAll(effect, args);
    forall i, j | 0 <= i < j < |args| && rs[i].IsVar() ensures rs[i] != rs[j] {
      if rs[i] == rs[j] { RenameInjective(effect, args[i], args[j]); }
    }
  }

  lemma RenamedVars(effect: seq<Arg>, args: seq<Arg>, a: Arg)
    requires a.IsVar()
    ensures a in args ==> Rename(effect, a) in VarsOf(RenameAll(effect, args))
    ensures Rename(effect, a) in VarsOf(RenameAll(effect, args)) && NoNumbers(args) && !a.Num? ==> a in args
  {
    var rs := RenameAll(effect, args);
    if a in args {
      var k :| 0 <= k < |args| && args[k] == a;
      assert rs[k] == Rename(effect, a);
    }
    if Rename(effect, a) in VarsOf(rs) && NoNumbers(args) && !a.Num? {
      var k :| 0 <= k < |rs| && rs[k] == Rename(effect, a);
      RenameInjective(effect, args[k], a);
    }
  }

  lemma ConvertedNumbered(r: Rule)
    requires NormalizedRule(r) && NumberFree(r)
    ensures Numbered(Converted(r))
  {
    var c, effect := Converted(r), r.effect.args;
    forall n | 0 <= n < |effect| ensures c.effect.args[n].Obj? || c.effect.args[n] == Num(n) {
      if effect[n].IsVar() { RenameEffect(effect, n); }
    }
    forall j, k | 0 <= j < |c.conditions| && 0 <= k < |c.conditions[j].args| && c.conditions[j].args[k].Num?
      ensures NumberOf(c, c.conditions[j].args[k].n)
    {
      RenamedVariable(r, r.conditions[j], k);
    }
    forall n | 0 <= n < |effect| && c.effect.args[n].Num? ensures Num(n) in Variables(c.conditions) {
      assert effect[n] in VarsOf(effect);
      var j :| 0 <= j < |r.conditions| && effect[n] in VarsOf(r.conditions[j].args);
      RenamedVars(effect, r.conditions[j].args, effect[n]);
      assert Num(n) in VarsOf(c.conditions[j].args);
    }
    forall j | 0 <= j < |c.conditions| ensures DistinctVariables(c.conditions[j].args) {
      RenamedDistinct(effect, r.conditions[j].args);
    }
  }

  lemma ConvertedDisjoint(r: Rule)
    requires NumberFree(r) && DisjointConditions(r.conditions)
    ensures DisjointConditions(Converted(r).conditions)
  {
    var c, effect := Converted(r), r.effect.args;
    forall i, j | 0 <= i < j < |c.conditions| ensures VarsOf(c.conditions[i].args) !! VarsOf(c.conditions[j].args) {
      forall a | a in VarsOf(c.conditions[i].args) ensures a !in VarsOf(c.conditions[j].args) {
        var k :| 0 <= k < |c.conditions[i].args| && c.conditions[i].args[k] == a;
        var x := r.conditions[i].args[k];
        assert NoNumbers(r.conditions[i].args) && NoNumbers(r.conditions[j].args);
        assert x in VarsOf(r.conditions[i].args);
        RenamedVars(effect, r.conditions[j].args, x);
      }
    }
  }

  /** A validated rule can be run once its variables are numbered. */
  lemma ValidatedRunnable(r: Rule)
    requires NormalizedRule(r) && NumberFree(r) && Validates(r)
    ensures Runnable(Converted(r))
  {
    ConvertedNumbered(r);
    if r.kind == Product {
      SumMeansDisjoint(r.conditions);
      ConvertedDisjoint(r);
    }
  }

  /** Every variable that the conditions of a join share occurs in its effect. */
  predicate CommonInEffect(r: Rule) {
    r.kind == Join && |r.conditions| == 2 ==> CommonVariables(r) <= VarsOf(r.effect.args)
  }

  lemma CommonNumberedIff(r: Rule)
    requires NumberFree(r) && DistinctVariables(r.effect.args) && r.kind == Join && |r.conditions| == 2
    ensures CommonNumbered(Converted(r)) <==> CommonInEffect(r)
  {
    var c, effect := Converted(r), r.effect.args;
    var left, right := r.conditions[0].args, r.conditions[1].args;
    assert NoNumbers(left) && NoNumbers(right);
    if CommonInEffect(r) {
      forall a | a in CommonVariables(c) ensures a.Num? {
        var k :| 0 <= k < |left| && RenameAll(effect, left)[k] == a;
        RenamedVars(effect, right, left[k]);
        assert left[k] in CommonVariables(r);
        assert left[k] in VarsOf(effect);
        RenamedIsPosition(effect, left[k]);
      }
    }
    if CommonNumbered(c) {
      forall x | x in CommonVariables(r) ensures x in VarsOf(effect) {
        RenamedVars(effect, left, x);
        RenamedVars(effect, right, x);
        assert Rename(effect, x) in CommonVariables(c);
        if x !in effect { NotRenamed(effect, x); }
        assert !x.Num?;
      }
    }
  }

  /** The join of a validated rule is exact exactly when its common variables occur
      in its effect. */
  lemma JoinExactIffCommonInEffect(r: Rule)
    requires NormalizedRule(r) && NumberFree(r) && Validates(r) && r.kind == Join
    ensures CommonInEffect(r) <==>
      forall t :: MatchesAll(Converted(r), t) && Combines(Converted(r), t) ==> IsInstance(Converted(r), t)
  {
    ValidatedRunnable(r);
    CommonNumberedIff(r);
    JoinExactIffCommonNumbered(Converted(r));
  }
}
