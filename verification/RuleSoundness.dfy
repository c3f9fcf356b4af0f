/**
  When firing is exact (build_model.py:68-112).  A join compares only the numbered
  variables, those of the effect.  Its tuples are instances of the rule exactly when
  every variable that the two conditions share is numbered; tuples of projections
  and products always are.
 */
module RuleSoundness {
  import opened Strips
  import opened Datalog
  import opened Unification
  import opened RuleFiring
  import opened BuildRules

  /** Each atom has the symbol, the length and the constants of its condition. */
  ghost predicate MatchesAll(r: Rule, t: seq<Atom>) {
    SameLengths(r, t) && forall j :: 0 <= j < |t| ==> MatchesCondition(r.conditions[j], t[j])
  }

  /** The atoms are the conditions under one environment. */
  ghost predicate IsInstance(r: Rule, t: seq<Atom>) {
    |t| == |r.conditions| && exists env: Env :: InstanceUnder(r, t, env)
  }

  ghost predicate InstanceUnder(r: Rule, t: seq<Atom>, env: Env)
    requires |t| == |r.conditions|
  {
    forall j :: 0 <= j < |t| ==> Instance(env, r.conditions[j]) == t[j]
  }

  // ----- Binding all variables -----

  function FullEnv(c: SymAtom, a: Atom): Env {
    map x | x in VarsOf(c.args) :: if IndexIn(c.args, x) < |a.args| then a.args[IndexIn(c.args, x)] else ""
  }

  function MergeFull(cs: seq<SymAtom>, t: seq<Atom>): Env
    requires |cs| == |t|
  {
    if cs == [] then map[] else MergeFull(cs[..|cs| - 1], t[..|t| - 1]) + FullEnv(cs[|cs| - 1], t[|t| - 1])
  }

  /** Equal variables have equal values. */
  predicate FullyAgree(c: SymAtom, a: Atom, d: SymAtom, b: Atom) {
    forall k, l :: (0 <= k < |c.args| && k < |a.args| && 0 <= l < |d.args| && l < |b.args| && c.args[k].IsVar() &&
      c.args[k] == d.args[l]) ==> a.args[k] == b.args[l]
  }

  lemma {:induction false} BoundInFull(cs: seq<SymAtom>, t: seq<Atom>, j: nat, k: nat)
    requires |cs| == |t| && j < |cs| && k < |cs[j].args| && cs[j].args[k].IsVar()
    ensures cs[j].args[k] in MergeFull(cs, t)
  {
    assert cs[j].args[k] in VarsOf(cs[j].args);
    if j < |cs| - 1 { BoundInFull(cs[..|cs| - 1], t[..|t| - 1], j, k); }
  }

  lemma FullEnvValue(c: SymAtom, a: Atom, d: SymAtom, b: Atom, k: nat)
    requires |c.args| == |a.args| && |d.args| == |b.args| && FullyAgree(c, a, d, b)
    requires k < |c.args| && c.args[k].IsVar() && c.args[k] in FullEnv(d, b)
    ensures FullEnv(d, b)[c.args[k]] == a.args[k]
  {
    var l := IndexIn(d.args, c.args[k]);
    assert c.args[k] == d.args[l];
  }

  ghost predicate AllAgree(cs: seq<SymAtom>, t: seq<Atom>) {
    && |cs| == |t| && (forall i :: 0 <= i < |cs| ==> |cs[i].args| == |t[i].args|)
    && (forall i, l :: 0 <= i < |cs| && 0 <= l < |cs| ==> FullyAgree(cs[i], t[i], cs[l], t[l]))
  }

  lemma {:induction false} FullValue(cs: seq<SymAtom>, t: seq<Atom>, j: nat, k: nat)
    requires AllAgree(cs, t) && j < |cs| && k < |cs[j].args| && cs[j].args[k].IsVar()
    ensures Value(MergeFull(cs, t), cs[j].args[k]) == t[j].args[k]
  {
    hide FullyAgree;
    var n := |cs| - 1;
    var front, last := MergeFull(cs[..n], t[..n]), FullEnv(cs[n], t[n]);
    var x := cs[j].args[k];
    BoundInFull(cs, t, j, k);
    if x in last {
      FullEnvValue(cs[j], t[j], cs[n], t[n], k);
    } else {
      assert x !in VarsOf(cs[n].args) && x in VarsOf(cs[j].args);
      assert AllAgree(cs[..n], t[..n]);
      FullValue(cs[..n], t[..n], j, k);
    }
  }

  lemma AgreeingIsInstance(r: Rule, t: seq<Atom>)
    requires MatchesAll(r, t)
    requires forall i, l :: 0 <= i < |t| && 0 <= l < |t| ==> FullyAgree(r.conditions[i], t[i], r.conditions[l], t[l])
    ensures IsInstance(r, t)
  {
    var env := MergeFull(r.conditions, t);
    assert AllAgree(r.conditions, t);
    forall j | 0 <= j < |t| ensures Instance(env, r.conditions[j]) == t[j] {
      var c := r.conditions[j];
      forall k | 0 <= k < |c.args| ensures Value(env, c.args[k]) == t[j].args[k] {
        assert MatchesCondition(c, t[j]);
        if c.args[k].IsVar() { FullValue(r.conditions, t, j, k); }
      }
      assert Values(env, c.args) == t[j].args;
    }
    assert InstanceUnder(r, t, env);
  }

  lemma FullyAgreesWithItself(c: SymAtom, a: Atom)
    requires DistinctVariables(c.args)
    ensures FullyAgree(c, a, c, a)
  {
    forall k, l | 0 <= k < |c.args| && 0 <= l < |c.args| && c.args[k].IsVar() && c.args[k] == c.args[l] ensures k == l {
    }
  }

  lemma DisjointFullyAgree(c: SymAtom, a: Atom, d: SymAtom, b: Atom)
    requires VarsOf(c.args) !! VarsOf(d.args)
    ensures FullyAgree(c, a, d, b)
  {
    forall k, l | 0 <= k < |c.args| && 0 <= l < |d.args| && c.args[k].IsVar() ensures c.args[k] != d.args[l] {
      assert c.args[k] in VarsOf(c.args);
      assert d.args[l] in VarsOf(d.args) <==> d.args[l].IsVar();
    }
  }

  // ----- The three types of rules -----

  /** The variables that both conditions of a join contain. */
  function CommonVariables(r: Rule): set<Arg>
    requires |r.conditions| == 2
  {
    VarsOf(r.conditions[0].args) * VarsOf(r.conditions[1].args)
  }

  predicate CommonNumbered(r: Rule) {
    r.kind == Join && |r.conditions| == 2 ==> forall x :: x in CommonVariables(r) ==> x.Num?
  }

  lemma NumberedFullyAgree(r: Rule, t: seq<Atom>, i: nat, j: nat)
    requires Numbered(r) && r.kind == Join && |r.conditions| == 2 && CommonNumbered(r) && SameLengths(r, t)
    requires PairwiseAgree(r, t) && i < 2 && j < 2 && i != j
    ensures FullyAgree(r.conditions[i], t[i], r.conditions[j], t[j])
  {
    var c, d := r.conditions[i], r.conditions[j];
    assert AgreeAt(c, t[i], d, t[j]);
    forall k, l | 0 <= k < |c.args| && 0 <= l < |d.args| && c.args[k].IsVar() && c.args[k] == d.args[l]
      ensures c.args[k].Num?
    {
      assert c.args[k] in VarsOf(c.args) && d.args[l] in VarsOf(d.args);
      assert c.args[k] in CommonVariables(r);
    }
  }

  /** Every tuple that combines is an instance of the rule, if common variables are numbered. */
  lemma CombinedIsInstance(r: Rule, t: seq<Atom>)
    requires Runnable(r) && CommonNumbered(r) && MatchesAll(r, t) && Combines(r, t)
    ensures IsInstance(r, t)
  {
    AgreeingCombine(r, t);
    hide Combines, MatchesCondition;
    forall i, j | 0 <= i < |t| && 0 <= j < |t| ensures FullyAgree(r.conditions[i], t[i], r.conditions[j], t[j]) {
      if i == j {
        FullyAgreesWithItself(r.conditions[i], t[i]);
      } else if r.kind == Join {
        NumberedFullyAgree(r, t, i, j);
      } else {
        assert VarsOf(r.conditions[i].args) !! VarsOf(r.conditions[j].args);
        DisjointFullyAgree(r.conditions[i], t[i], r.conditions[j], t[j]);
      }
    }
    AgreeingIsInstance(r, t);
  }

  /** The value of every argument is `v`, except that `x` has the value `w`. */
  function Constantly(c: SymAtom, v: string, x: Arg, w: string): (a: Atom)
    ensures a.symbol == c.symbol && |a.args| == |c.args|
    ensures forall k :: 0 <= k < |c.args| ==>
      a.args[k] == if c.args[k].Obj? then c.args[k].o else if c.args[k] == x then w else v
  {
    Atom(c.symbol, seq(|c.args|, k requires 0 <= k < |c.args| =>
      if c.args[k].Obj? then c.args[k].o else if c.args[k] == x then w else v))
  }

  /** A shared variable that is not numbered makes the join combine atoms that are
      no instance: they differ only in that variable. */
  lemma UnnumberedCombines(r: Rule, x: Arg) returns (t: seq<Atom>)
    requires Runnable(r) && r.kind == Join && x in CommonVariables(r) && !x.Num?
    ensures MatchesAll(r, t) && Combines(r, t) && !IsInstance(r, t)
  {
    var c, d := r.conditions[0], r.conditions[1];
    t := [Constantly(c, "", x, ""), Constantly(d, "", x, "other")];
    forall i, j | 0 <= i < 2 && 0 <= j < 2 ensures AgreeAt(r.conditions[i], t[i], r.conditions[j], t[j]) {
    }
    AgreeingCombine(r, t);
    var k := IndexIn(c.args, x);
    var l := IndexIn(d.args, x);
    forall env: Env ensures !InstanceUnder(r, t, env) {
      assert Instance(env, c) == t[0] ==> Value(env, x) == "" by {
        if Instance(env, c) == t[0] { assert Values(env, c.args)[k] == t[0].args[k]; }
      }
      assert Instance(env, d) == t[1] ==> Value(env, x) == "other" by {
        if Instance(env, d) == t[1] { assert Values(env, d.args)[l] == t[1].args[l]; }
      }
    }
  }

  /** A join combines only instances of its rule exactly when every variable that its
      conditions share occurs in the effect. */
  lemma JoinExactIffCommonNumbered(r: Rule)
    requires Runnable(r) && r.kind == Join
    ensures CommonNumbered(r) <==> forall t :: MatchesAll(r, t) && Combines(r, t) ==> IsInstance(r, t)
  {
    if CommonNumbered(r) {
      forall t | MatchesAll(r, t) && Combines(r, t) ensures IsInstance(r, t) { CombinedIsInstance(r, t); }
    } else {
      var x :| x in CommonVariables(r) && !x.Num?;
      var t := UnnumberedCombines(r, x);
    }
  }

  /** The effect of an instance is the instance of the effect. */
  lemma InstanceEffect(r: Rule, t: seq<Atom>, env: Env, e: Atom)
    requires Numbered(r) && |t| == |r.conditions| && InstanceUnder(r, t, env) && Derives(r, t, e)
    ensures e == Instance(env, r.effect)
  {
    forall j | 0 <= j < |t| ensures Binds(env, r.conditions[j], t[j]) {
      var c := r.conditions[j];
      assert Instance(env, c) == t[j];
      assert Values(env, c.args) == t[j].args;
    }
    var f: Env :| BindsAll(f, r, t) && e == Instance(f, r.effect);
    EffectDetermined(r, t, env, f);
  }

  /** Conversely, an instance combines and derives its effect. */
  lemma InstanceDerives(r: Rule, t: seq<Atom>, env: Env)
    requires |t| == |r.conditions| && InstanceUnder(r, t, env)
    ensures MatchesAll(r, t) && Derives(r, t, Instance(env, r.effect))
  {
    forall j | 0 <= j < |t|
      ensures Binds(env, r.conditions[j], t[j]) && MatchesCondition(r.conditions[j], t[j])
      ensures |t[j].args| == |r.conditions[j].args|
    {
      var c := r.conditions[j];
      assert Instance(env, c) == t[j];
      assert Values(env, c.args) == t[j].args;
    }
    assert BindsAll(env, r, t);
  }
}
