/**
  Datalog programs over ground atoms (pddl_to_prolog.py, build_model.py:29-53):
  symbolic atoms, rule instances, models and least models, and the conversion that
  replaces every variable of the effect by its position there.
 */
module Datalog {
  import opened Strips

  /** An argument: the number of an effect position, a variable, or an object. */
  datatype Arg = Num(n: nat) | Free(x: string) | Obj(o: string) {
    predicate IsVar() { !Obj? }
  }

  datatype SymAtom = SymAtom(symbol: string, args: seq<Arg>)

  datatype Kind = Join | Product | Project

  datatype Rule = Rule(kind: Kind, effect: SymAtom, conditions: seq<SymAtom>)

  // ----- Instances and models -----

  type Env = map<Arg, string>

  function Value(env: Env, a: Arg): string {
    if a.Obj? then a.o else if a in env then env[a] else ""
  }

  function Values(env: Env, args: seq<Arg>): (r: seq<string>)
    ensures |r| == |args| && forall i :: 0 <= i < |args| ==> r[i] == Value(env, args[i])
  {
    seq(|args|, i requires 0 <= i < |args| => Value(env, args[i]))
  }

  function Instance(env: Env, t: SymAtom): Atom {
    Atom(t.symbol, Values(env, t.args))
  }

  /** The conditions hold in `m` under `env`. */
  ghost predicate AllIn(m: iset<Atom>, env: Env, conditions: seq<SymAtom>) {
    forall i :: 0 <= i < |conditions| ==> Instance(env, conditions[i]) in m
  }

  ghost predicate ClosedUnder(m: iset<Atom>, r: Rule) {
    forall env: Env :: AllIn(m, env, r.conditions) ==> Instance(env, r.effect) in m
  }

  ghost predicate IsModel(rules: seq<Rule>, facts: iset<Atom>, m: iset<Atom>) {
    facts <= m && forall i :: 0 <= i < |rules| ==> ClosedUnder(m, rules[i])
  }

  ghost predicate IsLeastModel(rules: seq<Rule>, facts: iset<Atom>, m: iset<Atom>) {
    IsModel(rules, facts, m) && forall n :: IsModel(rules, facts, n) ==> m <= n
  }

  ghost predicate InEveryModel(rules: seq<Rule>, facts: iset<Atom>, a: Atom) {
    forall m: iset<Atom> :: IsModel(rules, facts, m) ==> a in m
  }

  // ----- Variables -----

  function VarsOf(args: seq<Arg>): (r: set<Arg>)
    ensures forall a :: a in r <==> a in args && a.IsVar()
  {
    set a | a in args && a.IsVar()
  }

  /** get_variables */
  function Variables(ts: seq<SymAtom>): (r: set<Arg>)
    ensures forall a :: a in r <==> exists i :: 0 <= i < |ts| && a in VarsOf(ts[i].args)
  {
    set i, a | 0 <= i < |ts| && a in VarsOf(ts[i].args) :: a
  }

  /** No variable occurs twice in the atom. */
  predicate DistinctVariables(args: seq<Arg>) {
    forall i, j :: 0 <= i < j < |args| && args[i].IsVar() ==> args[i] != args[j]
  }

  predicate NoNumbers(args: seq<Arg>) {
    forall i :: 0 <= i < |args| ==> !args[i].Num?
  }

  /** What normalization provides (pddl_to_prolog.py:31-35). */
  predicate NormalizedRule(r: Rule) {
    && r.conditions != []
    && DistinctVariables(r.effect.args) && VarsOf(r.effect.args) <= Variables(r.conditions)
    && (forall i :: 0 <= i < |r.conditions| ==> DistinctVariables(r.conditions[i].args))
  }

  predicate NumberFree(r: Rule) {
    NoNumbers(r.effect.args) && forall i :: 0 <= i < |r.conditions| ==> NoNumbers(r.conditions[i].args)
  }

  /** Two environments give the variables in `vs` the same values. */
  ghost predicate AgreeOn(e: Env, f: Env, vs: set<Arg>) {
    forall a :: a in vs ==> Value(e, a) == Value(f, a)
  }

  lemma SameInstance(e: Env, f: Env, t: SymAtom)
    ensures Instance(e, t) == Instance(f, t) <==> AgreeOn(e, f, VarsOf(t.args))
  {
    if AgreeOn(e, f, VarsOf(t.args)) {
      forall i | 0 <= i < |t.args| ensures Value(e, t.args[i]) == Value(f, t.args[i]) {
        if t.args[i].IsVar() { assert t.args[i] in VarsOf(t.args); }
      }
      assert Values(e, t.args) == Values(f, t.args);
    }
    if Instance(e, t) == Instance(f, t) {
      forall a | a in VarsOf(t.args) ensures Value(e, a) == Value(f, a) {
        var i :| 0 <= i < |t.args| && t.args[i] == a;
        assert Values(e, t.args)[i] == Values(f, t.args)[i];
      }
    }
  }

  // ----- Numbering the variables of the effect -----

  /** `x` of the effect becomes its position; everything else stays. */
  function Rename(effect: seq<Arg>, a: Arg): (r: Arg)
    ensures !a.IsVar() ==> r == a
    ensures r == a || (r.Num? && r.n < |effect| && effect[r.n] == a)
  {
    if effect == [] || !a.IsVar() then a
    else if effect[|effect| - 1] == a then Num(|effect| - 1)
    else Rename(effect[..|effect| - 1], a)
  }

  lemma {:induction false} RenamedIsPosition(effect: seq<Arg>, a: Arg)
    requires a.IsVar() && a in effect
    ensures Rename(effect, a).Num? && Rename(effect, a).n < |effect| && effect[Rename(effect, a).n] == a
  {
    if effect[|effect| - 1] != a {
      var front := effect[..|effect| - 1];
      assert effect == front + [effect[|effect| - 1]];
      RenamedIsPosition(front, a);
    }
  }

  function RenameAll(effect: seq<Arg>, args: seq<Arg>): (r: seq<Arg>)
    ensures |r| == |args| && forall i :: 0 <= i < |args| ==> r[i] == Rename(effect, args[i])
  {
    seq(|args|, i requires 0 <= i < |args| => Rename(effect, args[i]))
  }

  function Converted(r: Rule): Rule {
    Rule(r.kind, SymAtom(r.effect.symbol, RenameAll(r.effect.args, r.effect.args)), ConvertedAtoms(r.effect.args, r.conditions))
  }

  function ConvertedAtoms(effect: seq<Arg>, ts: seq<SymAtom>): (r: seq<SymAtom>)
    ensures |r| == |ts| && forall i :: 0 <= i < |ts| ==> r[i] == SymAtom(ts[i].symbol, RenameAll(effect, ts[i].args))
  {
    seq(|ts|, i requires 0 <= i < |ts| => SymAtom(ts[i].symbol, RenameAll(effect, ts[i].args)))
  }

  /** The rename map of the first `n` effect arguments. */
  ghost predicate RenameMap(effect: seq<Arg>, n: nat, m: map<Arg, nat>) {
    n <= |effect| && forall a: Arg ::
      (a in m <==> a.IsVar() && a in effect[..n]) && (a in m ==> Rename(effect[..n], a) == Num(m[a]))
  }

  lemma RenameMapStep(effect: seq<Arg>, n: nat, m: map<Arg, nat>)
    requires n < |effect| && RenameMap(effect, n, m)
    ensures RenameMap(effect, n + 1, if effect[n].IsVar() then m[effect[n] := n] else m)
  {
    var next := if effect[n].IsVar() then m[effect[n] := n] else m;
    assert effect[..n + 1][..n] == effect[..n] && effect[..n + 1] == effect[..n] + [effect[n]];
    forall a: Arg
      ensures a in next <==> a.IsVar() && a in effect[..n + 1]
      ensures a in next ==> Rename(effect[..n + 1], a) == Num(next[a])
    {
    }
  }

  lemma RenameByMap(effect: seq<Arg>, m: map<Arg, nat>, a: Arg)
    requires RenameMap(effect, |effect|, m)
    ensures Rename(effect, a) == if a in m then Num(m[a]) else a
  {
    assert effect[..|effect|] == effect;
    if a.IsVar() && a in effect { RenamedIsPosition(effect, a); } else { NotRenamed(effect, a); }
  }

  lemma {:induction false} NotRenamed(effect: seq<Arg>, a: Arg)
    requires !a.IsVar() || a !in effect
    ensures Rename(effect, a) == a
  {
    if effect != [] && a.IsVar() {
      assert effect[|effect| - 1] in effect;
      NotRenamed(effect[..|effect| - 1], a);
    }
  }

  lemma {:induction false} RenameEffect(effect: seq<Arg>, i: nat)
    requires i < |effect| && DistinctVariables(effect) && effect[i].IsVar()
    ensures Rename(effect, effect[i]) == Num(i)
  {
    RenamedIsPosition(effect, effect[i]);
  }

  /** The first loop of variables_to_numbers: number the effect. */
  method NumberEffect(effect: seq<Arg>) returns (args: seq<Arg>, renameMap: map<Arg, nat>)
    requires DistinctVariables(effect)
    ensures RenameMap(effect, |effect|, renameMap) && args == RenameAll(effect, effect)
  {
    args, renameMap := effect, map[];
    hide RenameMap;
    assert RenameMap(effect, 0, renameMap) by { EmptyRenameMap(effect); }
    for i := 0 to |effect|
      invariant RenameMap(effect, i, renameMap)
      invariant |args| == |effect|
      invariant forall k :: 0 <= k < |args| ==> args[k] == if k < i && effect[k].IsVar() then Num(k) else effect[k]
    {
      RenameMapStep(effect, i, renameMap);
      if effect[i].IsVar() {
        renameMap := renameMap[effect[i] := i];
        args := args[i := Num(i)];
      }
    }
    forall k | 0 <= k < |args| ensures args[k] == Rename(effect, effect[k]) {
      if effect[k].IsVar() { RenameEffect(effect, k); }
    }
  }

  lemma EmptyRenameMap(effect: seq<Arg>)
    ensures RenameMap(effect, 0, map[])
  {
  }

  /** variables_to_numbers */
  method VariablesToNumbers(effect: SymAtom, conditions: seq<SymAtom>) returns (e: SymAtom, cs: seq<SymAtom>)
    requires DistinctVariables(effect.args)
    ensures e == SymAtom(effect.symbol, RenameAll(effect.args, effect.args))
    ensures cs == ConvertedAtoms(effect.args, conditions)
  {
    hide RenameMap, Rename;
    var args, renameMap := NumberEffect(effect.args);
    e := SymAtom(effect.symbol, args);
    cs := [];
    for j := 0 to |conditions|
      invariant |cs| == j && forall k :: 0 <= k < j ==> cs[k] == ConvertedAtoms(effect.args, conditions)[k]
    {
      var c := conditions[j];
      var newArgs: seq<Arg> := [];
      for k := 0 to |c.args|
        invariant |newArgs| == k && forall l :: 0 <= l < k ==> newArgs[l] == Rename(effect.args, c.args[l])
      {
        RenameByMap(effect.args, renameMap, c.args[k]);
        newArgs := newArgs + [if c.args[k] in renameMap then Num(renameMap[c.args[k]]) else c.args[k]];
      }
      assert newArgs == RenameAll(effect.args, c.args);
      cs := cs + [SymAtom(c.symbol, newArgs)];
    }
  }

  // ----- Conversion keeps the instances -----

  /** The values of the renamed variables. */
  function EnvForConverted(effect: seq<Arg>, vs: set<Arg>, env: Env): Env {
    map a | a in (set v | v in vs :: Rename(effect, v)) :: if a.Num? && a.n < |effect| then Value(env, effect[a.n]) else Value(env, a)
  }

  function EnvForSource(effect: seq<Arg>, vs: set<Arg>, env: Env): Env {
    map v | v in vs :: Value(env, Rename(effect, v))
  }

  lemma ConvertedValue(effect: seq<Arg>, vs: set<Arg>, env: Env, v: Arg)
    requires v in vs || !v.IsVar()
    requires v.Num? ==> false
    ensures Value(EnvForConverted(effect, vs, env), Rename(effect, v)) == Value(env, v)
  {
    if v.IsVar() {
      if v in effect { RenamedIsPosition(effect, v); } else { NotRenamed(effect, v); }
      assert Rename(effect, v) in (set u | u in vs :: Rename(effect, u));
    }
  }

  function RuleVariables(r: Rule): set<Arg> {
    VarsOf(r.effect.args) + Variables(r.conditions)
  }

  lemma ConvertedAtomValue(r: Rule, t: SymAtom, env: Env)
    requires NumberFree(r) && (t == r.effect || t in r.conditions)
    ensures Instance(EnvForConverted(r.effect.args, RuleVariables(r), env), SymAtom(t.symbol, RenameAll(r.effect.args, t.args))) ==
      Instance(env, t)
    ensures Instance(EnvForSource(r.effect.args, RuleVariables(r), env), t) ==
      Instance(env, SymAtom(t.symbol, RenameAll(r.effect.args, t.args)))
  {
    var effect, vs := r.effect.args, RuleVariables(r);
    forall i | 0 <= i < |t.args|
      ensures t.args[i].IsVar() ==> t.args[i] in vs
      ensures !t.args[i].Num?
    {
      if t.args[i].IsVar() {
        assert t.args[i] in VarsOf(t.args);
        if t != r.effect {
          var j :| 0 <= j < |r.conditions| && r.conditions[j] == t;
          assert t.args[i] in Variables(r.conditions);
        }
      }
      if t != r.effect {
        var j :| 0 <= j < |r.conditions| && r.conditions[j] == t;
        assert NoNumbers(r.conditions[j].args);
      }
    }
    var forth, back := EnvForConverted(effect, vs, env), EnvForSource(effect, vs, env);
    forall i | 0 <= i < |t.args|
      ensures Value(forth, Rename(effect, t.args[i])) == Value(env, t.args[i])
      ensures Value(back, t.args[i]) == Value(env, Rename(effect, t.args[i]))
    {
      ConvertedValue(effect, vs, env, t.args[i]);
    }
    assert Values(forth, RenameAll(effect, t.args)) == Values(env, t.args);
    assert Values(back, t.args) == Values(env, RenameAll(effect, t.args));
  }

  /** Numbering the variables does not change what a rule means. */
  lemma ConversionKeepsClosure(r: Rule, m: iset<Atom>)
    requires NumberFree(r)
    ensures ClosedUnder(m, Converted(r)) <==> ClosedUnder(m, r)
  {
    var vs, effect, c := RuleVariables(r), r.effect.args, Converted(r);
    hide Instance, RuleVariables, EnvForConverted, EnvForSource, NumberFree;
    if ClosedUnder(m, c) {
      forall env: Env | AllIn(m, env, r.conditions) ensures Instance(env, r.effect) in m {
        var e := EnvForConverted(effect, vs, env);
        ConvertedAtomValue(r, r.effect, env);
        forall i | 0 <= i < |c.conditions| ensures Instance(e, c.conditions[i]) in m {
          assert r.conditions[i] in r.conditions;
          ConvertedAtomValue(r, r.conditions[i], env);
        }
        assert AllIn(m, e, c.conditions);
      }
    }
    if ClosedUnder(m, r) {
      forall env: Env | AllIn(m, env, c.conditions) ensures Instance(env, c.effect) in m {
        var e := EnvForSource(effect, vs, env);
        ConvertedAtomValue(r, r.effect, env);
        forall i | 0 <= i < |r.conditions| ensures Instance(e, r.conditions[i]) in m {
          assert r.conditions[i] in r.conditions;
          ConvertedAtomValue(r, r.conditions[i], env);
        }
        assert AllIn(m, e, r.conditions);
      }
    }
  }
}
