/**
  Replacing a rule by several rules over auxiliary symbols (split_rules.py:32-69,
  greedy_join.py:71-112).  Every auxiliary atom stands for a part of the original
  conditions; if parts share only variables that their atoms retain, the replacement
  leaves what the program entails about all other symbols unchanged.
 */
module ConservativeExtension {
  import opened Strips
  import opened Datalog
  import opened ModelComputation

  /** An atom that stands for a part of the original conditions. */
  datatype Node = Node(atom: SymAtom, parts: seq<SymAtom>)

  /** A rule that derives the output from the inputs. */
  datatype Step = Step(kind: Kind, inputs: seq<Node>, output: Node)

  function Atoms(ns: seq<Node>): (r: seq<SymAtom>)
    ensures |r| == |ns| && forall i :: 0 <= i < |ns| ==> r[i] == ns[i].atom
  {
    seq(|ns|, i requires 0 <= i < |ns| => ns[i].atom)
  }

  function RuleOf(s: Step): Rule {
    Rule(s.kind, s.output.atom, Atoms(s.inputs))
  }

  function RulesOf(steps: seq<Step>): (r: seq<Rule>)
    ensures |r| == |steps| && forall i :: 0 <= i < |steps| ==> r[i] == RuleOf(steps[i])
  {
    seq(|steps|, i requires 0 <= i < |steps| => RuleOf(steps[i]))
  }

  /** The atom retains the variables that its part shares with `others`. */
  predicate Retains(n: Node, others: seq<SymAtom>) {
    Variables(n.parts) * Variables(others) <= VarsOf(n.atom.args)
  }

  /** The atom has only variables of its part. */
  predicate Covered(n: Node) {
    VarsOf(n.atom.args) <= Variables(n.parts)
  }

  predicate InSomeInput(inputs: seq<Node>, c: SymAtom) {
    exists i :: 0 <= i < |inputs| && c in inputs[i].parts
  }

  /** The output stands for the parts of all inputs. */
  ghost predicate GoodStep(s: Step) {
    && (forall c :: c in s.output.parts <==> InSomeInput(s.inputs, c))
    && VarsOf(s.output.atom.args) <= Variables(Atoms(s.inputs))
    && (forall i :: 0 <= i < |s.inputs| ==> Covered(s.inputs[i]))
    && (forall i, j :: 0 <= i < |s.inputs| && 0 <= j < |s.inputs| && i != j ==> Retains(s.inputs[i], s.inputs[j].parts))
  }

  // ----- Joining the witnesses of the inputs -----

  /** Some environment satisfies the part and gives the atom this instance. */
  ghost predicate Witnessed(m: iset<Atom>, n: Node, env: Env) {
    exists e: Env :: AllIn(m, e, n.parts) && Instance(e, n.atom) == Instance(env, n.atom)
  }

  /** `e` on the variables in `vs`, `f` elsewhere. */
  function Overlay(e: Env, vs: set<Arg>, f: Env, us: set<Arg>): Env {
    (map a | a in us :: Value(f, a)) + (map a | a in vs :: Value(e, a))
  }

  lemma OverlayValues(e: Env, vs: set<Arg>, f: Env, us: set<Arg>)
    ensures AgreeOn(Overlay(e, vs, f, us), e, set a | a in vs && a.IsVar())
    ensures AgreeOn(Overlay(e, vs, f, us), f, set a | a in us && a !in vs && a.IsVar())
  {
  }

  lemma AllInAgree(m: iset<Atom>, e: Env, f: Env, cs: seq<SymAtom>)
    requires AllIn(m, e, cs) && AgreeOn(e, f, Variables(cs))
    ensures AllIn(m, f, cs)
  {
    forall i | 0 <= i < |cs| ensures Instance(f, cs[i]) in m {
      assert Instance(e, cs[i]) in m;
      assert VarsOf(cs[i].args) <= Variables(cs);
      SameInstance(e, f, cs[i]);
    }
  }

  /** One environment for the parts of the first `n` inputs that gives their atoms
      the same instances as `env`. */
  ghost predicate JointWitness(m: iset<Atom>, inputs: seq<Node>, n: nat, env: Env, e: Env) {
    n <= |inputs| && forall i :: 0 <= i < n ==>
      AllIn(m, e, inputs[i].parts) && Instance(e, inputs[i].atom) == Instance(env, inputs[i].atom)
  }

  function PartVariables(inputs: seq<Node>, n: nat): (r: set<Arg>)
    requires n <= |inputs|
    ensures forall a :: a in r <==> exists i :: 0 <= i < n && a in Variables(inputs[i].parts)
  {
    set i, a | 0 <= i < n && a in Variables(inputs[i].parts) :: a
  }

  lemma {:induction false} JoinWitnesses(m: iset<Atom>, s: Step, n: nat, env: Env) returns (e: Env)
    requires GoodStep(s) && n <= |s.inputs| && forall i :: 0 <= i < |s.inputs| ==> Witnessed(m, s.inputs[i], env)
    ensures JointWitness(m, s.inputs, n, env, e)
  {
    hide GoodStep, AllIn, Variables, PartVariables, Instance, Overlay, AgreeOn;
    if n == 0 {
      e := map[];
    } else {
      var f := JoinWitnesses(m, s, n - 1, env);
      var last := s.inputs[n - 1];
      assert Witnessed(m, last, env);
      var g: Env :| AllIn(m, g, last.parts) && Instance(g, last.atom) == Instance(env, last.atom);
      var vs, us := PartVariables(s.inputs, n - 1), Variables(last.parts);
      e := Overlay(f, vs, g, us);
      OverlayValues(f, vs, g, us);
      forall i | 0 <= i < n - 1
        ensures AllIn(m, e, s.inputs[i].parts) && Instance(e, s.inputs[i].atom) == Instance(env, s.inputs[i].atom)
      {
        PartIncluded(s, n - 1, i);
        KeptWitness(m, s.inputs[i], f, e, env, vs);
      }
      NewWitness(m, s, n, f, g, e, env);
    }
  }

  lemma PartIncluded(s: Step, n: nat, i: nat)
    requires GoodStep(s) && i < n <= |s.inputs|
    ensures Covered(s.inputs[i]) && Variables(s.inputs[i].parts) <= PartVariables(s.inputs, n)
  {
  }

  lemma KeptWitness(m: iset<Atom>, n: Node, f: Env, e: Env, env: Env, vs: set<Arg>)
    requires AllIn(m, f, n.parts) && Instance(f, n.atom) == Instance(env, n.atom) && Covered(n)
    requires Variables(n.parts) <= vs && AgreeOn(e, f, set a | a in vs && a.IsVar())
    ensures AllIn(m, e, n.parts) && Instance(e, n.atom) == Instance(env, n.atom)
  {
    forall a | a in Variables(n.parts) ensures Value(f, a) == Value(e, a) {
      assert a.IsVar();
    }
    AllInAgree(m, f, e, n.parts);
    SameInstance(e, f, n.atom);
  }

  lemma NewWitness(m: iset<Atom>, s: Step, n: nat, f: Env, g: Env, e: Env, env: Env)
    requires GoodStep(s) && 0 < n <= |s.inputs| && JointWitness(m, s.inputs, n - 1, env, f)
    requires AllIn(m, g, s.inputs[n - 1].parts)
    requires Instance(g, s.inputs[n - 1].atom) == Instance(env, s.inputs[n - 1].atom)
    requires var vs, us := PartVariables(s.inputs, n - 1), Variables(s.inputs[n - 1].parts);
      e == Overlay(f, vs, g, us)
    ensures AllIn(m, e, s.inputs[n - 1].parts)
    ensures Instance(e, s.inputs[n - 1].atom) == Instance(env, s.inputs[n - 1].atom)
  {
    hide GoodStep, JointWitness, AllIn, Variables, PartVariables;
    var last := s.inputs[n - 1];
    var vs, us := PartVariables(s.inputs, n - 1), Variables(last.parts);
    OverlayValues(f, vs, g, us);
    forall a | a in us ensures Value(g, a) == Value(e, a) {
      VariablesAreVars(last.parts, a);
      if a in vs {
        SharedAgree(m, s, n, f, g, env, a);
        assert a in set b | b in vs && b.IsVar();
      } else {
        assert a in set b | b in us && b !in vs && b.IsVar();
      }
    }
    LastCovered(s, n);
    AllInAgree(m, g, e, last.parts);
    SameInstance(g, e, last.atom);
  }

  lemma VariablesAreVars(cs: seq<SymAtom>, a: Arg)
    requires a in Variables(cs)
    ensures a.IsVar()
  {
  }

  lemma LastCovered(s: Step, n: nat)
    requires GoodStep(s) && 0 < n <= |s.inputs|
    ensures VarsOf(s.inputs[n - 1].atom.args) <= Variables(s.inputs[n - 1].parts)
  {
    assert Covered(s.inputs[n - 1]);
  }

  /** A variable of an earlier part and of the last one has the value it has in `env`. */
  lemma SharedAgree(m: iset<Atom>, s: Step, n: nat, f: Env, g: Env, env: Env, a: Arg)
    requires GoodStep(s) && 0 < n <= |s.inputs| && JointWitness(m, s.inputs, n - 1, env, f)
    requires Instance(g, s.inputs[n - 1].atom) == Instance(env, s.inputs[n - 1].atom)
    requires a in PartVariables(s.inputs, n - 1) && a in Variables(s.inputs[n - 1].parts)
    ensures Value(f, a) == Value(g, a)
  {
    var last := s.inputs[n - 1];
    var i :| 0 <= i < n - 1 && a in Variables(s.inputs[i].parts);
    hide AllIn, Variables, Instance;
    assert Retains(s.inputs[i], last.parts) && Retains(last, s.inputs[i].parts);
    SameInstance(f, env, s.inputs[i].atom);
    SameInstance(g, env, last.atom);
    assert a in Variables(s.inputs[i].parts) * Variables(last.parts);
    assert a in VarsOf(s.inputs[i].atom.args) && a in VarsOf(last.atom.args);
  }

  /** If every input is witnessed, so is the output. */
  lemma OutputWitnessed(m: iset<Atom>, s: Step, env: Env) returns (e: Env)
    requires GoodStep(s) && forall i :: 0 <= i < |s.inputs| ==> Witnessed(m, s.inputs[i], env)
    ensures AllIn(m, e, s.output.parts) && Instance(e, s.output.atom) == Instance(env, s.output.atom)
  {
    e := JoinWitnesses(m, s, |s.inputs|, env);
    forall k | 0 <= k < |s.output.parts| ensures Instance(e, s.output.parts[k]) in m {
      var c := s.output.parts[k];
      assert InSomeInput(s.inputs, c);
      var i :| 0 <= i < |s.inputs| && c in s.inputs[i].parts;
      var l :| 0 <= l < |s.inputs[i].parts| && s.inputs[i].parts[l] == c;
      assert Instance(e, s.inputs[i].parts[l]) in m;
    }
    forall a | a in VarsOf(s.output.atom.args) ensures Value(e, a) == Value(env, a) {
      var i :| 0 <= i < |s.inputs| && a in VarsOf(Atoms(s.inputs)[i].args);
      SameInstance(e, env, s.inputs[i].atom);
    }
    SameInstance(e, env, s.output.atom);
  }

  // ----- Plans -----

  predicate IsOriginal(r: Rule, n: Node) {
    n.atom in r.conditions && n.parts == [n.atom]
  }

  predicate IsEarlierOutput(steps: seq<Step>, k: nat, n: Node) {
    exists j :: 0 <= j < k && j < |steps| && steps[j].output == n
  }

  /** The symbols that the steps introduce: those of all outputs but the last. */
  function AuxSymbols(steps: seq<Step>): (r: set<string>)
    ensures forall x :: x in r <==> exists k :: 0 <= k < |steps| - 1 && steps[k].output.atom.symbol == x
  {
    set k | 0 <= k < |steps| - 1 :: steps[k].output.atom.symbol
  }

  predicate Avoids(aux: set<string>, r: Rule) {
    r.effect.symbol !in aux && forall i :: 0 <= i < |r.conditions| ==> r.conditions[i].symbol !in aux
  }

  predicate AllAvoid(aux: set<string>, rules: seq<Rule>) {
    forall i :: 0 <= i < |rules| ==> Avoids(aux, rules[i])
  }

  ghost predicate FactsAvoid(aux: set<string>, facts: iset<Atom>) {
    forall a :: a in facts ==> a.symbol !in aux
  }

  /** The steps build the effect of `r` from its conditions. */
  ghost predicate PlanFor(r: Rule, steps: seq<Step>) {
    && steps != [] && (forall k :: 0 <= k < |steps| ==> GoodStep(steps[k]))
    && (forall k, i :: 0 <= k < |steps| && 0 <= i < |steps[k].inputs| ==>
          IsOriginal(r, steps[k].inputs[i]) || IsEarlierOutput(steps, k, steps[k].inputs[i]))
    && (forall j, k :: 0 <= j < k < |steps| - 1 ==> steps[j].output.atom.symbol != steps[k].output.atom.symbol)
    && Avoids(AuxSymbols(steps), r)
    && steps[|steps| - 1].output.atom == r.effect
    && (forall c :: c in steps[|steps| - 1].output.parts <==> c in r.conditions)
  }

  // ----- From models of the steps to models of the rule -----

  lemma {:induction false} OutputDerived(r: Rule, steps: seq<Step>, m: iset<Atom>, env: Env, k: nat)
    requires PlanFor(r, steps) && k < |steps| && AllIn(m, env, r.conditions)
    requires forall l :: 0 <= l < |steps| ==> ClosedUnder(m, RuleOf(steps[l]))
    ensures Instance(env, steps[k].output.atom) in m
  {
    var inputs := steps[k].inputs;
    forall i | 0 <= i < |inputs| ensures Instance(env, Atoms(inputs)[i]) in m {
      if IsOriginal(r, inputs[i]) {
        var l :| 0 <= l < |r.conditions| && r.conditions[l] == inputs[i].atom;
        assert Instance(env, r.conditions[l]) in m;
      } else {
        var j :| 0 <= j < k && j < |steps| && steps[j].output == inputs[i];
        OutputDerived(r, steps, m, env, j);
      }
    }
    assert ClosedUnder(m, RuleOf(steps[k]));
    assert AllIn(m, env, RuleOf(steps[k]).conditions);
  }

  lemma StepsImplyRule(r: Rule, steps: seq<Step>, m: iset<Atom>)
    requires PlanFor(r, steps) && forall l :: 0 <= l < |steps| ==> ClosedUnder(m, RuleOf(steps[l]))
    ensures ClosedUnder(m, r)
  {
    forall env: Env | AllIn(m, env, r.conditions) ensures Instance(env, r.effect) in m {
      OutputDerived(r, steps, m, env, |steps| - 1);
    }
  }

  // ----- From models of the rule to models of the steps -----

  /** An auxiliary atom whose part holds in `m`. */
  ghost predicate Stands(steps: seq<Step>, m: iset<Atom>, a: Atom) {
    exists k, env: Env :: 0 <= k < |steps| - 1 && AllIn(m, env, steps[k].output.parts) &&
      a == Instance(env, steps[k].output.atom)
  }

  /** `m` with all auxiliary atoms whose parts hold. */
  ghost function Extension(steps: seq<Step>, m: iset<Atom>): iset<Atom> {
    iset a: Atom | a in m || Stands(steps, m, a)
  }

  ghost predicate NoAux(steps: seq<Step>, m: iset<Atom>) {
    forall a :: a in m ==> a.symbol !in AuxSymbols(steps)
  }

  lemma NonAuxInModel(steps: seq<Step>, m: iset<Atom>, a: Atom)
    requires a in Extension(steps, m) && a.symbol !in AuxSymbols(steps)
    ensures a in m
  {
  }

  lemma InputWitnessed(r: Rule, steps: seq<Step>, m: iset<Atom>, env: Env, k: nat, i: nat)
    requires PlanFor(r, steps) && NoAux(steps, m) && k < |steps| && i < |steps[k].inputs|
    requires Instance(env, steps[k].inputs[i].atom) in Extension(steps, m)
    ensures Witnessed(m, steps[k].inputs[i], env)
  {
    var n := steps[k].inputs[i];
    if IsOriginal(r, n) {
      var l :| 0 <= l < |r.conditions| && r.conditions[l] == n.atom;
      NonAuxInModel(steps, m, Instance(env, n.atom));
      assert AllIn(m, env, n.parts);
    } else {
      var j :| 0 <= j < k && j < |steps| && steps[j].output == n;
      assert n.atom.symbol in AuxSymbols(steps);
      var l, e: Env :| 0 <= l < |steps| - 1 && AllIn(m, e, steps[l].output.parts) &&
        Instance(env, n.atom) == Instance(e, steps[l].output.atom);
      assert l == j by { if l < j || j < l { assert false; } }
    }
  }

  lemma ExtensionClosedStep(r: Rule, steps: seq<Step>, m: iset<Atom>, k: nat)
    requires PlanFor(r, steps) && NoAux(steps, m) && ClosedUnder(m, r) && k < |steps|
    ensures ClosedUnder(Extension(steps, m), RuleOf(steps[k]))
  {
    var s, x := steps[k], Extension(steps, m);
    forall env: Env | AllIn(x, env, Atoms(s.inputs)) ensures Instance(env, s.output.atom) in x {
      forall i | 0 <= i < |s.inputs| ensures Witnessed(m, s.inputs[i], env) {
        assert Instance(env, Atoms(s.inputs)[i]) in x;
        InputWitnessed(r, steps, m, env, k, i);
      }
      assert GoodStep(s);
      var e := OutputWitnessed(m, s, env);
      if k == |steps| - 1 {
        LastDerives(r, steps, m, e);
      } else {
        assert Stands(steps, m, Instance(e, s.output.atom));
      }
    }
  }

  lemma LastDerives(r: Rule, steps: seq<Step>, m: iset<Atom>, e: Env)
    requires PlanFor(r, steps) && ClosedUnder(m, r) && AllIn(m, e, steps[|steps| - 1].output.parts)
    ensures Instance(e, r.effect) in m
  {
    var parts := steps[|steps| - 1].output.parts;
    forall i | 0 <= i < |r.conditions| ensures Instance(e, r.conditions[i]) in m {
      assert r.conditions[i] in r.conditions;
      assert r.conditions[i] in parts;
      var l :| 0 <= l < |parts| && parts[l] == r.conditions[i];
      assert Instance(e, parts[l]) in m;
    }
    assert AllIn(m, e, r.conditions);
  }

  lemma ExtensionClosedOther(steps: seq<Step>, m: iset<Atom>, q: Rule)
    requires ClosedUnder(m, q) && Avoids(AuxSymbols(steps), q)
    ensures ClosedUnder(Extension(steps, m), q)
  {
    forall env: Env | AllIn(Extension(steps, m), env, q.conditions)
      ensures Instance(env, q.effect) in Extension(steps, m)
    {
      forall i | 0 <= i < |q.conditions| ensures Instance(env, q.conditions[i]) in m {
        NonAuxInModel(steps, m, Instance(env, q.conditions[i]));
      }
      assert AllIn(m, env, q.conditions);
    }
  }

  lemma ExtensionIsModel(r: Rule, steps: seq<Step>, rest: seq<Rule>, facts: iset<Atom>, m: iset<Atom>)
    requires PlanFor(r, steps) && NoAux(steps, m) && AllAvoid(AuxSymbols(steps), rest)
    requires IsModel(rest + [r], facts, m)
    ensures IsModel(rest + RulesOf(steps), facts, Extension(steps, m))
  {
    var rules := rest + RulesOf(steps);
    assert (rest + [r])[|rest|] == r;
    forall i | 0 <= i < |rules| ensures ClosedUnder(Extension(steps, m), rules[i]) {
      if i < |rest| {
        assert (rest + [r])[i] == rest[i];
        ExtensionClosedOther(steps, m, rest[i]);
      } else {
        ExtensionClosedStep(r, steps, m, i - |rest|);
      }
    }
  }

  /** A model without its auxiliary atoms. */
  ghost function WithoutAux(steps: seq<Step>, m: iset<Atom>): iset<Atom> {
    iset a | a in m && a.symbol !in AuxSymbols(steps)
  }

  lemma WithoutAuxIsModel(steps: seq<Step>, rules: seq<Rule>, facts: iset<Atom>, m: iset<Atom>)
    requires IsModel(rules, facts, m) && AllAvoid(AuxSymbols(steps), rules) && FactsAvoid(AuxSymbols(steps), facts)
    ensures IsModel(rules, facts, WithoutAux(steps, m)) && NoAux(steps, WithoutAux(steps, m))
  {
    forall i | 0 <= i < |rules| ensures ClosedUnder(WithoutAux(steps, m), rules[i]) {
      assert Avoids(AuxSymbols(steps), rules[i]);
      forall env: Env | AllIn(WithoutAux(steps, m), env, rules[i].conditions)
        ensures Instance(env, rules[i].effect) in WithoutAux(steps, m)
      {
        assert AllIn(m, env, rules[i].conditions);
        assert ClosedUnder(m, rules[i]);
      }
    }
  }

  lemma RuleEntailsSteps(r: Rule, steps: seq<Step>, rest: seq<Rule>, facts: iset<Atom>, a: Atom)
    requires PlanFor(r, steps) && InEveryModel(rest + [r], facts, a)
    ensures InEveryModel(rest + RulesOf(steps), facts, a)
  {
    var rules := rest + RulesOf(steps);
    forall m: iset<Atom> | IsModel(rules, facts, m) ensures a in m {
      forall l | 0 <= l < |steps| ensures ClosedUnder(m, RuleOf(steps[l])) {
        assert rules[|rest| + l] == RuleOf(steps[l]);
      }
      StepsImplyRule(r, steps, m);
      forall i | 0 <= i < |rest + [r]| ensures ClosedUnder(m, (rest + [r])[i]) {
        if i < |rest| { assert rules[i] == rest[i]; }
      }
      assert IsModel(rest + [r], facts, m);
    }
  }

  lemma StepsEntailRule(r: Rule, steps: seq<Step>, rest: seq<Rule>, facts: iset<Atom>, a: Atom)
    requires PlanFor(r, steps) && AllAvoid(AuxSymbols(steps), rest) && FactsAvoid(AuxSymbols(steps), facts)
    requires a.symbol !in AuxSymbols(steps) && InEveryModel(rest + RulesOf(steps), facts, a)
    ensures InEveryModel(rest + [r], facts, a)
  {
    forall m: iset<Atom> | IsModel(rest + [r], facts, m) ensures a in m {
      assert AllAvoid(AuxSymbols(steps), rest + [r]);
      WithoutAuxIsModel(steps, rest + [r], facts, m);
      ExtensionIsModel(r, steps, rest, facts, WithoutAux(steps, m));
      assert a in Extension(steps, WithoutAux(steps, m));
      NonAuxInModel(steps, WithoutAux(steps, m), a);
    }
  }

  /** Replacing a rule by the steps of a plan is a conservative extension: the programs
      entail the same atoms over all symbols that the plan does not introduce. */
  lemma PlanIsConservative(r: Rule, steps: seq<Step>, rest: seq<Rule>, facts: iset<Atom>, a: Atom)
    requires PlanFor(r, steps) && AllAvoid(AuxSymbols(steps), rest) && FactsAvoid(AuxSymbols(steps), facts)
    requires a.symbol !in AuxSymbols(steps)
    ensures InEveryModel(rest + RulesOf(steps), facts, a) <==> InEveryModel(rest + [r], facts, a)
  {
    if InEveryModel(rest + [r], facts, a) { RuleEntailsSteps(r, steps, rest, facts, a); }
    if InEveryModel(rest + RulesOf(steps), facts, a) { StepsEntailRule(r, steps, rest, facts, a); }
  }
}
