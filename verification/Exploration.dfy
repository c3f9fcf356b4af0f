/**
  From a normalized Datalog program to its model (pddl_to_prolog.py:39-48,
  build_model.py:303-330): every rule is split, the split program is evaluated, and
  over the original symbols the result is the least model of the original program.
 */
module Exploration {
  import opened Strips
  import opened Datalog
  import opened Unification
  import opened Occurrences
  import opened RuleValidation
  import opened ModelComputation
  import opened ConservativeExtension
  import opened GreedyJoin
  import opened SplitRules

  ghost predicate CleanFacts(facts: iset<Atom>) {
    forall a :: a in facts ==> Clean(a.symbol)
  }

  /** The symbol is an original one or an auxiliary name that was already used. */
  ghost predicate Below(count: nat, symbol: string) {
    Clean(symbol) || NamedIn(0, count, symbol)
  }

  ghost predicate RuleBelow(count: nat, r: Rule) {
    Below(count, r.effect.symbol) && forall i :: 0 <= i < |r.conditions| ==> Below(count, r.conditions[i].symbol)
  }

  lemma BelowMore(low: nat, high: nat, symbol: string)
    requires Below(low, symbol) && low <= high
    ensures Below(high, symbol)
  {
    if !Clean(symbol) {
      var n: nat :| 0 <= n < low && symbol == AuxName(n);
    }
  }

  lemma BelowDiffers(low: nat, high: nat, symbol: string, aux: string)
    requires Below(low, symbol) && NamedIn(low, high, aux)
    ensures symbol != aux
  {
    var n: nat :| low <= n < high && aux == AuxName(n);
    if symbol == aux {
      var m: nat :| 0 <= m < low && symbol == AuxName(m);
      NamesDiffer(m, n);
    }
  }

  lemma PlanAvoids(r: Rule, low: nat, high: nat, steps: seq<Step>, q: Rule)
    requires SplitPlan(r, low, high, steps) && RuleBelow(low, q)
    ensures Avoids(AuxSymbols(steps), q)
  {
    hide PlanFor, RuleFine, Below, NamedIn;
    forall x | x in AuxSymbols(steps)
      ensures q.effect.symbol != x && forall i :: 0 <= i < |q.conditions| ==> q.conditions[i].symbol != x
    {
      var k :| 0 <= k < |steps| - 1 && steps[k].output.atom.symbol == x;
      assert NamedIn(low, high, x);
      BelowDiffers(low, high, q.effect.symbol, x);
      forall i | 0 <= i < |q.conditions| ensures q.conditions[i].symbol != x {
        BelowDiffers(low, high, q.conditions[i].symbol, x);
      }
    }
  }

  lemma CleanBelow(count: nat, r: Rule)
    requires CleanRule(r)
    ensures RuleBelow(count, r)
  {
  }

  /** The rules of a plan use original symbols and names below its end. */
  lemma {:induction false} OutputBelow(r: Rule, low: nat, high: nat, steps: seq<Step>, k: nat)
    requires SplitPlan(r, low, high, steps) && CleanRule(r) && k < |steps|
    ensures Below(high, steps[k].output.atom.symbol)
  {
    if k < |steps| - 1 {
      assert NamedIn(low, high, steps[k].output.atom.symbol);
      var n: nat :| low <= n < high && steps[k].output.atom.symbol == AuxName(n);
    }
  }

  lemma StepBelow(r: Rule, low: nat, high: nat, steps: seq<Step>, k: nat)
    requires SplitPlan(r, low, high, steps) && CleanRule(r) && k < |steps|
    ensures RuleBelow(high, RuleOf(steps[k]))
  {
    OutputBelow(r, low, high, steps, k);
    forall i | 0 <= i < |steps[k].inputs| ensures Below(high, steps[k].inputs[i].atom.symbol) {
      if IsOriginal(r, steps[k].inputs[i]) {
        var j :| 0 <= j < |r.conditions| && r.conditions[j] == steps[k].inputs[i].atom;
      } else {
        var j :| 0 <= j < k && j < |steps| && steps[j].output == steps[k].inputs[i];
        OutputBelow(r, low, high, steps, j);
      }
    }
  }

  // ----- Entailment depends on the set of rules only -----

  lemma SameRules(a: seq<Rule>, b: seq<Rule>, facts: iset<Atom>, x: Atom)
    requires forall q :: q in a <==> q in b
    ensures InEveryModel(a, facts, x) <==> InEveryModel(b, facts, x)
  {
    forall m: iset<Atom> ensures IsModel(a, facts, m) <==> IsModel(b, facts, m) {
      if IsModel(a, facts, m) {
        forall i | 0 <= i < |b| ensures ClosedUnder(m, b[i]) {
          assert b[i] in a;
          var j :| 0 <= j < |a| && a[j] == b[i];
        }
      }
      if IsModel(b, facts, m) {
        forall i | 0 <= i < |a| ensures ClosedUnder(m, a[i]) {
          assert a[i] in b;
          var j :| 0 <= j < |b| && b[j] == a[i];
        }
      }
    }
  }

  /** The two rule lists entail the same atoms over original symbols. */
  ghost predicate SameEntailment(a: seq<Rule>, b: seq<Rule>) {
    forall facts: iset<Atom>, x: Atom :: CleanFacts(facts) && Clean(x.symbol) ==> (InEveryModel(a, facts, x) <==> InEveryModel(b, facts, x))
  }

  ghost predicate AllBelow(count: nat, rules: seq<Rule>) {
    forall i :: 0 <= i < |rules| ==> RuleBelow(count, rules[i])
  }

  lemma SplitOneEntails(made: seq<Rule>, r: Rule, todo: seq<Rule>, low: nat, high: nat, steps: seq<Step>,
      facts: iset<Atom>, x: Atom)
    requires SplitPlan(r, low, high, steps) && CleanFacts(facts) && Clean(x.symbol)
    requires AllBelow(low, made) && AllBelow(low, todo)
    ensures InEveryModel(made + RulesOf(steps) + todo, facts, x) <==> InEveryModel(made + ([r] + todo), facts, x)
  {
    hide InEveryModel, RuleFine, PlanFor, RuleBelow, SplitPlan;
    var rest := made + todo;
    forall i | 0 <= i < |rest| ensures Avoids(AuxSymbols(steps), rest[i]) {
      if i < |made| { assert rest[i] == made[i]; } else { assert rest[i] == todo[i - |made|]; }
      assert RuleBelow(low, rest[i]);
      PlanAvoids(r, low, high, steps, rest[i]);
    }
    CleanNotAux(r, low, high, steps, facts, x);
    PlanIsConservative(r, steps, rest, facts, x);
    SameRules(rest + RulesOf(steps), made + RulesOf(steps) + todo, facts, x);
    SameRules(rest + [r], made + ([r] + todo), facts, x);
  }

  lemma CleanNotAux(r: Rule, low: nat, high: nat, steps: seq<Step>, facts: iset<Atom>, x: Atom)
    requires SplitPlan(r, low, high, steps) && CleanFacts(facts) && Clean(x.symbol)
    ensures PlanFor(r, steps) && FactsAvoid(AuxSymbols(steps), facts) && x.symbol !in AuxSymbols(steps)
  {
    hide PlanFor, RuleFine;
    forall s | s in AuxSymbols(steps) ensures !Clean(s) {
      var k :| 0 <= k < |steps| - 1 && steps[k].output.atom.symbol == s;
      assert NamedIn(low, high, s);
    }
  }

  // ----- Arities of the auxiliary symbols -----

  /** The arities with those of the first `n` outputs. */
  function PlanArities(arities: Arities, steps: seq<Step>, n: nat): Arities
    requires n <= |steps|
  {
    if n == 0 then arities
    else PlanArities(arities, steps, n - 1)[steps[n - 1].output.atom.symbol := |steps[n - 1].output.atom.args|]
  }

  lemma {:induction false} PlanArityKept(arities: Arities, steps: seq<Step>, n: nat, symbol: string)
    requires n <= |steps| && forall k :: 0 <= k < n ==> steps[k].output.atom.symbol != symbol
    ensures symbol in PlanArities(arities, steps, n) <==> symbol in arities
    ensures symbol in arities ==> PlanArities(arities, steps, n)[symbol] == arities[symbol]
  {
    if n > 0 { PlanArityKept(arities, steps, n - 1, symbol); }
  }

  predicate DistinctOutputs(steps: seq<Step>, n: nat) {
    forall j, k :: 0 <= j < k < n && k < |steps| ==> steps[j].output.atom.symbol != steps[k].output.atom.symbol
  }

  lemma PlanOutputs(r: Rule, low: nat, high: nat, steps: seq<Step>)
    requires SplitPlan(r, low, high, steps)
    ensures steps != [] && DistinctOutputs(steps, |steps| - 1)
  {
    hide RuleFine, GoodStep;
  }

  lemma {:induction false} PlanArityOf(arities: Arities, steps: seq<Step>, n: nat, k: nat)
    requires k < n <= |steps| && DistinctOutputs(steps, n)
    ensures HasArity(PlanArities(arities, steps, n), steps[k].output.atom.symbol, |steps[k].output.atom.args|)
  {
    if k < n - 1 {
      PlanArityOf(arities, steps, n - 1, k);
      assert steps[k].output.atom.symbol != steps[n - 1].output.atom.symbol;
    }
  }

  function AtomConstants(ts: seq<SymAtom>): set<string> {
    set i, o | 0 <= i < |ts| && o in ConstantsOf(ts[i].args) :: o
  }

  function RuleConstants(rules: seq<Rule>): set<string> {
    set i, o | 0 <= i < |rules| && o in AtomConstants([rules[i].effect] + rules[i].conditions) :: o
  }

  lemma ConstantsIncluded(rules: seq<Rule>, i: nat)
    requires i < |rules|
    ensures ConstantsOf(rules[i].effect.args) <= RuleConstants(rules)
    ensures forall j :: 0 <= j < |rules[i].conditions| ==> ConstantsOf(rules[i].conditions[j].args) <= RuleConstants(rules)
  {
    var ts := [rules[i].effect] + rules[i].conditions;
    forall k | 0 <= k < |ts| ensures ConstantsOf(ts[k].args) <= RuleConstants(rules) {
      forall o | o in ConstantsOf(ts[k].args) ensures o in RuleConstants(rules) {
        assert o in AtomConstants(ts);
      }
    }
    assert ts[0] == rules[i].effect;
    forall j | 0 <= j < |rules[i].conditions| ensures ConstantsOf(rules[i].conditions[j].args) <= RuleConstants(rules) {
      assert ts[j + 1] == rules[i].conditions[j];
    }
  }

  lemma FitsMore(arities: Arities, more: Arities, objects: set<string>, os: set<string>, r: Rule)
    requires Fits(arities, objects, r) && objects <= os
    requires HasArity(more, r.effect.symbol, |r.effect.args|)
    requires forall j :: 0 <= j < |r.conditions| ==> HasArity(more, r.conditions[j].symbol, |r.conditions[j].args|)
    ensures Fits(more, os, r)
  {
    forall j | 0 <= j < |r.conditions| ensures FitsAtom(more, os, r.conditions[j]) {
      assert FitsAtom(arities, objects, r.conditions[j]);
    }
  }

  /** Symbols that the plan does not introduce keep their arities. */
  lemma OldArity(r: Rule, low: nat, high: nat, arities: Arities, steps: seq<Step>, symbol: string, n: int)
    requires SplitPlan(r, low, high, steps) && Below(low, symbol) && HasArity(arities, symbol, n)
    ensures HasArity(PlanArities(arities, steps, |steps| - 1), symbol, n)
  {
    hide RuleFine, GoodStep, NamedIn, Below;
    forall k | 0 <= k < |steps| - 1 ensures steps[k].output.atom.symbol != symbol {
      assert NamedIn(low, high, steps[k].output.atom.symbol);
      BelowDiffers(low, high, symbol, steps[k].output.atom.symbol);
    }
    PlanArityKept(arities, steps, |steps| - 1, symbol);
  }

  lemma OldRuleFits(r: Rule, low: nat, high: nat, arities: Arities, objects: set<string>, os: set<string>,
      steps: seq<Step>,
      q: Rule)
    requires SplitPlan(r, low, high, steps) && RuleBelow(low, q) && Fits(arities, objects, q) && objects <= os
    ensures Fits(PlanArities(arities, steps, |steps| - 1), os, q)
  {
    hide SplitPlan, Below;
    var more := PlanArities(arities, steps, PlanLength(r, low, high, steps) - 1);
    OldArity(r, low, high, arities, steps, q.effect.symbol, |q.effect.args|);
    forall j | 0 <= j < |q.conditions| ensures HasArity(more, q.conditions[j].symbol, |q.conditions[j].args|) {
      assert FitsAtom(arities, objects, q.conditions[j]);
      OldArity(r, low, high, arities, steps, q.conditions[j].symbol, |q.conditions[j].args|);
    }
    FitsMore(arities, more, objects, os, q);
  }

  ghost function PlanLength(r: Rule, low: nat, high: nat, steps: seq<Step>): (n: nat)
    requires SplitPlan(r, low, high, steps)
    ensures n == |steps| && n >= 1
  {
    |steps|
  }

  lemma NodeArity(r: Rule, low: nat, high: nat, arities: Arities, objects: set<string>, steps: seq<Step>, k: nat)
    requires SplitPlan(r, low, high, steps) && CleanRule(r) && Fits(arities, objects, r) && k < |steps|
    ensures HasArity(PlanArities(arities, steps, |steps| - 1), steps[k].output.atom.symbol, |steps[k].output.atom.args|)
  {
    PlanOutputs(r, low, high, steps);
    if k < |steps| - 1 {
      PlanArityOf(arities, steps, |steps| - 1, k);
    } else {
      OldArity(r, low, high, arities, steps, r.effect.symbol, |r.effect.args|);
    }
  }

  lemma StepFits(r: Rule, low: nat, high: nat, arities: Arities, objects: set<string>, steps: seq<Step>, k: nat,
      os: set<string>)
    requires SplitPlan(r, low, high, steps) && CleanRule(r) && Fits(arities, objects, r) && k < |steps|
    requires RuleConstants(RulesOf(steps)) <= os
    ensures Fits(PlanArities(arities, steps, |steps| - 1), os, RuleOf(steps[k]))
  {
    var more, q := PlanArities(arities, steps, |steps| - 1), RuleOf(steps[k]);
    ConstantsIncluded(RulesOf(steps), k);
    NodeArity(r, low, high, arities, objects, steps, k);
    forall i | 0 <= i < |q.conditions| ensures FitsAtom(more, os, q.conditions[i]) {
      var n := steps[k].inputs[i];
      if IsOriginal(r, n) {
        var j :| 0 <= j < |r.conditions| && r.conditions[j] == n.atom;
        assert FitsAtom(arities, objects, r.conditions[j]);
        OldArity(r, low, high, arities, steps, n.atom.symbol, |n.atom.args|);
      } else {
        var j :| 0 <= j < k && j < |steps| && steps[j].output == n;
        NodeArity(r, low, high, arities, objects, steps, j);
      }
    }
  }

  // ----- Splitting the program -----

  ghost predicate RulesFit(arities: Arities, objects: set<string>, rules: seq<Rule>) {
    forall i :: 0 <= i < |rules| ==> Fits(arities, objects, rules[i])
  }

  predicate AllShared(rules: seq<Rule>) {
    forall i :: 0 <= i < |rules| ==> SharedInEffect(rules[i])
  }

  predicate RuleReady(q: Rule) {
    NormalizedRule(q) && NumberFree(q) && Validates(q)
  }

  predicate AllReady(rules: seq<Rule>) {
    forall i :: 0 <= i < |rules| ==> RuleReady(rules[i])
  }

  predicate AllCommon(rules: seq<Rule>) {
    forall i :: 0 <= i < |rules| ==> CommonInEffect(rules[i])
  }

  /** The rules that can be split: normalized, over original symbols. */
  ghost predicate Source(rules: seq<Rule>) {
    forall i :: 0 <= i < |rules| ==> NormalizedRule(rules[i]) && NumberFree(rules[i]) && CleanRule(rules[i])
  }

  /** The state after `i` rules: `made` replaces them. */
  ghost predicate SplitState(rules: seq<Rule>, i: nat, made: seq<Rule>, count: nat, arities: Arities,
      objects: set<string>,
      base: Arities, baseObjects: set<string>)
  {
    && i <= |rules| && SameEntailment(made + rules[i..], rules) && AllReady(made) && AllBelow(count, made)
    && (AllShared(rules) ==> AllCommon(made))
    && RulesFit(arities, objects, made) && RulesFit(arities, objects, rules)
    && Enlarged(base, baseObjects, arities, objects)
  }

  /** More objects, and the same arities for original symbols. */
  ghost predicate Enlarged(base: Arities, baseObjects: set<string>, arities: Arities, objects: set<string>) {
    baseObjects <= objects && forall p :: p in base && Clean(p) ==> p in arities && arities[p] == base[p]
  }

  lemma SplitStep(rules: seq<Rule>, i: nat, made: seq<Rule>, low: nat, high: nat, arities: Arities,
      objects: set<string>,
      base: Arities, baseObjects: set<string>, steps: seq<Step>)
    requires Source(rules) && i < |rules| && SplitState(rules, i, made, low, arities, objects, base, baseObjects)
    requires SplitPlan(rules[i], low, high, steps) && low <= high && |steps| >= 1
    ensures SplitState(rules, i + 1, made + RulesOf(steps), high, PlanArities(arities, steps, |steps| - 1),
      objects + RuleConstants(RulesOf(steps)), base, baseObjects)
  {
    hide SplitPlan, Below, InEveryModel, Clean, RuleReady, CommonInEffect, SharedInEffect, Fits, RuleBelow;
    var r, more := rules[i], made + RulesOf(steps);
    var arities', objects' := PlanArities(arities, steps, |steps| - 1), objects + RuleConstants(RulesOf(steps));
    EntailmentStep(rules, i, made, low, high, steps);
    ReadyStep(rules, i, made, low, high, steps);
    forall k | 0 <= k < |more| ensures RuleBelow(high, more[k]) && Fits(arities', objects', more[k]) {
      if k < |made| {
        RuleBelowMore(low, high, made[k]);
        OldRuleFits(r, low, high, arities, objects, objects', steps, made[k]);
      } else {
        StepBelow(r, low, high, steps, k - |made|);
        StepFits(r, low, high, arities, objects, steps, k - |made|, objects');
      }
    }
    forall k | 0 <= k < |rules| ensures Fits(arities', objects', rules[k]) {
      CleanBelow(low, rules[k]);
      OldRuleFits(r, low, high, arities, objects, objects', steps, rules[k]);
    }
    forall p | p in base && Clean(p) ensures p in arities' && arities'[p] == base[p] {
      CleanIsBelow(low, p);
      OldArity(r, low, high, arities, steps, p, arities[p]);
    }
  }

  lemma CleanIsBelow(count: nat, symbol: string)
    requires Clean(symbol)
    ensures Below(count, symbol)
  {
  }

  lemma RuleBelowMore(low: nat, high: nat, q: Rule)
    requires RuleBelow(low, q) && low <= high
    ensures RuleBelow(high, q)
  {
    BelowMore(low, high, q.effect.symbol);
    forall i | 0 <= i < |q.conditions| ensures Below(high, q.conditions[i].symbol) {
      BelowMore(low, high, q.conditions[i].symbol);
    }
  }

  lemma EntailmentStep(rules: seq<Rule>, i: nat, made: seq<Rule>, low: nat, high: nat, steps: seq<Step>)
    requires Source(rules) && i < |rules| && SameEntailment(made + rules[i..], rules) && AllBelow(low, made)
    requires SplitPlan(rules[i], low, high, steps)
    ensures SameEntailment(made + RulesOf(steps) + rules[i + 1..], rules)
  {
    hide SplitPlan, RuleBelow, InEveryModel, Clean, NormalizedRule, NumberFree;
    var todo := rules[i + 1..];
    forall k | 0 <= k < |todo| ensures RuleBelow(low, todo[k]) { CleanBelow(low, rules[i + 1 + k]); }
    assert rules[i..] == [rules[i]] + todo;
    forall facts: iset<Atom>, x: Atom | CleanFacts(facts) && Clean(x.symbol)
      ensures InEveryModel(made + RulesOf(steps) + todo, facts, x) <==> InEveryModel(rules, facts, x)
    {
      SplitOneEntails(made, rules[i], todo, low, high, steps, facts, x);
    }
  }

  lemma ReadyStep(rules: seq<Rule>, i: nat, made: seq<Rule>, low: nat, high: nat, steps: seq<Step>)
    requires i < |rules| && AllReady(made)
    requires (AllShared(rules) ==> AllCommon(made)) && SplitPlan(rules[i], low, high, steps)
    ensures AllReady(made + RulesOf(steps)) && (AllShared(rules) ==> AllCommon(made + RulesOf(steps)))
  {
    hide PlanFor, NormalizedRule, NumberFree, Validates, CommonInEffect, SharedInEffect, NamedIn;
    var more := made + RulesOf(steps);
    forall k | 0 <= k < |more| ensures RuleReady(more[k]) && (AllShared(rules) ==> CommonInEffect(more[k])) {
      if k >= |made| {
        assert more[k] == RuleOf(steps[k - |made|]);
        assert RuleFine(rules[i], RuleOf(steps[k - |made|]));
        assert AllShared(rules) ==> SharedInEffect(rules[i]);
      }
    }
  }

  /** PrologProgram.split_rules: the split rules entail the same over original symbols,
      every one of them passes its validation, and its joins are exact if shared
      variables occur in the effects. */
  method SplitAllRules(rules: seq<Rule>, names: NameGenerator, ghost arities: Arities, ghost objects: set<string>)
      returns (made: seq<Rule>, ghost arities': Arities, ghost objects': set<string>)
    requires Source(rules) && RulesFit(arities, objects, rules)
    modifies names
    ensures SameEntailment(made, rules) && AllReady(made) && (AllShared(rules) ==> AllCommon(made))
    ensures RulesFit(arities', objects', made) && Enlarged(arities, objects, arities', objects')
  {
    made, arities', objects' := [], arities, objects;
    SplitStart(rules, names.count, arities, objects);
    hide SplitState, SplitPlan, NormalizedRule, NumberFree, CleanRule, SameEntailment, AllReady, AllShared,
      AllCommon, RulesFit,
      Clean, PlanArities, RuleConstants, RulesOf, Enlarged;
    for i := 0 to |rules|
      invariant SplitState(rules, i, made, names.count, arities', objects', arities, objects)
    {
      ghost var low := names.count;
      var split, steps, d := SplitRule(rules[i], names);
      ghost var n := PlanLength(rules[i], low, names.count, steps);
      SplitStep(rules, i, made, low, names.count, arities', objects', arities, objects, steps);
      made := made + split;
      arities', objects' := PlanArities(arities', steps, |steps| - 1), objects' + RuleConstants(RulesOf(steps));
    }
    SplitEnd(rules, made, names.count, arities', objects', arities, objects);
  }

  lemma SplitStart(rules: seq<Rule>, count: nat, arities: Arities, objects: set<string>)
    requires RulesFit(arities, objects, rules)
    ensures SplitState(rules, 0, [], count, arities, objects, arities, objects)
  {
    hide InEveryModel, Fits;
    assert [] + rules[0..] == rules;
  }

  lemma SplitEnd(rules: seq<Rule>, made: seq<Rule>, count: nat, arities: Arities, objects: set<string>, base: Arities,
      baseObjects: set<string>)
    requires SplitState(rules, |rules|, made, count, arities, objects, base, baseObjects)
    ensures SameEntailment(made, rules) && AllReady(made) && (AllShared(rules) ==> AllCommon(made))
    ensures RulesFit(arities, objects, made) && Enlarged(base, baseObjects, arities, objects)
  {
    assert made + rules[|rules|..] == made;
  }

  // ----- The model of the original program -----

  lemma FactsFit(facts: seq<Atom>, arities: Arities, objects: set<string>, more: Arities, os: set<string>)
    requires forall i :: 0 <= i < |facts| ==> facts[i] in Universe(arities, objects) && Clean(facts[i].symbol)
    requires Enlarged(arities, objects, more, os)
    ensures forall i :: 0 <= i < |facts| ==> facts[i] in Universe(more, os)
  {
  }

  /**
    Splitting the rules and computing the model: exactly what firing the split rules
    derives from the facts.  Over the original symbols that contains everything the
    program entails, and nothing else if every variable shared by two conditions of a
    rule occurs in its effect.
   */
  method Explore(p: Program, ghost arities: Arities, ghost objects: set<string>)
      returns (model: seq<Atom>, ghost split: seq<Rule>)
    requires Source(p.rules) && FitsProgram(arities, objects, p)
    requires forall i :: 0 <= i < |p.facts| ==> Clean(p.facts[i].symbol)
    ensures SameEntailment(split, p.rules) && AllReady(split)
    ensures IsLeastFiringModel(split, AsModel(p.facts), AsModel(model))
    ensures forall a: Atom :: Clean(a.symbol) && InEveryModel(p.rules, AsModel(p.facts), a) ==> a in model
    ensures AllShared(p.rules) ==>
      forall a: Atom :: Clean(a.symbol) ==> (a in model <==> InEveryModel(p.rules, AsModel(p.facts), a))
  {
    hide Clean, InEveryModel, Fits, Universe, IsModel, SharedInEffect, NormalizedRule, NumberFree, CleanRule;
    var names := new NameGenerator();
    var rules, arities', objects' := SplitAllRules(p.rules, names, arities, objects);
    FactsFit(p.facts, arities, objects, arities', objects');
    var program := Program(p.facts, rules);
    assert ValidProgram(program) by { ReadyValid(program); }
    model := ComputeModel(program, arities', objects');
    split := rules;
    hide ValidProgram, FitsProgram, IsFiringModel, AllReady, SameEntailment, CommonInEffect;
    forall a: Atom | Clean(a.symbol)
      ensures InEveryModel(p.rules, AsModel(p.facts), a) ==> a in model
      ensures AllShared(p.rules) ==> (a in model <==> InEveryModel(p.rules, AsModel(p.facts), a))
    {
      ModelMeans(p, rules, model, a);
    }
  }

  lemma ReadyValid(p: Program)
    requires AllReady(p.rules)
    ensures ValidProgram(p)
  {
  }

  lemma ModelMeans(p: Program, rules: seq<Rule>, model: seq<Atom>, a: Atom)
    requires SameEntailment(rules, p.rules) && (AllShared(p.rules) ==> AllCommon(rules)) && Clean(a.symbol)
    requires forall i :: 0 <= i < |p.facts| ==> Clean(p.facts[i].symbol)
    requires IsModel(rules, AsModel(p.facts), AsModel(model))
    requires (forall i :: 0 <= i < |rules| ==> CommonInEffect(rules[i])) ==> IsLeastModel(rules, AsModel(p.facts), AsModel(model))
    ensures InEveryModel(p.rules, AsModel(p.facts), a) ==> a in model
    ensures AllShared(p.rules) ==> (a in model <==> InEveryModel(p.rules, AsModel(p.facts), a))
  {
    hide Clean, CommonInEffect, SharedInEffect;
    var facts := AsModel(p.facts);
    forall f | f in facts ensures Clean(f.symbol) { var i :| 0 <= i < |p.facts| && p.facts[i] == f; }
    assert CleanFacts(facts);
    assert InEveryModel(rules, facts, a) <==> InEveryModel(p.rules, facts, a);
    if InEveryModel(rules, facts, a) { assert a in AsModel(model); }
    if AllShared(p.rules) && a in model {
      LeastIsEntailed(rules, facts, AsModel(model), a);
    }
  }

  lemma LeastIsEntailed(rules: seq<Rule>, facts: iset<Atom>, m: iset<Atom>, a: Atom)
    requires IsLeastModel(rules, facts, m) && a in m
    ensures InEveryModel(rules, facts, a)
  {
  }
}
