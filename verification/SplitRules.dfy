/**
  Splitting a rule (split_rules.py:25-69): one rule per group of connected
  conditions, each made binary, and a rule that combines their effects with the
  variable-free conditions.  The result is a plan for the rule, and every emitted
  rule passes its validation.
 */
module SplitRules {
  import opened Wrappers
  import opened Datalog
  import opened JoinCosts
  import opened Occurrences
  import opened RuleValidation
  import opened ModelComputation
  import opened ConservativeExtension
  import opened GreedyJoin
  import opened ConnectedConditions

  /** The symbol is not an auxiliary name. */
  ghost predicate Clean(symbol: string) {
    forall n: nat :: symbol != AuxName(n)
  }

  ghost predicate CleanRule(r: Rule) {
    Clean(r.effect.symbol) && forall i :: 0 <= i < |r.conditions| ==> Clean(r.conditions[i].symbol)
  }

  // ----- One connected group -----

  lemma SingleStep(r: Rule)
    requires NormalizedRule(r) && NumberFree(r) && |r.conditions| == 1
    ensures GreedyPlan(r, 0, [Step(Project, [Node(r.conditions[0], r.conditions)], Node(r.effect, r.conditions))])
    ensures forall base :: GreedyPlan(r, base, [Step(Project, [Node(r.conditions[0], r.conditions)], Node(r.effect, r.conditions))])
  {
    var c := r.conditions[0];
    var n, q := Node(c, r.conditions), Node(r.effect, r.conditions);
    var s := Step(Project, [n], q);
    assert r.conditions == [c];
    OwnVariables(c);
    ProjectStepGood(n, q);
    ProjectRuleFine(r, n, q);
    assert IsOriginal(r, n);
    forall i | 0 <= i < |s.inputs| ensures Provenance(r, [s], 0, s.inputs[i]) {}
    assert StepFine(r, [s], 0);
  }

  /** split_into_binary_rules, for connected conditions. */
  method SplitIntoBinaryRules(r: Rule, names: NameGenerator) returns (result: seq<Rule>, ghost steps: seq<Step>)
    requires NormalizedRule(r) && NumberFree(r) && Connected(r.conditions)
    modifies names
    ensures result == RulesOf(steps) && GreedyPlan(r, old(names.count), steps)
    ensures old(names.count) + |steps| - 1 <= names.count
  {
    if |r.conditions| <= 1 {
      var c := r.conditions[0];
      steps := [Step(Project, [Node(c, r.conditions)], Node(r.effect, r.conditions))];
      SingleStep(r);
      result := [r.(kind := Project)];
      assert Atoms([Node(c, r.conditions)]) == r.conditions;
      assert result == RulesOf(steps);
    } else {
      result, steps := GreedyJoinRule(r, names);
    }
  }

  /** project_rule: the effect variables of the group, under a new name. */
  method MakeProjectedRule(r: Rule, conditions: seq<SymAtom>, names: NameGenerator) returns (q: Rule)
    requires NormalizedRule(r) && NumberFree(r) && conditions != [] && forall c :: c in conditions ==> c in r.conditions
    modifies names
    ensures names.count == old(names.count) + 1 && q.effect.symbol == AuxName(old(names.count))
    ensures q.conditions == conditions && NormalizedRule(q) && NumberFree(q)
    ensures VarsOf(q.effect.args) == VarsOf(r.effect.args) * Variables(conditions)
  {
    var predicateName := names.Next();
    var effectVariables := ArgSet(r.effect.args) * Variables(conditions);
    var args := ListOf(effectVariables);
    q := Rule(Project, SymAtom(predicateName, args), conditions);
    ProjectedNormalized(r, q, effectVariables);
  }

  lemma ProjectedNormalized(r: Rule, q: Rule, vs: set<Arg>)
    requires NormalizedRule(r) && NumberFree(r) && q.conditions != []
    requires forall c :: c in q.conditions ==> c in r.conditions
    requires vs == ArgSet(r.effect.args) * Variables(q.conditions)
    requires Distinct(q.effect.args) && forall a :: a in q.effect.args <==> a in vs
    ensures NormalizedRule(q) && NumberFree(q)
    ensures VarsOf(q.effect.args) == VarsOf(r.effect.args) * Variables(q.conditions)
  {
    forall i | 0 <= i < |q.conditions| ensures DistinctVariables(q.conditions[i].args) && NoNumbers(q.conditions[i].args) {
      assert q.conditions[i] in r.conditions;
      var j :| 0 <= j < |r.conditions| && r.conditions[j] == q.conditions[i];
    }
    forall k | 0 <= k < |q.effect.args| ensures !q.effect.args[k].Num? {
      assert q.effect.args[k] in q.effect.args && q.effect.args[k] in r.effect.args;
    }
  }

  /** Shared variables of a group occur in the effect of its rule. */
  lemma GroupShared(r: Rule, q: Rule)
    requires SharedInEffect(r) && Distinct(q.conditions) && forall c :: c in q.conditions ==> c in r.conditions
    requires VarsOf(q.effect.args) == VarsOf(r.effect.args) * Variables(q.conditions)
    ensures SharedInEffect(q)
  {
    forall i, j | 0 <= i < |q.conditions| && 0 <= j < |q.conditions| && i != j
      ensures VarsOf(q.conditions[i].args) * VarsOf(q.conditions[j].args) <= VarsOf(q.effect.args)
    {
      assert q.conditions[i] in r.conditions && q.conditions[j] in r.conditions;
      var k :| 0 <= k < |r.conditions| && r.conditions[k] == q.conditions[i];
      var l :| 0 <= l < |r.conditions| && r.conditions[l] == q.conditions[j];
      assert k != l;
    }
  }

  // ----- The plan of several groups -----

  /** The steps so far build the effects of the groups; `nums` numbers their names. */
  ghost predicate GroupSteps(r: Rule, low: nat, high: nat, steps: seq<Step>, nums: seq<nat>) {
    && |nums| == |steps| && (forall k :: 0 <= k < |steps| ==> GroupStep(r, steps, k, low, high, nums[k]))
    && (forall j, k :: 0 <= j < k < |nums| ==> nums[j] != nums[k])
  }

  ghost predicate GroupStep(r: Rule, steps: seq<Step>, k: nat, low: nat, high: nat, num: nat)
    requires k < |steps|
  {
    StepFine(r, steps, k) && low <= num < high && steps[k].output.atom.symbol == AuxName(num)
  }

  /** A step for a group is a step for the rule, at a later position. */
  lemma ShiftStep(r: Rule, q: Rule, before: seq<Step>, steps: seq<Step>, k: nat)
    requires k < |steps| && StepFine(q, steps, k) && (SharedInEffect(r) ==> SharedInEffect(q))
    requires forall c :: c in q.conditions ==> c in r.conditions
    ensures StepFine(r, before + steps, |before| + k)
  {
    hide GoodStep, SharedInEffect, NormalizedRule, NumberFree, Validates, CommonInEffect;
    var all := before + steps;
    assert all[|before| + k] == steps[k];
    forall i | 0 <= i < |steps[k].inputs| ensures Provenance(r, all, |before| + k, steps[k].inputs[i]) {
      assert Provenance(q, steps, k, steps[k].inputs[i]);
      if !IsOriginal(q, steps[k].inputs[i]) {
        var j :| 0 <= j < k && j < |steps| && steps[j].output == steps[k].inputs[i];
        assert all[|before| + j].output == steps[k].inputs[i];
      }
    }
  }

  lemma KeepStep(r: Rule, before: seq<Step>, steps: seq<Step>, k: nat)
    requires k < |before| && StepFine(r, before, k)
    ensures StepFine(r, before + steps, k)
  {
    StepFineMore(r, before, before + steps, k);
  }

  /** The names of a group: the intermediate ones, then the one of its effect. */
  function GroupNumbers(base: nat, n: nat, last: nat): (r: seq<nat>)
    ensures |r| == n && forall k :: 0 <= k < n ==> r[k] == if k < n - 1 then base + k else last
  {
    seq(n, k requires 0 <= k < n => if k < n - 1 then base + k else last)
  }

  lemma AddGroup(r: Rule, q: Rule, low: nat, base: nat, high: nat, num: nat, before: seq<Step>, nums: seq<nat>,
      steps: seq<Step>)
    requires GroupSteps(r, low, base, before, nums) && GreedyPlan(q, base, steps) && base + |steps| - 1 <= high
    requires (SharedInEffect(r) ==> SharedInEffect(q)) && forall c :: c in q.conditions ==> c in r.conditions
    requires q.effect.symbol == AuxName(num) && low <= num < base && num !in nums
    ensures GroupSteps(r, low, high, before + steps, nums + GroupNumbers(base, |steps|, num))
  {
    hide StepFine, SharedInEffect;
    var all, ns := before + steps, nums + GroupNumbers(base, |steps|, num);
    forall k | 0 <= k < |all| ensures GroupStep(r, all, k, low, high, ns[k]) {
      if k < |before| {
        assert GroupStep(r, before, k, low, base, nums[k]);
        KeepStep(r, before, steps, k);
      } else {
        ShiftStep(r, q, before, steps, k - |before|);
      }
    }
    forall j, k | 0 <= j < k < |ns| ensures ns[j] != ns[k] {
      if j < |nums| {
        assert GroupStep(r, before, j, low, base, nums[j]);
        assert nums[j] in nums;
      }
    }
  }

  // ----- Combining the groups -----

  /** The effect atom of a group and the conditions it stands for. */
  ghost predicate GroupNode(r: Rule, group: seq<SymAtom>, n: Node) {
    && VarsOf(n.atom.args) == VarsOf(r.effect.args) * Variables(group)
    && DistinctVariables(n.atom.args) && NoNumbers(n.atom.args)
    && (forall c :: c in n.parts <==> c in group)
  }

  predicate HasVariables(c: SymAtom) {
    VarsOf(c.args) != {}
  }

  lemma SameElementsVariables(a: seq<SymAtom>, b: seq<SymAtom>)
    requires forall c :: c in a ==> c in b
    ensures Variables(a) <= Variables(b)
  {
    forall x | x in Variables(a) ensures x in Variables(b) {
      var i :| 0 <= i < |a| && x in VarsOf(a[i].args);
      assert a[i] in b;
      var j :| 0 <= j < |b| && b[j] == a[i];
    }
  }

  lemma GroupCovered(r: Rule, group: seq<SymAtom>, n: Node)
    requires GroupNode(r, group, n)
    ensures Covered(n) && Variables(n.parts) == Variables(group)
  {
    SameElementsVariables(n.parts, group);
    SameElementsVariables(group, n.parts);
  }

  lemma NoCommon(c: SymAtom, d: SymAtom, x: Arg)
    requires !Share(c, d)
    ensures x in VarsOf(c.args) ==> x !in VarsOf(d.args)
  {
    assert x in VarsOf(c.args) * VarsOf(d.args) <==> x in VarsOf(c.args) && x in VarsOf(d.args);
  }

  lemma ApartGroups(a: seq<SymAtom>, b: seq<SymAtom>)
    requires forall c, d :: c in a && d in b ==> !Share(c, d)
    ensures Variables(a) !! Variables(b)
  {
    forall x | x in Variables(a) ensures x !in Variables(b) {
      var i :| 0 <= i < |a| && x in VarsOf(a[i].args);
      forall j | 0 <= j < |b| ensures x !in VarsOf(b[j].args) {
        assert a[i] in a && b[j] in b;
        NoCommon(a[i], b[j], x);
      }
    }
  }

  /** The nodes of the combining rule: the groups, then the variable-free conditions. */
  ghost predicate CombinedNodes(r: Rule, groups: seq<seq<SymAtom>>, trivial: seq<SymAtom>, nodes: seq<Node>) {
    && |nodes| == |groups| + |trivial|
    && (forall i :: 0 <= i < |groups| ==> GroupNode(r, groups[i], nodes[i]))
    && (forall k :: 0 <= k < |trivial| ==> nodes[|groups| + k] == Node(trivial[k], [trivial[k]]))
  }

  /** How the conditions of the rule were divided. */
  ghost predicate Division(r: Rule, important: seq<SymAtom>, trivial: seq<SymAtom>, groups: seq<seq<SymAtom>>) {
    && (forall c :: c in r.conditions <==> c in important || c in trivial)
    && (forall c :: c in trivial ==> !HasVariables(c)) && (forall c :: c in important ==> HasVariables(c))
    && Grouping(important, groups)
  }

  lemma CombinedCovered(r: Rule, important: seq<SymAtom>, trivial: seq<SymAtom>, groups: seq<seq<SymAtom>>,
      nodes: seq<Node>, i: nat)
    requires Division(r, important, trivial, groups) && CombinedNodes(r, groups, trivial, nodes) && i < |nodes|
    ensures Covered(nodes[i]) && (i >= |groups| ==> Variables(nodes[i].parts) == {})
  {
    if i < |groups| {
      GroupCovered(r, groups[i], nodes[i]);
    } else {
      var c := trivial[i - |groups|];
      assert nodes[i] == nodes[|groups| + (i - |groups|)];
      assert c in trivial;
      OwnVariables(c);
    }
  }

  lemma CombinedRetains(r: Rule, important: seq<SymAtom>, trivial: seq<SymAtom>, groups: seq<seq<SymAtom>>,
      nodes: seq<Node>, i: nat, j: nat)
    requires Division(r, important, trivial, groups) && CombinedNodes(r, groups, trivial, nodes)
    requires i < |nodes| && j < |nodes| && i != j
    ensures Variables(nodes[i].parts) !! Variables(nodes[j].parts)
  {
    CombinedCovered(r, important, trivial, groups, nodes, i);
    CombinedCovered(r, important, trivial, groups, nodes, j);
    if i < |groups| && j < |groups| {
      GroupCovered(r, groups[i], nodes[i]);
      GroupCovered(r, groups[j], nodes[j]);
      ApartGroups(groups[i], groups[j]);
    }
  }

  lemma CombinedVariables(r: Rule, important: seq<SymAtom>, trivial: seq<SymAtom>, groups: seq<seq<SymAtom>>,
      nodes: seq<Node>)
    requires Division(r, important, trivial, groups) && CombinedNodes(r, groups, trivial, nodes) && NormalizedRule(r)
    ensures Variables(Atoms(nodes)) == VarsOf(r.effect.args)
  {
    forall x | x in Variables(Atoms(nodes)) ensures x in VarsOf(r.effect.args) {
      var i :| 0 <= i < |nodes| && x in VarsOf(Atoms(nodes)[i].args);
      CombinedCovered(r, important, trivial, groups, nodes, i);
      if i < |groups| { assert GroupNode(r, groups[i], nodes[i]); }
    }
    forall x | x in VarsOf(r.effect.args) ensures x in Variables(Atoms(nodes)) {
      var k :| 0 <= k < |r.conditions| && x in VarsOf(r.conditions[k].args);
      var c := r.conditions[k];
      assert c in r.conditions;
      assert c in important;
      var i :| 0 <= i < |groups| && c in groups[i];
      var l :| 0 <= l < |groups[i]| && groups[i][l] == c;
      assert x in Variables(groups[i]);
      assert GroupNode(r, groups[i], nodes[i]);
      assert x in VarsOf(Atoms(nodes)[i].args);
    }
  }

  lemma CombinedParts(r: Rule, important: seq<SymAtom>, trivial: seq<SymAtom>, groups: seq<seq<SymAtom>>,
      nodes: seq<Node>,
      c: SymAtom)
    requires Division(r, important, trivial, groups) && CombinedNodes(r, groups, trivial, nodes)
    ensures c in r.conditions <==> InSomeInput(nodes, c)
  {
    if c in important {
      var i :| 0 <= i < |groups| && c in groups[i];
      assert GroupNode(r, groups[i], nodes[i]);
      assert c in nodes[i].parts;
    }
    if c in trivial {
      var k :| 0 <= k < |trivial| && trivial[k] == c;
      assert c in nodes[|groups| + k].parts;
    }
    if InSomeInput(nodes, c) {
      var i :| 0 <= i < |nodes| && c in nodes[i].parts;
      if i < |groups| {
        assert GroupNode(r, groups[i], nodes[i]);
        assert c in important;
      } else {
        assert nodes[i] == nodes[|groups| + (i - |groups|)];
        assert c == trivial[i - |groups|];
      }
    }
  }

  lemma CombinedGood(r: Rule, important: seq<SymAtom>, trivial: seq<SymAtom>, groups: seq<seq<SymAtom>>,
      nodes: seq<Node>, kind: Kind)
    requires Division(r, important, trivial, groups) && CombinedNodes(r, groups, trivial, nodes) && NormalizedRule(r)
    ensures GoodStep(Step(kind, nodes, Node(r.effect, r.conditions)))
  {
    CombinedVariables(r, important, trivial, groups, nodes);
    hide Division, CombinedNodes, NormalizedRule, VarsOf, Variables;
    forall c ensures c in r.conditions <==> InSomeInput(nodes, c) {
      CombinedParts(r, important, trivial, groups, nodes, c);
    }
    forall i | 0 <= i < |nodes| ensures Covered(nodes[i]) { CombinedCovered(r, important, trivial, groups, nodes, i); }
    forall i, j | 0 <= i < |nodes| && 0 <= j < |nodes| && i != j ensures Retains(nodes[i], nodes[j].parts) {
      CombinedRetains(r, important, trivial, groups, nodes, i, j);
    }
  }

  /** Disjoint conditions have as many variables as their sizes add up to. */
  lemma {:induction false} DisjointMeansSum(cs: seq<SymAtom>)
    requires forall i, j :: 0 <= i < j < |cs| ==> VarsOf(cs[i].args) !! VarsOf(cs[j].args)
    ensures |Variables(cs)| == SumOfSizes(cs)
  {
    if cs == [] {
      assert Variables(cs) == {};
    } else {
      var front, last := cs[..|cs| - 1], VarsOf(cs[|cs| - 1].args);
      FrontDisjoint(cs);
      hide VarsOf, Variables;
      DisjointMeansSum(front);
      VariablesSplit(cs);
      UnionSize(Variables(front), last);
    }
  }

  lemma FrontDisjoint(cs: seq<SymAtom>)
    requires cs != [] && forall i, j :: 0 <= i < j < |cs| ==> VarsOf(cs[i].args) !! VarsOf(cs[j].args)
    ensures Variables(cs[..|cs| - 1]) * VarsOf(cs[|cs| - 1].args) == {}
  {
    var front, last := cs[..|cs| - 1], VarsOf(cs[|cs| - 1].args);
    forall x | x in Variables(front) ensures x !in last {
      var i :| 0 <= i < |front| && x in VarsOf(front[i].args);
      assert front[i] == cs[i];
    }
  }

  lemma CombinedFine(r: Rule, important: seq<SymAtom>, trivial: seq<SymAtom>, groups: seq<seq<SymAtom>>,
      nodes: seq<Node>)
    requires Division(r, important, trivial, groups) && CombinedNodes(r, groups, trivial, nodes)
    requires NormalizedRule(r) && NumberFree(r)
    ensures RuleFine(r, RuleOf(Step(if |nodes| >= 2 then Product else Project, nodes, Node(r.effect, r.conditions))))
  {
    CombinedVariables(r, important, trivial, groups, nodes);
    forall i | 0 <= i < |nodes| ensures DistinctVariables(nodes[i].atom.args) && NoNumbers(nodes[i].atom.args) {
      CombinedShape(r, important, trivial, groups, nodes, i);
    }
    hide Division, CombinedNodes, VarsOf, Variables, DistinctVariables, NormalizedRule;
    forall i, j | 0 <= i < j < |nodes| ensures VarsOf(nodes[i].atom.args) !! VarsOf(nodes[j].atom.args) {
      CombinedDisjoint(r, important, trivial, groups, nodes, i, j);
    }
    SomeNode(r, important, trivial, groups, nodes);
    DisjointMeansSum(Atoms(nodes));
    CombiningRuleFine(r, nodes);
  }

  lemma CombinedDisjoint(r: Rule, important: seq<SymAtom>, trivial: seq<SymAtom>, groups: seq<seq<SymAtom>>,
      nodes: seq<Node>,
      i: nat, j: nat)
    requires Division(r, important, trivial, groups) && CombinedNodes(r, groups, trivial, nodes)
    requires i < |nodes| && j < |nodes| && i != j
    ensures VarsOf(nodes[i].atom.args) !! VarsOf(nodes[j].atom.args)
  {
    CombinedCovered(r, important, trivial, groups, nodes, i);
    CombinedCovered(r, important, trivial, groups, nodes, j);
    CombinedRetains(r, important, trivial, groups, nodes, i, j);
  }

  lemma CombiningRuleFine(r: Rule, nodes: seq<Node>)
    requires NormalizedRule(r) && NumberFree(r) && nodes != []
    requires forall i :: 0 <= i < |nodes| ==> DistinctVariables(nodes[i].atom.args) && NoNumbers(nodes[i].atom.args)
    requires Variables(Atoms(nodes)) == VarsOf(r.effect.args) && |Variables(Atoms(nodes))| == SumOfSizes(Atoms(nodes))
    ensures RuleFine(r, RuleOf(Step(if |nodes| >= 2 then Product else Project, nodes, Node(r.effect, r.conditions))))
  {
    hide VarsOf, Variables, DistinctVariables, NoNumbers, SumOfSizes, SharedInEffect;
  }

  lemma CombinedShape(r: Rule, important: seq<SymAtom>, trivial: seq<SymAtom>, groups: seq<seq<SymAtom>>,
      nodes: seq<Node>, i: nat)
    requires Division(r, important, trivial, groups) && CombinedNodes(r, groups, trivial, nodes) && i < |nodes|
    requires NormalizedRule(r) && NumberFree(r)
    ensures DistinctVariables(nodes[i].atom.args) && NoNumbers(nodes[i].atom.args)
  {
    if i < |groups| {
      assert GroupNode(r, groups[i], nodes[i]);
    } else {
      assert nodes[i] == nodes[|groups| + (i - |groups|)];
      var c := trivial[i - |groups|];
      assert c in trivial;
      assert c in r.conditions;
      var k :| 0 <= k < |r.conditions| && r.conditions[k] == c;
    }
  }

  lemma SomeNode(r: Rule, important: seq<SymAtom>, trivial: seq<SymAtom>, groups: seq<seq<SymAtom>>, nodes: seq<Node>)
    requires Division(r, important, trivial, groups) && CombinedNodes(r, groups, trivial, nodes) && NormalizedRule(r)
    ensures nodes != []
  {
    assert r.conditions[0] in r.conditions;
    CombinedParts(r, important, trivial, groups, nodes, r.conditions[0]);
  }

  // ----- Whole plans -----

  /** A plan for the rule whose rules pass their validation and whose auxiliary names
      are numbered from `low` to below `high`. */
  ghost predicate SplitPlan(r: Rule, low: nat, high: nat, steps: seq<Step>) {
    && PlanFor(r, steps) && (forall k :: 0 <= k < |steps| ==> RuleFine(r, RuleOf(steps[k])))
    && (forall k :: 0 <= k < |steps| - 1 ==> NamedIn(low, high, steps[k].output.atom.symbol))
  }

  ghost predicate NamedIn(low: nat, high: nat, symbol: string) {
    exists n: nat :: low <= n < high && symbol == AuxName(n)
  }

  lemma CleanAvoids(r: Rule, steps: seq<Step>, low: nat, high: nat)
    requires CleanRule(r) && forall k :: 0 <= k < |steps| - 1 ==> NamedIn(low, high, steps[k].output.atom.symbol)
    ensures Avoids(AuxSymbols(steps), r)
  {
    forall x | x in AuxSymbols(steps) ensures !Clean(x) {
      var k :| 0 <= k < |steps| - 1 && steps[k].output.atom.symbol == x;
      assert NamedIn(low, high, x);
    }
  }

  lemma GreedyIsSplit(r: Rule, low: nat, high: nat, steps: seq<Step>)
    requires GreedyPlan(r, low, steps) && low + |steps| - 1 <= high && CleanRule(r)
    ensures SplitPlan(r, low, high, steps)
  {
    hide GoodStep, RuleFine, CleanRule, Avoids;
    forall k | 0 <= k < |steps| - 1 ensures NamedIn(low, high, steps[k].output.atom.symbol) {
      assert low <= low + k < high;
    }
    CleanAvoids(r, steps, low, high);
    forall j, k | 0 <= j < k < |steps| - 1 ensures steps[j].output.atom.symbol != steps[k].output.atom.symbol {
      if AuxName(low + j) == AuxName(low + k) { NamesDiffer(low + j, low + k); }
    }
    forall k | 0 <= k < |steps| ensures GoodStep(steps[k]) && RuleFine(r, RuleOf(steps[k])) { assert StepFine(r, steps, k); }
    forall k, i | 0 <= k < |steps| && 0 <= i < |steps[k].inputs|
      ensures IsOriginal(r, steps[k].inputs[i]) || IsEarlierOutput(steps, k, steps[k].inputs[i])
    {
      assert StepFine(r, steps, k);
      assert Provenance(r, steps, k, steps[k].inputs[i]);
    }
  }

  lemma CombinedIsSplit(r: Rule, low: nat, high: nat, steps: seq<Step>, nums: seq<nat>, last: Step)
    requires GroupSteps(r, low, high, steps, nums) && CleanRule(r) && GoodStep(last) && RuleFine(r, RuleOf(last))
    requires last.output == Node(r.effect, r.conditions)
    requires forall i :: 0 <= i < |last.inputs| ==> Provenance(r, steps, |steps|, last.inputs[i])
    ensures SplitPlan(r, low, high, steps + [last])
  {
    hide GoodStep, RuleFine, CleanRule, Avoids;
    var all := steps + [last];
    forall k | 0 <= k < |steps| ensures NamedIn(low, high, all[k].output.atom.symbol) {
      assert GroupStep(r, steps, k, low, high, nums[k]);
    }
    CleanAvoids(r, all, low, high);
    forall j, k | 0 <= j < k < |steps| ensures all[j].output.atom.symbol != all[k].output.atom.symbol {
      assert GroupStep(r, steps, j, low, high, nums[j]) && GroupStep(r, steps, k, low, high, nums[k]);
      if AuxName(nums[j]) == AuxName(nums[k]) { NamesDiffer(nums[j], nums[k]); }
    }
    forall k | 0 <= k < |all| ensures StepFine(r, all, k) {
      if k < |steps| {
        assert GroupStep(r, steps, k, low, high, nums[k]);
        KeepStep(r, steps, [last], k);
      } else {
        forall i | 0 <= i < |last.inputs| ensures Provenance(r, all, k, last.inputs[i]) {
          MoreProvenance(r, steps, all, |steps|, last.inputs[i]);
        }
      }
    }
    forall k | 0 <= k < |all| ensures GoodStep(all[k]) && RuleFine(r, RuleOf(all[k])) { assert StepFine(r, all, k); }
    forall k, i | 0 <= k < |all| && 0 <= i < |all[k].inputs|
      ensures IsOriginal(r, all[k].inputs[i]) || IsEarlierOutput(all, k, all[k].inputs[i])
    {
      assert StepFine(r, all, k);
      assert Provenance(r, all, k, all[k].inputs[i]);
    }
  }

  // ----- The algorithm -----

  /** Conditions with a variable, and conditions without. */
  method Divide(conditions: seq<SymAtom>) returns (important: seq<SymAtom>, trivial: seq<SymAtom>)
    ensures forall c :: c in conditions <==> c in important || c in trivial
    ensures multiset(important) + multiset(trivial) == multiset(conditions)
    ensures (forall c :: c in trivial ==> !HasVariables(c)) && forall c :: c in important ==> HasVariables(c)
  {
    important, trivial := [], [];
    hide HasVariables;
    for i := 0 to |conditions|
      invariant forall c :: c in conditions[..i] <==> c in important || c in trivial
      invariant multiset(important) + multiset(trivial) == multiset(conditions[..i])
      invariant (forall c :: c in trivial ==> !HasVariables(c)) && forall c :: c in important ==> HasVariables(c)
    {
      assert conditions[..i + 1] == conditions[..i] + [conditions[i]];
      if HasVariables(conditions[i]) {
        important := important + [conditions[i]];
      } else {
        trivial := trivial + [conditions[i]];
      }
    }
    assert conditions[..|conditions|] == conditions;
  }

  /** Repeated conditions do not matter for connectedness. */
  lemma ConnectedSame(a: seq<SymAtom>, b: seq<SymAtom>)
    requires Connected(b) && (forall c :: c in a <==> c in b) && forall c :: c in a ==> HasVariables(c)
    ensures Connected(a)
  {
    forall f: seq<bool> | |f| == |a| && Splits(f) ensures Crosses(a, f) {
      if exists i, k :: 0 <= i < |a| && 0 <= k < |a| && a[i] == a[k] && f[i] && !f[k] {
        var i, k :| 0 <= i < |a| && 0 <= k < |a| && a[i] == a[k] && f[i] && !f[k];
        assert a[i] in a;
        assert VarsOf(a[i].args) * VarsOf(a[k].args) == VarsOf(a[i].args);
        assert f[i] && !f[k] && Share(a[i], a[k]);
      } else {
        CrossThrough(a, b, f);
      }
    }
  }

  function LabelOf(a: seq<SymAtom>, f: seq<bool>, c: SymAtom): (l: bool)
    requires |f| == |a| && c in a
    ensures exists i :: 0 <= i < |a| && a[i] == c && f[i] == l
  {
    if a[0] == c then f[0] else LabelOf(a[1..], f[1..], c)
  }

  /** The labels `f` gives the members of `a`, listed along `b`. */
  ghost predicate Relabelled(a: seq<SymAtom>, b: seq<SymAtom>, f: seq<bool>, g: seq<bool>) {
    && |f| == |a| && |g| == |b|
    && forall i, k :: 0 <= i < |a| && 0 <= k < |b| && a[i] == b[k] ==> f[i] == g[k]
  }

  lemma Relabel(a: seq<SymAtom>, b: seq<SymAtom>, f: seq<bool>) returns (g: seq<bool>)
    requires (forall c :: c in b ==> c in a) && |f| == |a|
    requires forall i, k :: 0 <= i < |a| && 0 <= k < |a| && a[i] == a[k] && f[i] ==> f[k]
    ensures Relabelled(a, b, f, g)
  {
    forall k | 0 <= k < |b| ensures b[k] in a { assert b[k] in b; }
    g := seq(|b|, k requires 0 <= k < |b| => b[k] in a && LabelOf(a, f, b[k]));
    forall i, k | 0 <= i < |a| && 0 <= k < |b| && a[i] == b[k] ensures f[i] == g[k] {
      var p :| 0 <= p < |a| && a[p] == b[k] && f[p] == LabelOf(a, f, b[k]);
      assert f[p] == f[i];
    }
  }

  lemma CrossThrough(a: seq<SymAtom>, b: seq<SymAtom>, f: seq<bool>)
    requires Connected(b) && (forall c :: c in a <==> c in b) && |f| == |a| && Splits(f)
    requires forall i, k :: 0 <= i < |a| && 0 <= k < |a| && a[i] == a[k] && f[i] ==> f[k]
    ensures Crosses(a, f)
  {
    hide Share, VarsOf, LabelOf;
    var g := Relabel(a, b, f);
    var i :| 0 <= i < |f| && f[i];
    var j :| 0 <= j < |f| && !f[j];
    assert a[i] in a && a[j] in a;
    var k :| 0 <= k < |b| && b[k] == a[i];
    var l :| 0 <= l < |b| && b[l] == a[j];
    assert g[k] && !g[l];
    assert Crosses(b, g);
    var x, y :| 0 <= x < |b| && 0 <= y < |b| && g[x] && !g[y] && Share(b[x], b[y]);
    assert b[x] in b && b[y] in b;
    var p :| 0 <= p < |a| && a[p] == b[x];
    var q :| 0 <= q < |a| && a[q] == b[y];
    assert f[p] && !f[q] && Share(a[p], a[q]);
  }

  lemma OneGroupConnected(r: Rule, important: seq<SymAtom>, groups: seq<seq<SymAtom>>)
    requires Division(r, important, [], groups) && |groups| == 1
    ensures Connected(r.conditions)
  {
    forall c ensures c in r.conditions <==> c in groups[0] {
      if c in important {
        var i :| 0 <= i < |groups| && c in groups[i];
      }
    }
    ConnectedSame(r.conditions, groups[0]);
  }

  /** The rules of the groups before any is made binary. */
  ghost predicate ProjectedRules(r: Rule, low: nat, groups: seq<seq<SymAtom>>, qs: seq<Rule>) {
    && |qs| <= |groups|
    && (forall i :: 0 <= i < |qs| ==> ProjectedRule(r, low + i, groups[i], qs[i]))
  }

  ghost predicate ProjectedRule(r: Rule, num: nat, group: seq<SymAtom>, q: Rule) {
    && q.effect.symbol == AuxName(num) && q.conditions == group && NormalizedRule(q) && NumberFree(q)
    && VarsOf(q.effect.args) == VarsOf(r.effect.args) * Variables(group)
  }

  lemma GroupWithin(r: Rule, important: seq<SymAtom>, trivial: seq<SymAtom>, groups: seq<seq<SymAtom>>, i: nat)
    requires Division(r, important, trivial, groups) && i < |groups|
    ensures groups[i] != [] && Connected(groups[i]) && Distinct(groups[i])
    ensures forall c :: c in groups[i] ==> c in r.conditions
  {
    forall c | c in groups[i] ensures c in r.conditions { assert c in important; }
  }

  method ProjectGroups(r: Rule, ghost important: seq<SymAtom>, ghost trivial: seq<SymAtom>, groups: seq<seq<SymAtom>>,
      names: NameGenerator) returns (qs: seq<Rule>)
    requires NormalizedRule(r) && NumberFree(r) && Division(r, important, trivial, groups)
    modifies names
    ensures ProjectedRules(r, old(names.count), groups, qs) && |qs| == |groups|
    ensures names.count == old(names.count) + |groups|
  {
    qs := [];
    hide NormalizedRule, NumberFree, Division, Connected;
    for i := 0 to |groups|
      invariant |qs| == i && ProjectedRules(r, old(names.count), groups, qs) && names.count == old(names.count) + i
    {
      GroupWithin(r, important, trivial, groups, i);
      var q := MakeProjectedRule(r, groups[i], names);
      qs := qs + [q];
    }
  }

  /** The nodes of the groups that are finished. */
  ghost predicate GroupsDone(r: Rule, groups: seq<seq<SymAtom>>, qs: seq<Rule>, steps: seq<Step>, nodes: seq<Node>) {
    && |nodes| <= |groups| && |groups| == |qs|
    && (forall j :: 0 <= j < |nodes| ==>
          GroupNode(r, groups[j], nodes[j]) && nodes[j].atom == qs[j].effect && IsEarlierOutput(steps, |steps|, nodes[j]))
  }

  /** Numbers below `low + i` name finished groups; from `low + n` on, they name steps. */
  predicate NumbersOk(nums: seq<nat>, low: nat, i: nat, n: nat) {
    forall k :: 0 <= k < |nums| ==> nums[k] < low + i || nums[k] >= low + n
  }

  lemma GroupFinished(r: Rule, groups: seq<seq<SymAtom>>, qs: seq<Rule>, before: seq<Step>, nodes: seq<Node>,
      low: nat, base: nat, steps: seq<Step>)
    requires GroupsDone(r, groups, qs, before, nodes) && |nodes| < |groups|
    requires ProjectedRules(r, low, groups, qs) && NormalizedRule(r) && NumberFree(r)
    requires GreedyPlan(qs[|nodes|], base, steps)
    ensures GroupsDone(r, groups, qs, before + steps, nodes + [steps[|steps| - 1].output])
  {
    var i, n, all := |nodes|, steps[|steps| - 1].output, before + steps;
    assert ProjectedRule(r, low + i, groups[i], qs[i]);
    assert all[|before| + |steps| - 1].output == n;
    forall j | 0 <= j < i ensures IsEarlierOutput(all, |all|, nodes[j]) {
      var k :| 0 <= k < |before| && before[k].output == nodes[j];
      assert all[k].output == nodes[j];
    }
  }

  lemma NumbersStep(nums: seq<nat>, low: nat, i: nat, n: nat, base: nat, size: nat)
    requires NumbersOk(nums, low, i, n) && i < n && base >= low + n
    ensures NumbersOk(nums + GroupNumbers(base, size, low + i), low, i + 1, n)
    ensures low + i !in nums
  {
  }

  /** The state after `i` groups. */
  ghost predicate Splitting(r: Rule, low: nat, groups: seq<seq<SymAtom>>, qs: seq<Rule>, i: nat, count: nat,
      result: seq<Rule>, steps: seq<Step>, nums: seq<nat>, nodes: seq<Node>)
  {
    && result == RulesOf(steps) && GroupSteps(r, low, count, steps, nums) && count >= low + |groups|
    && GroupsDone(r, groups, qs, steps, nodes) && |nodes| == i && NumbersOk(nums, low, i, |groups|)
  }

  lemma ProjectedShares(r: Rule, low: nat, groups: seq<seq<SymAtom>>, qs: seq<Rule>, i: nat)
    requires ProjectedRules(r, low, groups, qs) && i < |qs| && i < |groups|
    requires Distinct(groups[i]) && forall c :: c in groups[i] ==> c in r.conditions
    ensures SharedInEffect(r) ==> SharedInEffect(qs[i])
    ensures qs[i].effect.symbol == AuxName(low + i) && qs[i].conditions == groups[i]
  {
    assert ProjectedRule(r, low + i, groups[i], qs[i]);
    if SharedInEffect(r) { GroupShared(r, qs[i]); }
  }

  /** One more group. */
  lemma SplitOneMore(r: Rule, low: nat, groups: seq<seq<SymAtom>>, qs: seq<Rule>, i: nat, base: nat, count: nat,
      result: seq<Rule>, steps: seq<Step>, nums: seq<nat>, nodes: seq<Node>, rules: seq<Rule>, st: seq<Step>)
    requires Splitting(r, low, groups, qs, i, base, result, steps, nums, nodes) && i < |groups|
    requires ProjectedRules(r, low, groups, qs) && |qs| == |groups| && NormalizedRule(r) && NumberFree(r)
    requires Distinct(groups[i]) && forall c :: c in groups[i] ==> c in r.conditions
    requires rules == RulesOf(st) && GreedyPlan(qs[i], base, st) && base + |st| - 1 <= count
    ensures st != [] && base <= count
    ensures Splitting(r, low, groups, qs, i + 1, count, result + rules, steps + st,
      nums + GroupNumbers(base, |st|, low + i), nodes + [st[|st| - 1].output])
  {
    hide NormalizedRule, NumberFree, GreedyPlan, GroupSteps, GroupsDone, SharedInEffect, NumbersOk, ProjectedRules;
    PlanNonempty(qs[i], base, st);
    ProjectedShares(r, low, groups, qs, i);
    NumbersStep(nums, low, i, |groups|, base, |st|);
    AddGroup(r, qs[i], low, base, count, low + i, steps, nums, st);
    GroupFinished(r, groups, qs, steps, nodes, low, base, st);
    assert result + rules == RulesOf(steps + st);
  }

  lemma ProjectedFits(r: Rule, low: nat, groups: seq<seq<SymAtom>>, qs: seq<Rule>, i: nat)
    requires ProjectedRules(r, low, groups, qs) && i < |qs|
    ensures NormalizedRule(qs[i]) && NumberFree(qs[i]) && qs[i].conditions == groups[i]
  {
    assert ProjectedRule(r, low + i, groups[i], qs[i]);
  }

  /** Make the rules of the groups binary. */
  method SplitGroups(r: Rule, ghost important: seq<SymAtom>, ghost trivial: seq<SymAtom>, groups: seq<seq<SymAtom>>,
      qs: seq<Rule>, ghost low: nat, names: NameGenerator)
      returns (result: seq<Rule>, ghost steps: seq<Step>, ghost nums: seq<nat>, ghost nodes: seq<Node>)
    requires NormalizedRule(r) && NumberFree(r) && Division(r, important, trivial, groups)
    requires ProjectedRules(r, low, groups, qs) && |qs| == |groups| && names.count == low + |groups|
    modifies names
    ensures Splitting(r, low, groups, qs, |groups|, names.count, result, steps, nums, nodes)
  {
    result, steps, nums, nodes := [], [], [], [];
    assert Splitting(r, low, groups, qs, 0, names.count, result, steps, nums, nodes) by { NothingDone(r, groups, qs); }
    hide NormalizedRule, NumberFree, Division, Connected, GreedyPlan, ProjectedRules, Splitting;
    for i := 0 to |groups|
      invariant Splitting(r, low, groups, qs, i, names.count, result, steps, nums, nodes)
    {
      GroupWithin(r, important, trivial, groups, i);
      ProjectedFits(r, low, groups, qs, i);
      ghost var base := names.count;
      var rules, st := SplitIntoBinaryRules(qs[i], names);
      SplitOneMore(r, low, groups, qs, i, base, names.count, result, steps, nums, nodes, rules, st);
      result := result + rules;
      nodes := nodes + [st[|st| - 1].output];
      nums := nums + GroupNumbers(base, |st|, low + i);
      steps := steps + st;
    }
  }

  lemma PlanNonempty(r: Rule, base: nat, steps: seq<Step>)
    requires GreedyPlan(r, base, steps)
    ensures steps != []
  {
  }

  lemma NothingDone(r: Rule, groups: seq<seq<SymAtom>>, qs: seq<Rule>)
    requires |groups| == |qs|
    ensures GroupsDone(r, groups, qs, [], [])
  {
  }

  function TrivialNodes(trivial: seq<SymAtom>): (r: seq<Node>)
    ensures |r| == |trivial| && forall k :: 0 <= k < |r| ==> r[k] == Node(trivial[k], [trivial[k]])
  {
    seq(|trivial|, k requires 0 <= k < |trivial| => Node(trivial[k], [trivial[k]]))
  }

  function Effects(qs: seq<Rule>): (r: seq<SymAtom>)
    ensures |r| == |qs| && forall i :: 0 <= i < |r| ==> r[i] == qs[i].effect
  {
    seq(|qs|, i requires 0 <= i < |qs| => qs[i].effect)
  }

  /** The combining rule and its step. */
  lemma Combine(r: Rule, important: seq<SymAtom>, trivial: seq<SymAtom>, groups: seq<seq<SymAtom>>, qs: seq<Rule>,
      steps: seq<Step>, nodes: seq<Node>) returns (last: Step)
    requires NormalizedRule(r) && NumberFree(r) && Division(r, important, trivial, groups)
    requires GroupsDone(r, groups, qs, steps, nodes) && |nodes| == |groups|
    ensures last.output == Node(r.effect, r.conditions) && GoodStep(last) && RuleFine(r, RuleOf(last))
    ensures forall i :: 0 <= i < |last.inputs| ==> Provenance(r, steps, |steps|, last.inputs[i])
    ensures Atoms(last.inputs) == Effects(qs) + trivial
    ensures last.kind == if |groups| + |trivial| >= 2 then Product else Project
  {
    var all := nodes + TrivialNodes(trivial);
    var kind := if |all| >= 2 then Product else Project;
    last := Step(kind, all, Node(r.effect, r.conditions));
    NodesCombined(r, trivial, groups, qs, steps, nodes);
    NodesProvenance(r, important, trivial, groups, qs, steps, nodes);
    hide NormalizedRule, NumberFree, Division, GroupsDone, CombinedNodes, GoodStep, RuleFine, Provenance, Provenances;
    CombinedGood(r, important, trivial, groups, all, kind);
    CombinedFine(r, important, trivial, groups, all);
    ProvenancesAll(r, steps, all);
  }

  lemma ProvenancesAll(r: Rule, steps: seq<Step>, nodes: seq<Node>)
    requires Provenances(r, steps, nodes)
    ensures forall i :: 0 <= i < |nodes| ==> Provenance(r, steps, |steps|, nodes[i])
  {
  }

  lemma NodesCombined(r: Rule, trivial: seq<SymAtom>, groups: seq<seq<SymAtom>>, qs: seq<Rule>, steps: seq<Step>,
      nodes: seq<Node>)
    requires GroupsDone(r, groups, qs, steps, nodes) && |nodes| == |groups|
    ensures CombinedNodes(r, groups, trivial, nodes + TrivialNodes(trivial))
    ensures Atoms(nodes + TrivialNodes(trivial)) == Effects(qs) + trivial
  {
    hide GroupNode, IsEarlierOutput;
    var all := nodes + TrivialNodes(trivial);
    forall i | 0 <= i < |groups| ensures GroupNode(r, groups[i], all[i]) { assert all[i] == nodes[i]; }
    assert Atoms(all) == Effects(qs) + trivial;
  }

  lemma NodesProvenance(r: Rule, important: seq<SymAtom>, trivial: seq<SymAtom>, groups: seq<seq<SymAtom>>,
      qs: seq<Rule>,
      steps: seq<Step>, nodes: seq<Node>)
    requires Division(r, important, trivial, groups) && GroupsDone(r, groups, qs, steps, nodes) && |nodes| == |groups|
    ensures Provenances(r, steps, nodes + TrivialNodes(trivial))
  {
    hide GroupNode, Grouping, HasVariables;
    var all := nodes + TrivialNodes(trivial);
    forall i | 0 <= i < |all| ensures Provenance(r, steps, |steps|, all[i]) {
      if i < |nodes| {
        assert IsEarlierOutput(steps, |steps|, nodes[i]);
      } else {
        var c := trivial[i - |nodes|];
        assert c in trivial;
        assert all[i] == Node(c, [c]) && IsOriginal(r, all[i]);
      }
    }
  }

  /** How a rule was split: its conditions with variables, the others, the connected groups
      of the former, and a rule for each group. */
  datatype Parts = Parts(important: seq<SymAtom>, trivial: seq<SymAtom>, groups: seq<seq<SymAtom>>, qs: seq<Rule>)

  /** A rule of one connected group is only made binary; otherwise every group has its rule,
      and the last rule combines their effects with the conditions without variables. */
  ghost predicate SplitShape(r: Rule, low: nat, d: Parts, steps: seq<Step>) {
    && Division(r, d.important, d.trivial, d.groups)
    && if |d.groups| == 1 && d.trivial == [] then GreedyPlan(r, low, steps)
       else
         && ProjectedRules(r, low, d.groups, d.qs) && |d.qs| == |d.groups| && steps != []
         && RuleOf(steps[|steps| - 1]) ==
            Rule(if |d.groups| + |d.trivial| >= 2 then Product else Project, r.effect, Effects(d.qs) + d.trivial)
  }

  /** split_rule */
  method SplitRule(r: Rule, names: NameGenerator) returns (result: seq<Rule>, ghost steps: seq<Step>, ghost d: Parts)
    requires NormalizedRule(r) && NumberFree(r) && CleanRule(r)
    modifies names
    ensures SplitShape(r, old(names.count), d, steps)
    ensures result == RulesOf(steps) && SplitPlan(r, old(names.count), names.count, steps)
    ensures old(names.count) <= names.count
  {
    ghost var low := names.count;
    hide NormalizedRule, NumberFree, CleanRule, Connected, Grouping, GreedyPlan, SplitPlan, ProjectedRules, Splitting,
      HasVariables;
    var important, trivial := Divide(r.conditions);
    var groups := GetConnectedConditions(important);
    assert Division(r, important, trivial, groups);
    hide Division;
    if |groups| == 1 && trivial == [] {
      OneGroupConnected(r, important, groups);
      result, steps := SplitIntoBinaryRules(r, names);
      PlanNonempty(r, low, steps);
      GreedyIsSplit(r, low, names.count, steps);
      d := Parts(important, trivial, groups, []);
      return;
    }
    var qs := ProjectGroups(r, important, trivial, groups, names);
    ghost var nums, nodes;
    result, steps, nums, nodes := SplitGroups(r, important, trivial, groups, qs, low, names);
    var conditions := Effects(qs) + trivial;
    var combining := Rule(if |conditions| >= 2 then Product else Project, r.effect, conditions);
    ghost var last := CombineAll(r, important, trivial, groups, qs, low, names.count, result, steps, nums, nodes);
    result, steps := result + [combining], steps + [last];
    d := Parts(important, trivial, groups, qs);
    assert RuleOf(steps[|steps| - 1]) == combining by {
      assert RulesOf(steps)[|steps| - 1] == RuleOf(steps[|steps| - 1]);
      assert result[|result| - 1] == combining;
    }
  }

  lemma CombineAll(r: Rule, important: seq<SymAtom>, trivial: seq<SymAtom>, groups: seq<seq<SymAtom>>, qs: seq<Rule>,
      low: nat, count: nat, result: seq<Rule>, steps: seq<Step>, nums: seq<nat>, nodes: seq<Node>) returns (last: Step)
    requires NormalizedRule(r) && NumberFree(r) && CleanRule(r) && Division(r, important, trivial, groups)
    requires |qs| == |groups|
    requires Splitting(r, low, groups, qs, |groups|, count, result, steps, nums, nodes)
    ensures var conditions := Effects(qs) + trivial;
      result + [Rule(if |conditions| >= 2 then Product else Project, r.effect, conditions)] == RulesOf(steps + [last])
    ensures SplitPlan(r, low, count, steps + [last]) && low <= count
  {
    hide NormalizedRule, NumberFree, CleanRule, Division, GroupsDone, GroupSteps, SplitPlan, GoodStep, RuleFine,
      Provenance,
      NumbersOk;
    last := Combine(r, important, trivial, groups, qs, steps, nodes);
    CombinedIsSplit(r, low, count, steps, nums, last);
    var conditions := Effects(qs) + trivial;
    assert RuleOf(last) == Rule(if |conditions| >= 2 then Product else Project, r.effect, conditions);
    assert result + [RuleOf(last)] == RulesOf(steps + [last]);
  }
}
