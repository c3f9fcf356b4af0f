/**
  Splitting an n-ary join into binary joins (greedy_join.py:71-112).  Repeatedly the
  cheapest pair is joined; variables needed by nothing else are projected away
  before or by the join.  For connected conditions every emitted rule passes its
  validation, and the rules form a plan for the original one.
 */
module GreedyJoin {
  import opened Wrappers
  import opened Datalog
  import opened JoinCosts
  import opened Occurrences
  import opened RuleValidation
  import opened ConservativeExtension

  /** Every variable that two conditions share occurs in the effect. */
  predicate SharedInEffect(r: Rule) {
    forall i, j :: 0 <= i < |r.conditions| && 0 <= j < |r.conditions| && i != j ==>
      VarsOf(r.conditions[i].args) * VarsOf(r.conditions[j].args) <= VarsOf(r.effect.args)
  }

  // ----- The joinees -----

  /** The atom is well formed and keeps what its part shares with the effect. */
  ghost predicate NodeShape(r: Rule, n: Node) {
    Covered(n) && DistinctVariables(n.atom.args) && NoNumbers(n.atom.args) && Retains(n, [r.effect])
  }

  ghost predicate Provenance(r: Rule, steps: seq<Step>, k: nat, n: Node) {
    IsOriginal(r, n) || IsEarlierOutput(steps, k, n)
  }

  ghost predicate SharedOk(r: Rule, a: Node, b: Node) {
    SharedInEffect(r) ==> Variables(a.parts) * Variables(b.parts) <= VarsOf(r.effect.args)
  }

  /** The joinees partition the conditions and keep the variables they share. */
  ghost predicate NodesOk(r: Rule, nodes: seq<Node>) {
    && (forall i :: 0 <= i < |nodes| ==> NodeShape(r, nodes[i]))
    && (forall i, j :: 0 <= i < |nodes| && 0 <= j < |nodes| && i != j ==> Apart(r, nodes[i], nodes[j]))
    && (forall c :: c in r.conditions <==> InSomeInput(nodes, c))
  }

  /** `a` keeps what its part shares with the part of `b`. */
  ghost predicate Apart(r: Rule, a: Node, b: Node) {
    Retains(a, b.parts) && SharedOk(r, a, b)
  }

  /** An emitted rule that passes its validation. */
  ghost predicate RuleFine(r: Rule, q: Rule) {
    NormalizedRule(q) && NumberFree(q) && Validates(q) && (SharedInEffect(r) ==> CommonInEffect(q))
  }

  ghost predicate StepFine(r: Rule, steps: seq<Step>, k: nat)
    requires k < |steps|
  {
    && GoodStep(steps[k]) && RuleFine(r, RuleOf(steps[k]))
    && (forall i :: 0 <= i < |steps[k].inputs| ==> Provenance(r, steps, k, steps[k].inputs[i]))
  }

  /** The emitted steps; step `k` introduces the name with number `base + k`. */
  ghost predicate StepsFine(r: Rule, base: nat, steps: seq<Step>) {
    forall k :: 0 <= k < |steps| ==> StepFine(r, steps, k) && steps[k].output.atom.symbol == AuxName(base + k)
  }

  lemma MoreProvenance(r: Rule, steps: seq<Step>, more: seq<Step>, k: nat, n: Node)
    requires Provenance(r, steps, k, n) && k <= |steps| && steps <= more
    ensures Provenance(r, more, k, n)
  {
    if !IsOriginal(r, n) {
      var j :| 0 <= j < k && j < |steps| && steps[j].output == n;
      assert more[j].output == n;
    }
  }

  lemma StepsAppend(r: Rule, base: nat, steps: seq<Step>, s: Step)
    requires StepsFine(r, base, steps) && GoodStep(s) && RuleFine(r, RuleOf(s))
    requires s.output.atom.symbol == AuxName(base + |steps|)
    requires forall i :: 0 <= i < |s.inputs| ==> Provenance(r, steps, |steps|, s.inputs[i])
    ensures StepsFine(r, base, steps + [s])
  {
    hide GoodStep, RuleFine, Provenance;
    var more := steps + [s];
    forall k | 0 <= k < |more| ensures StepFine(r, more, k) {
      if k < |steps| {
        StepFineMore(r, steps, more, k);
      } else {
        forall i | 0 <= i < |s.inputs| ensures Provenance(r, more, k, s.inputs[i]) {
          MoreProvenance(r, steps, more, |steps|, s.inputs[i]);
        }
      }
    }
  }

  lemma StepFineMore(r: Rule, steps: seq<Step>, more: seq<Step>, k: nat)
    requires k < |steps| && StepFine(r, steps, k) && steps <= more
    ensures StepFine(r, more, k)
  {
    hide GoodStep, RuleFine, Provenance;
    forall i | 0 <= i < |more[k].inputs| ensures Provenance(r, more, k, more[k].inputs[i]) {
      MoreProvenance(r, steps, more, k, steps[k].inputs[i]);
    }
  }

  lemma OutputProvenance(r: Rule, steps: seq<Step>, s: Step)
    ensures Provenance(r, steps + [s], |steps| + 1, s.output)
  {
    assert (steps + [s])[|steps|].output == s.output;
  }

  // ----- Projecting one joinee -----

  function ArgSet(args: seq<Arg>): set<Arg> {
    set a | a in args
  }

  /** The joinee, with only the arguments in `retained`. */
  function Projected(n: Node, name: string, retained: seq<Arg>): Node {
    Node(SymAtom(name, retained), n.parts)
  }

  /** Variables that a joinee shares with others or with the effect survive the projection. */
  lemma ProjectionShape(r: Rule, n: Node, q: Node, keep: set<Arg>)
    requires NodeShape(r, n) && q.parts == n.parts && NoNumbers(q.atom.args) && DistinctVariables(q.atom.args)
    requires VarsOf(q.atom.args) == VarsOf(n.atom.args) * keep
    requires VarsOf(n.atom.args) * VarsOf(r.effect.args) <= keep
    ensures NodeShape(r, q)
    ensures forall other: seq<SymAtom> :: Retains(n, other) && VarsOf(n.atom.args) * Variables(other) <= keep ==> Retains(q, other)
  {
    assert Variables([r.effect]) == VarsOf(r.effect.args) by {
      forall a ensures a in Variables([r.effect]) <==> a in VarsOf(r.effect.args) {
        if a in VarsOf(r.effect.args) { assert [r.effect][0] == r.effect; }
      }
    }
  }

  lemma ProjectStepGood(n: Node, q: Node)
    requires Covered(n) && q.parts == n.parts && VarsOf(q.atom.args) <= VarsOf(n.atom.args)
    ensures GoodStep(Step(Project, [n], q))
  {
    forall c ensures c in q.parts <==> InSomeInput([n], c) {
      if c in q.parts { assert c in [n][0].parts; }
    }
    forall a | a in VarsOf(q.atom.args) ensures a in Variables(Atoms([n])) {
      assert Atoms([n])[0] == n.atom;
    }
  }

  lemma ProjectRuleFine(r: Rule, n: Node, q: Node)
    requires DistinctVariables(n.atom.args) && NoNumbers(n.atom.args) && DistinctVariables(q.atom.args)
    requires NoNumbers(q.atom.args)
    requires VarsOf(q.atom.args) <= VarsOf(n.atom.args)
    ensures RuleFine(r, RuleOf(Step(Project, [n], q)))
  {
    var rule := RuleOf(Step(Project, [n], q));
    forall a | a in VarsOf(q.atom.args) ensures a in Variables(rule.conditions) {
      assert rule.conditions[0] == n.atom;
    }
  }

  // ----- Joining two joinees -----

  /** The two joinees before (`a`, `b`) and after (`p`, `q`) projection, and their join. */
  ghost predicate PairState(r: Rule, a: Node, b: Node, p: Node, q: Node, eff: set<Arg>) {
    && NodeShape(r, a) && NodeShape(r, b) && NodeShape(r, p) && NodeShape(r, q)
    && p.parts == a.parts && q.parts == b.parts
    && (var keep := eff + VarsOf(a.atom.args) * VarsOf(b.atom.args);
        VarsOf(p.atom.args) == VarsOf(a.atom.args) * keep && VarsOf(q.atom.args) == VarsOf(b.atom.args) * keep)
    && eff <= VarsOf(a.atom.args) + VarsOf(b.atom.args)
    && (VarsOf(a.atom.args) + VarsOf(b.atom.args)) * VarsOf(r.effect.args) <= eff
    && Share(a.atom, b.atom)
    && Retains(a, b.parts) && Retains(b, a.parts) && SharedOk(r, a, b)
  }

  lemma PairVariables(p: SymAtom, q: SymAtom)
    ensures Variables([p, q]) == VarsOf(p.args) + VarsOf(q.args)
  {
    var ts := [p, q];
    assert ts[0] == p && ts[1] == q;
    forall x ensures x in Variables(ts) <==> x in VarsOf(p.args) + VarsOf(q.args) {
      if x in VarsOf(p.args) { assert x in VarsOf(ts[0].args); }
      if x in VarsOf(q.args) { assert x in VarsOf(ts[1].args); }
    }
  }

  lemma PartsVariables(a: seq<SymAtom>, b: seq<SymAtom>)
    ensures Variables(a + b) == Variables(a) + Variables(b)
  {
    var c := a + b;
    forall x ensures x in Variables(c) <==> x in Variables(a) || x in Variables(b) {
      if x in Variables(a) {
        var i :| 0 <= i < |a| && x in VarsOf(a[i].args);
        assert x in VarsOf(c[i].args);
      }
      if x in Variables(b) {
        var i :| 0 <= i < |b| && x in VarsOf(b[i].args);
        assert x in VarsOf(c[|a| + i].args);
      }
      if x in Variables(c) {
        var i :| 0 <= i < |c| && x in VarsOf(c[i].args);
        if i < |a| { assert x in VarsOf(a[i].args); } else { assert x in VarsOf(b[i - |a|].args); }
      }
    }
  }

  lemma JoinSets<T>(av: set<T>, bv: set<T>, eff: set<T>, pv: set<T>, qv: set<T>)
    requires eff <= av + bv && pv == av * (eff + av * bv) && qv == bv * (eff + av * bv)
    ensures pv * qv == av * bv && pv + qv == pv * qv + eff && eff <= pv + qv
  {
  }

  lemma PairInputs(p: Node, q: Node)
    ensures forall c :: c in p.parts + q.parts <==> InSomeInput([p, q], c)
    ensures Atoms([p, q]) == [p.atom, q.atom]
  {
    forall c ensures c in p.parts + q.parts <==> InSomeInput([p, q], c) {
      if c in p.parts { assert c in [p, q][0].parts; }
      if c in q.parts { assert c in [p, q][1].parts; }
    }
  }

  lemma PairRetains(r: Rule, a: Node, b: Node, p: Node, q: Node, eff: set<Arg>)
    requires PairState(r, a, b, p, q, eff)
    ensures Retains(p, q.parts) && Retains(q, p.parts)
  {
    var av, bv, x := VarsOf(a.atom.args), VarsOf(b.atom.args), Variables(a.parts) * Variables(b.parts);
    assert x <= av && x <= bv;
    assert Variables(b.parts) * Variables(a.parts) == x;
    hide NodeShape, Variables, VarsOf;
    assert av * bv <= VarsOf(p.atom.args) && av * bv <= VarsOf(q.atom.args);
  }

  lemma BinaryStepGood(p: Node, q: Node, joint: SymAtom)
    requires Covered(p) && Covered(q) && Retains(p, q.parts) && Retains(q, p.parts)
    requires VarsOf(joint.args) <= VarsOf(p.atom.args) + VarsOf(q.atom.args)
    ensures GoodStep(Step(Join, [p, q], Node(joint, p.parts + q.parts)))
  {
    PairVariables(p.atom, q.atom);
    PairInputs(p, q);
    var inputs := [p, q];
    hide VarsOf, Variables, Covered, Retains, InSomeInput;
    forall i | 0 <= i < 2 ensures Covered(inputs[i]) {}
    forall i, j | 0 <= i < 2 && 0 <= j < 2 && i != j ensures Retains(inputs[i], inputs[j].parts) {
      if i == 0 { assert inputs[i] == p && inputs[j] == q; } else { assert inputs[i] == q && inputs[j] == p; }
    }
  }

  lemma JoinStepGood(r: Rule, a: Node, b: Node, p: Node, q: Node, eff: set<Arg>, joint: SymAtom)
    requires PairState(r, a, b, p, q, eff) && VarsOf(joint.args) == eff
    ensures GoodStep(Step(Join, [p, q], Node(joint, p.parts + q.parts)))
  {
    PairRetains(r, a, b, p, q, eff);
    JoinSets(VarsOf(a.atom.args), VarsOf(b.atom.args), eff, VarsOf(p.atom.args), VarsOf(q.atom.args));
    hide VarsOf, Variables, Retains, Covered, GoodStep, Share;
    BinaryStepGood(p, q, joint);
  }

  lemma BinaryRuleFine(p: SymAtom, q: SymAtom, joint: SymAtom)
    requires DistinctVariables(p.args) && DistinctVariables(q.args) && DistinctVariables(joint.args)
    requires NoNumbers(p.args) && NoNumbers(q.args) && NoNumbers(joint.args)
    requires var pv, qv := VarsOf(p.args), VarsOf(q.args);
      pv * qv != {} && pv + qv == pv * qv + VarsOf(joint.args)
    ensures var rule := Rule(Join, joint, [p, q]);
      NormalizedRule(rule) && NumberFree(rule) && Validates(rule)
  {
    PairVariables(p, q);
    hide VarsOf, Variables, DistinctVariables, NoNumbers;
    var rule := Rule(Join, joint, [p, q]);
    forall i | 0 <= i < 2 ensures DistinctVariables(rule.conditions[i].args) && NoNumbers(rule.conditions[i].args) {}
  }

  /** The assertions of the join rule hold: the conditions share a variable, and what
      they do not share occurs in the effect. */
  lemma JoinRuleFine(r: Rule, a: Node, b: Node, p: Node, q: Node, eff: set<Arg>, joint: SymAtom)
    requires PairState(r, a, b, p, q, eff) && VarsOf(joint.args) == eff
    requires DistinctVariables(joint.args) && NoNumbers(joint.args)
    ensures RuleFine(r, RuleOf(Step(Join, [p, q], Node(joint, p.parts + q.parts))))
  {
    PairInputs(p, q);
    JoinSets(VarsOf(a.atom.args), VarsOf(b.atom.args), eff, VarsOf(p.atom.args), VarsOf(q.atom.args));
    PairCommon(r, a, b, p, q, eff);
    hide VarsOf, Variables, Retains, SharedInEffect, Covered, Share, NormalizedRule, NumberFree, Validates;
    BinaryRuleFine(p.atom, q.atom, joint);
  }

  lemma PairCommon(r: Rule, a: Node, b: Node, p: Node, q: Node, eff: set<Arg>)
    requires PairState(r, a, b, p, q, eff)
    ensures VarsOf(p.atom.args) * VarsOf(q.atom.args) != {}
    ensures SharedInEffect(r) ==> VarsOf(p.atom.args) * VarsOf(q.atom.args) <= eff
  {
    var av, bv := VarsOf(a.atom.args), VarsOf(b.atom.args);
    JoinSets(av, bv, eff, VarsOf(p.atom.args), VarsOf(q.atom.args));
    hide SharedInEffect, VarsOf, Variables;
    assert Covered(a) && Covered(b);
    if SharedInEffect(r) {
      assert av * bv <= Variables(a.parts) * Variables(b.parts);
      assert av * bv <= (av + bv) * VarsOf(r.effect.args);
    }
  }

  lemma JoinNodeShape(r: Rule, a: Node, b: Node, p: Node, q: Node, eff: set<Arg>, joint: SymAtom)
    requires PairState(r, a, b, p, q, eff) && VarsOf(joint.args) == eff
    requires DistinctVariables(joint.args) && NoNumbers(joint.args)
    ensures NodeShape(r, Node(joint, p.parts + q.parts))
  {
    PartsVariables(p.parts, q.parts);
    EffectVariables(r);
  }

  lemma EffectVariables(r: Rule)
    ensures Variables([r.effect]) == VarsOf(r.effect.args)
  {
    forall a ensures a in Variables([r.effect]) <==> a in VarsOf(r.effect.args) {
      if a in VarsOf(r.effect.args) { assert [r.effect][0] == r.effect; }
    }
  }

  // ----- Replacing the pair by its join -----

  /** The variables of the pair that the effect or another joinee needs. */
  ghost predicate EffectVarsOf(r: Rule, js: seq<SymAtom>, l: nat, i: nat, eff: set<Arg>)
    requires i < l < |js|
  {
    eff == (VarsOf(js[l].args) + VarsOf(js[i].args)) * (VarsOf(r.effect.args) + Variables(WithoutTwo(js, l, i)))
  }

  lemma AtomsWithoutTwo(nodes: seq<Node>, l: nat, i: nat)
    requires i < l < |nodes|
    ensures Atoms(WithoutTwo(nodes, l, i)) == WithoutTwo(Atoms(nodes), l, i)
  {
  }

  /** A joinee outside the pair keeps what it shares with the join, and conversely. */
  lemma ApartFromJoint(r: Rule, a: Node, b: Node, k: Node, n: Node, eff: set<Arg>)
    requires Apart(r, a, k) && Apart(r, k, a) && Apart(r, b, k) && Apart(r, k, b)
    requires n.parts == a.parts + b.parts && VarsOf(n.atom.args) == eff
    requires (VarsOf(a.atom.args) + VarsOf(b.atom.args)) * VarsOf(k.atom.args) <= eff
    ensures Apart(r, n, k) && Apart(r, k, n)
  {
    PartsVariables(a.parts, b.parts);
    hide VarsOf, Variables, SharedInEffect;
    var av, bv, kv := Variables(a.parts), Variables(b.parts), Variables(k.parts);
    assert av * kv == kv * av && bv * kv == kv * bv;
    assert (av + bv) * kv == av * kv + bv * kv;
    assert kv * (av + bv) == (av + bv) * kv;
  }

  lemma OtherVariables(r: Rule, js: seq<SymAtom>, l: nat, i: nat, eff: set<Arg>, k: nat)
    requires i < l < |js| && EffectVarsOf(r, js, l, i, eff) && k < |js| && k != l && k != i
    ensures (VarsOf(js[l].args) + VarsOf(js[i].args)) * VarsOf(js[k].args) <= eff
  {
    var rest := WithoutTwo(js, l, i);
    var o := if k < i then k else if k < l then k - 1 else k - 2;
    assert rest[o] == js[k];
    assert VarsOf(rest[o].args) <= Variables(rest);
  }

  lemma NodesAfter(r: Rule, nodes: seq<Node>, l: nat, i: nat, n: Node, eff: set<Arg>)
    requires NodesOk(r, nodes) && i < l < |nodes| && EffectVarsOf(r, Atoms(nodes), l, i, eff)
    requires NodeShape(r, n) && n.parts == nodes[l].parts + nodes[i].parts && VarsOf(n.atom.args) == eff
    ensures NodesOk(r, WithoutTwo(nodes, l, i) + [n])
  {
    var rest := WithoutTwo(nodes, l, i);
    var more := rest + [n];
    forall k | 0 <= k < |more| ensures NodeShape(r, more[k]) {
      if k < |rest| { assert more[k] == nodes[Origin(l, i, k)]; }
    }
    hide NodeShape, Apart, EffectVarsOf, InSomeInput;
    forall j, k | 0 <= j < |more| && 0 <= k < |more| && j != k ensures Apart(r, more[j], more[k]) {
      PairAfter(r, nodes, l, i, n, eff, j, k);
    }
    forall c ensures InSomeInput(more, c) <==> InSomeInput(nodes, c) { SameParts(nodes, l, i, n, c); }
  }

  lemma PairAfter(r: Rule, nodes: seq<Node>, l: nat, i: nat, n: Node, eff: set<Arg>, j: nat, k: nat)
    requires NodesOk(r, nodes) && i < l < |nodes| && EffectVarsOf(r, Atoms(nodes), l, i, eff)
    requires n.parts == nodes[l].parts + nodes[i].parts && VarsOf(n.atom.args) == eff
    requires j < |nodes| - 1 && k < |nodes| - 1 && j != k
    ensures Apart(r, (WithoutTwo(nodes, l, i) + [n])[j], (WithoutTwo(nodes, l, i) + [n])[k])
  {
    hide NodeShape, Apart, EffectVarsOf, InSomeInput;
    var rest := WithoutTwo(nodes, l, i);
    if j < |rest| && k < |rest| {
      assert Origin(l, i, j) != Origin(l, i, k);
      assert Apart(r, nodes[Origin(l, i, j)], nodes[Origin(l, i, k)]);
    } else {
      var o := Origin(l, i, if j < |rest| then j else k);
      OtherVariables(r, Atoms(nodes), l, i, eff, o);
      ApartFromJoint(r, nodes[l], nodes[i], nodes[o], n, eff);
    }
  }

  lemma SameParts(nodes: seq<Node>, l: nat, i: nat, n: Node, c: SymAtom)
    requires i < l < |nodes| && n.parts == nodes[l].parts + nodes[i].parts
    ensures InSomeInput(WithoutTwo(nodes, l, i) + [n], c) <==> InSomeInput(nodes, c)
  {
    var rest := WithoutTwo(nodes, l, i);
    var more := rest + [n];
    if InSomeInput(nodes, c) {
      var k :| 0 <= k < |nodes| && c in nodes[k].parts;
      if k == l || k == i {
        assert c in more[|rest|].parts;
      } else {
        var o := if k < i then k else if k < l then k - 1 else k - 2;
        assert more[o] == nodes[k];
      }
    }
    if InSomeInput(more, c) {
      var k :| 0 <= k < |more| && c in more[k].parts;
      if k < |rest| {
        assert c in nodes[Origin(l, i, k)].parts;
      } else {
        assert c in nodes[l].parts || c in nodes[i].parts;
      }
    }
  }

  lemma StillConnected(r: Rule, js: seq<SymAtom>, l: nat, i: nat, joint: SymAtom)
    requires Connected(js) && i < l < |js| && EffectVarsOf(r, js, l, i, VarsOf(joint.args))
    ensures Connected(WithoutTwo(js, l, i) + [joint])
  {
    forall k | 0 <= k < |js| && k != l && k != i
      ensures (VarsOf(js[l].args) + VarsOf(js[i].args)) * VarsOf(js[k].args) <= VarsOf(joint.args)
    {
      OtherVariables(r, js, l, i, VarsOf(joint.args), k);
    }
    ContractionConnected(js, l, i, joint);
  }

  // ----- The start -----

  function OriginalNodes(conditions: seq<SymAtom>): (r: seq<Node>)
    ensures |r| == |conditions| && forall i :: 0 <= i < |r| ==> r[i] == Node(conditions[i], [conditions[i]])
  {
    seq(|conditions|, i requires 0 <= i < |conditions| => Node(conditions[i], [conditions[i]]))
  }

  lemma OwnVariables(c: SymAtom)
    ensures Variables([c]) == VarsOf(c.args)
  {
    forall a ensures a in Variables([c]) <==> a in VarsOf(c.args) {
      if a in VarsOf(c.args) { assert [c][0] == c; }
    }
  }

  lemma OriginalNodesOk(r: Rule)
    requires NormalizedRule(r) && NumberFree(r)
    ensures NodesOk(r, OriginalNodes(r.conditions))
    ensures Atoms(OriginalNodes(r.conditions)) == r.conditions
  {
    var nodes := OriginalNodes(r.conditions);
    forall i | 0 <= i < |nodes| ensures NodeShape(r, nodes[i]) { OwnVariables(r.conditions[i]); }
    forall i, j | 0 <= i < |nodes| && 0 <= j < |nodes| && i != j
      ensures Apart(r, nodes[i], nodes[j])
    {
      OwnVariables(r.conditions[i]);
      OwnVariables(r.conditions[j]);
    }
    forall c ensures c in r.conditions <==> InSomeInput(nodes, c) {
      if c in r.conditions {
        var i :| 0 <= i < |r.conditions| && r.conditions[i] == c;
        assert c in nodes[i].parts;
      }
      if InSomeInput(nodes, c) {
        var i :| 0 <= i < |nodes| && c in nodes[i].parts;
        assert c == r.conditions[i];
      }
    }
  }

  // ----- The end -----

  /** The last rule derives the effect of the original rule. */
  function WithEffect(steps: seq<Step>, effect: SymAtom): seq<Step>
    requires steps != []
  {
    steps[|steps| - 1 := Step(steps[|steps| - 1].kind, steps[|steps| - 1].inputs, Node(effect, steps[|steps| - 1].output.parts))]
  }

  lemma LastVariables(r: Rule, n: Node)
    requires NormalizedRule(r) && NodesOk(r, [n]) && VarsOf(n.atom.args) <= VarsOf(r.effect.args)
    ensures VarsOf(n.atom.args) == VarsOf(r.effect.args)
    ensures forall c :: c in n.parts <==> c in r.conditions
  {
    assert NodeShape(r, [n][0]);
    EffectVariables(r);
    forall c ensures c in n.parts <==> c in r.conditions {
      assert c in r.conditions <==> InSomeInput([n], c);
      if c in n.parts { assert c in [n][0].parts; }
    }
    forall x | x in VarsOf(r.effect.args) ensures x in VarsOf(n.atom.args) {
      var i :| 0 <= i < |r.conditions| && x in VarsOf(r.conditions[i].args);
      assert r.conditions[i] in n.parts;
      var k :| 0 <= k < |n.parts| && n.parts[k] == r.conditions[i];
      assert x in VarsOf(n.parts[k].args);
      assert x in Variables(n.parts);
    }
  }

  /** Renaming the output to an atom with the same variables keeps a join rule fine. */
  lemma SameVariablesFine(r: Rule, s: Step, effect: SymAtom)
    requires GoodStep(s) && RuleFine(r, RuleOf(s)) && s.kind == Join
    requires VarsOf(effect.args) == VarsOf(s.output.atom.args) && DistinctVariables(effect.args)
    requires NoNumbers(effect.args)
    ensures GoodStep(Step(s.kind, s.inputs, Node(effect, s.output.parts)))
    ensures RuleFine(r, RuleOf(Step(s.kind, s.inputs, Node(effect, s.output.parts))))
  {
    hide VarsOf, Variables, Covered, Retains, InSomeInput, DistinctVariables, NoNumbers;
  }

  /** What greedy_join returns: a plan whose rules are fine and whose auxiliary names
      are numbered from `base`. */
  ghost predicate GreedyPlan(r: Rule, base: nat, steps: seq<Step>) {
    && steps != [] && (forall k :: 0 <= k < |steps| ==> StepFine(r, steps, k))
    && (forall k :: 0 <= k < |steps| - 1 ==> steps[k].output.atom.symbol == AuxName(base + k))
    && steps[|steps| - 1].output.atom == r.effect
    && (forall c :: c in steps[|steps| - 1].output.parts <==> c in r.conditions)
  }

  lemma FinishPlan(r: Rule, base: nat, steps: seq<Step>, n: Node)
    requires StepsFine(r, base, steps) && steps != [] && NormalizedRule(r) && NumberFree(r)
    requires steps[|steps| - 1].output == n && steps[|steps| - 1].kind == Join
    requires NodesOk(r, [n]) && VarsOf(n.atom.args) <= VarsOf(r.effect.args)
    ensures GreedyPlan(r, base, WithEffect(steps, r.effect))
  {
    hide NodesOk, GoodStep, RuleFine, NormalizedRule, NumberFree, StepFine, VarsOf;
    LastVariables(r, n);
    LastFine(r, base, steps, n);
    var done := WithEffect(steps, r.effect);
    forall k | 0 <= k < |done| ensures StepFine(r, done, k) {
      assert StepFine(r, steps, k);
      FineKept(r, steps, r.effect, k);
    }
  }

  lemma LastFine(r: Rule, base: nat, steps: seq<Step>, n: Node)
    requires StepsFine(r, base, steps) && steps != [] && NormalizedRule(r) && NumberFree(r)
    requires steps[|steps| - 1].output == n && steps[|steps| - 1].kind == Join
    requires VarsOf(n.atom.args) == VarsOf(r.effect.args)
    ensures GoodStep(WithEffect(steps, r.effect)[|steps| - 1])
    ensures RuleFine(r, RuleOf(WithEffect(steps, r.effect)[|steps| - 1]))
  {
    hide GoodStep, RuleFine, VarsOf, Variables, Provenance;
    assert StepFine(r, steps, |steps| - 1);
    SameVariablesFine(r, steps[|steps| - 1], r.effect);
  }

  lemma FineKept(r: Rule, steps: seq<Step>, effect: SymAtom, k: nat)
    requires steps != [] && k < |steps| && StepFine(r, steps, k)
    requires k == |steps| - 1 ==> GoodStep(WithEffect(steps, effect)[k]) && RuleFine(r, RuleOf(WithEffect(steps, effect)[k]))
    ensures StepFine(r, WithEffect(steps, effect), k)
  {
    hide GoodStep, RuleFine;
    var done := WithEffect(steps, effect);
    forall i | 0 <= i < |done[k].inputs| ensures Provenance(r, done, k, done[k].inputs[i]) {
      assert done[k].inputs[i] == steps[k].inputs[i];
      if !IsOriginal(r, steps[k].inputs[i]) {
        var j :| 0 <= j < k && j < |steps| && steps[j].output == steps[k].inputs[i];
        assert done[j] == steps[j];
      }
    }
  }

  // ----- The algorithm -----

  /** The emitted rules and the steps they stand for. */
  ghost predicate Emitted(r: Rule, base: nat, result: seq<Rule>, steps: seq<Step>, count: nat) {
    result == RulesOf(steps) && StepsFine(r, base, steps) && count == base + |steps|
  }

  lemma EmitStep(r: Rule, base: nat, result: seq<Rule>, steps: seq<Step>, s: Step)
    requires Emitted(r, base, result, steps, base + |steps|) && GoodStep(s) && RuleFine(r, RuleOf(s))
    requires s.output.atom.symbol == AuxName(base + |steps|)
    requires forall i :: 0 <= i < |s.inputs| ==> Provenance(r, steps, |steps|, s.inputs[i])
    ensures Emitted(r, base, result + [RuleOf(s)], steps + [s], base + |steps| + 1)
    ensures Provenance(r, steps + [s], |steps| + 1, s.output)
  {
    hide StepFine, GoodStep, RuleFine, Provenance;
    StepsAppend(r, base, steps, s);
    OutputProvenance(r, steps, s);
    assert result + [RuleOf(s)] == RulesOf(steps + [s]);
  }

  lemma RetainedVars(a: seq<Arg>, b: seq<Arg>, eff: set<Arg>, l: seq<Arg>)
    requires Distinct(l) && forall x :: x in l <==> x in ArgSet(a) * (eff + ArgSet(a) * ArgSet(b))
    requires NoNumbers(a)
    ensures VarsOf(l) == VarsOf(a) * (eff + VarsOf(a) * VarsOf(b)) && DistinctVariables(l) && NoNumbers(l)
  {
    forall i | 0 <= i < |l| ensures !l[i].Num? { assert l[i] in l && l[i] in a; }
  }

  /** Emitting the rule that projects `n` to `q`. */
  lemma EmitProjection(r: Rule, base: nat, result: seq<Rule>, steps: seq<Step>, n: Node, q: Node, keep: set<Arg>)
    requires Emitted(r, base, result, steps, base + |steps|) && NodeShape(r, n) && Provenance(r, steps, |steps|, n)
    requires q.parts == n.parts && NoNumbers(q.atom.args) && DistinctVariables(q.atom.args)
    requires q.atom.symbol == AuxName(base + |steps|) && VarsOf(q.atom.args) == VarsOf(n.atom.args) * keep
    requires VarsOf(n.atom.args) * VarsOf(r.effect.args) <= keep
    ensures Emitted(r, base, result + [Rule(Project, q.atom, [n.atom])], steps + [Step(Project, [n], q)], base + |steps| + 1)
    ensures NodeShape(r, q) && Provenance(r, steps + [Step(Project, [n], q)], |steps| + 1, q)
  {
    hide Emitted, Provenance, GoodStep, RuleFine, NodeShape, VarsOf, DistinctVariables, NoNumbers;
    ProjectIsFine(r, n, q, keep);
    assert Atoms([n]) == [n.atom];
    EmitStep(r, base, result, steps, Step(Project, [n], q));
  }

  /** The effect or the other atom has all arguments of `a`, so that it is joined as it is. */
  predicate JoinsWhole(a: SymAtom, b: SymAtom, eff: set<Arg>) {
    ArgSet(a.args) <= eff + ArgSet(b.args)
  }

  /** `p` is `a`, or a new rule projects `a` to it. */
  predicate EmitsProjection(a: SymAtom, b: SymAtom, eff: set<Arg>, p: SymAtom, before: seq<Rule>, after: seq<Rule>) {
    if JoinsWhole(a, b, eff) then p == a && after == before else after == before + [Rule(Project, p, [a])]
  }

  /** The rules for a pair: projections where they drop something, and the join. */
  ghost predicate EmitsPair(left: SymAtom, right: SymAtom, eff: set<Arg>, joint: SymAtom, before: seq<Rule>,
      after: seq<Rule>)
  {
    exists p, q, two :: EmitsBoth(left, right, eff, p, q, before, two) && after == two + [Rule(Join, joint, [p, q])]
  }

  ghost predicate EmitsBoth(left: SymAtom, right: SymAtom, eff: set<Arg>, p: SymAtom, q: SymAtom, before: seq<Rule>,
      after: seq<Rule>)
  {
    exists one :: EmitsProjection(left, right, eff, p, before, one) && EmitsProjection(right, left, eff, q, one, after)
  }

  /** Emit a project rule for the joinee unless all its arguments are retained. */
  method ProjectJoinee(ghost r: Rule, ghost base: nat, joinee: SymAtom, other: SymAtom, effectVars: set<Arg>,
      ghost n: Node,
      names: NameGenerator, result: seq<Rule>, ghost steps: seq<Step>)
      returns (atom: SymAtom, ghost q: Node, result': seq<Rule>, ghost steps': seq<Step>)
    requires Emitted(r, base, result, steps, names.count) && n.atom == joinee && NodeShape(r, n)
    requires Provenance(r, steps, |steps|, n)
    requires VarsOf(joinee.args) * VarsOf(r.effect.args) <= effectVars
    modifies names
    ensures Emitted(r, base, result', steps', names.count) && steps <= steps'
    ensures q.atom == atom && q.parts == n.parts && NodeShape(r, q) && Provenance(r, steps', |steps'|, q)
    ensures VarsOf(atom.args) == VarsOf(joinee.args) * (effectVars + VarsOf(joinee.args) * VarsOf(other.args))
    ensures EmitsProjection(joinee, other, effectVars, atom, result, result')
  {
    var joineeVars := ArgSet(joinee.args);
    var commonVars := ArgSet(joinee.args) * ArgSet(other.args);
    var retained := joineeVars * (effectVars + commonVars);
    var args := ListOf(retained);
    RetainedVars(joinee.args, other.args, effectVars, args);
    assert JoinsWhole(joinee, other, effectVars) <==> retained == joineeVars;
    hide Emitted, Provenance, GoodStep, RuleFine, NodeShape, VarsOf, DistinctVariables, NoNumbers, ArgSet, JoinsWhole;
    EmittedCount(r, base, result, steps);
    if retained != joineeVars {
      var name := names.Next();
      atom := SymAtom(name, args);
      q := Projected(n, name, args);
      ghost var s := Step(Project, [n], q);
      EmitProjection(r, base, result, steps, n, q, effectVars + VarsOf(joinee.args) * VarsOf(other.args));
      result' := result + [Rule(Project, atom, [joinee])];
      steps' := steps + [s];
    } else {
      AllRetained(joinee.args, args, retained);
      atom, q, result', steps' := joinee, n, result, steps;
    }
  }

  lemma ProjectIsFine(r: Rule, n: Node, q: Node, keep: set<Arg>)
    requires NodeShape(r, n) && q.parts == n.parts && NoNumbers(q.atom.args) && DistinctVariables(q.atom.args)
    requires VarsOf(q.atom.args) == VarsOf(n.atom.args) * keep
    requires VarsOf(n.atom.args) * VarsOf(r.effect.args) <= keep
    ensures NodeShape(r, q) && GoodStep(Step(Project, [n], q)) && RuleFine(r, RuleOf(Step(Project, [n], q)))
  {
    ProjectionShape(r, n, q, keep);
    ProjectStepGood(n, q);
    ProjectRuleFine(r, n, q);
  }

  lemma EmittedCount(r: Rule, base: nat, result: seq<Rule>, steps: seq<Step>)
    ensures forall count :: Emitted(r, base, result, steps, count) ==> count == base + |steps|
  {
  }

  lemma AllRetained(args: seq<Arg>, l: seq<Arg>, retained: set<Arg>)
    requires retained == ArgSet(args) && forall x :: x in l <==> x in retained
    ensures VarsOf(args) == VarsOf(l)
  {
  }

  /** The tracker counts the effect and the joinees. */
  ghost predicate Counts(tracker: OccurrencesTracker, effect: SymAtom, js: seq<SymAtom>)
    reads tracker
  {
    tracker.Valid() && forall x: Arg :: x.IsVar() ==> tracker.Count(x) == CountIn(effect.args, x) + CountAll(js, x)
  }

  lemma OccurringVariables(tracker: OccurrencesTracker, effect: SymAtom, js: seq<SymAtom>)
    requires Counts(tracker, effect, js)
    ensures tracker.Occurring() == VarsOf(effect.args) + Variables(js)
  {
    forall x: Arg ensures x in tracker.Occurring() <==> x in VarsOf(effect.args) + Variables(js) {
      if x.IsVar() {
        CountPositive(effect.args, x);
        CountAllPositive(js, x);
      }
    }
  }

  /** Remove the pair from the tracker. */
  method Forget(tracker: OccurrencesTracker, left: SymAtom, right: SymAtom, ghost effect: SymAtom,
      ghost js: seq<SymAtom>,
      ghost l: nat, ghost i: nat)
    requires Counts(tracker, effect, js) && i < l < |js| && left == js[l] && right == js[i]
    modifies tracker
    ensures Counts(tracker, effect, WithoutTwo(js, l, i))
  {
    ghost var mid := Without(js, l);
    forall x: Arg | x.IsVar() ensures CountAll(mid, x) + CountIn(left.args, x) == CountAll(js, x) {
      CountAllRemove(js, l, x);
    }
    tracker.Update(left, -1);
    assert mid[i] == right;
    forall x: Arg | x.IsVar() ensures CountAll(Without(mid, i), x) + CountIn(right.args, x) == CountAll(mid, x) {
      CountAllRemove(mid, i, x);
    }
    tracker.Update(right, -1);
  }

  method Remember(tracker: OccurrencesTracker, joint: SymAtom, ghost effect: SymAtom, ghost js: seq<SymAtom>)
    requires Counts(tracker, effect, js)
    modifies tracker
    ensures Counts(tracker, effect, js + [joint])
  {
    forall x: Arg ensures CountAll(js + [joint], x) == CountAll(js, x) + CountIn(joint.args, x) {
      CountAllAppend(js, joint, x);
    }
    tracker.Update(joint, 1);
  }

  /** The state of the main loop. */
  ghost predicate Joining(r: Rule, base: nat, nodes: seq<Node>, js: seq<SymAtom>, result: seq<Rule>, steps: seq<Step>,
      count: nat)
  {
    && js == Atoms(nodes) && nodes != [] && NodesOk(r, nodes) && Connected(js) && Emitted(r, base, result, steps, count)
    && Provenances(r, steps, nodes) && (|nodes| == 1 ==> LastStep(r, nodes[0], steps))
  }

  ghost predicate Provenances(r: Rule, steps: seq<Step>, nodes: seq<Node>) {
    forall k :: 0 <= k < |nodes| ==> Provenance(r, steps, |steps|, nodes[k])
  }

  /** The last step joined everything, and only variables of the effect are left. */
  ghost predicate LastStep(r: Rule, n: Node, steps: seq<Step>) {
    && steps != [] && steps[|steps| - 1].kind == Join && steps[|steps| - 1].output == n
    && VarsOf(n.atom.args) <= VarsOf(r.effect.args)
  }

  lemma PairEffect(r: Rule, js: seq<SymAtom>, l: nat, i: nat, occurring: set<Arg>, eff: set<Arg>)
    requires i < l < |js| && occurring == VarsOf(r.effect.args) + Variables(WithoutTwo(js, l, i))
    requires eff == occurring * (ArgSet(js[l].args) + ArgSet(js[i].args))
    ensures EffectVarsOf(r, js, l, i, eff)
    ensures VarsOf(js[l].args) * VarsOf(r.effect.args) <= eff && VarsOf(js[i].args) * VarsOf(r.effect.args) <= eff
    ensures |js| == 2 ==> eff <= VarsOf(r.effect.args)
  {
    forall x | x in occurring ensures x.IsVar() {}
    if |js| == 2 { assert WithoutTwo(js, l, i) == []; }
  }

  lemma LaterProvenance(r: Rule, steps: seq<Step>, k: nat, n: Node)
    requires Provenance(r, steps, k, n) && k <= |steps|
    ensures Provenance(r, steps, |steps|, n)
  {
    if !IsOriginal(r, n) {
      var j :| 0 <= j < k && j < |steps| && steps[j].output == n;
    }
  }

  lemma LaterProvenances(r: Rule, steps: seq<Step>, more: seq<Step>, nodes: seq<Node>)
    requires steps <= more && Provenances(r, steps, nodes)
    ensures Provenances(r, more, nodes)
  {
    forall k | 0 <= k < |nodes| ensures Provenance(r, more, |more|, nodes[k]) {
      MoreProvenance(r, steps, more, |steps|, nodes[k]);
      LaterProvenance(r, more, |steps|, nodes[k]);
    }
  }

  lemma ProvenanceAfter(r: Rule, more: seq<Step>, nodes: seq<Node>, l: nat, i: nat, n: Node)
    requires i < l < |nodes| && Provenance(r, more, |more|, n) && Provenances(r, more, nodes)
    ensures Provenances(r, more, WithoutTwo(nodes, l, i) + [n])
  {
    hide Provenance;
    var ns := WithoutTwo(nodes, l, i) + [n];
    forall k | 0 <= k < |ns| ensures Provenance(r, more, |more|, ns[k]) {
      if k < |ns| - 1 { assert ns[k] == nodes[Origin(l, i, k)]; }
    }
  }

  lemma MakePair(r: Rule, nodes: seq<Node>, l: nat, i: nat, p: Node, q: Node, eff: set<Arg>)
    requires NodesOk(r, nodes) && i < l < |nodes| && EffectVarsOf(r, Atoms(nodes), l, i, eff)
    requires Share(nodes[l].atom, nodes[i].atom) && NodeShape(r, p) && NodeShape(r, q)
    requires p.parts == nodes[l].parts && q.parts == nodes[i].parts
    requires var av, bv := VarsOf(nodes[l].atom.args), VarsOf(nodes[i].atom.args);
      VarsOf(p.atom.args) == av * (eff + av * bv) && VarsOf(q.atom.args) == bv * (eff + bv * av)
    ensures PairState(r, nodes[l], nodes[i], p, q, eff)
  {
    var av, bv := VarsOf(nodes[l].atom.args), VarsOf(nodes[i].atom.args);
    assert NodeShape(r, nodes[l]) && NodeShape(r, nodes[i]);
    assert Apart(r, nodes[l], nodes[i]) && Apart(r, nodes[i], nodes[l]);
    hide NodesOk, NodeShape, VarsOf, Variables, Retains, SharedInEffect, Share;
    assert av * bv == bv * av;
  }

  /** Project both joinees of the pair. */
  method ProjectPair(ghost r: Rule, ghost base: nat, ghost nodes: seq<Node>, left: SymAtom, right: SymAtom,
      ghost l: nat, ghost i: nat, effectVars: set<Arg>, names: NameGenerator, result: seq<Rule>, ghost steps: seq<Step>)
      returns (p: SymAtom, q: SymAtom, ghost pn: Node, ghost qn: Node, result': seq<Rule>, ghost steps': seq<Step>)
    requires NodesOk(r, nodes) && i < l < |nodes| && left == nodes[l].atom && right == nodes[i].atom
    requires Emitted(r, base, result, steps, names.count) && Provenances(r, steps, nodes)
    requires Share(left, right) && EffectVarsOf(r, Atoms(nodes), l, i, effectVars)
    requires VarsOf(left.args) * VarsOf(r.effect.args) <= effectVars
    requires VarsOf(right.args) * VarsOf(r.effect.args) <= effectVars
    modifies names
    ensures Emitted(r, base, result', steps', names.count) && Provenances(r, steps', nodes)
    ensures PairState(r, nodes[l], nodes[i], pn, qn, effectVars) && pn.atom == p && qn.atom == q
    ensures Provenances(r, steps', [pn, qn]) && EmitsBoth(left, right, effectVars, p, q, result, result')
  {
    hide Emitted, Provenance, Provenances, Share, EffectVarsOf, VarsOf, NodeShape, PairState, EmitsProjection;
    ghost var a, b := nodes[l], nodes[i];
    PairProvenance(r, steps, nodes, l, i);
    ghost var steps1;
    var result1;
    p, pn, result1, steps1 := ProjectJoinee(r, base, left, right, effectVars, a, names, result, steps);
    LaterProvenances(r, steps, steps1, nodes);
    PairProvenance(r, steps1, nodes, l, i);
    q, qn, result', steps' := ProjectJoinee(r, base, right, left, effectVars, b, names, result1, steps1);
    LaterProvenances(r, steps1, steps', nodes);
    OneProvenance(r, steps1, pn);
    LaterProvenances(r, steps1, steps', [pn]);
    TwoProvenances(r, steps', pn, qn);
    MakePair(r, nodes, l, i, pn, qn, effectVars);
  }

  lemma PairProvenance(r: Rule, steps: seq<Step>, nodes: seq<Node>, l: nat, i: nat)
    requires Provenances(r, steps, nodes) && i < l < |nodes|
    ensures Provenance(r, steps, |steps|, nodes[l]) && Provenance(r, steps, |steps|, nodes[i])
  {
  }

  lemma OneProvenance(r: Rule, steps: seq<Step>, n: Node)
    requires Provenance(r, steps, |steps|, n)
    ensures Provenances(r, steps, [n])
  {
  }

  lemma TwoProvenances(r: Rule, steps: seq<Step>, p: Node, q: Node)
    requires Provenances(r, steps, [p]) && Provenance(r, steps, |steps|, q)
    ensures Provenances(r, steps, [p, q])
  {
    assert Provenance(r, steps, |steps|, [p][0]);
  }

  /** Emit the join of the projected pair. */
  method EmitJoin(ghost r: Rule, ghost base: nat, p: SymAtom, q: SymAtom, ghost a: Node, ghost b: Node, ghost pn: Node,
      ghost qn: Node, effectVars: set<Arg>, names: NameGenerator, result: seq<Rule>, ghost steps: seq<Step>)
      returns (joint: SymAtom, ghost n: Node, result': seq<Rule>, ghost steps': seq<Step>)
    requires Emitted(r, base, result, steps, names.count) && PairState(r, a, b, pn, qn, effectVars)
    requires pn.atom == p && qn.atom == q && Provenances(r, steps, [pn, qn])
    requires forall x :: x in effectVars ==> x.IsVar() && !x.Num?
    modifies names
    ensures Emitted(r, base, result', steps', names.count) && steps < steps'
    ensures n == Node(joint, a.parts + b.parts) && NodeShape(r, n) && VarsOf(joint.args) == effectVars
    ensures Provenance(r, steps', |steps'|, n)
    ensures steps'[|steps'| - 1].kind == Join && steps'[|steps'| - 1].output == n
    ensures result' == result + [Rule(Join, joint, [p, q])]
  {
    hide Emitted, Provenance, Provenances, GoodStep, RuleFine, NodeShape, PairState, VarsOf, DistinctVariables,
      NoNumbers;
    var args := ListOf(effectVars);
    EffectArgs(effectVars, args);
    var name := names.Next();
    joint := SymAtom(name, args);
    n := Node(joint, pn.parts + qn.parts);
    ghost var s := Step(Join, [pn, qn], n);
    JoinIsFine(r, a, b, pn, qn, effectVars, joint);
    EmittedCount(r, base, result, steps);
    InputProvenance(r, steps, pn, qn);
    EmitStep(r, base, result, steps, s);
    assert Atoms([pn, qn]) == [p, q];
    result' := result + [Rule(Join, joint, [p, q])];
    steps' := steps + [s];
  }

  lemma EffectArgs(eff: set<Arg>, args: seq<Arg>)
    requires Distinct(args) && (forall x :: x in args <==> x in eff) && forall x :: x in eff ==> x.IsVar() && !x.Num?
    ensures VarsOf(args) == eff && DistinctVariables(args) && NoNumbers(args)
  {
    forall k | 0 <= k < |args| ensures !args[k].Num? { assert args[k] in args; }
  }

  lemma JoinIsFine(r: Rule, a: Node, b: Node, p: Node, q: Node, eff: set<Arg>, joint: SymAtom)
    requires PairState(r, a, b, p, q, eff) && VarsOf(joint.args) == eff
    requires DistinctVariables(joint.args) && NoNumbers(joint.args)
    ensures p.parts == a.parts && q.parts == b.parts
    ensures GoodStep(Step(Join, [p, q], Node(joint, p.parts + q.parts)))
    ensures RuleFine(r, RuleOf(Step(Join, [p, q], Node(joint, p.parts + q.parts))))
    ensures NodeShape(r, Node(joint, p.parts + q.parts))
  {
    JoinStepGood(r, a, b, p, q, eff, joint);
    JoinRuleFine(r, a, b, p, q, eff, joint);
    JoinNodeShape(r, a, b, p, q, eff, joint);
  }

  lemma InputProvenance(r: Rule, steps: seq<Step>, p: Node, q: Node)
    requires Provenances(r, steps, [p, q])
    ensures forall i :: 0 <= i < 2 ==> Provenance(r, steps, |steps|, [p, q][i])
  {
  }

  lemma PairNoNumbers(r: Rule, nodes: seq<Node>, l: nat, i: nat, eff: set<Arg>)
    requires NodesOk(r, nodes) && i < l < |nodes| && EffectVarsOf(r, Atoms(nodes), l, i, eff)
    ensures forall x :: x in eff ==> x.IsVar() && !x.Num?
  {
    assert NodeShape(r, nodes[l]) && NodeShape(r, nodes[i]);
    forall x | x in eff ensures !x.Num? && x.IsVar() {
      if x in VarsOf(nodes[l].atom.args) {
        var k :| 0 <= k < |nodes[l].atom.args| && nodes[l].atom.args[k] == x;
      } else {
        var k :| 0 <= k < |nodes[i].atom.args| && nodes[i].atom.args[k] == x;
      }
    }
  }

  /** One iteration for the chosen pair: project, join, and replace the pair. */
  method JoinPair(ghost r: Rule, ghost base: nat, ghost nodes: seq<Node>, ghost js: seq<SymAtom>, left: SymAtom,
      right: SymAtom,
      ghost l: nat, ghost i: nat, occurring: set<Arg>, names: NameGenerator, result: seq<Rule>, ghost steps: seq<Step>)
      returns (joint: SymAtom, ghost nodes': seq<Node>, result': seq<Rule>, ghost steps': seq<Step>)
    requires Joining(r, base, nodes, js, result, steps, names.count) && i < l < |js| && left == js[l] && right == js[i]
    requires Share(left, right) && occurring == VarsOf(r.effect.args) + Variables(WithoutTwo(js, l, i))
    modifies names
    ensures Joining(r, base, nodes', WithoutTwo(js, l, i) + [joint], result', steps', names.count)
    ensures |nodes'| == |nodes| - 1 && VarsOf(joint.args) == occurring * (ArgSet(left.args) + ArgSet(right.args))
    ensures EmitsPair(left, right, occurring * (ArgSet(left.args) + ArgSet(right.args)), joint, result, result')
  {
    hide NodesOk, Emitted, Connected, Provenance, Provenances, Share, EffectVarsOf, PairState, NodeShape, VarsOf,
      Variables, WithoutTwo, LastStep, EmitsBoth;
    var conditionVars := ArgSet(left.args) + ArgSet(right.args);
    var effectVars := occurring * conditionVars;
    PairEffect(r, js, l, i, occurring, effectVars);
    PairNoNumbers(r, nodes, l, i, effectVars);
    var p, q, pn, qn, result1, steps1 := ProjectPair(r, base, nodes, left, right, l, i, effectVars, names, result, steps);
    ghost var n;
    joint, n, result', steps' := EmitJoin(r, base, p, q, nodes[l], nodes[i], pn, qn, effectVars, names, result1, steps1);
    nodes' := WithoutTwo(nodes, l, i) + [n];
    LaterProvenances(r, steps1, steps', nodes);
    Rejoin(r, base, nodes, js, l, i, n, effectVars, result', steps', names.count);
  }

  lemma Rejoin(r: Rule, base: nat, nodes: seq<Node>, js: seq<SymAtom>, l: nat, i: nat, n: Node, eff: set<Arg>,
      result: seq<Rule>, steps: seq<Step>, count: nat)
    requires js == Atoms(nodes) && NodesOk(r, nodes) && Connected(js) && i < l < |js|
    requires Emitted(r, base, result, steps, count)
    requires EffectVarsOf(r, js, l, i, eff) && (|js| == 2 ==> eff <= VarsOf(r.effect.args))
    requires NodeShape(r, n) && n.parts == nodes[l].parts + nodes[i].parts && VarsOf(n.atom.args) == eff
    requires Provenances(r, steps, nodes) && Provenance(r, steps, |steps|, n)
    requires steps != [] && steps[|steps| - 1].kind == Join && steps[|steps| - 1].output == n
    ensures Joining(r, base, WithoutTwo(nodes, l, i) + [n], WithoutTwo(js, l, i) + [n.atom], result, steps, count)
  {
    hide NodesOk, Emitted, Connected, Provenance, Provenances, EffectVarsOf, NodeShape, VarsOf;
    NodesAfter(r, nodes, l, i, n, eff);
    StillConnected(r, js, l, i, n.atom);
    AtomsWithoutTwo(nodes, l, i);
    assert Atoms(WithoutTwo(nodes, l, i) + [n]) == WithoutTwo(js, l, i) + [n.atom];
    ProvenanceAfter(r, steps, nodes, l, i, n);
  }

  lemma StartJoining(r: Rule, base: nat)
    requires NormalizedRule(r) && NumberFree(r) && |r.conditions| >= 2 && Connected(r.conditions)
    ensures Joining(r, base, OriginalNodes(r.conditions), r.conditions, [], [], base)
  {
    OriginalNodesOk(r);
    var nodes := OriginalNodes(r.conditions);
    forall k | 0 <= k < |nodes| ensures Provenance(r, [], 0, nodes[k]) {
      assert IsOriginal(r, nodes[k]);
    }
  }

  lemma EndJoining(r: Rule, base: nat, nodes: seq<Node>, js: seq<SymAtom>, result: seq<Rule>, steps: seq<Step>,
      count: nat)
    requires Joining(r, base, nodes, js, result, steps, count) && |js| < 2 && NormalizedRule(r) && NumberFree(r)
    ensures steps != [] && result != [] && GreedyPlan(r, base, WithEffect(steps, r.effect)) && count == base + |steps|
    ensures result[|result| - 1 := result[|result| - 1].(effect := r.effect)] == RulesOf(WithEffect(steps, r.effect))
  {
    hide StepFine, NodeShape, Apart;
    assert nodes == [nodes[0]];
    FinishPlan(r, base, steps, nodes[0]);
  }

  /** The first cheapest pair is replaced by a condition with those of its variables that
      occur in the effect or in another condition. */
  ghost predicate CheapestJoined(effect: SymAtom, js: seq<SymAtom>, l: nat, i: nat, joint: SymAtom,
      after: seq<SymAtom>)
  {
    && FirstCheapest(js, l, i) && after == WithoutTwo(js, l, i) + [joint]
    && VarsOf(joint.args) ==
       (VarsOf(effect.args) + Variables(WithoutTwo(js, l, i))) * (ArgSet(js[l].args) + ArgSet(js[i].args))
  }

  /** The body of the main loop: choose the cheapest pair, join it, count anew. */
  method JoinCheapest(ghost r: Rule, ghost base: nat, ghost nodes: seq<Node>, costMatrix: CostMatrix,
      occurrences: OccurrencesTracker, names: NameGenerator, result: seq<Rule>, ghost steps: seq<Step>)
      returns (ghost nodes': seq<Node>, result': seq<Rule>, ghost steps': seq<Step>, ghost l: nat, ghost i: nat,
        ghost joined: SymAtom)
    requires costMatrix.Valid() && |costMatrix.joinees| >= 2
    requires Joining(r, base, nodes, costMatrix.joinees, result, steps, names.count)
    requires Counts(occurrences, r.effect, costMatrix.joinees)
    modifies costMatrix, occurrences, names
    ensures costMatrix.Valid() && |costMatrix.joinees| == old(|costMatrix.joinees|) - 1
    ensures Joining(r, base, nodes', costMatrix.joinees, result', steps', names.count)
    ensures Counts(occurrences, r.effect, costMatrix.joinees)
    ensures CheapestJoined(r.effect, old(costMatrix.joinees), l, i, joined, costMatrix.joinees)
    ensures EmitsPair(old(costMatrix.joinees)[l], old(costMatrix.joinees)[i], VarsOf(joined.args), joined, result, result')
  {
    hide Joining, Share, CostMatrix.Valid, OccurrencesTracker.Valid, Connected, Counts, Variables, VarsOf,
      Cheaper, OccurrencesTracker.Count, EmitsPair;
    ghost var js := costMatrix.joinees;
    var left, right;
    left, right, l, i := costMatrix.RemoveMinPair();
    JoiningConnected(r, base, nodes, js, result, steps, names.count);
    MinPairShares(js, l, i);
    Forget(occurrences, left, right, r.effect, js, l, i);
    CountsValid(occurrences, r.effect, costMatrix.joinees);
    OccurringVariables(occurrences, r.effect, costMatrix.joinees);
    var occurring := occurrences.Occurring();
    var joint;
    joint, nodes', result', steps' := JoinPair(r, base, nodes, js, left, right, l, i, occurring, names, result, steps);
    Remember(occurrences, joint, r.effect, costMatrix.joinees);
    costMatrix.AddEntry(joint);
    joined := joint;
  }

  /**
    greedy_join, for conditions connected by shared variables.  It terminates; the
    emitted rules are a plan for the rule, every one of them passes its validation,
    and the joins are exact if shared variables occur in the effect.
   */
  method GreedyJoinRule(r: Rule, names: NameGenerator) returns (result: seq<Rule>, ghost steps: seq<Step>)
    requires NormalizedRule(r) && NumberFree(r) && |r.conditions| >= 2 && Connected(r.conditions)
    modifies names
    ensures result == RulesOf(steps) && GreedyPlan(r, old(names.count), steps)
    ensures names.count == old(names.count) + |steps|
  {
    ghost var base := names.count;
    var costMatrix := new CostMatrix(r.conditions);
    var occurrences := new OccurrencesTracker(r.effect, r.conditions);
    result, steps := [], [];
    ghost var nodes := OriginalNodes(r.conditions);
    StartJoining(r, base);
    assert Counts(occurrences, r.effect, costMatrix.joinees);
    hide Joining, Share, CostMatrix.Valid, OccurrencesTracker.Valid, NormalizedRule, NumberFree, Connected, GreedyPlan,
      Counts, WithoutTwo, Variables, VarsOf, Cheaper, OccurrencesTracker.Count;
    while |costMatrix.joinees| >= 2
      invariant costMatrix.Valid() && fresh(costMatrix) && fresh(occurrences)
      invariant Joining(r, base, nodes, costMatrix.joinees, result, steps, names.count)
      invariant Counts(occurrences, r.effect, costMatrix.joinees)
      decreases |costMatrix.joinees|
    {
      ghost var l, i, joint;
      nodes, result, steps, l, i, joint := JoinCheapest(r, base, nodes, costMatrix, occurrences, names, result, steps);
    }
    EndJoining(r, base, nodes, costMatrix.joinees, result, steps, names.count);
    result := result[|result| - 1 := result[|result| - 1].(effect := r.effect)];
    steps := WithEffect(steps, r.effect);
  }

  lemma CountsValid(tracker: OccurrencesTracker, effect: SymAtom, js: seq<SymAtom>)
    requires Counts(tracker, effect, js)
    ensures tracker.Valid()
  {
  }

  lemma JoiningConnected(r: Rule, base: nat, nodes: seq<Node>, js: seq<SymAtom>, result: seq<Rule>, steps: seq<Step>,
      count: nat)
    requires Joining(r, base, nodes, js, result, steps, count)
    ensures Connected(js)
  {
  }
}
