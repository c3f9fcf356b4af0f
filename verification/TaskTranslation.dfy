/**
  Translating a whole task (translate.py:432-522): the initial state is encoded, the
  goal becomes one assignment, and every action becomes its operators.  If every
  reachable STRIPS state respects the fact groups and the mutex groups, the two
  tasks have plans of the same costs, up to dropped operators that change nothing.
 */
module TaskTranslation {
  import opened Wrappers
  import opened Strips = Strips
  import opened Encodings
  import opened ConditionTranslation
  import opened GoalAssertion
  import opened EffectTables
  import opened DeleteEffects
  import opened BuiltOperators
  import opened OperatorTranslation
  import Sas = SasTasks
  import Conditions
  import OperatorBuilding

  // ----- The initial state -----

  /** The codes of the facts in `done`, all other variables at "none of those". */
  ghost predicate CodeOf(groups: seq<seq<Atom>>, enc: Encoding, done: seq<Atom>, s: Sas.State) {
    && Sas.ValidState(enc.ranges, s) && |groups| == |s|
    && (forall v :: 0 <= v < |s| && s[v] < |groups[v]| ==> groups[v][s[v]] in done)
    && (forall a, f :: a in done && f in Pairs(enc.dictionary, a) ==> Sas.Holds(s, f))
  }

  lemma PairsAreValid(groups: seq<seq<Atom>>, enc: Encoding)
    requires IsEncoding(groups, enc)
    ensures forall a, f :: f in Pairs(enc.dictionary, a) ==> InGroups(groups, f) && groups[f.v][f.val] == a
    ensures |enc.ranges| == |groups| && forall v :: 0 <= v < |groups| ==> enc.ranges[v] == |groups[v]| + 1
  {
  }

  lemma SetFact(groups: seq<seq<Atom>>, enc: Encoding, done: seq<Atom>, s: Sas.State, a: Atom, pairs: seq<Sas.Fact>,
      f: Sas.Fact)
    requires IsEncoding(groups, enc) && PartlySet(groups, enc, done, a, pairs, s) && f in Pairs(enc.dictionary, a)
    requires s[f.v] == enc.ranges[f.v] - 1 || s[f.v] == f.val
    ensures PartlySet(groups, enc, done, a, pairs + [f], s[f.v := f.val])
  {
    PairsAreValid(groups, enc);
    hide IsEncoding, Pairs;
    var s' := s[f.v := f.val];
    assert InGroups(groups, f) && groups[f.v][f.val] == a;
    forall b, g | b in done && g in Pairs(enc.dictionary, b) ensures Sas.Holds(s', g) {
      assert Sas.Holds(s, g) && InGroups(groups, g);
    }
    forall g | g in pairs ensures Sas.Holds(s', g) {
      assert Sas.Holds(s, g) && InGroups(groups, g);
    }
  }

  /** `CodeOf`, with the listed pairs of `a` already set. */
  ghost predicate PartlySet(groups: seq<seq<Atom>>, enc: Encoding, done: seq<Atom>, a: Atom, pairs: seq<Sas.Fact>,
      s: Sas.State)
  {
    && Sas.ValidState(enc.ranges, s) && |groups| == |s|
    && (forall v :: 0 <= v < |s| && s[v] < |groups[v]| ==> groups[v][s[v]] in done || groups[v][s[v]] == a)
    && (forall b, f :: b in done && f in Pairs(enc.dictionary, b) ==> Sas.Holds(s, f))
    && (forall f :: f in pairs ==> Sas.Holds(s, f) && InGroups(groups, f))
  }

  lemma AllSet(groups: seq<seq<Atom>>, enc: Encoding, done: seq<Atom>, a: Atom, s: Sas.State)
    requires PartlySet(groups, enc, done, a, Pairs(enc.dictionary, a), s)
    ensures CodeOf(groups, enc, done + [a], s)
  {
  }

  lemma CodeEncodes(groups: seq<seq<Atom>>, enc: Encoding, done: seq<Atom>, s: Sas.State, w: World)
    requires IsEncoding(groups, enc) && CodeOf(groups, enc, done, s) && forall a :: a in done <==> a in w
    ensures Encodes(enc, s, w)
  {
    forall a, f | f in Pairs(enc.dictionary, a) ensures a in w <==> Sas.Holds(s, f) {
      assert InGroups(groups, f) && groups[f.v][f.val] == a;
    }
  }

  lemma ClashInCode(groups: seq<seq<Atom>>, enc: Encoding, done: seq<Atom>, a: Atom, pairs: seq<Sas.Fact>, s: Sas.State,
      w: World, f: Sas.Fact)
    requires IsEncoding(groups, enc) && PartlySet(groups, enc, done, a, pairs, s) && f in Pairs(enc.dictionary, a)
    requires (forall b :: b in done ==> b in w) && a in w
    requires s[f.v] != enc.ranges[f.v] - 1 && s[f.v] != f.val
    ensures !Respects(w, groups)
  {
    assert InGroups(groups, f) && groups[f.v][f.val] == a;
    assert groups[f.v][s[f.v]] in w && Distinct(groups[f.v]);
    assert !AtMostOne(w, groups[f.v]);
  }

  /** The assertion "Inconsistent init facts" fails exactly when the initial state
      violates a fact group; otherwise the result is its code. */
  method EncodeInit(ghost groups: seq<seq<Atom>>, enc: Encoding, init: World) returns (r: Option<Sas.State>)
    requires IsEncoding(groups, enc)
    ensures r.None? <==> !Respects(init, groups)
    ensures r.Some? ==> Encodes(enc, r.value, init)
  {
    hide IsEncoding, CodeOf, PartlySet, Respects, Encodes;
    var facts := ListOf(init);
    var s: Sas.State := seq(|enc.ranges|, v requires 0 <= v < |enc.ranges| => enc.ranges[v] - 1);
    StartCode(groups, enc, s);
    for i := 0 to |facts|
      invariant CodeOf(groups, enc, facts[..i], s)
    {
      var a := facts[i];
      assert a in facts;
      StartFact(groups, enc, facts[..i], a, s);
      var pairs := Pairs(enc.dictionary, a);
      for j := 0 to |pairs|
        invariant PartlySet(groups, enc, facts[..i], a, pairs[..j], s)
      {
        var f := pairs[j];
        assert f in pairs;
        PairInRange(groups, enc, facts[..i], a, pairs[..j], s, f);
        if s[f.v] != enc.ranges[f.v] - 1 && s[f.v] != f.val {
          assert forall b :: b in facts[..i] ==> b in init;
          ClashInCode(groups, enc, facts[..i], a, pairs[..j], s, init, f);
          return None;
        }
        SetFact(groups, enc, facts[..i], s, a, pairs[..j], f);
        assert pairs[..j + 1] == pairs[..j] + [f];
        s := s[f.v := f.val];
      }
      assert pairs[..|pairs|] == pairs;
      AllSet(groups, enc, facts[..i], a, s);
      assert facts[..i + 1] == facts[..i] + [a];
    }
    assert facts[..|facts|] == facts;
    CodeEncodes(groups, enc, facts, s, init);
    EncodesRespects(groups, enc, s, init);
    return Some(s);
  }

  lemma StartCode(groups: seq<seq<Atom>>, enc: Encoding, s: Sas.State)
    requires IsEncoding(groups, enc) && |s| == |enc.ranges| && forall v :: 0 <= v < |s| ==> s[v] == enc.ranges[v] - 1
    ensures CodeOf(groups, enc, [], s)
  {
  }

  lemma StartFact(groups: seq<seq<Atom>>, enc: Encoding, done: seq<Atom>, a: Atom, s: Sas.State)
    requires CodeOf(groups, enc, done, s)
    ensures PartlySet(groups, enc, done, a, [], s)
  {
  }

  lemma PairInRange(groups: seq<seq<Atom>>, enc: Encoding, done: seq<Atom>, a: Atom, pairs: seq<Sas.Fact>, s: Sas.State,
      f: Sas.Fact)
    requires IsEncoding(groups, enc) && PartlySet(groups, enc, done, a, pairs, s) && f in Pairs(enc.dictionary, a)
    ensures 0 <= f.v < |s| && |s| == |enc.ranges|
  {
  }

  // ----- Operators -----

  function Flatten(blocks: seq<seq<Sas.Operator>>): seq<Sas.Operator> {
    if blocks == [] then [] else Flatten(blocks[..|blocks| - 1]) + blocks[|blocks| - 1]
  }

  /** The operators of the task come in one block per action, block after block. */
  ghost predicate BlocksOf(groups: seq<seq<Atom>>, enc: Encoding, mutex: Encoding, actions: seq<Action>,
      blocks: seq<seq<Sas.Operator>>, ops: seq<Sas.Operator>)
  {
    && |blocks| == |actions|
    && (forall i :: 0 <= i < |blocks| ==> Compiled(groups, enc, mutex, actions[i], blocks[i]))
    && ops == Flatten(blocks)
    && (forall op :: op in ops <==> exists i :: 0 <= i < |blocks| && op in blocks[i])
  }

  lemma AddBlock(groups: seq<seq<Atom>>, enc: Encoding, mutex: Encoding, actions: seq<Action>,
      blocks: seq<seq<Sas.Operator>>, ops: seq<Sas.Operator>, a: Action, block: seq<Sas.Operator>)
    requires BlocksOf(groups, enc, mutex, actions, blocks, ops) && Compiled(groups, enc, mutex, a, block)
    ensures BlocksOf(groups, enc, mutex, actions + [a], blocks + [block], ops + block)
  {
    hide Compiled;
    var more := blocks + [block];
    assert more[..|blocks|] == blocks;
    forall op ensures op in ops + block <==> exists i :: 0 <= i < |more| && op in more[i] {
      if op in ops {
        var i :| 0 <= i < |blocks| && op in blocks[i];
        assert op in more[i];
      }
      if op in block { assert op in more[|blocks|]; }
    }
  }

  /** Everything a valid input provides: costs are nonnegative, and effects and
      preconditions mention only atoms that have a variable. */
  predicate KnownTask(enc: Encoding, task: StripsTask) {
    && (forall i :: 0 <= i < |task.actions| ==> KnownAction(enc, task.actions[i]) && task.actions[i].cost >= 0)
    && Settled(enc, task.init, task.goal)
  }

  method TranslateStripsOperators(ghost groups: seq<seq<Atom>>, actions: seq<Action>, enc: Encoding, mutex: Encoding)
      returns (ops: seq<Sas.Operator>, ghost blocks: seq<seq<Sas.Operator>>)
    requires IsEncoding(groups, enc) && WellFormed(mutex) && Partial(enc.dictionary)
    requires forall i :: 0 <= i < |actions| ==> KnownAction(enc, actions[i]) && actions[i].cost >= 0
    ensures BlocksOf(groups, enc, mutex, actions, blocks, ops)
  {
    ops, blocks := [], [];
    hide Compiled, IsEncoding, WellFormed, KnownAction;
    for i := 0 to |actions|
      invariant BlocksOf(groups, enc, mutex, actions[..i], blocks, ops)
    {
      var block := TranslateStripsOperator(groups, actions[i], enc, mutex);
      AddBlock(groups, enc, mutex, actions[..i], blocks, ops, actions[i], block);
      assert actions[..i + 1] == actions[..i] + [actions[i]];
      ops, blocks := ops + block, blocks + [block];
    }
    assert actions[..|actions|] == actions;
  }

  // ----- Plans -----

  /** Every state that an executable plan reaches respects the fact groups and has
      a code for the mutex groups. */
  ghost predicate Safe(groups: seq<seq<Atom>>, mutex: Encoding, task: StripsTask) {
    forall plan :: PlanOf(task.actions, plan) && Execute(task.init, plan).Reached? ==>
      SafeWorld(groups, mutex, Execute(task.init, plan).s)
  }

  ghost predicate SafeWorld(groups: seq<seq<Atom>>, mutex: Encoding, w: World) {
    Respects(w, groups) && HasCode(mutex, w)
  }

  lemma {:induction false} ExecuteSnoc(w: World, plan: seq<Action>, a: Action)
    requires Execute(w, plan).Reached? && AllTrue(Execute(w, plan).s, a.precondition)
    ensures Execute(w, plan + [a]) == Reached(Apply(Execute(w, plan).s, a), Execute(w, plan).cost + a.cost)
    decreases |plan|
  {
    if plan == [] {
      assert (plan + [a])[0] == a && (plan + [a])[1..] == [];
    } else {
      assert (plan + [a])[0] == plan[0] && (plan + [a])[1..] == plan[1..] + [a];
      ExecuteSnoc(Apply(w, plan[0]), plan[1..], a);
    }
  }

  /** `w` is reached by `prefix`, and `s` encodes it. */
  ghost predicate Tracks(enc: Encoding, mutex: Encoding, task: StripsTask, prefix: seq<Action>, s: Sas.State,
      w: World) {
    && PlanOf(task.actions, prefix) && Execute(task.init, prefix).Reached? && Execute(task.init, prefix).s == w
    && Legal(enc, mutex, s, w)
  }

  lemma StepIsSafe(groups: seq<seq<Atom>>, enc: Encoding, mutex: Encoding, task: StripsTask, prefix: seq<Action>,
      s: Sas.State, w: World, a: Action)
    requires Safe(groups, mutex, task) && Tracks(enc, mutex, task, prefix, s, w)
    requires a in task.actions && AllTrue(w, a.precondition)
    ensures SafeWorld(groups, mutex, Apply(w, a))
    ensures forall u :: Encodes(enc, u, Apply(w, a)) ==> Tracks(enc, mutex, task, prefix + [a], u, Apply(w, a))
  {
    hide Encodes, Respects;
    ExecuteSnoc(task.init, prefix, a);
    assert PlanOf(task.actions, prefix + [a]);
  }

  /** An applicable operator of the task belongs to an action that takes the same step. */
  lemma OperatorStep(groups: seq<seq<Atom>>, enc: Encoding, mutex: Encoding, task: StripsTask,
      blocks: seq<seq<Sas.Operator>>, ops: seq<Sas.Operator>, prefix: seq<Action>, s: Sas.State, w: World, op: Sas.Operator)
      returns (a: Action)
    requires Safe(groups, mutex, task) && BlocksOf(groups, enc, mutex, task.actions, blocks, ops)
    requires Tracks(enc, mutex, task, prefix, s, w) && op in ops && Sas.Applicable(op, s)
    ensures a in task.actions && AllTrue(w, a.precondition) && a.cost == op.cost && a.name == op.name
    ensures Tracks(enc, mutex, task, prefix + [a], Sas.Successor(op, s), Apply(w, a))
  {
    hide Encodes, Respects, AllTrue, Safe;
    var i :| 0 <= i < |blocks| && op in blocks[i];
    a := task.actions[i];
    var k :| 0 <= k < |blocks[i]| && blocks[i][k] == op;
    assert Compiled(groups, enc, mutex, a, blocks[i]);
    assert StepCompiled(groups, enc, a, blocks[i], s, w);
    StepIsSafe(groups, enc, mutex, task, prefix, s, w, a);
  }

  /** A plan of the finite-domain task is a plan of the STRIPS task of the same names and cost. */
  lemma {:induction false} PlansBack(groups: seq<seq<Atom>>, enc: Encoding, mutex: Encoding, task: StripsTask,
      blocks: seq<seq<Sas.Operator>>, ops: seq<Sas.Operator>, prefix: seq<Action>, s: Sas.State, w: World,
      plan: seq<Sas.Operator>) returns (q: seq<Action>, prefix': seq<Action>)
    requires Safe(groups, mutex, task) && BlocksOf(groups, enc, mutex, task.actions, blocks, ops)
    requires Tracks(enc, mutex, task, prefix, s, w)
    requires Sas.PlanOf(ops, plan) && Sas.Execute(s, plan).Reached?
    ensures PlanOf(task.actions, q) && Execute(w, q).Reached? && Execute(w, q).cost == Sas.Execute(s, plan).cost
    ensures Names(q) == Sas.Names(plan)
    ensures Tracks(enc, mutex, task, prefix', Sas.Execute(s, plan).s, Execute(w, q).s)
    decreases |plan|
  {
    hide Tracks, Safe, BlocksOf, AllTrue;
    if plan == [] {
      q, prefix' := [], prefix;
    } else {
      assert plan[0] in ops;
      var a := OperatorStep(groups, enc, mutex, task, blocks, ops, prefix, s, w, plan[0]);
      var rest;
      rest, prefix' := PlansBack(groups, enc, mutex, task, blocks, ops, prefix + [a], Sas.Successor(plan[0], s),
        Apply(w, a), plan[1..]);
      q := [a] + rest;
      assert q[0] == a && q[1..] == rest;
      assert Names(q)[1..] == Names(rest) && Sas.Names(plan)[1..] == Sas.Names(plan[1..]);
    }
  }

  /** An applicable action has an applicable operator that takes the same step, or
      leaves the code as it is. */
  lemma ActionStep(groups: seq<seq<Atom>>, enc: Encoding, mutex: Encoding, task: StripsTask,
      blocks: seq<seq<Sas.Operator>>, ops: seq<Sas.Operator>, prefix: seq<Action>, s: Sas.State, w: World, a: Action)
      returns (step: Option<Sas.Operator>)
    requires Safe(groups, mutex, task) && BlocksOf(groups, enc, mutex, task.actions, blocks, ops)
    requires Tracks(enc, mutex, task, prefix, s, w) && a in task.actions && AllTrue(w, a.precondition)
    ensures step.Some? ==> step.value in ops && Sas.Applicable(step.value, s) && step.value.cost == a.cost
    ensures step.Some? ==> step.value.name == a.name
    ensures step.Some? ==> Tracks(enc, mutex, task, prefix + [a], Sas.Successor(step.value, s), Apply(w, a))
    ensures step.None? ==> Tracks(enc, mutex, task, prefix + [a], s, Apply(w, a))
  {
    hide Encodes, Respects, AllTrue, Safe;
    var i :| 0 <= i < |task.actions| && task.actions[i] == a;
    assert Compiled(groups, enc, mutex, a, blocks[i]);
    assert StepCompiled(groups, enc, a, blocks[i], s, w);
    StepIsSafe(groups, enc, mutex, task, prefix, s, w, a);
    if AnyApplicable(blocks[i], s) {
      var k :| 0 <= k < |blocks[i]| && Sas.Applicable(blocks[i][k], s);
      assert blocks[i][k] in ops;
      step := Some(blocks[i][k]);
    } else {
      step := None;
    }
  }

  /** A plan of the STRIPS task gives one of the finite-domain task that costs no more and
      drops steps that change nothing. */
  lemma {:induction false} PlansForth(groups: seq<seq<Atom>>, enc: Encoding, mutex: Encoding, task: StripsTask,
      blocks: seq<seq<Sas.Operator>>, ops: seq<Sas.Operator>, prefix: seq<Action>, s: Sas.State, w: World,
      plan: seq<Action>) returns (q: seq<Sas.Operator>, prefix': seq<Action>)
    requires Safe(groups, mutex, task) && BlocksOf(groups, enc, mutex, task.actions, blocks, ops)
    requires Tracks(enc, mutex, task, prefix, s, w) && forall i :: 0 <= i < |task.actions| ==> task.actions[i].cost >= 0
    requires PlanOf(task.actions, plan) && Execute(w, plan).Reached?
    ensures Sas.PlanOf(ops, q) && Sas.Execute(s, q).Reached? && Sas.Execute(s, q).cost <= Execute(w, plan).cost
    ensures Sublist(Sas.Names(q), Names(plan))
    ensures Tracks(enc, mutex, task, prefix', Sas.Execute(s, q).s, Execute(w, plan).s)
    decreases |plan|
  {
    hide Tracks, Safe, BlocksOf, AllTrue;
    if plan == [] {
      q, prefix' := [], prefix;
    } else {
      var a := plan[0];
      assert a in task.actions && Names(plan)[1..] == Names(plan[1..]);
      var step := ActionStep(groups, enc, mutex, task, blocks, ops, prefix, s, w, a);
      if step.Some? {
        var rest;
        rest, prefix' := PlansForth(groups, enc, mutex, task, blocks, ops, prefix + [a], Sas.Successor(step.value, s),
          Apply(w, a), plan[1..]);
        q := [step.value] + rest;
        assert q[0] == step.value && q[1..] == rest && Sas.Names(q)[1..] == Sas.Names(rest);
      } else {
        q, prefix' := PlansForth(groups, enc, mutex, task, blocks, ops, prefix + [a], s, Apply(w, a), plan[1..]);
      }
    }
  }

  // ----- The goal -----

  lemma {:induction false} SettledStays(enc: Encoding, actions: seq<Action>, w: World, c: seq<Literal>,
      plan: seq<Action>)
    requires forall i :: 0 <= i < |actions| ==> KnownAction(enc, actions[i])
    requires PlanOf(actions, plan) && Execute(w, plan).Reached? && Settled(enc, w, c)
    ensures Settled(enc, Execute(w, plan).s, c)
    decreases |plan|
  {
    if plan != [] {
      var a := plan[0];
      assert a in actions;
      forall i | 0 <= i < |c| && c[i].atom !in enc.dictionary ensures True(Apply(w, a), c[i]) {
        assert KnownEffects(enc, a.addEffects) && KnownEffects(enc, a.delEffects);
        assert c[i].atom in Apply(w, a) <==> c[i].atom in w;
      }
      SettledStays(enc, actions, Apply(w, a), c, plan[1..]);
    }
  }

  /** On tracked states the goal is true exactly when an assignment of its translation holds. */
  lemma GoalMeaning(enc: Encoding, mutex: Encoding, task: StripsTask, r: Option<seq<Conditions.Condition>>,
      prefix: seq<Action>, s: Sas.State, w: World)
    requires KnownTask(enc, task) && Exact(enc, mutex, task.goal, r) && Tracks(enc, mutex, task, prefix, s, w)
    ensures AllTrue(w, task.goal) <==> r.Some? && Conditions.Picks(s, r.value)
  {
    hide KnownAction, Conditions.Picks, AllTrue;
    SettledStays(enc, task.actions, task.init, task.goal, prefix);
  }

  lemma OneAssignment(s: Sas.State, m: Conditions.Condition)
    ensures Conditions.Picks(s, [m]) <==> Sas.Satisfies(s, Sas.Items(m))
  {
    PicksOne(s, m);
    OperatorBuilding.ItemsMean(s, m);
  }

  // ----- The whole task -----

  /** The tasks have plans of the same names and costs, except that the second may save
      actions that change nothing. */
  ghost predicate PlansPreserved(before: StripsTask, after: Sas.Task) {
    && (forall names, c :: Sas.SolvableBy(after, names, c) ==> SolvableBy(before, names, c))
    && (forall names, c :: SolvableBy(before, names, c) ==> Sas.SolvableWithin(after, names, c))
  }

  function TrivialTask(solvable: bool): Sas.Task {
    Sas.Task([2], [0], [Sas.Fact(0, if solvable then 0 else 1)], [])
  }

  lemma TrivialPlans(solvable: bool, names: seq<string>, c: int)
    ensures Sas.SolvableBy(TrivialTask(solvable), names, c) <==> solvable && names == [] && c == 0
    ensures Sas.ValidTask(TrivialTask(solvable)) && TrivialTask(solvable).ranges == [2]
    ensures TrivialTask(solvable).operators == []
  {
    var t := TrivialTask(solvable);
    forall plan | Sas.SolvesWithCost(t, plan, c) ensures solvable && plan == [] && c == 0 {
      assert Sas.Execute(t.init, plan) == Sas.Reached(t.init, 0);
      assert Sas.Holds(t.init, t.goal[0]);
    }
    if solvable && names == [] && c == 0 { assert Sas.SolvesWithCost(t, [], 0) && Sas.Names([]) == []; }
  }

  /** What `Tracks` needs at the start. */
  lemma StartTracks(groups: seq<seq<Atom>>, enc: Encoding, mutex: Encoding, task: StripsTask, s: Sas.State)
    requires Safe(groups, mutex, task) && Encodes(enc, s, task.init)
    ensures Tracks(enc, mutex, task, [], s, task.init)
  {
    assert Execute(task.init, []) == Reached(task.init, 0);
    assert SafeWorld(groups, mutex, task.init);
  }

  lemma UnreachableGoal(groups: seq<seq<Atom>>, enc: Encoding, mutex: Encoding, task: StripsTask)
    requires IsEncoding(groups, enc) && KnownTask(enc, task) && Exact(enc, mutex, task.goal, None)
    requires Safe(groups, mutex, task)
    ensures forall names, c :: !SolvableBy(task, names, c)
  {
    forall c, plan | SolvesWithCost(task, plan, c) ensures false {
      var w := Execute(task.init, plan).s;
      assert SafeWorld(groups, mutex, w);
      EncodeEncodes(groups, enc, w);
      assert Tracks(enc, mutex, task, plan, Encode(groups, w), w);
      GoalMeaning(enc, mutex, task, None, plan, Encode(groups, w), w);
    }
  }

  lemma UnsolvablePreserves(task: StripsTask)
    requires forall names, c :: !SolvableBy(task, names, c)
    ensures PlansPreserved(task, TrivialTask(false))
  {
    forall names, c { TrivialPlans(false, names, c); }
  }

  lemma {:induction false} CostsNonNegative(actions: seq<Action>, w: World, plan: seq<Action>)
    requires (forall i :: 0 <= i < |actions| ==> actions[i].cost >= 0) && PlanOf(actions, plan)
    ensures Execute(w, plan).Reached? ==> Execute(w, plan).cost >= 0
    decreases |plan|
  {
    if plan != [] {
      assert plan[0] in actions;
      CostsNonNegative(actions, Apply(w, plan[0]), plan[1..]);
    }
  }

  lemma SolvedPreserves(enc: Encoding, task: StripsTask)
    requires KnownTask(enc, task) && AllTrue(task.init, task.goal)
    ensures PlansPreserved(task, TrivialTask(true))
  {
    assert SolvesWithCost(task, [], 0) && Names([]) == [];
    forall names, c ensures Sas.SolvableBy(TrivialTask(true), names, c) ==> SolvableBy(task, names, c) {
      TrivialPlans(true, names, c);
    }
    forall names, c | SolvableBy(task, names, c) ensures Sas.SolvableWithin(TrivialTask(true), names, c) {
      var plan :| SolvesWithCost(task, plan, c) && Names(plan) == names;
      CostsNonNegative(task.actions, task.init, plan);
      SolvedAtOnce(names, c);
    }
  }

  lemma SolvedAtOnce(names: seq<string>, c: int)
    requires c >= 0
    ensures Sas.SolvableWithin(TrivialTask(true), names, c)
  {
    var t := TrivialTask(true);
    assert Sas.Execute(t.init, []) == Sas.Reached(t.init, 0) && Sas.Satisfies(t.init, t.goal);
    assert Sas.SolvesWithCost(t, [], 0) && Sublist(Sas.Names([]), names);
  }

  /** Everything about the produced task except plans. */
  ghost predicate Built(groups: seq<seq<Atom>>, enc: Encoding, mutex: Encoding, task: StripsTask,
      blocks: seq<seq<Sas.Operator>>, m: Conditions.Condition, t: Sas.Task)
  {
    && t.ranges == enc.ranges && Encodes(enc, t.init, task.init) && t.goal == Sas.Items(m)
    && Exact(enc, mutex, task.goal, Some([m])) && BlocksOf(groups, enc, mutex, task.actions, blocks, t.operators)
  }

  lemma BuiltForth(groups: seq<seq<Atom>>, enc: Encoding, mutex: Encoding, task: StripsTask,
      blocks: seq<seq<Sas.Operator>>, m: Conditions.Condition, t: Sas.Task, plan: seq<Action>, c: int)
    requires Built(groups, enc, mutex, task, blocks, m, t) && KnownTask(enc, task)
    requires Safe(groups, mutex, task) && SolvesWithCost(task, plan, c)
    ensures Sas.SolvableWithin(t, Names(plan), c)
  {
    hide Encodes, Exact, BlocksOf, KnownAction, Safe, Sas.Satisfies, AllTrue, Conditions.Picks;
    StartTracks(groups, enc, mutex, task, t.init);
    var q, prefix := PlansForth(groups, enc, mutex, task, blocks, t.operators, [], t.init, task.init, plan);
    var s := Sas.Execute(t.init, q).s;
    GoalMeaning(enc, mutex, task, Some([m]), prefix, s, Execute(task.init, plan).s);
    OneAssignment(s, m);
    assert Sas.SolvesWithCost(t, q, Sas.Execute(t.init, q).cost);
  }

  lemma BuiltBack(groups: seq<seq<Atom>>, enc: Encoding, mutex: Encoding, task: StripsTask,
      blocks: seq<seq<Sas.Operator>>, m: Conditions.Condition, t: Sas.Task, plan: seq<Sas.Operator>, c: int)
    requires Built(groups, enc, mutex, task, blocks, m, t) && KnownTask(enc, task)
    requires Safe(groups, mutex, task) && Sas.SolvesWithCost(t, plan, c)
    ensures SolvableBy(task, Sas.Names(plan), c)
  {
    hide Encodes, Exact, BlocksOf, KnownAction, Safe, Sas.Satisfies, AllTrue, Conditions.Picks;
    StartTracks(groups, enc, mutex, task, t.init);
    var q, prefix := PlansBack(groups, enc, mutex, task, blocks, t.operators, [], t.init, task.init, plan);
    var w := Execute(task.init, q).s;
    GoalMeaning(enc, mutex, task, Some([m]), prefix, Sas.Execute(t.init, plan).s, w);
    OneAssignment(Sas.Execute(t.init, plan).s, m);
    assert SolvesWithCost(task, q, c);
  }

  lemma BuiltPreserves(groups: seq<seq<Atom>>, enc: Encoding, mutex: Encoding, task: StripsTask,
      blocks: seq<seq<Sas.Operator>>, m: Conditions.Condition, t: Sas.Task)
    requires Built(groups, enc, mutex, task, blocks, m, t) && KnownTask(enc, task) && Safe(groups, mutex, task)
    ensures PlansPreserved(task, t)
  {
    hide Built, KnownTask, Safe;
    forall names, c | Sas.SolvableBy(t, names, c) ensures SolvableBy(task, names, c) {
      var plan :| Sas.SolvesWithCost(t, plan, c) && Sas.Names(plan) == names;
      BuiltBack(groups, enc, mutex, task, blocks, m, t, plan, c);
    }
    forall names, c | SolvableBy(task, names, c) ensures Sas.SolvableWithin(t, names, c) {
      var plan :| SolvesWithCost(task, plan, c) && Names(plan) == names;
      BuiltForth(groups, enc, mutex, task, blocks, m, t, plan, c);
    }
  }

  predicate NoIdleEntries(t: Sas.Task) {
    forall k :: 0 <= k < |t.operators| ==> NoIdleEntry(t.operators[k])
  }

  lemma BuiltIsValidTask(groups: seq<seq<Atom>>, enc: Encoding, mutex: Encoding, task: StripsTask,
      blocks: seq<seq<Sas.Operator>>, m: Conditions.Condition, t: Sas.Task)
    requires Built(groups, enc, mutex, task, blocks, m, t) && IsEncoding(groups, enc)
    requires (forall v :: 0 <= v < |groups| ==> groups[v] != []) && m.Keys != {}
    ensures Sas.ValidTask(t) && NoIdleEntries(t)
  {
    hide Sas.ValidOperator, NoIdleEntry, StepCompiled;
    forall k | 0 <= k < |t.operators|
      ensures Sas.ValidOperator(t.ranges, t.operators[k]) && NoIdleEntry(t.operators[k])
    {
      var op := t.operators[k];
      assert op in t.operators;
      var i :| 0 <= i < |blocks| && op in blocks[i];
      assert Compiled(groups, enc, mutex, task.actions[i], blocks[i]);
    }
    assert Conditions.ValidMap(enc.ranges, [m][0]);
    forall i | 0 <= i < |t.goal| ensures Sas.ValidFact(t.ranges, t.goal[i]) { assert t.goal[i] in t.goal; }
    var v := Member(m.Keys);
    assert Sas.Fact(v, m[v]) in t.goal;
  }

  datatype TaskResult = InconsistentInit | NegativeGoal | Produced(task: Sas.Task)

  /** What the goal's translation says about its literals. */
  ghost predicate GoalOutcome(groups: seq<seq<Atom>>, mutexGroups: seq<seq<Atom>>, goal: seq<Literal>,
      r: Option<seq<Conditions.Condition>>)
  {
    && (r.None? <==> Clash(groups, goal) || Clash(mutexGroups, goal))
    && (r.Some? ==> (|r.value| == 1 <==> !AnyOpen(groups, goal)))
  }

  /** Which of the results comes out: the assertion about the initial state fails, the
      one about the goal fails, the goal clashes, or the task is built. */
  ghost predicate ResultOf(groups: seq<seq<Atom>>, mutexGroups: seq<seq<Atom>>, enc: Encoding, mutex: Encoding,
      task: StripsTask, r: TaskResult)
  {
    var clash := Clash(groups, task.goal) || Clash(mutexGroups, task.goal);
    && (r.InconsistentInit? <==> !Respects(task.init, groups))
    && (r.NegativeGoal? <==> Respects(task.init, groups) && !clash && AnyOpen(groups, task.goal))
    && (r.Produced? ==> if clash then r.task == TrivialTask(false) else BuiltOrEmpty(groups, enc, mutex, task, r.task))
  }

  ghost predicate BuiltOrEmpty(groups: seq<seq<Atom>>, enc: Encoding, mutex: Encoding, task: StripsTask, t: Sas.Task) {
    || (t == TrivialTask(true) && Exact(enc, mutex, task.goal, Some([map[]])))
    || exists blocks, m :: Built(groups, enc, mutex, task, blocks, m, t)
  }

  /**
    translate_task.  The two assertions of the source are results here: the first
    fails exactly when the initial state violates a fact group; the second exactly
    when the goal clashes with no group and some group stays open.  Otherwise the
    result is a valid task that keeps the plans.
   */
  method TranslateTask(ghost groups: seq<seq<Atom>>, task: StripsTask, enc: Encoding, mutex: Encoding)
      returns (r: TaskResult)
    requires IsEncoding(groups, enc) && Partial(enc.dictionary) && WellFormed(mutex) && KnownTask(enc, task)
    requires forall v :: 0 <= v < |groups| ==> groups[v] != []
    ensures r.InconsistentInit? <==> !Respects(task.init, groups)
    ensures forall all :: IsEncoding(all, mutex) ==> ResultOf(groups, all, enc, mutex, task, r)
    ensures r.Produced? ==> Sas.ValidTask(r.task) && NoIdleEntries(r.task)
    ensures r.Produced? && Safe(groups, mutex, task) ==> PlansPreserved(task, r.task)
  {
    hide Safe, PlansPreserved, Encodes, Exact, BlocksOf, KnownAction, Respects, IsEncoding, WellFormed, Sas.ValidTask,
      Translated, Clash, AnyOpen, BuiltOrEmpty, Built, NoIdleEntries, Partial, KnownTask;
    var init := EncodeInit(groups, enc, task.init);
    if init.None? { return InconsistentInit; }
    EncodingIsWellFormed(groups, enc);
    var goal := TranslateStripsConditions(task.goal, enc, mutex);
    forall all | IsEncoding(all, mutex) ensures GoalOutcome(groups, all, task.goal, goal) {
      TranslationOutcome(groups, enc, all, mutex, task.goal, goal);
    }
    if goal.None? {
      if Safe(groups, mutex, task) {
        UnreachableGoal(groups, enc, mutex, task);
        UnsolvablePreserves(task);
      }
      TrivialIsValid(false);
      return Produced(TrivialTask(false));
    }
    if |goal.value| != 1 { return NegativeGoal; }
    var m := goal.value[0];
    assert goal.value == [m];
    if m.Keys == {} {
      if Safe(groups, mutex, task) {
        EmptyGoal(groups, enc, mutex, task, init.value, m);
        SolvedPreserves(enc, task);
      }
      TrivialIsValid(true);
      NoConditions(groups, enc, mutex, task, m);
      return Produced(TrivialTask(true));
    }
    ActionsKnown(enc, task);
    var ops, blocks := TranslateStripsOperators(groups, task.actions, enc, mutex);
    var t := Sas.Task(enc.ranges, init.value, Sas.Items(m), ops);
    TaskIsBuilt(groups, enc, mutex, task, blocks, m, t);
    BuiltIsValidTask(groups, enc, mutex, task, blocks, m, t);
    if Safe(groups, mutex, task) { BuiltPreserves(groups, enc, mutex, task, blocks, m, t); }
    return Produced(t);
  }

  lemma ActionsKnown(enc: Encoding, task: StripsTask)
    requires KnownTask(enc, task)
    ensures forall i :: 0 <= i < |task.actions| ==> KnownAction(enc, task.actions[i]) && task.actions[i].cost >= 0
  {
  }

  lemma TrivialIsValid(solvable: bool)
    ensures Sas.ValidTask(TrivialTask(solvable)) && NoIdleEntries(TrivialTask(solvable))
  {
    TrivialPlans(solvable, [], 0);
  }

  lemma NoConditions(groups: seq<seq<Atom>>, enc: Encoding, mutex: Encoding, task: StripsTask, m: Conditions.Condition)
    requires Exact(enc, mutex, task.goal, Some([m])) && m.Keys == {}
    ensures BuiltOrEmpty(groups, enc, mutex, task, TrivialTask(true))
  {
    hide Exact;
    assert m == map[];
  }

  lemma TaskIsBuilt(groups: seq<seq<Atom>>, enc: Encoding, mutex: Encoding, task: StripsTask,
      blocks: seq<seq<Sas.Operator>>, m: Conditions.Condition, t: Sas.Task)
    requires t.ranges == enc.ranges && Encodes(enc, t.init, task.init) && t.goal == Sas.Items(m)
    requires Exact(enc, mutex, task.goal, Some([m])) && BlocksOf(groups, enc, mutex, task.actions, blocks, t.operators)
    ensures Built(groups, enc, mutex, task, blocks, m, t) && BuiltOrEmpty(groups, enc, mutex, task, t)
  {
    hide Encodes, Exact, BlocksOf;
    assert Built(groups, enc, mutex, task, blocks, m, t);
  }

  lemma EmptyGoal(groups: seq<seq<Atom>>, enc: Encoding, mutex: Encoding, task: StripsTask, s: Sas.State,
      m: Conditions.Condition)
    requires Safe(groups, mutex, task) && Encodes(enc, s, task.init) && KnownTask(enc, task)
    requires Exact(enc, mutex, task.goal, Some([m])) && m.Keys == {}
    ensures AllTrue(task.init, task.goal)
  {
    StartTracks(groups, enc, mutex, task, s);
    GoalMeaning(enc, mutex, task, Some([m]), [], s, task.init);
    assert Conditions.SatMap(s, [m][0]);
  }
}
