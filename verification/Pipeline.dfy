/**
  The translator from grounded STRIPS to the final task (translate.py:540-589):
  choosing fact groups, translating, filtering unreachable propositions, and
  reordering and filtering variables.  Plans, their names and costs survive the whole
  pipeline when the candidate groups are mutexes.
 */
module Pipeline {
  import opened Wrappers
  import opened Strips = Strips
  import opened FactGroups
  import opened Encodings
  import opened ConditionTranslation
  import opened GoalAssertion
  import opened TaskTranslation
  import opened BuiltOperators
  import Sas = SasTasks
  import Simplify
  import ReachabilityFilter
  import VariableOrder
  import Projection
  import Renamings

  // ----- Mutex groups -----

  /** The candidates, and then each atom that is in none of them, once. */
  ghost predicate MutexGroupsOf(groups: seq<seq<Atom>>, atoms: set<Atom>, all: seq<seq<Atom>>) {
    && |groups| <= |all| && all[..|groups|] == groups && AllFacts(all) == AllFacts(groups) + atoms
    && Distinct(all[|groups|..])
    && forall k :: |groups| <= k < |all| ==> |all[k]| == 1 && all[k][0] in atoms - AllFacts(groups)
  }

  /** collect_all_mutex_groups: the candidates, and every other atom by itself. */
  method CollectAllMutexGroups(groups: seq<seq<Atom>>, atoms: set<Atom>) returns (r: seq<seq<Atom>>)
    ensures MutexGroupsOf(groups, atoms, r)
  {
    var uncovered := atoms;
    for i := 0 to |groups|
      invariant uncovered == atoms - AllFacts(groups[..i])
    {
      hide AllFacts;
      assert groups[..i + 1] == groups[..i] + [groups[i]];
      AllFactsGrows(groups[..i], groups[i]);
      uncovered := uncovered - SetOf(groups[i]);
    }
    assert groups[..|groups|] == groups;
    var rest := ListOf(uncovered);
    assert SetOf(rest) == uncovered;
    JoinFacts(groups, rest);
    hide AllFacts;
    r := groups + Singletons(rest);
    SinglesDiffer(groups, rest, r);
  }

  lemma SinglesDiffer(groups: seq<seq<Atom>>, rest: seq<Atom>, r: seq<seq<Atom>>)
    requires r == groups + Singletons(rest) && Distinct(rest)
    ensures Distinct(r[|groups|..]) && forall k :: |groups| <= k < |r| ==> |r[k]| == 1 && r[k][0] in SetOf(rest)
  {
    var singles := r[|groups|..];
    assert singles == Singletons(rest);
    forall i, j | 0 <= i < j < |singles| ensures singles[i] != singles[j] {
      assert singles[i][0] == rest[i] && singles[j][0] == rest[j];
    }
    forall k | |groups| <= k < |r| ensures r[k] == [rest[k - |groups|]] { assert r[k] == singles[k - |groups|]; }
  }

  lemma {:induction false} JoinFacts(r: seq<seq<Atom>>, facts: seq<Atom>)
    ensures AllFacts(r + Singletons(facts)) == AllFacts(r) + SetOf(facts)
  {
    hide AllFacts;
    if facts == [] {
      assert r + Singletons(facts) == r;
    } else {
      var front, x := facts[..|facts| - 1], facts[|facts| - 1];
      assert SetOf(facts) == SetOf(front) + SetOf([x]);
      JoinFacts(r, front);
      AllFactsGrows(r + Singletons(front), [x]);
      assert r + Singletons(front) + [[x]] == r + Singletons(facts);
    }
  }

  /** A chosen group holds facts of one candidate, or a single fact. */
  predicate Within(group: seq<Atom>, groups: seq<seq<Atom>>) {
    |group| == 1 || exists g :: 0 <= g < |groups| && SetOf(group) <= SetOf(groups[g])
  }

  lemma WithinRespects(w: World, groups: seq<seq<Atom>>, group: seq<Atom>)
    requires Respects(w, groups) && Within(group, groups)
    ensures AtMostOne(w, group)
  {
    if |group| != 1 {
      var g :| 0 <= g < |groups| && SetOf(group) <= SetOf(groups[g]);
      forall i, j | 0 <= i < |group| && 0 <= j < |group| && group[i] in w && group[j] in w ensures group[i] == group[j] {
        assert group[i] in SetOf(group) && group[j] in SetOf(group);
        assert AtMostOne(w, groups[g]);
      }
    }
  }

  lemma ChosenWithin(groups: seq<seq<Atom>>, chosen: seq<seq<Atom>>, popped: nat)
    requires popped <= |chosen| && GreedyCover(groups, chosen[..popped])
    requires forall k :: popped <= k < |chosen| ==> |chosen[k]| == 1
    ensures forall k :: 0 <= k < |chosen| ==> chosen[k] != [] && Within(chosen[k], groups)
  {
    forall k | 0 <= k < popped ensures chosen[k] != [] && Within(chosen[k], groups) {
      var r := chosen[..popped];
      assert r[k] == chosen[k] && LargestRemainder(groups, r, k);
      var g :| 0 <= g < |groups| && SetOf(r[k]) == Left(groups[g], r[..k]);
      assert SetOf(chosen[k]) <= SetOf(groups[g]);
    }
  }

  /** The candidates are mutexes: every reachable state respects them. */
  ghost predicate Mutexes(task: StripsTask, groups: seq<seq<Atom>>) {
    forall plan :: PlanOf(task.actions, plan) && Execute(task.init, plan).Reached? ==>
      Respects(Execute(task.init, plan).s, groups)
  }

  lemma MutexesAreSafe(task: StripsTask, groups: seq<seq<Atom>>, chosen: seq<seq<Atom>>, all: seq<seq<Atom>>,
      mutex: Encoding)
    requires Mutexes(task, groups) && IsEncoding(all, mutex)
    requires forall k :: 0 <= k < |chosen| ==> Within(chosen[k], groups)
    requires forall k :: 0 <= k < |all| ==> Within(all[k], groups)
    ensures Safe(chosen, mutex, task)
  {
    forall plan | PlanOf(task.actions, plan) && Execute(task.init, plan).Reached?
      ensures SafeWorld(chosen, mutex, Execute(task.init, plan).s)
    {
      var w := Execute(task.init, plan).s;
      forall k | 0 <= k < |chosen| ensures AtMostOne(w, chosen[k]) { WithinRespects(w, groups, chosen[k]); }
      forall k | 0 <= k < |all| ensures AtMostOne(w, all[k]) { WithinRespects(w, groups, all[k]); }
      EncodeEncodes(all, mutex, w);
    }
  }

  // ----- Inputs -----

  predicate Mentions(atoms: set<Atom>, c: seq<Literal>) {
    forall i :: 0 <= i < |c| ==> c[i].atom in atoms
  }

  predicate EffectsMention(atoms: set<Atom>, es: seq<CondEffect>) {
    forall i :: 0 <= i < |es| ==> es[i].atom in atoms && Mentions(atoms, es[i].conditions)
  }

  /** What grounding provides: the actions mention only reachable atoms, and goal
      literals about other atoms are statically true. */
  predicate Grounded(task: StripsTask, atoms: set<Atom>) {
    && (forall i :: 0 <= i < |task.actions| ==>
          && Mentions(atoms, task.actions[i].precondition) && EffectsMention(atoms, task.actions[i].addEffects)
          && EffectsMention(atoms, task.actions[i].delEffects) && task.actions[i].cost >= 0)
    && (forall i :: 0 <= i < |task.goal| ==> task.goal[i].atom in atoms || True(task.init, task.goal[i]))
  }

  lemma GroundedIsKnown(task: StripsTask, atoms: set<Atom>, groups: seq<seq<Atom>>, enc: Encoding)
    requires Grounded(task, atoms) && IsEncoding(groups, enc) && atoms <= AllFacts(groups)
    ensures KnownTask(enc, task)
  {
    forall a | a in atoms ensures a in enc.dictionary {
      var v :| 0 <= v < |groups| && a in groups[v];
      var i :| 0 <= i < |groups[v]| && groups[v][i] == a;
      var f := Sas.Fact(v, i);
      assert groups[f.v][f.val] == a;
      assert f in Pairs(enc.dictionary, a);
    }
  }

  // ----- The passes after the translation -----

  lemma NoIdleNoHiding(t: Sas.Task)
    requires NoIdleEntries(t)
    ensures ReachabilityFilter.NoHiding(t)
  {
    forall k | 0 <= k < |t.operators| ensures ReachabilityFilter.NoHidingEntry(t.operators[k]) {
      assert NoIdleEntry(t.operators[k]);
    }
  }

  lemma {:induction false} SasCostsNonNegative(ranges: seq<int>, ops: seq<Sas.Operator>, s: Sas.State,
      plan: seq<Sas.Operator>)
    requires Sas.PlanOf(ops, plan) && forall k :: 0 <= k < |ops| ==> Sas.ValidOperator(ranges, ops[k])
    ensures Sas.Execute(s, plan).Reached? ==> Sas.Execute(s, plan).cost >= 0
    decreases |plan|
  {
    if plan != [] {
      assert plan[0] in ops;
      SasCostsNonNegative(ranges, ops, Sas.Successor(plan[0], s), plan[1..]);
    }
  }

  lemma SolvedBySkip(t: Sas.Task)
    requires Sas.ValidTask(t) && Sas.SolvesWithCost(t, [], 0)
    ensures Sas.KeepsPlans(t, TrivialTask(true))
  {
    assert Sas.Names([]) == [];
    forall names, c ensures Sas.SolvableBy(TrivialTask(true), names, c) ==> Sas.SolvableBy(t, names, c) {
      TrivialPlans(true, names, c);
    }
    forall names, c | Sas.SolvableBy(t, names, c) ensures Sas.SolvableWithin(TrivialTask(true), names, c) {
      var plan :| Sas.SolvesWithCost(t, plan, c) && Sas.Names(plan) == names;
      SasCostsNonNegative(t.ranges, t.operators, t.init, plan);
      SolvedAtOnce(names, c);
    }
  }

  lemma NeverSolved(t: Sas.Task)
    requires forall c :: !Sas.SolvableAtCost(t, c)
    ensures Sas.KeepsPlans(t, TrivialTask(false))
  {
    forall names, c ensures !Sas.SolvableBy(TrivialTask(false), names, c) { TrivialPlans(false, names, c); }
    forall names, c ensures !Sas.SolvableBy(t, names, c) { assert !Sas.SolvableAtCost(t, c); }
  }

  lemma Chain(task: StripsTask, a: Sas.Task, b: Sas.Task)
    requires PlansPreserved(task, a) && Sas.KeepsPlans(a, b)
    ensures PlansPreserved(task, b)
  {
    hide Sas.SolvesWithCost;
    forall names, c | SolvableBy(task, names, c) ensures Sas.SolvableWithin(b, names, c) {
      var plan, d :| d <= c && Sas.SolvesWithCost(a, plan, d) && Sublist(Sas.Names(plan), names);
      assert Sas.SolvableBy(a, Sas.Names(plan), d);
      var q, e :| e <= d && Sas.SolvesWithCost(b, q, e) && Sublist(Sas.Names(q), Sas.Names(plan));
      SublistTwice(Sas.Names(q), Sas.Names(plan), names);
    }
  }

  datatype Options = Options(filterUnreachableFacts: bool, reorderVariables: bool, filterUnimportantVars: bool)

  /** What the passes after the translation work with. */
  datatype Passes = Passes(filter: Simplify.Filter, choice: VariableOrder.Choice, order: seq<int>)

  const NO_PASSES := Passes(Simplify.Filter([], [], Renamings.EMPTY), VariableOrder.Choice([], [], [], {}), [])

  /** The first pass: the task renamed to its reachable values, or the task itself. */
  ghost predicate FirstPass(task: Sas.Task, options: Options, p: Passes, r: ReachabilityFilter.FilterResult) {
    if options.filterUnreachableFacts then
      && Simplify.FilterOf(task, p.filter) && ReachabilityFilter.CoversTask(p.filter.renaming, task)
      && r == ReachabilityFilter.ApplyToTask(p.filter.renaming, task)
    else r == ReachabilityFilter.Filtered(task)
  }

  /** The second pass: the task projected to a chosen order, or the task itself. */
  ghost predicate SecondPass(task: Sas.Task, options: Options, p: Passes, result: Sas.Task) {
    if options.reorderVariables || options.filterUnimportantVars then
      && VariableOrder.Chosen(task, options.reorderVariables, options.filterUnimportantVars, p.choice, p.order)
      && Projection.InRange(p.order, |task.ranges|) && |task.init| == |task.ranges|
      && result == Projection.ProjectTask(p.order, task)
    else result == task
  }

  /** The passes one after the other; the exceptions of the first one end in a trivial task. */
  ghost predicate FinishedAs(task: Sas.Task, options: Options, p: Passes, result: Sas.Task) {
    exists r :: FirstPass(task, options, p, r) &&
      match r
      case FilterFailed => false
      case Impossible => result == TrivialTask(false)
      case TriviallySolvable => result == TrivialTask(true)
      case Filtered(middle) => SecondPass(middle, options, p, result)
  }

  /** The filter pass, if it is switched on. */
  method RunFilter(sas: Sas.SasTask, options: Options)
      returns (o: Simplify.Ending, ghost p: Passes, ghost r: ReachabilityFilter.FilterResult)
    requires Sas.ValidTask(sas.Value()) && NoIdleEntries(sas.Value())
    modifies sas
    ensures FirstPass(old(sas.Value()), options, p, r) && Simplify.EndsAs(r, o, sas.Value())
    ensures match o
      case AssertionFailed => false
      case RaisedImpossible => Sas.KeepsPlans(old(sas.Value()), TrivialTask(false))
      case RaisedTriviallySolvable => Sas.KeepsPlans(old(sas.Value()), TrivialTask(true))
      case Normal => Sas.ValidTask(sas.Value()) && Sas.KeepsPlans(old(sas.Value()), sas.Value())
  {
    hide Sas.ValidTask, NoIdleEntries, Sas.SolvableAtCost, Sas.SolvesWithCost, Sas.KeepsPlans, Simplify.FilterOf;
    ghost var task := sas.Value();
    p := NO_PASSES;
    if !options.filterUnreachableFacts {
      Sas.KeepsOwnPlans(task);
      r := ReachabilityFilter.Filtered(task);
      return Simplify.Normal, p, r;
    }
    NoIdleNoHiding(task);
    ghost var f;
    o, f := Simplify.FilterUnreachablePropositions(sas);
    p := p.(filter := f);
    r := ReachabilityFilter.ApplyToTask(f.renaming, task);
    if o.RaisedImpossible? { NeverSolved(task); }
    if o.RaisedTriviallySolvable? { SolvedBySkip(task); }
  }

  /** The variable order pass, if one of its options is switched on. */
  method RunOrder(sas: Sas.SasTask, options: Options, ghost p: Passes) returns (ghost p': Passes)
    requires Sas.ValidTask(sas.Value())
    modifies sas
    ensures p'.filter == p.filter && SecondPass(old(sas.Value()), options, p', sas.Value())
    ensures Sas.KeepsPlans(old(sas.Value()), sas.Value())
    ensures !options.reorderVariables ==> Sas.ValidTask(sas.Value())
  {
    hide Sas.KeepsPlans, VariableOrder.Chosen;
    p' := p;
    if options.reorderVariables || options.filterUnimportantVars {
      ghost var order, choice := VariableOrder.FindAndApplyVariableOrder(sas, options.reorderVariables, options.filterUnimportantVars);
      p' := p.(choice := choice, order := order);
    } else {
      Sas.KeepsOwnPlans(sas.Value());
    }
  }

  /** Filter, reorder and project a translated task. */
  method Finish(task: Sas.Task, options: Options) returns (result: Sas.Task, ghost p: Passes)
    requires Sas.ValidTask(task) && NoIdleEntries(task)
    ensures FinishedAs(task, options, p, result)
    ensures Sas.KeepsPlans(task, result)
    ensures !options.reorderVariables ==> Sas.ValidTask(result)
  {
    hide Sas.ValidTask, NoIdleEntries, Sas.KeepsPlans, FirstPass, SecondPass;
    var sas := new Sas.SasTask(task);
    ghost var r;
    var o;
    o, p, r := RunFilter(sas, options);
    if o.RaisedImpossible? {
      TrivialIsValid(false);
      return TrivialTask(false), p;
    }
    if o.RaisedTriviallySolvable? {
      TrivialIsValid(true);
      return TrivialTask(true), p;
    }
    ghost var middle, first := sas.Value(), p;
    p := RunOrder(sas, options, p);
    Sas.KeepsPlansTwice(task, middle, sas.Value());
    SameFirstPass(task, options, first, p, r);
    return sas.Value(), p;
  }

  lemma SameFirstPass(task: Sas.Task, options: Options, p: Passes, q: Passes, r: ReachabilityFilter.FilterResult)
    requires FirstPass(task, options, p, r) && p.filter == q.filter
    ensures FirstPass(task, options, q, r)
  {
  }

  /** The fact groups: greedy remainders of the candidates, then single atoms. */
  ghost predicate FactGroupsOf(groups: seq<seq<Atom>>, atoms: set<Atom>, chosen: seq<seq<Atom>>, popped: nat) {
    && Disjoint(chosen) && atoms <= AllFacts(chosen) <= atoms + AllFacts(groups)
    && popped <= |chosen| && GreedyCover(groups, chosen[..popped]) && LeftAtMost(groups, chosen[..popped], 1)
    && (forall k :: popped <= k < |chosen| ==> |chosen[k]| == 1)
  }

  /** The goal asks for two facts of a candidate, or for an atom and its negation. */
  predicate GoalClash(groups: seq<seq<Atom>>, atoms: set<Atom>, goal: seq<Literal>) {
    || !Respects(PositiveAtoms(goal), groups)
    || exists a :: a in AllFacts(groups) + atoms && Literal(a, false) in goal && Literal(a, true) in goal
  }

  lemma ClashOfAll(groups: seq<seq<Atom>>, atoms: set<Atom>, chosen: seq<seq<Atom>>, all: seq<seq<Atom>>,
      goal: seq<Literal>)
    requires |groups| <= |all| && all[..|groups|] == groups && AllFacts(all) == AllFacts(groups) + atoms
    requires forall k :: 0 <= k < |all| ==> Within(all[k], groups)
    requires AllFacts(chosen) <= atoms + AllFacts(groups) && forall k :: 0 <= k < |chosen| ==> Within(chosen[k], groups)
    ensures Clash(chosen, goal) || Clash(all, goal) <==> GoalClash(groups, atoms, goal)
  {
    hide AllFacts, AtMostOne, Within;
    var w := PositiveAtoms(goal);
    if Respects(w, groups) {
      forall k | 0 <= k < |chosen| ensures AtMostOne(w, chosen[k]) { WithinRespects(w, groups, chosen[k]); }
      forall k | 0 <= k < |all| ensures AtMostOne(w, all[k]) { WithinRespects(w, groups, all[k]); }
    }
    if Respects(w, all) {
      forall k | 0 <= k < |groups| ensures AtMostOne(w, groups[k]) { assert groups[k] == all[k]; }
    }
  }

  /** What a run of `pddl_to_sas` works with. */
  datatype Run = Run(chosen: seq<seq<Atom>>, popped: nat, all: seq<seq<Atom>>, enc: Encoding, mutex: Encoding,
                     translated: TaskResult, passes: Passes)

  /** The run: fact groups and mutex groups, their encodings, the translation of the task,
      and the passes over it. */
  ghost predicate RunOf(task: StripsTask, groups: seq<seq<Atom>>, atoms: set<Atom>, options: Options, run: Run,
      r: TaskResult)
  {
    && FactGroupsOf(groups, atoms, run.chosen, run.popped) && MutexGroupsOf(groups, atoms, run.all)
    && IsEncoding(run.chosen, run.enc) && IsEncoding(run.all, run.mutex)
    && ResultOf(run.chosen, run.all, run.enc, run.mutex, task, run.translated)
    && match run.translated
       case Produced(t) => r.Produced? && FinishedAs(t, options, run.passes, r.task)
       case _ => r == run.translated
  }

  /** The groups and dictionaries of a task, and what the translation needs of them. */
  method Prepare(task: StripsTask, groups: seq<seq<Atom>>, atoms: set<Atom>)
      returns (enc: Encoding, mutex: Encoding, ghost chosen: seq<seq<Atom>>, ghost popped: nat, ghost all: seq<seq<Atom>>)
    requires Grounded(task, atoms) && forall g :: 0 <= g < |groups| ==> Distinct(groups[g])
    ensures FactGroupsOf(groups, atoms, chosen, popped) && MutexGroupsOf(groups, atoms, all)
    ensures IsEncoding(chosen, enc) && Partial(enc.dictionary) && IsEncoding(all, mutex) && WellFormed(mutex)
    ensures KnownTask(enc, task) && forall v :: 0 <= v < |chosen| ==> chosen[v] != []
    ensures Clash(chosen, task.goal) || Clash(all, task.goal) <==> GoalClash(groups, atoms, task.goal)
    ensures Mutexes(task, groups) ==> Safe(chosen, mutex, task) && Respects(task.init, chosen)
  {
    var mutexGroups := CollectAllMutexGroups(groups, atoms);
    var factGroups;
    factGroups, popped := ChooseGroups(groups, atoms);
    var strips := StripsToSasDictionary(factGroups, true);
    SinglesDistinct(groups, mutexGroups);
    var mutexes := StripsToSasDictionary(mutexGroups, false);
    chosen, all := factGroups, mutexGroups;
    enc, mutex := strips.value, mutexes.value;
    ChosenWithin(groups, chosen, popped);
    AllWithin(groups, all);
    hide Within, Disjoint, GreedyCover, LeftAtMost, AllFacts, Grounded, IsEncoding, KnownTask, WellFormed, Safe, Mutexes,
      Clash, GoalClash, Partial, Distinct;
    EncodingIsWellFormed(all, mutex);
    GroundedIsKnown(task, atoms, chosen, enc);
    ClashOfAll(groups, atoms, chosen, all, task.goal);
    if Mutexes(task, groups) {
      MutexesAreSafe(task, groups, chosen, all, mutex);
      InitRespects(chosen, mutex, task);
    }
  }

  /**
    pddl_to_sas after grounding.  If the candidate groups are mutexes of the STRIPS
    task, then the task that comes out of all passes has a plan exactly when the
    STRIPS task has one; its plans have the names and the cost of some STRIPS plan, and
    every STRIPS plan is matched by one that drops steps and costs no more.  The assertion
    about the goal fails exactly when the goal clashes with no candidate and leaves a fact
    group open.
   */
  method PddlToSas(task: StripsTask, groups: seq<seq<Atom>>, atoms: set<Atom>, options: Options)
      returns (r: TaskResult, ghost run: Run)
    requires Grounded(task, atoms) && forall g :: 0 <= g < |groups| ==> Distinct(groups[g])
    ensures RunOf(task, groups, atoms, options, run, r)
    ensures r.InconsistentInit? <==> !Respects(task.init, run.chosen)
    ensures r.NegativeGoal? <==>
      Respects(task.init, run.chosen) && !GoalClash(groups, atoms, task.goal) && AnyOpen(run.chosen, task.goal)
    ensures r.Produced? && !options.reorderVariables ==> Sas.ValidTask(r.task)
    ensures Mutexes(task, groups) ==> !r.InconsistentInit?
    ensures Mutexes(task, groups) && r.Produced? ==> PlansPreserved(task, r.task)
  {
    hide PlansPreserved, Safe, KnownTask, WellFormed, IsEncoding, Partial, Sas.KeepsPlans, Mutexes, Sas.ValidTask,
      NoIdleEntries, Respects, GoalClash, Clash, AnyOpen, BuiltOrEmpty, FinishedAs, MutexGroupsOf, FactGroupsOf, Grounded;
    var enc, mutex;
    ghost var chosen, popped, all;
    enc, mutex, chosen, popped, all := Prepare(task, groups, atoms);
    r := TranslateTask(chosen, task, enc, mutex);
    assert ResultOf(chosen, all, enc, mutex, task, r);
    run := Run(chosen, popped, all, enc, mutex, r, NO_PASSES);
    if r.Produced? {
      var result;
      ghost var p;
      result, p := Finish(r.task, options);
      if Mutexes(task, groups) { Chain(task, r.task, result); }
      r, run := Produced(result), run.(passes := p);
    }
  }

  lemma SinglesDistinct(groups: seq<seq<Atom>>, all: seq<seq<Atom>>)
    requires |groups| <= |all| && all[..|groups|] == groups && forall g :: 0 <= g < |groups| ==> Distinct(groups[g])
    requires forall k :: |groups| <= k < |all| ==> |all[k]| == 1
    ensures forall k :: 0 <= k < |all| ==> Distinct(all[k])
  {
    forall k | 0 <= k < |groups| ensures Distinct(all[k]) { assert all[k] == groups[k]; }
  }

  lemma AllWithin(groups: seq<seq<Atom>>, all: seq<seq<Atom>>)
    requires |groups| <= |all| && all[..|groups|] == groups
    requires forall k :: |groups| <= k < |all| ==> |all[k]| == 1
    ensures forall k :: 0 <= k < |all| ==> Within(all[k], groups)
  {
    forall k | 0 <= k < |groups| ensures Within(all[k], groups) { assert all[k] == groups[k]; }
  }

  lemma InitRespects(chosen: seq<seq<Atom>>, mutex: Encoding, task: StripsTask)
    requires Safe(chosen, mutex, task)
    ensures Respects(task.init, chosen)
  {
    assert Execute(task.init, []) == Reached(task.init, 0);
    assert SafeWorld(chosen, mutex, Execute(task.init, []).s);
  }
}
