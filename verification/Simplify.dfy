/**
  The simplification pass of simplify.py as it runs: build the domain transition
  graphs, register the reachable values, and rewrite the task in place.
 */
module Simplify {
  import opened Wrappers
  import opened SasTasks
  import opened DomainTransitionGraphs
  import opened Renamings
  import opened OperatorRenaming
  import opened ReachabilityFilter

  /** How `filter_unreachable_propositions` ends: normally or by an exception. */
  datatype Ending = Normal | RaisedImpossible | RaisedTriviallySolvable | AssertionFailed

  class VarValueRenaming {
    var newVarNos: seq<Option<int>>
    var newValues: seq<seq<Value>>
    var newSizes: seq<int>
    var newVarCount: int
    var numRemovedValues: int

    ghost predicate Valid()
      reads this
    {
      newVarCount == |newSizes|
    }

    function Contents(): Renaming
      reads this
    {
      Renaming(newVarNos, newValues, newSizes)
    }

    constructor ()
      ensures Valid() && Contents() == EMPTY && numRemovedValues == 0
    {
      newVarNos, newValues, newSizes := [], [], [];
      newVarCount, numRemovedValues := 0, 0;
    }

    method RegisterVariable(oldDomainSize: int, initValue: int, newDomain: set<int>)
      requires Valid()
      requires 1 <= |newDomain| <= oldDomainSize && initValue in newDomain
      requires forall x :: x in newDomain ==> 0 <= x < oldDomainSize
      modifies this
      ensures Valid()
      ensures Contents() == Register(old(Contents()), oldDomainSize, initValue, newDomain)
      ensures numRemovedValues == old(numRemovedValues) +
        if |newDomain| == 1 then oldDomainSize else oldDomainSize - |newDomain|
    {
      if |newDomain| == 1 {
        var newValuesForVar := seq(oldDomainSize, _ => AlwaysFalse)[initValue := AlwaysTrue];
        assert newValuesForVar == RegisteredValues(oldDomainSize, initValue, newDomain);
        newVarNos := newVarNos + [None];
        newValues := newValues + [newValuesForVar];
        numRemovedValues := numRemovedValues + oldDomainSize;
      } else {
        var counter := 0;
        var newValuesForVar: seq<Value> := [];
        var removed := 0;
        for value := 0 to oldDomainSize
          invariant counter == Rank(newDomain, value) && removed == value - counter
          invariant newValuesForVar == RegisteredValues(value, initValue, newDomain)
        {
          if value in newDomain {
            newValuesForVar := newValuesForVar + [Val(counter)];
            counter := counter + 1;
          } else {
            removed := removed + 1;
            newValuesForVar := newValuesForVar + [AlwaysFalse];
          }
        }
        RankSubset(newDomain, oldDomainSize);
        assert counter == |newDomain|;
        newVarNos := newVarNos + [Some(newVarCount)];
        newValues := newValues + [newValuesForVar];
        newSizes := newSizes + [counter];
        newVarCount := newVarCount + 1;
        numRemovedValues := numRemovedValues + removed;
      }
    }

    /** `None` stands for the exception `Impossible`. */
    method ConvertPairs(pairs: seq<Fact>) returns (o: Option<seq<Fact>>)
      requires CoversAll(Contents(), pairs)
      ensures o == Convert(Contents(), pairs)
    {
      var newPairs := [];
      for i := 0 to |pairs|
        invariant Convert(Contents(), pairs[..i]) == Some(newPairs)
      {
        var pair := pairs[i];
        assert pairs[..i + 1][..i] == pairs[..i];
        var newValue := newValues[pair.v][pair.val];
        if newValue.AlwaysFalse? {
          ImpossibleStays(Contents(), pairs, i);
          return None;
        } else if !newValue.AlwaysTrue? {
          newPairs := newPairs + [Fact(newVarNos[pair.v].value, newValue.n)];
        }
      }
      assert pairs[..|pairs|] == pairs;
      return Some(newPairs);
    }

    method TranslatePrePost(e: PrePost, conditions: map<int, int>) returns (o: EntryResult)
      requires CoversEntry(Contents(), e)
      ensures o == TranslateEntry(Contents(), e, conditions)
    {
      var newPost := newValues[e.v][e.post];
      if newPost.AlwaysTrue? {
        return Dropped;
      }
      var newPre := if e.pre == NO_PRE then Val(NO_PRE) else newValues[e.v][e.pre];
      if newPre.AlwaysFalse? {
        return EntryFailed;
      }
      if newPost == newPre {
        return Dropped;
      }
      var converted := ConvertPairs(e.cond);
      if converted.None? {
        return Dropped;
      }
      var newCond := converted.value;
      for i := 0 to |newCond|
        invariant !Contradicts(conditions, newCond[..i])
      {
        var c := newCond[i];
        if c.v in conditions && conditions[c.v] != c.val {
          return Dropped;
        }
      }
      if newPost.AlwaysFalse? || newPre.AlwaysTrue? {
        return EntryFailed;
      }
      return Kept(PrePost(newVarNos[e.v].value, newPre.n, newPost.n, newCond));
    }

    method ConvertOperator(ghost ranges: seq<int>, op: Operator) returns (o: OperatorResult)
      requires ValidOperator(ranges, op) && CoversOperator(Contents(), op)
      ensures o == TranslateOperator(Contents(), op)
    {
      var applicability := GetApplicabilityConditions(ranges, op);
      var converted := ConvertPairs(applicability);
      if converted.None? {
        return Pruned;
      }
      var conditions := Dict(converted.value);
      var newPrePost := [];
      for i := 0 to |op.prePost|
        invariant TranslateEntries(Contents(), op.prePost[..i], conditions) == Some(newPrePost)
      {
        assert op.prePost[..i + 1][..i] == op.prePost[..i];
        var entry := TranslatePrePost(op.prePost[i], conditions);
        match entry
        case Dropped =>
        case Kept(e) => newPrePost := newPrePost + [e];
        case EntryFailed =>
          FailureStays(Contents(), op.prePost, conditions, i);
          return OperatorFailed;
      }
      assert op.prePost[..|op.prePost|] == op.prePost;
      if newPrePost == [] {
        return Pruned;
      }
      return Translated(MakeOperator(op.name, Items(PrevailOf(conditions, newPrePost)), newPrePost, op.cost));
    }

    /** The new initial values, `None` if an assertion fails. */
    method ApplyToInit(init: seq<int>) returns (o: Option<seq<int>>)
      requires CoversAll(Contents(), Enumerate(init))
      ensures o == ConvertInit(Contents(), init)
    {
      var initPairs := ConvertPairs(Enumerate(init));
      if initPairs.None? {
        return None;
      }
      var values, count := Dict(initPairs.value), |newSizes|;
      if exists k :: 0 <= k < count && k !in values {
        return None;
      }
      var newInit := seq(count, k requires 0 <= k < count && k in values => values[k]);
      assert newInit == ConvertInit(Contents(), init).value;
      return Some(newInit);
    }

    /** The new operators, `None` if an assertion fails. */
    method ApplyToOperators(ghost ranges: seq<int>, operators: seq<Operator>) returns (o: Option<seq<Operator>>)
      requires forall i :: 0 <= i < |operators| ==>
        ValidOperator(ranges, operators[i]) && CoversOperator(Contents(), operators[i])
      ensures o == Survivors(Results(Contents(), operators))
    {
      var newOperators := [];
      ghost var results := Results(Contents(), operators);
      for i := 0 to |operators|
        invariant Survivors(results[..i]) == Some(newOperators)
      {
        var result := ConvertOperator(ranges, operators[i]);
        assert result == results[i];
        SurvivorsStep(results, i, newOperators);
        match result
        case Pruned =>
        case Translated(op) => newOperators := newOperators + [op];
        case OperatorFailed =>
          return None;
      }
      assert results[..|results|] == results;
      return Some(newOperators);
    }

    method ApplyTo(task: SasTask) returns (o: Ending)
      requires ValidTask(task.Value()) && CoversTask(Contents(), task.Value())
      modifies task
      ensures EndsAs(ApplyToTask(Contents(), old(task.Value())), o, task.Value())
    {
      ghost var ranges := task.ranges;
      task.ranges := newSizes;
      var init := ApplyToInit(task.init);
      if init.None? {
        return AssertionFailed;
      }
      task.init := init.value;
      var goal := ConvertPairs(task.goal);
      if goal.None? {
        return RaisedImpossible;
      }
      task.goal := goal.value;
      if task.goal == [] {
        return RaisedTriviallySolvable;
      }
      var operators := ApplyToOperators(ranges, task.operators);
      if operators.None? {
        return AssertionFailed;
      }
      task.operators := operators.value;
      return Normal;
    }
  }

  lemma {:induction false} ImpossibleStays(r: Renaming, c: seq<Fact>, i: nat)
    requires CoversAll(r, c) && i < |c| && NewValueOf(r, c[i]) == AlwaysFalse
    ensures Convert(r, c) == None
  {
    ConvertElements(r, c);
  }

  lemma {:induction false} FailureStays(r: Renaming, es: seq<PrePost>, conds: map<int, int>, i: nat)
    requires forall j :: 0 <= j < |es| ==> CoversEntry(r, es[j])
    requires i < |es| && TranslateEntry(r, es[i], conds) == EntryFailed
    ensures TranslateEntries(r, es, conds) == None
  {
    if i < |es| - 1 { FailureStays(r, es[..|es| - 1], conds, i); }
  }

  lemma SurvivorsStep(results: seq<OperatorResult>, i: nat, before: seq<Operator>)
    requires i < |results| && Survivors(results[..i]) == Some(before)
    ensures match results[i]
      case Pruned => Survivors(results[..i + 1]) == Some(before)
      case Translated(op) => Survivors(results[..i + 1]) == Some(before + [op])
      case OperatorFailed => Survivors(results) == None
  {
    assert results[..i + 1][..i] == results[..i];
    if results[i].OperatorFailed? { SurvivorFailureStays(results, i); }
  }

  lemma {:induction false} SurvivorFailureStays(results: seq<OperatorResult>, i: nat)
    requires i < |results| && results[i] == OperatorFailed
    ensures Survivors(results) == None
  {
    if i < |results| - 1 { SurvivorFailureStays(results[..|results| - 1], i); }
  }

  // ----- The whole pass -----

  predicate IsValue(x: int, size: int) {
    0 <= x < size
  }

  lemma ReachableInRange(task: Task, g: seq<Arcs>, v: nat, dom: set<int>)
    requires ValidTask(task) && ArcsOfTask(g, task.ranges, task.operators) && v < |g|
    requires IsReachableSet(g[v], task.init[v], dom)
    ensures forall x :: x in dom ==> 0 <= x < task.ranges[v]
  {
    var all := set x | 0 <= x < task.ranges[v] && IsValue(x, task.ranges[v]);
    forall u, w | u in all && w in Targets(g[v], u) ensures w in all {
      assert TaskArc(task.ranges, task.operators, v, u, w);
      PostInRange(task, v, u, w);
      assert IsValue(w, task.ranges[v]);
    }
    assert Closed(g[v], all);
    assert task.init[v] in all by { assert IsValue(task.init[v], task.ranges[v]); }
  }

  /** `doms` lists the reachable values of the first variables. */
  ghost predicate Reached(g: seq<Arcs>, init: seq<int>, doms: seq<set<int>>) {
    && |doms| <= |g| == |init|
    && forall v :: 0 <= v < |doms| ==> IsReachableSet(g[v], init[v], doms[v])
  }

  /** The sets the graphs compute are closed domains within the variable ranges. */
  lemma ReachableSetsAreDomains(task: Task, g: seq<Arcs>, doms: seq<set<int>>)
    requires ValidTask(task) && ArcsOfTask(g, task.ranges, task.operators)
    requires |doms| == |task.ranges| && Reached(g, task.init, doms)
    ensures Domains(task, doms)
  {
    forall v, x | 0 <= v < |doms| && x in doms[v] ensures 0 <= x < task.ranges[v] {
      ReachableInRange(task, g, v, doms[v]);
    }
    forall v, u, w | 0 <= v < |doms| && u in doms[v] && TaskArc(task.ranges, task.operators, v, u, w)
      ensures w in doms[v]
    {
      assert w in Targets(g[v], u);
    }
  }

  lemma PostInRange(task: Task, v: int, u: int, w: int)
    requires ValidTask(task) && TaskArc(task.ranges, task.operators, v, u, w)
    ensures 0 <= w < task.ranges[v]
  {
    var i :| 0 <= i < |task.operators| &&
      OperatorArc(task.ranges, task.operators[i], |task.operators[i].prePost|, v, u, w);
    var op := task.operators[i];
    var j :| 0 <= j < |op.prePost| && EntryArc(task.ranges, op, op.prePost[j], v, u, w);
    assert ValidEntry(task.ranges, op.prePost[j]);
  }

  lemma DomainNotEmpty(dom: set<int>, x: int, size: nat)
    requires x in dom && forall y :: y in dom ==> 0 <= y < size
    ensures 1 <= |dom| <= size
  {
    RankSubset(dom, size);
    RankBounded(dom, size);
  }

  lemma {:induction false} RankBounded(dom: set<int>, n: nat)
    ensures Rank(dom, n) <= n
  {
    if n > 0 { RankBounded(dom, n - 1); }
  }

  lemma RegisterStep(task: Task, g: seq<Arcs>, doms: seq<set<int>>, r: Renaming, v: nat, reachable: set<int>)
    requires ValidTask(task) && ArcsOfTask(g, task.ranges, task.operators) && v < |g|
    requires Reached(g, task.init, doms) && |doms| == v && IsReachableSet(g[v], task.init[v], reachable)
    requires Renames(r, task.ranges[..v], task.init[..v], doms)
    ensures Reached(g, task.init, doms + [reachable])
    ensures 1 <= |reachable| <= task.ranges[v] && forall x :: x in reachable ==> 0 <= x < task.ranges[v]
    ensures Renames(Register(r, task.ranges[v], task.init[v], reachable),
                    task.ranges[..v + 1], task.init[..v + 1], doms + [reachable])
  {
    assert |g| == |task.ranges| == |task.init| && ValidTask(task);
    hide Renames, Register, ArcsOfTask, ValidTask;
    ReachableInRange(task, g, v, reachable);
    DomainNotEmpty(reachable, task.init[v], task.ranges[v]);
    RegisterRenames(r, task.ranges[..v], task.init[..v], doms, task.ranges[v], task.init[v], reachable);
    assert task.ranges[..v + 1] == task.ranges[..v] + [task.ranges[v]];
    assert task.init[..v + 1] == task.init[..v] + [task.init[v]];
  }

  method BuildRenaming(dtgs: seq<DomainTransitionGraph>, ghost task: Task)
      returns (renaming: VarValueRenaming, ghost doms: seq<set<int>>)
    requires ValidTask(task) && GraphsFor(dtgs, task.ranges, task.init)
    requires ArcsOfTask(ArcsOf(dtgs), task.ranges, task.operators)
    ensures fresh(renaming) && renaming.Valid()
    ensures |doms| == |dtgs| && Reached(ArcsOf(dtgs), task.init, doms)
    ensures Setting(task, doms, renaming.Contents())
  {
    hide ArcsOfTask, IsReachableSet, ValidTask;
    ghost var g := ArcsOf(dtgs);
    renaming := new VarValueRenaming();
    doms := [];
    for v := 0 to |dtgs|
      invariant fresh(renaming) && renaming.Valid() && |doms| == v && ArcsOf(dtgs) == g
      invariant Reached(g, task.init, doms)
      invariant Renames(renaming.Contents(), task.ranges[..v], task.init[..v], doms)
    {
      var dtg := dtgs[v];
      var reachable := dtg.Reachable();
      RegisterStep(task, g, doms, renaming.Contents(), v, reachable);
      renaming.RegisterVariable(dtg.size, dtg.init, reachable);
      doms := doms + [reachable];
    }
    assert task.ranges[..|dtgs|] == task.ranges && task.init[..|dtgs|] == task.init;
    ReachableSetsAreDomains(task, g, doms);
  }

  /** What the pass works with: the changes of value that the operators can cause, the values
      reachable along them, and the renaming that keeps exactly those. */
  datatype Filter = Filter(arcs: seq<Arcs>, doms: seq<set<int>>, renaming: Renaming)

  ghost predicate FilterOf(task: Task, f: Filter) {
    && ArcsOfTask(f.arcs, task.ranges, task.operators) && ArcsAreChanges(f.arcs, task.ranges, task.operators)
    && |f.doms| == |task.ranges| && Reached(f.arcs, task.init, f.doms) && Setting(task, f.doms, f.renaming)
  }

  /** How the pass ends: with an exception, or with the filtered task. */
  ghost predicate EndsAs(r: FilterResult, o: Ending, after: Task) {
    match r
    case Impossible => o == RaisedImpossible
    case TriviallySolvable => o == RaisedTriviallySolvable
    case FilterFailed => o == AssertionFailed
    case Filtered(small) => o == Normal && after == small
  }

  /** The pass never fails an assertion on a valid task, renames it to exactly the reachable
      values, and leaves a valid task.  An exception decides whether the task is solvable; if
      no entry hides a lower one, the filtered task keeps the plans and their costs. */
  method FilterUnreachablePropositions(task: SasTask) returns (o: Ending, ghost f: Filter)
    requires ValidTask(task.Value())
    modifies task
    ensures FilterOf(old(task.Value()), f) && CoversTask(f.renaming, old(task.Value()))
    ensures EndsAs(ApplyToTask(f.renaming, old(task.Value())), o, task.Value())
    ensures match o
      case AssertionFailed => false
      case RaisedImpossible => forall c :: !SolvableAtCost(old(task.Value()), c)
      case RaisedTriviallySolvable => SolvesWithCost(old(task.Value()), [], 0)
      case Normal =>
        && ValidTask(task.Value())
        && (NeverHides(old(task.Value()), f.doms) ==> KeepsPlans(old(task.Value()), task.Value()))
    ensures NoHiding(old(task.Value())) ==> NeverHides(old(task.Value()), f.doms)
  {
    hide NeverHides, NoHiding, FilterOf, Setting, CoversTask, ValidTask, SolvableAtCost, SolvesWithCost, KeepsPlans;
    ghost var before := task.Value();
    var dtgs := BuildDtgs(task.Value());
    var renaming, doms := BuildRenaming(dtgs, task.Value());
    f := Filter(ArcsOf(dtgs), doms, renaming.Contents());
    assert FilterOf(before, f) by { IsFilter(before, f); }
    FilteredIsValid(before, doms, renaming.Contents());
    FilterPreservesPlans(before, doms, renaming.Contents());
    if NoHiding(before) { NoHidingNeverHides(before, doms); }
    o := renaming.ApplyTo(task);
  }

  lemma IsFilter(task: Task, f: Filter)
    requires ArcsOfTask(f.arcs, task.ranges, task.operators)
    requires |f.doms| == |task.ranges| && Reached(f.arcs, task.init, f.doms) && Setting(task, f.doms, f.renaming)
    ensures FilterOf(task, f)
  {
    hide ArcsOfTask, ArcsAreChanges;
    ArcsMean(task, f.arcs);
  }
}
