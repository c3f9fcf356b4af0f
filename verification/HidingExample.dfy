/**
  Filtering does not preserve plans in general: a task whose only operator has an
  entry that requires the value it sets, beside a lower entry for the variable.
 */
module HidingExample {
  import opened Sorting
  import opened Wrappers
  import opened SasTasks
  import opened DomainTransitionGraphs
  import opened Renamings
  import opened OperatorRenaming
  import opened ReachabilityFilter
  import opened Simplify

  const LOWER := PrePost(0, 1, 0, [])
  const IDLE := PrePost(0, 1, 1, [])
  const OP := Operator("op", [], [LOWER, IDLE], 1)
  const TASK := Task([2], [1], [Fact(0, 0)], [OP])
  const DOMS: seq<set<int>> := [{0, 1}]
  const RENAMING := Renaming([Some(0)], [[Val(0), Val(1)]], [2])
  const ARCS: seq<Arcs> := [map[1 := {0, 1}]]
  const NEW_OP := Operator("op", [], [LOWER], 1)

  lemma OpIsValid()
    ensures ValidOperator([2], OP) && ValidTask(TASK)
  {
    EntryOrder();
    assert EntryLess(LOWER, IDLE);
    CanonicalIffSorted(EntryLess, OP.prePost);
  }

  lemma ExampleSetting()
    ensures Setting(TASK, DOMS, RENAMING)
  {
    hide ValidOperator, TaskArc;
    OpIsValid();
    assert Rank({0, 1}, 0) == 0 && Rank({0, 1}, 1) == 1;
    assert |{0, 1}| == 2;
    assert RENAMING.newValues[0] == RegisteredValues(2, 1, {0, 1});
    forall v, u, w | TaskArc(TASK.ranges, TASK.operators, v, u, w) ensures v == 0 && w in {0, 1} {
      ExampleArc(v, u, w);
    }
    assert RENAMING.newVarNos[0] == Some(0);
  }

  lemma ExampleArc(v: int, u: int, w: int)
    requires TaskArc(TASK.ranges, TASK.operators, v, u, w)
    ensures v == 0 && w in {0, 1}
  {
    var i :| 0 <= i < 1 && OperatorArc(TASK.ranges, TASK.operators[i], |TASK.operators[i].prePost|, v, u, w);
    var j :| 0 <= j < 2 && EntryArc(TASK.ranges, OP, OP.prePost[j], v, u, w);
  }

  /** The arcs of the task, along which both values are reachable. */
  lemma ExampleFilter()
    ensures FilterOf(TASK, Filter(ARCS, DOMS, RENAMING))
  {
    hide Setting, TaskArc, CanChange;
    ExampleSetting();
    forall v, u, w | 0 <= v < |ARCS| ensures w in Targets(ARCS[v], u) <==> TaskArc(TASK.ranges, TASK.operators, v, u, w) {
      ArcsExact(u, w);
    }
    OpIsValid();
    ArcsMean(TASK, ARCS);
    assert IsReachableSet(ARCS[0], 1, {0, 1}) by {
      forall s | 1 in s && Closed(ARCS[0], s) ensures {0, 1} <= s {
        assert Targets(ARCS[0], 1) <= s && 0 in Targets(ARCS[0], 1);
      }
    }
  }

  lemma ArcsExact(u: int, w: int)
    ensures TaskArc(TASK.ranges, TASK.operators, 0, u, w) <==> u == 1 && w in {0, 1}
  {
    OpConditions();
    assert TASK.operators[0] == OP && OP.prePost[0] == LOWER && OP.prePost[1] == IDLE;
    if TaskArc(TASK.ranges, TASK.operators, 0, u, w) {
      var i :| 0 <= i < 1 && OperatorArc(TASK.ranges, TASK.operators[i], |TASK.operators[i].prePost|, 0, u, w);
      var j :| 0 <= j < 2 && EntryArc(TASK.ranges, OP, OP.prePost[j], 0, u, w);
    }
    if u == 1 && w == 0 { assert EntryArc(TASK.ranges, OP, OP.prePost[0], 0, 1, 0); }
    if u == 1 && w == 1 { assert EntryArc(TASK.ranges, OP, OP.prePost[1], 0, 1, 1); }
    if u == 1 && w in {0, 1} {
      assert OperatorArc(TASK.ranges, TASK.operators[0], |TASK.operators[0].prePost|, 0, u, w);
    }
  }

  lemma OpConditions()
    ensures ConditionMap(OP) == map[0 := 1] && Items(ConditionMap(OP)) == [Fact(0, 1)]
  {
    assert Dict([]) == map[];
    assert PreMap(map[], []) == map[];
    assert PreMap(map[], [LOWER]) == map[0 := 1] by { assert [LOWER][..0] == []; }
    assert PreMap(map[], [LOWER, IDLE]) == map[0 := 1] by { assert [LOWER, IDLE][..1] == [LOWER]; }
    var items := Items(map[0 := 1]);
    assert Fact(0, 1) in items;
    forall i | 0 <= i < |items| ensures items[i].v == 0 { assert items[i] in items; }
  }

  lemma ConvertOne(r: Renaming, f: Fact, g: Fact)
    requires CoversAll(r, [f]) && Image(r, f, g)
    ensures Convert(r, [f]) == Some([g])
  {
    var c := [f];
    assert c[..0] == [];
    var rest := Convert(r, c[..0]);
    assert rest == Some([]) && rest.value + [g] == [g];
  }

  lemma EntriesTwo(r: Renaming, e: PrePost, d: PrePost, conds: map<int, int>)
    requires CoversEntry(r, e) && CoversEntry(r, d)
    requires TranslateEntry(r, e, conds) == Kept(e) && TranslateEntry(r, d, conds) == Dropped
    ensures TranslateEntries(r, [e, d], conds) == Some([e])
  {
    var one, two := [e], [e, d];
    assert one[..0] == [] && two[..1] == one;
    var rest := TranslateEntries(r, one[..0], conds);
    assert rest == Some([]) && rest.value + [e] == one;
    assert TranslateEntries(r, one, conds) == Some(one);
  }

  lemma SurvivorsOne(op: Operator)
    ensures Survivors([Translated(op)]) == Some([op])
  {
    var results := [Translated(op)];
    assert results[..0] == [];
    var rest := Survivors(results[..0]);
    assert rest == Some([]) && rest.value + [op] == [op];
  }

  lemma OpEntries()
    ensures CoversEntry(RENAMING, LOWER) && CoversEntry(RENAMING, IDLE)
    ensures TranslateEntries(RENAMING, OP.prePost, map[0 := 1]) == Some([LOWER])
  {
    var conds := map[0 := 1];
    assert Convert(RENAMING, []) == Some([]);
    assert TranslateEntry(RENAMING, LOWER, conds) == Kept(LOWER);
    assert TranslateEntry(RENAMING, IDLE, conds) == Dropped;
    EntriesTwo(RENAMING, LOWER, IDLE, conds);
  }

  lemma NewOpIsMade()
    ensures MakeOperator("op", Items(PrevailOf(map[0 := 1], [LOWER])), [LOWER], 1) == NEW_OP
  {
    assert HasEntryFor([LOWER], 0) by { assert [LOWER][0].v == 0; }
    assert PrevailOf(map[0 := 1], [LOWER]) == map[];
    EntryOrder();
    CanonicalIffSorted(EntryLess, [LOWER]);
  }

  lemma ExampleTranslation()
    ensures CoversOperator(RENAMING, OP)
    ensures TranslateOperator(RENAMING, OP) == Translated(NEW_OP)
  {
    OpConditions();
    OpEntries();
    NewOpIsMade();
    ConvertOne(RENAMING, Fact(0, 1), Fact(0, 1));
    assert Dict([Fact(0, 1)]) == map[0 := 1] by { assert [Fact(0, 1)][..0] == []; }
  }

  lemma ExampleGoal()
    ensures CoversAll(RENAMING, TASK.goal) && Convert(RENAMING, TASK.goal) == Some([Fact(0, 0)])
  {
    ConvertOne(RENAMING, Fact(0, 0), Fact(0, 0));
  }

  lemma ExampleInit()
    ensures CoversAll(RENAMING, Enumerate([1])) && ConvertInit(RENAMING, [1]) == Some([1])
  {
    ExampleSetting();
    InitRenamed(TASK, DOMS, RENAMING);
    var t := ConvertInit(RENAMING, [1]).value;
    assert [1][0] == 1 && RENAMING.newVarNos[0] == Some(0);
    assert NewValueOf(RENAMING, Fact(0, [1][0])) == Val(t[0]);
    assert t == [1];
  }

  lemma ExampleFiltered()
    ensures CoversTask(RENAMING, TASK)
    ensures ApplyToTask(RENAMING, TASK) == Filtered(Task([2], [1], [Fact(0, 0)], [NEW_OP]))
  {
    ExampleTranslation();
    ExampleInit();
    ExampleGoal();
    var results := Results(RENAMING, TASK.operators);
    assert results == [Translated(NEW_OP)];
    SurvivorsOne(NEW_OP);
  }

  lemma {:induction false} OriginalStandsStill(plan: seq<Operator>)
    requires PlanOf([OP], plan)
    ensures Execute([1], plan).Reached? ==> Execute([1], plan).s == [1]
    decreases |plan|
  {
    if plan != [] {
      assert plan[0] in [OP] && PlanOf([OP], plan[1..]);
      assert OP.prePost[..1] == [LOWER] && [LOWER][..0] == [];
      assert ApplyEffects([1], [LOWER]) == [0];
      assert Successor(OP, [1]) == [1];
      OriginalStandsStill(plan[1..]);
    }
  }

  lemma OriginalUnsolvable(c: int)
    ensures !SolvableAtCost(TASK, c)
  {
    forall plan ensures !SolvesWithCost(TASK, plan, c) {
      if PlanOf([OP], plan) { OriginalStandsStill(plan); }
      assert !Satisfies([1], TASK.goal) by { assert !Holds([1], TASK.goal[0]); }
    }
  }

  lemma FilteredSolvable()
    ensures SolvableAtCost(Task([2], [1], [Fact(0, 0)], [NEW_OP]), 1)
  {
    var plan := [NEW_OP];
    assert Applicable(NEW_OP, [1]);
    assert Successor(NEW_OP, [1]) == [0] by { assert [LOWER][..0] == []; }
    assert plan[1..] == [] && Execute([0], []) == Outcome.Reached([0], 0);
    assert SolvesWithCost(Task([2], [1], [Fact(0, 0)], [NEW_OP]), plan, 1);
  }

  /** The task has no plan, but the task filtered to its reachable values has one. */
  lemma FilteringCanMakeSolvable()
    ensures ValidTask(TASK) && FilterOf(TASK, Filter(ARCS, DOMS, RENAMING)) && !NoHiding(TASK)
    ensures CoversTask(RENAMING, TASK) && ApplyToTask(RENAMING, TASK).Filtered?
    ensures forall c :: !SolvableAtCost(TASK, c)
    ensures SolvableAtCost(ApplyToTask(RENAMING, TASK).task, 1)
  {
    hide Setting, FilterOf, CoversTask, ApplyToTask, SolvableAtCost;
    OpIsValid();
    ExampleFilter();
    ExampleFiltered();
    FilteredSolvable();
    forall c ensures !SolvableAtCost(TASK, c) { OriginalUnsolvable(c); }
    assert TASK.operators[0] == OP;
    assert !NoHidingEntry(OP) by { assert OP.prePost[1] == IDLE && OP.prePost[0] == LOWER; }
  }
}
