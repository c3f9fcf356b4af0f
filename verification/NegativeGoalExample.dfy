/**
  A solvable task on which the translation fails its assertion about the goal
  (translate.py:467): the goal negates one of two facts of a group, so that the
  variable of the group keeps two values.
 */
module NegativeGoalExample {
  import opened Strips
  import opened GoalAssertion
  import opened TaskTranslation
  import opened Encodings
  import opened FactGroups
  import opened Pipeline

  const HERE := Atom("here", [])
  const THERE := Atom("there", [])
  const GROUPS := [[HERE, THERE]]
  const ATOMS := {HERE, THERE}
  const LEAVE := Action("leave", [Literal(HERE, false)], [CondEffect([], THERE)], [CondEffect([], HERE)], 1)
  const TASK := StripsTask({HERE}, [Literal(HERE, true)], [LEAVE])

  lemma GroupIsOpen()
    ensures AnyOpen(GROUPS, TASK.goal) && !Clash(GROUPS, TASK.goal) && Respects(TASK.init, GROUPS)
  {
    assert GROUPS[0] == [HERE, THERE] && HERE in GROUPS[0] && THERE in GROUPS[0];
    assert TASK.goal == [Literal(HERE, true)] && Literal(HERE, true) in TASK.goal;
    assert HERE.symbol != THERE.symbol;
    assert OpenGroup(GROUPS[0], TASK.goal);
    assert PositiveAtoms(TASK.goal) == {};
  }

  lemma LeavingSolves()
    ensures SolvableAtCost(TASK, 1)
  {
    var plan := [LEAVE];
    var w := Apply(TASK.init, LEAVE);
    assert AllTrue(TASK.init, LEAVE.precondition) && plan[1..] == [];
    assert Fires(TASK.init, LEAVE.delEffects[0]);
    assert Deletes(TASK.init, LEAVE, HERE) && HERE.symbol != THERE.symbol;
    assert !Adds(TASK.init, LEAVE, HERE);
    assert HERE !in w;
    assert Execute(w, plan[1..]) == Reached(w, 0);
    assert Execute(TASK.init, plan) == Reached(w, 1);
    assert SolvesWithCost(TASK, plan, 1);
  }

  /** No translation of the task gets past the assertion. */
  lemma TranslationFails(enc: Encoding, mutex: Encoding, r: TaskResult)
    requires ResultOf(GROUPS, GROUPS, enc, mutex, TASK, r)
    ensures r.NegativeGoal?
  {
    GroupIsOpen();
  }

  lemma NothingTaken(first: seq<seq<Atom>>)
    requires first == []
    ensures Left(GROUPS[0], first) == ATOMS && |ATOMS| == 2
  {
    assert SetOf(GROUPS[0]) == ATOMS by { assert HERE in GROUPS[0] && THERE in GROUPS[0]; }
    assert HERE.symbol != THERE.symbol;
  }

  lemma PairIsChosen(chosen: seq<seq<Atom>>, popped: nat)
    requires FactGroupsOf(GROUPS, ATOMS, chosen, popped)
    ensures |chosen| > 0 && SetOf(chosen[0]) == ATOMS
  {
    hide Disjoint, SizesAtLeast, SizesFall, AllFacts, Left, SetOf;
    var first := chosen[..popped];
    NothingTaken(chosen[..0]);
    assert |Left(GROUPS[0], first)| <= 1;
    assert first != [];
    assert LargestRemainder(GROUPS, first, 0);
    assert first[..0] == chosen[..0];
    var g :| 0 <= g < |GROUPS| && SetOf(first[0]) == Left(GROUPS[g], first[..0]);
  }

  /** The task is a solvable input of the whole pipeline, whose goal leaves every
      choice of fact groups open: the assertion fails. */
  lemma SolvableGoalFails(chosen: seq<seq<Atom>>, popped: nat)
    requires FactGroupsOf(GROUPS, ATOMS, chosen, popped)
    ensures Grounded(TASK, ATOMS) && SolvableAtCost(TASK, 1)
    ensures Respects(TASK.init, chosen) && !GoalClash(GROUPS, ATOMS, TASK.goal) && AnyOpen(chosen, TASK.goal)
  {
    LeavingSolves();
    GoalFails();
    PairIsChosen(chosen, popped);
    LeavesOpen(chosen[0]);
    assert forall k :: 0 <= k < |chosen| ==> AtMostOne(TASK.init, chosen[k]);
  }

  lemma GoalFails()
    ensures Grounded(TASK, ATOMS) && !GoalClash(GROUPS, ATOMS, TASK.goal)
  {
    assert TASK.goal == [Literal(HERE, true)];
    assert PositiveAtoms(TASK.goal) == {};
  }

  lemma LeavesOpen(group: seq<Atom>)
    requires SetOf(group) == ATOMS
    ensures OpenGroup(group, TASK.goal)
  {
    assert HERE in SetOf(group) && THERE in SetOf(group) && HERE.symbol != THERE.symbol;
    assert TASK.goal == [Literal(HERE, true)] && TASK.goal[0] == Literal(HERE, true);
  }
}
