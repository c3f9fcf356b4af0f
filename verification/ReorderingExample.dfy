/**
  A valid task that every order the pass can choose makes invalid
  (variable_order.py:270-271, 306-324): one operator forces variable 1 before
  variable 0, and another one sets both, so that its entries end up unsorted.
 */
module ReorderingExample {
  import opened Sorting
  import opened Wrappers
  import opened SasTasks
  import opened CausalGraphs
  import opened Reachability
  import opened Projection
  import opened ProjectionValidity
  import opened VariableOrder

  const MOVE := Operator("move", [Fact(1, 1)], [PrePost(0, NO_PRE, 1, [])], 1)
  const BOTH := Operator("both", [], [PrePost(0, NO_PRE, 1, []), PrePost(1, NO_PRE, 1, [])], 1)
  const TASK := Task([2, 2], [0, 0], [Fact(0, 1)], [MOVE, BOTH])

  lemma MoveValid()
    ensures ValidOperator([2, 2], MOVE)
  {
    EntryOrder();
    CanonicalIffSorted(EntryLess, MOVE.prePost);
  }

  lemma BothValid()
    ensures ValidOperator([2, 2], BOTH)
  {
    EntryOrder();
    CanonicalIffSorted(EntryLess, BOTH.prePost);
  }

  lemma ExampleValid()
    ensures ValidTask(TASK)
  {
    hide ValidOperator;
    MoveValid();
    BothValid();
  }

  /** The only edge of the causal graph leads from variable 1 to variable 0. */
  lemma OnlyEdge(s: int, t: int)
    ensures Influences(TASK.operators, s, t) <==> s == 1 && t == 0
  {
    if s == 1 && t == 0 {
      assert MentionsVar(MOVE.prevail, 1) by { assert MOVE.prevail[0].v == 1; }
      assert TASK.operators[0].prePost[0].v == 0 && DependsOn(TASK.operators[0], TASK.operators[0].prePost[0], 1);
    }
  }

  lemma ExampleRow(s: int, t: int)
    ensures t in Row(CountEdges(AllEdges(TASK.operators)), s) <==> s == 1 && t == 0
  {
    hide Influences;
    OnlyEdge(s, t);
    EdgesAreInfluences(TASK.operators, s, t);
    WeightsCountEdges(AllEdges(TASK.operators), s, t);
  }

  lemma NotBack(w: Weights)
    requires forall s, t :: t in Row(w, s) <==> s == 1 && t == 0
    ensures !Reach(Adjacency(w, 2), 0, 1)
  {
    if Reach(Adjacency(w, 2), 0, 1) {
      var s := iset{0};
      forall x, y | x in s && IsEdge(Adjacency(w, 2), x, y) ensures y in s { AdjacencyEdges(w, 2, x, y); }
      ReachStaysIn(Adjacency(w, 2), s, 0, 1);
      assert false;
    }
  }

  lemma FullOrderIs(w: Weights, order: seq<int>)
    requires (forall s, t :: t in Row(w, s) <==> s == 1 && t == 0) && IsOrdering(w, 2, order)
    ensures order == [1, 0]
  {
    NotBack(w);
    Enumerated(order);
    assert (set v | v in order) == {0, 1};
    assert |order| == 2 && order[0] in order && order[1] in order;
    assert order[1] in Row(w, order[0]);
  }

  lemma ChosenOrderIs(filterUnimportantVars: bool, c: Choice, order: seq<int>)
    requires Chosen(TASK, true, filterUnimportantVars, c, order)
    ensures order == [1, 0]
  {
    hide IsOrdering, Influences, AreBlocks;
    var w := CountEdges(AllEdges(TASK.operators));
    forall s, t ensures t in Row(w, s) <==> s == 1 && t == 0 { ExampleRow(s, t); }
    FullOrderIs(w, c.full);
    if filterUnimportantVars {
      OnlyEdge(1, 0);
      assert TASK.goal[0] in TASK.goal;
      assert 0 in c.necessary;
      NecessaryIsClosed(TASK, c.necessary, 1, 0);
      assert [1, 0][..1] == [1] && [1][..0] == [];
      assert KeepVars([1], c.necessary) == [1];
      assert KeepVars([1, 0], c.necessary) == [1, 0];
    }
  }

  lemma SwappedNotValid(small: Task, p: Operator)
    requires p in small.operators && p.prePost == [PrePost(1, NO_PRE, 1, []), PrePost(0, NO_PRE, 1, [])]
    ensures !ValidTask(small)
  {
    hide ValidOperator;
    DescentNotValid(small.ranges, p);
  }

  lemma ProjectedEntries(order: seq<int>)
    requires order == [1, 0]
    ensures ProjectOperator(order, BOTH).prePost == [PrePost(1, NO_PRE, 1, []), PrePost(0, NO_PRE, 1, [])]
    ensures ProjectOperator(order, BOTH) in ProjectOperators(order, TASK.operators)
  {
    PairEntries(order, 0, 1);
    PositionUnique(order, 0, 1);
    PositionUnique(order, 1, 0);
  }

  /** Reordering always turns this valid task into one that fails `validate`. */
  lemma ReorderingBreaksValidity(filterUnimportantVars: bool, c: Choice, order: seq<int>)
    requires Chosen(TASK, true, filterUnimportantVars, c, order)
    ensures ValidTask(TASK) && order == [1, 0] && !ValidTask(ProjectTask(order, TASK))
  {
    hide Chosen, ValidTask, ProjectOperators, ProjectOperator;
    ExampleValid();
    ChosenOrderIs(filterUnimportantVars, c, order);
    ProjectedEntries(order);
    SwappedNotValid(ProjectTask(order, TASK), ProjectOperator(order, BOTH));
  }
}
