/**
  Reordering and filtering the variables of a task (variable_order.py:38-97,
  252-354): order the variables by the causal graph, keep those on which the goal
  depends, and rewrite the task in place.
 */
module VariableOrder {
  import opened Sorting
  import opened Wrappers
  import opened SasTasks
  import opened DomainTransitionGraphs
  import CausalGraphs
  import opened Projection
  import opened ProjectionValidity
  import opened InnerGraphs
  import opened Reachability
  import opened TarjanInvariant
  import Scc
  import MaxDag

  // ----- The causal graph as an adjacency list -----

  function Adjacency(w: CausalGraphs.Weights, n: nat): (g: Graph)
    ensures |g| == n
  {
    seq(n, v => CausalGraphs.CondVars(Items(CausalGraphs.Row(w, v))))
  }

  lemma AdjacencyEdges(w: CausalGraphs.Weights, n: nat, s: int, t: int)
    requires 0 <= s < n
    ensures IsEdge(Adjacency(w, n), s, t) <==> t in CausalGraphs.Row(w, s)
  {
    var items := Items(CausalGraphs.Row(w, s));
    CausalGraphs.CondVarsElements(items, t);
    if t in CausalGraphs.Row(w, s) {
      assert Fact(t, CausalGraphs.Row(w, s)[t]) in items;
      var i :| 0 <= i < |items| && items[i] == Fact(t, CausalGraphs.Row(w, s)[t]);
    }
    if MentionsVar(items, t) {
      var i :| 0 <= i < |items| && items[i].v == t;
      assert items[i] in items;
    }
  }

  lemma AdjacencyValid(w: CausalGraphs.Weights, n: nat)
    requires InBounds(w, n)
    ensures ValidGraph(Adjacency(w, n))
  {
    var g := Adjacency(w, n);
    forall v, k | 0 <= v < |g| && 0 <= k < |g[v]| ensures 0 <= g[v][k] < |g| {
      assert IsEdge(g, v, g[v][k]);
      AdjacencyEdges(w, n, v, g[v][k]);
    }
  }

  // ----- Ordering the variables -----

  /** `order` lists the vertices of the components block by block. */
  ghost predicate InBlocks(sccs: seq<seq<int>>, order: seq<int>) {
    && Distinct(order)
    && (forall v :: v in order <==> InSccs(sccs, v))
    && (forall i, j :: 0 <= i < j < |order| ==> SameOrEarlier(sccs, order[i], order[j]))
  }

  ghost predicate SameOrEarlier(sccs: seq<seq<int>>, x: int, y: int) {
    exists a, b :: 0 <= a <= b < |sccs| && x in sccs[a] && y in sccs[b]
  }

  lemma BlockAppended(sccs: seq<seq<int>>, order: seq<int>, block: seq<int>, k: nat)
    requires k < |sccs| && InBlocks(sccs[..k], order) && Distinct(block)
    requires forall v :: v in block <==> v in sccs[k]
    requires forall a, x :: 0 <= a < k && x in sccs[a] ==> x !in sccs[k]
    ensures InBlocks(sccs[..k + 1], order + block)
  {
    var before, after, all := sccs[..k], sccs[..k + 1], order + block;
    forall v ensures v in all <==> InSccs(after, v) {
      if v in order {
        var a :| 0 <= a < |before| && v in before[a];
        assert v in after[a];
      } else if v in block {
        assert v in after[k];
      }
      if InSccs(after, v) {
        var a :| 0 <= a < |after| && v in after[a];
        if a < k { assert v in before[a]; }
      }
    }
    forall i, j | 0 <= i < j < |all| ensures SameOrEarlier(after, all[i], all[j]) && all[i] != all[j] {
      AppendedPair(sccs, order, block, k, i, j);
    }
  }

  lemma AppendedPair(sccs: seq<seq<int>>, order: seq<int>, block: seq<int>, k: nat, i: nat, j: nat)
    requires k < |sccs| && InBlocks(sccs[..k], order) && Distinct(block)
    requires forall v :: v in block <==> v in sccs[k]
    requires forall a, x :: 0 <= a < k && x in sccs[a] ==> x !in sccs[k]
    requires i < j < |order| + |block|
    ensures var all := order + block; SameOrEarlier(sccs[..k + 1], all[i], all[j]) && all[i] != all[j]
  {
    var before, after, all := sccs[..k], sccs[..k + 1], order + block;
    if j < |order| {
      assert SameOrEarlier(before, order[i], order[j]);
      var a, b :| 0 <= a <= b < |before| && order[i] in before[a] && order[j] in before[b];
      assert all[i] in after[a] && all[j] in after[b];
    } else {
      var y := block[j - |order|];
      assert y in block && y in after[k];
      if i < |order| {
        var x := order[i];
        assert x in order;
        var a :| 0 <= a < |before| && x in before[a];
        assert x in sccs[a] && x in after[a];
      } else {
        var x := block[i - |order|];
        assert x in block && x in after[k];
      }
    }
  }

  function Flatten(blocks: seq<seq<int>>): seq<int> {
    if blocks == [] then [] else Flatten(blocks[..|blocks| - 1]) + blocks[|blocks| - 1]
  }

  /** A single vertex stands by itself; a larger component is in an order that picks vertices
      of minimal weight first, and of those the one filed first. */
  ghost predicate IsBlock(w: CausalGraphs.Weights, scc: seq<int>, goals: set<int>, block: seq<int>) {
    if |scc| > 1 then
      && LightestFirst(w, scc, goals, block) && |block| == |scc|
      && MaxDag.IsGreedy(InnerGraphOf(w, scc, goals), scc, block)
    else block == scc
  }

  ghost predicate AreBlocks(w: CausalGraphs.Weights, sccs: seq<seq<int>>, goals: set<int>, blocks: seq<seq<int>>) {
    |blocks| == |sccs| && forall k :: 0 <= k < |sccs| ==> IsBlock(w, sccs[k], goals, blocks[k])
  }

  lemma SameSize(a: seq<int>, b: seq<int>)
    requires Distinct(a) && Distinct(b) && forall v :: v in a <==> v in b
    ensures |a| == |b|
  {
    Enumerated(a);
    Enumerated(b);
    assert (set v | v in a) == set v | v in b;
  }

  lemma {:induction false} Enumerated(a: seq<int>)
    requires Distinct(a)
    ensures |set v | v in a| == |a|
  {
    if a != [] {
      var init, last := a[..|a| - 1], a[|a| - 1];
      Enumerated(init);
      assert a == init + [last] && last !in init;
      assert (set v | v in a) == (set v | v in init) + {last};
    }
  }

  method OrderComponent(w: CausalGraphs.Weights, ghost n: nat, scc: seq<int>, goals: set<int>) returns (block: seq<int>)
    requires InBounds(w, n) && scc != [] && Distinct(scc)
    ensures IsBlock(w, scc, goals, block) && Distinct(block) && forall v :: v in block <==> v in scc
  {
    hide InBounds, InnerGraphOf, MaxDag.IsGreedy, MaxDag.ValidInput, LightestFirst, ListsEdges;
    if |scc| > 1 {
      var subgraph := InnerGraph(w, n, scc, goals);
      block := MaxDag.GetResult(subgraph, scc);
      SameSize(block, scc);
      GreedyIsLightest(w, scc, goals, block);
    } else {
      block := [scc[0]];
      assert scc == block;
    }
  }

  lemma NoBlocks(sccs: seq<seq<int>>)
    ensures InBlocks(sccs[..0], [])
  {
  }

  method PseudoSort(w: CausalGraphs.Weights, ghost n: nat, sccs: seq<seq<int>>, goals: set<int>)
      returns (order: seq<int>, ghost blocks: seq<seq<int>>)
    requires InBounds(w, n)
    requires forall a :: 0 <= a < |sccs| ==> sccs[a] != [] && Distinct(sccs[a])
    requires forall a, b, x :: 0 <= a < b < |sccs| && x in sccs[a] ==> x !in sccs[b]
    ensures InBlocks(sccs, order) && order == Flatten(blocks) && AreBlocks(w, sccs, goals, blocks)
  {
    hide InBlocks, IsBlock, InBounds;
    order, blocks := [], [];
    NoBlocks(sccs);
    for k := 0 to |sccs|
      invariant InBlocks(sccs[..k], order) && order == Flatten(blocks) && |blocks| == k
      invariant forall j :: 0 <= j < k ==> IsBlock(w, sccs[j], goals, blocks[j])
    {
      var block := OrderComponent(w, n, sccs[k], goals);
      BlockAppended(sccs, order, block, k);
      assert (blocks + [block])[..k] == blocks;
      order, blocks := order + block, blocks + [block];
    }
    assert sccs[..|sccs|] == sccs;
  }

  /** All variables below `n`, each once; an edge to an earlier variable stays
      within a strongly connected component of the causal graph. */
  ghost predicate IsOrdering(w: CausalGraphs.Weights, n: nat, order: seq<int>) {
    && Distinct(order) && (forall v :: v in order <==> 0 <= v < n)
    && (forall i, j :: 0 <= i < j < |order| && order[i] in CausalGraphs.Row(w, order[j]) ==>
          Reach(Adjacency(w, n), order[i], order[j]))
  }

  lemma BlocksAreOrdering(w: CausalGraphs.Weights, n: nat, sccs: seq<seq<int>>, order: seq<int>)
    requires Scc.IsSccOrder(Adjacency(w, n), sccs) && InBlocks(sccs, order)
    ensures IsOrdering(w, n, order)
  {
    forall i, j | 0 <= i < j < |order| && order[i] in CausalGraphs.Row(w, order[j])
      ensures Reach(Adjacency(w, n), order[i], order[j])
    {
      assert order[j] in order && order[i] in order;
      BackEdge(w, n, sccs, order[i], order[j]);
    }
  }

  lemma BackEdge(w: CausalGraphs.Weights, n: nat, sccs: seq<seq<int>>, x: int, y: int)
    requires Scc.IsSccOrder(Adjacency(w, n), sccs) && SameOrEarlier(sccs, x, y)
    requires x in CausalGraphs.Row(w, y)
    ensures Reach(Adjacency(w, n), x, y)
  {
    var a, b :| 0 <= a <= b < |sccs| && x in sccs[a] && y in sccs[b];
    assert InSccs(sccs, y);
    AdjacencyEdges(w, n, y, x);
    assert a == b;
    assert IsScc(Adjacency(w, n), sccs[a]);
  }

  method GetOrdering(w: CausalGraphs.Weights, n: nat, goals: set<int>)
      returns (order: seq<int>, ghost sccs: seq<seq<int>>, ghost blocks: seq<seq<int>>)
    requires InBounds(w, n)
    ensures IsOrdering(w, n, order)
    ensures Scc.IsSccOrder(Adjacency(w, n), sccs) && order == Flatten(blocks) && AreBlocks(w, sccs, goals, blocks)
  {
    AdjacencyValid(w, n);
    var scc := new Scc.Scc(Adjacency(w, n));
    var components := scc.GetResult();
    sccs := components;
    order, blocks := PseudoSort(w, n, components, goals);
    BlocksAreOrdering(w, n, sccs, order);
  }

  // ----- Rewriting the task -----

  method MapFacts(order: seq<int>, c: seq<Fact>) returns (r: seq<Fact>)
    ensures r == KeepFacts(order, c)
  {
    r := [];
    for i := 0 to |c|
      invariant r == KeepFacts(order, c[..i])
    {
      assert c[..i + 1][..i] == c[..i];
      if c[i].v in order {
        r := r + [Fact(Position(order, c[i].v), c[i].val)];
      }
    }
    assert c[..|c|] == c;
  }

  method MapEntries(order: seq<int>, es: seq<PrePost>) returns (r: seq<PrePost>)
    ensures r == KeepEntries(order, es)
  {
    r := [];
    for i := 0 to |es|
      invariant r == KeepEntries(order, es[..i])
    {
      assert es[..i + 1][..i] == es[..i];
      var e := es[i];
      if e.v in order {
        var newCond := MapFacts(order, e.cond);
        r := r + [PrePost(Position(order, e.v), e.pre, e.post, newCond)];
      }
    }
    assert es[..|es|] == es;
  }

  method ApplyToOperators(order: seq<int>, ops: seq<Operator>) returns (newOps: seq<Operator>)
    ensures newOps == ProjectOperators(order, ops)
  {
    newOps := [];
    for i := 0 to |ops|
      invariant newOps == ProjectOperators(order, ops[..i])
    {
      assert ops[..i + 1][..i] == ops[..i];
      var op := ops[i];
      var prePost := MapEntries(order, op.prePost);
      if prePost != [] {
        var prevail := MapFacts(order, op.prevail);
        newOps := newOps + [op.(prevail := prevail, prePost := prePost)];
      }
    }
    assert ops[..|ops|] == ops;
  }

  method ApplyToTask(order: seq<int>, task: SasTask)
    requires InRange(order, |task.ranges|) && |task.init| == |task.ranges|
    modifies task
    ensures task.Value() == ProjectTask(order, old(task.Value()))
  {
    task.ranges := Select(order, task.ranges);
    task.init := Select(order, task.init);
    var goal := MapFacts(order, task.goal);
    task.goal := Sort(FactLess, goal);
    var operators := ApplyToOperators(order, task.operators);
    task.operators := operators;
  }

  // ----- The whole pass -----

  lemma InfluencesInRange(task: Task, s: int, t: int)
    requires ValidTask(task) && CausalGraphs.Influences(task.operators, s, t)
    ensures 0 <= s < |task.ranges| && 0 <= t < |task.ranges|
  {
    var i, j :| 0 <= i < |task.operators| && 0 <= j < |task.operators[i].prePost| &&
      task.operators[i].prePost[j].v == t && CausalGraphs.DependsOn(task.operators[i], task.operators[i].prePost[j], s);
    var op := task.operators[i];
    assert ValidOperator(task.ranges, op) && ValidEntry(task.ranges, op.prePost[j]);
    if MentionsVar(op.prevail, s) {
      var k :| 0 <= k < |op.prevail| && op.prevail[k].v == s;
      assert ValidFact(task.ranges, op.prevail[k]);
    } else if MentionsVar(op.prePost[j].cond, s) {
      var k :| 0 <= k < |op.prePost[j].cond| && op.prePost[j].cond[k].v == s;
      assert ValidFact(task.ranges, op.prePost[j].cond[k]);
    } else {
      var k :| 0 <= k < |op.prePost| && op.prePost[k].v == s && op.prePost[k].pre != NO_PRE;
      assert ValidEntry(task.ranges, op.prePost[k]);
    }
  }

  lemma GraphInBounds(task: Task)
    requires ValidTask(task)
    ensures InBounds(CausalGraphs.CountEdges(CausalGraphs.AllEdges(task.operators)), |task.ranges|)
  {
    var edges := CausalGraphs.AllEdges(task.operators);
    var w := CausalGraphs.CountEdges(edges);
    forall s, t | t in CausalGraphs.Row(w, s)
      ensures 0 <= s < |task.ranges| && 0 <= t < |task.ranges| && CausalGraphs.Row(w, s)[t] >= 0
    {
      CausalGraphs.WeightsCountEdges(edges, s, t);
      CausalGraphs.EdgesAreInfluences(task.operators, s, t);
      InfluencesInRange(task, s, t);
      assert CausalGraphs.WeightOf(w, s, t) >= 0;
    }
  }

  /** A set that covers the goal and is closed under predecessors gives a good order. */
  lemma OrderIsGood(task: Task, order: seq<int>)
    requires ValidTask(task) && Distinct(order) && InRange(order, |task.ranges|)
    requires forall f :: f in task.goal ==> f.v in order
    requires forall s, t :: CausalGraphs.Influences(task.operators, s, t) && t in order ==> s in order
    ensures GoodOrder(task, order)
  {
    forall i | 0 <= i < |task.goal| ensures task.goal[i].v in order { assert task.goal[i] in task.goal; }
  }

  /** The kept variables: in the order given, those in `necessary`. */
  function KeepVars(order: seq<int>, necessary: set<int>): (r: seq<int>)
    ensures forall v :: v in r <==> v in order && v in necessary
  {
    if order == [] then []
    else
      var rest, v := KeepVars(order[..|order| - 1], necessary), order[|order| - 1];
      assert order == order[..|order| - 1] + [v];
      if v in necessary then rest + [v] else rest
  }

  method Filter(order: seq<int>, necessary: set<int>) returns (r: seq<int>)
    requires Distinct(order)
    ensures Distinct(r) && r == KeepVars(order, necessary)
  {
    r := [];
    for i := 0 to |order|
      invariant Distinct(r) && r == KeepVars(order[..i], necessary)
    {
      assert order[..i + 1] == order[..i] + [order[i]] && order[..i + 1][..i] == order[..i];
      assert order[i] !in order[..i];
      if order[i] in necessary {
        r := r + [order[i]];
      }
    }
    assert order[..|order|] == order;
  }

  lemma {:induction false} KeptAscends(order: seq<int>, necessary: set<int>)
    requires Ascending(order)
    ensures Ascending(KeepVars(order, necessary))
    decreases |order|
  {
    if order != [] {
      var front, v := order[..|order| - 1], order[|order| - 1];
      KeptAscends(front, necessary);
      var kept := KeepVars(front, necessary);
      forall k | 0 <= k < |kept| ensures kept[k] < v {
        assert kept[k] in kept;
        var i :| 0 <= i < |front| && front[i] == kept[k];
        assert order[i] < order[|order| - 1];
      }
    }
  }

  predicate Unordered(n: nat, order: seq<int>) {
    |order| == n && forall i :: 0 <= i < n ==> order[i] == i
  }

  /** `list(range(n))` */
  method AllVariables(n: nat) returns (order: seq<int>)
    ensures Unordered(n, order)
    ensures Distinct(order) && forall v :: v in order <==> 0 <= v < n
  {
    order := seq(n, i => i);
    forall v | 0 <= v < n ensures v in order { assert order[v] == v; }
  }

  /** The closure of the goal variables is closed under influence. */
  lemma NecessaryIsClosed(task: Task, necessary: set<int>, s: int, t: int)
    requires CausalGraphs.IsBackwardClosure(CausalGraphs.Predecessors(CausalGraphs.AllEdges(task.operators)),
                                            set f | f in task.goal :: f.v, necessary)
    requires CausalGraphs.Influences(task.operators, s, t) && t in necessary
    ensures s in necessary
  {
    var edges := CausalGraphs.AllEdges(task.operators);
    CausalGraphs.EdgesAreInfluences(task.operators, s, t);
    CausalGraphs.PredecessorsAreSources(edges, s, t);
    assert Targets(CausalGraphs.Predecessors(edges), t) <= necessary;
  }

  /** How an order was chosen: the components in their order and the order within each, the
      resulting order of all variables, and the variables that matter for the goal. */
  datatype Choice = Choice(sccs: seq<seq<int>>, blocks: seq<seq<int>>, full: seq<int>, necessary: set<int>)

  ghost predicate IsFullOrder(task: Task, reorderVars: bool, c: Choice) {
    var w, n := CausalGraphs.CountEdges(CausalGraphs.AllEdges(task.operators)), |task.ranges|;
    if reorderVars then
      && IsOrdering(w, n, c.full) && Scc.IsSccOrder(Adjacency(w, n), c.sccs) && c.full == Flatten(c.blocks)
      && AreBlocks(w, c.sccs, set f | f in task.goal :: f.v, c.blocks)
    else Unordered(n, c.full)
  }

  /** The order lists all variables, or exactly those on which the goal depends. */
  ghost predicate Chosen(task: Task, reorderVars: bool, filterUnimportantVars: bool, c: Choice, order: seq<int>) {
    && IsFullOrder(task, reorderVars, c)
    && if filterUnimportantVars then
         && CausalGraphs.IsBackwardClosure(CausalGraphs.Predecessors(CausalGraphs.AllEdges(task.operators)),
                                           set f | f in task.goal :: f.v, c.necessary)
         && order == KeepVars(c.full, c.necessary)
       else order == c.full
  }

  lemma NoneAscend()
    ensures Ascending([])
  {
  }

  /** Without reordering the kept variables stay ascending. */
  lemma UnorderedAscends(task: Task, filterUnimportantVars: bool, c: Choice, order: seq<int>)
    requires Chosen(task, false, filterUnimportantVars, c, order)
    ensures Ascending(order)
  {
    KeptAscends(c.full, c.necessary);
  }

  method FullOrder(task: Task, reorderVars: bool, cg: CausalGraphs.CausalGraph)
      returns (order: seq<int>, ghost c: Choice)
    requires ValidTask(task) && cg.Valid() && cg.edges == CausalGraphs.AllEdges(task.operators)
    requires cg.goalVars == set f | f in task.goal :: f.v
    ensures IsFullOrder(task, reorderVars, c) && c.full == order
    ensures Distinct(order) && forall v :: v in order <==> 0 <= v < |task.ranges|
  {
    GraphInBounds(task);
    if reorderVars {
      ghost var sccs, blocks;
      order, sccs, blocks := GetOrdering(cg.weightedGraph, |task.ranges|, cg.goalVars);
      c := Choice(sccs, blocks, order, {});
    } else {
      order := AllVariables(|task.ranges|);
      c := Choice([], [], order, {});
    }
  }

  method ChooseOrder(task: Task, reorderVars: bool, filterUnimportantVars: bool)
      returns (order: seq<int>, ghost c: Choice)
    requires ValidTask(task)
    ensures GoodOrder(task, order) && Chosen(task, reorderVars, filterUnimportantVars, c, order)
  {
    hide IsFullOrder;
    var cg := new CausalGraphs.CausalGraph(task);
    order, c := FullOrder(task, reorderVars, cg);
    forall f | f in task.goal ensures 0 <= f.v < |task.ranges| {
      var i :| 0 <= i < |task.goal| && task.goal[i] == f;
    }
    forall s, t | CausalGraphs.Influences(task.operators, s, t) ensures 0 <= s < |task.ranges| {
      InfluencesInRange(task, s, t);
    }
    if filterUnimportantVars {
      var necessary := cg.CalculateImportantVars(task.goal);
      forall s, t | CausalGraphs.Influences(task.operators, s, t) && t in necessary ensures s in necessary {
        NecessaryIsClosed(task, necessary, s, t);
      }
      assert forall f :: f in task.goal ==> f.v in necessary;
      order := Filter(order, necessary);
      SameFullOrder(task, reorderVars, c, necessary);
      c := c.(necessary := necessary);
    }
    assert InRange(order, |task.ranges|) by {
      forall i | 0 <= i < |order| ensures 0 <= order[i] < |task.ranges| { assert order[i] in order; }
    }
    OrderIsGood(task, order);
  }

  lemma SameFullOrder(task: Task, reorderVars: bool, c: Choice, necessary: set<int>)
    requires IsFullOrder(task, reorderVars, c)
    ensures IsFullOrder(task, reorderVars, c.(necessary := necessary))
  {
  }

  /** The task is projected to the chosen order; this keeps the plans, their names and
      costs, up to dropped operators. */
  method FindAndApplyVariableOrder(task: SasTask, reorderVars: bool, filterUnimportantVars: bool)
      returns (ghost order: seq<int>, ghost c: Choice)
    requires ValidTask(task.Value())
    modifies task
    ensures !reorderVars && !filterUnimportantVars ==> task.Value() == old(task.Value())
    ensures reorderVars || filterUnimportantVars ==>
      && Chosen(old(task.Value()), reorderVars, filterUnimportantVars, c, order)
      && InRange(order, |old(task.Value()).ranges|) && task.Value() == ProjectTask(order, old(task.Value()))
    ensures KeepsPlans(old(task.Value()), task.Value())
    ensures reorderVars || filterUnimportantVars ==>
      (ValidTask(task.Value()) <==> AllStaySorted(old(task.Value()), order))
    ensures !reorderVars ==> Ascending(order) && ValidTask(task.Value())
  {
    hide Chosen, Ascending, AllStaySorted, ValidOperator, KeepsPlans;
    ghost var before := task.Value();
    order, c := [], Choice([], [], [], {});
    if reorderVars || filterUnimportantVars {
      var chosen;
      chosen, c := ChooseOrder(task.Value(), reorderVars, filterUnimportantVars);
      order := chosen;
      ProjectionPreservesPlans(before, chosen);
      ValidExactlyWhenSorted(before, order);
      if !reorderVars {
        UnorderedAscends(before, filterUnimportantVars, c, order);
        AscendingKeepsValid(before, order);
      }
      ApplyToTask(chosen, task);
    } else {
      NoneAscend();
      KeepsOwnPlans(before);
    }
  }
}
