/**
  The causal graph (variable_order.py:9-115): weighted edges from the variables
  an effect depends on to the variable it sets, and the backward closure of the
  goal variables.
 */
module CausalGraphs {
  import opened Wrappers
  import opened SasTasks
  import opened DomainTransitionGraphs

  type Edge = (int, int)

  // ----- The edges of the operators, in the order they are counted -----

  function CondVars(c: seq<Fact>): seq<int> {
    if c == [] then [] else CondVars(c[..|c| - 1]) + [c[|c| - 1].v]
  }

  function PreVars(es: seq<PrePost>): seq<int> {
    if es == [] then []
    else PreVars(es[..|es| - 1]) + if es[|es| - 1].pre != NO_PRE then [es[|es| - 1].v] else []
  }

  function SourceVars(op: Operator): seq<int> {
    CondVars(op.prevail) + PreVars(op.prePost)
  }

  function EdgesTo(sources: seq<int>, target: int): seq<Edge> {
    if sources == [] then []
    else
      var source := sources[|sources| - 1];
      EdgesTo(sources[..|sources| - 1], target) + if source != target then [(source, target)] else []
  }

  function EntryEdges(sources: seq<int>, es: seq<PrePost>): seq<Edge> {
    if es == [] then []
    else
      var e := es[|es| - 1];
      EntryEdges(sources, es[..|es| - 1]) + EdgesTo(sources + CondVars(e.cond), e.v)
  }

  function OperatorEdges(op: Operator): seq<Edge> {
    EntryEdges(SourceVars(op), op.prePost)
  }

  function AllEdges(ops: seq<Operator>): seq<Edge> {
    if ops == [] then [] else AllEdges(ops[..|ops| - 1]) + OperatorEdges(ops[|ops| - 1])
  }

  // ----- What an edge means -----

  /** The effect `e` of `op` depends on the value of `source`. */
  ghost predicate DependsOn(op: Operator, e: PrePost, source: int) {
    Conditioned(op, source) || MentionsVar(e.cond, source)
  }

  ghost predicate Influences(ops: seq<Operator>, source: int, target: int) {
    source != target &&
    (exists i, j :: 0 <= i < |ops| && 0 <= j < |ops[i].prePost| &&
       ops[i].prePost[j].v == target && DependsOn(ops[i], ops[i].prePost[j], source))
  }

  lemma {:induction false} CondVarsElements(c: seq<Fact>, v: int)
    ensures v in CondVars(c) <==> MentionsVar(c, v)
  {
    if c != [] {
      var rest := c[..|c| - 1];
      CondVarsElements(rest, v);
      assert forall i :: 0 <= i < |rest| ==> rest[i] == c[i];
    }
  }

  lemma {:induction false} PreVarsElements(es: seq<PrePost>, v: int)
    ensures v in PreVars(es) <==> HasPre(es, v)
  {
    if es != [] {
      var rest := es[..|es| - 1];
      PreVarsElements(rest, v);
      assert forall i :: 0 <= i < |rest| ==> rest[i] == es[i];
    }
  }

  lemma {:induction false} EdgesToElements(sources: seq<int>, target: int, s: int, t: int)
    ensures (s, t) in EdgesTo(sources, target) <==> t == target && s != t && s in sources
  {
    if sources != [] {
      var rest := sources[..|sources| - 1];
      EdgesToElements(rest, target, s, t);
      assert sources == rest + [sources[|sources| - 1]];
    }
  }

  lemma {:induction false} EntryEdgesElements(op: Operator, n: nat, s: int, t: int)
    requires n <= |op.prePost|
    ensures (s, t) in EntryEdges(SourceVars(op), op.prePost[..n]) <==>
      s != t && exists j :: 0 <= j < n && op.prePost[j].v == t && DependsOn(op, op.prePost[j], s)
  {
    if n > 0 {
      var es, e := op.prePost[..n], op.prePost[n - 1];
      assert es[..n - 1] == op.prePost[..n - 1];
      EntryEdgesElements(op, n - 1, s, t);
      EdgesToElements(SourceVars(op) + CondVars(e.cond), e.v, s, t);
      CondVarsElements(op.prevail, s);
      CondVarsElements(e.cond, s);
      PreVarsElements(op.prePost, s);
    }
  }

  /** The edges are exactly the dependencies between different variables. */
  lemma {:induction false} EdgesAreInfluences(ops: seq<Operator>, s: int, t: int)
    ensures (s, t) in AllEdges(ops) <==> Influences(ops, s, t)
  {
    if ops != [] {
      var rest, op := ops[..|ops| - 1], ops[|ops| - 1];
      EdgesAreInfluences(rest, s, t);
      assert forall i :: 0 <= i < |rest| ==> rest[i] == ops[i];
      EntryEdgesElements(op, |op.prePost|, s, t);
      assert op.prePost[..|op.prePost|] == op.prePost;
      if Influences(ops, s, t) && !Influences(rest, s, t) {
        var i, j :| 0 <= i < |ops| && 0 <= j < |ops[i].prePost| &&
          ops[i].prePost[j].v == t && DependsOn(ops[i], ops[i].prePost[j], s);
        assert i == |rest|;
      }
    }
  }

  // ----- How often an edge is counted -----

  /** The number of facts about `v`. */
  function FactsOn(c: seq<Fact>, v: int): nat {
    if c == [] then 0 else FactsOn(c[..|c| - 1], v) + if c[|c| - 1].v == v then 1 else 0
  }

  /** The number of entries with a precondition on `v`. */
  function PresOn(es: seq<PrePost>, v: int): nat {
    if es == [] then 0
    else PresOn(es[..|es| - 1], v) + if es[|es| - 1].v == v && es[|es| - 1].pre != NO_PRE then 1 else 0
  }

  /** How often the first `n` entries that set `t` use `s` in a condition, each of them
      together with all conditions of the operator. */
  function EntryUses(op: Operator, n: nat, s: int, t: int): nat
    requires n <= |op.prePost|
  {
    if n == 0 then 0
    else
      var e, rest := op.prePost[n - 1], EntryUses(op, n - 1, s, t);
      if e.v == t then rest + FactsOn(op.prevail, s) + PresOn(op.prePost, s) + FactsOn(e.cond, s) else rest
  }

  function Uses(ops: seq<Operator>, s: int, t: int): nat {
    if ops == [] then 0
    else Uses(ops[..|ops| - 1], s, t) + EntryUses(ops[|ops| - 1], |ops[|ops| - 1].prePost|, s, t)
  }

  lemma {:induction false} CondVarsCounted(c: seq<Fact>, v: int)
    ensures multiset(CondVars(c))[v] == FactsOn(c, v)
  {
    if c != [] { CondVarsCounted(c[..|c| - 1], v); }
  }

  lemma {:induction false} PreVarsCounted(es: seq<PrePost>, v: int)
    ensures multiset(PreVars(es))[v] == PresOn(es, v)
  {
    if es != [] { PreVarsCounted(es[..|es| - 1], v); }
  }

  lemma {:induction false} EdgesToCounted(sources: seq<int>, target: int, s: int, t: int)
    ensures multiset(EdgesTo(sources, target))[(s, t)] == if t == target && s != t then multiset(sources)[s] else 0
  {
    if sources != [] {
      var front, last := sources[..|sources| - 1], sources[|sources| - 1];
      EdgesToCounted(front, target, s, t);
      assert sources == front + [last];
    }
  }

  lemma {:induction false} EntryEdgesCounted(op: Operator, n: nat, s: int, t: int)
    requires n <= |op.prePost|
    ensures multiset(EntryEdges(SourceVars(op), op.prePost[..n]))[(s, t)] ==
      if s == t then 0 else EntryUses(op, n, s, t)
  {
    if n > 0 {
      var es, e := op.prePost[..n], op.prePost[n - 1];
      assert es[..n - 1] == op.prePost[..n - 1];
      EntryEdgesCounted(op, n - 1, s, t);
      EdgesToCounted(SourceVars(op) + CondVars(e.cond), e.v, s, t);
      CondVarsCounted(op.prevail, s);
      CondVarsCounted(e.cond, s);
      PreVarsCounted(op.prePost, s);
    }
  }

  /** The weight of an edge is the number of its uses. */
  lemma {:induction false} EdgesCounted(ops: seq<Operator>, s: int, t: int)
    ensures multiset(AllEdges(ops))[(s, t)] == if s == t then 0 else Uses(ops, s, t)
  {
    if ops != [] {
      var op := ops[|ops| - 1];
      EdgesCounted(ops[..|ops| - 1], s, t);
      EntryEdgesCounted(op, |op.prePost|, s, t);
      assert op.prePost[..|op.prePost|] == op.prePost;
    }
  }

  lemma WeightIsUses(ops: seq<Operator>, s: int, t: int)
    ensures WeightOf(CountEdges(AllEdges(ops)), s, t) == if s == t then 0 else Uses(ops, s, t)
  {
    WeightsCountEdges(AllEdges(ops), s, t);
    EdgesCounted(ops, s, t);
  }

  // ----- The variables that matter for the goal -----

  /** `r` is the least set that contains `roots` and, with a variable, its predecessors. */
  ghost predicate IsBackwardClosure(pred: Arcs, roots: set<int>, r: set<int>) {
    && roots <= r && Closed(pred, r)
    && forall s :: roots <= s && Closed(pred, s) ==> r <= s
  }

  /** The invariant of the search: `stack` holds what is still to be visited. */
  ghost predicate Searching(pred: Arcs, roots: set<int>, stack: seq<int>, necessary: set<int>) {
    && (forall u :: u in necessary ==> forall p :: p in Targets(pred, u) ==> p in necessary || p in stack)
    && (forall s :: roots <= s && Closed(pred, s) ==> necessary <= s && forall p :: p in stack ==> p in s)
  }

  lemma SearchVisits(pred: Arcs, roots: set<int>, rest: seq<int>, n: int, more: seq<int>, necessary: set<int>)
    requires Searching(pred, roots, rest + [n], necessary)
    requires forall p :: p in more <==> p in Targets(pred, n)
    ensures Searching(pred, roots, rest + more, necessary + {n})
  {
    assert n in rest + [n];
    forall u, p | u in necessary + {n} && p in Targets(pred, u) ensures p in necessary + {n} || p in rest + more {
      if u in necessary && p !in necessary { assert p in rest + [n]; }
    }
    forall s | roots <= s && Closed(pred, s)
      ensures necessary + {n} <= s && forall p :: p in rest + more ==> p in s
    {
      forall p | p in rest + more ensures p in s {
        if p in rest { assert p in rest + [n]; }
      }
    }
  }

  lemma SearchSkips(pred: Arcs, roots: set<int>, rest: seq<int>, n: int, necessary: set<int>)
    requires Searching(pred, roots, rest + [n], necessary) && n in necessary
    ensures Searching(pred, roots, rest, necessary)
  {
    forall u, p | u in necessary && p in Targets(pred, u) ensures p in necessary || p in rest {
      if p !in necessary { assert p in rest + [n]; }
    }
    forall s, p | roots <= s && Closed(pred, s) && p in rest ensures p in s {
      assert p in rest + [n];
    }
  }

  type Weights = map<int, map<int, int>>

  function WeightOf(w: Weights, s: int, t: int): int {
    if s in w && t in w[s] then w[s][t] else 0
  }

  method SourceVarsOf(op: Operator) returns (sourceVars: seq<int>)
    ensures sourceVars == SourceVars(op)
  {
    sourceVars := CondVars(op.prevail);
    for i := 0 to |op.prePost|
      invariant sourceVars == CondVars(op.prevail) + PreVars(op.prePost[..i])
    {
      assert op.prePost[..i + 1][..i] == op.prePost[..i];
      if op.prePost[i].pre != NO_PRE {
        sourceVars := sourceVars + [op.prePost[i].v];
      }
    }
    assert op.prePost[..|op.prePost|] == op.prePost;
  }

  function Row(w: Weights, s: int): map<int, int> {
    if s in w then w[s] else map[]
  }

  function CountEdge(w: Weights, s: int, t: int): Weights {
    w[s := Row(w, s)[t := WeightOf(w, s, t) + 1]]
  }

  function CountEdges(edges: seq<Edge>): Weights {
    if edges == [] then map[]
    else
      var e := edges[|edges| - 1];
      CountEdge(CountEdges(edges[..|edges| - 1]), e.0, e.1)
  }

  function AddPredecessor(pred: Arcs, s: int, t: int): Arcs {
    pred[t := Targets(pred, t) + {s}]
  }

  function Predecessors(edges: seq<Edge>): Arcs {
    if edges == [] then map[]
    else
      var e := edges[|edges| - 1];
      AddPredecessor(Predecessors(edges[..|edges| - 1]), e.0, e.1)
  }

  /** The weight of an edge is the number of times it was added. */
  lemma {:induction false} WeightsCountEdges(edges: seq<Edge>, s: int, t: int)
    ensures WeightOf(CountEdges(edges), s, t) == multiset(edges)[(s, t)]
    ensures t in Row(CountEdges(edges), s) <==> (s, t) in edges
  {
    if edges != [] {
      var rest := edges[..|edges| - 1];
      WeightsCountEdges(rest, s, t);
      assert edges == rest + [edges[|edges| - 1]];
    }
  }

  lemma {:induction false} PredecessorsAreSources(edges: seq<Edge>, s: int, t: int)
    ensures s in Targets(Predecessors(edges), t) <==> (s, t) in edges
  {
    if edges != [] {
      var rest := edges[..|edges| - 1];
      PredecessorsAreSources(rest, s, t);
      assert edges == rest + [edges[|edges| - 1]];
    }
  }

  lemma AppendEdge(edges: seq<Edge>, s: int, t: int)
    ensures CountEdges(edges + [(s, t)]) == CountEdge(CountEdges(edges), s, t)
    ensures Predecessors(edges + [(s, t)]) == AddPredecessor(Predecessors(edges), s, t)
  {
    assert (edges + [(s, t)])[..|edges|] == edges;
  }

  class CausalGraph {
    var weightedGraph: Weights
    var predecessorGraph: Arcs
    ghost var edges: seq<Edge>
    const numVariables: int
    const goalVars: set<int>

    ghost predicate Valid()
      reads this
    {
      weightedGraph == CountEdges(edges) && predecessorGraph == Predecessors(edges)
    }

    constructor (task: Task)
      ensures Valid() && edges == AllEdges(task.operators)
      ensures numVariables == |task.ranges| && goalVars == set f | f in task.goal :: f.v
    {
      weightedGraph, predecessorGraph, edges := map[], map[], [];
      numVariables := |task.ranges|;
      goalVars := set f | f in task.goal :: f.v;
      new;
      assert edges == AllEdges([]);
      AddOperators(task.operators);
    }

    method AddOperators(operators: seq<Operator>)
      requires Valid() && edges == []
      modifies this
      ensures Valid() && edges == AllEdges(operators)
    {
      for i := 0 to |operators|
        invariant Valid() && edges == AllEdges(operators[..i])
      {
        assert operators[..i + 1][..i] == operators[..i];
        AddOperator(operators[i]);
      }
      assert operators[..|operators|] == operators;
    }

    method AddEdge(source: int, target: int)
      requires Valid()
      modifies this
      ensures Valid() && edges == old(edges) + [(source, target)]
    {
      weightedGraph := CountEdge(weightedGraph, source, target);
      predecessorGraph := AddPredecessor(predecessorGraph, source, target);
      AppendEdge(edges, source, target);
      edges := edges + [(source, target)];
    }

    method AddEdges(sources: seq<int>, target: int)
      requires Valid()
      modifies this
      ensures Valid() && edges == old(edges) + EdgesTo(sources, target)
    {
      for j := 0 to |sources|
        invariant Valid() && edges == old(edges) + EdgesTo(sources[..j], target)
      {
        assert sources[..j + 1][..j] == sources[..j];
        if sources[j] != target {
          AddEdge(sources[j], target);
        }
      }
      assert sources[..|sources|] == sources;
    }

    method AddOperator(op: Operator)
      requires Valid()
      modifies this
      ensures Valid() && edges == old(edges) + OperatorEdges(op)
    {
      hide Valid;
      var sourceVars := SourceVarsOf(op);
      for i := 0 to |op.prePost|
        invariant Valid() && edges == old(edges) + EntryEdges(sourceVars, op.prePost[..i])
      {
        assert op.prePost[..i + 1][..i] == op.prePost[..i];
        AddEdges(sourceVars + CondVars(op.prePost[i].cond), op.prePost[i].v);
      }
      assert op.prePost[..|op.prePost|] == op.prePost;
    }

    /** All variables on which the goal depends, directly or not. */
    method CalculateImportantVars(goal: seq<Fact>) returns (necessary: set<int>)
      ensures IsBackwardClosure(predecessorGraph, set f | f in goal :: f.v, necessary)
    {
      necessary := {};
      ghost var roots := set f | f in goal :: f.v;
      for i := 0 to |goal|
        invariant necessary <= roots + AllTargets(predecessorGraph)
        invariant forall j :: 0 <= j < i ==> goal[j].v in necessary
        invariant Searching(predecessorGraph, roots, [], necessary)
      {
        var v := goal[i].v;
        if v !in necessary {
          necessary := Dfs(predecessorGraph, v, necessary, roots);
        }
      }
      SearchEnds(predecessorGraph, goal, roots, necessary);
    }
  }

  lemma SearchEnds(pred: Arcs, goal: seq<Fact>, roots: set<int>, necessary: set<int>)
    requires roots == set f | f in goal :: f.v
    requires forall j :: 0 <= j < |goal| ==> goal[j].v in necessary
    requires Searching(pred, roots, [], necessary)
    ensures IsBackwardClosure(pred, roots, necessary)
  {
    forall v | v in roots ensures v in necessary {
      var f :| f in goal && f.v == v;
    }
    forall u | u in necessary ensures Targets(pred, u) <= necessary {
      forall p | p in Targets(pred, u) ensures p in necessary { assert p in necessary || p in []; }
    }
  }

  lemma SearchStarts(pred: Arcs, roots: set<int>, node: int, stack: seq<int>, before: set<int>)
    requires node in roots && Searching(pred, roots, [], before)
    requires forall p :: p in stack <==> p in Targets(pred, node)
    ensures Searching(pred, roots, stack, before + {node})
    ensures forall p :: p in stack ==> p in AllTargets(pred)
  {
    forall s, p | roots <= s && Closed(pred, s) && p in stack ensures p in s {
      assert node in s;
    }
  }

  /** The depth-first search of `dfs`. */
  method Dfs(pred: Arcs, node: int, before: set<int>, ghost roots: set<int>) returns (necessary: set<int>)
    requires node in roots && before <= roots + AllTargets(pred)
    requires Searching(pred, roots, [], before)
    ensures before + {node} <= necessary <= roots + AllTargets(pred)
    ensures Searching(pred, roots, [], necessary)
  {
    necessary := before + {node};
    var stack := ListOf(Targets(pred, node));
    ghost var universe := roots + AllTargets(pred);
    SearchStarts(pred, roots, node, stack, before);
    while stack != []
      invariant before + {node} <= necessary <= universe
      invariant forall p :: p in stack ==> p in universe
      invariant Searching(pred, roots, stack, necessary)
      decreases |universe - necessary|, |stack|
    {
      var n := stack[|stack| - 1];
      ghost var whole := stack;
      assert n in whole;
      stack := stack[..|stack| - 1];
      assert whole == stack + [n];
      if n !in necessary {
        Shrinks(universe, necessary, n);
        var more := ListOf(Targets(pred, n));
        SearchVisits(pred, roots, stack, n, more, necessary);
        necessary := necessary + {n};
        forall p | p in stack + more ensures p in universe {
          assert p in whole || p in Targets(pred, n);
        }
        stack := stack + more;
      } else {
        SearchSkips(pred, roots, stack, n, necessary);
      }
    }
  }

  lemma Shrinks(universe: set<int>, s: set<int>, n: int)
    requires n in universe && n !in s
    ensures |universe - (s + {n})| < |universe - s|
  {
    assert universe - (s + {n}) == (universe - s) - {n};
  }
}
