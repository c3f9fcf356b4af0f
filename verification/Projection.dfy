/**
  Applying a variable order (variable_order.py:252-324): permute the variables,
  drop those outside the order, and drop operators that set none of the rest.
 */
module Projection {
  import opened Sorting
  import opened Wrappers
  import opened SasTasks
  import opened CausalGraphs

  /** The new number of `v`. */
  function Position(order: seq<int>, v: int): (k: int)
    requires v in order
    ensures 0 <= k < |order| && order[k] == v
  {
    if order[|order| - 1] == v then |order| - 1 else Position(order[..|order| - 1], v)
  }

  function KeepFacts(order: seq<int>, c: seq<Fact>): seq<Fact> {
    if c == [] then []
    else
      var rest, f := KeepFacts(order, c[..|c| - 1]), c[|c| - 1];
      if f.v in order then rest + [Fact(Position(order, f.v), f.val)] else rest
  }

  function KeepEntries(order: seq<int>, es: seq<PrePost>): seq<PrePost> {
    if es == [] then []
    else
      var rest, e := KeepEntries(order, es[..|es| - 1]), es[|es| - 1];
      if e.v in order
      then rest + [PrePost(Position(order, e.v), e.pre, e.post, KeepFacts(order, e.cond))]
      else rest
  }

  function ProjectOperator(order: seq<int>, op: Operator): Operator {
    Operator(op.name, KeepFacts(order, op.prevail), KeepEntries(order, op.prePost), op.cost)
  }

  function ProjectOperators(order: seq<int>, ops: seq<Operator>): seq<Operator> {
    if ops == [] then []
    else
      var rest, op := ProjectOperators(order, ops[..|ops| - 1]), ProjectOperator(order, ops[|ops| - 1]);
      if op.prePost != [] then rest + [op] else rest
  }

  predicate InRange(order: seq<int>, n: int) {
    forall i :: 0 <= i < |order| ==> 0 <= order[i] < n
  }

  function Select(order: seq<int>, values: seq<int>): (t: seq<int>)
    requires InRange(order, |values|)
    ensures |t| == |order|
    ensures forall i :: 0 <= i < |order| ==> t[i] == values[order[i]]
  {
    seq(|order|, i requires 0 <= i < |order| && InRange(order, |values|) => values[order[i]])
  }

  function ProjectTask(order: seq<int>, task: Task): Task
    requires InRange(order, |task.ranges|) && |task.init| == |task.ranges|
  {
    Task(Select(order, task.ranges), Select(order, task.init), Sort(FactLess, KeepFacts(order, task.goal)),
         ProjectOperators(order, task.operators))
  }

  /** The order lists each of its variables once, covers the goal, and covers
      whatever an effect on one of its variables depends on. */
  ghost predicate GoodOrder(task: Task, order: seq<int>) {
    && Distinct(order) && InRange(order, |task.ranges|)
    && (forall i :: 0 <= i < |task.goal| ==> task.goal[i].v in order)
    && (forall s, t :: Influences(task.operators, s, t) && t in order ==> s in order)
  }

  ghost predicate Projects(order: seq<int>, n: int, s: State, t: State) {
    |s| == n && InRange(order, n) && t == Select(order, s)
  }

  // ----- What is kept, in which order -----

  /** `kept` lists ascending positions of a list of length `n`. */
  predicate Positions(kept: seq<int>, n: int) {
    (forall k :: 0 <= k < |kept| ==> 0 <= kept[k] < n) && forall k, l :: 0 <= k < l < |kept| ==> kept[k] < kept[l]
  }

  lemma PositionsPush(kept: seq<int>, n: int)
    requires Positions(kept, n) && n >= 0
    ensures Positions(kept + [n], n + 1)
  {
  }

  /** The facts on kept variables remain, in order, with their variables renumbered. */
  lemma {:induction false} FactsInOrder(order: seq<int>, c: seq<Fact>) returns (kept: seq<int>)
    ensures Positions(kept, |c|) && |kept| == |KeepFacts(order, c)|
    ensures forall i :: 0 <= i < |c| ==> (i in kept <==> c[i].v in order)
    ensures forall k :: 0 <= k < |kept| ==>
      var f := KeepFacts(order, c)[k];
      0 <= f.v < |order| && order[f.v] == c[kept[k]].v && f.val == c[kept[k]].val
  {
    kept := [];
    if c != [] {
      kept := FactsInOrder(order, c[..|c| - 1]);
      if c[|c| - 1].v in order {
        PositionsPush(kept, |c| - 1);
        kept := kept + [|c| - 1];
      }
    }
  }

  /** The entries on kept variables remain, in order, with their variables renumbered. */
  lemma {:induction false} EntriesInOrder(order: seq<int>, es: seq<PrePost>) returns (kept: seq<int>)
    ensures Positions(kept, |es|) && |kept| == |KeepEntries(order, es)|
    ensures forall i :: 0 <= i < |es| ==> (i in kept <==> es[i].v in order)
    ensures forall k :: 0 <= k < |kept| ==>
      var g, e := KeepEntries(order, es)[k], es[kept[k]];
      0 <= g.v < |order| && order[g.v] == e.v && g.pre == e.pre && g.post == e.post && g.cond == KeepFacts(order, e.cond)
  {
    kept := [];
    if es != [] {
      kept := EntriesInOrder(order, es[..|es| - 1]);
      if es[|es| - 1].v in order {
        PositionsPush(kept, |es| - 1);
        kept := kept + [|es| - 1];
      }
    }
  }

  /** The operators that set a kept variable remain, in order, with their names and costs. */
  lemma {:induction false} OperatorsInOrder(order: seq<int>, ops: seq<Operator>) returns (kept: seq<int>)
    ensures Positions(kept, |ops|) && |kept| == |ProjectOperators(order, ops)|
    ensures forall i :: 0 <= i < |ops| ==>
      (i in kept <==> exists j :: 0 <= j < |ops[i].prePost| && ops[i].prePost[j].v in order)
    ensures forall k :: 0 <= k < |kept| ==>
      var p, op := ProjectOperators(order, ops)[k], ops[kept[k]];
      p == ProjectOperator(order, op) && p.name == op.name && p.cost == op.cost
  {
    kept := [];
    if ops != [] {
      kept := OperatorsInOrder(order, ops[..|ops| - 1]);
      KeptEntry(order, ops[|ops| - 1].prePost);
      if ProjectOperator(order, ops[|ops| - 1]).prePost != [] {
        PositionsPush(kept, |ops| - 1);
        kept := kept + [|ops| - 1];
      }
    }
  }

  // ----- Conditions -----

  lemma AppendMeaning(s: State, d: seq<Fact>, g: Fact)
    ensures Satisfies(s, d + [g]) <==> Satisfies(s, d) && Holds(s, g)
  {
    assert forall i :: 0 <= i < |d| ==> (d + [g])[i] == d[i];
    assert (d + [g])[|d|] == g;
  }

  lemma {:induction false} KeepFactsMeaning(order: seq<int>, n: int, s: State, t: State, c: seq<Fact>)
    requires Distinct(order) && Projects(order, n, s, t)
    requires forall i :: 0 <= i < |c| ==> c[i].v in order
    ensures |KeepFacts(order, c)| == |c|
    ensures Satisfies(t, KeepFacts(order, c)) <==> Satisfies(s, c)
  {
    if c != [] {
      var rest, f := c[..|c| - 1], c[|c| - 1];
      assert forall i :: 0 <= i < |rest| ==> rest[i] == c[i];
      KeepFactsMeaning(order, n, s, t, rest);
      var d, g := KeepFacts(order, rest), Fact(Position(order, f.v), f.val);
      assert KeepFacts(order, c) == d + [g];
      assert Holds(t, g) <==> Holds(s, f);
      hide Satisfies, Holds, KeepFacts, Projects;
      assert c == rest + [f];
      AppendMeaning(s, rest, f);
      AppendMeaning(t, d, g);
    }
  }

  // ----- Effects -----

  /** The entries that set kept variables have their conditions on kept variables. */
  ghost predicate Supported(order: seq<int>, es: seq<PrePost>) {
    forall i, j :: 0 <= i < |es| && es[i].v in order && 0 <= j < |es[i].cond| ==> es[i].cond[j].v in order
  }

  lemma PositionUnique(order: seq<int>, v: int, k: int)
    requires Distinct(order) && 0 <= k < |order| && v in order
    ensures order[k] == v <==> k == Position(order, v)
  {
  }

  lemma {:induction false} EffectsProject(order: seq<int>, n: int, s: State, t: State, es: seq<PrePost>, k: int)
    requires Distinct(order) && Projects(order, n, s, t) && Supported(order, es) && 0 <= k < |order|
    ensures ApplyEffects(t, KeepEntries(order, es))[k] == ApplyEffects(s, es)[order[k]]
  {
    if es != [] {
      var rest, e := es[..|es| - 1], es[|es| - 1];
      assert forall i :: 0 <= i < |rest| ==> rest[i] == es[i];
      EffectsProject(order, n, s, t, rest, k);
      if e.v in order {
        KeepFactsMeaning(order, n, s, t, e.cond);
        PositionUnique(order, e.v, k);
        var kept := KeepEntries(order, rest);
        var g := PrePost(Position(order, e.v), e.pre, e.post, KeepFacts(order, e.cond));
        assert KeepEntries(order, es) == kept + [g] && (kept + [g])[..|kept|] == kept;
      } else {
        assert e.v != order[k];
      }
    }
  }

  lemma {:induction false} KeptEntry(order: seq<int>, es: seq<PrePost>)
    ensures KeepEntries(order, es) != [] <==> exists i :: 0 <= i < |es| && es[i].v in order
    ensures forall g :: g in KeepEntries(order, es) <==>
      (exists i :: 0 <= i < |es| && es[i].v in order &&
         g == PrePost(Position(order, es[i].v), es[i].pre, es[i].post, KeepFacts(order, es[i].cond)))
  {
    if es != [] {
      var rest := es[..|es| - 1];
      KeptEntry(order, rest);
      assert forall i :: 0 <= i < |rest| ==> rest[i] == es[i];
    }
  }

  /** No condition of a kept operator is on a dropped variable. */
  lemma KeptOperatorSupported(task: Task, order: seq<int>, k: nat)
    requires GoodOrder(task, order) && k < |task.operators|
    ensures Supported(order, task.operators[k].prePost)
    ensures KeepEntries(order, task.operators[k].prePost) != [] ==>
      forall v :: Conditioned(task.operators[k], v) ==> v in order
  {
    var op := task.operators[k];
    forall i, j | 0 <= i < |op.prePost| && op.prePost[i].v in order && 0 <= j < |op.prePost[i].cond|
      ensures op.prePost[i].cond[j].v in order
    {
      var v := op.prePost[i].cond[j].v;
      if v != op.prePost[i].v {
        assert MentionsVar(op.prePost[i].cond, v);
        assert Influences(task.operators, v, op.prePost[i].v);
      }
    }
    KeptEntry(order, op.prePost);
    if i :| 0 <= i < |op.prePost| && op.prePost[i].v in order {
      forall v | Conditioned(op, v) ensures v in order {
        if v != op.prePost[i].v {
          assert DependsOn(op, op.prePost[i], v);
          assert Influences(task.operators, v, op.prePost[i].v);
        }
      }
    }
  }

  lemma ApplicabilityProjects(task: Task, order: seq<int>, k: nat, s: State, t: State)
    requires GoodOrder(task, order) && k < |task.operators| && Projects(order, |task.ranges|, s, t)
    requires KeepEntries(order, task.operators[k].prePost) != []
    ensures Applicable(ProjectOperator(order, task.operators[k]), t) <==> Applicable(task.operators[k], s)
  {
    var op := task.operators[k];
    var p := ProjectOperator(order, op);
    KeptOperatorSupported(task, order, k);
    KeptEntry(order, op.prePost);
    forall i | 0 <= i < |op.prevail| ensures op.prevail[i].v in order {
      assert MentionsVar(op.prevail, op.prevail[i].v) && Conditioned(op, op.prevail[i].v);
    }
    KeepFactsMeaning(order, |task.ranges|, s, t, op.prevail);
    forall i | 0 <= i < |op.prePost| && op.prePost[i].pre != NO_PRE ensures op.prePost[i].v in order {
      assert Conditioned(op, op.prePost[i].v);
    }
    if Applicable(op, s) {
      forall j | 0 <= j < |p.prePost| ensures PreHolds(t, p.prePost[j]) {
        assert p.prePost[j] in p.prePost;
        var i :| 0 <= i < |op.prePost| && op.prePost[i].v in order && p.prePost[j].pre == op.prePost[i].pre &&
          p.prePost[j].v == Position(order, op.prePost[i].v);
        assert PreHolds(s, op.prePost[i]);
      }
    }
    if Applicable(p, t) {
      forall i | 0 <= i < |op.prePost| ensures PreHolds(s, op.prePost[i]) {
        var e := op.prePost[i];
        if e.pre != NO_PRE {
          var g := PrePost(Position(order, e.v), e.pre, e.post, KeepFacts(order, e.cond));
          assert g in p.prePost;
          var j :| 0 <= j < |p.prePost| && p.prePost[j] == g;
          assert PreHolds(t, p.prePost[j]);
        }
      }
    }
  }

  lemma SuccessorProjects(task: Task, order: seq<int>, k: nat, s: State, t: State)
    requires GoodOrder(task, order) && k < |task.operators| && Projects(order, |task.ranges|, s, t)
    ensures Projects(order, |task.ranges|, Successor(task.operators[k], s),
                     ApplyEffects(t, KeepEntries(order, task.operators[k].prePost)))
  {
    var op := task.operators[k];
    KeptOperatorSupported(task, order, k);
    var x, y := Successor(op, s), ApplyEffects(t, KeepEntries(order, op.prePost));
    forall i | 0 <= i < |order| ensures y[i] == x[order[i]] {
      EffectsProject(order, |task.ranges|, s, t, op.prePost, i);
    }
  }

  // ----- Plans -----

  lemma {:induction false} ProjectedOperators(order: seq<int>, ops: seq<Operator>)
    ensures forall p :: p in ProjectOperators(order, ops) <==>
      exists i :: 0 <= i < |ops| && p == ProjectOperator(order, ops[i]) && KeepEntries(order, ops[i].prePost) != []
  {
    if ops != [] {
      var rest := ops[..|ops| - 1];
      ProjectedOperators(order, rest);
      assert forall i :: 0 <= i < |rest| ==> rest[i] == ops[i];
    }
  }

  lemma ProjectionFollows(task: Task, order: seq<int>)
    requires GoodOrder(task, order)
    requires forall k :: 0 <= k < |task.operators| ==> task.operators[k].cost >= 0
    ensures Simulates((s, t) => Projects(order, |task.ranges|, s, t), task.operators,
                      ProjectOperators(order, task.operators), false)
  {
    var ops := ProjectOperators(order, task.operators);
    ProjectedOperators(order, task.operators);
    forall k, s, t | 0 <= k < |task.operators| && Projects(order, |task.ranges|, s, t) && Applicable(task.operators[k], s)
      ensures StepMatched((s, t) => Projects(order, |task.ranges|, s, t), task.operators[k], ops, false, s, t)
    {
      SuccessorProjects(task, order, k, s, t);
      if KeepEntries(order, task.operators[k].prePost) != [] {
        ApplicabilityProjects(task, order, k, s, t);
        assert ProjectOperator(order, task.operators[k]) in ops;
        var j :| 0 <= j < |ops| && ops[j] == ProjectOperator(order, task.operators[k]);
      }
    }
  }

  lemma ProjectionIsFollowed(task: Task, order: seq<int>)
    requires GoodOrder(task, order)
    ensures Simulates((t, s) => Projects(order, |task.ranges|, s, t), ProjectOperators(order, task.operators),
                      task.operators, true)
  {
    var ops := ProjectOperators(order, task.operators);
    ProjectedOperators(order, task.operators);
    forall k, s, t | 0 <= k < |ops| && Projects(order, |task.ranges|, s, t) && Applicable(ops[k], t)
      ensures StepMatched((t, s) => Projects(order, |task.ranges|, s, t), ops[k], task.operators, true, t, s)
    {
      assert ops[k] in ops;
      var i :| 0 <= i < |task.operators| && ops[k] == ProjectOperator(order, task.operators[i]) &&
        KeepEntries(order, task.operators[i].prePost) != [];
      SuccessorProjects(task, order, i, s, t);
      ApplicabilityProjects(task, order, i, s, t);
    }
  }

  lemma GoalProjects(task: Task, order: seq<int>, s: State, t: State)
    requires GoodOrder(task, order) && Projects(order, |task.ranges|, s, t)
    ensures Satisfies(t, Sort(FactLess, KeepFacts(order, task.goal))) <==> Satisfies(s, task.goal)
  {
    KeepFactsMeaning(order, |task.ranges|, s, t, task.goal);
    var c := KeepFacts(order, task.goal);
    SatisfiesSameFacts(t, c, Sort(FactLess, c));
  }

  lemma SatisfiesSameFacts(t: State, c: seq<Fact>, d: seq<Fact>)
    requires SameElements(c, d)
    ensures Satisfies(t, c) <==> Satisfies(t, d)
  {
    forall i | 0 <= i < |c| ensures c[i] in d { assert c[i] in c; }
    forall i | 0 <= i < |d| ensures d[i] in c { assert d[i] in d; }
  }

  /** Reordering and projecting keeps the plans: the two tasks have plans of the same
      names and costs, except that the projection may save dropped operators. */
  lemma ProjectionPreservesPlans(task: Task, order: seq<int>)
    requires ValidTask(task) && GoodOrder(task, order)
    ensures KeepsPlans(task, ProjectTask(order, task))
  {
    var small := ProjectTask(order, task);
    forall k | 0 <= k < |task.operators| ensures task.operators[k].cost >= 0 {
      assert ValidOperator(task.ranges, task.operators[k]);
    }
    ProjectionFollows(task, order);
    ProjectionIsFollowed(task, order);
    forall names, c | SolvableBy(small, names, c) ensures SolvableBy(task, names, c) {
      var q :| SolvesWithCost(small, q, c) && Names(q) == names;
      var plan := SimulationTransfersPlans((t, s) => Projects(order, |task.ranges|, s, t), small.operators,
                                           task.operators, true, q, small.init, task.init);
      GoalProjects(task, order, Execute(task.init, plan).s, Execute(small.init, q).s);
      assert SolvesWithCost(task, plan, c);
    }
    forall names, c | SolvableBy(task, names, c) ensures SolvableWithin(small, names, c) {
      var plan :| SolvesWithCost(task, plan, c) && Names(plan) == names;
      var q := SimulationTransfersPlans((s, t) => Projects(order, |task.ranges|, s, t), task.operators,
                                        small.operators, false, plan, task.init, small.init);
      GoalProjects(task, order, Execute(task.init, plan).s, Execute(small.init, q).s);
      assert SolvesWithCost(small, q, Execute(small.init, q).cost);
    }
  }
}
