/**
  The graph within a strongly connected component (variable_order.py:78-97): the edges of
  the causal graph between its vertices, with additional heavy edges to goal variables,
  and the weights by which its vertices are then picked.
 */
module InnerGraphs {
  import opened Wrappers
  import opened SasTasks
  import CausalGraphs
  import MaxDag

  /** The weights mention only variables below `n` and are not negative. */
  ghost predicate InBounds(w: CausalGraphs.Weights, n: nat) {
    forall s, t :: t in CausalGraphs.Row(w, s) ==> 0 <= s < n && 0 <= t < n && CausalGraphs.Row(w, s)[t] >= 0
  }

  // ----- The edges from one vertex -----

  /** A target outside the component is skipped; one in the goal is listed a second time,
      with a bonus on its weight. */
  function EdgesFor(item: Fact, scc: seq<int>, goals: set<int>): seq<(int, int)> {
    if item.v !in scc then []
    else if item.v in goals then [(item.v, MaxDag.GOAL_WEIGHT + item.val), (item.v, item.val)]
    else [(item.v, item.val)]
  }

  function InnerEdges(items: seq<Fact>, scc: seq<int>, goals: set<int>): seq<(int, int)> {
    if items == [] then []
    else InnerEdges(items[..|items| - 1], scc, goals) + EdgesFor(items[|items| - 1], scc, goals)
  }

  predicate ByVariable(items: seq<Fact>) {
    forall i, j :: 0 <= i < j < |items| ==> items[i].v < items[j].v
  }

  function Has(items: seq<Fact>, f: Fact): nat {
    if f in items then 1 else 0
  }

  lemma HasStep(items: seq<Fact>, f: Fact)
    requires items != [] && ByVariable(items)
    ensures Has(items, f) == Has(items[..|items| - 1], f) + if items[|items| - 1] == f then 1 else 0
  {
    assert items == items[..|items| - 1] + [items[|items| - 1]];
  }

  function ItemCount(items: seq<Fact>, scc: seq<int>, goals: set<int>, t: int, x: int): nat {
    if t !in scc then 0
    else Has(items, Fact(t, x)) + if t in goals then Has(items, Fact(t, x - 100000)) else 0
  }

  lemma EdgesForCount(item: Fact, scc: seq<int>, goals: set<int>, t: int, x: int)
    ensures multiset(EdgesFor(item, scc, goals))[(t, x)] ==
      if t !in scc || item.v != t then 0
      else (if item.val == x then 1 else 0) + if t in goals && item.val == x - 100000 then 1 else 0
  {
  }

  lemma {:induction false} InnerEdgesCounted(items: seq<Fact>, scc: seq<int>, goals: set<int>, t: int, x: int)
    requires ByVariable(items)
    ensures multiset(InnerEdges(items, scc, goals))[(t, x)] == ItemCount(items, scc, goals, t, x)
  {
    if items != [] {
      var front, item := items[..|items| - 1], items[|items| - 1];
      InnerEdgesCounted(front, scc, goals, t, x);
      HasStep(items, Fact(t, x));
      HasStep(items, Fact(t, x - 100000));
      EdgesForCount(item, scc, goals, t, x);
      hide Has, EdgesFor;
    }
  }

  /** By target, and the heavier of two edges to the same target first. */
  predicate ByTarget(es: seq<(int, int)>) {
    forall i, j :: 0 <= i < j < |es| ==> es[i].0 < es[j].0 || (es[i].0 == es[j].0 && es[i].1 > es[j].1)
  }

  predicate TargetsBelow(es: seq<(int, int)>, t: int) {
    forall i :: 0 <= i < |es| ==> es[i].0 < t
  }

  lemma {:induction false} InnerEdgesOrdered(items: seq<Fact>, scc: seq<int>, goals: set<int>, t: int)
    requires ByVariable(items) && forall i :: 0 <= i < |items| ==> items[i].v < t
    ensures ByTarget(InnerEdges(items, scc, goals)) && TargetsBelow(InnerEdges(items, scc, goals), t)
  {
    if items != [] {
      InnerEdgesOrdered(items[..|items| - 1], scc, goals, items[|items| - 1].v);
    }
  }

  /** How often an edge to `t` of weight `x` is listed. */
  function InnerCount(row: map<int, int>, scc: seq<int>, goals: set<int>, t: int, x: int): nat {
    if t !in scc || t !in row then 0
    else (if x == row[t] then 1 else 0) + if t in goals && x == 100000 + row[t] then 1 else 0
  }

  /** The edges from `v` within the component, by target: one with the weight of the causal
      graph, and before it one that weighs 100000 more if the target is a goal variable. */
  ghost predicate ListsEdges(w: CausalGraphs.Weights, scc: seq<int>, goals: set<int>, v: int, es: seq<(int, int)>) {
    ByTarget(es) && forall t, x :: multiset(es)[(t, x)] == InnerCount(CausalGraphs.Row(w, v), scc, goals, t, x)
  }

  lemma InnerEdgesListed(w: CausalGraphs.Weights, scc: seq<int>, goals: set<int>, v: int)
    ensures ListsEdges(w, scc, goals, v, InnerEdges(Items(CausalGraphs.Row(w, v)), scc, goals))
  {
    var row := CausalGraphs.Row(w, v);
    var items := Items(row);
    hide InnerEdges;
    forall t, x ensures multiset(InnerEdges(items, scc, goals))[(t, x)] == InnerCount(row, scc, goals, t, x) {
      InnerEdgesCounted(items, scc, goals, t, x);
    }
    InnerEdgesOrdered(items, scc, goals, if items == [] then 0 else items[|items| - 1].v + 1);
  }

  // ----- The graph of a component -----

  function InnerGraphOf(w: CausalGraphs.Weights, scc: seq<int>, goals: set<int>): MaxDag.WeightedGraph {
    map v | v in scc :: InnerEdges(Items(CausalGraphs.Row(w, v)), scc, goals)
  }

  lemma InnerEdgeValid(w: CausalGraphs.Weights, n: nat, scc: seq<int>, goals: set<int>, v: int, es: seq<(int, int)>,
      k: int)
    requires InBounds(w, n) && ListsEdges(w, scc, goals, v, es) && 0 <= k < |es|
    ensures es[k].0 in scc && es[k].1 >= 0
  {
    assert es[k] in multiset(es);
    assert multiset(es)[(es[k].0, es[k].1)] == InnerCount(CausalGraphs.Row(w, v), scc, goals, es[k].0, es[k].1);
  }

  lemma InnerGraphValid(w: CausalGraphs.Weights, n: nat, scc: seq<int>, goals: set<int>)
    requires InBounds(w, n) && Distinct(scc)
    ensures MaxDag.ValidInput(InnerGraphOf(w, scc, goals), scc)
  {
    hide InnerEdges, InBounds, ListsEdges;
    forall v, k | v in scc && 0 <= k < |InnerEdges(Items(CausalGraphs.Row(w, v)), scc, goals)|
      ensures var e := InnerEdges(Items(CausalGraphs.Row(w, v)), scc, goals)[k]; e.0 in scc && e.1 >= 0
    {
      InnerEdgesListed(w, scc, goals, v);
      InnerEdgeValid(w, n, scc, goals, v, InnerEdges(Items(CausalGraphs.Row(w, v)), scc, goals), k);
    }
  }

  /** The subgraph of a component that `MaxDAG` orders. */
  method InnerGraph(w: CausalGraphs.Weights, ghost n: nat, scc: seq<int>, goals: set<int>)
      returns (g: MaxDag.WeightedGraph)
    requires InBounds(w, n) && Distinct(scc)
    ensures MaxDag.ValidInput(g, scc) && g == InnerGraphOf(w, scc, goals)
    ensures (forall v :: v in g <==> v in scc) && forall v :: v in g ==> ListsEdges(w, scc, goals, v, g[v])
  {
    hide InBounds, InnerEdges, ListsEdges;
    g := map[];
    for i := 0 to |scc|
      invariant forall v :: v in scc[..i] <==> v in g
      invariant forall v :: v in g ==> g[v] == InnerEdges(Items(CausalGraphs.Row(w, v)), scc, goals)
    {
      assert scc[..i + 1] == scc[..i] + [scc[i]];
      g := g[scc[i] := InnerEdges(Items(CausalGraphs.Row(w, scc[i])), scc, goals)];
    }
    assert scc[..|scc|] == scc;
    forall v | v in g ensures ListsEdges(w, scc, goals, v, g[v]) { InnerEdgesListed(w, scc, goals, v); }
    InnerGraphIs(w, scc, goals, g);
    InnerGraphValid(w, n, scc, goals);
  }

  lemma InnerGraphIs(w: CausalGraphs.Weights, scc: seq<int>, goals: set<int>, g: MaxDag.WeightedGraph)
    requires forall v :: v in scc <==> v in g
    requires forall v :: v in g ==> g[v] == InnerEdges(Items(CausalGraphs.Row(w, v)), scc, goals)
    ensures g == InnerGraphOf(w, scc, goals)
  {
    hide InnerEdges;
    forall v ensures v in g <==> v in InnerGraphOf(w, scc, goals) { }
  }

  // ----- The weights within a component -----

  /** The sum of the causal weights of the edges from `vs` to `t`. */
  function CausalTo(w: CausalGraphs.Weights, vs: seq<int>, t: int): int {
    if vs == [] then 0 else CausalTo(w, vs[..|vs| - 1], t) + CausalGraphs.WeightOf(w, vs[|vs| - 1], t)
  }

  function ReducedTo(w: CausalGraphs.Weights, vs: seq<int>, t: int): int {
    if vs == [] then 0 else ReducedTo(w, vs[..|vs| - 1], t) + CausalGraphs.WeightOf(w, vs[|vs| - 1], t) % 100000
  }

  /** The number of vertices in `vs` with an edge to `t`. */
  function SourcesOf(w: CausalGraphs.Weights, vs: seq<int>, t: int): nat {
    if vs == [] then 0
    else SourcesOf(w, vs[..|vs| - 1], t) + if t in CausalGraphs.Row(w, vs[|vs| - 1]) then 1 else 0
  }

  /** The weight of `t` in a component once `picks` have been picked: for a goal variable every
      edge counts twice, and once with the bonus. */
  function ComponentWeight(w: CausalGraphs.Weights, scc: seq<int>, goals: set<int>, picks: seq<int>, t: int): int {
    if t in goals then 2 * CausalTo(w, scc, t) + 100000 * SourcesOf(w, scc, t) - 2 * ReducedTo(w, picks, t)
    else CausalTo(w, scc, t) - ReducedTo(w, picks, t)
  }

  lemma SumOfOne(es: seq<(int, int)>, e: (int, int), t: int)
    ensures MaxDag.SumTo(es + [e], t) == MaxDag.SumTo(es, t) + if e.0 == t then e.1 else 0
    ensures MaxDag.ReducedSumTo(es + [e], t) == MaxDag.ReducedSumTo(es, t) + if e.0 == t then e.1 % 100000 else 0
  {
    assert (es + [e])[..|es|] == es;
  }

  /** What one item adds to the weight of `t`. */
  lemma SumOfItem(es: seq<(int, int)>, item: Fact, scc: seq<int>, goals: set<int>, t: int)
    requires t in scc
    ensures MaxDag.SumTo(es + EdgesFor(item, scc, goals), t) == MaxDag.SumTo(es, t) +
      if item.v != t then 0 else if t in goals then 100000 + 2 * item.val else item.val
    ensures MaxDag.ReducedSumTo(es + EdgesFor(item, scc, goals), t) == MaxDag.ReducedSumTo(es, t) +
      if item.v != t then 0 else if t in goals then 2 * (item.val % 100000) else item.val % 100000
  {
    if item.v !in scc {
      assert es + EdgesFor(item, scc, goals) == es;
    } else if item.v in goals {
      var heavy, plain := (item.v, 100000 + item.val), (item.v, item.val);
      SumOfOne(es, heavy, t);
      SumOfOne(es + [heavy], plain, t);
      assert es + EdgesFor(item, scc, goals) == es + [heavy] + [plain];
    } else {
      SumOfOne(es, (item.v, item.val), t);
    }
  }

  /** The weight of `t` in an ascending list, `None` if it is not listed. */
  function Listed(items: seq<Fact>, t: int): Option<int> {
    if items == [] then None
    else if items[|items| - 1].v == t then Some(items[|items| - 1].val) else Listed(items[..|items| - 1], t)
  }

  lemma {:induction false} NotListed(items: seq<Fact>, t: int)
    requires forall i :: 0 <= i < |items| ==> items[i].v < t
    ensures Listed(items, t).None?
  {
    if items != [] { NotListed(items[..|items| - 1], t); }
  }

  lemma {:induction false} ListedIs(items: seq<Fact>, t: int)
    ensures Listed(items, t).Some? ==> Fact(t, Listed(items, t).value) in items
    ensures Listed(items, t).None? ==> forall x :: Fact(t, x) !in items
  {
    if items != [] {
      ListedIs(items[..|items| - 1], t);
      assert items == items[..|items| - 1] + [items[|items| - 1]];
    }
  }

  lemma {:induction false} InnerSum(items: seq<Fact>, scc: seq<int>, goals: set<int>, t: int)
    requires t in scc && ByVariable(items)
    ensures MaxDag.SumTo(InnerEdges(items, scc, goals), t) ==
      match Listed(items, t)
      case None => 0
      case Some(c) => if t in goals then 100000 + 2 * c else c
    ensures MaxDag.ReducedSumTo(InnerEdges(items, scc, goals), t) ==
      match Listed(items, t)
      case None => 0
      case Some(c) => if t in goals then 2 * (c % 100000) else c % 100000
  {
    hide EdgesFor;
    if items != [] {
      var front, item := items[..|items| - 1], items[|items| - 1];
      InnerSum(front, scc, goals, t);
      SumOfItem(InnerEdges(front, scc, goals), item, scc, goals, t);
      if item.v == t { NotListed(front, t); }
    }
  }

  lemma InnerSumOf(w: CausalGraphs.Weights, scc: seq<int>, goals: set<int>, v: int, t: int)
    requires v in scc && t in scc
    ensures var es, c := MaxDag.EdgesOf(InnerGraphOf(w, scc, goals), v), CausalGraphs.WeightOf(w, v, t);
      && MaxDag.SumTo(es, t) ==
        (if t in goals then 2 * c + (if t in CausalGraphs.Row(w, v) then 100000 else 0) else c)
      && MaxDag.ReducedSumTo(es, t) == (if t in goals then 2 * (c % 100000) else c % 100000)
  {
    hide InnerEdges, MaxDag.SumTo, MaxDag.ReducedSumTo;
    var row := CausalGraphs.Row(w, v);
    InnerSum(Items(row), scc, goals, t);
    ListedIs(Items(row), t);
    if t in row { assert Fact(t, row[t]) in Items(row); }
  }

  lemma {:induction false} InnerTotal(w: CausalGraphs.Weights, scc: seq<int>, goals: set<int>, vs: seq<int>, t: int)
    requires t in scc && forall v :: v in vs ==> v in scc
    ensures MaxDag.TotalTo(InnerGraphOf(w, scc, goals), vs, t) ==
      if t in goals then 2 * CausalTo(w, vs, t) + 100000 * SourcesOf(w, vs, t) else CausalTo(w, vs, t)
    ensures MaxDag.ReducedTotalTo(InnerGraphOf(w, scc, goals), vs, t) ==
      if t in goals then 2 * ReducedTo(w, vs, t) else ReducedTo(w, vs, t)
  {
    hide InnerGraphOf;
    if vs != [] {
      var front, v := vs[..|vs| - 1], vs[|vs| - 1];
      assert vs == front + [v];
      InnerTotal(w, scc, goals, front, t);
      InnerSumOf(w, scc, goals, v, t);
    }
  }

  /** The weights that `MaxDAG` compares, in terms of the causal graph. */
  lemma InnerWeight(w: CausalGraphs.Weights, scc: seq<int>, goals: set<int>, picks: seq<int>, t: int)
    requires t in scc && t !in picks && forall v :: v in picks ==> v in scc
    ensures MaxDag.WeightIn(MaxDag.WeightsAfter(InnerGraphOf(w, scc, goals), scc, picks), t) ==
      ComponentWeight(w, scc, goals, picks, t)
  {
    hide InnerGraphOf;
    MaxDag.CurrentWeight(InnerGraphOf(w, scc, goals), scc, picks, t);
    InnerTotal(w, scc, goals, scc, t);
    InnerTotal(w, scc, goals, picks, t);
  }

  /** Every vertex of the component has the least weight among those not yet listed. */
  ghost predicate LightestFirst(w: CausalGraphs.Weights, scc: seq<int>, goals: set<int>, block: seq<int>) {
    forall i, u :: 0 <= i < |block| && u in scc && u !in block[..i] ==>
      ComponentWeight(w, scc, goals, block[..i], block[i]) <= ComponentWeight(w, scc, goals, block[..i], u)
  }

  lemma GreedyIsLightest(w: CausalGraphs.Weights, scc: seq<int>, goals: set<int>, block: seq<int>)
    requires MaxDag.IsGreedy(InnerGraphOf(w, scc, goals), scc, block) && forall v :: v in block ==> v in scc
    ensures LightestFirst(w, scc, goals, block)
  {
    hide InnerGraphOf, ComponentWeight, MaxDag.WeightsAfter, MaxDag.WeightIn, MaxDag.FirstFiled;
    var g := InnerGraphOf(w, scc, goals);
    forall i, u | 0 <= i < |block| && u in scc && u !in block[..i]
      ensures ComponentWeight(w, scc, goals, block[..i], block[i]) <= ComponentWeight(w, scc, goals, block[..i], u)
    {
      assert MaxDag.CanPick(g, scc, block[..i], block[i]);
      forall v | v in block[..i] ensures v in scc {}
      InnerWeight(w, scc, goals, block[..i], block[i]);
      InnerWeight(w, scc, goals, block[..i], u);
    }
  }
}
