/**
  Grouping conditions that share variables (split_rules.py:10-23, graph.py:5-26): a
  depth-first search over a graph that links, for each variable, its first condition
  with all others.  The components partition the conditions, are connected by shared
  variables, and share no variable with each other.
 */
module ConnectedConditions {
  import opened Wrappers
  import opened Datalog
  import opened JoinCosts

  type Neighbours = map<SymAtom, set<SymAtom>>

  function NeighboursOf(nb: Neighbours, u: SymAtom): set<SymAtom> {
    if u in nb then nb[u] else {}
  }

  /** Edges go both ways and stay among the nodes. */
  predicate Symmetric(nb: Neighbours) {
    forall u, v :: u in nb && v in nb[u] ==> v in nb && u in nb[v]
  }

  function SetOf(s: seq<SymAtom>): set<SymAtom> {
    set c | c in s
  }

  /** No proper nonempty part of `c` is without an edge to the rest of `c`. */
  ghost predicate Linked(nb: Neighbours, c: set<SymAtom>) {
    forall s: set<SymAtom> :: c * s != {} && c - s != {} ==> EdgeOut(nb, c, s)
  }

  ghost predicate EdgeOut(nb: Neighbours, c: set<SymAtom>, s: set<SymAtom>) {
    exists u, v :: u in c && u in s && v in c && v !in s && v in NeighboursOf(nb, u)
  }

  lemma SingletonLinked(nb: Neighbours, u: SymAtom)
    ensures Linked(nb, {u})
  {
    forall s: set<SymAtom> ensures !({u} * s != {} && {u} - s != {}) {
      if u in s { assert {u} - s == {}; } else { assert {u} * s == {}; }
    }
  }

  lemma EdgeOutMore(nb: Neighbours, a: set<SymAtom>, c: set<SymAtom>, s: set<SymAtom>)
    requires EdgeOut(nb, a, s) && a <= c
    ensures EdgeOut(nb, c, s)
  {
    var u, v :| u in a && u in s && v in a && v !in s && v in NeighboursOf(nb, u);
    assert u in c && v in c;
  }

  /** Two linked sets with an edge between them are linked together. */
  lemma UnionLinked(nb: Neighbours, a: set<SymAtom>, b: set<SymAtom>, u: SymAtom, v: SymAtom)
    requires Linked(nb, a) && Linked(nb, b) && Symmetric(nb) && u in a && v in b && v in NeighboursOf(nb, u)
    ensures Linked(nb, a + b)
  {
    hide EdgeOut;
    forall s: set<SymAtom> | (a + b) * s != {} && (a + b) - s != {} ensures EdgeOut(nb, a + b, s) {
      if a * s != {} && a - s != {} {
        EdgeOutMore(nb, a, a + b, s);
      } else if b * s != {} && b - s != {} {
        EdgeOutMore(nb, b, a + b, s);
      } else {
        CrossEdge(nb, a, b, u, v, s);
      }
    }
  }

  lemma CrossEdge(nb: Neighbours, a: set<SymAtom>, b: set<SymAtom>, u: SymAtom, v: SymAtom, s: set<SymAtom>)
    requires Symmetric(nb) && u in a && v in b && v in NeighboursOf(nb, u)
    requires (a + b) * s != {} && (a + b) - s != {}
    requires (a * s == {} || a - s == {}) && (b * s == {} || b - s == {})
    ensures EdgeOut(nb, a + b, s)
  {
    assert u in s ==> u in a * s;
    assert u !in s ==> u in a - s;
    assert v in s ==> v in b * s;
    assert v !in s ==> v in b - s;
    if u in s {
      var x := Member((a + b) - s);
      assert x !in a - s;
      assert x in b - s;
      assert v !in s;
    } else {
      var x := Member((a + b) * s);
      assert x !in a * s;
      assert x in b * s;
      assert v in s && u in NeighboursOf(nb, v);
    }
  }

  class Graph {
    const nodes: seq<SymAtom>
    var neighbours: Neighbours

    ghost predicate Valid()
      reads this
    {
      neighbours.Keys == SetOf(nodes) && Symmetric(neighbours)
    }

    constructor (nodes: seq<SymAtom>)
      ensures Valid() && this.nodes == nodes && forall u :: u in neighbours ==> neighbours[u] == {}
    {
      this.nodes := nodes;
      neighbours := map u | u in nodes :: {};
    }

    method Connect(u: SymAtom, v: SymAtom)
      requires Valid() && u in nodes && v in nodes
      modifies this
      ensures Valid()
      ensures forall a, b :: b in NeighboursOf(neighbours, a) <==>
        b in NeighboursOf(old(neighbours), a) || (a == u && b == v) || (a == v && b == u)
    {
      neighbours := neighbours[u := neighbours[u] + {v}];
      neighbours := neighbours[v := neighbours[v] + {u}];
    }
  }

  /** The inner function `dfs`: the nodes reached from `node` among the remaining ones. */
  method Dfs(nb: Neighbours, node: SymAtom, start: set<SymAtom>) returns (comp: seq<SymAtom>, remaining: set<SymAtom>)
    requires Symmetric(nb) && node in start && start <= nb.Keys
    ensures node in comp && Distinct(comp) && SetOf(comp) == start - remaining && remaining < start
    ensures Linked(nb, SetOf(comp))
    ensures forall u, v :: u in comp && v in NeighboursOf(nb, u) ==> v !in remaining
    decreases start
  {
    comp, remaining := [node], start - {node};
    SingletonLinked(nb, node);
    assert SetOf(comp) == {node};
    var ns := ListOf(nb[node]);
    hide Linked;
    for i := 0 to |ns|
      invariant node in comp && Distinct(comp) && SetOf(comp) == start - remaining && remaining < start
      invariant Linked(nb, SetOf(comp))
      invariant forall v :: v in ns[..i] ==> v !in remaining
      invariant forall u, v :: u in comp && u != node && v in NeighboursOf(nb, u) ==> v !in remaining
    {
      assert ns[i] in ns;
      if ns[i] in remaining {
        var more, rest := Dfs(nb, ns[i], remaining);
        UnionLinked(nb, SetOf(comp), SetOf(more), node, ns[i]);
        JoinComponents(comp, more, start, remaining, rest);
        comp, remaining := comp + more, rest;
      }
      assert ns[..i + 1] == ns[..i] + [ns[i]];
    }
    assert ns[..|ns|] == ns;
  }

  lemma JoinComponents(comp: seq<SymAtom>, more: seq<SymAtom>, start: set<SymAtom>, mid: set<SymAtom>,
      rest: set<SymAtom>)
    requires SetOf(comp) == start - mid && SetOf(more) == mid - rest && rest < mid < start
    requires Distinct(comp) && Distinct(more)
    ensures SetOf(comp + more) == start - rest && Distinct(comp + more)
    ensures SetOf(comp + more) == SetOf(comp) + SetOf(more)
  {
    forall i, j | 0 <= i < |comp| && 0 <= j < |more| ensures comp[i] != more[j] {
      assert comp[i] in SetOf(comp) && more[j] in SetOf(more);
    }
    assert forall x :: x in SetOf(comp + more) <==> x in SetOf(comp) || x in SetOf(more);
    assert SetOf(comp + more) == SetOf(comp) + SetOf(more);
    assert (start - mid) + (mid - rest) == start - rest;
  }

  /** No edge leaves the set. */
  ghost predicate ClosedSet(nb: Neighbours, c: set<SymAtom>) {
    forall u, v :: u in c && v in NeighboursOf(nb, u) ==> v in c
  }

  /** The components found so far. */
  ghost predicate Components(nb: Neighbours, done: set<SymAtom>, result: seq<seq<SymAtom>>) {
    && (forall i :: 0 <= i < |result| ==> result[i] != [] && Distinct(result[i]))
    && (forall i :: 0 <= i < |result| ==> Linked(nb, SetOf(result[i])) && ClosedSet(nb, SetOf(result[i])))
    && (forall i, j :: 0 <= i < j < |result| ==> SetOf(result[i]) !! SetOf(result[j]))
    && (forall c :: c in done <==> exists i :: 0 <= i < |result| && c in result[i])
  }

  lemma DoneClosed(nb: Neighbours, done: set<SymAtom>, result: seq<seq<SymAtom>>, v: SymAtom, u: SymAtom)
    requires Components(nb, done, result) && u in NeighboursOf(nb, v)
    ensures v in done ==> u in done
  {
    hide Linked;
    if v in done {
      var i :| 0 <= i < |result| && v in result[i];
      assert ClosedSet(nb, SetOf(result[i]));
      assert u in SetOf(result[i]);
    }
  }

  lemma AddComponent(nb: Neighbours, all: set<SymAtom>, before: set<SymAtom>, after: set<SymAtom>,
      result: seq<seq<SymAtom>>, comp: seq<SymAtom>)
    requires Symmetric(nb) && all == nb.Keys && Components(nb, all - before, result) && before <= all
    requires comp != [] && Distinct(comp) && Linked(nb, SetOf(comp)) && SetOf(comp) == before - after && after <= before
    requires forall u, v :: u in comp && v in NeighboursOf(nb, u) ==> v !in after
    ensures Components(nb, all - after, result + [comp])
  {
    hide Linked;
    var more := result + [comp];
    forall i | 0 <= i < |result| ensures SetOf(result[i]) !! SetOf(comp) {
      forall c | c in SetOf(result[i]) ensures c !in SetOf(comp) { assert c in all - before; }
    }
    forall u, v | u in SetOf(comp) && v in NeighboursOf(nb, u) ensures v in SetOf(comp) {
      assert v in nb && u in NeighboursOf(nb, v);
      DoneClosed(nb, all - before, result, v, u);
    }
    forall c ensures c in all - after <==> exists i :: 0 <= i < |more| && c in more[i] {
      if c in all - before {
        var i :| 0 <= i < |result| && c in result[i];
        assert c in more[i];
      } else if c in before - after {
        assert c in SetOf(comp) && c in more[|result|];
      }
      if exists i :: 0 <= i < |more| && c in more[i] {
        var i :| 0 <= i < |more| && c in more[i];
        if i < |result| { assert c in result[i]; } else { assert c in SetOf(comp); }
      }
    }
  }

  /** connected_components */
  method ConnectedComponents(g: Graph) returns (result: seq<seq<SymAtom>>)
    requires g.Valid()
    ensures Components(g.neighbours, SetOf(g.nodes), result)
  {
    var remaining := SetOf(g.nodes);
    result := [];
    hide Components, Linked;
    assert Components(g.neighbours, SetOf(g.nodes) - remaining, result) by { NoComponents(g.neighbours, SetOf(g.nodes) - remaining); }
    while remaining != {}
      invariant remaining <= SetOf(g.nodes) && Components(g.neighbours, SetOf(g.nodes) - remaining, result)
      decreases remaining
    {
      ghost var some := Member(remaining);
      var node :| node in remaining;
      var comp, rest := Dfs(g.neighbours, node, remaining);
      AddComponent(g.neighbours, SetOf(g.nodes), remaining, rest, result, comp);
      result := result + [comp];
      remaining := rest;
    }
    assert SetOf(g.nodes) - remaining == SetOf(g.nodes);
  }

  lemma NoComponents(nb: Neighbours, done: set<SymAtom>)
    requires done == {}
    ensures Components(nb, done, [])
  {
  }

  // ----- The graph of the conditions -----

  type VarLists = map<Arg, seq<SymAtom>>

  /** Each variable of the conditions lists the conditions that contain it. */
  ghost predicate ListsOf(conditions: seq<SymAtom>, m: VarLists) {
    && (forall x :: x in m <==> x in Variables(conditions))
    && (forall x, c :: x in m ==> (c in m[x] <==> c in conditions && x in VarsOf(c.args)))
  }

  /** As `ListsOf`, for the conditions before `i` and the first `k` arguments of condition `i`. */
  ghost predicate PartLists(conditions: seq<SymAtom>, i: nat, k: nat, m: VarLists) {
    && i <= |conditions| && (i < |conditions| ==> k <= |conditions[i].args|) && (i == |conditions| ==> k == 0)
    && (forall x, c :: x in m && c in m[x] ==> c in conditions && x in VarsOf(c.args))
    && (forall x, j :: 0 <= j < i && x in VarsOf(conditions[j].args) ==> x in m && conditions[j] in m[x])
    && (forall x :: i < |conditions| && x in VarsOf(conditions[i].args[..k]) ==> x in m && conditions[i] in m[x])
    && (forall x :: x in m ==> m[x] != [])
  }

  function ListAt(m: VarLists, x: Arg): seq<SymAtom> {
    if x in m then m[x] else []
  }

  lemma PartListsStep(conditions: seq<SymAtom>, i: nat, k: nat, m: VarLists)
    requires PartLists(conditions, i, k, m) && i < |conditions| && k < |conditions[i].args|
    ensures var x := conditions[i].args[k];
      PartLists(conditions, i, k + 1, if x.IsVar() then m[x := ListAt(m, x) + [conditions[i]]] else m)
  {
    var c, x := conditions[i], conditions[i].args[k];
    var next := if x.IsVar() then m[x := ListAt(m, x) + [c]] else m;
    assert c.args[..k + 1] == c.args[..k] + [x];
    forall y | y in VarsOf(c.args[..k + 1]) ensures y in next && c in next[y] {
      if y != x { assert y in VarsOf(c.args[..k]); }
    }
  }

  lemma PartListsNext(conditions: seq<SymAtom>, i: nat, m: VarLists)
    requires i < |conditions| && PartLists(conditions, i, |conditions[i].args|, m)
    ensures PartLists(conditions, i + 1, 0, m)
  {
    assert conditions[i].args[..|conditions[i].args|] == conditions[i].args;
  }

  lemma PartListsAll(conditions: seq<SymAtom>, m: VarLists)
    requires PartLists(conditions, |conditions|, 0, m)
    ensures ListsOf(conditions, m)
  {
    forall x ensures x in m <==> x in Variables(conditions) {
      if x in m {
        assert m[x] != [] && m[x][0] in m[x];
        assert m[x][0] in conditions;
        var j :| 0 <= j < |conditions| && conditions[j] == m[x][0];
        assert x in VarsOf(conditions[j].args);
      }
    }
  }

  method ConditionsByVariable(conditions: seq<SymAtom>) returns (m: VarLists)
    ensures ListsOf(conditions, m)
  {
    m := map[];
    hide PartLists;
    assert PartLists(conditions, 0, 0, m) by { NoLists(conditions); }
    for i := 0 to |conditions|
      invariant PartLists(conditions, i, 0, m)
    {
      for k := 0 to |conditions[i].args|
        invariant PartLists(conditions, i, k, m)
      {
        PartListsStep(conditions, i, k, m);
        var x := conditions[i].args[k];
        if x.IsVar() { m := m[x := ListAt(m, x) + [conditions[i]]]; }
      }
      PartListsNext(conditions, i, m);
    }
    PartListsAll(conditions, m);
  }

  lemma NoLists(conditions: seq<SymAtom>)
    ensures PartLists(conditions, 0, 0, map[])
  {
  }

  /** Edges only join conditions with a common variable. */
  ghost predicate EdgesShare(nb: Neighbours) {
    forall u, v :: v in NeighboursOf(nb, u) ==> Share(u, v)
  }

  /** Every condition with the variable is linked to the first one. */
  ghost predicate Star(nb: Neighbours, list: seq<SymAtom>, n: nat) {
    list != [] && n <= |list| && forall k :: 0 < k < n ==> list[k] in NeighboursOf(nb, list[0])
  }

  ghost predicate Stars(nb: Neighbours, m: VarLists, vars: seq<Arg>) {
    forall i :: 0 <= i < |vars| && vars[i] in m ==> Star(nb, m[vars[i]], |m[vars[i]]|)
  }

  /** The graph only gained edges. */
  ghost predicate Gained(before: Neighbours, after: Neighbours) {
    forall u :: NeighboursOf(before, u) <= NeighboursOf(after, u)
  }

  lemma StarsGrow(before: Neighbours, after: Neighbours, m: VarLists, vars: seq<Arg>, x: Arg)
    requires Stars(before, m, vars) && Gained(before, after) && x in m && Star(after, m[x], |m[x]|)
    ensures Stars(after, m, vars + [x])
  {
    forall i | 0 <= i < |vars| && vars[i] in m ensures Star(after, m[vars[i]], |m[vars[i]]|) {
      assert Star(before, m[vars[i]], |m[vars[i]]|);
    }
  }

  lemma EdgesShareMore(before: Neighbours, after: Neighbours, c: SymAtom, d: SymAtom)
    requires EdgesShare(before) && Share(c, d) && Share(d, c)
    requires forall a, b :: b in NeighboursOf(after, a) <==>
      b in NeighboursOf(before, a) || (a == c && b == d) || (a == d && b == c)
    ensures EdgesShare(after) && Gained(before, after)
  {
    hide Share;
  }

  lemma StarMore(before: Neighbours, after: Neighbours, list: seq<SymAtom>, k: nat)
    requires 0 < k < |list| && Star(before, list, k) && Gained(before, after) && list[k] in NeighboursOf(after, list[0])
    ensures Star(after, list, k + 1)
  {
  }

  lemma GainedTwice(a: Neighbours, b: Neighbours, c: Neighbours)
    requires Gained(a, b) && Gained(b, c)
    ensures Gained(a, c)
  {
  }

  lemma BothHave(x: Arg, c: SymAtom, d: SymAtom)
    requires x in VarsOf(c.args) && x in VarsOf(d.args)
    ensures Share(c, d) && Share(d, c)
  {
    assert x in VarsOf(c.args) * VarsOf(d.args) && x in VarsOf(d.args) * VarsOf(c.args);
  }

  /** Link the first condition of the list with all others. */
  method ConnectList(g: Graph, ghost m: VarLists, ghost x: Arg, list: seq<SymAtom>)
    requires g.Valid() && EdgesShare(g.neighbours) && ListsOf(g.nodes, m) && x in m && m[x] == list && list != []
    modifies g
    ensures g.Valid() && EdgesShare(g.neighbours) && Star(g.neighbours, list, |list|)
    ensures Gained(old(g.neighbours), g.neighbours)
  {
    assert Gained(g.neighbours, g.neighbours) && Star(g.neighbours, list, 1);
    hide EdgesShare, Gained, Star, Graph.Valid, Share;
    for k := 1 to |list|
      invariant g.Valid() && EdgesShare(g.neighbours) && Star(g.neighbours, list, k)
      invariant Gained(old(g.neighbours), g.neighbours)
    {
      assert list[0] in m[x] && list[k] in m[x];
      BothHave(x, list[0], list[k]);
      ghost var before := g.neighbours;
      g.Connect(list[0], list[k]);
      EdgesShareMore(before, g.neighbours, list[0], list[k]);
      StarMore(before, g.neighbours, list, k);
      GainedTwice(old(g.neighbours), before, g.neighbours);
    }
  }

  /** The groups of conditions and what they satisfy. */
  ghost predicate Grouping(conditions: seq<SymAtom>, groups: seq<seq<SymAtom>>) {
    && (forall i :: 0 <= i < |groups| ==> groups[i] != [] && Distinct(groups[i]) && Connected(groups[i]))
    && (forall i, j, c, d :: 0 <= i < |groups| && 0 <= j < |groups| && i != j && c in groups[i] && d in groups[j] ==> !Share(c, d))
    && (forall c :: c in conditions <==> exists i :: 0 <= i < |groups| && c in groups[i])
  }

  lemma LinkedConnected(nb: Neighbours, comp: seq<SymAtom>)
    requires EdgesShare(nb) && Linked(nb, SetOf(comp)) && Distinct(comp)
    ensures Connected(comp)
  {
    forall f: seq<bool> | |f| == |comp| && Splits(f) ensures Crosses(comp, f) {
      var s := set i | 0 <= i < |comp| && f[i] :: comp[i];
      var a :| 0 <= a < |f| && f[a];
      var b :| 0 <= b < |f| && !f[b];
      assert comp[a] in SetOf(comp) * s;
      assert comp[b] in SetOf(comp) - s;
      assert EdgeOut(nb, SetOf(comp), s);
      var u, v :| u in SetOf(comp) && u in s && v in SetOf(comp) && v !in s && v in NeighboursOf(nb, u);
      var i :| 0 <= i < |comp| && f[i] && comp[i] == u;
      var k :| 0 <= k < |comp| && comp[k] == v;
      assert f[i] && !f[k] && Share(comp[i], comp[k]);
    }
  }

  lemma SharingTogether(nb: Neighbours, m: VarLists, conditions: seq<SymAtom>, vars: seq<Arg>, c: SymAtom,
      d: SymAtom, comp: set<SymAtom>)
    requires Symmetric(nb) && ListsOf(conditions, m) && Stars(nb, m, vars) && (forall x :: x in vars <==> x in m)
    requires c in conditions && d in conditions && Share(c, d) && c in comp && ClosedSet(nb, comp)
    requires nb.Keys == SetOf(conditions)
    ensures d in comp
  {
    var x := Member(VarsOf(c.args) * VarsOf(d.args));
    var j :| 0 <= j < |conditions| && conditions[j] == c;
    assert x in Variables(conditions);
    hide VarsOf, Variables;
    var i :| 0 <= i < |vars| && vars[i] == x;
    assert Star(nb, m[x], |m[x]|);
    var h := m[x][0];
    assert c in m[x] && d in m[x];
    var k :| 0 <= k < |m[x]| && m[x][k] == c;
    var l :| 0 <= l < |m[x]| && m[x][l] == d;
    if k > 0 { assert h in NeighboursOf(nb, c); }
    assert h in comp;
  }

  lemma GroupingOf(nb: Neighbours, m: VarLists, conditions: seq<SymAtom>, vars: seq<Arg>, groups: seq<seq<SymAtom>>)
    requires Symmetric(nb) && nb.Keys == SetOf(conditions) && EdgesShare(nb) && ListsOf(conditions, m)
    requires Stars(nb, m, vars)
    requires (forall x :: x in vars <==> x in m) && Components(nb, SetOf(conditions), groups)
    ensures Grouping(conditions, groups)
  {
    hide ListsOf, Stars, Linked, ClosedSet, Share, EdgesShare;
    forall i | 0 <= i < |groups| ensures Connected(groups[i]) { LinkedConnected(nb, groups[i]); }
    forall c ensures c in conditions <==> exists i :: 0 <= i < |groups| && c in groups[i] {
      assert c in conditions <==> c in SetOf(conditions);
    }
    forall i, j, c, d | 0 <= i < |groups| && 0 <= j < |groups| && i != j && c in groups[i] && d in groups[j]
      ensures !Share(c, d)
    {
      assert c in SetOf(conditions) && d in SetOf(conditions);
      if Share(c, d) {
        SharingTogether(nb, m, conditions, vars, c, d, SetOf(groups[i]));
        assert false;
      }
    }
  }

  lemma NoEdges(nb: Neighbours, m: VarLists)
    requires forall u :: u in nb ==> nb[u] == {}
    ensures EdgesShare(nb) && Stars(nb, m, [])
  {
  }

  /** Link the conditions of every variable. */
  method ConnectAll(g: Graph, m: VarLists, vars: seq<Arg>)
    requires g.Valid() && ListsOf(g.nodes, m) && (forall x :: x in vars <==> x in m)
    requires forall u :: u in g.neighbours ==> g.neighbours[u] == {}
    modifies g
    ensures g.Valid() && EdgesShare(g.neighbours) && Stars(g.neighbours, m, vars)
  {
    NoEdges(g.neighbours, m);
    hide Star, Stars, EdgesShare, ListsOf, Gained, Graph.Valid;
    for i := 0 to |vars|
      invariant g.Valid() && EdgesShare(g.neighbours) && Stars(g.neighbours, m, vars[..i])
    {
      assert vars[i] in vars;
      ghost var before := g.neighbours;
      ListNonempty(g.nodes, m, vars[i]);
      ConnectList(g, m, vars[i], m[vars[i]]);
      StarsGrow(before, g.neighbours, m, vars[..i], vars[i]);
      assert vars[..i + 1] == vars[..i] + [vars[i]];
    }
    assert vars[..|vars|] == vars;
  }

  /** get_connected_conditions */
  method GetConnectedConditions(conditions: seq<SymAtom>) returns (groups: seq<seq<SymAtom>>)
    ensures Grouping(conditions, groups)
  {
    hide Stars, EdgesShare, ListsOf, Components, Grouping;
    var g := new Graph(conditions);
    var m := ConditionsByVariable(conditions);
    var vars := ListOf(m.Keys);
    ConnectAll(g, m, vars);
    groups := ConnectedComponents(g);
    GroupingOf(g.neighbours, m, conditions, vars, groups);
  }

  lemma ListNonempty(conditions: seq<SymAtom>, m: VarLists, x: Arg)
    requires ListsOf(conditions, m) && x in m
    ensures m[x] != []
  {
    var i :| 0 <= i < |conditions| && x in VarsOf(conditions[i].args);
    assert conditions[i] in m[x];
  }
}
