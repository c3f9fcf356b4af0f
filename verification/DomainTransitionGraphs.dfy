/**
  Domain transition graphs (simplify.py:45-158): one graph per variable, whose
  arcs are the value changes that the operators can cause.
 */
module DomainTransitionGraphs {
  import opened Wrappers
  import opened SasTasks

  type Arcs = map<int, set<int>>

  function Targets(arcs: Arcs, u: int): set<int> {
    if u in arcs then arcs[u] else {}
  }

  ghost predicate Closed(arcs: Arcs, s: set<int>) {
    forall u :: u in s ==> Targets(arcs, u) <= s
  }

  /** `r` is the least set that contains `init` and is closed under the arcs. */
  ghost predicate IsReachableSet(arcs: Arcs, init: int, r: set<int>) {
    && init in r && Closed(arcs, r)
    && forall s :: init in s && Closed(arcs, s) ==> r <= s
  }

  ghost function AllTargets(arcs: Arcs): set<int> {
    set u, v | u in arcs && v in arcs[u] :: v
  }

  /** The worklist invariant of `Reachable`. */
  ghost predicate Exploring(arcs: Arcs, init: int, queue: seq<int>, reached: set<int>) {
    && init in reached && reached <= {init} + AllTargets(arcs)
    && (forall i :: 0 <= i < |queue| ==> queue[i] in reached)
    && (forall u :: u in reached ==> u in queue || Targets(arcs, u) <= reached)
    && (forall s :: init in s && Closed(arcs, s) ==> reached <= s)
  }

  lemma ExploreStep(arcs: Arcs, init: int, rest: seq<int>, node: int, reached: set<int>, extension: seq<int>)
    requires Exploring(arcs, init, rest + [node], reached)
    requires forall x :: x in extension <==> x in Targets(arcs, node) - reached
    ensures Exploring(arcs, init, rest + extension, reached + (Targets(arcs, node) - reached))
  {
    var queue, more := rest + extension, reached + (Targets(arcs, node) - reached);
    assert node in reached by { assert (rest + [node])[|rest|] == node; }
    forall x | x in Targets(arcs, node) ensures x in AllTargets(arcs) {}
    forall i | 0 <= i < |queue| ensures queue[i] in more {
      if i < |rest| {
        assert queue[i] == (rest + [node])[i];
      } else {
        assert queue[i] == extension[i - |rest|];
      }
    }
    forall u | u in more ensures u in queue || Targets(arcs, u) <= more {
      if u in reached && u in rest + [node] && u != node {
        assert u in rest;
      }
    }
    forall s | init in s && Closed(arcs, s) ensures more <= s {
      assert node in s;
    }
  }

  class DomainTransitionGraph {
    const init: int
    const size: int
    var arcs: Arcs

    constructor (init: int, size: int)
      ensures this.init == init && this.size == size && arcs == map[]
    {
      this.init := init;
      this.size := size;
      this.arcs := map[];
    }

    method AddArc(u: int, v: int)
      modifies this
      ensures arcs == old(arcs)[u := Targets(old(arcs), u) + {v}]
    {
      arcs := arcs[u := Targets(arcs, u) + {v}];
    }

    method Reachable() returns (reachable: set<int>)
      ensures IsReachableSet(arcs, init, reachable)
    {
      var queue := [init];
      reachable := {init};
      ghost var universe := {init} + AllTargets(arcs);
      while queue != []
        invariant Exploring(arcs, init, queue, reachable)
        decreases |universe - reachable|, |queue|
      {
        var node := queue[|queue| - 1];
        assert queue == queue[..|queue| - 1] + [node];
        queue := queue[..|queue| - 1];
        var newNeighbors := Targets(arcs, node) - reachable;
        ghost var before := reachable;
        var extension := ListOf(newNeighbors);
        ExploreStep(arcs, init, queue, node, reachable, extension);
        reachable := reachable + newNeighbors;
        if newNeighbors != {} {
          var x := Member(newNeighbors);
          assert x in universe - before && x !in universe - reachable;
          assert universe - reachable < universe - before;
        }
        queue := queue + extension;
      }
    }
  }

  // ----- The arcs of a task -----

  /** Combine the operator's condition `result` on `v` with effect conditions:
      the required value, `NO_PRE` if there is none, `None` on a contradiction. */
  function CombinePre(result: int, conds: seq<Fact>, v: int): Option<int>
    decreases |conds|
  {
    if conds == [] then Some(result)
    else if conds[0].v == v && result == NO_PRE then CombinePre(conds[0].val, conds[1..], v)
    else if conds[0].v == v && result != conds[0].val then None
    else CombinePre(result, conds[1..], v)
  }

  function OperatorPre(op: Operator, v: int): int {
    if v in ConditionMap(op) then ConditionMap(op)[v] else NO_PRE
  }

  function EffectivePre(op: Operator, e: PrePost): Option<int> {
    CombinePre(OperatorPre(op, e.v), e.cond, e.v)
  }

  predicate SpecAllows(size: int, spec: int, post: int, u: int) {
    if spec == NO_PRE then 0 <= u < size && u != post else u == spec
  }

  ghost predicate EntryArc(ranges: seq<int>, op: Operator, e: PrePost, v: int, u: int, w: int) {
    && e.v == v && 0 <= v < |ranges| && w == e.post
    && EffectivePre(op, e).Some? && SpecAllows(ranges[v], EffectivePre(op, e).value, e.post, u)
  }

  ghost predicate OperatorArc(ranges: seq<int>, op: Operator, count: nat, v: int, u: int, w: int) {
    exists j :: 0 <= j < count && j < |op.prePost| && EntryArc(ranges, op, op.prePost[j], v, u, w)
  }

  ghost predicate TaskArc(ranges: seq<int>, ops: seq<Operator>, v: int, u: int, w: int) {
    exists i :: 0 <= i < |ops| && OperatorArc(ranges, ops[i], |ops[i].prePost|, v, u, w)
  }

  /** The values that the operator's condition `pre` and the effect conditions ask of `v`. */
  function Required(pre: int, conds: seq<Fact>, v: int): (r: set<int>)
    ensures forall x :: x in r <==> (x == pre && pre != NO_PRE) || exists i :: 0 <= i < |conds| && conds[i] == Fact(v, x)
  {
    (if pre == NO_PRE then {} else {pre}) + set i | 0 <= i < |conds| && conds[i].v == v :: conds[i].val
  }

  /** `None` for two different values, else the only one, or `NO_PRE` if there is none. */
  predicate IsEffectivePre(pre: int, conds: seq<Fact>, v: int, r: Option<int>) {
    match r
    case None => exists x, y :: x in Required(pre, conds, v) && y in Required(pre, conds, v) && x != y
    case Some(x) => Required(pre, conds, v) == if x == NO_PRE then {} else {x}
  }

  lemma RequiredStep(pre: int, conds: seq<Fact>, v: int)
    requires conds != []
    ensures Required(pre, conds, v) == Required(pre, conds[1..], v) + if conds[0].v == v then {conds[0].val} else {}
  {
    var rest := conds[1..];
    forall x ensures (exists i :: 0 <= i < |conds| && conds[i] == Fact(v, x)) <==>
      (conds[0] == Fact(v, x) || exists i :: 0 <= i < |rest| && rest[i] == Fact(v, x))
    {
      if i :| 0 <= i < |conds| && conds[i] == Fact(v, x) && i > 0 { assert rest[i - 1] == conds[i]; }
      if i :| 0 <= i < |rest| && rest[i] == Fact(v, x) { assert conds[i + 1] == rest[i]; }
    }
  }

  /** What the combination of conditions means, for conditions with real values. */
  lemma {:induction false} CombinePreMeans(pre: int, conds: seq<Fact>, v: int)
    requires forall i :: 0 <= i < |conds| ==> conds[i].val != NO_PRE
    ensures IsEffectivePre(pre, conds, v, CombinePre(pre, conds, v))
    decreases |conds|
  {
    if conds == [] {
      assert Required(pre, conds, v) == if pre == NO_PRE then {} else {pre};
    } else {
      var rest, c := conds[1..], conds[0];
      RequiredStep(pre, conds, v);
      if c.v == v && pre == NO_PRE {
        CombinePreMeans(c.val, rest, v);
        assert Required(c.val, rest, v) == Required(pre, conds, v);
      } else if c.v == v && pre != c.val {
        assert pre in Required(pre, conds, v) && c.val in Required(pre, conds, v);
      } else {
        CombinePreMeans(pre, rest, v);
        assert Required(pre, rest, v) == Required(pre, conds, v);
      }
    }
  }

  /** In the valid state `s` the operator is applicable and the entry triggers. */
  predicate Fires(ranges: seq<int>, op: Operator, e: PrePost, s: State) {
    ValidState(ranges, s) && Applicable(op, s) && Satisfies(s, e.cond)
  }

  /** Some condition of the operator or the entry is about the entry's variable. */
  predicate Restricts(op: Operator, e: PrePost) {
    Conditioned(op, e.v) || MentionsVar(e.cond, e.v)
  }

  /** The entry can fire when its variable has the value `u`, and sets `w`; without a condition
      on the variable only changes of value are meant. */
  ghost predicate CanSet(ranges: seq<int>, op: Operator, e: PrePost, u: int, w: int) {
    && e.post == w && (u == w ==> Restricts(op, e))
    && exists s :: Fires(ranges, op, e, s) && 0 <= e.v < |s| && s[e.v] == u
  }

  function FiringValue(op: Operator, e: PrePost, u: int, x: int): int {
    if x in ConditionMap(op) then ConditionMap(op)[x]
    else if x in Dict(e.cond) then Dict(e.cond)[x]
    else if x == e.v then u
    else 0
  }

  /** A state in which the entry fires, with the value `u` if that is free. */
  function FiringState(ranges: seq<int>, op: Operator, e: PrePost, u: int): State {
    seq(|ranges|, x => FiringValue(op, e, u, x))
  }

  /** The conditions of the operator and of an entry are in range and about different variables. */
  predicate ConditionsKnown(ranges: seq<int>, op: Operator, e: PrePost) {
    && 0 <= e.v < |ranges| && (e.v in ConditionMap(op) || e.v in Dict(e.cond) <==> Restricts(op, e))
    && (forall x :: x in ConditionMap(op) ==> ValidFact(ranges, Fact(x, ConditionMap(op)[x])))
    && (forall x :: x in Dict(e.cond) ==> ValidFact(ranges, Fact(x, Dict(e.cond)[x])))
    && (forall i :: 0 <= i < |e.cond| ==>
          ValidFact(ranges, e.cond[i]) && e.cond[i].v !in ConditionMap(op) && e.cond[i].v in Dict(e.cond) &&
          Dict(e.cond)[e.cond[i].v] == e.cond[i].val)
  }

  lemma OperatorConditionsKnown(ranges: seq<int>, op: Operator)
    requires ValidOperator(ranges, op)
    ensures forall x :: x in ConditionMap(op) ==> ValidFact(ranges, Fact(x, ConditionMap(op)[x]))
  {
    ConditionsValid(ranges, op);
    hide ConditionMap, ValidOperator, ValidFact;
    var items := Items(ConditionMap(op));
    forall x | x in ConditionMap(op) ensures ValidFact(ranges, Fact(x, ConditionMap(op)[x])) {
      assert Fact(x, ConditionMap(op)[x]) in items;
    }
  }

  lemma EntryConditionsKnown(ranges: seq<int>, c: seq<Fact>)
    requires ValidCondition(ranges, c)
    ensures forall x :: x in Dict(c) ==> ValidFact(ranges, Fact(x, Dict(c)[x]))
  {
    DictFacts(c);
    hide Dict;
    forall x | x in Dict(c) ensures ValidFact(ranges, Fact(x, Dict(c)[x])) {
      var i :| 0 <= i < |c| && c[i].v == x;
      assert c[i] == Fact(x, Dict(c)[x]);
    }
  }

  lemma AllConditionsKnown(ranges: seq<int>, op: Operator, j: nat)
    requires ValidOperator(ranges, op) && j < |op.prePost|
    ensures ConditionsKnown(ranges, op, op.prePost[j])
  {
    var e := op.prePost[j];
    assert ValidEntry(ranges, e);
    ConditionMapFacts(ranges, op);
    OperatorConditionsKnown(ranges, op);
    EntryConditionsKnown(ranges, e.cond);
    DictFacts(e.cond);
    hide ConditionMap, Dict;
    forall i | 0 <= i < |e.cond| ensures e.cond[i].v !in ConditionMap(op) {
      assert !Conditioned(op, e.cond[i].v);
    }
  }

  lemma FiringStateValid(ranges: seq<int>, op: Operator, j: nat, u: int)
    requires ValidOperator(ranges, op) && j < |op.prePost| && forall x :: 0 <= x < |ranges| ==> ranges[x] > 0
    requires !Restricts(op, op.prePost[j]) ==> 0 <= u < ranges[op.prePost[j].v]
    ensures ValidState(ranges, FiringState(ranges, op, op.prePost[j], u))
  {
    AllConditionsKnown(ranges, op, j);
    hide ValidOperator, ConditionMap, Dict, Restricts;
    var e := op.prePost[j];
    var s := FiringState(ranges, op, e, u);
    forall x | 0 <= x < |s| ensures 0 <= s[x] < ranges[x] {
      assert x in ConditionMap(op) ==> ValidFact(ranges, Fact(x, ConditionMap(op)[x]));
    }
  }

  /** The state holds a fact about a known condition. */
  lemma FiringStateHolds(ranges: seq<int>, op: Operator, e: PrePost, u: int, f: Fact)
    requires ConditionsKnown(ranges, op, e)
    requires if f.v in ConditionMap(op) then ConditionMap(op)[f.v] == f.val else f.v in Dict(e.cond) && Dict(e.cond)[f.v] == f.val
    ensures Holds(FiringState(ranges, op, e, u), f)
  {
    hide ConditionMap, Dict, Restricts;
    assert ValidFact(ranges, f) by {
      if f.v in ConditionMap(op) {
        assert ValidFact(ranges, Fact(f.v, ConditionMap(op)[f.v]));
      } else {
        assert ValidFact(ranges, Fact(f.v, Dict(e.cond)[f.v]));
      }
    }
  }

  lemma FiringStateFires(ranges: seq<int>, op: Operator, j: nat, u: int)
    requires ValidOperator(ranges, op) && j < |op.prePost|
    ensures var s := FiringState(ranges, op, op.prePost[j], u); Applicable(op, s) && Satisfies(s, op.prePost[j].cond)
  {
    var e := op.prePost[j];
    var s := FiringState(ranges, op, e, u);
    AllConditionsKnown(ranges, op, j);
    ConditionsMeanApplicable(ranges, op, s);
    hide ValidOperator, ConditionMap, Dict, Restricts, Applicable, FiringState, ConditionsKnown;
    var items := Items(ConditionMap(op));
    forall i | 0 <= i < |items| ensures Holds(s, items[i]) {
      assert items[i] in items;
      FiringStateHolds(ranges, op, e, u, items[i]);
    }
    forall i | 0 <= i < |e.cond| ensures Holds(s, e.cond[i]) {
      EntryFactKnown(ranges, op, e, i);
      FiringStateHolds(ranges, op, e, u, e.cond[i]);
    }
  }

  lemma EntryFactKnown(ranges: seq<int>, op: Operator, e: PrePost, i: nat)
    requires ConditionsKnown(ranges, op, e) && i < |e.cond|
    ensures e.cond[i].v !in ConditionMap(op) && e.cond[i].v in Dict(e.cond) && Dict(e.cond)[e.cond[i].v] == e.cond[i].val
  {
  }

  /** The effective precondition of an entry of a valid operator. */
  lemma EffectivePreOf(ranges: seq<int>, op: Operator, j: nat)
    requires ValidOperator(ranges, op) && j < |op.prePost|
    ensures var e, pre := op.prePost[j], EffectivePre(op, op.prePost[j]);
      && pre.Some? && (pre.value == NO_PRE <==> !Restricts(op, e))
      && forall u :: Restricts(op, e) ==> FiringValue(op, e, u, e.v) == pre.value
  {
    var e := op.prePost[j];
    var pre, v := OperatorPre(op, e.v), e.v;
    assert ValidEntry(ranges, e);
    ConditionMapFacts(ranges, op);
    ConditionsValid(ranges, op);
    DictFacts(e.cond);
    forall i | 0 <= i < |e.cond| ensures e.cond[i].val != NO_PRE { assert ValidFact(ranges, e.cond[i]); }
    CombinePreMeans(pre, e.cond, v);
    if v in ConditionMap(op) {
      var f := Fact(v, ConditionMap(op)[v]);
      assert f in Items(ConditionMap(op)) && pre != NO_PRE;
      forall i | 0 <= i < |e.cond| ensures e.cond[i].v != v { assert !Conditioned(op, e.cond[i].v); }
      assert Required(pre, e.cond, v) == {pre};
    } else if MentionsVar(e.cond, v) {
      var i :| 0 <= i < |e.cond| && e.cond[i].v == v;
      assert e.cond[i] == Fact(v, e.cond[i].val) && e.cond[i].val != NO_PRE;
      assert Required(pre, e.cond, v) == {e.cond[i].val};
    } else {
      assert Required(pre, e.cond, v) == {};
    }
  }

  /** The arcs of an entry are exactly the values from which and to which it can take its variable. */
  lemma EntryArcMeans(ranges: seq<int>, op: Operator, j: nat, u: int, w: int)
    requires ValidOperator(ranges, op) && j < |op.prePost| && forall x :: 0 <= x < |ranges| ==> ranges[x] > 0
    ensures EntryArc(ranges, op, op.prePost[j], op.prePost[j].v, u, w) <==> CanSet(ranges, op, op.prePost[j], u, w)
  {
    var e := op.prePost[j];
    assert ValidEntry(ranges, e);
    EffectivePreOf(ranges, op, j);
    hide ValidOperator, ValidEntry, EffectivePre, ConditionMap, Dict, Conditioned, MentionsVar;
    var pre := EffectivePre(op, e).value;
    if EntryArc(ranges, op, e, e.v, u, w) {
      FiringStateValid(ranges, op, j, u);
      FiringStateFires(ranges, op, j, u);
      var s := FiringState(ranges, op, e, u);
      assert Fires(ranges, op, e, s);
      assert s[e.v] == FiringValue(op, e, u, e.v);
      if !Restricts(op, e) { FreeValue(ranges, op, j, u); }
    }
    if CanSet(ranges, op, e, u, w) {
      var s :| Fires(ranges, op, e, s) && 0 <= e.v < |s| && s[e.v] == u;
      FiringHasPre(ranges, op, j, s);
    }
  }

  lemma FreeValue(ranges: seq<int>, op: Operator, j: nat, u: int)
    requires ValidOperator(ranges, op) && j < |op.prePost| && !Restricts(op, op.prePost[j])
    ensures FiringValue(op, op.prePost[j], u, op.prePost[j].v) == u
  {
    ConditionMapFacts(ranges, op);
    assert ValidEntry(ranges, op.prePost[j]);
    DictFacts(op.prePost[j].cond);
  }

  lemma FiringHasPre(ranges: seq<int>, op: Operator, j: nat, s: State)
    requires ValidOperator(ranges, op) && j < |op.prePost| && Fires(ranges, op, op.prePost[j], s)
    requires 0 <= op.prePost[j].v < |s|
    ensures EffectivePre(op, op.prePost[j]).Some? && EffectivePre(op, op.prePost[j]).value in {NO_PRE, s[op.prePost[j].v]}
  {
    var e := op.prePost[j];
    assert ValidEntry(ranges, e);
    ConditionsMeanApplicable(ranges, op, s);
    if e.v in ConditionMap(op) {
      assert Fact(e.v, ConditionMap(op)[e.v]) in Items(ConditionMap(op));
    }
    CombinePreSound(OperatorPre(op, e.v), e.cond, e.v, s);
  }

  /** A state that meets the conditions has the effective precondition's value. */
  lemma {:induction false} CombinePreSound(result: int, conds: seq<Fact>, v: int, s: State)
    requires Satisfies(s, conds) && 0 <= v < |s| && (result == NO_PRE || result == s[v])
    requires forall i :: 0 <= i < |conds| ==> conds[i].val >= 0
    ensures CombinePre(result, conds, v).Some?
    ensures CombinePre(result, conds, v).value in {NO_PRE, s[v]}
    decreases |conds|
  {
    if conds != [] {
      assert Holds(s, conds[0]);
      forall i | 0 <= i < |conds[1..]| ensures Holds(s, conds[1..][i]) && conds[1..][i].val >= 0 {
        assert conds[1..][i] == conds[i + 1];
      }
      CombinePreSound(if conds[0].v == v && result == NO_PRE then conds[0].val else result, conds[1..], v, s);
    }
  }

  /** Every change that an applicable operator makes is an arc. */
  lemma ChangeIsArc(ranges: seq<int>, op: Operator, s: State, v: int)
    requires ValidOperator(ranges, op) && ValidState(ranges, s) && Applicable(op, s) && 0 <= v < |s|
    ensures Successor(op, s)[v] == s[v] ||
      OperatorArc(ranges, op, |op.prePost|, v, s[v], Successor(op, s)[v])
  {
    HighestPostWins(ranges, op, s, v);
    if Successor(op, s)[v] != s[v] {
      var j :| 0 <= j < |op.prePost| && Sets(s, op.prePost[j], v) && op.prePost[j].post == Successor(op, s)[v];
      var e := op.prePost[j];
      assert ValidEntry(ranges, e);
      FiringHasPre(ranges, op, j, s);
      assert EntryArc(ranges, op, e, v, s[v], e.post);
    }
  }

  method GetEffectivePre(v: int, conditions: map<int, int>, effectConditions: seq<Fact>)
    returns (r: Option<int>)
    ensures r == CombinePre(if v in conditions then conditions[v] else NO_PRE, effectConditions, v)
    ensures (forall i :: 0 <= i < |effectConditions| ==> effectConditions[i].val != NO_PRE) ==>
      IsEffectivePre(if v in conditions then conditions[v] else NO_PRE, effectConditions, v, r)
  {
    var result := if v in conditions then conditions[v] else NO_PRE;
    ghost var start := result;
    if forall i :: 0 <= i < |effectConditions| ==> effectConditions[i].val != NO_PRE {
      CombinePreMeans(start, effectConditions, v);
    }
    for i := 0 to |effectConditions|
      invariant CombinePre(start, effectConditions, v) == CombinePre(result, effectConditions[i..], v)
    {
      var c := effectConditions[i];
      assert effectConditions[i..][1..] == effectConditions[i + 1..];
      if c.v == v {
        if result == NO_PRE {
          result := c.val;
        } else if c.val != result {
          return None;
        }
      }
    }
    return Some(result);
  }

  /** The arcs `g` are those of `f` and, from every `u` that `spec` allows, one to `post`. */
  ghost predicate AddsArcs(f: Arcs, g: Arcs, size: int, spec: int, post: int) {
    forall u :: Targets(g, u) == Targets(f, u) + if SpecAllows(size, spec, post, u) then {post} else {}
  }

  method AddArcs(dtg: DomainTransitionGraph, preSpec: int, post: int)
    modifies dtg
    ensures AddsArcs(old(dtg.arcs), dtg.arcs, dtg.size, preSpec, post)
  {
    if preSpec == NO_PRE {
      ghost var f := dtg.arcs;
      var pre := 0;
      while pre < dtg.size
        invariant 0 <= pre
        invariant AddsArcs(f, dtg.arcs, if pre < dtg.size then pre else dtg.size, NO_PRE, post)
      {
        if pre != post {
          dtg.AddArc(pre, post);
        }
        pre := pre + 1;
      }
    } else {
      dtg.AddArc(preSpec, post);
    }
  }

  ghost predicate GraphsFor(dtgs: seq<DomainTransitionGraph>, ranges: seq<int>, init: seq<int>)
  {
    && |dtgs| == |ranges| == |init|
    && (forall v :: 0 <= v < |dtgs| ==> dtgs[v].init == init[v] && dtgs[v].size == ranges[v])
    && (forall v, w :: 0 <= v < w < |dtgs| ==> dtgs[v] != dtgs[w])
  }

  ghost function ArcsOf(dtgs: seq<DomainTransitionGraph>): (g: seq<Arcs>)
    reads dtgs
    ensures |g| == |dtgs|
    ensures forall v :: 0 <= v < |dtgs| ==> g[v] == dtgs[v].arcs
  {
    seq(|dtgs|, v requires 0 <= v < |dtgs| reads dtgs => dtgs[v].arcs)
  }

  /** `g` extends `f` by the arcs of the first `count` entries of `op`. */
  ghost predicate AddsOperatorArcs(f: seq<Arcs>, g: seq<Arcs>, ranges: seq<int>, op: Operator, count: nat) {
    && |f| == |g| == |ranges|
    && forall v, u, w :: 0 <= v < |g| ==>
         (w in Targets(g[v], u) <==> w in Targets(f[v], u) || OperatorArc(ranges, op, count, v, u, w))
  }

  lemma OperatorArcStep(f: seq<Arcs>, g: seq<Arcs>, h: seq<Arcs>, ranges: seq<int>, op: Operator, j: nat)
    requires AddsOperatorArcs(f, g, ranges, op, j) && j < |op.prePost| && |h| == |g|
    requires var e := op.prePost[j];
      && 0 <= e.v < |ranges|
      && (forall v :: 0 <= v < |g| && v != e.v ==> h[v] == g[v])
      && (var pre := EffectivePre(op, e);
          if pre.Some? then AddsArcs(g[e.v], h[e.v], ranges[e.v], pre.value, e.post) else h[e.v] == g[e.v])
    ensures AddsOperatorArcs(f, h, ranges, op, j + 1)
  {
    var e := op.prePost[j];
    forall v, u, w | 0 <= v < |h|
      ensures w in Targets(h[v], u) <==> w in Targets(f[v], u) || OperatorArc(ranges, op, j + 1, v, u, w)
    {
      assert w in Targets(h[v], u) <==> w in Targets(g[v], u) || EntryArc(ranges, op, e, v, u, w);
      assert OperatorArc(ranges, op, j + 1, v, u, w) <==>
        OperatorArc(ranges, op, j, v, u, w) || EntryArc(ranges, op, e, v, u, w);
    }
  }

  lemma DictOfItems(m: map<int, int>)
    ensures Dict(Items(m)) == m
  {
    var items := Items(m);
    DictFacts(items);
    forall v ensures v in Dict(items) <==> v in m {
      if v in m { assert Fact(v, m[v]) in items; }
      if MentionsVar(items, v) {
        var i :| 0 <= i < |items| && items[i].v == v;
        assert items[i] in items;
      }
    }
    forall v | v in m ensures Dict(items)[v] == m[v] {
      assert Fact(v, m[v]) in items;
    }
  }

  predicate EntriesInRange(ranges: seq<int>, op: Operator) {
    forall i :: 0 <= i < |op.prePost| ==> ValidEntry(ranges, op.prePost[i])
  }

  lemma EntryInRange(ranges: seq<int>, op: Operator, j: nat)
    requires EntriesInRange(ranges, op) && j < |op.prePost|
    ensures 0 <= op.prePost[j].v < |ranges|
  {
    assert ValidEntry(ranges, op.prePost[j]);
  }

  lemma NoArcs(f: seq<Arcs>, ranges: seq<int>, op: Operator)
    requires |f| == |ranges|
    ensures AddsOperatorArcs(f, f, ranges, op, 0)
  {
  }

  method AddOperatorArcs(dtgs: seq<DomainTransitionGraph>, ranges: seq<int>, ghost init: seq<int>, op: Operator)
    requires GraphsFor(dtgs, ranges, init) && ValidOperator(ranges, op)
    modifies dtgs
    ensures AddsOperatorArcs(old(ArcsOf(dtgs)), ArcsOf(dtgs), ranges, op, |op.prePost|)
  {
    var facts := GetApplicabilityConditions(ranges, op);
    var conditions := Dict(facts);
    DictOfItems(ConditionMap(op));
    ghost var f := ArcsOf(dtgs);
    assert EntriesInRange(ranges, op);
    hide ValidOperator, IsEffectivePre, CombinePre, ConditionMap, Dict, AddsArcs, EntriesInRange, OperatorArc;
    assert AddsOperatorArcs(f, f, ranges, op, 0) by { NoArcs(f, ranges, op); }
    for j := 0 to |op.prePost|
      invariant AddsOperatorArcs(f, ArcsOf(dtgs), ranges, op, j)
    {
      var e := op.prePost[j];
      EntryInRange(ranges, op, j);
      ghost var g := ArcsOf(dtgs);
      var effectivePre := GetEffectivePre(e.v, conditions, e.cond);
      if effectivePre.Some? {
        AddArcs(dtgs[e.v], effectivePre.value, e.post);
      }
      OperatorArcStep(f, g, ArcsOf(dtgs), ranges, op, j);
    }
  }

  ghost predicate ArcsOfTask(g: seq<Arcs>, ranges: seq<int>, ops: seq<Operator>) {
    && |g| == |ranges|
    && forall v, u, w :: 0 <= v < |g| ==> (w in Targets(g[v], u) <==> TaskArc(ranges, ops, v, u, w))
  }

  lemma TaskArcStep(g: seq<Arcs>, h: seq<Arcs>, ranges: seq<int>, ops: seq<Operator>, op: Operator)
    requires ArcsOfTask(g, ranges, ops) && AddsOperatorArcs(g, h, ranges, op, |op.prePost|)
    ensures ArcsOfTask(h, ranges, ops + [op])
  {
    forall v, u, w | 0 <= v < |h|
      ensures w in Targets(h[v], u) <==> TaskArc(ranges, ops + [op], v, u, w)
    {
      var all := ops + [op];
      assert all[|ops|] == op;
      if TaskArc(ranges, ops, v, u, w) {
        var i :| 0 <= i < |ops| && OperatorArc(ranges, ops[i], |ops[i].prePost|, v, u, w);
        assert all[i] == ops[i];
      }
    }
  }

  /** Some entry can take variable `v` from `u` to `w`. */
  ghost predicate CanChange(ranges: seq<int>, ops: seq<Operator>, v: int, u: int, w: int) {
    exists i, j :: 0 <= i < |ops| && 0 <= j < |ops[i].prePost| && ops[i].prePost[j].v == v &&
      CanSet(ranges, ops[i], ops[i].prePost[j], u, w)
  }

  lemma TaskArcMeans(task: Task, v: int, u: int, w: int)
    requires ValidTask(task)
    ensures TaskArc(task.ranges, task.operators, v, u, w) <==> CanChange(task.ranges, task.operators, v, u, w)
  {
    hide ValidOperator, EntryArc, CanSet;
    forall i, j | 0 <= i < |task.operators| && 0 <= j < |task.operators[i].prePost|
      ensures EntryArc(task.ranges, task.operators[i], task.operators[i].prePost[j], v, u, w) <==>
        (task.operators[i].prePost[j].v == v && CanSet(task.ranges, task.operators[i], task.operators[i].prePost[j], u, w))
    {
      EntryArcMeans(task.ranges, task.operators[i], j, u, w);
      if EntryArc(task.ranges, task.operators[i], task.operators[i].prePost[j], v, u, w) {
        OwnVariable(task.ranges, task.operators[i], task.operators[i].prePost[j], v, u, w);
      }
    }
    if TaskArc(task.ranges, task.operators, v, u, w) {
      var i :| 0 <= i < |task.operators| &&
        OperatorArc(task.ranges, task.operators[i], |task.operators[i].prePost|, v, u, w);
    }
    if CanChange(task.ranges, task.operators, v, u, w) {
      var i, j :| 0 <= i < |task.operators| && 0 <= j < |task.operators[i].prePost| &&
        task.operators[i].prePost[j].v == v && CanSet(task.ranges, task.operators[i], task.operators[i].prePost[j], u, w);
      assert EntryArc(task.ranges, task.operators[i], task.operators[i].prePost[j], v, u, w);
      assert OperatorArc(task.ranges, task.operators[i], |task.operators[i].prePost|, v, u, w);
    }
  }

  /** The arcs are the changes of value that the operators can cause. */
  ghost predicate ArcsAreChanges(g: seq<Arcs>, ranges: seq<int>, ops: seq<Operator>) {
    && |g| == |ranges|
    && forall v, u, w :: 0 <= v < |g| ==> (w in Targets(g[v], u) <==> CanChange(ranges, ops, v, u, w))
  }

  lemma ArcsMean(task: Task, g: seq<Arcs>)
    requires ValidTask(task) && ArcsOfTask(g, task.ranges, task.operators)
    ensures ArcsAreChanges(g, task.ranges, task.operators)
  {
    hide ValidTask, CanChange, TaskArc;
    forall v, u, w | 0 <= v < |g|
      ensures w in Targets(g[v], u) <==> CanChange(task.ranges, task.operators, v, u, w)
    {
      TaskArcMeans(task, v, u, w);
    }
  }

  lemma OwnVariable(ranges: seq<int>, op: Operator, e: PrePost, v: int, u: int, w: int)
    requires EntryArc(ranges, op, e, v, u, w)
    ensures v == e.v
  {
  }

  /** The graphs of a task: an arc of variable `v` for every change of `v` that
      some entry allows, and no other. */
  method BuildDtgs(task: Task) returns (dtgs: seq<DomainTransitionGraph>)
    requires ValidTask(task)
    ensures GraphsFor(dtgs, task.ranges, task.init) && fresh(dtgs)
    ensures ArcsOfTask(ArcsOf(dtgs), task.ranges, task.operators)
    ensures ArcsAreChanges(ArcsOf(dtgs), task.ranges, task.operators)
  {
    dtgs := [];
    for v := 0 to |task.ranges|
      invariant GraphsFor(dtgs, task.ranges[..v], task.init[..v]) && fresh(dtgs)
      invariant forall x :: 0 <= x < |dtgs| ==> dtgs[x].arcs == map[]
    {
      var dtg := new DomainTransitionGraph(task.init[v], task.ranges[v]);
      dtgs := dtgs + [dtg];
    }
    assert task.ranges[..|task.ranges|] == task.ranges && task.init[..|task.ranges|] == task.init;
    for i := 0 to |task.operators|
      invariant ArcsOfTask(ArcsOf(dtgs), task.ranges, task.operators[..i])
    {
      assert task.operators[..i + 1] == task.operators[..i] + [task.operators[i]];
      ghost var g := ArcsOf(dtgs);
      AddOperatorArcs(dtgs, task.ranges, task.init, task.operators[i]);
      TaskArcStep(g, ArcsOf(dtgs), task.ranges, task.operators[..i], task.operators[i]);
    }
    assert task.operators[..|task.operators|] == task.operators;
    ArcsMean(task, ArcsOf(dtgs));
  }
}
