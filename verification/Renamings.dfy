/**
  Renumbering of variables and values (simplify.py:173-482), as functions on an
  immutable renaming.  `Simplify` has the class that builds and applies one.
 */
module Renamings {
  import opened Wrappers
  import opened SasTasks
  import opened DomainTransitionGraphs

  datatype Value = AlwaysFalse | AlwaysTrue | Val(n: int)

  /** `newVarNos` and `newValues` are indexed by old variables (and values),
      `newSizes` by new variables. */
  datatype Renaming = Renaming(newVarNos: seq<Option<int>>, newValues: seq<seq<Value>>, newSizes: seq<int>)

  const EMPTY := Renaming([], [], [])

  // ----- Registering a variable -----

  /** The number of values below `x` in `dom`. */
  function Rank(dom: set<int>, x: int): (n: nat) {
    if x <= 0 then 0 else Rank(dom, x - 1) + if x - 1 in dom then 1 else 0
  }

  function RegisteredValues(size: int, init: int, dom: set<int>): seq<Value>
    requires size >= 0
  {
    seq(size, x =>
      if |dom| == 1 then (if x == init then AlwaysTrue else AlwaysFalse)
      else if x in dom then Val(Rank(dom, x)) else AlwaysFalse)
  }

  function Register(r: Renaming, size: int, init: int, dom: set<int>): Renaming
    requires size >= 0
  {
    if |dom| == 1 then
      Renaming(r.newVarNos + [None], r.newValues + [RegisteredValues(size, init, dom)], r.newSizes)
    else
      Renaming(r.newVarNos + [Some(|r.newSizes|)], r.newValues + [RegisteredValues(size, init, dom)],
               r.newSizes + [|dom|])
  }

  lemma {:induction false} RankSubset(dom: set<int>, n: nat)
    requires forall x :: x in dom ==> 0 <= x < n
    ensures Rank(dom, n) == |dom|
  {
    if n == 0 {
      assert forall x :: x in dom ==> x != x;
      assert dom == {};
    } else {
      var rest := dom - {n - 1};
      RankSubset(rest, n - 1);
      RankLocal(dom, rest, n - 1);
    }
  }

  lemma {:induction false} RankLocal(a: set<int>, b: set<int>, n: int)
    requires forall x :: 0 <= x < n ==> (x in a <==> x in b)
    ensures Rank(a, n) == Rank(b, n)
  {
    if n > 0 { RankLocal(a, b, n - 1); }
  }

  lemma {:induction false} RankMonotone(dom: set<int>, x: int, y: int)
    requires 0 <= x < y
    ensures Rank(dom, x) <= Rank(dom, y)
    ensures x in dom ==> Rank(dom, x) < Rank(dom, y)
    decreases y
  {
    if x < y - 1 { RankMonotone(dom, x, y - 1); }
  }

  /** The values each variable can take: they include the initial value, are in
      range, and are closed under the arcs of the task. */
  ghost predicate Domains(task: Task, doms: seq<set<int>>) {
    && |doms| == |task.ranges| == |task.init|
    && (forall v :: 0 <= v < |doms| ==> task.init[v] in doms[v])
    && (forall v, x :: 0 <= v < |doms| && x in doms[v] ==> 0 <= x < task.ranges[v])
    && (forall v, u, w :: 0 <= v < |doms| && u in doms[v] && TaskArc(task.ranges, task.operators, v, u, w) ==>
          w in doms[v])
  }

  ghost predicate InDomains(doms: seq<set<int>>, s: State) {
    |s| == |doms| && forall v :: 0 <= v < |s| ==> s[v] in doms[v]
  }

  /** `r` is what registering the variables one by one builds: variables with one
      value are removed, the others keep their order, and so do the kept values. */
  ghost predicate Renames(r: Renaming, ranges: seq<int>, init: seq<int>, doms: seq<set<int>>) {
    && |r.newVarNos| == |r.newValues| == |ranges| == |init| == |doms|
    && (forall v :: 0 <= v < |ranges| ==>
          ranges[v] >= 0 && r.newValues[v] == RegisteredValues(ranges[v], init[v], doms[v]))
    && (forall v :: 0 <= v < |ranges| ==> (r.newVarNos[v].None? <==> |doms[v]| == 1))
    && (forall v :: 0 <= v < |ranges| && r.newVarNos[v].Some? ==>
          0 <= r.newVarNos[v].value < |r.newSizes| && r.newSizes[r.newVarNos[v].value] == |doms[v]|)
    && (forall v, w :: 0 <= v < w < |ranges| && r.newVarNos[v].Some? && r.newVarNos[w].Some? ==>
          r.newVarNos[v].value < r.newVarNos[w].value)
    && (forall k :: 0 <= k < |r.newSizes| ==> exists v :: 0 <= v < |ranges| && r.newVarNos[v] == Some(k))
  }

  lemma RegisterRenames(r: Renaming, ranges: seq<int>, init: seq<int>, doms: seq<set<int>>,
                        size: nat, x: int, dom: set<int>)
    requires Renames(r, ranges, init, doms)
    ensures Renames(Register(r, size, x, dom), ranges + [size], init + [x], doms + [dom])
  {
    hide RegisteredValues;
    var t, n := Register(r, size, x, dom), |ranges|;
    var R, D := ranges + [size], doms + [dom];
    forall v | 0 <= v < n ensures t.newVarNos[v] == r.newVarNos[v] && R[v] == ranges[v] && D[v] == doms[v] {}
    forall k | 0 <= k < |t.newSizes| ensures exists v :: 0 <= v < |R| && t.newVarNos[v] == Some(k) {
      if k < |r.newSizes| {
        var v :| 0 <= v < n && r.newVarNos[v] == Some(k);
        assert t.newVarNos[v] == Some(k);
      } else {
        assert t.newVarNos[n] == Some(k);
      }
    }
  }

  // ----- Converting facts -----

  /** A kept value belongs to a kept variable. */
  predicate Consistent(r: Renaming) {
    && |r.newVarNos| == |r.newValues|
    && forall v, x :: 0 <= v < |r.newValues| && 0 <= x < |r.newValues[v]| && r.newValues[v][x].Val? ==>
         r.newVarNos[v].Some?
  }

  predicate Covers(r: Renaming, f: Fact) {
    Consistent(r) && 0 <= f.v < |r.newValues| && 0 <= f.val < |r.newValues[f.v]|
  }

  predicate CoversAll(r: Renaming, c: seq<Fact>) {
    Consistent(r) && forall i :: 0 <= i < |c| ==> Covers(r, c[i])
  }

  predicate CoversEntry(r: Renaming, e: PrePost) {
    CoversAll(r, e.cond) && Covers(r, Fact(e.v, e.post)) && (e.pre != NO_PRE ==> Covers(r, Fact(e.v, e.pre)))
  }

  function NewValueOf(r: Renaming, f: Fact): Value
    requires Covers(r, f)
  {
    r.newValues[f.v][f.val]
  }

  /** `None` stands for the exception `Impossible`. */
  function Convert(r: Renaming, c: seq<Fact>): (o: Option<seq<Fact>>)
    requires CoversAll(r, c)
  {
    if c == [] then Some([])
    else
      var rest, f := Convert(r, c[..|c| - 1]), c[|c| - 1];
      if rest.None? then None
      else
        match NewValueOf(r, f)
        case AlwaysFalse => None
        case AlwaysTrue => rest
        case Val(n) => Some(rest.value + [Fact(r.newVarNos[f.v].value, n)])
  }

  /** `f` becomes `g`. */
  predicate Image(r: Renaming, f: Fact, g: Fact) {
    Covers(r, f) && r.newVarNos[f.v] == Some(g.v) && NewValueOf(r, f) == Val(g.val)
  }

  lemma {:induction false} ConvertElements(r: Renaming, c: seq<Fact>)
    requires CoversAll(r, c)
    ensures Convert(r, c).None? <==> exists i :: 0 <= i < |c| && NewValueOf(r, c[i]) == AlwaysFalse
    ensures Convert(r, c).Some? ==> forall g ::
      g in Convert(r, c).value <==> exists i :: 0 <= i < |c| && Image(r, c[i], g)
  {
    if c != [] {
      var rest := c[..|c| - 1];
      ConvertElements(r, rest);
      assert forall i :: 0 <= i < |rest| ==> rest[i] == c[i];
      assert forall g, i :: 0 <= i < |rest| ==> Image(r, rest[i], g) == Image(r, c[i], g);
    }
  }

  lemma {:induction false} ConvertVars(r: Renaming, ranges: seq<int>, init: seq<int>, doms: seq<set<int>>, c: seq<Fact>)
    requires Renames(r, ranges, init, doms) && CoversAll(r, c) && Convert(r, c).Some?
    requires forall i, j :: 0 <= i < j < |c| ==> c[i].v < c[j].v
    ensures var d := Convert(r, c).value; forall i, j :: 0 <= i < j < |d| ==> d[i].v < d[j].v
  {
    if c != [] {
      var rest, f := c[..|c| - 1], c[|c| - 1];
      ConvertVars(r, ranges, init, doms, rest);
      ConvertElements(r, rest);
      var d := Convert(r, rest).value;
      if NewValueOf(r, f).Val? {
        forall i | 0 <= i < |d| ensures d[i].v < r.newVarNos[f.v].value {
          assert d[i] in d;
          var j :| 0 <= j < |rest| && Image(r, rest[j], d[i]);
          assert rest[j] == c[j];
        }
      }
    }
  }

  // ----- What a renaming does to states -----

  /** `r` renames `task`, whose variables range over `doms`. */
  ghost predicate Setting(task: Task, doms: seq<set<int>>, r: Renaming) {
    ValidTask(task) && Domains(task, doms) && Renames(r, task.ranges, task.init, doms)
  }

  lemma OneElement(s: set<int>, x: int, y: int)
    requires |s| == 1 && x in s && y in s
    ensures x == y
  {
    var rest := s - {x};
    assert |rest| == 0 && (y in rest || y == x);
  }

  /** The fate of value `x` of variable `v`. */
  lemma ValueFacts(task: Task, doms: seq<set<int>>, r: Renaming, v: int, x: int)
    requires Setting(task, doms, r) && 0 <= v < |task.ranges| && 0 <= x < task.ranges[v]
    ensures Consistent(r) && Covers(r, Fact(v, x))
    ensures NewValueOf(r, Fact(v, x)).AlwaysFalse? <==> x !in doms[v]
    ensures NewValueOf(r, Fact(v, x)).AlwaysTrue? <==> x in doms[v] && |doms[v]| == 1
    ensures NewValueOf(r, Fact(v, x)).Val? ==>
      r.newVarNos[v].Some? && NewValueOf(r, Fact(v, x)) == Val(Rank(doms[v], x)) &&
      0 <= Rank(doms[v], x) < r.newSizes[r.newVarNos[v].value]
  {
    if x in doms[v] {
      if |doms[v]| == 1 {
        OneElement(doms[v], x, task.init[v]);
      } else {
        RankMonotone(doms[v], x, task.ranges[v]);
        RankSubset(doms[v], task.ranges[v]);
      }
    }
  }

  lemma ValuesMonotone(task: Task, doms: seq<set<int>>, r: Renaming, v: int, x: int, y: int)
    requires Setting(task, doms, r) && 0 <= v < |task.ranges| && 0 <= x < y < task.ranges[v]
    requires x in doms[v]
    ensures Rank(doms[v], x) < Rank(doms[v], y)
  {
    RankMonotone(doms[v], x, y);
  }

  /** The renamed state: `t` stores the new value of every kept variable of `s`. */
  ghost predicate Renamed(doms: seq<set<int>>, r: Renaming, s: State, t: State) {
    && InDomains(doms, s) && |r.newVarNos| == |s| && |t| == |r.newSizes|
    && forall v :: 0 <= v < |s| && r.newVarNos[v].Some? ==>
         0 <= r.newVarNos[v].value < |t| && Covers(r, Fact(v, s[v])) &&
         NewValueOf(r, Fact(v, s[v])) == Val(t[r.newVarNos[v].value])
  }

  lemma HoldsRenamed(task: Task, doms: seq<set<int>>, r: Renaming, s: State, t: State, f: Fact)
    requires Setting(task, doms, r) && Renamed(doms, r, s, t) && ValidFact(task.ranges, f)
    ensures Covers(r, f)
    ensures NewValueOf(r, f).AlwaysFalse? ==> !Holds(s, f)
    ensures NewValueOf(r, f).AlwaysTrue? ==> Holds(s, f)
    ensures NewValueOf(r, f).Val? ==>
      r.newVarNos[f.v].Some? && (Holds(s, f) <==> Holds(t, Fact(r.newVarNos[f.v].value, NewValueOf(r, f).n)))
  {
    ValueFacts(task, doms, r, f.v, f.val);
    ValueFacts(task, doms, r, f.v, s[f.v]);
    if NewValueOf(r, f).AlwaysTrue? {
      OneElement(doms[f.v], f.val, s[f.v]);
    } else if NewValueOf(r, f).Val? {
      if s[f.v] < f.val {
        ValuesMonotone(task, doms, r, f.v, s[f.v], f.val);
      } else if f.val < s[f.v] {
        ValuesMonotone(task, doms, r, f.v, f.val, s[f.v]);
      }
    }
  }

  lemma CoversCondition(task: Task, doms: seq<set<int>>, r: Renaming, c: seq<Fact>)
    requires Setting(task, doms, r) && ValidCondition(task.ranges, c)
    ensures CoversAll(r, c)
  {
    ConsistentSetting(task, doms, r);
    forall i | 0 <= i < |c| ensures Covers(r, c[i]) { ValueFacts(task, doms, r, c[i].v, c[i].val); }
  }

  lemma ConsistentSetting(task: Task, doms: seq<set<int>>, r: Renaming)
    requires Setting(task, doms, r)
    ensures Consistent(r)
  {
  }

  /** Converting a condition preserves its meaning on renamed states. */
  lemma ConvertMeaning(task: Task, doms: seq<set<int>>, r: Renaming, s: State, t: State, c: seq<Fact>)
    requires Setting(task, doms, r) && Renamed(doms, r, s, t) && ValidCondition(task.ranges, c)
    ensures CoversAll(r, c)
    ensures Convert(r, c).None? ==> !Satisfies(s, c)
    ensures Convert(r, c).Some? ==> (Satisfies(s, c) <==> Satisfies(t, Convert(r, c).value))
  {
    CoversCondition(task, doms, r, c);
    ConvertElements(r, c);
    if Convert(r, c).None? {
      var i :| 0 <= i < |c| && NewValueOf(r, c[i]) == AlwaysFalse;
      HoldsRenamed(task, doms, r, s, t, c[i]);
    } else {
      var d := Convert(r, c).value;
      forall i | 0 <= i < |c| ensures Holds(s, c[i]) <== Satisfies(t, d) {
        HoldsRenamed(task, doms, r, s, t, c[i]);
        if NewValueOf(r, c[i]).Val? {
          var g := Fact(r.newVarNos[c[i].v].value, NewValueOf(r, c[i]).n);
          assert Image(r, c[i], g) && g in d;
        }
      }
      forall k | 0 <= k < |d| ensures Holds(t, d[k]) <== Satisfies(s, c) {
        assert d[k] in d;
        var i :| 0 <= i < |c| && Image(r, c[i], d[k]);
        HoldsRenamed(task, doms, r, s, t, c[i]);
      }
    }
  }

  /** A converted condition is a valid condition of the new task. */
  lemma ConvertValid(task: Task, doms: seq<set<int>>, r: Renaming, c: seq<Fact>)
    requires Setting(task, doms, r) && ValidCondition(task.ranges, c)
    ensures CoversAll(r, c)
    ensures Convert(r, c).Some? ==> ValidCondition(r.newSizes, Convert(r, c).value)
  {
    CoversCondition(task, doms, r, c);
    if Convert(r, c).Some? {
      ConvertVars(r, task.ranges, task.init, doms, c);
      ConvertElements(r, c);
      var d := Convert(r, c).value;
      forall i | 0 <= i < |d| ensures ValidFact(r.newSizes, d[i]) {
        assert d[i] in d;
        var j :| 0 <= j < |c| && Image(r, c[j], d[i]);
        ValueFacts(task, doms, r, c[j].v, c[j].val);
      }
    }
  }
}
