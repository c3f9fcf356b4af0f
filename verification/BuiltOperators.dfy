/**
  The operator built from an effect table (translate.py:274-328) is valid, is
  applicable exactly under its condition, and gives every variable the value that
  the table triggers.
 */
module BuiltOperators {
  import opened Wrappers
  import opened Sorting
  import opened SasTasks = SasTasks
  import opened Conditions
  import opened EffectTables
  import opened EffectConditions
  import opened OperatorBuilding

  /** No entry sets the value it requires. */
  predicate NoIdleEntry(op: Operator) {
    forall i :: 0 <= i < |op.prePost| ==> op.prePost[i].pre != op.prePost[i].post
  }

  /** Exactly the states that satisfy the condition admit the operator. */
  ghost predicate AppliesUnder(op: Operator, condition: Condition) {
    forall s: State :: Applicable(op, s) <==> SatMap(s, condition)
  }

  /** At most one value is triggered for `v`. */
  ghost predicate OneValue(t: Table, s: State, v: int) {
    forall x, y :: Triggered(t, v, x, s) && Triggered(t, v, y, s) ==> x == y
  }

  /** `y` is the triggered value of `v`, or the old one if none is triggered. */
  ghost predicate Result(t: Table, s: State, v: int, y: int) {
    && (forall x :: Triggered(t, v, x, s) ==> x == y)
    && ((forall x :: !Triggered(t, v, x, s)) ==> 0 <= v < |s| && y == s[v])
  }

  // ----- Validity -----

  lemma PrevailList(ranges: seq<int>, condition: Condition, rest: Condition, es: seq<PrePost>)
    requires ValidMap(ranges, condition) && Popped(condition, es, rest)
    ensures Sort(FactLess, Items(rest)) == Items(rest) && ValidCondition(ranges, Items(rest))
    ensures forall v :: MentionsVar(Items(rest), v) <==> v in rest
  {
    FactOrder();
    SortKeepsSorted(FactLess, Items(rest));
    forall i | 0 <= i < |Items(rest)| ensures ValidFact(ranges, Items(rest)[i]) {
      assert Items(rest)[i] in Items(rest);
      assert Items(rest)[i].v in condition;
    }
    forall v | v in rest ensures MentionsVar(Items(rest), v) {
      assert Fact(v, rest[v]) in Items(rest);
    }
    forall v | MentionsVar(Items(rest), v) ensures v in rest {
      var i :| 0 <= i < |Items(rest)| && Items(rest)[i].v == v;
      assert Items(rest)[i] in Items(rest);
    }
  }

  lemma EntriesOfOperator(ranges: seq<int>, condition: Condition, t: Table, es: seq<PrePost>)
    requires TableEntries(ranges, condition, t, es)
    ensures TableEntries(ranges, condition, t, Canonical(es))
  {
    forall i | 0 <= i < |Canonical(es)| ensures TableEntry(ranges, condition, t, Canonical(es)[i]) {
      assert Canonical(es)[i] in es;
    }
  }

  lemma ConditionedByCondition(ranges: seq<int>, condition: Condition, t: Table, op: Operator, rest: Condition,
      es: seq<PrePost>, v: int)
    requires TableEntries(ranges, condition, t, op.prePost) && Popped(condition, es, rest)
    requires (forall u :: MentionsVar(op.prevail, u) <==> u in rest) && Conditioned(op, v)
    ensures v in condition
  {
    if !MentionsVar(op.prevail, v) {
      var i :| 0 <= i < |op.prePost| && op.prePost[i].v == v && op.prePost[i].pre != NO_PRE;
      assert TableEntry(ranges, condition, t, op.prePost[i]);
    }
  }

  lemma BuiltIsValid(ranges: seq<int>, condition: Condition, t: Table, es: seq<PrePost>, rest: Condition, op: Operator)
    requires ValidTable(ranges, t) && ValidMap(ranges, condition) && TableEntries(ranges, condition, t, es)
    requires Popped(condition, es, rest) && es != [] && op.cost >= 0
    requires op == MakeOperator(op.name, Items(rest), es, op.cost)
    ensures ValidOperator(ranges, op) && NoIdleEntry(op)
  {
    PrevailList(ranges, condition, rest, es);
    EntriesOfOperator(ranges, condition, t, es);
    CanonicalIdempotent(es);
    assert es[0] in op.prePost;
    forall i | 0 <= i < |op.prePost|
      ensures ValidEntry(ranges, op.prePost[i]) && !MentionsVar(op.prevail, op.prePost[i].v)
      ensures op.prePost[i].pre != op.prePost[i].post
    {
      EntryIsValid(ranges, condition, t, op.prePost[i]);
      assert op.prePost[i] in es;
    }
    forall i, j | 0 <= i < |op.prePost| && 0 <= j < |op.prePost[i].cond|
      ensures !Conditioned(op, op.prePost[i].cond[j].v)
    {
      assert TableEntry(ranges, condition, t, op.prePost[i]);
      if Conditioned(op, op.prePost[i].cond[j].v) {
        ConditionedByCondition(ranges, condition, t, op, rest, es, op.prePost[i].cond[j].v);
      }
    }
    assert UniformPre(op.prePost) by {
      forall i | 0 <= i < |op.prePost| ensures op.prePost[i].pre == PreOf(condition, op.prePost[i].v) {
        assert TableEntry(ranges, condition, t, op.prePost[i]);
      }
    }
  }

  lemma EntryIsValid(ranges: seq<int>, condition: Condition, t: Table, e: PrePost)
    requires TableEntry(ranges, condition, t, e) && ValidTable(ranges, t) && ValidMap(ranges, condition)
    ensures ValidEntry(ranges, e) && e.pre != e.post
  {
    assert ValidFact(ranges, Fact(e.v, e.post));
    if e.v in condition { assert ValidFact(ranges, Fact(e.v, condition[e.v])); }
  }

  // ----- Applicability -----

  lemma BuiltApplies(ranges: seq<int>, condition: Condition, t: Table, es: seq<PrePost>, rest: Condition, op: Operator)
    requires ValidTable(ranges, t) && ValidMap(ranges, condition) && TableEntries(ranges, condition, t, es)
    requires Popped(condition, es, rest) && op == MakeOperator(op.name, Items(rest), es, op.cost)
    ensures AppliesUnder(op, condition)
  {
    PrevailList(ranges, condition, rest, es);
    EntriesOfOperator(ranges, condition, t, es);
    forall s: State ensures Applicable(op, s) <==> SatMap(s, condition) {
      if Applicable(op, s) { AppliedSatisfies(ranges, condition, t, es, rest, op, s); }
      if SatMap(s, condition) { SatisfiedApplies(ranges, condition, t, rest, op, s); }
    }
  }

  lemma AppliedSatisfies(ranges: seq<int>, condition: Condition, t: Table, es: seq<PrePost>, rest: Condition,
      op: Operator,
      s: State)
    requires TableEntries(ranges, condition, t, es) && ValidMap(ranges, condition) && Popped(condition, es, rest)
    requires op.prevail == Items(rest) && SameElements(op.prePost, es) && Applicable(op, s)
    ensures SatMap(s, condition)
  {
    forall v | v in condition ensures Holds(s, Fact(v, condition[v])) {
      assert ValidFact(ranges, Fact(v, condition[v]));
      if v in rest {
        assert Fact(v, rest[v]) in Items(rest);
        SatisfiesIn(s, Items(rest));
      } else {
        var i :| 0 <= i < |es| && es[i].v == v;
        assert es[i] in op.prePost;
        var j :| 0 <= j < |op.prePost| && op.prePost[j] == es[i];
        assert PreHolds(s, op.prePost[j]) && TableEntry(ranges, condition, t, es[i]);
      }
    }
  }

  lemma SatisfiedApplies(ranges: seq<int>, condition: Condition, t: Table, rest: Condition, op: Operator, s: State)
    requires TableEntries(ranges, condition, t, op.prePost) && SatMap(s, condition)
    requires (forall v :: v in rest ==> v in condition && rest[v] == condition[v]) && op.prevail == Items(rest)
    ensures Applicable(op, s)
  {
    forall i | 0 <= i < |op.prevail| ensures Holds(s, op.prevail[i]) {
      var f := op.prevail[i];
      assert f in Items(rest);
      assert f == Fact(f.v, condition[f.v]);
    }
    forall i | 0 <= i < |op.prePost| ensures PreHolds(s, op.prePost[i]) {
      assert TableEntry(ranges, condition, t, op.prePost[i]);
    }
  }

  // ----- Successors -----

  /** What the triggered entries set. */
  lemma EntriesGiveResult(ranges: seq<int>, condition: Condition, t: Table, es: seq<PrePost>, s: State, v: int, y: int)
    requires ExactEntries(ranges, condition, t, es) && Admits(ranges, condition, s) && 0 <= v < |s|
    requires ValidTable(ranges, t) && OneValue(t, s, v) && NewValue(s, es, v, y)
    ensures Result(t, s, v, y)
  {
    hide CellSound, CellComplete;
    forall x | Triggered(t, v, x, s) ensures x == y {
      TriggeredSets(ranges, condition, t, es, s, v, x);
      if exists i :: 0 <= i < |es| && Sets(s, es[i], v) {
        var i :| 0 <= i < |es| && Sets(s, es[i], v) && es[i].post == y;
        SetsTriggered(ranges, condition, t, es, s, v, y, i, x);
      }
    }
    if forall x :: !Triggered(t, v, x, s) {
      if exists i :: 0 <= i < |es| && Sets(s, es[i], v) {
        var i :| 0 <= i < |es| && Sets(s, es[i], v) && es[i].post == y;
        SetsIdle(ranges, condition, t, es, s, v, y, i);
      }
    }
  }

  /** A triggered value is set by an entry, or it is the current value. */
  lemma TriggeredSets(ranges: seq<int>, condition: Condition, t: Table, es: seq<PrePost>, s: State, v: int, x: int)
    requires ExactEntries(ranges, condition, t, es) && Admits(ranges, condition, s) && Triggered(t, v, x, s)
    requires ValidTable(ranges, t)
    ensures 0 <= v < |s|
    ensures AnySets(s, es, v, x) || s[v] == x
    ensures (forall i :: 0 <= i < |es| ==> !Sets(s, es[i], v)) ==> s[v] == x
  {
    assert v in t && x in t[v] && ValidFact(ranges, Fact(v, x));
    assert CellComplete(ranges, condition, t, es, v, x);
    if x == PreOf(condition, v) && v in condition { assert Holds(s, Fact(v, condition[v])); }
  }

  lemma SetsTriggered(ranges: seq<int>, condition: Condition, t: Table, es: seq<PrePost>, s: State, v: int, y: int,
      i: int,
      x: int)
    requires ExactEntries(ranges, condition, t, es) && Admits(ranges, condition, s)
    requires 0 <= i < |es| && Sets(s, es[i], v) && es[i].post == y && Triggered(t, v, x, s) && OneValue(t, s, v)
    ensures x == y
  {
    assert AnySets(s, es, v, y);
    assert TriggeredOrIdle(t, v, y, s);
  }

  lemma SetsIdle(ranges: seq<int>, condition: Condition, t: Table, es: seq<PrePost>, s: State, v: int, y: int, i: int)
    requires ExactEntries(ranges, condition, t, es) && Admits(ranges, condition, s) && 0 <= v < |s|
    requires 0 <= i < |es| && Sets(s, es[i], v) && es[i].post == y && forall x :: !Triggered(t, v, x, s)
    ensures y == s[v]
  {
    assert AnySets(s, es, v, y);
    assert TriggeredOrIdle(t, v, y, s);
  }

  /** In an admitted state, every variable with at most one triggered value gets it. */
  ghost predicate GivesResults(ranges: seq<int>, condition: Condition, t: Table, op: Operator) {
    forall s: State, v :: Admits(ranges, condition, s) && 0 <= v < |s| && OneValue(t, s, v) ==>
      Result(t, s, v, Successor(op, s)[v])
  }

  /** In an admitted state, a triggered value is already there. */
  ghost predicate ChangesNothing(ranges: seq<int>, condition: Condition, t: Table) {
    forall s: State, v, x :: Admits(ranges, condition, s) && Triggered(t, v, x, s) ==> 0 <= v < |s| && s[v] == x
  }

  lemma BuiltSuccessors(ranges: seq<int>, condition: Condition, t: Table, es: seq<PrePost>, op: Operator)
    requires ExactEntries(ranges, condition, t, es) && ValidOperator(ranges, op) && op.prePost == Canonical(es)
    requires ValidTable(ranges, t)
    ensures GivesResults(ranges, condition, t, op)
  {
    hide ExactEntries, ValidOperator;
    forall s: State, v | Admits(ranges, condition, s) && 0 <= v < |s| && OneValue(t, s, v)
      ensures Result(t, s, v, Successor(op, s)[v])
    {
      var y := Successor(op, s)[v];
      HighestPostWins(ranges, op, s, v);
      NewValueOfSet(s, op.prePost, es, v, y);
      EntriesGiveResult(ranges, condition, t, es, s, v, y);
    }
  }

  lemma NothingBuilt(ranges: seq<int>, condition: Condition, t: Table)
    requires ExactEntries(ranges, condition, t, []) && ValidTable(ranges, t)
    ensures ChangesNothing(ranges, condition, t)
  {
    forall s: State, v, x | Admits(ranges, condition, s) && Triggered(t, v, x, s) ensures 0 <= v < |s| && s[v] == x {
      TriggeredSets(ranges, condition, t, [], s, v, x);
    }
  }

  lemma AnySetsSame(s: State, es: seq<PrePost>, fs: seq<PrePost>, v: int, x: int)
    requires SameElements(es, fs) && AnySets(s, es, v, x)
    ensures AnySets(s, fs, v, x)
  {
    var i :| 0 <= i < |es| && Sets(s, es[i], v) && es[i].post == x;
    assert es[i] in es && es[i] in fs;
    var j :| 0 <= j < |fs| && fs[j] == es[i];
    assert Sets(s, fs[j], v);
  }

  lemma CompleteSame(ranges: seq<int>, condition: Condition, t: Table, es: seq<PrePost>, fs: seq<PrePost>, v: int, x: int)
    requires SameElements(es, fs) && CellComplete(ranges, condition, t, es, v, x)
    ensures CellComplete(ranges, condition, t, fs, v, x)
  {
    hide AnySets, Triggered, Admits, UsedConditions, Filtered;
    if x != PreOf(condition, v) {
      var cs :| UsedConditions(ranges, t, v, x, cs) && Listed(condition, v, x, cs, es);
      assert Listed(condition, v, x, cs, fs);
      forall s: State | Admits(ranges, condition, s) && Triggered(t, v, x, s) ensures AnySets(s, fs, v, x) {
        AnySetsSame(s, es, fs, v, x);
      }
    }
  }

  /** Only the set of entries matters. */
  lemma ExactSame(ranges: seq<int>, condition: Condition, t: Table, es: seq<PrePost>, fs: seq<PrePost>)
    requires SameElements(es, fs) && ExactEntries(ranges, condition, t, es)
    ensures ExactEntries(ranges, condition, t, fs)
  {
    hide TableEntry, CellComplete, AnySets, TriggeredOrIdle, Admits;
    forall i | 0 <= i < |fs| ensures TableEntry(ranges, condition, t, fs[i]) { assert fs[i] in fs && fs[i] in es; }
    forall s: State, v, x | Admits(ranges, condition, s) && AnySets(s, fs, v, x) ensures TriggeredOrIdle(t, v, x, s) {
      AnySetsSame(s, fs, es, v, x);
    }
    forall v, x | v in t && x in t[v] ensures CellComplete(ranges, condition, t, fs, v, x) {
      CompleteSame(ranges, condition, t, es, fs, v, x);
    }
  }

  /** build_sas_operator: `None` exactly when no entry is left, and then the
      operator changes nothing. */
  method BuildSasOperator(name: string, condition: Condition, t: Table, cost: int, ranges: seq<int>)
      returns (r: Option<Operator>)
    requires ValidTable(ranges, t) && ValidMap(ranges, condition) && cost >= 0
    ensures r.None? ==> ChangesNothing(ranges, condition, t)
    ensures r.Some? ==> ValidOperator(ranges, r.value) && r.value.name == name && r.value.cost == cost
    ensures r.Some? ==> NoIdleEntry(r.value) && AppliesUnder(r.value, condition)
    ensures r.Some? ==> GivesResults(ranges, condition, t, r.value) && ExactEntries(ranges, condition, t, r.value.prePost)
  {
    var es, rest := BuildEntries(ranges, condition, t);
    assert TableEntries(ranges, condition, t, es);
    hide ExactEntries, TableEntries, ValidTable, Popped, ValidMap, ValidOperator, AppliesUnder, GivesResults,
      NoIdleEntry,
      ChangesNothing;
    if es == [] {
      NothingBuilt(ranges, condition, t);
      return None;
    }
    var op := MakeOperator(name, Items(rest), es, cost);
    BuiltIsValid(ranges, condition, t, es, rest, op);
    BuiltApplies(ranges, condition, t, es, rest, op);
    BuiltSuccessors(ranges, condition, t, es, op);
    ExactSame(ranges, condition, t, es, op.prePost);
    return Some(op);
  }
}
