/**
  Delete effects (translate.py:232-268): a delete effect sets its variable to "none
  of those" when the deleted value holds and no add effect on the variable
  triggers.  Every condition is combined with every way for no add effect to
  trigger, and contradictory combinations are dropped.
 */
module DeleteEffects {
  import opened Wrappers
  import opened Strips
  import opened SasTasks = SasTasks
  import opened Encodings
  import opened Conditions
  import opened ConditionTranslation
  import opened EffectTables

  predicate HoldsOn(s: State, m: Condition, keys: seq<int>) {
    forall i :: 0 <= i < |keys| && keys[i] in m ==> Holds(s, Fact(keys[i], m[keys[i]]))
  }

  lemma SetOne(s: State, m: Condition, v: int, x: int)
    requires v in m ==> m[v] == x
    ensures SatMap(s, m[v := x]) <==> SatMap(s, m) && Holds(s, Fact(v, x))
  {
    var n := m[v := x];
    if SatMap(s, n) {
      assert v in n;
      forall u | u in m ensures Holds(s, Fact(u, m[u])) { assert u in n; }
    }
  }

  /** `m` is `cond` together with the listed part of `other`. */
  ghost predicate MergedOn(cond: Condition, other: Condition, keys: seq<int>, m: Condition) {
    forall s: State :: SatMap(s, m) <==> SatMap(s, cond) && HoldsOn(s, other, keys)
  }

  lemma MergeStep(cond: Condition, other: Condition, keys: seq<int>, m: Condition, v: int)
    requires MergedOn(cond, other, keys, m) && v in other
    ensures v !in m || m[v] == other[v] ==> MergedOn(cond, other, keys + [v], m[v := other[v]])
    ensures v in m && m[v] != other[v] ==> forall s: State :: !(SatMap(s, cond) && HoldsOn(s, other, keys + [v]))
  {
    forall s: State ensures HoldsOn(s, other, keys + [v]) <==> HoldsOn(s, other, keys) && Holds(s, Fact(v, other[v])) {
      var more := keys + [v];
      if HoldsOn(s, other, more) {
        assert more[|keys|] == v;
        forall i | 0 <= i < |keys| && keys[i] in other ensures Holds(s, Fact(keys[i], other[keys[i]])) {
          assert more[i] == keys[i];
        }
      }
    }
    if v !in m || m[v] == other[v] {
      forall s: State { SetOne(s, m, v, other[v]); }
    }
  }

  lemma HoldsOnPart(s: State, m: Condition, keys: seq<int>, k: nat)
    requires k <= |keys| && forall v :: v in keys <==> v in m
    ensures SatMap(s, m) ==> HoldsOn(s, m, keys[..k])
    ensures HoldsOn(s, m, keys) ==> SatMap(s, m)
  {
    if HoldsOn(s, m, keys) {
      forall v | v in m ensures Holds(s, Fact(v, m[v])) {
        var i :| 0 <= i < |keys| && keys[i] == v;
        assert Holds(s, Fact(keys[i], m[keys[i]]));
      }
    }
  }

  /** Both conditions as one, unless they contradict each other. */
  method Merge(ranges: seq<int>, cond: Condition, other: Condition) returns (r: Option<Condition>)
    requires ValidMap(ranges, cond) && ValidMap(ranges, other)
    ensures r.Some? ==> ValidMap(ranges, r.value)
    ensures forall s: State :: SatMap(s, cond) && SatMap(s, other) <==> r.Some? && SatMap(s, r.value)
  {
    hide MergedOn, SatMap, HoldsOn;
    var m := cond;
    var keys := ListOf(other.Keys);
    MergeStart(cond, other);
    for i := 0 to |keys|
      invariant ValidMap(ranges, m) && MergedOn(cond, other, keys[..i], m)
    {
      var v := keys[i];
      assert v in keys;
      assert keys[..i + 1] == keys[..i] + [v];
      MergeStep(cond, other, keys[..i], m, v);
      if v in m && m[v] != other[v] {
        forall s: State { HoldsOnPart(s, other, keys, i + 1); }
        return None;
      }
      m := m[v := other[v]];
    }
    assert keys[..|keys|] == keys;
    MergeEnd(cond, other, keys, m);
    return Some(m);
  }

  lemma MergeStart(cond: Condition, other: Condition)
    ensures MergedOn(cond, other, [], cond)
  {
  }

  lemma MergeEnd(cond: Condition, other: Condition, keys: seq<int>, m: Condition)
    requires MergedOn(cond, other, keys, m) && forall v :: v in keys <==> v in other
    ensures forall s: State :: SatMap(s, cond) && SatMap(s, other) <==> SatMap(s, m)
  {
    forall s: State ensures SatMap(s, other) <==> HoldsOn(s, other, keys) {
      HoldsOnPart(s, other, keys, |keys|);
      assert keys[..|keys|] == keys;
    }
  }

  // ----- Guards -----

  /** `r` is the condition with the deleted value and with one of `noAdd`. */
  ghost predicate Guarded(conds: seq<Condition>, f: Fact, noAdd: seq<Condition>, r: seq<Condition>) {
    forall s: State :: Picks(s, r) <==> Picks(s, conds) && Holds(s, f) && Picks(s, noAdd)
  }

  lemma PicksOne(s: State, m: Condition)
    ensures Picks(s, [m]) <==> SatMap(s, m)
  {
    if SatMap(s, m) { assert SatMap(s, [m][0]); }
  }

  lemma GuardNext(guarded: Condition, noAdd: seq<Condition>, r: seq<Condition>, next: Condition, m: Option<Condition>)
    requires forall s: State :: Picks(s, r) <==> SatMap(s, guarded) && Picks(s, noAdd)
    requires forall s: State :: SatMap(s, guarded) && SatMap(s, next) <==> m.Some? && SatMap(s, m.value)
    ensures forall s: State :: Picks(s, if m.Some? then r + [m.value] else r) <==>
      SatMap(s, guarded) && Picks(s, noAdd + [next])
  {
    hide Picks, SatMap;
    forall s: State
      ensures Picks(s, if m.Some? then r + [m.value] else r) <==> SatMap(s, guarded) && Picks(s, noAdd + [next])
    {
      PicksAppend(s, noAdd, [next]);
      PicksOne(s, next);
      if m.Some? {
        PicksAppend(s, r, [m.value]);
        PicksOne(s, m.value);
      }
    }
  }

  lemma GuardContradiction(cond: Condition, f: Fact, noAdd: seq<Condition>)
    requires f.v in cond && cond[f.v] != f.val
    ensures Guarded([cond], f, noAdd, [])
  {
    forall s: State | Holds(s, f) ensures !Picks(s, [cond]) {
      PicksOne(s, cond);
      assert !Holds(s, Fact(f.v, cond[f.v]));
    }
  }

  lemma GuardDone(cond: Condition, f: Fact, noAdd: seq<Condition>, guarded: Condition, r: seq<Condition>)
    requires (f.v in cond ==> cond[f.v] == f.val) && guarded == cond[f.v := f.val]
    requires forall s: State :: Picks(s, r) <==> SatMap(s, guarded) && Picks(s, noAdd)
    ensures Guarded([cond], f, noAdd, r)
  {
    hide Picks, SatMap;
    forall s: State ensures SatMap(s, guarded) <==> Picks(s, [cond]) && Holds(s, f) {
      SetOne(s, cond, f.v, f.val);
      PicksOne(s, cond);
      assert f == Fact(f.v, f.val);
    }
  }

  /** Guard one condition of a delete effect on the fact `f`. */
  method GuardCondition(ranges: seq<int>, cond: Condition, f: Fact, noAdd: seq<Condition>) returns (r: seq<Condition>)
    requires ValidMap(ranges, cond) && ValidFact(ranges, f) && ValidMaps(ranges, noAdd)
    ensures ValidMaps(ranges, r) && Guarded([cond], f, noAdd, r)
  {
    hide Picks, SatMap, Guarded;
    r := [];
    if f.v in cond && cond[f.v] != f.val {
      GuardContradiction(cond, f, noAdd);
      return;
    }
    var guarded := cond[f.v := f.val];
    assert forall s: State :: Picks(s, []) <==> SatMap(s, guarded) && Picks(s, noAdd[..0]) by { NothingPicked(); }
    for i := 0 to |noAdd|
      invariant ValidMaps(ranges, r)
      invariant forall s: State :: Picks(s, r) <==> SatMap(s, guarded) && Picks(s, noAdd[..i])
    {
      var m := Merge(ranges, guarded, noAdd[i]);
      GuardNext(guarded, noAdd[..i], r, noAdd[i], m);
      assert noAdd[..i + 1] == noAdd[..i] + [noAdd[i]];
      if m.Some? { r := r + [m.value]; }
    }
    assert noAdd[..|noAdd|] == noAdd;
    GuardDone(cond, f, noAdd, guarded, r);
  }

  lemma NothingPicked()
    ensures forall s: State :: !Picks(s, [])
  {
  }

  lemma GuardedAppend(a: seq<Condition>, b: seq<Condition>, f: Fact, noAdd: seq<Condition>, r: seq<Condition>,
      q: seq<Condition>)
    requires Guarded(a, f, noAdd, r) && Guarded(b, f, noAdd, q)
    ensures Guarded(a + b, f, noAdd, r + q)
  {
    hide Picks;
    forall s: State ensures Picks(s, r + q) <==> Picks(s, a + b) && Holds(s, f) && Picks(s, noAdd) {
      PicksAppend(s, a, b);
      PicksAppend(s, r, q);
    }
  }

  method GuardCell(ranges: seq<int>, conds: seq<Condition>, f: Fact, noAdd: seq<Condition>) returns (r: seq<Condition>)
    requires ValidMaps(ranges, conds) && ValidFact(ranges, f) && ValidMaps(ranges, noAdd)
    ensures ValidMaps(ranges, r) && Guarded(conds, f, noAdd, r)
  {
    r := [];
    assert Guarded([], f, noAdd, []) by { NothingPicked(); }
    hide Guarded;
    for i := 0 to |conds|
      invariant ValidMaps(ranges, r) && Guarded(conds[..i], f, noAdd, r)
    {
      var q := GuardCondition(ranges, conds[i], f, noAdd);
      GuardedAppend(conds[..i], [conds[i]], f, noAdd, r, q);
      assert conds[..i + 1] == conds[..i] + [conds[i]];
      r := r + q;
    }
    assert conds[..|conds|] == conds;
  }

  /** A value in `vals` holds and its cell triggers. */
  predicate CurrentIn(s: State, v: int, row: map<int, seq<Condition>>, vals: seq<int>) {
    exists i :: 0 <= i < |vals| && vals[i] in row && Holds(s, Fact(v, vals[i])) && Picks(s, row[vals[i]])
  }

  lemma CurrentAppend(s: State, v: int, row: map<int, seq<Condition>>, vals: seq<int>, x: int)
    requires x in row
    ensures CurrentIn(s, v, row, vals + [x]) <==> CurrentIn(s, v, row, vals) || (Holds(s, Fact(v, x)) && Picks(s, row[x]))
  {
    var more := vals + [x];
    if CurrentIn(s, v, row, vals) {
      var i :| 0 <= i < |vals| && vals[i] in row && Holds(s, Fact(v, vals[i])) && Picks(s, row[vals[i]]);
      assert more[i] == vals[i];
    }
    assert more[|vals|] == x;
    if CurrentIn(s, v, row, more) {
      var i :| 0 <= i < |more| && more[i] in row && Holds(s, Fact(v, more[i])) && Picks(s, row[more[i]]);
      if i < |vals| { assert vals[i] == more[i]; }
    }
  }

  ghost predicate RowGuarded(v: int, row: map<int, seq<Condition>>, vals: seq<int>, noAdd: seq<Condition>,
      r: seq<Condition>) {
    forall s: State :: Picks(s, r) <==> CurrentIn(s, v, row, vals) && Picks(s, noAdd)
  }

  lemma RowStep(v: int, row: map<int, seq<Condition>>, vals: seq<int>, noAdd: seq<Condition>, r: seq<Condition>, x: int,
      q: seq<Condition>)
    requires RowGuarded(v, row, vals, noAdd, r) && x in row && Guarded(row[x], Fact(v, x), noAdd, q)
    ensures RowGuarded(v, row, vals + [x], noAdd, r + q)
  {
    hide Picks, CurrentIn;
    forall s: State ensures Picks(s, r + q) <==> CurrentIn(s, v, row, vals + [x]) && Picks(s, noAdd) {
      CurrentAppend(s, v, row, vals, x);
      PicksAppend(s, r, q);
    }
  }

  /** All delete effects on one variable. */
  method GuardRow(ranges: seq<int>, v: int, row: map<int, seq<Condition>>, noAdd: seq<Condition>)
      returns (r: seq<Condition>, ghost vals: seq<int>)
    requires forall x :: x in row ==> ValidFact(ranges, Fact(v, x)) && ValidMaps(ranges, row[x])
    requires ValidMaps(ranges, noAdd)
    ensures ValidMaps(ranges, r) && RowGuarded(v, row, vals, noAdd, r) && forall x :: x in vals <==> x in row
  {
    r := [];
    var keys := ListOf(row.Keys);
    assert RowGuarded(v, row, [], noAdd, []) by { NothingPicked(); }
    hide RowGuarded, Guarded;
    for i := 0 to |keys|
      invariant ValidMaps(ranges, r) && RowGuarded(v, row, keys[..i], noAdd, r)
    {
      var x := keys[i];
      assert x in keys;
      var q := GuardCell(ranges, row[x], Fact(v, x), noAdd);
      RowStep(v, row, keys[..i], noAdd, r, x, q);
      assert keys[..i + 1] == keys[..i] + [x];
      r := r + q;
    }
    assert keys[..|keys|] == keys;
    vals := keys;
  }

  // ----- The whole table -----

  predicate IsNone(ranges: seq<int>, v: int, x: int) {
    0 <= v < |ranges| && x == ranges[v] - 1
  }

  /** The current value of `v` is deleted. */
  predicate CurrentTriggered(t: Table, v: int, s: State) {
    0 <= v < |s| && Triggered(t, v, s[v], s)
  }

  lemma CurrentInMeans(s: State, t: Table, v: int, vals: seq<int>)
    requires forall x :: x in vals <==> x in Row(t, v)
    ensures CurrentIn(s, v, Row(t, v), vals) <==> CurrentTriggered(t, v, s)
  {
    if CurrentTriggered(t, v, s) {
      assert s[v] in vals;
      var i :| 0 <= i < |vals| && vals[i] == s[v];
      assert Holds(s, Fact(v, vals[i]));
    }
  }

  /** The add table with the guarded deletions of the variables in `done`. */
  ghost predicate FinishedFor(enc: Encoding, adds: Table, dels: Table, m: AddConditions, done: seq<int>, t: Table,
      s: State, w: World, v: int, x: int)
  {
    Triggered(t, v, x, s) <==>
    (Triggered(adds, v, x, s) ||
     (v in done && IsNone(enc.ranges, v, x) && CurrentTriggered(dels, v, s) && !AnyTrue(w, Conds(m, v))))
  }

  ghost predicate Finished(enc: Encoding, mutex: Encoding, adds: Table, dels: Table, m: AddConditions, done: seq<int>,
      t: Table)
  {
    && ValidTable(enc.ranges, t)
    && (forall s, w, v, x :: Legal(enc, mutex, s, w) ==> FinishedFor(enc, adds, dels, m, done, t, s, w, v, x))
  }

  lemma StartFinished(enc: Encoding, mutex: Encoding, adds: Table, dels: Table, m: AddConditions)
    requires ValidTable(enc.ranges, adds)
    ensures Finished(enc, mutex, adds, dels, m, [], adds)
  {
  }

  /** An add effect on `u` always triggers, so nothing is deleted. */
  lemma FinishSkip(enc: Encoding, mutex: Encoding, adds: Table, dels: Table, m: AddConditions, done: seq<int>,
      t: Table, u: int)
    requires Finished(enc, mutex, adds, dels, m, done, t) && ExactNegation(enc, mutex, Conds(m, u), None)
    ensures Finished(enc, mutex, adds, dels, m, done + [u], t)
  {
    hide Triggered, CurrentTriggered, AnyTrue;
    forall s, w, v, x | Legal(enc, mutex, s, w) ensures FinishedFor(enc, adds, dels, m, done + [u], t, s, w, v, x) {
      assert FinishedFor(enc, adds, dels, m, done, t, s, w, v, x);
    }
  }

  /** The guarded conditions of `u` say that its value is deleted and nothing added. */
  ghost predicate Deletes(enc: Encoding, mutex: Encoding, dels: Table, m: AddConditions, u: int, r: seq<Condition>) {
    forall s, w :: Legal(enc, mutex, s, w) ==> (Picks(s, r) <==> CurrentTriggered(dels, u, s) && !AnyTrue(w, Conds(m, u)))
  }

  lemma RowDeletes(enc: Encoding, mutex: Encoding, dels: Table, m: AddConditions, u: int, noAdd: seq<Condition>,
      r: seq<Condition>, vals: seq<int>)
    requires ExactNegation(enc, mutex, Conds(m, u), Some(noAdd))
    requires RowGuarded(u, Row(dels, u), vals, noAdd, r) && forall x :: x in vals <==> x in Row(dels, u)
    ensures Deletes(enc, mutex, dels, m, u, r)
  {
    hide Picks, CurrentIn, CurrentTriggered, AnyTrue, Encodes;
    forall s, w | Legal(enc, mutex, s, w)
      ensures Picks(s, r) <==> CurrentTriggered(dels, u, s) && !AnyTrue(w, Conds(m, u))
    {
      CurrentInMeans(s, dels, u, vals);
    }
  }

  lemma FinishOne(enc: Encoding, mutex: Encoding, adds: Table, dels: Table, m: AddConditions, done: seq<int>,
      t: Table, u: int, r: seq<Condition>)
    requires Finished(enc, mutex, adds, dels, m, done, t) && Deletes(enc, mutex, dels, m, u, r)
    requires 0 <= u < |enc.ranges| && enc.ranges[u] >= 1 && ValidMaps(enc.ranges, r)
    ensures Finished(enc, mutex, adds, dels, m, done + [u], if r == [] then t else Extend(t, u, enc.ranges[u] - 1, r))
  {
    var none := enc.ranges[u] - 1;
    var t' := if r == [] then t else Extend(t, u, none, r);
    ExtendValid(enc.ranges, t, u, none, r);
    hide ValidTable, CurrentTriggered, AnyTrue, ValidMaps, Extend, Triggered, Picks, Legal;
    forall s, w, v, x | Legal(enc, mutex, s, w) ensures FinishedFor(enc, adds, dels, m, done + [u], t', s, w, v, x) {
      assert FinishedFor(enc, adds, dels, m, done, t, s, w, v, x);
      TriggeredAfter(t, u, none, r, s, v, x);
    }
  }

  lemma TriggeredAfter(t: Table, u: int, y: int, r: seq<Condition>, s: State, v: int, x: int)
    ensures Triggered(if r == [] then t else Extend(t, u, y, r), v, x, s) <==>
      Triggered(t, v, x, s) || (u == v && y == x && Picks(s, r))
  {
    ExtendCells(t, u, y, r, s);
  }

  method AddDeleteEffects(adds: Table, dels: Table, addConds: AddConditions, enc: Encoding, mutex: Encoding)
      returns (effects: Table, ghost done: seq<int>)
    requires WellFormed(enc) && WellFormed(mutex) && ValidTable(enc.ranges, adds) && ValidTable(enc.ranges, dels)
    requires forall v :: AllKnown(enc, Conds(addConds, v))
    requires forall v :: 0 <= v < |enc.ranges| ==> enc.ranges[v] >= 1
    ensures Finished(enc, mutex, adds, dels, addConds, done, effects)
    ensures forall v :: v in done <==> v in dels
  {
    effects := adds;
    var keys := ListOf(dels.Keys);
    StartFinished(enc, mutex, adds, dels, addConds);
    hide Finished, ExactNegation, RowGuarded, WellFormed, AllKnown, ValidMaps, Deletes;
    for i := 0 to |keys|
      invariant Finished(enc, mutex, adds, dels, addConds, keys[..i], effects)
    {
      var v := keys[i];
      assert v in keys;
      assert keys[..i + 1] == keys[..i] + [v];
      var noAdd := NegateAndTranslateCondition(Conds(addConds, v), enc, mutex);
      if noAdd.None? {
        FinishSkip(enc, mutex, adds, dels, addConds, keys[..i], effects, v);
      } else {
        NegationValid(enc, mutex, Conds(addConds, v), noAdd);
        var r, vals := GuardRow(enc.ranges, v, dels[v], noAdd.value);
        RowDeletes(enc, mutex, dels, addConds, v, noAdd.value, r, vals);
        FinishOne(enc, mutex, adds, dels, addConds, keys[..i], effects, v, r);
        if r != [] {
          effects := Extend(effects, v, enc.ranges[v] - 1, r);
        }
      }
    }
    assert keys[..|keys|] == keys;
    done := keys;
  }

  lemma NegationValid(enc: Encoding, mutex: Encoding, dnf: seq<seq<Literal>>, r: Option<seq<Condition>>)
    requires ExactNegation(enc, mutex, dnf, r) && r.Some?
    ensures ValidMaps(enc.ranges, r.value)
  {
  }

  // ----- What the table means for the operator -----

  /** `a` makes variable `v` take value `x`: it adds that fact, or it deletes the
      current one and adds nothing on `v`. */
  predicate Wanted(enc: Encoding, a: Action, s: State, w: World, v: int, x: int) {
    || FiresFor(enc.dictionary, w, a.addEffects, v, x)
    || (IsNone(enc.ranges, v, x) && 0 <= v < |s| && FiresFor(enc.dictionary, w, a.delEffects, v, s[v]) &&
        !AddsTo(enc.dictionary, w, a.addEffects, v))
  }

  /** The table triggers exactly what the operator wants. */
  ghost predicate EffectsOf(enc: Encoding, mutex: Encoding, a: Action, t: Table) {
    && ValidTable(enc.ranges, t)
    && (forall s, w, v, x :: Legal(enc, mutex, s, w) ==> (Triggered(t, v, x, s) <==> Wanted(enc, a, s, w, v, x)))
  }

  predicate KnownAction(enc: Encoding, a: Action) {
    Known(enc, a.precondition) && KnownEffects(enc, a.addEffects) && KnownEffects(enc, a.delEffects)
  }

  lemma FinishedIsWanted(enc: Encoding, mutex: Encoding, a: Action, adds: Table, dels: Table, m: AddConditions,
      done: seq<int>, t: Table)
    requires TableOf(enc, mutex, a.addEffects, adds) && TableOf(enc, mutex, a.delEffects, dels)
    requires ConditionsOf(enc, mutex, a.addEffects, m)
    requires Finished(enc, mutex, adds, dels, m, done, t) && forall v :: v in done <==> v in dels
    ensures EffectsOf(enc, mutex, a, t)
  {
    hide FiresFor, AddsTo, AnyTrue;
    forall s, w, v, x | Legal(enc, mutex, s, w) ensures Triggered(t, v, x, s) <==> Wanted(enc, a, s, w, v, x) {
      assert FinishedFor(enc, adds, dels, m, done, t, s, w, v, x);
      assert TableAt(enc.dictionary, a.addEffects, adds, s, w) && TableAt(enc.dictionary, a.delEffects, dels, s, w);
      assert ConditionsAt(enc.dictionary, a.addEffects, m, w, v);
      assert CurrentTriggered(dels, v, s) ==> v in dels;
    }
  }

  /** The effect tables of translate_strips_operator_aux. */
  method CollectEffects(a: Action, enc: Encoding, mutex: Encoding) returns (effects: Table)
    requires WellFormed(enc) && WellFormed(mutex) && KnownAction(enc, a)
    requires forall v :: 0 <= v < |enc.ranges| ==> enc.ranges[v] >= 1
    ensures EffectsOf(enc, mutex, a, effects)
  {
    hide EffectsOf, Finished, TableOf, ConditionsOf, WellFormed;
    var adds, addConds := CollectAddEffects(a.addEffects, enc, mutex);
    var dels := CollectDelEffects(a.delEffects, enc, mutex);
    TableValid(enc, mutex, a.addEffects, adds, addConds);
    TableIsValid(enc, mutex, a.delEffects, dels);
    ghost var done;
    effects, done := AddDeleteEffects(adds, dels, addConds, enc, mutex);
    FinishedIsWanted(enc, mutex, a, adds, dels, addConds, done, effects);
  }
}
