/**
  Collecting the effects of a STRIPS operator by variable and value
  (translate.py:204-230).

  A cell of the table lists the conditions under which a variable takes a value.
  Add effects fill the cells of their facts; a delete effect fills the cell
  "none of those", guarded by the deleted value and by no add effect triggering.
 */
module EffectTables {
  import opened Wrappers
  import opened Strips
  import opened SasTasks = SasTasks
  import opened Encodings
  import opened Conditions
  import opened ConditionTranslation

  type Table = map<int, map<int, seq<Condition>>>

  function Row(t: Table, v: int): map<int, seq<Condition>> {
    if v in t then t[v] else map[]
  }

  function Cell(t: Table, v: int, x: int): seq<Condition> {
    if x in Row(t, v) then Row(t, v)[x] else []
  }

  /** `t[v][x].extend(conds)` */
  function Extend(t: Table, v: int, x: int, conds: seq<Condition>): Table {
    t[v := Row(t, v)[x := Cell(t, v, x) + conds]]
  }

  /** The table sets `v` to `x` in `s`. */
  predicate Triggered(t: Table, v: int, x: int, s: State) {
    Picks(s, Cell(t, v, x))
  }

  predicate ValidTable(ranges: seq<int>, t: Table) {
    && (forall v :: v in t ==> 0 <= v < |ranges|)
    && (forall v, x :: v in t && x in t[v] ==> ValidFact(ranges, Fact(v, x)) && ValidMaps(ranges, t[v][x]))
  }

  lemma ExtendCells(t: Table, v: int, x: int, conds: seq<Condition>, s: State)
    ensures forall u, y :: Triggered(Extend(t, v, x, conds), u, y, s) <==>
      Triggered(t, u, y, s) || (u == v && y == x && Picks(s, conds))
  {
    PicksAppend(s, Cell(t, v, x), conds);
  }

  lemma ExtendValid(ranges: seq<int>, t: Table, v: int, x: int, conds: seq<Condition>)
    requires ValidTable(ranges, t) && ValidFact(ranges, Fact(v, x)) && ValidMaps(ranges, conds)
    ensures ValidTable(ranges, Extend(t, v, x, conds))
  {
  }

  /** `r` is `t` with `conds` added to the cell of each pair. */
  ghost predicate Extended(t: Table, pairs: seq<Fact>, conds: seq<Condition>, r: Table) {
    forall s: State, v, x :: Triggered(r, v, x, s) <==>
      Triggered(t, v, x, s) || (Fact(v, x) in pairs && Picks(s, conds))
  }

  lemma ExtendedStep(t: Table, pairs: seq<Fact>, conds: seq<Condition>, r: Table, f: Fact)
    requires Extended(t, pairs, conds, r)
    ensures Extended(t, pairs + [f], conds, Extend(r, f.v, f.val, conds))
  {
    hide Triggered, Picks;
    forall s: State, v, x
      ensures Triggered(Extend(r, f.v, f.val, conds), v, x, s) <==>
        Triggered(t, v, x, s) || (Fact(v, x) in pairs + [f] && Picks(s, conds))
    {
      ExtendCells(r, f.v, f.val, conds, s);
    }
  }

  /** `t[var][val].extend(conds)` for each pair. */
  method ExtendPairs(ranges: seq<int>, t: Table, pairs: seq<Fact>, conds: seq<Condition>) returns (r: Table)
    requires ValidTable(ranges, t) && ValidPairs(ranges, pairs) && ValidMaps(ranges, conds)
    ensures ValidTable(ranges, r) && Extended(t, pairs, conds, r)
  {
    r := t;
    assert Extended(t, [], conds, r);
    hide Extended, ValidTable, ValidMaps;
    for i := 0 to |pairs|
      invariant ValidTable(ranges, r) && Extended(t, pairs[..i], conds, r)
    {
      var f := pairs[i];
      ExtendValid(ranges, r, f.v, f.val, conds);
      ExtendedStep(t, pairs[..i], conds, r, f);
      assert pairs[..i + 1] == pairs[..i] + [f];
      r := Extend(r, f.v, f.val, conds);
    }
    assert pairs[..|pairs|] == pairs;
  }

  // ----- What the tables mean -----

  /** An effect of the list fires and is about the fact `v = x`. */
  predicate FiresFor(d: Dictionary, w: World, es: seq<CondEffect>, v: int, x: int) {
    exists i :: 0 <= i < |es| && Fires(w, es[i]) && Fact(v, x) in Pairs(d, es[i].atom)
  }

  lemma FiresForAppend(d: Dictionary, w: World, es: seq<CondEffect>, e: CondEffect, v: int, x: int)
    ensures FiresFor(d, w, es + [e], v, x) <==>
      FiresFor(d, w, es, v, x) || (Fires(w, e) && Fact(v, x) in Pairs(d, e.atom))
  {
    var more := es + [e];
    if FiresFor(d, w, es, v, x) {
      var i :| 0 <= i < |es| && Fires(w, es[i]) && Fact(v, x) in Pairs(d, es[i].atom);
      assert Fires(w, more[i]);
    }
    if Fires(w, e) && Fact(v, x) in Pairs(d, e.atom) { assert Fires(w, more[|es|]); }
    if FiresFor(d, w, more, v, x) {
      var i :| 0 <= i < |more| && Fires(w, more[i]) && Fact(v, x) in Pairs(d, more[i].atom);
      if i < |es| { assert Fires(w, es[i]); }
    }
  }

  ghost predicate TableAt(d: Dictionary, es: seq<CondEffect>, t: Table, s: State, w: World) {
    forall v, x :: Triggered(t, v, x, s) <==> FiresFor(d, w, es, v, x)
  }

  /** The table triggers exactly the effects of the list that fire. */
  ghost predicate TableOf(enc: Encoding, mutex: Encoding, es: seq<CondEffect>, t: Table) {
    && ValidTable(enc.ranges, t)
    && (forall s, w :: Legal(enc, mutex, s, w) ==> TableAt(enc.dictionary, es, t, s, w))
  }

  predicate KnownEffects(enc: Encoding, es: seq<CondEffect>) {
    forall i :: 0 <= i < |es| ==> es[i].atom in enc.dictionary && Known(enc, es[i].conditions)
  }

  /** A known condition is translated exactly. */
  lemma KnownExact(enc: Encoding, mutex: Encoding, c: seq<Literal>, r: Option<seq<Condition>>)
    requires Exact(enc, mutex, c, r) && Known(enc, c)
    ensures forall s, w :: Legal(enc, mutex, s, w) ==> (AllTrue(w, c) <==> r.Some? && Picks(s, r.value))
  {
    forall s, w | Legal(enc, mutex, s, w) ensures AllTrue(w, c) <==> r.Some? && Picks(s, r.value) {
      assert Settled(enc, w, c);
    }
  }

  lemma TableStep(enc: Encoding, mutex: Encoding, es: seq<CondEffect>, t: Table, e: CondEffect,
      r: Option<seq<Condition>>, t': Table)
    requires TableOf(enc, mutex, es, t) && Exact(enc, mutex, e.conditions, r) && Known(enc, e.conditions)
    requires ValidTable(enc.ranges, t')
    requires if r.Some? then Extended(t, Pairs(enc.dictionary, e.atom), r.value, t') else t' == t
    ensures TableOf(enc, mutex, es + [e], t')
  {
    KnownExact(enc, mutex, e.conditions, r);
    hide Exact, ValidTable, Triggered, FiresFor, Picks, Known;
    forall s, w | Legal(enc, mutex, s, w) ensures TableAt(enc.dictionary, es + [e], t', s, w) {
      assert TableAt(enc.dictionary, es, t, s, w);
      forall v, x ensures Triggered(t', v, x, s) <==> FiresFor(enc.dictionary, w, es + [e], v, x) {
        FiresForAppend(enc.dictionary, w, es, e, v, x);
      }
    }
  }

  // ----- Add conditions per variable -----

  type AddConditions = map<int, seq<seq<Literal>>>

  function Conds(m: AddConditions, v: int): seq<seq<Literal>> {
    if v in m then m[v] else []
  }

  predicate AddsTo(d: Dictionary, w: World, es: seq<CondEffect>, v: int) {
    exists i, f :: 0 <= i < |es| && Fires(w, es[i]) && f in Pairs(d, es[i].atom) && f.v == v
  }

  ghost predicate ConditionsOf(enc: Encoding, mutex: Encoding, es: seq<CondEffect>, m: AddConditions) {
    && (forall v :: AllKnown(enc, Conds(m, v)))
    && (forall s, w, v :: Legal(enc, mutex, s, w) ==> ConditionsAt(enc.dictionary, es, m, w, v))
  }

  ghost predicate ConditionsAt(d: Dictionary, es: seq<CondEffect>, m: AddConditions, w: World, v: int) {
    AnyTrue(w, Conds(m, v)) <==> AddsTo(d, w, es, v)
  }

  lemma AddsToMeans(d: Dictionary, w: World, es: seq<CondEffect>, v: int)
    ensures AddsTo(d, w, es, v) <==> exists x :: FiresFor(d, w, es, v, x)
  {
    if AddsTo(d, w, es, v) {
      var i, f :| 0 <= i < |es| && Fires(w, es[i]) && f in Pairs(d, es[i].atom) && f.v == v;
      assert Fact(v, f.val) == f;
      assert FiresFor(d, w, es, v, f.val);
    }
    forall x | FiresFor(d, w, es, v, x) ensures AddsTo(d, w, es, v) {
      var i :| 0 <= i < |es| && Fires(w, es[i]) && Fact(v, x) in Pairs(d, es[i].atom);
      assert Fact(v, x).v == v;
    }
  }

  predicate HasVar(pairs: seq<Fact>, v: int) {
    exists f :: f in pairs && f.v == v
  }

  lemma AddsToAppend(d: Dictionary, w: World, es: seq<CondEffect>, e: CondEffect, v: int)
    ensures AddsTo(d, w, es + [e], v) <==> AddsTo(d, w, es, v) || (Fires(w, e) && HasVar(Pairs(d, e.atom), v))
  {
    var more := es + [e];
    if AddsTo(d, w, es, v) {
      var i, f :| 0 <= i < |es| && Fires(w, es[i]) && f in Pairs(d, es[i].atom) && f.v == v;
      assert Fires(w, more[i]) && f in Pairs(d, more[i].atom);
    }
    if Fires(w, e) && HasVar(Pairs(d, e.atom), v) {
      var f :| f in Pairs(d, e.atom) && f.v == v;
      assert Fires(w, more[|es|]) && f in Pairs(d, more[|es|].atom);
    }
    if AddsTo(d, w, more, v) {
      var i, f :| 0 <= i < |more| && Fires(w, more[i]) && f in Pairs(d, more[i].atom) && f.v == v;
      if i < |es| { assert Fires(w, es[i]) && f in Pairs(d, es[i].atom); }
    }
  }

  lemma AnyTrueAppend(w: World, dnf: seq<seq<Literal>>, c: seq<Literal>)
    ensures AnyTrue(w, dnf + [c]) <==> AnyTrue(w, dnf) || AllTrue(w, c)
  {
    var more := dnf + [c];
    if AnyTrue(w, dnf) {
      var k :| 0 <= k < |dnf| && AllTrue(w, dnf[k]);
      assert AllTrue(w, more[k]);
    }
    if AllTrue(w, c) { assert AllTrue(w, more[|dnf|]); }
    if AnyTrue(w, more) {
      var k :| 0 <= k < |more| && AllTrue(w, more[k]);
      if k < |dnf| { assert AllTrue(w, dnf[k]); }
    }
  }

  /** `r` is `m` with `c` added for each variable of the pairs. */
  ghost predicate Appended(enc: Encoding, m: AddConditions, pairs: seq<Fact>, c: seq<Literal>, r: AddConditions) {
    && (forall v :: AllKnown(enc, Conds(r, v)))
    && (forall w, v :: AppendedFor(m, pairs, c, r, w, v))
  }

  ghost predicate AppendedFor(m: AddConditions, pairs: seq<Fact>, c: seq<Literal>, r: AddConditions, w: World, v: int) {
    AnyTrue(w, Conds(r, v)) <==> AnyTrue(w, Conds(m, v)) || (AllTrue(w, c) && HasVar(pairs, v))
  }

  lemma AppendedStep(enc: Encoding, m: AddConditions, pairs: seq<Fact>, c: seq<Literal>, r: AddConditions, f: Fact)
    requires Appended(enc, m, pairs, c, r) && Known(enc, c)
    ensures Appended(enc, m, pairs + [f], c, r[f.v := Conds(r, f.v) + [c]])
  {
    KnownAppend(enc, Conds(r, f.v), c);
    var r' := r[f.v := Conds(r, f.v) + [c]];
    forall v ensures AllKnown(enc, Conds(r', v)) {
      assert AllKnown(enc, Conds(r, v));
      assert Conds(r', v) == if v == f.v then Conds(r, f.v) + [c] else Conds(r, v);
    }
    forall w, v ensures AppendedFor(m, pairs + [f], c, r', w, v) {
      AnyTrueAppend(w, Conds(r, f.v), c);
      HasVarAppend(pairs, f, v);
      assert AppendedFor(m, pairs, c, r, w, v);
    }
  }

  /** `add_conds_by_variable[var].append(conditions)` for each pair. */
  method AppendPairs(enc: Encoding, m: AddConditions, pairs: seq<Fact>, c: seq<Literal>) returns (r: AddConditions)
    requires (forall v :: AllKnown(enc, Conds(m, v))) && Known(enc, c)
    ensures Appended(enc, m, pairs, c, r)
  {
    r := m;
    assert Appended(enc, m, [], c, r);
    hide Appended, Known;
    for i := 0 to |pairs|
      invariant Appended(enc, m, pairs[..i], c, r)
    {
      var u := pairs[i].v;
      AppendedStep(enc, m, pairs[..i], c, r, pairs[i]);
      assert pairs[..i + 1] == pairs[..i] + [pairs[i]];
      r := r[u := Conds(r, u) + [c]];
    }
    assert pairs[..|pairs|] == pairs;
  }

  lemma KnownAppend(enc: Encoding, dnf: seq<seq<Literal>>, c: seq<Literal>)
    requires AllKnown(enc, dnf) && Known(enc, c)
    ensures AllKnown(enc, dnf + [c])
  {
  }

  lemma HasVarAppend(pairs: seq<Fact>, f: Fact, v: int)
    ensures HasVar(pairs + [f], v) <==> HasVar(pairs, v) || f.v == v
  {
    if HasVar(pairs, v) {
      var g :| g in pairs && g.v == v;
      assert g in pairs + [f];
    }
    assert f in pairs + [f];
  }

  lemma ConditionsStep(enc: Encoding, mutex: Encoding, es: seq<CondEffect>, m: AddConditions, e: CondEffect,
      r: Option<seq<Condition>>, m': AddConditions)
    requires ConditionsOf(enc, mutex, es, m) && Exact(enc, mutex, e.conditions, r) && Known(enc, e.conditions)
    requires if r.Some? then Appended(enc, m, Pairs(enc.dictionary, e.atom), e.conditions, m') else m' == m
    ensures ConditionsOf(enc, mutex, es + [e], m')
  {
    KnownExact(enc, mutex, e.conditions, r);
    hide Exact, AnyTrue, AddsTo, AllKnown, Known, HasVar, AllTrue;
    forall s, w, v | Legal(enc, mutex, s, w) ensures ConditionsAt(enc.dictionary, es + [e], m', w, v) {
      AddsToAppend(enc.dictionary, w, es, e, v);
      assert ConditionsAt(enc.dictionary, es, m, w, v);
      assert r.Some? ==> AppendedFor(m, Pairs(enc.dictionary, e.atom), e.conditions, m', w, v);
    }
  }

  /** The first loop: add effects by variable and value, and their conditions by variable. */
  method CollectAddEffects(es: seq<CondEffect>, enc: Encoding, mutex: Encoding)
      returns (effects: Table, addConds: AddConditions)
    requires WellFormed(enc) && WellFormed(mutex) && KnownEffects(enc, es)
    ensures TableOf(enc, mutex, es, effects)
    ensures ConditionsOf(enc, mutex, es, addConds)
  {
    hide TableOf, ConditionsOf, Exact, Known;
    effects, addConds := map[], map[];
    EmptyTables(enc, mutex);
    for i := 0 to |es|
      invariant TableOf(enc, mutex, es[..i], effects) && ConditionsOf(enc, mutex, es[..i], addConds)
    {
      var e := es[i];
      assert es[..i + 1] == es[..i] + [e];
      TableValid(enc, mutex, es[..i], effects, addConds);
      var r := TranslateStripsConditions(e.conditions, enc, mutex);
      var effects', addConds' := effects, addConds;
      if r.Some? {
        ExactValid(enc, mutex, e.conditions, r);
        effects' := ExtendPairs(enc.ranges, effects, enc.dictionary[e.atom], r.value);
        addConds' := AppendPairs(enc, addConds, enc.dictionary[e.atom], e.conditions);
      }
      TableStep(enc, mutex, es[..i], effects, e, r, effects');
      ConditionsStep(enc, mutex, es[..i], addConds, e, r, addConds');
      effects, addConds := effects', addConds';
    }
    assert es[..|es|] == es;
  }

  lemma EmptyTables(enc: Encoding, mutex: Encoding)
    ensures TableOf(enc, mutex, [], map[]) && ConditionsOf(enc, mutex, [], map[])
  {
  }

  lemma TableValid(enc: Encoding, mutex: Encoding, es: seq<CondEffect>, t: Table, m: AddConditions)
    requires TableOf(enc, mutex, es, t) && ConditionsOf(enc, mutex, es, m)
    ensures ValidTable(enc.ranges, t) && forall v :: AllKnown(enc, Conds(m, v))
  {
  }

  lemma ExactValid(enc: Encoding, mutex: Encoding, c: seq<Literal>, r: Option<seq<Condition>>)
    requires Exact(enc, mutex, c, r) && r.Some?
    ensures ValidMaps(enc.ranges, r.value)
  {
  }

  /** The second loop: delete effects by variable and deleted value. */
  method CollectDelEffects(es: seq<CondEffect>, enc: Encoding, mutex: Encoding) returns (effects: Table)
    requires WellFormed(enc) && WellFormed(mutex) && KnownEffects(enc, es)
    ensures TableOf(enc, mutex, es, effects)
  {
    hide TableOf, Exact, Known;
    effects := map[];
    EmptyTables(enc, mutex);
    for i := 0 to |es|
      invariant TableOf(enc, mutex, es[..i], effects)
    {
      var e := es[i];
      assert es[..i + 1] == es[..i] + [e];
      TableIsValid(enc, mutex, es[..i], effects);
      var r := TranslateStripsConditions(e.conditions, enc, mutex);
      var effects' := effects;
      if r.Some? {
        ExactValid(enc, mutex, e.conditions, r);
        effects' := ExtendPairs(enc.ranges, effects, enc.dictionary[e.atom], r.value);
      }
      TableStep(enc, mutex, es[..i], effects, e, r, effects');
      effects := effects';
    }
    assert es[..|es|] == es;
  }

  lemma TableIsValid(enc: Encoding, mutex: Encoding, es: seq<CondEffect>, t: Table)
    requires TableOf(enc, mutex, es, t)
    ensures ValidTable(enc.ranges, t)
  {
  }
}
