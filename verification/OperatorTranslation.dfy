/**
  Operator compilation preserves successors (translate.py:170-271): the finite-domain
  operators of a STRIPS operator are applicable exactly when it is, at most one at a
  time, and lead to the code of its successor.  A disjunct without an operator
  changes nothing.
 */
module OperatorTranslation {
  import opened Wrappers
  import opened Strips = Strips
  import opened SasTasks = SasTasks
  import opened Encodings
  import opened Conditions
  import opened ConditionTranslation
  import opened EffectTables
  import opened DeleteEffects
  import opened BuiltOperators

  // ----- One step -----

  /** An atom is added (deleted) exactly when a firing effect is about its pair. */
  lemma FiresForAtom(groups: seq<seq<Atom>>, enc: Encoding, w: World, es: seq<CondEffect>, f: Fact)
    requires IsEncoding(groups, enc) && 0 <= f.v < |groups| && 0 <= f.val < |groups[f.v]|
    ensures FiresFor(enc.dictionary, w, es, f.v, f.val) <==>
      exists i :: 0 <= i < |es| && es[i].atom == groups[f.v][f.val] && Fires(w, es[i])
  {
    assert Fact(f.v, f.val) == f;
    forall a ensures f in Pairs(enc.dictionary, a) <==> groups[f.v][f.val] == a {}
  }

  lemma FiresForInRange(groups: seq<seq<Atom>>, enc: Encoding, w: World, es: seq<CondEffect>, v: int, x: int)
    requires IsEncoding(groups, enc) && FiresFor(enc.dictionary, w, es, v, x)
    ensures 0 <= v < |groups| && 0 <= x < |groups[v]|
  {
    var i :| 0 <= i < |es| && Fires(w, es[i]) && Fact(v, x) in Pairs(enc.dictionary, es[i].atom);
    var f := Fact(v, x);
    assert f in Pairs(enc.dictionary, es[i].atom);
  }

  lemma AddedInSuccessor(groups: seq<seq<Atom>>, enc: Encoding, a: Action, w: World, v: int, x: int)
    requires IsEncoding(groups, enc) && FiresFor(enc.dictionary, w, a.addEffects, v, x)
    ensures 0 <= v < |groups| && 0 <= x < |groups[v]| && groups[v][x] in Apply(w, a)
  {
    FiresForInRange(groups, enc, w, a.addEffects, v, x);
    FiresForAtom(groups, enc, w, a.addEffects, Fact(v, x));
  }

  /** Two facts of one group cannot both be added if the successor respects the groups. */
  lemma AddedOnce(groups: seq<seq<Atom>>, enc: Encoding, a: Action, w: World, v: int, x: int, y: int)
    requires IsEncoding(groups, enc) && Respects(Apply(w, a), groups)
    requires FiresFor(enc.dictionary, w, a.addEffects, v, x) && FiresFor(enc.dictionary, w, a.addEffects, v, y)
    ensures x == y
  {
    AddedInSuccessor(groups, enc, a, w, v, x);
    AddedInSuccessor(groups, enc, a, w, v, y);
    assert AtMostOne(Apply(w, a), groups[v]) && Distinct(groups[v]);
  }

  lemma WantedOnce(groups: seq<seq<Atom>>, enc: Encoding, a: Action, s: State, w: World, v: int, x: int, y: int)
    requires IsEncoding(groups, enc) && Respects(Apply(w, a), groups)
    requires Wanted(enc, a, s, w, v, x) && Wanted(enc, a, s, w, v, y)
    ensures x == y
  {
    AddsToMeans(enc.dictionary, w, a.addEffects, v);
    if FiresFor(enc.dictionary, w, a.addEffects, v, x) && FiresFor(enc.dictionary, w, a.addEffects, v, y) {
      AddedOnce(groups, enc, a, w, v, x, y);
    }
  }

  /** `u` gives every variable the wanted value, or the old one. */
  ghost predicate WantedState(enc: Encoding, a: Action, s: State, w: World, u: State) {
    && |u| == |s|
    && (forall v, x :: 0 <= v < |u| && Wanted(enc, a, s, w, v, x) ==> u[v] == x)
    && (forall v :: 0 <= v < |u| && (forall x :: !Wanted(enc, a, s, w, v, x)) ==> u[v] == s[v])
  }

  lemma AddedFact(groups: seq<seq<Atom>>, enc: Encoding, a: Action, s: State, w: World, u: State, f: Fact)
    requires IsEncoding(groups, enc) && Respects(Apply(w, a), groups) && Encodes(enc, s, w)
    requires WantedState(enc, a, s, w, u) && InGroups(groups, f) && AddsTo(enc.dictionary, w, a.addEffects, f.v)
    ensures groups[f.v][f.val] in Apply(w, a) <==> u[f.v] == f.val
  {
    AddsToMeans(enc.dictionary, w, a.addEffects, f.v);
    var y :| FiresFor(enc.dictionary, w, a.addEffects, f.v, y);
    AddedInSuccessor(groups, enc, a, w, f.v, y);
    assert Wanted(enc, a, s, w, f.v, y);
    assert u[f.v] == y;
    if groups[f.v][f.val] in Apply(w, a) {
      assert AtMostOne(Apply(w, a), groups[f.v]) && Distinct(groups[f.v]);
    }
  }

  lemma KeptFact(groups: seq<seq<Atom>>, enc: Encoding, a: Action, s: State, w: World, u: State, f: Fact)
    requires IsEncoding(groups, enc) && Encodes(enc, s, w)
    requires WantedState(enc, a, s, w, u) && InGroups(groups, f) && !AddsTo(enc.dictionary, w, a.addEffects, f.v)
    ensures groups[f.v][f.val] in Apply(w, a) <==> u[f.v] == f.val
  {
    var v, x := f.v, f.val;
    AddsToMeans(enc.dictionary, w, a.addEffects, v);
    FiresForAtom(groups, enc, w, a.addEffects, f);
    FiresForAtom(groups, enc, w, a.delEffects, f);
    CodeHolds(groups, enc, s, w, v, x);
    assert groups[v][x] in Apply(w, a) <==> s[v] == x && !FiresFor(enc.dictionary, w, a.delEffects, v, x);
    if FiresFor(enc.dictionary, w, a.delEffects, v, s[v]) {
      assert Wanted(enc, a, s, w, v, enc.ranges[v] - 1);
      assert u[v] == enc.ranges[v] - 1;
    } else {
      assert forall y :: !Wanted(enc, a, s, w, v, y);
      assert u[v] == s[v];
    }
  }

  /** The wanted state is the code of the STRIPS successor. */
  lemma WantedEncodes(groups: seq<seq<Atom>>, enc: Encoding, a: Action, s: State, w: World, u: State)
    requires IsEncoding(groups, enc) && Respects(Apply(w, a), groups) && Encodes(enc, s, w)
    requires WantedState(enc, a, s, w, u)
    ensures Encodes(enc, u, Apply(w, a))
  {
    forall v | 0 <= v < |u| ensures 0 <= u[v] < enc.ranges[v] {
      WantedInRange(groups, enc, a, s, w, u, v);
    }
    forall p, f | f in Pairs(enc.dictionary, p) ensures p in Apply(w, a) <==> Holds(u, f) {
      assert InGroups(groups, f) && groups[f.v][f.val] == p;
      if AddsTo(enc.dictionary, w, a.addEffects, f.v) {
        AddedFact(groups, enc, a, s, w, u, f);
      } else {
        KeptFact(groups, enc, a, s, w, u, f);
      }
    }
  }

  lemma WantedInRange(groups: seq<seq<Atom>>, enc: Encoding, a: Action, s: State, w: World, u: State, v: int)
    requires IsEncoding(groups, enc) && Encodes(enc, s, w) && WantedState(enc, a, s, w, u) && 0 <= v < |u|
    ensures 0 <= u[v] < enc.ranges[v]
  {
    if x :| Wanted(enc, a, s, w, v, x) {
      if FiresFor(enc.dictionary, w, a.addEffects, v, x) {
        FiresForInRange(groups, enc, w, a.addEffects, v, x);
      }
    }
  }

  // ----- One disjunct of the precondition -----

  /** In states under `condition`, `op` leads to the code of the successor, exactly
      when the successor has one. */
  ghost predicate OperatorFor(groups: seq<seq<Atom>>, enc: Encoding, mutex: Encoding, a: Action, condition: Condition,
      op: Operator)
  {
    && ValidOperator(enc.ranges, op) && op.name == a.name && op.cost == a.cost && NoIdleEntry(op)
    && AppliesUnder(op, condition)
    && (forall s, w :: Legal(enc, mutex, s, w) && SatMap(s, condition) ==>
          (Encodes(enc, Successor(op, s), Apply(w, a)) <==> Respects(Apply(w, a), groups)))
  }

  /** In states under `condition`, the operator changes nothing unless its successor
      has no code. */
  ghost predicate IdleUnder(groups: seq<seq<Atom>>, enc: Encoding, mutex: Encoding, a: Action, condition: Condition) {
    forall s, w :: Legal(enc, mutex, s, w) && SatMap(s, condition) ==>
      (Encodes(enc, s, Apply(w, a)) <==> Respects(Apply(w, a), groups))
  }

  lemma BuiltStep(groups: seq<seq<Atom>>, enc: Encoding, mutex: Encoding, a: Action, condition: Condition, t: Table,
      op: Operator, s: State, w: World)
    requires IsEncoding(groups, enc) && EffectsOf(enc, mutex, a, t) && Legal(enc, mutex, s, w) && SatMap(s, condition)
    requires Respects(Apply(w, a), groups) && GivesResults(enc.ranges, condition, t, op)
    ensures Encodes(enc, Successor(op, s), Apply(w, a))
  {
    hide Triggered, Wanted, ValidTable;
    var u := Successor(op, s);
    forall v | 0 <= v < |u| ensures Result(t, s, v, u[v]) {
      forall x, y | Triggered(t, v, x, s) && Triggered(t, v, y, s) ensures x == y {
        WantedOnce(groups, enc, a, s, w, v, x, y);
      }
      assert OneValue(t, s, v);
    }
    ResultsAreWanted(enc, mutex, a, t, s, w, u);
    WantedEncodes(groups, enc, a, s, w, u);
  }

  lemma ResultsAreWanted(enc: Encoding, mutex: Encoding, a: Action, t: Table, s: State, w: World, u: State)
    requires EffectsOf(enc, mutex, a, t) && Legal(enc, mutex, s, w) && |u| == |s|
    requires forall v :: 0 <= v < |u| ==> Result(t, s, v, u[v])
    ensures WantedState(enc, a, s, w, u)
  {
    hide Triggered, Wanted, ValidTable;
    forall v, x | 0 <= v < |u| && Wanted(enc, a, s, w, v, x) ensures u[v] == x {
      assert Triggered(t, v, x, s) && Result(t, s, v, u[v]);
    }
    forall v | 0 <= v < |u| && (forall x :: !Wanted(enc, a, s, w, v, x)) ensures u[v] == s[v] {
      assert Result(t, s, v, u[v]);
      forall x ensures !Triggered(t, v, x, s) { assert !Wanted(enc, a, s, w, v, x); }
    }
  }

  lemma IdleStep(groups: seq<seq<Atom>>, enc: Encoding, mutex: Encoding, a: Action, condition: Condition, t: Table,
      s: State, w: World)
    requires IsEncoding(groups, enc) && EffectsOf(enc, mutex, a, t) && Legal(enc, mutex, s, w) && SatMap(s, condition)
    requires Respects(Apply(w, a), groups) && ChangesNothing(enc.ranges, condition, t)
    ensures Encodes(enc, s, Apply(w, a))
  {
    hide Triggered, Wanted, ValidTable;
    forall v | 0 <= v < |s| ensures Result(t, s, v, s[v]) {
      forall x | Triggered(t, v, x, s) ensures x == s[v] {}
    }
    ResultsAreWanted(enc, mutex, a, t, s, w, s);
    WantedEncodes(groups, enc, a, s, w, s);
  }

  /** translate_strips_operator_aux */
  method TranslateStripsOperatorAux(ghost groups: seq<seq<Atom>>, a: Action, enc: Encoding, mutex: Encoding,
      condition: Condition) returns (r: Option<Operator>)
    requires IsEncoding(groups, enc) && WellFormed(mutex) && KnownAction(enc, a) && Partial(enc.dictionary)
    requires ValidMap(enc.ranges, condition) && a.cost >= 0
    ensures r.Some? ==> OperatorFor(groups, enc, mutex, a, condition, r.value)
    ensures r.None? ==> IdleUnder(groups, enc, mutex, a, condition)
  {
    EncodingIsWellFormed(groups, enc);
    var effects := CollectEffects(a, enc, mutex);
    r := BuildSasOperator(a.name, condition, effects, a.cost, enc.ranges);
    if r.Some? {
      forall s, w | Legal(enc, mutex, s, w) && SatMap(s, condition)
        ensures Encodes(enc, Successor(r.value, s), Apply(w, a)) <==> Respects(Apply(w, a), groups)
      {
        if Respects(Apply(w, a), groups) {
          BuiltStep(groups, enc, mutex, a, condition, effects, r.value, s, w);
        } else {
          NoCode(groups, enc, Successor(r.value, s), Apply(w, a));
        }
      }
    } else {
      forall s, w | Legal(enc, mutex, s, w) && SatMap(s, condition)
        ensures Encodes(enc, s, Apply(w, a)) <==> Respects(Apply(w, a), groups)
      {
        if Respects(Apply(w, a), groups) {
          IdleStep(groups, enc, mutex, a, condition, effects, s, w);
        } else {
          NoCode(groups, enc, s, Apply(w, a));
        }
      }
    }
  }

  lemma NoCode(groups: seq<seq<Atom>>, enc: Encoding, s: State, w: World)
    requires IsEncoding(groups, enc) && !Respects(w, groups)
    ensures !Encodes(enc, s, w)
  {
    if Encodes(enc, s, w) { EncodesRespects(groups, enc, s, w); }
  }

  // ----- All disjuncts -----

  ghost predicate AnyApplicable(ops: seq<Operator>, s: State) {
    exists k :: 0 <= k < |ops| && Applicable(ops[k], s)
  }

  /** One operator of the list at most is applicable. */
  ghost predicate OneApplicable(ops: seq<Operator>, s: State) {
    forall j, k :: 0 <= j < |ops| && 0 <= k < |ops| && Applicable(ops[j], s) && Applicable(ops[k], s) ==> j == k
  }

  /** What the operators do in a state `s` that encodes `w`. */
  ghost predicate StepCompiled(groups: seq<seq<Atom>>, enc: Encoding, a: Action, ops: seq<Operator>, s: State,
      w: World) {
    && OneApplicable(ops, s)
    && (AnyApplicable(ops, s) ==> AllTrue(w, a.precondition))
    && (forall k :: 0 <= k < |ops| && Applicable(ops[k], s) ==>
          (Encodes(enc, Successor(ops[k], s), Apply(w, a)) <==> Respects(Apply(w, a), groups)))
    && (AllTrue(w, a.precondition) && !AnyApplicable(ops, s) ==>
          (Encodes(enc, s, Apply(w, a)) <==> Respects(Apply(w, a), groups)))
  }

  /** The operators are a faithful translation of `a`. */
  ghost predicate Compiled(groups: seq<seq<Atom>>, enc: Encoding, mutex: Encoding, a: Action, ops: seq<Operator>) {
    && (forall k :: 0 <= k < |ops| ==>
          ValidOperator(enc.ranges, ops[k]) && ops[k].name == a.name && ops[k].cost == a.cost && NoIdleEntry(ops[k]))
    && (forall s, w :: Legal(enc, mutex, s, w) ==> StepCompiled(groups, enc, a, ops, s, w))
  }

  /** `ops[k]` translates disjunct `source[k]`; the other disjuncts are idle. */
  ghost predicate FromDisjuncts(groups: seq<seq<Atom>>, enc: Encoding, mutex: Encoding, a: Action,
      conds: seq<Condition>,
      ops: seq<Operator>, source: seq<int>)
  {
    && |source| == |ops| && (forall j, k :: 0 <= j < k < |source| ==> source[j] < source[k])
    && (forall k :: 0 <= k < |ops| ==>
          0 <= source[k] < |conds| && OperatorFor(groups, enc, mutex, a, conds[source[k]], ops[k]))
    && (forall i :: 0 <= i < |conds| ==> i in source || IdleUnder(groups, enc, mutex, a, conds[i]))
  }

  lemma AddOperator(groups: seq<seq<Atom>>, enc: Encoding, mutex: Encoding, a: Action, conds: seq<Condition>,
      ops: seq<Operator>, source: seq<int>, c: Condition, op: Operator)
    requires FromDisjuncts(groups, enc, mutex, a, conds, ops, source) && OperatorFor(groups, enc, mutex, a, c, op)
    ensures FromDisjuncts(groups, enc, mutex, a, conds + [c], ops + [op], source + [|conds|])
  {
    hide OperatorFor, IdleUnder;
    var source' := source + [|conds|];
    assert source'[|source|] == |conds|;
    forall i | 0 <= i < |conds| && i in source ensures i in source' {}
  }

  lemma AddIdle(groups: seq<seq<Atom>>, enc: Encoding, mutex: Encoding, a: Action, conds: seq<Condition>,
      ops: seq<Operator>, source: seq<int>, c: Condition)
    requires FromDisjuncts(groups, enc, mutex, a, conds, ops, source) && IdleUnder(groups, enc, mutex, a, c)
    ensures FromDisjuncts(groups, enc, mutex, a, conds + [c], ops, source)
  {
    hide OperatorFor, IdleUnder;
  }

  lemma ApplicableDisjunct(groups: seq<seq<Atom>>, enc: Encoding, mutex: Encoding, a: Action, conds: seq<Condition>,
      ops: seq<Operator>, source: seq<int>, s: State, k: int)
    requires FromDisjuncts(groups, enc, mutex, a, conds, ops, source) && 0 <= k < |ops|
    ensures 0 <= source[k] < |conds| && (Applicable(ops[k], s) <==> SatMap(s, conds[source[k]]))
  {
    hide Applicable, SatMap;
    assert OperatorFor(groups, enc, mutex, a, conds[source[k]], ops[k]);
  }

  lemma DisjunctsCompile(groups: seq<seq<Atom>>, enc: Encoding, mutex: Encoding, a: Action, conds: seq<Condition>,
      ops: seq<Operator>, source: seq<int>, s: State, w: World)
    requires FromDisjuncts(groups, enc, mutex, a, conds, ops, source) && Exact(enc, mutex, a.precondition, Some(conds))
    requires KnownAction(enc, a) && Legal(enc, mutex, s, w)
    ensures StepCompiled(groups, enc, a, ops, s, w)
  {
    hide Applicable, SatMap, Encodes, ValidOperator, AllTrue, Respects;
    assert Settled(enc, w, a.precondition);
    forall k | 0 <= k < |ops| && Applicable(ops[k], s)
      ensures Picks(s, conds)
      ensures Encodes(enc, Successor(ops[k], s), Apply(w, a)) <==> Respects(Apply(w, a), groups)
    {
      ApplicableDisjunct(groups, enc, mutex, a, conds, ops, source, s, k);
      assert OperatorFor(groups, enc, mutex, a, conds[source[k]], ops[k]);
    }
    forall j, k | 0 <= j < |ops| && 0 <= k < |ops| && Applicable(ops[j], s) && Applicable(ops[k], s) ensures j == k {
      ApplicableDisjunct(groups, enc, mutex, a, conds, ops, source, s, j);
      ApplicableDisjunct(groups, enc, mutex, a, conds, ops, source, s, k);
    }
    if AllTrue(w, a.precondition) && !AnyApplicable(ops, s) {
      var i :| 0 <= i < |conds| && SatMap(s, conds[i]);
      if i in source {
        var k :| 0 <= k < |source| && source[k] == i;
        ApplicableDisjunct(groups, enc, mutex, a, conds, ops, source, s, k);
        assert false;
      }
      assert IdleUnder(groups, enc, mutex, a, conds[i]);
    }
  }

  /** translate_strips_operator */
  method TranslateStripsOperator(ghost groups: seq<seq<Atom>>, a: Action, enc: Encoding, mutex: Encoding)
      returns (ops: seq<Operator>)
    requires IsEncoding(groups, enc) && WellFormed(mutex) && KnownAction(enc, a) && Partial(enc.dictionary)
    requires a.cost >= 0
    ensures Compiled(groups, enc, mutex, a, ops)
  {
    ops := [];
    EncodingIsWellFormed(groups, enc);
    var conditions := TranslateStripsConditions(a.precondition, enc, mutex);
    if conditions.None? {
      ImpossibleCompiled(groups, enc, mutex, a);
      return;
    }
    ghost var source: seq<int> := [];
    assert FromDisjuncts(groups, enc, mutex, a, [], ops, source);
    ExactValid(enc, mutex, a.precondition, conditions);
    hide FromDisjuncts, OperatorFor, IdleUnder, Exact, IsEncoding, WellFormed, KnownAction;
    for i := 0 to |conditions.value|
      invariant FromDisjuncts(groups, enc, mutex, a, conditions.value[..i], ops, source)
    {
      var op := TranslateStripsOperatorAux(groups, a, enc, mutex, conditions.value[i]);
      assert conditions.value[..i + 1] == conditions.value[..i] + [conditions.value[i]];
      if op.Some? {
        AddOperator(groups, enc, mutex, a, conditions.value[..i], ops, source, conditions.value[i], op.value);
        ops := ops + [op.value];
        source := source + [|conditions.value[..i]|];
      } else {
        AddIdle(groups, enc, mutex, a, conditions.value[..i], ops, source, conditions.value[i]);
      }
    }
    assert conditions.value[..|conditions.value|] == conditions.value;
    AllCompiled(groups, enc, mutex, a, conditions.value, ops, source);
  }

  lemma ImpossibleCompiled(groups: seq<seq<Atom>>, enc: Encoding, mutex: Encoding, a: Action)
    requires Exact(enc, mutex, a.precondition, None) && KnownAction(enc, a)
    ensures Compiled(groups, enc, mutex, a, [])
  {
    forall s, w | Legal(enc, mutex, s, w) ensures StepCompiled(groups, enc, a, [], s, w) {
      assert Settled(enc, w, a.precondition);
    }
  }

  lemma AllCompiled(groups: seq<seq<Atom>>, enc: Encoding, mutex: Encoding, a: Action, conds: seq<Condition>,
      ops: seq<Operator>, source: seq<int>)
    requires FromDisjuncts(groups, enc, mutex, a, conds, ops, source) && Exact(enc, mutex, a.precondition, Some(conds))
    requires KnownAction(enc, a)
    ensures Compiled(groups, enc, mutex, a, ops)
  {
    hide ValidOperator, NoIdleEntry, StepCompiled, Exact, KnownAction, AppliesUnder, Encodes, Respects;
    forall s, w | Legal(enc, mutex, s, w) ensures StepCompiled(groups, enc, a, ops, s, w) {
      DisjunctsCompile(groups, enc, mutex, a, conds, ops, source, s, w);
    }
  }

  // ----- In terms of decoded states -----

  lemma DecodedIsLegal(groups: seq<seq<Atom>>, enc: Encoding, mutexGroups: seq<seq<Atom>>, mutex: Encoding, s: State)
    requires IsEncoding(groups, enc) && Partial(enc.dictionary) && IsEncoding(mutexGroups, mutex)
    requires ValidState(enc.ranges, s) && Respects(Decode(enc, s), mutexGroups)
    ensures Legal(enc, mutex, s, Decode(enc, s))
  {
    DecodeEncodes(groups, enc, s);
    EncodeEncodes(mutexGroups, mutex, Decode(enc, s));
  }

  lemma DecodesIffEncodes(groups: seq<seq<Atom>>, enc: Encoding, a: Action, s: State, u: State)
    requires IsEncoding(groups, enc) && Partial(enc.dictionary) && KnownAction(enc, a)
    requires ValidState(enc.ranges, s) && ValidState(enc.ranges, u)
    ensures Encodes(enc, u, Apply(Decode(enc, s), a)) <==> Decode(enc, u) == Apply(Decode(enc, s), a)
  {
    var w := Apply(Decode(enc, s), a);
    DecodeEncodes(groups, enc, u);
    if Encodes(enc, u, w) {
      DecodeMeans(enc, u, w);
      forall p | p in w ensures p in enc.dictionary {
        if Adds(Decode(enc, s), a, p) {
          var i :| 0 <= i < |a.addEffects| && a.addEffects[i].atom == p && Fires(Decode(enc, s), a.addEffects[i]);
          assert KnownEffects(enc, a.addEffects);
        }
      }
      assert w * enc.dictionary.Keys == w;
    }
  }

  /** Operator compilation preserves successors: from any valid state that decodes to
      a state without mutex violations, an applicable operator leads to the state that
      decodes to the STRIPS successor, exactly when that respects the groups. */
  lemma SuccessorDecodes(groups: seq<seq<Atom>>, enc: Encoding, mutexGroups: seq<seq<Atom>>, mutex: Encoding, a: Action,
      ops: seq<Operator>, k: int, s: State)
    requires IsEncoding(groups, enc) && Partial(enc.dictionary) && IsEncoding(mutexGroups, mutex)
    requires KnownAction(enc, a) && Compiled(groups, enc, mutex, a, ops)
    requires ValidState(enc.ranges, s) && Respects(Decode(enc, s), mutexGroups)
    requires 0 <= k < |ops| && Applicable(ops[k], s)
    ensures AllTrue(Decode(enc, s), a.precondition)
    ensures Decode(enc, Successor(ops[k], s)) == Apply(Decode(enc, s), a) <==>
      Respects(Apply(Decode(enc, s), a), groups)
  {
    hide IsEncoding, KnownAction, Encodes, Respects, Partial;
    DecodedIsLegal(groups, enc, mutexGroups, mutex, s);
    assert StepCompiled(groups, enc, a, ops, s, Decode(enc, s));
    assert ValidOperator(enc.ranges, ops[k]);
    SuccessorValid(enc.ranges, ops[k], s);
    DecodesIffEncodes(groups, enc, a, s, Successor(ops[k], s));
  }

  /** An operator is dropped only if it changes nothing. */
  lemma DroppedChangesNothing(groups: seq<seq<Atom>>, enc: Encoding, mutexGroups: seq<seq<Atom>>, mutex: Encoding,
      a: Action, ops: seq<Operator>, s: State)
    requires IsEncoding(groups, enc) && Partial(enc.dictionary) && IsEncoding(mutexGroups, mutex)
    requires KnownAction(enc, a) && Compiled(groups, enc, mutex, a, ops)
    requires ValidState(enc.ranges, s) && Respects(Decode(enc, s), mutexGroups)
    requires AllTrue(Decode(enc, s), a.precondition) && !AnyApplicable(ops, s)
    ensures Apply(Decode(enc, s), a) == Decode(enc, s) <==> Respects(Apply(Decode(enc, s), a), groups)
  {
    hide IsEncoding, KnownAction, Encodes, Respects, Partial, AllTrue;
    DecodedIsLegal(groups, enc, mutexGroups, mutex, s);
    assert StepCompiled(groups, enc, a, ops, s, Decode(enc, s));
    DecodesIffEncodes(groups, enc, a, s, s);
  }
}
