/**
  Rules with their indices (build_model.py:55-176).  A rule remembers the atoms that
  matched each of its conditions: a join by the values of the common numbered
  variables, a product as lists.  Firing derives exactly what the new atom and the
  remembered atoms derive together.
 */
module BuildRules {
  import opened Strips
  import opened Datalog
  import opened Queues
  import opened RuleFiring

  /** What the constructors and `validate` ask of the three types of rules. */
  predicate Runnable(r: Rule) {
    && Numbered(r)
    && match r.kind
       case Join => |r.conditions| == 2
       case Product => |r.conditions| >= 2 && DisjointConditions(r.conditions)
       case Project => |r.conditions| == 1
  }

  /** One atom for each condition: `a` for condition `i`, remembered ones for the others. */
  ghost predicate TupleWith(seen: seq<seq<Atom>>, i: nat, a: Atom, t: seq<Atom>) {
    |t| == |seen| && i < |t| && t[i] == a && forall j :: 0 <= j < |t| && j != i ==> t[j] in seen[j]
  }

  ghost predicate FiredBy(r: Rule, seen: seq<seq<Atom>>, i: nat, a: Atom, e: Atom) {
    exists t :: TupleWith(seen, i, a, t) && Derives(r, t, e)
  }

  function Listed(index: map<seq<string>, seq<Atom>>, key: seq<string>): seq<Atom> {
    if key in index then index[key] else []
  }

  /** The index lists the remembered atoms by their keys. */
  ghost predicate KeyIndex(index: map<seq<string>, seq<Atom>>, positions: seq<nat>, seen: seq<Atom>) {
    forall key, a :: a in Listed(index, key) <==> a in seen && KeyOf(positions, a) == key
  }

  lemma KeyIndexStep(index: map<seq<string>, seq<Atom>>, positions: seq<nat>, seen: seq<Atom>, a: Atom)
    requires KeyIndex(index, positions, seen)
    ensures KeyIndex(index[KeyOf(positions, a) := Listed(index, KeyOf(positions, a)) + [a]], positions, seen + [a])
  {
    var key := KeyOf(positions, a);
    var next := index[key := Listed(index, key) + [a]];
    forall k, b ensures b in Listed(next, k) <==> b in seen + [a] && KeyOf(positions, b) == k {
      assert b in Listed(index, k) <==> b in seen && KeyOf(positions, b) == k;
    }
  }

  function CountEmpty(lists: seq<seq<Atom>>): (n: nat)
    ensures n == 0 <==> forall i :: 0 <= i < |lists| ==> lists[i] != []
    ensures n <= |lists|
  {
    if lists == [] then 0
    else CountEmpty(lists[..|lists| - 1]) + if lists[|lists| - 1] == [] then 1 else 0
  }

  lemma {:induction false} CountEmptyUpdate(lists: seq<seq<Atom>>, i: nat, l: seq<Atom>)
    requires i < |lists| && l != []
    ensures CountEmpty(lists[i := l]) == CountEmpty(lists) - if lists[i] == [] then 1 else 0
  {
    var n := |lists| - 1;
    if i < n {
      assert lists[i := l][..n] == lists[..n][i := l];
      CountEmptyUpdate(lists[..n], i, l);
    } else {
      assert lists[i := l][..n] == lists[..n];
    }
  }

  class BuildRule {
    const rule: Rule
    const leftPositions: seq<nat>
    const rightPositions: seq<nat>
    var leftByKey: map<seq<string>, seq<Atom>>
    var rightByKey: map<seq<string>, seq<Atom>>
    var atomsByIndex: seq<seq<Atom>>
    var emptyAtomListNo: int
    ghost var seen: seq<seq<Atom>>

    ghost predicate Valid()
      reads this
    {
      && Runnable(rule) && |seen| == |rule.conditions|
      && (forall j, a :: 0 <= j < |seen| && a in seen[j] ==> |a.args| == |rule.conditions[j].args|)
      && (rule.kind == Join ==>
            && KeyPositions(rule.conditions[0].args, rule.conditions[1].args, leftPositions, rightPositions)
            && KeyIndex(leftByKey, leftPositions, seen[0]) && KeyIndex(rightByKey, rightPositions, seen[1]))
      && (rule.kind == Product ==> atomsByIndex == seen && emptyAtomListNo == CountEmpty(seen))
    }

    constructor (rule: Rule)
      requires Runnable(rule)
      ensures Valid() && this.rule == rule && forall j :: 0 <= j < |seen| ==> seen[j] == []
    {
      this.rule := rule;
      var lp: seq<nat>, rp: seq<nat> := [], [];
      if rule.kind == Join {
        NumbersBounded(rule);
        lp, rp := CommonVarPositions(rule.conditions[0].args, rule.conditions[1].args, |rule.effect.args|);
      }
      leftPositions, rightPositions := lp, rp;
      leftByKey, rightByKey := map[], map[];
      atomsByIndex := seq(|rule.conditions|, _ => []);
      emptyAtomListNo := |rule.conditions|;
      seen := seq(|rule.conditions|, _ => []);
      new;
      AllEmpty(seen);
    }

    /** Remember the atom for condition `i`. */
    method UpdateIndex(a: Atom, i: nat)
      requires Valid() && i < |rule.conditions| && |a.args| == |rule.conditions[i].args|
      modifies this
      ensures Valid() && seen == old(seen)[i := old(seen)[i] + [a]]
    {
      assert rule.kind == Join ==> |rule.conditions| == 2;
      hide KeyIndex, KeyPositions, Runnable, KeyOf;
      match rule.kind {
        case Join =>
          if i == 0 {
            KeyIndexStep(leftByKey, leftPositions, seen[0], a);
            var key := KeyOf(leftPositions, a);
            leftByKey := leftByKey[key := Listed(leftByKey, key) + [a]];
          } else {
            KeyIndexStep(rightByKey, rightPositions, seen[1], a);
            var key := KeyOf(rightPositions, a);
            rightByKey := rightByKey[key := Listed(rightByKey, key) + [a]];
          }
        case Product =>
          CountEmptyUpdate(seen, i, seen[i] + [a]);
          if atomsByIndex[i] == [] { emptyAtomListNo := emptyAtomListNo - 1; }
          atomsByIndex := atomsByIndex[i := atomsByIndex[i] + [a]];
        case Project =>
      }
      seen := seen[i := seen[i] + [a]];
    }

    /** Bind the other conditions one after the other and enqueue the effect. */
    method Emit(ghost env: Env, i: nat, t: seq<Atom>, args: seq<Arg>, queue: Queue) returns (result: seq<Arg>)
      requires Numbered(rule) && i < |rule.conditions| && queue.Valid()
      requires BindsAll(env, rule, t) && Filled(rule, env, VarsOf(rule.conditions[i].args), args)
      modifies queue
      ensures queue.Valid() && queue.queuePos == old(queue.queuePos)
      ensures Grown(old(queue.queue), queue.queue)
      ensures queue.enqueued == old(queue.enqueued) + {Instance(env, rule.effect)}
      ensures Filled(rule, env, VarsOf(rule.conditions[i].args), result)
    {
      hide Numbered;
      result := args;
      ghost var own := VarsOf(rule.conditions[i].args);
      for j := 0 to |rule.conditions|
        invariant unchanged(queue)
        invariant Filled(rule, env, own + Variables(rule.conditions[..j]), result)
      {
        VariablesAppend(rule.conditions, j);
        ghost var before := result;
        if j != i {
          assert Binds(env, rule.conditions[j], t[j]);
          result := Assign(rule, j, t[j], result);
        }
        FilledSubset(rule, env, own + Variables(rule.conditions[..j]) + VarsOf(rule.conditions[j].args),
          own + Variables(rule.conditions[..j + 1]), result);
      }
      assert rule.conditions[..|rule.conditions|] == rule.conditions;
      EffectVariablesBound(rule);
      FilledIsEffect(rule, env, own + Variables(rule.conditions), result);
      FilledSubset(rule, env, own + Variables(rule.conditions), own, result);
      queue.Push(Atom(rule.effect.symbol, Ground(result)));
    }

    /** Enqueue the effects of the tuples, reusing one list of effect arguments. */
    method EmitAll(i: nat, a: Atom, ts: seq<seq<Atom>>, queue: Queue)
      requires Numbered(rule) && i < |rule.conditions| && |a.args| == |rule.conditions[i].args| && queue.Valid()
      requires forall m :: 0 <= m < |ts| ==> |ts[m]| == |rule.conditions| && ts[m][i] == a && Combines(rule, ts[m])
      modifies queue
      ensures queue.Valid() && queue.queuePos == old(queue.queuePos)
      ensures Grown(old(queue.queue), queue.queue)
      ensures forall e :: e in queue.enqueued <==> e in old(queue.enqueued) || DerivedBy(rule, ts, e)
    {
      hide Numbered, BindsAll, Filled, Grown;
      assert Grown(queue.queue, queue.queue) by { GrownSame(queue.queue); }
      var args := Assign(rule, i, a, rule.effect.args);
      ReadyStart(rule, i, a, args);
      for m := 0 to |ts|
        invariant queue.Valid() && queue.queuePos == old(queue.queuePos) && Grown(old(queue.queue), queue.queue)
        invariant Ready(rule, i, a, args)
        invariant forall e :: e in queue.enqueued <==> e in old(queue.enqueued) || DerivedBy(rule, ts[..m], e)
      {
        ghost var env: Env :| BindsAll(env, rule, ts[m]);
        ReadyFor(rule, i, a, ts[m], env, args);
        ghost var before := queue.queue;
        args := Emit(env, i, ts[m], args, queue);
        GrownTwice(old(queue.queue), before, queue.queue);
        ReadyAgain(rule, i, a, ts[m], env, args);
        DerivedNext(rule, ts, m, env);
      }
      assert ts[..|ts|] == ts;
    }

    /** The tuples that a new atom for condition `i` completes. */
    method Tuples(a: Atom, i: nat) returns (ts: seq<seq<Atom>>)
      requires Valid() && i < |rule.conditions| && a in seen[i]
      ensures forall t :: t in ts <==> TupleWith(seen, i, a, t) && Combines(rule, t)
    {
      match rule.kind {
        case Join =>
          if i == 0 {
            var key := KeyOf(leftPositions, a);
            ts := PairUp(a, Listed(rightByKey, key), true);
          } else {
            var key := KeyOf(rightPositions, a);
            ts := PairUp(a, Listed(leftByKey, key), false);
          }
          JoinTuples(rule, seen, i, a, leftPositions, rightPositions, leftByKey, rightByKey);
        case Product =>
          if emptyAtomListNo != 0 {
            NoTuples(seen, i, a);
            ts := [];
          } else {
            ts := Choices(atomsByIndex[i := [a]]);
            AllTuples(rule, seen, i, a);
          }
        case Project =>
          ts := [[a]];
          OneTuple(rule, seen, a);
      }
    }

    /** Enqueue exactly what the new atom derives together with the remembered ones. */
    method Fire(a: Atom, i: nat, queue: Queue)
      requires Valid() && i < |rule.conditions| && a in seen[i] && queue.Valid()
      modifies queue
      ensures queue.Valid() && queue.queuePos == old(queue.queuePos)
      ensures Grown(old(queue.queue), queue.queue)
      ensures forall e :: e in queue.enqueued <==> e in old(queue.enqueued) || FiredBy(rule, seen, i, a, e)
    {
      hide TupleWith, Combines, KeyIndex, KeyPositions, FiredBy, DerivedBy;
      var ts := Tuples(a, i);
      forall m | 0 <= m < |ts| ensures |ts[m]| == |rule.conditions| && ts[m][i] == a && Combines(rule, ts[m]) {
        assert ts[m] in ts;
        TupleShape(seen, i, a, ts[m]);
      }
      assert |a.args| == |rule.conditions[i].args|;
      EmitAll(i, a, ts, queue);
      forall e ensures DerivedBy(rule, ts, e) <==> FiredBy(rule, seen, i, a, e) {
        TuplesFire(rule, seen, i, a, ts, e);
      }
    }
  }

  // ----- Lists of tuples -----

  /** Some tuple of the list derives `e`. */
  ghost predicate DerivedBy(r: Rule, ts: seq<seq<Atom>>, e: Atom) {
    exists m :: 0 <= m < |ts| && Derives(r, ts[m], e)
  }

  /** The effect arguments hold the values of `a`, whatever the other atoms are. */
  ghost predicate Ready(r: Rule, i: nat, a: Atom, args: seq<Arg>)
    requires i < |r.conditions|
  {
    forall env: Env :: Binds(env, r.conditions[i], a) ==> Filled(r, env, VarsOf(r.conditions[i].args), args)
  }

  lemma ReadyStart(r: Rule, i: nat, a: Atom, args: seq<Arg>)
    requires i < |r.conditions|
    requires forall env, vs :: Binds(env, r.conditions[i], a) && Filled(r, env, vs, r.effect.args) ==>
      Filled(r, env, vs + VarsOf(r.conditions[i].args), args)
    ensures Ready(r, i, a, args)
  {
    forall env: Env | Binds(env, r.conditions[i], a) ensures Filled(r, env, VarsOf(r.conditions[i].args), args) {
      FilledStart(r, env);
      assert {} + VarsOf(r.conditions[i].args) == VarsOf(r.conditions[i].args);
    }
  }

  lemma ReadyFor(r: Rule, i: nat, a: Atom, t: seq<Atom>, env: Env, args: seq<Arg>)
    requires i < |r.conditions| && Ready(r, i, a, args) && BindsAll(env, r, t) && t[i] == a
    ensures Filled(r, env, VarsOf(r.conditions[i].args), args)
  {
    assert Binds(env, r.conditions[i], t[i]);
  }

  lemma ReadyAgain(r: Rule, i: nat, a: Atom, t: seq<Atom>, env: Env, args: seq<Arg>)
    requires i < |r.conditions| && BindsAll(env, r, t) && t[i] == a
    requires Filled(r, env, VarsOf(r.conditions[i].args), args)
    ensures Ready(r, i, a, args)
  {
    var c := r.conditions[i];
    assert Binds(env, c, t[i]);
    forall e: Env | Binds(e, c, a) ensures Filled(r, e, VarsOf(c.args), args) {
      forall x: Arg | x in VarsOf(c.args) && x.Num? ensures Value(env, x) == Value(e, x) {
        var k :| 0 <= k < |c.args| && c.args[k] == x;
      }
      FilledAgrees(r, env, e, VarsOf(c.args), args);
    }
  }

  lemma DerivedNext(r: Rule, ts: seq<seq<Atom>>, m: nat, env: Env)
    requires Numbered(r) && m < |ts| && BindsAll(env, r, ts[m])
    ensures forall e :: DerivedBy(r, ts[..m + 1], e) <==> DerivedBy(r, ts[..m], e) || e == Instance(env, r.effect)
  {
    hide Numbered, BindsAll;
    forall e ensures DerivedBy(r, ts[..m + 1], e) <==> DerivedBy(r, ts[..m], e) || e == Instance(env, r.effect) {
      if DerivedBy(r, ts[..m], e) {
        var l :| 0 <= l < m && Derives(r, ts[..m][l], e);
        assert Derives(r, ts[..m + 1][l], e);
      }
      if e == Instance(env, r.effect) { assert Derives(r, ts[..m + 1][m], e); }
      if DerivedBy(r, ts[..m + 1], e) {
        var l :| 0 <= l < m + 1 && Derives(r, ts[..m + 1][l], e);
        if l < m {
          assert Derives(r, ts[..m][l], e);
        } else {
          var f: Env :| BindsAll(f, r, ts[m]) && e == Instance(f, r.effect);
          EffectDetermined(r, ts[m], env, f);
        }
      }
    }
  }

  lemma TupleShape(seen: seq<seq<Atom>>, i: nat, a: Atom, t: seq<Atom>)
    requires TupleWith(seen, i, a, t)
    ensures |t| == |seen| && i < |t| && t[i] == a
  {
  }

  lemma TuplesFire(r: Rule, seen: seq<seq<Atom>>, i: nat, a: Atom, ts: seq<seq<Atom>>, e: Atom)
    requires forall t :: t in ts <==> TupleWith(seen, i, a, t) && Combines(r, t)
    ensures DerivedBy(r, ts, e) <==> FiredBy(r, seen, i, a, e)
  {
    hide TupleWith, BindsAll;
    if DerivedBy(r, ts, e) {
      var m :| 0 <= m < |ts| && Derives(r, ts[m], e);
      assert ts[m] in ts;
    }
    if FiredBy(r, seen, i, a, e) {
      var t :| TupleWith(seen, i, a, t) && Derives(r, t, e);
      assert Combines(r, t) by { var env: Env :| BindsAll(env, r, t) && e == Instance(env, r.effect); }
      var m :| 0 <= m < |ts| && ts[m] == t;
    }
  }

  function PairUp(a: Atom, bs: seq<Atom>, first: bool): (r: seq<seq<Atom>>)
    ensures |r| == |bs| && forall m :: 0 <= m < |r| ==> r[m] == if first then [a, bs[m]] else [bs[m], a]
  {
    seq(|bs|, m requires 0 <= m < |bs| => if first then [a, bs[m]] else [bs[m], a])
  }

  lemma InPairUp(a: Atom, bs: seq<Atom>, first: bool, t: seq<Atom>)
    ensures t in PairUp(a, bs, first) <==> |t| == 2 && t[if first then 0 else 1] == a && t[if first then 1 else 0] in bs
  {
    if |t| == 2 && t[if first then 0 else 1] == a && t[if first then 1 else 0] in bs {
      var m :| 0 <= m < |bs| && bs[m] == t[if first then 1 else 0];
      assert PairUp(a, bs, first)[m] == t;
    }
  }

  ghost predicate Remembers(r: Rule, seen: seq<seq<Atom>>) {
    |seen| == |r.conditions| && forall j, a :: 0 <= j < |seen| && a in seen[j] ==> |a.args| == |r.conditions[j].args|
  }

  lemma JoinTuples(r: Rule, seen: seq<seq<Atom>>, i: nat, a: Atom, lp: seq<nat>, rp: seq<nat>,
      lk: map<seq<string>, seq<Atom>>, rk: map<seq<string>, seq<Atom>>)
    requires Runnable(r) && r.kind == Join && Remembers(r, seen) && i < 2 && a in seen[i]
    requires KeyPositions(r.conditions[0].args, r.conditions[1].args, lp, rp)
    requires KeyIndex(lk, lp, seen[0]) && KeyIndex(rk, rp, seen[1])
    ensures i == 0 ==> forall t :: t in PairUp(a, Listed(rk, KeyOf(lp, a)), true) <==> TupleWith(seen, i, a, t) && Combines(r, t)
    ensures i == 1 ==> forall t :: t in PairUp(a, Listed(lk, KeyOf(rp, a)), false) <==> TupleWith(seen, i, a, t) && Combines(r, t)
  {
    assert |r.conditions| == 2;
    hide Runnable, KeyPositions, Combines;
    forall t: seq<Atom> | TupleWith(seen, i, a, t) ensures Combines(r, t) <==> KeyOf(lp, t[0]) == KeyOf(rp, t[1]) {
      JoinCombines(r, seen, i, a, t, lp, rp);
    }
    if i == 0 {
      forall t ensures t in PairUp(a, Listed(rk, KeyOf(lp, a)), true) <==> TupleWith(seen, i, a, t) && Combines(r, t) {
        InPairUp(a, Listed(rk, KeyOf(lp, a)), true, t);
      }
    } else {
      forall t ensures t in PairUp(a, Listed(lk, KeyOf(rp, a)), false) <==> TupleWith(seen, i, a, t) && Combines(r, t) {
        InPairUp(a, Listed(lk, KeyOf(rp, a)), false, t);
      }
    }
  }

  lemma JoinCombines(r: Rule, seen: seq<seq<Atom>>, i: nat, a: Atom, t: seq<Atom>, lp: seq<nat>, rp: seq<nat>)
    requires Runnable(r) && r.kind == Join && Remembers(r, seen) && i < 2 && a in seen[i] && TupleWith(seen, i, a, t)
    requires KeyPositions(r.conditions[0].args, r.conditions[1].args, lp, rp)
    ensures Combines(r, t) <==> KeyOf(lp, t[0]) == KeyOf(rp, t[1])
  {
    assert SameLengths(r, t);
    KeysCombine(r, t, lp, rp);
  }

  lemma NoTuples(seen: seq<seq<Atom>>, i: nat, a: Atom)
    requires i < |seen| && a in seen[i] && CountEmpty(seen) != 0
    ensures forall t :: !TupleWith(seen, i, a, t)
  {
    var j :| 0 <= j < |seen| && seen[j] == [];
    assert j != i;
  }

  /** `itertools.product(*lists)` */
  function Choices(lists: seq<seq<Atom>>): seq<seq<Atom>> {
    if lists == [] then [[]] else AppendEach(Choices(lists[..|lists| - 1]), lists[|lists| - 1])
  }

  function AppendEach(heads: seq<seq<Atom>>, l: seq<Atom>): seq<seq<Atom>> {
    if heads == [] then [] else AppendEach(heads[..|heads| - 1], l) + AppendTo(heads[|heads| - 1], l)
  }

  function AppendTo(head: seq<Atom>, l: seq<Atom>): (r: seq<seq<Atom>>)
    ensures |r| == |l| && forall k :: 0 <= k < |r| ==> r[k] == head + [l[k]]
  {
    seq(|l|, k requires 0 <= k < |l| => head + [l[k]])
  }

  ghost predicate Chosen(lists: seq<seq<Atom>>, t: seq<Atom>) {
    |t| == |lists| && forall j :: 0 <= j < |t| ==> t[j] in lists[j]
  }

  lemma InAppendTo(head: seq<Atom>, l: seq<Atom>, t: seq<Atom>)
    ensures t in AppendTo(head, l) <==> t != [] && t[..|t| - 1] == head && t[|t| - 1] in l
  {
    if t != [] && t[..|t| - 1] == head && t[|t| - 1] in l {
      var k :| 0 <= k < |l| && l[k] == t[|t| - 1];
      assert AppendTo(head, l)[k] == t;
    }
  }

  lemma {:induction false} InAppendEach(heads: seq<seq<Atom>>, l: seq<Atom>, t: seq<Atom>)
    ensures t in AppendEach(heads, l) <==> t != [] && t[..|t| - 1] in heads && t[|t| - 1] in l
  {
    if heads != [] {
      var front, last := heads[..|heads| - 1], heads[|heads| - 1];
      InAppendEach(front, l, t);
      InAppendTo(last, l, t);
      assert heads == front + [last];
    }
  }

  lemma {:induction false} InChoices(lists: seq<seq<Atom>>, t: seq<Atom>)
    ensures t in Choices(lists) <==> Chosen(lists, t)
  {
    if lists != [] {
      var front, last := lists[..|lists| - 1], lists[|lists| - 1];
      InAppendEach(Choices(front), last, t);
      if t != [] {
        InChoices(front, t[..|t| - 1]);
        ChosenSplits(lists, t);
      }
    }
  }

  lemma ChosenSplits(lists: seq<seq<Atom>>, t: seq<Atom>)
    requires lists != [] && t != []
    ensures Chosen(lists, t) <==> Chosen(lists[..|lists| - 1], t[..|t| - 1]) && t[|t| - 1] in lists[|lists| - 1]
  {
  }

  lemma AllTuples(r: Rule, seen: seq<seq<Atom>>, i: nat, a: Atom)
    requires Runnable(r) && r.kind == Product && Remembers(r, seen) && i < |seen| && a in seen[i]
    ensures forall t :: t in Choices(seen[i := [a]]) <==> TupleWith(seen, i, a, t) && Combines(r, t)
  {
    forall t ensures t in Choices(seen[i := [a]]) <==> TupleWith(seen, i, a, t) && Combines(r, t) {
      InChoices(seen[i := [a]], t);
      if TupleWith(seen, i, a, t) {
        assert SameLengths(r, t);
        DisjointCombine(r, t);
      }
    }
  }

  lemma OneTuple(r: Rule, seen: seq<seq<Atom>>, a: Atom)
    requires Runnable(r) && r.kind == Project && Remembers(r, seen) && a in seen[0]
    ensures forall t :: t in [[a]] <==> TupleWith(seen, 0, a, t) && Combines(r, t)
  {
    forall t: seq<Atom> ensures t in [[a]] <==> TupleWith(seen, 0, a, t) && Combines(r, t) {
      if t == [a] {
        assert SameLengths(r, t);
        DisjointCombine(r, t);
      }
    }
  }

  lemma VariablesAppend(cs: seq<SymAtom>, j: nat)
    requires j < |cs|
    ensures Variables(cs[..j + 1]) == Variables(cs[..j]) + VarsOf(cs[j].args)
  {
    var more, less := cs[..j + 1], cs[..j];
    forall a ensures a in Variables(more) <==> a in Variables(less) || a in VarsOf(cs[j].args) {
      if a in Variables(less) {
        var i :| 0 <= i < |less| && a in VarsOf(less[i].args);
        assert more[i] == less[i];
      }
      if a in VarsOf(cs[j].args) { assert more[j] == cs[j]; }
      if a in Variables(more) {
        var i :| 0 <= i < |more| && a in VarsOf(more[i].args);
        if i < j { assert less[i] == more[i]; }
      }
    }
  }

  lemma FilledSubset(r: Rule, env: Env, vs: set<Arg>, us: set<Arg>, args: seq<Arg>)
    requires Filled(r, env, vs, args) && us <= vs
    ensures Filled(r, env, us, args)
  {
  }

  lemma NumbersBounded(r: Rule)
    requires Runnable(r) && r.kind == Join
    ensures forall a: Arg :: a in r.conditions[0].args && a.Num? ==> a.n < |r.effect.args|
  {
    forall a: Arg | a in r.conditions[0].args && a.Num? ensures a.n < |r.effect.args| {
      var k :| 0 <= k < |r.conditions[0].args| && r.conditions[0].args[k] == a;
      assert NumberOf(r, r.conditions[0].args[k].n);
    }
  }

  lemma {:induction false} AllEmpty(lists: seq<seq<Atom>>)
    requires forall i :: 0 <= i < |lists| ==> lists[i] == []
    ensures CountEmpty(lists) == |lists|
  {
    if lists != [] { AllEmpty(lists[..|lists| - 1]); }
  }
}
