/**
  What one firing of a rule derives (build_model.py:55-176): the effect of a tuple of
  atoms, one per condition, whose numbered variables agree.  The effect arguments
  are a list that is overwritten position by position.
 */
module RuleFiring {
  import opened Strips
  import opened Datalog

  /** Rules after conversion: numbers are effect positions, and every numbered
      variable is bound by a condition. */
  predicate Numbered(r: Rule) {
    && (forall n :: 0 <= n < |r.effect.args| ==> r.effect.args[n].Obj? || r.effect.args[n] == Num(n))
    && (forall j, k :: 0 <= j < |r.conditions| && 0 <= k < |r.conditions[j].args| && r.conditions[j].args[k].Num? ==>
          NumberOf(r, r.conditions[j].args[k].n))
    && (forall n :: 0 <= n < |r.effect.args| && r.effect.args[n].Num? ==> Num(n) in Variables(r.conditions))
    && (forall j :: 0 <= j < |r.conditions| ==> DistinctVariables(r.conditions[j].args))
  }

  predicate NumberOf(r: Rule, n: nat) {
    n < |r.effect.args| && r.effect.args[n] == Num(n)
  }

  /** The values of the arguments of `c` in `a`. */
  ghost predicate Binds(env: Env, c: SymAtom, a: Atom) {
    |c.args| == |a.args| && forall k :: 0 <= k < |c.args| && c.args[k].Num? ==> Value(env, c.args[k]) == a.args[k]
  }

  ghost predicate BindsAll(env: Env, r: Rule, t: seq<Atom>) {
    |t| == |r.conditions| && forall j :: 0 <= j < |t| ==> Binds(env, r.conditions[j], t[j])
  }

  /** The atoms agree on the numbered variables that conditions share. */
  ghost predicate Combines(r: Rule, t: seq<Atom>) {
    exists env: Env :: BindsAll(env, r, t)
  }

  /** The effect that a tuple of atoms derives. */
  ghost predicate Derives(r: Rule, t: seq<Atom>, e: Atom) {
    exists env: Env :: BindsAll(env, r, t) && e == Instance(env, r.effect)
  }

  lemma EffectDetermined(r: Rule, t: seq<Atom>, env: Env, e: Env)
    requires Numbered(r) && BindsAll(env, r, t) && BindsAll(e, r, t)
    ensures Instance(env, r.effect) == Instance(e, r.effect)
  {
    forall a | a in VarsOf(r.effect.args) ensures Value(env, a) == Value(e, a) {
      var n :| 0 <= n < |r.effect.args| && r.effect.args[n] == a;
      var j :| 0 <= j < |r.conditions| && a in VarsOf(r.conditions[j].args);
      var k :| 0 <= k < |r.conditions[j].args| && r.conditions[j].args[k] == a;
      assert Binds(env, r.conditions[j], t[j]) && Binds(e, r.conditions[j], t[j]);
    }
    SameInstance(env, e, r.effect);
  }

  // ----- The list of effect arguments -----

  /** The positions of the numbers in `vs` hold their values under `env`. */
  ghost predicate Filled(r: Rule, env: Env, vs: set<Arg>, args: seq<Arg>) {
    && |args| == |r.effect.args|
    && (forall n :: 0 <= n < |args| && r.effect.args[n].Obj? ==> args[n] == r.effect.args[n])
    && (forall n :: 0 <= n < |args| && r.effect.args[n] == Num(n) && Num(n) in vs ==> args[n] == Obj(Value(env, Num(n))))
  }

  lemma FilledStart(r: Rule, env: Env)
    ensures Filled(r, env, {}, r.effect.args)
  {
  }

  lemma FilledAgrees(r: Rule, e: Env, f: Env, vs: set<Arg>, args: seq<Arg>)
    requires Filled(r, e, vs, args) && forall a: Arg :: a in vs && a.Num? ==> Value(e, a) == Value(f, a)
    ensures Filled(r, f, vs, args)
  {
  }

  /** The loop of `prepare_effect` and `fire`: copy the numbered arguments of the atom. */
  method Assign(r: Rule, j: nat, a: Atom, args: seq<Arg>) returns (result: seq<Arg>)
    requires Numbered(r) && j < |r.conditions| && |r.conditions[j].args| == |a.args| && |args| == |r.effect.args|
    ensures |result| == |args|
    ensures forall env, vs :: Binds(env, r.conditions[j], a) && Filled(r, env, vs, args) ==>
      Filled(r, env, vs + VarsOf(r.conditions[j].args), result)
  {
    var c := r.conditions[j];
    result := args;
    for k := 0 to |c.args|
      invariant |result| == |args|
      invariant forall env, vs :: Binds(env, c, a) && Filled(r, env, vs, args) ==>
        Filled(r, env, vs + VarsOf(c.args[..k]), result)
    {
      ghost var before := result;
      if c.args[k].Num? {
        assert NumberOf(r, c.args[k].n);
        result := result[c.args[k].n := Obj(a.args[k])];
      }
      forall env, vs | Binds(env, c, a) && Filled(r, env, vs, args)
        ensures Filled(r, env, vs + VarsOf(c.args[..k + 1]), result)
      {
        FilledStep(r, env, vs, c, a, k, before, result);
      }
    }
    assert c.args[..|c.args|] == c.args;
  }

  lemma FilledStep(r: Rule, env: Env, vs: set<Arg>, c: SymAtom, a: Atom, k: nat, before: seq<Arg>, after: seq<Arg>)
    requires Binds(env, c, a) && k < |c.args| && Filled(r, env, vs + VarsOf(c.args[..k]), before)
    requires c.args[k].Num? ==> NumberOf(r, c.args[k].n)
    requires after == if c.args[k].Num? then before[c.args[k].n := Obj(a.args[k])] else before
    ensures Filled(r, env, vs + VarsOf(c.args[..k + 1]), after)
  {
    assert c.args[..k + 1] == c.args[..k] + [c.args[k]];
    forall n | 0 <= n < |after| && r.effect.args[n] == Num(n) && Num(n) in vs + VarsOf(c.args[..k + 1])
      ensures after[n] == Obj(Value(env, Num(n)))
    {
      if c.args[k] != Num(n) { assert Num(n) in vs + VarsOf(c.args[..k]); }
    }
  }

  /** `Atom(predicate, list(args))` for a list without numbers. */
  function Ground(args: seq<Arg>): (r: seq<string>)
    requires forall i :: 0 <= i < |args| ==> args[i].Obj?
    ensures |r| == |args| && forall i :: 0 <= i < |r| ==> r[i] == args[i].o
  {
    seq(|args|, i requires 0 <= i < |args| => args[i].o)
  }

  lemma FilledIsEffect(r: Rule, env: Env, vs: set<Arg>, args: seq<Arg>)
    requires Numbered(r) && Filled(r, env, vs, args) && VarsOf(r.effect.args) <= vs
    ensures forall i :: 0 <= i < |args| ==> args[i].Obj?
    ensures Atom(r.effect.symbol, Ground(args)) == Instance(env, r.effect)
  {
    forall n | 0 <= n < |args| ensures args[n] == Obj(Value(env, r.effect.args[n])) {
      if r.effect.args[n].IsVar() { assert r.effect.args[n] in VarsOf(r.effect.args); }
    }
    assert Ground(args) == Values(env, r.effect.args);
  }

  lemma EffectVariablesBound(r: Rule)
    requires Numbered(r)
    ensures VarsOf(r.effect.args) <= Variables(r.conditions)
  {
    forall a | a in VarsOf(r.effect.args) ensures a in Variables(r.conditions) {
      var n :| 0 <= n < |r.effect.args| && r.effect.args[n] == a;
    }
  }

  // ----- When a tuple combines -----

  /** Equal numbers in two conditions have equal values in their atoms. */
  predicate AgreeAt(c: SymAtom, a: Atom, d: SymAtom, b: Atom) {
    forall k, l :: (0 <= k < |c.args| && k < |a.args| && 0 <= l < |d.args| && l < |b.args| && c.args[k].Num? &&
      c.args[k] == d.args[l]) ==> a.args[k] == b.args[l]
  }

  predicate PairwiseAgree(r: Rule, t: seq<Atom>) {
    forall i, j :: 0 <= i < |r.conditions| && i < |t| && 0 <= j < |r.conditions| && j < |t| ==>
      AgreeAt(r.conditions[i], t[i], r.conditions[j], t[j])
  }

  predicate SameLengths(r: Rule, t: seq<Atom>) {
    |t| == |r.conditions| && forall j :: 0 <= j < |t| ==> |t[j].args| == |r.conditions[j].args|
  }

  function IndexIn(args: seq<Arg>, x: Arg): (k: nat)
    requires x in args
    ensures k < |args| && args[k] == x
  {
    if args[0] == x then 0 else 1 + IndexIn(args[1..], x)
  }

  function NumEnv(c: SymAtom, a: Atom): Env {
    map x | x in VarsOf(c.args) && x.Num? :: if IndexIn(c.args, x) < |a.args| then a.args[IndexIn(c.args, x)] else ""
  }

  function MergeEnv(cs: seq<SymAtom>, t: seq<Atom>): Env
    requires |cs| == |t|
  {
    if cs == [] then map[] else MergeEnv(cs[..|cs| - 1], t[..|t| - 1]) + NumEnv(cs[|cs| - 1], t[|t| - 1])
  }

  lemma NumEnvBinds(c: SymAtom, a: Atom, k: nat)
    requires |c.args| == |a.args| && AgreeAt(c, a, c, a) && k < |c.args| && c.args[k].Num?
    ensures c.args[k] in NumEnv(c, a) && NumEnv(c, a)[c.args[k]] == a.args[k]
  {
    assert c.args[k] in VarsOf(c.args);
  }

  lemma {:induction false} MergeBinds(cs: seq<SymAtom>, t: seq<Atom>, j: nat)
    requires |cs| == |t| && j < |cs| && forall i :: 0 <= i < |cs| ==> |cs[i].args| == |t[i].args|
    requires forall i, l :: 0 <= i < |cs| && 0 <= l < |cs| ==> AgreeAt(cs[i], t[i], cs[l], t[l])
    ensures Binds(MergeEnv(cs, t), cs[j], t[j])
  {
    var n := |cs| - 1;
    var front, last := MergeEnv(cs[..n], t[..n]), NumEnv(cs[n], t[n]);
    if j < n { MergeBinds(cs[..n], t[..n], j); }
    forall k | 0 <= k < |cs[j].args| && cs[j].args[k].Num?
      ensures Value(MergeEnv(cs, t), cs[j].args[k]) == t[j].args[k]
    {
      var x := cs[j].args[k];
      if x in last {
        var l := IndexIn(cs[n].args, x);
        NumEnvBinds(cs[n], t[n], l);
        assert AgreeAt(cs[j], t[j], cs[n], t[n]);
      } else if j == n {
        NumEnvBinds(cs[n], t[n], k);
      } else {
        BoundInMerge(cs[..n], t[..n], j, k);
      }
    }
  }

  lemma {:induction false} BoundInMerge(cs: seq<SymAtom>, t: seq<Atom>, j: nat, k: nat)
    requires |cs| == |t| && j < |cs| && k < |cs[j].args| && cs[j].args[k].Num?
    ensures cs[j].args[k] in MergeEnv(cs, t)
  {
    assert cs[j].args[k] in VarsOf(cs[j].args);
    if j < |cs| - 1 { BoundInMerge(cs[..|cs| - 1], t[..|t| - 1], j, k); }
  }

  lemma AgreeingCombine(r: Rule, t: seq<Atom>)
    requires SameLengths(r, t)
    ensures Combines(r, t) <==> PairwiseAgree(r, t)
  {
    if PairwiseAgree(r, t) {
      var env := MergeEnv(r.conditions, t);
      forall j | 0 <= j < |t| ensures Binds(env, r.conditions[j], t[j]) { MergeBinds(r.conditions, t, j); }
      assert BindsAll(env, r, t);
    }
    if Combines(r, t) {
      var env: Env :| BindsAll(env, r, t);
      forall i, j | 0 <= i < |t| && 0 <= j < |t| ensures AgreeAt(r.conditions[i], t[i], r.conditions[j], t[j]) {
        assert Binds(env, r.conditions[i], t[i]) && Binds(env, r.conditions[j], t[j]);
      }
    }
  }

  /** A condition agrees with itself if its variables are distinct. */
  lemma AgreesWithItself(c: SymAtom, a: Atom)
    requires DistinctVariables(c.args)
    ensures AgreeAt(c, a, c, a)
  {
    forall k, l | 0 <= k < |c.args| && 0 <= l < |c.args| && c.args[k].Num? && c.args[k] == c.args[l] ensures k == l {
    }
  }

  predicate DisjointConditions(cs: seq<SymAtom>) {
    forall i, j :: 0 <= i < j < |cs| ==> VarsOf(cs[i].args) !! VarsOf(cs[j].args)
  }

  /** Conditions without common variables always combine. */
  lemma DisjointCombine(r: Rule, t: seq<Atom>)
    requires Numbered(r) && SameLengths(r, t) && DisjointConditions(r.conditions)
    ensures Combines(r, t)
  {
    forall i, j | 0 <= i < |t| && 0 <= j < |t| ensures AgreeAt(r.conditions[i], t[i], r.conditions[j], t[j]) {
      if i == j {
        AgreesWithItself(r.conditions[i], t[i]);
      } else {
        DisjointAgree(r.conditions[i], t[i], r.conditions[j], t[j]);
      }
    }
    AgreeingCombine(r, t);
  }

  lemma DisjointAgree(c: SymAtom, a: Atom, d: SymAtom, b: Atom)
    requires VarsOf(c.args) !! VarsOf(d.args)
    ensures AgreeAt(c, a, d, b)
  {
    forall k, l | 0 <= k < |c.args| && 0 <= l < |d.args| && c.args[k].Num? ensures c.args[k] != d.args[l] {
      assert c.args[k] in VarsOf(c.args);
      assert d.args[l] in VarsOf(d.args) <==> d.args[l].IsVar();
    }
  }

  // ----- Join keys -----

  /** The values at the listed positions. */
  function KeyOf(positions: seq<nat>, a: Atom): (key: seq<string>)
    ensures |key| == |positions|
  {
    seq(|positions|, i requires 0 <= i < |positions| => if positions[i] < |a.args| then a.args[positions[i]] else "")
  }

  /** The two lists hold the positions of the common numbers, in the same order. */
  ghost predicate KeyPositions(left: seq<Arg>, right: seq<Arg>, lp: seq<nat>, rp: seq<nat>) {
    && |lp| == |rp|
    && (forall i :: 0 <= i < |lp| ==> lp[i] < |left| && rp[i] < |right| && left[lp[i]].Num? && left[lp[i]] == right[rp[i]])
    && (forall a: Arg :: a.Num? && a in left && a in right ==> exists i :: 0 <= i < |lp| && lp[i] < |left| && left[lp[i]] == a)
  }

  lemma EqualKeysAgree(c: SymAtom, a: Atom, d: SymAtom, b: Atom, lp: seq<nat>, rp: seq<nat>)
    requires KeyPositions(c.args, d.args, lp, rp) && |c.args| == |a.args| && |d.args| == |b.args|
    requires DistinctVariables(c.args) && DistinctVariables(d.args)
    ensures KeyOf(lp, a) == KeyOf(rp, b) <==> AgreeAt(c, a, d, b)
  {
    if KeyOf(lp, a) == KeyOf(rp, b) {
      forall k, l | 0 <= k < |c.args| && 0 <= l < |d.args| && c.args[k].Num? && c.args[k] == d.args[l]
        ensures a.args[k] == b.args[l]
      {
        assert c.args[k] in c.args && d.args[l] in d.args;
        var i :| 0 <= i < |lp| && lp[i] < |c.args| && c.args[lp[i]] == c.args[k];
        assert lp[i] == k && rp[i] == l;
        assert KeyOf(lp, a)[i] == KeyOf(rp, b)[i];
      }
    }
    if AgreeAt(c, a, d, b) {
      forall i | 0 <= i < |lp| ensures KeyOf(lp, a)[i] == KeyOf(rp, b)[i] {}
    }
  }

  lemma AgreeSymmetric(c: SymAtom, a: Atom, d: SymAtom, b: Atom)
    requires AgreeAt(c, a, d, b)
    ensures AgreeAt(d, b, c, a)
  {
  }

  /** Join: two atoms combine exactly when their keys are equal. */
  lemma KeysCombine(r: Rule, t: seq<Atom>, lp: seq<nat>, rp: seq<nat>)
    requires Numbered(r) && |r.conditions| == 2 && SameLengths(r, t)
    requires KeyPositions(r.conditions[0].args, r.conditions[1].args, lp, rp)
    ensures Combines(r, t) <==> KeyOf(lp, t[0]) == KeyOf(rp, t[1])
  {
    var c, d := r.conditions[0], r.conditions[1];
    AgreeingCombine(r, t);
    EqualKeysAgree(c, t[0], d, t[1], lp, rp);
    AgreesWithItself(c, t[0]);
    AgreesWithItself(d, t[1]);
    if AgreeAt(c, t[0], d, t[1]) {
      AgreeSymmetric(c, t[0], d, t[1]);
      forall i, j | 0 <= i < 2 && 0 <= j < 2 ensures AgreeAt(r.conditions[i], t[i], r.conditions[j], t[j]) {}
    }
  }

  /** The positions of the common numbers, by ascending number. */
  method CommonVarPositions(left: seq<Arg>, right: seq<Arg>, n: nat) returns (lp: seq<nat>, rp: seq<nat>)
    requires forall a: Arg :: a in left && a.Num? ==> a.n < n
    ensures KeyPositions(left, right, lp, rp)
  {
    lp, rp := [], [];
    for v := 0 to n
      invariant |lp| == |rp|
      invariant forall i :: 0 <= i < |lp| ==>
        lp[i] < |left| && rp[i] < |right| && left[lp[i]].Num? && left[lp[i]] == right[rp[i]]
      invariant forall a: Arg :: a.Num? && a.n < v && a in left && a in right ==>
        exists i :: 0 <= i < |lp| && lp[i] < |left| && left[lp[i]] == a
    {
      if Num(v) in left && Num(v) in right {
        ghost var before := lp;
        lp, rp := lp + [IndexIn(left, Num(v))], rp + [IndexIn(right, Num(v))];
        forall a: Arg | a.Num? && a.n < v + 1 && a in left && a in right
          ensures exists i :: 0 <= i < |lp| && lp[i] < |left| && left[lp[i]] == a
        {
          if a.n < v {
            var i :| 0 <= i < |before| && before[i] < |left| && left[before[i]] == a;
            assert lp[i] == before[i];
          } else {
            assert left[lp[|before|]] == a;
          }
        }
      }
    }
  }
}
