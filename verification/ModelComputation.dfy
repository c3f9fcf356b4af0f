/**
  Forward chaining (build_model.py:13-27, 178-200, 303-330).  The queue is processed
  atom by atom; every rule condition that matches the atom remembers it and fires.
  The loop ends over a finite set of objects with exactly what firing derives from the
  facts: a model of the program, and the least one when no join projects away a
  variable its conditions share.
 */
module ModelComputation {
  import opened Wrappers
  import opened Strips
  import opened Datalog
  import opened Unification
  import opened Queues
  import opened RuleFiring
  import opened BuildRules
  import opened RuleSoundness
  import opened RuleValidation

  // ----- What firing derives -----

  /** Firing a numbered rule leads out of `m` nowhere: the effect of atoms of `m` that
      match the conditions and agree on the numbered variables is in `m`. */
  ghost predicate ClosedUnderFiring(m: iset<Atom>, r: Rule) {
    forall t, e :: MatchesAll(r, t) && TupleOf(m, t) && Derives(r, t, e) ==> e in m
  }

  ghost predicate TupleOf(m: iset<Atom>, t: seq<Atom>) {
    forall j :: 0 <= j < |t| ==> t[j] in m
  }

  ghost predicate IsFiringModel(rules: seq<Rule>, facts: iset<Atom>, m: iset<Atom>) {
    facts <= m && forall i :: 0 <= i < |rules| ==> ClosedUnderFiring(m, Converted(rules[i]))
  }

  /** The facts and what firing derives from them, and nothing else. */
  ghost predicate IsLeastFiringModel(rules: seq<Rule>, facts: iset<Atom>, m: iset<Atom>) {
    IsFiringModel(rules, facts, m) && forall n :: IsFiringModel(rules, facts, n) ==> m <= n
  }

  ghost predicate InEveryFiringModel(rules: seq<Rule>, facts: iset<Atom>, a: Atom) {
    forall m: iset<Atom> :: IsFiringModel(rules, facts, m) ==> a in m
  }

  ghost function Fired(rules: seq<Rule>, facts: iset<Atom>): iset<Atom> {
    iset a: Atom | InEveryFiringModel(rules, facts, a)
  }

  lemma FiredIsLeast(rules: seq<Rule>, facts: iset<Atom>)
    ensures IsLeastFiringModel(rules, facts, Fired(rules, facts))
  {
    var l := Fired(rules, facts);
    forall a | a in facts ensures InEveryFiringModel(rules, facts, a) {}
    forall i | 0 <= i < |rules| ensures ClosedUnderFiring(l, Converted(rules[i])) {
      var r := Converted(rules[i]);
      forall t, e | MatchesAll(r, t) && TupleOf(l, t) && Derives(r, t, e) ensures e in l {
        forall m: iset<Atom> | IsFiringModel(rules, facts, m) ensures e in m {
          assert ClosedUnderFiring(m, r);
          assert TupleOf(m, t) by {
            forall j | 0 <= j < |t| ensures t[j] in m { assert InEveryFiringModel(rules, facts, t[j]); }
          }
        }
      }
    }
    forall n: iset<Atom> | IsFiringModel(rules, facts, n) ensures l <= n {
      forall a | a in l ensures a in n { assert InEveryFiringModel(rules, facts, a); }
    }
  }

  /** Firing derives at least the instances, and no more if the conditions of a join
      share numbered variables only. */
  lemma FiringAndInstances(r: Rule, m: iset<Atom>)
    requires Runnable(r)
    ensures ClosedUnderFiring(m, r) ==> ClosedUnder(m, r)
    ensures CommonNumbered(r) && ClosedUnder(m, r) ==> ClosedUnderFiring(m, r)
  {
    hide Runnable, Derives, MatchesAll, CommonNumbered;
    if ClosedUnderFiring(m, r) {
      forall env: Env | AllIn(m, env, r.conditions) ensures Instance(env, r.effect) in m {
        var t := seq(|r.conditions|, j requires 0 <= j < |r.conditions| => Instance(env, r.conditions[j]));
        assert InstanceUnder(r, t, env);
        InstanceDerives(r, t, env);
        assert TupleOf(m, t);
      }
    }
    if CommonNumbered(r) && ClosedUnder(m, r) {
      forall t, e | MatchesAll(r, t) && TupleOf(m, t) && Derives(r, t, e) ensures e in m {
        RunnableNumbered(r);
        DerivesCombines(r, t, e);
        CombinedIsInstance(r, t);
        InstanceEffectIn(r, t, e, m);
      }
    }
  }

  lemma RunnableNumbered(r: Rule)
    requires Runnable(r)
    ensures Numbered(r)
  {
  }

  lemma DerivesCombines(r: Rule, t: seq<Atom>, e: Atom)
    requires Derives(r, t, e)
    ensures Combines(r, t)
  {
    var env: Env :| BindsAll(env, r, t) && e == Instance(env, r.effect);
  }

  lemma InstanceEffectIn(r: Rule, t: seq<Atom>, e: Atom, m: iset<Atom>)
    requires Numbered(r) && IsInstance(r, t) && Derives(r, t, e) && ClosedUnder(m, r) && TupleOf(m, t)
    ensures e in m
  {
    var env: Env :| InstanceUnder(r, t, env);
    InstanceEffect(r, t, env, e);
    forall j | 0 <= j < |r.conditions| ensures Instance(env, r.conditions[j]) in m {
      assert Instance(env, r.conditions[j]) == t[j];
    }
    assert AllIn(m, env, r.conditions);
  }

  /** Every firing model of a valid program is a model; if every variable that the
      conditions of a join share occurs in its effect, the models are the same. */
  lemma FiringModels(rules: seq<Rule>, facts: iset<Atom>, m: iset<Atom>)
    requires ValidRules(rules)
    ensures IsFiringModel(rules, facts, m) ==> IsModel(rules, facts, m)
    ensures (forall i :: 0 <= i < |rules| ==> CommonInEffect(rules[i])) ==>
      (IsFiringModel(rules, facts, m) <==> IsModel(rules, facts, m))
  {
    hide ClosedUnder, ClosedUnderFiring, CommonInEffect, NormalizedRule, NumberFree, Validates, Converted;
    forall i | 0 <= i < |rules|
      ensures ClosedUnderFiring(m, Converted(rules[i])) ==> ClosedUnder(m, rules[i])
      ensures CommonInEffect(rules[i]) && ClosedUnder(m, rules[i]) ==> ClosedUnderFiring(m, Converted(rules[i]))
    {
      OneRule(rules[i], m);
    }
  }

  lemma OneRule(r: Rule, m: iset<Atom>)
    requires NormalizedRule(r) && NumberFree(r) && Validates(r)
    ensures ClosedUnderFiring(m, Converted(r)) ==> ClosedUnder(m, r)
    ensures CommonInEffect(r) && ClosedUnder(m, r) ==> ClosedUnderFiring(m, Converted(r))
  {
    hide ClosedUnder, ClosedUnderFiring;
    ValidatedRunnable(r);
    FiringAndInstances(Converted(r), m);
    ConversionKeepsClosure(r, m);
    if r.kind == Join && |r.conditions| == 2 { CommonNumberedIff(r); }
  }

  lemma LeastFiringModels(rules: seq<Rule>, facts: iset<Atom>, m: iset<Atom>)
    requires ValidRules(rules) && IsLeastFiringModel(rules, facts, m)
    ensures IsModel(rules, facts, m)
    ensures (forall i :: 0 <= i < |rules| ==> CommonInEffect(rules[i])) ==> IsLeastModel(rules, facts, m)
  {
    hide IsFiringModel, IsModel, ValidRules, CommonInEffect;
    forall n: iset<Atom>
      ensures IsFiringModel(rules, facts, n) ==> IsModel(rules, facts, n)
      ensures (forall i :: 0 <= i < |rules| ==> CommonInEffect(rules[i])) ==>
        (IsFiringModel(rules, facts, n) <==> IsModel(rules, facts, n))
    {
      FiringModels(rules, facts, n);
    }
  }

  // ----- A finite universe -----

  function TuplesOver(objects: set<string>, n: nat): (r: set<seq<string>>)
    ensures forall t :: t in r <==> |t| == n && forall i :: 0 <= i < n ==> t[i] in objects
  {
    if n == 0 then {[]}
    else
      var rest := TuplesOver(objects, n - 1);
      var r := set t, o | t in rest && o in objects :: t + [o];
      assert forall t :: t in r <==> |t| == n && forall i :: 0 <= i < n ==> t[i] in objects by {
        forall t: seq<string> | |t| == n && forall i :: 0 <= i < n ==> t[i] in objects ensures t in r {
          assert t[..n - 1] in rest && t[n - 1] in objects && t == t[..n - 1] + [t[n - 1]];
        }
      }
      r
  }

  predicate ArgsIn(objects: set<string>, a: Atom) {
    forall k :: 0 <= k < |a.args| ==> a.args[k] in objects
  }

  function Universe(arities: Arities, objects: set<string>): (r: set<Atom>)
    ensures forall a :: a in r <==> HasArity(arities, a.symbol, |a.args|) && ArgsIn(objects, a)
  {
    var r := set p, t | p in arities && t in TuplesOver(objects, arities[p]) :: Atom(p, t);
    assert forall a :: a in r <==> HasArity(arities, a.symbol, |a.args|) && ArgsIn(objects, a) by {
      forall a: Atom | HasArity(arities, a.symbol, |a.args|) && ArgsIn(objects, a) ensures a in r {
        assert a.args in TuplesOver(objects, arities[a.symbol]);
        assert a == Atom(a.symbol, a.args);
      }
    }
    r
  }

  function ConstantsOf(args: seq<Arg>): set<string> {
    set k | 0 <= k < |args| && args[k].Obj? :: args[k].o
  }

  /** The symbols of a rule have their arities, and its constants are objects. */
  predicate FitsAtom(arities: Arities, objects: set<string>, t: SymAtom) {
    HasArity(arities, t.symbol, |t.args|) && ConstantsOf(t.args) <= objects
  }

  predicate Fits(arities: Arities, objects: set<string>, r: Rule) {
    FitsAtom(arities, objects, r.effect) &&
    forall j :: 0 <= j < |r.conditions| ==> FitsAtom(arities, objects, r.conditions[j])
  }

  /** What a rule derives from atoms of the universe is in the universe. */
  lemma DerivedInUniverse(arities: Arities, objects: set<string>, r: Rule, t: seq<Atom>, e: Atom)
    requires Fits(arities, objects, r) && Numbered(r) && Derives(r, t, e)
    requires forall j :: 0 <= j < |t| ==> t[j] in Universe(arities, objects)
    ensures e in Universe(arities, objects)
  {
    var env: Env :| BindsAll(env, r, t) && e == Instance(env, r.effect);
    forall n | 0 <= n < |e.args| ensures e.args[n] in objects {
      var x := r.effect.args[n];
      if x.Obj? {
        assert x.o in ConstantsOf(r.effect.args);
      } else {
        assert x == Num(n);
        var j :| 0 <= j < |r.conditions| && x in VarsOf(r.conditions[j].args);
        var k :| 0 <= k < |r.conditions[j].args| && r.conditions[j].args[k] == x;
        assert Binds(env, r.conditions[j], t[j]);
        assert ArgsIn(objects, t[j]);
      }
    }
  }

  // ----- The state of the loop, as values -----

  /** The remembered atoms, by rule and condition. */
  type Memory = seq<seq<seq<Atom>>>

  predicate MemoryOf(rules: seq<Rule>, mem: Memory) {
    |mem| == |rules| && forall i :: 0 <= i < |rules| ==> |mem[i]| == |rules[i].conditions|
  }

  /** Condition `j` of rule `i` remembers the matching atoms of `popped`, and the
      atom `a` if the condition is in `done`. */
  ghost predicate Remembered(rules: seq<Rule>, mem: Memory, popped: set<Atom>, a: Atom, done: seq<Match>) {
    && MemoryOf(rules, mem)
    && (forall i, j, b :: 0 <= i < |rules| && 0 <= j < |mem[i]| ==>
          (b in mem[i][j] <==> RemembersAtom(rules, popped, a, done, i, j, b)))
  }

  predicate RemembersAtom(rules: seq<Rule>, popped: set<Atom>, a: Atom, done: seq<Match>, i: nat, j: nat, b: Atom)
    requires i < |rules| && j < |rules[i].conditions|
  {
    (b in popped && MatchesCondition(rules[i].conditions[j], b)) || (b == a && Match(i, j) in done)
  }

  predicate TupleIn(seen: seq<seq<Atom>>, t: seq<Atom>) {
    |t| == |seen| && forall j :: 0 <= j < |t| ==> t[j] in seen[j]
  }

  /** Whatever a rule derives from its remembered atoms was enqueued. */
  ghost predicate RuleClosed(r: Rule, seen: seq<seq<Atom>>, enqueued: set<Atom>) {
    forall t, e :: TupleIn(seen, t) && Derives(r, t, e) ==> e in enqueued
  }

  ghost predicate AllClosed(rules: seq<Rule>, mem: Memory, enqueued: set<Atom>) {
    |mem| == |rules| && forall i :: 0 <= i < |rules| ==> RuleClosed(rules[i], mem[i], enqueued)
  }

  function Add(mem: Memory, i: nat, j: nat, a: Atom): Memory
    requires i < |mem| && j < |mem[i]|
  {
    mem[i := mem[i][j := mem[i][j] + [a]]]
  }

  lemma FiredClosed(r: Rule, seen: seq<seq<Atom>>, j: nat, a: Atom, enqueued: set<Atom>, after: set<Atom>)
    requires RuleClosed(r, seen, enqueued) && enqueued <= after && j < |seen|
    requires forall e :: FiredBy(r, seen[j := seen[j] + [a]], j, a, e) ==> e in after
    ensures RuleClosed(r, seen[j := seen[j] + [a]], after)
  {
    hide Derives;
    var more := seen[j := seen[j] + [a]];
    forall t, e | TupleIn(more, t) && Derives(r, t, e) ensures e in after {
      if t[j] == a {
        assert TupleWith(more, j, a, t);
        assert FiredBy(r, more, j, a, e);
      } else {
        assert t[j] in seen[j];
        assert TupleIn(seen, t);
      }
    }
  }

  lemma ClosedMore(rules: seq<Rule>, mem: Memory, i: nat, j: nat, a: Atom, enqueued: set<Atom>, after: set<Atom>)
    requires AllClosed(rules, mem, enqueued) && enqueued <= after && i < |mem| && j < |mem[i]|
    requires forall e :: FiredBy(rules[i], Add(mem, i, j, a)[i], j, a, e) ==> e in after
    ensures AllClosed(rules, Add(mem, i, j, a), after)
  {
    FiredClosed(rules[i], mem[i], j, a, enqueued, after);
    forall k | 0 <= k < |rules| && k != i ensures RuleClosed(rules[k], mem[k], after) {}
  }

  lemma RememberMore(rules: seq<Rule>, mem: Memory, popped: set<Atom>, a: Atom, done: seq<Match>, i: nat, j: nat)
    requires Remembered(rules, mem, popped, a, done) && i < |rules| && j < |mem[i]|
    ensures Remembered(rules, Add(mem, i, j, a), popped, a, done + [Match(i, j)])
  {
    var next := Add(mem, i, j, a);
    forall k, l, b | 0 <= k < |rules| && 0 <= l < |next[k]|
      ensures b in next[k][l] <==> RemembersAtom(rules, popped, a, done + [Match(i, j)], k, l, b)
    {
      assert b in mem[k][l] <==> RemembersAtom(rules, popped, a, done, k, l, b);
    }
  }

  /** Once all matching conditions are done, the atom counts as popped. */
  lemma RememberPopped(rules: seq<Rule>, mem: Memory, popped: set<Atom>, a: Atom, done: seq<Match>, b: Atom)
    requires Remembered(rules, mem, popped, a, done)
    requires forall i, j :: 0 <= i < |rules| && 0 <= j < |rules[i].conditions| ==>
      (Match(i, j) in done <==> MatchesCondition(rules[i].conditions[j], a))
    ensures Remembered(rules, mem, popped + {a}, b, [])
  {
    forall i, j, x | 0 <= i < |rules| && 0 <= j < |mem[i]|
      ensures x in mem[i][j] <==> RemembersAtom(rules, popped + {a}, b, [], i, j, x)
    {
      assert x in mem[i][j] <==> RemembersAtom(rules, popped, a, done, i, j, x);
    }
  }

  /** The remembered atoms match, and were popped. */
  lemma RememberedMatch(rules: seq<Rule>, mem: Memory, popped: set<Atom>, a: Atom, done: seq<Match>, i: nat,
      t: seq<Atom>,
      arities: Arities, objects: set<string>)
    requires Remembered(rules, mem, popped, a, done) && i < |rules| && TupleIn(mem[i], t)
    requires Fits(arities, objects, rules[i]) && popped + {a} <= Universe(arities, objects)
    requires forall j :: 0 <= j < |rules[i].conditions| && Match(i, j) in done ==> MatchesCondition(rules[i].conditions[j], a)
    ensures MatchesAll(rules[i], t) && forall j :: 0 <= j < |t| ==> t[j] in popped + {a}
  {
    forall j | 0 <= j < |t|
      ensures MatchesCondition(rules[i].conditions[j], t[j]) && t[j] in popped + {a}
      ensures |t[j].args| == |rules[i].conditions[j].args|
    {
      assert RemembersAtom(rules, popped, a, done, i, j, t[j]);
      assert FitsAtom(arities, objects, rules[i].conditions[j]);
    }
  }

  /** Everything enqueued is in `bound` and in the universe. */
  ghost predicate Bounded(arities: Arities, objects: set<string>, bound: iset<Atom>, enqueued: set<Atom>) {
    enqueued <= Universe(arities, objects) && forall a :: a in enqueued ==> a in bound
  }

  lemma FiredBounded(rules: seq<Rule>, mem: Memory, popped: set<Atom>, a: Atom, done: seq<Match>, i: nat, j: nat,
      e: Atom,
      arities: Arities, objects: set<string>, bound: iset<Atom>, enqueued: set<Atom>)
    requires Remembered(rules, mem, popped, a, done) && i < |rules| && j < |mem[i]|
    requires Runnable(rules[i]) && Fits(arities, objects, rules[i])
    requires forall l :: 0 <= l < |rules[i].conditions| && Match(i, l) in done ==> MatchesCondition(rules[i].conditions[l], a)
    requires Bounded(arities, objects, bound, enqueued) && popped + {a} <= enqueued
    requires ClosedUnderFiring(bound, rules[i])
    requires a in mem[i][j] && FiredBy(rules[i], mem[i], j, a, e)
    ensures e in Universe(arities, objects) && e in bound
  {
    hide Runnable, Derives, MatchesAll, Fits;
    var t :| TupleWith(mem[i], j, a, t) && Derives(rules[i], t, e);
    assert TupleIn(mem[i], t);
    RememberedMatch(rules, mem, popped, a, done, i, t, arities, objects);
    RunnableNumbered(rules[i]);
    DerivedInUniverse(arities, objects, rules[i], t, e);
    assert TupleOf(bound, t);
  }

  /** A closed queue that was completely popped is closed under firing. */
  lemma ClosedIsFiringModel(rules: seq<Rule>, mem: Memory, all: set<Atom>, a: Atom, m: iset<Atom>)
    requires Remembered(rules, mem, all, a, []) && AllClosed(rules, mem, all) && forall x :: x in m <==> x in all
    ensures forall i :: 0 <= i < |rules| ==> ClosedUnderFiring(m, rules[i])
  {
    hide Derives;
    forall i, t, e | 0 <= i < |rules| && MatchesAll(rules[i], t) && TupleOf(m, t) && Derives(rules[i], t, e)
      ensures e in m
    {
      forall j | 0 <= j < |t| ensures t[j] in mem[i][j] {
        assert MatchesCondition(rules[i].conditions[j], t[j]);
        assert RemembersAtom(rules, all, a, [], i, j, t[j]);
      }
      assert TupleIn(mem[i], t);
      assert RuleClosed(rules[i], mem[i], all);
    }
  }

  // ----- The loop -----

  /** The rules and what bounds the derivable atoms. */
  datatype Setting = Setting(rules: seq<Rule>, arities: Arities, objects: set<string>, bound: iset<Atom>) {
    ghost predicate Ok() {
      forall i :: 0 <= i < |rules| ==> RuleOk(rules[i])
    }

    ghost predicate RuleOk(r: Rule) {
      Runnable(r) && Fits(arities, objects, r) && ClosedUnderFiring(bound, r)
    }

    ghost predicate Within(enqueued: set<Atom>) {
      Bounded(arities, objects, bound, enqueued)
    }
  }

  /** The rule objects remember `mem`. */
  ghost predicate Shows(rs: seq<BuildRule>, rules: seq<Rule>, mem: Memory)
    reads rs
  {
    && |rs| == |rules| && MemoryOf(rules, mem)
    && (forall i, j :: 0 <= i < j < |rs| ==> rs[i] != rs[j])
    && (forall i :: 0 <= i < |rs| ==> rs[i].Valid() && rs[i].rule == rules[i] && rs[i].seen == mem[i])
  }

  /** Remember the atom for one condition and fire. */
  method HandleMatch(rs: seq<BuildRule>, ghost rules: seq<Rule>, ghost mem: Memory, i: nat, j: nat, a: Atom,
      queue: Queue)
    requires Shows(rs, rules, mem) && i < |rs| && j < |mem[i]| && |a.args| == |rules[i].conditions[j].args|
    requires queue.Valid()
    modifies rs, queue
    ensures Shows(rs, rules, Add(mem, i, j, a)) && queue.Valid() && queue.queuePos == old(queue.queuePos)
    ensures Grown(old(queue.queue), queue.queue)
    ensures forall e :: e in queue.enqueued <==> e in old(queue.enqueued) || FiredBy(rules[i], Add(mem, i, j, a)[i], j, a, e)
  {
    hide BuildRule.Valid, FiredBy;
    var r := rs[i];
    assert |mem[i]| == |r.rule.conditions|;
    r.UpdateIndex(a, j);
    r.Fire(a, j, queue);
  }

  /** Remembering and firing keep everything the loop needs. */
  lemma HandledOk(g: Setting, mem: Memory, popped: set<Atom>, a: Atom, done: seq<Match>, i: nat, j: nat,
      enqueued: set<Atom>, after: set<Atom>)
    requires g.Ok() && g.Within(enqueued) && popped + {a} <= enqueued && i < |g.rules|
    requires Remembered(g.rules, mem, popped, a, done) && AllClosed(g.rules, mem, enqueued)
    requires i < |mem| && j < |mem[i]| && |mem[i]| == |g.rules[i].conditions|
    requires MatchesCondition(g.rules[i].conditions[j], a)
    requires forall l :: 0 <= l < |g.rules[i].conditions| && Match(i, l) in done ==>
      MatchesCondition(g.rules[i].conditions[l], a)
    requires forall e :: e in after <==> e in enqueued || FiredBy(g.rules[i], Add(mem, i, j, a)[i], j, a, e)
    ensures Remembered(g.rules, Add(mem, i, j, a), popped, a, done + [Match(i, j)])
    ensures AllClosed(g.rules, Add(mem, i, j, a), after) && g.Within(after) && enqueued <= after
  {
    hide Remembered, AllClosed, FiredBy, Bounded, MatchesCondition;
    assert enqueued <= after;
    RememberMore(g.rules, mem, popped, a, done, i, j);
    ClosedMore(g.rules, mem, i, j, a, enqueued, after);
    HandledBounded(g, Add(mem, i, j, a), popped, a, done + [Match(i, j)], i, j, enqueued, after);
  }

  lemma HandledBounded(g: Setting, mem: Memory, popped: set<Atom>, a: Atom, done: seq<Match>, i: nat, j: nat,
      enqueued: set<Atom>, after: set<Atom>)
    requires g.Ok() && g.Within(enqueued) && popped + {a} <= enqueued && i < |g.rules| && i < |mem|
    requires Remembered(g.rules, mem, popped, a, done) && j < |mem[i]| && a in mem[i][j]
    requires forall l :: 0 <= l < |g.rules[i].conditions| && Match(i, l) in done ==>
      MatchesCondition(g.rules[i].conditions[l], a)
    requires forall e :: e in after ==> e in enqueued || FiredBy(g.rules[i], mem[i], j, a, e)
    ensures g.Within(after)
  {
    assert g.RuleOk(g.rules[i]);
    hide Remembered, FiredBy, Runnable, Fits, ClosedUnderFiring, MatchesCondition;
    forall e | e in after ensures e in Universe(g.arities, g.objects) && e in g.bound {
      if e !in enqueued {
        FiredBounded(g.rules, mem, popped, a, done, i, j, e, g.arities, g.objects, g.bound, enqueued);
      }
    }
  }

  /** One iteration of the main loop, for the matches of the popped atom. */
  method ProcessAtom(rs: seq<BuildRule>, ghost g: Setting, ghost mem0: Memory, ghost popped: set<Atom>, a: Atom,
      ms: seq<Match>, queue: Queue) returns (ghost mem: Memory)
    requires g.Ok() && queue.Valid() && g.Within(queue.enqueued) && popped + {a} <= queue.enqueued
    requires Shows(rs, g.rules, mem0)
    requires Remembered(g.rules, mem0, popped, a, []) && AllClosed(g.rules, mem0, queue.enqueued)
    requires MatchesOf(g.rules, a, ms)
    modifies rs, queue
    ensures queue.Valid() && g.Within(queue.enqueued) && queue.queuePos == old(queue.queuePos)
    ensures Grown(old(queue.queue), queue.queue)
    ensures Shows(rs, g.rules, mem)
    ensures Remembered(g.rules, mem, popped, a, ms) && AllClosed(g.rules, mem, queue.enqueued)
  {
    mem := mem0;
    hide Shows, Remembered, AllClosed, FiredBy, MatchesCondition, Bounded, Fits, Runnable, ClosedUnderFiring, Grown;
    GrownSame(queue.queue);
    for k := 0 to |ms|
      invariant queue.Valid() && g.Within(queue.enqueued) && queue.queuePos == old(queue.queuePos)
      invariant Grown(old(queue.queue), queue.queue) && popped + {a} <= queue.enqueued
      invariant Shows(rs, g.rules, mem)
      invariant Remembered(g.rules, mem, popped, a, ms[..k]) && AllClosed(g.rules, mem, queue.enqueued)
    {
      var i, j := ms[k].rule, ms[k].cond;
      assert ms[k] in ms;
      InUniverse(g, queue.enqueued, a);
      MatchShape(g, rs, mem, popped, a, ms, ms[..k], i, j);
      ghost var before, list := queue.enqueued, queue.queue;
      HandleMatch(rs, g.rules, mem, i, j, a, queue);
      GrownTwice(old(queue.queue), list, queue.queue);
      HandledOk(g, mem, popped, a, ms[..k], i, j, before, queue.enqueued);
      assert ms[..k + 1] == ms[..k] + [Match(i, j)];
      mem := Add(mem, i, j, a);
    }
    assert ms[..|ms|] == ms;
  }

  /** The list holds exactly the conditions that match the atom. */
  ghost predicate MatchesOf(rules: seq<Rule>, a: Atom, ms: seq<Match>) {
    forall i: nat, j: nat :: Match(i, j) in ms <==>
      i < |rules| && j < |rules[i].conditions| && MatchesCondition(rules[i].conditions[j], a)
  }

  lemma InUniverse(g: Setting, enqueued: set<Atom>, a: Atom)
    requires g.Within(enqueued) && a in enqueued
    ensures a in Universe(g.arities, g.objects)
  {
  }

  lemma MatchShape(g: Setting, rs: seq<BuildRule>, mem: Memory, popped: set<Atom>, a: Atom, ms: seq<Match>,
      done: seq<Match>, i: nat, j: nat)
    requires Shows(rs, g.rules, mem) && MatchesOf(g.rules, a, ms) && Match(i, j) in ms && g.Ok()
    requires a in Universe(g.arities, g.objects) && forall m :: m in done ==> m in ms
    ensures i < |rs| && i < |g.rules| && i < |mem| && j < |mem[i]| && |mem[i]| == |g.rules[i].conditions|
    ensures |a.args| == |g.rules[i].conditions[j].args| && MatchesCondition(g.rules[i].conditions[j], a)
    ensures forall l :: 0 <= l < |g.rules[i].conditions| && Match(i, l) in done ==>
      MatchesCondition(g.rules[i].conditions[l], a)
  {
    assert g.RuleOk(g.rules[i]);
    assert FitsAtom(g.arities, g.objects, g.rules[i].conditions[j]);
  }

  // ----- Preparation -----

  datatype Program = Program(facts: seq<Atom>, rules: seq<Rule>)

  function ConvertedRules(rules: seq<Rule>): (r: seq<Rule>)
    ensures |r| == |rules| && forall i :: 0 <= i < |rules| ==> r[i] == Converted(rules[i])
  {
    seq(|rules|, i requires 0 <= i < |rules| => Converted(rules[i]))
  }

  /** A normalized program whose rules pass their validation. */
  predicate ValidProgram(p: Program) {
    ValidRules(p.rules)
  }

  predicate ValidRules(rules: seq<Rule>) {
    forall i :: 0 <= i < |rules| ==> NormalizedRule(rules[i]) && NumberFree(rules[i]) && Validates(rules[i])
  }

  /** Facts and rules use each symbol with one number of arguments. */
  predicate FitsProgram(arities: Arities, objects: set<string>, p: Program) {
    && (forall i :: 0 <= i < |p.rules| ==> Fits(arities, objects, p.rules[i]))
    && (forall i :: 0 <= i < |p.facts| ==> p.facts[i] in Universe(arities, objects))
  }

  lemma ConvertedFits(arities: Arities, objects: set<string>, r: Rule)
    requires Fits(arities, objects, r)
    ensures Fits(arities, objects, Converted(r))
  {
    RenamedConstants(r.effect.args, r.effect.args);
    forall j | 0 <= j < |r.conditions| ensures FitsAtom(arities, objects, Converted(r).conditions[j]) {
      RenamedConstants(r.effect.args, r.conditions[j].args);
      assert FitsAtom(arities, objects, r.conditions[j]);
    }
  }

  lemma RenamedConstants(effect: seq<Arg>, args: seq<Arg>)
    ensures ConstantsOf(RenameAll(effect, args)) <= ConstantsOf(args)
  {
    var rs := RenameAll(effect, args);
    forall o | o in ConstantsOf(rs) ensures o in ConstantsOf(args) {
      var k :| 0 <= k < |rs| && rs[k].Obj? && rs[k].o == o;
      assert args[k].Obj? && args[k].o == o;
    }
  }

  /** convert_rules; its assertions hold in a valid program. */
  method ConvertRules(p: Program) returns (rs: seq<BuildRule>)
    requires ValidProgram(p)
    ensures fresh(rs) && |rs| == |p.rules| && forall i, j :: 0 <= i < j < |rs| ==> rs[i] != rs[j]
    ensures forall i :: 0 <= i < |rs| ==> rs[i].Valid() && rs[i].rule == Converted(p.rules[i])
    ensures forall i, j :: 0 <= i < |rs| && 0 <= j < |rs[i].seen| ==> rs[i].seen[j] == []
  {
    rs := [];
    hide Runnable, Converted, BuildRule.Valid;
    for i := 0 to |p.rules|
      invariant fresh(rs) && |rs| == i && forall j, k :: 0 <= j < k < |rs| ==> rs[j] != rs[k]
      invariant forall j :: 0 <= j < i ==> rs[j].Valid() && rs[j].rule == Converted(p.rules[j])
      invariant forall j, k :: 0 <= j < i && 0 <= k < |rs[j].seen| ==> rs[j].seen[k] == []
    {
      var r := p.rules[i];
      var e, cs := VariablesToNumbers(r.effect, r.conditions);
      ConvertedIs(r, e, cs);
      ValidatedRunnable(r);
      var rule := new BuildRule(Rule(r.kind, e, cs));
      rs := rs + [rule];
    }
  }

  lemma ConvertedIs(r: Rule, e: SymAtom, cs: seq<SymAtom>)
    requires e == SymAtom(r.effect.symbol, RenameAll(r.effect.args, r.effect.args))
    requires cs == ConvertedAtoms(r.effect.args, r.conditions)
    ensures Rule(r.kind, e, cs) == Converted(r)
  {
  }

  /** The inserted conditions are those of the first `n` rules and the first `k` of rule `n`. */
  ghost predicate EntriesOf(rules: seq<Rule>, n: nat, k: nat, entries: seq<Entry>) {
    && DistinctEntries(entries)
    && (forall m :: 0 <= m < |entries| ==> EntryOf(rules, n, k, entries[m]))
    && (forall i: nat, j: nat :: i < |rules| && j < |rules[i].conditions| && (i < n || (i == n && j < k)) ==>
          HasEntry(entries, i, j))
  }

  predicate HasEntry(entries: seq<Entry>, i: nat, j: nat) {
    exists m :: 0 <= m < |entries| && entries[m].value == Match(i, j)
  }

  predicate EntryOf(rules: seq<Rule>, n: nat, k: nat, e: Entry) {
    var i, j := e.value.rule, e.value.cond;
    i < |rules| && j < |rules[i].conditions| && (i < n || (i == n && j < k)) && e.cond == rules[i].conditions[j]
  }

  lemma AddEntry(rules: seq<Rule>, n: nat, k: nat, entries: seq<Entry>)
    requires EntriesOf(rules, n, k, entries) && n < |rules| && k < |rules[n].conditions|
    ensures EntriesOf(rules, n, k + 1, entries + [Entry(rules[n].conditions[k], Match(n, k))])
  {
    var more := entries + [Entry(rules[n].conditions[k], Match(n, k))];
    forall m | 0 <= m < |entries| ensures entries[m].value != Match(n, k) { assert EntryOf(rules, n, k, entries[m]); }
    forall i: nat, j: nat | i < |rules| && j < |rules[i].conditions| && (i < n || (i == n && j < k + 1))
      ensures HasEntry(more, i, j)
    {
      if i < n || j < k {
        assert HasEntry(entries, i, j);
        var m :| 0 <= m < |entries| && entries[m].value == Match(i, j);
        assert more[m].value == Match(i, j);
      } else {
        assert more[|entries|].value == Match(i, j);
      }
    }
    forall m | 0 <= m < |more| ensures EntryOf(rules, n, k + 1, more[m]) {
      if m < |entries| { assert EntryOf(rules, n, k, entries[m]); }
    }
  }

  lemma NextRule(rules: seq<Rule>, n: nat, entries: seq<Entry>)
    requires n < |rules| && EntriesOf(rules, n, |rules[n].conditions|, entries)
    ensures EntriesOf(rules, n + 1, 0, entries)
  {
    forall m | 0 <= m < |entries| ensures EntryOf(rules, n + 1, 0, entries[m]) {
      assert EntryOf(rules, n, |rules[n].conditions|, entries[m]);
    }
    forall i: nat, j: nat | i < |rules| && j < |rules[i].conditions| && i < n + 1
      ensures HasEntry(entries, i, j)
    {
      assert i < n || (i == n && j < |rules[n].conditions|);
    }
  }

  /** `Unifier(rules)` */
  method BuildUnifier(rules: seq<Rule>, ghost arities: Arities, ghost objects: set<string>) returns (u: Unifier)
    requires forall i :: 0 <= i < |rules| ==> Fits(arities, objects, rules[i])
    ensures fresh(u) && u.Valid() && u.arities == arities && EntriesOf(rules, |rules|, 0, u.entries)
  {
    u := new Unifier.Empty(arities);
    hide EntriesOf, Unifier.Valid;
    assert EntriesOf(rules, 0, 0, u.entries) by { NoEntries(rules); }
    for i := 0 to |rules|
      invariant fresh(u) && u.Valid() && u.arities == arities && EntriesOf(rules, i, 0, u.entries)
    {
      for j := 0 to |rules[i].conditions|
        invariant fresh(u) && u.Valid() && u.arities == arities && EntriesOf(rules, i, j, u.entries)
      {
        AddEntry(rules, i, j, u.entries);
        assert FitsAtom(arities, objects, rules[i].conditions[j]);
        u.InsertCondition(rules[i].conditions[j], Match(i, j));
      }
      NextRule(rules, i, u.entries);
    }
  }

  lemma NoEntries(rules: seq<Rule>)
    ensures EntriesOf(rules, 0, 0, [])
  {
  }

  /** The unifier returns exactly the matching conditions, each once. */
  lemma UnifiedMatches(rules: seq<Rule>, entries: seq<Entry>, a: Atom, ms: seq<Match>)
    requires EntriesOf(rules, |rules|, 0, entries) && multiset(ms) == multiset(Scan(entries, a))
    ensures MatchesOf(rules, a, ms)
    ensures forall m :: m in ms ==> multiset(ms)[m] == 1
  {
    hide MatchesCondition, Scan;
    forall v ensures v in ms <==> v in Scan(entries, a) {
      assert v in ms <==> v in multiset(ms);
      assert v in Scan(entries, a) <==> v in multiset(Scan(entries, a));
    }
    forall i: nat, j: nat
      ensures Match(i, j) in ms <==>
        i < |rules| && j < |rules[i].conditions| && MatchesCondition(rules[i].conditions[j], a)
    {
      InScan(entries, a, Match(i, j));
      if Match(i, j) in ms {
        var k :| 0 <= k < |entries| && entries[k].value == Match(i, j) && MatchesCondition(entries[k].cond, a);
        assert EntryOf(rules, |rules|, 0, entries[k]);
      }
      if i < |rules| && j < |rules[i].conditions| && MatchesCondition(rules[i].conditions[j], a) {
        assert HasEntry(entries, i, j);
        var k :| 0 <= k < |entries| && entries[k].value == Match(i, j);
        assert EntryOf(rules, |rules|, 0, entries[k]);
      }
    }
    forall m | m in ms ensures multiset(ms)[m] == 1 {
      InScan(entries, a, m);
      var k :| 0 <= k < |entries| && entries[k].value == m && MatchesCondition(entries[k].cond, a);
      FoundOnce(entries, a, k);
    }
  }

  // ----- compute_model -----

  function AsModel(q: seq<Atom>): iset<Atom> {
    iset a | a in q
  }

  lemma StartOk(g: Setting, rs: seq<BuildRule>, a: Atom, enqueued: set<Atom>) returns (mem: Memory)
    requires |rs| == |g.rules| && forall i, j :: 0 <= i < j < |rs| ==> rs[i] != rs[j]
    requires forall i :: 0 <= i < |rs| ==> rs[i].Valid() && rs[i].rule == g.rules[i]
    requires forall i, j :: 0 <= i < |rs| && 0 <= j < |rs[i].seen| ==> rs[i].seen[j] == []
    requires g.Ok()
    ensures Shows(rs, g.rules, mem) && Remembered(g.rules, mem, {}, a, []) && AllClosed(g.rules, mem, enqueued)
  {
    mem := EmptyMemory(g.rules);
    forall i | 0 <= i < |rs| ensures rs[i].seen == mem[i] {
      assert |rs[i].seen| == |mem[i]|;
    }
    forall i | 0 <= i < |g.rules| ensures RuleClosed(g.rules[i], mem[i], enqueued) {
      assert g.RuleOk(g.rules[i]);
      forall t ensures !TupleIn(mem[i], t) { NoTupleIn(mem[i], 0, t); }
    }
  }

  lemma NoTupleIn(seen: seq<seq<Atom>>, k: nat, t: seq<Atom>)
    requires k < |seen| && seen[k] == []
    ensures !TupleIn(seen, t)
  {
    if |t| == |seen| { assert t[k] !in seen[k]; }
  }

  function EmptyMemory(rules: seq<Rule>): (mem: Memory)
    ensures MemoryOf(rules, mem) && forall i, j :: 0 <= i < |rules| && 0 <= j < |mem[i]| ==> mem[i][j] == []
  {
    seq(|rules|, i requires 0 <= i < |rules| => seq(|rules[i].conditions|, _ => []))
  }

  /** The setting of a program: its converted rules and what firing them derives. */
  ghost function SettingOf(p: Program, arities: Arities, objects: set<string>): Setting {
    Setting(ConvertedRules(p.rules), arities, objects, Fired(p.rules, AsModel(p.facts)))
  }

  lemma SettingIsOk(p: Program, arities: Arities, objects: set<string>)
    requires ValidProgram(p) && FitsProgram(arities, objects, p)
    ensures SettingOf(p, arities, objects).Ok()
    ensures SettingOf(p, arities, objects).Within(Elements(p.facts))
  {
    var g := SettingOf(p, arities, objects);
    FiredIsLeast(p.rules, AsModel(p.facts));
    hide Fired, ClosedUnderFiring;
    forall i | 0 <= i < |g.rules| ensures g.RuleOk(g.rules[i]) {
      ValidatedRunnable(p.rules[i]);
      ConvertedFits(arities, objects, p.rules[i]);
    }
  }

  /** One more atom: the measure of the main loop. */
  lemma Progress(g: Setting, before: set<Atom>, after: set<Atom>, q: seq<Atom>, r: seq<Atom>)
    requires before <= after && g.Within(after) && Grown(q, r) && before == Elements(q) && after == Elements(r)
    ensures |Universe(g.arities, g.objects) - after| < |Universe(g.arities, g.objects) - before| || q == r
  {
    var u := Universe(g.arities, g.objects);
    if before != after {
      assert after == before + (after - before);
      var x := Member(after - before);
      assert u - after <= (u - before) - {x};
      SubsetSize(u - after, (u - before) - {x});
    } else {
      NothingGrown(q, r);
    }
  }

  lemma {:induction false} SubsetSize(a: set<Atom>, b: set<Atom>)
    requires a <= b
    ensures |a| <= |b|
  {
    assert b == a + (b - a);
  }

  lemma ConvertedAllFit(p: Program, arities: Arities, objects: set<string>)
    requires FitsProgram(arities, objects, p)
    ensures forall i :: 0 <= i < |p.rules| ==> Fits(arities, objects, ConvertedRules(p.rules)[i])
  {
    forall i | 0 <= i < |p.rules| ensures Fits(arities, objects, ConvertedRules(p.rules)[i]) {
      ConvertedFits(arities, objects, p.rules[i]);
    }
  }

  lemma RememberSame(rules: seq<Rule>, mem: Memory, popped: set<Atom>, a: Atom, b: Atom)
    requires Remembered(rules, mem, popped, a, [])
    ensures Remembered(rules, mem, popped, b, [])
  {
    forall i, j, x | 0 <= i < |rules| && 0 <= j < |mem[i]|
      ensures x in mem[i][j] <==> RemembersAtom(rules, popped, b, [], i, j, x)
    {
      assert x in mem[i][j] <==> RemembersAtom(rules, popped, a, [], i, j, x);
    }
  }

  lemma WithinArity(g: Setting, enqueued: set<Atom>, a: Atom)
    requires g.Within(enqueued) && a in enqueued
    ensures HasArity(g.arities, a.symbol, |a.args|)
  {
  }

  /** Everything that holds between two atoms. */
  ghost predicate Running(g: Setting, rs: seq<BuildRule>, unifier: Unifier, queue: Queue, mem: Memory, none: Atom)
    reads rs, unifier, queue
  {
    && g.Ok() && queue.Valid() && g.Within(queue.enqueued)
    && unifier.Valid() && unifier.arities == g.arities && EntriesOf(g.rules, |g.rules|, 0, unifier.entries)
    && Shows(rs, g.rules, mem) && AllClosed(g.rules, mem, queue.enqueued)
    && Remembered(g.rules, mem, Elements(queue.queue[..queue.queuePos]), none, [])
  }

  /** Pop an atom, find its matches and process them. */
  method Step(rs: seq<BuildRule>, ghost g: Setting, ghost mem: Memory, unifier: Unifier, queue: Queue, ghost none: Atom)
      returns (ghost mem': Memory)
    requires Running(g, rs, unifier, queue, mem, none) && queue.queuePos < |queue.queue|
    modifies rs, queue
    ensures Running(g, rs, unifier, queue, mem', none) && Grown(old(queue.queue), queue.queue)
    ensures
      var open := |Universe(g.arities, g.objects) - queue.enqueued|;
      var wasOpen := old(|Universe(g.arities, g.objects) - queue.enqueued|);
      open < wasOpen || (open == wasOpen && |queue.queue| - queue.queuePos < old(|queue.queue| - queue.queuePos))
  {
    hide Setting.Ok, Setting.Within, Shows, Remembered, AllClosed, EntriesOf, Unifier.Valid, MatchesOf, Universe, Grown;
    ghost var popped := Elements(queue.queue[..queue.queuePos]);
    ghost var before, first := queue.enqueued, queue.queue;
    var a := queue.Pop();
    assert a in first;
    WithinArity(g, before, a);
    var ms := unifier.Unify(a);
    UnifiedMatches(g.rules, unifier.entries, a, ms);
    RememberSame(g.rules, mem, popped, none, a);
    mem' := ProcessAtom(rs, g, mem, popped, a, ms, queue);
    AtomPopped(g.rules, mem', popped, a, ms, none);
    PoppedNow(first, queue.queue, queue.queuePos - 1);
    GrownSet(first, queue.queue);
    Progress(g, before, queue.enqueued, first, queue.queue);
  }

  lemma PoppedNow(before: seq<Atom>, after: seq<Atom>, k: nat)
    requires Grown(before, after) && k < |before|
    ensures Elements(after[..k + 1]) == Elements(before[..k]) + {before[k]}
  {
    assert after[..k + 1] == before[..k] + [before[k]];
  }

  lemma GrownSet(before: seq<Atom>, after: seq<Atom>)
    requires Grown(before, after)
    ensures Elements(before) <= Elements(after)
  {
    forall x | x in before ensures x in after {}
  }

  lemma AtomPopped(rules: seq<Rule>, mem: Memory, popped: set<Atom>, a: Atom, ms: seq<Match>, none: Atom)
    requires Remembered(rules, mem, popped, a, ms) && MatchesOf(rules, a, ms)
    ensures Remembered(rules, mem, popped + {a}, none, [])
  {
    hide MatchesCondition;
    RememberPopped(rules, mem, popped, a, ms, none);
  }

  lemma QueueIsModel(p: Program, arities: Arities, objects: set<string>, mem: Memory, model: seq<Atom>, none: Atom)
    requires Grown(p.facts, model)
    requires SettingOf(p, arities, objects).Within(Elements(model))
    requires Remembered(ConvertedRules(p.rules), mem, Elements(model), none, [])
    requires AllClosed(ConvertedRules(p.rules), mem, Elements(model))
    ensures IsLeastFiringModel(p.rules, AsModel(p.facts), AsModel(model))
  {
    hide Remembered, AllClosed, Universe, ClosedUnderFiring;
    ClosedIsFiringModel(ConvertedRules(p.rules), mem, Elements(model), none, AsModel(model));
    forall i | 0 <= i < |p.rules| ensures ClosedUnderFiring(AsModel(model), Converted(p.rules[i])) {
      assert ConvertedRules(p.rules)[i] == Converted(p.rules[i]);
    }
    assert forall a :: a in p.facts ==> a in model;
    forall n: iset<Atom> | IsFiringModel(p.rules, AsModel(p.facts), n) ensures AsModel(model) <= n {
      forall a | a in model ensures a in n {
        assert a in Fired(p.rules, AsModel(p.facts));
        assert InEveryFiringModel(p.rules, AsModel(p.facts), a);
      }
    }
  }

  /** The first part of compute_model: rules, unifier and queue. */
  method Prepare(p: Program, ghost arities: Arities, ghost objects: set<string>, ghost none: Atom)
      returns (rs: seq<BuildRule>, unifier: Unifier, queue: Queue, ghost mem: Memory)
    requires ValidProgram(p) && FitsProgram(arities, objects, p)
    ensures Running(SettingOf(p, arities, objects), rs, unifier, queue, mem, none)
    ensures fresh(rs) && fresh(unifier) && fresh(queue) && queue.queue == p.facts
  {
    hide Shows, Remembered, AllClosed, EntriesOf, Unifier.Valid, Setting.Ok, Setting.Within, Universe, Fired, Fits,
      BuildRule.Valid, ValidProgram, FitsProgram, Converted;
    ghost var g := SettingOf(p, arities, objects);
    SettingIsOk(p, arities, objects);
    rs := ConvertRules(p);
    ConvertedAllFit(p, arities, objects);
    unifier := BuildUnifier(ConvertedRules(p.rules), arities, objects);
    queue := new Queue(p.facts);
    mem := StartOk(g, rs, none, queue.enqueued);
    assert queue.queue[..0] == [];
    assert Elements([]) == {};
  }

  /**
    compute_model.  It terminates with exactly the facts and what firing derives from
    them.  That is a model of the program, and the least one if every variable shared
    by the conditions of a join occurs in its effect.
   */
  method ComputeModel(p: Program, ghost arities: Arities, ghost objects: set<string>) returns (model: seq<Atom>)
    requires ValidProgram(p) && FitsProgram(arities, objects, p)
    ensures IsLeastFiringModel(p.rules, AsModel(p.facts), AsModel(model))
    ensures IsModel(p.rules, AsModel(p.facts), AsModel(model))
    ensures (forall i :: 0 <= i < |p.rules| ==> CommonInEffect(p.rules[i])) ==>
      IsLeastModel(p.rules, AsModel(p.facts), AsModel(model))
  {
    ghost var g := SettingOf(p, arities, objects);
    ghost var none := Atom("", []);
    var rs, unifier, queue, mem := Prepare(p, arities, objects, none);
    hide Running, Fired, ValidRules, FitsProgram, IsModel, IsFiringModel, Universe, SettingOf, ConvertedRules,
      CommonInEffect, Grown;
    GrownSame(p.facts);
    while queue.queuePos < |queue.queue|
      invariant Running(g, rs, unifier, queue, mem, none) && fresh(queue) && fresh(rs)
      invariant Grown(p.facts, queue.queue)
      decreases |Universe(g.arities, g.objects) - queue.enqueued|, |queue.queue| - queue.queuePos
    {
      ghost var before := queue.queue;
      mem := Step(rs, g, mem, unifier, queue, none);
      GrownTwice(p.facts, before, queue.queue);
    }
    model := queue.queue;
    AllPopped(g, rs, unifier, queue, mem, none);
    assert g.rules == ConvertedRules(p.rules) by { SettingRules(p, arities, objects); }
    QueueIsModel(p, arities, objects, mem, model, none);
    LeastFiringModels(p.rules, AsModel(p.facts), AsModel(model));
  }

  lemma SettingRules(p: Program, arities: Arities, objects: set<string>)
    ensures SettingOf(p, arities, objects).rules == ConvertedRules(p.rules)
  {
  }

  lemma AllPopped(g: Setting, rs: seq<BuildRule>, unifier: Unifier, queue: Queue, mem: Memory, none: Atom)
    requires Running(g, rs, unifier, queue, mem, none) && queue.queuePos >= |queue.queue|
    ensures g.Within(Elements(queue.queue)) && Remembered(g.rules, mem, Elements(queue.queue), none, [])
    ensures AllClosed(g.rules, mem, Elements(queue.queue))
  {
    hide Setting.Within, Remembered, AllClosed, Shows, EntriesOf, Unifier.Valid;
    assert queue.queue[..queue.queuePos] == queue.queue;
  }
}
