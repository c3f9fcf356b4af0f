/**
  Renaming operators (simplify.py:333-386, 400-464): which entries and operators
  are dropped, and what the translated operator does to a renamed state.
 */
module OperatorRenaming {
  import opened Wrappers
  import opened SasTasks
  import opened DomainTransitionGraphs
  import opened Renamings

  /** `Failed` stands for a failing assertion of the source. */
  datatype EntryResult = Dropped | Kept(entry: PrePost) | EntryFailed

  datatype OperatorResult = Pruned | Translated(op: Operator) | OperatorFailed

  predicate Contradicts(conds: map<int, int>, c: seq<Fact>) {
    exists i :: 0 <= i < |c| && c[i].v in conds && conds[c[i].v] != c[i].val
  }

  function TranslateEntry(r: Renaming, e: PrePost, conds: map<int, int>): EntryResult
    requires CoversEntry(r, e)
  {
    var newPost := NewValueOf(r, Fact(e.v, e.post));
    var newPre := if e.pre == NO_PRE then Val(NO_PRE) else NewValueOf(r, Fact(e.v, e.pre));
    if newPost.AlwaysTrue? then Dropped
    else if newPre.AlwaysFalse? then EntryFailed
    else if newPost == newPre then Dropped
    else
      match Convert(r, e.cond)
      case None => Dropped
      case Some(c) =>
        if Contradicts(conds, c) then Dropped
        else if newPost.AlwaysFalse? || newPre.AlwaysTrue? then EntryFailed
        else Kept(PrePost(r.newVarNos[e.v].value, newPre.n, newPost.n, c))
  }

  /** The kept entries in order, `None` if an assertion fails. */
  function TranslateEntries(r: Renaming, es: seq<PrePost>, conds: map<int, int>): Option<seq<PrePost>>
    requires forall i :: 0 <= i < |es| ==> CoversEntry(r, es[i])
  {
    if es == [] then Some([])
    else
      match TranslateEntries(r, es[..|es| - 1], conds)
      case None => None
      case Some(rest) =>
        match TranslateEntry(r, es[|es| - 1], conds)
        case Dropped => Some(rest)
        case Kept(e) => Some(rest + [e])
        case EntryFailed => None
  }

  predicate HasEntryFor(es: seq<PrePost>, v: int) {
    exists i :: 0 <= i < |es| && es[i].v == v
  }

  function PrevailOf(conds: map<int, int>, es: seq<PrePost>): map<int, int> {
    map v | v in conds && !HasEntryFor(es, v) :: conds[v]
  }

  predicate CoversOperator(r: Renaming, op: Operator) {
    CoversAll(r, Items(ConditionMap(op))) && forall i :: 0 <= i < |op.prePost| ==> CoversEntry(r, op.prePost[i])
  }

  function TranslateOperator(r: Renaming, op: Operator): OperatorResult
    requires CoversOperator(r, op)
  {
    match Convert(r, Items(ConditionMap(op)))
    case None => Pruned
    case Some(c) =>
      var conds := Dict(c);
      match TranslateEntries(r, op.prePost, conds)
      case None => OperatorFailed
      case Some(es) =>
        if es == [] then Pruned
        else Translated(MakeOperator(op.name, Items(PrevailOf(conds, es)), es, op.cost))
  }

  // ----- No assertion fails on valid tasks -----

  lemma CoversValidOperator(task: Task, doms: seq<set<int>>, r: Renaming, op: Operator)
    requires Setting(task, doms, r) && ValidOperator(task.ranges, op)
    ensures CoversOperator(r, op)
  {
    ConditionsValid(task.ranges, op);
    CoversCondition(task, doms, r, Items(ConditionMap(op)));
    forall i | 0 <= i < |op.prePost| ensures CoversEntry(r, op.prePost[i]) {
      var e := op.prePost[i];
      assert ValidEntry(task.ranges, e);
      CoversCondition(task, doms, r, e.cond);
      ValueFacts(task, doms, r, e.v, e.post);
      if e.pre != NO_PRE { ValueFacts(task, doms, r, e.v, e.pre); }
    }
  }

  lemma {:induction false} CombinePreOfCondition(ranges: seq<int>, p: int, c: seq<Fact>, v: int)
    requires ValidCondition(ranges, c)
    requires p != NO_PRE ==> !MentionsVar(c, v)
    ensures CombinePre(p, c, v).Some?
    ensures CombinePre(p, c, v).value == p || (p == NO_PRE && Fact(v, CombinePre(p, c, v).value) in c)
    decreases |c|
  {
    if c != [] {
      var rest := c[1..];
      forall i | 0 <= i < |rest| ensures rest[i] == c[i + 1] && rest[i].v > c[0].v {}
      if c[0].v == v {
        assert MentionsVar(c, v);
        assert !MentionsVar(rest, v);
        CombinePreOfCondition(ranges, c[0].val, rest, v);
      } else {
        assert MentionsVar(rest, v) ==> MentionsVar(c, v) by {
          if MentionsVar(rest, v) {
            var i :| 0 <= i < |rest| && rest[i].v == v;
            assert c[i + 1].v == v;
          }
        }
        CombinePreOfCondition(ranges, p, rest, v);
      }
    }
  }

  /** The effective precondition of an entry of a valid operator. */
  lemma EffectivePreOfEntry(ranges: seq<int>, op: Operator, i: nat)
    requires ValidOperator(ranges, op) && i < |op.prePost|
    ensures var e := op.prePost[i]; var p := EffectivePre(op, e);
      && p.Some?
      && (e.pre != NO_PRE ==> p.value == e.pre)
      && (e.pre == NO_PRE ==> p.value == NO_PRE || Fact(e.v, p.value) in e.cond)
  {
    var e := op.prePost[i];
    ConditionMapFacts(ranges, op);
    assert ValidEntry(ranges, e);
    if e.pre == NO_PRE {
      assert !Conditioned(op, e.v);
    } else {
      assert Conditioned(op, e.v);
      forall j | 0 <= j < |e.cond| ensures e.cond[j].v != e.v { assert !Conditioned(op, e.cond[j].v); }
    }
    CombinePreOfCondition(ranges, OperatorPre(op, e.v), e.cond, e.v);
  }

  /** If no condition of an entry is ruled out, its value is in the domain. */
  lemma PostInDomain(task: Task, doms: seq<set<int>>, r: Renaming, k: nat, i: nat)
    requires Setting(task, doms, r) && k < |task.operators|
    requires var op := task.operators[k]; i < |op.prePost| && CoversOperator(r, op)
    requires var e := task.operators[k].prePost[i];
      && (e.pre != NO_PRE ==> e.pre in doms[e.v])
      && Convert(r, e.cond).Some?
    ensures task.operators[k].prePost[i].post in doms[task.operators[k].prePost[i].v]
  {
    var op := task.operators[k];
    var e := op.prePost[i];
    assert ValidOperator(task.ranges, op) && ValidEntry(task.ranges, e);
    EffectivePreOfEntry(task.ranges, op, i);
    var p := EffectivePre(op, e).value;
    var u := if p == NO_PRE then task.init[e.v] else p;
    if e.pre == NO_PRE && p != NO_PRE {
      var j :| 0 <= j < |e.cond| && e.cond[j] == Fact(e.v, p);
      ConvertElements(r, e.cond);
      assert NewValueOf(r, e.cond[j]) != AlwaysFalse;
      ValueFacts(task, doms, r, e.v, p);
    }
    assert u in doms[e.v];
    if u != e.post {
      assert EntryArc(task.ranges, op, e, e.v, u, e.post);
      assert OperatorArc(task.ranges, op, |op.prePost|, e.v, u, e.post);
      assert TaskArc(task.ranges, task.operators, e.v, u, e.post);
    }
  }

  /** If the operator's conditions are not ruled out, neither is a precondition. */
  lemma PreInDomain(task: Task, doms: seq<set<int>>, r: Renaming, op: Operator, i: nat)
    requires Setting(task, doms, r) && ValidOperator(task.ranges, op)
    requires i < |op.prePost| && op.prePost[i].pre != NO_PRE
    requires CoversOperator(r, op) && Convert(r, Items(ConditionMap(op))).Some?
    ensures op.prePost[i].pre in doms[op.prePost[i].v]
  {
    var e := op.prePost[i];
    assert ValidEntry(task.ranges, e);
    ValueFacts(task, doms, r, e.v, e.pre);
    ConditionMapFacts(task.ranges, op);
    var items := Items(ConditionMap(op));
    assert Fact(e.v, e.pre) in items;
    var j :| 0 <= j < |items| && items[j] == Fact(e.v, e.pre);
    ConvertElements(r, items);
    assert NewValueOf(r, items[j]) != AlwaysFalse;
  }

  lemma EntryDoesNotFail(task: Task, doms: seq<set<int>>, r: Renaming, k: nat, i: nat, conds: map<int, int>)
    requires Setting(task, doms, r) && k < |task.operators|
    requires var op := task.operators[k];
      i < |op.prePost| && CoversOperator(r, op) && Convert(r, Items(ConditionMap(op))).Some?
    ensures TranslateEntry(r, task.operators[k].prePost[i], conds) != EntryFailed
  {
    var op := task.operators[k];
    var e := op.prePost[i];
    assert ValidOperator(task.ranges, op) && ValidEntry(task.ranges, e);
    ValueFacts(task, doms, r, e.v, e.post);
    if e.pre != NO_PRE {
      PreInDomain(task, doms, r, op, i);
      ValueFacts(task, doms, r, e.v, e.pre);
    }
    if Convert(r, e.cond).Some? {
      PostInDomain(task, doms, r, k, i);
    }
  }

  lemma {:induction false} EntriesDoNotFail(task: Task, doms: seq<set<int>>, r: Renaming, k: nat, n: nat,
      conds: map<int, int>)
    requires Setting(task, doms, r) && k < |task.operators|
    requires var op := task.operators[k];
      n <= |op.prePost| && CoversOperator(r, op) && Convert(r, Items(ConditionMap(op))).Some?
    ensures TranslateEntries(r, task.operators[k].prePost[..n], conds).Some?
  {
    if n > 0 {
      var es := task.operators[k].prePost[..n];
      assert es[..n - 1] == task.operators[k].prePost[..n - 1];
      EntriesDoNotFail(task, doms, r, k, n - 1, conds);
      EntryDoesNotFail(task, doms, r, k, n - 1, conds);
    }
  }

  /** The assertions of `translate_pre_post` hold for every operator of a valid task. */
  lemma OperatorDoesNotFail(task: Task, doms: seq<set<int>>, r: Renaming, k: nat)
    requires Setting(task, doms, r) && k < |task.operators|
    ensures CoversOperator(r, task.operators[k])
    ensures TranslateOperator(r, task.operators[k]) != OperatorFailed
  {
    var op := task.operators[k];
    CoversValidOperator(task, doms, r, op);
    var c := Convert(r, Items(ConditionMap(op)));
    if c.Some? {
      EntriesDoNotFail(task, doms, r, k, |op.prePost|, Dict(c.value));
      assert op.prePost[..|op.prePost|] == op.prePost;
    }
  }
}
