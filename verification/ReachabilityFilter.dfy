/**
  Filtering unreachable propositions (simplify.py:231-315, 491-525) on whole
  tasks: the filtered task and the original have the same plans up to operators
  that change nothing.
 */
module ReachabilityFilter {
  import opened Wrappers
  import opened SasTasks
  import opened DomainTransitionGraphs
  import opened Renamings
  import opened OperatorRenaming
  import opened OperatorSimulation

  datatype FilterResult = Impossible | TriviallySolvable | Filtered(task: Task) | FilterFailed

  /** The translation of every operator. */
  function Results(r: Renaming, ops: seq<Operator>): (results: seq<OperatorResult>)
    requires forall i :: 0 <= i < |ops| ==> CoversOperator(r, ops[i])
    ensures |results| == |ops|
    ensures forall i :: 0 <= i < |ops| ==> results[i] == TranslateOperator(r, ops[i])
  {
    seq(|ops|, i requires 0 <= i < |ops| && CoversOperator(r, ops[i]) => TranslateOperator(r, ops[i]))
  }

  /** The translated operators in order, without the pruned ones; `None` if an assertion fails. */
  function Survivors(results: seq<OperatorResult>): Option<seq<Operator>> {
    if results == [] then Some([])
    else
      match Survivors(results[..|results| - 1])
      case None => None
      case Some(rest) =>
        match results[|results| - 1]
        case Pruned => Some(rest)
        case Translated(op) => Some(rest + [op])
        case OperatorFailed => None
  }

  function Enumerate(values: seq<int>): (c: seq<Fact>)
    ensures |c| == |values|
    ensures forall v :: 0 <= v < |values| ==> c[v] == Fact(v, values[v])
  {
    seq(|values|, v requires 0 <= v < |values| => Fact(v, values[v]))
  }

  /** The converted initial state, `None` if a new variable gets no value. */
  function ConvertInit(r: Renaming, init: seq<int>): Option<seq<int>>
    requires CoversAll(r, Enumerate(init))
  {
    match Convert(r, Enumerate(init))
    case None => None
    case Some(c) =>
      var values := Dict(c);
      if forall k :: 0 <= k < |r.newSizes| ==> k in values
      then Some(seq(|r.newSizes|, k requires 0 <= k < |r.newSizes| && k in values => values[k]))
      else None
  }

  predicate CoversTask(r: Renaming, task: Task) {
    && CoversAll(r, Enumerate(task.init)) && CoversAll(r, task.goal)
    && forall i :: 0 <= i < |task.operators| ==> CoversOperator(r, task.operators[i])
  }

  function ApplyToTask(r: Renaming, task: Task): FilterResult
    requires CoversTask(r, task)
  {
    match ConvertInit(r, task.init)
    case None => FilterFailed
    case Some(init) =>
      match Convert(r, task.goal)
      case None => Impossible
      case Some(goal) =>
        if goal == [] then TriviallySolvable
        else
          match Survivors(Results(r, task.operators))
          case None => FilterFailed
          case Some(ops) => Filtered(Task(r.newSizes, init, goal, ops))
  }

  // ----- One operator step -----

  lemma DomainsStep(task: Task, doms: seq<set<int>>, op: Operator, s: State)
    requires ValidTask(task) && Domains(task, doms) && op in task.operators
    requires InDomains(doms, s) && Applicable(op, s)
    ensures InDomains(doms, Successor(op, s))
  {
    var k :| 0 <= k < |task.operators| && task.operators[k] == op;
    var t := Successor(op, s);
    forall v | 0 <= v < |t| ensures t[v] in doms[v] {
      ChangeIsArc(task.ranges, op, s, v);
      if t[v] != s[v] {
        assert TaskArc(task.ranges, task.operators, v, s[v], t[v]);
      }
    }
  }

  lemma RemovedUnchanged(doms: seq<set<int>>, s: State, t: State, v: int)
    requires InDomains(doms, s) && InDomains(doms, t) && 0 <= v < |doms| && |doms[v]| == 1
    ensures s[v] == t[v]
  {
    OneElement(doms[v], s[v], t[v]);
  }

  /** An entry that triggers in a state within the domains sets a value within the domain. */
  lemma TriggeredPostInDomain(task: Task, doms: seq<set<int>>, r: Renaming, k: nat, s: State, t: State, i: nat)
    requires k < |task.operators| && Step(task, doms, r, task.operators[k], s, t)
    requires i < |task.operators[k].prePost| && Satisfies(s, task.operators[k].prePost[i].cond)
    ensures task.operators[k].prePost[i].post in doms[task.operators[k].prePost[i].v]
  {
    var op := task.operators[k];
    var e := op.prePost[i];
    assert ValidEntry(task.ranges, e);
    ConvertMeaning(task, doms, r, s, t, e.cond);
    if e.pre != NO_PRE { PreInDomain(task, doms, r, op, i); }
    PostInDomain(task, doms, r, k, i);
  }

  lemma NothingHiddenWhenRemoved(task: Task, doms: seq<set<int>>, r: Renaming, k: nat, s: State, t: State, v: int)
    requires k < |task.operators| && Step(task, doms, r, task.operators[k], s, t)
    requires 0 <= v < |doms| && |doms[v]| == 1
    ensures !Hides(task.operators[k], s, v)
  {
    var op := task.operators[k];
    forall i, j | 0 <= i < |op.prePost| && 0 <= j < |op.prePost| && Sets(s, op.prePost[i], v) && Sets(s, op.prePost[j], v)
      ensures op.prePost[i].post == op.prePost[j].post
    {
      TriggeredPostInDomain(task, doms, r, k, s, t, i);
      TriggeredPostInDomain(task, doms, r, k, s, t, j);
      OneElement(doms[v], op.prePost[i].post, op.prePost[j].post);
    }
  }

  ghost predicate HidesSomewhere(op: Operator, s: State) {
    exists v :: 0 <= v < |s| && Hides(op, s, v)
  }

  lemma VariableAgrees(task: Task, doms: seq<set<int>>, r: Renaming, op: Operator, s: State, t: State, ns: seq<PrePost>,
                       v: int, x: int, n: int)
    requires Step(task, doms, r, op, s, t) && NewEntries(r, op, ns) && Applicable(op, s)
    requires 0 <= v < |task.ranges| && r.newVarNos[v].Some?
    requires NewValue(s, op.prePost, v, x) && NewValue(t, ns, r.newVarNos[v].value, n)
    ensures SameFate(r, v, x, n) <==> !Hides(op, s, v)
  {
    hide NewEntries, Step, Hides, NewValue, SameFate, Applicable;
    if Hides(op, s, v) {
      ValueDiffers(task, doms, r, op, s, t, ns, v, x, n);
    } else {
      ValueSimulated(task, doms, r, op, s, t, ns, v, x, n);
    }
  }

  /** The kept variables of both successors agree exactly when nothing is hidden. */
  lemma SuccessorsAgree(task: Task, doms: seq<set<int>>, r: Renaming, k: nat, s: State, t: State, ns: seq<PrePost>,
      u: State)
    requires k < |task.operators| && Step(task, doms, r, task.operators[k], s, t)
    requires NewEntries(r, task.operators[k], ns) && Applicable(task.operators[k], s)
    requires |u| == |r.newSizes| && forall n :: 0 <= n < |u| ==> NewValue(t, ns, n, u[n])
    ensures Renamed(doms, r, Successor(task.operators[k], s), u) <==> !HidesSomewhere(task.operators[k], s)
  {
    hide NewEntries, Hides, NewValue, Applicable, ValidOperator, Convert;
    var op := task.operators[k];
    var x := Successor(op, s);
    DomainsStep(task, doms, op, s);
    forall v | 0 <= v < |s| && r.newVarNos[v].Some?
      ensures SameFate(r, v, x[v], u[r.newVarNos[v].value]) <==> !Hides(op, s, v)
    {
      HighestPostWins(task.ranges, op, s, v);
      VariableAgrees(task, doms, r, op, s, t, ns, v, x[v], u[r.newVarNos[v].value]);
    }
    forall v | 0 <= v < |s| && r.newVarNos[v].None? ensures !Hides(op, s, v) {
      NothingHiddenWhenRemoved(task, doms, r, k, s, t, v);
    }
  }

  /** The states have the same renaming only if they are the same. */
  lemma RenamedInjective(task: Task, doms: seq<set<int>>, r: Renaming, s: State, x: State, t: State)
    requires Setting(task, doms, r) && Renamed(doms, r, s, t) && Renamed(doms, r, x, t)
    ensures s == x
  {
    forall v | 0 <= v < |s| ensures s[v] == x[v] {
      if r.newVarNos[v].Some? {
        SameValue(task, doms, r, v, s[v], x[v]);
      } else {
        RemovedUnchanged(doms, s, x, v);
      }
    }
  }

  /** The translation of an operator, at every pair of corresponding states:
      it is applicable exactly when the original is, and the successors correspond
      exactly when no entry hides a lower one.  A pruned operator changes nothing. */
  lemma OperatorBisimulation(task: Task, doms: seq<set<int>>, r: Renaming, k: nat, s: State, t: State)
    requires Setting(task, doms, r) && k < |task.operators| && Renamed(doms, r, s, t)
    ensures CoversOperator(r, task.operators[k])
    ensures var op := task.operators[k];
      match TranslateOperator(r, op)
      case OperatorFailed => false
      case Pruned => Applicable(op, s) ==> Successor(op, s) == s
      case Translated(n) =>
        && ValidOperator(r.newSizes, n) && n.cost == op.cost && n.name == op.name
        && (Applicable(n, t) <==> Applicable(op, s))
        && (Applicable(op, s) ==>
              (Renamed(doms, r, Successor(op, s), Successor(n, t)) <==> !HidesSomewhere(op, s)))
  {
    var op := task.operators[k];
    OperatorDoesNotFail(task, doms, r, k);
    ConditionsMeanApplicable(task.ranges, op, s);
    ConditionsValid(task.ranges, op);
    ConvertMeaning(task, doms, r, s, t, Items(ConditionMap(op)));
    if Convert(r, Items(ConditionMap(op))).Some? {
      var ns := TranslateEntries(r, op.prePost, Dict(NewConditions(r, op))).value;
      if ns == [] {
        if Applicable(op, s) {
          PrunedIsIdle(task, doms, r, k, s, t);
        }
      } else {
        var n := NewOperator(r, op, ns);
        ApplicabilityPreserved(task, doms, r, op, s, t, ns);
        NewOperatorValid(task, doms, r, op, ns);
        if Applicable(op, s) {
          TranslatedSuccessor(task, doms, r, op, ns, t);
          SuccessorsAgree(task, doms, r, k, s, t, ns, Successor(n, t));
        }
      }
    }
  }

  lemma TranslatedSuccessor(task: Task, doms: seq<set<int>>, r: Renaming, op: Operator, ns: seq<PrePost>, t: State)
    requires Setting(task, doms, r) && ValidOperator(task.ranges, op) && NewEntries(r, op, ns) && ns != []
    requires |t| == |r.newSizes|
    ensures forall n :: 0 <= n < |t| ==> NewValue(t, ns, n, Successor(NewOperator(r, op, ns), t)[n])
  {
    var op' := NewOperator(r, op, ns);
    NewOperatorValid(task, doms, r, op, ns);
    forall n | 0 <= n < |t| ensures NewValue(t, ns, n, Successor(op', t)[n]) {
      HighestPostWins(r.newSizes, op', t, n);
      NewValueOfSet(t, op'.prePost, ns, n, Successor(op', t)[n]);
    }
  }

  lemma PrunedIsIdle(task: Task, doms: seq<set<int>>, r: Renaming, k: nat, s: State, t: State)
    requires k < |task.operators| && Step(task, doms, r, task.operators[k], s, t)
    requires NewEntries(r, task.operators[k], []) && Applicable(task.operators[k], s)
    ensures Successor(task.operators[k], s) == s
  {
    var op := task.operators[k];
    var x := Successor(op, s);
    DomainsStep(task, doms, op, s);
    forall v | 0 <= v < |s| ensures x[v] == s[v] {
      if r.newVarNos[v].Some? {
        HighestPostWins(task.ranges, op, s, v);
        IdleSimulated(task, doms, r, op, s, t, [], v, x[v]);
      } else {
        RemovedUnchanged(doms, s, x, v);
      }
    }
  }

  // ----- When renaming is a bisimulation -----

  ghost predicate NeverHides(task: Task, doms: seq<set<int>>) {
    forall k, s :: 0 <= k < |task.operators| && InDomains(doms, s) && Applicable(task.operators[k], s) ==>
      !HidesSomewhere(task.operators[k], s)
  }

  /** No entry that requires the value it sets has a lower entry beside it. */
  predicate NoHiding(task: Task) {
    forall k :: 0 <= k < |task.operators| ==> NoHidingEntry(task.operators[k])
  }

  predicate NoHidingEntry(op: Operator) {
    forall i, j :: 0 <= i < |op.prePost| && 0 <= j < |op.prePost| &&
                   op.prePost[i].v == op.prePost[j].v && op.prePost[i].pre == op.prePost[i].post ==>
                     op.prePost[i].post <= op.prePost[j].post
  }

  lemma NoHidingNeverHides(task: Task, doms: seq<set<int>>)
    requires NoHiding(task)
    ensures NeverHides(task, doms)
  {
    forall k, s, v | 0 <= k < |task.operators| ensures !Hides(task.operators[k], s, v) {
      assert NoHidingEntry(task.operators[k]);
    }
  }

  /** The translation of `op` follows it from `s`, or `op` changes nothing in `s`. */
  ghost predicate Commutes(doms: seq<set<int>>, r: Renaming, op: Operator, result: OperatorResult, s: State, t: State) {
    match result
    case OperatorFailed => false
    case Pruned => Successor(op, s) == s
    case Translated(n) =>
      && Applicable(n, t) && n.cost == op.cost && n.name == op.name
      && Renamed(doms, r, Successor(op, s), Successor(n, t))
  }

  /** Corresponding states have corresponding successors under every operator. */
  ghost predicate StepsCommute(task: Task, doms: seq<set<int>>, r: Renaming)
    requires forall k :: 0 <= k < |task.operators| ==> CoversOperator(r, task.operators[k])
  {
    var results := Results(r, task.operators);
    forall k, s, t :: 0 <= k < |task.operators| && Renamed(doms, r, s, t) && Applicable(task.operators[k], s) ==>
      Commutes(doms, r, task.operators[k], results[k], s, t)
  }

  ghost predicate HasOldVar(r: Renaming, k: int) {
    exists v :: 0 <= v < |r.newVarNos| && r.newVarNos[v] == Some(k)
  }

  ghost function OldVar(r: Renaming, k: int): (v: int)
    requires HasOldVar(r, k)
    ensures 0 <= v < |r.newVarNos| && r.newVarNos[v] == Some(k)
  {
    var v :| 0 <= v < |r.newVarNos| && r.newVarNos[v] == Some(k);
    v
  }

  lemma OldVarExists(task: Task, doms: seq<set<int>>, r: Renaming, k: int)
    requires Setting(task, doms, r) && 0 <= k < |r.newSizes|
    ensures HasOldVar(r, k)
  {
    var v :| 0 <= v < |task.ranges| && r.newVarNos[v] == Some(k);
  }

  lemma RenamedExists(task: Task, doms: seq<set<int>>, r: Renaming, s: State) returns (t: State)
    requires Setting(task, doms, r) && InDomains(doms, s)
    ensures Renamed(doms, r, s, t)
  {
    forall v | 0 <= v < |s|
      ensures Covers(r, Fact(v, s[v])) && (r.newVarNos[v].Some? ==> NewValueOf(r, Fact(v, s[v])).Val?)
    {
      ValueFacts(task, doms, r, v, s[v]);
    }
    forall k | 0 <= k < |r.newSizes| ensures HasOldVar(r, k) {
      OldVarExists(task, doms, r, k);
    }
    t := seq(|r.newSizes|, k requires 0 <= k < |r.newSizes| && HasOldVar(r, k) =>
      r.newValues[OldVar(r, k)][s[OldVar(r, k)]].n);
    forall v | 0 <= v < |s| && r.newVarNos[v].Some?
      ensures NewValueOf(r, Fact(v, s[v])) == Val(t[r.newVarNos[v].value])
    {
      assert OldVar(r, r.newVarNos[v].value) == v;
    }
  }

  lemma NoEntriesHideNothing(task: Task, doms: seq<set<int>>, r: Renaming, op: Operator, s: State, t: State, v: int)
    requires Step(task, doms, r, op, s, t) && NewEntries(r, op, []) && Applicable(op, s)
    requires 0 <= v < |s| && r.newVarNos[v].Some?
    ensures !Hides(op, s, v)
  {
    forall j | 0 <= j < |op.prePost| && Sets(s, op.prePost[j], v) ensures op.prePost[j].pre == op.prePost[j].post {
      if op.prePost[j].pre != op.prePost[j].post {
        var q := ToNew(task, doms, r, op, s, t, [], v, j);
        assert false;
      }
    }
  }

  /** An applicable operator is pruned for having no entry left. */
  lemma PrunedHasNoEntries(task: Task, doms: seq<set<int>>, r: Renaming, k: nat, s: State, t: State)
    requires Setting(task, doms, r) && k < |task.operators| && Renamed(doms, r, s, t)
    requires Applicable(task.operators[k], s)
    requires CoversOperator(r, task.operators[k]) && TranslateOperator(r, task.operators[k]) == Pruned
    ensures Step(task, doms, r, task.operators[k], s, t) && NewEntries(r, task.operators[k], [])
  {
    var op := task.operators[k];
    assert ValidOperator(task.ranges, op);
    ConditionsMeanApplicable(task.ranges, op, s);
    ConditionsValid(task.ranges, op);
    ConvertMeaning(task, doms, r, s, t, Items(ConditionMap(op)));
    hide Setting, Renamed, ValidOperator, Applicable, Convert, TranslateEntries, ConditionMap, Dict, CoversAll,
      CoversEntry, Satisfies, ValidCondition;
  }

  lemma PrunedHidesNothing(task: Task, doms: seq<set<int>>, r: Renaming, k: nat, s: State, t: State)
    requires Setting(task, doms, r) && k < |task.operators| && Renamed(doms, r, s, t)
    requires Applicable(task.operators[k], s)
    requires CoversOperator(r, task.operators[k]) && TranslateOperator(r, task.operators[k]) == Pruned
    ensures !HidesSomewhere(task.operators[k], s)
  {
    var op := task.operators[k];
    PrunedHasNoEntries(task, doms, r, k, s, t);
    StateSizes(task, doms, r, s, t);
    hide Setting, Renamed, Step, NewEntries, Hides, Applicable, TranslateOperator, CoversOperator;
    forall v | 0 <= v < |s| ensures !Hides(op, s, v) {
      if r.newVarNos[v].None? {
        NothingHiddenWhenRemoved(task, doms, r, k, s, t, v);
      } else {
        NoEntriesHideNothing(task, doms, r, op, s, t, v);
      }
    }
  }

  lemma StateSizes(task: Task, doms: seq<set<int>>, r: Renaming, s: State, t: State)
    requires Setting(task, doms, r) && Renamed(doms, r, s, t)
    ensures |s| == |doms| == |task.ranges| == |r.newVarNos|
    ensures forall v :: 0 <= v < |s| ==> (r.newVarNos[v].None? <==> |doms[v]| == 1)
  {
  }

  /** Renaming commutes with every operator exactly when no applicable operator
      ever hides a lower entry behind one that requires the value it sets. */
  lemma CommutesIffNeverHides(task: Task, doms: seq<set<int>>, r: Renaming)
    requires Setting(task, doms, r)
    ensures forall k :: 0 <= k < |task.operators| ==> CoversOperator(r, task.operators[k])
    ensures StepsCommute(task, doms, r) <==> NeverHides(task, doms)
  {
    forall k | 0 <= k < |task.operators| ensures CoversOperator(r, task.operators[k]) {
      CoversValidOperator(task, doms, r, task.operators[k]);
    }
    forall k, s, t | 0 <= k < |task.operators| && Renamed(doms, r, s, t) && Applicable(task.operators[k], s)
      ensures Commutes(doms, r, task.operators[k], Results(r, task.operators)[k], s, t) <==> !HidesSomewhere(task.operators[k], s)
    {
      OperatorBisimulation(task, doms, r, k, s, t);
      if TranslateOperator(r, task.operators[k]) == Pruned {
        PrunedHidesNothing(task, doms, r, k, s, t);
      }
    }
    if StepsCommute(task, doms, r) {
      forall k, s | 0 <= k < |task.operators| && InDomains(doms, s) && Applicable(task.operators[k], s)
        ensures !HidesSomewhere(task.operators[k], s)
      {
        var t := RenamedExists(task, doms, r, s);
        assert Commutes(doms, r, task.operators[k], Results(r, task.operators)[k], s, t);
      }
    }
  }

  // ----- Initial state and goal -----

  lemma InitConverts(task: Task, doms: seq<set<int>>, r: Renaming, t: State)
    requires Setting(task, doms, r) && Renamed(doms, r, task.init, t)
    ensures CoversAll(r, Enumerate(task.init)) && Convert(r, Enumerate(task.init)).Some?
    ensures DistinctVars(Convert(r, Enumerate(task.init)).value)
  {
    var c := Enumerate(task.init);
    assert Satisfies(task.init, c);
    ConvertMeaning(task, doms, r, task.init, t, c);
    ConvertValid(task, doms, r, c);
  }

  lemma InitValue(task: Task, doms: seq<set<int>>, r: Renaming, t: State, k: int)
    requires Setting(task, doms, r) && Renamed(doms, r, task.init, t) && 0 <= k < |r.newSizes|
    requires CoversAll(r, Enumerate(task.init)) && Convert(r, Enumerate(task.init)).Some?
    ensures Fact(k, t[k]) in Convert(r, Enumerate(task.init)).value
  {
    var c := Enumerate(task.init);
    ConvertElements(r, c);
    OldVarExists(task, doms, r, k);
    var v := OldVar(r, k);
    assert Image(r, c[v], Fact(k, t[k]));
  }

  lemma InitRenamed(task: Task, doms: seq<set<int>>, r: Renaming)
    requires Setting(task, doms, r)
    ensures CoversAll(r, Enumerate(task.init))
    ensures ConvertInit(r, task.init).Some? && Renamed(doms, r, task.init, ConvertInit(r, task.init).value)
  {
    var c := Enumerate(task.init);
    assert InDomains(doms, task.init);
    var t := RenamedExists(task, doms, r, task.init);
    hide Setting, Convert;
    InitConverts(task, doms, r, t);
    var d := Convert(r, c).value;
    DictFacts(d);
    forall k | 0 <= k < |r.newSizes| ensures k in Dict(d) && Dict(d)[k] == t[k] {
      InitValue(task, doms, r, t, k);
      var i :| 0 <= i < |d| && d[i] == Fact(k, t[k]);
    }
    assert ConvertInit(r, task.init).value == t;
  }

  lemma {:induction false} SurvivorsElements(results: seq<OperatorResult>)
    requires forall i :: 0 <= i < |results| ==> results[i] != OperatorFailed
    ensures Survivors(results).Some?
    ensures forall n :: n in Survivors(results).value <==> exists i :: 0 <= i < |results| && results[i] == Translated(n)
  {
    if results != [] {
      var rest := results[..|results| - 1];
      SurvivorsElements(rest);
      assert forall i :: 0 <= i < |rest| ==> rest[i] == results[i];
    }
  }

  /** The translated operators come in the order of their originals. */
  lemma {:induction false} SurvivorsInOrder(results: seq<OperatorResult>) returns (kept: seq<int>)
    requires forall i :: 0 <= i < |results| ==> results[i] != OperatorFailed
    ensures Survivors(results).Some? && |kept| == |Survivors(results).value|
    ensures forall k, l :: 0 <= k < l < |kept| ==> kept[k] < kept[l]
    ensures forall i :: i in kept <==> 0 <= i < |results| && results[i].Translated?
    ensures forall k :: 0 <= k < |kept| ==>
      0 <= kept[k] < |results| && results[kept[k]] == Translated(Survivors(results).value[k])
  {
    kept := [];
    if results != [] {
      var front := results[..|results| - 1];
      kept := SurvivorsInOrder(front);
      assert forall i :: 0 <= i < |front| ==> front[i] == results[i];
      forall k | 0 <= k < |kept| ensures kept[k] < |front| { assert kept[k] in kept; }
      if results[|results| - 1].Translated? { kept := kept + [|results| - 1]; }
    }
  }

  lemma CoversValidTask(task: Task, doms: seq<set<int>>, r: Renaming)
    requires Setting(task, doms, r)
    ensures CoversTask(r, task)
  {
    InitRenamed(task, doms, r);
    CoversCondition(task, doms, r, task.goal);
    forall k | 0 <= k < |task.operators| ensures CoversOperator(r, task.operators[k]) {
      CoversValidOperator(task, doms, r, task.operators[k]);
    }
  }

  lemma NewVariablesValid(task: Task, doms: seq<set<int>>, r: Renaming, t: State)
    requires Setting(task, doms, r) && Renamed(doms, r, task.init, t)
    ensures ValidState(r.newSizes, t)
    ensures forall k :: 0 <= k < |r.newSizes| ==> r.newSizes[k] >= 2
  {
    forall k | 0 <= k < |r.newSizes| ensures r.newSizes[k] >= 2 && 0 <= t[k] < r.newSizes[k] {
      OldVarExists(task, doms, r, k);
      var v := OldVar(r, k);
      ValueFacts(task, doms, r, v, task.init[v]);
      assert |doms[v]| != 0 by { assert task.init[v] in doms[v]; }
    }
  }

  lemma NewOperatorsValid(task: Task, doms: seq<set<int>>, r: Renaming, n: Operator)
    requires Setting(task, doms, r) && CoversTask(r, task)
    ensures Survivors(Results(r, task.operators)).Some?
    ensures n in Survivors(Results(r, task.operators)).value ==> ValidOperator(r.newSizes, n)
  {
    hide Setting, TranslateOperator, ValidOperator;
    InitRenamed(task, doms, r);
    var t := ConvertInit(r, task.init).value;
    var results := Results(r, task.operators);
    forall k | 0 <= k < |task.operators|
      ensures results[k] != OperatorFailed
      ensures forall n :: results[k] == Translated(n) ==> ValidOperator(r.newSizes, n)
    {
      OperatorBisimulation(task, doms, r, k, task.init, t);
    }
    SurvivorsElements(results);
  }

  /** The filtered task passes the validity rules again, and no assertion fails. */
  lemma FilteredIsValid(task: Task, doms: seq<set<int>>, r: Renaming)
    requires Setting(task, doms, r)
    ensures CoversTask(r, task)
    ensures ApplyToTask(r, task) != FilterFailed
    ensures ApplyToTask(r, task).Filtered? ==> ValidTask(ApplyToTask(r, task).task)
  {
    CoversValidTask(task, doms, r);
    PartsValid(task, doms, r);
    hide Setting, ValidOperator, Convert, ConvertInit, CoversTask, Results, Survivors, ValidCondition, ValidState;
    var result := ApplyToTask(r, task);
    if result.Filtered? {
      forall i | 0 <= i < |result.task.operators| ensures ValidOperator(r.newSizes, result.task.operators[i]) {
        assert result.task.operators[i] in result.task.operators;
        NewOperatorsValid(task, doms, r, result.task.operators[i]);
      }
    }
  }

  lemma PartsValid(task: Task, doms: seq<set<int>>, r: Renaming)
    requires Setting(task, doms, r) && CoversTask(r, task)
    ensures ConvertInit(r, task.init).Some? && ValidState(r.newSizes, ConvertInit(r, task.init).value)
    ensures forall k :: 0 <= k < |r.newSizes| ==> r.newSizes[k] >= 2
    ensures Convert(r, task.goal).Some? ==> ValidCondition(r.newSizes, Convert(r, task.goal).value)
    ensures Survivors(Results(r, task.operators)).Some?
  {
    hide Renames, Domains, Renamed, ValidOperator, Convert, ConvertInit, Results, Survivors;
    InitRenamed(task, doms, r);
    ConvertValid(task, doms, r, task.goal);
    NewVariablesValid(task, doms, r, ConvertInit(r, task.init).value);
    NewOperatorsValid(task, doms, r, Operator("", [], [], 0));
  }

  // ----- Plans -----

  lemma AllTranslated(task: Task, doms: seq<set<int>>, r: Renaming)
    requires Setting(task, doms, r)
    ensures CoversTask(r, task)
    ensures forall i :: 0 <= i < |task.operators| ==> TranslateOperator(r, task.operators[i]) != OperatorFailed
  {
    CoversValidTask(task, doms, r);
    forall k | 0 <= k < |task.operators| ensures TranslateOperator(r, task.operators[k]) != OperatorFailed {
      OperatorDoesNotFail(task, doms, r, k);
    }
  }

  ghost predicate ListsSurvivors(task: Task, r: Renaming, small: seq<Operator>) {
    && (forall k :: 0 <= k < |task.operators| ==> CoversOperator(r, task.operators[k]))
    && (var results := Results(r, task.operators);
        forall n :: n in small <==> exists i :: 0 <= i < |results| && results[i] == Translated(n))
  }

  lemma FilteredOperators(task: Task, doms: seq<set<int>>, r: Renaming, small: Task)
    requires Setting(task, doms, r) && CoversTask(r, task) && ApplyToTask(r, task) == Filtered(small)
    ensures ListsSurvivors(task, r, small.operators)
  {
    hide Setting, TranslateOperator, Convert, ConvertInit, CoversOperator;
    AllTranslated(task, doms, r);
    SurvivorsElements(Results(r, task.operators));
  }

  /** The filtered task follows the original one, standing still for pruned operators. */
  lemma FilterFollows(task: Task, doms: seq<set<int>>, r: Renaming, small: seq<Operator>)
    requires Setting(task, doms, r) && ListsSurvivors(task, r, small) && StepsCommute(task, doms, r)
    ensures Simulates((s, t) => Renamed(doms, r, s, t), task.operators, small, false)
  {
    var results := Results(r, task.operators);
    forall k, s, t | 0 <= k < |task.operators| && Renamed(doms, r, s, t) && Applicable(task.operators[k], s)
      ensures StepMatched((s, t) => Renamed(doms, r, s, t), task.operators[k], small, false, s, t)
    {
      assert Commutes(doms, r, task.operators[k], results[k], s, t);
      assert task.operators[k].cost >= 0 by { assert ValidOperator(task.ranges, task.operators[k]); }
      StepForward(doms, r, task.operators, results, small, k, s, t);
    }
  }

  /** The original task follows the filtered one step by step. */
  lemma FilterIsFollowed(task: Task, doms: seq<set<int>>, r: Renaming, small: seq<Operator>)
    requires Setting(task, doms, r) && NeverHides(task, doms) && ListsSurvivors(task, r, small)
    ensures Simulates((t, s) => Renamed(doms, r, s, t), small, task.operators, true)
  {
    var results := Results(r, task.operators);
    forall k, s, t | 0 <= k < |small| && Renamed(doms, r, s, t) && Applicable(small[k], t)
      ensures StepMatched((t, s) => Renamed(doms, r, s, t), small[k], task.operators, true, t, s)
    {
      assert small[k] in small;
      var i :| 0 <= i < |task.operators| && results[i] == Translated(small[k]);
      StepBackward(task, doms, r, i, small[k], s, t);
    }
  }

  lemma StepBackward(task: Task, doms: seq<set<int>>, r: Renaming, i: nat, n: Operator, s: State, t: State)
    requires Setting(task, doms, r) && NeverHides(task, doms)
    requires i < |task.operators| && CoversOperator(r, task.operators[i])
    requires TranslateOperator(r, task.operators[i]) == Translated(n)
    requires Renamed(doms, r, s, t) && Applicable(n, t)
    ensures Applicable(task.operators[i], s) && n.cost == task.operators[i].cost && n.name == task.operators[i].name
    ensures Renamed(doms, r, Successor(task.operators[i], s), Successor(n, t))
  {
    OperatorBisimulation(task, doms, r, i, s, t);
  }

  lemma StepForward(doms: seq<set<int>>, r: Renaming, ops: seq<Operator>, results: seq<OperatorResult>,
                    small: seq<Operator>, k: nat, s: State, t: State)
    requires |results| == |ops| && k < |ops| && ops[k].cost >= 0
    requires results[k].Translated? ==> results[k].op in small
    requires Commutes(doms, r, ops[k], results[k], s, t) && Renamed(doms, r, s, t)
    ensures StepMatched((s, t) => Renamed(doms, r, s, t), ops[k], small, false, s, t)
  {
    if results[k].Translated? {
      var j :| 0 <= j < |small| && small[j] == results[k].op;
    }
  }

  /** What an exception says about the task, and what the filtered task keeps if no entry ever
      hides a lower one. */
  lemma FilterPreservesPlans(task: Task, doms: seq<set<int>>, r: Renaming)
    requires Setting(task, doms, r)
    ensures CoversTask(r, task)
    ensures match ApplyToTask(r, task)
      case FilterFailed => false
      case Impossible => forall c :: !SolvableAtCost(task, c)
      case TriviallySolvable => SolvesWithCost(task, [], 0)
      case Filtered(small) => ValidTask(small) && (NeverHides(task, doms) ==> KeepsPlans(task, small))
  {
    hide KeepsPlans, NeverHides;
    FilteredIsValid(task, doms, r);
    InitRenamed(task, doms, r);
    match ApplyToTask(r, task)
    case FilterFailed =>
    case Impossible =>
      forall c, plan ensures !SolvesWithCost(task, plan, c) {
        if SolvesWithCost(task, plan, c) { GoalStaysPossible(task, doms, r, plan, task.init); }
      }
    case TriviallySolvable =>
      ConvertMeaning(task, doms, r, task.init, ConvertInit(r, task.init).value, task.goal);
    case Filtered(small) =>
      if NeverHides(task, doms) { FilteredKeepsPlans(task, doms, r, small); }
  }

  lemma FilteredKeepsPlans(task: Task, doms: seq<set<int>>, r: Renaming, small: Task)
    requires Setting(task, doms, r) && NeverHides(task, doms)
    requires CoversTask(r, task) && ApplyToTask(r, task) == Filtered(small)
    ensures KeepsPlans(task, small)
  {
    FilteredIsValid(task, doms, r);
    InitRenamed(task, doms, r);
    var t := ConvertInit(r, task.init).value;
    FilteredOperators(task, doms, r, small);
    CommutesIffNeverHides(task, doms, r);
    FilterFollows(task, doms, r, small.operators);
    FilterIsFollowed(task, doms, r, small.operators);
    forall names, c | SolvableBy(small, names, c) ensures SolvableBy(task, names, c) {
      var q :| SolvesWithCost(small, q, c) && Names(q) == names;
      var plan := SimulationTransfersPlans((t, s) => Renamed(doms, r, s, t), small.operators, task.operators, true,
                                           q, t, task.init);
      ConvertMeaning(task, doms, r, Execute(task.init, plan).s, Execute(t, q).s, task.goal);
      assert SolvesWithCost(task, plan, c);
    }
    forall names, c | SolvableBy(task, names, c) ensures SolvableWithin(small, names, c) {
      var plan :| SolvesWithCost(task, plan, c) && Names(plan) == names;
      var q := SimulationTransfersPlans((s, t) => Renamed(doms, r, s, t), task.operators, small.operators, false,
                                        plan, task.init, t);
      ConvertMeaning(task, doms, r, Execute(task.init, plan).s, Execute(t, q).s, task.goal);
      assert SolvesWithCost(small, q, Execute(t, q).cost);
    }
  }

  /** A run that ends in a goal state shows that the goal can be converted. */
  lemma {:induction false} GoalStaysPossible(task: Task, doms: seq<set<int>>, r: Renaming, plan: seq<Operator>,
      s: State)
    requires Setting(task, doms, r) && InDomains(doms, s)
    requires PlanOf(task.operators, plan) && Execute(s, plan).Reached? && Satisfies(Execute(s, plan).s, task.goal)
    ensures CoversAll(r, task.goal) && Convert(r, task.goal).Some?
    decreases |plan|
  {
    if plan == [] {
      var t := RenamedExists(task, doms, r, s);
      ConvertMeaning(task, doms, r, s, t, task.goal);
    } else {
      assert plan[0] in task.operators && PlanOf(task.operators, plan[1..]);
      DomainsStep(task, doms, plan[0], s);
      GoalStaysPossible(task, doms, r, plan[1..], Successor(plan[0], s));
    }
  }
}
