/**
  The translated operator simulates the original one on renamed states, except
  where an entry without effect (pre equal to post) hides a lower entry.
 */
module OperatorSimulation {
  import opened Sorting
  import opened Wrappers
  import opened SasTasks
  import opened Renamings
  import opened OperatorRenaming

  lemma {:induction false} EntriesElements(r: Renaming, es: seq<PrePost>, conds: map<int, int>)
    requires forall i :: 0 <= i < |es| ==> CoversEntry(r, es[i])
    requires TranslateEntries(r, es, conds).Some?
    ensures forall g :: g in TranslateEntries(r, es, conds).value <==>
      exists i :: 0 <= i < |es| && TranslateEntry(r, es[i], conds) == Kept(g)
  {
    if es != [] {
      var rest := es[..|es| - 1];
      EntriesElements(r, rest, conds);
      assert forall i :: 0 <= i < |rest| ==> rest[i] == es[i];
    }
  }

  lemma DictHolds(t: State, c: seq<Fact>, v: int)
    requires Satisfies(t, c) && v in Dict(c) && DistinctVars(c)
    ensures 0 <= v < |t| && t[v] == Dict(c)[v]
  {
    DictFacts(c);
    var i :| 0 <= i < |c| && c[i].v == v;
    assert Holds(t, c[i]);
  }

  /** Everything the simulation of one operator step refers to. */
  ghost predicate Step(task: Task, doms: seq<set<int>>, r: Renaming, op: Operator, s: State, t: State) {
    && Setting(task, doms, r) && ValidOperator(task.ranges, op) && CoversOperator(r, op)
    && Renamed(doms, r, s, t) && Convert(r, Items(ConditionMap(op))).Some?
  }

  ghost function NewConditions(r: Renaming, op: Operator): seq<Fact>
    requires CoversOperator(r, op) && Convert(r, Items(ConditionMap(op))).Some?
  {
    Convert(r, Items(ConditionMap(op))).value
  }

  lemma NewConditionsMeaning(task: Task, doms: seq<set<int>>, r: Renaming, op: Operator, s: State, t: State)
    requires Step(task, doms, r, op, s, t)
    ensures ValidCondition(r.newSizes, NewConditions(r, op))
    ensures Applicable(op, s) <==> Satisfies(t, NewConditions(r, op))
  {
    ConditionsValid(task.ranges, op);
    ConditionsMeanApplicable(task.ranges, op, s);
    ConvertMeaning(task, doms, r, s, t, Items(ConditionMap(op)));
    ConvertValid(task, doms, r, Items(ConditionMap(op)));
  }

  /** The relation between an entry and its translation. */
  ghost predicate EntryImage(r: Renaming, e: PrePost, g: PrePost) {
    && CoversEntry(r, e)
    && r.newVarNos[e.v] == Some(g.v)
    && NewValueOf(r, Fact(e.v, e.post)) == Val(g.post)
    && (if e.pre == NO_PRE then g.pre == NO_PRE else NewValueOf(r, Fact(e.v, e.pre)) == Val(g.pre))
    && e.pre != e.post
    && Convert(r, e.cond) == Some(g.cond)
  }

  lemma KeptIsImage(task: Task, doms: seq<set<int>>, r: Renaming, op: Operator, i: nat, conds: map<int, int>)
    requires Setting(task, doms, r) && ValidOperator(task.ranges, op) && i < |op.prePost|
    requires CoversEntry(r, op.prePost[i]) && TranslateEntry(r, op.prePost[i], conds).Kept?
    ensures EntryImage(r, op.prePost[i], TranslateEntry(r, op.prePost[i], conds).entry)
  {
    var e := op.prePost[i];
    assert ValidEntry(task.ranges, e);
    ValueFacts(task, doms, r, e.v, e.post);
    if e.pre != NO_PRE { ValueFacts(task, doms, r, e.v, e.pre); }
  }

  /** The entry and its image trigger together. */
  lemma ImageTriggers(task: Task, doms: seq<set<int>>, r: Renaming, op: Operator, i: nat, g: PrePost, s: State,
      t: State)
    requires Step(task, doms, r, op, s, t) && i < |op.prePost|
    requires EntryImage(r, op.prePost[i], g)
    ensures Satisfies(s, op.prePost[i].cond) <==> Satisfies(t, g.cond)
  {
    assert ValidEntry(task.ranges, op.prePost[i]);
    ConvertMeaning(task, doms, r, s, t, op.prePost[i].cond);
  }

  /** A dropped entry for a kept variable never triggers, or sets the value it requires. */
  lemma DroppedIsIdle(task: Task, doms: seq<set<int>>, r: Renaming, op: Operator, i: nat, s: State, t: State)
    requires Step(task, doms, r, op, s, t) && i < |op.prePost| && Applicable(op, s)
    requires r.newVarNos[op.prePost[i].v].Some?
    requires TranslateEntry(r, op.prePost[i], Dict(NewConditions(r, op))) == Dropped
    ensures var e := op.prePost[i]; !Satisfies(s, e.cond) || (e.pre != NO_PRE && e.pre == e.post)
  {
    var e := op.prePost[i];
    assert ValidEntry(task.ranges, e);
    ValueFacts(task, doms, r, e.v, e.post);
    NewConditionsMeaning(task, doms, r, op, s, t);
    ConvertMeaning(task, doms, r, s, t, e.cond);
    var newPost := NewValueOf(r, Fact(e.v, e.post));
    if e.pre != NO_PRE && newPost == NewValueOf(r, Fact(e.v, e.pre)) {
      PreInDomain(task, doms, r, op, i);
      SameValue(task, doms, r, e.v, e.pre, e.post);
    } else if Convert(r, e.cond).Some? {
      var c, conds := Convert(r, e.cond).value, NewConditions(r, op);
      assert Contradicts(Dict(conds), c);
      var j :| 0 <= j < |c| && c[j].v in Dict(conds) && Dict(conds)[c[j].v] != c[j].val;
      DictHolds(t, conds, c[j].v);
      assert !Holds(t, c[j]);
    }
  }

  lemma SameValue(task: Task, doms: seq<set<int>>, r: Renaming, v: int, x: int, y: int)
    requires Setting(task, doms, r) && 0 <= v < |task.ranges| && r.newVarNos[v].Some?
    requires 0 <= x < task.ranges[v] && 0 <= y < task.ranges[v] && x in doms[v]
    requires r.newValues[v][x] == r.newValues[v][y]
    ensures x == y
  {
    ValueFacts(task, doms, r, v, x);
    ValueFacts(task, doms, r, v, y);
    if x < y { ValuesMonotone(task, doms, r, v, x, y); }
    if y < x { ValuesMonotone(task, doms, r, v, y, x); }
  }

  // ----- One variable -----

  /** A triggering entry that requires the value it sets wins over a lower triggering entry. */
  ghost predicate Hides(op: Operator, s: State, v: int) {
    exists i, j :: 0 <= i < |op.prePost| && 0 <= j < |op.prePost|
      && Sets(s, op.prePost[i], v) && Sets(s, op.prePost[j], v)
      && op.prePost[i].pre == op.prePost[i].post && op.prePost[j].post < op.prePost[i].post
      && forall k :: 0 <= k < |op.prePost| && Sets(s, op.prePost[k], v) ==>
           op.prePost[k].post <= op.prePost[i].post
  }

  /** `ns` holds the translated entries of `op`. */
  ghost predicate NewEntries(r: Renaming, op: Operator, ns: seq<PrePost>) {
    && CoversOperator(r, op) && Convert(r, Items(ConditionMap(op))).Some?
    && TranslateEntries(r, op.prePost, Dict(NewConditions(r, op))) == Some(ns)
  }

  lemma FromNew(task: Task, doms: seq<set<int>>, r: Renaming, op: Operator, s: State, t: State,
                ns: seq<PrePost>, v: int, g: PrePost) returns (i: nat)
    requires Step(task, doms, r, op, s, t) && NewEntries(r, op, ns)
    requires 0 <= v < |task.ranges| && r.newVarNos[v].Some?
    requires g in ns && Sets(t, g, r.newVarNos[v].value)
    ensures i < |op.prePost| && Sets(s, op.prePost[i], v) && EntryImage(r, op.prePost[i], g)
  {
    var conds := Dict(NewConditions(r, op));
    EntriesElements(r, op.prePost, conds);
    i :| 0 <= i < |op.prePost| && TranslateEntry(r, op.prePost[i], conds) == Kept(g);
    KeptIsImage(task, doms, r, op, i, conds);
    ImageTriggers(task, doms, r, op, i, g, s, t);
    var e := op.prePost[i];
    assert ValidEntry(task.ranges, e) && r.newVarNos[e.v] == r.newVarNos[v];
    assert e.v == v;
  }

  lemma ToNew(task: Task, doms: seq<set<int>>, r: Renaming, op: Operator, s: State, t: State,
              ns: seq<PrePost>, v: int, i: nat) returns (q: nat)
    requires Step(task, doms, r, op, s, t) && NewEntries(r, op, ns) && Applicable(op, s)
    requires 0 <= v < |task.ranges| && r.newVarNos[v].Some?
    requires i < |op.prePost| && Sets(s, op.prePost[i], v) && op.prePost[i].pre != op.prePost[i].post
    ensures q < |ns| && Sets(t, ns[q], r.newVarNos[v].value) && EntryImage(r, op.prePost[i], ns[q])
  {
    var conds := Dict(NewConditions(r, op));
    EntriesElements(r, op.prePost, conds);
    if TranslateEntry(r, op.prePost[i], conds) == Dropped {
      DroppedIsIdle(task, doms, r, op, i, s, t);
    }
    EntriesNotFailed(r, op.prePost, conds, i);
    var g := TranslateEntry(r, op.prePost[i], conds).entry;
    assert g in ns;
    q :| 0 <= q < |ns| && ns[q] == g;
    KeptIsImage(task, doms, r, op, i, conds);
    ImageTriggers(task, doms, r, op, i, g, s, t);
  }

  lemma {:induction false} EntriesNotFailed(r: Renaming, es: seq<PrePost>, conds: map<int, int>, i: nat)
    requires forall i :: 0 <= i < |es| ==> CoversEntry(r, es[i])
    requires TranslateEntries(r, es, conds).Some? && i < |es|
    ensures TranslateEntry(r, es[i], conds) != EntryFailed
  {
    if i < |es| - 1 {
      EntriesNotFailed(r, es[..|es| - 1], conds, i);
    }
  }

  /** The two values agree up to renaming. */
  ghost predicate SameFate(r: Renaming, v: int, x: int, n: int) {
    Covers(r, Fact(v, x)) && NewValueOf(r, Fact(v, x)) == Val(n)
  }

  lemma ImagesOrdered(task: Task, doms: seq<set<int>>, r: Renaming, v: int, x: int, y: int, m: int, n: int)
    requires Setting(task, doms, r) && 0 <= v < |task.ranges|
    requires SameFate(r, v, x, m) && SameFate(r, v, y, n)
    ensures x <= y <==> m <= n
  {
    ValueFacts(task, doms, r, v, x);
    ValueFacts(task, doms, r, v, y);
    if x < y { ValuesMonotone(task, doms, r, v, x, y); }
    if y < x { ValuesMonotone(task, doms, r, v, y, x); }
  }

  lemma WinnerMatters(op: Operator, s: State, v: int, w: nat, i: nat)
    requires w < |op.prePost| && i < |op.prePost| && UniformPre(op.prePost) && !Hides(op, s, v)
    requires Sets(s, op.prePost[w], v) && Sets(s, op.prePost[i], v)
    requires forall k :: 0 <= k < |op.prePost| && Sets(s, op.prePost[k], v) ==> op.prePost[k].post <= op.prePost[w].post
    requires op.prePost[i].pre != op.prePost[i].post
    ensures op.prePost[w].pre != op.prePost[w].post
  {
  }

  /** Some translated entry triggers. */
  lemma TriggeredSimulated(task: Task, doms: seq<set<int>>, r: Renaming, op: Operator, s: State, t: State,
                           ns: seq<PrePost>, v: int, w: nat, j: nat)
    requires Step(task, doms, r, op, s, t) && NewEntries(r, op, ns) && Applicable(op, s)
    requires 0 <= v < |task.ranges| && r.newVarNos[v].Some?
    requires w < |op.prePost| && Sets(s, op.prePost[w], v)
    requires j < |ns| && Sets(t, ns[j], r.newVarNos[v].value)
    requires forall k :: 0 <= k < |op.prePost| && Sets(s, op.prePost[k], v) ==> op.prePost[k].post <= op.prePost[w].post
    requires forall k :: 0 <= k < |ns| && Sets(t, ns[k], r.newVarNos[v].value) ==> ns[k].post <= ns[j].post
    requires !Hides(op, s, v)
    ensures SameFate(r, v, op.prePost[w].post, ns[j].post)
  {
    var i := FromNew(task, doms, r, op, s, t, ns, v, ns[j]);
    WinnerMatters(op, s, v, w, i);
    var q := ToNew(task, doms, r, op, s, t, ns, v, w);
    ImagesOrdered(task, doms, r, v, op.prePost[i].post, op.prePost[w].post, ns[j].post, ns[q].post);
  }

  /** No translated entry triggers. */
  lemma IdleSimulated(task: Task, doms: seq<set<int>>, r: Renaming, op: Operator, s: State, t: State,
                      ns: seq<PrePost>, v: int, x: int)
    requires Step(task, doms, r, op, s, t) && NewEntries(r, op, ns) && Applicable(op, s)
    requires 0 <= v < |task.ranges| && r.newVarNos[v].Some?
    requires NewValue(s, op.prePost, v, x)
    requires !exists j :: 0 <= j < |ns| && Sets(t, ns[j], r.newVarNos[v].value)
    ensures x == s[v]
  {
    if w :| 0 <= w < |op.prePost| && Sets(s, op.prePost[w], v) && op.prePost[w].post == x {
      if op.prePost[w].pre != x {
        var q := ToNew(task, doms, r, op, s, t, ns, v, w);
        assert false;
      }
      assert ValidEntry(task.ranges, op.prePost[w]);
      assert PreHolds(s, op.prePost[w]);
    }
  }

  lemma ValueSimulated(task: Task, doms: seq<set<int>>, r: Renaming, op: Operator, s: State, t: State,
                       ns: seq<PrePost>, v: int, x: int, n: int)
    requires Step(task, doms, r, op, s, t) && NewEntries(r, op, ns) && Applicable(op, s)
    requires 0 <= v < |task.ranges| && r.newVarNos[v].Some?
    requires NewValue(s, op.prePost, v, x) && NewValue(t, ns, r.newVarNos[v].value, n)
    requires !Hides(op, s, v)
    ensures SameFate(r, v, x, n)
  {
    if exists j :: 0 <= j < |ns| && Sets(t, ns[j], r.newVarNos[v].value) {
      var j :| 0 <= j < |ns| && Sets(t, ns[j], r.newVarNos[v].value) && ns[j].post == n;
      var i := FromNew(task, doms, r, op, s, t, ns, v, ns[j]);
      var w :| 0 <= w < |op.prePost| && Sets(s, op.prePost[w], v) && op.prePost[w].post == x;
      TriggeredSimulated(task, doms, r, op, s, t, ns, v, w, j);
    } else {
      IdleSimulated(task, doms, r, op, s, t, ns, v, x);
    }
  }

  lemma ValueDiffers(task: Task, doms: seq<set<int>>, r: Renaming, op: Operator, s: State, t: State,
                     ns: seq<PrePost>, v: int, x: int, n: int)
    requires Step(task, doms, r, op, s, t) && NewEntries(r, op, ns) && Applicable(op, s)
    requires 0 <= v < |task.ranges| && r.newVarNos[v].Some?
    requires NewValue(s, op.prePost, v, x) && NewValue(t, ns, r.newVarNos[v].value, n)
    requires Hides(op, s, v)
    ensures !SameFate(r, v, x, n)
  {
    hide Setting, TranslateEntries, Convert, Canonical;
    var i, j :| 0 <= i < |op.prePost| && 0 <= j < |op.prePost|
      && Sets(s, op.prePost[i], v) && Sets(s, op.prePost[j], v)
      && op.prePost[i].pre == op.prePost[i].post && op.prePost[j].post < op.prePost[i].post
      && forall k :: 0 <= k < |op.prePost| && Sets(s, op.prePost[k], v) ==>
           op.prePost[k].post <= op.prePost[i].post;
    assert x == op.prePost[i].post && op.prePost[j].pre == x;
    var q := ToNew(task, doms, r, op, s, t, ns, v, j);
    var z :| 0 <= z < |ns| && Sets(t, ns[z], r.newVarNos[v].value) && ns[z].post == n;
    var i' := FromNew(task, doms, r, op, s, t, ns, v, ns[z]);
    assert op.prePost[i'].pre == x && op.prePost[i'].post != x;
    if SameFate(r, v, x, n) {
      ImagesOrdered(task, doms, r, v, x, op.prePost[i'].post, n, n);
      assert false;
    }
  }

  // ----- Applicability and validity of the translated operator -----

  ghost function NewOperator(r: Renaming, op: Operator, ns: seq<PrePost>): Operator
    requires CoversOperator(r, op) && Convert(r, Items(ConditionMap(op))).Some?
  {
    MakeOperator(op.name, Items(PrevailOf(Dict(NewConditions(r, op)), ns)), ns, op.cost)
  }

  lemma ItemsSorted(m: map<int, int>)
    ensures Sort(FactLess, Items(m)) == Items(m)
  {
    FactOrder();
    SortKeepsSorted(FactLess, Items(m));
  }

  /** A new condition is the image of a condition of the operator. */
  lemma ConditionSource(task: Task, doms: seq<set<int>>, r: Renaming, op: Operator, f: Fact) returns (u: int)
    requires Setting(task, doms, r) && ValidOperator(task.ranges, op) && CoversOperator(r, op)
    requires Convert(r, Items(ConditionMap(op))).Some? && f in NewConditions(r, op)
    ensures u in ConditionMap(op) && Image(r, Fact(u, ConditionMap(op)[u]), f)
  {
    var items := Items(ConditionMap(op));
    ConvertElements(r, items);
    var i :| 0 <= i < |items| && Image(r, items[i], f);
    assert items[i] in items;
    u := items[i].v;
    assert items[i] == Fact(u, ConditionMap(op)[u]);
  }

  /** The translated precondition of an entry is one of the new conditions. */
  lemma PreInItems(ranges: seq<int>, op: Operator, i: nat)
    requires ValidOperator(ranges, op) && i < |op.prePost| && op.prePost[i].pre != NO_PRE
    ensures Fact(op.prePost[i].v, op.prePost[i].pre) in Items(ConditionMap(op))
  {
    ConditionMapFacts(ranges, op);
    hide ValidOperator, ConditionMap;
  }

  lemma PreIsCondition(task: Task, doms: seq<set<int>>, r: Renaming, op: Operator, i: nat, g: PrePost)
    requires Setting(task, doms, r) && ValidOperator(task.ranges, op) && CoversOperator(r, op)
    requires Convert(r, Items(ConditionMap(op))).Some?
    requires i < |op.prePost| && EntryImage(r, op.prePost[i], g) && op.prePost[i].pre != NO_PRE
    ensures Fact(g.v, g.pre) in NewConditions(r, op)
  {
    var e, items := op.prePost[i], Items(ConditionMap(op));
    PreInItems(task.ranges, op, i);
    hide Setting, ValidOperator, ConditionMap, Convert;
    var j :| 0 <= j < |items| && items[j] == Fact(e.v, e.pre);
    assert Image(r, items[j], Fact(g.v, g.pre));
    ConvertElements(r, items);
  }

  /** A new condition on a variable that has an entry is that entry's precondition. */
  lemma ConditionIsPre(task: Task, doms: seq<set<int>>, r: Renaming, op: Operator, i: nat, g: PrePost, f: Fact)
    requires Setting(task, doms, r) && ValidOperator(task.ranges, op) && CoversOperator(r, op)
    requires Convert(r, Items(ConditionMap(op))).Some?
    requires i < |op.prePost| && EntryImage(r, op.prePost[i], g)
    requires f in NewConditions(r, op) && f.v == g.v
    ensures g.pre == f.val && g.pre != NO_PRE && op.prePost[i].pre != NO_PRE
  {
    var e := op.prePost[i];
    assert ValidEntry(task.ranges, e);
    var u := ConditionSource(task, doms, r, op, f);
    assert u == e.v;
    ConditionMapFacts(task.ranges, op);
    assert Conditioned(op, e.v) && !MentionsVar(op.prevail, e.v);
    assert e.pre != NO_PRE && ConditionMap(op)[u] == e.pre;
    ValueFacts(task, doms, r, e.v, e.pre);
  }

  lemma NewEntrySource(task: Task, doms: seq<set<int>>, r: Renaming, op: Operator, ns: seq<PrePost>, g: PrePost)
      returns (i: nat)
    requires Setting(task, doms, r) && ValidOperator(task.ranges, op) && NewEntries(r, op, ns) && g in ns
    ensures i < |op.prePost| && EntryImage(r, op.prePost[i], g)
  {
    var conds := Dict(NewConditions(r, op));
    EntriesElements(r, op.prePost, conds);
    i :| 0 <= i < |op.prePost| && TranslateEntry(r, op.prePost[i], conds) == Kept(g);
    KeptIsImage(task, doms, r, op, i, conds);
  }

  lemma PrevailElements(task: Task, doms: seq<set<int>>, r: Renaming, op: Operator, ns: seq<PrePost>, f: Fact)
    requires Setting(task, doms, r) && ValidOperator(task.ranges, op) && CoversOperator(r, op)
    requires Convert(r, Items(ConditionMap(op))).Some?
    ensures f in NewOperator(r, op, ns).prevail <==> f in NewConditions(r, op) && !HasEntryFor(ns, f.v)
  {
    var c := NewConditions(r, op);
    ItemsSorted(PrevailOf(Dict(c), ns));
    ConditionsValid(task.ranges, op);
    ConvertValid(task, doms, r, Items(ConditionMap(op)));
    DictFacts(c);
    if f.v in Dict(c) && Dict(c)[f.v] == f.val {
      var i :| 0 <= i < |c| && c[i].v == f.v;
      assert c[i] == f;
    }
  }

  lemma NewConditionsSuffice(task: Task, doms: seq<set<int>>, r: Renaming, op: Operator, ns: seq<PrePost>, t: State)
    requires Setting(task, doms, r) && ValidOperator(task.ranges, op) && NewEntries(r, op, ns)
    requires Satisfies(t, NewConditions(r, op))
    ensures Applicable(NewOperator(r, op, ns), t)
  {
    hide Setting, ValidOperator, TranslateEntries, Convert;
    var n, c := NewOperator(r, op, ns), NewConditions(r, op);
    forall i | 0 <= i < |n.prevail| ensures Holds(t, n.prevail[i]) {
      PrevailElements(task, doms, r, op, ns, n.prevail[i]);
      assert n.prevail[i] in c;
    }
    forall i | 0 <= i < |n.prePost| ensures PreHolds(t, n.prePost[i]) {
      var g := n.prePost[i];
      assert g in n.prePost && g in ns;
      var j := NewEntrySource(task, doms, r, op, ns, g);
      if op.prePost[j].pre != NO_PRE {
        PreIsCondition(task, doms, r, op, j, g);
      }
    }
  }

  lemma NewConditionsNeeded(task: Task, doms: seq<set<int>>, r: Renaming, op: Operator, ns: seq<PrePost>, t: State,
      f: Fact)
    requires Setting(task, doms, r) && ValidOperator(task.ranges, op) && NewEntries(r, op, ns)
    requires Applicable(NewOperator(r, op, ns), t) && f in NewConditions(r, op)
    ensures Holds(t, f)
  {
    hide Setting, ValidOperator, TranslateEntries, Convert;
    var n := NewOperator(r, op, ns);
    PrevailElements(task, doms, r, op, ns, f);
    if HasEntryFor(ns, f.v) {
      var k :| 0 <= k < |ns| && ns[k].v == f.v;
      var j := NewEntrySource(task, doms, r, op, ns, ns[k]);
      ConditionIsPre(task, doms, r, op, j, ns[k], f);
      assert ns[k] in ns && ns[k] in n.prePost;
      var q :| 0 <= q < |n.prePost| && n.prePost[q] == ns[k];
      assert PreHolds(t, n.prePost[q]);
    } else {
      assert f in n.prevail;
    }
  }

  lemma ApplicabilityPreserved(task: Task, doms: seq<set<int>>, r: Renaming, op: Operator, s: State, t: State,
      ns: seq<PrePost>)
    requires Step(task, doms, r, op, s, t) && NewEntries(r, op, ns)
    ensures Applicable(NewOperator(r, op, ns), t) <==> Applicable(op, s)
  {
    hide Setting, ValidOperator, NewEntries, Renamed, Applicable;
    NewConditionsMeaning(task, doms, r, op, s, t);
    var c := NewConditions(r, op);
    if Satisfies(t, c) {
      NewConditionsSuffice(task, doms, r, op, ns, t);
    }
    if Applicable(NewOperator(r, op, ns), t) {
      forall i | 0 <= i < |c| ensures Holds(t, c[i]) {
        assert c[i] in c;
        NewConditionsNeeded(task, doms, r, op, ns, t, c[i]);
      }
    }
  }

  lemma NewEntryValid(task: Task, doms: seq<set<int>>, r: Renaming, op: Operator, ns: seq<PrePost>, g: PrePost)
    requires Setting(task, doms, r) && ValidOperator(task.ranges, op) && NewEntries(r, op, ns) && g in ns
    ensures ValidEntry(r.newSizes, g)
  {
    var i := NewEntrySource(task, doms, r, op, ns, g);
    var e := op.prePost[i];
    assert ValidEntry(task.ranges, e);
    ConvertValid(task, doms, r, e.cond);
    ValueFacts(task, doms, r, e.v, e.post);
    if e.pre != NO_PRE { ValueFacts(task, doms, r, e.v, e.pre); }
  }

  lemma UniformPreKept(task: Task, doms: seq<set<int>>, r: Renaming, op: Operator, ns: seq<PrePost>)
    requires Setting(task, doms, r) && ValidOperator(task.ranges, op) && NewEntries(r, op, ns)
    ensures UniformPre(Canonical(ns))
  {
    var es := Canonical(ns);
    forall i, j | 0 <= i < |es| && 0 <= j < |es| && es[i].v == es[j].v ensures es[i].pre == es[j].pre {
      assert es[i] in es && es[j] in es;
      var k := NewEntrySource(task, doms, r, op, ns, es[i]);
      var l := NewEntrySource(task, doms, r, op, ns, es[j]);
      assert op.prePost[k].v == op.prePost[l].v && op.prePost[k].pre == op.prePost[l].pre;
    }
  }

  lemma NewCondSource(task: Task, doms: seq<set<int>>, r: Renaming, op: Operator, ns: seq<PrePost>, g: PrePost, k: nat)
      returns (f: Fact)
    requires Setting(task, doms, r) && ValidOperator(task.ranges, op) && NewEntries(r, op, ns)
    requires g in ns && k < |g.cond|
    ensures Image(r, f, g.cond[k]) && !Conditioned(op, f.v) && ValidFact(task.ranges, f)
  {
    hide Setting, TranslateEntries;
    var i := NewEntrySource(task, doms, r, op, ns, g);
    var e := op.prePost[i];
    assert ValidEntry(task.ranges, e);
    ConvertElements(r, e.cond);
    assert g.cond[k] in g.cond;
    var j :| 0 <= j < |e.cond| && Image(r, e.cond[j], g.cond[k]);
    f := e.cond[j];
    assert !Conditioned(op, op.prePost[i].cond[j].v);
  }

  lemma ImagesApart(task: Task, doms: seq<set<int>>, r: Renaming, f: Fact, f': Fact, h: Fact, h': Fact)
    requires Setting(task, doms, r) && f.v != f'.v && Image(r, f, h) && Image(r, f', h')
    ensures h.v != h'.v
  {
  }

  /** Effect conditions of translated entries still avoid the conditioned variables. */
  lemma NewCondUnconditioned(task: Task, doms: seq<set<int>>, r: Renaming, op: Operator, ns: seq<PrePost>,
      g: PrePost, k: nat)
    requires Setting(task, doms, r) && ValidOperator(task.ranges, op) && NewEntries(r, op, ns)
    requires g in ns && k < |g.cond|
    ensures forall f :: f in NewConditions(r, op) ==> f.v != g.cond[k].v
  {
    hide Setting, TranslateEntries, ValidOperator, Convert;
    var c := NewCondSource(task, doms, r, op, ns, g, k);
    ConditionMapFacts(task.ranges, op);
    forall f | f in NewConditions(r, op) ensures f.v != g.cond[k].v {
      var u := ConditionSource(task, doms, r, op, f);
      ImagesApart(task, doms, r, Fact(u, ConditionMap(op)[u]), c, f, g.cond[k]);
    }
  }

  lemma NewOperatorConditioned(task: Task, doms: seq<set<int>>, r: Renaming, op: Operator, ns: seq<PrePost>, v: int)
      returns (f: Fact)
    requires Setting(task, doms, r) && ValidOperator(task.ranges, op) && NewEntries(r, op, ns)
    requires Conditioned(NewOperator(r, op, ns), v)
    ensures f in NewConditions(r, op) && f.v == v
  {
    var n := NewOperator(r, op, ns);
    if MentionsVar(n.prevail, v) {
      var i :| 0 <= i < |n.prevail| && n.prevail[i].v == v;
      f := n.prevail[i];
      assert f in n.prevail;
      PrevailElements(task, doms, r, op, ns, f);
    } else {
      var i :| 0 <= i < |n.prePost| && n.prePost[i].v == v && n.prePost[i].pre != NO_PRE;
      var g := n.prePost[i];
      assert g in n.prePost && g in ns;
      var j := NewEntrySource(task, doms, r, op, ns, g);
      f := Fact(v, g.pre);
      PreIsCondition(task, doms, r, op, j, g);
    }
  }

  /** The translated operator passes the validity rules. */
  lemma NewOperatorValid(task: Task, doms: seq<set<int>>, r: Renaming, op: Operator, ns: seq<PrePost>)
    requires Setting(task, doms, r) && ValidOperator(task.ranges, op) && NewEntries(r, op, ns) && ns != []
    ensures ValidOperator(r.newSizes, NewOperator(r, op, ns))
  {
    var n := NewOperator(r, op, ns);
    NewPrevailValid(task, doms, r, op, ns);
    CanonicalIdempotent(ns);
    assert ns[0] in n.prePost;
    UniformPreKept(task, doms, r, op, ns);
    forall i | 0 <= i < |n.prePost|
      ensures ValidEntry(r.newSizes, n.prePost[i]) && !MentionsVar(n.prevail, n.prePost[i].v)
    {
      assert n.prePost[i] in n.prePost;
      NewEntryValid(task, doms, r, op, ns, n.prePost[i]);
      PrevailAvoidsEntries(task, doms, r, op, ns, n.prePost[i]);
    }
    forall i, j | 0 <= i < |n.prePost| && 0 <= j < |n.prePost[i].cond|
      ensures !Conditioned(n, n.prePost[i].cond[j].v)
    {
      assert n.prePost[i] in n.prePost;
      CondsAvoidConditions(task, doms, r, op, ns, n.prePost[i], j);
    }
  }

  lemma PrevailAvoidsEntries(task: Task, doms: seq<set<int>>, r: Renaming, op: Operator, ns: seq<PrePost>, g: PrePost)
    requires Setting(task, doms, r) && ValidOperator(task.ranges, op) && NewEntries(r, op, ns) && g in ns
    ensures !MentionsVar(NewOperator(r, op, ns).prevail, g.v)
  {
    var n := NewOperator(r, op, ns);
    var k :| 0 <= k < |ns| && ns[k] == g;
    assert HasEntryFor(ns, g.v);
    forall j | 0 <= j < |n.prevail| ensures n.prevail[j].v != g.v {
      assert n.prevail[j] in n.prevail;
      PrevailElements(task, doms, r, op, ns, n.prevail[j]);
    }
  }

  lemma CondsAvoidConditions(task: Task, doms: seq<set<int>>, r: Renaming, op: Operator, ns: seq<PrePost>,
      g: PrePost, k: nat)
    requires Setting(task, doms, r) && ValidOperator(task.ranges, op) && NewEntries(r, op, ns)
    requires g in ns && k < |g.cond|
    ensures !Conditioned(NewOperator(r, op, ns), g.cond[k].v)
  {
    NewCondUnconditioned(task, doms, r, op, ns, g, k);
    if Conditioned(NewOperator(r, op, ns), g.cond[k].v) {
      var f := NewOperatorConditioned(task, doms, r, op, ns, g.cond[k].v);
      assert false;
    }
  }

  lemma NewPrevailValid(task: Task, doms: seq<set<int>>, r: Renaming, op: Operator, ns: seq<PrePost>)
    requires Setting(task, doms, r) && ValidOperator(task.ranges, op) && NewEntries(r, op, ns)
    ensures ValidCondition(r.newSizes, NewOperator(r, op, ns).prevail)
  {
    var p, c := NewOperator(r, op, ns).prevail, NewConditions(r, op);
    ItemsSorted(PrevailOf(Dict(c), ns));
    ConditionsValid(task.ranges, op);
    ConvertValid(task, doms, r, Items(ConditionMap(op)));
    forall i | 0 <= i < |p| ensures ValidFact(r.newSizes, p[i]) {
      assert p[i] in p;
      PrevailElements(task, doms, r, op, ns, p[i]);
      assert p[i] in c;
      var j :| 0 <= j < |c| && c[j] == p[i];
    }
  }
}
