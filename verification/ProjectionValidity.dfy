/**
  When a projected task passes the validity rules again (variable_order.py:263-324).
  The conditions and entries of operators are renumbered but not sorted again: nothing
  but their order can break, and only ascending orders never break it.
 */
module ProjectionValidity {
  import opened Sorting
  import opened Wrappers
  import opened SasTasks
  import opened CausalGraphs
  import opened Projection

  predicate Ascending(order: seq<int>) {
    forall i, j :: 0 <= i < j < |order| ==> order[i] < order[j]
  }

  lemma PositionAscends(order: seq<int>, v: int, w: int)
    requires Ascending(order) && v in order && w in order
    ensures v < w <==> Position(order, v) < Position(order, w)
    ensures v == w <==> Position(order, v) == Position(order, w)
  {
  }

  // ----- Conditions -----

  /** `g` is the renumbered `f`. */
  predicate IsImage(order: seq<int>, f: Fact, g: Fact) {
    f.v in order && g == Fact(Position(order, f.v), f.val)
  }

  lemma {:induction false} KeptFact(order: seq<int>, c: seq<Fact>, k: int)
    requires 0 <= k < |KeepFacts(order, c)|
    ensures exists i :: 0 <= i < |c| && IsImage(order, c[i], KeepFacts(order, c)[k])
    decreases |c|
  {
    var n := |c| - 1;
    var rest := c[..n];
    if k < |KeepFacts(order, rest)| {
      KeptFact(order, rest, k);
      var i :| 0 <= i < |rest| && IsImage(order, rest[i], KeepFacts(order, rest)[k]);
      assert IsImage(order, c[i], KeepFacts(order, c)[k]);
    } else {
      assert IsImage(order, c[n], KeepFacts(order, c)[k]);
    }
  }

  /** The facts are listed by ascending variables. */
  predicate Rising(c: seq<Fact>) {
    forall i, j :: 0 <= i < j < |c| ==> c[i].v < c[j].v
  }

  lemma {:induction false} AscendingRises(order: seq<int>, c: seq<Fact>)
    requires Ascending(order) && Rising(c)
    ensures Rising(KeepFacts(order, c))
    decreases |c|
  {
    if c != [] {
      var rest, f := c[..|c| - 1], c[|c| - 1];
      AscendingRises(order, rest);
      if f.v in order {
        var d := KeepFacts(order, rest);
        forall k | 0 <= k < |d| ensures d[k].v < Position(order, f.v) {
          KeptFact(order, rest, k);
          var i :| 0 <= i < |rest| && IsImage(order, rest[i], d[k]);
          assert c[i].v < f.v;
          PositionAscends(order, rest[i].v, f.v);
        }
      }
    }
  }

  /** Whatever the order, no variable is repeated. */
  lemma {:induction false} KeptDistinct(order: seq<int>, c: seq<Fact>)
    requires Rising(c)
    ensures forall k, l :: 0 <= k < l < |KeepFacts(order, c)| ==> KeepFacts(order, c)[k].v != KeepFacts(order, c)[l].v
    decreases |c|
  {
    if c != [] {
      var rest, f := c[..|c| - 1], c[|c| - 1];
      KeptDistinct(order, rest);
      if f.v in order {
        var d := KeepFacts(order, rest);
        forall k | 0 <= k < |d| ensures d[k].v != Position(order, f.v) {
          KeptFact(order, rest, k);
          var i :| 0 <= i < |rest| && IsImage(order, rest[i], d[k]);
          assert c[i].v < f.v;
        }
      }
    }
  }

  /** Whatever the order, all facts stay in range. */
  lemma KeptInRange(order: seq<int>, ranges: seq<int>, c: seq<Fact>)
    requires InRange(order, |ranges|) && ValidCondition(ranges, c)
    ensures forall k :: 0 <= k < |KeepFacts(order, c)| ==> ValidFact(Select(order, ranges), KeepFacts(order, c)[k])
  {
    var d := KeepFacts(order, c);
    forall k | 0 <= k < |d| ensures ValidFact(Select(order, ranges), d[k]) {
      KeptFact(order, c, k);
      var i :| 0 <= i < |c| && IsImage(order, c[i], d[k]);
      assert ValidFact(ranges, c[i]);
    }
  }

  lemma KeptConditionValid(order: seq<int>, ranges: seq<int>, c: seq<Fact>)
    requires InRange(order, |ranges|) && ValidCondition(ranges, c)
    ensures ValidCondition(Select(order, ranges), KeepFacts(order, c)) <==> Rising(KeepFacts(order, c))
  {
    KeptInRange(order, ranges, c);
  }

  lemma {:induction false} KeepFirst(order: seq<int>, c: seq<Fact>)
    requires c != [] && c[0].v in order
    ensures KeepFacts(order, c) == [Fact(Position(order, c[0].v), c[0].val)] + KeepFacts(order, c[1..])
    decreases |c|
  {
    if |c| == 1 {
      assert c[..0] == [] && c[1..] == [];
    } else {
      var n := |c| - 1;
      KeepFirst(order, c[..n]);
      assert c[..n][1..] == c[1..][..n - 1];
    }
  }

  lemma {:induction false} CondLessKept(order: seq<int>, a: seq<Fact>, b: seq<Fact>)
    requires Ascending(order) && CondLess(a, b)
    requires (forall i :: 0 <= i < |a| ==> a[i].v in order) && forall i :: 0 <= i < |b| ==> b[i].v in order
    ensures CondLess(KeepFacts(order, a), KeepFacts(order, b))
    decreases |a|
  {
    KeepFirst(order, b);
    var kb := KeepFacts(order, b);
    assert kb[1..] == KeepFacts(order, b[1..]);
    if a != [] {
      KeepFirst(order, a);
      var ka := KeepFacts(order, a);
      assert ka[1..] == KeepFacts(order, a[1..]);
      PositionAscends(order, a[0].v, b[0].v);
      if !FactLess(a[0], b[0]) {
        CondLessKept(order, a[1..], b[1..]);
      }
    }
  }

  // ----- Entries -----

  function KeptEntryOf(order: seq<int>, e: PrePost): PrePost
    requires e.v in order
  {
    PrePost(Position(order, e.v), e.pre, e.post, KeepFacts(order, e.cond))
  }

  lemma EntryLessKept(order: seq<int>, d: PrePost, e: PrePost)
    requires Ascending(order) && EntryLess(d, e) && d.v in order && e.v in order
    requires (forall i :: 0 <= i < |d.cond| ==> d.cond[i].v in order) && forall i :: 0 <= i < |e.cond| ==> e.cond[i].v in order
    ensures EntryLess(KeptEntryOf(order, d), KeptEntryOf(order, e))
  {
    PositionAscends(order, d.v, e.v);
    if d.v == e.v && d.pre == e.pre && d.post == e.post { CondLessKept(order, d.cond, e.cond); }
  }

  lemma {:induction false} EntriesStaySorted(order: seq<int>, es: seq<PrePost>)
    requires Ascending(order) && StrictlySorted(EntryLess, es) && Supported(order, es)
    ensures StrictlySorted(EntryLess, KeepEntries(order, es))
    decreases |es|
  {
    if es != [] {
      var rest, e := es[..|es| - 1], es[|es| - 1];
      assert forall i :: 0 <= i < |rest| ==> rest[i] == es[i];
      EntriesStaySorted(order, rest);
      if e.v in order {
        var d := KeepEntries(order, rest);
        KeptEntry(order, rest);
        forall k | 0 <= k < |d| ensures EntryLess(d[k], KeptEntryOf(order, e)) {
          assert d[k] in d;
          var i :| 0 <= i < |rest| && rest[i].v in order && d[k] == KeptEntryOf(order, rest[i]);
          assert EntryLess(es[i], e);
          EntryLessKept(order, es[i], e);
        }
      }
    }
  }

  // ----- Operators -----

  /** The entry of `op` that `g` comes from. */
  lemma EntrySource(order: seq<int>, op: Operator, g: PrePost) returns (i: int)
    requires g in KeepEntries(order, op.prePost)
    ensures 0 <= i < |op.prePost| && op.prePost[i].v in order && g == KeptEntryOf(order, op.prePost[i])
  {
    KeptEntry(order, op.prePost);
    i :| 0 <= i < |op.prePost| && op.prePost[i].v in order && g == KeptEntryOf(order, op.prePost[i]);
  }

  lemma MentionsKept(order: seq<int>, c: seq<Fact>, v: int)
    requires v in order && MentionsVar(KeepFacts(order, c), Position(order, v))
    ensures MentionsVar(c, v)
  {
    var d := KeepFacts(order, c);
    var k :| 0 <= k < |d| && d[k].v == Position(order, v);
    KeptFact(order, c, k);
    var i :| 0 <= i < |c| && IsImage(order, c[i], d[k]);
    assert order[d[k].v] == c[i].v == v;
  }

  lemma ConditionedKept(order: seq<int>, op: Operator, v: int)
    requires v in order && Conditioned(ProjectOperator(order, op), Position(order, v))
    ensures Conditioned(op, v)
  {
    var p := ProjectOperator(order, op);
    if MentionsVar(p.prevail, Position(order, v)) {
      MentionsKept(order, op.prevail, v);
    } else {
      var k :| 0 <= k < |p.prePost| && p.prePost[k].v == Position(order, v) && p.prePost[k].pre != NO_PRE;
      var i := EntrySource(order, op, p.prePost[k]);
      assert order[p.prePost[k].v] == op.prePost[i].v == v;
    }
  }

  lemma KeptEntryValid(order: seq<int>, ranges: seq<int>, e: PrePost)
    requires InRange(order, |ranges|) && ValidEntry(ranges, e) && e.v in order
    ensures ValidEntry(Select(order, ranges), KeptEntryOf(order, e)) <==> Rising(KeepFacts(order, e.cond))
  {
    KeptConditionValid(order, ranges, e.cond);
  }

  lemma ProjectedEntries(order: seq<int>, ranges: seq<int>, op: Operator)
    requires InRange(order, |ranges|) && ValidOperator(ranges, op) && RisingEntries(ProjectOperator(order, op).prePost)
    ensures var p := ProjectOperator(order, op);
      && (forall k :: 0 <= k < |p.prePost| ==> ValidEntry(Select(order, ranges), p.prePost[k]))
      && (forall k :: 0 <= k < |p.prePost| ==> !MentionsVar(p.prevail, p.prePost[k].v))
      && UniformPre(p.prePost)
  {
    hide ValidOperator, ValidEntry, MentionsVar;
    var p := ProjectOperator(order, op);
    EntriesOf(ranges, op);
    forall k | 0 <= k < |p.prePost|
      ensures ValidEntry(Select(order, ranges), p.prePost[k]) && !MentionsVar(p.prevail, p.prePost[k].v)
    {
      var i := EntrySource(order, op, p.prePost[k]);
      KeptEntryValid(order, ranges, op.prePost[i]);
      if MentionsVar(p.prevail, p.prePost[k].v) { MentionsKept(order, op.prevail, op.prePost[i].v); }
    }
    forall k, l | 0 <= k < |p.prePost| && 0 <= l < |p.prePost| && p.prePost[k].v == p.prePost[l].v
      ensures p.prePost[k].pre == p.prePost[l].pre
    {
      var i := EntrySource(order, op, p.prePost[k]);
      var j := EntrySource(order, op, p.prePost[l]);
      assert op.prePost[i].v == order[p.prePost[k].v] == op.prePost[j].v;
    }
  }

  lemma EntriesOf(ranges: seq<int>, op: Operator)
    requires ValidOperator(ranges, op)
    ensures forall i :: 0 <= i < |op.prePost| ==> ValidEntry(ranges, op.prePost[i]) && !MentionsVar(op.prevail, op.prePost[i].v)
    ensures UniformPre(op.prePost)
  {
  }

  lemma ProjectedConditions(order: seq<int>, ranges: seq<int>, op: Operator)
    requires ValidOperator(ranges, op)
    ensures var p := ProjectOperator(order, op);
      forall k, l :: 0 <= k < |p.prePost| && 0 <= l < |p.prePost[k].cond| ==> !Conditioned(p, p.prePost[k].cond[l].v)
  {
    var p := ProjectOperator(order, op);
    forall k, l | 0 <= k < |p.prePost| && 0 <= l < |p.prePost[k].cond| ensures !Conditioned(p, p.prePost[k].cond[l].v) {
      var i := EntrySource(order, op, p.prePost[k]);
      KeptFact(order, op.prePost[i].cond, l);
      var j :| 0 <= j < |op.prePost[i].cond| && IsImage(order, op.prePost[i].cond[j], p.prePost[k].cond[l]);
      if Conditioned(p, p.prePost[k].cond[l].v) { ConditionedKept(order, op, op.prePost[i].cond[j].v); }
    }
  }

  predicate RisingEntries(es: seq<PrePost>) {
    forall k :: 0 <= k < |es| ==> Rising(es[k].cond)
  }

  /** What is renumbered without sorting is still in order. */
  predicate StaysSorted(order: seq<int>, op: Operator) {
    && Rising(KeepFacts(order, op.prevail))
    && StrictlySorted(EntryLess, KeepEntries(order, op.prePost)) && RisingEntries(KeepEntries(order, op.prePost))
  }

  /** The operator passes the rules exactly when it stays sorted. */
  lemma ProjectedOperatorValid(task: Task, order: seq<int>, k: nat)
    requires ValidTask(task) && InRange(order, |task.ranges|) && k < |task.operators|
    requires KeepEntries(order, task.operators[k].prePost) != []
    ensures ValidOperator(Select(order, task.ranges), ProjectOperator(order, task.operators[k])) <==>
      StaysSorted(order, task.operators[k])
  {
    var op := task.operators[k];
    var p := ProjectOperator(order, op);
    assert ValidOperator(task.ranges, op);
    EntryOrder();
    CanonicalIffSorted(EntryLess, p.prePost);
    KeptConditionValid(order, task.ranges, op.prevail);
    if StaysSorted(order, op) {
      ProjectedEntries(order, task.ranges, op);
      ProjectedConditions(order, task.ranges, op);
    } else if ValidOperator(Select(order, task.ranges), p) {
      EntriesOf(Select(order, task.ranges), p);
      assert RisingEntries(p.prePost);
    }
  }

  lemma AscendingStaysSorted(task: Task, order: seq<int>, k: nat)
    requires ValidTask(task) && GoodOrder(task, order) && Ascending(order) && k < |task.operators|
    ensures StaysSorted(order, task.operators[k])
  {
    var op := task.operators[k];
    assert ValidOperator(task.ranges, op);
    EntryOrder();
    CanonicalIffSorted(EntryLess, op.prePost);
    KeptOperatorSupported(task, order, k);
    EntriesStaySorted(order, op.prePost);
    AscendingRises(order, op.prevail);
    EntriesOf(task.ranges, op);
    var es := KeepEntries(order, op.prePost);
    forall l | 0 <= l < |es| ensures Rising(es[l].cond) {
      var i := EntrySource(order, op, es[l]);
      AscendingRises(order, op.prePost[i].cond);
    }
  }

  // ----- Tasks -----

  /** The goal is sorted again. */
  lemma KeptGoal(order: seq<int>, ranges: seq<int>, goal: seq<Fact>)
    requires InRange(order, |ranges|) && ValidCondition(ranges, goal) && goal != []
    requires forall i :: 0 <= i < |goal| ==> goal[i].v in order
    ensures ValidCondition(Select(order, ranges), Sort(FactLess, KeepFacts(order, goal)))
    ensures Sort(FactLess, KeepFacts(order, goal)) != []
  {
    var c := KeepFacts(order, goal);
    var d := Sort(FactLess, c);
    KeptInRange(order, ranges, goal);
    KeptDistinct(order, goal);
    KeepFirst(order, goal);
    FactOrder();
    SortSorts(FactLess, c);
    forall i | 0 <= i < |d| ensures ValidFact(Select(order, ranges), d[i]) {
      assert d[i] in c;
    }
    forall i, j | 0 <= i < j < |d| ensures d[i].v < d[j].v {
      assert FactLess(d[i], d[j]) && d[i] in c && d[j] in c;
    }
  }

  ghost predicate AllStaySorted(task: Task, order: seq<int>) {
    forall k :: 0 <= k < |task.operators| && KeepEntries(order, task.operators[k].prePost) != [] ==>
      StaysSorted(order, task.operators[k])
  }

  lemma OperatorsValid(task: Task, order: seq<int>)
    requires ValidTask(task) && InRange(order, |task.ranges|)
    ensures (forall p :: p in ProjectOperators(order, task.operators) ==> ValidOperator(Select(order, task.ranges), p)) <==>
      AllStaySorted(task, order)
  {
    hide StaysSorted, ValidOperator;
    var ops := ProjectOperators(order, task.operators);
    ProjectedOperators(order, task.operators);
    forall k | 0 <= k < |task.operators| && KeepEntries(order, task.operators[k].prePost) != []
      ensures ProjectOperator(order, task.operators[k]) in ops
      ensures ValidOperator(Select(order, task.ranges), ProjectOperator(order, task.operators[k])) <==>
        StaysSorted(order, task.operators[k])
    {
      ProjectedOperatorValid(task, order, k);
    }
    hide ProjectOperator, ProjectOperators, ValidTask;
  }

  lemma OperatorsOf(task: Task)
    ensures (forall i :: 0 <= i < |task.operators| ==> ValidOperator(task.ranges, task.operators[i])) <==>
      forall p :: p in task.operators ==> ValidOperator(task.ranges, p)
  {
  }

  /** The projection of a valid task passes the rules exactly when its operators stay
      sorted: nothing else can break. */
  lemma ValidExactlyWhenSorted(task: Task, order: seq<int>)
    requires ValidTask(task) && GoodOrder(task, order)
    ensures ValidTask(ProjectTask(order, task)) <==> AllStaySorted(task, order)
  {
    hide AllStaySorted, ValidOperator, Influences;
    var small := ProjectTask(order, task);
    KeptGoal(order, task.ranges, task.goal);
    OperatorsValid(task, order);
    OperatorsOf(small);
    forall v | 0 <= v < |small.ranges| ensures small.ranges[v] >= 2 && 0 <= small.init[v] < small.ranges[v] {
      assert 0 <= order[v] < |task.ranges|;
    }
  }

  /** An ascending order keeps the task valid. */
  lemma AscendingKeepsValid(task: Task, order: seq<int>)
    requires ValidTask(task) && GoodOrder(task, order) && Ascending(order)
    ensures ValidTask(ProjectTask(order, task))
  {
    hide StaysSorted, ValidTask;
    forall k | 0 <= k < |task.operators| ensures StaysSorted(order, task.operators[k]) {
      AscendingStaysSorted(task, order, k);
    }
    ValidExactlyWhenSorted(task, order);
  }

  // ----- Orders with a descent -----

  /** A task with `n` binary variables whose only operator sets `a` and `b`. */
  function PairTask(n: nat, a: int, b: int): Task {
    var op := Operator("set", [], [PrePost(a, NO_PRE, 1, []), PrePost(b, NO_PRE, 1, [])], 1);
    Task(seq(n, _ => 2), seq(n, _ => 0), [Fact(a, 1)], [op])
  }

  lemma PairTaskValid(n: nat, a: int, b: int)
    requires 0 <= a < b < n
    ensures ValidTask(PairTask(n, a, b))
  {
    var task := PairTask(n, a, b);
    var op := task.operators[0];
    EntryOrder();
    CanonicalIffSorted(EntryLess, op.prePost);
    assert ValidOperator(task.ranges, op);
  }

  lemma PairEntries(order: seq<int>, a: int, b: int)
    requires a in order && b in order
    ensures KeepEntries(order, [PrePost(a, NO_PRE, 1, []), PrePost(b, NO_PRE, 1, [])]) ==
      [PrePost(Position(order, a), NO_PRE, 1, []), PrePost(Position(order, b), NO_PRE, 1, [])]
  {
    var e, f := PrePost(a, NO_PRE, 1, []), PrePost(b, NO_PRE, 1, []);
    assert [e, f][..1] == [e] && [e][..0] == [];
    assert KeepEntries(order, [e]) == [PrePost(Position(order, a), NO_PRE, 1, [])];
  }

  lemma OneOperator(order: seq<int>, op: Operator)
    requires KeepEntries(order, op.prePost) != []
    ensures ProjectOperators(order, [op]) == [ProjectOperator(order, op)]
  {
    assert [op][..0] == [];
  }

  lemma DescentNotValid(ranges: seq<int>, op: Operator)
    requires |op.prePost| == 2 && op.prePost[0].v > op.prePost[1].v
    ensures !ValidOperator(ranges, op)
  {
    EntryOrder();
    CanonicalIffSorted(EntryLess, op.prePost);
    assert !EntryLess(op.prePost[0], op.prePost[1]);
  }

  lemma PairNoInfluence(n: nat, a: int, b: int)
    ensures forall s, t :: !Influences(PairTask(n, a, b).operators, s, t)
  {
  }

  /** If `order[i]` is above `order[j]`, the projected task breaks the rules. */
  lemma DescentBreaksTask(order: seq<int>, n: nat, i: int, j: int)
    requires Distinct(order) && InRange(order, n) && 0 <= i < j < |order| && order[j] < order[i]
    ensures var task := PairTask(n, order[j], order[i]);
      ValidTask(task) && GoodOrder(task, order) && !ValidTask(ProjectTask(order, task))
  {
    hide ValidOperator, Influences, KeepEntries;
    var a, b := order[j], order[i];
    var task := PairTask(n, a, b);
    PairTaskValid(n, a, b);
    PairNoInfluence(n, a, b);
    var op := task.operators[0];
    PairEntries(order, a, b);
    PositionUnique(order, a, j);
    PositionUnique(order, b, i);
    OneOperator(order, op);
    var small := ProjectTask(order, task);
    DescentNotValid(small.ranges, ProjectOperator(order, op));
    assert !ValidOperator(small.ranges, small.operators[0]);
  }

  /** The orders that keep every valid task valid are the ascending ones. */
  lemma ValidExactlyWhenAscending(order: seq<int>, n: nat)
    requires Distinct(order) && InRange(order, n)
    ensures Ascending(order) <==>
      forall task: Task :: |task.ranges| == n && ValidTask(task) && GoodOrder(task, order) ==> ValidTask(ProjectTask(order, task))
  {
    if Ascending(order) {
      forall task: Task | |task.ranges| == n && ValidTask(task) && GoodOrder(task, order)
        ensures ValidTask(ProjectTask(order, task))
      {
        AscendingKeepsValid(task, order);
      }
    } else {
      var i, j :| 0 <= i < j < |order| && !(order[i] < order[j]);
      assert order[i] != order[j];
      DescentBreaksTask(order, n, i, j);
      assert |PairTask(n, order[j], order[i]).ranges| == n;
    }
  }
}
