/**
  Planning tasks in finite-domain representation (sas_tasks.py), without axioms:
  the data model, the validity rules, and the meaning of an operator.

  The effects of an operator are applied in list order, so the last triggering
  entry for a variable wins.  Entries are kept sorted, which makes this the
  highest value (sas_tasks.py:310-318); `HighestPostWins` proves the two agree.
 */
module SasTasks {
  import opened Sorting
  import opened Wrappers

  datatype Fact = Fact(v: int, val: int)

  /** An entry of `pre_post`; `pre == -1` stands for no precondition. */
  datatype PrePost = PrePost(v: int, pre: int, post: int, cond: seq<Fact>)

  datatype Operator = Operator(name: string, prevail: seq<Fact>, prePost: seq<PrePost>, cost: int)

  datatype Task = Task(ranges: seq<int>, init: seq<int>, goal: seq<Fact>, operators: seq<Operator>)

  type State = seq<int>

  const NO_PRE := -1

  // ----- Orders on facts and entries -----

  predicate FactLess(a: Fact, b: Fact) {
    a.v < b.v || (a.v == b.v && a.val < b.val)
  }

  predicate CondLess(a: seq<Fact>, b: seq<Fact>) {
    if a == [] then b != []
    else b != [] && (FactLess(a[0], b[0]) || (a[0] == b[0] && CondLess(a[1..], b[1..])))
  }

  predicate EntryLess(a: PrePost, b: PrePost) {
    a.v < b.v || (a.v == b.v &&
      (a.pre < b.pre || (a.pre == b.pre &&
        (a.post < b.post || (a.post == b.post && CondLess(a.cond, b.cond))))))
  }

  lemma FactOrder()
    ensures StrictTotalOrder(FactLess)
  {
  }

  lemma {:induction false} CondTotal(a: seq<Fact>, b: seq<Fact>)
    ensures !CondLess(a, a)
    ensures CondLess(a, b) || CondLess(b, a) || a == b
  {
    if a == [] || b == [] {
      if a != [] { CondTotal(a[1..], []); }
    } else {
      CondTotal(a[1..], b[1..]);
      if a[0] == b[0] && a[1..] == b[1..] {
        assert a == [a[0]] + a[1..] && b == [b[0]] + b[1..];
      }
    }
  }

  lemma {:induction false} CondTransitive(a: seq<Fact>, b: seq<Fact>, c: seq<Fact>)
    requires CondLess(a, b) && CondLess(b, c)
    ensures CondLess(a, c)
  {
    if a != [] && a[0] == b[0] && b[0] == c[0] {
      CondTransitive(a[1..], b[1..], c[1..]);
    }
  }

  lemma EntryOrder()
    ensures StrictTotalOrder(EntryLess)
  {
    forall x: PrePost ensures !EntryLess(x, x) { CondTotal(x.cond, x.cond); }
    forall x: PrePost, y: PrePost ensures EntryLess(x, y) || EntryLess(y, x) || x == y {
      CondTotal(x.cond, y.cond);
    }
    forall x: PrePost, y: PrePost, z: PrePost | EntryLess(x, y) && EntryLess(y, z)
      ensures EntryLess(x, z)
    {
      if CondLess(x.cond, y.cond) && CondLess(y.cond, z.cond) {
        CondTransitive(x.cond, y.cond, z.cond);
      }
    }
  }

  // ----- Construction -----

  function Canonical(es: seq<PrePost>): (r: seq<PrePost>)
    ensures SameElements(r, es)
  {
    SortUnique(EntryLess, es)
  }

  lemma CanonicalIdempotent(es: seq<PrePost>)
    ensures Canonical(Canonical(es)) == Canonical(es)
  {
    EntryOrder();
    SortUniqueSorts(EntryLess, es);
    CanonicalIffSorted(EntryLess, Canonical(es));
  }

  function MakeOperator(name: string, prevail: seq<Fact>, prePost: seq<PrePost>, cost: int): Operator {
    Operator(name, Sort(FactLess, prevail), Canonical(prePost), cost)
  }

  // ----- Validity -----

  predicate ValidFact(ranges: seq<int>, f: Fact) {
    0 <= f.v < |ranges| && 0 <= f.val < ranges[f.v]
  }

  predicate ValidCondition(ranges: seq<int>, c: seq<Fact>) {
    && (forall i :: 0 <= i < |c| ==> ValidFact(ranges, c[i]))
    && (forall i, j :: 0 <= i < j < |c| ==> c[i].v < c[j].v)
  }

  predicate ValidEntry(ranges: seq<int>, e: PrePost) {
    && ValidCondition(ranges, e.cond)
    && (e.pre == NO_PRE || ValidFact(ranges, Fact(e.v, e.pre)))
    && ValidFact(ranges, Fact(e.v, e.post))
  }

  /** All entries for one variable carry the same precondition. */
  predicate UniformPre(es: seq<PrePost>) {
    forall i, j :: 0 <= i < |es| && 0 <= j < |es| && es[i].v == es[j].v ==> es[i].pre == es[j].pre
  }

  predicate MentionsVar(c: seq<Fact>, v: int) {
    exists i :: 0 <= i < |c| && c[i].v == v
  }

  /** The operator restricts `v` by a prevail condition or a precondition. */
  predicate Conditioned(op: Operator, v: int) {
    MentionsVar(op.prevail, v) ||
    exists i :: 0 <= i < |op.prePost| && op.prePost[i].v == v && op.prePost[i].pre != NO_PRE
  }

  predicate ValidOperator(ranges: seq<int>, op: Operator) {
    && ValidCondition(ranges, op.prevail)
    && Canonical(op.prePost) == op.prePost
    && (forall i :: 0 <= i < |op.prePost| ==> ValidEntry(ranges, op.prePost[i]))
    && (forall i :: 0 <= i < |op.prePost| ==> !MentionsVar(op.prevail, op.prePost[i].v))
    && UniformPre(op.prePost)
    && (forall i, j :: 0 <= i < |op.prePost| && 0 <= j < |op.prePost[i].cond| ==>
          !Conditioned(op, op.prePost[i].cond[j].v))
    && op.prePost != []
    && op.cost >= 0
  }

  predicate ValidState(ranges: seq<int>, s: State) {
    |s| == |ranges| && forall v :: 0 <= v < |s| ==> 0 <= s[v] < ranges[v]
  }

  predicate ValidTask(task: Task) {
    && (forall v :: 0 <= v < |task.ranges| ==> task.ranges[v] >= 2)
    && ValidState(task.ranges, task.init)
    && task.goal != [] && ValidCondition(task.ranges, task.goal)
    && (forall i :: 0 <= i < |task.operators| ==> ValidOperator(task.ranges, task.operators[i]))
  }

  /** A task whose parts are rewritten in place. */
  class SasTask {
    var ranges: seq<int>
    var init: seq<int>
    var goal: seq<Fact>
    var operators: seq<Operator>

    function Value(): Task
      reads this
    {
      Task(ranges, init, goal, operators)
    }

    constructor (task: Task)
      ensures Value() == task
    {
      ranges, init, goal, operators := task.ranges, task.init, task.goal, task.operators;
    }
  }

  // ----- Semantics -----

  predicate Holds(s: State, f: Fact) {
    0 <= f.v < |s| && s[f.v] == f.val
  }

  predicate Satisfies(s: State, c: seq<Fact>) {
    forall i :: 0 <= i < |c| ==> Holds(s, c[i])
  }

  predicate PreHolds(s: State, e: PrePost) {
    e.pre == NO_PRE || Holds(s, Fact(e.v, e.pre))
  }

  predicate Applicable(op: Operator, s: State) {
    Satisfies(s, op.prevail) && forall i :: 0 <= i < |op.prePost| ==> PreHolds(s, op.prePost[i])
  }

  /** The entry triggers in `s` and sets variable `v`. */
  predicate Sets(s: State, e: PrePost, v: int) {
    e.v == v && Satisfies(s, e.cond)
  }

  /** Apply the triggered entries one after the other; conditions refer to `s`. */
  function ApplyEffects(s: State, es: seq<PrePost>): (t: State)
    ensures |t| == |s|
  {
    if es == [] then s
    else
      var t := ApplyEffects(s, es[..|es| - 1]);
      var e := es[|es| - 1];
      if 0 <= e.v < |t| && Satisfies(s, e.cond) then t[e.v := e.post] else t
  }

  function Successor(op: Operator, s: State): (t: State)
    ensures |t| == |s|
  {
    ApplyEffects(s, op.prePost)
  }

  datatype Outcome = Stuck | Reached(s: State, cost: int)

  /** Run a plan from `s`: the final state and the sum of the operator costs. */
  function Execute(s: State, plan: seq<Operator>): Outcome
    decreases |plan|
  {
    if plan == [] then Reached(s, 0)
    else if !Applicable(plan[0], s) then Stuck
    else
      match Execute(Successor(plan[0], s), plan[1..])
      case Stuck => Stuck
      case Reached(t, c) => Reached(t, plan[0].cost + c)
  }

  ghost predicate PlanOf(ops: seq<Operator>, plan: seq<Operator>) {
    forall i :: 0 <= i < |plan| ==> plan[i] in ops
  }

  /** `plan` solves the task with total cost `c`. */
  ghost predicate SolvesWithCost(task: Task, plan: seq<Operator>, c: int) {
    && PlanOf(task.operators, plan)
    && (var o := Execute(task.init, plan); o.Reached? && o.cost == c && Satisfies(o.s, task.goal))
  }

  ghost predicate SolvableAtCost(task: Task, c: int) {
    exists plan :: SolvesWithCost(task, plan, c)
  }

  /** The names of the operators, step by step. */
  function Names(plan: seq<Operator>): (r: seq<string>)
    ensures |r| == |plan| && forall i :: 0 <= i < |r| ==> r[i] == plan[i].name
  {
    seq(|plan|, i requires 0 <= i < |plan| => plan[i].name)
  }

  /** Some plan has these names and this cost. */
  ghost predicate SolvableBy(task: Task, names: seq<string>, c: int) {
    exists plan :: SolvesWithCost(task, plan, c) && Names(plan) == names
  }

  /** Some plan costs at most `c`, and its names are left when some of `names` are dropped. */
  ghost predicate SolvableWithin(task: Task, names: seq<string>, c: int) {
    exists plan, d :: d <= c && SolvesWithCost(task, plan, d) && Sublist(Names(plan), names)
  }

  /** The tasks have plans of the same names and costs, except that the second may save
      operators that change nothing. */
  ghost predicate KeepsPlans(before: Task, after: Task) {
    && (forall names, c :: SolvableBy(after, names, c) ==> SolvableBy(before, names, c))
    && (forall names, c :: SolvableBy(before, names, c) ==> SolvableWithin(after, names, c))
  }

  lemma KeepsOwnPlans(task: Task)
    ensures KeepsPlans(task, task)
  {
    forall names, c | SolvableBy(task, names, c) ensures SolvableWithin(task, names, c) {
      var plan :| SolvesWithCost(task, plan, c) && Names(plan) == names;
      SublistSelf(names);
    }
  }

  lemma KeepsPlansTwice(first: Task, second: Task, third: Task)
    requires KeepsPlans(first, second) && KeepsPlans(second, third)
    ensures KeepsPlans(first, third)
  {
    hide SolvesWithCost;
    forall names, c | SolvableBy(first, names, c) ensures SolvableWithin(third, names, c) {
      var plan, d :| d <= c && SolvesWithCost(second, plan, d) && Sublist(Names(plan), names);
      assert SolvableBy(second, Names(plan), d);
      var q, e :| e <= d && SolvesWithCost(third, q, e) && Sublist(Names(q), Names(plan));
      SublistTwice(Names(q), Names(plan), names);
    }
  }

  ghost predicate Reachable(task: Task, s: State) {
    exists plan :: PlanOf(task.operators, plan) && Execute(task.init, plan).Reached? &&
      Execute(task.init, plan).s == s
  }

  // ----- Highest post wins -----

  /** `x` is the value of `v` after the entries in `es`, whatever their order. */
  ghost predicate NewValue(s: State, es: seq<PrePost>, v: int, x: int) {
    if exists i :: 0 <= i < |es| && Sets(s, es[i], v) then
      && (exists i :: 0 <= i < |es| && Sets(s, es[i], v) && es[i].post == x)
      && (forall i :: 0 <= i < |es| && Sets(s, es[i], v) ==> es[i].post <= x)
    else
      0 <= v < |s| && x == s[v]
  }

  ghost predicate PostsAscend(es: seq<PrePost>) {
    forall i, j :: 0 <= i < j < |es| && es[i].v == es[j].v ==> es[i].post <= es[j].post
  }

  lemma {:induction false} AscendingHighestPost(s: State, es: seq<PrePost>, v: int)
    requires PostsAscend(es) && 0 <= v < |s|
    ensures NewValue(s, es, v, ApplyEffects(s, es)[v])
  {
    if es != [] {
      var init, e := es[..|es| - 1], es[|es| - 1];
      AscendingHighestPost(s, init, v);
      forall i | 0 <= i < |init| ensures es[i] == init[i] {}
      if Sets(s, e, v) {
        assert es[|es| - 1] == e;
      } else if exists i :: 0 <= i < |es| && Sets(s, es[i], v) {
        var i :| 0 <= i < |es| && Sets(s, es[i], v);
        assert Sets(s, init[i], v);
      }
    }
  }

  lemma ValidPostsAscend(ranges: seq<int>, op: Operator)
    requires ValidOperator(ranges, op)
    ensures StrictlySorted(EntryLess, op.prePost)
    ensures PostsAscend(op.prePost)
  {
    EntryOrder();
    CanonicalIffSorted(EntryLess, op.prePost);
  }

  /** For a valid operator, applying the effects in sequence gives every
      variable the highest value among its triggering entries. */
  lemma HighestPostWins(ranges: seq<int>, op: Operator, s: State, v: int)
    requires ValidOperator(ranges, op) && 0 <= v < |s|
    ensures NewValue(s, op.prePost, v, Successor(op, s)[v])
  {
    ValidPostsAscend(ranges, op);
    AscendingHighestPost(s, op.prePost, v);
  }

  /** Only the set of entries matters for `NewValue`. */
  lemma NewValueOfSet(s: State, es: seq<PrePost>, fs: seq<PrePost>, v: int, x: int)
    requires SameElements(es, fs) && NewValue(s, es, v, x)
    ensures NewValue(s, fs, v, x)
  {
    forall i | 0 <= i < |es| ensures es[i] in fs { assert es[i] in es; }
    forall i | 0 <= i < |fs| ensures fs[i] in es { assert fs[i] in fs; }
  }

  lemma SuccessorValid(ranges: seq<int>, op: Operator, s: State)
    requires ValidOperator(ranges, op) && ValidState(ranges, s)
    ensures ValidState(ranges, Successor(op, s))
  {
    var t := Successor(op, s);
    forall v | 0 <= v < |t| ensures 0 <= t[v] < ranges[v] {
      HighestPostWins(ranges, op, s, v);
    }
  }

  // ----- Applicability conditions -----

  /** The dictionary of prevail conditions and preconditions. */
  function ConditionMap(op: Operator): map<int, int> {
    PreMap(Dict(op.prevail), op.prePost)
  }

  /** `dict(c)`: later pairs overwrite earlier ones. */
  function Dict(c: seq<Fact>): (m: map<int, int>) {
    if c == [] then map[] else Dict(c[..|c| - 1])[c[|c| - 1].v := c[|c| - 1].val]
  }

  function PreMap(m: map<int, int>, es: seq<PrePost>): map<int, int> {
    if es == [] then m
    else
      var rest, e := PreMap(m, es[..|es| - 1]), es[|es| - 1];
      if e.pre != NO_PRE then rest[e.v := e.pre] else rest
  }

  ghost predicate IsLeast(s: set<int>, k: int) {
    k in s && forall l :: l in s ==> k <= l
  }

  lemma {:induction false} LeastExists(s: set<int>)
    requires s != {}
    ensures exists k :: IsLeast(s, k)
    decreases |s|
  {
    var x := Member(s);
    var rest := s - {x};
    if rest == {} {
      assert IsLeast(s, x) by { forall l | l in s ensures x <= l { assert l == x || l in rest; } }
    } else {
      LeastExists(rest);
      var k :| IsLeast(rest, k);
      assert IsLeast(s, if k <= x then k else x) by {
        forall l | l in s ensures k <= l || x <= l { assert l == x || l in rest; }
      }
    }
  }

  function Least(s: set<int>): (k: int)
    requires s != {}
    ensures IsLeast(s, k)
  {
    LeastExists(s);
    var k :| k in s && forall l :: l in s ==> k <= l;
    k
  }

  /** `sorted(m.items())` for a dictionary. */
  function Items(m: map<int, int>): (r: seq<Fact>)
    ensures forall f :: f in r <==> f.v in m && m[f.v] == f.val
    ensures forall i, j :: 0 <= i < j < |r| ==> r[i].v < r[j].v
    decreases |m|
  {
    if |m| == 0 then []
    else
      assert |m.Keys| != 0;
      var k := Least(m.Keys);
      var rest := m - {k};
      assert |rest| < |m| by { assert rest.Keys == m.Keys - {k}; assert |rest.Keys| < |m.Keys|; }
      [Fact(k, m[k])] + Items(rest)
  }

  /** No variable is listed twice. */
  predicate DistinctVars(c: seq<Fact>) {
    forall i, j :: 0 <= i < j < |c| ==> c[i].v != c[j].v
  }

  lemma {:induction false} DictFacts(c: seq<Fact>)
    requires DistinctVars(c)
    ensures forall v :: v in Dict(c) <==> MentionsVar(c, v)
    ensures forall i :: 0 <= i < |c| ==> c[i].v in Dict(c) && Dict(c)[c[i].v] == c[i].val
  {
    if c != [] {
      var rest := c[..|c| - 1];
      DictFacts(rest);
      forall v ensures v in Dict(c) <==> MentionsVar(c, v) {
        if MentionsVar(rest, v) {
          var i :| 0 <= i < |rest| && rest[i].v == v;
          assert c[i].v == v;
        }
        if MentionsVar(c, v) && v != c[|c| - 1].v {
          var i :| 0 <= i < |c| && c[i].v == v;
          assert rest[i].v == v;
        }
        assert c[|c| - 1].v == v ==> MentionsVar(c, v);
      }
      forall i | 0 <= i < |c| ensures c[i].v in Dict(c) && Dict(c)[c[i].v] == c[i].val {
        if i < |rest| { assert rest[i] == c[i]; }
      }
    }
  }

  ghost predicate HasPre(es: seq<PrePost>, v: int) {
    exists i :: 0 <= i < |es| && es[i].v == v && es[i].pre != NO_PRE
  }

  lemma {:induction false} PreMapFacts(m: map<int, int>, es: seq<PrePost>)
    requires UniformPre(es)
    ensures forall v :: v in PreMap(m, es) <==> v in m || HasPre(es, v)
    ensures forall i :: 0 <= i < |es| && es[i].pre != NO_PRE ==>
      es[i].v in PreMap(m, es) && PreMap(m, es)[es[i].v] == es[i].pre
    ensures forall v :: v in m && !HasPre(es, v) ==> PreMap(m, es)[v] == m[v]
  {
    if es != [] {
      var rest, e := es[..|es| - 1], es[|es| - 1];
      assert UniformPre(rest);
      PreMapFacts(m, rest);
      forall v ensures HasPre(es, v) <==> HasPre(rest, v) || (e.v == v && e.pre != NO_PRE) {
        if HasPre(rest, v) {
          var i :| 0 <= i < |rest| && rest[i].v == v && rest[i].pre != NO_PRE;
          assert es[i] == rest[i];
        }
        if HasPre(es, v) && !(e.v == v && e.pre != NO_PRE) {
          var i :| 0 <= i < |es| && es[i].v == v && es[i].pre != NO_PRE;
          assert es[i] == rest[i];
        }
      }
      forall i | 0 <= i < |es| && es[i].pre != NO_PRE
        ensures es[i].v in PreMap(m, es) && PreMap(m, es)[es[i].v] == es[i].pre
      {
        if i < |rest| { assert rest[i] == es[i]; }
      }
    }
  }

  /** The dictionary restricts exactly the conditioned variables, and a state
      agrees with it exactly when the operator is applicable. */
  lemma ConditionMapFacts(ranges: seq<int>, op: Operator)
    requires ValidOperator(ranges, op)
    ensures forall v :: v in ConditionMap(op) <==> Conditioned(op, v)
    ensures forall i :: 0 <= i < |op.prevail| ==>
      op.prevail[i].v in ConditionMap(op) && ConditionMap(op)[op.prevail[i].v] == op.prevail[i].val
    ensures forall i :: 0 <= i < |op.prePost| && op.prePost[i].pre != NO_PRE ==>
      op.prePost[i].v in ConditionMap(op) && ConditionMap(op)[op.prePost[i].v] == op.prePost[i].pre
  {
    DictFacts(op.prevail);
    PreMapFacts(Dict(op.prevail), op.prePost);
    forall i, j | 0 <= i < |op.prevail| && 0 <= j < |op.prePost|
      ensures op.prePost[j].v != op.prevail[i].v
    {
      assert !MentionsVar(op.prevail, op.prePost[j].v);
    }
  }

  lemma ConditionsMeanApplicable(ranges: seq<int>, op: Operator, s: State)
    requires ValidOperator(ranges, op)
    ensures Satisfies(s, Items(ConditionMap(op))) <==> Applicable(op, s)
  {
    ConditionMapFacts(ranges, op);
    var m := ConditionMap(op);
    var items := Items(m);
    if Satisfies(s, items) {
      forall i | 0 <= i < |op.prevail| ensures Holds(s, op.prevail[i]) {
        assert op.prevail[i] in items;
      }
      forall i | 0 <= i < |op.prePost| ensures PreHolds(s, op.prePost[i]) {
        if op.prePost[i].pre != NO_PRE {
          assert Fact(op.prePost[i].v, op.prePost[i].pre) in items;
        }
      }
    }
    if Applicable(op, s) {
      forall i | 0 <= i < |items| ensures Holds(s, items[i]) {
        assert items[i] in items;
        assert Conditioned(op, items[i].v);
        if MentionsVar(op.prevail, items[i].v) {
          var j :| 0 <= j < |op.prevail| && op.prevail[j].v == items[i].v;
          assert Holds(s, op.prevail[j]);
        } else {
          var j :| 0 <= j < |op.prePost| && op.prePost[j].v == items[i].v && op.prePost[j].pre != NO_PRE;
          assert PreHolds(s, op.prePost[j]);
        }
      }
    }
  }

  /** The combined prevail conditions and preconditions, sorted, at most one
      fact per variable. */
  method GetApplicabilityConditions(ghost ranges: seq<int>, op: Operator) returns (r: seq<Fact>)
    requires ValidOperator(ranges, op)
    ensures r == Items(ConditionMap(op))
    ensures ValidCondition(ranges, r)
    ensures forall s :: Satisfies(s, r) <==> Applicable(op, s)
  {
    var conditions: map<int, int> := map[];
    for i := 0 to |op.prevail|
      invariant conditions == Dict(op.prevail[..i])
    {
      assert op.prevail[..i + 1][..i] == op.prevail[..i];
      conditions := conditions[op.prevail[i].v := op.prevail[i].val];
    }
    assert op.prevail[..|op.prevail|] == op.prevail;
    for i := 0 to |op.prePost|
      invariant conditions == PreMap(Dict(op.prevail), op.prePost[..i])
    {
      assert op.prePost[..i + 1][..i] == op.prePost[..i];
      if op.prePost[i].pre != NO_PRE {
        conditions := conditions[op.prePost[i].v := op.prePost[i].pre];
      }
    }
    assert op.prePost[..|op.prePost|] == op.prePost;
    r := Items(conditions);
    ConditionsValid(ranges, op);
    forall s ensures Satisfies(s, r) <==> Applicable(op, s) { ConditionsMeanApplicable(ranges, op, s); }
  }

  lemma ConditionsValid(ranges: seq<int>, op: Operator)
    requires ValidOperator(ranges, op)
    ensures ValidCondition(ranges, Items(ConditionMap(op)))
  {
    ConditionMapFacts(ranges, op);
    var items := Items(ConditionMap(op));
    forall i | 0 <= i < |items| ensures ValidFact(ranges, items[i]) {
      assert items[i] in items;
      assert Conditioned(op, items[i].v);
      if MentionsVar(op.prevail, items[i].v) {
        var j :| 0 <= j < |op.prevail| && op.prevail[j].v == items[i].v;
        assert items[i] == op.prevail[j];
      } else {
        var j :| 0 <= j < |op.prePost| && op.prePost[j].v == items[i].v && op.prePost[j].pre != NO_PRE;
        assert ValidEntry(ranges, op.prePost[j]);
      }
    }
  }

  // ----- Running plans -----

  // ----- Simulations between operator lists -----

  /** Some operator of `B` follows `op`; if not `exact`, standing still also does. */
  ghost predicate StepMatched(rel: (State, State) -> bool, op: Operator, B: seq<Operator>, exact: bool, s: State,
      t: State) {
    || (!exact && op.cost >= 0 && rel(Successor(op, s), t))
    || (exists j :: 0 <= j < |B| && Applicable(B[j], t) && B[j].cost == op.cost && B[j].name == op.name &&
          rel(Successor(op, s), Successor(B[j], t)))
  }

  ghost predicate Simulates(rel: (State, State) -> bool, A: seq<Operator>, B: seq<Operator>, exact: bool) {
    forall k, s, t :: 0 <= k < |A| && rel(s, t) && Applicable(A[k], s) ==> StepMatched(rel, A[k], B, exact, s, t)
  }

  lemma {:induction false} SimulationTransfersPlans(rel: (State, State) -> bool, A: seq<Operator>, B: seq<Operator>,
      exact: bool, plan: seq<Operator>, s: State, t: State) returns (q: seq<Operator>)
    requires Simulates(rel, A, B, exact) && rel(s, t)
    requires PlanOf(A, plan) && Execute(s, plan).Reached?
    ensures PlanOf(B, q) && Execute(t, q).Reached? && rel(Execute(s, plan).s, Execute(t, q).s)
    ensures Execute(t, q).cost <= Execute(s, plan).cost
    ensures Sublist(Names(q), Names(plan))
    ensures exact ==> Execute(t, q).cost == Execute(s, plan).cost && Names(q) == Names(plan)
    decreases |plan|
  {
    if plan == [] {
      q := [];
    } else {
      var op, next := plan[0], Successor(plan[0], s);
      assert op in A && PlanOf(A, plan[1..]);
      assert StepMatched(rel, op, B, exact, s, t);
      if !exact && op.cost >= 0 && rel(next, t) {
        q := SimulationTransfersPlans(rel, A, B, exact, plan[1..], next, t);
        assert Names(plan)[1..] == Names(plan[1..]);
      } else {
        var j :| 0 <= j < |B| && Applicable(B[j], t) && B[j].cost == op.cost && B[j].name == op.name &&
          rel(next, Successor(B[j], t));
        var rest := SimulationTransfersPlans(rel, A, B, exact, plan[1..], next, Successor(B[j], t));
        q := [B[j]] + rest;
        assert q[0] == B[j] && q[1..] == rest;
        assert Names(plan)[1..] == Names(plan[1..]) && Names(q)[1..] == Names(rest);
      }
    }
  }
}
