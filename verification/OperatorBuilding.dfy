/**
  From an effect table to an operator (translate.py:274-328): effects that keep the
  precondition value are skipped, the conditions of the others are simplified, and
  variables with an effect move from the prevail conditions to preconditions.
 */
module OperatorBuilding {
  import opened Wrappers
  import opened SasTasks = SasTasks
  import opened Conditions
  import opened EffectTables
  import opened EffectConditions

  function PreOf(condition: Condition, v: int): int {
    if v in condition then condition[v] else NO_PRE
  }

  // ----- The entries of one cell -----

  /** An entry of the cell `v = x`, in shape. */
  predicate CellEntry(ranges: seq<int>, condition: Condition, v: int, x: int, e: PrePost) {
    && e.v == v && e.post == x && e.pre == PreOf(condition, v) && e.pre != x
    && ValidCondition(ranges, e.cond)
    && (forall k :: 0 <= k < |e.cond| ==> e.cond[k].v !in condition)
  }

  /** The operator's condition holds in the valid state `s`. */
  predicate Admits(ranges: seq<int>, condition: Condition, s: State) {
    ValidState(ranges, s) && SatMap(s, condition)
  }

  /** Some entry of the list is triggered. */
  predicate AnySets(s: State, es: seq<PrePost>, v: int, x: int) {
    exists i :: 0 <= i < |es| && Sets(s, es[i], v) && es[i].post == x
  }

  /** The effect on `v = x` triggers, or it is the only one on `v` and changes nothing. */
  predicate TriggeredOrIdle(t: Table, v: int, x: int, s: State) {
    Triggered(t, v, x, s) || (Row(t, v).Keys == {x} && Holds(s, Fact(v, x)))
  }

  ghost predicate CellSound(ranges: seq<int>, condition: Condition, t: Table, es: seq<PrePost>) {
    forall s: State, v, x :: Admits(ranges, condition, s) && AnySets(s, es, v, x) ==> TriggeredOrIdle(t, v, x, s)
  }

  /** The conditions of the cell `v = x`: pruned if the variable is binary. */
  ghost predicate UsedConditions(ranges: seq<int>, t: Table, v: int, x: int, cs: seq<seq<Fact>>) {
    if 0 <= v < |ranges| && ranges[v] == 2
    then PrunedTo(ItemLists(Cell(t, v, x)), Fact(v, 1 - x), Row(t, v).Keys, cs)
    else cs == ItemLists(Cell(t, v, x))
  }

  /** The entry comes from a condition of its cell, without what the operator's condition says. */
  ghost predicate FromCell(ranges: seq<int>, condition: Condition, t: Table, e: PrePost) {
    exists cs, c :: UsedConditions(ranges, t, e.v, e.post, cs) && c in cs && Filtered(condition, c, e.cond)
  }

  /** Every condition that can be met under the operator's condition has its entry. */
  ghost predicate Listed(condition: Condition, v: int, x: int, cs: seq<seq<Fact>>, es: seq<PrePost>) {
    forall c, r :: c in cs && Filtered(condition, c, r) ==> PrePost(v, PreOf(condition, v), x, r) in es
  }

  ghost predicate CellListed(ranges: seq<int>, condition: Condition, t: Table, es: seq<PrePost>, v: int, x: int) {
    exists cs :: UsedConditions(ranges, t, v, x, cs) && Listed(condition, v, x, cs, es)
  }

  lemma ListedPush(condition: Condition, cs: seq<seq<Fact>>, es: seq<PrePost>, c: seq<Fact>, e: PrePost)
    requires Listed(condition, e.v, e.post, cs, es) && Filtered(condition, c, e.cond) && e.pre == PreOf(condition, e.v)
    ensures Listed(condition, e.v, e.post, cs + [c], es + [e])
  {
    forall d, r | d in cs + [c] && Filtered(condition, d, r)
      ensures PrePost(e.v, PreOf(condition, e.v), e.post, r) in es + [e]
    {
      if d == c { FilteredIsUnique(condition, c, r, e.cond); }
    }
  }

  lemma ListedMore(condition: Condition, v: int, x: int, cs: seq<seq<Fact>>, es: seq<PrePost>, c: seq<Fact>)
    requires Listed(condition, v, x, cs, es) && forall q :: !Filtered(condition, c, q)
    ensures Listed(condition, v, x, cs + [c], es)
  {
  }

  /** A triggered effect `v = x` has a triggered entry, and all its conditions have theirs,
      unless the precondition is `v = x`. */
  ghost predicate CellComplete(ranges: seq<int>, condition: Condition, t: Table, es: seq<PrePost>, v: int, x: int) {
    x == PreOf(condition, v) ||
    (&& CellListed(ranges, condition, t, es, v, x)
     && forall s: State :: Admits(ranges, condition, s) && Triggered(t, v, x, s) ==> AnySets(s, es, v, x))
  }

  /** `[sorted(c.items()) for c in conds]` */
  function ItemLists(conds: seq<Condition>): (r: seq<seq<Fact>>)
    ensures |r| == |conds| && forall i :: 0 <= i < |r| ==> r[i] == Items(conds[i])
  {
    seq(|conds|, i requires 0 <= i < |conds| => Items(conds[i]))
  }

  lemma ItemsMean(s: State, m: Condition)
    ensures Satisfies(s, Items(m)) <==> SatMap(s, m)
    ensures Ascending(Items(m))
  {
    SatisfiesIn(s, Items(m));
    if Satisfies(s, Items(m)) {
      forall v | v in m ensures Holds(s, Fact(v, m[v])) { assert Fact(v, m[v]) in Items(m); }
    }
  }

  lemma ItemListsMean(s: State, conds: seq<Condition>)
    ensures AnySatisfied(s, ItemLists(conds)) <==> Picks(s, conds)
    ensures AllAscending(ItemLists(conds))
  {
    forall i | 0 <= i < |conds|
      ensures Satisfies(s, ItemLists(conds)[i]) <==> SatMap(s, conds[i])
      ensures Ascending(ItemLists(conds)[i])
    {
      ItemsMean(s, conds[i]);
    }
  }

  predicate FactsValid(ranges: seq<int>, cs: seq<seq<Fact>>) {
    forall i, g :: 0 <= i < |cs| && g in cs[i] ==> ValidFact(ranges, g)
  }

  lemma ItemListsValid(ranges: seq<int>, conds: seq<Condition>)
    requires ValidMaps(ranges, conds)
    ensures FactsValid(ranges, ItemLists(conds))
  {
    forall i, g | 0 <= i < |conds| && g in ItemLists(conds)[i] ensures ValidFact(ranges, g) {
      assert ValidMap(ranges, conds[i]);
      assert g == Fact(g.v, conds[i][g.v]);
    }
  }

  /** The conditions of the cell `v = x` after pruning: equivalent to the cell, or
      weaker where the only effect on `v` changes nothing. */
  ghost predicate CellConditions(ranges: seq<int>, t: Table, v: int, x: int, cs: seq<seq<Fact>>) {
    && AllAscending(cs) && FactsValid(ranges, cs)
    && (forall s: State :: Triggered(t, v, x, s) ==> AnySatisfied(s, cs))
    && (forall s: State :: ValidState(ranges, s) && AnySatisfied(s, cs) ==> TriggeredOrIdle(t, v, x, s))
  }

  lemma UnprunedCell(ranges: seq<int>, t: Table, v: int, x: int)
    requires ValidTable(ranges, t)
    ensures CellConditions(ranges, t, v, x, ItemLists(Cell(t, v, x)))
  {
    var conds := Cell(t, v, x);
    assert ValidMaps(ranges, conds);
    ItemListsValid(ranges, conds);
    forall s: State { ItemListsMean(s, conds); }
  }

  lemma PrunedCell(ranges: seq<int>, t: Table, v: int, x: int, cs: seq<seq<Fact>>)
    requires ValidTable(ranges, t) && v in t && x in t[v] && ranges[v] == 2 && 1 - x !in t[v]
    requires AllAscending(cs) && FactsValid(ranges, cs)
    requires Weakened(ItemLists(Cell(t, v, x)), Fact(v, 1 - x), cs)
    ensures CellConditions(ranges, t, v, x, cs)
  {
    var items := ItemLists(Cell(t, v, x));
    forall s: State ensures Triggered(t, v, x, s) <==> AnySatisfied(s, items) { ItemListsMean(s, Cell(t, v, x)); }
    forall y | y in t[v] ensures y == x { assert ValidFact(ranges, Fact(v, y)) && ValidFact(ranges, Fact(v, x)); }
    assert Row(t, v).Keys == {x};
    forall s: State | ValidState(ranges, s) && AnySatisfied(s, cs) ensures TriggeredOrIdle(t, v, x, s) {
      assert 0 <= s[v] < 2 && ValidFact(ranges, Fact(v, x));
      assert Holds(s, Fact(v, 1 - x)) || Holds(s, Fact(v, x));
    }
  }

  method SimplifiedConditions(ranges: seq<int>, t: Table, v: int, x: int) returns (cs: seq<seq<Fact>>)
    requires ValidTable(ranges, t) && v in t && x in t[v]
    ensures CellConditions(ranges, t, v, x, cs) && UsedConditions(ranges, t, v, x, cs)
  {
    hide CellConditions, Weakened, AllAscending, IsPruned;
    cs := ItemLists(t[v][x]);
    UnprunedCell(ranges, t, v, x);
    if ranges[v] == 2 {
      assert ValidFact(ranges, Fact(v, x));
      ItemListsMean([], t[v][x]);
      ItemListsValid(ranges, t[v][x]);
      var items, simplified := cs, false;
      cs, simplified := PruneStupidEffectConditions(v, x, items, t[v].Keys);
      assert ItemLists(Cell(t, v, x)) == items && Row(t, v).Keys == t[v].Keys;
      if 1 - x in t[v] { PrunedNot(items, Fact(v, 1 - x), t[v].Keys, cs, simplified); }
      if 1 - x !in t[v] {
        StillValid(ranges, items, cs);
        PrunedCell(ranges, t, v, x, cs);
      }
    }
  }

  lemma PrunedNot(items: seq<seq<Fact>>, d: Fact, keys: set<int>, cs: seq<seq<Fact>>, simplified: bool)
    requires IsPruned(items, d, keys, cs, simplified) && d.val in keys
    ensures cs == items
  {
  }

  lemma StillValid(ranges: seq<int>, items: seq<seq<Fact>>, cs: seq<seq<Fact>>)
    requires FactsValid(ranges, items)
    requires forall i, g :: 0 <= i < |cs| && g in cs[i] ==> exists j :: 0 <= j < |items| && g in items[j]
    ensures FactsValid(ranges, cs)
  {
  }

  /** The entries say what the first conditions of the list say. */
  ghost predicate EntriesFor(condition: Condition, v: int, x: int, cs: seq<seq<Fact>>, es: seq<PrePost>) {
    forall s: State :: SatMap(s, condition) ==> (AnySets(s, es, v, x) <==> AnySatisfied(s, cs))
  }

  lemma AnySetsAppend(s: State, es: seq<PrePost>, e: PrePost, v: int, x: int)
    ensures AnySets(s, es + [e], v, x) <==> AnySets(s, es, v, x) || (Sets(s, e, v) && e.post == x)
  {
    var more := es + [e];
    if AnySets(s, es, v, x) {
      var i :| 0 <= i < |es| && Sets(s, es[i], v) && es[i].post == x;
      assert Sets(s, more[i], v);
    }
    if Sets(s, e, v) && e.post == x { assert Sets(s, more[|es|], v); }
    if AnySets(s, more, v, x) {
      var i :| 0 <= i < |more| && Sets(s, more[i], v) && more[i].post == x;
      if i < |es| { assert Sets(s, es[i], v); }
    }
  }

  lemma AnySatisfiedAppend(s: State, cs: seq<seq<Fact>>, c: seq<Fact>)
    ensures AnySatisfied(s, cs + [c]) <==> AnySatisfied(s, cs) || Satisfies(s, c)
  {
    var more := cs + [c];
    if AnySatisfied(s, cs) {
      var i :| 0 <= i < |cs| && Satisfies(s, cs[i]);
      assert Satisfies(s, more[i]);
    }
    if Satisfies(s, c) { assert Satisfies(s, more[|cs|]); }
    if AnySatisfied(s, more) {
      var i :| 0 <= i < |more| && Satisfies(s, more[i]);
      if i < |cs| { assert Satisfies(s, cs[i]); }
    }
  }

  lemma EntryDiscarded(condition: Condition, v: int, x: int, cs: seq<seq<Fact>>, es: seq<PrePost>, c: seq<Fact>)
    requires EntriesFor(condition, v, x, cs, es) && forall s: State :: SatMap(s, condition) ==> !Satisfies(s, c)
    ensures EntriesFor(condition, v, x, cs + [c], es)
  {
    hide AnySets, AnySatisfied, SatMap, Satisfies;
    forall s: State | SatMap(s, condition) ensures AnySets(s, es, v, x) <==> AnySatisfied(s, cs + [c]) {
      AnySatisfiedAppend(s, cs, c);
    }
  }

  lemma EntryAdded(condition: Condition, cs: seq<seq<Fact>>, es: seq<PrePost>, c: seq<Fact>, e: PrePost)
    requires EntriesFor(condition, e.v, e.post, cs, es) && Filtered(condition, c, e.cond)
    ensures EntriesFor(condition, e.v, e.post, cs + [c], es + [e])
  {
    hide AnySets, AnySatisfied, SatMap, Satisfies, Filtered;
    forall s: State | SatMap(s, condition) ensures AnySets(s, es + [e], e.v, e.post) <==> AnySatisfied(s, cs + [c]) {
      AnySatisfiedAppend(s, cs, c);
      AnySetsAppend(s, es, e, e.v, e.post);
      FilteredMeans(s, condition, c, e.cond);
    }
  }

  lemma FilteredValid(ranges: seq<int>, condition: Condition, c: seq<Fact>, r: seq<Fact>)
    requires Filtered(condition, c, r) && forall g :: g in c ==> ValidFact(ranges, g)
    ensures ValidCondition(ranges, r) && forall k :: 0 <= k < |r| ==> r[k].v !in condition
  {
    forall k | 0 <= k < |r| ensures ValidFact(ranges, r[k]) && r[k].v !in condition { assert r[k] in r; }
  }

  predicate CellEntries(ranges: seq<int>, condition: Condition, v: int, x: int, es: seq<PrePost>) {
    forall i :: 0 <= i < |es| ==> CellEntry(ranges, condition, v, x, es[i])
  }

  method BuildCell(ranges: seq<int>, condition: Condition, t: Table, v: int, x: int) returns (es: seq<PrePost>)
    requires ValidTable(ranges, t) && v in t && x in t[v] && PreOf(condition, v) != x
    ensures CellEntries(ranges, condition, v, x, es) && CellsOf(ranges, condition, t, es)
    ensures CellSound(ranges, condition, t, es)
    ensures CellComplete(ranges, condition, t, es, v, x)
  {
    hide *;
    var cs := SimplifiedConditions(ranges, t, v, x);
    es := [];
    StartCell(ranges, condition, t, v, x);
    assert cs[..0] == [];
    for i := 0 to |cs|
      invariant CellBuilt(ranges, condition, t, v, x, cs[..i], es)
    {
      assert cs[..i + 1] == cs[..i] + [cs[i]];
      ConditionsShape(ranges, t, v, x, cs, i);
      var c := FilterCondition(condition, cs[i]);
      if c.None? {
        BuiltDiscard(ranges, condition, t, v, x, cs[..i], es, cs[i]);
      } else {
        var e := PrePost(v, PreOf(condition, v), x, c.value);
        EntryShape(ranges, condition, cs, i, e);
        ComesFrom(ranges, condition, t, cs, i, e);
        BuiltAdd(ranges, condition, t, cs[..i], es, cs[i], e);
        es := es + [e];
      }
    }
    assert cs[..|cs|] == cs;
    CellDone(ranges, condition, t, v, x, cs, es);
  }

  /** The entries made of the first conditions of the cell. */
  ghost predicate CellBuilt(ranges: seq<int>, condition: Condition, t: Table, v: int, x: int, cs: seq<seq<Fact>>,
      es: seq<PrePost>)
  {
    && CellEntries(ranges, condition, v, x, es) && CellsOf(ranges, condition, t, es)
    && EntriesFor(condition, v, x, cs, es) && Listed(condition, v, x, cs, es)
  }

  lemma StartCell(ranges: seq<int>, condition: Condition, t: Table, v: int, x: int)
    ensures CellBuilt(ranges, condition, t, v, x, [], [])
  {
    hide FromCell, Filtered, SatMap, Satisfies, Sets;
    forall s: State ensures !AnySets(s, [], v, x) && !AnySatisfied(s, []) {}
  }

  lemma BuiltDiscard(ranges: seq<int>, condition: Condition, t: Table, v: int, x: int, cs: seq<seq<Fact>>,
      es: seq<PrePost>, c: seq<Fact>)
    requires CellBuilt(ranges, condition, t, v, x, cs, es)
    requires (forall s: State :: SatMap(s, condition) ==> !Satisfies(s, c)) && forall q :: !Filtered(condition, c, q)
    ensures CellBuilt(ranges, condition, t, v, x, cs + [c], es)
  {
    hide CellEntries, CellsOf, EntriesFor, Listed, Filtered;
    EntryDiscarded(condition, v, x, cs, es, c);
    ListedMore(condition, v, x, cs, es, c);
  }

  lemma BuiltAdd(ranges: seq<int>, condition: Condition, t: Table, cs: seq<seq<Fact>>, es: seq<PrePost>, c: seq<Fact>,
      e: PrePost)
    requires CellBuilt(ranges, condition, t, e.v, e.post, cs, es) && FromCell(ranges, condition, t, e)
    requires CellEntry(ranges, condition, e.v, e.post, e) && Filtered(condition, c, e.cond)
    ensures CellBuilt(ranges, condition, t, e.v, e.post, cs + [c], es + [e])
  {
    hide CellEntry, FromCell, EntriesFor, Listed, Filtered;
    EntryAdded(condition, cs, es, c, e);
    assert e.pre == PreOf(condition, e.v) by { EntryPre(ranges, condition, e); }
    ListedPush(condition, cs, es, c, e);
  }

  lemma EntryShape(ranges: seq<int>, condition: Condition, cs: seq<seq<Fact>>, i: nat, e: PrePost)
    requires i < |cs| && FactsValid(ranges, cs) && Filtered(condition, cs[i], e.cond)
    requires e.pre == PreOf(condition, e.v) && e.pre != e.post
    ensures CellEntry(ranges, condition, e.v, e.post, e)
  {
    FilteredValid(ranges, condition, cs[i], e.cond);
  }

  lemma EntryPre(ranges: seq<int>, condition: Condition, e: PrePost)
    requires CellEntry(ranges, condition, e.v, e.post, e)
    ensures e.pre == PreOf(condition, e.v)
  {
  }

  lemma ComesFrom(ranges: seq<int>, condition: Condition, t: Table, cs: seq<seq<Fact>>, i: nat, e: PrePost)
    requires i < |cs| && UsedConditions(ranges, t, e.v, e.post, cs) && Filtered(condition, cs[i], e.cond)
    ensures FromCell(ranges, condition, t, e)
  {
    assert cs[i] in cs;
  }

  ghost predicate CellsOf(ranges: seq<int>, condition: Condition, t: Table, es: seq<PrePost>) {
    forall i :: 0 <= i < |es| ==> FromCell(ranges, condition, t, es[i])
  }

  lemma ConditionsShape(ranges: seq<int>, t: Table, v: int, x: int, cs: seq<seq<Fact>>, i: nat)
    requires CellConditions(ranges, t, v, x, cs) && i < |cs|
    ensures Ascending(cs[i]) && FactsValid(ranges, cs)
  {
  }

  lemma CellDone(ranges: seq<int>, condition: Condition, t: Table, v: int, x: int, cs: seq<seq<Fact>>, es: seq<PrePost>)
    requires CellConditions(ranges, t, v, x, cs) && UsedConditions(ranges, t, v, x, cs)
    requires CellBuilt(ranges, condition, t, v, x, cs, es)
    ensures CellEntries(ranges, condition, v, x, es) && CellsOf(ranges, condition, t, es)
    ensures CellSound(ranges, condition, t, es)
    ensures CellComplete(ranges, condition, t, es, v, x)
  {
    hide AnySatisfied, Triggered, TriggeredOrIdle, AllAscending, FactsValid, UsedConditions, Listed, CellsOf;
    assert CellListed(ranges, condition, t, es, v, x);
    forall s: State, u, y | Admits(ranges, condition, s) && AnySets(s, es, u, y) ensures TriggeredOrIdle(t, u, y, s) {
      assert u == v && y == x;
    }
  }

  // ----- All entries -----

  /** An entry of some cell of the table, in shape. */
  ghost predicate TableEntry(ranges: seq<int>, condition: Condition, t: Table, e: PrePost) {
    e.v in t && e.post in t[e.v] && CellEntry(ranges, condition, e.v, e.post, e) && FromCell(ranges, condition, t, e)
  }

  ghost predicate TableEntries(ranges: seq<int>, condition: Condition, t: Table, es: seq<PrePost>) {
    forall i :: 0 <= i < |es| ==> TableEntry(ranges, condition, t, es[i])
  }

  lemma AnySetsConcat(s: State, a: seq<PrePost>, b: seq<PrePost>, v: int, x: int)
    ensures AnySets(s, a + b, v, x) <==> AnySets(s, a, v, x) || AnySets(s, b, v, x)
  {
    var c := a + b;
    if AnySets(s, a, v, x) {
      var i :| 0 <= i < |a| && Sets(s, a[i], v) && a[i].post == x;
      assert Sets(s, c[i], v);
    }
    if AnySets(s, b, v, x) {
      var i :| 0 <= i < |b| && Sets(s, b[i], v) && b[i].post == x;
      assert Sets(s, c[|a| + i], v);
    }
    if AnySets(s, c, v, x) {
      var i :| 0 <= i < |c| && Sets(s, c[i], v) && c[i].post == x;
      if i < |a| { assert Sets(s, a[i], v); } else { assert Sets(s, b[i - |a|], v); }
    }
  }

  lemma Joined(ranges: seq<int>, condition: Condition, t: Table, a: seq<PrePost>, b: seq<PrePost>)
    requires CellSound(ranges, condition, t, a) && CellSound(ranges, condition, t, b)
    ensures CellSound(ranges, condition, t, a + b)
    ensures forall v, x :: CellComplete(ranges, condition, t, a, v, x) || CellComplete(ranges, condition, t, b, v, x) ==>
      CellComplete(ranges, condition, t, a + b, v, x)
  {
    hide AnySets, Triggered, TriggeredOrIdle, Admits, UsedConditions, Filtered;
    forall s: State, v, x { AnySetsConcat(s, a, b, v, x); }
    forall v, x | CellListed(ranges, condition, t, a, v, x) || CellListed(ranges, condition, t, b, v, x)
      ensures CellListed(ranges, condition, t, a + b, v, x)
    {
      var es := if CellListed(ranges, condition, t, a, v, x) then a else b;
      var cs :| UsedConditions(ranges, t, v, x, cs) && Listed(condition, v, x, cs, es);
      assert Listed(condition, v, x, cs, a + b);
    }
  }

  /** The cells of row `v` with the listed values are complete. */
  ghost predicate RowComplete(ranges: seq<int>, condition: Condition, t: Table, es: seq<PrePost>, v: int,
      vals: seq<int>) {
    forall i :: 0 <= i < |vals| ==> CellComplete(ranges, condition, t, es, v, vals[i])
  }

  lemma Skipped(ranges: seq<int>, condition: Condition, t: Table, es: seq<PrePost>, v: int)
    ensures CellComplete(ranges, condition, t, es, v, PreOf(condition, v))
  {
  }

  lemma RowSkips(ranges: seq<int>, condition: Condition, t: Table, es: seq<PrePost>, v: int, vals: seq<int>, x: int)
    requires RowComplete(ranges, condition, t, es, v, vals) && CellComplete(ranges, condition, t, es, v, x)
    ensures RowComplete(ranges, condition, t, es, v, vals + [x])
  {
    hide CellComplete;
  }

  lemma RowGrows(ranges: seq<int>, condition: Condition, t: Table, es: seq<PrePost>, v: int, vals: seq<int>, x: int,
      cell: seq<PrePost>)
    requires RowComplete(ranges, condition, t, es, v, vals) && CellComplete(ranges, condition, t, cell, v, x)
    requires CellSound(ranges, condition, t, es) && CellSound(ranges, condition, t, cell)
    ensures RowComplete(ranges, condition, t, es + cell, v, vals + [x]) && CellSound(ranges, condition, t, es + cell)
  {
    Joined(ranges, condition, t, es, cell);
    hide CellComplete, CellSound;
    forall i | 0 <= i < |vals + [x]| ensures CellComplete(ranges, condition, t, es + cell, v, (vals + [x])[i]) {
      if i < |vals| { assert CellComplete(ranges, condition, t, es, v, vals[i]); }
    }
  }

  /** The entries are entries of the table for variable `v`. */
  ghost predicate RowEntries(ranges: seq<int>, condition: Condition, t: Table, v: int, es: seq<PrePost>) {
    TableEntries(ranges, condition, t, es) && forall i :: 0 <= i < |es| ==> es[i].v == v
  }

  lemma MoreEntries(ranges: seq<int>, condition: Condition, t: Table, v: int, x: int, es: seq<PrePost>,
      cell: seq<PrePost>)
    requires RowEntries(ranges, condition, t, v, es) && CellEntries(ranges, condition, v, x, cell) && v in t
    requires x in t[v] && CellsOf(ranges, condition, t, cell)
    ensures RowEntries(ranges, condition, t, v, es + cell)
  {
    hide ValidCondition, FromCell;
  }

  /** The inner loop over the values of one variable. */
  method BuildRow(ranges: seq<int>, condition: Condition, t: Table, v: int)
      returns (es: seq<PrePost>, ghost vals: seq<int>)
    requires ValidTable(ranges, t) && v in t
    ensures RowEntries(ranges, condition, t, v, es)
    ensures CellSound(ranges, condition, t, es)
    ensures RowComplete(ranges, condition, t, es, v, vals) && forall x :: x in vals <==> x in t[v]
  {
    es := [];
    var keys := ListOf(t[v].Keys);
    NoEntriesSound(ranges, condition, t);
    assert RowComplete(ranges, condition, t, es, v, []);
    hide CellComplete, CellSound, CellEntries, CellsOf, RowComplete, ValidTable;
    for i := 0 to |keys|
      invariant RowEntries(ranges, condition, t, v, es)
      invariant CellSound(ranges, condition, t, es) && RowComplete(ranges, condition, t, es, v, keys[..i])
    {
      hide RowEntries;
      var x := keys[i];
      assert x in keys;
      assert keys[..i + 1] == keys[..i] + [x];
      if PreOf(condition, v) == x {
        Skipped(ranges, condition, t, es, v);
        RowSkips(ranges, condition, t, es, v, keys[..i], x);
      } else {
        var cell := BuildCell(ranges, condition, t, v, x);
        MoreEntries(ranges, condition, t, v, x, es, cell);
        RowGrows(ranges, condition, t, es, v, keys[..i], x, cell);
        es := es + cell;
      }
    }
    assert keys[..|keys|] == keys;
    vals := keys;
  }

  lemma NoEntriesSound(ranges: seq<int>, condition: Condition, t: Table)
    ensures CellSound(ranges, condition, t, [])
  {
  }

  ghost predicate RowsComplete(ranges: seq<int>, condition: Condition, t: Table, es: seq<PrePost>, vars: seq<int>) {
    forall i, x :: 0 <= i < |vars| && vars[i] in t && x in t[vars[i]] ==>
      CellComplete(ranges, condition, t, es, vars[i], x)
  }

  lemma RowsStep(ranges: seq<int>, condition: Condition, t: Table, es: seq<PrePost>, vars: seq<int>, v: int,
      vals: seq<int>, row: seq<PrePost>)
    requires RowsComplete(ranges, condition, t, es, vars) && RowComplete(ranges, condition, t, row, v, vals) && v in t
    requires CellSound(ranges, condition, t, es) && CellSound(ranges, condition, t, row)
    requires forall x :: x in vals <==> x in t[v]
    ensures RowsComplete(ranges, condition, t, es + row, vars + [v]) && CellSound(ranges, condition, t, es + row)
  {
    Joined(ranges, condition, t, es, row);
    hide CellComplete, CellSound;
    forall i, x | 0 <= i < |vars + [v]| && (vars + [v])[i] in t && x in t[(vars + [v])[i]]
      ensures CellComplete(ranges, condition, t, es + row, (vars + [v])[i], x)
    {
      if i < |vars| {
        assert CellComplete(ranges, condition, t, es, vars[i], x);
      } else {
        var j :| 0 <= j < |vals| && vals[j] == x;
        assert CellComplete(ranges, condition, t, row, v, vals[j]);
      }
    }
  }

  /** The variables of the entries have left the prevail conditions. */
  ghost predicate Popped(condition: Condition, es: seq<PrePost>, rest: Condition) {
    && (forall v :: v in rest <==> v in condition && forall i :: 0 <= i < |es| ==> es[i].v != v)
    && (forall v :: v in rest ==> rest[v] == condition[v])
  }

  lemma PopRow(condition: Condition, es: seq<PrePost>, rest: Condition, row: seq<PrePost>, v: int)
    requires Popped(condition, es, rest) && forall i :: 0 <= i < |row| ==> row[i].v == v
    ensures Popped(condition, es + row, if row == [] then rest else rest - {v})
  {
    var more, next := es + row, if row == [] then rest else rest - {v};
    forall u ensures u in next <==> u in condition && forall i :: 0 <= i < |more| ==> more[i].v != u {
      if u in next {
        forall i | 0 <= i < |more| ensures more[i].v != u {
          if i >= |es| { assert more[i] == row[i - |es|]; }
        }
      }
      if u in condition && forall i :: 0 <= i < |more| ==> more[i].v != u {
        forall i | 0 <= i < |es| ensures es[i].v != u { assert more[i] == es[i]; }
        if row != [] { assert more[|es|] == row[0]; }
      }
    }
  }

  /** The entries of the operator, exact for the table. */
  ghost predicate ExactEntries(ranges: seq<int>, condition: Condition, t: Table, es: seq<PrePost>) {
    && TableEntries(ranges, condition, t, es) && CellSound(ranges, condition, t, es)
    && (forall v, x :: v in t && x in t[v] ==> CellComplete(ranges, condition, t, es, v, x))
  }

  lemma AllRows(ranges: seq<int>, condition: Condition, t: Table, es: seq<PrePost>, vars: seq<int>)
    requires TableEntries(ranges, condition, t, es) && CellSound(ranges, condition, t, es)
    requires RowsComplete(ranges, condition, t, es, vars) && forall v :: v in vars <==> v in t
    ensures ExactEntries(ranges, condition, t, es)
  {
    hide CellComplete, CellSound, TableEntries;
    forall v, x | v in t && x in t[v] ensures CellComplete(ranges, condition, t, es, v, x) {
      var i :| 0 <= i < |vars| && vars[i] == v;
      assert CellComplete(ranges, condition, t, es, vars[i], x);
    }
  }

  /** The entries and the remaining prevail conditions of an operator. */
  method BuildEntries(ranges: seq<int>, condition: Condition, t: Table) returns (es: seq<PrePost>, rest: Condition)
    requires ValidTable(ranges, t)
    ensures ExactEntries(ranges, condition, t, es) && Popped(condition, es, rest)
  {
    es, rest := [], condition;
    var keys := ListOf(t.Keys);
    NoEntriesSound(ranges, condition, t);
    hide TableEntry, CellComplete, CellSound, RowComplete, RowsComplete, Popped, ExactEntries;
    assert Popped(condition, es, rest) by { NothingPopped(condition); }
    assert RowsComplete(ranges, condition, t, es, []) by { NoRows(ranges, condition, t); }
    for i := 0 to |keys|
      invariant TableEntries(ranges, condition, t, es) && CellSound(ranges, condition, t, es)
      invariant RowsComplete(ranges, condition, t, es, keys[..i]) && Popped(condition, es, rest)
    {
      var v := keys[i];
      assert v in keys;
      var row, vals := BuildRow(ranges, condition, t, v);
      RowsStep(ranges, condition, t, es, keys[..i], v, vals, row);
      PopRow(condition, es, rest, row, v);
      assert keys[..i + 1] == keys[..i] + [v];
      es := es + row;
      if row != [] { rest := rest - {v}; }
    }
    assert keys[..|keys|] == keys;
    AllRows(ranges, condition, t, es, keys);
  }

  lemma NothingPopped(condition: Condition)
    ensures Popped(condition, [], condition)
  {
  }

  lemma NoRows(ranges: seq<int>, condition: Condition, t: Table)
    ensures RowsComplete(ranges, condition, t, [], [])
  {
  }
}
