/**
  Simplifying the conditions of one effect (translate.py:304-366): conditions on the
  dual value of a binary variable are dropped, and conditions already decided by the
  operator's own condition are removed or discard the effect.
 */
module EffectConditions {
  import opened Wrappers
  import opened SasTasks = SasTasks
  import opened Conditions

  predicate Ascending(c: seq<Fact>) {
    forall i, j :: 0 <= i < j < |c| ==> c[i].v < c[j].v
  }

  /** `list.remove`: drop the first occurrence. */
  function RemoveFirst(c: seq<Fact>, f: Fact): (r: seq<Fact>)
    requires f in c
    ensures |r| == |c| - 1 && (forall g :: g in r ==> g in c) && (forall g :: g in c && g != f ==> g in r)
  {
    if c[0] == f then c[1..] else [c[0]] + RemoveFirst(c[1..], f)
  }

  lemma {:induction false} RemoveAscending(c: seq<Fact>, f: Fact)
    requires f in c && Ascending(c)
    ensures Ascending(RemoveFirst(c, f))
  {
    if c[0] != f {
      RemoveAscending(c[1..], f);
      var r := RemoveFirst(c[1..], f);
      forall j | 0 <= j < |r| ensures c[0].v < r[j].v {
        assert r[j] in c[1..];
        var k :| 0 <= k < |c[1..]| && c[1..][k] == r[j];
        assert c[k + 1] == r[j];
      }
    }
  }

  /** `r` is `c` without the fact `d`. */
  ghost predicate Dropped(c: seq<Fact>, d: Fact, r: seq<Fact>) {
    Ascending(r) && forall g :: g in r <==> g in c && g != d
  }

  method DropAll(c: seq<Fact>, d: Fact) returns (r: seq<Fact>, changed: bool)
    requires Ascending(c)
    ensures Dropped(c, d, r) && (changed <==> d in c)
  {
    r, changed := c, false;
    while d in r
      invariant Ascending(r) && (forall g :: g in r ==> g in c) && (forall g :: g in c && g != d ==> g in r)
      invariant !changed ==> r == c
      invariant changed ==> d in c
      decreases |r|
    {
      RemoveAscending(r, d);
      r, changed := RemoveFirst(r, d), true;
    }
  }

  // ----- Pruning for binary variables -----

  /** Some condition of the list holds. */
  predicate AnySatisfied(s: State, cs: seq<seq<Fact>>) {
    exists i :: 0 <= i < |cs| && Satisfies(s, cs[i])
  }

  predicate AllAscending(cs: seq<seq<Fact>>) {
    forall i :: 0 <= i < |cs| ==> Ascending(cs[i])
  }

  ghost predicate DroppedUpTo(cs: seq<seq<Fact>>, d: Fact, n: int, r: seq<seq<Fact>>) {
    && |r| == |cs| && 0 <= n <= |cs|
    && (forall i :: 0 <= i < n ==> Dropped(cs[i], d, r[i]))
    && (forall i :: n <= i < |cs| ==> r[i] == cs[i])
  }

  lemma SatisfiesIn(s: State, c: seq<Fact>)
    ensures Satisfies(s, c) <==> forall g :: g in c ==> Holds(s, g)
  {
    if forall g :: g in c ==> Holds(s, g) {
      forall i | 0 <= i < |c| ensures Holds(s, c[i]) { assert c[i] in c; }
    }
  }

  lemma DroppedMeans(s: State, c: seq<Fact>, d: Fact, r: seq<Fact>)
    requires Dropped(c, d, r)
    ensures Satisfies(s, c) ==> Satisfies(s, r)
    ensures Satisfies(s, r) && Holds(s, d) ==> Satisfies(s, c)
  {
    SatisfiesIn(s, c);
    SatisfiesIn(s, r);
  }

  /** Pruning keeps every satisfied condition, and adds one only where `d` fails. */
  ghost predicate Weakened(cs: seq<seq<Fact>>, d: Fact, r: seq<seq<Fact>>) {
    forall s: State ::
      (AnySatisfied(s, cs) ==> AnySatisfied(s, r)) && (AnySatisfied(s, r) && Holds(s, d) ==> AnySatisfied(s, cs))
  }

  lemma DroppedWeakens(cs: seq<seq<Fact>>, d: Fact, r: seq<seq<Fact>>)
    requires DroppedUpTo(cs, d, |cs|, r)
    ensures Weakened(cs, d, r)
  {
    forall s: State
      ensures AnySatisfied(s, cs) ==> AnySatisfied(s, r)
      ensures AnySatisfied(s, r) && Holds(s, d) ==> AnySatisfied(s, cs)
    {
      forall i | 0 <= i < |cs|
        ensures Satisfies(s, cs[i]) ==> Satisfies(s, r[i])
        ensures Satisfies(s, r[i]) && Holds(s, d) ==> Satisfies(s, cs[i])
      {
        DroppedMeans(s, cs[i], d, r[i]);
      }
    }
  }

  lemma EmptyWeakens(cs: seq<seq<Fact>>, d: Fact, i: int)
    requires 0 <= i < |cs| && Dropped(cs[i], d, [])
    ensures Weakened(cs, d, [[]])
  {
    forall s: State
      ensures AnySatisfied(s, [[]])
      ensures Holds(s, d) ==> AnySatisfied(s, cs)
    {
      assert Satisfies(s, [[]][0]);
      DroppedMeans(s, cs[i], d, []);
    }
  }

  /** No fact but `d` is in the condition. */
  predicate OnlyDual(c: seq<Fact>, d: Fact) {
    forall g :: g in c ==> g == d
  }

  /** Nothing changes if the only condition is empty or some effect produces the dual value.
      Otherwise the dual fact `d` disappears from every condition, and if that leaves one
      without facts, it stands for all. */
  ghost predicate IsPruned(cs: seq<seq<Fact>>, d: Fact, keys: set<int>, r: seq<seq<Fact>>, simplified: bool) {
    if cs == [[]] || d.val in keys then r == cs && !simplified
    else if exists i :: 0 <= i < |cs| && OnlyDual(cs[i], d) then r == [[]] && simplified
    else DroppedUpTo(cs, d, |cs|, r) && (simplified <==> exists i :: 0 <= i < |cs| && d in cs[i])
  }

  ghost predicate PrunedTo(cs: seq<seq<Fact>>, d: Fact, keys: set<int>, r: seq<seq<Fact>>) {
    exists simplified :: IsPruned(cs, d, keys, r, simplified)
  }

  lemma DroppedToNothing(c: seq<Fact>, d: Fact, r: seq<Fact>)
    requires Dropped(c, d, r)
    ensures r == [] <==> OnlyDual(c, d)
  {
    if r != [] { assert r[0] in r && r[0] in c; }
  }

  /** The variable `v` is binary; `keys` are the values that effects on it produce. */
  method PruneStupidEffectConditions(v: int, val: int, conditions: seq<seq<Fact>>, keys: set<int>)
      returns (r: seq<seq<Fact>>, simplified: bool)
    requires (val == 0 || val == 1) && AllAscending(conditions)
    ensures AllAscending(r) && (!simplified ==> r == conditions)
    ensures forall i, g :: 0 <= i < |r| && g in r[i] ==> exists j :: 0 <= j < |conditions| && g in conditions[j]
    ensures IsPruned(conditions, Fact(v, 1 - val), keys, r, simplified)
    ensures Weakened(conditions, Fact(v, 1 - val), r)
  {
    r, simplified := conditions, false;
    var dual := Fact(v, 1 - val);
    if conditions == [[]] || dual.val in keys { return; }
    hide Weakened, Ascending;
    for i := 0 to |conditions|
      invariant DroppedUpTo(conditions, dual, i, r) && AllAscending(r)
      invariant !simplified ==> r == conditions
      invariant simplified <==> exists j :: 0 <= j < i && dual in conditions[j]
      invariant forall j :: 0 <= j < i ==> !OnlyDual(conditions[j], dual)
    {
      var c, changed := DropAll(r[i], dual);
      assert Dropped(conditions[i], dual, c);
      DroppedToNothing(conditions[i], dual, c);
      if changed { simplified := true; }
      if c == [] {
        EmptyWeakens(conditions, dual, i);
        return [[]], true;
      }
      assert !changed ==> c == r[i] by { if !changed { SameElementsAscending(r[i], c); } }
      r := r[i := c];
    }
    DroppedWeakens(conditions, dual, r);
    forall i, g | 0 <= i < |r| && g in r[i] ensures exists j :: 0 <= j < |conditions| && g in conditions[j] {
      assert g in conditions[i];
    }
  }

  lemma SameElementsAscending(a: seq<Fact>, b: seq<Fact>)
    requires Ascending(a) && Ascending(b) && forall g :: g in a <==> g in b
    ensures a == b
  {
    FactOrder();
    assert forall i, j :: 0 <= i < j < |a| ==> FactLess(a[i], a[j]);
    assert forall i, j :: 0 <= i < j < |b| ==> FactLess(b[i], b[j]);
    Sorting.SortedIsDetermined(FactLess, a, b);
  }

  // ----- Filtering by the operator's own condition -----

  /** Under `condition`, the filtered list says the same. */
  ghost predicate Filtered(condition: Condition, c: seq<Fact>, r: seq<Fact>) {
    && Ascending(r) && (forall g :: g in r <==> g in c && g.v !in condition)
    && (forall g :: g in c && g.v in condition ==> condition[g.v] == g.val)
  }

  lemma FilteredMeans(s: State, condition: Condition, c: seq<Fact>, r: seq<Fact>)
    requires Filtered(condition, c, r) && SatMap(s, condition)
    ensures Satisfies(s, r) <==> Satisfies(s, c)
  {
    SatisfiesIn(s, c);
    SatisfiesIn(s, r);
    forall g | g in c && g.v in condition ensures Holds(s, g) { assert g == Fact(g.v, condition[g.v]); }
  }

  lemma FilteredIsUnique(condition: Condition, c: seq<Fact>, q: seq<Fact>, r: seq<Fact>)
    requires Filtered(condition, c, q) && Filtered(condition, c, r)
    ensures q == r
  {
    SameElementsAscending(q, r);
  }

  /** `None` when the effect condition contradicts the operator's condition. */
  method FilterCondition(condition: Condition, c: seq<Fact>) returns (r: Option<seq<Fact>>)
    requires Ascending(c)
    ensures r.None? ==> forall s: State :: SatMap(s, condition) ==> !Satisfies(s, c)
    ensures r.None? ==> forall q :: !Filtered(condition, c, q)
    ensures r.Some? ==> Filtered(condition, c, r.value)
  {
    var kept: seq<Fact> := [];
    for i := 0 to |c|
      invariant Filtered(condition, c[..i], kept)
    {
      var f := c[i];
      assert c[..i + 1] == c[..i] + [f];
      if f.v in condition {
        if condition[f.v] != f.val {
          forall s: State | SatMap(s, condition) ensures !Satisfies(s, c) { assert !Holds(s, c[i]); }
          assert f in c;
          return None;
        }
      } else {
        forall j | 0 <= j < |kept| ensures kept[j].v < f.v {
          assert kept[j] in c[..i];
          var k :| 0 <= k < i && c[..i][k] == kept[j];
          assert c[k] == kept[j];
        }
        kept := kept + [f];
      }
    }
    assert c[..|c|] == c;
    return Some(kept);
  }
}
