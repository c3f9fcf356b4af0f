/**
  Choosing the conditions to join next (greedy_join.py:28-68).  The matrix holds the
  cost of every pair; a pair of minimal cost shares a variable whenever the
  conditions are connected, so no join is a cross product.
 */
module JoinCosts {
  import opened Wrappers
  import opened Datalog

  datatype Cost = Cost(small: int, large: int, gain: int) {
    predicate Less(o: Cost) {
      small < o.small || (small == o.small && (large < o.large || (large == o.large && gain < o.gain)))
    }
  }

  /** compute_join_cost */
  function ComputeJoinCost(left: SymAtom, right: SymAtom): Cost {
    var l, r := VarsOf(left.args), VarsOf(right.args);
    var (small, large) := if |l| > |r| then (r, l) else (l, r);
    var common := |small * large|;
    Cost(|small| - common, |large| - common, -common)
  }

  /** The number of variables of `a` that `b` does not have. */
  function Private(a: SymAtom, b: SymAtom): nat {
    |VarsOf(a.args) - VarsOf(b.args)|
  }

  function SharedVars(a: SymAtom, b: SymAtom): nat {
    |VarsOf(a.args) * VarsOf(b.args)|
  }

  function Smaller(m: nat, n: nat): nat { if m <= n then m else n }

  function Larger(m: nat, n: nat): nat { if m <= n then n else m }

  /** The pair `a`, `b` is to be joined before `c`, `d`: its smaller private part is smaller,
      or then its larger one, or then it shares more variables. */
  predicate Cheaper(a: SymAtom, b: SymAtom, c: SymAtom, d: SymAtom) {
    var s, t := Smaller(Private(a, b), Private(b, a)), Smaller(Private(c, d), Private(d, c));
    var m, n := Larger(Private(a, b), Private(b, a)), Larger(Private(c, d), Private(d, c));
    s < t || (s == t && (m < n || (m == n && SharedVars(a, b) > SharedVars(c, d))))
  }

  /** The cost of a pair: its private parts, the smaller one first, and minus its shared variables. */
  lemma CostMeans(a: SymAtom, b: SymAtom)
    ensures ComputeJoinCost(a, b) ==
      Cost(Smaller(Private(a, b), Private(b, a)), Larger(Private(a, b), Private(b, a)), 0 - SharedVars(a, b))
  {
    var l, r := VarsOf(a.args), VarsOf(b.args);
    assert l == (l * r) + (l - r) && r == (l * r) + (r - l) && l * r == r * l;
    assert |l| == |l * r| + |l - r| && |r| == |l * r| + |r - l|;
  }

  lemma LessMeans(a: SymAtom, b: SymAtom, c: SymAtom, d: SymAtom)
    ensures ComputeJoinCost(a, b).Less(ComputeJoinCost(c, d)) <==> Cheaper(a, b, c, d)
  {
    CostMeans(a, b);
    CostMeans(c, d);
  }

  /** The first pair, row by row, such that none is cheaper. */
  ghost predicate FirstCheapest(js: seq<SymAtom>, l: nat, r: nat) {
    && r < l < |js|
    && (forall i: nat, j: nat :: j < i < |js| ==> !Cheaper(js[i], js[j], js[l], js[r]))
    && (forall i: nat, j: nat :: i < |js| && EarlierPair(i, j, l, r) ==> Cheaper(js[l], js[r], js[i], js[j]))
  }

  predicate Share(a: SymAtom, b: SymAtom) {
    VarsOf(a.args) * VarsOf(b.args) != {}
  }

  lemma CostSymmetric(a: SymAtom, b: SymAtom)
    ensures ComputeJoinCost(a, b) == ComputeJoinCost(b, a)
  {
    var l, r := VarsOf(a.args), VarsOf(b.args);
    assert l * r == r * l;
  }

  function Without<T>(s: seq<T>, i: nat): (r: seq<T>)
    requires i < |s|
    ensures |r| == |s| - 1 && forall k :: 0 <= k < |r| ==> r[k] == s[if k < i then k else k + 1]
  {
    s[..i] + s[i + 1..]
  }

  /** The list without positions `l` and `r`. */
  function WithoutTwo<T>(s: seq<T>, l: nat, r: nat): (q: seq<T>)
    requires r < l < |s|
    ensures |q| == |s| - 2 && forall k :: 0 <= k < |q| ==> q[k] == s[Origin(l, r, k)]
  {
    Without(Without(s, l), r)
  }

  /** The position in the full list of element `k` of the list without `l` and `r`. */
  function Origin(l: nat, r: nat, k: nat): (o: nat)
    requires r < l
    ensures o != l && o != r
  {
    if k < r then k else if k + 1 < l then k + 1 else k + 2
  }

  // ----- Connected lists of atoms -----

  /** The labels split the list into two nonempty parts. */
  predicate Splits(f: seq<bool>) {
    (exists i :: 0 <= i < |f| && f[i]) && exists i :: 0 <= i < |f| && !f[i]
  }

  predicate Crosses(js: seq<SymAtom>, f: seq<bool>) {
    exists i, k :: 0 <= i < |js| && i < |f| && 0 <= k < |js| && k < |f| && f[i] && !f[k] && Share(js[i], js[k])
  }

  /** Every split of the list is crossed by a shared variable. */
  ghost predicate Connected(js: seq<SymAtom>) {
    forall f: seq<bool> :: |f| == |js| && Splits(f) ==> Crosses(js, f)
  }

  lemma ConnectedNeighbour(js: seq<SymAtom>, i: nat) returns (k: nat)
    requires Connected(js) && |js| >= 2 && i < |js|
    ensures k < |js| && k != i && Share(js[i], js[k])
  {
    var f := seq(|js|, j => j == i);
    assert f[i] && !f[if i == 0 then 1 else 0];
    assert Splits(f) && Crosses(js, f);
    var a, b :| 0 <= a < |js| && 0 <= b < |js| && f[a] && !f[b] && Share(js[a], js[b]);
    k := b;
  }

  lemma SharedMeet(a: SymAtom, b: SymAtom)
    requires Share(a, b)
    ensures |VarsOf(a.args) * VarsOf(b.args)| >= 1
  {
    var x := Member(VarsOf(a.args) * VarsOf(b.args));
  }

  lemma {:induction false} CommonAtMost(s: set<Arg>, t: set<Arg>)
    ensures |s * t| <= |s| && |s * t| <= |t|
  {
    assert s == (s * t) + (s - t);
    assert t == (s * t) + (t - s);
  }

  /** A pair that shares a variable costs less than a pair that shares none, if the
      smaller atom of the second pair belongs to the first. */
  lemma SharingIsCheaper(a: SymAtom, b: SymAtom, c: SymAtom)
    requires !Share(a, b) && |VarsOf(a.args)| <= |VarsOf(b.args)| && Share(a, c)
    ensures ComputeJoinCost(a, c).Less(ComputeJoinCost(a, b))
  {
    SharedMeet(a, c);
    var l, r := VarsOf(a.args), VarsOf(c.args);
    assert l * r == r * l;
    CommonAtMost(l, r);
  }

  // ----- The matrix -----

  class CostMatrix {
    var joinees: seq<SymAtom>
    var costMatrix: seq<seq<Cost>>

    ghost predicate Valid()
      reads this
    {
      |costMatrix| == |joinees| && forall i :: 0 <= i < |joinees| ==> RowOf(joinees, i, costMatrix[i])
    }

    constructor (joinees: seq<SymAtom>)
      ensures Valid() && this.joinees == joinees
    {
      this.joinees, costMatrix := [], [];
      new;
      for i := 0 to |joinees|
        invariant Valid() && this.joinees == joinees[..i]
      {
        AddEntry(joinees[i]);
      }
    }

    method AddEntry(joinee: SymAtom)
      requires Valid()
      modifies this
      ensures Valid() && joinees == old(joinees) + [joinee]
    {
      var row := seq(|joinees|, j requires 0 <= j < |joinees| reads this => ComputeJoinCost(joinee, joinees[j]));
      costMatrix := costMatrix + [row];
      joinees := joinees + [joinee];
    }

    method DeleteEntry(index: nat)
      requires Valid() && index < |joinees|
      modifies this
      ensures Valid() && joinees == Without(old(joinees), index)
    {
      var rows := costMatrix;
      for k := index + 1 to |rows|
        invariant |rows| == |costMatrix|
        invariant forall i :: 0 <= i < |rows| ==>
          rows[i] == if index < i < k then Without(costMatrix[i], index) else costMatrix[i]
      {
        assert RowOf(joinees, k, costMatrix[k]);
        assert |costMatrix[k]| == k;
        rows := rows[k := Without(rows[k], index)];
      }
      ghost var before, matrix := joinees, costMatrix;
      hide RowOf, Without;
      joinees := Without(joinees, index);
      costMatrix := Without(rows, index);
      forall i | 0 <= i < |joinees| ensures RowOf(joinees, i, costMatrix[i]) {
        DeletedRow(before, index, i, matrix[if i < index then i else i + 1]);
      }
    }

    method FindMinPair() returns (l: nat, r: nat)
      requires Valid() && |joinees| >= 2
      ensures FirstCheapest(joinees, l, r)
    {
      hide IsMinBefore, ComputeJoinCost, RowOf;
      var minCost: Option<Cost> := None;
      l, r := 0, 0;
      MinStart(joinees);
      for i := 0 to |costMatrix|
        invariant IsMinBefore(joinees, minCost, l, r, i, 0)
      {
        var row := costMatrix[i];
        RowEntries(joinees, i, row);
        for j := 0 to |row|
          invariant IsMinBefore(joinees, minCost, l, r, i, j)
        {
          MinNext(joinees, minCost, l, r, i, j);
          if minCost.None? || row[j].Less(minCost.value) {
            minCost, l, r := Some(row[j]), i, j;
          }
        }
        MinNextRow(joinees, minCost, l, r, i);
      }
      MinEnd(joinees, minCost, l, r);
    }

    /** The pair of minimal cost, removed from the matrix. */
    method RemoveMinPair() returns (left: SymAtom, right: SymAtom, ghost l: nat, ghost r: nat)
      requires Valid() && |joinees| >= 2
      modifies this
      ensures Valid() && FirstCheapest(old(joinees), l, r) && left == old(joinees)[l] && right == old(joinees)[r]
      ensures joinees == WithoutTwo(old(joinees), l, r)
    {
      var left_index, right_index := FindMinPair();
      left, right := joinees[left_index], joinees[right_index];
      DeleteEntry(left_index);
      DeleteEntry(right_index);
      l, r := left_index, right_index;
    }
  }

  predicate RowOf(joinees: seq<SymAtom>, i: nat, row: seq<Cost>)
    requires i < |joinees|
  {
    |row| == i && forall j :: 0 <= j < i ==> row[j] == ComputeJoinCost(joinees[i], joinees[j])
  }

  /** Deleting an entry drops its column from the later rows. */
  lemma DeletedRow(joinees: seq<SymAtom>, index: nat, i: nat, row: seq<Cost>)
    requires index < |joinees| && i < |joinees| - 1 && RowOf(joinees, if i < index then i else i + 1, row)
    ensures i < index ==> RowOf(Without(joinees, index), i, row)
    ensures i >= index ==> |row| > index && RowOf(Without(joinees, index), i, Without(row, index))
  {
    hide ComputeJoinCost;
  }

  predicate EarlierPair(a: nat, b: nat, i: nat, j: nat) {
    b < a && (a < i || (a == i && b < j))
  }

  /** Among the pairs before `(i, j)`, the pair `(l, r)` is the first minimal one. */
  ghost predicate IsMinBefore(joinees: seq<SymAtom>, minCost: Option<Cost>, l: nat, r: nat, i: nat, j: nat) {
    && i <= |joinees|
    && (minCost.None? ==> forall a: nat, b: nat :: a < |joinees| ==> !EarlierPair(a, b, i, j))
    && (minCost.Some? ==> EarlierPair(l, r, i, j) && l < |joinees| && minCost.value == ComputeJoinCost(joinees[l], joinees[r]))
    && (minCost.Some? ==> forall a: nat, b: nat :: EarlierPair(a, b, i, j) && a < |joinees| ==>
          !ComputeJoinCost(joinees[a], joinees[b]).Less(minCost.value))
    && (minCost.Some? ==> forall a: nat, b: nat :: EarlierPair(a, b, l, r) && a < |joinees| ==>
          minCost.value.Less(ComputeJoinCost(joinees[a], joinees[b])))
  }

  lemma MinStart(joinees: seq<SymAtom>)
    ensures IsMinBefore(joinees, None, 0, 0, 0, 0)
  {
  }

  lemma RowEntries(joinees: seq<SymAtom>, i: nat, row: seq<Cost>)
    requires i < |joinees| && RowOf(joinees, i, row)
    ensures |row| == i && forall j :: 0 <= j < i ==> row[j] == ComputeJoinCost(joinees[i], joinees[j])
  {
  }

  lemma CheaperThanAll(joinees: seq<SymAtom>, min: Cost, i: nat, j: nat, cost: Cost)
    requires forall a: nat, b: nat :: EarlierPair(a, b, i, j) && a < |joinees| ==>
      !ComputeJoinCost(joinees[a], joinees[b]).Less(min)
    requires cost.Less(min)
    ensures forall a: nat, b: nat :: EarlierPair(a, b, i, j) && a < |joinees| ==>
      cost.Less(ComputeJoinCost(joinees[a], joinees[b]))
  {
    hide ComputeJoinCost, EarlierPair;
  }

  lemma MinNext(joinees: seq<SymAtom>, minCost: Option<Cost>, l: nat, r: nat, i: nat, j: nat)
    requires IsMinBefore(joinees, minCost, l, r, i, j) && j < i < |joinees|
    ensures var cost := ComputeJoinCost(joinees[i], joinees[j]);
      if minCost.None? || cost.Less(minCost.value)
      then IsMinBefore(joinees, Some(cost), i, j, i, j + 1)
      else IsMinBefore(joinees, minCost, l, r, i, j + 1)
  {
    hide ComputeJoinCost;
    var cost := ComputeJoinCost(joinees[i], joinees[j]);
    var next := j + 1;
    forall a: nat, b: nat ensures EarlierPair(a, b, i, next) <==> EarlierPair(a, b, i, j) || (a == i && b == j) {}
    if minCost.Some? && cost.Less(minCost.value) {
      forall a: nat, b: nat | EarlierPair(a, b, i, j) && a < |joinees|
        ensures !ComputeJoinCost(joinees[a], joinees[b]).Less(cost)
      {
        assert !ComputeJoinCost(joinees[a], joinees[b]).Less(minCost.value);
      }
      CheaperThanAll(joinees, minCost.value, i, j, cost);
    }
  }

  lemma MinNextRow(joinees: seq<SymAtom>, minCost: Option<Cost>, l: nat, r: nat, i: nat)
    requires IsMinBefore(joinees, minCost, l, r, i, i) && i < |joinees|
    ensures IsMinBefore(joinees, minCost, l, r, i + 1, 0)
  {
    var next := i + 1;
    forall a: nat, b: nat ensures EarlierPair(a, b, next, 0) <==> EarlierPair(a, b, i, i) {}
  }

  lemma MinEnd(joinees: seq<SymAtom>, minCost: Option<Cost>, l: nat, r: nat)
    requires IsMinBefore(joinees, minCost, l, r, |joinees|, 0) && |joinees| >= 2
    ensures FirstCheapest(joinees, l, r)
  {
    hide ComputeJoinCost, Cost.Less, Cheaper;
    assert EarlierPair(1, 0, |joinees|, 0);
    forall i: nat, j: nat | j < i < |joinees| ensures !Cheaper(joinees[i], joinees[j], joinees[l], joinees[r]) {
      assert EarlierPair(i, j, |joinees|, 0);
      LessMeans(joinees[i], joinees[j], joinees[l], joinees[r]);
    }
    forall i: nat, j: nat | i < |joinees| && EarlierPair(i, j, l, r)
      ensures Cheaper(joinees[l], joinees[r], joinees[i], joinees[j])
    {
      LessMeans(joinees[l], joinees[r], joinees[i], joinees[j]);
    }
  }

  lemma NeighbourCheaper(js: seq<SymAtom>, s: nat, o: nat) returns (k: nat)
    requires Connected(js) && |js| >= 2 && s < |js| && o < |js| && !Share(js[s], js[o])
    requires |VarsOf(js[s].args)| <= |VarsOf(js[o].args)|
    ensures k < |js| && k != s && ComputeJoinCost(js[s], js[k]).Less(ComputeJoinCost(js[s], js[o]))
  {
    k := ConnectedNeighbour(js, s);
    SharingIsCheaper(js[s], js[o], js[k]);
  }

  /** A minimal pair of connected conditions shares a variable. */
  lemma MinPairShares(js: seq<SymAtom>, l: nat, r: nat)
    requires Connected(js) && FirstCheapest(js, l, r)
    ensures Share(js[l], js[r])
  {
    forall i: nat, j: nat | j < i < |js| ensures !ComputeJoinCost(js[i], js[j]).Less(ComputeJoinCost(js[l], js[r])) {
      LessMeans(js[i], js[j], js[l], js[r]);
    }
    if !Share(js[l], js[r]) {
      CostSymmetric(js[l], js[r]);
      var s, o := l, r;
      if |VarsOf(js[l].args)| > |VarsOf(js[r].args)| {
        assert VarsOf(js[r].args) * VarsOf(js[l].args) == VarsOf(js[l].args) * VarsOf(js[r].args);
        s, o := r, l;
      }
      var k := NeighbourCheaper(js, s, o);
      CostSymmetric(js[s], js[k]);
      assert false;
    }
  }

  // ----- Contracting a pair keeps the list connected -----

  /** Each variable that the pair shares with another atom is retained. */
  predicate RetainsShared(js: seq<SymAtom>, l: nat, r: nat, joint: SymAtom)
    requires r < l < |js|
  {
    forall k :: 0 <= k < |js| && k != l && k != r ==>
      (VarsOf(js[l].args) + VarsOf(js[r].args)) * VarsOf(js[k].args) <= VarsOf(joint.args)
  }

  /** The label of each original position under a labelling of the contracted list. */
  function Lift(f: seq<bool>, l: nat, r: nat, k: nat): bool
    requires r < l < |f| + 1 && k < |f| + 1
  {
    if k == l || k == r then f[|f| - 1]
    else if k < r then f[k] else if k < l then f[k - 1] else f[k - 2]
  }

  lemma ContractionConnected(js: seq<SymAtom>, l: nat, r: nat, joint: SymAtom)
    requires Connected(js) && r < l < |js| && RetainsShared(js, l, r, joint)
    ensures Connected(WithoutTwo(js, l, r) + [joint])
  {
    var js' := WithoutTwo(js, l, r) + [joint];
    forall f: seq<bool> | |f| == |js'| && Splits(f) ensures Crosses(js', f) {
      var g := seq(|js|, k requires 0 <= k < |js| => Lift(f, l, r, k));
      LiftSplits(js, f, g, l, r);
      assert Crosses(js, g);
      var i, k :| 0 <= i < |js| && 0 <= k < |js| && g[i] && !g[k] && Share(js[i], js[k]);
      CrossingSurvives(js, l, r, joint, f, i, k);
    }
  }

  lemma LiftSplits(js: seq<SymAtom>, f: seq<bool>, g: seq<bool>, l: nat, r: nat)
    requires r < l < |js| && |f| == |js| - 1 && |g| == |js| && Splits(f)
    requires forall k :: 0 <= k < |g| ==> g[k] == Lift(f, l, r, k)
    ensures Splits(g)
  {
    forall k | 0 <= k < |f| ensures f[k] == g[if k == |f| - 1 then l else Origin(l, r, k)] {
      if k < |f| - 1 { assert g[Origin(l, r, k)] == Lift(f, l, r, Origin(l, r, k)); }
    }
    var i :| 0 <= i < |f| && f[i];
    var j :| 0 <= j < |f| && !f[j];
    assert g[if i == |f| - 1 then l else Origin(l, r, i)];
    assert !g[if j == |f| - 1 then l else Origin(l, r, j)];
  }

  /** The position in the contracted list. */
  function Contracted(n: nat, l: nat, r: nat, k: nat): nat
    requires r < l < n && k < n
  {
    if k == l || k == r then n - 2 else if k < r then k else if k < l then k - 1 else k - 2
  }

  lemma CrossingSurvives(js: seq<SymAtom>, l: nat, r: nat, joint: SymAtom, f: seq<bool>, i: nat, k: nat)
    requires r < l < |js| && RetainsShared(js, l, r, joint) && |f| == |js| - 1 && i < |js| && k < |js|
    requires Lift(f, l, r, i) && !Lift(f, l, r, k) && Share(js[i], js[k])
    ensures Crosses(WithoutTwo(js, l, r) + [joint], f)
  {
    var a, b := Contracted(|js|, l, r, i), Contracted(|js|, l, r, k);
    var x := Member(VarsOf(js[i].args) * VarsOf(js[k].args));
    ContractedKeeps(js, l, r, joint, i, k, x);
    ContractedKeeps(js, l, r, joint, k, i, x);
    var js' := WithoutTwo(js, l, r) + [joint];
    assert x in VarsOf(js'[a].args) * VarsOf(js'[b].args);
    assert f[a] && !f[b];
  }

  /** The contracted atom keeps a variable that crosses to an atom with another label. */
  lemma ContractedKeeps(js: seq<SymAtom>, l: nat, r: nat, joint: SymAtom, i: nat, k: nat, x: Arg)
    requires r < l < |js| && RetainsShared(js, l, r, joint) && i < |js| && k < |js|
    requires x in VarsOf(js[i].args) && x in VarsOf(js[k].args)
    requires Contracted(|js|, l, r, i) != Contracted(|js|, l, r, k)
    ensures x in VarsOf((WithoutTwo(js, l, r) + [joint])[Contracted(|js|, l, r, i)].args)
  {
    if i == l || i == r {
      assert x in (VarsOf(js[l].args) + VarsOf(js[r].args)) * VarsOf(js[k].args);
    }
  }
}
