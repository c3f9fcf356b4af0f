/**
  Choosing the fact groups that become variables (fact_groups.py:35-81) with the
  partial encoding: repeatedly take a largest group and remove its facts from all
  other groups.  Groups are shared, mutable sets; a group may sit in a bucket that
  is too high for its current size and is moved down when it surfaces.
 */
module FactGroups {
  import opened Wrappers
  import opened Strips

  /** A group that shrinks as its facts are taken. */
  class FactGroup {
    var facts: set<Atom>
    ghost const original: set<Atom>

    constructor (facts: set<Atom>)
      ensures this.facts == facts && original == facts
    {
      this.facts := facts;
      this.original := facts;
    }

    /** `set.remove`: the fact must be present. */
    method Remove(fact: Atom)
      requires fact in facts
      modifies this
      ensures facts == old(facts) - {fact}
    {
      facts := facts - {fact};
    }
  }

  /** Each group holds its original facts except those in `gone`. */
  ghost predicate Residual(all: seq<FactGroup>, gone: set<Atom>)
    reads all
  {
    forall i :: 0 <= i < |all| ==> all[i].facts == all[i].original - gone
  }

  predicate DistinctGroups(gs: seq<FactGroup>) {
    forall i, j :: 0 <= i < j < |gs| ==> gs[i] != gs[j]
  }

  /** `index[f]` lists the groups that contained `f` originally. */
  ghost predicate Indexed(all: seq<FactGroup>, index: map<Atom, seq<FactGroup>>) {
    && (forall i, f :: 0 <= i < |all| && f in all[i].original ==> f in index && all[i] in index[f])
    && (forall f :: f in index ==> DistinctGroups(index[f]))
    && (forall f, j :: f in index && 0 <= j < |index[f]| ==> index[f][j] in all && f in index[f][j].original)
  }

  /** A nonempty group other than `top` is in a bucket that is high enough. */
  ghost predicate Placed(all: seq<FactGroup>, buckets: seq<seq<FactGroup>>, maxSize: int, top: FactGroup?)
    reads all
  {
    && 0 <= maxSize < |buckets|
    && (forall k, j :: 0 <= k < |buckets| && 0 <= j < |buckets[k]| ==> buckets[k][j] in all)
    && (forall i :: 0 <= i < |all| ==>
          all[i].facts == {} || all[i] == top || InBucket(buckets, maxSize, all[i], |all[i].facts|))
  }

  ghost predicate InBucket(buckets: seq<seq<FactGroup>>, maxSize: int, g: FactGroup, size: int) {
    exists k :: size <= k <= maxSize && 0 <= k < |buckets| && g in buckets[k]
  }

  /** No group is larger than `maxSize`. */
  ghost predicate Bounded(all: seq<FactGroup>, maxSize: int)
    reads all
  {
    forall i :: 0 <= i < |all| ==> |all[i].facts| <= maxSize
  }

  lemma PlacedBounded(all: seq<FactGroup>, buckets: seq<seq<FactGroup>>, maxSize: int, top: FactGroup?)
    requires Placed(all, buckets, maxSize, top) && (top != null ==> |top.facts| <= maxSize)
    ensures Bounded(all, maxSize)
  {
    forall i | 0 <= i < |all| ensures |all[i].facts| <= maxSize {
      if all[i].facts != {} && all[i] != top {
        var k :| |all[i].facts| <= k <= maxSize && 0 <= k < |buckets| && all[i] in buckets[k];
      }
    }
  }

  lemma PlacedHasMax(all: seq<FactGroup>, buckets: seq<seq<FactGroup>>, maxSize: int, top: FactGroup?)
    requires Placed(all, buckets, maxSize, top)
    ensures 0 <= maxSize < |buckets|
  {
  }

  lemma BoundedUp(all: seq<FactGroup>, m: int, n: int)
    requires Bounded(all, m) && m <= n
    ensures Bounded(all, n)
  {
  }

  /** The empty bucket at the top can be dropped. */
  lemma LowerMax(all: seq<FactGroup>, buckets: seq<seq<FactGroup>>, maxSize: int)
    requires Placed(all, buckets, maxSize, null) && maxSize > 0 && buckets[maxSize] == []
    ensures Placed(all, buckets, maxSize - 1, null)
  {
    forall i | 0 <= i < |all| && all[i].facts != {}
      ensures InBucket(buckets, maxSize - 1, all[i], |all[i].facts|)
    {
      assert InBucket(buckets, maxSize, all[i], |all[i].facts|);
      var k :| |all[i].facts| <= k <= maxSize && 0 <= k < |buckets| && all[i] in buckets[k];
      assert k != maxSize;
    }
  }

  /** Taking the last group out of bucket `k`. */
  lemma TakeFromBucket(all: seq<FactGroup>, buckets: seq<seq<FactGroup>>, k: int)
    requires Placed(all, buckets, k, null) && buckets[k] != []
    ensures Placed(all, buckets[k := buckets[k][..|buckets[k]| - 1]], k, buckets[k][|buckets[k]| - 1])
    ensures buckets[k][|buckets[k]| - 1] in all
  {
    var top, rest := buckets[k][|buckets[k]| - 1], buckets[k][..|buckets[k]| - 1];
    var after := buckets[k := rest];
    assert buckets[k] == rest + [top];
    forall i | 0 <= i < |all| && all[i].facts != {} && all[i] != top
      ensures InBucket(after, k, all[i], |all[i].facts|)
    {
      assert InBucket(buckets, k, all[i], |all[i].facts|);
      var l :| |all[i].facts| <= l <= k && 0 <= l < |buckets| && all[i] in buckets[l];
      assert all[i] in after[l];
    }
    forall l, j | 0 <= l < |after| && 0 <= j < |after[l]| ensures after[l][j] in all {
      assert after[l][j] == buckets[l][j];
    }
  }

  /** Putting the group back into the bucket of its size. */
  lemma PutBack(all: seq<FactGroup>, buckets: seq<seq<FactGroup>>, k: int, g: FactGroup)
    requires Placed(all, buckets, k, g) && g in all && |g.facts| <= k
    ensures Placed(all, buckets[|g.facts| := buckets[|g.facts|] + [g]], k, null)
  {
    var n := |g.facts|;
    var after := buckets[n := buckets[n] + [g]];
    assert g in after[n] by { assert after[n][|buckets[n]|] == g; }
    forall i | 0 <= i < |all| && all[i].facts != {}
      ensures InBucket(after, k, all[i], |all[i].facts|)
    {
      if all[i] != g {
        assert InBucket(buckets, k, all[i], |all[i].facts|);
        var l :| |all[i].facts| <= l <= k && 0 <= l < |buckets| && all[i] in buckets[l];
        assert all[i] in after[l];
      }
    }
    forall l, j | 0 <= l < |after| && 0 <= j < |after[l]| ensures after[l][j] in all {
      if l == n && j == |buckets[n]| { assert after[l][j] == g; } else { assert after[l][j] == buckets[l][j]; }
    }
  }

  function SetOf(q: seq<Atom>): set<Atom> {
    set x | x in q
  }

  lemma {:induction false} SubsetSize(a: set<Atom>, b: set<Atom>)
    requires a <= b
    ensures |a| <= |b|
  {
    assert b == a + (b - a);
  }

  lemma {:induction false} SetOfSize(q: seq<Atom>)
    ensures |SetOf(q)| <= |q|
  {
    if q == [] {
      assert SetOf(q) == {};
    } else {
      SetOfSize(q[1..]);
      assert SetOf(q) == {q[0]} + SetOf(q[1..]);
    }
  }

  /** Buckets that are high enough stay so when groups shrink. */
  lemma BucketsStayHigh(buckets: seq<seq<FactGroup>>, maxSize: int, g: FactGroup, was: int, now: int)
    requires InBucket(buckets, maxSize, g, was) && now <= was
    ensures InBucket(buckets, maxSize, g, now)
  {
    var k :| was <= k <= maxSize && 0 <= k < |buckets| && g in buckets[k];
    assert now <= k;
  }

  function Listed(index: map<Atom, seq<FactGroup>>, f: Atom): seq<FactGroup> {
    if f in index then index[f] else []
  }

  /** `r` is `index` with `g` appended to the entry of each fact in `done`. */
  ghost predicate Appended(index: map<Atom, seq<FactGroup>>, g: FactGroup, done: set<Atom>, r: map<Atom,
      seq<FactGroup>>) {
    && r.Keys == index.Keys + done
    && (forall f :: f in done ==> Listed(r, f) == Listed(index, f) + [g])
    && (forall f :: f in index && f !in done ==> Listed(r, f) == Listed(index, f))
  }

  /** `index.setdefault(fact, []).append(g)` for each listed fact. */
  method AddToIndex(index: map<Atom, seq<FactGroup>>, g: FactGroup, facts: seq<Atom>)
      returns (r: map<Atom, seq<FactGroup>>)
    requires Distinct(facts)
    ensures Appended(index, g, SetOf(facts), r)
  {
    r := index;
    ghost var done: set<Atom> := {};
    for i := 0 to |facts|
      invariant done == SetOf(facts[..i])
      invariant Appended(index, g, done, r)
    {
      assert facts[i] !in done;
      var f := facts[i];
      assert Listed(r, f) == Listed(index, f);
      r := r[f := Listed(r, f) + [g]];
      assert SetOf(facts[..i + 1]) == done + {f};
      done := done + {f};
    }
    assert facts[..|facts|] == facts;
  }

  lemma IndexGrows(all: seq<FactGroup>, index: map<Atom, seq<FactGroup>>, g: FactGroup, r: map<Atom, seq<FactGroup>>)
    requires Indexed(all, index) && g !in all && Appended(index, g, g.original, r)
    ensures Indexed(all + [g], r)
  {
    var more := all + [g];
    forall f | f in r ensures DistinctGroups(r[f]) {
      forall i, j | 0 <= i < j < |r[f]| ensures r[f][i] != r[f][j] {
        if f in g.original {
          assert r[f] == Listed(index, f) + [g];
          assert Listed(index, f)[i] in all;
        }
      }
    }
    forall i, f | 0 <= i < |more| && f in more[i].original
      ensures f in r && more[i] in r[f]
    {
      if i == |all| {
        assert r[f] == Listed(index, f) + [g];
        assert r[f][|r[f]| - 1] == g;
      } else {
        assert f in index && all[i] in index[f];
      }
    }
    forall f, j | f in r && 0 <= j < |r[f]| ensures r[f][j] in more && f in r[f][j].original {
      assert g == more[|all|];
      if j < |Listed(index, f)| { assert r[f][j] == index[f][j]; }
    }
  }

  function Largest(groups: seq<seq<Atom>>): (m: nat)
    ensures forall i :: 0 <= i < |groups| ==> |groups[i]| <= m
  {
    if groups == [] then 0
    else
      var m := Largest(groups[..|groups| - 1]);
      if |groups[|groups| - 1]| > m then |groups[|groups| - 1]| else m
  }

  /** The first groups of `groups` have become `all` and sit in their buckets. */
  ghost predicate Filed(all: seq<FactGroup>, groups: seq<seq<Atom>>, buckets: seq<seq<FactGroup>>)
    reads all
  {
    && |all| <= |groups|
    && (forall i :: 0 <= i < |all| ==> all[i].original == SetOf(groups[i]) && all[i].facts == all[i].original)
    && (forall k, j :: 0 <= k < |buckets| && 0 <= j < |buckets[k]| ==> buckets[k][j] in all)
    && (forall i :: 0 <= i < |all| ==> |all[i].facts| < |buckets| && all[i] in buckets[|all[i].facts|])
  }

  lemma FileGroup(all: seq<FactGroup>, groups: seq<seq<Atom>>, buckets: seq<seq<FactGroup>>, g: FactGroup)
    requires Filed(all, groups, buckets) && |all| < |groups|
    requires g.original == SetOf(groups[|all|]) && g.facts == g.original && |g.facts| < |buckets|
    ensures Filed(all + [g], groups, buckets[|g.facts| := buckets[|g.facts|] + [g]])
  {
    var n := |g.facts|;
    var after, more := buckets[n := buckets[n] + [g]], all + [g];
    forall k, j | 0 <= k < |after| && 0 <= j < |after[k]| ensures after[k][j] in more {
      if k == n && j == |buckets[n]| {
        assert more[|all|] == g;
      } else {
        assert after[k][j] == buckets[k][j];
        assert after[k][j] in all;
      }
    }
    forall i | 0 <= i < |more| ensures more[i] in after[|more[i].facts|] {
      if i == |all| { assert after[n][|buckets[n]|] == g; }
    }
  }

  lemma FiledEmpty(all: seq<FactGroup>, groups: seq<seq<Atom>>, buckets: seq<seq<FactGroup>>)
    requires all == [] && forall k :: 0 <= k < |buckets| ==> buckets[k] == []
    ensures Filed(all, groups, buckets)
  {
  }

  lemma IndexedEmpty(all: seq<FactGroup>, index: map<Atom, seq<FactGroup>>)
    requires all == [] && index == map[]
    ensures Indexed(all, index)
  {
  }

  lemma FiledIsPlaced(all: seq<FactGroup>, groups: seq<seq<Atom>>, buckets: seq<seq<FactGroup>>, maxSize: int)
    requires Filed(all, groups, buckets) && maxSize == |buckets| - 1 && maxSize >= 0
    ensures Placed(all, buckets, maxSize, null)
    ensures Residual(all, {})
    ensures forall i :: 0 <= i < |all| ==> all[i].original == SetOf(groups[i])
  {
    forall i | 0 <= i < |all| ensures InBucket(buckets, maxSize, all[i], |all[i].facts|) {
      assert all[i] in buckets[|all[i].facts|];
    }
  }

  /** `Placed` for the sizes that remain without the facts in `gone`. */
  ghost predicate PlacedWithout(all: seq<FactGroup>, buckets: seq<seq<FactGroup>>, maxSize: int, top: FactGroup,
      gone: set<Atom>)
  {
    && 0 <= maxSize < |buckets|
    && (forall k, j :: 0 <= k < |buckets| && 0 <= j < |buckets[k]| ==> buckets[k][j] in all)
    && (forall i :: 0 <= i < |all| ==>
          all[i].original - gone == {} || all[i] == top || InBucket(buckets, maxSize, all[i], |all[i].original - gone|))
  }

  ghost predicate RemaindersAtMost(all: seq<FactGroup>, gone: set<Atom>, n: int) {
    forall i :: 0 <= i < |all| ==> |all[i].original - gone| <= n
  }

  lemma PlacedNow(all: seq<FactGroup>, buckets: seq<seq<FactGroup>>, maxSize: int, top: FactGroup, gone: set<Atom>)
    requires Placed(all, buckets, maxSize, top) && Residual(all, gone)
    ensures PlacedWithout(all, buckets, maxSize, top, gone)
  {
  }

  /** Once the top group is empty, every nonempty group is in a high bucket. */
  lemma ShrinkPlaced(all: seq<FactGroup>, buckets: seq<seq<FactGroup>>, maxSize: int, top: FactGroup,
      before: set<Atom>, after: set<Atom>)
    requires PlacedWithout(all, buckets, maxSize, top, before) && before <= after
    requires Residual(all, after) && top.original <= after
    ensures Placed(all, buckets, maxSize, null)
  {
    hide InBucket;
    forall i | 0 <= i < |all| && all[i].facts != {}
      ensures InBucket(buckets, maxSize, all[i], |all[i].facts|)
    {
      var was, now := all[i].original - before, all[i].original - after;
      SubsetSize(now, was);
      BucketsStayHigh(buckets, maxSize, all[i], |was|, |now|);
    }
  }

  function EmptyBuckets(n: nat): (b: seq<seq<FactGroup>>)
    ensures |b| == n && forall k :: 0 <= k < n ==> b[k] == []
  {
    if n == 0 then [] else EmptyBuckets(n - 1) + [[]]
  }

  class GroupCoverQueue {
    var maxSize: int
    var groupsBySize: seq<seq<FactGroup>>
    var groupsByFact: map<Atom, seq<FactGroup>>
    var top: FactGroup?
    ghost var all: seq<FactGroup>
    ghost var taken: set<Atom>

    ghost predicate Valid()
      reads this, all
    {
      && DistinctGroups(all) && Residual(all, taken) && Indexed(all, groupsByFact)
      && (maxSize > 1 ==> top != null && top in all && |top.facts| == maxSize)
      && (maxSize > 1 ==> Placed(all, groupsBySize, maxSize, top))
      && Bounded(all, if maxSize > 1 then maxSize else 1)
    }

    constructor (groups: seq<seq<Atom>>)
      ensures Valid() && taken == {} && fresh(all)
      ensures |all| == |groups| && forall i :: 0 <= i < |all| ==> all[i].original == SetOf(groups[i])
    {
      var size := Largest(groups);
      maxSize := size;
      groupsBySize := EmptyBuckets(size + 1);
      groupsByFact := map[];
      top := null;
      all := [];
      taken := {};
      new;
      hide *;
      Fill(groups);
      UpdateTop();
    }

    method Fill(groups: seq<seq<Atom>>)
      requires all == [] && taken == {} && groupsByFact == map[] && maxSize == Largest(groups)
      requires |groupsBySize| == maxSize + 1
      requires forall k :: 0 <= k < |groupsBySize| ==> groupsBySize[k] == []
      modifies this`groupsBySize, this`groupsByFact, this`all
      ensures |all| == |groups| && fresh(all) && forall i :: 0 <= i < |all| ==> all[i].original == SetOf(groups[i])
      ensures Placed(all, groupsBySize, maxSize, null)
      ensures DistinctGroups(all) && Residual(all, taken) && Indexed(all, groupsByFact)
    {
      hide Filed, Indexed;
      FiledEmpty(all, groups, groupsBySize);
      IndexedEmpty(all, groupsByFact);
      for i := 0 to |groups|
        invariant |groupsBySize| == maxSize + 1 && |all| == i && fresh(all)
        invariant DistinctGroups(all) && Filed(all, groups, groupsBySize) && Indexed(all, groupsByFact)
      {
        var g := AddGroup(groups, groups[i]);
      }
      FiledIsPlaced(all, groups, groupsBySize, maxSize);
    }

    /** File a copy of the next group under its size and under each of its facts. */
    method AddGroup(ghost groups: seq<seq<Atom>>, group: seq<Atom>) returns (g: FactGroup)
      requires Filed(all, groups, groupsBySize) && |all| < |groups| && group == groups[|all|]
      requires DistinctGroups(all) && Indexed(all, groupsByFact) && |group| < |groupsBySize|
      modifies this`groupsBySize, this`groupsByFact, this`all
      ensures |groupsBySize| == old(|groupsBySize|) && fresh(g) && all == old(all) + [g]
      ensures DistinctGroups(all) && Filed(all, groups, groupsBySize) && Indexed(all, groupsByFact)
    {
      hide Appended, Filed, Indexed;
      g := new FactGroup(SetOf(group));
      SetOfSize(group);
      var n := |g.facts|;
      FileGroup(all, groups, groupsBySize, g);
      var facts := ListOf(g.facts);
      assert SetOf(facts) == g.original;
      assert g !in all;
      var index := AddToIndex(groupsByFact, g, facts);
      IndexGrows(all, groupsByFact, g, index);
      groupsBySize, groupsByFact, all := groupsBySize[n := groupsBySize[n] + [g]], index, all + [g];
    }

    /** Pop groups from the highest bucket until one really has that size. */
    method SearchBucket() returns (found: bool)
      requires maxSize > 1 && Placed(all, groupsBySize, maxSize, null)
      modifies this`groupsBySize, this`top
      ensures found ==> top != null && top in all && |top.facts| == maxSize
      ensures found ==> Placed(all, groupsBySize, maxSize, top)
      ensures !found ==> Placed(all, groupsBySize, maxSize, null) && groupsBySize[maxSize] == []
    {
      hide InBucket;
      while groupsBySize[maxSize] != []
        invariant Placed(all, groupsBySize, maxSize, null)
        decreases |groupsBySize[maxSize]|
      {
        PlacedBounded(all, groupsBySize, maxSize, null);
        TakeFromBucket(all, groupsBySize, maxSize);
        var maxList := groupsBySize[maxSize];
        var candidate := maxList[|maxList| - 1];
        groupsBySize := groupsBySize[maxSize := maxList[..|maxList| - 1]];
        if |candidate.facts| == maxSize {
          top := candidate;
          return true;
        }
        PutBack(all, groupsBySize, maxSize, candidate);
        groupsBySize := groupsBySize[|candidate.facts| := groupsBySize[|candidate.facts|] + [candidate]];
      }
      return false;
    }

    /** Find the next largest group, moving down groups that have shrunk. */
    method UpdateTop()
      requires Placed(all, groupsBySize, maxSize, null)
      requires DistinctGroups(all) && Residual(all, taken) && Indexed(all, groupsByFact)
      modifies this`maxSize, this`groupsBySize, this`top
      ensures maxSize <= old(maxSize) && Valid()
    {
      hide Placed, InBucket, Indexed, DistinctGroups, Bounded;
      while maxSize > 1
        invariant maxSize <= old(maxSize)
        invariant Placed(all, groupsBySize, maxSize, null) && Residual(all, taken)
        decreases maxSize
      {
        var found := SearchBucket();
        if found {
          PlacedBounded(all, groupsBySize, maxSize, top);
          return;
        }
        PlacedHasMax(all, groupsBySize, maxSize, null);
        LowerMax(all, groupsBySize, maxSize);
        maxSize := maxSize - 1;
      }
      PlacedBounded(all, groupsBySize, maxSize, null);
      BoundedUp(all, maxSize, 1);
    }

    /** `for group in groups_by_fact[fact]: group.remove(fact)`; the fact is
        present in each of them. */
    method RemoveFact(fact: Atom, ghost k: int)
      requires DistinctGroups(all) && Indexed(all, groupsByFact) && Residual(all, taken)
      requires 0 <= k < |all| && fact in all[k].original && fact !in taken
      modifies this`taken, all
      ensures Residual(all, taken) && taken == old(taken) + {fact}
    {
      var groups := groupsByFact[fact];
      for j := 0 to |groups|
        invariant forall i :: 0 <= i < |all| ==>
          all[i].facts == all[i].original - taken - if all[i] in groups[..j] then {fact} else {}
        invariant taken == old(taken)
      {
        assert groups[j] !in groups[..j];
        assert groups[..j + 1] == groups[..j] + [groups[j]];
        groups[j].Remove(fact);
      }
      assert groups[..|groups|] == groups;
      taken := taken + {fact};
    }

    /** Remove the listed facts, which `all[k]` holds, from every group. */
    method RemoveFacts(facts: seq<Atom>, ghost k: int)
      requires DistinctGroups(all) && Indexed(all, groupsByFact) && Residual(all, taken)
      requires 0 <= k < |all| && SetOf(facts) == all[k].facts
      requires Distinct(facts)
      modifies this`taken, all
      ensures Residual(all, taken) && taken == old(taken) + SetOf(facts)
    {
      hide Indexed;
      assert forall f :: f in facts ==> f in SetOf(facts);
      for i := 0 to |facts|
        invariant taken == old(taken) + SetOf(facts[..i]) && Residual(all, taken)
      {
        assert facts[i] in facts;
        RemoveFact(facts[i], k);
        assert SetOf(facts[..i + 1]) == SetOf(facts[..i]) + {facts[i]};
      }
      assert facts[..|facts|] == facts;
    }

    /** Hand out a largest group and remove its facts from every group. */
    method Pop() returns (result: seq<Atom>, ghost k: nat)
      requires Valid() && maxSize > 1
      modifies this, all
      ensures Valid() && all == old(all) && maxSize <= old(maxSize)
      ensures k < |all| && SetOf(result) == all[k].original - old(taken)
      ensures RemaindersAtMost(all, old(taken), |result|)
      ensures |result| == old(maxSize) && Distinct(result)
      ensures taken == old(taken) + SetOf(result) && SetOf(result) !! old(taken)
    {
      hide Indexed, Placed, InBucket, DistinctGroups, PlacedWithout;
      result := ListOf(top.facts);
      k :| 0 <= k < |all| && all[k] == top;
      assert SetOf(result) == all[k].facts;
      PlacedNow(all, groupsBySize, maxSize, top, taken);
      RemoveFacts(result, k);
      ShrinkPlaced(all, groupsBySize, maxSize, top, old(taken), taken);
      UpdateTop();
    }
  }

  // ----- Choosing the groups -----

  function AllFacts(groups: seq<seq<Atom>>): set<Atom> {
    set i, x | 0 <= i < |groups| && x in groups[i] :: x
  }

  predicate SizesFall(r: seq<seq<Atom>>) {
    forall j, k :: 0 <= j < k < |r| ==> |r[j]| >= |r[k]|
  }

  predicate SizesAtLeast(r: seq<seq<Atom>>, n: int) {
    forall k :: 0 <= k < |r| ==> |r[k]| >= n
  }

  /** Every fact occurs at most once in all groups together. */
  predicate Disjoint(groups: seq<seq<Atom>>) {
    && (forall i :: 0 <= i < |groups| ==> Distinct(groups[i]))
    && (forall i, j :: 0 <= i < j < |groups| ==> SetOf(groups[i]) !! SetOf(groups[j]))
  }

  /** What is left of `g` once the facts of `earlier` groups are taken. */
  function Left(g: seq<Atom>, earlier: seq<seq<Atom>>): set<Atom> {
    SetOf(g) - AllFacts(earlier)
  }

  predicate LeftAtMost(groups: seq<seq<Atom>>, earlier: seq<seq<Atom>>, n: int) {
    forall g :: 0 <= g < |groups| ==> |Left(groups[g], earlier)| <= n
  }

  /** The k-th chosen group is what remains of a candidate, and no candidate has more left. */
  predicate LargestRemainder(groups: seq<seq<Atom>>, r: seq<seq<Atom>>, k: int)
    requires 0 <= k < |r|
  {
    && (exists g :: 0 <= g < |groups| && SetOf(r[k]) == Left(groups[g], r[..k]))
    && LeftAtMost(groups, r[..k], |r[k]|)
  }

  /** The popped groups: greedy, of falling size, with at least two facts each. */
  predicate GreedyCover(groups: seq<seq<Atom>>, r: seq<seq<Atom>>) {
    Disjoint(r) && SizesAtLeast(r, 2) && SizesFall(r) && AllLargest(groups, r)
  }

  predicate AllLargest(groups: seq<seq<Atom>>, r: seq<seq<Atom>>) {
    forall k :: 0 <= k < |r| ==> LargestRemainder(groups, r, k)
  }

  lemma AllFactsGrows(r: seq<seq<Atom>>, g: seq<Atom>)
    ensures AllFacts(r + [g]) == AllFacts(r) + SetOf(g)
  {
    forall x | x in AllFacts(r) + SetOf(g) ensures x in AllFacts(r + [g]) {
      if x in SetOf(g) {
        assert (r + [g])[|r|] == g;
      } else {
        var i :| 0 <= i < |r| && x in r[i];
        assert (r + [g])[i] == r[i];
      }
    }
  }

  lemma LeftIsNew(g: seq<Atom>, r: seq<seq<Atom>>)
    ensures Left(g, r) !! AllFacts(r)
  {
  }

  lemma DisjointGrows(r: seq<seq<Atom>>, g: seq<Atom>)
    requires Disjoint(r) && SetOf(g) !! AllFacts(r)
    requires Distinct(g)
    ensures Disjoint(r + [g])
  {
    forall i | 0 <= i < |r| ensures SetOf(r[i]) !! SetOf(g) {
      forall x | x in r[i] ensures x in AllFacts(r) {}
    }
  }

  lemma RemainderStays(groups: seq<seq<Atom>>, r: seq<seq<Atom>>, g: seq<Atom>, k: int)
    requires 0 <= k < |r| && LargestRemainder(groups, r, k)
    ensures LargestRemainder(groups, r + [g], k)
  {
    assert (r + [g])[..k] == r[..k];
  }

  lemma RemainderLast(groups: seq<seq<Atom>>, r: seq<seq<Atom>>, g: seq<Atom>, c: int)
    requires 0 <= c < |groups| && SetOf(g) == Left(groups[c], r)
    requires LeftAtMost(groups, r, |g|)
    ensures LargestRemainder(groups, r + [g], |r|)
  {
    assert (r + [g])[..|r|] == r;
  }

  lemma SizesGrow(r: seq<seq<Atom>>, g: seq<Atom>)
    requires SizesFall(r) && SizesAtLeast(r, |g|)
    ensures SizesFall(r + [g]) && SizesAtLeast(r + [g], |g|)
  {
  }

  lemma SizesAtLeastDown(r: seq<seq<Atom>>, m: int, n: int)
    requires SizesAtLeast(r, m) && n <= m
    ensures SizesAtLeast(r, n)
  {
  }

  lemma LargestGrow(groups: seq<seq<Atom>>, r: seq<seq<Atom>>, g: seq<Atom>)
    requires AllLargest(groups, r) && LargestRemainder(groups, r + [g], |r|)
    ensures AllLargest(groups, r + [g])
  {
    hide LargestRemainder;
    forall k | 0 <= k < |r + [g]| ensures LargestRemainder(groups, r + [g], k) {
      if k < |r| { RemainderStays(groups, r, g, k); }
    }
  }

  lemma GreedyGrows(groups: seq<seq<Atom>>, r: seq<seq<Atom>>, g: seq<Atom>, c: int)
    requires GreedyCover(groups, r) && 0 <= c < |groups| && SetOf(g) == Left(groups[c], r)
    requires Distinct(g)
    requires LeftAtMost(groups, r, |g|)
    requires |g| >= 2 && SizesAtLeast(r, |g|)
    ensures SizesAtLeast(r + [g], |g|)
    ensures GreedyCover(groups, r + [g])
  {
    hide Disjoint, LargestRemainder, SizesFall, SizesAtLeast, LeftAtMost, AllFacts, Left, Distinct, AllLargest;
    LeftIsNew(groups[c], r);
    DisjointGrows(r, g);
    RemainderLast(groups, r, g, c);
    LargestGrow(groups, r, g);
    SizesGrow(r, g);
    SizesAtLeastDown(r + [g], |g|, 2);
  }

  /** A popped group takes new facts out of the candidates. */
  lemma NewFacts(groups: seq<seq<Atom>>, r: seq<seq<Atom>>, g: seq<Atom>, c: int, reachable: set<Atom>)
    requires 0 <= c < |groups| && SetOf(g) == Left(groups[c], r) && |g| >= 2 && AllFacts(r) <= AllFacts(groups)
    ensures AllFacts(r + [g]) == AllFacts(r) + SetOf(g) && AllFacts(r + [g]) <= AllFacts(groups)
    ensures AllFacts(groups) - AllFacts(r + [g]) < AllFacts(groups) - AllFacts(r)
    ensures reachable - AllFacts(r) - SetOf(g) == reachable - AllFacts(r + [g])
  {
    AllFactsGrows(r, g);
    var x := g[0];
    assert x in SetOf(g);
    assert x in groups[c];
  }

  /** `[[fact] for fact in facts]` */
  function Singletons(facts: seq<Atom>): (r: seq<seq<Atom>>)
    ensures |r| == |facts| && forall i :: 0 <= i < |r| ==> r[i] == [facts[i]]
  {
    if facts == [] then [] else Singletons(facts[..|facts| - 1]) + [[facts[|facts| - 1]]]
  }

  lemma {:induction false} JoinDisjoint(r: seq<seq<Atom>>, facts: seq<Atom>)
    requires Disjoint(r) && AllFacts(r) !! SetOf(facts)
    requires Distinct(facts)
    ensures Disjoint(r + Singletons(facts)) && AllFacts(r + Singletons(facts)) == AllFacts(r) + SetOf(facts)
  {
    hide Disjoint, AllFacts;
    if facts == [] {
      assert r + Singletons(facts) == r;
    } else {
      var front, x := facts[..|facts| - 1], facts[|facts| - 1];
      assert SetOf(facts) == SetOf(front) + SetOf([x]);
      JoinDisjoint(r, front);
      var joined := r + Singletons(front);
      DisjointGrows(joined, [x]);
      AllFactsGrows(joined, [x]);
      assert joined + [[x]] == r + Singletons(facts);
    }
  }

  lemma CoverEmpty(groups: seq<seq<Atom>>)
    ensures GreedyCover(groups, []) && AllFacts([]) == {}
    ensures forall n :: SizesAtLeast([], n)
  {
  }

  lemma CoverDisjoint(groups: seq<seq<Atom>>, r: seq<seq<Atom>>)
    requires GreedyCover(groups, r)
    ensures Disjoint(r)
  {
  }

  /** The queue was built from these candidates. */
  ghost predicate Loaded(all: seq<FactGroup>, groups: seq<seq<Atom>>) {
    |all| == |groups| && forall i :: 0 <= i < |all| ==> all[i].original == SetOf(groups[i])
  }

  lemma LoadedAll(groups: seq<seq<Atom>>, all: seq<FactGroup>)
    requires Loaded(all, groups)
    ensures |all| == |groups|
  {
  }

  /** What a pop says, in terms of the candidates. */
  lemma PopMeaning(groups: seq<seq<Atom>>, all: seq<FactGroup>, r: seq<seq<Atom>>, gone: set<Atom>, g: seq<Atom>,
      c: int)
    requires Loaded(all, groups) && 0 <= c < |all| && SetOf(g) == all[c].original - gone && gone == AllFacts(r)
    requires RemaindersAtMost(all, gone, |g|)
    ensures LeftAtMost(groups, r, |g|) && SetOf(g) == Left(groups[c], r)
  {
  }

  lemma Exhausted(groups: seq<seq<Atom>>, queue: GroupCoverQueue, r: seq<seq<Atom>>)
    requires queue.Valid() && queue.maxSize <= 1 && Loaded(queue.all, groups) && queue.taken == AllFacts(r)
    ensures LeftAtMost(groups, r, 1)
  {
    forall i | 0 <= i < |groups| ensures |Left(groups[i], r)| <= 1 {
      assert Left(groups[i], r) == queue.all[i].facts;
    }
  }

  /** Every uncovered fact becomes a group of its own. */
  method AddSingletons(cover: seq<seq<Atom>>, uncovered: set<Atom>) returns (r: seq<seq<Atom>>)
    requires Disjoint(cover) && AllFacts(cover) !! uncovered
    ensures Disjoint(r) && AllFacts(r) == AllFacts(cover) + uncovered
    ensures |cover| <= |r| && r[..|cover|] == cover
    ensures forall k :: |cover| <= k < |r| ==> |r[k]| == 1 && r[k][0] in uncovered
  {
    hide Disjoint, AllFacts;
    var rest := ListOf(uncovered);
    assert SetOf(rest) == uncovered;
    JoinDisjoint(cover, rest);
    r := cover + Singletons(rest);
    forall k | |cover| <= k < |r| ensures |r[k]| == 1 && r[k][0] in uncovered {
      assert rest[k - |cover|] in rest;
    }
  }

  /**
    The chosen groups partition the facts: they are disjoint and cover every
    reachable fact.  The first `popped` are greedy remainders of candidates, no
    candidate has two facts left afterwards, and the rest are single facts.
   */
  method ChooseGroups(groups: seq<seq<Atom>>, reachable: set<Atom>) returns (result: seq<seq<Atom>>, ghost popped: nat)
    ensures Disjoint(result) && reachable <= AllFacts(result) <= reachable + AllFacts(groups)
    ensures popped <= |result| && GreedyCover(groups, result[..popped])
    ensures LeftAtMost(groups, result[..popped], 1)
    ensures forall k :: popped <= k < |result| ==> |result[k]| == 1 && result[k][0] in reachable
  {
    var queue := new GroupCoverQueue(groups);
    var uncovered := reachable;
    result := [];
    CoverEmpty(groups);
    assert Loaded(queue.all, groups);
    hide LargestRemainder, Disjoint, AllFacts, Left, GroupCoverQueue.Valid, LeftAtMost, Loaded, GreedyCover,
      SizesAtLeast, RemaindersAtMost, Distinct;
    while queue.maxSize > 1
      invariant queue.Valid() && fresh(queue) && fresh(queue.all) && Loaded(queue.all, groups)
      invariant queue.taken == AllFacts(result) && uncovered == reachable - AllFacts(result)
      invariant GreedyCover(groups, result) && AllFacts(result) <= AllFacts(groups)
      invariant SizesAtLeast(result, queue.maxSize)
      decreases AllFacts(groups) - AllFacts(result)
    {
      ghost var gone := queue.taken;
      var group, c := queue.Pop();
      LoadedAll(groups, queue.all);
      uncovered := uncovered - SetOf(group);
      PopMeaning(groups, queue.all, result, gone, group, c);
      GreedyGrows(groups, result, group, c);
      NewFacts(groups, result, group, c, reachable);
      result := result + [group];
      SizesAtLeastDown(result, |group|, queue.maxSize);
    }
    Exhausted(groups, queue, result);
    popped := |result|;
    CoverDisjoint(groups, result);
    result := AddSingletons(result, uncovered);
  }
}
