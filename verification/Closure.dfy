/** Warshall's transitive closure of a set of pairs. */
module Closure {
  import opened Sorting
  import opened Wrappers

  type Pairs = set<(int, int)>

  ghost predicate Transitive(r: Pairs) {
    forall i, k, j :: (i, k) in r && (k, j) in r ==> (i, j) in r
  }

  /** Paths through the nodes in `done` are already bridged. */
  ghost predicate Bridged(r: Pairs, done: set<int>) {
    forall i, k, j :: k in done && (i, k) in r && (k, j) in r ==> (i, j) in r
  }

  ghost predicate Within(r: Pairs, nodes: set<int>) {
    forall i, j :: (i, j) in r ==> i in nodes && j in nodes
  }

  /** The pair may stay in every transitive relation above `pairs`. */
  ghost predicate Forced(pairs: Pairs, r: Pairs) {
    forall s :: Transitive(s) && pairs <= s ==> r <= s
  }

  /** The state of the two inner loops: `r0` is the relation before them, and the pairs of
      `seen` have been looked at. */
  ghost predicate Midway(r0: Pairs, r: Pairs, k: int, seen: Pairs) {
    && r0 <= r
    && (forall i, j :: (i, j) in r && (i, j) !in r0 ==> (i, k) in r0 && (k, j) in r0)
    && (forall i, j :: (i, j) in seen && (i, k) in r0 && (k, j) in r0 ==> (i, j) in r)
  }

  lemma MidwayColumn(r0: Pairs, r: Pairs, k: int, seen: Pairs)
    requires Midway(r0, r, k, seen)
    ensures forall i :: ((i, k) in r <==> (i, k) in r0) && ((k, i) in r <==> (k, i) in r0)
  {
  }

  /** After a full sweep for `k`, paths through `k` are bridged too. */
  lemma SweepBridges(r0: Pairs, r: Pairs, k: int, nodes: set<int>, done: set<int>, seen: Pairs)
    requires Midway(r0, r, k, seen) && Bridged(r0, done) && Within(r0, nodes)
    requires forall i, j :: i in nodes && j in nodes ==> (i, j) in seen
    ensures Bridged(r, done + {k}) && Within(r, nodes)
  {
    MidwayColumn(r0, r, k, seen);
    forall i, m, j | m in done + {k} && (i, m) in r && (m, j) in r ensures (i, j) in r {
      if m in done && m != k {
        if (i, m) in r0 && (m, j) in r0 {
          assert (i, j) in r0;
        } else {
          assert (i, k) in r0 && (k, j) in r0;
        }
      }
    }
  }

  lemma SweepGrows(r0: Pairs, r: Pairs, k: int, seen: Pairs)
    requires Midway(r0, r, k, seen)
    ensures r0 <= r
  {
  }

  lemma SweepForced(pairs: Pairs, r0: Pairs, r: Pairs, k: int, seen: Pairs)
    requires Midway(r0, r, k, seen) && Forced(pairs, r0)
    ensures Forced(pairs, r)
  {
    forall s | Transitive(s) && pairs <= s ensures r <= s {
      assert r0 <= s;
      forall i, j | (i, j) in r ensures (i, j) in s {
        if (i, j) !in r0 {
          assert (i, k) in s && (k, j) in s;
        }
      }
      assert forall p :: p in r ==> (p.0, p.1) in s;
    }
  }

  /** One sweep of the two inner loops, in place. */
  method Sweep(r0: Pairs, k: int, nodes: seq<int>) returns (r: Pairs, ghost seen: Pairs)
    ensures Midway(r0, r, k, seen)
    ensures forall i, j :: i in nodes && j in nodes ==> (i, j) in seen
  {
    r, seen := r0, {};
    for a := 0 to |nodes|
      invariant Midway(r0, r, k, seen)
      invariant forall i, j :: i in nodes[..a] && j in nodes ==> (i, j) in seen
    {
      for b := 0 to |nodes|
        invariant Midway(r0, r, k, seen)
        invariant forall i, j :: i in nodes[..a] && j in nodes ==> (i, j) in seen
        invariant forall j :: j in nodes[..b] ==> (nodes[a], j) in seen
      {
        var i, j := nodes[a], nodes[b];
        MidwayColumn(r0, r, k, seen);
        if (i, j) !in r && (i, k) in r && (k, j) in r {
          r := r + {(i, j)};
        }
        seen := seen + {(i, j)};
        assert nodes[..b + 1] == nodes[..b] + [nodes[b]];
      }
      assert nodes[..a + 1] == nodes[..a] + [nodes[a]] && nodes[..|nodes|] == nodes;
    }
    assert nodes[..|nodes|] == nodes;
  }

  predicate PairLess(p: (int, int), q: (int, int)) {
    p.0 < q.0 || (p.0 == q.0 && p.1 < q.1)
  }

  function NodesOf(pairs: Pairs): (nodes: set<int>)
    ensures Within(pairs, nodes)
  {
    var left, right := set p | p in pairs :: p.0, set p | p in pairs :: p.1;
    assert forall i, j :: (i, j) in pairs ==> (i, j).0 in left && (i, j).1 in right;
    left + right
  }

  lemma StartOfClosure(pairs: Pairs)
    ensures Bridged(pairs, {}) && Forced(pairs, pairs)
  {
  }

  lemma EndOfClosure(r: Pairs, nodes: set<int>, done: set<int>)
    requires Bridged(r, done) && Within(r, nodes) && nodes <= done
    ensures Transitive(r)
  {
  }

  function Members(list: seq<(int, int)>): Pairs {
    set p | p in list
  }

  /** The least transitive relation that contains the pairs, as a sorted list. */
  method TransitiveClosure(pairs: Pairs) returns (result: seq<(int, int)>)
    ensures StrictlySorted(PairLess, result)
    ensures pairs <= Members(result) && Transitive(Members(result)) && Forced(pairs, Members(result))
  {
    hide Bridged, Within, Forced, Midway, NodesOf, Transitive;
    StartOfClosure(pairs);
    var relation := pairs;
    var nodes := ListOf(NodesOf(pairs));
    ghost var done: set<int> := {};
    for a := 0 to |nodes|
      invariant pairs <= relation && Bridged(relation, done) && Within(relation, NodesOf(pairs))
      invariant Forced(pairs, relation)
      invariant forall x :: x in done <==> x in nodes[..a]
    {
      ghost var r0 := relation;
      ghost var seen;
      relation, seen := Sweep(relation, nodes[a], nodes);
      SweepGrows(r0, relation, nodes[a], seen);
      SweepBridges(r0, relation, nodes[a], NodesOf(pairs), done, seen);
      SweepForced(pairs, r0, relation, nodes[a], seen);
      done := done + {nodes[a]};
      assert nodes[..a + 1] == nodes[..a] + [nodes[a]];
    }
    assert nodes[..|nodes|] == nodes;
    assert NodesOf(pairs) <= done by {
      forall x | x in NodesOf(pairs) ensures x in done { assert x in nodes; }
    }
    EndOfClosure(relation, NodesOf(pairs), done);
    var list := ListOf(relation);
    SortSorts(PairLess, list);
    result := Sort(PairLess, list);
    assert Members(result) == relation;
  }

  /** Such a relation is unique, and equals the pairs exactly when they are transitive already. */
  lemma ClosureIsUnique(pairs: Pairs, r: Pairs, s: Pairs)
    requires pairs <= r && Transitive(r) && Forced(pairs, r)
    requires pairs <= s && Transitive(s) && Forced(pairs, s)
    ensures r == s && (r == pairs <==> Transitive(pairs))
  {
    assert r <= s && s <= r;
    if Transitive(pairs) { assert r <= pairs; }
  }
}
