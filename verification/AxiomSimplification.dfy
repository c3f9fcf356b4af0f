/**
  Removing dominated axioms.  The sets of the literal index are intersected in
  place, so the index shrinks while axioms are looked up in it.
 */
module AxiomSimplification {
  import opened Axioms
  import opened Sorting
  import opened Strips
  import opened Wrappers

  type Index = map<Literal, set<PropositionalAxiom>>

  /** Some axiom of the list fires in the state. */
  ghost predicate SomeFires(axioms: seq<PropositionalAxiom>, s: World)
    reads axioms
  {
    exists i :: 0 <= i < |axioms| && AllTrue(s, axioms[i].condition)
  }

  /** The condition of `a` is part of the condition of `x`. */
  predicate Dominates(a: PropositionalAxiom, x: PropositionalAxiom)
    reads a, x
  {
    forall l :: l in a.condition ==> l in x.condition
  }

  /** The first literal of `d` occurs in `x`, but not all of its literals do. */
  predicate Blocks(d: PropositionalAxiom, x: PropositionalAxiom)
    reads d, x
  {
    d.condition != [] && d.condition[0] in x.condition && !Dominates(d, x)
  }

  // ----- Canonical conditions -----

  method Canonicalize(axioms: seq<PropositionalAxiom>, before: (Atom, Atom) -> bool)
    requires Distinct(axioms)
    modifies axioms
    ensures forall a :: a in axioms ==> a.condition == Canonical(before, old(a.condition))
  {
    for i := 0 to |axioms|
      invariant forall k :: 0 <= k < i ==> axioms[k].condition == Canonical(before, old(axioms[k].condition))
      invariant forall k :: i <= k < |axioms| ==> axioms[k].condition == old(axioms[k].condition)
    {
      var sorted := Sort(ByAtom(before), axioms[i].condition);
      var condition := RemoveDuplicates(sorted);
      axioms[i].condition := condition;
    }
  }

  // ----- The index -----

  /** Each literal of a condition is a key, and lists nothing but axioms with that literal. */
  ghost predicate SoundIndex(axioms: seq<PropositionalAxiom>, index: Index)
    reads axioms
  {
    && (forall a, l :: a in axioms && l in a.condition ==> l in index)
    && (forall l, x :: l in index && x in index[l] ==> x in axioms && l in x.condition)
  }

  /** An axiom is missing from the sets of its literals only if one of the first `n` axioms blocks it. */
  ghost predicate MissingBlocked(axioms: seq<PropositionalAxiom>, n: nat, index: Index)
    reads axioms
  {
    forall l, x :: l in index && x in axioms && l in x.condition && x !in index[l] ==> BlockedBefore(axioms, n, x)
  }

  ghost predicate BlockedBefore(axioms: seq<PropositionalAxiom>, n: nat, x: PropositionalAxiom)
    reads axioms, x
  {
    exists k :: 0 <= k < n && k < |axioms| && Blocks(axioms[k], x)
  }

  method BuildIndex(axioms: seq<PropositionalAxiom>) returns (index: Index)
    ensures SoundIndex(axioms, index) && MissingBlocked(axioms, 0, index)
  {
    index := map[];
    for i := 0 to |axioms|
      invariant forall a, l :: a in axioms[..i] && l in a.condition ==> l in index && a in index[l]
      invariant forall l, x :: l in index && x in index[l] ==> x in axioms && l in x.condition
    {
      var a := axioms[i];
      for k := 0 to |a.condition|
        invariant forall a, l :: a in axioms[..i] && l in a.condition ==> l in index && a in index[l]
        invariant forall l, x :: l in index && x in index[l] ==> x in axioms && l in x.condition
        invariant forall l :: l in a.condition[..k] ==> l in index && a in index[l]
      {
        var l := a.condition[k];
        var ids := if l in index then index[l] else {};
        index := index[l := ids + {a}];
        assert a.condition[..k + 1] == a.condition[..k] + [l];
      }
      assert a.condition[..|a.condition|] == a.condition;
      assert axioms[..i + 1] == axioms[..i] + [a];
    }
    assert axioms[..|axioms|] == axioms;
  }

  /** Intersect the set of the first literal with the sets of the others, in place. */
  method Narrow(index0: Index, condition: seq<Literal>) returns (index: Index)
    requires condition != [] && forall l :: l in condition ==> l in index0
    ensures index.Keys == index0.Keys && forall l :: l in index && l != condition[0] ==> index[l] == index0[l]
    ensures forall x :: x in index[condition[0]] <==> forall l :: l in condition ==> x in index0[l]
  {
    index := index0;
    var first := condition[0];
    for k := 1 to |condition|
      invariant index.Keys == index0.Keys && forall l :: l in index && l != first ==> index[l] == index0[l]
      invariant forall x :: x in index[first] <==> forall m :: 0 <= m < k ==> x in index0[condition[m]]
    {
      assert condition[k] in condition;
      index := index[first := index[first] * index[condition[k]]];
    }
    forall x ensures x in index[first] <==> forall l :: l in condition ==> x in index0[l] {
      if forall m :: 0 <= m < |condition| ==> x in index0[condition[m]] {
        forall l | l in condition ensures x in index0[l] {
          var m :| 0 <= m < |condition| && condition[m] == l;
        }
      }
    }
  }

  // ----- Skipping dominated axioms -----

  /** `x` is dominated by a listed axiom that is not skipped. */
  ghost predicate Covered(axioms: seq<PropositionalAxiom>, skip: set<PropositionalAxiom>, x: PropositionalAxiom)
    reads axioms, x
  {
    exists a :: a in axioms && a !in skip && Dominates(a, x)
  }

  ghost predicate SkippedCovered(axioms: seq<PropositionalAxiom>, skip: set<PropositionalAxiom>)
    reads axioms
  {
    forall x :: x in skip ==> x in axioms && Covered(axioms, skip, x)
  }

  /** What the first `n` axioms, as far as they are kept, dominate is skipped, unless it is blocked. */
  ghost predicate UnskippedBlocked(axioms: seq<PropositionalAxiom>, n: nat, skip: set<PropositionalAxiom>)
    reads axioms
  {
    forall k, x :: (0 <= k < n && k < |axioms| && axioms[k] !in skip && x in axioms && x !in skip && x != axioms[k]
                    && Dominates(axioms[k], x)) ==> BlockedBefore(axioms, n, x)
  }

  ghost predicate Invariant(axioms: seq<PropositionalAxiom>, n: nat, index: Index, skip: set<PropositionalAxiom>)
    reads axioms
  {
    && SoundIndex(axioms, index) && MissingBlocked(axioms, n, index)
    && SkippedCovered(axioms, skip) && UnskippedBlocked(axioms, n, skip)
  }

  /** What narrowing for the axiom at `n` leaves is dominated by it, and what it removes is blocked. */
  ghost predicate Narrowed(axioms: seq<PropositionalAxiom>, n: nat, index0: Index, index: Index)
    requires n < |axioms| && axioms[n].condition != []
    reads axioms
  {
    var a := axioms[n];
    && index.Keys == index0.Keys && (forall l :: l in index && l != a.condition[0] ==> index[l] == index0[l])
    && a.condition[0] in index && index[a.condition[0]] <= index0[a.condition[0]]
    && (forall x :: x in index0[a.condition[0]] ==>
          (x in index[a.condition[0]] <==> forall l :: l in a.condition ==> l in index0 && x in index0[l]))
  }

  lemma NarrowedSound(axioms: seq<PropositionalAxiom>, n: nat, index0: Index, index: Index)
    requires n < |axioms| && axioms[n].condition != [] && Narrowed(axioms, n, index0, index)
    requires SoundIndex(axioms, index0)
    ensures SoundIndex(axioms, index)
    ensures forall x :: x in index[axioms[n].condition[0]] ==> x in axioms && Dominates(axioms[n], x)
  {
    var a := axioms[n];
    assert a.condition[0] in a.condition;
  }

  lemma LeftOutBlocked(axioms: seq<PropositionalAxiom>, n: nat, index0: Index, index: Index, x: PropositionalAxiom)
    requires n < |axioms| && axioms[n].condition != [] && Narrowed(axioms, n, index0, index)
    requires SoundIndex(axioms, index0) && MissingBlocked(axioms, n, index0)
    requires x in axioms && axioms[n].condition[0] in x.condition && x !in index[axioms[n].condition[0]]
    ensures BlockedBefore(axioms, n + 1, x)
    ensures Dominates(axioms[n], x) ==> BlockedBefore(axioms, n, x)
  {
    var a := axioms[n];
    if Dominates(a, x) {
      var l :| l in a.condition && x !in index0[l];
      assert BlockedBefore(axioms, n, x);
      var k :| 0 <= k < n && k < |axioms| && Blocks(axioms[k], x);
      assert k < n + 1;
    } else {
      assert Blocks(axioms[n], x);
    }
  }

  lemma BlockedLonger(axioms: seq<PropositionalAxiom>, n: nat, x: PropositionalAxiom)
    requires BlockedBefore(axioms, n, x)
    ensures BlockedBefore(axioms, n + 1, x)
  {
    var k :| 0 <= k < n && k < |axioms| && Blocks(axioms[k], x);
    assert k < n + 1;
  }

  lemma NarrowedMissing(axioms: seq<PropositionalAxiom>, n: nat, index0: Index, index: Index)
    requires n < |axioms| && axioms[n].condition != [] && Narrowed(axioms, n, index0, index)
    requires SoundIndex(axioms, index0) && MissingBlocked(axioms, n, index0)
    ensures MissingBlocked(axioms, n + 1, index)
  {
    hide BlockedBefore, Dominates;
    forall l, x | l in index && x in axioms && l in x.condition && x !in index[l] ensures BlockedBefore(axioms, n + 1, x) {
      if l == axioms[n].condition[0] {
        LeftOutBlocked(axioms, n, index0, index, x);
      } else {
        BlockedLonger(axioms, n, x);
      }
    }
  }

  lemma {:induction false} DominatesTransitive(a: PropositionalAxiom, d: PropositionalAxiom, x: PropositionalAxiom)
    requires Dominates(a, d) && Dominates(d, x)
    ensures Dominates(a, x)
  {
  }

  /** Skipping what `a` dominates keeps every skipped axiom covered. */
  lemma SkipMore(axioms: seq<PropositionalAxiom>, skip: set<PropositionalAxiom>, a: PropositionalAxiom,
      more: set<PropositionalAxiom>)
    requires SkippedCovered(axioms, skip) && a in axioms && a !in skip
    requires forall x :: x in more ==> x in axioms && Dominates(a, x)
    ensures SkippedCovered(axioms, skip + (more - {a}))
  {
    hide Dominates;
    var skip' := skip + (more - {a});
    forall x | x in skip' ensures x in axioms && Covered(axioms, skip', x) {
      if x !in more {
        var d :| d in axioms && d !in skip && Dominates(d, x);
        if d in skip' {
          DominatesTransitive(a, d, x);
        }
      }
    }
  }

  lemma SkipUnblocked(axioms: seq<PropositionalAxiom>, n: nat, index0: Index, index: Index,
      skip: set<PropositionalAxiom>)
    requires n < |axioms| && axioms[n].condition != [] && Narrowed(axioms, n, index0, index)
    requires SoundIndex(axioms, index0) && MissingBlocked(axioms, n, index0) && UnskippedBlocked(axioms, n, skip)
    ensures UnskippedBlocked(axioms, n + 1, skip + (index[axioms[n].condition[0]] - {axioms[n]}))
  {
    hide BlockedBefore;
    var a := axioms[n];
    var skip' := skip + (index[a.condition[0]] - {a});
    forall k, x | 0 <= k < n + 1 && k < |axioms| && axioms[k] !in skip' && x in axioms && x !in skip' && x != axioms[k]
        && Dominates(axioms[k], x) ensures BlockedBefore(axioms, n + 1, x) {
      if k < n {
        BlockedLonger(axioms, n, x);
      } else {
        LeftOutBlocked(axioms, n, index0, index, x);
      }
    }
  }

  lemma NothingMore(axioms: seq<PropositionalAxiom>, n: nat, index: Index, skip: set<PropositionalAxiom>)
    requires n < |axioms| && Invariant(axioms, n, index, skip) && axioms[n] in skip
    ensures Invariant(axioms, n + 1, index, skip)
  {
    hide BlockedBefore, Dominates;
    forall x | BlockedBefore(axioms, n, x) ensures BlockedBefore(axioms, n + 1, x) {
      BlockedLonger(axioms, n, x);
    }
  }

  // ----- The result -----

  /** Every axiom of the list is dominated by one of the result, which is part of the list. */
  ghost predicate Represents(axioms: seq<PropositionalAxiom>, result: seq<PropositionalAxiom>)
    reads axioms, result
  {
    && (forall a :: a in result ==> a in axioms)
    && (forall x :: x in axioms ==> exists a :: a in result && Dominates(a, x))
  }

  /** An axiom of the result that another one dominates was blocked by an axiom of the list. */
  ghost predicate NearlyMinimal(axioms: seq<PropositionalAxiom>, result: seq<PropositionalAxiom>)
    reads axioms, result
  {
    forall a, x :: a in result && x in result && a != x && Dominates(a, x) ==> BlockedBefore(axioms, |axioms|, x)
  }

  lemma RepresentsFires(axioms: seq<PropositionalAxiom>, result: seq<PropositionalAxiom>, s: World)
    requires Represents(axioms, result)
    ensures SomeFires(result, s) <==> SomeFires(axioms, s)
  {
    hide AllTrue, Dominates;
    if SomeFires(result, s) {
      var i :| 0 <= i < |result| && AllTrue(s, result[i].condition);
      assert result[i] in axioms;
      var k :| 0 <= k < |axioms| && axioms[k] == result[i];
      assert AllTrue(s, axioms[k].condition);
    }
    if SomeFires(axioms, s) {
      var k :| 0 <= k < |axioms| && AllTrue(s, axioms[k].condition);
      assert axioms[k] in axioms;
      var a :| a in result && Dominates(a, axioms[k]);
      var i :| 0 <= i < |result| && result[i] == a;
      DominatorFires(a, axioms[k], s);
    }
  }

  lemma DominatorFires(a: PropositionalAxiom, x: PropositionalAxiom, s: World)
    requires Dominates(a, x) && AllTrue(s, x.condition)
    ensures AllTrue(s, a.condition)
  {
    forall i | 0 <= i < |a.condition| ensures True(s, a.condition[i]) {
      assert a.condition[i] in x.condition;
    }
  }

  lemma FiresCanonical(before: (Atom, Atom) -> bool, c: seq<Literal>, s: World)
    ensures AllTrue(s, Canonical(before, c)) <==> AllTrue(s, c)
  {
    var d := Canonical(before, c);
    if AllTrue(s, d) {
      forall i | 0 <= i < |c| ensures True(s, c[i]) { assert c[i] in d; }
    }
    if AllTrue(s, c) {
      forall i | 0 <= i < |d| ensures True(s, d[i]) { assert d[i] in c; }
    }
  }

  method KeepUnskipped(axioms: seq<PropositionalAxiom>, skip: set<PropositionalAxiom>)
      returns (result: seq<PropositionalAxiom>)
    requires Distinct(axioms)
    ensures Distinct(result) && Sublist(result, axioms) && forall a :: a in result <==> a in axioms && a !in skip
  {
    result := [];
    for i := 0 to |axioms|
      invariant Sublist(result, axioms[..i])
      invariant Distinct(result) && forall a :: a in result <==> a in axioms[..i] && a !in skip
    {
      assert axioms[..i + 1] == axioms[..i] + [axioms[i]] && axioms[i] !in axioms[..i];
      SublistPush(result, axioms[..i], axioms[i]);
      if axioms[i] !in skip {
        forall k | 0 <= k < |result| ensures result[k] != axioms[i] { assert result[k] in result; }
        result := result + [axioms[i]];
      }
    }
    assert axioms[..|axioms|] == axioms;
  }

  lemma KeptRepresents(axioms: seq<PropositionalAxiom>, skip: set<PropositionalAxiom>, index: Index,
      result: seq<PropositionalAxiom>)
    requires Invariant(axioms, |axioms|, index, skip) && forall a :: a in result <==> a in axioms && a !in skip
    ensures Represents(axioms, result) && NearlyMinimal(axioms, result)
  {
    hide BlockedBefore;
    forall x | x in axioms ensures exists a :: a in result && Dominates(a, x) {
      if x in skip {
        assert Covered(axioms, skip, x);
      } else {
        assert Dominates(x, x);
      }
    }
    forall a, x | a in result && x in result && a != x && Dominates(a, x) ensures BlockedBefore(axioms, |axioms|, x) {
      var k :| 0 <= k < |axioms| && axioms[k] == a;
    }
  }

  /** The first axiom without conditions, if there is one. */
  predicate FirstEmpty(axioms: seq<PropositionalAxiom>, k: nat)
    reads axioms
  {
    k < |axioms| && axioms[k].condition == [] && forall j :: 0 <= j < k ==> axioms[j].condition != []
  }

  /** `result` keeps the order, and an axiom without conditions stands for all. */
  ghost predicate Reduces(axioms: seq<PropositionalAxiom>, result: seq<PropositionalAxiom>)
    reads axioms, result
  {
    && Represents(axioms, result) && NearlyMinimal(axioms, result) && Distinct(result) && Sublist(result, axioms)
    && forall k: nat :: FirstEmpty(axioms, k) ==> result == [axioms[k]]
  }

  predicate NoneEmpty(axioms: seq<PropositionalAxiom>, n: nat, skip: set<PropositionalAxiom>)
    reads axioms, skip
  {
    (forall j :: 0 <= j < n && j < |axioms| ==> axioms[j].condition != []) && forall x :: x in skip ==> x.condition != []
  }

  lemma SkipNonempty(axioms: seq<PropositionalAxiom>, n: nat, index: Index, skip: set<PropositionalAxiom>,
      more: set<PropositionalAxiom>)
    requires n < |axioms| && axioms[n].condition != [] && NoneEmpty(axioms, n, skip) && SoundIndex(axioms, index)
    requires axioms[n].condition[0] in index && more <= index[axioms[n].condition[0]]
    ensures NoneEmpty(axioms, n + 1, skip + more)
  {
  }

  lemma InvariantSound(axioms: seq<PropositionalAxiom>, n: nat, index: Index, skip: set<PropositionalAxiom>)
    requires Invariant(axioms, n, index, skip)
    ensures SoundIndex(axioms, index)
  {
  }

  method RemoveDominated(axioms: seq<PropositionalAxiom>) returns (result: seq<PropositionalAxiom>)
    requires Distinct(axioms)
    ensures Reduces(axioms, result)
  {
    hide Invariant, SoundIndex, MissingBlocked, SkippedCovered, UnskippedBlocked, Narrowed, Represents,
      NearlyMinimal, Dominates;
    var index := BuildIndex(axioms);
    var skip := {};
    NothingSkipped(axioms, index);
    for i := 0 to |axioms|
      invariant Invariant(axioms, i, index, skip) && NoneEmpty(axioms, i, skip)
    {
      var a := axioms[i];
      if a in skip {
        NothingMore(axioms, i, index, skip);
      } else if a.condition == [] {
        EmptyRepresents(axioms, a);
        SublistOne(axioms, a);
        return [a];
      } else {
        KnownLiterals(axioms, i, index, skip);
        ghost var index0, skip0 := index, skip;
        index := Narrow(index, a.condition);
        NarrowedFrom(axioms, i, index0, skip0, index);
        var dominated := index[a.condition[0]];
        skip := skip + (dominated - {a});
        SkipStep(axioms, i, index0, index, skip0);
        InvariantSound(axioms, i + 1, index, skip);
        SkipNonempty(axioms, i, index, skip0, dominated - {a});
      }
    }
    result := KeepUnskipped(axioms, skip);
    KeptRepresents(axioms, skip, index, result);
  }

  lemma NothingSkipped(axioms: seq<PropositionalAxiom>, index: Index)
    requires SoundIndex(axioms, index) && MissingBlocked(axioms, 0, index)
    ensures Invariant(axioms, 0, index, {})
  {
  }

  lemma EmptyRepresents(axioms: seq<PropositionalAxiom>, a: PropositionalAxiom)
    requires a in axioms && a.condition == []
    ensures Represents(axioms, [a]) && NearlyMinimal(axioms, [a]) && Distinct([a])
  {
    hide BlockedBefore;
    var result := [a];
    assert result[0] == a && a in result;
    forall x | x in axioms ensures a in result && Dominates(a, x) { }
    hide Dominates;
  }

  lemma KnownLiterals(axioms: seq<PropositionalAxiom>, n: nat, index: Index, skip: set<PropositionalAxiom>)
    requires Invariant(axioms, n, index, skip)
    ensures forall a, l :: a in axioms && l in a.condition ==> l in index
  {
  }

  lemma NarrowedFrom(axioms: seq<PropositionalAxiom>, n: nat, index0: Index, skip: set<PropositionalAxiom>,
      index: Index)
    requires n < |axioms| && axioms[n].condition != [] && Invariant(axioms, n, index0, skip)
    requires index.Keys == index0.Keys
    requires forall l :: l in index && l != axioms[n].condition[0] ==> index[l] == index0[l]
    requires axioms[n].condition[0] in index && forall l :: l in axioms[n].condition ==> l in index0
    requires forall x :: x in index[axioms[n].condition[0]] <==> forall l :: l in axioms[n].condition ==> x in index0[l]
    ensures Narrowed(axioms, n, index0, index)
  {
    assert axioms[n].condition[0] in axioms[n].condition;
  }

  lemma SkipStep(axioms: seq<PropositionalAxiom>, n: nat, index0: Index, index: Index, skip: set<PropositionalAxiom>)
    requires n < |axioms| && axioms[n].condition != [] && Invariant(axioms, n, index0, skip) && axioms[n] !in skip
    requires Narrowed(axioms, n, index0, index)
    ensures Invariant(axioms, n + 1, index, skip + (index[axioms[n].condition[0]] - {axioms[n]}))
  {
    hide SoundIndex, MissingBlocked, SkippedCovered, UnskippedBlocked, Dominates;
    NarrowedSound(axioms, n, index0, index);
    NarrowedMissing(axioms, n, index0, index);
    SkipMore(axioms, skip, axioms[n], index[axioms[n].condition[0]]);
    SkipUnblocked(axioms, n, index0, index, skip);
  }

  /** Simplified axioms fire in the same states; an axiom is dropped only for one with fewer conditions. */
  method Simplify(axioms: seq<PropositionalAxiom>, before: (Atom, Atom) -> bool)
      returns (result: seq<PropositionalAxiom>)
    requires Distinct(axioms)
    modifies axioms
    ensures forall a :: a in axioms ==> a.condition == Canonical(before, old(a.condition))
    ensures Reduces(axioms, result)
    ensures forall s :: SomeFires(result, s) <==> old(SomeFires(axioms, s))
  {
    Canonicalize(axioms, before);
    assert forall s :: SomeFires(axioms, s) <==> old(SomeFires(axioms, s)) by {
      forall s, i | 0 <= i < |axioms| ensures AllTrue(s, axioms[i].condition) <==> AllTrue(s, old(axioms[i].condition)) {
        FiresCanonical(before, old(axioms[i].condition), s);
      }
    }
    result := RemoveDominated(axioms);
    forall s: World ensures SomeFires(result, s) <==> SomeFires(axioms, s) {
      RepresentsFires(axioms, result, s);
    }
  }
}
