/** Every step of Tarjan's algorithm keeps the invariant. */
module TarjanSteps {
  import opened Reachability
  import opened TarjanInvariant

  // ----- BEGIN: push an unvisited vertex -----

  /** `v` is unvisited, and is a successor of the last open vertex, if there is one. */
  ghost predicate CanBegin(g: Graph, t: Tarjan, roots: seq<Root>, v: int) {
    && Inv(g, t, roots) && 0 <= v < |g| && v !in t.indices
    && (roots != [] ==> IsEdge(g, t.stack[roots[|roots| - 1].pos], v))
  }

  ghost function Pushed(t: Tarjan, roots: seq<Root>): seq<Root> {
    roots + [Root(|t.stack|, 0)]
  }

  lemma BeginShape(g: Graph, t: Tarjan, v: int)
    requires StackShape(g, t) && 0 <= v < |g| && v !in t.indices && v !in t.stackIndices
    ensures StackShape(g, Begin(t, v))
  {
    var t' := Begin(t, v);
    forall p | 0 <= p < |t.stack| ensures t'.stack[p] == t.stack[p] != v {}
  }

  lemma BeginRoots(g: Graph, t: Tarjan, roots: seq<Root>, v: int)
    requires RootsOnStack(g, t, roots) && 0 <= v < |g|
    ensures RootsOnStack(g, Begin(t, v), Pushed(t, roots))
  {
    var t', roots' := Begin(t, v), Pushed(t, roots);
    forall i | 0 <= i < |roots'| ensures RootFits(g, t', roots'[i]) {
      if i < |roots| { assert roots'[i] == roots[i] && RootFits(g, t, roots[i]); }
    }
    forall i, j | 0 <= i < j < |roots'| ensures roots'[i].pos < roots'[j].pos {
      if j == |roots| { assert RootFits(g, t, roots[i]); }
    }
  }

  lemma BeginPartition(g: Graph, t: Tarjan, roots: seq<Root>, v: int)
    requires CanBegin(g, t, roots, v)
    ensures Partition(Begin(t, v)) && Finished(g, Begin(t, v).sccs)
  {
  }

  lemma BeginConnected(g: Graph, t: Tarjan, roots: seq<Root>, v: int)
    requires CanBegin(g, t, roots, v)
    ensures Connected(g, Begin(t, v), Pushed(t, roots))
  {
    var t', n := Begin(t, v), |t.stack|;
    ReachSelf(g, v);
    forall p | 0 <= p < n ensures Reach(g, t.stack[p], v) {
      var u := roots[|roots| - 1];
      OwnerIsRoot(g, t, roots, p);
      ReachTransitive(g, t.stack[p], t.stack[Owner(roots, p).pos], t.stack[u.pos]);
      ReachEdge(g, t.stack[u.pos], v);
      ReachTransitive(g, t.stack[p], t.stack[u.pos], v);
    }
    forall p | 0 <= p <= n ensures Owner(Pushed(t, roots), p) == if p == n then Root(n, 0) else Owner(roots, p) {
      OwnerOfAppended(roots, Root(n, 0), p);
    }
  }

  lemma BeginLow(g: Graph, t: Tarjan, roots: seq<Root>, v: int)
    requires CanBegin(g, t, roots, v)
    ensures LowSound(g, Begin(t, v), Pushed(t, roots)) && LowComplete(g, Begin(t, v), Pushed(t, roots))
  {
    var t', n, roots' := Begin(t, v), |t.stack|, Pushed(t, roots);
    ReachSelf(g, v);
    forall i | 0 <= i < |roots|
      ensures LowWitness(g, t', roots[i].pos, t'.lowlinks[t'.stack[roots[i].pos]])
    {
      var pos := roots[i].pos;
      var low := t.lowlinks[t.stack[pos]];
      assert LowWitness(g, t, pos, low);
      var q :| 0 <= q <= pos && t.indices[t.stack[q]] == low && Reach(g, t.stack[pos], t.stack[q]);
      assert t'.stack[q] == t.stack[q] && t'.indices[t'.stack[q]] == low;
    }
    assert t'.stack[n] == v && t'.indices[t'.stack[n]] == t'.lowlinks[v];
    assert LowWitness(g, t', n, t'.lowlinks[v]);
    BeginLowComplete(g, t, roots, v);
  }

  lemma BeginLowComplete(g: Graph, t: Tarjan, roots: seq<Root>, v: int)
    requires CanBegin(g, t, roots, v)
    ensures LowComplete(g, Begin(t, v), Pushed(t, roots))
  {
    hide Connected, LowSound, Partition, Finished;
    var t', n, roots' := Begin(t, v), |t.stack|, Pushed(t, roots);
    forall p, k | 0 <= p < |t'.stack| && 0 <= k < Handled(g, t', roots', p) && k < |g[t'.stack[p]]|
      ensures Accounted(g, t', LowAt(t', roots', p), p, k)
    {
      OwnerOfAppended(roots, Root(n, 0), p);
      if p < n {
        assert t'.stack[p] == t.stack[p];
        OwnerIsRoot(g, t, roots, p);
        assert LowAt(t', roots', p) == LowAt(t, roots, p);
        assert Handled(g, t, roots, p) == Handled(g, t', roots', p);
        assert Accounted(g, t, LowAt(t, roots, p), p, k);
      }
    }
  }

  lemma BeginKeepsInv(g: Graph, t: Tarjan, roots: seq<Root>, v: int)
    requires CanBegin(g, t, roots, v)
    ensures Inv(g, Begin(t, v), Pushed(t, roots))
  {
    assert v !in t.stackIndices;
    BeginShape(g, t, v);
    BeginRoots(g, t, roots, v);
    BeginPartition(g, t, roots, v);
    BeginConnected(g, t, roots, v);
    BeginLow(g, t, roots, v);
  }

  // ----- CONTINUE and RETURN: handle one more successor of the last open vertex -----

  ghost predicate CanBump(g: Graph, t: Tarjan, roots: seq<Root>, low: int) {
    && Inv(g, t, roots) && roots != []
    && (var r := roots[|roots| - 1];
        && RootFits(g, t, r) && r.cnt < |g[t.stack[r.pos]]|
        && LowWitness(g, t, r.pos, low)
        && t.stack[r.pos] in t.lowlinks && low <= t.lowlinks[t.stack[r.pos]]
        && (var y := g[t.stack[r.pos]][r.cnt];
            y in t.indices && (y in t.stackIndices ==> low <= t.indices[y])))
  }

  ghost function Top(t: Tarjan, roots: seq<Root>): int
    requires roots != [] && 0 <= roots[|roots| - 1].pos < |t.stack|
  {
    t.stack[roots[|roots| - 1].pos]
  }

  ghost function Bumped(roots: seq<Root>): seq<Root>
    requires roots != []
  {
    var r := roots[|roots| - 1];
    roots[..|roots| - 1] + [Root(r.pos, r.cnt + 1)]
  }

  lemma BumpOwner(roots: seq<Root>, p: int)
    requires roots != []
    ensures Owner(Bumped(roots), p) ==
      if roots[|roots| - 1].pos <= p then Bumped(roots)[|roots| - 1] else Owner(roots, p)
    ensures Owner(Bumped(roots), p).pos == Owner(roots, p).pos
  {
    var r := roots[|roots| - 1];
    OwnerOfAppended(roots[..|roots| - 1], Root(r.pos, r.cnt + 1), p);
  }

  lemma LowerShape(g: Graph, t: Tarjan, v: int, low: int)
    requires StackShape(g, t) && Partition(t)
    ensures StackShape(g, Lower(t, v, low)) && Partition(Lower(t, v, low))
  {
  }

  lemma BumpRoots(g: Graph, t: Tarjan, roots: seq<Root>, v: int, low: int)
    requires RootsOnStack(g, t, roots) && roots != []
    requires var r := roots[|roots| - 1]; RootFits(g, t, r) && r.cnt < |g[t.stack[r.pos]]|
    ensures RootsOnStack(g, Lower(t, v, low), Bumped(roots))
  {
    var roots' := Bumped(roots);
    forall i | 0 <= i < |roots'| ensures RootFits(g, Lower(t, v, low), roots'[i]) && roots'[i].pos == roots[i].pos {
      assert RootFits(g, t, roots[i]);
    }
  }

  lemma BumpConnected(g: Graph, t: Tarjan, roots: seq<Root>, low: int)
    requires CanBump(g, t, roots, low)
    ensures Connected(g, Lower(t, Top(t, roots), low), Bumped(roots))
  {
    forall p | 0 <= p < |t.stack| ensures Owner(Bumped(roots), p).pos == Owner(roots, p).pos {
      BumpOwner(roots, p);
    }
  }

  lemma BumpLowSound(g: Graph, t: Tarjan, roots: seq<Root>, low: int)
    requires CanBump(g, t, roots, low)
    ensures LowSound(g, Lower(t, Top(t, roots), low), Bumped(roots))
  {
    var t', roots', n := Lower(t, Top(t, roots), low), Bumped(roots), |roots|;
    forall i | 0 <= i < n
      ensures LowWitness(g, t', roots'[i].pos, t'.lowlinks[t'.stack[roots'[i].pos]])
    {
      var pos := roots[i].pos;
      assert RootFits(g, t, roots[i]);
      if i < n - 1 {
        assert roots'[i] == roots[i] && t.stack[pos] != Top(t, roots);
        assert LowWitness(g, t, pos, t.lowlinks[t.stack[pos]]);
      }
    }
  }

  lemma BumpLowComplete(g: Graph, t: Tarjan, roots: seq<Root>, low: int)
    requires CanBump(g, t, roots, low)
    ensures LowComplete(g, Lower(t, Top(t, roots), low), Bumped(roots))
  {
    var t', roots', r := Lower(t, Top(t, roots), low), Bumped(roots), roots[|roots| - 1];
    forall p, k | 0 <= p < |t.stack| && 0 <= k < Handled(g, t', roots', p) && k < |g[t.stack[p]]|
      ensures Accounted(g, t', LowAt(t', roots', p), p, k)
    {
      BumpOwner(roots, p);
      BumpLowAt(g, t, roots, low, p);
      if p != r.pos || k != r.cnt {
        assert Accounted(g, t, LowAt(t, roots, p), p, k);
      }
    }
  }

  lemma BumpLowAt(g: Graph, t: Tarjan, roots: seq<Root>, low: int, p: int)
    requires CanBump(g, t, roots, low) && 0 <= p < |t.stack|
    ensures LowAt(Lower(t, Top(t, roots), low), Bumped(roots), p) ==
      if roots[|roots| - 1].pos <= p then low else LowAt(t, roots, p)
    ensures LowAt(Lower(t, Top(t, roots), low), Bumped(roots), p) <= LowAt(t, roots, p)
  {
    hide Connected, LowSound, LowComplete, Partition, Finished, IsEdge;
    BumpOwner(roots, p);
    OwnerIsRoot(g, t, roots, p);
    assert RootFits(g, t, Owner(roots, p));
    if roots[|roots| - 1].pos > p {
      assert t.stack[Owner(roots, p).pos] != Top(t, roots);
    }
  }

  /** Handling one more successor, with a lowlink that accounts for it. */
  lemma BumpKeepsInv(g: Graph, t: Tarjan, roots: seq<Root>, low: int)
    requires CanBump(g, t, roots, low)
    ensures Inv(g, Lower(t, Top(t, roots), low), Bumped(roots))
  {
    LowerShape(g, t, Top(t, roots), low);
    BumpRoots(g, t, roots, Top(t, roots), low);
    BumpConnected(g, t, roots, low);
    BumpLowSound(g, t, roots, low);
    BumpLowComplete(g, t, roots, low);
  }

  // ----- RETURN: a completed vertex joins the open vertex before it -----

  /** The last root `w` is completely handled, is a successor of the root `v`
      before it, and reaches below itself. */
  ghost predicate CanAbsorb(g: Graph, t: Tarjan, roots: seq<Root>) {
    && Inv(g, t, roots) && |roots| >= 2
    && (var v, w := roots[|roots| - 2], roots[|roots| - 1];
        && RootFits(g, t, v) && RootFits(g, t, w) && w.cnt == |g[t.stack[w.pos]]|
        && IsEdge(g, t.stack[v.pos], t.stack[w.pos])
        && t.stack[w.pos] in t.lowlinks && t.stack[w.pos] in t.indices
        && t.lowlinks[t.stack[w.pos]] < t.indices[t.stack[w.pos]])
  }

  ghost function Parent(t: Tarjan, roots: seq<Root>): int
    requires |roots| >= 2 && 0 <= roots[|roots| - 2].pos < |t.stack|
  {
    t.stack[roots[|roots| - 2].pos]
  }

  ghost function AbsorbedLow(t: Tarjan, roots: seq<Root>): int
    requires |roots| >= 2 && 0 <= roots[|roots| - 2].pos < |t.stack| && 0 <= roots[|roots| - 1].pos < |t.stack|
    requires Parent(t, roots) in t.lowlinks && Top(t, roots) in t.lowlinks
  {
    Min(t.lowlinks[Parent(t, roots)], t.lowlinks[Top(t, roots)])
  }

  ghost function Absorbed(t: Tarjan, roots: seq<Root>): Tarjan
    requires |roots| >= 2 && 0 <= roots[|roots| - 2].pos < |t.stack| && 0 <= roots[|roots| - 1].pos < |t.stack|
    requires Parent(t, roots) in t.lowlinks && Top(t, roots) in t.lowlinks
  {
    Lower(t, Parent(t, roots), AbsorbedLow(t, roots))
  }

  lemma OwnerBetween(roots: seq<Root>, q: int)
    requires |roots| >= 2 && roots[|roots| - 2].pos <= q < roots[|roots| - 1].pos
    ensures Owner(roots, q) == roots[|roots| - 2]
  {
    assert roots[..|roots| - 1][|roots| - 2] == roots[|roots| - 2];
  }

  /** The completed vertex reaches the open vertex before it. */
  lemma AbsorbReaches(g: Graph, t: Tarjan, roots: seq<Root>)
    requires CanAbsorb(g, t, roots)
    ensures Reach(g, Top(t, roots), Parent(t, roots))
  {
    var v, w := roots[|roots| - 2], roots[|roots| - 1];
    assert LowWitness(g, t, w.pos, t.lowlinks[t.stack[w.pos]]);
    AbsorbReachesVia(g, t, roots, v, w);
  }

  lemma AbsorbReachesVia(g: Graph, t: Tarjan, roots: seq<Root>, v: Root, w: Root)
    requires StackShape(g, t) && Connected(g, t, roots)
    requires |roots| >= 2 && v == roots[|roots| - 2] && w == roots[|roots| - 1]
    requires 0 <= v.pos < w.pos < |t.stack| && t.stack[w.pos] in t.lowlinks
    requires LowWitness(g, t, w.pos, t.lowlinks[t.stack[w.pos]])
    requires t.lowlinks[t.stack[w.pos]] < t.indices[t.stack[w.pos]]
    ensures Reach(g, t.stack[w.pos], t.stack[v.pos])
  {
    var q :| 0 <= q <= w.pos && t.indices[t.stack[q]] == t.lowlinks[t.stack[w.pos]] &&
      Reach(g, t.stack[w.pos], t.stack[q]);
    assert Reach(g, t.stack[q], t.stack[v.pos]) by {
      if v.pos <= q { OwnerBetween(roots, q); }
    }
    ReachTransitive(g, t.stack[w.pos], t.stack[q], t.stack[v.pos]);
  }

  lemma AbsorbOwner(roots: seq<Root>, p: int)
    requires |roots| >= 2 && roots[|roots| - 2].pos < roots[|roots| - 1].pos
    ensures Owner(roots[..|roots| - 1], p) ==
      if roots[|roots| - 1].pos <= p then roots[|roots| - 2] else Owner(roots, p)
  {
    assert roots[..|roots| - 1][|roots| - 2] == roots[|roots| - 2];
  }

  lemma AbsorbRoots(g: Graph, t: Tarjan, roots: seq<Root>, v: int, low: int)
    requires RootsOnStack(g, t, roots) && |roots| >= 2
    ensures RootsOnStack(g, Lower(t, v, low), roots[..|roots| - 1])
  {
    var roots' := roots[..|roots| - 1];
    forall i | 0 <= i < |roots'| ensures RootFits(g, Lower(t, v, low), roots'[i]) {
      assert RootFits(g, t, roots[i]);
    }
  }

  lemma AbsorbConnected(g: Graph, t: Tarjan, roots: seq<Root>)
    requires CanAbsorb(g, t, roots)
    ensures Connected(g, Absorbed(t, roots), roots[..|roots| - 1])
  {
    AbsorbReaches(g, t, roots);
    var v, w, roots' := roots[|roots| - 2], roots[|roots| - 1], roots[..|roots| - 1];
    forall p | 0 <= p < |t.stack|
      ensures 0 <= Owner(roots', p).pos <= p && Reach(g, t.stack[p], t.stack[Owner(roots', p).pos])
    {
      AbsorbOwner(roots, p);
      if w.pos <= p {
        assert Owner(roots, p) == w;
        ReachTransitive(g, t.stack[p], t.stack[w.pos], t.stack[v.pos]);
      }
    }
  }

  lemma AbsorbWitness(g: Graph, t: Tarjan, roots: seq<Root>)
    requires CanAbsorb(g, t, roots)
    ensures LowWitness(g, t, roots[|roots| - 2].pos, AbsorbedLow(t, roots))
  {
    var v, w := roots[|roots| - 2], roots[|roots| - 1];
    var lv, lw := t.lowlinks[t.stack[v.pos]], t.lowlinks[t.stack[w.pos]];
    assert LowWitness(g, t, v.pos, lv) && LowWitness(g, t, w.pos, lw);
    if lw < lv {
      var q :| 0 <= q <= w.pos && t.indices[t.stack[q]] == lw && Reach(g, t.stack[w.pos], t.stack[q]);
      assert q < v.pos;
      ReachEdge(g, t.stack[v.pos], t.stack[w.pos]);
      ReachTransitive(g, t.stack[v.pos], t.stack[w.pos], t.stack[q]);
    }
  }

  lemma AbsorbLowSound(g: Graph, t: Tarjan, roots: seq<Root>)
    requires CanAbsorb(g, t, roots)
    ensures LowSound(g, Absorbed(t, roots), roots[..|roots| - 1])
  {
    hide Connected, LowComplete, Partition, Finished, IsEdge;
    AbsorbWitness(g, t, roots);
    var t', n := Absorbed(t, roots), |roots|;
    forall i | 0 <= i < n - 1 ensures LowWitness(g, t', roots[i].pos, t'.lowlinks[t'.stack[roots[i].pos]]) {
      var pos := roots[i].pos;
      assert RootFits(g, t, roots[i]);
      if i < n - 2 {
        assert t.stack[pos] != Parent(t, roots);
        assert LowWitness(g, t, pos, t.lowlinks[t.stack[pos]]);
      }
    }
  }

  lemma StackInjective(g: Graph, t: Tarjan, p: int, q: int)
    requires StackShape(g, t) && 0 <= p < |t.stack| && 0 <= q < |t.stack| && p != q
    ensures t.stack[p] != t.stack[q]
  {
  }

  lemma AbsorbLowAt(g: Graph, t: Tarjan, roots: seq<Root>, p: int)
    requires StackShape(g, t) && |roots| >= 2 && 0 <= p < |t.stack|
    requires 0 <= roots[|roots| - 2].pos < roots[|roots| - 1].pos < |t.stack|
    requires 0 <= Owner(roots, p).pos < |t.stack|
    ensures LowAt(Absorbed(t, roots), roots[..|roots| - 1], p) <= LowAt(t, roots, p)
  {
    AbsorbOwner(roots, p);
    if roots[|roots| - 1].pos > p && Owner(roots, p).pos != roots[|roots| - 2].pos {
      StackInjective(g, t, Owner(roots, p).pos, roots[|roots| - 2].pos);
    }
  }

  lemma AbsorbLowComplete(g: Graph, t: Tarjan, roots: seq<Root>)
    requires CanAbsorb(g, t, roots)
    ensures LowComplete(g, Absorbed(t, roots), roots[..|roots| - 1])
  {
    hide Connected, LowSound, Partition, Finished, IsEdge;
    var t', roots', w := Absorbed(t, roots), roots[..|roots| - 1], roots[|roots| - 1];
    forall p, k | 0 <= p < |t.stack| && 0 <= k < Handled(g, t', roots', p) && k < |g[t.stack[p]]|
      ensures Accounted(g, t', LowAt(t', roots', p), p, k)
    {
      AbsorbOwner(roots, p);
      OwnerIsRoot(g, t, roots, p);
      AbsorbLowAt(g, t, roots, p);
      assert Handled(g, t, roots, p) == Handled(g, t', roots', p);
      assert Accounted(g, t, LowAt(t, roots, p), p, k);
    }
  }

  lemma AbsorbKeepsInv(g: Graph, t: Tarjan, roots: seq<Root>)
    requires CanAbsorb(g, t, roots)
    ensures Inv(g, Absorbed(t, roots), roots[..|roots| - 1])
  {
    LowerShape(g, t, Parent(t, roots), AbsorbedLow(t, roots));
    AbsorbRoots(g, t, roots, Parent(t, roots), AbsorbedLow(t, roots));
    AbsorbConnected(g, t, roots);
    AbsorbLowSound(g, t, roots);
    AbsorbLowComplete(g, t, roots);
  }
}
