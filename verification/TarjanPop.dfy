/** Popping a completed vertex whose lowlink is its own index: the popped part of
    the stack is a strongly connected component. */
module TarjanPop {
  import opened Reachability
  import opened TarjanInvariant
  import opened TarjanSteps

  /** The last root `r` is completely handled and reaches nothing below itself. */
  ghost predicate CanPop(g: Graph, t: Tarjan, roots: seq<Root>) {
    && Inv(g, t, roots) && roots != []
    && (var r := roots[|roots| - 1];
        && RootFits(g, t, r) && r.cnt == |g[t.stack[r.pos]]|
        && t.stack[r.pos] in t.lowlinks && t.stack[r.pos] in t.indices
        && t.lowlinks[t.stack[r.pos]] == t.indices[t.stack[r.pos]])
  }

  /** Every successor of a popped vertex is popped with it or already in a component. */
  lemma PoppedSuccessor(g: Graph, t: Tarjan, roots: seq<Root>, p: int, k: int)
    requires CanPop(g, t, roots) && roots[|roots| - 1].pos <= p < |t.stack| && 0 <= k < |g[t.stack[p]]|
    ensures var y := g[t.stack[p]][k]; y in t.stack[roots[|roots| - 1].pos..] || InSccs(t.sccs, y)
  {
    var r := roots[|roots| - 1];
    var y := g[t.stack[p]][k];
    assert Owner(roots, p) == r;
    assert Accounted(g, t, LowAt(t, roots, p), p, k);
    if y in t.stackIndices {
      var q := t.stackIndices[y];
      assert t.indices[t.stack[r.pos]] <= t.indices[t.stack[q]];
      assert r.pos <= q;
      assert t.stack[r.pos..][q - r.pos] == y;
    }
  }

  lemma PoppedPosition(t: Tarjan, pos: int, x: int) returns (p: int)
    requires 0 <= pos <= |t.stack| && x in t.stack[pos..]
    ensures pos <= p < |t.stack| && t.stack[p] == x
  {
    var i :| 0 <= i < |t.stack[pos..]| && t.stack[pos..][i] == x;
    p := pos + i;
  }

  ghost function Vertices(sccs: seq<seq<int>>, c: seq<int>): iset<int> {
    iset x | InSccs(sccs, x) || x in c
  }

  /** The vertices of finished components form a closed set. */
  lemma FinishedClosed(g: Graph, sccs: seq<seq<int>>)
    requires Finished(g, sccs)
    ensures ClosedUnderEdges(g, Vertices(sccs, []))
  {
    forall x, y | InSccs(sccs, x) && IsEdge(g, x, y) ensures InSccs(sccs, y) {
      var a :| 0 <= a < |sccs| && x in sccs[a];
      var b :| 0 <= b < |sccs[..a + 1]| && y in sccs[..a + 1][b];
      assert y in sccs[b];
    }
  }

  lemma PopClosed(g: Graph, t: Tarjan, roots: seq<Root>)
    requires CanPop(g, t, roots)
    ensures ClosedUnderEdges(g, Vertices(t.sccs, t.stack[roots[|roots| - 1].pos..]))
  {
    FinishedClosed(g, t.sccs);
    var pos := roots[|roots| - 1].pos;
    forall x, y | (InSccs(t.sccs, x) || x in t.stack[pos..]) && IsEdge(g, x, y)
      ensures InSccs(t.sccs, y) || y in t.stack[pos..]
    {
      if InSccs(t.sccs, x) {
        assert x in Vertices(t.sccs, []);
      } else {
        var p := PoppedPosition(t, pos, x);
        var k :| 0 <= k < |g[x]| && g[x][k] == y;
        PoppedSuccessor(g, t, roots, p, k);
      }
    }
  }

  lemma PoppedConnected(g: Graph, t: Tarjan, roots: seq<Root>, x: int, y: int)
    requires CanPop(g, t, roots)
    requires x in t.stack[roots[|roots| - 1].pos..] && y in t.stack[roots[|roots| - 1].pos..]
    ensures Reach(g, x, y)
  {
    var r := roots[|roots| - 1];
    var p := PoppedPosition(t, r.pos, x);
    var q := PoppedPosition(t, r.pos, y);
    assert Owner(roots, p) == r;
    ReachTransitive(g, x, t.stack[r.pos], y);
  }

  lemma PoppedMaximal(g: Graph, t: Tarjan, roots: seq<Root>, x: int, y: int)
    requires CanPop(g, t, roots)
    requires x in t.stack[roots[|roots| - 1].pos..] && Reach(g, x, y) && Reach(g, y, x)
    ensures y in t.stack[roots[|roots| - 1].pos..]
  {
    var pos := roots[|roots| - 1].pos;
    PopClosed(g, t, roots);
    var p := PoppedPosition(t, pos, x);
    assert x in t.stackIndices && !InSccs(t.sccs, x);
    ReachStaysIn(g, Vertices(t.sccs, t.stack[pos..]), x, y);
    if InSccs(t.sccs, y) {
      FinishedClosed(g, t.sccs);
      ReachStaysIn(g, Vertices(t.sccs, []), y, x);
      assert false;
    }
  }

  lemma PoppedIsScc(g: Graph, t: Tarjan, roots: seq<Root>)
    requires CanPop(g, t, roots)
    ensures IsScc(g, t.stack[roots[|roots| - 1].pos..])
  {
    var c := t.stack[roots[|roots| - 1].pos..];
    forall x, y | x in c ensures y in c <==> Reach(g, x, y) && Reach(g, y, x) {
      if y in c {
        PoppedConnected(g, t, roots, x, y);
        PoppedConnected(g, t, roots, y, x);
      } else if Reach(g, x, y) && Reach(g, y, x) {
        PoppedMaximal(g, t, roots, x, y);
      }
    }
  }

  lemma PopFinished(g: Graph, t: Tarjan, roots: seq<Root>)
    requires CanPop(g, t, roots)
    ensures Finished(g, Pop(t, roots[|roots| - 1].pos).sccs)
  {
    var pos := roots[|roots| - 1].pos;
    var c, n := t.stack[pos..], |t.sccs|;
    var sccs := t.sccs + [c];
    PoppedIsScc(g, t, roots);
    PopClosed(g, t, roots);
    forall a | 0 <= a < |sccs| ensures IsScc(g, sccs[a]) {
      if a < n { assert sccs[a] == t.sccs[a]; }
    }
    forall a, x, y | 0 <= a < |sccs| && x in sccs[a] && IsEdge(g, x, y) ensures InSccs(sccs[..a + 1], y) {
      if a < n {
        assert sccs[..a + 1] == t.sccs[..a + 1];
      } else {
        assert sccs[..a + 1] == sccs && sccs[n] == c;
        assert x in Vertices(t.sccs, c);
        if InSccs(t.sccs, y) {
          var b :| 0 <= b < n && y in t.sccs[b];
          assert y in sccs[b];
        }
      }
    }
  }

  lemma PopShape(g: Graph, t: Tarjan, pos: int)
    requires StackShape(g, t) && 0 <= pos <= |t.stack|
    ensures StackShape(g, Pop(t, pos))
  {
    var t' := Pop(t, pos);
    forall x | x in t.stackIndices ensures x in t'.stackIndices <==> t.stackIndices[x] < pos {
      if t.stackIndices[x] >= pos { assert t.stack[pos..][t.stackIndices[x] - pos] == x; }
      if x in t.stack[pos..] { var p := PoppedPosition(t, pos, x); }
    }
  }

  lemma PopPartition(g: Graph, t: Tarjan, pos: int)
    requires StackShape(g, t) && Partition(t) && 0 <= pos <= |t.stack|
    ensures Partition(Pop(t, pos))
  {
    var t', c, n := Pop(t, pos), t.stack[pos..], |t.sccs|;
    forall x | x in c ensures x in t.stackIndices && x in t.indices {
      var p := PoppedPosition(t, pos, x);
    }
    forall a | 0 <= a < n ensures t'.sccs[a] == t.sccs[a] {}
    forall x | x in t'.indices ensures x in t'.stackIndices || InSccs(t'.sccs, x) {
      if x in c {
        assert t'.sccs[n] == c;
      } else if x !in t.stackIndices {
        var a :| 0 <= a < n && x in t.sccs[a];
        assert x in t'.sccs[a];
      }
    }
    forall i, j | 0 <= i < j < |c| ensures c[i] != c[j] {
      StackInjective(g, t, pos + i, pos + j);
    }
  }

  lemma PopRoots(g: Graph, t: Tarjan, roots: seq<Root>)
    requires RootsOnStack(g, t, roots) && roots != []
    ensures RootsOnStack(g, Pop(t, roots[|roots| - 1].pos), roots[..|roots| - 1])
  {
    var t', roots' := Pop(t, roots[|roots| - 1].pos), roots[..|roots| - 1];
    forall i | 0 <= i < |roots'| ensures RootFits(g, t', roots'[i]) {
      assert RootFits(g, t, roots[i]);
    }
  }

  lemma PopConnected(g: Graph, t: Tarjan, roots: seq<Root>)
    requires CanPop(g, t, roots)
    ensures Connected(g, Pop(t, roots[|roots| - 1].pos), roots[..|roots| - 1])
  {
    var t', roots' := Pop(t, roots[|roots| - 1].pos), roots[..|roots| - 1];
    forall p | 0 <= p < |t'.stack|
      ensures 0 <= Owner(roots', p).pos <= p && Reach(g, t'.stack[p], t'.stack[Owner(roots', p).pos])
    {
      assert Owner(roots', p) == Owner(roots, p);
    }
    forall p, q | 0 <= p <= q < |t'.stack| ensures Reach(g, t'.stack[p], t'.stack[q]) {
      assert Reach(g, t.stack[p], t.stack[q]);
    }
  }

  lemma PopLowSound(g: Graph, t: Tarjan, roots: seq<Root>)
    requires CanPop(g, t, roots)
    ensures LowSound(g, Pop(t, roots[|roots| - 1].pos), roots[..|roots| - 1])
  {
    var t', roots' := Pop(t, roots[|roots| - 1].pos), roots[..|roots| - 1];
    forall i | 0 <= i < |roots'| ensures LowWitness(g, t', roots'[i].pos, t'.lowlinks[t'.stack[roots'[i].pos]]) {
      var pos := roots[i].pos;
      assert LowWitness(g, t, pos, t.lowlinks[t.stack[pos]]);
    }
  }

  lemma PopLowComplete(g: Graph, t: Tarjan, roots: seq<Root>)
    requires CanPop(g, t, roots)
    ensures LowComplete(g, Pop(t, roots[|roots| - 1].pos), roots[..|roots| - 1])
  {
    var t', roots' := Pop(t, roots[|roots| - 1].pos), roots[..|roots| - 1];
    forall p, k | 0 <= p < |t'.stack| && 0 <= k < Handled(g, t', roots', p) && k < |g[t'.stack[p]]|
      ensures Accounted(g, t', LowAt(t', roots', p), p, k)
    {
      OwnerIsRoot(g, t, roots, p);
      assert LowAt(t', roots', p) == LowAt(t, roots, p);
      assert Accounted(g, t, LowAt(t, roots, p), p, k);
    }
  }

  lemma PopKeepsInv(g: Graph, t: Tarjan, roots: seq<Root>)
    requires CanPop(g, t, roots)
    ensures Inv(g, Pop(t, roots[|roots| - 1].pos), roots[..|roots| - 1])
  {
    PopShape(g, t, roots[|roots| - 1].pos);
    PopPartition(g, t, roots[|roots| - 1].pos);
    PopFinished(g, t, roots);
    PopRoots(g, t, roots);
    PopConnected(g, t, roots);
    PopLowSound(g, t, roots);
    PopLowComplete(g, t, roots);
  }
}
