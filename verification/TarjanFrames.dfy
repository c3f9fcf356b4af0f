/** The explicit recursion stack of the iterative version (variable_order.py:147-183). */
module TarjanFrames {
  import opened Reachability
  import opened TarjanInvariant
  import opened TarjanSteps
  import opened TarjanPop

  datatype Frame = BeginFrame(v: int) | ContinueFrame(v: int, i: int) | ReturnFrame(v: int, w: int, i: int)

  predicate RootIs(t: Tarjan, roots: seq<Root>, j: int, v: int) {
    0 <= j < |roots| && 0 <= roots[j].pos < |t.stack| && t.stack[roots[j].pos] == v
  }

  /** A suspended call for root `j`, waiting for the call for its successor. */
  predicate ReturnFits(g: Graph, t: Tarjan, roots: seq<Root>, f: Frame, j: int) {
    && f.ReturnFrame? && RootIs(t, roots, j, f.v) && 0 <= f.v < |g|
    && f.i == roots[j].cnt && 0 <= f.i < |g[f.v]| && g[f.v][f.i] == f.w
    && (j + 1 < |roots| ==> RootIs(t, roots, j + 1, f.w))
  }

  /** The last call has just returned: its vertex still belongs to a component
      that is open, or its component has been popped. */
  predicate HasReturned(g: Graph, t: Tarjan, roots: seq<Root>, f: Frame, n: int)
    requires f.ReturnFrame?
  {
    && n >= 0 && f.v in t.indices && f.w in t.indices && f.w in t.lowlinks && 0 <= f.w < |g|
    && (|| (|roots| == n + 1 && roots[n].cnt == |g[f.w]| && t.lowlinks[f.w] < t.indices[f.w])
        || (|roots| == n && f.w !in t.stackIndices && t.lowlinks[f.w] > t.indices[f.v]))
  }

  predicate TopFits(g: Graph, t: Tarjan, roots: seq<Root>, frames: seq<Frame>)
    requires frames != []
  {
    var n := |frames|;
    match frames[n - 1]
    case BeginFrame(v) =>
      |roots| == n - 1 && 0 <= v < |g| && v !in t.indices &&
      (n > 1 ==> frames[n - 2].ReturnFrame? && frames[n - 2].w == v)
    case ContinueFrame(v, i) => |roots| == n && RootIs(t, roots, n - 1, v) && i == roots[n - 1].cnt
    case ReturnFrame(v, w, i) => HasReturned(g, t, roots, frames[n - 1], n)
  }

  ghost predicate Framed(g: Graph, t: Tarjan, roots: seq<Root>, frames: seq<Frame>) {
    && (frames == [] ==> roots == [])
    && (forall j :: 0 <= j < |frames| - 1 ==> frames[j].ReturnFrame?)
    && (forall j :: 0 <= j < |frames| && frames[j].ReturnFrame? ==> ReturnFits(g, t, roots, frames[j], j))
    && (frames != [] ==> TopFits(g, t, roots, frames))
  }

  ghost predicate Running(g: Graph, t: Tarjan, roots: seq<Root>, frames: seq<Frame>) {
    Inv(g, t, roots) && Framed(g, t, roots, frames)
  }

  function Rest(frames: seq<Frame>): seq<Frame>
    requires frames != []
  {
    frames[..|frames| - 1]
  }

  // ----- The transitions -----

  lemma BeginRuns(g: Graph, t: Tarjan, roots: seq<Root>, frames: seq<Frame>)
    requires Running(g, t, roots, frames) && frames != [] && frames[|frames| - 1].BeginFrame?
    ensures var v := frames[|frames| - 1].v;
      Running(g, Begin(t, v), Pushed(t, roots), Rest(frames) + [ContinueFrame(v, 0)])
  {
    BeginFrames(g, t, roots, frames);
    if roots != [] { BeginEdge(g, t, roots, frames); }
    BeginKeepsInv(g, t, roots, frames[|frames| - 1].v);
  }

  lemma BeginEdge(g: Graph, t: Tarjan, roots: seq<Root>, frames: seq<Frame>)
    requires Framed(g, t, roots, frames) && frames != [] && frames[|frames| - 1].BeginFrame? && roots != []
    ensures 0 <= roots[|roots| - 1].pos < |t.stack|
    ensures IsEdge(g, t.stack[roots[|roots| - 1].pos], frames[|frames| - 1].v)
  {
    var n := |frames|;
    assert ReturnFits(g, t, roots, frames[n - 2], n - 2);
  }

  lemma BeginFrames(g: Graph, t: Tarjan, roots: seq<Root>, frames: seq<Frame>)
    requires Framed(g, t, roots, frames) && frames != [] && frames[|frames| - 1].BeginFrame?
    ensures var v := frames[|frames| - 1].v;
      Framed(g, Begin(t, v), Pushed(t, roots), Rest(frames) + [ContinueFrame(v, 0)])
  {
    var n, v := |frames|, frames[|frames| - 1].v;
    var t', roots', frames' := Begin(t, v), Pushed(t, roots), Rest(frames) + [ContinueFrame(v, 0)];
    forall j | 0 <= j < n - 1 ensures ReturnFits(g, t', roots', frames'[j], j) {
      assert frames'[j] == frames[j] && ReturnFits(g, t, roots, frames[j], j);
    }
  }

  /** CONTINUE with all successors handled. */
  ghost predicate Completes(g: Graph, t: Tarjan, roots: seq<Root>, frames: seq<Frame>) {
    && Running(g, t, roots, frames) && frames != []
    && (var f := frames[|frames| - 1]; f.ContinueFrame? && 0 <= f.v < |g| && f.i == |g[f.v]|)
  }

  lemma TopRoot(g: Graph, t: Tarjan, roots: seq<Root>, frames: seq<Frame>)
    requires Running(g, t, roots, frames) && frames != [] && frames[|frames| - 1].ContinueFrame?
    ensures var v := frames[|frames| - 1].v;
      && roots != [] && RootIs(t, roots, |roots| - 1, v) && |roots| == |frames|
      && RootFits(g, t, roots[|roots| - 1]) && frames[|frames| - 1].i == roots[|roots| - 1].cnt
      && v in t.indices && v in t.lowlinks && v in t.stackIndices && t.stackIndices[v] == roots[|roots| - 1].pos
      && t.lowlinks[v] <= t.indices[v]
  {
    assert RootFits(g, t, roots[|roots| - 1]);
    assert LowWitness(g, t, roots[|roots| - 1].pos, t.lowlinks[frames[|frames| - 1].v]);
  }

  lemma PopRuns(g: Graph, t: Tarjan, roots: seq<Root>, frames: seq<Frame>)
    requires Completes(g, t, roots, frames)
    requires var v := frames[|frames| - 1].v; v in t.lowlinks && v in t.indices && t.lowlinks[v] == t.indices[v]
    ensures roots != [] && 0 <= roots[|roots| - 1].pos <= |t.stack|
    ensures Running(g, Pop(t, roots[|roots| - 1].pos), roots[..|roots| - 1], Rest(frames))
  {
    TopRoot(g, t, roots, frames);
    PopKeepsInv(g, t, roots);
    PopFrames(g, t, roots, frames);
  }

  lemma PopFrames(g: Graph, t: Tarjan, roots: seq<Root>, frames: seq<Frame>)
    requires Framed(g, t, roots, frames) && StackShape(g, t)
    requires frames != [] && frames[|frames| - 1].ContinueFrame? && |roots| == |frames|
    requires forall i, j :: 0 <= i < j < |roots| ==> roots[i].pos < roots[j].pos
    requires var v := frames[|frames| - 1].v;
      && RootIs(t, roots, |roots| - 1, v) && v in t.lowlinks && v in t.indices && t.lowlinks[v] == t.indices[v]
    ensures Framed(g, Pop(t, roots[|roots| - 1].pos), roots[..|roots| - 1], Rest(frames))
  {
    var n, v := |frames|, frames[|frames| - 1].v;
    var t', roots', frames' := Pop(t, roots[n - 1].pos), roots[..n - 1], Rest(frames);
    forall j | 0 <= j < n - 1 ensures ReturnFits(g, t', roots', frames'[j], j) {
      assert frames'[j] == frames[j] && ReturnFits(g, t, roots, frames[j], j);
    }
    if n > 1 {
      assert ReturnFits(g, t, roots, frames[n - 2], n - 2);
      PopReturns(g, t, roots, frames[n - 2], n);
    }
  }

  lemma PopReturns(g: Graph, t: Tarjan, roots: seq<Root>, f: Frame, n: nat)
    requires StackShape(g, t) && n > 1 && |roots| == n && ReturnFits(g, t, roots, f, n - 2)
    requires roots[n - 2].pos < roots[n - 1].pos && RootIs(t, roots, n - 1, f.w)
    requires f.w in t.lowlinks && f.w in t.indices && t.lowlinks[f.w] == t.indices[f.w]
    ensures HasReturned(g, Pop(t, roots[n - 1].pos), roots[..n - 1], f, n - 1)
  {
    assert t.stack[roots[n - 1].pos..][0] == f.w;
  }

  /** The completed vertex stays on the stack; this never happens to the first one. */
  lemma KeepRuns(g: Graph, t: Tarjan, roots: seq<Root>, frames: seq<Frame>)
    requires Completes(g, t, roots, frames)
    requires var v := frames[|frames| - 1].v; v in t.lowlinks && v in t.indices && t.lowlinks[v] != t.indices[v]
    ensures Running(g, t, roots, Rest(frames)) && |frames| > 1
  {
    TopRoot(g, t, roots, frames);
    var n, v := |frames|, frames[|frames| - 1].v;
    assert LowWitness(g, t, roots[n - 1].pos, t.lowlinks[v]);
    assert n > 1;
    var frames' := Rest(frames);
    forall j | 0 <= j < n - 1 ensures ReturnFits(g, t, roots, frames'[j], j) {
      assert frames'[j] == frames[j] && ReturnFits(g, t, roots, frames[j], j);
    }
    assert HasReturned(g, t, roots, frames'[n - 2], n - 1);
  }

  /** CONTINUE with an unvisited successor. */
  lemma DescendRuns(g: Graph, t: Tarjan, roots: seq<Root>, frames: seq<Frame>, w: int)
    requires Running(g, t, roots, frames) && frames != []
    requires var f := frames[|frames| - 1];
      f.ContinueFrame? && 0 <= f.v < |g| && 0 <= f.i < |g[f.v]| && g[f.v][f.i] == w
    requires w !in t.indices
    ensures var f := frames[|frames| - 1];
      Running(g, t, roots, Rest(frames) + [ReturnFrame(f.v, w, f.i), BeginFrame(w)])
  {
    TopRoot(g, t, roots, frames);
    var n, f := |frames|, frames[|frames| - 1];
    var frames' := Rest(frames) + [ReturnFrame(f.v, w, f.i), BeginFrame(w)];
    forall j | 0 <= j < n ensures ReturnFits(g, t, roots, frames'[j], j) {
      if j < n - 1 { assert frames'[j] == frames[j] && ReturnFits(g, t, roots, frames[j], j); }
    }
  }

  lemma BumpFrames(g: Graph, t: Tarjan, t': Tarjan, roots: seq<Root>, frames: seq<Frame>, n: nat, v: int)
    requires n > 0 && |roots| == n && |frames| >= n - 1 && t'.stack == t.stack
    requires forall j :: 0 <= j < n - 1 ==> ReturnFits(g, t, roots, frames[j], j)
    requires RootIs(t, roots, n - 1, v)
    ensures Framed(g, t', Bumped(roots), frames[..n - 1] + [ContinueFrame(v, roots[n - 1].cnt + 1)])
  {
    var roots', frames' := Bumped(roots), frames[..n - 1] + [ContinueFrame(v, roots[n - 1].cnt + 1)];
    forall j | 0 <= j < n - 1 ensures ReturnFits(g, t', roots', frames'[j], j) {
      assert frames'[j] == frames[j] && ReturnFits(g, t, roots, frames[j], j);
    }
  }

  /** CONTINUE with a visited successor `w`. */
  lemma VisitedRuns(g: Graph, t: Tarjan, roots: seq<Root>, frames: seq<Frame>, w: int, low: int)
    requires Running(g, t, roots, frames) && frames != []
    requires var f := frames[|frames| - 1];
      f.ContinueFrame? && 0 <= f.v < |g| && 0 <= f.i < |g[f.v]| && g[f.v][f.i] == w && f.v in t.lowlinks
    requires w in t.indices
    requires low == if w in t.stackIndices then Min(t.lowlinks[frames[|frames| - 1].v], t.indices[w])
                    else t.lowlinks[frames[|frames| - 1].v]
    ensures roots != []
    ensures var f := frames[|frames| - 1];
      Running(g, Lower(t, f.v, low), Bumped(roots), Rest(frames) + [ContinueFrame(f.v, f.i + 1)])
  {
    var f := frames[|frames| - 1];
    TopRoot(g, t, roots, frames);
    VisitedInv(g, t, roots, w, low);
    VisitedFrames(g, t, roots, frames, low);
  }

  lemma VisitedFrames(g: Graph, t: Tarjan, roots: seq<Root>, frames: seq<Frame>, low: int)
    requires Framed(g, t, roots, frames) && frames != [] && frames[|frames| - 1].ContinueFrame?
    requires roots != []
    ensures var f := frames[|frames| - 1];
      Framed(g, Lower(t, f.v, low), Bumped(roots), Rest(frames) + [ContinueFrame(f.v, f.i + 1)])
  {
    var f := frames[|frames| - 1];
    BumpFrames(g, t, Lower(t, f.v, low), roots, frames, |frames|, f.v);
  }

  lemma VisitedInv(g: Graph, t: Tarjan, roots: seq<Root>, w: int, low: int)
    requires Inv(g, t, roots) && roots != []
    requires
      var r := roots[|roots| - 1];
      RootFits(g, t, r) && r.cnt < |g[t.stack[r.pos]]| && g[t.stack[r.pos]][r.cnt] == w
    requires w in t.indices && Top(t, roots) in t.lowlinks
    requires low == if w in t.stackIndices then Min(t.lowlinks[Top(t, roots)], t.indices[w])
                    else t.lowlinks[Top(t, roots)]
    ensures Inv(g, Lower(t, Top(t, roots), low), Bumped(roots))
  {
    var r := roots[|roots| - 1];
    var v := t.stack[r.pos];
    assert LowWitness(g, t, r.pos, t.lowlinks[v]);
    if low != t.lowlinks[v] {
      var q := t.stackIndices[w];
      assert IsEdge(g, v, w);
      ReachEdge(g, v, w);
      assert t.stack[q] == w && q < r.pos;
      assert LowWitness(g, t, r.pos, low);
    }
    BumpKeepsInv(g, t, roots, low);
  }

  /** RETURN when the successor is still on the stack. */
  lemma AbsorbRuns(g: Graph, t: Tarjan, roots: seq<Root>, frames: seq<Frame>, low: int)
    requires Running(g, t, roots, frames) && frames != [] && frames[|frames| - 1].ReturnFrame?
    requires |roots| == |frames| + 1
    requires var f := frames[|frames| - 1];
      f.v in t.lowlinks && f.w in t.lowlinks && low == Min(t.lowlinks[f.v], t.lowlinks[f.w])
    ensures var f := frames[|frames| - 1];
      Running(g, Lower(t, f.v, low), Bumped(roots[..|frames|]), Rest(frames) + [ContinueFrame(f.v, f.i + 1)])
  {
    var n, f := |frames|, frames[|frames| - 1];
    assert ReturnFits(g, t, roots, f, n - 1) && HasReturned(g, t, roots, f, n);
    AbsorbInv(g, t, roots, f, low);
    AbsorbFrames(g, t, roots, frames, low);
  }

  lemma AbsorbFrames(g: Graph, t: Tarjan, roots: seq<Root>, frames: seq<Frame>, low: int)
    requires Framed(g, t, roots, frames) && frames != [] && frames[|frames| - 1].ReturnFrame?
    requires |roots| == |frames| + 1
    ensures var f := frames[|frames| - 1];
      Framed(g, Lower(t, f.v, low), Bumped(roots[..|frames|]), Rest(frames) + [ContinueFrame(f.v, f.i + 1)])
  {
    var n, f := |frames|, frames[|frames| - 1];
    assert ReturnFits(g, t, roots, f, n - 1);
    var less := roots[..n];
    forall j | 0 <= j < n - 1 ensures ReturnFits(g, t, less, frames[j], j) {
      assert ReturnFits(g, t, roots, frames[j], j);
    }
    BumpFrames(g, t, Lower(t, f.v, low), less, frames, n, f.v);
  }

  lemma AbsorbInv(g: Graph, t: Tarjan, roots: seq<Root>, f: Frame, low: int)
    requires Inv(g, t, roots) && |roots| >= 2
    requires ReturnFits(g, t, roots, f, |roots| - 2) && HasReturned(g, t, roots, f, |roots| - 1)
    requires f.v in t.lowlinks && low == Min(t.lowlinks[f.v], t.lowlinks[f.w])
    ensures Inv(g, Lower(t, f.v, low), Bumped(roots[..|roots| - 1]))
  {
    hide Connected, LowComplete, LowSound, Partition, Finished;
    AbsorbFirst(g, t, roots, f, low);
    AbsorbedBump(g, Lower(t, f.v, low), roots[..|roots| - 1], f, low);
  }

  lemma AbsorbFirst(g: Graph, t: Tarjan, roots: seq<Root>, f: Frame, low: int)
    requires Inv(g, t, roots) && |roots| >= 2
    requires ReturnFits(g, t, roots, f, |roots| - 2) && HasReturned(g, t, roots, f, |roots| - 1)
    requires f.v in t.lowlinks && low == Min(t.lowlinks[f.v], t.lowlinks[f.w])
    ensures Inv(g, Lower(t, f.v, low), roots[..|roots| - 1])
  {
    var n := |roots| - 1;
    assert RootFits(g, t, roots[n - 1]) && RootFits(g, t, roots[n]);
    assert IsEdge(g, f.v, f.w);
    AbsorbKeepsInv(g, t, roots);
    assert Lower(t, f.v, low) == Absorbed(t, roots);
  }

  lemma AbsorbedBump(g: Graph, t: Tarjan, roots: seq<Root>, f: Frame, low: int)
    requires Inv(g, t, roots) && roots != [] && RootIs(t, roots, |roots| - 1, f.v)
    requires f.ReturnFrame? && 0 <= f.v < |g| && f.i == roots[|roots| - 1].cnt && 0 <= f.i < |g[f.v]|
    requires g[f.v][f.i] == f.w
    requires f.v in t.lowlinks && t.lowlinks[f.v] == low && f.w in t.indices && low <= t.indices[f.w]
    ensures Inv(g, t, Bumped(roots))
  {
    hide Connected, LowComplete, Partition, Finished;
    var r := roots[|roots| - 1];
    assert RootFits(g, t, r) && LowWitness(g, t, r.pos, low);
    BumpKeepsInv(g, t, roots, low);
    assert Lower(t, f.v, low) == t;
  }

  /** RETURN when the successor's component has been popped. */
  lemma PoppedRuns(g: Graph, t: Tarjan, roots: seq<Root>, frames: seq<Frame>)
    requires Running(g, t, roots, frames) && frames != [] && frames[|frames| - 1].ReturnFrame?
    requires |roots| == |frames|
    ensures var f := frames[|frames| - 1];
      && f.v in t.lowlinks && f.w in t.lowlinks && Min(t.lowlinks[f.v], t.lowlinks[f.w]) == t.lowlinks[f.v]
      && Running(g, t, Bumped(roots), Rest(frames) + [ContinueFrame(f.v, f.i + 1)])
  {
    hide Inv;
    var n, f := |frames|, frames[|frames| - 1];
    assert ReturnFits(g, t, roots, f, n - 1) && HasReturned(g, t, roots, f, n);
    PoppedInv(g, t, roots, f);
    BumpFrames(g, t, t, roots, frames, n, f.v);
  }

  lemma PoppedInv(g: Graph, t: Tarjan, roots: seq<Root>, f: Frame)
    requires Inv(g, t, roots) && roots != []
    requires ReturnFits(g, t, roots, f, |roots| - 1) && HasReturned(g, t, roots, f, |roots|)
    ensures f.v in t.lowlinks && f.w in t.lowlinks && Min(t.lowlinks[f.v], t.lowlinks[f.w]) == t.lowlinks[f.v]
    ensures Inv(g, t, Bumped(roots))
  {
    hide Connected, LowComplete, Partition, Finished;
    var r := roots[|roots| - 1];
    assert RootFits(g, t, r);
    assert LowWitness(g, t, r.pos, t.lowlinks[f.v]);
    BumpKeepsInv(g, t, roots, t.lowlinks[f.v]);
    assert Lower(t, f.v, t.lowlinks[f.v]) == t;
  }
}
