/** One turn of the loop of `visit`: it keeps the invariant and makes progress. */
module TarjanTurns {
  import opened Reachability
  import opened TarjanInvariant
  import opened TarjanSteps
  import opened TarjanFrames

  // ----- Termination -----

  ghost function UpTo(n: nat): (s: set<int>)
    ensures forall v :: v in s <==> 0 <= v < n
  {
    if n == 0 then {} else UpTo(n - 1) + {n - 1}
  }

  ghost function Unvisited(g: Graph, t: Tarjan): nat {
    |UpTo(|g|) - t.indices.Keys|
  }

  /** The successors the open vertices have not handled yet. */
  ghost function Remaining(g: Graph, stack: seq<int>, roots: seq<Root>): nat {
    if roots == [] then 0
    else
      var r := roots[|roots| - 1];
      Remaining(g, stack, roots[..|roots| - 1]) +
        if 0 <= r.pos < |stack| && 0 <= stack[r.pos] < |g| && r.cnt <= |g[stack[r.pos]]|
        then |g[stack[r.pos]]| - r.cnt else 0
  }

  ghost function Weight(frames: seq<Frame>): nat {
    |frames| + if frames != [] && frames[|frames| - 1].ContinueFrame? then 2 else 0
  }

  lemma {:induction false} RemainingOfPrefix(g: Graph, stack: seq<int>, pos: int, roots: seq<Root>)
    requires 0 <= pos <= |stack| && forall i :: 0 <= i < |roots| ==> 0 <= roots[i].pos < pos
    ensures Remaining(g, stack[..pos], roots) == Remaining(g, stack, roots)
  {
    if roots != [] {
      RemainingOfPrefix(g, stack, pos, roots[..|roots| - 1]);
      assert 0 <= roots[|roots| - 1].pos < pos;
    }
  }

  lemma BumpRemaining(g: Graph, t: Tarjan, roots: seq<Root>)
    requires roots != [] && RootFits(g, t, roots[|roots| - 1])
    requires roots[|roots| - 1].cnt < |g[t.stack[roots[|roots| - 1].pos]]|
    ensures Remaining(g, t.stack, Bumped(roots)) == Remaining(g, t.stack, roots) - 1
  {
    assert Bumped(roots)[..|roots| - 1] == roots[..|roots| - 1];
  }

  lemma DropCompleteRemaining(g: Graph, t: Tarjan, roots: seq<Root>)
    requires roots != [] && RootFits(g, t, roots[|roots| - 1])
    requires roots[|roots| - 1].cnt == |g[t.stack[roots[|roots| - 1].pos]]|
    ensures Remaining(g, t.stack, roots[..|roots| - 1]) == Remaining(g, t.stack, roots)
  {
  }

  /** The progress of the loop of `visit`: fewer unvisited vertices, else fewer
      unhandled successors, else fewer suspended calls. */
  ghost predicate Progress(g: Graph, t: Tarjan, roots: seq<Root>, frames: seq<Frame>,
                           t': Tarjan, roots': seq<Root>, frames': seq<Frame>) {
    || Unvisited(g, t') < Unvisited(g, t)
    || (Unvisited(g, t') == Unvisited(g, t) && Remaining(g, t'.stack, roots') < Remaining(g, t.stack, roots))
    || (Unvisited(g, t') == Unvisited(g, t) && Remaining(g, t'.stack, roots') == Remaining(g, t.stack, roots) &&
          Weight(frames') < Weight(frames))
  }

  lemma BeginUnvisited(g: Graph, t: Tarjan, v: int)
    requires 0 <= v < |g| && v !in t.indices
    ensures Unvisited(g, Begin(t, v)) < Unvisited(g, t)
  {
    hide UpTo;
    var before, after := UpTo(|g|) - t.indices.Keys, UpTo(|g|) - Begin(t, v).indices.Keys;
    assert v in before;
    assert after == before - {v};
  }

  ghost predicate Turn(g: Graph, t: Tarjan, roots: seq<Root>, frames: seq<Frame>,
                       t': Tarjan, roots': seq<Root>, frames': seq<Frame>) {
    Running(g, t', roots', frames') && Progress(g, t, roots, frames, t', roots', frames')
  }

  lemma BeginTurn(g: Graph, t: Tarjan, roots: seq<Root>, frames: seq<Frame>)
    requires Running(g, t, roots, frames) && frames != [] && frames[|frames| - 1].BeginFrame?
    ensures var v := frames[|frames| - 1].v;
      Turn(g, t, roots, frames, Begin(t, v), Pushed(t, roots), Rest(frames) + [ContinueFrame(v, 0)])
  {
    BeginRuns(g, t, roots, frames);
    BeginUnvisited(g, t, frames[|frames| - 1].v);
  }

  lemma PopTurn(g: Graph, t: Tarjan, roots: seq<Root>, frames: seq<Frame>)
    requires Completes(g, t, roots, frames)
    requires var v := frames[|frames| - 1].v; v in t.lowlinks && v in t.indices && t.lowlinks[v] == t.indices[v]
    ensures var v := frames[|frames| - 1].v;
      && roots != [] && v in t.stackIndices && 0 <= t.stackIndices[v] <= |t.stack|
      && Turn(g, t, roots, frames, Pop(t, t.stackIndices[v]), roots[..|roots| - 1], Rest(frames))
  {
    PopRuns(g, t, roots, frames);
    TopRoot(g, t, roots, frames);
    PopProgress(g, t, roots, frames);
  }

  lemma PopProgress(g: Graph, t: Tarjan, roots: seq<Root>, frames: seq<Frame>)
    requires roots != [] && RootFits(g, t, roots[|roots| - 1]) && frames != []
    requires frames[|frames| - 1].ContinueFrame?
    requires roots[|roots| - 1].cnt == |g[t.stack[roots[|roots| - 1].pos]]|
    requires forall i :: 0 <= i < |roots| - 1 ==> 0 <= roots[i].pos < roots[|roots| - 1].pos
    ensures Progress(g, t, roots, frames, Pop(t, roots[|roots| - 1].pos), roots[..|roots| - 1], Rest(frames))
  {
    DropCompleteRemaining(g, t, roots);
    RemainingOfPrefix(g, t.stack, roots[|roots| - 1].pos, roots[..|roots| - 1]);
  }

  lemma KeepTurn(g: Graph, t: Tarjan, roots: seq<Root>, frames: seq<Frame>)
    requires Completes(g, t, roots, frames)
    requires var v := frames[|frames| - 1].v; v in t.lowlinks && v in t.indices && t.lowlinks[v] != t.indices[v]
    ensures Turn(g, t, roots, frames, t, roots, Rest(frames))
  {
    KeepRuns(g, t, roots, frames);
  }

  lemma DescendTurn(g: Graph, t: Tarjan, roots: seq<Root>, frames: seq<Frame>, w: int)
    requires Running(g, t, roots, frames) && frames != []
    requires var f := frames[|frames| - 1];
      f.ContinueFrame? && 0 <= f.v < |g| && 0 <= f.i < |g[f.v]| && g[f.v][f.i] == w
    requires w !in t.indices
    ensures var f := frames[|frames| - 1];
      Turn(g, t, roots, frames, t, roots, Rest(frames) + [ReturnFrame(f.v, w, f.i), BeginFrame(w)])
  {
    DescendRuns(g, t, roots, frames, w);
  }

  lemma BumpProgress(g: Graph, t: Tarjan, roots: seq<Root>, frames: seq<Frame>, v: int, low: int, frames': seq<Frame>)
    requires roots != [] && RootFits(g, t, roots[|roots| - 1])
    requires roots[|roots| - 1].cnt < |g[t.stack[roots[|roots| - 1].pos]]|
    ensures Progress(g, t, roots, frames, Lower(t, v, low), Bumped(roots), frames')
  {
    BumpRemaining(g, t, roots);
  }

  lemma VisitedTurn(g: Graph, t: Tarjan, roots: seq<Root>, frames: seq<Frame>, w: int, low: int)
    requires Running(g, t, roots, frames) && frames != []
    requires var f := frames[|frames| - 1];
      f.ContinueFrame? && 0 <= f.v < |g| && 0 <= f.i < |g[f.v]| && g[f.v][f.i] == w && f.v in t.lowlinks
    requires w in t.indices
    requires low == if w in t.stackIndices then Min(t.lowlinks[frames[|frames| - 1].v], t.indices[w])
                    else t.lowlinks[frames[|frames| - 1].v]
    ensures roots != []
    ensures var f := frames[|frames| - 1];
      Turn(g, t, roots, frames, Lower(t, f.v, low), Bumped(roots), Rest(frames) + [ContinueFrame(f.v, f.i + 1)])
  {
    hide Inv, Framed, Progress;
    var f := frames[|frames| - 1];
    VisitedRuns(g, t, roots, frames, w, low);
    TopRoot(g, t, roots, frames);
    BumpProgress(g, t, roots, frames, f.v, low, Rest(frames) + [ContinueFrame(f.v, f.i + 1)]);
  }

  lemma ReturnRoot(g: Graph, t: Tarjan, roots: seq<Root>, frames: seq<Frame>)
    requires Running(g, t, roots, frames) && frames != [] && frames[|frames| - 1].ReturnFrame?
    ensures var f := frames[|frames| - 1]; var n := |frames|;
      && n <= |roots| <= n + 1 && RootFits(g, t, roots[n - 1]) && t.stack[roots[n - 1].pos] == f.v
      && roots[n - 1].cnt < |g[f.v]| && f.v in t.lowlinks && f.w in t.lowlinks
      && (|roots| == n + 1 ==> RootFits(g, t, roots[n]) && t.stack[roots[n].pos] == f.w && roots[n].cnt == |g[f.w]|)
  {
    var n := |frames|;
    assert ReturnFits(g, t, roots, frames[n - 1], n - 1) && HasReturned(g, t, roots, frames[n - 1], n);
    assert RootFits(g, t, roots[n - 1]);
  }

  /** The open roots after a return: the returned vertex's root is gone if its
      component is still open. */
  ghost function Returned(roots: seq<Root>, n: nat): seq<Root>
    requires 0 < n <= |roots|
  {
    Bumped(roots[..n])
  }

  lemma ReturnTurn(g: Graph, t: Tarjan, roots: seq<Root>, frames: seq<Frame>, low: int)
    requires Running(g, t, roots, frames) && frames != [] && frames[|frames| - 1].ReturnFrame?
    requires var f := frames[|frames| - 1];
      f.v in t.lowlinks && f.w in t.lowlinks && low == Min(t.lowlinks[f.v], t.lowlinks[f.w])
    ensures |frames| <= |roots|
    ensures var f := frames[|frames| - 1];
      Turn(g, t, roots, frames, Lower(t, f.v, low), Returned(roots, |frames|), Rest(frames) + [ContinueFrame(f.v, f.i + 1)])
  {
    var n, f := |frames|, frames[|frames| - 1];
    ReturnRoot(g, t, roots, frames);
    if |roots| == n {
      PoppedRuns(g, t, roots, frames);
      assert roots[..n] == roots && Lower(t, f.v, low) == t;
    } else {
      AbsorbRuns(g, t, roots, frames, low);
    }
    ReturnProgress(g, t, roots, frames, low);
  }

  lemma ReturnProgress(g: Graph, t: Tarjan, roots: seq<Root>, frames: seq<Frame>, low: int)
    requires frames != [] && frames[|frames| - 1].ReturnFrame?
    requires var f := frames[|frames| - 1]; var n := |frames|;
      && n <= |roots| <= n + 1 && RootFits(g, t, roots[n - 1]) && roots[n - 1].cnt < |g[t.stack[roots[n - 1].pos]]|
      && (|roots| == n + 1 ==> RootFits(g, t, roots[n]) && roots[n].cnt == |g[t.stack[roots[n].pos]]|)
    ensures var f := frames[|frames| - 1];
      Progress(g, t, roots, frames, Lower(t, f.v, low), Returned(roots, |frames|), Rest(frames) + [ContinueFrame(f.v, f.i + 1)])
  {
    var n := |frames|;
    assert |roots| == n ==> roots[..n] == roots;
    if |roots| == n + 1 { DropCompleteRemaining(g, t, roots); }
    assert Remaining(g, t.stack, roots[..n]) == Remaining(g, t.stack, roots);
    BumpRemaining(g, t, roots[..n]);
  }
}
