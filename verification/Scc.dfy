/**
  Strongly connected components (variable_order.py:118-183): the iterative form of
  Tarjan's algorithm, with its fields, proved to return the components in a
  topological order.
 */
module Scc {
  import opened Reachability
  import opened TarjanInvariant
  import opened TarjanSteps
  import opened TarjanFrames
  import opened TarjanTurns

  /** `result` lists the strongly connected components, each vertex once, and an
      edge never leads to an earlier component. */
  ghost predicate IsSccOrder(g: Graph, result: seq<seq<int>>) {
    && (forall v :: 0 <= v < |g| <==> InSccs(result, v))
    && (forall a :: 0 <= a < |result| ==> IsScc(g, result[a]))
    && (forall a, i, j :: 0 <= a < |result| && 0 <= i < j < |result[a]| ==> result[a][i] != result[a][j])
    && (forall a, b, x :: 0 <= a < b < |result| && x in result[a] ==> x !in result[b])
    && (forall a, b, x, y :: 0 <= a < |result| && 0 <= b < |result| && x in result[a] && y in result[b] && IsEdge(g, x, y) ==>
          a <= b)
  }

  // ----- The algorithm -----

  class Scc {
    const graph: Graph
    var indices: map<int, int>
    var lowlinks: map<int, int>
    var stackIndices: map<int, int>
    var currentIndex: int
    var stack: seq<int>
    var sccs: seq<seq<int>>

    function Data(): Tarjan
      reads this
    {
      Tarjan(indices, lowlinks, stackIndices, currentIndex, stack, sccs)
    }

    constructor (unweightedGraph: Graph)
      ensures graph == unweightedGraph
    {
      graph := unweightedGraph;
    }

    method BeginVertex(v: int)
      modifies this
      ensures Data() == Begin(old(Data()), v)
    {
      currentIndex := currentIndex + 1;
      indices := indices[v := currentIndex];
      lowlinks := lowlinks[v := currentIndex];
      stackIndices := stackIndices[v := |stack|];
      stack := stack + [v];
    }

    method PopComponent(v: int)
      requires v in stackIndices && 0 <= stackIndices[v] <= |stack|
      modifies this
      ensures Data() == Pop(old(Data()), old(stackIndices[v]))
    {
      var stackIndex := stackIndices[v];
      var scc := stack[stackIndex..];
      stack := stack[..stackIndex];
      var remaining := stackIndices;
      for k := 0 to |scc|
        invariant remaining == map x | x in stackIndices && x !in scc[..k] :: stackIndices[x]
      {
        assert scc[..k + 1] == scc[..k] + [scc[k]];
        remaining := remaining - {scc[k]};
      }
      assert scc[..|scc|] == scc;
      stackIndices := remaining;
      sccs := sccs + [scc];
    }

    method Visit(vertex: int)
      requires Inv(graph, Data(), []) && 0 <= vertex < |graph| && vertex !in indices
      modifies this
      ensures Inv(graph, Data(), [])
      ensures old(indices.Keys) + {vertex} <= indices.Keys
    {
      var iterStack := [BeginFrame(vertex)];
      ghost var roots: seq<Root> := [];
      while iterStack != []
        invariant Running(graph, Data(), roots, iterStack)
        invariant old(indices.Keys) <= indices.Keys
        invariant vertex in indices || iterStack == [BeginFrame(vertex)]
        decreases Unvisited(graph, Data()), Remaining(graph, stack, roots), Weight(iterStack)
      {
        match iterStack[|iterStack| - 1]
        case BeginFrame(v) => roots, iterStack := DoBegin(roots, iterStack);
        case ContinueFrame(v, i) => roots, iterStack := DoContinue(roots, iterStack);
        case ReturnFrame(v, w, i) => roots, iterStack := DoReturn(roots, iterStack);
      }
    }

    method DoBegin(ghost before: seq<Root>, frames: seq<Frame>)
        returns (ghost roots: seq<Root>, iterStack: seq<Frame>)
      requires Running(graph, Data(), before, frames) && frames != [] && frames[|frames| - 1].BeginFrame?
      modifies this
      ensures Turn(graph, old(Data()), before, frames, Data(), roots, iterStack)
      ensures old(indices.Keys) + {frames[|frames| - 1].v} <= indices.Keys
    {
      hide Inv, Framed, Progress;
      var v := frames[|frames| - 1].v;
      BeginTurn(graph, Data(), before, frames);
      roots := Pushed(Data(), before);
      BeginVertex(v);
      iterStack := Rest(frames) + [ContinueFrame(v, 0)];
    }

    method DoContinue(ghost before: seq<Root>, frames: seq<Frame>)
        returns (ghost roots: seq<Root>, iterStack: seq<Frame>)
      requires Running(graph, Data(), before, frames) && frames != [] && frames[|frames| - 1].ContinueFrame?
      modifies this
      ensures Turn(graph, old(Data()), before, frames, Data(), roots, iterStack)
      ensures indices == old(indices)
    {
      hide Inv, Framed, Progress;
      var ContinueFrame(v, succIndex) := frames[|frames| - 1];
      TopRoot(graph, Data(), before, frames);
      var successors := graph[v];
      if succIndex == |successors| {
        roots, iterStack := Complete(before, frames);
      } else {
        var w := successors[succIndex];
        roots, iterStack := Advance(before, frames, w);
      }
    }

    method Advance(ghost before: seq<Root>, frames: seq<Frame>, w: int)
        returns (ghost roots: seq<Root>, iterStack: seq<Frame>)
      requires Running(graph, Data(), before, frames) && frames != []
      requires var f := frames[|frames| - 1];
        f.ContinueFrame? && 0 <= f.v < |graph| && 0 <= f.i < |graph[f.v]| && graph[f.v][f.i] == w
      requires frames[|frames| - 1].v in lowlinks
      modifies this
      ensures Turn(graph, old(Data()), before, frames, Data(), roots, iterStack)
      ensures indices == old(indices)
    {
      hide Inv, Framed, Progress;
      var ContinueFrame(v, succIndex) := frames[|frames| - 1];
      if w !in indices {
        DescendTurn(graph, Data(), before, frames, w);
        roots := before;
        iterStack := Rest(frames) + [ReturnFrame(v, w, succIndex), BeginFrame(w)];
      } else {
        ghost var low := if w in stackIndices then Min(lowlinks[v], indices[w]) else lowlinks[v];
        VisitedTurn(graph, Data(), before, frames, w, low);
        roots := Bumped(before);
        ghost var t := Data();
        if w in stackIndices {
          lowlinks := lowlinks[v := Min(lowlinks[v], indices[w])];
        }
        assert lowlinks == t.lowlinks[v := low];
        assert Data() == Lower(t, v, low);
        iterStack := Rest(frames) + [ContinueFrame(v, succIndex + 1)];
      }
    }

    method Complete(ghost before: seq<Root>, frames: seq<Frame>)
        returns (ghost roots: seq<Root>, iterStack: seq<Frame>)
      requires Completes(graph, Data(), before, frames)
      modifies this
      ensures Turn(graph, old(Data()), before, frames, Data(), roots, iterStack)
      ensures indices == old(indices)
    {
      hide Inv, Framed, Progress;
      var v := frames[|frames| - 1].v;
      TopRoot(graph, Data(), before, frames);
      iterStack := Rest(frames);
      if lowlinks[v] == indices[v] {
        PopTurn(graph, Data(), before, frames);
        roots := before[..|before| - 1];
        PopComponent(v);
      } else {
        KeepTurn(graph, Data(), before, frames);
        roots := before;
      }
    }

    method DoReturn(ghost before: seq<Root>, frames: seq<Frame>)
        returns (ghost roots: seq<Root>, iterStack: seq<Frame>)
      requires Running(graph, Data(), before, frames) && frames != [] && frames[|frames| - 1].ReturnFrame?
      modifies this
      ensures Turn(graph, old(Data()), before, frames, Data(), roots, iterStack)
      ensures indices == old(indices)
    {
      hide Inv, Framed, Progress;
      var ReturnFrame(v, w, succIndex) := frames[|frames| - 1];
      ReturnRoot(graph, Data(), before, frames);
      ReturnTurn(graph, Data(), before, frames, Min(lowlinks[v], lowlinks[w]));
      roots := Returned(before, |frames|);
      lowlinks := lowlinks[v := Min(lowlinks[v], lowlinks[w])];
      iterStack := Rest(frames) + [ContinueFrame(v, succIndex + 1)];
    }

    /** The components in reverse order of completion. */
    method GetResult() returns (result: seq<seq<int>>)
      requires ValidGraph(graph)
      modifies this
      ensures IsSccOrder(graph, result)
    {
      hide Inv, IsSccOrder;
      indices, lowlinks, stackIndices := map[], map[], map[];
      currentIndex, stack, sccs := 0, [], [];
      StartInv(graph);
      assert Data() == START;
      for i := 0 to |graph|
        invariant Inv(graph, Data(), [])
        invariant forall v :: 0 <= v < i ==> v in indices
      {
        if i !in indices {
          Visit(i);
        }
      }
      ResultIsOrder(graph, Data());
      result := Reversed(sccs);
    }
  }

  lemma StartInv(g: Graph)
    requires ValidGraph(g)
    ensures Inv(g, START, [])
  {
  }

  function Reversed(s: seq<seq<int>>): (r: seq<seq<int>>)
    ensures |r| == |s| && forall i :: 0 <= i < |s| ==> r[i] == s[|s| - 1 - i]
  {
    seq(|s|, i requires 0 <= i < |s| => s[|s| - 1 - i])
  }

  lemma ResultCovers(g: Graph, t: Tarjan, v: int)
    requires StackShape(g, t) && Partition(t) && t.stack == [] && forall v :: 0 <= v < |g| ==> v in t.indices
    ensures 0 <= v < |g| <==> InSccs(Reversed(t.sccs), v)
  {
    var n, r := |t.sccs|, Reversed(t.sccs);
    if 0 <= v < |g| {
      assert v in t.indices && v !in t.stackIndices;
      var a :| 0 <= a < n && v in t.sccs[a];
      assert v in r[n - 1 - a];
    }
    if InSccs(r, v) {
      var a :| 0 <= a < n && v in r[a];
      assert v in t.sccs[n - 1 - a] && v in t.indices;
    }
  }

  lemma ResultIsOrder(g: Graph, t: Tarjan)
    requires Inv(g, t, []) && forall v :: 0 <= v < |g| ==> v in t.indices
    ensures IsSccOrder(g, Reversed(t.sccs))
  {
    var n, r := |t.sccs|, Reversed(t.sccs);
    forall v ensures 0 <= v < |g| <==> InSccs(r, v) {
      ResultCovers(g, t, v);
    }
    forall a, b, x, y | 0 <= a < n && 0 <= b < n && x in r[a] && y in r[b] && IsEdge(g, x, y) ensures a <= b {
      var a', b' := n - 1 - a, n - 1 - b;
      assert x in t.sccs[a'] && y in t.sccs[b'];
      var c :| 0 <= c < |t.sccs[..a' + 1]| && y in t.sccs[..a' + 1][c];
      assert y in t.sccs[c];
    }
  }
}
