/** Graphs as adjacency lists, and reachability along their edges. */
module Reachability {

  type Graph = seq<seq<int>>

  predicate ValidGraph(g: Graph) {
    forall v, k :: 0 <= v < |g| && 0 <= k < |g[v]| ==> 0 <= g[v][k] < |g|
  }

  predicate IsEdge(g: Graph, x: int, y: int) {
    0 <= x < |g| && exists k :: 0 <= k < |g[x]| && g[x][k] == y
  }

  ghost predicate IsPath(g: Graph, path: seq<int>, x: int, y: int) {
    && |path| > 0 && path[0] == x && path[|path| - 1] == y
    && forall i :: 0 <= i < |path| - 1 ==> IsEdge(g, path[i], path[i + 1])
  }

  ghost predicate Reach(g: Graph, x: int, y: int) {
    exists path :: IsPath(g, path, x, y)
  }

  lemma ReachSelf(g: Graph, x: int)
    ensures Reach(g, x, x)
  {
    assert IsPath(g, [x], x, x);
  }

  lemma ReachEdge(g: Graph, x: int, y: int)
    requires IsEdge(g, x, y)
    ensures Reach(g, x, y)
  {
    assert IsPath(g, [x, y], x, y);
  }

  lemma ReachTransitive(g: Graph, x: int, y: int, z: int)
    requires Reach(g, x, y) && Reach(g, y, z)
    ensures Reach(g, x, z)
  {
    var p :| IsPath(g, p, x, y);
    var q :| IsPath(g, q, y, z);
    var path := p + q[1..];
    forall i | 0 <= i < |path| - 1 ensures IsEdge(g, path[i], path[i + 1]) {
      if i >= |p| - 1 {
        assert path[i] == q[i - (|p| - 1)] && path[i + 1] == q[i + 1 - (|p| - 1)];
      }
    }
    assert IsPath(g, path, x, z);
  }

  ghost predicate ClosedUnderEdges(g: Graph, s: iset<int>) {
    forall x, y :: x in s && IsEdge(g, x, y) ==> y in s
  }

  /** Nothing outside a closed set can be reached from inside. */
  lemma ReachStaysIn(g: Graph, s: iset<int>, x: int, y: int)
    requires ClosedUnderEdges(g, s) && x in s && Reach(g, x, y)
    ensures y in s
  {
    var path :| IsPath(g, path, x, y);
    PathStaysIn(g, s, path, x, y, |path| - 1);
  }

  lemma {:induction false} PathStaysIn(g: Graph, s: iset<int>, path: seq<int>, x: int, y: int, i: nat)
    requires ClosedUnderEdges(g, s) && x in s && IsPath(g, path, x, y) && i < |path|
    ensures path[i] in s
  {
    if i > 0 {
      PathStaysIn(g, s, path, x, y, i - 1);
      assert IsEdge(g, path[i - 1], path[i]);
    }
  }
}
