/**
  Tarjan's algorithm (variable_order.py:118-183): the data it keeps, and the
  invariant that makes every popped part of the stack a strongly connected
  component.

  A vertex on the stack is either still open, with a `Root` that counts the
  successors already handled, or completely handled and owned by the last root
  before it.
 */
module TarjanInvariant {
  import opened Reachability

  datatype Tarjan = Tarjan(
    indices: map<int, int>, lowlinks: map<int, int>, stackIndices: map<int, int>,
    currentIndex: int, stack: seq<int>, sccs: seq<seq<int>>)

  datatype Root = Root(pos: int, cnt: int)

  const START := Tarjan(map[], map[], map[], 0, [], [])

  function Min(a: int, b: int): int { if a < b then a else b }

  // ----- The three updates -----

  function Begin(t: Tarjan, v: int): Tarjan {
    var index := t.currentIndex + 1;
    Tarjan(t.indices[v := index], t.lowlinks[v := index], t.stackIndices[v := |t.stack|], index, t.stack + [v], t.sccs)
  }

  function Lower(t: Tarjan, v: int, low: int): Tarjan {
    t.(lowlinks := t.lowlinks[v := low])
  }

  function Pop(t: Tarjan, pos: int): Tarjan
    requires 0 <= pos <= |t.stack|
  {
    var scc := t.stack[pos..];
    t.(stackIndices := map x | x in t.stackIndices && x !in scc :: t.stackIndices[x],
       stack := t.stack[..pos], sccs := t.sccs + [scc])
  }

  // ----- The invariant -----

  predicate InSccs(sccs: seq<seq<int>>, x: int) {
    exists a :: 0 <= a < |sccs| && x in sccs[a]
  }

  /** The dictionaries describe the stack, whose indices ascend. */
  ghost predicate StackShape(g: Graph, t: Tarjan) {
    && (forall p :: 0 <= p < |t.stack| ==>
          0 <= t.stack[p] < |g| && t.stack[p] in t.indices && t.stack[p] in t.lowlinks &&
          t.stack[p] in t.stackIndices && t.stackIndices[t.stack[p]] == p)
    && (forall x :: x in t.stackIndices ==> 0 <= t.stackIndices[x] < |t.stack| && t.stack[t.stackIndices[x]] == x)
    && (forall p, q :: 0 <= p < q < |t.stack| ==> t.indices[t.stack[p]] < t.indices[t.stack[q]])
    && (forall x :: x in t.indices ==> 0 <= x < |g| && t.indices[x] <= t.currentIndex && x in t.lowlinks)
  }

  /** A visited vertex is on the stack or in one place of one component. */
  ghost predicate Partition(t: Tarjan) {
    && (forall x :: x in t.indices ==> x in t.stackIndices || InSccs(t.sccs, x))
    && (forall a, x :: 0 <= a < |t.sccs| && x in t.sccs[a] ==> x in t.indices && x !in t.stackIndices)
    && (forall a, b, x :: 0 <= a < b < |t.sccs| && x in t.sccs[a] ==> x !in t.sccs[b])
    && (forall a, i, j :: 0 <= a < |t.sccs| && 0 <= i < j < |t.sccs[a]| ==> t.sccs[a][i] != t.sccs[a][j])
  }

  ghost predicate IsScc(g: Graph, c: seq<int>) {
    c != [] && forall x, y :: x in c ==> (y in c <==> Reach(g, x, y) && Reach(g, y, x))
  }

  /** The components are strongly connected, and no edge leads to a later one. */
  ghost predicate Finished(g: Graph, sccs: seq<seq<int>>) {
    && (forall a :: 0 <= a < |sccs| ==> IsScc(g, sccs[a]))
    && (forall a, x, y :: 0 <= a < |sccs| && x in sccs[a] && IsEdge(g, x, y) ==> InSccs(sccs[..a + 1], y))
  }

  function Owner(roots: seq<Root>, p: int): Root {
    if roots == [] then Root(-1, 0)
    else if roots[|roots| - 1].pos <= p then roots[|roots| - 1]
    else Owner(roots[..|roots| - 1], p)
  }

  predicate RootFits(g: Graph, t: Tarjan, r: Root) {
    0 <= r.pos < |t.stack| && 0 <= t.stack[r.pos] < |g| && 0 <= r.cnt <= |g[t.stack[r.pos]]|
  }

  ghost predicate RootsOnStack(g: Graph, t: Tarjan, roots: seq<Root>) {
    && (roots == [] <==> t.stack == [])
    && (roots != [] ==> roots[0].pos == 0)
    && (forall i :: 0 <= i < |roots| ==> RootFits(g, t, roots[i]))
    && (forall i, j :: 0 <= i < j < |roots| ==> roots[i].pos < roots[j].pos)
  }

  /** The number of handled successors of the vertex at stack position `p`. */
  function Handled(g: Graph, t: Tarjan, roots: seq<Root>, p: int): int
    requires 0 <= p < |t.stack| && 0 <= t.stack[p] < |g|
  {
    if Owner(roots, p).pos == p then Owner(roots, p).cnt else |g[t.stack[p]]|
  }

  /** Earlier vertices reach later ones, and every vertex reaches its owner. */
  ghost predicate Connected(g: Graph, t: Tarjan, roots: seq<Root>) {
    && (forall p, q :: 0 <= p <= q < |t.stack| ==> Reach(g, t.stack[p], t.stack[q]))
    && (forall p :: 0 <= p < |t.stack| ==>
          0 <= Owner(roots, p).pos <= p && Reach(g, t.stack[p], t.stack[Owner(roots, p).pos]))
  }

  /** `low` is the index of a vertex at or below `pos` that the vertex at `pos` reaches. */
  ghost predicate LowWitness(g: Graph, t: Tarjan, pos: int, low: int) {
    && 0 <= pos < |t.stack| && t.stack[pos] in t.indices && low <= t.indices[t.stack[pos]]
    && exists q :: 0 <= q <= pos && t.stack[q] in t.indices && t.indices[t.stack[q]] == low &&
         Reach(g, t.stack[pos], t.stack[q])
  }

  ghost predicate LowSound(g: Graph, t: Tarjan, roots: seq<Root>) {
    forall i :: 0 <= i < |roots| ==>
      0 <= roots[i].pos < |t.stack| && t.stack[roots[i].pos] in t.lowlinks &&
      LowWitness(g, t, roots[i].pos, t.lowlinks[t.stack[roots[i].pos]])
  }

  /** The lowlink of the owner accounts for successor `k` of the vertex at `p`. */
  ghost predicate Accounted(g: Graph, t: Tarjan, low: int, p: int, k: int)
    requires 0 <= p < |t.stack| && 0 <= t.stack[p] < |g| && 0 <= k < |g[t.stack[p]]|
  {
    var y := g[t.stack[p]][k];
    y in t.indices && (y in t.stackIndices ==> low <= t.indices[y])
  }

  /** The lowlink of the owner of position `p`. */
  function LowAt(t: Tarjan, roots: seq<Root>, p: int): int {
    var o := Owner(roots, p);
    if 0 <= o.pos < |t.stack| && t.stack[o.pos] in t.lowlinks then t.lowlinks[t.stack[o.pos]] else 0
  }

  ghost predicate LowComplete(g: Graph, t: Tarjan, roots: seq<Root>) {
    forall p, k :: 0 <= p < |t.stack| && 0 <= t.stack[p] < |g| &&
                   0 <= k < Handled(g, t, roots, p) && k < |g[t.stack[p]]| ==>
                     Accounted(g, t, LowAt(t, roots, p), p, k)
  }

  ghost predicate Inv(g: Graph, t: Tarjan, roots: seq<Root>) {
    && ValidGraph(g) && StackShape(g, t) && Partition(t) && Finished(g, t.sccs)
    && RootsOnStack(g, t, roots) && Connected(g, t, roots)
    && LowSound(g, t, roots) && LowComplete(g, t, roots)
  }

  // ----- Owners -----

  lemma {:induction false} OwnerIsRoot(g: Graph, t: Tarjan, roots: seq<Root>, p: int)
    requires RootsOnStack(g, t, roots) && 0 <= p < |t.stack|
    ensures Owner(roots, p) in roots && 0 <= Owner(roots, p).pos <= p
    ensures forall i :: 0 <= i < |roots| && roots[i].pos <= p ==> roots[i].pos <= Owner(roots, p).pos
  {
    OwnerFound(roots, p);
  }

  lemma {:induction false} OwnerFound(roots: seq<Root>, p: int)
    requires roots != [] && roots[0].pos == 0 && p >= 0
    requires forall i, j :: 0 <= i < j < |roots| ==> roots[i].pos < roots[j].pos
    ensures Owner(roots, p) in roots && 0 <= Owner(roots, p).pos <= p
    ensures forall i :: 0 <= i < |roots| && roots[i].pos <= p ==> roots[i].pos <= Owner(roots, p).pos
  {
    if roots[|roots| - 1].pos > p {
      var rest := roots[..|roots| - 1];
      OwnerFound(rest, p);
      assert forall i :: 0 <= i < |rest| ==> rest[i] == roots[i];
    }
  }

  lemma OwnerOfAppended(roots: seq<Root>, r: Root, p: int)
    ensures Owner(roots + [r], p) == if r.pos <= p then r else Owner(roots, p)
  {
    assert (roots + [r])[..|roots|] == roots;
  }
}
