/**
  Ordering the variables of a component (variable_order.py:186-249): repeatedly
  pick a vertex of minimal incoming weight, and among several the one that was filed
  first.  The buckets keep outdated entries; they are skipped when they surface.
 */
module MaxDag {
  import opened Wrappers
  import opened SasTasks

  /** The outgoing edges of each vertex, with weights. */
  type WeightedGraph = map<int, seq<(int, int)>>
  type Weights = map<int, int>
  type Buckets = map<int, seq<int>>

  const GOAL_WEIGHT := 100000

  function WeightIn(w: Weights, v: int): int {
    if v in w then w[v] else 0
  }

  function Bucket(b: Buckets, k: int): seq<int> {
    if k in b then b[k] else []
  }

  /** The graph has the vertices of `order`, each listed once; weights are not negative. */
  ghost predicate ValidInput(g: WeightedGraph, order: seq<int>) {
    && (forall i, j :: 0 <= i < j < |order| ==> order[i] != order[j])
    && (forall v :: v in order <==> v in g)
    && (forall v, k :: v in g && 0 <= k < |g[v]| ==> g[v][k].0 in order && g[v][k].1 >= 0)
  }

  // ----- The weights, and how picking a vertex changes them -----

  function AddWeights(w: Weights, es: seq<(int, int)>): Weights {
    if es == [] then w
    else
      var rest, e := AddWeights(w, es[..|es| - 1]), es[|es| - 1];
      rest[e.0 := WeightIn(rest, e.0) + e.1]
  }

  function EdgesOf(g: WeightedGraph, v: int): seq<(int, int)> {
    if v in g then g[v] else []
  }

  function InitialWeights(g: WeightedGraph, order: seq<int>): Weights {
    if order == [] then map[]
    else AddWeights(InitialWeights(g, order[..|order| - 1]), EdgesOf(g, order[|order| - 1]))
  }

  /** The weights after dropping the edges `es` of a vertex picked last; edges to
      picked vertices do not count, and goal edges count without their bonus. */
  function DropEdges(w: Weights, es: seq<(int, int)>, done: set<int>): Weights {
    if es == [] then w
    else
      var rest, e := DropEdges(w, es[..|es| - 1], done), es[|es| - 1];
      if e.0 in done || e.1 % GOAL_WEIGHT == 0 then rest
      else rest[e.0 := WeightIn(rest, e.0) - e.1 % GOAL_WEIGHT]
  }

  function Elements(s: seq<int>): set<int> {
    set v | v in s
  }

  /** The incoming weights once the vertices of `picks` have been picked in order. */
  function WeightsAfter(g: WeightedGraph, order: seq<int>, picks: seq<int>): Weights {
    if picks == [] then InitialWeights(g, order)
    else
      DropEdges(WeightsAfter(g, order, picks[..|picks| - 1]), EdgesOf(g, picks[|picks| - 1]), Elements(picks))
  }

  // ----- The order in which vertices are filed -----

  /** The vertices with their weights, in input order. */
  function InitialLog(order: seq<int>, w: Weights): (log: seq<(int, int)>)
    ensures |log| == |order| && forall i :: 0 <= i < |log| ==> log[i] == (WeightIn(w, order[i]), order[i])
  {
    seq(|order|, i requires 0 <= i < |order| => (WeightIn(w, order[i]), order[i]))
  }

  /** What dropping the edges files: each lowered vertex at its new weight. */
  function DropLog(w: Weights, es: seq<(int, int)>, done: set<int>): seq<(int, int)> {
    if es == [] then []
    else
      var rest, e := DropLog(w, es[..|es| - 1], done), es[|es| - 1];
      if e.0 in done || e.1 % GOAL_WEIGHT == 0 then rest
      else rest + [(WeightIn(DropEdges(w, es[..|es| - 1], done), e.0) - e.1 % GOAL_WEIGHT, e.0)]
  }

  /** Everything filed until the vertices of `picks` have been picked. */
  function LogAfter(g: WeightedGraph, order: seq<int>, picks: seq<int>): seq<(int, int)> {
    if picks == [] then InitialLog(order, InitialWeights(g, order))
    else
      var rest, v := picks[..|picks| - 1], picks[|picks| - 1];
      LogAfter(g, order, rest) + DropLog(WeightsAfter(g, order, rest), EdgesOf(g, v), Elements(picks))
  }

  /** The vertices filed at weight `k`, in order. */
  function Column(log: seq<(int, int)>, k: int): seq<int> {
    if log == [] then []
    else Column(log[..|log| - 1], k) + if log[|log| - 1].0 == k then [log[|log| - 1].1] else []
  }

  /** An entry at weight `k` that no longer counts. */
  predicate Dead(w: Weights, done: set<int>, k: int, v: int) {
    v in done || WeightIn(w, v) < k
  }

  /** `v` was filed at weight `k` before all others that still count there. */
  ghost predicate FirstFiled(log: seq<(int, int)>, w: Weights, done: set<int>, k: int, v: int) {
    exists i :: 0 <= i < |Column(log, k)| && Column(log, k)[i] == v &&
      forall j :: 0 <= j < i ==> Dead(w, done, k, Column(log, k)[j])
  }

  ghost predicate CanPick(g: WeightedGraph, order: seq<int>, picks: seq<int>, v: int) {
    var w := WeightsAfter(g, order, picks);
    && v in order && v !in picks && (forall u :: u in order && u !in picks ==> WeightIn(w, v) <= WeightIn(w, u))
    && FirstFiled(LogAfter(g, order, picks), w, Elements(picks), WeightIn(w, v), v)
  }

  /** Every vertex was picked with minimal weight among those not yet picked, and was filed
      first among those of that weight. */
  ghost predicate IsGreedy(g: WeightedGraph, order: seq<int>, picks: seq<int>) {
    forall i :: 0 <= i < |picks| ==> CanPick(g, order, picks[..i], picks[i])
  }

  // ----- What the weights mean -----

  function SumTo(es: seq<(int, int)>, v: int): int {
    if es == [] then 0
    else SumTo(es[..|es| - 1], v) + if es[|es| - 1].0 == v then es[|es| - 1].1 else 0
  }

  function ReducedSumTo(es: seq<(int, int)>, v: int): int {
    if es == [] then 0
    else ReducedSumTo(es[..|es| - 1], v) + if es[|es| - 1].0 == v then es[|es| - 1].1 % 100000 else 0
  }

  /** The weights of all edges to `v`. */
  function TotalTo(g: WeightedGraph, vs: seq<int>, v: int): int {
    if vs == [] then 0 else TotalTo(g, vs[..|vs| - 1], v) + SumTo(EdgesOf(g, vs[|vs| - 1]), v)
  }

  /** The weights, without goal bonus, of the edges to `v` from the vertices `vs`. */
  function ReducedTotalTo(g: WeightedGraph, vs: seq<int>, v: int): int {
    if vs == [] then 0 else ReducedTotalTo(g, vs[..|vs| - 1], v) + ReducedSumTo(EdgesOf(g, vs[|vs| - 1]), v)
  }

  lemma {:induction false} AddedWeight(w: Weights, es: seq<(int, int)>, v: int)
    ensures WeightIn(AddWeights(w, es), v) == WeightIn(w, v) + SumTo(es, v)
  {
    if es != [] { AddedWeight(w, es[..|es| - 1], v); }
  }

  lemma {:induction false} InitialWeight(g: WeightedGraph, order: seq<int>, v: int)
    ensures WeightIn(InitialWeights(g, order), v) == TotalTo(g, order, v)
  {
    if order != [] {
      var rest := order[..|order| - 1];
      InitialWeight(g, rest, v);
      AddedWeight(InitialWeights(g, rest), EdgesOf(g, order[|order| - 1]), v);
    }
  }

  lemma {:induction false} DroppedWeight(w: Weights, es: seq<(int, int)>, done: set<int>, v: int)
    requires v !in done
    ensures WeightIn(DropEdges(w, es, done), v) == WeightIn(w, v) - ReducedSumTo(es, v)
  {
    if es != [] { DroppedWeight(w, es[..|es| - 1], done, v); }
  }

  /** The current weight of an open vertex: what all edges bring in, minus what the
      edges from picked vertices brought in apart from goal bonuses. */
  lemma {:induction false} CurrentWeight(g: WeightedGraph, order: seq<int>, picks: seq<int>, v: int)
    requires v !in picks
    ensures WeightIn(WeightsAfter(g, order, picks), v) == TotalTo(g, order, v) - ReducedTotalTo(g, picks, v)
  {
    if picks == [] {
      InitialWeight(g, order, v);
    } else {
      var rest, u := picks[..|picks| - 1], picks[|picks| - 1];
      assert picks == rest + [u];
      CurrentWeight(g, order, rest, v);
      DroppedWeight(WeightsAfter(g, order, rest), EdgesOf(g, u), Elements(picks), v);
    }
  }

  // ----- Ties -----

  /** The vertex at `i` is the first of weight `k` in the input order. */
  predicate FirstOfWeight(order: seq<int>, w: Weights, k: int, i: nat) {
    i < |order| && WeightIn(w, order[i]) == k && forall j :: 0 <= j < i ==> WeightIn(w, order[j]) != k
  }

  /** The vertex at `i` has less incoming weight than every vertex before it. */
  predicate LightestOfFirst(g: WeightedGraph, order: seq<int>, i: nat) {
    i < |order| && forall j :: 0 <= j < i ==> TotalTo(g, order, order[j]) > TotalTo(g, order, order[i])
  }

  /** The first vertex filed at weight `k` at the start is the first in the input order. */
  lemma {:induction false} FirstOfColumn(order: seq<int>, w: Weights, k: int)
    requires Column(InitialLog(order, w), k) != []
    ensures exists i: nat :: FirstOfWeight(order, w, k, i) && order[i] == Column(InitialLog(order, w), k)[0]
  {
    if order != [] {
      var front, v := order[..|order| - 1], order[|order| - 1];
      assert InitialLog(order, w)[..|order| - 1] == InitialLog(front, w);
      if Column(InitialLog(front, w), k) != [] {
        FirstOfColumn(front, w, k);
        var i: nat :| FirstOfWeight(front, w, k, i) && front[i] == Column(InitialLog(front, w), k)[0];
        assert order[i] == front[i] && forall j :: 0 <= j < i ==> order[j] == front[j];
        assert FirstOfWeight(order, w, k, i);
      } else {
        NoneInColumn(front, w, k);
        assert forall j :: 0 <= j < |front| ==> order[j] == front[j];
        assert FirstOfWeight(order, w, k, |front|);
      }
    }
  }

  lemma {:induction false} NoneInColumn(order: seq<int>, w: Weights, k: int)
    requires Column(InitialLog(order, w), k) == []
    ensures forall j :: 0 <= j < |order| ==> WeightIn(w, order[j]) != k
  {
    if order != [] {
      assert InitialLog(order, w)[..|order| - 1] == InitialLog(order[..|order| - 1], w);
      NoneInColumn(order[..|order| - 1], w, k);
    }
  }

  lemma {:induction false} ColumnWeights(order: seq<int>, w: Weights, k: int, p: nat)
    requires p < |Column(InitialLog(order, w), k)|
    ensures WeightIn(w, Column(InitialLog(order, w), k)[p]) == k
  {
    if order != [] {
      assert InitialLog(order, w)[..|order| - 1] == InitialLog(order[..|order| - 1], w);
      if p < |Column(InitialLog(order[..|order| - 1], w), k)| { ColumnWeights(order[..|order| - 1], w, k, p); }
    }
  }

  /** Among the vertices of minimal weight the input order decides who is picked first. */
  lemma InputBreaksTies(g: WeightedGraph, order: seq<int>, picks: seq<int>)
    requires IsGreedy(g, order, picks) && picks != []
    ensures exists i: nat :: LightestOfFirst(g, order, i) && picks[0] == order[i]
    ensures forall u :: u in order ==> TotalTo(g, order, picks[0]) <= TotalTo(g, order, u)
  {
    hide InitialWeights, TotalTo;
    var w, v := InitialWeights(g, order), picks[0];
    assert picks[..0] == [];
    assert CanPick(g, order, picks[..0], picks[0]);
    var k := WeightIn(w, v);
    var c := Column(InitialLog(order, w), k);
    assert FirstFiled(InitialLog(order, w), w, {}, k, v);
    var p :| 0 <= p < |c| && c[p] == v && forall j :: 0 <= j < p ==> Dead(w, {}, k, c[j]);
    if p > 0 { ColumnWeights(order, w, k, 0); }
    FirstOfColumn(order, w, k);
    var i: nat :| FirstOfWeight(order, w, k, i) && order[i] == c[0];
    InitialWeight(g, order, order[i]);
    forall u | u in order ensures TotalTo(g, order, u) == WeightIn(w, u) >= k { InitialWeight(g, order, u); }
    assert forall j :: 0 <= j < i ==> order[j] in order;
    assert LightestOfFirst(g, order, i);
  }

  // ----- The buckets -----

  /** Every open vertex has an entry at its current weight, and outdated entries
      are at higher weights. */
  ghost predicate Covers(order: seq<int>, done: set<int>, w: Weights, b: Buckets) {
    && (forall v :: v in order && v !in done ==> v in Bucket(b, WeightIn(w, v)))
    && (forall k, i :: k in b && 0 <= i < |b[k]| ==>
          b[k][i] in order && (b[k][i] !in done ==> WeightIn(w, b[k][i]) <= k))
  }

  ghost predicate NoEmptyBucket(b: Buckets) {
    forall k :: k in b ==> b[k] != []
  }

  /** The entries of all buckets, for termination. */
  ghost predicate Counts(b: Buckets, entries: multiset<(int, int)>) {
    forall k, v :: entries[(k, v)] == multiset(Bucket(b, k))[v]
  }

  lemma CountsPush(b: Buckets, entries: multiset<(int, int)>, k: int, v: int)
    requires Counts(b, entries)
    ensures Counts(b[k := Bucket(b, k) + [v]], entries + multiset{(k, v)})
  {
    var old', new' := Bucket(b, k), Bucket(b, k) + [v];
    assert multiset(new') == multiset(old') + multiset{v};
    forall l, u ensures (entries + multiset{(k, v)})[(l, u)] == multiset(Bucket(b[k := new'], l))[u] {
      assert entries[(l, u)] == multiset(Bucket(b, l))[u];
      if l == k { assert Bucket(b[k := new'], l) == new'; } else { assert (l, u) != (k, v); }
    }
  }

  lemma CountsPop(b: Buckets, entries: multiset<(int, int)>, k: int)
    requires Counts(b, entries) && Bucket(b, k) != []
    ensures Counts(b[k := b[k][1..]], entries - multiset{(k, b[k][0])})
    ensures |entries - multiset{(k, b[k][0])}| < |entries|
  {
    var v, rest := b[k][0], b[k][1..];
    assert b[k] == [v] + rest;
    assert multiset(b[k]) == multiset{v} + multiset(rest);
    forall l, u ensures (entries - multiset{(k, v)})[(l, u)] == multiset(Bucket(b[k := rest], l))[u] {
      assert entries[(l, u)] == multiset(Bucket(b, l))[u];
      if l == k { assert Bucket(b[k := rest], l) == rest; } else { assert (l, u) != (k, v); }
    }
    assert entries[(k, v)] > 0;
  }

  lemma CountsDrop(b: Buckets, entries: multiset<(int, int)>, k: int)
    requires Counts(b, entries) && Bucket(b, k) == []
    ensures Counts(b - {k}, entries)
  {
    forall l, u ensures entries[(l, u)] == multiset(Bucket(b - {k}, l))[u] {
      assert entries[(l, u)] == multiset(Bucket(b, l))[u];
    }
  }

  // ----- Steps of the queue -----

  ghost predicate IsMin(heap: set<int>, k: int) {
    k in heap && forall l :: l in heap ==> k <= l
  }

  /** No open vertex weighs less than `k`. */
  ghost predicate NoneBelow(order: seq<int>, done: set<int>, w: Weights, k: int) {
    forall u :: u in order && u !in done ==> k <= WeightIn(w, u)
  }

  lemma LowestBucket(order: seq<int>, done: set<int>, w: Weights, b: Buckets, k: int)
    requires Covers(order, done, w, b) && IsMin(b.Keys, k)
    ensures NoneBelow(order, done, w, k)
  {
    forall u | u in order && u !in done ensures k <= WeightIn(w, u) {
      assert u in Bucket(b, WeightIn(w, u));
      assert WeightIn(w, u) in b.Keys;
    }
  }

  /** Taking the first entry `e` of bucket `k` uncovers at most `e` itself. */
  lemma PopCovers(order: seq<int>, done: set<int>, w: Weights, b: Buckets, k: int)
    requires Covers(order, done, w, b) && Bucket(b, k) != []
    ensures Covers(order, done + {b[k][0]}, w, b[k := b[k][1..]])
  {
    var e, b' := b[k][0], b[k := b[k][1..]];
    forall v | v in order && v !in done + {e} ensures v in Bucket(b', WeightIn(w, v)) {
      assert v in Bucket(b, WeightIn(w, v));
      if WeightIn(w, v) == k {
        assert b[k] == [e] + b[k][1..];
      }
    }
    forall l, i | l in b' && 0 <= i < |b'[l]|
      ensures b'[l][i] in order && (b'[l][i] !in done + {e} ==> WeightIn(w, b'[l][i]) <= l)
    {
      if l == k { assert b'[l][i] == b[k][i + 1]; }
    }
  }

  /** An open entry of the lowest bucket is up to date. */
  lemma FirstEntry(order: seq<int>, done: set<int>, w: Weights, b: Buckets, k: int)
    requires Covers(order, done, w, b) && Bucket(b, k) != [] && NoneBelow(order, done, w, k)
    ensures b[k][0] in order
    ensures b[k][0] !in done ==> WeightIn(w, b[k][0]) == k
  {
  }

  lemma AllDone(order: seq<int>, done: set<int>, w: Weights, v: int)
    requires Covers(order, done, w, map[]) && v in order
    ensures v in done
  {
    assert v !in Bucket(map[], WeightIn(w, v));
  }

  lemma DropBucketCovers(order: seq<int>, done: set<int>, w: Weights, b: Buckets, k: int)
    requires Covers(order, done, w, b) && Bucket(b, k) == []
    ensures Covers(order, done, w, b - {k})
  {
    forall v | v in order && v !in done ensures v in Bucket(b - {k}, WeightIn(w, v)) {
      assert v in Bucket(b, WeightIn(w, v));
    }
  }

  /** Lowering the weight of `t` to `n` with a new entry keeps the buckets in order. */
  lemma LowerCovers(order: seq<int>, done: set<int>, w: Weights, b: Buckets, t: int, n: int)
    requires Covers(order, done, w, b) && t in order && n <= WeightIn(w, t)
    ensures Covers(order, done, w[t := n], b[n := Bucket(b, n) + [t]])
  {
    var w', b' := w[t := n], b[n := Bucket(b, n) + [t]];
    forall v | v in order && v !in done ensures v in Bucket(b', WeightIn(w', v)) {
      if v != t {
        assert v in Bucket(b, WeightIn(w, v));
      } else {
        var bucket := Bucket(b, n) + [t];
        assert bucket[|bucket| - 1] == t;
      }
    }
    forall l, i | l in b' && 0 <= i < |b'[l]|
      ensures b'[l][i] in order && (b'[l][i] !in done ==> WeightIn(w', b'[l][i]) <= l)
    {
      if l == n && i == |Bucket(b, n)| {
        assert b'[l][i] == t;
      } else {
        assert l in b && b'[l][i] == b[l][i];
      }
    }
  }

  // ----- Buckets as queues -----

  /** Bucket `k` holds what was filed at `k`, in order, except for dead entries at the front. */
  ghost predicate BucketFollows(b: Buckets, log: seq<(int, int)>, w: Weights, done: set<int>, k: int) {
    var c, q := Column(log, k), Bucket(b, k);
    |q| <= |c| && q == c[|c| - |q|..] && forall j :: 0 <= j < |c| - |q| ==> Dead(w, done, k, c[j])
  }

  ghost predicate Follows(b: Buckets, log: seq<(int, int)>, w: Weights, done: set<int>) {
    forall k :: BucketFollows(b, log, w, done, k)
  }

  lemma ColumnPush(log: seq<(int, int)>, k: int, v: int, l: int)
    ensures Column(log + [(k, v)], l) == Column(log, l) + if l == k then [v] else []
  {
    assert (log + [(k, v)])[..|log|] == log;
  }

  /** Filing `v` at `k`, when weights have not grown. */
  lemma FollowsPush(b: Buckets, log: seq<(int, int)>, w: Weights, done: set<int>, k: int, v: int, w': Weights)
    requires Follows(b, log, w, done) && forall u :: WeightIn(w', u) <= WeightIn(w, u)
    ensures Follows(b[k := Bucket(b, k) + [v]], log + [(k, v)], w', done)
  {
    hide Column, WeightIn;
    var b' := b[k := Bucket(b, k) + [v]];
    forall l ensures BucketFollows(b', log + [(k, v)], w', done, l) {
      ColumnPush(log, k, v, l);
      assert BucketFollows(b, log, w, done, l);
      assert Bucket(b', l) == Bucket(b, l) + if l == k then [v] else [];
    }
  }

  /** Taking the first entry of a bucket. */
  lemma FollowsPop(b: Buckets, log: seq<(int, int)>, w: Weights, done: set<int>, k: int)
    requires Follows(b, log, w, done) && Bucket(b, k) != []
    ensures Follows(b[k := b[k][1..]], log, w, done + {b[k][0]})
  {
    hide Column, WeightIn;
    var b' := b[k := b[k][1..]];
    var c, i := Column(log, k), |Column(log, k)| - |b[k]|;
    assert BucketFollows(b, log, w, done, k);
    forall l ensures BucketFollows(b', log, w, done + {b[k][0]}, l) {
      assert BucketFollows(b, log, w, done, l);
      if l == k { assert c[i..][1..] == c[i + 1..]; }
    }
  }

  /** The first entry of a bucket is the first one filed that still counts. */
  lemma FrontIsFirst(b: Buckets, log: seq<(int, int)>, w: Weights, done: set<int>, k: int)
    requires Follows(b, log, w, done) && Bucket(b, k) != []
    ensures FirstFiled(log, w, done, k, b[k][0])
  {
    hide Column, WeightIn;
    var c, i := Column(log, k), |Column(log, k)| - |b[k]|;
    assert BucketFollows(b, log, w, done, k);
    assert c[i] == b[k][0];
  }

  lemma FollowsDrop(b: Buckets, log: seq<(int, int)>, w: Weights, done: set<int>, k: int)
    requires Follows(b, log, w, done) && Bucket(b, k) == []
    ensures Follows(b - {k}, log, w, done)
  {
    hide Column;
    forall l ensures BucketFollows(b - {k}, log, w, done, l) {
      assert BucketFollows(b, log, w, done, l);
      assert Bucket(b - {k}, l) == Bucket(b, l);
    }
  }

  // ----- The algorithm -----

  method InitWeights(g: WeightedGraph, order: seq<int>) returns (w: Weights)
    ensures w == InitialWeights(g, order)
  {
    w := map[];
    for i := 0 to |order|
      invariant w == InitialWeights(g, order[..i])
    {
      assert order[..i + 1][..i] == order[..i];
      var es := EdgesOf(g, order[i]);
      ghost var before := w;
      for j := 0 to |es|
        invariant w == AddWeights(before, es[..j])
      {
        assert es[..j + 1][..j] == es[..j];
        w := w[es[j].0 := WeightIn(w, es[j].0) + es[j].1];
      }
      assert es[..|es|] == es;
    }
    assert order[..|order|] == order;
  }

  method InitBuckets(order: seq<int>, w: Weights) returns (b: Buckets, ghost entries: multiset<(int, int)>)
    ensures Covers(order, {}, w, b) && NoEmptyBucket(b) && Counts(b, entries) && Follows(b, InitialLog(order, w), w, {})
  {
    b, entries := map[], multiset{};
    hide Covers, Counts, Follows;
    assert Follows(b, InitialLog(order[..0], w), w, {}) by { EmptyFollows(w); }
    assert Covers(order[..0], {}, w, b) by { EmptyCovers(w); }
    assert Counts(b, entries) by { EmptyCounts(); }
    for i := 0 to |order|
      invariant Covers(order[..i], {}, w, b) && NoEmptyBucket(b) && Counts(b, entries)
      invariant Follows(b, InitialLog(order[..i], w), w, {})
    {
      var node := order[i];
      CountsPush(b, entries, WeightIn(w, node), node);
      InitCovers(order, i, w, b);
      FollowsPush(b, InitialLog(order[..i], w), w, {}, WeightIn(w, node), node, w);
      assert InitialLog(order[..i + 1], w) == InitialLog(order[..i], w) + [(WeightIn(w, node), node)];
      b := b[WeightIn(w, node) := Bucket(b, WeightIn(w, node)) + [node]];
      entries := entries + multiset{(WeightIn(w, node), node)};
    }
    assert order[..|order|] == order;
  }

  lemma EmptyCovers(w: Weights)
    ensures Covers([], {}, w, map[])
  {
  }

  lemma EmptyFollows(w: Weights)
    ensures Follows(map[], InitialLog([], w), w, {})
  {
  }

  lemma EmptyCounts()
    ensures Counts(map[], multiset{})
  {
  }

  lemma InitCovers(order: seq<int>, i: nat, w: Weights, b: Buckets)
    requires i < |order| && Covers(order[..i], {}, w, b)
    ensures var k := WeightIn(w, order[i]); Covers(order[..i + 1], {}, w, b[k := Bucket(b, k) + [order[i]]])
  {
    var t := order[i];
    var k := WeightIn(w, t);
    var b' := b[k := Bucket(b, k) + [t]];
    var more := order[..i + 1];
    assert more == order[..i] + [t];
    forall v | v in more ensures v in Bucket(b', WeightIn(w, v)) {
      if v in order[..i] {
        assert v in Bucket(b, WeightIn(w, v));
      } else {
        assert v == t;
        var bucket := Bucket(b, k) + [t];
        assert bucket[|bucket| - 1] == t;
      }
    }
    forall l, j | l in b' && 0 <= j < |b'[l]| ensures b'[l][j] in more && WeightIn(w, b'[l][j]) <= l {
      if l == k && j == |Bucket(b, k)| {
        assert b'[l][j] == t && more[i] == t;
      } else {
        assert l in b && b'[l][j] == b[l][j];
      }
    }
  }

  /** Take entries from the lowest bucket until one is open, or the bucket is empty. */
  method TakeEntry(order: seq<int>, done: set<int>, w: Weights, b0: Buckets, minKey: int,
      ghost entries0: multiset<(int, int)>, ghost log: seq<(int, int)>)
      returns (e: int, b: Buckets, ghost entries: multiset<(int, int)>)
    requires Covers(order, done, w, b0) && NoEmptyBucket(b0) && Counts(b0, entries0)
    requires IsMin(b0.Keys, minKey) && Follows(b0, log, w, done)
    ensures Follows(b, log, w, done + {e}) && (e !in done ==> FirstFiled(log, w, done, minKey, e))
    ensures Covers(order, done + {e}, w, b) && Counts(b, entries) && |entries| < |entries0|
    ensures b.Keys == b0.Keys && forall k :: k in b && k != minKey ==> b[k] != []
    ensures e in order && (e in done ==> b[minKey] == [])
    ensures e !in done ==> WeightIn(w, e) == minKey
    ensures NoneBelow(order, done, w, minKey)
  {
    hide Covers, Counts, NoneBelow, WeightIn, Follows, FirstFiled;
    LowestBucket(order, done, w, b0, minKey);
    b, entries := b0, entries0;
    var minElem: Option<int> := None;
    while b[minKey] != [] && (minElem.None? || minElem.value in done || minKey > WeightIn(w, minElem.value))
      invariant b.Keys == b0.Keys && forall k :: k in b && k != minKey ==> b[k] != []
      invariant Counts(b, entries) && |entries| + (if minElem.Some? then 1 else 0) <= |entries0|
      invariant minElem.None? ==> b == b0
      invariant Covers(order, if minElem.Some? then done + {minElem.value} else done, w, b)
      invariant Follows(b, log, w, if minElem.Some? then done + {minElem.value} else done)
      invariant minElem.Some? && minElem.value !in done ==> FirstFiled(log, w, done, minKey, minElem.value)
      invariant minElem.Some? ==> minElem.value in order
      invariant minElem.Some? && minElem.value !in done ==> WeightIn(w, minElem.value) == minKey
      decreases |b[minKey]|
    {
      var first := b[minKey][0];
      assert minElem.Some? ==> done + {minElem.value} == done;
      FirstEntry(order, if minElem.Some? then done + {minElem.value} else done, w, b, minKey);
      CountsPop(b, entries, minKey);
      PopCovers(order, done, w, b, minKey);
      FollowsPop(b, log, w, done, minKey);
      FrontIsFirst(b, log, w, done, minKey);
      entries := entries - multiset{(minKey, first)};
      b := b[minKey := b[minKey][1..]];
      minElem := Some(first);
    }
    e := minElem.value;
  }

  lemma NothingDropped(log: seq<(int, int)>, w: Weights, es: seq<(int, int)>, done: set<int>)
    ensures log + DropLog(w, es[..0], done) == log
  {
  }

  lemma DropLogSame(w: Weights, es: seq<(int, int)>, j: nat, done: set<int>)
    requires j < |es| && (es[j].0 in done || es[j].1 % GOAL_WEIGHT == 0)
    ensures DropLog(w, es[..j + 1], done) == DropLog(w, es[..j], done)
  {
    assert es[..j + 1][..j] == es[..j];
  }

  lemma DropLogStep(log: seq<(int, int)>, w: Weights, es: seq<(int, int)>, j: nat, done: set<int>)
    requires j < |es| && es[j].0 !in done && es[j].1 % GOAL_WEIGHT != 0
    ensures log + DropLog(w, es[..j + 1], done) == log + DropLog(w, es[..j], done) +
      [(WeightIn(DropEdges(w, es[..j], done), es[j].0) - es[j].1 % GOAL_WEIGHT, es[j].0)]
  {
    assert es[..j + 1][..j] == es[..j];
  }

  /** Drop the edges of a picked vertex: lower the weights of its open successors. */
  method Relax(order: seq<int>, done: set<int>, es: seq<(int, int)>, w0: Weights, b0: Buckets, heap0: set<int>,
               ghost entries0: multiset<(int, int)>, ghost log: seq<(int, int)>)
      returns (w: Weights, b: Buckets, heap: set<int>, ghost entries: multiset<(int, int)>)
    requires Covers(order, done, w0, b0) && NoEmptyBucket(b0) && Counts(b0, entries0) && heap0 == b0.Keys
    requires (forall k :: 0 <= k < |es| ==> es[k].0 in order && es[k].1 >= 0) && Follows(b0, log, w0, done)
    ensures Covers(order, done, w, b) && NoEmptyBucket(b) && Counts(b, entries) && heap == b.Keys
    ensures w == DropEdges(w0, es, done) && Follows(b, log + DropLog(w0, es, done), w, done)
  {
    hide Covers, Counts, Follows, DropLog;
    NothingDropped(log, w0, es, done);
    w, b, heap, entries := w0, b0, heap0, entries0;
    for j := 0 to |es|
      invariant Covers(order, done, w, b) && NoEmptyBucket(b) && Counts(b, entries) && heap == b.Keys
      invariant w == DropEdges(w0, es[..j], done) && Follows(b, log + DropLog(w0, es[..j], done), w, done)
    {
      assert es[..j + 1][..j] == es[..j];
      var (target, weight) := es[j];
      if target in done { DropLogSame(w0, es, j, done); }
      if target !in done {
        var reduced := weight % GOAL_WEIGHT;
        if reduced == 0 { DropLogSame(w0, es, j, done); }
        if reduced != 0 {
          var newInWeight := WeightIn(w, target) - reduced;
          LowerCovers(order, done, w, b, target, newInWeight);
          CountsPush(b, entries, newInWeight, target);
          FollowsPush(b, log + DropLog(w0, es[..j], done), w, done, newInWeight, target, w[target := newInWeight]);
          DropLogStep(log, w0, es, j, done);
          w := w[target := newInWeight];
          if newInWeight !in b {
            heap := heap + {newInWeight};
          }
          b := b[newInWeight := Bucket(b, newInWeight) + [target]];
          entries := entries + multiset{(newInWeight, target)};
        }
      }
    }
    assert es[..|es|] == es;
  }

  lemma GreedyStep(g: WeightedGraph, order: seq<int>, result: seq<int>, v: int)
    requires IsGreedy(g, order, result) && v in order && v !in result
    requires NoneBelow(order, Elements(result), WeightsAfter(g, order, result), WeightIn(WeightsAfter(g, order, result), v))
    requires var w := WeightsAfter(g, order, result);
      FirstFiled(LogAfter(g, order, result), w, Elements(result), WeightIn(w, v), v)
    ensures IsGreedy(g, order, result + [v])
    ensures Elements(result + [v]) == Elements(result) + {v}
    ensures WeightsAfter(g, order, result + [v]) ==
      DropEdges(WeightsAfter(g, order, result), EdgesOf(g, v), Elements(result) + {v})
    ensures LogAfter(g, order, result + [v]) ==
      LogAfter(g, order, result) + DropLog(WeightsAfter(g, order, result), EdgesOf(g, v), Elements(result) + {v})
  {
    hide FirstFiled;
    WeightsStep(g, order, result, v);
    assert CanPick(g, order, result, v);
    GreedyGrows(g, order, result, v);
  }

  lemma GreedyGrows(g: WeightedGraph, order: seq<int>, result: seq<int>, v: int)
    requires IsGreedy(g, order, result) && CanPick(g, order, result, v)
    ensures IsGreedy(g, order, result + [v])
  {
    hide CanPick;
    var more := result + [v];
    forall i | 0 <= i < |more| ensures CanPick(g, order, more[..i], more[i]) {
      assert more[..i] == result[..i];
      assert result[..|result|] == result;
    }
  }

  lemma WeightsStep(g: WeightedGraph, order: seq<int>, result: seq<int>, v: int)
    ensures Elements(result + [v]) == Elements(result) + {v}
    ensures WeightsAfter(g, order, result + [v]) ==
      DropEdges(WeightsAfter(g, order, result), EdgesOf(g, v), Elements(result) + {v})
    ensures LogAfter(g, order, result + [v]) ==
      LogAfter(g, order, result) + DropLog(WeightsAfter(g, order, result), EdgesOf(g, v), Elements(result) + {v})
  {
    hide DropEdges, DropLog;
    assert (result + [v])[..|result|] == result;
  }

  lemma Fewer(order: seq<int>, done: set<int>, e: int)
    requires e in order && e !in done
    ensures |Elements(order) - (done + {e})| < |Elements(order) - done|
  {
    assert e in Elements(order);
    assert Elements(order) - (done + {e}) == (Elements(order) - done) - {e};
  }

  /** The state of the main loop. */
  datatype Loop = Loop(done: set<int>, result: seq<int>, w: Weights, b: Buckets, heap: set<int>)

  ghost predicate LoopOk(g: WeightedGraph, order: seq<int>, l: Loop) {
    && Covers(order, l.done, l.w, l.b) && NoEmptyBucket(l.b) && l.heap == l.b.Keys
    && l.done == Elements(l.result) && l.w == WeightsAfter(g, order, l.result)
    && Follows(l.b, LogAfter(g, order, l.result), l.w, l.done)
    && IsGreedy(g, order, l.result) && (forall v :: v in l.result ==> v in order)
    && (forall i, j :: 0 <= i < j < |l.result| ==> l.result[i] != l.result[j])
  }

  lemma Picked(g: WeightedGraph, order: seq<int>, l: Loop, e: int, b: Buckets, heap: set<int>, minKey: int, m: Loop)
    requires ValidInput(g, order) && LoopOk(g, order, l) && e in order && e !in l.done
    requires WeightIn(l.w, e) == minKey && NoneBelow(order, l.done, l.w, minKey)
    requires FirstFiled(LogAfter(g, order, l.result), l.w, l.done, minKey, e)
    requires Follows(m.b, LogAfter(g, order, l.result) + DropLog(l.w, EdgesOf(g, e), m.done), m.w, m.done)
    requires m.done == l.done + {e} && m.result == l.result + [e] && m.w == DropEdges(l.w, EdgesOf(g, e), m.done)
    requires Covers(order, m.done, m.w, m.b) && NoEmptyBucket(m.b) && m.heap == m.b.Keys
    ensures LoopOk(g, order, m)
  {
    hide Covers, IsGreedy, WeightsAfter, NoneBelow, ValidInput, Follows, FirstFiled, LogAfter, DropLog;
    GreedyStep(g, order, l.result, e);
  }

  method PickNext(g: WeightedGraph, order: seq<int>, l: Loop, ghost entries0: multiset<(int, int)>)
      returns (m: Loop, ghost entries: multiset<(int, int)>)
    requires ValidInput(g, order) && LoopOk(g, order, l) && Counts(l.b, entries0) && l.heap != {}
    ensures LoopOk(g, order, m) && Counts(m.b, entries)
    ensures |Elements(order) - m.done| < |Elements(order) - l.done| || (m.done == l.done && |entries| < |entries0|)
  {
    hide Covers, Counts, IsGreedy, NoneBelow, WeightsAfter, DropEdges, WeightIn, CanPick, Follows, FirstFiled, LogAfter,
      DropLog;
    ghost var log := LogAfter(g, order, l.result);
    var minKey := Least(l.heap);
    assert IsMin(l.heap, minKey);
    var e, b, entries1 := TakeEntry(order, l.done, l.w, l.b, minKey, entries0, log);
    var heap := l.heap;
    entries := entries1;
    if b[minKey] == [] {
      CountsDrop(b, entries, minKey);
      DropBucketCovers(order, l.done + {e}, l.w, b, minKey);
      FollowsDrop(b, log, l.w, l.done + {e}, minKey);
      b := b - {minKey};
      heap := heap - {minKey};
    }
    if e in l.done {
      assert l.done + {e} == l.done;
      m := Loop(l.done, l.result, l.w, b, heap);
    } else {
      Fewer(order, l.done, e);
      var w, b', heap', entries2 := Relax(order, l.done + {e}, EdgesOf(g, e), l.w, b, heap, entries, log);
      entries := entries2;
      m := Loop(l.done + {e}, l.result + [e], w, b', heap');
      Picked(g, order, l, e, b, heap, minKey, m);
    }
  }

  /** The order is a permutation of the input, and every vertex was picked with
      minimal weight among the vertices not yet picked. */
  method GetResult(g: WeightedGraph, order: seq<int>) returns (result: seq<int>)
    requires ValidInput(g, order)
    ensures IsGreedy(g, order, result)
    ensures forall i, j :: 0 <= i < j < |result| ==> result[i] != result[j]
    ensures forall v :: v in result <==> v in order
  {
    var w := InitWeights(g, order);
    var b, entries := InitBuckets(order, w);
    var l := Loop({}, [], w, b, b.Keys);
    assert LoopOk(g, order, l);
    while l.heap != {}
      invariant LoopOk(g, order, l) && Counts(l.b, entries)
      decreases |Elements(order) - l.done|, |entries|
    {
      l, entries := PickNext(g, order, l, entries);
    }
    assert l.b == map[];
    forall v | v in order ensures v in l.result {
      AllDone(order, l.done, l.w, v);
    }
    result := l.result;
  }
}
