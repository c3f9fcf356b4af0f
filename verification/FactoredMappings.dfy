/**
  Mappings given block by block: the positions of a block are paired with any
  permutation of its images.
 */
module FactoredMappings {

  type Pair = (int, int)
  type Mapping = seq<Pair>
  type Block = (seq<int>, seq<int>)

  function Firsts(m: Mapping): (r: seq<int>)
    ensures |r| == |m| && forall i :: 0 <= i < |m| ==> r[i] == m[i].0
  {
    seq(|m|, i requires 0 <= i < |m| => m[i].0)
  }

  function Seconds(m: Mapping): (r: seq<int>)
    ensures |r| == |m| && forall i :: 0 <= i < |m| ==> r[i] == m[i].1
  {
    seq(|m|, i requires 0 <= i < |m| => m[i].1)
  }

  /** `list(zip(a, b))` */
  function Zip(a: seq<int>, b: seq<int>): (m: Mapping)
    requires |a| == |b|
    ensures Firsts(m) == a && Seconds(m) == b
  {
    seq(|a|, i requires 0 <= i < |a| => (a[i], b[i]))
  }

  // ----- Permutations -----

  function Without(s: seq<int>, i: nat): (r: seq<int>)
    requires i < |s|
    ensures |r| == |s| - 1
  {
    s[..i] + s[i + 1..]
  }

  function Prefixed(x: int, ps: seq<seq<int>>): (r: seq<seq<int>>)
    ensures |r| == |ps| && forall i :: 0 <= i < |r| ==> r[i] == [x] + ps[i]
  {
    seq(|ps|, i requires 0 <= i < |ps| => [x] + ps[i])
  }

  /** `itertools.permutations(s)` */
  function Permutations(s: seq<int>): seq<seq<int>>
    decreases |s|, 1, 0
  {
    if s == [] then [[]] else PermutationsFrom(s, |s|)
  }

  /** The permutations that start with one of the first `n` elements. */
  function PermutationsFrom(s: seq<int>, n: nat): seq<seq<int>>
    requires n <= |s|
    decreases |s|, 0, n
  {
    if n == 0 then [] else PermutationsFrom(s, n - 1) + Prefixed(s[n - 1], Permutations(Without(s, n - 1)))
  }

  lemma WithoutMultiset(s: seq<int>, i: nat)
    requires i < |s|
    ensures multiset(s) == multiset{s[i]} + multiset(Without(s, i))
  {
    assert s == s[..i] + [s[i]] + s[i + 1..];
  }

  lemma {:induction false} PermutationsExact(s: seq<int>, p: seq<int>)
    ensures p in Permutations(s) <==> multiset(p) == multiset(s)
    decreases |s|, 1, 0
  {
    if s == [] {
      if p != [] { assert p[0] in multiset(p); }
    } else {
      PermutationsFromExact(s, |s|, p);
      if multiset(p) == multiset(s) {
        assert s[0] in multiset(p);
        assert p != [] && p[0] in multiset(s);
        var i :| 0 <= i < |s| && s[i] == p[0];
      }
    }
  }

  lemma PrefixedExact(x: int, ps: seq<seq<int>>, p: seq<int>)
    ensures p in Prefixed(x, ps) <==> p != [] && p[0] == x && p[1..] in ps
  {
    var r := Prefixed(x, ps);
    if p in r {
      var i :| 0 <= i < |ps| && p == r[i];
      assert p[1..] == ps[i];
    }
    if p != [] && p[0] == x && p[1..] in ps {
      var i :| 0 <= i < |ps| && ps[i] == p[1..];
      assert r[i] == p;
    }
  }

  /** Removing the first element from a permutation, and one occurrence of it from the list. */
  lemma TailMultiset(s: seq<int>, i: nat, p: seq<int>)
    requires i < |s| && p != [] && p[0] == s[i]
    ensures multiset(p) == multiset(s) <==> multiset(p[1..]) == multiset(Without(s, i))
  {
    WithoutMultiset(s, i);
    assert p == [p[0]] + p[1..];
    assert multiset(p) == multiset{s[i]} + multiset(p[1..]);
    if multiset(p) == multiset(s) {
      assert multiset(p[1..]) == multiset(p) - multiset{s[i]};
      assert multiset(Without(s, i)) == multiset(s) - multiset{s[i]};
    }
  }

  lemma {:induction false} PermutationsFromExact(s: seq<int>, n: nat, p: seq<int>)
    requires n <= |s| && s != []
    ensures p in PermutationsFrom(s, n) <==> p != [] && p[0] in s[..n] && multiset(p) == multiset(s)
    decreases |s|, 0, n
  {
    if n > 0 {
      hide Prefixed, Without, Permutations;
      var x, rest := s[n - 1], Without(s, n - 1);
      PermutationsFromExact(s, n - 1, p);
      PrefixedExact(x, Permutations(rest), p);
      assert s[..n] == s[..n - 1] + [x];
      if p != [] && p[0] == x {
        PermutationsExact(rest, p[1..]);
        TailMultiset(s, n - 1, p);
      }
    }
  }

  // ----- Products -----

  /** `[list(zip(preimg, perm_img)) for perm_img in itertools.permutations(img)]` */
  function BlockMappings(b: Block): (r: seq<Mapping>)
    requires |b.0| == |b.1|
  {
    var ps := Permutations(b.1);
    seq(|ps|, i requires 0 <= i < |ps| => if |ps[i]| == |b.0| then Zip(b.0, ps[i]) else [])
  }

  /** Every item of the list before every mapping of the other. */
  function Combined(items: seq<Mapping>, rest: seq<Mapping>): seq<Mapping> {
    if items == [] then []
    else seq(|rest|, i requires 0 <= i < |rest| => items[0] + rest[i]) + Combined(items[1..], rest)
  }

  predicate Even(blocks: seq<Block>) {
    forall i :: 0 <= i < |blocks| ==> |blocks[i].0| == |blocks[i].1|
  }

  /** `instantiate_factored_mapping`: the product concatenates instead of pairing. */
  function Instantiate(blocks: seq<Block>): seq<Mapping>
    requires Even(blocks)
  {
    if blocks == [] then [[]] else Combined(BlockMappings(blocks[0]), Instantiate(blocks[1..]))
  }

  /** The mapping lists the positions of each block in order, with its images in some order. */
  predicate Fits(blocks: seq<Block>, m: Mapping) {
    if blocks == [] then m == []
    else
      var n := |blocks[0].0|;
      n <= |m| && Firsts(m[..n]) == blocks[0].0 && multiset(Seconds(m[..n])) == multiset(blocks[0].1) && Fits(blocks[1..], m[n..])
  }

  lemma {:induction false} CombinedExact(items: seq<Mapping>, rest: seq<Mapping>, m: Mapping)
    ensures m in Combined(items, rest) <==> exists i, j :: 0 <= i < |items| && 0 <= j < |rest| && m == items[i] + rest[j]
  {
    if items != [] {
      CombinedExact(items[1..], rest, m);
      var first := seq(|rest|, i requires 0 <= i < |rest| => items[0] + rest[i]);
      if m in first {
        var j :| 0 <= j < |rest| && m == first[j];
        assert m == items[0] + rest[j];
      } else if m in Combined(items[1..], rest) {
        var i, j :| 0 <= i < |items[1..]| && 0 <= j < |rest| && m == items[1..][i] + rest[j];
        var on := i + 1;
        assert m == items[on] + rest[j];
      }
      if exists i, j :: 0 <= i < |items| && 0 <= j < |rest| && m == items[i] + rest[j] {
        var i, j :| 0 <= i < |items| && 0 <= j < |rest| && m == items[i] + rest[j];
        if i == 0 {
          assert first[j] == m;
        } else {
          var back := i - 1;
          assert m == items[1..][back] + rest[j];
        }
      }
    }
  }

  lemma BlockExact(b: Block, m: Mapping)
    requires |b.0| == |b.1|
    ensures m in BlockMappings(b) <==> Firsts(m) == b.0 && multiset(Seconds(m)) == multiset(b.1)
  {
    var ps, r := Permutations(b.1), BlockMappings(b);
    if m in r {
      var i :| 0 <= i < |ps| && m == r[i];
      PermutationsExact(b.1, ps[i]);
      SameLength(ps[i], b.1);
    }
    if Firsts(m) == b.0 && multiset(Seconds(m)) == multiset(b.1) {
      PermutationsExact(b.1, Seconds(m));
      var i :| 0 <= i < |ps| && ps[i] == Seconds(m);
      assert r[i] == m;
    }
  }

  lemma SameLength(a: seq<int>, b: seq<int>)
    requires multiset(a) == multiset(b)
    ensures |a| == |b|
  {
    assert |multiset(a)| == |a| && |multiset(b)| == |b|;
  }

  /** The instances of a factored mapping are exactly the mappings that fit its blocks. */
  lemma {:induction false} InstantiateExact(blocks: seq<Block>, m: Mapping)
    requires Even(blocks)
    ensures m in Instantiate(blocks) <==> Fits(blocks, m)
    decreases |blocks|
  {
    if blocks != [] {
      hide BlockMappings, Combined;
      var items, rest, n := BlockMappings(blocks[0]), Instantiate(blocks[1..]), |blocks[0].0|;
      CombinedExact(items, rest, m);
      if m in Combined(items, rest) {
        var i, j :| 0 <= i < |items| && 0 <= j < |rest| && m == items[i] + rest[j];
        assert items[i] in items && rest[j] in rest;
        BlockExact(blocks[0], items[i]);
        assert |Firsts(items[i])| == n;
        assert m[..n] == items[i] && m[n..] == rest[j];
        InstantiateExact(blocks[1..], m[n..]);
      }
      if Fits(blocks, m) {
        BlockExact(blocks[0], m[..n]);
        InstantiateExact(blocks[1..], m[n..]);
        InCombined(items, rest, m, n);
      }
    }
  }

  lemma InCombined(items: seq<Mapping>, rest: seq<Mapping>, m: Mapping, n: nat)
    requires n <= |m| && m[..n] in items && m[n..] in rest
    ensures m in Combined(items, rest)
  {
    CombinedExact(items, rest, m);
    var i :| 0 <= i < |items| && items[i] == m[..n];
    var j :| 0 <= j < |rest| && rest[j] == m[n..];
    assert m == items[i] + rest[j];
  }

  // ----- What a fitting mapping looks like -----

  function Positions(blocks: seq<Block>): seq<int> {
    if blocks == [] then [] else blocks[0].0 + Positions(blocks[1..])
  }

  function Images(blocks: seq<Block>): seq<int> {
    if blocks == [] then [] else blocks[0].1 + Images(blocks[1..])
  }

  predicate InBlock(blocks: seq<Block>, p: Pair) {
    exists j :: 0 <= j < |blocks| && p.0 in blocks[j].0 && p.1 in blocks[j].1
  }

  lemma {:induction false} FitsShape(blocks: seq<Block>, m: Mapping)
    requires Fits(blocks, m)
    ensures Firsts(m) == Positions(blocks) && multiset(Seconds(m)) == multiset(Images(blocks))
    decreases |blocks|
  {
    if blocks != [] {
      hide Firsts, Seconds;
      var n := |blocks[0].0|;
      var front, back := m[..n], m[n..];
      FitsShape(blocks[1..], back);
      SplitMapping(m, n);
      ConcatMultiset(Seconds(front), Seconds(back), blocks[0].1, Images(blocks[1..]));
    }
  }

  lemma SplitMapping(m: Mapping, n: nat)
    requires n <= |m|
    ensures Firsts(m) == Firsts(m[..n]) + Firsts(m[n..]) && Seconds(m) == Seconds(m[..n]) + Seconds(m[n..])
  {
  }

  lemma ConcatMultiset(a: seq<int>, b: seq<int>, c: seq<int>, d: seq<int>)
    requires multiset(a) == multiset(c) && multiset(b) == multiset(d)
    ensures multiset(a + b) == multiset(c + d)
  {
  }

  lemma {:induction false} FitsInBlocks(blocks: seq<Block>, m: Mapping, i: nat)
    requires Fits(blocks, m) && i < |m|
    ensures InBlock(blocks, m[i])
    decreases |blocks|
  {
    hide Firsts, Seconds;
    var n := |blocks[0].0|;
    if i < n {
      FrontInBlock(blocks, m[..n], i);
    } else {
      FitsInBlocks(blocks[1..], m[n..], i - n);
      LaterBlock(blocks, m[i]);
    }
  }

  lemma LaterBlock(blocks: seq<Block>, p: Pair)
    requires blocks != [] && InBlock(blocks[1..], p)
    ensures InBlock(blocks, p)
  {
    var j :| 0 <= j < |blocks[1..]| && p.0 in blocks[1..][j].0 && p.1 in blocks[1..][j].1;
    var on := j + 1;
    assert blocks[on] == blocks[1..][j];
  }

  lemma FrontInBlock(blocks: seq<Block>, front: Mapping, i: nat)
    requires blocks != [] && Firsts(front) == blocks[0].0 && multiset(Seconds(front)) == multiset(blocks[0].1)
    requires i < |front|
    ensures InBlock(blocks, front[i])
  {
    assert Firsts(front)[i] == front[i].0;
    assert Seconds(front)[i] == front[i].1 && front[i].1 in multiset(blocks[0].1);
  }
}
