/** `possible_mappings` and `possible_matches`: exactly the arrangements that match. */
module PossibleMatches {
  import opened FactoredMappings
  import opened InvariantParts
  import opened Strips
  import opened Wrappers

  // ----- Blocks -----

  lemma {:induction false} PositionsAppend(blocks: seq<Block>, b: Block)
    ensures Positions(blocks + [b]) == Positions(blocks) + b.0
  {
    var more := blocks + [b];
    if blocks == [] {
      assert more[1..] == [] && Positions(more[1..]) == [];
    } else {
      assert more[1..] == blocks[1..] + [b];
      PositionsAppend(blocks[1..], b);
      assert Positions(more) == blocks[0].0 + (Positions(blocks[1..]) + b.0);
    }
  }

  lemma {:induction false} ImagesAppend(blocks: seq<Block>, b: Block)
    ensures Images(blocks + [b]) == Images(blocks) + b.1
  {
    var more := blocks + [b];
    if blocks == [] {
      assert more[1..] == [] && Images(more[1..]) == [];
    } else {
      assert more[1..] == blocks[1..] + [b];
      ImagesAppend(blocks[1..], b);
      assert Images(more) == blocks[0].1 + (Images(blocks[1..]) + b.1);
    }
  }

  lemma {:induction false} FitsAppend(blocks: seq<Block>, b: Block, m: Mapping, piece: Mapping)
    requires Fits(blocks, m) && Firsts(piece) == b.0 && multiset(Seconds(piece)) == multiset(b.1)
    ensures Fits(blocks + [b], m + piece)
    decreases |blocks|
  {
    var more, whole := blocks + [b], m + piece;
    if blocks == [] {
      assert |piece| == |b.0| && whole == piece && whole[..|b.0|] == piece && whole[|b.0|..] == [] && more[1..] == [];
    } else {
      var n := |blocks[0].0|;
      assert more[1..] == blocks[1..] + [b] && whole[..n] == m[..n] && whole[n..] == m[n..] + piece;
      FitsAppend(blocks[1..], b, m[n..], piece);
    }
  }

  /** Each pair within a block joins a position to a parameter with the same argument, or to -1. */
  ghost predicate ConsistentBlocks(params: seq<string>, args: seq<string>, blocks: seq<Block>) {
    forall j :: 0 <= j < |blocks| ==> BlockOk(params, args, blocks[j])
  }

  ghost predicate BlockOk(params: seq<string>, args: seq<string>, b: Block) {
    forall i, v :: i in b.0 && v in b.1 ==> PairOk(params, args, (i, v))
  }

  predicate PairOk(params: seq<string>, args: seq<string>, p: Pair) {
    0 <= p.0 < |args| && (p.1 == -1 || (0 <= p.1 < |params| && params[p.1] == args[p.0]))
  }

  /** What the blocks list once the arguments of `done` have been handled. */
  ghost predicate Covers(params: seq<string>, args: seq<string>, done: seq<string>, blocks: seq<Block>, used: bool) {
    && (forall i :: i in Positions(blocks) <==> 0 <= i < |args| && args[i] in done)
    && (forall v :: v in Images(blocks) <==> (0 <= v < |params| && params[v] in done) || (v == -1 && used))
    && Distinct(Positions(blocks)) && Distinct(Images(blocks))
  }

  lemma DistinctConcat(a: seq<int>, b: seq<int>)
    requires Distinct(a) && Distinct(b) && forall x :: x in a ==> x !in b
    ensures Distinct(a + b)
  {
    var c := a + b;
    forall i, j | 0 <= i < j < |c| ensures c[i] != c[j] {
      if i < |a| <= j { assert c[i] in a && c[j] in b; }
    }
  }

  lemma CoversMore(params: seq<string>, args: seq<string>, done: seq<string>, blocks: seq<Block>, used: bool,
      key: string, use: bool)
    requires Covers(params, args, done, blocks, used) && key !in done && !(used && use)
    ensures Covers(params, args, done + [key], blocks + [(PositionsOf(args, key), PositionsOf(params, key) + if use then [-1] else [])],
                   used || use)
  {
    var own := PositionsOf(params, key) + if use then [-1] else [];
    if use { DistinctAppend(PositionsOf(params, key), -1); }
    assert forall v :: v in own <==> (0 <= v < |params| && params[v] == key) || (v == -1 && use);
    PositionsAppend(blocks, (PositionsOf(args, key), own));
    ImagesAppend(blocks, (PositionsOf(args, key), own));
    DistinctConcat(Positions(blocks), PositionsOf(args, key));
    DistinctConcat(Images(blocks), own);
  }

  lemma {:induction false} EvenLength(blocks: seq<Block>)
    requires Even(blocks)
    ensures |Positions(blocks)| == |Images(blocks)|
  {
    if blocks != [] { EvenLength(blocks[1..]); }
  }

  // ----- Good mappings -----

  /** Each position once, each parameter once, and -1 once if there is a position to omit. */
  ghost predicate GoodMapping(params: seq<string>, args: seq<string>, m: Mapping) {
    && Distinct(Firsts(m)) && Distinct(Seconds(m))
    && (forall p :: p in m ==> PairOk(params, args, p))
    && (forall v :: v in Seconds(m) <==> 0 <= v < |params| || (v == -1 && |args| == |params| + 1))
    && |params| <= |args| <= |params| + 1
  }

  /** Once all arguments are handled, all parameters are images, and -1 is one exactly when a position is left over. */
  lemma AllCovered(params: seq<string>, args: seq<string>, done: seq<string>, blocks: seq<Block>, used: bool)
    requires Even(blocks) && Covers(params, args, done, blocks, used) && forall i :: 0 <= i < |args| ==> args[i] in done
    requires |params| <= |args| && (used ==> |args| == |params| + 1)
    ensures forall v :: v in Images(blocks) <==> 0 <= v < |params| || (v == -1 && |args| == |params| + 1)
  {
    EvenLength(blocks);
    DistinctSame(Positions(blocks), Upto(|args|));
    var all := if used then Upto(|params|) + [-1] else Upto(|params|);
    if used { DistinctAppend(Upto(|params|), -1); }
    FullList(Images(blocks), all);
  }

  lemma FitsGood(params: seq<string>, args: seq<string>, done: seq<string>, blocks: seq<Block>, used: bool, m: Mapping)
    requires Even(blocks) && Covers(params, args, done, blocks, used) && forall i :: 0 <= i < |args| ==> args[i] in done
    requires |params| <= |args| <= |params| + 1 && (used ==> |args| == |params| + 1)
    requires ConsistentBlocks(params, args, blocks) && Fits(blocks, m)
    ensures GoodMapping(params, args, m)
  {
    AllCovered(params, args, done, blocks, used);
    FitsShape(blocks, m);
    MultisetDistinct(Images(blocks), Seconds(m));
    hide Covers, Distinct, Even, Firsts, Seconds, Positions, Images, Fits, ConsistentBlocks;
    forall p | p in m ensures PairOk(params, args, p) {
      var i :| 0 <= i < |m| && m[i] == p;
      FitsInBlocks(blocks, m, i);
      InBlockConsistent(params, args, blocks, p);
    }
  }

  lemma InBlockConsistent(params: seq<string>, args: seq<string>, blocks: seq<Block>, p: Pair)
    requires ConsistentBlocks(params, args, blocks) && InBlock(blocks, p)
    ensures PairOk(params, args, p)
  {
    var j :| 0 <= j < |blocks| && p.0 in blocks[j].0 && p.1 in blocks[j].1;
    assert BlockOk(params, args, blocks[j]);
  }

  // ----- Every arrangement has a mapping -----

  function Paired(order: seq<int>, positions: seq<int>): (m: Mapping)
    ensures Firsts(m) == positions && Seconds(m) == ValuesAt(order, positions)
  {
    Zip(positions, ValuesAt(order, positions))
  }

  /** The mapping of an arrangement fits the blocks handled so far. */
  ghost predicate Follows(params: seq<string>, args: seq<string>, done: seq<string>, blocks: seq<Block>, used: bool,
                          order: seq<int>, omitted: int) {
    && Fits(blocks, Paired(order, Positions(blocks)))
    && (used <==> 0 <= omitted < |args| && args[omitted] in done)
  }

  ghost predicate AllFollow(params: seq<string>, args: seq<string>, done: seq<string>, blocks: seq<Block>, used: bool) {
    forall order, omitted :: IsMatch(params, args, order, omitted) ==> Follows(params, args, done, blocks, used, order, omitted)
  }

  /** For an arrangement, the argument has as many positions as images; so it decides whether -1 is needed. */
  lemma NeedsOmission(params: seq<string>, args: seq<string>, order: seq<int>, omitted: int, key: string)
    requires IsMatch(params, args, order, omitted)
    ensures |PositionsOf(args, key)| ==
      |PositionsOf(params, key)| + if 0 <= omitted < |args| && args[omitted] == key then 1 else 0
  {
    MatchBlock(params, args, order, omitted, key);
  }

  lemma FollowsMore(params: seq<string>, args: seq<string>, done: seq<string>, blocks: seq<Block>, used: bool,
      key: string, use: bool,
      order: seq<int>, omitted: int)
    requires IsMatch(params, args, order, omitted) && Follows(params, args, done, blocks, used, order, omitted)
    requires use <==> |PositionsOf(args, key)| != |PositionsOf(params, key)|
    ensures Follows(params, args, done + [key],
                    blocks + [(PositionsOf(args, key), PositionsOf(params, key) + if use then [-1] else [])],
                    used || use, order, omitted)
  {
    NeedsOmission(params, args, order, omitted, key);
    MatchBlock(params, args, order, omitted, key);
    hide IsMatch, Fits, PositionsOf, ValuesAt, Paired;
    var b := (PositionsOf(args, key), PositionsOf(params, key) + if use then [-1] else []);
    assert b.1 == ImagesOf(params, args, omitted, key);
    PositionsAppend(blocks, b);
    FitsAppend(blocks, b, Paired(order, Positions(blocks)), Paired(order, b.0));
    PairedAppend(order, Positions(blocks), b.0);
  }

  lemma PairedAppend(order: seq<int>, a: seq<int>, b: seq<int>)
    ensures Paired(order, a + b) == Paired(order, a) + Paired(order, b)
  {
  }

  // ----- Reading a mapping -----

  ghost predicate Describes(m: Mapping, order: seq<int>, omitted: int) {
    && (forall p :: p in m && p.1 != -1 ==> 0 <= p.1 < |order| && order[p.1] == p.0)
    && (forall p :: p in m && p.1 == -1 ==> omitted == p.0)
    && (-1 !in Seconds(m) ==> omitted == -1)
  }

  lemma PairWithSecond(m: Mapping, v: int) returns (i: nat)
    requires v in Seconds(m)
    ensures i < |m| && m[i].1 == v && Firsts(m)[i] == m[i].0 && m[i] in m
  {
    i :| 0 <= i < |m| && Seconds(m)[i] == v;
  }

  lemma DescribedMatches(params: seq<string>, args: seq<string>, m: Mapping, order: seq<int>, omitted: int)
    requires GoodMapping(params, args, m) && Describes(m, order, omitted) && |order| == |params|
    ensures IsMatch(params, args, order, omitted)
  {
    hide Firsts, Seconds;
    forall v | 0 <= v < |order| ensures 0 <= order[v] < |args| && args[order[v]] == params[v] {
      var i := PairWithSecond(m, v);
    }
    forall v, u | 0 <= v < u < |order| ensures order[v] != order[u] {
      var i := PairWithSecond(m, v);
      var k := PairWithSecond(m, u);
    }
    if |args| == |params| + 1 {
      var i := PairWithSecond(m, -1);
      forall v | 0 <= v < |order| ensures order[v] != omitted {
        var k := PairWithSecond(m, v);
      }
    }
  }

  lemma DescribedUnique(params: seq<string>, args: seq<string>, m: Mapping, order: seq<int>, omitted: int,
      order': seq<int>, omitted': int)
    requires GoodMapping(params, args, m) && |order| == |order'| == |params|
    requires Describes(m, order, omitted) && Describes(m, order', omitted')
    ensures order == order' && omitted == omitted'
  {
    hide Firsts, Seconds;
    forall v | 0 <= v < |order| ensures order[v] == order'[v] {
      var i := PairWithSecond(m, v);
    }
    if -1 in Seconds(m) {
      var i := PairWithSecond(m, -1);
    }
  }

  lemma PairedDescribes(params: seq<string>, args: seq<string>, order: seq<int>, omitted: int, positions: seq<int>)
    requires IsMatch(params, args, order, omitted) && GoodMapping(params, args, Paired(order, positions))
    ensures Describes(Paired(order, positions), order, omitted)
  {
    var m := Paired(order, positions);
    forall p | p in m ensures p.1 == ValueAt(order, p.0) && 0 <= p.0 < |args| {
      var i :| 0 <= i < |m| && m[i] == p;
      assert Firsts(m)[i] == p.0 && Seconds(m)[i] == p.1;
    }
    forall p | p in m && p.1 == -1 ensures omitted == p.0 {
      Surjective(params, args, order, omitted, p.0);
    }
  }

  // ----- The algorithm -----

  /** Every mapping is good, and every arrangement is described by one of them. */
  ghost predicate ExactMappings(params: seq<string>, args: seq<string>, mappings: seq<Mapping>) {
    && (forall m :: m in mappings ==> GoodMapping(params, args, m))
    && (forall order, omitted :: IsMatch(params, args, order, omitted) ==> Described(mappings, order, omitted))
  }

  ghost predicate Described(mappings: seq<Mapping>, order: seq<int>, omitted: int) {
    exists m :: m in mappings && Describes(m, order, omitted)
  }

  /** The state of the loop over the arguments of the other literal. */
  ghost predicate Handled(params: seq<string>, args: seq<string>, done: seq<string>, blocks: seq<Block>, allowed: int) {
    && |params| <= |args| <= |params| + 1 && 0 <= allowed <= |args| - |params|
    && var used := allowed < |args| - |params|;
       Even(blocks) && ConsistentBlocks(params, args, blocks) && Covers(params, args, done, blocks, used)
       && AllFollow(params, args, done, blocks, used)
  }

  method PossibleMappings(part: InvariantPart, ownLiteral: Atom, otherLiteral: Atom) returns (mappings: seq<Mapping>)
    requires ValidPart(part, ownLiteral)
    ensures ExactMappings(GetParameters(part, ownLiteral), otherLiteral.args, mappings)
  {
    hide IsMatch, PositionsOf, Handled, ExactMappings;
    var allowedOmissions := |otherLiteral.args| - |part.order|;
    var params, args := GetParameters(part, ownLiteral), otherLiteral.args;
    if allowedOmissions != 0 && allowedOmissions != 1 {
      WrongLength(params, args);
      return [];
    }
    var argToOrderedPos := InvertList(params);
    var otherArgToPos := InvertList(args);
    var keys := ListOf(otherArgToPos.Keys);
    var factored: seq<Block> := [];
    assert keys[..0] == [];
    NothingFollowed(params, args);
    for j := 0 to |keys|
      invariant allowedOmissions >= 0 && Handled(params, args, keys[..j], factored, allowedOmissions)
    {
      var key := keys[j];
      var otherPositions := otherArgToPos[key];
      var ownPositions := if key in argToOrderedPos then argToOrderedPos[key] else [];
      if key !in argToOrderedPos { NotListed(params, key); }
      NewKey(keys, j);
      var lenDiff := |ownPositions| - |otherPositions|;
      if lenDiff >= 1 || lenDiff <= -2 || (lenDiff == -1 && allowedOmissions == 0) {
        NoneWhenUneven(params, args, keys[..j], factored, allowedOmissions, key);
        return [];
      }
      NextBlock(params, args, keys[..j], factored, allowedOmissions, key);
      if lenDiff != 0 {
        ownPositions := ownPositions + [-1];
        allowedOmissions := 0;
      }
      factored := factored + [(otherPositions, ownPositions)];
      assert keys[..j + 1] == keys[..j] + [key];
    }
    assert keys[..|keys|] == keys;
    ExactInstances(params, args, keys, factored, allowedOmissions);
    mappings := Instantiate(factored);
  }

  lemma WrongLength(params: seq<string>, args: seq<string>)
    requires !(|params| <= |args| <= |params| + 1)
    ensures ExactMappings(params, args, [])
  {
  }

  lemma NothingFollowed(params: seq<string>, args: seq<string>)
    requires |params| <= |args| <= |params| + 1
    ensures Handled(params, args, [], [], |args| - |params|)
  {
  }

  /** The guard that gives up only does so when there is no arrangement. */
  lemma NoneWhenUneven(params: seq<string>, args: seq<string>, done: seq<string>, blocks: seq<Block>, allowed: int,
      key: string)
    requires Handled(params, args, done, blocks, allowed) && key !in done
    requires
      var lenDiff := |PositionsOf(params, key)| - |PositionsOf(args, key)|;
      lenDiff >= 1 || lenDiff <= -2 || (lenDiff == -1 && allowed == 0)
    ensures ExactMappings(params, args, [])
  {
    forall order, omitted ensures !IsMatch(params, args, order, omitted) {
      if IsMatch(params, args, order, omitted) {
        NeedsOmission(params, args, order, omitted, key);
      }
    }
  }

  lemma NewKey(keys: seq<string>, j: nat)
    requires Distinct(keys) && j < |keys|
    ensures keys[j] !in keys[..j] && keys[j] in keys
  {
  }

  lemma NextBlock(params: seq<string>, args: seq<string>, done: seq<string>, blocks: seq<Block>, allowed: int,
      key: string)
    requires Handled(params, args, done, blocks, allowed) && key !in done
    requires |PositionsOf(args, key)| == |PositionsOf(params, key)|
      || (allowed > 0 && |PositionsOf(args, key)| == |PositionsOf(params, key)| + 1)
    ensures
      var ps, own := PositionsOf(args, key), PositionsOf(params, key);
      if |ps| == |own| then Handled(params, args, done + [key], blocks + [(ps, own)], allowed)
      else Handled(params, args, done + [key], blocks + [(ps, own + [-1])], 0)
  {
    var use, used := |PositionsOf(args, key)| != |PositionsOf(params, key)|, allowed < |args| - |params|;
    CoversMore(params, args, done, blocks, used, key, use);
    hide Covers, IsMatch, Follows;
    var own := PositionsOf(params, key) + if use then [-1] else [];
    var b := (PositionsOf(args, key), own);
    assert !use ==> own == PositionsOf(params, key);
    assert BlockOk(params, args, b);
    forall order, omitted | IsMatch(params, args, order, omitted)
      ensures Follows(params, args, done + [key], blocks + [b], used || use, order, omitted)
    {
      FollowsMore(params, args, done, blocks, used, key, use, order, omitted);
    }
  }

  lemma ExactInstances(params: seq<string>, args: seq<string>, keys: seq<string>, blocks: seq<Block>, allowed: int)
    requires Handled(params, args, keys, blocks, allowed) && forall i :: 0 <= i < |args| ==> args[i] in keys
    ensures Even(blocks) && ExactMappings(params, args, Instantiate(blocks))
  {
    hide Covers, ConsistentBlocks, GoodMapping, Describes, IsMatch, Instantiate;
    var used := allowed < |args| - |params|;
    forall m | m in Instantiate(blocks) ensures GoodMapping(params, args, m) {
      InstantiateExact(blocks, m);
      FitsGood(params, args, keys, blocks, used, m);
    }
    forall order, omitted | IsMatch(params, args, order, omitted) ensures Described(Instantiate(blocks), order, omitted) {
      var m := Paired(order, Positions(blocks));
      assert Follows(params, args, keys, blocks, used, order, omitted);
      InstantiateExact(blocks, m);
      FitsGood(params, args, keys, blocks, used, m);
      PairedDescribes(params, args, order, omitted, Positions(blocks));
    }
  }

  /** Fill in the order; -1 marks entries that are not set yet. */
  method ReadMapping(ghost params: seq<string>, ghost args: seq<string>, mapping: Mapping, n: nat)
      returns (newOrder: seq<int>, omitted: int)
    requires GoodMapping(params, args, mapping) && n == |params|
    ensures |newOrder| == n && Describes(mapping, newOrder, omitted)
  {
    newOrder, omitted := seq(n, _ => -1), -1;
    for i := 0 to |mapping|
      invariant |newOrder| == n
      invariant forall k :: 0 <= k < i && mapping[k].1 != -1 ==> 0 <= mapping[k].1 < n && newOrder[mapping[k].1] == mapping[k].0
      invariant forall k :: 0 <= k < i && mapping[k].1 == -1 ==> omitted == mapping[k].0
      invariant (forall k :: 0 <= k < i ==> mapping[k].1 != -1) ==> omitted == -1
    {
      var (key, value) := mapping[i];
      assert mapping[i] in mapping && Seconds(mapping)[i] == value;
      forall k | 0 <= k < i ensures mapping[k].1 != value && mapping[k] in mapping {
        assert Seconds(mapping)[k] == mapping[k].1;
      }
      if value == -1 {
        omitted := key;
      } else {
        newOrder := newOrder[value := key];
      }
    }
    if -1 !in Seconds(mapping) {
      forall k | 0 <= k < |mapping| ensures mapping[k].1 != -1 { assert Seconds(mapping)[k] in Seconds(mapping); }
    }
  }

  /** The parts for the other literal are exactly the arrangements of its positions, at most one
      left out, that yield the parameters of the own literal. */
  method PossibleMatches(part: InvariantPart, ownLiteral: Atom, otherLiteral: Atom) returns (result: seq<InvariantPart>)
    requires ValidPart(part, ownLiteral)
    ensures forall p :: p in result <==> (p.symbol == otherLiteral.symbol
              && IsMatch(GetParameters(part, ownLiteral), otherLiteral.args, p.order, p.omittedPos))
  {
    hide IsMatch, GoodMapping, Describes;
    var mappings := PossibleMappings(part, ownLiteral, otherLiteral);
    ghost var params, args := GetParameters(part, ownLiteral), otherLiteral.args;
    result := [];
    for i := 0 to |mappings|
      invariant |result| == i
      invariant forall k :: 0 <= k < i ==> ReadFrom(params, otherLiteral.symbol, mappings[k], result[k])
    {
      assert mappings[i] in mappings;
      var newOrder, omitted := ReadMapping(params, args, mappings[i], |part.order|);
      result := result + [InvariantPart(otherLiteral.symbol, newOrder, omitted)];
    }
    forall p ensures p in result <==> p.symbol == otherLiteral.symbol && IsMatch(params, args, p.order, p.omittedPos) {
      ExactResult(params, args, otherLiteral.symbol, mappings, result, p);
    }
  }

  ghost predicate ReadFrom(params: seq<string>, symbol: string, m: Mapping, p: InvariantPart) {
    p.symbol == symbol && |p.order| == |params| && Describes(m, p.order, p.omittedPos)
  }

  lemma ExactResult(params: seq<string>, args: seq<string>, symbol: string, mappings: seq<Mapping>,
      result: seq<InvariantPart>, p: InvariantPart)
    requires ExactMappings(params, args, mappings) && |result| == |mappings|
    requires forall k :: 0 <= k < |result| ==> ReadFrom(params, symbol, mappings[k], result[k])
    ensures p in result <==> p.symbol == symbol && IsMatch(params, args, p.order, p.omittedPos)
  {
    hide GoodMapping, Describes;
    if p in result {
      var k :| 0 <= k < |result| && result[k] == p;
      assert ReadFrom(params, symbol, mappings[k], result[k]) && mappings[k] in mappings;
      DescribedMatches(params, args, mappings[k], p.order, p.omittedPos);
    }
    if p.symbol == symbol && IsMatch(params, args, p.order, p.omittedPos) {
      assert Described(mappings, p.order, p.omittedPos);
      var m :| m in mappings && Describes(m, p.order, p.omittedPos);
      var k :| 0 <= k < |mappings| && mappings[k] == m;
      assert ReadFrom(params, symbol, mappings[k], result[k]);
      DescribedUnique(params, args, m, p.order, p.omittedPos, result[k].order, result[k].omittedPos);
    }
  }

  /** `matches` */
  predicate Matches(part: InvariantPart, other: InvariantPart, ownLiteral: Atom, otherLiteral: Atom)
    requires ValidPart(part, ownLiteral) && ValidPart(other, otherLiteral)
  {
    GetParameters(part, ownLiteral) == GetParameters(other, otherLiteral)
  }

  /** An arrangement in this sense is one that `matches` accepts. */
  lemma MatchesMeaning(part: InvariantPart, other: InvariantPart, ownLiteral: Atom, otherLiteral: Atom)
    requires ValidPart(part, ownLiteral) && ValidPart(other, otherLiteral) && Distinct(other.order)
    requires (|otherLiteral.args| == |part.order| && other.omittedPos == -1)
      || (|otherLiteral.args| == |part.order| + 1 && 0 <= other.omittedPos < |otherLiteral.args| && other.omittedPos !in other.order)
    ensures Matches(part, other, ownLiteral, otherLiteral)
      <==> IsMatch(GetParameters(part, ownLiteral), otherLiteral.args, other.order, other.omittedPos)
  {
    var a, b := GetParameters(part, ownLiteral), GetParameters(other, otherLiteral);
    if |a| == |b| && forall i :: 0 <= i < |a| ==> otherLiteral.args[other.order[i]] == a[i] {
      assert a == b;
    }
  }
}
