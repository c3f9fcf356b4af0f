/**
  Extending an invariant by a literal: the arrangements of the literal's
  argument positions, at most one of them left out, that give the same
  parameters.
 */
module InvariantParts {
  import opened FactoredMappings
  import opened Strips
  import opened Wrappers

  /** `order` lists argument positions; `omittedPos` is the counted position or -1. */
  datatype InvariantPart = InvariantPart(symbol: string, order: seq<int>, omittedPos: int)

  predicate ValidPart(part: InvariantPart, literal: Atom) {
    part.symbol == literal.symbol && forall i :: 0 <= i < |part.order| ==> 0 <= part.order[i] < |literal.args|
  }

  function GetParameters(part: InvariantPart, literal: Atom): (r: seq<string>)
    requires ValidPart(part, literal)
    ensures |r| == |part.order| && forall i :: 0 <= i < |r| ==> r[i] == literal.args[part.order[i]]
  {
    seq(|part.order|, i requires 0 <= i < |part.order| => literal.args[part.order[i]])
  }

  /** The order lists distinct positions of the arguments and yields the parameters; one position
      is left out if there is one more argument than parameters. */
  ghost predicate IsMatch(params: seq<string>, args: seq<string>, order: seq<int>, omitted: int) {
    && |order| == |params| && Distinct(order)
    && (forall v :: 0 <= v < |order| ==> 0 <= order[v] < |args| && args[order[v]] == params[v])
    && ((|args| == |params| && omitted == -1) || (|args| == |params| + 1 && 0 <= omitted < |args| && omitted !in order))
  }

  lemma DistinctAppend(s: seq<int>, x: int)
    requires Distinct(s) && x !in s
    ensures Distinct(s + [x])
  {
    forall k | 0 <= k < |s| ensures s[k] != x { assert s[k] in s; }
  }

  // ----- Positions of an argument -----

  function PositionsOf(list: seq<string>, arg: string): (r: seq<int>)
    ensures forall i :: i in r <==> 0 <= i < |list| && list[i] == arg
    ensures Distinct(r)
  {
    if list == [] then []
    else
      var rest := PositionsOf(list[..|list| - 1], arg);
      DistinctAppend(rest, |list| - 1);
      if list[|list| - 1] == arg then rest + [|list| - 1] else rest
  }

  method InvertList(alist: seq<string>) returns (result: map<string, seq<int>>)
    ensures forall arg :: arg in result <==> arg in alist
    ensures forall arg :: arg in result ==> result[arg] == PositionsOf(alist, arg)
  {
    result := map[];
    for pos := 0 to |alist|
      invariant forall arg :: arg in result <==> arg in alist[..pos]
      invariant forall arg :: arg in result ==> result[arg] == PositionsOf(alist[..pos], arg)
    {
      assert alist[..pos + 1][..pos] == alist[..pos];
      var arg := alist[pos];
      if arg !in result { NotListed(alist[..pos], arg); }
      var before := if arg in result then result[arg] else [];
      result := result[arg := before + [pos]];
      assert alist[..pos + 1] == alist[..pos] + [arg];
    }
    assert alist[..|alist|] == alist;
  }

  lemma {:induction false} NotListed(list: seq<string>, arg: string)
    requires arg !in list
    ensures PositionsOf(list, arg) == []
  {
    if list != [] {
      assert list[|list| - 1] in list;
      NotListed(list[..|list| - 1], arg);
    }
  }

  // ----- Lists without repetitions -----

  lemma {:induction false} DistinctMultiset(s: seq<int>, x: int)
    requires Distinct(s)
    ensures multiset(s)[x] == if x in s then 1 else 0
  {
    if s != [] {
      var init, last := s[..|s| - 1], s[|s| - 1];
      assert s == init + [last];
      DistinctMultiset(init, x);
      if x == last {
        forall i | 0 <= i < |init| ensures init[i] != last { }
      }
    }
  }

  lemma DistinctSame(a: seq<int>, b: seq<int>)
    requires Distinct(a) && Distinct(b) && forall x :: x in a <==> x in b
    ensures multiset(a) == multiset(b) && |a| == |b|
  {
    forall x ensures multiset(a)[x] == multiset(b)[x] {
      DistinctMultiset(a, x);
      DistinctMultiset(b, x);
    }
    SameLength(a, b);
  }

  lemma {:induction false} MultisetDistinct(a: seq<int>, b: seq<int>)
    requires Distinct(a) && multiset(a) == multiset(b)
    ensures Distinct(b) && (forall x :: x in b <==> x in a)
  {
    forall x ensures x in b <==> x in a { assert x in multiset(a) <==> x in multiset(b); }
    forall i, j | 0 <= i < j < |b| ensures b[i] != b[j] {
      if b[i] == b[j] {
        assert b == b[..j] + [b[j]] + b[j + 1..];
        assert b[..j][i] == b[j];
        assert multiset(b)[b[j]] == multiset(b[..j])[b[j]] + 1 + multiset(b[j + 1..])[b[j]];
        DistinctMultiset(a, b[j]);
      }
    }
  }

  function Upto(n: nat): (r: seq<int>)
    ensures |r| == n && Distinct(r) && forall x :: x in r <==> 0 <= x < n
  {
    if n == 0 then []
    else
      DistinctAppend(Upto(n - 1), n - 1);
      Upto(n - 1) + [n - 1]
  }

  /** A list without repetitions that is as long as a list containing its elements has all of them. */
  lemma {:induction false} FullList(a: seq<int>, b: seq<int>)
    requires Distinct(a) && Distinct(b) && |a| >= |b| && forall x :: x in a ==> x in b
    ensures |a| == |b| && forall x :: x in b ==> x in a
    decreases |a|
  {
    if a != [] {
      var last, init := a[|a| - 1], a[..|a| - 1];
      assert a == init + [last];
      assert last in b;
      var i :| 0 <= i < |b| && b[i] == last;
      var rest := b[..i] + b[i + 1..];
      forall x ensures x in rest <==> x in b && x != last {
        WithoutElement(b, i, x);
      }
      assert Distinct(rest);
      forall x | x in init ensures x in rest {
        assert x in a;
        var k :| 0 <= k < |init| && init[k] == x;
        assert a[k] != a[|a| - 1];
      }
      FullList(init, rest);
    }
  }

  lemma WithoutElement(b: seq<int>, i: nat, x: int)
    requires Distinct(b) && i < |b|
    ensures x in b[..i] + b[i + 1..] <==> x in b && x != b[i]
  {
    var rest := b[..i] + b[i + 1..];
    if x in b && x != b[i] {
      var k :| 0 <= k < |b| && b[k] == x;
      if k < i {
        assert rest[k] == x;
      } else {
        var back := k - 1;
        assert rest[back] == x;
      }
    }
  }

  // ----- The mapping of an arrangement -----

  /** The parameter that position `i` stands for, or -1 for the omitted position. */
  function ValueAt(order: seq<int>, i: int): (v: int)
    ensures i in order ==> 0 <= v < |order| && order[v] == i
    ensures i !in order ==> v == -1
  {
    if order == [] then -1
    else if order[|order| - 1] == i then |order| - 1
    else
      assert order == order[..|order| - 1] + [order[|order| - 1]];
      ValueAt(order[..|order| - 1], i)
  }

  function ValuesAt(order: seq<int>, positions: seq<int>): (r: seq<int>)
    ensures |r| == |positions| && forall i :: 0 <= i < |r| ==> r[i] == ValueAt(order, positions[i])
  {
    seq(|positions|, i requires 0 <= i < |positions| => ValueAt(order, positions[i]))
  }

  /** Every position is used or omitted. */
  lemma Surjective(params: seq<string>, args: seq<string>, order: seq<int>, omitted: int, i: int)
    requires IsMatch(params, args, order, omitted) && 0 <= i < |args|
    ensures i in order || i == omitted
  {
    var all := if omitted == -1 then order else order + [omitted];
    assert Distinct(all);
    FullList(all, Upto(|args|));
    assert i in all;
  }

  /** The images of the positions that hold `key`. */
  function ImagesOf(params: seq<string>, args: seq<string>, omitted: int, key: string): (r: seq<int>)
    ensures Distinct(r)
    ensures forall v :: v in r <==> (0 <= v < |params| && params[v] == key) || (v == -1 && 0 <= omitted < |args| && args[omitted] == key)
  {
    var own := PositionsOf(params, key);
    assert forall k :: 0 <= k < |own| ==> own[k] in own && own[k] >= 0;
    own + if 0 <= omitted < |args| && args[omitted] == key then [-1] else []
  }

  /** The arrangement pairs the positions of each argument with its images. */
  lemma MatchBlock(params: seq<string>, args: seq<string>, order: seq<int>, omitted: int, key: string)
    requires IsMatch(params, args, order, omitted)
    ensures multiset(ValuesAt(order, PositionsOf(args, key))) == multiset(ImagesOf(params, args, omitted, key))
    ensures |PositionsOf(args, key)| == |ImagesOf(params, args, omitted, key)|
  {
    var ps := PositionsOf(args, key);
    var values, images := ValuesAt(order, ps), ImagesOf(params, args, omitted, key);
    forall i | 0 <= i < |ps| ensures ps[i] in order || ps[i] == omitted {
      assert ps[i] in ps;
      Surjective(params, args, order, omitted, ps[i]);
    }
    forall v | v in values ensures v in images {
      var i :| 0 <= i < |values| && values[i] == v;
      assert ps[i] in ps;
    }
    forall v | v in images ensures v in values {
      var p := if v == -1 then omitted else order[v];
      assert p in ps;
      var i :| 0 <= i < |ps| && ps[i] == p;
      assert values[i] == v;
    }
    DistinctSame(values, images);
  }
}
