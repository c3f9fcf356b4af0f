/**
  Reading a STRIPS state out of a finite-domain state (translate.py:52-60).

  Every fact group becomes a variable whose values are the facts of the group and
  one last value for "none of those".  `Encodes` relates the two kinds of states;
  with the partial encoding every valid finite-domain state encodes a STRIPS state,
  and a STRIPS state has a code exactly when it respects the groups.
 */
module Encodings {
  import opened Wrappers
  import opened Sorting
  import opened Strips
  import opened SasTasks = SasTasks
  import opened FactGroups

  type Dictionary = map<Atom, seq<Fact>>

  datatype Encoding = Encoding(ranges: seq<int>, dictionary: Dictionary)

  /** `dictionary.get(a, ())` */
  function Pairs(d: Dictionary, a: Atom): seq<Fact> {
    if a in d then d[a] else []
  }

  /** Variable `f.v` stands for `groups[f.v]`, and `f.val` is a position in that group. */
  predicate InGroups(groups: seq<seq<Atom>>, f: Fact) {
    0 <= f.v < |groups| && 0 <= f.val < |groups[f.v]|
  }

  /** Each atom lists exactly its positions in the groups, in ascending order. */
  ghost predicate IsDictionary(groups: seq<seq<Atom>>, d: Dictionary) {
    && (forall a, f :: f in Pairs(d, a) <==> InGroups(groups, f) && groups[f.v][f.val] == a)
    && (forall a :: a in d ==> d[a] != [] && StrictlySorted(FactLess, d[a]))
  }

  /** Each variable has one value more than its group, and the dictionary lists positions. */
  ghost predicate Numbers(groups: seq<seq<Atom>>, enc: Encoding) {
    && |enc.ranges| == |groups| && (forall v :: 0 <= v < |groups| ==> enc.ranges[v] == |groups[v]| + 1)
    && IsDictionary(groups, enc.dictionary)
  }

  ghost predicate IsEncoding(groups: seq<seq<Atom>>, enc: Encoding) {
    Numbers(groups, enc) && forall v :: 0 <= v < |groups| ==> Distinct(groups[v])
  }

  predicate Partial(d: Dictionary) {
    forall a :: a in d ==> |d[a]| == 1
  }

  // ----- Building the dictionary -----

  /** `InGroups` restricted to the positions read so far: all groups before `v`
      and the first `n` facts of group `v`. */
  predicate ReadSoFar(groups: seq<seq<Atom>>, v: int, n: int, f: Fact) {
    InGroups(groups, f) && FactLess(f, Fact(v, n))
  }

  ghost predicate PartOfDictionary(groups: seq<seq<Atom>>, v: int, n: int, d: Dictionary) {
    && (forall a, f :: f in Pairs(d, a) <==> ReadSoFar(groups, v, n, f) && groups[f.v][f.val] == a)
    && (forall a :: a in d ==> d[a] != [] && StrictlySorted(FactLess, d[a]))
  }

  lemma ReadOne(groups: seq<seq<Atom>>, v: int, n: int, d: Dictionary)
    requires 0 <= v < |groups| && 0 <= n < |groups[v]| && PartOfDictionary(groups, v, n, d)
    ensures PartOfDictionary(groups, v, n + 1, d[groups[v][n] := Pairs(d, groups[v][n]) + [Fact(v, n)]])
  {
    var b := groups[v][n];
    var e := d[b := Pairs(d, b) + [Fact(v, n)]];
    forall a, f ensures f in Pairs(e, a) <==> ReadSoFar(groups, v, n + 1, f) && groups[f.v][f.val] == a {
      assert f in Pairs(e, a) <==> f in Pairs(d, a) || (a == b && f == Fact(v, n));
      assert FactLess(f, Fact(v, n + 1)) <==> FactLess(f, Fact(v, n)) || f == Fact(v, n);
    }
    forall i | 0 <= i < |Pairs(d, b)| ensures FactLess(Pairs(d, b)[i], Fact(v, n)) {
      assert Pairs(d, b)[i] in Pairs(d, b);
    }
  }

  lemma NextGroup(groups: seq<seq<Atom>>, v: int, d: Dictionary)
    requires 0 <= v < |groups| && PartOfDictionary(groups, v, |groups[v]|, d)
    ensures PartOfDictionary(groups, v + 1, 0, d)
  {
    forall f | InGroups(groups, f)
      ensures FactLess(f, Fact(v, |groups[v]|)) <==> FactLess(f, Fact(v + 1, 0)) {}
  }

  /** The assertion that every atom has a single pair fails exactly when it is made
      for groups that are not disjoint. */
  method StripsToSasDictionary(groups: seq<seq<Atom>>, assertPartial: bool) returns (r: Option<Encoding>)
    ensures r.None? <==> assertPartial && !Disjoint(groups)
    ensures r.Some? ==> Numbers(groups, r.value) && (Partial(r.value.dictionary) <==> Disjoint(groups))
    ensures r.Some? && (forall v :: 0 <= v < |groups| ==> Distinct(groups[v])) ==> IsEncoding(groups, r.value)
  {
    hide PartOfDictionary;
    var d: Dictionary := map[];
    assert PartOfDictionary(groups, 0, 0, d) by { EmptyDictionary(groups); }
    for v := 0 to |groups|
      invariant PartOfDictionary(groups, v, 0, d)
    {
      for n := 0 to |groups[v]|
        invariant PartOfDictionary(groups, v, n, d)
      {
        ReadOne(groups, v, n, d);
        d := d[groups[v][n] := Pairs(d, groups[v][n]) + [Fact(v, n)]];
      }
      NextGroup(groups, v, d);
    }
    var enc := Encoding(seq(|groups|, v requires 0 <= v < |groups| => |groups[v]| + 1), d);
    WholeDictionary(groups, d);
    DisjointIsPartial(groups, d);
    if assertPartial && exists a :: a in d && |d[a]| != 1 { return None; }
    return Some(enc);
  }

  lemma EmptyDictionary(groups: seq<seq<Atom>>)
    ensures PartOfDictionary(groups, 0, 0, map[])
  {
  }

  lemma WholeDictionary(groups: seq<seq<Atom>>, d: Dictionary)
    requires PartOfDictionary(groups, |groups|, 0, d)
    ensures IsDictionary(groups, d)
  {
    forall f | InGroups(groups, f) ensures FactLess(f, Fact(|groups|, 0)) {}
  }

  lemma OnePosition(groups: seq<seq<Atom>>, f: Fact, g: Fact)
    requires Disjoint(groups) && InGroups(groups, f) && InGroups(groups, g)
    requires groups[f.v][f.val] == groups[g.v][g.val]
    ensures f == g
  {
    assert groups[f.v][f.val] in SetOf(groups[f.v]) && groups[f.v][f.val] in SetOf(groups[g.v]);
  }

  /** An atom has a single pair exactly when no other position holds it. */
  lemma DisjointIsPartial(groups: seq<seq<Atom>>, d: Dictionary)
    requires IsDictionary(groups, d)
    ensures Disjoint(groups) <==> Partial(d)
  {
    if Disjoint(groups) {
      forall a | a in d ensures |d[a]| == 1 {
        if |d[a]| > 1 {
          var f, g := Pairs(d, a)[0], Pairs(d, a)[1];
          OnePosition(groups, f, g);
          assert false;
        }
      }
    }
    if Partial(d) {
      PartialIsDisjoint(groups, d);
    }
  }

  lemma PartialIsDisjoint(groups: seq<seq<Atom>>, d: Dictionary)
    requires IsDictionary(groups, d) && Partial(d)
    ensures Disjoint(groups)
  {
    forall f, g | InGroups(groups, f) && InGroups(groups, g) && groups[f.v][f.val] == groups[g.v][g.val]
      ensures f == g
    {
      var a := groups[f.v][f.val];
      assert f in Pairs(d, a) && g in Pairs(d, a);
    }
    forall v | 0 <= v < |groups| ensures Distinct(groups[v]) {
      forall i, j | 0 <= i < j < |groups[v]| ensures groups[v][i] != groups[v][j] {
        assert InGroups(groups, Fact(v, i)) && InGroups(groups, Fact(v, j));
      }
    }
    forall v, w | 0 <= v < w < |groups| ensures SetOf(groups[v]) !! SetOf(groups[w]) {
      forall a | a in groups[v] && a in groups[w] ensures false {
        var i :| 0 <= i < |groups[v]| && groups[v][i] == a;
        var j :| 0 <= j < |groups[w]| && groups[w][j] == a;
        assert InGroups(groups, Fact(v, i)) && InGroups(groups, Fact(w, j));
      }
    }
  }

  // ----- States -----

  /** `s` is a code of `w`: each pair of an atom holds exactly when the atom is true. */
  ghost predicate Encodes(enc: Encoding, s: State, w: World) {
    && ValidState(enc.ranges, s)
    && (forall a, f :: f in Pairs(enc.dictionary, a) ==> (a in w <==> Holds(s, f)))
  }

  /** The atoms whose first pair holds. */
  function Decode(enc: Encoding, s: State): (w: World)
    ensures w <= enc.dictionary.Keys
  {
    set a | a in enc.dictionary && enc.dictionary[a] != [] && Holds(s, enc.dictionary[a][0])
  }

  function PositionTrue(group: seq<Atom>, w: World): (n: nat)
    ensures n <= |group|
    ensures n < |group| ==> group[n] in w
    ensures n == |group| ==> forall i :: 0 <= i < |group| ==> group[i] !in w
  {
    if group == [] then 0
    else if group[0] in w then 0
    else
      var n := PositionTrue(group[1..], w);
      assert forall i :: 1 <= i < |group| ==> group[i] == group[1..][i - 1];
      1 + n
  }

  function Encode(groups: seq<seq<Atom>>, w: World): (s: State)
    ensures |s| == |groups| && forall v :: 0 <= v < |s| ==> s[v] == PositionTrue(groups[v], w)
  {
    seq(|groups|, v requires 0 <= v < |groups| => PositionTrue(groups[v], w) as int)
  }

  lemma CodeHolds(groups: seq<seq<Atom>>, enc: Encoding, s: State, w: World, v: int, i: int)
    requires IsEncoding(groups, enc) && Encodes(enc, s, w) && InGroups(groups, Fact(v, i))
    ensures groups[v][i] in w <==> s[v] == i
  {
    var f, a := Fact(v, i), groups[v][i];
    assert groups[f.v][f.val] == a;
    assert f in Pairs(enc.dictionary, a);
    assert a in w <==> Holds(s, f);
  }

  lemma EncodeEncodes(groups: seq<seq<Atom>>, enc: Encoding, w: World)
    requires IsEncoding(groups, enc) && Respects(w, groups)
    ensures Encodes(enc, Encode(groups, w), w)
  {
    var c := Encode(groups, w);
    forall a, f | f in Pairs(enc.dictionary, a) ensures a in w <==> Holds(c, f) {
      assert groups[f.v][f.val] == a && AtMostOne(w, groups[f.v]);
    }
  }

  /** A STRIPS state has at most one code. */
  lemma CodeIsUnique(groups: seq<seq<Atom>>, enc: Encoding, s: State, w: World)
    requires IsEncoding(groups, enc) && Encodes(enc, s, w)
    ensures s == Encode(groups, w)
  {
    var c := Encode(groups, w);
    forall v | 0 <= v < |s| ensures s[v] == c[v] {
      if s[v] < |groups[v]| { CodeHolds(groups, enc, s, w, v, s[v]); }
      if c[v] < |groups[v]| { CodeHolds(groups, enc, s, w, v, c[v]); }
    }
  }

  lemma EncodesRespects(groups: seq<seq<Atom>>, enc: Encoding, s: State, w: World)
    requires IsEncoding(groups, enc) && Encodes(enc, s, w)
    ensures Respects(w, groups)
  {
    forall v | 0 <= v < |groups| ensures AtMostOne(w, groups[v]) {
      forall i, j | 0 <= i < |groups[v]| && 0 <= j < |groups[v]| && groups[v][i] in w && groups[v][j] in w
        ensures groups[v][i] == groups[v][j]
      {
        CodeHolds(groups, enc, s, w, v, i);
        CodeHolds(groups, enc, s, w, v, j);
      }
    }
  }

  /** Exactly the states that respect the groups have a code. */
  lemma HasCodeIffRespects(groups: seq<seq<Atom>>, enc: Encoding, w: World)
    requires IsEncoding(groups, enc)
    ensures (exists s :: Encodes(enc, s, w)) <==> Respects(w, groups)
  {
    if Respects(w, groups) { EncodeEncodes(groups, enc, w); }
    forall s | Encodes(enc, s, w) ensures Respects(w, groups) { EncodesRespects(groups, enc, s, w); }
  }

  /** With the partial encoding every valid state is the code of what it decodes to. */
  lemma DecodeEncodes(groups: seq<seq<Atom>>, enc: Encoding, s: State)
    requires IsEncoding(groups, enc) && Partial(enc.dictionary) && ValidState(enc.ranges, s)
    ensures Encodes(enc, s, Decode(enc, s))
    ensures Encode(groups, Decode(enc, s)) == s
  {
    var w := Decode(enc, s);
    forall a, f | f in Pairs(enc.dictionary, a) ensures a in w <==> Holds(s, f) {
      assert f == enc.dictionary[a][0];
    }
    CodeIsUnique(groups, enc, s, w);
  }

  /** Decoding loses only atoms that are in no group. */
  lemma DecodeMeans(enc: Encoding, s: State, w: World)
    requires Encodes(enc, s, w) && forall a :: a in enc.dictionary ==> enc.dictionary[a] != []
    ensures Decode(enc, s) == w * enc.dictionary.Keys
  {
    forall a | a in enc.dictionary ensures a in w <==> Holds(s, enc.dictionary[a][0]) {
      assert enc.dictionary[a][0] in Pairs(enc.dictionary, a);
    }
  }
}
