/**
  When the goal has one assignment (translate.py:459-467).  The source asserts it;
  the conditions here are about the literals of the goal and the groups alone.
 */
module GoalAssertion {
  import opened Wrappers
  import opened Strips
  import opened SasTasks = SasTasks
  import opened FactGroups
  import opened Encodings
  import opened Conditions
  import opened BoxEnumeration
  import opened ConditionTranslation

  function PositiveAtoms(c: seq<Literal>): (w: World)
    ensures forall a :: a in w <==> Literal(a, false) in c
  {
    set l | l in c && !l.negated :: l.atom
  }

  /** `c` asks for two facts of a group, or for a grouped fact and its negation. */
  predicate Clash(groups: seq<seq<Atom>>, c: seq<Literal>) {
    || !Respects(PositiveAtoms(c), groups)
    || exists a :: a in AllFacts(groups) && Literal(a, false) in c && Literal(a, true) in c
  }

  /** `c` negates facts of the group without asking for one, and does not negate all. */
  predicate OpenGroup(group: seq<Atom>, c: seq<Literal>) {
    && (exists a :: a in group && Literal(a, true) in c)
    && (forall a :: a in group ==> Literal(a, false) !in c)
    && (exists a :: a in group && Literal(a, true) !in c)
  }

  predicate AnyOpen(groups: seq<seq<Atom>>, c: seq<Literal>) {
    exists v :: 0 <= v < |groups| && OpenGroup(groups[v], c)
  }

  function Negated(group: seq<Atom>, c: seq<Literal>): (r: set<Atom>)
    ensures forall a :: a in r <==> a in group && Literal(a, true) in c
  {
    set a | a in group && Literal(a, true) in c
  }

  /** An open group in numbers: some facts are negated, none is asked for, and with the
      value for "none of those" at least two values are left. */
  lemma OpenInNumbers(group: seq<Atom>, c: seq<Literal>)
    ensures OpenGroup(group, c) <==>
      && Negated(group, c) != {} && (forall a :: a in group ==> Literal(a, false) !in c)
      && |SetOf(group)| + 1 - |Negated(group, c)| >= 2
  {
    var all, out := SetOf(group), Negated(group, c);
    assert |all| == |out| + |all - out| by { assert all == out + (all - out); }
    if OpenGroup(group, c) {
      var a :| a in group && Literal(a, true) in c;
      assert a in out;
      var b :| b in group && Literal(b, true) !in c;
      assert b in all - out;
    }
    if out != {} && |all - out| >= 1 {
      var a := Member(out);
      var b := Member(all - out);
    }
  }

  lemma PairOf(groups: seq<seq<Atom>>, enc: Encoding, v: int, i: int)
    requires IsEncoding(groups, enc) && 0 <= v < |groups| && 0 <= i < |groups[v]|
    ensures Fact(v, i) in Pairs(enc.dictionary, groups[v][i])
  {
    var f := Fact(v, i);
    assert groups[f.v][f.val] == groups[v][i];
  }

  lemma Grouped(groups: seq<seq<Atom>>, enc: Encoding, a: Atom)
    requires IsEncoding(groups, enc)
    ensures a in enc.dictionary <==> a in AllFacts(groups)
  {
    if a in AllFacts(groups) {
      var v :| 0 <= v < |groups| && a in groups[v];
      var i :| 0 <= i < |groups[v]| && groups[v][i] == a;
      PairOf(groups, enc, v, i);
    }
    if a in enc.dictionary {
      var f := Pairs(enc.dictionary, a)[0];
      assert f in Pairs(enc.dictionary, a);
      assert groups[f.v][f.val] == a;
      assert a in groups[f.v];
    }
  }

  // ----- Impossible conditions -----

  /** Without a clash the code of the positive atoms satisfies the condition. */
  lemma NoClashHolds(groups: seq<seq<Atom>>, enc: Encoding, c: seq<Literal>)
    requires IsEncoding(groups, enc) && !Clash(groups, c)
    ensures !ExactInStates(enc, c, None)
  {
    var w := PositiveAtoms(c);
    var s := Encode(groups, w);
    EncodeEncodes(groups, enc, w);
    EncodingIsWellFormed(groups, enc);
    EncodesCoherent(enc, s, w);
    hide IsEncoding, Encodes, Coherent, WellFormed, Respects, LitHolds;
    forall i | 0 <= i < |c| ensures LitHolds(enc.dictionary, s, c[i]) {
      var l := c[i];
      assert l in c;
      Grouped(groups, enc, l.atom);
      if l.atom in enc.dictionary {
        LiteralTruth(enc, s, w, l);
        if l.negated { assert l == Literal(l.atom, true); } else { assert l == Literal(l.atom, false); }
      } else {
        NoPairs(enc.dictionary, s, l);
      }
    }
    assert LitsHold(enc.dictionary, s, c);
  }

  lemma NoPairs(d: Dictionary, s: State, l: Literal)
    requires l.atom !in d
    ensures LitHolds(d, s, l)
  {
  }

  function SomeValue(b: Box, v: int): (x: int)
    ensures v in b && b[v] != {} ==> x in b[v]
  {
    if v in b && b[v] != {} then Least(b[v]) else 0
  }

  function BoxState(n: nat, b: Box): (s: State) {
    seq(n, v => SomeValue(b, v))
  }

  lemma BoxStateInside(enc: Encoding, b: Box)
    requires ValidBox(enc.ranges, b) && forall v :: 0 <= v < |enc.ranges| ==> enc.ranges[v] > 0
    ensures InBox(BoxState(|enc.ranges|, b), b) && ValidState(enc.ranges, BoxState(|enc.ranges|, b))
  {
    var s := BoxState(|enc.ranges|, b);
    forall v | v in b ensures 0 <= v < |s| && s[v] in b[v] { assert b[v] != {}; }
  }

  lemma PositiveMet(d: Dictionary, s: State, c: seq<Literal>, a: Atom, f: Fact)
    requires PositivesHold(d, s, c) && Literal(a, false) in c && f in Pairs(d, a)
    ensures Holds(s, f)
  {
    var i :| 0 <= i < |c| && c[i] == Literal(a, false);
    assert LitHolds(d, s, c[i]);
  }

  /** A condition with a clash has no box. */
  lemma ClashHasNoBox(groups: seq<seq<Atom>>, enc: Encoding, c: seq<Literal>, b: Box, flat: seq<Condition>)
    requires IsEncoding(groups, enc) && BoxFor(enc, c, b, flat)
    ensures !Clash(groups, c)
  {
    var s, d, w := BoxState(|enc.ranges|, b), enc.dictionary, PositiveAtoms(c);
    BoxStateInside(enc, b);
    assert PositivesHold(d, s, c) && NegativesMet(d, s, c);
    hide IsEncoding, BoxFor, PositivesHold, NegativesMet, InBox, ValidState;
    forall v | 0 <= v < |groups| ensures AtMostOne(w, groups[v]) {
      forall i, j | 0 <= i < |groups[v]| && 0 <= j < |groups[v]| && groups[v][i] in w && groups[v][j] in w
        ensures groups[v][i] == groups[v][j]
      {
        PairOf(groups, enc, v, i);
        PairOf(groups, enc, v, j);
        PositiveMet(d, s, c, groups[v][i], Fact(v, i));
        PositiveMet(d, s, c, groups[v][j], Fact(v, j));
      }
    }
    forall a | a in AllFacts(groups) && Literal(a, false) in c ensures Literal(a, true) !in c {
      Grouped(groups, enc, a);
      forall k | 0 <= k < |Pairs(d, a)| ensures Holds(s, Pairs(d, a)[k]) { PositiveMet(d, s, c, a, Pairs(d, a)[k]); }
      HasPairs(groups, enc, a);
      assert AllHold(s, Pairs(d, a));
      if Literal(a, true) in c { NegatedFails(d, s, c, a); }
    }
  }

  lemma NegatedFails(d: Dictionary, s: State, c: seq<Literal>, a: Atom)
    requires NegativesMet(d, s, c) && Literal(a, true) in c && Pairs(d, a) != []
    ensures !AllHold(s, Pairs(d, a))
  {
    var k :| 0 <= k < |c| && c[k] == Literal(a, true);
    assert c[k].negated;
  }

  lemma HasPairs(groups: seq<seq<Atom>>, enc: Encoding, a: Atom)
    requires IsEncoding(groups, enc) && a in enc.dictionary
    ensures Pairs(enc.dictionary, a) != []
  {
  }

  // ----- Conditions with one assignment -----

  /** With the partial encoding all valid states are coherent. */
  lemma ValidIsCoherent(enc: Encoding, s: State)
    requires Partial(enc.dictionary) && ValidState(enc.ranges, s)
    ensures Coherent(enc, s)
  {
    forall a | a in enc.dictionary ensures Agree(s, enc.dictionary[a]) {
      assert |enc.dictionary[a]| == 1;
    }
  }

  /** In valid states the box is the condition. */
  lemma BoxMeans(enc: Encoding, c: seq<Literal>, b: Box, flat: seq<Condition>, s: State)
    requires Partial(enc.dictionary) && BoxFor(enc, c, b, flat) && ValidState(enc.ranges, s)
    ensures InBox(s, b) <==> LitsHold(enc.dictionary, s, c)
  {
    ValidIsCoherent(enc, s);
    hide Coherent, InBox, LitsHold, PositivesHold, NegativesHold, Enumerates;
    BothHold(enc.dictionary, s, c);
  }

  /** Variable `v` may take the value `x` as far as the literals about it are concerned. */
  predicate Free(group: seq<Atom>, c: seq<Literal>, x: int) {
    && (forall a :: a in group ==> Literal(a, false) !in c)
    && (0 <= x <= |group|) && (x < |group| ==> Literal(group[x], true) !in c)
  }

  lemma FreeHolds(groups: seq<seq<Atom>>, enc: Encoding, c: seq<Literal>, s: State, v: int, x: int)
    requires IsEncoding(groups, enc) && ValidState(enc.ranges, s) && LitsHold(enc.dictionary, s, c)
    requires 0 <= v < |groups| && Free(groups[v], c, x)
    ensures LitsHold(enc.dictionary, s[v := x], c) && ValidState(enc.ranges, s[v := x])
  {
    var t, d := s[v := x], enc.dictionary;
    forall i | 0 <= i < |c| ensures LitHolds(d, t, c[i]) {
      var l := c[i];
      assert l in c && LitHolds(d, s, l);
      assert l == Literal(l.atom, l.negated);
      forall k | 0 <= k < |Pairs(d, l.atom)|
        ensures if l.negated then !Holds(t, Pairs(d, l.atom)[k]) else Holds(t, Pairs(d, l.atom)[k])
      {
        var f := Pairs(d, l.atom)[k];
        assert f in Pairs(d, l.atom);
        assert InGroups(groups, f) && groups[f.v][f.val] == l.atom;
        assert l.negated <==> !Holds(s, f);
      }
    }
  }

  lemma NegatedMeans(groups: seq<seq<Atom>>, enc: Encoding, c: seq<Literal>, s: State, v: int)
    requires IsEncoding(groups, enc) && ValidState(enc.ranges, s) && LitsHold(enc.dictionary, s, c)
    requires 0 <= v < |groups| && s[v] < |groups[v]|
    ensures Literal(groups[v][s[v]], true) !in c
  {
    if Literal(groups[v][s[v]], true) in c {
      var i :| 0 <= i < |c| && c[i] == Literal(groups[v][s[v]], true);
      assert LitHolds(enc.dictionary, s, c[i]);
      PairOf(groups, enc, v, s[v]);
      assert Holds(s, Fact(v, s[v]));
    }
  }

  /** The values an open group leaves are in the box. */
  lemma OpenHasTwo(groups: seq<seq<Atom>>, enc: Encoding, c: seq<Literal>, b: Box, flat: seq<Condition>, v: int)
    requires IsEncoding(groups, enc) && Partial(enc.dictionary) && BoxFor(enc, c, b, flat)
    requires 0 <= v < |groups| && OpenGroup(groups[v], c)
    ensures !SingleValued(b)
  {
    var s := BoxState(|enc.ranges|, b);
    BoxStateInside(enc, b);
    GroupFits(groups, enc, v);
    var g := groups[v];
    hide IsEncoding, BoxFor, ValidState;
    var out :| out in g && Literal(out, true) in c;
    var inn :| inn in g && Literal(inn, true) !in c;
    var i :| 0 <= i < |g| && g[i] == out;
    var j :| 0 <= j < |g| && g[j] == inn;
    FreeInBox(groups, enc, c, b, flat, s, v, |g|);
    FreeInBox(groups, enc, c, b, flat, s, v, j);
    NegatedNotInBox(groups, enc, c, b, flat, s, v, i);
    hide OpenGroup, InBox;
    BoxVariable(b, s, v, i, |g|, j);
  }

  lemma GroupFits(groups: seq<seq<Atom>>, enc: Encoding, v: int)
    requires IsEncoding(groups, enc) && 0 <= v < |groups|
    ensures |enc.ranges| == |groups| && enc.ranges[v] == |groups[v]| + 1
  {
  }

  lemma FreeInBox(groups: seq<seq<Atom>>, enc: Encoding, c: seq<Literal>, b: Box, flat: seq<Condition>, s: State, v: int,
      x: int)
    requires IsEncoding(groups, enc) && Partial(enc.dictionary) && BoxFor(enc, c, b, flat)
    requires ValidState(enc.ranges, s) && InBox(s, b) && 0 <= v < |groups| && |groups| == |s| && Free(groups[v], c, x)
    ensures InBox(s[v := x], b)
  {
    hide IsEncoding, BoxFor, ValidState, InBox, Free, LitsHold;
    BoxMeans(enc, c, b, flat, s);
    FreeHolds(groups, enc, c, s, v, x);
    BoxMeans(enc, c, b, flat, s[v := x]);
  }

  lemma NegatedNotInBox(groups: seq<seq<Atom>>, enc: Encoding, c: seq<Literal>, b: Box, flat: seq<Condition>, s: State,
      v: int, i: int)
    requires IsEncoding(groups, enc) && Partial(enc.dictionary) && BoxFor(enc, c, b, flat)
    requires ValidState(enc.ranges, s) && 0 <= v < |groups| && |groups| == |s|
    requires 0 <= i < |groups[v]| && Literal(groups[v][i], true) in c
    ensures !InBox(s[v := i], b)
  {
    GroupFits(groups, enc, v);
    var u := s[v := i];
    assert ValidState(enc.ranges, u) && u[v] == i;
    hide IsEncoding, BoxFor, ValidState, InBox, LitsHold;
    BoxMeans(enc, c, b, flat, u);
    if LitsHold(enc.dictionary, u, c) { NegatedMeans(groups, enc, c, u, v); }
  }

  lemma BoxVariable(b: Box, s: State, v: int, i: int, x: int, y: int)
    requires 0 <= v < |s| && InBox(s, b) && !InBox(s[v := i], b) && InBox(s[v := x], b) && InBox(s[v := y], b) && x != y
    ensures v in b && |b[v]| != 1
  {
    assert v in b;
    assert s[v := x][v] in b[v] && s[v := y][v] in b[v];
    if |b[v]| == 1 { OneMember(b[v], x, y); }
  }

  /** A literal about `v` is about a fact of its group. */
  lemma TouchedGroup(groups: seq<seq<Atom>>, enc: Encoding, c: seq<Literal>, v: int) returns (l: Literal)
    requires IsEncoding(groups, enc) && Touches(enc.dictionary, c, v)
    ensures 0 <= v < |groups| && l in c && l.atom in groups[v]
  {
    var i :| 0 <= i < |c| && OnVar(Pairs(enc.dictionary, c[i].atom), v);
    l := c[i];
    var k :| 0 <= k < |Pairs(enc.dictionary, l.atom)| && Pairs(enc.dictionary, l.atom)[k].v == v;
    var f := Pairs(enc.dictionary, l.atom)[k];
    assert f in Pairs(enc.dictionary, l.atom);
    assert groups[f.v][f.val] == l.atom;
  }

  lemma FixedByPositive(groups: seq<seq<Atom>>, enc: Encoding, c: seq<Literal>, s: State, v: int, a: Atom, i: int)
    requires IsEncoding(groups, enc) && LitsHold(enc.dictionary, s, c)
    requires 0 <= v < |groups| && 0 <= i < |groups[v]| && groups[v][i] == a && Literal(a, false) in c
    ensures Holds(s, Fact(v, i))
  {
    PairOf(groups, enc, v, i);
    BothHold(enc.dictionary, s, c);
    PositiveMet(enc.dictionary, s, c, a, Fact(v, i));
  }

  lemma ValueHolds(groups: seq<seq<Atom>>, enc: Encoding, c: seq<Literal>, b: Box, flat: seq<Condition>, s: State,
      v: int, x: int)
    requires IsEncoding(groups, enc) && Partial(enc.dictionary) && BoxFor(enc, c, b, flat)
    requires ValidState(enc.ranges, s) && InBox(s, b) && v in b && x in b[v]
    ensures 0 <= v < |s| && ValidState(enc.ranges, s[v := x]) && LitsHold(enc.dictionary, s[v := x], c)
  {
    assert ValidState(enc.ranges, s[v := x]) && InBox(s[v := x], b);
    hide BoxFor, LitsHold, ValidState, InBox;
    BoxMeans(enc, c, b, flat, s[v := x]);
  }

  /** Two satisfying states that differ in a variable of the condition. */
  lemma DifferMeansOpen(groups: seq<seq<Atom>>, enc: Encoding, c: seq<Literal>, p: State, q: State, v: int)
    requires IsEncoding(groups, enc) && ValidState(enc.ranges, p) && ValidState(enc.ranges, q)
    requires LitsHold(enc.dictionary, p, c) && LitsHold(enc.dictionary, q, c)
    requires 0 <= v < |p| && |p| == |q| && p[v] != q[v] && Touches(enc.dictionary, c, v)
    ensures 0 <= v < |groups| && OpenGroup(groups[v], c)
  {
    var l := TouchedGroup(groups, enc, c, v);
    GroupFits(groups, enc, v);
    assert 0 <= p[v] <= |groups[v]| && 0 <= q[v] <= |groups[v]|;
    hide IsEncoding, LitsHold, ValidState, Touches;
    forall a | a in groups[v] ensures Literal(a, false) !in c {
      if Literal(a, false) in c {
        var i :| 0 <= i < |groups[v]| && groups[v][i] == a;
        FixedByPositive(groups, enc, c, p, v, a, i);
        FixedByPositive(groups, enc, c, q, v, a, i);
      }
    }
    assert l == Literal(l.atom, l.negated);
    var s := if p[v] < |groups[v]| then p else q;
    NegatedMeans(groups, enc, c, s, v);
    assert groups[v][s[v]] in groups[v];
  }

  /** A variable that keeps several values belongs to an open group. */
  lemma TwoMeansOpen(groups: seq<seq<Atom>>, enc: Encoding, c: seq<Literal>, b: Box, flat: seq<Condition>, v: int,
      x: int, y: int)
    requires IsEncoding(groups, enc) && Partial(enc.dictionary) && BoxFor(enc, c, b, flat)
    requires v in b && x in b[v] && y in b[v] && x != y
    ensures 0 <= v < |groups| && OpenGroup(groups[v], c)
  {
    var s := BoxState(|enc.ranges|, b);
    BoxStateInside(enc, b);
    assert Touches(enc.dictionary, c, v);
    hide BoxFor, IsEncoding, LitsHold, ValidState, InBox, Touches, OpenGroup;
    ValueHolds(groups, enc, c, b, flat, s, v, x);
    ValueHolds(groups, enc, c, b, flat, s, v, y);
    DifferMeansOpen(groups, enc, c, s[v := x], s[v := y], v);
  }

  lemma TwoValues(enc: Encoding, c: seq<Literal>, b: Box, flat: seq<Condition>, v: int) returns (x: int, y: int)
    requires BoxFor(enc, c, b, flat) && v in b && |b[v]| != 1
    ensures x in b[v] && y in b[v] && x != y
  {
    BoxHasValues(enc, b);
    hide BoxFor;
    x := SomeValue(b, v);
    assert b[v] == {x} + (b[v] - {x});
    y := Member(b[v] - {x});
  }

  lemma SingleIffNoneOpen(groups: seq<seq<Atom>>, enc: Encoding, c: seq<Literal>, b: Box, flat: seq<Condition>)
    requires IsEncoding(groups, enc) && Partial(enc.dictionary) && BoxFor(enc, c, b, flat)
    ensures SingleValued(b) <==> !AnyOpen(groups, c)
  {
    hide IsEncoding, BoxFor, OpenGroup;
    if AnyOpen(groups, c) {
      var v :| 0 <= v < |groups| && OpenGroup(groups[v], c);
      OpenHasTwo(groups, enc, c, b, flat, v);
    }
    if !SingleValued(b) {
      var v :| v in b && |b[v]| != 1;
      var x, y := TwoValues(enc, c, b, flat, v);
      TwoMeansOpen(groups, enc, c, b, flat, v, x, y);
    }
  }

  /** What the translation of a condition comes to, in terms of its literals: no
      assignment at all exactly when it clashes with the fact groups or the mutex
      groups, and otherwise a single one exactly when no group is open. */
  lemma TranslationOutcome(groups: seq<seq<Atom>>, enc: Encoding, mutexGroups: seq<seq<Atom>>, mutex: Encoding,
      c: seq<Literal>, r: Option<seq<Condition>>)
    requires IsEncoding(groups, enc) && Partial(enc.dictionary) && IsEncoding(mutexGroups, mutex)
    requires Translated(enc, mutex, c, r)
    ensures r.None? <==> Clash(groups, c) || Clash(mutexGroups, c)
    ensures r.Some? ==> (|r.value| == 1 <==> !AnyOpen(groups, c))
  {
    hide IsEncoding, BoxFor, Clash, ExactInStates, AnyOpen, SingleValued;
    if r.None? {
      if !Clash(groups, c) { NoClashHolds(groups, enc, c); }
      if !Clash(mutexGroups, c) { NoClashHolds(mutexGroups, mutex, c); }
    } else {
      var b :| BoxFor(enc, c, b, r.value);
      var d, flat :| BoxFor(mutex, c, d, flat);
      ClashHasNoBox(groups, enc, c, b, r.value);
      ClashHasNoBox(mutexGroups, mutex, c, d, flat);
      SingleIffNoneOpen(groups, enc, c, b, r.value);
      BoxChoices(enc, c, b, r.value);
    }
  }

  lemma BoxChoices(enc: Encoding, c: seq<Literal>, b: Box, flat: seq<Condition>)
    requires BoxFor(enc, c, b, flat)
    ensures |flat| == 1 <==> SingleValued(b)
  {
    BoxHasValues(enc, b);
    SingleIffOneChoice(b, flat);
  }
}
