/**
  Literals to assignments (translate.py:63-201): the translation of a conjunction
  is an exact disjunctive normal form in every state that encodes a STRIPS state,
  and the translation of a negated disjunction likewise.
 */
module ConditionTranslation {
  import opened Wrappers
  import opened Strips
  import opened SasTasks = SasTasks
  import opened Encodings
  import opened Conditions
  import opened BoxEnumeration

  // ----- Encodings the translation can use -----

  predicate WellFormed(enc: Encoding) {
    forall a :: a in enc.dictionary ==> WellFormedPairs(enc.ranges, enc.dictionary[a])
  }

  predicate WellFormedPairs(ranges: seq<int>, pairs: seq<Fact>) {
    && pairs != [] && ValidPairs(ranges, pairs) && DistinctVars(pairs)
    && (forall i :: 0 <= i < |pairs| && 0 <= pairs[i].v < |ranges| ==> ranges[pairs[i].v] >= 2)
  }

  lemma EncodingIsWellFormed(groups: seq<seq<Atom>>, enc: Encoding)
    requires IsEncoding(groups, enc)
    ensures WellFormed(enc)
  {
    forall a | a in enc.dictionary ensures WellFormedPairs(enc.ranges, enc.dictionary[a]) {
      var pairs := enc.dictionary[a];
      forall i | 0 <= i < |pairs| ensures InGroups(groups, pairs[i]) && groups[pairs[i].v][pairs[i].val] == a {
        assert pairs[i] in Pairs(enc.dictionary, a);
      }
    }
  }

  lemma EncodesCoherent(enc: Encoding, s: State, w: World)
    requires Encodes(enc, s, w)
    ensures Coherent(enc, s)
  {
    forall a | a in enc.dictionary ensures Agree(s, enc.dictionary[a]) {
      forall i | 0 <= i < |enc.dictionary[a]| ensures a in w <==> Holds(s, enc.dictionary[a][i]) {
        assert enc.dictionary[a][i] in Pairs(enc.dictionary, a);
      }
    }
  }

  /** In a code of `w`, the pairs of an atom say whether the literal is true. */
  lemma LiteralTruth(enc: Encoding, s: State, w: World, l: Literal)
    requires Encodes(enc, s, w) && WellFormed(enc) && l.atom in enc.dictionary
    ensures LitHolds(enc.dictionary, s, l) <==> True(w, l)
  {
    var pairs := enc.dictionary[l.atom];
    assert pairs[0] in Pairs(enc.dictionary, l.atom);
    forall i | 0 <= i < |pairs| ensures l.atom in w <==> Holds(s, pairs[i]) {
      assert pairs[i] in Pairs(enc.dictionary, l.atom);
    }
  }

  // ----- One conjunction -----

  predicate PositivesHold(d: Dictionary, s: State, c: seq<Literal>) {
    forall i :: 0 <= i < |c| && !c[i].negated ==> LitHolds(d, s, c[i])
  }

  predicate NegativesHold(d: Dictionary, s: State, c: seq<Literal>) {
    forall i :: 0 <= i < |c| && c[i].negated ==> LitHolds(d, s, c[i])
  }

  /** The box says that the positive literals of `c` hold. */
  ghost predicate BoxOfPositives(d: Dictionary, c: seq<Literal>, b: Box) {
    forall s: State :: InBox(s, b) <==> PositivesHold(d, s, c)
  }

  /** The box says, in coherent states, that the positive literals of `c` and the
      negative ones of `part` hold. */
  ghost predicate BoxOfLiterals(enc: Encoding, c: seq<Literal>, part: seq<Literal>, b: Box) {
    forall s: State :: Coherent(enc, s) ==>
      (InBox(s, b) <==> PositivesHold(enc.dictionary, s, c) && NegativesHold(enc.dictionary, s, part))
  }

  /** No state satisfies the box and the literal. */
  lemma PositiveStep(d: Dictionary, part: seq<Literal>, l: Literal, b: Box, r: Option<Box>)
    requires BoxOfPositives(d, part, b) && !l.negated
    requires r.None? ==> forall s: State :: InBox(s, b) ==> !AllHold(s, Pairs(d, l.atom))
    requires r.Some? ==> Requires(b, Pairs(d, l.atom), r.value)
    ensures r.None? ==> forall s: State :: !PositivesHold(d, s, part + [l])
    ensures r.Some? ==> BoxOfPositives(d, part + [l], r.value)
  {
    forall s: State
      ensures PositivesHold(d, s, part + [l]) <==> PositivesHold(d, s, part) && AllHold(s, Pairs(d, l.atom))
    {
      var more := part + [l];
      if PositivesHold(d, s, more) {
        assert LitHolds(d, s, more[|part|]);
        forall i | 0 <= i < |part| && !part[i].negated ensures LitHolds(d, s, part[i]) { assert more[i] == part[i]; }
      }
    }
  }

  lemma SkipPositive(d: Dictionary, part: seq<Literal>, l: Literal, b: Box)
    requires BoxOfPositives(d, part, b) && l.negated
    ensures BoxOfPositives(d, part + [l], b)
  {
    forall s: State ensures PositivesHold(d, s, part + [l]) <==> PositivesHold(d, s, part) {
      forall i | 0 <= i < |part| ensures (part + [l])[i] == part[i] {}
    }
  }

  lemma NegativesGrow(d: Dictionary, s: State, part: seq<Literal>, l: Literal)
    ensures NegativesHold(d, s, part + [l]) <==> NegativesHold(d, s, part) && (l.negated ==> LitHolds(d, s, l))
  {
    var more := part + [l];
    if NegativesHold(d, s, more) {
      assert l.negated ==> LitHolds(d, s, more[|part|]);
      forall i | 0 <= i < |part| && part[i].negated ensures LitHolds(d, s, part[i]) { assert more[i] == part[i]; }
    }
  }

  lemma SkipNegative(enc: Encoding, c: seq<Literal>, part: seq<Literal>, l: Literal, b: Box)
    requires BoxOfLiterals(enc, c, part, b) && !l.negated
    ensures BoxOfLiterals(enc, c, part + [l], b)
  {
    forall s: State ensures NegativesHold(enc.dictionary, s, part + [l]) <==> NegativesHold(enc.dictionary, s, part) {
      NegativesGrow(enc.dictionary, s, part, l);
    }
  }

  lemma NegativeStep(enc: Encoding, c: seq<Literal>, part: seq<Literal>, l: Literal, b: Box, r: Option<Box>)
    requires BoxOfLiterals(enc, c, part, b) && l.negated
    requires r.None? ==> forall s: State :: InBox(s, b) ==> !NoneHold(s, Pairs(enc.dictionary, l.atom))
    requires r.Some? ==> Forbids(enc.ranges, b, Pairs(enc.dictionary, l.atom), r.value)
    ensures r.None? ==> forall s: State :: Coherent(enc, s) ==>
      !(PositivesHold(enc.dictionary, s, c) && NegativesHold(enc.dictionary, s, part + [l]))
    ensures r.Some? ==> BoxOfLiterals(enc, c, part + [l], r.value)
  {
    hide PositivesHold, NegativesHold, InBox;
    forall s: State
      ensures NegativesHold(enc.dictionary, s, part + [l]) <==>
        NegativesHold(enc.dictionary, s, part) && NoneHold(s, Pairs(enc.dictionary, l.atom))
    {
      NegativesGrow(enc.dictionary, s, part, l);
    }
    forall s: State | Coherent(enc, s) ensures Agree(s, Pairs(enc.dictionary, l.atom)) {}
  }

  /** The result of translating `c`: exact in coherent states. */
  ghost predicate ExactInStates(enc: Encoding, c: seq<Literal>, r: Option<seq<Condition>>) {
    && (r.None? ==> forall s: State :: Coherent(enc, s) ==> !LitsHold(enc.dictionary, s, c))
    && (r.Some? ==> ValidMaps(enc.ranges, r.value) && Exclusive(r.value))
    && (r.Some? ==> forall s: State :: Coherent(enc, s) ==> (LitsHold(enc.dictionary, s, c) <==> Picks(s, r.value)))
  }

  lemma BothHold(d: Dictionary, s: State, c: seq<Literal>)
    ensures LitsHold(d, s, c) <==> PositivesHold(d, s, c) && NegativesHold(d, s, c)
  {
  }

  lemma PrefixHolds(d: Dictionary, s: State, c: seq<Literal>, k: int)
    requires 0 <= k <= |c|
    ensures LitsHold(d, s, c) ==> PositivesHold(d, s, c) && PositivesHold(d, s, c[..k]) && NegativesHold(d, s, c[..k])
  {
    forall i | 0 <= i < k ensures c[..k][i] == c[i] {}
  }

  lemma PositivesImpossible(enc: Encoding, c: seq<Literal>, k: int)
    requires 0 <= k <= |c| && forall s: State :: !PositivesHold(enc.dictionary, s, c[..k])
    ensures ExactInStates(enc, c, None)
  {
    forall s: State ensures !LitsHold(enc.dictionary, s, c) {
      PrefixHolds(enc.dictionary, s, c, k);
    }
  }

  lemma NegativesImpossible(enc: Encoding, c: seq<Literal>, k: int)
    requires 0 <= k <= |c|
    requires forall s: State :: Coherent(enc, s) ==>
      !(PositivesHold(enc.dictionary, s, c) && NegativesHold(enc.dictionary, s, c[..k]))
    ensures ExactInStates(enc, c, None)
  {
    forall s: State | Coherent(enc, s) ensures !LitsHold(enc.dictionary, s, c) {
      PrefixHolds(enc.dictionary, s, c, k);
    }
  }

  lemma BoxIsExact(enc: Encoding, c: seq<Literal>, b: Box, flat: seq<Condition>)
    requires BoxOfLiterals(enc, c, c, b) && ValidBox(enc.ranges, b) && Enumerates(b, b.Keys, flat)
    ensures ExactInStates(enc, c, Some(flat))
  {
    hide Exclusive, ValidMaps, InBox, Picks, PositivesHold, NegativesHold, Enumerates, LitsHold, Coherent;
    EnumerationIsExact(enc.ranges, b, flat);
    forall s: State | Coherent(enc, s) ensures LitsHold(enc.dictionary, s, c) <==> Picks(s, flat) {
      BothHold(enc.dictionary, s, c);
    }
  }

  /** Each negated literal that has pairs has one that fails. */
  predicate NegativesMet(d: Dictionary, s: State, c: seq<Literal>) {
    forall i :: 0 <= i < |c| && c[i].negated && Pairs(d, c[i].atom) != [] ==> !AllHold(s, Pairs(d, c[i].atom))
  }

  /** What the box says in any state, coherent or not. */
  ghost predicate Tight(d: Dictionary, c: seq<Literal>, part: seq<Literal>, b: Box) {
    forall s: State :: InBox(s, b) ==> PositivesHold(d, s, c) && NegativesMet(d, s, part)
  }

  /** Some literal of `c` is about variable `v`. */
  predicate Touches(d: Dictionary, c: seq<Literal>, v: int) {
    exists i :: 0 <= i < |c| && OnVar(Pairs(d, c[i].atom), v)
  }

  predicate AllTouched(d: Dictionary, c: seq<Literal>, b: Box) {
    forall v :: v in b ==> Touches(d, c, v)
  }

  /** `flat` multiplies out the box of `c`. */
  ghost predicate BoxFor(enc: Encoding, c: seq<Literal>, b: Box, flat: seq<Condition>) {
    && ValidBox(enc.ranges, b) && BoxOfLiterals(enc, c, c, b) && Enumerates(b, b.Keys, flat)
    && Tight(enc.dictionary, c, c, b) && AllTouched(enc.dictionary, c, b)
  }

  lemma StartTight(d: Dictionary, c: seq<Literal>, b: Box)
    requires BoxOfPositives(d, c, b)
    ensures Tight(d, c, [], b)
  {
  }

  lemma TightStep(d: Dictionary, c: seq<Literal>, part: seq<Literal>, l: Literal, b: Box, after: Box)
    requires Tight(d, c, part, b)
    requires if l.negated then Shrunk(b, Pairs(d, l.atom), after) else after == b
    ensures Tight(d, c, part + [l], after)
  {
    hide PositivesHold;
    var more := part + [l];
    forall s: State | InBox(s, after) ensures NegativesMet(d, s, more) {
      assert InBox(s, b);
      assert NegativesMet(d, s, part);
      forall i | 0 <= i < |more| && more[i].negated && Pairs(d, more[i].atom) != []
        ensures !AllHold(s, Pairs(d, more[i].atom))
      {
        if i < |part| { assert more[i] == part[i]; } else { assert more[i] == l; }
      }
    }
  }

  lemma TouchedStep(d: Dictionary, c: seq<Literal>, k: int, b: Box, after: Box)
    requires AllTouched(d, c, b) && 0 <= k < |c|
    requires forall v :: v in after ==> v in b || OnVar(Pairs(d, c[k].atom), v)
    ensures AllTouched(d, c, after)
  {
  }

  predicate AllPositive(c: seq<Literal>) {
    forall i :: 0 <= i < |c| ==> !c[i].negated
  }

  /** translate_strips_conditions_aux */
  method TranslateStripsConditionsAux(c: seq<Literal>, enc: Encoding) returns (r: Option<seq<Condition>>)
    requires WellFormed(enc)
    ensures ExactInStates(enc, c, r)
    ensures AllPositive(c) && r.Some? ==> |r.value| == 1
    ensures r.Some? ==> exists b :: BoxFor(enc, c, b, r.value)
  {
    hide SingleValued, BoxOfPositives, BoxOfLiterals, ExactInStates, Requires, Forbids, ValidBox, InBox,
      PositivesHold, NegativesHold, Tight, AllTouched, Touches, OnVar,
      LitHolds, Coherent, AllHold, NoneHold;
    var box := PositiveBox(c, enc);
    if box.None? { return None; }
    var b := box.value;
    for i := 0 to |c|
      invariant ValidBox(enc.ranges, b) && BoxOfLiterals(enc, c, c[..i], b)
      invariant Tight(enc.dictionary, c, c[..i], b) && AllTouched(enc.dictionary, c, b)
      invariant AllPositive(c) ==> SingleValued(b)
    {
      assert c[..i + 1] == c[..i] + [c[i]];
      if c[i].negated {
        var next := AddNegative(enc.ranges, b, Pairs(enc.dictionary, c[i].atom));
        NegativeStep(enc, c, c[..i], c[i], b, next);
        if next.None? {
          NegativesImpossible(enc, c, i + 1);
          return None;
        }
        TightStep(enc.dictionary, c, c[..i], c[i], b, next.value);
        TouchedStep(enc.dictionary, c, i, b, next.value);
        b := next.value;
      } else {
        SkipNegative(enc, c, c[..i], c[i], b);
        TightStep(enc.dictionary, c, c[..i], c[i], b, b);
      }
    }
    assert c[..|c|] == c;
    BoxHasValues(enc, b);
    var flat := MultiplyOut(b);
    BoxIsExact(enc, c, b, flat);
    if AllPositive(c) { OneChoice(b, flat); }
    assert BoxFor(enc, c, b, flat);
    return Some(flat);
  }

  lemma BoxHasValues(enc: Encoding, b: Box)
    requires ValidBox(enc.ranges, b)
    ensures forall v :: v in b ==> b[v] != {}
  {
  }

  lemma StartNegatives(enc: Encoding, c: seq<Literal>, b: Box)
    requires BoxOfPositives(enc.dictionary, c, b)
    ensures BoxOfLiterals(enc, c, [], b)
  {
  }

  /** The first pass: positive literals only. */
  method PositiveBox(c: seq<Literal>, enc: Encoding) returns (r: Option<Box>)
    requires WellFormed(enc)
    ensures r.None? ==> ExactInStates(enc, c, None)
    ensures r.Some? ==> ValidBox(enc.ranges, r.value) && BoxOfLiterals(enc, c, [], r.value)
    ensures r.Some? ==> SingleValued(r.value)
    ensures r.Some? ==> Tight(enc.dictionary, c, [], r.value) && AllTouched(enc.dictionary, c, r.value)
  {
    hide BoxOfPositives, BoxOfLiterals, ExactInStates, Requires, InBox, PositivesHold, LitHolds, AllHold, Tight, OnVar,
      Touches;
    var b: Box := map[];
    assert BoxOfPositives(enc.dictionary, [], b) by { EmptyBox(enc.dictionary); }
    for i := 0 to |c|
      invariant ValidBox(enc.ranges, b) && BoxOfPositives(enc.dictionary, c[..i], b) && SingleValued(b)
      invariant AllTouched(enc.dictionary, c, b)
    {
      assert c[..i + 1] == c[..i] + [c[i]];
      if c[i].negated {
        SkipPositive(enc.dictionary, c[..i], c[i], b);
      } else {
        var next := AddPositive(enc.ranges, b, Pairs(enc.dictionary, c[i].atom));
        PositiveStep(enc.dictionary, c[..i], c[i], b, next);
        if next.None? {
          PositivesImpossible(enc, c, i + 1);
          return None;
        }
        TouchedStep(enc.dictionary, c, i, b, next.value);
        b := next.value;
      }
    }
    assert c[..|c|] == c;
    StartNegatives(enc, c, b);
    StartTight(enc.dictionary, c, b);
    return Some(b);
  }

  lemma EmptyBox(d: Dictionary)
    ensures BoxOfPositives(d, [], map[])
  {
  }

  // ----- With the mutex check -----

  /** The state respects the groups behind `mutex`. */
  ghost predicate HasCode(mutex: Encoding, w: World) {
    exists m: State :: Encodes(mutex, m, w)
  }

  /** `s` encodes `w`, and `w` violates no mutex. */
  ghost predicate Legal(enc: Encoding, mutex: Encoding, s: State, w: World) {
    Encodes(enc, s, w) && HasCode(mutex, w)
  }

  /** Literals about atoms without a variable are true. */
  predicate Settled(enc: Encoding, w: World, c: seq<Literal>) {
    forall i :: 0 <= i < |c| ==> c[i].atom in enc.dictionary || True(w, c[i])
  }

  /** A translation of `c`: impossible, or an exact list of assignments. */
  ghost predicate Exact(enc: Encoding, mutex: Encoding, c: seq<Literal>, r: Option<seq<Condition>>) {
    && (r.Some? ==> ValidMaps(enc.ranges, r.value) && Exclusive(r.value))
    && (forall s, w :: Legal(enc, mutex, s, w) && Settled(enc, w, c) ==>
          (AllTrue(w, c) <==> r.Some? && Picks(s, r.value)))
  }

  lemma TrueMeansHold(enc: Encoding, s: State, w: World, c: seq<Literal>)
    requires Encodes(enc, s, w) && WellFormed(enc)
    ensures AllTrue(w, c) ==> LitsHold(enc.dictionary, s, c)
    ensures Settled(enc, w, c) ==> (AllTrue(w, c) <==> LitsHold(enc.dictionary, s, c))
  {
    forall i | 0 <= i < |c| && c[i].atom in enc.dictionary
      ensures LitHolds(enc.dictionary, s, c[i]) <==> True(w, c[i])
    {
      LiteralTruth(enc, s, w, c[i]);
    }
  }

  lemma MutexImpossible(enc: Encoding, mutex: Encoding, c: seq<Literal>)
    requires WellFormed(mutex) && ExactInStates(mutex, c, None)
    ensures Exact(enc, mutex, c, None)
  {
    forall s, w | Legal(enc, mutex, s, w) ensures !AllTrue(w, c) {
      var m :| Encodes(mutex, m, w);
      EncodesCoherent(mutex, m, w);
      TrueMeansHold(mutex, m, w, c);
    }
  }

  lemma StatesToWorlds(enc: Encoding, mutex: Encoding, c: seq<Literal>, r: Option<seq<Condition>>)
    requires WellFormed(enc) && ExactInStates(enc, c, r)
    ensures Exact(enc, mutex, c, r)
  {
    forall s, w | Legal(enc, mutex, s, w) && Settled(enc, w, c)
      ensures AllTrue(w, c) <==> r.Some? && Picks(s, r.value)
    {
      EncodesCoherent(enc, s, w);
      TrueMeansHold(enc, s, w, c);
    }
  }

  lemma EmptyIsExact(enc: Encoding, mutex: Encoding)
    ensures Exact(enc, mutex, [], Some([map[]]))
  {
    forall s: State ensures Picks(s, [map[]]) { assert SatMap(s, [map[]][0]); }
  }

  /** How a translation comes about: some encoding rules `c` out, or both give it a
      box, and the result multiplies out the box of `enc`. */
  ghost predicate Translated(enc: Encoding, mutex: Encoding, c: seq<Literal>, r: Option<seq<Condition>>) {
    && (r.None? ==> ExactInStates(enc, c, None) || ExactInStates(mutex, c, None))
    && (r.Some? ==> (exists b :: BoxFor(enc, c, b, r.value)) && exists b, flat :: BoxFor(mutex, c, b, flat))
  }

  lemma EmptyIsTranslated(enc: Encoding, mutex: Encoding)
    ensures Translated(enc, mutex, [], Some([map[]]))
  {
    EmptyBoxFor(enc);
    EmptyBoxFor(mutex);
  }

  lemma EmptyBoxFor(enc: Encoding)
    ensures BoxFor(enc, [], map[], [map[]])
  {
    EmptyChoice(map[]);
    assert KeySet([]) == {};
  }

  /** translate_strips_conditions */
  method TranslateStripsConditions(c: seq<Literal>, enc: Encoding, mutex: Encoding) returns (r: Option<seq<Condition>>)
    requires WellFormed(enc) && WellFormed(mutex)
    ensures Exact(enc, mutex, c, r) && Translated(enc, mutex, c, r)
    ensures AllPositive(c) && r.Some? ==> |r.value| == 1
  {
    hide Exact, ExactInStates, WellFormed, BoxFor;
    if c == [] {
      EmptyIsExact(enc, mutex);
      EmptyIsTranslated(enc, mutex);
      return Some([map[]]);
    }
    var check := TranslateStripsConditionsAux(c, mutex);
    if check.None? {
      MutexImpossible(enc, mutex, c);
      return None;
    }
    r := TranslateStripsConditionsAux(c, enc);
    StatesToWorlds(enc, mutex, c, r);
  }

  // ----- The negation of a disjunction -----

  /** `itertools.product(*dnf)` */
  function Product(dnf: seq<seq<Literal>>): seq<seq<Literal>> {
    if dnf == [] then [[]] else PrefixAll(dnf[0], Product(dnf[1..]))
  }

  function PrefixAll(ls: seq<Literal>, tails: seq<seq<Literal>>): seq<seq<Literal>> {
    if ls == [] then [] else PrefixEach(ls[0], tails) + PrefixAll(ls[1..], tails)
  }

  function PrefixEach(l: Literal, tails: seq<seq<Literal>>): (r: seq<seq<Literal>>)
    ensures |r| == |tails| && forall i :: 0 <= i < |r| ==> r[i] == [l] + tails[i]
  {
    if tails == [] then [] else [[l] + tails[0]] + PrefixEach(l, tails[1..])
  }

  function NegateAll(t: seq<Literal>): (r: seq<Literal>)
    ensures |r| == |t| && forall i :: 0 <= i < |r| ==> r[i] == t[i].Negate()
  {
    if t == [] then [] else [t[0].Negate()] + NegateAll(t[1..])
  }

  predicate AllFalse(w: World, t: seq<Literal>) {
    forall i :: 0 <= i < |t| ==> !True(w, t[i])
  }

  predicate AnyAllFalse(w: World, ts: seq<seq<Literal>>) {
    exists i :: 0 <= i < |ts| && AllFalse(w, ts[i])
  }

  /** Some disjunct of `dnf` is true. */
  predicate AnyTrue(w: World, dnf: seq<seq<Literal>>) {
    exists k :: 0 <= k < |dnf| && AllTrue(w, dnf[k])
  }

  lemma AllFalseCons(w: World, l: Literal, t: seq<Literal>)
    ensures AllFalse(w, [l] + t) <==> !True(w, l) && AllFalse(w, t)
  {
    var more := [l] + t;
    if AllFalse(w, more) {
      assert !True(w, more[0]);
      forall i | 0 <= i < |t| ensures !True(w, t[i]) { assert more[i + 1] == t[i]; }
    }
  }

  lemma AnyAllFalseAppend(w: World, a: seq<seq<Literal>>, b: seq<seq<Literal>>)
    ensures AnyAllFalse(w, a + b) <==> AnyAllFalse(w, a) || AnyAllFalse(w, b)
  {
    var c := a + b;
    if AnyAllFalse(w, a) {
      var i :| 0 <= i < |a| && AllFalse(w, a[i]);
      assert AllFalse(w, c[i]);
    }
    if AnyAllFalse(w, b) {
      var i :| 0 <= i < |b| && AllFalse(w, b[i]);
      assert AllFalse(w, c[|a| + i]);
    }
    if AnyAllFalse(w, c) {
      var i :| 0 <= i < |c| && AllFalse(w, c[i]);
      if i < |a| { assert AllFalse(w, a[i]); } else { assert AllFalse(w, b[i - |a|]); }
    }
  }

  lemma {:induction false} PrefixAllMeans(w: World, ls: seq<Literal>, tails: seq<seq<Literal>>)
    ensures AnyAllFalse(w, PrefixAll(ls, tails)) <==> !AllTrue(w, ls) && AnyAllFalse(w, tails)
  {
    if ls != [] {
      var each := PrefixEach(ls[0], tails);
      PrefixAllMeans(w, ls[1..], tails);
      AnyAllFalseAppend(w, each, PrefixAll(ls[1..], tails));
      assert AnyAllFalse(w, each) <==> !True(w, ls[0]) && AnyAllFalse(w, tails) by {
        forall i | 0 <= i < |tails| ensures AllFalse(w, each[i]) <==> !True(w, ls[0]) && AllFalse(w, tails[i]) {
          AllFalseCons(w, ls[0], tails[i]);
        }
        if AnyAllFalse(w, each) {
          var i :| 0 <= i < |each| && AllFalse(w, each[i]);
          assert AllFalse(w, tails[i]);
        }
      }
      assert AllTrue(w, ls) <==> True(w, ls[0]) && AllTrue(w, ls[1..]) by {
        if AllTrue(w, ls) {
          forall i | 0 <= i < |ls[1..]| ensures True(w, ls[1..][i]) { assert ls[1..][i] == ls[i + 1]; }
        }
        if True(w, ls[0]) && AllTrue(w, ls[1..]) {
          forall i | 0 <= i < |ls| ensures True(w, ls[i]) { if i > 0 { assert ls[i] == ls[1..][i - 1]; } }
        }
      }
    }
  }

  /** Some combination of one literal per disjunct is false exactly when no disjunct is true. */
  lemma {:induction false} ProductMeans(w: World, dnf: seq<seq<Literal>>)
    ensures AnyAllFalse(w, Product(dnf)) <==> !AnyTrue(w, dnf)
  {
    if dnf == [] {
      assert AllFalse(w, Product(dnf)[0]);
    } else {
      ProductMeans(w, dnf[1..]);
      PrefixAllMeans(w, dnf[0], Product(dnf[1..]));
      assert AnyTrue(w, dnf) <==> AllTrue(w, dnf[0]) || AnyTrue(w, dnf[1..]) by {
        if AnyTrue(w, dnf) {
          var k :| 0 <= k < |dnf| && AllTrue(w, dnf[k]);
          if k > 0 { assert AllTrue(w, dnf[1..][k - 1]); }
        }
        if AnyTrue(w, dnf[1..]) {
          var k :| 0 <= k < |dnf[1..]| && AllTrue(w, dnf[1..][k]);
          assert AllTrue(w, dnf[k + 1]);
        }
      }
    }
  }

  predicate Known(enc: Encoding, c: seq<Literal>) {
    forall i :: 0 <= i < |c| ==> c[i].atom in enc.dictionary
  }

  predicate AllKnown(enc: Encoding, dnf: seq<seq<Literal>>) {
    forall k :: 0 <= k < |dnf| ==> Known(enc, dnf[k])
  }

  lemma {:induction false} PrefixAllKnown(enc: Encoding, ls: seq<Literal>, tails: seq<seq<Literal>>)
    requires Known(enc, ls) && AllKnown(enc, tails)
    ensures AllKnown(enc, PrefixAll(ls, tails))
  {
    if ls != [] {
      assert Known(enc, ls[1..]) by { forall i | 0 <= i < |ls[1..]| ensures ls[1..][i] == ls[i + 1] {} }
      PrefixAllKnown(enc, ls[1..], tails);
    }
  }

  lemma {:induction false} ProductKnown(enc: Encoding, dnf: seq<seq<Literal>>)
    requires AllKnown(enc, dnf)
    ensures AllKnown(enc, Product(dnf))
  {
    if dnf != [] {
      ProductKnown(enc, dnf[1..]);
      PrefixAllKnown(enc, dnf[0], Product(dnf[1..]));
    }
  }

  /** The assignments say that one of the combinations is false. */
  ghost predicate ExactNegations(enc: Encoding, mutex: Encoding, ts: seq<seq<Literal>>, conds: seq<Condition>) {
    && ValidMaps(enc.ranges, conds)
    && (forall s, w :: Legal(enc, mutex, s, w) ==> (AnyAllFalse(w, ts) <==> Picks(s, conds)))
  }

  lemma PicksAppend(s: State, a: seq<Condition>, b: seq<Condition>)
    ensures Picks(s, a + b) <==> Picks(s, a) || Picks(s, b)
  {
    var c := a + b;
    if Picks(s, a) {
      var i :| 0 <= i < |a| && SatMap(s, a[i]);
      assert SatMap(s, c[i]);
    }
    if Picks(s, b) {
      var i :| 0 <= i < |b| && SatMap(s, b[i]);
      assert SatMap(s, c[|a| + i]);
    }
    if Picks(s, c) {
      var i :| 0 <= i < |c| && SatMap(s, c[i]);
      if i < |a| { assert SatMap(s, a[i]); } else { assert SatMap(s, b[i - |a|]); }
    }
  }

  lemma NegateOne(enc: Encoding, mutex: Encoding, ts: seq<seq<Literal>>, conds: seq<Condition>, t: seq<Literal>,
      r: Option<seq<Condition>>)
    requires ExactNegations(enc, mutex, ts, conds) && Known(enc, t) && Exact(enc, mutex, NegateAll(t), r)
    ensures ExactNegations(enc, mutex, ts + [t], if r.Some? then conds + r.value else conds)
  {
    var more := if r.Some? then conds + r.value else conds;
    forall s, w | Legal(enc, mutex, s, w) ensures AnyAllFalse(w, ts + [t]) <==> Picks(s, more) {
      AnyAllFalseAppend(w, ts, [t]);
      assert AnyAllFalse(w, [t]) <==> AllFalse(w, t) by { assert [t][0] == t; }
      assert Settled(enc, w, NegateAll(t));
      assert AllTrue(w, NegateAll(t)) <==> AllFalse(w, t) by {
        forall i | 0 <= i < |t| ensures True(w, NegateAll(t)[i]) <==> !True(w, t[i]) {}
      }
      if r.Some? { PicksAppend(s, conds, r.value); }
    }
  }

  /** `None` when some disjunct is always true; otherwise the assignments under
      which no disjunct is true. */
  ghost predicate ExactNegation(enc: Encoding, mutex: Encoding, dnf: seq<seq<Literal>>, r: Option<seq<Condition>>) {
    && (r.Some? ==> ValidMaps(enc.ranges, r.value))
    && (forall s, w :: Legal(enc, mutex, s, w) ==> (!AnyTrue(w, dnf) <==> r.Some? && Picks(s, r.value)))
  }

  lemma NegationIsExact(enc: Encoding, mutex: Encoding, dnf: seq<seq<Literal>>, conds: seq<Condition>)
    requires ExactNegations(enc, mutex, Product(dnf), conds)
    ensures ExactNegation(enc, mutex, dnf, Some(conds))
    ensures conds == [] ==> ExactNegation(enc, mutex, dnf, None)
  {
    forall s, w | Legal(enc, mutex, s, w) ensures !AnyTrue(w, dnf) <==> Picks(s, conds) {
      ProductMeans(w, dnf);
    }
  }

  lemma AlwaysTrue(enc: Encoding, mutex: Encoding, dnf: seq<seq<Literal>>)
    requires [] in dnf
    ensures ExactNegation(enc, mutex, dnf, None)
  {
    var k :| 0 <= k < |dnf| && dnf[k] == [];
    forall w: World ensures AnyTrue(w, dnf) { assert AllTrue(w, dnf[k]); }
  }

  lemma NoNegations(enc: Encoding, mutex: Encoding)
    ensures ExactNegations(enc, mutex, [], [])
  {
  }

  /** negate_and_translate_condition */
  method NegateAndTranslateCondition(dnf: seq<seq<Literal>>, enc: Encoding, mutex: Encoding)
      returns (r: Option<seq<Condition>>)
    requires WellFormed(enc) && WellFormed(mutex) && AllKnown(enc, dnf)
    ensures ExactNegation(enc, mutex, dnf, r)
  {
    hide ExactNegations, ExactNegation, Exact, Translated, WellFormed;
    if [] in dnf {
      AlwaysTrue(enc, mutex, dnf);
      return None;
    }
    var negation: seq<Condition> := [];
    var combinations := Product(dnf);
    ProductKnown(enc, dnf);
    NoNegations(enc, mutex);
    for i := 0 to |combinations|
      invariant ExactNegations(enc, mutex, combinations[..i], negation)
    {
      var cond := TranslateStripsConditions(NegateAll(combinations[i]), enc, mutex);
      NegateOne(enc, mutex, combinations[..i], negation, combinations[i], cond);
      assert combinations[..i + 1] == combinations[..i] + [combinations[i]];
      if cond.Some? { negation := negation + cond.value; }
    }
    assert combinations[..|combinations|] == combinations;
    NegationIsExact(enc, mutex, dnf, negation);
    r := if negation != [] then Some(negation) else None;
  }
}
