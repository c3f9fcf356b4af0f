/**
  Translating conjunctions of literals (translate.py:63-135).

  A conjunction becomes a box of possible values per variable, and the box is
  multiplied out into a list of assignments: an exact disjunctive normal form, of
  which every state satisfies at most one member.
 */
module Conditions {
  import opened Wrappers
  import opened Strips
  import opened SasTasks = SasTasks
  import opened Encodings

  type Condition = map<int, int>
  type Box = map<int, set<int>>

  // ----- Meaning -----

  predicate AllHold(s: State, pairs: seq<Fact>) {
    forall i :: 0 <= i < |pairs| ==> Holds(s, pairs[i])
  }

  predicate NoneHold(s: State, pairs: seq<Fact>) {
    forall i :: 0 <= i < |pairs| ==> !Holds(s, pairs[i])
  }

  /** The pairs of one atom agree. */
  predicate Agree(s: State, pairs: seq<Fact>) {
    AllHold(s, pairs) || NoneHold(s, pairs)
  }

  ghost predicate Coherent(enc: Encoding, s: State) {
    ValidState(enc.ranges, s) && forall a :: a in enc.dictionary ==> Agree(s, enc.dictionary[a])
  }

  predicate LitHolds(d: Dictionary, s: State, l: Literal) {
    if l.negated then NoneHold(s, Pairs(d, l.atom)) else AllHold(s, Pairs(d, l.atom))
  }

  predicate LitsHold(d: Dictionary, s: State, c: seq<Literal>) {
    forall i :: 0 <= i < |c| ==> LitHolds(d, s, c[i])
  }

  predicate SatMap(s: State, m: Condition) {
    forall v :: v in m ==> Holds(s, Fact(v, m[v]))
  }

  /** `s` satisfies a member of the list. */
  predicate Picks(s: State, conds: seq<Condition>) {
    exists i :: 0 <= i < |conds| && SatMap(s, conds[i])
  }

  predicate ValidMap(ranges: seq<int>, m: Condition) {
    forall v :: v in m ==> ValidFact(ranges, Fact(v, m[v]))
  }

  predicate ValidMaps(ranges: seq<int>, conds: seq<Condition>) {
    forall i :: 0 <= i < |conds| ==> ValidMap(ranges, conds[i])
  }

  /** No state satisfies two members. */
  ghost predicate Exclusive(conds: seq<Condition>) {
    forall s: State, i, j :: 0 <= i < |conds| && 0 <= j < |conds| && SatMap(s, conds[i]) && SatMap(s, conds[j]) ==> i == j
  }

  // ----- Boxes -----

  predicate InBox(s: State, b: Box) {
    forall v :: v in b ==> 0 <= v < |s| && s[v] in b[v]
  }

  predicate ValidBox(ranges: seq<int>, b: Box) {
    forall v :: v in b ==> 0 <= v < |ranges| && b[v] != {} && forall x :: x in b[v] ==> 0 <= x < ranges[v]
  }

  /** The box leaves one value for each of its variables. */
  predicate SingleValued(b: Box) {
    forall v :: v in b ==> |b[v]| == 1
  }

  predicate ValidPairs(ranges: seq<int>, pairs: seq<Fact>) {
    forall i :: 0 <= i < |pairs| ==> ValidFact(ranges, pairs[i])
  }

  /** Some pair is about variable `v`. */
  predicate OnVar(pairs: seq<Fact>, v: int) {
    exists i :: 0 <= i < |pairs| && pairs[i].v == v
  }

  /** The box after requiring the pairs. */
  ghost predicate Requires(before: Box, pairs: seq<Fact>, after: Box) {
    forall s: State :: InBox(s, after) <==> InBox(s, before) && AllHold(s, pairs)
  }

  lemma RequireOne(before: Box, pairs: seq<Fact>, b: Box, f: Fact)
    requires Requires(before, pairs, b) && (f.v in b ==> f.val in b[f.v])
    ensures Requires(before, pairs + [f], b[f.v := {f.val}])
  {
    forall s: State ensures InBox(s, b[f.v := {f.val}]) <==> InBox(s, before) && AllHold(s, pairs + [f]) {
      var c := b[f.v := {f.val}];
      if InBox(s, c) {
        assert s[f.v] in c[f.v];
        forall v | v in b ensures 0 <= v < |s| && s[v] in b[v] { assert v in c; }
        assert InBox(s, b);
      }
      if AllHold(s, pairs + [f]) {
        assert Holds(s, (pairs + [f])[|pairs|]);
        forall i | 0 <= i < |pairs| ensures Holds(s, pairs[i]) { assert pairs[i] == (pairs + [f])[i]; }
      }
    }
  }

  lemma PositiveClash(before: Box, pairs: seq<Fact>, j: int, b: Box)
    requires 0 <= j < |pairs| && Requires(before, pairs[..j], b)
    requires pairs[j].v in b && pairs[j].val !in b[pairs[j].v]
    ensures forall s: State :: InBox(s, before) ==> !AllHold(s, pairs)
  {
    forall s: State | InBox(s, before) && AllHold(s, pairs[..j]) ensures !Holds(s, pairs[j]) {
      assert InBox(s, b);
    }
    forall s: State | AllHold(s, pairs) ensures AllHold(s, pairs[..j]) && Holds(s, pairs[j]) {}
  }

  /** A positive literal fixes the value of each of its variables. */
  method AddPositive(ranges: seq<int>, box: Box, pairs: seq<Fact>) returns (r: Option<Box>)
    requires ValidBox(ranges, box) && ValidPairs(ranges, pairs)
    ensures r.None? ==> forall s: State :: InBox(s, box) ==> !AllHold(s, pairs)
    ensures r.Some? ==> ValidBox(ranges, r.value) && Requires(box, pairs, r.value)
    ensures r.Some? && SingleValued(box) ==> SingleValued(r.value)
    ensures r.Some? ==> forall v :: v in r.value ==> v in box || OnVar(pairs, v)
  {
    var b := box;
    for j := 0 to |pairs|
      invariant ValidBox(ranges, b) && Requires(box, pairs[..j], b)
      invariant SingleValued(box) ==> SingleValued(b)
      invariant forall v :: v in b ==> v in box || OnVar(pairs, v)
    {
      var f := pairs[j];
      if f.v in b && f.val !in b[f.v] {
        PositiveClash(box, pairs, j, b);
        return None;
      }
      RequireOne(box, pairs[..j], b, f);
      assert pairs[..j + 1] == pairs[..j] + [f];
      b := b[f.v := {f.val}];
    }
    assert pairs[..|pairs|] == pairs;
    return Some(b);
  }

  function OtherValues(ranges: seq<int>, f: Fact): (r: set<int>)
    requires ValidFact(ranges, f)
    ensures forall x :: x in r <==> 0 <= x < ranges[f.v] && x != f.val
  {
    Range(ranges[f.v]) - {f.val}
  }

  /** `after` is `before` with the pairs on its variables forbidden. */
  ghost predicate Narrowed(before: Box, pairs: seq<Fact>, after: Box) {
    && after.Keys == before.Keys
    && (forall v, x :: v in before ==>
          (x in after[v] <==> x in before[v] && forall i :: 0 <= i < |pairs| ==> pairs[i] != Fact(v, x)))
  }

  /** `offers` lists the other values for the pairs on variables outside the box. */
  ghost predicate Offers(ranges: seq<int>, box: Box, pairs: seq<Fact>, offers: Box) {
    && (forall v :: v in offers ==> exists i :: 0 <= i < |pairs| && Offered(ranges, pairs[i], v, offers[v]))
    && (forall i :: 0 <= i < |pairs| ==> pairs[i].v in box || pairs[i].v in offers)
    && offers.Keys !! box.Keys
  }

  predicate Offered(ranges: seq<int>, f: Fact, v: int, values: set<int>) {
    ValidFact(ranges, f) && f.v == v && values == OtherValues(ranges, f)
  }

  lemma NarrowOne(ranges: seq<int>, before: Box, pairs: seq<Fact>, b: Box, f: Fact)
    requires Narrowed(before, pairs, b) && f.v in b && ValidFact(ranges, f) && ValidBox(ranges, before)
    ensures Narrowed(before, pairs + [f], b[f.v := b[f.v] * OtherValues(ranges, f)])
  {
    var c, more := b[f.v := b[f.v] * OtherValues(ranges, f)], pairs + [f];
    forall v, x | v in before
      ensures x in c[v] <==> x in before[v] && forall i :: 0 <= i < |more| ==> more[i] != Fact(v, x)
    {
      assert more[|pairs|] == f;
      if forall i :: 0 <= i < |more| ==> more[i] != Fact(v, x) {
        forall i | 0 <= i < |pairs| ensures pairs[i] != Fact(v, x) { assert pairs[i] == more[i]; }
      }
    }
  }

  lemma NarrowOther(before: Box, pairs: seq<Fact>, b: Box, f: Fact)
    requires Narrowed(before, pairs, b) && f.v !in b
    ensures Narrowed(before, pairs + [f], b)
  {
    var more := pairs + [f];
    forall v, x | v in before
      ensures x in b[v] <==> x in before[v] && forall i :: 0 <= i < |more| ==> more[i] != Fact(v, x)
    {
      if forall i :: 0 <= i < |more| ==> more[i] != Fact(v, x) {
        forall i | 0 <= i < |pairs| ensures pairs[i] != Fact(v, x) { assert pairs[i] == more[i]; }
      }
    }
  }

  lemma OfferOne(ranges: seq<int>, box: Box, pairs: seq<Fact>, offers: Box, f: Fact)
    requires Offers(ranges, box, pairs, offers) && ValidFact(ranges, f) && f.v !in box
    ensures Offers(ranges, box, pairs + [f], offers[f.v := OtherValues(ranges, f)])
  {
    var more, c := pairs + [f], offers[f.v := OtherValues(ranges, f)];
    forall v | v in c ensures exists i :: 0 <= i < |more| && Offered(ranges, more[i], v, c[v]) {
      if v == f.v {
        assert Offered(ranges, more[|pairs|], v, c[v]);
      } else {
        var i :| 0 <= i < |pairs| && Offered(ranges, pairs[i], v, offers[v]);
        assert Offered(ranges, more[i], v, c[v]);
      }
    }
  }

  lemma OfferSkip(ranges: seq<int>, box: Box, pairs: seq<Fact>, offers: Box, f: Fact)
    requires Offers(ranges, box, pairs, offers) && f.v in box
    ensures Offers(ranges, box, pairs + [f], offers)
  {
    var more := pairs + [f];
    forall v | v in offers ensures exists i :: 0 <= i < |more| && Offered(ranges, more[i], v, offers[v]) {
      var i :| 0 <= i < |pairs| && Offered(ranges, pairs[i], v, offers[v]);
      assert Offered(ranges, more[i], v, offers[v]);
    }
  }

  /** What is left empty contradicts the forbidden pairs. */
  lemma NarrowedMeans(before: Box, pairs: seq<Fact>, after: Box, s: State)
    requires Narrowed(before, pairs, after) && InBox(s, before)
    requires forall i :: 0 <= i < |pairs| ==> 0 <= pairs[i].v < |s|
    ensures InBox(s, after) <==> forall i :: 0 <= i < |pairs| && pairs[i].v in before ==> !Holds(s, pairs[i])
  {
    if InBox(s, after) {
      forall i | 0 <= i < |pairs| && pairs[i].v in before ensures !Holds(s, pairs[i]) {
        assert s[pairs[i].v] in after[pairs[i].v];
      }
    }
    if forall i :: 0 <= i < |pairs| && pairs[i].v in before ==> !Holds(s, pairs[i]) {
      forall v | v in after ensures s[v] in after[v] {
        forall i | 0 <= i < |pairs| ensures pairs[i] != Fact(v, s[v]) {}
      }
    }
  }

  lemma NarrowedBack(before: Box, pairs: seq<Fact>, after: Box, s: State)
    requires Narrowed(before, pairs, after) && InBox(s, after)
    ensures InBox(s, before)
  {
    forall v | v in before ensures 0 <= v < |s| && s[v] in before[v] {
      var x := s[v];
      assert v in after;
      assert x in after[v];
      assert x in before[v];
    }
  }

  /** The box after forbidding the pairs, in states where they agree. */
  ghost predicate Forbids(ranges: seq<int>, before: Box, pairs: seq<Fact>, after: Box) {
    forall s: State :: ValidState(ranges, s) && Agree(s, pairs) ==>
      (InBox(s, after) <==> InBox(s, before) && NoneHold(s, pairs))
  }

  lemma DoneForbids(ranges: seq<int>, before: Box, pairs: seq<Fact>, after: Box)
    requires Narrowed(before, pairs, after) && ValidPairs(ranges, pairs)
    requires exists i :: 0 <= i < |pairs| && pairs[i].v in before
    ensures Forbids(ranges, before, pairs, after)
  {
    forall s: State | ValidState(ranges, s) && Agree(s, pairs)
      ensures InBox(s, after) <==> InBox(s, before) && NoneHold(s, pairs)
    {
      if InBox(s, after) { NarrowedBack(before, pairs, after, s); }
      if InBox(s, before) {
        forall i | 0 <= i < |pairs| ensures 0 <= pairs[i].v < |s| { assert ValidFact(ranges, pairs[i]); }
        NarrowedMeans(before, pairs, after, s);
      }
    }
  }

  lemma NewForbids(ranges: seq<int>, before: Box, pairs: seq<Fact>, b: Box, offers: Box, v: int, done: bool)
    requires Narrowing(ranges, before, pairs, b, offers, done) && !done && v in offers
    ensures Forbids(ranges, before, pairs, b[v := offers[v]]) && ValidBox(ranges, b[v := offers[v]])
  {
    var i :| 0 <= i < |pairs| && Offered(ranges, pairs[i], v, offers[v]);
    var after := b[v := offers[v]];
    forall s: State | ValidState(ranges, s) && Agree(s, pairs)
      ensures InBox(s, after) <==> InBox(s, before) && NoneHold(s, pairs)
    {
      assert 0 <= s[v] < ranges[v];
      assert s[v] in offers[v] <==> !Holds(s, pairs[i]);
      forall u, x | u in before ensures x in b[u] <==> x in before[u] {}
      if InBox(s, after) {
        forall u | u in before ensures 0 <= u < |s| && s[u] in before[u] { assert u in after; }
        assert v in after;
      }
    }
  }

  lemma NothingForbids(ranges: seq<int>, before: Box, b: Box)
    requires Narrowed(before, [], b)
    ensures Forbids(ranges, before, [], b)
  {
    forall s: State ensures InBox(s, b) <==> InBox(s, before) {
      if InBox(s, b) { NarrowedBack(before, [], b, s); }
      if InBox(s, before) { NarrowedMeans(before, [], b, s); }
    }
  }

  /** What forbidding the pairs leaves in any state, coherent or not: the box has
      not grown, and some pair of the atom fails. */
  ghost predicate Shrunk(before: Box, pairs: seq<Fact>, after: Box) {
    && (forall v :: v in after ==> v in before || OnVar(pairs, v))
    && (forall s: State :: InBox(s, after) ==> InBox(s, before) && (pairs != [] ==> !AllHold(s, pairs)))
  }

  lemma DoneShrinks(before: Box, pairs: seq<Fact>, after: Box)
    requires Narrowed(before, pairs, after) && exists i :: 0 <= i < |pairs| && pairs[i].v in before
    ensures Shrunk(before, pairs, after)
  {
    var i :| 0 <= i < |pairs| && pairs[i].v in before;
    forall s: State | InBox(s, after) ensures InBox(s, before) && !AllHold(s, pairs) {
      NarrowedBack(before, pairs, after, s);
      assert s[pairs[i].v] in after[pairs[i].v];
      assert !Holds(s, pairs[i]);
    }
  }

  lemma NewShrinks(ranges: seq<int>, before: Box, pairs: seq<Fact>, b: Box, offers: Box, v: int, done: bool)
    requires Narrowing(ranges, before, pairs, b, offers, done) && v in offers
    ensures Shrunk(before, pairs, b[v := offers[v]])
  {
    var i :| 0 <= i < |pairs| && Offered(ranges, pairs[i], v, offers[v]);
    var after := b[v := offers[v]];
    assert OnVar(pairs, v);
    forall s: State | InBox(s, after) ensures InBox(s, before) && !AllHold(s, pairs) {
      forall u | u in b ensures 0 <= u < |s| && s[u] in b[u] { assert u in after; }
      NarrowedBack(before, pairs, b, s);
      assert v in after && s[v] in offers[v];
      assert !Holds(s, pairs[i]);
    }
  }

  lemma NothingShrinks(before: Box, b: Box)
    requires Narrowed(before, [], b)
    ensures Shrunk(before, [], b)
  {
    forall s: State | InBox(s, b) ensures InBox(s, before) { NarrowedBack(before, [], b, s); }
  }

  /** The key with the fewest values. */
  method Smallest(b: Box) returns (v: int)
    requires b.Keys != {}
    ensures v in b && forall u :: u in b ==> |b[v]| <= |b[u]|
  {
    var keys := ListOf(b.Keys);
    ghost var some := Member(b.Keys);
    assert some in keys && keys[0] in keys;
    v := keys[0];
    for i := 1 to |keys|
      invariant v in b && forall j :: 0 <= j < i ==> |b[v]| <= |b[keys[j]]|
    {
      assert keys[i] in keys;
      if |b[keys[i]]| < |b[v]| { v := keys[i]; }
    }
  }

  /** The state of the loop over the pairs of a negative literal. */
  ghost predicate Narrowing(ranges: seq<int>, box: Box, part: seq<Fact>, b: Box, offers: Box, done: bool) {
    && ValidBox(ranges, b) && ValidBox(ranges, offers)
    && Narrowed(box, part, b) && Offers(ranges, box, part, offers)
    && (done <==> exists i :: 0 <= i < |part| && part[i].v in box)
  }

  lemma StepOutside(ranges: seq<int>, box: Box, part: seq<Fact>, b: Box, offers: Box, done: bool, f: Fact)
    requires Narrowing(ranges, box, part, b, offers, done) && DistinctVars(part + [f])
    requires f.v !in b && ValidFact(ranges, f) && ranges[f.v] >= 2
    ensures f.v !in offers
    ensures Narrowing(ranges, box, part + [f], b, offers[f.v := OtherValues(ranges, f)], done)
  {
    forall i | 0 <= i < |part| ensures part[i].v != f.v {
      assert (part + [f])[i] == part[i] && (part + [f])[|part|] == f;
    }
    NarrowOther(box, part, b, f);
    OfferOne(ranges, box, part, offers, f);
    assert (if f.val == 0 then 1 else 0) in OtherValues(ranges, f);
    DoneGrows(box, part, f);
  }

  lemma DoneGrows(box: Box, part: seq<Fact>, f: Fact)
    ensures (exists i :: 0 <= i < |part + [f]| && (part + [f])[i].v in box) <==>
            ((exists i :: 0 <= i < |part| && part[i].v in box) || f.v in box)
  {
    var more := part + [f];
    if exists i :: 0 <= i < |part| && part[i].v in box {
      var i :| 0 <= i < |part| && part[i].v in box;
      assert more[i].v in box;
    }
    if f.v in box { assert more[|part|].v in box; }
  }

  lemma StepInside(ranges: seq<int>, box: Box, part: seq<Fact>, b: Box, offers: Box, done: bool, f: Fact, c: Box)
    requires Narrowing(ranges, box, part, b, offers, done) && ValidBox(ranges, box)
    requires f.v in b && ValidFact(ranges, f) && c == b[f.v := b[f.v] * OtherValues(ranges, f)]
    ensures Narrowed(box, part + [f], c)
    ensures c[f.v] != {} ==> Narrowing(ranges, box, part + [f], c, offers, true)
  {
    NarrowOne(ranges, box, part, b, f);
    OfferSkip(ranges, box, part, offers, f);
    DoneGrows(box, part, f);
  }

  /** The pairs on variables of the box are forbidden; if there are none, the variable with
      the fewest values gets all values but its own. */
  ghost predicate NarrowedOrOffered(ranges: seq<int>, box: Box, pairs: seq<Fact>, after: Box) {
    if pairs == [] || exists i :: 0 <= i < |pairs| && pairs[i].v in box then Narrowed(box, pairs, after)
    else exists i :: 0 <= i < |pairs| && SmallestPair(ranges, pairs, i) &&
           after == box[pairs[i].v := OtherValues(ranges, pairs[i])]
  }

  /** No variable of the pairs has fewer values. */
  ghost predicate SmallestPair(ranges: seq<int>, pairs: seq<Fact>, i: int)
    requires 0 <= i < |pairs|
  {
    && ValidFact(ranges, pairs[i])
    && forall j :: 0 <= j < |pairs| && 0 <= pairs[j].v < |ranges| ==> ranges[pairs[i].v] <= ranges[pairs[j].v]
  }

  lemma {:induction false} RangeSize(n: nat)
    ensures |Range(n)| == n
  {
    if n > 0 { RangeSize(n - 1); }
  }

  lemma OtherValuesSize(ranges: seq<int>, f: Fact)
    requires ValidFact(ranges, f)
    ensures |OtherValues(ranges, f)| == ranges[f.v] - 1
  {
    RangeSize(ranges[f.v]);
    assert f.val in Range(ranges[f.v]);
  }

  lemma OfferIs(ranges: seq<int>, box: Box, pairs: seq<Fact>, offers: Box, j: int)
    requires Offers(ranges, box, pairs, offers) && DistinctVars(pairs) && ValidPairs(ranges, pairs)
    requires 0 <= j < |pairs| && pairs[j].v !in box
    ensures pairs[j].v in offers && offers[pairs[j].v] == OtherValues(ranges, pairs[j])
    ensures |offers[pairs[j].v]| == ranges[pairs[j].v] - 1
  {
    var v := pairs[j].v;
    var i :| 0 <= i < |pairs| && Offered(ranges, pairs[i], v, offers[v]);
    assert i == j;
    OtherValuesSize(ranges, pairs[j]);
  }

  lemma SmallestOffered(ranges: seq<int>, box: Box, pairs: seq<Fact>, b: Box, offers: Box, v: int)
    requires Narrowing(ranges, box, pairs, b, offers, false) && DistinctVars(pairs) && ValidPairs(ranges, pairs)
    requires v in offers && forall u :: u in offers ==> |offers[v]| <= |offers[u]|
    ensures NarrowedOrOffered(ranges, box, pairs, b[v := offers[v]])
  {
    var i :| 0 <= i < |pairs| && Offered(ranges, pairs[i], v, offers[v]);
    OfferIs(ranges, box, pairs, offers, i);
    forall j | 0 <= j < |pairs| && 0 <= pairs[j].v < |ranges| ensures ranges[v] <= ranges[pairs[j].v] {
      OfferIs(ranges, box, pairs, offers, j);
    }
    assert SmallestPair(ranges, pairs, i);
    NothingNarrowed(box, pairs, b);
  }

  lemma NothingNarrowed(box: Box, pairs: seq<Fact>, b: Box)
    requires Narrowed(box, pairs, b) && forall i :: 0 <= i < |pairs| ==> pairs[i].v !in box
    ensures b == box
  {
    forall v | v in box ensures b[v] == box[v] {
      forall x ensures x in b[v] <==> x in box[v] {}
    }
  }

  lemma NarrowedAtEnd(ranges: seq<int>, box: Box, pairs: seq<Fact>, b: Box, offers: Box, done: bool)
    requires Narrowing(ranges, box, pairs, b, offers, done) && (done || offers.Keys == {})
    ensures NarrowedOrOffered(ranges, box, pairs, b)
  {
    if pairs != [] { assert pairs[0].v in box || pairs[0].v in offers; }
  }

  /** A negative literal narrows the variables already in the box, or else adds
      the smallest offer. */
  method AddNegative(ranges: seq<int>, box: Box, pairs: seq<Fact>) returns (r: Option<Box>)
    requires ValidBox(ranges, box) && ValidPairs(ranges, pairs) && DistinctVars(pairs)
    requires forall i :: 0 <= i < |pairs| ==> ranges[pairs[i].v] >= 2
    ensures r.None? ==> forall s: State :: InBox(s, box) ==> !NoneHold(s, pairs)
    ensures r.Some? ==> ValidBox(ranges, r.value) && Forbids(ranges, box, pairs, r.value)
    ensures r.Some? ==> Shrunk(box, pairs, r.value) && NarrowedOrOffered(ranges, box, pairs, r.value)
  {
    hide *;
    var done := false;
    var offers: Box := map[];
    var b := box;
    NarrowingStart(ranges, box);
    for j := 0 to |pairs|
      invariant Narrowing(ranges, box, pairs[..j], b, offers, done)
    {
      var f := pairs[j];
      NextPair(ranges, pairs, j);
      var possible := OtherValues(ranges, f);
      assert pairs[..j + 1] == pairs[..j] + [f];
      if f.v !in b {
        StepOutside(ranges, box, pairs[..j], b, offers, done, f);
        assert f.v !in offers;
        offers := offers[f.v := possible];
      } else {
        var c := b[f.v := b[f.v] * possible];
        StepInside(ranges, box, pairs[..j], b, offers, done, f, c);
        if c[f.v] == {} {
          Contradiction(box, pairs, pairs[..j + 1], c, f.v);
          return None;
        }
        b, done := c, true;
      }
    }
    assert pairs[..|pairs|] == pairs;
    NarrowingEnd(ranges, box, pairs, b, offers, done);
    if !done && offers.Keys != {} {
      var v := Smallest(offers);
      NewForbids(ranges, box, pairs, b, offers, v, done);
      NewShrinks(ranges, box, pairs, b, offers, v, done);
      SmallestOffered(ranges, box, pairs, b, offers, v);
      b := b[v := offers[v]];
    } else {
      NarrowedAtEnd(ranges, box, pairs, b, offers, done);
    }
    return Some(b);
  }

  lemma NextPair(ranges: seq<int>, pairs: seq<Fact>, j: nat)
    requires ValidPairs(ranges, pairs) && DistinctVars(pairs) && j < |pairs|
    ensures ValidFact(ranges, pairs[j]) && DistinctVars(pairs[..j] + [pairs[j]]) && 0 <= pairs[j].v < |ranges|
  {
  }

  function FirstVar(pairs: seq<Fact>): (v: int)
    ensures pairs != [] ==> exists i :: 0 <= i < |pairs| && pairs[i].v == v
  {
    if pairs == [] then -1 else pairs[0].v
  }

  lemma NarrowingStart(ranges: seq<int>, box: Box)
    requires ValidBox(ranges, box)
    ensures Narrowing(ranges, box, [], box, map[], false)
  {
  }

  lemma NarrowingEnd(ranges: seq<int>, box: Box, pairs: seq<Fact>, b: Box, offers: Box, done: bool)
    requires Narrowing(ranges, box, pairs, b, offers, done) && ValidPairs(ranges, pairs)
    ensures ValidBox(ranges, b)
    ensures done || offers.Keys == {} ==> Forbids(ranges, box, pairs, b) && Shrunk(box, pairs, b)
  {
    hide Forbids, Shrunk;
    if done {
      DoneForbids(ranges, box, pairs, b);
      DoneShrinks(box, pairs, b);
    } else if offers.Keys == {} {
      var v := FirstVar(pairs);
      NothingForbids(ranges, box, b);
      NothingShrinks(box, b);
    }
  }

  lemma Contradiction(before: Box, pairs: seq<Fact>, part: seq<Fact>, b: Box, v: int)
    requires Narrowed(before, part, b) && v in b && b[v] == {}
    requires forall i :: 0 <= i < |part| ==> part[i] in pairs
    ensures forall s: State :: InBox(s, before) ==> !NoneHold(s, pairs)
  {
    forall s: State | InBox(s, before) ensures !NoneHold(s, pairs) {
      assert s[v] !in b[v] && s[v] in before[v];
      var i :| 0 <= i < |part| && part[i] == Fact(v, s[v]);
      assert part[i] in pairs;
      assert Holds(s, part[i]);
    }
  }
}
