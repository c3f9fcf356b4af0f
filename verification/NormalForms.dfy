/** Pulling disjunctions to the root of a condition. */
module NormalForms {
  import opened Strips
  import opened Wrappers

  datatype Parameter = Parameter(name: string, typeName: string)

  datatype Condition =
    | Truth
    | Falsity
    | Lit(literal: Literal)
    | Conjunction(parts: seq<Condition>)
    | Disjunction(parts: seq<Condition>)
    | Existential(parameters: seq<Parameter>, part: Condition)
    | Universal(parameters: seq<Parameter>, part: Condition)

  // ----- Meaning -----

  type Environment = map<string, string>

  /** The objects of each type, and the true ground atoms. */
  datatype Structure = Structure(objects: string -> iset<string>, facts: iset<Atom>)

  function Look(env: Environment, arg: string): string {
    if arg in env then env[arg] else arg
  }

  function Ground(env: Environment, a: Atom): Atom {
    Atom(a.symbol, seq(|a.args|, i requires 0 <= i < |a.args| => Look(env, a.args[i])))
  }

  ghost predicate Binds(w: Structure, parameters: seq<Parameter>, values: Environment) {
    && (forall x :: x in values <==> exists i :: 0 <= i < |parameters| && parameters[i].name == x)
    && (forall i :: 0 <= i < |parameters| ==> values[parameters[i].name] in w.objects(parameters[i].typeName))
  }

  ghost predicate Holds(w: Structure, env: Environment, c: Condition)
    decreases c
  {
    match c
    case Truth => true
    case Falsity => false
    case Lit(l) => Ground(env, l.atom) in w.facts <==> !l.negated
    case Conjunction(parts) => forall i :: 0 <= i < |parts| ==> Holds(w, env, parts[i])
    case Disjunction(parts) => exists i :: 0 <= i < |parts| && Holds(w, env, parts[i])
    case Existential(ps, part) => exists values :: Binds(w, ps, values) && Holds(w, env + values, part)
    case Universal(ps, part) => forall values :: Binds(w, ps, values) ==> Holds(w, env + values, part)
  }

  ghost predicate AllHold(w: Structure, env: Environment, parts: seq<Condition>) {
    forall i :: 0 <= i < |parts| ==> Holds(w, env, parts[i])
  }

  ghost predicate AnyHolds(w: Structure, env: Environment, parts: seq<Condition>) {
    exists i :: 0 <= i < |parts| && Holds(w, env, parts[i])
  }

  ghost predicate Equivalent(a: Condition, b: Condition) {
    forall w, env :: Holds(w, env, a) <==> Holds(w, env, b)
  }

  // ----- Shape -----

  function Parts(c: Condition): seq<Condition> {
    match c
    case Conjunction(parts) => parts
    case Disjunction(parts) => parts
    case Existential(_, part) => [part]
    case Universal(_, part) => [part]
    case _ => []
  }

  predicate HasDisjunction(c: Condition) {
    match c
    case Conjunction(parts) => exists i :: 0 <= i < |parts| && HasDisjunction(parts[i])
    case Disjunction(_) => true
    case Existential(_, part) => HasDisjunction(part)
    case Universal(_, part) => HasDisjunction(part)
    case _ => false
  }

  predicate SomeDisjunction(parts: seq<Condition>) {
    exists i :: 0 <= i < |parts| && HasDisjunction(parts[i])
  }

  /** A universal quantifier somewhere in the condition has a disjunction beneath it. */
  predicate DisjunctionUnderUniversal(c: Condition) {
    match c
    case Conjunction(parts) => exists i :: 0 <= i < |parts| && DisjunctionUnderUniversal(parts[i])
    case Disjunction(parts) => exists i :: 0 <= i < |parts| && DisjunctionUnderUniversal(parts[i])
    case Existential(_, part) => DisjunctionUnderUniversal(part)
    case Universal(_, part) => HasDisjunction(part)
    case _ => false
  }

  predicate Plain(parts: seq<Condition>) {
    forall i :: 0 <= i < |parts| ==> !HasDisjunction(parts[i])
  }

  /** Disjunction-free, or a disjunction of disjunction-free parts. */
  predicate IsDNF(c: Condition) {
    !HasDisjunction(c) || (c.Disjunction? && Plain(c.parts))
  }

  predicate PlainDisjunctions(cs: seq<Condition>) {
    forall i :: 0 <= i < |cs| ==> cs[i].Disjunction? && Plain(cs[i].parts)
  }

  // ----- Lists of parts -----

  lemma ConcatMeaning(w: Structure, env: Environment, a: seq<Condition>, b: seq<Condition>)
    ensures AllHold(w, env, a + b) <==> AllHold(w, env, a) && AllHold(w, env, b)
    ensures AnyHolds(w, env, a + b) <==> AnyHolds(w, env, a) || AnyHolds(w, env, b)
  {
    var c := a + b;
    assert forall i :: 0 <= i < |a| ==> c[i] == a[i];
    assert forall i :: 0 <= i < |b| ==> c[|a| + i] == b[i];
  }

  lemma SingleMeaning(w: Structure, env: Environment, c: Condition)
    ensures (AllHold(w, env, [c]) <==> Holds(w, env, c)) && (AnyHolds(w, env, [c]) <==> Holds(w, env, c))
  {
    assert [c][0] == c;
  }

  /** The two lists together mean what `parts` means, conjunctively and disjunctively. */
  ghost predicate SameMeaning(parts: seq<Condition>, others: seq<Condition>, disjunctions: seq<Condition>) {
    && (forall w, env :: AllHold(w, env, parts) <==> AllHold(w, env, others) && AllHold(w, env, disjunctions))
    && (forall w, env :: AnyHolds(w, env, parts) <==> AnyHolds(w, env, others) || AnyHolds(w, env, disjunctions))
  }

  lemma AddPart(parts: seq<Condition>, others: seq<Condition>, disjunctions: seq<Condition>, part: Condition,
      r: Condition)
    requires SameMeaning(parts, others, disjunctions) && Equivalent(part, r)
    ensures SameMeaning(parts + [part], others + [r], disjunctions)
    ensures SameMeaning(parts + [part], others, disjunctions + [r])
  {
    forall w, env
      ensures AllHold(w, env, parts + [part]) <==> AllHold(w, env, others + [r]) && AllHold(w, env, disjunctions)
      ensures AnyHolds(w, env, parts + [part]) <==> AnyHolds(w, env, others + [r]) || AnyHolds(w, env, disjunctions)
      ensures AllHold(w, env, parts + [part]) <==> AllHold(w, env, others) && AllHold(w, env, disjunctions + [r])
      ensures AnyHolds(w, env, parts + [part]) <==> AnyHolds(w, env, others) || AnyHolds(w, env, disjunctions + [r])
    {
      hide AllHold, AnyHolds, Holds;
      ConcatMeaning(w, env, parts, [part]);
      ConcatMeaning(w, env, others, [r]);
      ConcatMeaning(w, env, disjunctions, [r]);
      SingleMeaning(w, env, part);
      SingleMeaning(w, env, r);
    }
  }

  // ----- The three rules -----

  /** Rule (1): a disjunction of disjunctions is one disjunction. */
  method Flatten(others: seq<Condition>, disjunctions: seq<Condition>) returns (parts: seq<Condition>)
    requires Plain(others) && PlainDisjunctions(disjunctions)
    ensures Plain(parts)
    ensures forall w, env :: AnyHolds(w, env, parts) <==> AnyHolds(w, env, others) || AnyHolds(w, env, disjunctions)
  {
    parts := others;
    assert disjunctions[..0] == [];
    for k := 0 to |disjunctions|
      invariant Plain(parts)
      invariant forall w, env :: AnyHolds(w, env, parts) <==> AnyHolds(w, env, others) || AnyHolds(w, env, disjunctions[..k])
    {
      forall w, env
        ensures AnyHolds(w, env, parts + disjunctions[k].parts)
          <==> AnyHolds(w, env, others) || AnyHolds(w, env, disjunctions[..k + 1])
      {
        assert disjunctions[..k + 1] == disjunctions[..k] + [disjunctions[k]];
        ConcatMeaning(w, env, disjunctions[..k], [disjunctions[k]]);
        SingleMeaning(w, env, disjunctions[k]);
        ConcatMeaning(w, env, parts, disjunctions[k].parts);
      }
      parts := parts + disjunctions[k].parts;
    }
    assert disjunctions[..|disjunctions|] == disjunctions;
  }

  /** Rule (2): an existential quantifier distributes over a disjunction. */
  method SpreadQuantifier(parameters: seq<Parameter>, parts: seq<Condition>) returns (result: seq<Condition>)
    requires Plain(parts)
    ensures Plain(result) && Equivalent(Disjunction(result), Existential(parameters, Disjunction(parts)))
  {
    result := seq(|parts|, i requires 0 <= i < |parts| => Existential(parameters, parts[i]));
    forall w, env ensures Holds(w, env, Disjunction(result)) <==> Holds(w, env, Existential(parameters, Disjunction(parts))) {
      hide Holds;
      if Holds(w, env, Disjunction(result)) { QuantifierOut(w, env, parameters, parts, result); }
      if Holds(w, env, Existential(parameters, Disjunction(parts))) { QuantifierIn(w, env, parameters, parts, result); }
    }
  }

  lemma QuantifierOut(w: Structure, env: Environment, parameters: seq<Parameter>, parts: seq<Condition>,
      result: seq<Condition>)
    requires |result| == |parts| && forall i :: 0 <= i < |parts| ==> result[i] == Existential(parameters, parts[i])
    requires Holds(w, env, Disjunction(result))
    ensures Holds(w, env, Existential(parameters, Disjunction(parts)))
  {
    hide Binds;
    var i :| 0 <= i < |result| && Holds(w, env, result[i]);
    var values :| Binds(w, parameters, values) && Holds(w, env + values, parts[i]);
    assert Holds(w, env + values, Disjunction(parts));
  }

  lemma QuantifierIn(w: Structure, env: Environment, parameters: seq<Parameter>, parts: seq<Condition>,
      result: seq<Condition>)
    requires |result| == |parts| && forall i :: 0 <= i < |parts| ==> result[i] == Existential(parameters, parts[i])
    requires Holds(w, env, Existential(parameters, Disjunction(parts)))
    ensures Holds(w, env, Disjunction(result))
  {
    hide Binds;
    var values :| Binds(w, parameters, values) && Holds(w, env + values, Disjunction(parts));
    var i :| 0 <= i < |parts| && Holds(w, env + values, parts[i]);
    assert Holds(w, env, result[i]);
  }

  lemma PairMeaning(w: Structure, env: Environment, a: Condition, b: Condition)
    ensures Holds(w, env, Conjunction([a, b])) <==> Holds(w, env, a) && Holds(w, env, b)
  {
    var parts := [a, b];
    assert parts[0] == a && parts[1] == b;
  }

  /** One part of the first list and one of the second, in every combination. */
  method Distribute(previous: seq<Condition>, parts: seq<Condition>) returns (result: seq<Condition>)
    requires Plain(previous) && Plain(parts)
    ensures Plain(result)
    ensures forall w, env :: AnyHolds(w, env, result) <==> AnyHolds(w, env, previous) && AnyHolds(w, env, parts)
  {
    result := [];
    assert previous[..0] == [];
    for i := 0 to |previous|
      invariant Plain(result)
      invariant forall w, env :: AnyHolds(w, env, result) <==> AnyHolds(w, env, previous[..i]) && AnyHolds(w, env, parts)
    {
      var row := Pairs(previous[i], parts);
      forall w, env ensures AnyHolds(w, env, result + row) <==> AnyHolds(w, env, previous[..i + 1]) && AnyHolds(w, env, parts) {
        assert previous[..i + 1] == previous[..i] + [previous[i]];
        ConcatMeaning(w, env, result, row);
        ConcatMeaning(w, env, previous[..i], [previous[i]]);
        SingleMeaning(w, env, previous[i]);
      }
      result := result + row;
    }
    assert previous[..|previous|] == previous;
  }

  method Pairs(part1: Condition, parts: seq<Condition>) returns (row: seq<Condition>)
    requires !HasDisjunction(part1) && Plain(parts)
    ensures Plain(row)
    ensures forall w, env :: AnyHolds(w, env, row) <==> Holds(w, env, part1) && AnyHolds(w, env, parts)
  {
    row := [];
    assert parts[..0] == [];
    for j := 0 to |parts|
      invariant Plain(row)
      invariant forall w, env :: AnyHolds(w, env, row) <==> Holds(w, env, part1) && AnyHolds(w, env, parts[..j])
    {
      var both := Conjunction([part1, parts[j]]);
      forall w, env ensures AnyHolds(w, env, row + [both]) <==> Holds(w, env, part1) && AnyHolds(w, env, parts[..j + 1]) {
        assert parts[..j + 1] == parts[..j] + [parts[j]];
        ConcatMeaning(w, env, row, [both]);
        SingleMeaning(w, env, both);
        PairMeaning(w, env, part1, parts[j]);
        ConcatMeaning(w, env, parts[..j], [parts[j]]);
        SingleMeaning(w, env, parts[j]);
      }
      row := row + [both];
    }
    assert parts[..|parts|] == parts;
  }

  /** Rule (3): conjunction distributes over the disjunctions, taken from the last. */
  method SpreadConjunction(others: seq<Condition>, disjunctions: seq<Condition>) returns (result: seq<Condition>)
    requires Plain(others) && PlainDisjunctions(disjunctions)
    ensures Plain(result)
    ensures forall w, env :: AnyHolds(w, env, result) <==> AllHold(w, env, others) && AllHold(w, env, disjunctions)
  {
    result := [Conjunction(others)];
    var rest := disjunctions;
    forall w, env ensures AnyHolds(w, env, result) <==> AllHold(w, env, others) {
      SingleMeaning(w, env, Conjunction(others));
    }
    while rest != []
      invariant Plain(result) && PlainDisjunctions(rest)
      invariant forall w, env ::
        AnyHolds(w, env, result) && AllHold(w, env, rest) <==> AllHold(w, env, others) && AllHold(w, env, disjunctions)
      decreases |rest|
    {
      var last, init := rest[|rest| - 1], rest[..|rest| - 1];
      var next := Distribute(result, last.parts);
      forall w, env ensures AnyHolds(w, env, next) && AllHold(w, env, init) <==> AnyHolds(w, env, result) && AllHold(w, env, rest) {
        assert rest == init + [last];
        ConcatMeaning(w, env, init, [last]);
        SingleMeaning(w, env, last);
      }
      result, rest := next, init;
    }
  }

  // ----- The recursion -----

  /** What has become of the parts looked at so far. */
  ghost predicate Divided(parts: seq<Condition>, others: seq<Condition>, disjunctions: seq<Condition>) {
    && SameMeaning(parts, others, disjunctions) && Plain(others) && PlainDisjunctions(disjunctions)
    && (disjunctions == [] <==> !SomeDisjunction(parts))
    && (disjunctions == [] ==> others == parts)
    && |others| + |disjunctions| == |parts|
  }

  /** The result for a condition: absent when the assertion on its class fails, otherwise
      equivalent and in disjunctive normal form, and unchanged if it has no disjunction. */
  ghost predicate ResultFor(c: Condition, r: Option<Condition>) {
    && (r == None <==> DisjunctionUnderUniversal(c))
    && (r.Some? ==> Equivalent(r.value, c) && IsDNF(r.value) && (r.value.Disjunction? <==> HasDisjunction(c))
                    && (!HasDisjunction(c) ==> r.value == c))
  }

  lemma DividedMore(parts: seq<Condition>, others: seq<Condition>, disjunctions: seq<Condition>, part: Condition,
      r: Condition)
    requires Divided(parts, others, disjunctions) && ResultFor(part, Some(r))
    ensures r.Disjunction? ==> Divided(parts + [part], others, disjunctions + [r])
    ensures !r.Disjunction? ==> Divided(parts + [part], others + [r], disjunctions)
  {
    hide SameMeaning, Equivalent;
    EquivalentSymmetric(r, part);
    AddPart(parts, others, disjunctions, part, r);
    SomeDisjunctionMore(parts, part);
  }

  lemma EquivalentSymmetric(a: Condition, b: Condition)
    requires Equivalent(a, b)
    ensures Equivalent(b, a)
  {
  }

  lemma SomeDisjunctionMore(parts: seq<Condition>, part: Condition)
    ensures SomeDisjunction(parts + [part]) <==> SomeDisjunction(parts) || HasDisjunction(part)
  {
    var c := parts + [part];
    assert c[|parts|] == part && forall i :: 0 <= i < |parts| ==> c[i] == parts[i];
  }

  lemma NothingDivided()
    ensures Divided([], [], [])
  {
  }

  /** The recursive calls, sorted by the class of their results. */
  method RecurseParts(ghost owner: Condition, parts: seq<Condition>)
      returns (r: Option<(seq<Condition>, seq<Condition>)>)
    requires forall i :: 0 <= i < |parts| ==> parts[i] < owner
    ensures r == None <==> exists i :: 0 <= i < |parts| && DisjunctionUnderUniversal(parts[i])
    ensures r.Some? ==> Divided(parts, r.value.0, r.value.1)
    decreases owner, 0
  {
    hide Divided, Equivalent, IsDNF;
    var others, disjunctions := [], [];
    NothingDivided();
    assert parts[..0] == [];
    for i := 0 to |parts|
      invariant Divided(parts[..i], others, disjunctions)
      invariant forall k :: 0 <= k < i ==> !DisjunctionUnderUniversal(parts[k])
    {
      var part := Recurse(parts[i]);
      if part == None { return None; }
      DividedMore(parts[..i], others, disjunctions, parts[i], part.value);
      assert parts[..i + 1] == parts[..i] + [parts[i]];
      if part.value.Disjunction? {
        disjunctions := disjunctions + [part.value];
      } else {
        others := others + [part.value];
      }
    }
    assert parts[..|parts|] == parts;
    r := Some((others, disjunctions));
  }

  lemma {:induction false} BlockedHasDisjunction(c: Condition)
    requires DisjunctionUnderUniversal(c)
    ensures HasDisjunction(c)
  {
    match c {
      case Conjunction(parts) =>
        var i :| 0 <= i < |parts| && DisjunctionUnderUniversal(parts[i]);
        BlockedHasDisjunction(parts[i]);
      case Existential(_, part) => BlockedHasDisjunction(part);
      case _ =>
    }
  }

  lemma PartBlocks(c: Condition, i: nat)
    requires i < |Parts(c)| && DisjunctionUnderUniversal(Parts(c)[i])
    ensures DisjunctionUnderUniversal(c)
  {
    if c.Universal? { BlockedHasDisjunction(c.part); }
  }

  lemma Unchanged(c: Condition)
    requires !SomeDisjunction(Parts(c)) && forall i :: 0 <= i < |Parts(c)| ==> !DisjunctionUnderUniversal(Parts(c)[i])
    ensures ResultFor(c, Some(c))
  {
    match c {
      case Existential(_, part) => assert Parts(c)[0] == part;
      case Universal(_, part) => assert Parts(c)[0] == part;
      case _ =>
    }
  }

  lemma FlattenedResult(c: Condition, others: seq<Condition>, disjunctions: seq<Condition>, parts: seq<Condition>)
    requires c.Disjunction? && SameMeaning(c.parts, others, disjunctions) && Plain(parts)
    requires !DisjunctionUnderUniversal(c)
    requires forall w, env :: AnyHolds(w, env, parts) <==> AnyHolds(w, env, others) || AnyHolds(w, env, disjunctions)
    ensures ResultFor(c, Some(Disjunction(parts)))
  {
    forall w, env ensures Holds(w, env, Disjunction(parts)) <==> Holds(w, env, c) {
      assert AnyHolds(w, env, parts) <==> AnyHolds(w, env, c.parts);
    }
  }

  lemma SpreadResult(c: Condition, others: seq<Condition>, disjunctions: seq<Condition>, parts: seq<Condition>)
    requires c.Conjunction? && SameMeaning(c.parts, others, disjunctions) && Plain(parts)
    requires !DisjunctionUnderUniversal(c)
    requires SomeDisjunction(c.parts)
    requires forall w, env :: AnyHolds(w, env, parts) <==> AllHold(w, env, others) && AllHold(w, env, disjunctions)
    ensures ResultFor(c, Some(Disjunction(parts)))
  {
    forall w, env ensures Holds(w, env, Disjunction(parts)) <==> Holds(w, env, c) {
      assert AnyHolds(w, env, parts) <==> AllHold(w, env, c.parts);
    }
  }

  lemma QuantifiedResult(c: Condition, disjunctions: seq<Condition>, parts: seq<Condition>)
    requires c.Existential? && SameMeaning([c.part], [], disjunctions) && |disjunctions| == 1
    requires disjunctions[0].Disjunction?
    requires Plain(parts) && !DisjunctionUnderUniversal(c) && HasDisjunction(c.part)
    requires Equivalent(Disjunction(parts), Existential(c.parameters, disjunctions[0]))
    ensures ResultFor(c, Some(Disjunction(parts)))
  {
    forall w, env ensures Holds(w, env, disjunctions[0]) <==> Holds(w, env, c.part) {
      SingleMeaning(w, env, c.part);
      SingleMeaning(w, env, disjunctions[0]);
      assert disjunctions == [disjunctions[0]];
    }
    forall w, env ensures Holds(w, env, Existential(c.parameters, disjunctions[0])) <==> Holds(w, env, c) {
    }
  }

  /** The condition in disjunctive normal form; absent exactly when a universal quantifier has a
      disjunction beneath it. */
  method Recurse(condition: Condition) returns (r: Option<Condition>)
    ensures ResultFor(condition, r)
    decreases condition, 1
  {
    hide SameMeaning, Equivalent, Plain;
    var divided := RecurseParts(condition, Parts(condition));
    if divided == None {
      var i :| 0 <= i < |Parts(condition)| && DisjunctionUnderUniversal(Parts(condition)[i]);
      PartBlocks(condition, i);
      return None;
    }
    var (others, disjunctions) := divided.value;
    if disjunctions == [] {
      Unchanged(condition);
      return Some(condition);
    }
    match condition {
      case Disjunction(_) =>
        var parts := Flatten(others, disjunctions);
        FlattenedResult(condition, others, disjunctions, parts);
        r := Some(Disjunction(parts));
      case Existential(parameters, part) =>
        assert Parts(condition)[0] == part && others == [];
        var parts := SpreadQuantifier(parameters, disjunctions[0].parts);
        QuantifiedResult(condition, disjunctions, parts);
        r := Some(Disjunction(parts));
      case Conjunction(_) =>
        var parts := SpreadConjunction(others, disjunctions);
        SpreadResult(condition, others, disjunctions, parts);
        r := Some(Disjunction(parts));
      case _ =>
        r := None;
    }
  }

  /** Inputs on which the assertion fails, even without parameters and alternatives. */
  lemma UniversalFails(parameters: seq<Parameter>, parts: seq<Condition>)
    ensures forall r :: ResultFor(Universal(parameters, Disjunction(parts)), r) ==> r == None
  {
  }
}
