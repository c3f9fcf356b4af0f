/**
  Finding the rule conditions that match an atom (build_model.py:178-268).

  The constant arguments of the conditions are stored in a tree that tests one
  argument position per level.  It returns exactly the conditions that a linear
  scan would return, each once, and positions strictly increase along every path.
 */
module Unification {
  import opened Strips
  import opened Datalog

  /** A condition of a rule: the number of the rule and of the condition. */
  datatype Match = Match(rule: nat, cond: nat)

  datatype Generator =
    | Leaf(matches: seq<Match>)
    | Test(index: nat, matches: seq<Match>, branches: map<string, Generator>, next: Generator)

  datatype Constant = Constant(index: nat, value: string)

  /** Positions strictly increase along every path, start at `low` and stay below `n`. */
  predicate Ordered(g: Generator, low: nat, n: nat)
    decreases g
  {
    match g
    case Leaf(_) => true
    case Test(index, _, branches, next) =>
      && low <= index < n && Ordered(next, index + 1, n)
      && (forall a :: a in branches ==> Ordered(branches[a], index + 1, n))
  }

  /** The conditions whose constants agree with the arguments. */
  function Generate(g: Generator, args: seq<string>): seq<Match>
    decreases g
  {
    match g
    case Leaf(matches) => matches
    case Test(index, matches, branches, next) =>
      matches + (if index < |args| && args[index] in branches then Generate(branches[args[index]], args) else []) +
      Generate(next, args)
  }

  predicate Agrees(args: seq<string>, cs: seq<Constant>) {
    forall i :: 0 <= i < |cs| ==> cs[i].index < |args| && args[cs[i].index] == cs[i].value
  }

  /** The constants are listed by position, between `low` and `n`. */
  predicate Listed(cs: seq<Constant>, low: nat, n: nat) {
    && (forall i :: 0 <= i < |cs| ==> low <= cs[i].index < n)
    && (forall i, j :: 0 <= i < j < |cs| ==> cs[i].index < cs[j].index)
  }

  // ----- Insertion -----

  /** The new branch for the constants, built from the last to the first. */
  function Chain(cs: seq<Constant>, value: Match): Generator {
    if cs == [] then Leaf([value]) else Test(cs[0].index, [], map[cs[0].value := Chain(cs[1..], value)], Leaf([]))
  }

  function InsertLeaf(matches: seq<Match>, cs: seq<Constant>, value: Match): Generator {
    if cs == [] then Leaf(matches + [value]) else Chain(cs, value).(matches := matches)
  }

  function Insert(g: Generator, cs: seq<Constant>, value: Match): Generator
    decreases g
  {
    match g
    case Leaf(matches) => InsertLeaf(matches, cs, value)
    case Test(index, matches, branches, next) =>
      if cs == [] then g.(matches := matches + [value])
      else if index < cs[0].index then g.(next := Insert(next, cs, value))
      else if index > cs[0].index then
        Test(cs[0].index, [], map[cs[0].value := InsertLeaf([], cs[1..], value)], g)
      else
        var a := cs[0].value;
        g.(branches := branches[a := if a in branches then Insert(branches[a], cs[1..], value) else InsertLeaf([], cs[1..], value)])
  }

  lemma {:induction false} ChainOrdered(cs: seq<Constant>, value: Match, low: nat, n: nat)
    requires Listed(cs, low, n)
    ensures Ordered(Chain(cs, value), low, n)
  {
    if cs != [] {
      assert Listed(cs[1..], cs[0].index + 1, n);
      ChainOrdered(cs[1..], value, cs[0].index + 1, n);
    }
  }

  lemma ListedTail(cs: seq<Constant>, low: nat, n: nat)
    requires Listed(cs, low, n) && cs != []
    ensures Listed(cs[1..], cs[0].index + 1, n) && low <= cs[0].index < n
  {
  }

  lemma InsertLeafOrdered(matches: seq<Match>, cs: seq<Constant>, value: Match, low: nat, n: nat)
    requires Listed(cs, low, n)
    ensures Ordered(InsertLeaf(matches, cs, value), low, n)
  {
    ChainOrdered(cs, value, low, n);
    if cs != [] { ListedTail(cs, low, n); }
  }

  lemma {:induction false} InsertOrdered(g: Generator, cs: seq<Constant>, value: Match, low: nat, n: nat)
    requires Ordered(g, low, n) && Listed(cs, low, n)
    ensures Ordered(Insert(g, cs, value), low, n)
    decreases g
  {
    match g
    case Leaf(matches) => InsertLeafOrdered(matches, cs, value, low, n);
    case Test(index, matches, branches, next) =>
      if cs != [] {
        ListedTail(cs, low, n);
        if index < cs[0].index {
          InsertOrdered(next, cs, value, index + 1, n);
        } else if index > cs[0].index {
          InsertLeafOrdered([], cs[1..], value, cs[0].index + 1, n);
        } else {
          InsertLeafOrdered([], cs[1..], value, index + 1, n);
          if cs[0].value in branches {
            InsertOrdered(branches[cs[0].value], cs[1..], value, index + 1, n);
          }
        }
      }
  }

  /** How often `v` is generated. */
  function Count(g: Generator, args: seq<string>, v: Match): nat
    decreases g
  {
    match g
    case Leaf(matches) => multiset(matches)[v]
    case Test(index, matches, branches, next) =>
      multiset(matches)[v] +
      (if index < |args| && args[index] in branches then Count(branches[args[index]], args, v) else 0) +
      Count(next, args, v)
  }

  lemma {:induction false} CountGenerated(g: Generator, args: seq<string>, v: Match)
    ensures multiset(Generate(g, args))[v] == Count(g, args, v)
    decreases g
  {
    match g
    case Leaf(_) =>
    case Test(index, matches, branches, next) =>
      CountGenerated(next, args, v);
      if index < |args| && args[index] in branches { CountGenerated(branches[args[index]], args, v); }
  }

  function One(b: bool): nat {
    if b then 1 else 0
  }

  lemma AgreesCons(args: seq<string>, cs: seq<Constant>)
    requires cs != []
    ensures Agrees(args, cs) <==> cs[0].index < |args| && args[cs[0].index] == cs[0].value && Agrees(args, cs[1..])
  {
    if Agrees(args, cs[1..]) {
      forall i | 1 <= i < |cs| ensures cs[i].index < |args| && args[cs[i].index] == cs[i].value {
        assert cs[1..][i - 1] == cs[i];
      }
    }
  }

  lemma {:induction false} ChainCounts(cs: seq<Constant>, value: Match, args: seq<string>, v: Match)
    ensures Count(Chain(cs, value), args, v) == One(v == value && Agrees(args, cs))
  {
    if cs != [] {
      ChainCounts(cs[1..], value, args, v);
      AgreesCons(args, cs);
    }
  }

  lemma InsertLeafCounts(matches: seq<Match>, cs: seq<Constant>, value: Match, args: seq<string>, v: Match)
    ensures Count(InsertLeaf(matches, cs, value), args, v) == multiset(matches)[v] + One(v == value && Agrees(args, cs))
  {
    ChainCounts(cs, value, args, v);
  }

  /** Insertion adds the value for exactly the arguments that agree with its constants. */
  lemma {:induction false} InsertCounts(g: Generator, cs: seq<Constant>, value: Match, args: seq<string>, v: Match)
    ensures Count(Insert(g, cs, value), args, v) == Count(g, args, v) + One(v == value && Agrees(args, cs))
    decreases g
  {
    match g
    case Leaf(matches) => InsertLeafCounts(matches, cs, value, args, v);
    case Test(index, matches, branches, next) =>
      if cs != [] {
        AgreesCons(args, cs);
        if index < cs[0].index {
          InsertCounts(next, cs, value, args, v);
        } else if index > cs[0].index {
          InsertLeafCounts([], cs[1..], value, args, v);
        } else {
          InsertLeafCounts([], cs[1..], value, args, v);
          if cs[0].value in branches {
            InsertCounts(branches[cs[0].value], cs[1..], value, args, v);
          }
        }
      }
  }

  lemma InsertMatches(g: Generator, cs: seq<Constant>, value: Match, args: seq<string>)
    ensures multiset(Generate(Insert(g, cs, value), args)) ==
      multiset(Generate(g, args) + if Agrees(args, cs) then [value] else [])
  {
    forall v: Match
      ensures multiset(Generate(Insert(g, cs, value), args))[v] ==
        multiset(Generate(g, args) + if Agrees(args, cs) then [value] else [])[v]
    {
      InsertCounts(g, cs, value, args, v);
      CountGenerated(Insert(g, cs, value), args, v);
      CountGenerated(g, args, v);
    }
  }

  // ----- Conditions -----

  /** The constants of a condition with their positions. */
  function Constants(args: seq<Arg>): (r: seq<Constant>)
    ensures forall i :: 0 <= i < |r| ==> r[i].index < |args| && args[r[i].index] == Obj(r[i].value)
    ensures forall k :: 0 <= k < |args| && args[k].Obj? ==> Constant(k, args[k].o) in r
    ensures forall i, j :: 0 <= i < j < |r| ==> r[i].index < r[j].index
  {
    if args == [] then []
    else
      var front, last := args[..|args| - 1], args[|args| - 1];
      Constants(front) + if last.Obj? then [Constant(|args| - 1, last.o)] else []
  }

  /** The atom has the symbol and the constants of the condition. */
  predicate MatchesCondition(c: SymAtom, a: Atom) {
    c.symbol == a.symbol && forall k :: 0 <= k < |c.args| && k < |a.args| && c.args[k].Obj? ==> c.args[k].o == a.args[k]
  }

  lemma ConstantsAgree(c: SymAtom, a: Atom)
    requires c.symbol == a.symbol && |c.args| == |a.args|
    ensures Agrees(a.args, Constants(c.args)) <==> MatchesCondition(c, a)
  {
    var cs := Constants(c.args);
    if Agrees(a.args, cs) {
      forall k | 0 <= k < |c.args| && c.args[k].Obj? ensures c.args[k].o == a.args[k] {
        var i :| 0 <= i < |cs| && cs[i] == Constant(k, c.args[k].o);
        assert a.args[cs[i].index] == cs[i].value;
      }
    }
  }

  datatype Entry = Entry(cond: SymAtom, value: Match)

  /** The linear scan over the inserted conditions. */
  function Scan(entries: seq<Entry>, a: Atom): seq<Match> {
    if entries == [] then []
    else
      var last := entries[|entries| - 1];
      Scan(entries[..|entries| - 1], a) + if MatchesCondition(last.cond, a) then [last.value] else []
  }

  lemma {:induction false} InScan(entries: seq<Entry>, a: Atom, v: Match)
    ensures v in Scan(entries, a) <==> exists i :: 0 <= i < |entries| && entries[i].value == v && MatchesCondition(entries[i].cond, a)
  {
    if entries != [] {
      var front, last := entries[..|entries| - 1], entries[|entries| - 1];
      InScan(front, a, v);
      if v in Scan(front, a) {
        var i :| 0 <= i < |front| && front[i].value == v && MatchesCondition(front[i].cond, a);
        assert entries[i] == front[i];
      }
      if exists i :: 0 <= i < |entries| && entries[i].value == v && MatchesCondition(entries[i].cond, a) {
        var i :| 0 <= i < |entries| && entries[i].value == v && MatchesCondition(entries[i].cond, a);
        if i < |front| { assert front[i] == entries[i]; }
      }
    }
  }

  predicate DistinctEntries(entries: seq<Entry>) {
    forall i, j :: 0 <= i < j < |entries| ==> entries[i].value != entries[j].value
  }

  lemma ScanCountStep(entries: seq<Entry>, a: Atom, v: Match)
    requires entries != []
    ensures var last := entries[|entries| - 1];
      multiset(Scan(entries, a))[v] ==
        multiset(Scan(entries[..|entries| - 1], a))[v] + One(MatchesCondition(last.cond, a) && last.value == v)
  {
  }

  /** Each matching condition is found exactly once, and nothing else is found. */
  lemma {:induction false} FoundOnce(entries: seq<Entry>, a: Atom, i: nat)
    requires DistinctEntries(entries) && i < |entries|
    ensures multiset(Scan(entries, a))[entries[i].value] == One(MatchesCondition(entries[i].cond, a))
  {
    hide Scan, MatchesCondition;
    var n := |entries| - 1;
    var front := entries[..n];
    ScanCountStep(entries, a, entries[i].value);
    if i < n {
      FoundOnce(front, a, i);
    } else {
      NotFound(front, a, entries[n].value);
    }
  }

  lemma NotFound(entries: seq<Entry>, a: Atom, v: Match)
    requires forall k :: 0 <= k < |entries| ==> entries[k].value != v
    ensures multiset(Scan(entries, a))[v] == 0
  {
    InScan(entries, a, v);
    assert v !in Scan(entries, a);
  }

  /** Symbols have a fixed number of arguments. */
  type Arities = map<string, nat>

  predicate HasArity(arities: Arities, symbol: string, n: int) {
    symbol in arities && arities[symbol] == n
  }

  class Unifier {
    var generators: map<string, Generator>
    ghost var entries: seq<Entry>
    ghost const arities: Arities

    ghost predicate Valid()
      reads this
    {
      && (forall p :: p in generators ==> p in arities && Ordered(generators[p], 0, arities[p]))
      && (forall a: Atom :: HasArity(arities, a.symbol, |a.args|) ==> Exact(a))
    }

    /** The tree returns the same matches as the scan. */
    ghost predicate Exact(a: Atom)
      reads this
    {
      multiset(Lookup(generators, a)) == multiset(Scan(entries, a))
    }

    constructor Empty(ghost arities: Arities)
      ensures Valid() && entries == [] && this.arities == arities
    {
      generators, entries := map[], [];
      this.arities := arities;
    }

    method InsertCondition(cond: SymAtom, value: Match)
      requires Valid() && HasArity(arities, cond.symbol, |cond.args|)
      modifies this
      ensures Valid() && entries == old(entries) + [Entry(cond, value)]
    {
      var root := if cond.symbol in generators then generators[cond.symbol] else Leaf([]);
      var cs := Constants(cond.args);
      InsertOrdered(root, cs, value, 0, |cond.args|);
      ghost var before, scanned := generators, entries;
      generators := generators[cond.symbol := Insert(root, cs, value)];
      entries := entries + [Entry(cond, value)];
      forall a: Atom | HasArity(arities, a.symbol, |a.args|) ensures Exact(a) {
        InsertExact(before, scanned, cond, value, a);
      }
    }

    /** The conditions that match the atom, as a linear scan would find them. */
    method Unify(a: Atom) returns (r: seq<Match>)
      requires Valid() && HasArity(arities, a.symbol, |a.args|)
      ensures multiset(r) == multiset(Scan(entries, a))
    {
      assert Exact(a);
      r := Lookup(generators, a);
    }
  }

  function Lookup(generators: map<string, Generator>, a: Atom): seq<Match> {
    if a.symbol in generators then Generate(generators[a.symbol], a.args) else []
  }

  lemma InsertExact(generators: map<string, Generator>, entries: seq<Entry>, cond: SymAtom, value: Match, a: Atom)
    requires multiset(Lookup(generators, a)) == multiset(Scan(entries, a))
    requires a.symbol == cond.symbol ==> |a.args| == |cond.args|
    ensures var root := if cond.symbol in generators then generators[cond.symbol] else Leaf([]);
      multiset(Lookup(generators[cond.symbol := Insert(root, Constants(cond.args), value)], a)) ==
        multiset(Scan(entries + [Entry(cond, value)], a))
  {
    var root := if cond.symbol in generators then generators[cond.symbol] else Leaf([]);
    assert (entries + [Entry(cond, value)])[..|entries|] == entries;
    if a.symbol == cond.symbol {
      InsertMatches(root, Constants(cond.args), value, a.args);
      ConstantsAgree(cond, a);
      assert Lookup(generators, a) == Generate(root, a.args);
    }
  }
}
