/** Counting variables in a changing list of atoms (greedy_join.py:8-26), and the
    generator of auxiliary names (pddl_to_prolog.py:16-19). */
module Occurrences {
  import opened Datalog

  function CountIn(args: seq<Arg>, x: Arg): nat {
    if args == [] then 0 else CountIn(args[..|args| - 1], x) + if args[|args| - 1] == x then 1 else 0
  }

  function CountAll(ts: seq<SymAtom>, x: Arg): nat {
    if ts == [] then 0 else CountAll(ts[..|ts| - 1], x) + CountIn(ts[|ts| - 1].args, x)
  }

  lemma {:induction false} CountPositive(args: seq<Arg>, x: Arg)
    ensures CountIn(args, x) > 0 <==> x in args
  {
    if args != [] {
      CountPositive(args[..|args| - 1], x);
      assert args == args[..|args| - 1] + [args[|args| - 1]];
    }
  }

  lemma {:induction false} CountAllPositive(ts: seq<SymAtom>, x: Arg)
    requires x.IsVar()
    ensures CountAll(ts, x) > 0 <==> x in Variables(ts)
  {
    if ts != [] {
      var front, last := ts[..|ts| - 1], ts[|ts| - 1];
      CountAllPositive(front, x);
      CountPositive(last.args, x);
      if x in Variables(front) {
        var i :| 0 <= i < |front| && x in VarsOf(front[i].args);
        assert x in VarsOf(ts[i].args);
      }
      if x in Variables(ts) {
        var i :| 0 <= i < |ts| && x in VarsOf(ts[i].args);
        if i < |front| { assert x in VarsOf(front[i].args); }
      }
    }
  }

  lemma CountAllAppend(ts: seq<SymAtom>, t: SymAtom, x: Arg)
    ensures CountAll(ts + [t], x) == CountAll(ts, x) + CountIn(t.args, x)
  {
    assert (ts + [t])[..|ts|] == ts;
  }

  lemma {:induction false} CountAllRemove(ts: seq<SymAtom>, i: nat, x: Arg)
    requires i < |ts|
    ensures CountAll(ts[..i] + ts[i + 1..], x) + CountIn(ts[i].args, x) == CountAll(ts, x)
  {
    var n := |ts| - 1;
    if i == n {
      assert ts[..i] + ts[i + 1..] == ts[..n];
    } else {
      var front := ts[..n];
      CountAllRemove(front, i, x);
      assert ts[..i] + ts[i + 1..] == front[..i] + front[i + 1..] + [ts[n]];
      CountAllAppend(front[..i] + front[i + 1..], ts[n], x);
    }
  }

  class OccurrencesTracker {
    var occurrences: map<Arg, int>

    /** How often the variable is counted now. */
    function Count(x: Arg): int
      reads this
    {
      if x in occurrences then occurrences[x] else 0
    }

    ghost predicate Valid()
      reads this
    {
      forall x :: x in occurrences ==> x.IsVar() && occurrences[x] > 0
    }

    constructor (effect: SymAtom, conditions: seq<SymAtom>)
      ensures Valid()
      ensures forall x: Arg :: x.IsVar() ==> Count(x) == CountIn(effect.args, x) + CountAll(conditions, x)
    {
      occurrences := map[];
      new;
      Update(effect, 1);
      for i := 0 to |conditions|
        invariant Valid()
        invariant forall x: Arg :: x.IsVar() ==> Count(x) == CountIn(effect.args, x) + CountAll(conditions[..i], x)
      {
        assert conditions[..i + 1][..i] == conditions[..i];
        Update(conditions[i], 1);
      }
      assert conditions[..|conditions|] == conditions;
    }

    /** Count the variables of the atom up or down; the counts never fall below zero. */
    method Update(t: SymAtom, delta: int)
      requires Valid() && (delta == 1 || delta == -1)
      requires delta == -1 ==> forall x: Arg :: x.IsVar() ==> CountIn(t.args, x) <= Count(x)
      modifies this
      ensures Valid()
      ensures forall x: Arg :: x.IsVar() ==> Count(x) == old(Count(x)) + delta * CountIn(t.args, x)
    {
      for k := 0 to |t.args|
        invariant Valid()
        invariant forall x: Arg :: x.IsVar() ==> Count(x) == old(Count(x)) + delta * CountIn(t.args[..k], x)
      {
        assert t.args[..k + 1][..k] == t.args[..k];
        var x := t.args[k];
        if x.IsVar() {
          CountPrefix(t.args, k + 1, x);
          if x !in occurrences { occurrences := occurrences[x := 0]; }
          occurrences := occurrences[x := occurrences[x] + delta];
          assert occurrences[x] >= 0;
          if occurrences[x] == 0 { occurrences := occurrences - {x}; }
        }
      }
      assert t.args[..|t.args|] == t.args;
    }

    /** The variables with a positive count. */
    function Occurring(): (r: set<Arg>)
      requires Valid()
      reads this
      ensures forall x :: x in r <==> x.IsVar() && Count(x) > 0
    {
      occurrences.Keys
    }
  }

  lemma {:induction false} CountPrefix(args: seq<Arg>, k: nat, x: Arg)
    requires k <= |args|
    ensures CountIn(args[..k], x) <= CountIn(args, x)
    decreases |args|
  {
    if k < |args| {
      CountPrefix(args[..|args| - 1], k, x);
      assert args[..|args| - 1][..k] == args[..k];
    } else {
      assert args[..k] == args;
    }
  }

  // ----- Auxiliary names -----

  const DIGITS := "0123456789"

  function Decimal(n: nat): (s: string)
    ensures s != []
  {
    if n < 10 then [DIGITS[n]] else Decimal(n / 10) + [DIGITS[n % 10]]
  }

  /** The name "p$" followed by the number. */
  function AuxName(n: nat): string {
    "p$" + Decimal(n)
  }

  /** The number that decimal digits denote. */
  function Reading(s: string): int {
    if s == [] then 0 else 10 * Reading(s[..|s| - 1]) + (s[|s| - 1] as int - '0' as int)
  }

  predicate IsDigit(c: char) { '0' <= c <= '9' }

  /** A name is "p$" and the decimal form of its number, without leading zeros. */
  lemma {:induction false} NameReads(n: nat)
    ensures AuxName(n)[..2] == "p$" && Reading(AuxName(n)[2..]) == n
    ensures forall i :: 2 <= i < |AuxName(n)| ==> IsDigit(AuxName(n)[i])
    ensures n > 0 ==> AuxName(n)[2] != '0'
  {
    DecimalReads(n);
    assert AuxName(n)[2..] == Decimal(n);
  }

  lemma {:induction false} DecimalReads(n: nat)
    ensures Reading(Decimal(n)) == n && (forall i :: 0 <= i < |Decimal(n)| ==> IsDigit(Decimal(n)[i]))
    ensures n > 0 ==> Decimal(n)[0] != '0'
  {
    var d := DIGITS[n % 10];
    assert d as int == '0' as int + n % 10;
    if n < 10 {
      assert Decimal(n)[..0] == [];
    } else {
      DecimalReads(n / 10);
      assert Decimal(n)[..|Decimal(n)| - 1] == Decimal(n / 10);
    }
  }

  lemma DigitsDiffer(a: nat, b: nat)
    requires a < 10 && b < 10 && DIGITS[a] == DIGITS[b]
    ensures a == b
  {
  }

  lemma {:induction false} DecimalInjective(a: nat, b: nat)
    requires Decimal(a) == Decimal(b)
    ensures a == b
  {
    var s, t := Decimal(a), Decimal(b);
    assert s[|s| - 1] == DIGITS[a % 10] && t[|t| - 1] == DIGITS[b % 10];
    DigitsDiffer(a % 10, b % 10);
    if a >= 10 && b >= 10 {
      assert s[..|s| - 1] == Decimal(a / 10) && t[..|t| - 1] == Decimal(b / 10);
      DecimalInjective(a / 10, b / 10);
    }
  }

  lemma NamesDiffer(a: nat, b: nat)
    requires AuxName(a) == AuxName(b)
    ensures a == b
  {
    assert AuxName(a)[2..] == Decimal(a) && AuxName(b)[2..] == Decimal(b);
    DecimalInjective(a, b);
  }

  /** The generator never yields a name twice. */
  class NameGenerator {
    var count: nat

    constructor ()
      ensures count == 0
    {
      count := 0;
    }

    method Next() returns (name: string)
      modifies this
      ensures name == AuxName(old(count)) && count == old(count) + 1
    {
      name := AuxName(count);
      count := count + 1;
    }
  }
}
