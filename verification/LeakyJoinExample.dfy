/**
  A valid program whose computed model is not the least one (build_model.py:81-112):
  the conditions of a join share a variable that its effect does not mention, and a
  join compares only the variables of its effect.
 */
module LeakyJoinExample {
  import opened Strips
  import opened Datalog
  import opened RuleFiring
  import opened RuleSoundness
  import opened RuleValidation
  import opened ModelComputation

  const X := Free("x")
  const RULE := Rule(Join, SymAtom("goal", []), [SymAtom("p", [X]), SymAtom("q", [X])])
  const PA := Atom("p", ["a"])
  const QB := Atom("q", ["b"])
  const GOAL := Atom("goal", [])
  const PROGRAM := Program([PA, QB], [RULE])

  lemma ExampleValid()
    ensures ValidProgram(PROGRAM) && FitsProgram(map["p" := 1, "q" := 1, "goal" := 0], {"a", "b"}, PROGRAM)
    ensures !CommonInEffect(RULE)
  {
    var left, right := RULE.conditions[0].args, RULE.conditions[1].args;
    assert left == [X] && right == [X] && RULE.effect.args == [];
    assert VarsOf(left) == {X} && VarsOf(right) == {X} && VarsOf([]) == {};
    assert X in CommonVariables(RULE);
  }

  /** The two facts combine, although no value of the shared variable gives both. */
  lemma FactsFire(m: iset<Atom>)
    requires IsFiringModel(PROGRAM.rules, AsModel(PROGRAM.facts), m)
    ensures GOAL in m
  {
    var c, t := Converted(RULE), [PA, QB];
    assert PROGRAM.rules[0] == RULE && PROGRAM.facts[0] == PA && PROGRAM.facts[1] == QB;
    assert RenameAll([], [X]) == [X];
    assert c.conditions == [SymAtom("p", [X]), SymAtom("q", [X])];
    assert MatchesAll(c, t);
    var env: Env := map[];
    assert BindsAll(env, c, t);
    assert Instance(env, c.effect) == GOAL;
    assert Derives(c, t, GOAL);
    assert TupleOf(m, t);
    assert ClosedUnderFiring(m, Converted(PROGRAM.rules[0]));
  }

  lemma NeverBoth(env: Env)
    ensures !AllIn(AsModel(PROGRAM.facts), env, RULE.conditions)
  {
    var u, v := Instance(env, RULE.conditions[0]), Instance(env, RULE.conditions[1]);
    assert u.args == [Value(env, X)] && v.args == [Value(env, X)];
    assert u.symbol == "p" && v.symbol == "q" && PA.symbol == "p" && QB.symbol == "q";
    assert PA.args[0] == "a" && QB.args[0] == "b";
  }

  lemma FactsAreModel()
    ensures IsModel(PROGRAM.rules, AsModel(PROGRAM.facts), AsModel(PROGRAM.facts)) && GOAL !in AsModel(PROGRAM.facts)
  {
    forall env: Env { NeverBoth(env); }
    assert GOAL.symbol == "goal" && PA.symbol == "p" && QB.symbol == "q";
  }

  /** Whatever `compute_model` returns for the program holds more than its least model. */
  lemma ModelIsNotLeast(model: seq<Atom>)
    requires IsLeastFiringModel(PROGRAM.rules, AsModel(PROGRAM.facts), AsModel(model))
    ensures ValidProgram(PROGRAM) && GOAL in model
    ensures !IsLeastModel(PROGRAM.rules, AsModel(PROGRAM.facts), AsModel(model))
  {
    ExampleValid();
    hide IsFiringModel, IsModel, ValidProgram;
    FactsFire(AsModel(model));
    FactsAreModel();
  }

  method ComputeExample() returns (model: seq<Atom>)
    ensures GOAL in model && !IsLeastModel(PROGRAM.rules, AsModel(PROGRAM.facts), AsModel(model))
  {
    ExampleValid();
    model := ComputeModel(PROGRAM, map["p" := 1, "q" := 1, "goal" := 0], {"a", "b"});
    hide ValidProgram, FitsProgram, IsModel, IsLeastModel, IsFiringModel;
    ModelIsNotLeast(model);
  }
}
