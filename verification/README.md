# Verified model of the Fast Downward translator

The planner carries copies of the Fast Downward translator: Python code that turns a
grounded planning task with conditional effects into a finite-domain (SAS+) task, and
rewrites that task before search. This project models the core of that code in Dafny
and proves what its passes preserve.

What is modelled, in the order in which a task passes through it:

- **Relaxed exploration** (`Datalog`, `Unification`, `Queues`, `RuleFiring`,
  `BuildRules`, `RuleSoundness`, `RuleValidation`, `ModelComputation`,
  `LeakyJoinExample`, `ConservativeExtension`, `JoinCosts`, `Occurrences`, `GreedyJoin`,
  `ConnectedConditions`, `SplitRules`, `Exploration`): the Datalog engine that grounds a
  task. Rules are split into binary rules over auxiliary predicates; a discrimination
  tree finds the conditions an atom matches; joins look up hashed keys; a work list runs
  to a fixpoint. `Exploration.Explore` puts the parts together and compares the result
  with the least model of the original rules.
- **Translation** (`Strips`, `FactGroups`, `Encodings`, `Conditions`, `BoxEnumeration`,
  `ConditionTranslation`, `GoalAssertion`, `EffectTables`, `DeleteEffects`,
  `EffectConditions`, `OperatorBuilding`, `BuiltOperators`, `OperatorTranslation`,
  `TaskTranslation`, `NegativeGoalExample`): fact groups become variables, conjunctions of
  literals become lists of assignments, and each action becomes operators. A state of the translated task *encodes* a set of
  atoms; the theorems relate steps and plans across that relation.
- **Simplification** (`SasTasks`, `DomainTransitionGraphs`, `Renamings`,
  `OperatorRenaming`, `OperatorSimulation`, `ReachabilityFilter`, `Simplify`,
  `HidingExample`): values that are unreachable in the domain transition graphs are
  removed and the rest renumbered.
- **Variable order** (`CausalGraphs`, `Reachability`, `Tarjan*`, `Scc`, `MaxDag`, `InnerGraphs`,
  `Projection`, `ProjectionValidity`, `VariableOrder`, `ReorderingExample`): the causal
  graph is ordered by strongly connected components, and variables on which the goal does
  not depend are projected away.
- **The whole pipeline** (`Pipeline`): which passes run, and what they keep of the plans.
- **Small engines used on the way**: constraint systems with shared equivalence classes
  (`Assignments`, `ConstraintSystems`), negation and simplification of axioms (`Axioms`,
  `AxiomSimplification`, `AxiomNegation`), disjunctive normal form (`NormalForms`),
  matching of invariant parts (`FactoredMappings`, `InvariantParts`,
  `PossibleMatches`), Warshall's closure (`Closure`).

The meaning of a finite-domain task is given in `SasTasks`: an operator applies its
entries in list order, conditions are read in the old state, and the last triggering
entry wins. For a valid operator that is the highest value, as the comment at
`BFWS-public/fd-version/fd/sas_tasks.py:310-318` suggests. A plan has a cost, the sum of
its operator costs, and the names of its operators. To keep plans, with their names and
costs, means: every plan of the result has the names and the cost of a plan of the input,
and for every plan of the input there is one of the result that drops steps which change
nothing and costs no more.

Code that changes objects step by step is modelled by classes and methods with loops;
each such method is proved against a function or relation on values, and the theorems
are about those. An assertion or exception of the source is a result of the model
(`None`, `Failed`, `Impossible`, ...), never a precondition, except where the lines
cited state what callers must provide.

Six places where the code does less than its names and comments suggest are proved as
such:

- Reachability filtering can turn an unsolvable task into a solvable one: an entry whose
  precondition equals its value is dropped, although it may win over a lower entry
  (`HidingExample.FilteringCanMakeSolvable`). `ReachabilityFilter.CommutesIffNeverHides`
  gives the exact condition under which filtering commutes with every step in all states
  over the reached values. That suffices for keeping plans
  (`ReachabilityFilter.FilterPreservesPlans`), and the translator's own operators always
  meet it (`BuiltOperators.BuildSasOperator`).
- A join rule compares only variables that occur in its effect. It combines nothing but
  instances of the rule exactly when all shared variables occur there
  (`RuleValidation.JoinExactIffCommonInEffect`). Every validated program gets exactly
  what firing derives from its facts (`ModelComputation.ComputeModel`): its least model
  if all joins are of that kind, and a model that may contain more otherwise
  (`LeakyJoinExample.ModelIsNotLeast`).
- Axiom conditions are sorted by atom and not by sign, so that removing equal neighbours
  can leave a literal twice (`Axioms.RepetitionSurvives`); `Axioms.CanonicalDistinct`
  says exactly when.
- Bringing a condition into disjunctive normal form fails its class assertion exactly
  when a universal quantifier has a disjunction beneath it (`NormalForms.Recurse`), for
  example an empty one (`NormalForms.UniversalFails`).
- The translation asserts that the goal has one assignment. That fails exactly when the
  goal clashes with no group and leaves one open: some fact of the group is negated, none
  is asked for, and some is not negated (`GoalAssertion.TranslationOutcome`,
  `TaskTranslation.TranslateTask`, `Pipeline.PddlToSas`). It also fails for tasks that
  have plans (`NegativeGoalExample.SolvableGoalFails`).
- Reordering does not sort the conditions and entries of operators again. The result
  passes the rules of `validate` exactly when these lists happen to stay in order
  (`ProjectionValidity.ValidExactlyWhenSorted`); the orders that ensure it for every valid
  task are the ascending ones (`ProjectionValidity.ValidExactlyWhenAscending`); and for
  some valid tasks every order the pass can choose breaks the rules
  (`ReorderingExample.ReorderingBreaksValidity`).

Check the project with `dafny verify dfyconfig.toml`.

## Model

| member | source | states |
|---|---|---|
| SasTasks.HighestPostWins | BFWS-public/fd-version/fd/sas_tasks.py:310-318 | for a valid operator, applying entries in order gives each variable the highest value among its triggering entries |
| SasTasks.SuccessorValid | BFWS-public/fd-version/fd/sas_tasks.py:277-345 | a valid operator leads from valid states to valid states |
| SasTasks.CanonicalIdempotent | BFWS-public/fd-version/fd/sas_tasks.py:262-275 | sorting and removing duplicates from the entries twice is the same as once |
| Sorting.CanonicalIffSorted | BFWS-public/fd-version/fd/sas_tasks.py:326 | entries equal their canonical form exactly when they are strictly sorted |
| Sorting.SortedIsDetermined | BFWS-public/fd-version/fd/sas_tasks.py:262-275 | a strictly sorted list is determined by its elements, so the canonical form depends only on the set of entries |
| SasTasks.GetApplicabilityConditions | BFWS-public/fd-version/fd/sas_tasks.py:384-400 | the returned conditions list each variable once, in order, and a state satisfies them exactly when the operator is applicable |
| SasTasks.ConditionsMeanApplicable | BFWS-public/fd-version/fd/sas_tasks.py:384-400 | prevail conditions and preconditions as one sorted condition hold exactly when the operator is applicable |
| SasTasks.SimulationTransfersPlans | BFWS-public/fd-version/fd/simplify.py:491-525 | if every step of one task is matched by a step of another with the same name and cost, or by standing still, plans carry over with their names and costs |
| DomainTransitionGraphs.DomainTransitionGraph.Reachable | BFWS-public/fd-version/fd/simplify.py:73-83 | the work list returns the least set with the initial value that is closed under the arcs |
| DomainTransitionGraphs.GetEffectivePre | BFWS-public/fd-version/fd/simplify.py:123-144 | from the condition of the operator and those of the effect: the only value they ask of the variable, no value, or a contradiction if they ask for two |
| DomainTransitionGraphs.CombinePreMeans | BFWS-public/fd-version/fd/simplify.py:123-146 | the combination of all conditions on a variable: none, the one value they agree on, or a contradiction |
| DomainTransitionGraphs.EntryArcMeans | BFWS-public/fd-version/fd/simplify.py:148-153 | for a valid operator the arcs of an entry are exactly the values from which and to which the entry can take its variable in some state |
| DomainTransitionGraphs.TaskArcMeans | BFWS-public/fd-version/fd/simplify.py:148-158 | the same for all operators of a valid task |
| DomainTransitionGraphs.CombinePreSound | BFWS-public/fd-version/fd/simplify.py:123-144 | a state that meets all conditions has the effective precondition as its value; a contradiction is met by no state |
| DomainTransitionGraphs.AddArcs | BFWS-public/fd-version/fd/simplify.py:112-121 | adds exactly the arcs from every value the precondition allows to the effect value |
| DomainTransitionGraphs.BuildDtgs | BFWS-public/fd-version/fd/simplify.py:95-158 | one graph per variable; there is an arc from one value to another exactly when in some valid state with the first value an applicable operator has a triggered entry that sets the second (an unchanged value counts only if a condition asks for it) |
| DomainTransitionGraphs.ChangeIsArc | BFWS-public/fd-version/fd/simplify.py:95-158 | every value change of an applicable operator is an arc |
| Simplify.VarValueRenaming.RegisterVariable | BFWS-public/fd-version/fd/simplify.py:204-229 | appends the new variable number and values, ranked among the reachable ones, and counts the removed values |
| Renamings.RegisterRenames | BFWS-public/fd-version/fd/simplify.py:204-229 | registering variables one by one yields a renaming that drops one-valued variables and keeps the order of variables and values |
| Simplify.VarValueRenaming.ConvertPairs | BFWS-public/fd-version/fd/simplify.py:472-482 | the loop computes the converted condition, or reports that it is impossible |
| Renamings.ConvertMeaning | BFWS-public/fd-version/fd/simplify.py:466-482 | a converted condition holds in the renamed state exactly when the original holds; an impossible one never holds |
| Renamings.ConvertValid | BFWS-public/fd-version/fd/simplify.py:472-482 | a converted valid condition is valid for the new variables, after sorting, and keeps its variables distinct |
| Simplify.VarValueRenaming.TranslatePrePost | BFWS-public/fd-version/fd/simplify.py:400-464 | the branches compute the translated entry, its absence, or the failing assertion |
| OperatorRenaming.EntriesDoNotFail | BFWS-public/fd-version/fd/simplify.py:434-464 | no assertion of the entry translation fails on an operator of a valid task |
| OperatorRenaming.OperatorDoesNotFail | BFWS-public/fd-version/fd/simplify.py:333-386 | no assertion fails while a valid operator is translated, and every pair it mentions has an entry in the renaming |
| Simplify.VarValueRenaming.ConvertOperator | BFWS-public/fd-version/fd/simplify.py:333-386 | the method computes the translated operator, its pruning, or a failure |
| Simplify.VarValueRenaming.ApplyToInit | BFWS-public/fd-version/fd/simplify.py:281-291 | the new initial values, or the failure of one of the two assertions |
| ReachabilityFilter.InitRenamed | BFWS-public/fd-version/fd/simplify.py:281-291 | on a valid task neither assertion about the initial state fails, and the new state renames the old one |
| ReachabilityFilter.RenamedInjective | BFWS-public/fd-version/fd/simplify.py:204-229 | states within the reachable values that are renamed to the same state are equal: no two of them are merged |
| Simplify.VarValueRenaming.ApplyToOperators | BFWS-public/fd-version/fd/simplify.py:303-315 | the translated operators in order, without pruned ones |
| ReachabilityFilter.SurvivorsInOrder | BFWS-public/fd-version/fd/simplify.py:303-315 | the operators that are left come in the order of their originals |
| Simplify.VarValueRenaming.ApplyTo | BFWS-public/fd-version/fd/simplify.py:231-240 | rewrites the task in place to the value that the specification gives, or ends with the corresponding exception |
| OperatorSimulation.ApplicabilityPreserved | BFWS-public/fd-version/fd/simplify.py:333-386 | the translated operator is applicable in the renamed state exactly when the original is |
| OperatorSimulation.NewOperatorValid | BFWS-public/fd-version/fd/simplify.py:333-386 | the translated operator passes the validity rules of operators |
| OperatorSimulation.ValueSimulated | BFWS-public/fd-version/fd/simplify.py:400-464 | unless an entry is hidden, the translated entries give a kept variable the renamed new value |
| OperatorSimulation.ValueDiffers | BFWS-public/fd-version/fd/simplify.py:400-464 | where an entry is hidden, the two values differ |
| ReachabilityFilter.SuccessorsAgree | BFWS-public/fd-version/fd/simplify.py:333-386 | the successors correspond exactly when no entry that requires its own value hides a lower one |
| ReachabilityFilter.OperatorBisimulation | BFWS-public/fd-version/fd/simplify.py:333-386 | same name and cost; at every pair of corresponding states: same applicability, corresponding successors exactly when nothing is hidden, pruned operators change nothing |
| ReachabilityFilter.CommutesIffNeverHides | BFWS-public/fd-version/fd/simplify.py:303-386 | the renaming commutes with all operators exactly when no applicable operator ever hides an entry |
| ReachabilityFilter.NoHidingNeverHides | BFWS-public/fd-version/fd/simplify.py:436-453 | a syntactic condition on the operators that rules hiding out |
| HidingExample.FilteringCanMakeSolvable | BFWS-public/fd-version/fd/simplify.py:436-464 | a valid task without a plan; the pass returns its filtered version for the values its loop reaches, and that one has a plan |
| ReachabilityFilter.FilteredIsValid | BFWS-public/fd-version/fd/simplify.py:231-240 | the filtered task passes the validity rules again, and no assertion fails |
| ReachabilityFilter.FilterPreservesPlans | BFWS-public/fd-version/fd/simplify.py:491-525 | an impossible goal means unsolvable and an empty goal means the initial state meets the goal, for every task; otherwise plans, their names and costs are kept when nothing is hidden |
| ReachabilityFilter.FilteredKeepsPlans | BFWS-public/fd-version/fd/simplify.py:333-386 | a filtered task keeps plans, their names and costs when no entry hides a change of value in a reachable state |
| Simplify.BuildRenaming | BFWS-public/fd-version/fd/simplify.py:484-489 | the renaming keeps exactly the reachable values of every variable |
| Simplify.FilterUnreachablePropositions | BFWS-public/fd-version/fd/simplify.py:491-525 | the pass renames the task to exactly the values that are reachable along changes some operator can cause, never fails an assertion on a valid task and leaves a valid task; its two exceptions mean unsolvable and solved at the start for every task, and otherwise plans, names and costs are kept when nothing is hidden |
| CausalGraphs.CausalGraph.AddOperators | LAPKT-public/external/fd-old/variable_order.py:44-60 | the edges counted are those of the operators, with their multiplicities |
| CausalGraphs.WeightsCountEdges | LAPKT-public/external/fd-old/variable_order.py:57-60 | a weight is the number of times the edge was added, and an entry exists only for added edges |
| CausalGraphs.WeightIsUses | LAPKT-public/external/fd-old/variable_order.py:44-60 | the weight of an edge is the number of conditions on its source, over all entries that set its target, each taken with all conditions of its operator |
| CausalGraphs.EdgesAreInfluences | LAPKT-public/external/fd-old/variable_order.py:44-60 | there is an edge exactly where an effect on the target depends on another variable |
| CausalGraphs.CausalGraph.CalculateImportantVars | LAPKT-public/external/fd-old/variable_order.py:99-107 | returns exactly the backward closure of the goal variables |
| CausalGraphs.Dfs | LAPKT-public/external/fd-old/variable_order.py:109-115 | the explicit-stack search adds everything reachable backwards and terminates |
| Scc.Scc.GetResult | LAPKT-public/external/fd-old/variable_order.py:118-145 | returns exactly the strongly connected components, each vertex once, with no edge to an earlier component |
| Scc.Scc.Visit | LAPKT-public/external/fd-old/variable_order.py:147-183 | the explicit-stack machine terminates, keeps the invariant and finishes the vertex it was called for |
| Scc.Scc.DoBegin | LAPKT-public/external/fd-old/variable_order.py:152-159 | the first frame of a vertex takes a legal turn and numbers it |
| Scc.Scc.DoContinue | LAPKT-public/external/fd-old/variable_order.py:160-180 | a turn for the next successor, or the component is popped |
| Scc.Scc.DoReturn | LAPKT-public/external/fd-old/variable_order.py:181-183 | a turn that takes over the low link of a finished successor |
| TarjanTurns.BeginTurn | LAPKT-public/external/fd-old/variable_order.py:152-157 | starting a vertex keeps the invariant and the shape of the suspended calls |
| TarjanTurns.DescendTurn | LAPKT-public/external/fd-old/variable_order.py:158-167 | meeting an unvisited successor keeps the invariant and makes progress |
| TarjanTurns.VisitedTurn | LAPKT-public/external/fd-old/variable_order.py:158-167 | meeting a visited successor lowers the lowlink only where that is sound |
| TarjanTurns.ReturnTurn | LAPKT-public/external/fd-old/variable_order.py:168-183 | returning to a suspended call keeps the invariant whether or not the successor was popped |
| TarjanPop.PoppedIsScc | LAPKT-public/external/fd-old/variable_order.py:168-183 | what is popped from the stack is a strongly connected component |
| TarjanPop.PopFinished | LAPKT-public/external/fd-old/variable_order.py:168-183 | after popping, no edge leads from a finished component to a later one |
| MaxDag.GetResult | LAPKT-public/external/fd-old/variable_order.py:203-249 | a permutation of the input; every vertex had minimal current weight when it was picked, and was filed first among those of that weight, despite outdated heap and bucket entries |
| MaxDag.PickNext | LAPKT-public/external/fd-old/variable_order.py:218-246 | one round: a vertex is picked or a stale entry disappears, and the bookkeeping stays right |
| MaxDag.InputBreaksTies | LAPKT-public/external/fd-old/variable_order.py:197-213 | the first vertex picked has the least incoming weight, and every vertex before it in the input has more |
| MaxDag.CurrentWeight | LAPKT-public/external/fd-old/variable_order.py:203-240 | the current weight is what all edges bring in, minus what edges from picked vertices brought in, modulo 100000 |
| MaxDag.TakeEntry | LAPKT-public/external/fd-old/variable_order.py:217-232 | taking entries from the lowest bucket skips outdated ones and yields the vertex of minimal weight that was filed first, or an empty bucket |
| MaxDag.Relax | LAPKT-public/external/fd-old/variable_order.py:233-248 | lowers the weights of open successors and files them anew, and keeps every open vertex filed |
| VariableOrder.PseudoSort | LAPKT-public/external/fd-old/variable_order.py:78-97 | lists the components block by block; in a block of several variables each has the least weight among those left, ties going to the one filed first |
| InnerGraphs.InnerGraph | LAPKT-public/external/fd-old/variable_order.py:83-93 | the edges within a component, by target: each with its causal weight once, and before it once with 100000 more exactly if the target is a goal variable |
| InnerGraphs.InnerEdgesListed | LAPKT-public/external/fd-old/variable_order.py:89-93 | the edges from one vertex: which, how often, and in which order |
| InnerGraphs.InnerWeight | LAPKT-public/external/fd-old/variable_order.py:203-243 | the weight by which a vertex is picked, in causal weights: for a goal variable twice the incoming weights and 100000 for each source, less twice the reduced weights from picked vertices; for others the incoming weights less the reduced ones |
| VariableOrder.OrderComponent | LAPKT-public/external/fd-old/variable_order.py:79-97 | a permutation of the component; if it has several vertices, each has the least such weight among those not yet listed |
| VariableOrder.GetOrdering | LAPKT-public/external/fd-old/variable_order.py:38-42 | all variables once; an edge to an earlier variable stays within a strongly connected component |
| VariableOrder.ChooseOrder | LAPKT-public/external/fd-old/variable_order.py:341-353 | the order used: the full order, restricted to the closure of the goal variables if asked for; it covers the goal and is closed under influence |
| VariableOrder.ApplyToTask | LAPKT-public/external/fd-old/variable_order.py:263-324 | rewrites the task in place to its projection: operators keep their names; when the result passes `validate` is said by `ProjectionValidity.ValidExactlyWhenSorted` |
| Projection.OperatorsInOrder | LAPKT-public/external/fd-old/variable_order.py:305-324 | exactly the operators that set a variable of the order remain, in their order, with their names and costs |
| Projection.EntriesInOrder | LAPKT-public/external/fd-old/variable_order.py:308-314 | exactly the entries on variables of the order remain, in their order, with pre and post values and renumbered variables |
| Projection.FactsInOrder | LAPKT-public/external/fd-old/variable_order.py:310-312 | exactly the facts on variables of the order remain, in their order, with their values and renumbered variables |
| ProjectionValidity.ValidExactlyWhenSorted | LAPKT-public/external/fd-old/variable_order.py:263-324 | for a valid task and any good order: the projection passes every rule of `validate` exactly when the renumbered conditions and entries of each kept operator are still in order |
| ProjectionValidity.AscendingKeepsValid | LAPKT-public/external/fd-old/variable_order.py:263-324 | for an ascending order the projection of a valid task passes every rule of `validate` |
| ProjectionValidity.DescentBreaksTask | LAPKT-public/external/fd-old/variable_order.py:306-324 | for any order with a descent: a valid task with one operator on the two swapped variables whose projection breaks the rules |
| ProjectionValidity.ValidExactlyWhenAscending | LAPKT-public/external/fd-old/variable_order.py:263-324 | an order keeps every valid task valid exactly when it is ascending |
| ReorderingExample.ReorderingBreaksValidity | LAPKT-public/external/fd-old/variable_order.py:270-271 | a valid task for which every order the pass can choose gives a task that fails `validate` |
| VariableOrder.FindAndApplyVariableOrder | LAPKT-public/external/fd-old/variable_order.py:341-354 | the task becomes its projection to the chosen order, with plans, names and costs kept; it is valid again exactly when the operators stay sorted, as they do without reordering |
| Projection.KeptOperatorSupported | LAPKT-public/external/fd-old/variable_order.py:305-324 | a kept operator loses no condition: all its conditions are on kept variables |
| Projection.ApplicabilityProjects | LAPKT-public/external/fd-old/variable_order.py:305-324 | a kept operator is applicable in the projected state exactly when the original is |
| Projection.SuccessorProjects | LAPKT-public/external/fd-old/variable_order.py:305-324 | the projected successor is the successor of the projected state |
| Projection.ProjectionPreservesPlans | LAPKT-public/external/fd-old/variable_order.py:263-324 | the plans of the projection have the names and costs of plans of the task, and every plan of the task becomes one of the projection when some steps are dropped |
| FactGroups.GroupCoverQueue.constructor | BFWS-public/fd-version/fd/fact_groups.py:36-48 | copies of the groups of two or more facts, in buckets by size and indexed by fact, with a largest one on top |
| FactGroups.GroupCoverQueue.UpdateTop | BFWS-public/fd-version/fd/fact_groups.py:60-69 | the next top really has the size of its bucket and no group is larger |
| FactGroups.GroupCoverQueue.SearchBucket | BFWS-public/fd-version/fd/fact_groups.py:62-68 | finds a group that really has the bucket size, or empties the bucket and files all others under their true sizes |
| FactGroups.GroupCoverQueue.RemoveFact | BFWS-public/fd-version/fd/fact_groups.py:56-58 | the fact is present in every group it is removed from, and leaves all of them |
| FactGroups.GroupCoverQueue.Pop | BFWS-public/fd-version/fd/fact_groups.py:52-59 | hands out a group of maximal remaining size and removes its facts everywhere |
| FactGroups.ChooseGroups | BFWS-public/fd-version/fd/fact_groups.py:71-81 | disjoint groups that cover every reachable fact: greedy remainders of falling size, then single facts |
| FactGroups.AddSingletons | BFWS-public/fd-version/fd/fact_groups.py:80 | the uncovered facts become groups of their own, disjoint from the cover |
| Encodings.StripsToSasDictionary | LAPKT-public/external/fd-old/translate.py:52-60 | the dictionary lists exactly the positions of each atom, for any groups; the assertion fails exactly when it is asked for and the groups are not disjoint |
| Encodings.DisjointIsPartial | LAPKT-public/external/fd-old/translate.py:57-59 | the assertion about single positions holds when the groups are disjoint |
| Encodings.PartialIsDisjoint | LAPKT-public/external/fd-old/translate.py:57-59 | and it holds only then |
| Encodings.EncodeEncodes | LAPKT-public/external/fd-old/translate.py:52-60 | the code of a state that respects the groups encodes it |
| Encodings.CodeIsUnique | LAPKT-public/external/fd-old/translate.py:52-60 | a state has at most one code |
| Encodings.HasCodeIffRespects | LAPKT-public/external/fd-old/translate.py:52-60 | exactly the states with at most one true atom per group have a code |
| Encodings.DecodeEncodes | LAPKT-public/external/fd-old/translate.py:52-60 | with the partial encoding, every valid state is the code of what it decodes to |
| Conditions.AddPositive | LAPKT-public/external/fd-old/translate.py:65-85 | a positive literal fixes its variable; `None` only if no state of the box satisfies it |
| Conditions.AddNegative | LAPKT-public/external/fd-old/translate.py:91-135 | a negative literal removes its values from the variables already in the box, or else gives all other values to the variable with the fewest; exact in states whose pairs for the atom agree |
| BoxEnumeration.SetSingle | LAPKT-public/external/fd-old/translate.py:141-143 | the set of values still holds its only value when it is popped |
| BoxEnumeration.SortedBySize | LAPKT-public/external/fd-old/translate.py:138 | the variables of the box, each once, fewest values first |
| BoxEnumeration.SingleIffOneChoice | LAPKT-public/external/fd-old/translate.py:137-154 | there is one assignment exactly when each variable has one value |
| BoxEnumeration.MultiplyOut | LAPKT-public/external/fd-old/translate.py:137-152 | lists every choice of one value per variable exactly once |
| BoxEnumeration.EnumerationIsExact | LAPKT-public/external/fd-old/translate.py:137-152 | a state lies in the box exactly when it satisfies one assignment, and then exactly one |
| ConditionTranslation.TranslateStripsConditionsAux | LAPKT-public/external/fd-old/translate.py:63-154 | an exact disjunctive normal form of the conjunction with exclusive assignments; `None` only if no state satisfies it; the result multiplies out a box that lies within every literal, on the variables of the condition |
| ConditionTranslation.TranslateStripsConditions | LAPKT-public/external/fd-old/translate.py:157-167 | exact for every state that encodes a set of atoms without mutex violations; `None` exactly when one of the two dictionaries rules the condition out |
| ConditionTranslation.PositiveBox | LAPKT-public/external/fd-old/translate.py:63-86 | the box of the positive literals: exactly the states that satisfy them, one value per variable; no box only if no state does |
| GoalAssertion.NoClashHolds | LAPKT-public/external/fd-old/translate.py:84-125 | without a clash with the groups some state satisfies the condition, so that its translation is not given up |
| GoalAssertion.ClashHasNoBox | LAPKT-public/external/fd-old/translate.py:84-125 | a condition that asks for two facts of a group, or for a fact and its negation, never gets a box |
| GoalAssertion.SingleIffNoneOpen | LAPKT-public/external/fd-old/translate.py:105-135 | each variable of the box has one value exactly when no group has a negated fact, no positive one, and a fact that is not negated |
| GoalAssertion.OpenInNumbers | LAPKT-public/external/fd-old/translate.py:468-472 | such a group has at least two values left, counting the one for none of its facts; a group of one fact never does |
| GoalAssertion.TranslationOutcome | LAPKT-public/external/fd-old/translate.py:157-167 | the translation is `None` exactly for a clash with the fact groups or the mutex groups, and otherwise has one assignment exactly when no group is open |
| ConditionTranslation.ProductMeans | LAPKT-public/external/fd-old/translate.py:195-196 | some combination of one literal per disjunct is false exactly when no disjunct is true |
| ConditionTranslation.NegateAndTranslateCondition | LAPKT-public/external/fd-old/translate.py:186-201 | the assignments hold exactly when no disjunct is true; `None` only if some disjunct always is |
| EffectTables.CollectAddEffects | LAPKT-public/external/fd-old/translate.py:207-219 | a cell triggers exactly when an add effect on that fact fires; the add conditions of a variable are those of its effects |
| EffectTables.CollectDelEffects | LAPKT-public/external/fd-old/translate.py:221-230 | a cell triggers exactly when a delete effect on that fact fires |
| DeleteEffects.Merge | LAPKT-public/external/fd-old/translate.py:260-268 | the union of two assignments, or nothing if they contradict each other |
| DeleteEffects.GuardCondition | LAPKT-public/external/fd-old/translate.py:242-268 | the new conditions hold exactly when the old one, the deleted value and one no-add assignment hold |
| DeleteEffects.GuardRow | LAPKT-public/external/fd-old/translate.py:240-268 | all delete effects on a variable: each condition combined with every condition under which nothing is added |
| DeleteEffects.AddDeleteEffects | LAPKT-public/external/fd-old/translate.py:232-268 | adds "none of those" exactly where the current value is deleted and nothing is added on the variable |
| DeleteEffects.CollectEffects | LAPKT-public/external/fd-old/translate.py:204-268 | the table triggers exactly the values the action wants |
| EffectConditions.PruneStupidEffectConditions | LAPKT-public/external/fd-old/translate.py:331-366 | unless the dual value has an effect, the dual fact disappears from every condition, and a condition that only had it stands for all; keeps every condition that held and adds one only where it changes nothing; tells whether anything changed |
| EffectConditions.FilterCondition | LAPKT-public/external/fd-old/translate.py:304-318 | under the operator condition the filtered list says the same; `None` only if it contradicts that condition |
| OperatorBuilding.BuildEntries | LAPKT-public/external/fd-old/translate.py:280-324 | one entry for each pruned condition of each cell that does not contradict the operator condition, without what that condition says, and no other; together they say exactly what the table triggers, and conditioned variables with an effect leave the prevail conditions |
| OperatorBuilding.BuildRow | LAPKT-public/external/fd-old/translate.py:282-324 | where the operator condition holds, the entries of one variable set only values the table triggers or that change nothing, and every triggered value other than the precondition |
| BuiltOperators.BuildSasOperator | LAPKT-public/external/fd-old/translate.py:274-328 | a valid operator with the given name and cost and exactly those entries, none of them idle; applicable exactly under its condition, it gives each variable its triggered value; dropped exactly when no entry is left, and then nothing changes |
| OperatorTranslation.TranslateStripsOperatorAux | LAPKT-public/external/fd-old/translate.py:204-271 | under its precondition disjunct, the operator leads to the code of the successor exactly when the successor has one |
| OperatorTranslation.TranslateStripsOperator | LAPKT-public/external/fd-old/translate.py:170-183 | a faithful family of operators: at most one applicable, applicable or idle exactly when the precondition holds, and with the right successor |
| OperatorTranslation.SuccessorDecodes | LAPKT-public/external/fd-old/translate.py:170-328 | from every valid state without mutex violations, the successor decodes to the add-after-delete successor exactly when that respects the groups |
| OperatorTranslation.DroppedChangesNothing | LAPKT-public/external/fd-old/translate.py:325-326 | if no operator is applicable although the precondition holds, the action changes nothing, exactly when its successor respects the groups |
| TaskTranslation.EncodeInit | LAPKT-public/external/fd-old/translate.py:449-457 | the assertion about inconsistent initial facts fails exactly when the initial state violates a group; otherwise the code of the initial state |
| TaskTranslation.TranslateStripsOperators | LAPKT-public/external/fd-old/translate.py:385-393 | the operators of all actions, block after block |
| TaskTranslation.PlansBack | LAPKT-public/external/fd-old/translate.py:432-493 | a plan of the translated task is a plan of the STRIPS task with the same names and cost |
| TaskTranslation.PlansForth | LAPKT-public/external/fd-old/translate.py:432-493 | a plan of the STRIPS task gives one of the translated task that drops steps and costs no more |
| TaskTranslation.GoalMeaning | LAPKT-public/external/fd-old/translate.py:460-477 | on corresponding states the goal holds exactly when an assignment of its translation does |
| TaskTranslation.TrivialPlans | LAPKT-public/external/fd-old/translate.py:496-522 | the trivial tasks have one binary variable and no operators, are valid, and have exactly the empty plan or none |
| TaskTranslation.TranslateTask | LAPKT-public/external/fd-old/translate.py:432-493 | fails its first assertion exactly for an inconsistent initial state, its second exactly when the goal clashes with no group and leaves one open; a clash gives the unsolvable task; otherwise a valid task that keeps the plans of the STRIPS task, their names and costs |
| NegativeGoalExample.TranslationFails | LAPKT-public/external/fd-old/translate.py:467 | two facts in a group and a goal that negates one of them: every translation ends at the goal assertion |
| NegativeGoalExample.SolvableGoalFails | LAPKT-public/external/fd-old/translate.py:467 | that task has a plan of cost 1, and meets the exact condition of the failure whatever fact groups the pipeline chooses |
| Pipeline.CollectAllMutexGroups | BFWS-public/fd-version/fd/fact_groups.py:94-104 | the candidate groups, and then every atom in none of them by itself, once |
| Pipeline.RunFilter | LAPKT-public/external/fd-old/translate.py:574-581 | with the option, the task is filtered to its reachable values or an exception comes out; without, it stays; the plans are kept in each case |
| Pipeline.RunOrder | LAPKT-public/external/fd-old/translate.py:583-587 | with one of the options, the task is projected to a chosen order; without, it stays; the plans are kept |
| Pipeline.Finish | LAPKT-public/external/fd-old/translate.py:574-589 | the result is what the two passes make of the task one after the other, as far as their options are on, or a trivial task for the two exceptions; plans, names and costs are kept, and without reordering the result is valid |
| Pipeline.PddlToSas | LAPKT-public/external/fd-old/translate.py:540-589 | the fact groups, mutex groups, dictionaries, translation and later passes of the run, each as described for its step; if the candidate groups are mutexes of the task, plans, names and costs are kept and the initial state is never inconsistent; for all inputs the goal assertion fails exactly when the goal clashes with no candidate and leaves a fact group open |
| Datalog.VariablesToNumbers | BFWS-public/fd-version/fd/build_model.py:29-53 | every effect variable becomes its position, in the effect and in all conditions |
| Datalog.ConversionKeepsClosure | BFWS-public/fd-version/fd/build_model.py:29-53 | a set of atoms is closed under the numbered rule exactly when it is closed under the original |
| Unification.InsertOrdered | BFWS-public/fd-version/fd/build_model.py:217-268 | insertion keeps argument positions strictly increasing along every path |
| Unification.InsertCounts | BFWS-public/fd-version/fd/build_model.py:217-268 | insertion adds one occurrence of the value for exactly the atoms that agree with its constants, and disturbs no other |
| Unification.Unifier.InsertCondition | BFWS-public/fd-version/fd/build_model.py:190-200 | the tree after insertion answers like a scan over all inserted conditions |
| Unification.Unifier.Unify | BFWS-public/fd-version/fd/build_model.py:184-189 | returns the same matches, as a multiset, as a linear scan over the inserted conditions |
| Unification.FoundOnce | BFWS-public/fd-version/fd/build_model.py:184-189 | a condition with the symbol and constants of the atom is found exactly once |
| Unification.NotFound | BFWS-public/fd-version/fd/build_model.py:184-189 | no other condition is found |
| Queues.Queue.Push | BFWS-public/fd-version/fd/build_model.py:290-295 | appends an atom exactly if it was never enqueued |
| Queues.Queue.Pop | BFWS-public/fd-version/fd/build_model.py:296-299 | returns the next atom of the list |
| RuleFiring.CommonVarPositions | BFWS-public/fd-version/fd/build_model.py:72-79 | the positions of the common numbers in both conditions, in the same order |
| RuleFiring.Assign | BFWS-public/fd-version/fd/build_model.py:56-62 | copies the values of the numbered arguments, whatever was in the list before |
| RuleFiring.KeysCombine | BFWS-public/fd-version/fd/build_model.py:94-113 | two atoms have equal keys exactly when they agree on the common numbered variables |
| BuildRules.BuildRule.UpdateIndex | BFWS-public/fd-version/fd/build_model.py:94-99 | the atom is remembered for its condition in the index of the rule type |
| BuildRules.BuildRule.Tuples | BFWS-public/fd-version/fd/build_model.py:100-163 | exactly the combining tuples that a new atom completes with remembered ones |
| BuildRules.BuildRule.Emit | BFWS-public/fd-version/fd/build_model.py:108-112 | the reused argument list holds the effect of the current tuple whatever was written before |
| BuildRules.BuildRule.EmitAll | BFWS-public/fd-version/fd/build_model.py:108-112 | enqueues exactly the effects of the tuples although one argument list is reused for all |
| BuildRules.BuildRule.Fire | BFWS-public/fd-version/fd/build_model.py:100-176 | enqueues exactly the effects that the new atom derives with remembered ones |
| RuleSoundness.CombinedIsInstance | BFWS-public/fd-version/fd/build_model.py:68-112 | if shared variables are numbered, every combining tuple is an instance of the rule |
| RuleSoundness.JoinExactIffCommonNumbered | BFWS-public/fd-version/fd/build_model.py:68-112 | a join combines only instances exactly when every shared variable is numbered |
| RuleSoundness.InstanceDerives | BFWS-public/fd-version/fd/build_model.py:68-176 | every instance of a rule combines and derives its effect |
| RuleValidation.ValidatedRunnable | BFWS-public/fd-version/fd/build_model.py:81-171 | a rule that passes its assertions can be run after numbering |
| RuleValidation.SumMeansDisjoint | BFWS-public/fd-version/fd/build_model.py:128-129 | if the numbers of variables add up, no two conditions of a product share a variable |
| RuleValidation.JoinExactIffCommonInEffect | BFWS-public/fd-version/fd/build_model.py:81-93 | a validated join is exact exactly when its shared variables occur in its effect |
| ModelComputation.ConvertRules | BFWS-public/fd-version/fd/build_model.py:13-27 | numbers all rules of a valid program; no assertion of `validate` fails |
| ModelComputation.BuildUnifier | BFWS-public/fd-version/fd/build_model.py:179-183 | the unifier holds each condition of each rule once |
| ModelComputation.HandleMatch | BFWS-public/fd-version/fd/build_model.py:323-325 | remembers the atom for one condition and enqueues exactly what that rule derives with it |
| ModelComputation.ProcessAtom | BFWS-public/fd-version/fd/build_model.py:322-325 | after all matches of an atom the memory holds it and everything derivable from the memory is enqueued |
| ModelComputation.Step | BFWS-public/fd-version/fd/build_model.py:315-325 | popping and processing one atom keeps every derivable atom enqueued or pending, and enqueues nothing outside what the rules allow |
| ModelComputation.ComputeModel | BFWS-public/fd-version/fd/build_model.py:303-330 | terminates with exactly the facts and what firing derives from them; a model of the program, and the least one if shared variables of joins occur in the effects |
| ModelComputation.FiringModels | BFWS-public/fd-version/fd/build_model.py:81-112 | what is closed under firing is a model, and the converse holds if shared variables of joins occur in the effects |
| LeakyJoinExample.ModelIsNotLeast | BFWS-public/fd-version/fd/build_model.py:81-112 | a valid program with one join and two facts: what is computed contains its goal, which the program does not entail |
| LeakyJoinExample.ComputeExample | BFWS-public/fd-version/fd/build_model.py:303-330 | running the model computation on it returns more than the least model |
| ConservativeExtension.OutputWitnessed | BFWS-public/fd-version/fd/greedy_join.py:86-112 | if parts share only variables that their atoms keep, environments for the parts can be merged into one for the whole |
| ConservativeExtension.PlanIsConservative | BFWS-public/fd-version/fd/split_rules.py:32-63 | replacing a rule by the steps of a plan entails the same atoms over all other symbols, for all other rules and facts |
| JoinCosts.CostMatrix.RemoveMinPair | BFWS-public/fd-version/fd/greedy_join.py:43-58 | removes the pair that is found, larger index first |
| JoinCosts.CostMatrix.FindMinPair | BFWS-public/fd-version/fd/greedy_join.py:43-51 | the first pair, row by row, such that no pair has a smaller private part on its smaller side, or then on its larger side, or then shares more variables |
| JoinCosts.CostMeans | BFWS-public/fd-version/fd/greedy_join.py:59-67 | the cost of a pair: how many variables each atom has for itself, the smaller number first, and minus the number they share |
| JoinCosts.CostMatrix.AddEntry | BFWS-public/fd-version/fd/greedy_join.py:34-37 | the matrix holds the cost of every pair after adding a joinee |
| JoinCosts.CostMatrix.DeleteEntry | BFWS-public/fd-version/fd/greedy_join.py:38-42 | and after deleting row and column of one |
| JoinCosts.MinPairShares | BFWS-public/fd-version/fd/greedy_join.py:43-67 | among connected conditions, every pair of minimal cost shares a variable |
| JoinCosts.ContractionConnected | BFWS-public/fd-version/fd/greedy_join.py:92-107 | replacing the pair by its join keeps the joinees connected |
| Occurrences.OccurrencesTracker.constructor | BFWS-public/fd-version/fd/greedy_join.py:11-15 | counts each variable in the effect and all conditions |
| Occurrences.OccurrencesTracker.Update | BFWS-public/fd-version/fd/greedy_join.py:16-24 | adds or subtracts the occurrences in one atom; no count falls below zero |
| Occurrences.NameGenerator.Next | BFWS-public/fd-version/fd/pddl_to_prolog.py:16-19 | the next name, for the counter that then advances |
| Occurrences.NameReads | BFWS-public/fd-version/fd/pddl_to_prolog.py:16-19 | a name is "p$" followed by the decimal digits of its number, without leading zeros |
| Occurrences.NamesDiffer | BFWS-public/fd-version/fd/pddl_to_prolog.py:16-19 | different numbers give different names |
| GreedyJoin.JoinRuleFine | BFWS-public/fd-version/fd/greedy_join.py:97-105 | both assertions of the join rule hold for every emitted join |
| GreedyJoin.ProjectJoinee | BFWS-public/fd-version/fd/greedy_join.py:100-104 | a joinee is projected exactly to the variables that the effect, another joinee or the partner needs, by one new rule, or stays as it is if it needs all of them |
| GreedyJoin.JoinPair | BFWS-public/fd-version/fd/greedy_join.py:97-106 | projects the atoms of a pair where that drops something, and joins them: the new condition has the variables of the pair that occur elsewhere |
| GreedyJoin.JoinCheapest | BFWS-public/fd-version/fd/greedy_join.py:92-107 | one iteration: the first cheapest pair is replaced by its join, with one join rule and at most two projections; the plan is extended and the counts stay right |
| GreedyJoin.GreedyJoinRule | BFWS-public/fd-version/fd/greedy_join.py:86-112 | for connected conditions: terminates, the emitted rules are a plan for the rule, all pass validation, and joins are exact if shared variables occur in the effect |
| ConnectedConditions.ConnectedComponents | BFWS-public/fd-version/fd/graph.py:12-26 | the components partition the nodes, are linked inside, and no edge leaves one |
| ConnectedConditions.Dfs | BFWS-public/fd-version/fd/graph.py:15-20 | collects nodes linked to the start, leaves no neighbour of one behind, and removes exactly those |
| ConnectedConditions.ConnectAll | BFWS-public/fd-version/fd/split_rules.py:19-22 | edges join only conditions with a common variable, and link all conditions of each variable |
| ConnectedConditions.GetConnectedConditions | BFWS-public/fd-version/fd/split_rules.py:10-23 | groups of conditions: a partition, connected inside by shared variables, with no variable in two groups |
| SplitRules.MakeProjectedRule | BFWS-public/fd-version/fd/split_rules.py:25-30 | a normalized rule for the group whose effect keeps exactly the effect variables of the group |
| SplitRules.Divide | BFWS-public/fd-version/fd/split_rules.py:33-40 | every condition goes, as often as it occurs, to the list with variables or to the one without |
| SplitRules.SplitGroups | BFWS-public/fd-version/fd/split_rules.py:51-53 | the projected rules of all groups become binary; their plans follow one another |
| SplitRules.SplitIntoBinaryRules | BFWS-public/fd-version/fd/split_rules.py:65-69 | a plan for a rule with connected conditions |
| SplitRules.SplitRule | BFWS-public/fd-version/fd/split_rules.py:32-63 | for every normalized rule: a plan whose rules all pass validation, with fresh auxiliary names; a rule of one connected group is only made binary, any other ends in a rule that combines its groups and its conditions without variables |
| Exploration.SplitAllRules | BFWS-public/fd-version/fd/pddl_to_prolog.py:39-48 | the split program entails the same atoms over original symbols, and every rule passes its validation |
| Exploration.Explore | BFWS-public/fd-version/fd/build_model.py:303-330 | exactly what firing the split rules derives from the facts; over original symbols that contains everything entailed, and nothing else if shared variables occur in the effects |
| Closure.TransitiveClosure | BFWS-public/fd-version/fd/graph.py:29-38 | the sorted list of the least transitive relation that contains the pairs |
| Closure.SweepBridges | BFWS-public/fd-version/fd/graph.py:33-37 | one sweep, updating the relation while reading it, bridges all paths through its node and keeps earlier bridges |
| Closure.ClosureIsUnique | BFWS-public/fd-version/fd/graph.py:29-38 | that relation is unique, and equals the input exactly when the input is transitive |
| Assignments.Join | BFWS-public/fd-version/fd/constraints.py:44-55 | merging the smaller class into the larger, in place, and redirecting its members keeps the classes shared and sound |
| Assignments.AddEquality | BFWS-public/fd-version/fd/constraints.py:46-54 | one equality: the shared classes describe the equalities seen so far together with it |
| Assignments.Assignment.IsConsistent | BFWS-public/fd-version/fd/constraints.py:81-84 | true exactly when the equalities do not identify two objects; the answer is cached |
| Assignments.Assignment.ComputeEquivalenceClasses | BFWS-public/fd-version/fd/constraints.py:44-55 | the classes follow from the equalities and contain each equality |
| Assignments.DescribesExactly | BFWS-public/fd-version/fd/constraints.py:44-55 | two terms share a class exactly when every valuation that satisfies the equalities identifies them |
| Assignments.EntailedIffLinked | BFWS-public/fd-version/fd/constraints.py:44-55 | and that is so exactly when a chain of equalities links them |
| Assignments.Representative | BFWS-public/fd-version/fd/constraints.py:65-77 | the only object of a class, else its smallest variable; none if it has two objects |
| Assignments.Assignment.ComputeMapping | BFWS-public/fd-version/fd/constraints.py:57-79 | caches consistency and the mapping to the smallest equal term |
| Assignments.Assignment.GetMapping | BFWS-public/fd-version/fd/constraints.py:86-89 | the mapping exists exactly when no two objects are forced to be equal; it identifies exactly the terms that are |
| ConstraintSystems.CanonicalSolves | BFWS-public/fd-version/fd/constraints.py:57-79 | the valuation given by the mapping satisfies the equalities and keeps objects apart |
| ConstraintSystems.CanonicalIsFreest | BFWS-public/fd-version/fd/constraints.py:109-115 | whatever some solution keeps apart, the mapping keeps apart |
| ConstraintSystems.CombineAssignments | BFWS-public/fd-version/fd/constraints.py:117-121 | the combined assignment is satisfied by the valuations that satisfy all |
| ConstraintSystems.ConstraintSystem.AllClausesSatisfiable | BFWS-public/fd-version/fd/constraints.py:109-115 | true exactly when a valuation with distinct objects satisfies the assignment and all negative clauses |
| ConstraintSystems.ConstraintSystem.Combine | BFWS-public/fd-version/fd/constraints.py:132-138 | the solutions of the combined system are the common ones |
| ConstraintSystems.ConstraintSystem.AddAssignmentDisjunction | BFWS-public/fd-version/fd/constraints.py:126-127 | afterwards the solutions are the former ones that satisfy one of the assignments |
| ConstraintSystems.ConstraintSystem.AddNegativeClause | BFWS-public/fd-version/fd/constraints.py:129-130 | afterwards the solutions are the former ones that satisfy the clause |
| ConstraintSystems.ProductIsChoices | BFWS-public/fd-version/fd/constraints.py:158 | the product lists exactly the choices of one assignment per disjunction |
| ConstraintSystems.ConstraintSystem.IsSolvable | BFWS-public/fd-version/fd/constraints.py:154-164 | true exactly when a valuation into an infinite domain with distinct objects satisfies one assignment of each disjunction and every negative clause |
| Axioms.RemoveDuplicates | BFWS-public/fd-version/fd/axiom_rules.py:117-123 | the in-place loop removes exactly the elements that equal their predecessor |
| Axioms.SortStable | BFWS-public/fd-version/fd/axiom_rules.py:129-131 | the sort groups the literals of an atom and keeps their order |
| Axioms.CanonicalDistinct | BFWS-public/fd-version/fd/axiom_rules.py:129-131 | the simplified condition has no repetition exactly when no literal comes back after its negation |
| Axioms.RepetitionSurvives | BFWS-public/fd-version/fd/axiom_rules.py:129-131 | a literal, its negation, and the literal again: the repetition survives |
| AxiomSimplification.Narrow | BFWS-public/fd-version/fd/axiom_rules.py:145-148 | the index entry of the first literal becomes the intersection over all literals, in place |
| AxiomSimplification.Canonicalize | BFWS-public/fd-version/fd/axiom_rules.py:128-131 | every condition is sorted and loses its equal neighbours, in place |
| AxiomSimplification.BuildIndex | BFWS-public/fd-version/fd/axiom_rules.py:133-137 | the index lists for each literal only axioms that have it, and misses none |
| AxiomSimplification.SkipStep | BFWS-public/fd-version/fd/axiom_rules.py:140-151 | skipping what an axiom dominates keeps every skipped axiom dominated by a kept one, although the index has been narrowed |
| AxiomSimplification.RemoveDominated | BFWS-public/fd-version/fd/axiom_rules.py:133-152 | a sublist in which every axiom is dominated by a kept one; a dominated axiom is kept only if an axiom that shares its first literal blocked it, and an axiom without conditions is the only one kept |
| AxiomSimplification.Simplify | BFWS-public/fd-version/fd/axiom_rules.py:125-152 | conditions become their canonical form, dominated axioms go, and the list fires in the same states |
| AxiomNegation.SpreadTrue | BFWS-public/fd-version/fd/axiom_rules.py:178-185 | appending one negated literal in every combination excludes exactly the states in which the axiom fires |
| AxiomNegation.NegateOne | BFWS-public/fd-version/fd/axiom_rules.py:166-185 | one axiom: the conditions so far, in place or copied, are spread over the negations of its literals |
| AxiomNegation.Combinations | BFWS-public/fd-version/fd/axiom_rules.py:163-185 | before simplification: some condition holds exactly when no axiom fires |
| AxiomNegation.Negate | BFWS-public/fd-version/fd/axiom_rules.py:163-187 | what simplifying leaves of conditions that complement the given axioms: in every state some resulting axiom fires exactly when no given axiom does, and all derive the negated atom |
| NormalForms.Flatten | BFWS-public/fd-version/fd/normalize.py:183-188 | rule (1) keeps the meaning of a disjunction |
| NormalForms.SpreadQuantifier | BFWS-public/fd-version/fd/normalize.py:190-195 | rule (2) keeps the meaning of an existential quantifier over a disjunction, also over empty types |
| NormalForms.SpreadConjunction | BFWS-public/fd-version/fd/normalize.py:197-207 | rule (3) keeps the meaning of a conjunction of disjunctions |
| NormalForms.Distribute | BFWS-public/fd-version/fd/normalize.py:204-206 | the combinations hold exactly when a part of each list does |
| NormalForms.RecurseParts | BFWS-public/fd-version/fd/normalize.py:172-179 | divides the normal forms of the parts, and fails exactly when a part has a disjunction under a universal quantifier |
| NormalForms.Recurse | BFWS-public/fd-version/fd/normalize.py:170-207 | equivalent in every structure and environment, disjunction-free or a disjunction of disjunction-free parts, unchanged without disjunctions; the assertion fails exactly when a universal quantifier has a disjunction beneath it |
| NormalForms.UniversalFails | BFWS-public/fd-version/fd/normalize.py:198 | a universal quantifier over a disjunction, even one without parts, is an input on which the assertion fails |
| InvariantParts.InvertList | BFWS-public/fd-version/fd/invariants.py:18-22 | maps each argument to its positions, in order |
| FactoredMappings.PermutationsExact | BFWS-public/fd-version/fd/invariants.py:25-28 | the permutations of a list are exactly the lists with the same elements and multiplicities |
| FactoredMappings.InstantiateExact | BFWS-public/fd-version/fd/invariants.py:25-28 | the instances of a factored mapping are exactly the lists that pair the positions of each block with its images in some order |
| InvariantParts.MatchBlock | BFWS-public/fd-version/fd/invariants.py:162-170 | in a match, each argument has as many positions as parameters and omitted positions together |
| PossibleMatches.PossibleMappings | BFWS-public/fd-version/fd/invariants.py:153-171 | all mappings use each position and parameter once, and every match has one; giving up happens only if there is no match |
| PossibleMatches.PossibleMatches | BFWS-public/fd-version/fd/invariants.py:173-185 | the parts are exactly the arrangements of the positions of the other literal, at most one left out, that yield the same parameters |
| PossibleMatches.MatchesMeaning | BFWS-public/fd-version/fd/invariants.py:187-188 | these are exactly the arrangements that `matches` accepts |

## Left out

- Axioms in finite-domain tasks: axiom layers, axiom entries in the passes of simplify.py, variable_order.py and translate.py; the tasks of the model have none.
- Stratification of axioms (axiom_rules.py:23-68): the memoised search does not give layers in general for positive cycles, so nothing is claimed about it.
- Mutex groups of finite-domain tasks, value names, translation keys and the metric flag: rewritten by the passes without influence on plans.
- The full (not partial) encoding of actions: `TranslateStripsOperator` needs one variable per atom, because the source changes shared condition dictionaries while it builds delete effects; the mutex dictionary may list an atom several times.
- The option that adds implied preconditions, statistics counters, timers, printing and file output.
- Grounding as a whole: which atoms, actions and candidate groups come out of it is a parameter; `PddlToSas` asks that actions mention only these atoms.
- Synthesis of the candidate groups (invariants.py:240-396): that candidates are mutexes is a hypothesis of `PddlToSas`, not a theorem.
- `expand_group` and the counting `?X` parts of fact groups, and the sorting of groups before and after choosing them.
- The normalization of Datalog programs (pddl_to_prolog.py:49-98): rules are taken as normalized, with the three properties its comment lists; every symbol has one number of arguments.
- Sort orders of names: argument lists made from sets, connected components and initial facts come in any order.
- Heaps: modelled as sets of keys with a least element, not as arrays.
- The bound `sys.maxsize` in the search for the cheapest pair: costs are unbounded integers.
- The generators of the matching tree are values that insertion rebuilds; that a leaf is changed in place, or handed to its new parent, is not modelled.
- The three rule classes are one class with a kind; `prepare_effect` and the reuse of the argument list are kept.
- `_get_bindings` of product rules: the lists of bindings are tuples of atoms in the model.
- Matching of atoms whose number of arguments differs from the condition.
- FilterUnreachablePropositions: what the task looks like after an exception is not described, since the caller discards it.
- RemoveDominated: does not claim that no dominated axiom is left, because the source narrows its index in place; the contract says what must have blocked one that is left.
- NegativeClause: the assertion that a clause is not empty is not modelled; an empty clause has no solution here.
- AxiomSimplification.Simplify: each axiom object is listed once; axioms that share one condition list are not modelled.
- Terms of constraint systems are variables and objects with numbers; the test for a leading question mark and the order of strings are abstracted.
- `simplified()` of conditions, removal of universal quantifiers and moving of existential quantifiers (normalize.py:138-160, 231-262).
- Unused members of the modelled files: dumps, string forms, copies, weights and statistics.
- Parsing, drivers, scripts and the search engines in C++.
