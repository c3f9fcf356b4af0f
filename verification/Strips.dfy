/** Grounded STRIPS tasks with conditional effects: states are sets of atoms. */
module Strips {

  datatype Atom = Atom(symbol: string, args: seq<string>)

  datatype Literal = Literal(atom: Atom, negated: bool) {
    function Negate(): Literal { Literal(atom, !negated) }
  }

  datatype CondEffect = CondEffect(conditions: seq<Literal>, atom: Atom)

  datatype Action = Action(name: string, precondition: seq<Literal>, addEffects: seq<CondEffect>,
                           delEffects: seq<CondEffect>, cost: int)

  datatype StripsTask = StripsTask(init: set<Atom>, goal: seq<Literal>, actions: seq<Action>)

  type World = set<Atom>

  predicate True(s: World, l: Literal) {
    l.atom in s <==> !l.negated
  }

  predicate AllTrue(s: World, c: seq<Literal>) {
    forall i :: 0 <= i < |c| ==> True(s, c[i])
  }

  predicate Fires(s: World, e: CondEffect) {
    AllTrue(s, e.conditions)
  }

  predicate Adds(s: World, a: Action, p: Atom) {
    exists i :: 0 <= i < |a.addEffects| && a.addEffects[i].atom == p && Fires(s, a.addEffects[i])
  }

  predicate Deletes(s: World, a: Action, p: Atom) {
    exists i :: 0 <= i < |a.delEffects| && a.delEffects[i].atom == p && Fires(s, a.delEffects[i])
  }

  function AddedAtoms(s: World, es: seq<CondEffect>): (r: set<Atom>)
    ensures forall p :: p in r <==> exists i :: 0 <= i < |es| && es[i].atom == p && Fires(s, es[i])
  {
    set i | 0 <= i < |es| && Fires(s, es[i]) :: es[i].atom
  }

  /** The successor: deletions first, then additions. */
  function Apply(s: World, a: Action): (t: World)
    ensures forall p :: p in t <==> Adds(s, a, p) || (p in s && !Deletes(s, a, p))
  {
    (s - AddedAtoms(s, a.delEffects)) + AddedAtoms(s, a.addEffects)
  }

  datatype Outcome = Stuck | Reached(s: World, cost: int)

  function Execute(s: World, plan: seq<Action>): Outcome
    decreases |plan|
  {
    if plan == [] then Reached(s, 0)
    else if !AllTrue(s, plan[0].precondition) then Stuck
    else
      match Execute(Apply(s, plan[0]), plan[1..])
      case Stuck => Stuck
      case Reached(t, c) => Reached(t, plan[0].cost + c)
  }

  ghost predicate PlanOf(actions: seq<Action>, plan: seq<Action>) {
    forall i :: 0 <= i < |plan| ==> plan[i] in actions
  }

  ghost predicate SolvesWithCost(task: StripsTask, plan: seq<Action>, c: int) {
    && PlanOf(task.actions, plan)
    && (var o := Execute(task.init, plan); o.Reached? && o.cost == c && AllTrue(o.s, task.goal))
  }

  ghost predicate SolvableAtCost(task: StripsTask, c: int) {
    exists plan :: SolvesWithCost(task, plan, c)
  }

  function Names(plan: seq<Action>): (r: seq<string>)
    ensures |r| == |plan| && forall i :: 0 <= i < |r| ==> r[i] == plan[i].name
  {
    seq(|plan|, i requires 0 <= i < |plan| => plan[i].name)
  }

  /** Some plan has these names and this cost. */
  ghost predicate SolvableBy(task: StripsTask, names: seq<string>, c: int) {
    exists plan :: SolvesWithCost(task, plan, c) && Names(plan) == names
  }

  /** At most one atom of `group` is true. */
  predicate AtMostOne(s: World, group: seq<Atom>) {
    forall i, j :: 0 <= i < |group| && 0 <= j < |group| && group[i] in s && group[j] in s ==> group[i] == group[j]
  }

  /** The state respects the mutex groups. */
  predicate Respects(s: World, groups: seq<seq<Atom>>) {
    forall i :: 0 <= i < |groups| ==> AtMostOne(s, groups[i])
  }
}
