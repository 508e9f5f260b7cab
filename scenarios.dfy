/**
  Worked planning scenarios (energy/sleep, hunger/eat), stated over the model: each
  one exhibits a plan the search graph admits and, for the repeatable-sleep
  scenario, shows that no valid plan is cheaper.
 */
module Scenarios {
  import opened Values
  import opened Actions
  import Goals
  import opened Planner
  import Simple

  /** `sleep`: no preconditions, one effect of cost 1 adding `amount` to `energy`. */
  function Sleep(amount: int): (a: Action)
    ensures |a.effects| == 1 && a.effects[0].cost == 1
    ensures a.effects[0].mutators == [Increment("energy", Int(amount))]
  {
    SetCost(AddMutator(New("sleep"), Increment("energy", Int(amount))), 1)
  }

  function Energy(e: int): LocalState
  {
    LocalState(map["energy" := Int(e)])
  }

  /** The goal `energy >= 10`. */
  function RestedGoal(): Goals.Goal
  {
    Goals.WithReq(Goals.New(), "energy", GreaterThanEquals(Int(10)))
  }

  /** The sleep effect realised against `energy = e`. */
  function SleptFrom(amount: int, e: int): Values.Effect
  {
    Values.Effect("sleep", [Increment("energy", Int(amount))], 1, Energy(e + amount))
  }

  /** From a vertex with `energy = e`, sleeping is the one edge, and it leads to `energy = e + amount`. */
  lemma SleepEdge(n: Node, amount: int, e: int)
    requires n.StateOf() == Energy(e)
    ensures Successors(n, [Sleep(amount)]) == [(Node.Effect(SleptFrom(amount, e)), 1)]
  {
    var a := Sleep(amount);
    Simple.NoPreconditionsAlwaysExpanded(a);
    assert ApplyMutators(Energy(e).data, a.effects[0].mutators) == Energy(e + amount).data by {
      assert a.effects[0].mutators[1..] == [];
    }
  }

  /** `energy = e` meets `energy >= 10` iff `e >= 10`, and never panics. */
  lemma RestedGoalAt(n: Node, e: int)
    requires n.StateOf() == Energy(e)
    ensures IsGoal(n, RestedGoal()) == Success(e >= 10)
  {
    assert "energy" in n.StateOf().data;
    assert RestedGoal().requirements == map["energy" := GreaterThanEquals(Int(10))];
  }

  /**
    From `energy = 0`, one `sleep` of +10 reaches the goal; the
    plan extracts to that single effect, whose state is `energy = 10`, at
    cost 1.
   */
  lemma OneSleepIsPlan()
    ensures ValidPlan(Energy(0), [Sleep(10)], RestedGoal(),
                      [Node.State(Energy(0)), Node.Effect(SleptFrom(10, 0))], 1)
    ensures EffectsOf([Node.State(Energy(0)), Node.Effect(SleptFrom(10, 0))]) == [SleptFrom(10, 0)]
    ensures SleptFrom(10, 0).state == Energy(10)
  {
    var path := [Node.State(Energy(0)), Node.Effect(SleptFrom(10, 0))];
    SleepEdge(path[0], 10, 0);
    assert IsStep(path[0], path[1], [Sleep(10)]);
    RestedGoalAt(path[1], 10);
    assert path[1..][1..] == [];
    assert EffectsOf(path) == [SleptFrom(10, 0)];
  }

  /** From `energy = 5`, two `sleep`s of +3 reach `energy = 11` at cost 2. */
  lemma TwoSleepsArePlan()
    ensures ValidPlan(Energy(5), [Sleep(3)], RestedGoal(),
                      [Node.State(Energy(5)), Node.Effect(SleptFrom(3, 5)), Node.Effect(SleptFrom(3, 8))], 2)
    ensures SleptFrom(3, 8).state == Energy(11)
  {
    var path := [Node.State(Energy(5)), Node.Effect(SleptFrom(3, 5)), Node.Effect(SleptFrom(3, 8))];
    SleepEdge(path[0], 3, 5);
    SleepEdge(path[1], 3, 8);
    assert IsStep(path[0], path[1], [Sleep(3)]);
    assert IsStep(path[1], path[2], [Sleep(3)]);
    RestedGoalAt(path[2], 11);
    assert path[1..][1..][1..] == [];
    assert EffectsOf(path) == [SleptFrom(3, 5), SleptFrom(3, 8)];
  }

  /** Every step of a path over the single `sleep` action costs 1. */
  lemma SleepStepsCostOne(start: LocalState, amount: int, path: seq<Node>)
    requires ValidPath(start, [Sleep(amount)], path)
    ensures TotalCost(EffectsOf(path)) == |path| - 1
  {
    ValidPathEffectsFromActions(start, [Sleep(amount)], path);
    AllCostOne(EffectsOf(path));
  }

  lemma {:induction false} AllCostOne(es: seq<Values.Effect>)
    requires forall i :: 0 <= i < |es| ==> es[i].cost == 1
    ensures TotalCost(es) == |es|
    decreases |es|
  {
    if es != [] {
      AllCostOne(es[..|es| - 1]);
    }
  }

  /** Along a path over one `sleep` of +3 from `energy = 5`, the `i`-th vertex has `energy = 5 + 3 i`. */
  lemma {:induction false} SleepPathEnergy(path: seq<Node>, i: nat)
    requires ValidPath(Energy(5), [Sleep(3)], path)
    requires i < |path|
    ensures path[i].StateOf() == Energy(5 + 3 * i)
    decreases i
  {
    if i > 0 {
      SleepPathEnergy(path, i - 1);
      assert IsStep(path[i - 1], path[i], [Sleep(3)]);
      SleepEdge(path[i - 1], 3, 5 + 3 * (i - 1));
    }
  }

  /** With `sleep` of +3 from `energy = 5` there is no plan cheaper than 2: one sleep leaves `energy = 8`. */
  lemma TwoSleepsAreCheapest(path: seq<Node>, cost: nat)
    requires ValidPlan(Energy(5), [Sleep(3)], RestedGoal(), path, cost)
    ensures cost >= 2
  {
    SleepStepsCostOne(Energy(5), 3, path);
    var last := |path| - 1;
    SleepPathEnergy(path, last);
    RestedGoalAt(path[last], 5 + 3 * last);
  }

  /** `eat`: requires `hunger == 0`, sets `hunger` to 1, cost 1. */
  function Eat(): Action
  {
    SetCost(AddMutator(WithPrecondition(New("eat"), "hunger", Equals(Int(0))), Set("hunger", Int(1))), 1)
  }

  function Hunger(h: int): LocalState
  {
    LocalState(map["hunger" := Int(h)])
  }

  function FedGoal(): Goals.Goal
  {
    Goals.WithReq(Goals.New(), "hunger", Equals(Int(1)))
  }

  /**
    From `hunger = 0`, one `eat` reaches `hunger = 1` at cost 1; from
    the resulting state the start vertex alone is already a plan of cost 0.
   */
  lemma OneEatIsPlan()
    ensures ValidPlan(Hunger(0), [Eat()], FedGoal(),
                      [Node.State(Hunger(0)), Node.Effect(Values.Effect("eat", [Set("hunger", Int(1))], 1, Hunger(1)))], 1)
    ensures ValidPlan(Hunger(1), [Eat()], FedGoal(), [Node.State(Hunger(1))], 0)
  {
    var eaten := Values.Effect("eat", [Set("hunger", Int(1))], 1, Hunger(1));
    var path := [Node.State(Hunger(0)), Node.Effect(eaten)];
    var a := Eat();
    assert a.effects[0] == Values.Effect("eat", [Set("hunger", Int(1))], 1, EmptyState);
    assert Preconditions(a, Hunger(0)) == [("hunger", Equals(Int(0)))];
    assert Satisfies(Hunger(0).data, "hunger", Equals(Int(0)));
    assert CheckPreconditions(Hunger(0), a);
    assert [a][1..] == [];
    assert ApplyMutators(Hunger(0).data, a.effects[0].mutators) == Hunger(1).data by {
      assert a.effects[0].mutators[1..] == [];
    }
    assert Successors(path[0], [a]) == [(Node.Effect(eaten), 1)];
    assert IsStep(path[0], path[1], [a]);
    assert "hunger" in Hunger(1).data;
    assert FedGoal().requirements == map["hunger" := Equals(Int(1))];
    assert IsGoal(path[1], FedGoal()) == Success(true);
    assert path[1..][1..] == [];
    assert EffectsOf(path[1..]) == [eaten];
    assert EffectsOf(path) == [eaten];
    StartMeetingGoalIsPlan(Hunger(1), [a], FedGoal());
  }
}
