/**
  The search graph of the planner (crates/dogoap/src/planner.rs): its
  vertices, the edges out of a vertex, the heuristic and goal test handed to
  the A* search, the strategy dispatch and the extraction of the plan.

  The A* search itself belongs to a foreign crate and is a parameter here; a
  plan it returns can be checked with `ValidPlan`.
 */
module Planner {
  import opened Values
  import opened Actions
  import Goals

  /** A search vertex: the initial state, or the effect that led to a state. */
  datatype Node = Effect(effect: Values.Effect) | State(initial: LocalState)
  {
    /** `Node::state()`: the state this vertex stands for. */
    function StateOf(): (s: LocalState)
      ensures Effect? ==> s == effect.state
      ensures State? ==> s == initial
    {
      match this
      case Effect(e) => e.state
      case State(s) => s
    }
  }

  /** An edge out of a vertex: the next vertex and the cost of getting there. */
  type Edge = (Node, nat)

  /**
    `is_goal(node, goal)`: the same walk as `check_goal`, over the vertex's
    state; the panic on a reached missing key is `Failure`.
   */
  function IsGoal(node: Node, goal: Goals.Goal): (r: Result<bool, Fault>)
    ensures goal.requirements == map[] ==> r == Success(true)
    ensures (forall k :: k in goal.requirements ==> k in node.StateOf().data) ==> r.Success?
  {
    var data := node.StateOf().data;
    if Goals.ReachesMissingKey(data, goal.requirements) then Failure(MissingKey)
    else Success(forall k :: k in goal.requirements ==> Goals.Passes(data, goal.requirements, k))
  }

  /** The planner's goal test and `check_goal` agree on every vertex. */
  lemma IsGoalAgreesWithCheckGoal(node: Node, goal: Goals.Goal)
    ensures IsGoal(node, goal) == Goals.CheckGoal(node.StateOf(), goal)
  {
  }

  /**
    `heuristic(node, goal)`: the distance from the vertex's state to the goal.
    It is zero exactly at the vertices that pass the goal test.
   */
  function Heuristic(node: Node, goal: Goals.Goal): (h: nat)
    ensures h == 0 <==> IsGoal(node, goal) == Success(true)
  {
    DistanceToGoal(node.StateOf(), goal.requirements)
  }

  /** `successors` expands an action iff its preconditions hold and it has an effect. */
  predicate Expandable(state: LocalState, a: Action)
  {
    CheckPreconditions(state, a) && |a.effects| > 0
  }

  /** An effect template realised against `state`: its mutators folded over a copy of the data. */
  function Realise(state: LocalState, template: Values.Effect): Values.Effect
  {
    Values.Effect(template.action, template.mutators, template.cost,
                  LocalState(ApplyMutators(state.data, template.mutators)))
  }

  /** The edge an expandable action contributes: its first effect, realised, at that effect's cost. */
  function EdgeFor(state: LocalState, a: Action): Edge
    requires |a.effects| > 0
  {
    (Node.Effect(Realise(state, a.effects[0])), a.effects[0].cost)
  }

  /** The edges out of `node`, one per expandable action, in the order of `actions`. */
  function Successors(node: Node, actions: seq<Action>): seq<Edge>
    decreases |actions|
  {
    if actions == [] then []
    else
      var state := node.StateOf();
      (if Expandable(state, actions[0]) then [EdgeFor(state, actions[0])] else [])
      + Successors(node, actions[1..])
  }

  /**
    `successors(node, actions)`: for each expandable action, clones the data
    and applies the first effect's mutators to it one by one.
   */
  method SuccessorsOf(node: Node, actions: seq<Action>) returns (edges: seq<Edge>)
    ensures edges == Successors(node, actions)
  {
    var state := node.StateOf();
    edges := [];
    for i := 0 to |actions|
      invariant edges == Successors(node, actions[..i])
    {
      var action := actions[i];
      SuccessorsAppend(node, actions[..i], [action]);
      assert actions[..i + 1] == actions[..i] + [action];
      if CheckPreconditions(state, action) && |action.effects| > 0 {
        var first := action.effects[0];
        var data := state.data;
        for j := 0 to |first.mutators|
          invariant data == ApplyMutators(state.data, first.mutators[..j])
        {
          ApplyMutatorsSnoc(state.data, first.mutators[..j], first.mutators[j]);
          assert first.mutators[..j + 1] == first.mutators[..j] + [first.mutators[j]];
          data := ApplyMutator(data, first.mutators[j]);
        }
        assert first.mutators[..|first.mutators|] == first.mutators;
        var newEffect := Values.Effect(first.action, first.mutators, first.cost, LocalState(data));
        edges := edges + [(Node.Effect(newEffect), first.cost)];
      }
    }
    assert actions[..|actions|] == actions;
  }

  /** The edges for a concatenation of action lists are the edges of each list, in turn. */
  lemma {:induction false} SuccessorsAppend(node: Node, xs: seq<Action>, ys: seq<Action>)
    ensures Successors(node, xs + ys) == Successors(node, xs) + Successors(node, ys)
    decreases |xs|
  {
    if xs == [] {
      assert xs + ys == ys;
    } else {
      assert (xs + ys)[0] == xs[0];
      assert (xs + ys)[1..] == xs[1..] + ys;
      SuccessorsAppend(node, xs[1..], ys);
    }
  }

  /**
    Action `j` contributes exactly its own edge when it is expandable and
    nothing otherwise, between the edges of the actions before and after it.
   */
  lemma SuccessorsSplit(node: Node, actions: seq<Action>, j: nat)
    requires j < |actions|
    ensures Successors(node, actions) ==
      Successors(node, actions[..j])
      + (if Expandable(node.StateOf(), actions[j]) then [EdgeFor(node.StateOf(), actions[j])] else [])
      + Successors(node, actions[j + 1..])
  {
    assert actions == actions[..j] + ([actions[j]] + actions[j + 1..]);
    SuccessorsAppend(node, actions[..j], [actions[j]] + actions[j + 1..]);
    SuccessorsAppend(node, [actions[j]], actions[j + 1..]);
    assert ([actions[j]] + actions[j + 1..])[1..] == actions[j + 1..];
  }

  /** There are at most as many edges as actions. */
  lemma {:induction false} SuccessorsBound(node: Node, actions: seq<Action>)
    ensures |Successors(node, actions)| <= |actions|
    decreases |actions|
  {
    if actions != [] {
      SuccessorsBound(node, actions[1..]);
    }
  }

  /** Every edge is the edge of some expandable action of the list. */
  lemma {:induction false} SuccessorsSound(node: Node, actions: seq<Action>)
    ensures forall e :: e in Successors(node, actions) ==>
      exists j :: 0 <= j < |actions| && Expandable(node.StateOf(), actions[j]) && e == EdgeFor(node.StateOf(), actions[j])
    decreases |actions|
  {
    if actions != [] {
      SuccessorsSound(node, actions[1..]);
      var state := node.StateOf();
      forall e | e in Successors(node, actions)
        ensures exists j :: 0 <= j < |actions| && Expandable(state, actions[j]) && e == EdgeFor(state, actions[j])
      {
        if Expandable(state, actions[0]) && e == EdgeFor(state, actions[0]) {
        } else {
          assert e in Successors(node, actions[1..]);
          var j :| 0 <= j < |actions[1..]| && Expandable(state, actions[1..][j]) && e == EdgeFor(state, actions[1..][j]);
          assert actions[1..][j] == actions[j + 1];
        }
      }
    }
  }

  /** Every expandable action of the list contributes its edge. */
  lemma SuccessorsComplete(node: Node, actions: seq<Action>, j: nat)
    requires j < |actions| && Expandable(node.StateOf(), actions[j])
    ensures EdgeFor(node.StateOf(), actions[j]) in Successors(node, actions)
  {
    SuccessorsSplit(node, actions, j);
  }

  /**
    Every edge leads to an `Effect` vertex whose stored state is its mutators
    replayed on the source vertex's state, and the edge costs what the effect
    says it costs.
   */
  lemma SuccessorsReplay(node: Node, actions: seq<Action>)
    ensures forall e :: e in Successors(node, actions) ==>
      && e.0.Effect?
      && e.1 == e.0.effect.cost
      && e.0.effect.state.data == ApplyMutators(node.StateOf().data, e.0.effect.mutators)
  {
    SuccessorsSound(node, actions);
  }

  /** Only the first effect template of an action matters to the search. */
  lemma SuccessorsIgnoreLaterEffects(node: Node, a: Action)
    requires |a.effects| > 0
    ensures Successors(node, [a]) == Successors(node, [a.(effects := a.effects[..1])])
  {
    var b := a.(effects := a.effects[..1]);
    assert Preconditions(a, node.StateOf()) == Preconditions(b, node.StateOf());
  }

  /** An action fresh from `Action::new` has no effect and is never expanded. */
  lemma NewActionIsNeverExpanded(node: Node, key: string)
    ensures Successors(node, [New(key)]) == []
  {
  }

  /** `set_cost(c)` sets the edge cost to `c` and leaves the state reached unchanged. */
  lemma SetCostSetsEdgeCost(node: Node, a: Action, cost: nat)
    requires Expandable(node.StateOf(), a)
    ensures Successors(node, [SetCost(a, cost)]) ==
      [(Node.Effect(Realise(node.StateOf(), a.effects[0]).(cost := cost)), cost)]
  {
    var b := SetCost(a, cost);
    assert Preconditions(a, node.StateOf()) == Preconditions(b, node.StateOf());
  }

  /** The planning strategies; only start-to-goal search exists. */
  datatype PlanningStrategy = StartToGoal | GoalToStart

  /**
    The source panics in both cases: on the unimplemented strategy, and when
    `is_goal` reaches a missing key during the search. Here each is a failure
    of its own.
   */
  datatype PlanError = GoalToStartNotImplemented | GoalTestPanicked

  /** A plan: the vertex path from the start to a goal vertex and its total cost. */
  type Plan = (seq<Node>, nat)

  /**
    The A* search of the `pathfinding` crate, given the start vertex, the edge
    generator, the heuristic and the goal test. `Failure` is a panic of the
    goal test unwinding out of the search.
   */
  type AStar = (Node, Node -> seq<Edge>, Node -> nat, Node -> Result<bool, Fault>) -> Result<Option<Plan>, Fault>

  /** The search as `make_plan_with_strategy` calls it: from `Node::State(start)` with this module's edges, heuristic and goal test. */
  function Search(start: LocalState, actions: seq<Action>, goal: Goals.Goal, astar: AStar): Result<Option<Plan>, Fault>
  {
    astar(Node.State(start), EdgesOf(actions), HeuristicOf(goal), GoalTestOf(goal))
  }

  /** The closures `make_plan_with_strategy` hands to the search. */
  function EdgesOf(actions: seq<Action>): Node -> seq<Edge>
  {
    n => Successors(n, actions)
  }

  function HeuristicOf(goal: Goals.Goal): Node -> nat
  {
    n => Heuristic(n, goal)
  }

  function GoalTestOf(goal: Goals.Goal): Node -> Result<bool, Fault>
  {
    n => IsGoal(n, goal)
  }

  /**
    `make_plan_with_strategy`: start-to-goal hands back the search's answer,
    or fails when the goal test panicked inside it; goal-to-start is an
    explicit failure and never reaches the search.
   */
  function MakePlanWithStrategy(strategy: PlanningStrategy, start: LocalState, actions: seq<Action>,
                                goal: Goals.Goal, astar: AStar): (r: Result<Option<Plan>, PlanError>)
    ensures strategy == GoalToStart <==> r == Failure(GoalToStartNotImplemented)
    ensures strategy == StartToGoal ==>
      (r == Failure(GoalTestPanicked) <==> Search(start, actions, goal, astar).Failure?)
    ensures r.Success? ==> strategy == StartToGoal && Search(start, actions, goal, astar) == Success(r.value)
  {
    match strategy
    case StartToGoal =>
      (match Search(start, actions, goal, astar)
       case Success(plan) => Success(plan)
       case Failure(_) => Failure(GoalTestPanicked))
    case GoalToStart =>
      Failure(GoalToStartNotImplemented)
  }

  /** `make_plan`: start-to-goal planning, so it never fails for the strategy. */
  function MakePlan(start: LocalState, actions: seq<Action>, goal: Goals.Goal, astar: AStar): (r: Result<Option<Plan>, PlanError>)
    ensures r == MakePlanWithStrategy(StartToGoal, start, actions, goal, astar)
    ensures r != Failure(GoalToStartNotImplemented)
  {
    MakePlanWithStrategy(StartToGoal, start, actions, goal, astar)
  }

  /** The effects of the `Effect` vertices of a path, in path order. */
  function EffectsOf(plan: seq<Node>): seq<Values.Effect>
    decreases |plan|
  {
    if plan == [] then []
    else (if plan[0].Effect? then [plan[0].effect] else []) + EffectsOf(plan[1..])
  }

  /** `get_effects_from_plan(plan)`: pushes the effect of every `Effect` vertex and skips `State` vertices. */
  method GetEffectsFromPlan(plan: seq<Node>) returns (effects: seq<Values.Effect>)
    ensures effects == EffectsOf(plan)
  {
    effects := [];
    for i := 0 to |plan|
      invariant effects == EffectsOf(plan[..i])
    {
      EffectsOfAppend(plan[..i], [plan[i]]);
      assert plan[..i + 1] == plan[..i] + [plan[i]];
      match plan[i]
      case Effect(e) => effects := effects + [e];
      case State(_) =>
    }
    assert plan[..|plan|] == plan;
  }

  lemma {:induction false} EffectsOfAppend(xs: seq<Node>, ys: seq<Node>)
    ensures EffectsOf(xs + ys) == EffectsOf(xs) + EffectsOf(ys)
    decreases |xs|
  {
    if xs == [] {
      assert xs + ys == ys;
    } else {
      assert (xs + ys)[0] == xs[0];
      assert (xs + ys)[1..] == xs[1..] + ys;
      EffectsOfAppend(xs[1..], ys);
    }
  }

  /** There are never more effects than vertices. */
  lemma {:induction false} EffectsOfBound(plan: seq<Node>)
    ensures |EffectsOf(plan)| <= |plan|
    decreases |plan|
  {
    if plan != [] {
      EffectsOfBound(plan[1..]);
    }
  }

  /** An effect is extracted iff the path has an `Effect` vertex holding it. */
  lemma {:induction false} EffectsOfMembership(plan: seq<Node>, e: Values.Effect)
    ensures e in EffectsOf(plan) <==> Node.Effect(e) in plan
    decreases |plan|
  {
    if plan != [] {
      EffectsOfMembership(plan[1..], e);
      assert plan == [plan[0]] + plan[1..];
    }
  }

  /**
    A path of one `State` vertex followed by `Effect` vertices yields the
    effects of those vertices, one per vertex, in order.
   */
  lemma {:induction false} EffectsOfInitialThenEffects(s: LocalState, nodes: seq<Node>)
    requires forall i :: 0 <= i < |nodes| ==> nodes[i].Effect?
    ensures |EffectsOf([Node.State(s)] + nodes)| == |nodes|
    ensures forall i :: 0 <= i < |nodes| ==> EffectsOf([Node.State(s)] + nodes)[i] == nodes[i].effect
    decreases |nodes|
  {
    assert ([Node.State(s)] + nodes)[1..] == nodes;
    if nodes != [] {
      EffectsOfInitialThenEffects(s, nodes[1..]);
      assert ([Node.State(s)] + nodes[1..])[1..] == nodes[1..];
      EffectsOfAppend([nodes[0]], nodes[1..]);
      assert nodes == [nodes[0]] + nodes[1..];
    }
  }

  /** The total cost of a list of effects. */
  function TotalCost(effects: seq<Values.Effect>): nat
    decreases |effects|
  {
    if effects == [] then 0 else TotalCost(effects[..|effects| - 1]) + effects[|effects| - 1].cost
  }

  /** The mutators of a list of effects, concatenated in order. */
  function AllMutators(effects: seq<Values.Effect>): seq<Mutator>
    decreases |effects|
  {
    if effects == [] then [] else AllMutators(effects[..|effects| - 1]) + effects[|effects| - 1].mutators
  }

  /** `to` is an effect vertex reached from `from` by one of the edges `successors` generates. */
  predicate IsStep(from: Node, to: Node, actions: seq<Action>)
  {
    to.Effect? && (to, to.effect.cost) in Successors(from, actions)
  }

  /** A path of the search graph that starts at `Node::State(start)`. */
  predicate ValidPath(start: LocalState, actions: seq<Action>, path: seq<Node>)
  {
    && |path| > 0
    && path[0] == Node.State(start)
    && forall i :: 1 <= i < |path| ==> IsStep(path[i - 1], path[i], actions)
  }

  /**
    What the A* search promises of a plan `(path, cost)`: a path of the search
    graph from the start vertex to a vertex that passes the goal test, the
    cost being the sum of its edge costs.
   */
  predicate ValidPlan(start: LocalState, actions: seq<Action>, goal: Goals.Goal, path: seq<Node>, cost: nat)
  {
    && ValidPath(start, actions, path)
    && IsGoal(path[|path| - 1], goal) == Success(true)
    && cost == TotalCost(EffectsOf(path))
  }

  /** The sum of a list of edge costs. */
  function Sum(cs: seq<nat>): nat
    decreases |cs|
  {
    if cs == [] then 0 else Sum(cs[..|cs| - 1]) + cs[|cs| - 1]
  }

  /** `cs[i - 1]` is the cost of an edge of `edges` from `path[i - 1]` to `path[i]`. */
  predicate EdgeCosts(edges: Node -> seq<Edge>, path: seq<Node>, cs: seq<nat>)
  {
    && |cs| == |path| - 1
    && forall i :: 1 <= i < |path| ==> (path[i], cs[i - 1]) in edges(path[i - 1])
  }

  /**
    What A* promises of an answer `(path, cost)` for any graph: the path
    begins at `start`, follows edges that `edges` generates, ends at a vertex
    that passes the goal test, and costs the sum of those edges' costs.
   */
  ghost predicate AnswerSound(start: Node, edges: Node -> seq<Edge>, success: Node -> Result<bool, Fault>, plan: Plan)
  {
    var (path, cost) := plan;
    && |path| > 0
    && path[0] == start
    && success(path[|path| - 1]) == Success(true)
    && exists cs :: EdgeCosts(edges, path, cs) && cost == Sum(cs)
  }

  /**
    The promises of `pathfinding`'s A* that the planner relies on, for any
    graph: every plan it answers is sound; it runs the goal test on the start
    vertex before anything else, so a panic there is a panic of the search and
    a start that passes is the zero-cost answer `([start], 0)`; and it only
    panics through the goal test of a vertex it reached from the start along
    the edges it was given.
   */
  ghost predicate SearchSound(astar: AStar)
  {
    forall start, edges, heuristic, success ::
      && (astar(start, edges, heuristic, success).Success? && astar(start, edges, heuristic, success).value.Some? ==>
            AnswerSound(start, edges, success, astar(start, edges, heuristic, success).value.value))
      && (success(start).Failure? ==> astar(start, edges, heuristic, success).Failure?)
      && (success(start) == Success(true) ==> astar(start, edges, heuristic, success) == Success(Some(([start], 0))))
      && (astar(start, edges, heuristic, success).Failure? ==>
            exists path, cs :: |path| > 0 && path[0] == start && EdgeCosts(edges, path, cs)
              && success(path[|path| - 1]).Failure?)
  }

  /** A search that only ever tries the start vertex. */
  function StartOnlySearch(start: Node, edges: Node -> seq<Edge>, heuristic: Node -> nat,
                           success: Node -> Result<bool, Fault>): Result<Option<Plan>, Fault>
  {
    if success(start).Failure? then Failure(MissingKey)
    else if success(start) == Success(true) then Success(Some(([start], 0)))
    else Success(None)
  }

  /** The start-only search keeps those promises, so they can be met. */
  lemma StartOnlySearchIsSound()
    ensures SearchSound(StartOnlySearch)
  {
    forall start, edges, heuristic, success
      ensures StartOnlySearch(start, edges, heuristic, success).Success? && StartOnlySearch(start, edges, heuristic, success).value.Some? ==>
                AnswerSound(start, edges, success, StartOnlySearch(start, edges, heuristic, success).value.value)
      ensures StartOnlySearch(start, edges, heuristic, success).Failure? ==>
        exists path, cs :: |path| > 0 && path[0] == start && EdgeCosts(edges, path, cs)
          && success(path[|path| - 1]).Failure?
    {
      assert EdgeCosts(edges, [start], []);
    }
  }

  /** The promise is about graphs in general: a path through `State` vertices at any edge cost is a sound answer. */
  lemma AnswerSoundForAnyGraph(s: LocalState, t: LocalState)
    ensures AnswerSound(Node.State(s), n => [(Node.State(t), 0)], n => Success(n == Node.State(t)),
                        ([Node.State(s), Node.State(t)], 0))
  {
    var edges: Node -> seq<Edge> := n => [(Node.State(t), 0)];
    assert EdgeCosts(edges, [Node.State(s), Node.State(t)], [0]);
    assert Sum([0]) == 0;
  }

  /** With each edge priced at its effect's cost, the edge costs sum to the effects' total cost. */
  lemma {:induction false} SumIsTotalCost(es: seq<Values.Effect>, cs: seq<nat>)
    requires |es| == |cs|
    requires forall j :: 0 <= j < |cs| ==> es[j].cost == cs[j]
    ensures TotalCost(es) == Sum(cs)
    decreases |cs|
  {
    if cs != [] {
      SumIsTotalCost(es[..|es| - 1], cs[..|cs| - 1]);
    }
  }

  /** The search's promises, for the arguments `make_plan_with_strategy` passes. */
  lemma SearchPromises(start: LocalState, actions: seq<Action>, goal: Goals.Goal, astar: AStar)
    requires SearchSound(astar)
    ensures Search(start, actions, goal, astar).Success? && Search(start, actions, goal, astar).value.Some? ==>
      AnswerSound(Node.State(start), EdgesOf(actions), GoalTestOf(goal), Search(start, actions, goal, astar).value.value)
    ensures IsGoal(Node.State(start), goal).Failure? ==> Search(start, actions, goal, astar).Failure?
    ensures IsGoal(Node.State(start), goal) == Success(true) ==>
      Search(start, actions, goal, astar) == Success(Some(([Node.State(start)], 0)))
    ensures Search(start, actions, goal, astar).Failure? ==>
      exists path, cs :: |path| > 0 && path[0] == Node.State(start) && EdgeCosts(EdgesOf(actions), path, cs)
        && IsGoal(path[|path| - 1], goal).Failure?
  {
    assert GoalTestOf(goal)(Node.State(start)) == IsGoal(Node.State(start), goal);
    if Search(start, actions, goal, astar).Failure? {
      var path, cs :| |path| > 0 && path[0] == Node.State(start) && EdgeCosts(EdgesOf(actions), path, cs)
        && GoalTestOf(goal)(path[|path| - 1]).Failure?;
      assert IsGoal(path[|path| - 1], goal).Failure?;
    }
  }

  /**
    When the search keeps its promises, every plan `make_plan` returns is a
    valid plan for the start state, the actions and the goal it was given, and
    replaying its extracted mutators on the start state meets the goal.
   */
  lemma MakePlanSound(start: LocalState, actions: seq<Action>, goal: Goals.Goal, astar: AStar, path: seq<Node>, cost: nat)
    requires SearchSound(astar)
    requires MakePlan(start, actions, goal, astar) == Success(Some((path, cost)))
    ensures ValidPlan(start, actions, goal, path, cost)
    ensures Goals.CheckGoal(LocalState(ApplyMutators(start.data, AllMutators(EffectsOf(path)))), goal) == Success(true)
  {
    SearchPromises(start, actions, goal, astar);
    assert AnswerSound(Node.State(start), EdgesOf(actions), GoalTestOf(goal), (path, cost));
    assert GoalTestOf(goal)(path[|path| - 1]) == IsGoal(path[|path| - 1], goal);
    var cs :| EdgeCosts(EdgesOf(actions), path, cs) && cost == Sum(cs);
    EdgePathIsValidPath(start, actions, path, cs);
    ValidPathEffects(start, actions, path);
    SumIsTotalCost(EffectsOf(path), cs);
    ValidPlanReachesGoal(start, actions, goal, path, cost);
  }

  /** A start state on which the goal test panics makes `make_plan` fail: the search tests the start vertex first. */
  lemma MakePlanPanicsOnStart(start: LocalState, actions: seq<Action>, goal: Goals.Goal, astar: AStar)
    requires SearchSound(astar)
    requires Goals.CheckGoal(start, goal) == Failure(MissingKey)
    ensures MakePlan(start, actions, goal, astar) == Failure(GoalTestPanicked)
  {
    IsGoalAgreesWithCheckGoal(Node.State(start), goal);
    SearchPromises(start, actions, goal, astar);
  }

  /**
    A path along the edges `successors` generates is a path of the search
    graph, each edge priced at the cost of the effect it leads to.
   */
  lemma EdgePathIsValidPath(start: LocalState, actions: seq<Action>, path: seq<Node>, cs: seq<nat>)
    requires |path| > 0 && path[0] == Node.State(start) && EdgeCosts(EdgesOf(actions), path, cs)
    ensures ValidPath(start, actions, path)
    ensures forall i :: 1 <= i < |path| ==> path[i].Effect? && cs[i - 1] == path[i].effect.cost
  {
    forall i | 1 <= i < |path| ensures IsStep(path[i - 1], path[i], actions) && cs[i - 1] == path[i].effect.cost {
      assert (path[i], cs[i - 1]) in Successors(path[i - 1], actions);
      SuccessorsReplay(path[i - 1], actions);
    }
  }

  /** A start state that already meets the goal makes `make_plan` return the start vertex alone, at cost 0. */
  lemma MakePlanStartMeetsGoal(start: LocalState, actions: seq<Action>, goal: Goals.Goal, astar: AStar)
    requires SearchSound(astar)
    requires Goals.CheckGoal(start, goal) == Success(true)
    ensures MakePlan(start, actions, goal, astar) == Success(Some(([Node.State(start)], 0)))
  {
    IsGoalAgreesWithCheckGoal(Node.State(start), goal);
    SearchPromises(start, actions, goal, astar);
  }

  /**
    `make_plan` fails only when the goal test panics on a vertex the search
    reached from the start along the planner's edges.
   */
  lemma MakePlanFailsOnlyByGoalTest(start: LocalState, actions: seq<Action>, goal: Goals.Goal, astar: AStar)
    requires SearchSound(astar)
    requires MakePlan(start, actions, goal, astar).Failure?
    ensures exists path :: ValidPath(start, actions, path) && IsGoal(path[|path| - 1], goal) == Failure(MissingKey)
  {
    SearchPromises(start, actions, goal, astar);
    var path, cs :| |path| > 0 && path[0] == Node.State(start) && EdgeCosts(EdgesOf(actions), path, cs)
      && IsGoal(path[|path| - 1], goal).Failure?;
    EdgePathIsValidPath(start, actions, path, cs);
  }

  /** Dropping the last vertex of a path of two or more vertices leaves a path. */
  lemma ValidPathPrefix(start: LocalState, actions: seq<Action>, path: seq<Node>)
    requires ValidPath(start, actions, path) && |path| > 1
    ensures ValidPath(start, actions, path[..|path| - 1])
  {
    var prefix := path[..|path| - 1];
    forall i | 1 <= i < |prefix| ensures IsStep(prefix[i - 1], prefix[i], actions) {
      assert IsStep(path[i - 1], path[i], actions);
    }
  }

  /** Along a valid path, plan extraction yields the effect of every vertex after the first, in order. */
  lemma ValidPathEffects(start: LocalState, actions: seq<Action>, path: seq<Node>)
    requires ValidPath(start, actions, path)
    ensures |EffectsOf(path)| == |path| - 1
    ensures forall i :: 0 <= i < |path| - 1 ==> path[i + 1].Effect? && EffectsOf(path)[i] == path[i + 1].effect
  {
    var rest := path[1..];
    forall i | 0 <= i < |rest| ensures rest[i].Effect? {
      assert IsStep(path[i], path[i + 1], actions);
    }
    assert path == [Node.State(start)] + rest;
    EffectsOfInitialThenEffects(start, rest);
  }

  /**
    Every extracted effect of a valid path is the first effect of an action
    that was expandable at the vertex before it, realised against that
    vertex's state.
   */
  lemma ValidPathEffectsFromActions(start: LocalState, actions: seq<Action>, path: seq<Node>)
    requires ValidPath(start, actions, path)
    ensures |EffectsOf(path)| == |path| - 1
    ensures forall i :: 0 <= i < |path| - 1 ==>
      exists a :: a in actions && Expandable(path[i].StateOf(), a)
                  && EffectsOf(path)[i] == Realise(path[i].StateOf(), a.effects[0])
  {
    ValidPathEffects(start, actions, path);
    var es := EffectsOf(path);
    forall i | 0 <= i < |path| - 1
      ensures exists a :: a in actions && Expandable(path[i].StateOf(), a)
                          && es[i] == Realise(path[i].StateOf(), a.effects[0])
    {
      assert IsStep(path[i], path[i + 1], actions);
      SuccessorsSound(path[i], actions);
      var j :| 0 <= j < |actions| && Expandable(path[i].StateOf(), actions[j])
        && (path[i + 1], path[i + 1].effect.cost) == EdgeFor(path[i].StateOf(), actions[j]);
      assert actions[j] in actions;
    }
  }

  /**
    The state of the last vertex of a valid path is every extracted mutator
    replayed, in order, on the start state.
   */
  lemma {:induction false} PathReplay(start: LocalState, actions: seq<Action>, path: seq<Node>)
    requires ValidPath(start, actions, path)
    ensures path[|path| - 1].StateOf().data == ApplyMutators(start.data, AllMutators(EffectsOf(path)))
    decreases |path|
  {
    var n := |path|;
    if n == 1 {
      assert path == [Node.State(start)];
      assert path[1..] == [];
    } else {
      var prefix := path[..n - 1];
      ValidPathPrefix(start, actions, path);
      PathReplay(start, actions, prefix);
      var last := path[n - 1];
      assert IsStep(path[n - 2], last, actions);
      SuccessorsReplay(path[n - 2], actions);
      assert last.effect.state.data == ApplyMutators(path[n - 2].StateOf().data, last.effect.mutators);
      assert path == prefix + [last];
      EffectsOfAppend(prefix, [last]);
      assert [last][1..] == [];
      var es := EffectsOf(path);
      assert es == EffectsOf(prefix) + [last.effect];
      assert es[..|es| - 1] == EffectsOf(prefix);
      assert AllMutators(es) == AllMutators(EffectsOf(prefix)) + last.effect.mutators;
      assert path[n - 2] == prefix[|prefix| - 1];
      ApplyMutatorsAppend(start.data, AllMutators(EffectsOf(prefix)), last.effect.mutators);
    }
  }

  /**
    A valid plan extracts to `|path| - 1` effects of total cost `cost`, and
    replaying their mutators, in order, on the start state yields a state that
    meets the goal.
   */
  lemma ValidPlanReachesGoal(start: LocalState, actions: seq<Action>, goal: Goals.Goal, path: seq<Node>, cost: nat)
    requires ValidPlan(start, actions, goal, path, cost)
    ensures |EffectsOf(path)| == |path| - 1
    ensures cost == TotalCost(EffectsOf(path))
    ensures Goals.CheckGoal(LocalState(ApplyMutators(start.data, AllMutators(EffectsOf(path)))), goal) == Success(true)
  {
    ValidPathEffects(start, actions, path);
    PathReplay(start, actions, path);
    IsGoalAgreesWithCheckGoal(path[|path| - 1], goal);
  }

  /** When the start state already meets the goal, the path of the start vertex alone is a plan of cost 0. */
  lemma StartMeetingGoalIsPlan(start: LocalState, actions: seq<Action>, goal: Goals.Goal)
    requires Goals.CheckGoal(start, goal) == Success(true)
    ensures ValidPlan(start, actions, goal, [Node.State(start)], 0)
    ensures EffectsOf([Node.State(start)]) == []
  {
    assert [Node.State(start)][1..] == [];
  }
}
