# dogoap planning core in Dafny

This project models the planning core of dogoap, a goal-oriented action
planner. The pieces are:

- an agent's `LocalState`, which maps fact names to `Datum` values;
- `Action`s, which are gated by static preconditions and by dynamic
  (state-computed) preconditions, and which carry effect templates made of
  `Mutator`s and a cost;
- a `Goal`, which is a map of required comparisons plus a priority;
- the search graph the planner hands to an A* search. Its vertices are
  `Node::State` / `Node::Effect`. It has an edge generator (`successors`), a
  heuristic and a goal test (`is_goal`). The graph also covers the strategy
  dispatch and plan extraction (`get_effects_from_plan`).

Modules, one per source file:

- `Values` (`values.dfy`): facts, comparisons, mutators, effects and the world
  state. The repository files that define these (datum, compare, mutator,
  localstate, effect) are not part of this model. Their operations have
  minimal stand-ins:
  - `CompareValues`: ordering is defined only between integers.
  - `ApplyMutator`: `Set` inserts or overwrites; `Increment`/`Decrement`
    change an integer fact by an integer amount and are a no-op otherwise.
  - `DistanceToGoal`: the number of unmet requirements.
  - `EffectNew`: no mutators, an empty state, cost 1.
  - `WithMutator`: appends one mutator to an effect.
  - `EmptyState`: the state with no facts.
  - `CheckPreconditions` (in `Actions`): every materialised precondition's
    fact is present and passes.
- `Actions` (`actions.dfy`): `action.rs`. Every Rust builder takes the action
  by value (`mut self`) and returns it, so each builder is a function from the
  old action value to the new one. The loop of `get_preconditions` is the
  method `GetPreconditions`.
- `Goals` (`goals.dfy`): `goal.rs`. `from_reqs` is a method with its loop.
  `check_goal` runs `all` over the requirements. That walk goes in `BTreeMap`
  key order (lexicographic by code point) and stops at the first requirement
  that fails. So a missing key panics only when every requirement before it
  passes. The model states exactly this and returns `Failure(MissingKey)` for
  the panic.
- `Planner` (`planner.rs`-based, `planner.dfy`):
  - The vertices, the edge generator (`Successors`) and the method
    `SuccessorsOf`, which has the source's two loops.
  - The goal test and the heuristic.
  - The strategy dispatch. The `GoalToStart` panic becomes
    `Failure(GoalToStartNotImplemented)`. A panic of `is_goal` inside the
    search becomes `Failure(GoalTestPanicked)`.
  - Plan extraction (`GetEffectsFromPlan`, a loop).
  - A checker `ValidPlan` for what the A* search returns. The search itself
    comes from the `pathfinding` crate, so it is a function parameter
    (`AStar`). `ValidPlan` holds when the path starts at `Node::State(start)`,
    each vertex is an edge target of the previous one, the last vertex passes
    the goal test, and the cost is the sum of the edge costs.
  - `SearchSound(astar)` states what A* promises for any graph. Every answered
    path starts at the start vertex, follows generated edges, ends at a vertex
    passing the goal test and costs the sum of its edge costs. The search tests
    the start vertex first. A start that passes is answered at once as
    `([start], 0)`. The search panics only through the goal test of a vertex it
    reached from the start along the given edges. Under
    these promises, `MakePlanSound` derives the planner-specific facts from
    `Successors`: every plan `make_plan` returns is a `ValidPlan`.
- `Simple` (`simple.dfy`): `simple.rs`, the four convenience builders, as
  methods.
- `Scenarios` (`scenarios.dfy`): the energy/sleep and hunger/eat planning
  scenarios, as concrete plans over the model. For the repeatable-sleep
  scenario it also proves that every valid plan costs at least 2.

Two points of the code's shape are kept as written:

- An action holds a list of effect templates, and only the first is used. The
  source says so in its own comments (action.rs:26, action.rs:103).
- A missing fact in `check_goal`/`is_goal` is a panic in the code, and so is
  the goal-to-start strategy. The model turns both into `Failure` values. These
  carry no typed error naming the fact.

## Model

| member | source | states |
|---|---|---|
| `Planner.Node.StateOf` | crates/dogoap/src/planner.rs:22-27 | an `Effect` vertex yields its effect's state; a `State` vertex yields the wrapped state |
| `Planner.Heuristic` | crates/dogoap/src/planner.rs:39-42 | the heuristic is the state's distance to the goal, and it is 0 exactly at the vertices where the goal test returns `true` |
| `Planner.SuccessorsOf` | crates/dogoap/src/planner.rs:44-70 | the loop over the actions, with the mutators applied one by one to a copy of the data, computes exactly `Successors(node, actions)` |
| `Planner.SuccessorsAppend` | crates/dogoap/src/planner.rs:49-69 | the edges for a concatenation of action lists are the edges of the first list followed by those of the second, so edges keep the actions' order |
| `Planner.SuccessorsSplit` | crates/dogoap/src/planner.rs:49-68 | action `j` contributes exactly its own edge between the edges of earlier and later actions when its preconditions hold and it has an effect, and nothing otherwise |
| `Planner.SuccessorsBound` | crates/dogoap/src/planner.rs:49-69 | there are at most as many edges as actions |
| `Planner.SuccessorsSound` | crates/dogoap/src/planner.rs:50-65 | every edge is the realised first effect of an action that is in the list, passes its preconditions and has an effect, at that effect's cost |
| `Planner.SuccessorsComplete` | crates/dogoap/src/planner.rs:49-65 | every action that passes its preconditions and has an effect contributes its edge |
| `Planner.SuccessorsReplay` | crates/dogoap/src/planner.rs:51-65 | every edge leads to an `Effect` vertex whose state is its mutators folded left to right over the source vertex's data, and the edge cost equals the effect's `cost` field |
| `Planner.SuccessorsIgnoreLaterEffects` | crates/dogoap/src/planner.rs:52-65 | effects after the first do not change the edges |
| `Planner.NewActionIsNeverExpanded` | crates/dogoap/src/planner.rs:50 | an action fresh from `Action::new` has no effect and yields no edge |
| `Planner.SetCostSetsEdgeCost` | crates/dogoap/src/planner.rs:59-65 | after `set_cost(c)` the edge costs `c`, the effect records `c`, and the state reached is unchanged |
| `Planner.IsGoal` | crates/dogoap/src/planner.rs:72-80 | the goal test is `true` for a goal without requirements and never panics when every requirement key is in the state |
| `Planner.IsGoalAgreesWithCheckGoal` | crates/dogoap/src/planner.rs:72-80 | `is_goal` on a vertex and `check_goal` on its state give the same outcome |
| `Planner.MakePlanWithStrategy` | crates/dogoap/src/planner.rs:83-103 | goal-to-start is exactly the `GoalToStartNotImplemented` failure; start-to-goal fails exactly when the goal test panicked inside the search, and any success is the search's answer from `Node::State(start)` |
| `Planner.MakePlan` | crates/dogoap/src/planner.rs:120-127 | `make_plan` is the start-to-goal strategy's result, so it never fails for the strategy |
| `Planner.GetEffectsFromPlan` | crates/dogoap/src/planner.rs:130-141 | the loop returns `EffectsOf(plan)`, the effects of the `Effect` vertices in path order |
| `Planner.EffectsOfAppend` | crates/dogoap/src/planner.rs:133-138 | extraction distributes over concatenation of paths, so it keeps path order |
| `Planner.EffectsOfBound` | crates/dogoap/src/planner.rs:130-141 | there are never more effects than vertices |
| `Planner.EffectsOfMembership` | crates/dogoap/src/planner.rs:130-141 | an effect is extracted iff the path has an `Effect` vertex holding it |
| `Planner.EffectsOfInitialThenEffects` | crates/dogoap/src/planner.rs:130-141 | a `State` vertex followed by n `Effect` vertices yields those n effects, in order |
| `Planner.MakePlanSound` | crates/dogoap/src/planner.rs:92-97 | under A*'s generic promise, every plan `make_plan` returns is a `ValidPlan`: it starts at the start state, each step is an effect vertex generated by `successors`, its cost is the sum of its effects' costs and it ends at a goal vertex. Replaying its mutators on the start state meets the goal |
| `Planner.MakePlanPanicsOnStart` | crates/dogoap/src/planner.rs:72-97 | a start state on which the goal test panics makes `make_plan` fail, because the search tests the start vertex first |
| `Planner.MakePlanFailsOnlyByGoalTest` | crates/dogoap/src/planner.rs:72-97 | `make_plan` fails only if the goal test panics at the end of some path of the search graph from the start vertex, i.e. on a vertex the search reached |
| `Planner.MakePlanStartMeetsGoal` | crates/dogoap/src/planner.rs:72-97 | when the start state already meets the goal, `make_plan` returns the start vertex alone at cost 0 |
| `Planner.EdgePathIsValidPath` | crates/dogoap/src/planner.rs:44-70 | a path along generated edges is a search-graph path whose every edge is priced at the cost of the effect it leads to |
| `Planner.StartOnlySearchIsSound` | crates/dogoap/src/planner.rs:92-97 | A*'s promise can be met: a search that only tries the start vertex keeps it |
| `Planner.AnswerSoundForAnyGraph` | crates/dogoap/src/planner.rs:92-97 | A*'s promise is about graphs in general: a path through `State` vertices at an edge cost unrelated to any effect is a sound answer |
| `Planner.SumIsTotalCost` | crates/dogoap/src/planner.rs:59-65 | when each edge is priced at its effect's `cost`, the edge costs sum to the effects' total cost |
| `Planner.ValidPathPrefix` | crates/dogoap/src/planner.rs:92-97 | dropping the last vertex of a search path leaves a search path |
| `Planner.ValidPathEffects` | crates/dogoap/src/planner.rs:92-97 | on a search path, extraction yields one effect per vertex after the first, namely that vertex's effect |
| `Planner.ValidPathEffectsFromActions` | crates/dogoap/src/planner.rs:92-97 | each extracted effect is the first effect of an action that was expandable at the previous vertex, realised against that vertex's state |
| `Planner.PathReplay` | crates/dogoap/src/planner.rs:92-97 | the last vertex's state is all extracted mutators replayed in order on the start state |
| `Planner.ValidPlanReachesGoal` | crates/dogoap/src/planner.rs:92-97 | for a valid plan: replaying the extracted mutators on the start state meets the goal; the cost is the sum of the extracted effects' costs; there are `\|path\| - 1` of them |
| `Planner.StartMeetingGoalIsPlan` | crates/dogoap/src/planner.rs:92-97 | when the start state already meets the goal, the start vertex alone is a valid plan of cost 0 with no effects |
| `Actions.New` | crates/dogoap/src/action.rs:60-67 | the new action has the key and empty static, dynamic and effect lists |
| `Actions.DynamicKeys` | crates/dogoap/src/action.rs:69-71 | one fact name per dynamic precondition, in order |
| `Actions.WithPrecondition` | crates/dogoap/src/action.rs:73-76 | appends `(key, compare)` last to the static preconditions; all other fields are unchanged |
| `Actions.WithEffect` | crates/dogoap/src/action.rs:78-81 | appends the effect last; all other fields are unchanged |
| `Actions.AddPrecondition` | crates/dogoap/src/action.rs:83-86 | appends the pair last to the static preconditions; all other fields are unchanged |
| `Actions.AddDynamicPrecondition` | crates/dogoap/src/action.rs:88-91 | appends the pair last to the dynamic preconditions; all other fields are unchanged |
| `Actions.AddPreconditionIsWithPrecondition` | crates/dogoap/src/action.rs:73-86 | `add_precondition((k, c))` and `with_precondition(k, c)` build the same action |
| `Actions.GetPreconditions` | crates/dogoap/src/action.rs:93-101 | the loop returns the static preconditions followed by each dynamic one evaluated on the state |
| `Actions.PreconditionsShape` | crates/dogoap/src/action.rs:93-101 | the materialised list has length `\|static\| + \|dynamic\|`, starts with the static list verbatim, and holds `(k, f(state))` for the i-th dynamic `(k, f)` at position `\|static\| + i` |
| `Actions.PreconditionKeys` | crates/dogoap/src/action.rs:93-101 | the fact names checked do not depend on the state: the static names, then the dynamic names |
| `Actions.WithPreconditionMaterialised` | crates/dogoap/src/action.rs:93-98 | a static precondition added later is still checked before every dynamic one |
| `Actions.AddDynamicPreconditionMaterialised` | crates/dogoap/src/action.rs:88-98 | a dynamic precondition added later is checked last, with its comparison computed from the current state |
| `Actions.AddMutator` | crates/dogoap/src/action.rs:104-113 | without effects: one effect named by the key, with mutators `[m]` and an empty state. Otherwise `m` is appended to the first effect's mutators only, and the number of effects and every later effect are unchanged |
| `Actions.AddMutatorExtendsFold` | crates/dogoap/src/action.rs:104-113 | adding a mutator adds exactly one last step to the state fold of the first effect |
| `Actions.SetCost` | crates/dogoap/src/action.rs:115-120 | requires an effect (the source indexes `effects[0]`); sets only the first effect's cost; everything else is unchanged |
| `Actions.SetCostAddMutatorCommute` | crates/dogoap/src/action.rs:104-120 | on an action with an effect, `set_cost` and `add_mutator` commute |
| `Actions.ActionEq` | crates/dogoap/src/action.rs:42-49 | equal iff the keys, static preconditions, effects and dynamic-precondition fact names are equal; closures are never compared; identical actions are always equal |
| `Actions.ActionEqIsEquivalence` | crates/dogoap/src/action.rs:42-49 | action equality is reflexive, symmetric and transitive |
| `Actions.ActionEqSameKeys` | crates/dogoap/src/action.rs:42-49 | equal actions check the same fact names, in the same order, in every state |
| `Actions.ActionEqIgnoresClosures` | crates/dogoap/src/action.rs:42-49 | gives two actions that are equal, yet one passes its preconditions in a state where the other fails: closures are not compared |
| `Actions.BuildersPreserveActionEq` | crates/dogoap/src/action.rs:42-91 | every builder maps equal actions to equal actions; a dynamic precondition need only agree on its fact name |
| `Goals.New` | crates/dogoap/src/goal.rs:33-38 | no requirements, priority 0 |
| `Goals.WithPriority` | crates/dogoap/src/goal.rs:43-46 | sets the priority; requirements are unchanged |
| `Goals.WithReq` | crates/dogoap/src/goal.rs:48-51 | the key maps to the new comparison and the key set grows by the key; other keys and the priority are unchanged |
| `Goals.WithReqOverwrites` | crates/dogoap/src/goal.rs:48-51 | a second `with_req` on the same key replaces the first |
| `Goals.WithReqCommutes` | crates/dogoap/src/goal.rs:48-51 | requirements on different keys can be added in either order |
| `Goals.FromReqs` | crates/dogoap/src/goal.rs:53-59 | the requirement keys are exactly the keys of the list; each maps to the comparison of its last occurrence; the priority is 0 |
| `Goals.ReqsOfKeys` | crates/dogoap/src/goal.rs:53-59 | the requirements built from a list have exactly the list's fact names as keys |
| `Goals.ReqsOfLastWins` | crates/dogoap/src/goal.rs:53-59 | a fact name listed more than once keeps the comparison of its last occurrence |
| `Goals.CheckGoal` | crates/dogoap/src/goal.rs:62-72 | `Success(true)` iff every requirement's fact is present and passes (so always when there are none); never panics when every requirement key is present |
| `Goals.CheckGoalPanicsOnMissingKey` | crates/dogoap/src/goal.rs:65-69 | the check panics iff some requirement key is missing from the state and every present requirement before it in key order passes; a present requirement that fails at a later key does not prevent the panic |
| `Goals.MissingKeyBeforeFailingKeyPanics` | crates/dogoap/src/goal.rs:65-69 | requirements `a == 1`, `b == 1` on the state `b = 0` panic: the missing `a` comes before the failing `b` |
| `Goals.CheckGoalIgnoresPriority` | crates/dogoap/src/goal.rs:64-72 | the priority plays no part in the goal check |
| `Goals.CheckGoalWithReq` | crates/dogoap/src/goal.rs:48-72 | with all keys present, adding `key: compare` makes the check `compare` on that fact conjoined with the old goal's other requirements |
| `Simple.NoPreconditionsAlwaysExpanded` | crates/dogoap/src/simple.rs:20-30 | an action with no preconditions and an effect yields exactly its edge from every vertex |
| `Simple.SimpleMultiMutateAction` | crates/dogoap/src/simple.rs:10-31 | key `name`; no preconditions; one effect named `name` with cost 1, an empty state and exactly `Set(k_i, v_i)` per pair, in order; it is expanded from every vertex |
| `Simple.SimpleAction` | crates/dogoap/src/simple.rs:3-8 | the multi-mutator builder with the single pair: one effect with the sole mutator `Set(key, value)`, cost 1; expanded from every vertex |
| `Simple.SimpleIncrementAction` | crates/dogoap/src/simple.rs:33-48 | no preconditions; one effect named `name`, cost 1, sole mutator `Increment(key, value)`; expanded from every vertex |
| `Simple.SimpleDecrementAction` | crates/dogoap/src/simple.rs:50-65 | no preconditions; one effect named `name`, cost 1, sole mutator `Decrement(key, value)`; expanded from every vertex |
| `Values.ApplyMutatorsSnoc` | crates/dogoap/src/planner.rs:54-57 | applying the mutators in turn to one working copy: one more mutator is one more step on the result |
| `Values.ApplyMutatorsAppend` | crates/dogoap/src/planner.rs:54-57 | folding two mutator lists in turn is folding their concatenation |
| `Values.DistanceToGoal` | crates/dogoap/src/planner.rs:40 | the distance is zero exactly when every requirement is met |
| `Values.FirstKeyExists` | crates/dogoap/src/goal.rs:65 | every non-empty key set has a first key in `BTreeMap` order |
| `Scenarios.OneSleepIsPlan` | crates/dogoap/src/planner.rs:44-80 | from `energy = 0`, one `sleep` (+10, cost 1) is a valid plan for `energy >= 10`; it extracts to one effect with state `energy = 10` |
| `Scenarios.TwoSleepsArePlan` | crates/dogoap/src/planner.rs:44-80 | from `energy = 5`, two `sleep`s (+3) are a valid plan of cost 2 ending at `energy = 11` |
| `Scenarios.TwoSleepsAreCheapest` | crates/dogoap/src/planner.rs:44-80 | every valid plan from `energy = 5` over `sleep` (+3) for `energy >= 10` costs at least 2 |
| `Scenarios.OneEatIsPlan` | crates/dogoap/src/planner.rs:44-80 | from `hunger = 0`, one `eat` (requires `hunger == 0`, sets 1) is a valid plan of cost 1; from `hunger = 1` the start vertex alone is a plan of cost 0 |

## Left out

- The A* search of the `pathfinding` crate (planner.rs:92-97) is a function parameter. The model does not prove that it finds a plan, or the cheapest one. `SearchSound` states only the crate's generic promises about any answer it gives, and `MakePlanSound` derives from them that `make_plan`'s plans are valid.
- Planner.MakePlanWithStrategy: when the goal test panics at a vertex other than the start, the model does not say whether the search reaches that vertex, because that depends on A*'s visiting order. It only says that a failure comes from some vertex the search reaches from the start along the planner's edges whose goal test panics (`MakePlanFailsOnlyByGoalTest`).
- `print_plan` and the `Debug` impls are console output and formatting only.
- The `Hash` impls and the bevy `Reflect` derives depend on the hasher and on reflection.
- `Arc<dyn Fn … + Send + Sync>`: a dynamic precondition is a pure Dafny function `LocalState -> Compare`. Sharing across threads is not modelled.
- Floating-point `Datum` variants and the `as usize` cast of the heuristic are not modelled.
- The generic `T` with `Datum: From<T>` of the builders is not modelled: they take a `Datum`.
- `usize` costs and priorities are `nat`. Overflow of a summed path cost is not modelled.
- `Values.CompareValues`, `Values.ApplyMutator`, `Values.DistanceToGoal`, `Values.EffectNew`, `Values.WithMutator` (for `Effect::with_mutator`), `Values.EmptyState` (for `LocalState::new`) and `Actions.CheckPreconditions` are minimal stand-ins, because their source files are not part of this model. In particular, the stand-in `CheckPreconditions` treats a missing fact as a failed precondition and never panics.
- Values.DistanceToGoal: counts unmet requirements rather than measuring how far each value is from meeting its requirement, so the model proves nothing about admissibility.
- Goals.CheckGoal: the panic's message naming the missing key is not modelled; `Failure(MissingKey)` carries no key.
- `PlanningStrategy`'s `Default` derive (start-to-goal) is not modelled: `make_plan` names the strategy explicitly.
- `successors` returns a lazy iterator. The model returns the list that `collect::<Vec<_>>()` at planner.rs:94 builds from it.
