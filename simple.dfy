/**
  Convenience builders for actions without preconditions and with one effect
  of cost 1 (crates/dogoap/src/simple.rs). The Rust builders accept any value
  convertible into a `Datum`; here they take the `Datum` itself.
 */
module Simple {
  import opened Values
  import opened Actions
  import Planner

  /**
    An action without preconditions and with an effect is expanded in every
    state, into exactly the edge of its first effect.
   */
  lemma NoPreconditionsAlwaysExpanded(a: Action)
    requires a.preconditions == [] && a.dynamicPreconditions == [] && |a.effects| > 0
    ensures forall n: Planner.Node :: Planner.Successors(n, [a]) == [Planner.EdgeFor(n.StateOf(), a)]
  {
    forall n: Planner.Node ensures Planner.Successors(n, [a]) == [Planner.EdgeFor(n.StateOf(), a)] {
      assert Preconditions(a, n.StateOf()) == [];
      assert [a][1..] == [];
    }
  }

  /**
    `simple_multi_mutate_action(name, muts)`: one `Set` mutator per pair, in
    order, in a single effect named `name` with cost 1 and an empty
    placeholder state.
   */
  method SimpleMultiMutateAction(name: string, muts: seq<(string, Datum)>) returns (a: Action)
    ensures a.key == name && a.preconditions == [] && a.dynamicPreconditions == []
    ensures |a.effects| == 1
    ensures a.effects[0].action == name && a.effects[0].cost == 1 && a.effects[0].state == EmptyState
    ensures |a.effects[0].mutators| == |muts|
    ensures forall i :: 0 <= i < |muts| ==> a.effects[0].mutators[i] == Set(muts[i].0, muts[i].1)
    ensures forall n: Planner.Node :: Planner.Successors(n, [a]) == [Planner.EdgeFor(n.StateOf(), a)]
  {
    var mutators: seq<Mutator> := [];
    for i := 0 to |muts|
      invariant |mutators| == i
      invariant forall j :: 0 <= j < i ==> mutators[j] == Set(muts[j].0, muts[j].1)
    {
      mutators := mutators + [Set(muts[i].0, muts[i].1)];
    }
    a := Action(name, [], [], [Values.Effect(name, mutators, 1, EmptyState)]);
    NoPreconditionsAlwaysExpanded(a);
  }

  /** `simple_action(name, key, value)`: the multi-mutator builder with the single pair `(key, value)`. */
  method SimpleAction(name: string, key: string, value: Datum) returns (a: Action)
    ensures a.key == name && a.preconditions == [] && a.dynamicPreconditions == []
    ensures |a.effects| == 1
    ensures a.effects[0] == Values.Effect(name, [Set(key, value)], 1, EmptyState)
    ensures forall n: Planner.Node :: Planner.Successors(n, [a]) == [Planner.EdgeFor(n.StateOf(), a)]
  {
    a := SimpleMultiMutateAction(name, [(key, value)]);
  }

  /** `simple_increment_action(name, key, value)`: the single mutator `Increment(key, value)`. */
  method SimpleIncrementAction(name: string, key: string, value: Datum) returns (a: Action)
    ensures a.key == name && a.preconditions == [] && a.dynamicPreconditions == []
    ensures |a.effects| == 1
    ensures a.effects[0] == Values.Effect(name, [Increment(key, value)], 1, EmptyState)
    ensures forall n: Planner.Node :: Planner.Successors(n, [a]) == [Planner.EdgeFor(n.StateOf(), a)]
  {
    a := SimpleMultiMutateAction(name, []);
    a := a.(effects := [Values.Effect(name, [Increment(key, value)], 1, EmptyState)]);
    NoPreconditionsAlwaysExpanded(a);
  }

  /** `simple_decrement_action(name, key, value)`: the single mutator `Decrement(key, value)`. */
  method SimpleDecrementAction(name: string, key: string, value: Datum) returns (a: Action)
    ensures a.key == name && a.preconditions == [] && a.dynamicPreconditions == []
    ensures |a.effects| == 1
    ensures a.effects[0] == Values.Effect(name, [Decrement(key, value)], 1, EmptyState)
    ensures forall n: Planner.Node :: Planner.Successors(n, [a]) == [Planner.EdgeFor(n.StateOf(), a)]
  {
    a := SimpleMultiMutateAction(name, []);
    a := a.(effects := [Values.Effect(name, [Decrement(key, value)], 1, EmptyState)]);
    NoPreconditionsAlwaysExpanded(a);
  }
}
