/**
  Actions: something an agent can do when its preconditions hold, with the
  effect templates that doing it produces (crates/dogoap/src/action.rs).

  The Rust builders take the action by value (`mut self`), push onto one of its
  lists and hand the action back, so each of them is a function from the old
  action value to the new one here.
 */
module Actions {
  import opened Values

  /** A precondition with a literal comparison: fact name and expected value. */
  type Precondition = (string, Compare)

  /** A precondition whose comparison is computed from the current state. */
  type DynamicPrecondition = (string, LocalState -> Compare)

  datatype Action = Action(
    key: string,
    preconditions: seq<Precondition>,
    dynamicPreconditions: seq<DynamicPrecondition>,
    effects: seq<Effect>)

  /** `Action::new(key)`: the key and nothing else. */
  function New(key: string): (a: Action)
    ensures a.key == key
    ensures a.preconditions == [] && a.dynamicPreconditions == [] && a.effects == []
  {
    Action(key, [], [], [])
  }

  /** The fact names of a list of preconditions, in order. */
  function Keys(ps: seq<Precondition>): (keys: seq<string>)
    ensures |keys| == |ps|
    ensures forall i :: 0 <= i < |ps| ==> keys[i] == ps[i].0
  {
    seq(|ps|, i requires 0 <= i < |ps| => ps[i].0)
  }

  /** `get_dynamic_precondition`: the fact names of the dynamic preconditions, in order. */
  function DynamicKeys(a: Action): (keys: seq<string>)
    ensures |keys| == |a.dynamicPreconditions|
    ensures forall i :: 0 <= i < |keys| ==> keys[i] == a.dynamicPreconditions[i].0
  {
    seq(|a.dynamicPreconditions|, i requires 0 <= i < |a.dynamicPreconditions| => a.dynamicPreconditions[i].0)
  }

  /**
    `PartialEq for Action`: key, static preconditions and effects must be
    equal; of the dynamic preconditions only the fact names are compared, never
    the closures.
   */
  predicate ActionEq(a: Action, b: Action): (r: bool)
    ensures a == b ==> r
  {
    && a.key == b.key
    && a.preconditions == b.preconditions
    && a.effects == b.effects
    && DynamicKeys(a) == DynamicKeys(b)
  }

  /** `with_precondition(key, compare)`. */
  function WithPrecondition(a: Action, key: string, compare: Compare): (r: Action)
    ensures r.preconditions == a.preconditions + [(key, compare)]
    ensures r.key == a.key && r.dynamicPreconditions == a.dynamicPreconditions && r.effects == a.effects
  {
    a.(preconditions := a.preconditions + [(key, compare)])
  }

  /** `with_effect(effect)`. */
  function WithEffect(a: Action, effect: Effect): (r: Action)
    ensures r.effects == a.effects + [effect]
    ensures r.key == a.key && r.preconditions == a.preconditions && r.dynamicPreconditions == a.dynamicPreconditions
  {
    a.(effects := a.effects + [effect])
  }

  /** `add_precondition((key, compare))`. */
  function AddPrecondition(a: Action, p: Precondition): (r: Action)
    ensures r.preconditions == a.preconditions + [p]
    ensures r.key == a.key && r.dynamicPreconditions == a.dynamicPreconditions && r.effects == a.effects
  {
    a.(preconditions := a.preconditions + [p])
  }

  /** `add_dynamic_precondition((key, getter))`. */
  function AddDynamicPrecondition(a: Action, p: DynamicPrecondition): (r: Action)
    ensures r.dynamicPreconditions == a.dynamicPreconditions + [p]
    ensures r.key == a.key && r.preconditions == a.preconditions && r.effects == a.effects
  {
    a.(dynamicPreconditions := a.dynamicPreconditions + [p])
  }

  /** Each dynamic precondition evaluated on `state`, in order. */
  function Evaluate(dynamic: seq<DynamicPrecondition>, state: LocalState): seq<Precondition>
    decreases |dynamic|
  {
    if dynamic == [] then [] else [(dynamic[0].0, dynamic[0].1(state))] + Evaluate(dynamic[1..], state)
  }

  lemma {:induction false} EvaluateSnoc(dynamic: seq<DynamicPrecondition>, p: DynamicPrecondition, state: LocalState)
    ensures Evaluate(dynamic + [p], state) == Evaluate(dynamic, state) + [(p.0, p.1(state))]
    decreases |dynamic|
  {
    if dynamic == [] {
      assert dynamic + [p] == [p];
    } else {
      assert (dynamic + [p])[1..] == dynamic[1..] + [p];
      EvaluateSnoc(dynamic[1..], p, state);
    }
  }

  lemma {:induction false} EvaluateAt(dynamic: seq<DynamicPrecondition>, state: LocalState)
    ensures |Evaluate(dynamic, state)| == |dynamic|
    ensures forall i :: 0 <= i < |dynamic| ==>
      Evaluate(dynamic, state)[i] == (dynamic[i].0, dynamic[i].1(state))
    decreases |dynamic|
  {
    if dynamic != [] {
      EvaluateAt(dynamic[1..], state);
    }
  }

  /**
    The full precondition list of `get_preconditions(state)`: the static
    preconditions, then every dynamic one evaluated on `state`.
   */
  function Preconditions(a: Action, state: LocalState): seq<Precondition>
  {
    a.preconditions + Evaluate(a.dynamicPreconditions, state)
  }

  /** `get_preconditions(state)`: copies the static list, then pushes each evaluated dynamic one. */
  method GetPreconditions(a: Action, state: LocalState) returns (ps: seq<Precondition>)
    ensures ps == Preconditions(a, state)
  {
    ps := a.preconditions;
    for i := 0 to |a.dynamicPreconditions|
      invariant ps == a.preconditions + Evaluate(a.dynamicPreconditions[..i], state)
    {
      var (key, getter) := a.dynamicPreconditions[i];
      EvaluateSnoc(a.dynamicPreconditions[..i], a.dynamicPreconditions[i], state);
      assert a.dynamicPreconditions[..i + 1] == a.dynamicPreconditions[..i] + [a.dynamicPreconditions[i]];
      ps := ps + [(key, getter(state))];
    }
    assert a.dynamicPreconditions[..|a.dynamicPreconditions|] == a.dynamicPreconditions;
  }

  /**
    The materialised list has one entry per static and per dynamic
    precondition: the static ones verbatim and in order, then each dynamic one
    with its comparison computed from `state`.
   */
  lemma PreconditionsShape(a: Action, state: LocalState)
    ensures |Preconditions(a, state)| == |a.preconditions| + |a.dynamicPreconditions|
    ensures Preconditions(a, state)[..|a.preconditions|] == a.preconditions
    ensures forall i :: 0 <= i < |a.dynamicPreconditions| ==>
      Preconditions(a, state)[|a.preconditions| + i] == (a.dynamicPreconditions[i].0, a.dynamicPreconditions[i].1(state))
  {
    EvaluateAt(a.dynamicPreconditions, state);
  }

  /** The fact names checked do not depend on the state: static names, then dynamic names. */
  lemma PreconditionKeys(a: Action, state: LocalState)
    ensures Keys(Preconditions(a, state)) == Keys(a.preconditions) + DynamicKeys(a)
  {
    PreconditionsShape(a, state);
    var ks := Keys(Preconditions(a, state));
    var n := |a.preconditions|;
    forall i | 0 <= i < |ks| ensures ks[i] == (Keys(a.preconditions) + DynamicKeys(a))[i] {
      if i < n {
        assert Preconditions(a, state)[i] == Preconditions(a, state)[..n][i];
      } else {
        assert Preconditions(a, state)[n + (i - n)] == (a.dynamicPreconditions[i - n].0, a.dynamicPreconditions[i - n].1(state));
      }
    }
  }

  /** A new static precondition is checked after the earlier static ones and before every dynamic one. */
  lemma WithPreconditionMaterialised(a: Action, key: string, compare: Compare, state: LocalState)
    ensures Preconditions(WithPrecondition(a, key, compare), state)
         == Preconditions(a, state)[..|a.preconditions|] + [(key, compare)] + Preconditions(a, state)[|a.preconditions|..]
  {
    var e := Evaluate(a.dynamicPreconditions, state);
    assert Preconditions(a, state)[..|a.preconditions|] == a.preconditions;
    assert Preconditions(a, state)[|a.preconditions|..] == e;
  }

  /** A new dynamic precondition is checked last, with its comparison computed from the state. */
  lemma AddDynamicPreconditionMaterialised(a: Action, p: DynamicPrecondition, state: LocalState)
    ensures Preconditions(AddDynamicPrecondition(a, p), state) == Preconditions(a, state) + [(p.0, p.1(state))]
  {
    EvaluateSnoc(a.dynamicPreconditions, p, state);
  }

  /** `add_precondition((k, c))` and `with_precondition(k, c)` build the same action. */
  lemma AddPreconditionIsWithPrecondition(a: Action, key: string, compare: Compare)
    ensures AddPrecondition(a, (key, compare)) == WithPrecondition(a, key, compare)
  {
  }

  /**
    Stand-in for `check_preconditions(state, action)`: every materialised
    precondition names a fact present in `state` whose value passes.
   */
  predicate CheckPreconditions(state: LocalState, a: Action)
  {
    var ps := Preconditions(a, state);
    forall i :: 0 <= i < |ps| ==> Satisfies(state.data, ps[i].0, ps[i].1)
  }

  /** The mutators of the first effect, or none when there is no effect yet. */
  function FirstMutators(a: Action): seq<Mutator>
  {
    if |a.effects| == 0 then [] else a.effects[0].mutators
  }

  /**
    `add_mutator(m)`: without effects, the action gets the single effect
    `Effect::new(key).with_mutator(m)`; otherwise `m` is appended to the first
    effect's mutators and every other effect is left alone.
   */
  function AddMutator(a: Action, m: Mutator): (r: Action)
    ensures |r.effects| == if |a.effects| == 0 then 1 else |a.effects|
    ensures r.effects[0].mutators == FirstMutators(a) + [m]
    ensures |a.effects| == 0 ==> r.effects[0].action == a.key && r.effects[0].state == EmptyState
    ensures |a.effects| > 0 ==>
      && r.effects[0] == a.effects[0].(mutators := a.effects[0].mutators + [m])
      && r.effects[1..] == a.effects[1..]
    ensures r.key == a.key && r.preconditions == a.preconditions && r.dynamicPreconditions == a.dynamicPreconditions
  {
    if |a.effects| == 0 then
      a.(effects := [WithMutator(EffectNew(a.key), m)])
    else
      a.(effects := a.effects[0 := WithMutator(a.effects[0], m)])
  }

  /**
    `set_cost(c)`: overwrites the first effect's cost. The source indexes
    `effects[0]` without a check, so an action without effects panics.
   */
  function SetCost(a: Action, cost: nat): (r: Action)
    requires |a.effects| > 0
    ensures |r.effects| == |a.effects|
    ensures r.effects[0] == a.effects[0].(cost := cost)
    ensures r.effects[1..] == a.effects[1..]
    ensures r.key == a.key && r.preconditions == a.preconditions && r.dynamicPreconditions == a.dynamicPreconditions
  {
    a.(effects := a.effects[0 := a.effects[0].(cost := cost)])
  }

  /** Adding a mutator to an action adds one last step to the fold over its first effect. */
  lemma AddMutatorExtendsFold(a: Action, m: Mutator, data: map<string, Datum>)
    ensures ApplyMutators(data, AddMutator(a, m).effects[0].mutators) == ApplyMutator(ApplyMutators(data, FirstMutators(a)), m)
  {
    ApplyMutatorsSnoc(data, FirstMutators(a), m);
  }

  /** On an action with an effect, `set_cost` and `add_mutator` touch different fields of it and commute. */
  lemma SetCostAddMutatorCommute(a: Action, cost: nat, m: Mutator)
    requires |a.effects| > 0
    ensures SetCost(AddMutator(a, m), cost) == AddMutator(SetCost(a, cost), m)
  {
  }

  /** The equality of `PartialEq for Action` is reflexive, symmetric and transitive. */
  lemma ActionEqIsEquivalence(a: Action, b: Action, c: Action)
    ensures ActionEq(a, a)
    ensures ActionEq(a, b) ==> ActionEq(b, a)
    ensures ActionEq(a, b) && ActionEq(b, c) ==> ActionEq(a, c)
  {
  }

  /** Equal actions check the same fact names, in the same order, in every state. */
  lemma ActionEqSameKeys(a: Action, b: Action, state: LocalState)
    requires ActionEq(a, b)
    ensures Keys(Preconditions(a, state)) == Keys(Preconditions(b, state))
  {
    PreconditionKeys(a, state);
    PreconditionKeys(b, state);
  }

  /**
    The equality ignores the closures: two actions can be equal while one
    passes its preconditions in a state and the other does not.
   */
  lemma ActionEqIgnoresClosures() returns (a: Action, b: Action, state: LocalState)
    ensures ActionEq(a, b)
    ensures CheckPreconditions(state, a) && !CheckPreconditions(state, b)
  {
    state := LocalState(map["energy" := Int(5)]);
    a := AddDynamicPrecondition(New("sleep"), ("energy", _ => GreaterThanEquals(Int(0))));
    b := AddDynamicPrecondition(New("sleep"), ("energy", _ => GreaterThanEquals(Int(10))));
    assert Preconditions(a, state) == [("energy", GreaterThanEquals(Int(0)))];
    assert Preconditions(b, state) == [("energy", GreaterThanEquals(Int(10)))];
    assert !Satisfies(state.data, Preconditions(b, state)[0].0, Preconditions(b, state)[0].1);
  }

  /**
    Every builder keeps equal actions equal; a dynamic precondition only has
    to agree on its fact name.
   */
  lemma BuildersPreserveActionEq(a: Action, b: Action, key: string, compare: Compare,
                                 p: DynamicPrecondition, q: DynamicPrecondition, e: Effect, m: Mutator, cost: nat)
    requires ActionEq(a, b)
    requires p.0 == q.0
    ensures ActionEq(WithPrecondition(a, key, compare), WithPrecondition(b, key, compare))
    ensures ActionEq(AddDynamicPrecondition(a, p), AddDynamicPrecondition(b, q))
    ensures ActionEq(WithEffect(a, e), WithEffect(b, e))
    ensures ActionEq(AddMutator(a, m), AddMutator(b, m))
    ensures |a.effects| > 0 ==> ActionEq(SetCost(a, cost), SetCost(b, cost))
  {
    var a', b' := AddDynamicPrecondition(a, p), AddDynamicPrecondition(b, q);
    assert DynamicKeys(a') == DynamicKeys(a) + [p.0];
    assert DynamicKeys(b') == DynamicKeys(b) + [q.0];
  }
}
