/**
  The value layer the planner is built on: facts (`Datum`), comparisons
  (`Compare`), the world state (`LocalState`), mutators and effects.

  The files that define these in the repository (datum, compare, mutator,
  localstate and effect) are not part of this model. What is written here is a
  minimal stand-in for each of their operations, with no floating-point facts;
  the planner, action, goal and builder modules only rely on it through the
  names below.
 */
module Values {

  datatype Option<+T> = None | Some(value: T)

  /** Result of an evaluation that may hit one of the source's panics. */
  datatype Result<+T, +E> = Success(value: T) | Failure(error: E)

  /** A lookup of a requirement key that is absent from the state (a panic in the source). */
  datatype Fault = MissingKey

  /** A fact value: a boolean, an integer or an enumeration tag. */
  datatype Datum = Bool(b: bool) | Int(i: int) | Enum(tag: nat)

  /** A comparison against a target value. */
  datatype Compare =
    | Equals(target: Datum)
    | NotEquals(target: Datum)
    | GreaterThan(target: Datum)
    | GreaterThanEquals(target: Datum)
    | LessThan(target: Datum)
    | LessThanEquals(target: Datum)

  /** Stand-in for `compare_values(comparison, actual)`: ordering is only defined between two integers. */
  predicate CompareValues(c: Compare, actual: Datum)
  {
    match c
    case Equals(t) => actual == t
    case NotEquals(t) => actual != t
    case GreaterThan(t) => actual.Int? && t.Int? && actual.i > t.i
    case GreaterThanEquals(t) => actual.Int? && t.Int? && actual.i >= t.i
    case LessThan(t) => actual.Int? && t.Int? && actual.i < t.i
    case LessThanEquals(t) => actual.Int? && t.Int? && actual.i <= t.i
  }

  /** The state of one agent: fact name to value. */
  datatype LocalState = LocalState(data: map<string, Datum>)

  /** `LocalState::new()`: no facts. */
  const EmptyState := LocalState(map[])

  /** True when `key` is present in `data` and its value passes `c`. */
  predicate Satisfies(data: map<string, Datum>, key: string, c: Compare)
  {
    key in data && CompareValues(c, data[key])
  }

  /**
    The order in which a `BTreeMap<String, _>` visits its keys: lexicographic
    on code points (Rust compares the UTF-8 bytes, which orders code points the
    same way).
   */
  predicate StrLess(a: string, b: string)
    decreases |b|
  {
    |b| > 0 && (|a| == 0 || a[0] < b[0] || (a[0] == b[0] && StrLess(a[1..], b[1..])))
  }

  lemma {:induction false} StrLessIrreflexive(a: string)
    ensures !StrLess(a, a)
    decreases |a|
  {
    if |a| > 0 {
      StrLessIrreflexive(a[1..]);
    }
  }

  lemma {:induction false} StrLessTransitive(a: string, b: string, c: string)
    requires StrLess(a, b) && StrLess(b, c)
    ensures StrLess(a, c)
    decreases |c|
  {
    if |a| > 0 && a[0] == b[0] && b[0] == c[0] {
      StrLessTransitive(a[1..], b[1..], c[1..]);
    }
  }

  /** Any two different keys are ordered one way or the other. */
  lemma {:induction false} StrLessTotal(a: string, b: string)
    requires a != b
    ensures StrLess(a, b) || StrLess(b, a)
    decreases |a|
  {
    if |a| > 0 && |b| > 0 && a[0] == b[0] {
      assert a == [a[0]] + a[1..] && b == [b[0]] + b[1..];
      StrLessTotal(a[1..], b[1..]);
    }
  }

  /**
    Every non-empty finite set of keys has a first key in `BTreeMap` order:
    one that no other key of the set precedes.
   */
  lemma {:induction false} FirstKeyExists(keys: set<string>) returns (first: string)
    requires keys != {}
    ensures first in keys
    ensures forall k :: k in keys ==> !StrLess(k, first)
    decreases |keys|
  {
    var x :| x in keys;
    if keys == {x} {
      first := x;
      StrLessIrreflexive(x);
    } else {
      var m := FirstKeyExists(keys - {x});
      if StrLess(x, m) {
        first := x;
        forall k | k in keys ensures !StrLess(k, first) {
          if k == x {
            StrLessIrreflexive(x);
          } else if StrLess(k, x) {
            StrLessTransitive(k, x, m);
          }
        }
      } else {
        first := m;
      }
    }
  }

  /** A state mutation: overwrite, add to or subtract from one fact. */
  datatype Mutator =
    | Set(key: string, value: Datum)
    | Increment(key: string, value: Datum)
    | Decrement(key: string, value: Datum)

  /**
    Stand-in for `apply_mutator(&mut data, mutator)`: `Set` inserts or
    overwrites; `Increment`/`Decrement` act on an integer fact with an integer
    amount and leave the data as it is otherwise.
   */
  function ApplyMutator(data: map<string, Datum>, m: Mutator): map<string, Datum>
  {
    match m
    case Set(k, v) => data[k := v]
    case Increment(k, v) =>
      if k in data && data[k].Int? && v.Int? then data[k := Int(data[k].i + v.i)] else data
    case Decrement(k, v) =>
      if k in data && data[k].Int? && v.Int? then data[k := Int(data[k].i - v.i)] else data
  }

  /** The mutators applied left to right to one working copy of the data. */
  function ApplyMutators(data: map<string, Datum>, ms: seq<Mutator>): map<string, Datum>
    decreases |ms|
  {
    if ms == [] then data else ApplyMutators(ApplyMutator(data, ms[0]), ms[1..])
  }

  /** Applying one more mutator at the end is one more step on the result. */
  lemma {:induction false} ApplyMutatorsSnoc(data: map<string, Datum>, ms: seq<Mutator>, m: Mutator)
    ensures ApplyMutators(data, ms + [m]) == ApplyMutator(ApplyMutators(data, ms), m)
    decreases |ms|
  {
    if ms != [] {
      assert (ms + [m])[1..] == ms[1..] + [m];
      ApplyMutatorsSnoc(ApplyMutator(data, ms[0]), ms[1..], m);
    }
  }

  /** Applying two mutator lists in turn is applying their concatenation. */
  lemma {:induction false} ApplyMutatorsAppend(data: map<string, Datum>, xs: seq<Mutator>, ys: seq<Mutator>)
    ensures ApplyMutators(data, xs + ys) == ApplyMutators(ApplyMutators(data, xs), ys)
    decreases |xs|
  {
    if xs != [] {
      assert (xs + ys)[1..] == xs[1..] + ys;
      ApplyMutatorsAppend(ApplyMutator(data, xs[0]), xs[1..], ys);
    } else {
      assert xs + ys == ys;
    }
  }

  /**
    An effect: the name of the action it comes from, its mutators, its cost
    and, once realised during search, the state it leads to.
   */
  datatype Effect = Effect(action: string, mutators: seq<Mutator>, cost: nat, state: LocalState)

  /** Stand-in for `Effect::new(name)`: no mutators, an empty placeholder state, cost 1. */
  function EffectNew(name: string): (e: Effect)
    ensures e.action == name && e.mutators == [] && e.state == EmptyState
  {
    Effect(name, [], 1, EmptyState)
  }

  /** Stand-in for `Effect::with_mutator(m)`: appends `m` to the mutators. */
  function WithMutator(e: Effect, m: Mutator): (r: Effect)
    ensures r.mutators == e.mutators + [m]
    ensures r.action == e.action && r.cost == e.cost && r.state == e.state
  {
    e.(mutators := e.mutators + [m])
  }

  /** The requirements of `requirements` that `state` does not meet (missing or failing). */
  function Unmet(state: LocalState, requirements: map<string, Compare>): set<string>
  {
    set k | k in requirements && !Satisfies(state.data, k, requirements[k])
  }

  /**
    Stand-in for `LocalState::distance_to_goal`: the number of unmet
    requirements. It is zero exactly when every requirement is met.
   */
  function DistanceToGoal(state: LocalState, requirements: map<string, Compare>): (d: nat)
    ensures d == 0 <==> forall k :: k in requirements ==> Satisfies(state.data, k, requirements[k])
  {
    UnmetEmptyIff(state, requirements);
    |Unmet(state, requirements)|
  }

  lemma UnmetEmptyIff(state: LocalState, requirements: map<string, Compare>)
    ensures Unmet(state, requirements) == {} <==> forall k :: k in requirements ==> Satisfies(state.data, k, requirements[k])
  {
    if !forall k :: k in requirements ==> Satisfies(state.data, k, requirements[k]) {
      var k :| k in requirements && !Satisfies(state.data, k, requirements[k]);
      assert k in Unmet(state, requirements);
    }
  }
}
