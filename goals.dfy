/**
  Goals: the requirements the final state must meet, and a priority for the
  caller that picks among several goals (crates/dogoap/src/goal.rs).
 */
module Goals {
  import opened Values

  /** The requirements are a `BTreeMap`: one comparison per fact name. */
  datatype Goal = Goal(requirements: map<string, Compare>, priority: nat)

  /** `Goal::new()`. */
  function New(): (g: Goal)
    ensures g.requirements == map[] && g.priority == 0
  {
    Goal(map[], 0)
  }

  /** `with_priority(p)`: only the priority changes. */
  function WithPriority(g: Goal, priority: nat): (r: Goal)
    ensures r.priority == priority && r.requirements == g.requirements
  {
    g.(priority := priority)
  }

  /** `with_req(key, compare)`: `key` now requires `compare`, replacing any earlier requirement on it. */
  function WithReq(g: Goal, key: string, compare: Compare): (r: Goal)
    ensures r.requirements.Keys == g.requirements.Keys + {key}
    ensures r.requirements[key] == compare
    ensures forall k :: k in g.requirements && k != key ==> r.requirements[k] == g.requirements[k]
    ensures r.priority == g.priority
  {
    g.(requirements := g.requirements[key := compare])
  }

  /** `list[i]` is the last pair in `list` with its fact name. */
  predicate IsLastFor(list: seq<(string, Compare)>, i: nat)
    requires i < |list|
  {
    forall j :: i < j < |list| ==> list[j].0 != list[i].0
  }

  /** The requirements `with_req` builds from `list`, pair by pair from the front. */
  function ReqsOf(list: seq<(string, Compare)>): map<string, Compare>
    decreases |list|
  {
    if list == [] then map[]
    else ReqsOf(list[..|list| - 1])[list[|list| - 1].0 := list[|list| - 1].1]
  }

  /** The keys of `ReqsOf(list)` are exactly the fact names listed. */
  lemma {:induction false} ReqsOfKeys(list: seq<(string, Compare)>)
    ensures ReqsOf(list).Keys == set i | 0 <= i < |list| :: list[i].0
    decreases |list|
  {
    if list != [] {
      var front := list[..|list| - 1];
      ReqsOfKeys(front);
      assert forall i :: 0 <= i < |front| ==> front[i] == list[i];
      assert (set i | 0 <= i < |list| :: list[i].0)
          == (set i | 0 <= i < |front| :: front[i].0) + {list[|list| - 1].0};
    }
  }

  /** In `ReqsOf(list)`, a fact name listed more than once keeps its last comparison. */
  lemma {:induction false} ReqsOfLastWins(list: seq<(string, Compare)>, i: nat)
    requires i < |list| && IsLastFor(list, i)
    ensures list[i].0 in ReqsOf(list) && ReqsOf(list)[list[i].0] == list[i].1
    decreases |list|
  {
    var n := |list| - 1;
    if i < n {
      var front := list[..n];
      assert front[i] == list[i];
      assert IsLastFor(front, i) by {
        forall j | i < j < |front| ensures front[j].0 != front[i].0 {
          assert front[j] == list[j];
        }
      }
      ReqsOfLastWins(front, i);
      assert list[n].0 != list[i].0;
    }
  }

  /**
    `from_reqs(list)`: starts from `Goal::new()` and applies `with_req` for
    each pair in order, so a fact name listed twice keeps its last comparison.
   */
  method FromReqs(list: seq<(string, Compare)>) returns (g: Goal)
    ensures g.priority == 0
    ensures g.requirements.Keys == set i | 0 <= i < |list| :: list[i].0
    ensures forall i :: 0 <= i < |list| && IsLastFor(list, i) ==> g.requirements[list[i].0] == list[i].1
  {
    g := New();
    for n := 0 to |list|
      invariant g.priority == 0
      invariant g.requirements == ReqsOf(list[..n])
    {
      assert list[..n + 1][..n] == list[..n];
      g := WithReq(g, list[n].0, list[n].1);
    }
    assert list[..|list|] == list;
    ReqsOfKeys(list);
    forall i | 0 <= i < |list| && IsLastFor(list, i) ensures g.requirements[list[i].0] == list[i].1 {
      ReqsOfLastWins(list, i);
    }
  }

  /** `goal.requirements[key]` passes on `data` (the key is present and the comparison holds). */
  predicate Passes(data: map<string, Datum>, requirements: map<string, Compare>, key: string)
    requires key in requirements
  {
    Satisfies(data, key, requirements[key])
  }

  /**
    The `all` walk over the requirements, in key order, stops at the first
    requirement that fails; it reaches and panics on a missing key exactly when
    every requirement before that key (in key order) passes.
   */
  predicate ReachesMissingKey(data: map<string, Datum>, requirements: map<string, Compare>)
  {
    exists k :: k in requirements && k !in data
      && forall k' :: k' in requirements && StrLess(k', k) ==> Passes(data, requirements, k')
  }

  /**
    `check_goal(state, goal)`: `true` iff every requirement passes (so also
    when there are none); the panic on a reached missing key is `Failure`.
   */
  function CheckGoal(state: LocalState, goal: Goal): (r: Result<bool, Fault>)
    ensures goal.requirements == map[] ==> r == Success(true)
    ensures r == Success(true) <==> forall k :: k in goal.requirements ==> Passes(state.data, goal.requirements, k)
    ensures (forall k :: k in goal.requirements ==> k in state.data) ==> r.Success?
  {
    if ReachesMissingKey(state.data, goal.requirements) then Failure(MissingKey)
    else Success(forall k :: k in goal.requirements ==> Passes(state.data, goal.requirements, k))
  }

  /** `key` is a requirement missing from `data`, and every present requirement before it passes. */
  predicate MissingBeforeAnyFailure(data: map<string, Datum>, requirements: map<string, Compare>, key: string)
  {
    && key in requirements
    && key !in data
    && forall k :: k in requirements && k in data && StrLess(k, key) ==> Passes(data, requirements, k)
  }

  /**
    `check_goal` panics exactly when some requirement key is missing from the
    state and every present requirement before it, in key order, passes; a
    present requirement that fails at a later key does not prevent the panic.
   */
  lemma CheckGoalPanicsOnMissingKey(state: LocalState, goal: Goal)
    ensures CheckGoal(state, goal) == Failure(MissingKey) <==> exists k :: MissingBeforeAnyFailure(state.data, goal.requirements, k)
  {
    if w :| MissingBeforeAnyFailure(state.data, goal.requirements, w) {
      var missing := set k | k in goal.requirements && k !in state.data;
      assert w in missing;
      var first := FirstKeyExists(missing);
      forall k' | k' in goal.requirements && StrLess(k', first) ensures Passes(state.data, goal.requirements, k') {
        assert k' !in missing;
        if first != w {
          assert !StrLess(w, first);
          StrLessTotal(first, w);
          StrLessTransitive(k', first, w);
        }
      }
      assert ReachesMissingKey(state.data, goal.requirements);
    } else if ReachesMissingKey(state.data, goal.requirements) {
      var k :| k in goal.requirements && k !in state.data
        && forall k' :: k' in goal.requirements && StrLess(k', k) ==> Passes(state.data, goal.requirements, k');
      assert MissingBeforeAnyFailure(state.data, goal.requirements, k);
    }
  }

  /** The walk reaches the missing key `"a"` before the failing `"b"`, so the check panics. */
  lemma MissingKeyBeforeFailingKeyPanics()
    ensures CheckGoal(LocalState(map["b" := Int(0)]),
                      Goal(map["a" := Equals(Int(1)), "b" := Equals(Int(1))], 0)) == Failure(MissingKey)
  {
    var state := LocalState(map["b" := Int(0)]);
    var goal := Goal(map["a" := Equals(Int(1)), "b" := Equals(Int(1))], 0);
    assert forall k :: k in goal.requirements && k in state.data ==> k == "b";
    assert !StrLess("b", "a");
    assert MissingBeforeAnyFailure(state.data, goal.requirements, "a");
    CheckGoalPanicsOnMissingKey(state, goal);
  }

  /** The priority plays no part in whether a goal is met. */
  lemma CheckGoalIgnoresPriority(state: LocalState, goal: Goal, priority: nat)
    ensures CheckGoal(state, WithPriority(goal, priority)) == CheckGoal(state, goal)
  {
  }

  /** Overwriting a requirement forgets the earlier comparison for that key. */
  lemma WithReqOverwrites(g: Goal, key: string, c1: Compare, c2: Compare)
    ensures WithReq(WithReq(g, key, c1), key, c2) == WithReq(g, key, c2)
  {
  }

  /** Requirements on different keys can be added in either order. */
  lemma WithReqCommutes(g: Goal, k1: string, c1: Compare, k2: string, c2: Compare)
    requires k1 != k2
    ensures WithReq(WithReq(g, k1, c1), k2, c2) == WithReq(WithReq(g, k2, c2), k1, c1)
  {
  }

  /**
    With every requirement key present, the goal with `key` required to pass
    `compare` holds iff `compare` holds of the fact and every other
    requirement of the old goal holds.
   */
  lemma CheckGoalWithReq(state: LocalState, g: Goal, key: string, compare: Compare)
    requires forall k :: k in g.requirements ==> k in state.data
    requires key in state.data
    ensures CheckGoal(state, WithReq(g, key, compare)) == Success(
      CompareValues(compare, state.data[key])
      && forall k :: k in g.requirements && k != key ==> Passes(state.data, g.requirements, k))
  {
    var r := WithReq(g, key, compare);
    assert forall k :: k in r.requirements ==> k in state.data;
    if forall k :: k in r.requirements ==> Passes(state.data, r.requirements, k) {
      assert Passes(state.data, r.requirements, key);
      assert forall k :: k in g.requirements && k != key ==> Passes(state.data, g.requirements, k) by {
        forall k | k in g.requirements && k != key ensures Passes(state.data, g.requirements, k) {
          assert Passes(state.data, r.requirements, k);
        }
      }
    } else {
      var k :| k in r.requirements && !Passes(state.data, r.requirements, k);
      if k != key {
        assert !Passes(state.data, g.requirements, k);
      }
    }
  }
}
