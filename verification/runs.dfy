/** Runs of a system of threads: sequences of steps, each taken by one thread from the state that the
    others have left. A step is a function of the state and of what is chosen by the scheduler and the
    environment; it gives no state when the thread it names cannot move. */
module Runs {
  import opened Types

  /** `actions`, one after the other, lead from `s` to `end`. */
  ghost predicate Run<S, A>(step: (S, A) -> Option<S>, s: S, actions: seq<A>, end: S)
    decreases |actions|
  {
    if actions == [] then s == end
    else step(s, actions[0]).Some? && Run(step, step(s, actions[0]).value, actions[1..], end)
  }

  /** (The initial state is bound by a quantifier so that assuming this does not unfold the run.) */
  ghost predicate LeadTo<S(!new), A>(step: (S, A) -> Option<S>, init: S, actions: seq<A>, s: S) {
    forall start :: start == init ==> Run(step, start, actions, s)
  }

  ghost predicate Reachable<S(!new), A(!new)>(step: (S, A) -> Option<S>, init: S, s: S) {
    exists actions :: LeadTo(step, init, actions, s)
  }

  lemma InitIsReachable<S(!new), A(!new)>(step: (S, A) -> Option<S>, init: S)
    ensures Reachable(step, init, init)
  {
    assert LeadTo(step, init, [], init);
  }

  lemma {:induction false} RunConcat<S, A>(
      step: (S, A) -> Option<S>, s: S, first: seq<A>, mid: S, second: seq<A>, end: S)
    requires Run(step, s, first, mid) && Run(step, mid, second, end)
    ensures Run(step, s, first + second, end)
    decreases |first|
  {
    if first == [] {
      assert first + second == second;
    } else {
      assert (first + second)[1..] == first[1..] + second;
      RunConcat(step, step(s, first[0]).value, first[1..], mid, second, end);
    }
  }

  lemma RunOneMore<S, A>(step: (S, A) -> Option<S>, s: S, a: A, actions: seq<A>, end: S)
    requires step(s, a).Some? && Run(step, step(s, a).value, actions, end)
    ensures Run(step, s, [a] + actions, end)
  {
    assert ([a] + actions)[1..] == actions;
  }

  lemma RunFromInit<S(!new), A(!new)>(step: (S, A) -> Option<S>, init: S, s: S) returns (actions: seq<A>)
    requires Reachable(step, init, s)
    ensures Run(step, init, actions, s)
  {
    actions :| LeadTo(step, init, actions, s);
  }

  lemma ReachableByRun<S(!new), A(!new)>(step: (S, A) -> Option<S>, init: S, s: S, actions: seq<A>, end: S)
    requires Reachable(step, init, s) && Run(step, s, actions, end)
    ensures Reachable(step, init, end)
  {
    var before := RunFromInit(step, init, s);
    RunConcat(step, init, before, s, actions, end);
    assert LeadTo(step, init, before + actions, end);
  }

  lemma ReachableByStep<S(!new), A(!new)>(step: (S, A) -> Option<S>, init: S, s: S, a: A)
    requires Reachable(step, init, s) && step(s, a).Some?
    ensures Reachable(step, init, step(s, a).value)
  {
    var next := step(s, a).value;
    assert Run(step, next, [], next);
    RunOneMore(step, s, a, [], next);
    assert [a] + [] == [a];
    ReachableByRun(step, init, s, [a], next);
  }
}
