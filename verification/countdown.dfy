/** K threads count a shared limit down and write one character each time: with the mutex
    (Exercises/prob07/p2.c) and without it (Exercises/prob06/p02.c). Every access to shared state is
    one step, the decrement `limit--` as a whole included: were its load and its store two steps, the
    unlocked threads could lose decrements and overshoot further. Without the mutex, its lock and unlock
    do nothing. */
module Countdown {
  import opened Types
  import opened Counting
  import Runs

  datatype Config = Config(locked: bool, limit: nat, threads: nat)

  datatype Pc = Acquire | Test | Decrement | Release | ReleaseLast | Write | CountUp | Returned

  datatype Thread = Thread(pc: Pc, written: nat)

  /** `output` is what has been written to the terminal: each thread writes its own character, given here
      by the thread's index. */
  datatype State = State(limit: int, mutex: Option<nat>, threads: seq<Thread>, output: seq<nat>)

  function Init(cfg: Config): State {
    State(cfg.limit, None, seq(cfg.threads, _ => Thread(Acquire, 0)), [])
  }

  predicate Enabled(cfg: Config, s: State, i: nat) {
    && i < |s.threads|
    && !s.threads[i].pc.Returned?
    && (s.threads[i].pc.Acquire? && cfg.locked ==> s.mutex.None?)
  }

  function NextPc(s: State, pc: Pc): Pc {
    match pc
    case Acquire => Test
    case Test => if s.limit <= 0 then ReleaseLast else Decrement
    case Decrement => Release
    case Release => Write
    case Write => CountUp
    case CountUp => Acquire
    case ReleaseLast => Returned
    case Returned => Returned
  }

  function NextThread(s: State, t: Thread): Thread {
    Thread(NextPc(s, t.pc), if t.pc.CountUp? then t.written + 1 else t.written)
  }

  /** One step of thread `i` of `thrfunc`. */
  function Next(cfg: Config, s: State, i: nat): State
    requires Enabled(cfg, s, i)
  {
    var pc := s.threads[i].pc;
    State(
      if pc.Decrement? then s.limit - 1 else s.limit,
      if !cfg.locked then s.mutex
      else if pc.Acquire? then Some(i)
      else if pc.Release? || pc.ReleaseLast? then None
      else s.mutex,
      s.threads[i := NextThread(s, s.threads[i])],
      if pc.Write? then s.output + [i] else s.output)
  }

  function Steps(cfg: Config): (State, nat) -> Option<State> {
    (s: State, i: nat) => if Enabled(cfg, s, i) then Some(Next(cfg, s, i)) else None
  }

  /** The threads in `schedule`, one step each, lead from `s` to `end`. */
  ghost predicate Run(cfg: Config, s: State, schedule: seq<nat>, end: State) {
    Runs.Run(Steps(cfg), s, schedule, end)
  }

  ghost predicate Reachable(cfg: Config, s: State) {
    Runs.Reachable(Steps(cfg), Init(cfg), s)
  }

  ghost predicate AllReturned(s: State) {
    forall i :: 0 <= i < |s.threads| ==> s.threads[i].pc.Returned?
  }

  // ----- invariant -----

  predicate InCritical(pc: Pc) {
    pc.Test? || pc.Decrement? || pc.Release? || pc.ReleaseLast?
  }

  function AtDecrement(t: Thread): nat {
    if t.pc.Decrement? then 1 else 0
  }

  function Unwritten(t: Thread): nat {
    if t.pc.Release? || t.pc.Write? then 1 else 0
  }

  function Written(t: Thread): nat {
    t.written
  }

  function Uncounted(t: Thread): nat {
    if t.pc.Release? || t.pc.Write? || t.pc.CountUp? then 1 else 0
  }

  ghost predicate LockInv(s: State) {
    && s.limit >= 0
    && forall i :: 0 <= i < |s.threads| ==>
      && (InCritical(s.threads[i].pc) <==> s.mutex == Some(i))
      && (s.threads[i].pc.Decrement? ==> s.limit > 0)
  }

  ghost predicate CountInv(cfg: Config, s: State) {
    && |s.output| + Sum(s.threads, Unwritten) == cfg.limit - s.limit
    && Sum(s.threads, Written) + Sum(s.threads, Uncounted) == cfg.limit - s.limit
  }

  /** Each thread has counted the characters that it wrote itself, but for the last one if it is between
      writing and counting. */
  ghost predicate OwnInv(s: State) {
    forall i :: 0 <= i < |s.threads| ==>
      multiset(s.output)[i] == s.threads[i].written + if s.threads[i].pc.CountUp? then 1 else 0
  }

  ghost predicate OvershootInv(cfg: Config, s: State) {
    && (cfg.threads > 0 ==> s.limit - Sum(s.threads, AtDecrement) >= 1 - cfg.threads)
    && forall i :: 0 <= i < |s.threads| ==>
         (s.threads[i].pc.ReleaseLast? || s.threads[i].pc.Returned? ==> s.limit <= 0)
  }

  ghost predicate Inv(cfg: Config, s: State) {
    && |s.threads| == cfg.threads
    && (s.mutex.Some? ==> s.mutex.value < |s.threads|)
    && (cfg.locked ==> LockInv(s))
    && CountInv(cfg, s)
    && OwnInv(s)
    && OvershootInv(cfg, s)
  }

  lemma InitHasInv(cfg: Config)
    ensures Inv(cfg, Init(cfg))
  {
    var ts := Init(cfg).threads;
    SumOfZeros(ts, Unwritten);
    SumOfZeros(ts, Written);
    SumOfZeros(ts, Uncounted);
    SumOfZeros(ts, AtDecrement);
  }

  lemma StepKeepsLock(cfg: Config, s: State, i: nat)
    requires cfg.locked && LockInv(s) && Enabled(cfg, s, i)
    ensures LockInv(Next(cfg, s, i))
  {
  }

  lemma StepKeepsCounts(cfg: Config, s: State, i: nat)
    requires CountInv(cfg, s) && Enabled(cfg, s, i)
    ensures CountInv(cfg, Next(cfg, s, i))
  {
    var t := NextThread(s, s.threads[i]);
    SumOfUpdate(s.threads, i, t, Unwritten);
    SumOfUpdate(s.threads, i, t, Written);
    SumOfUpdate(s.threads, i, t, Uncounted);
  }

  lemma StepKeepsOwn(cfg: Config, s: State, i: nat)
    requires OwnInv(s) && Enabled(cfg, s, i)
    ensures OwnInv(Next(cfg, s, i))
  {
    assert multiset(s.output + [i]) == multiset(s.output) + multiset{i};
  }

  lemma StepKeepsOvershoot(cfg: Config, s: State, i: nat)
    requires |s.threads| == cfg.threads && OvershootInv(cfg, s) && Enabled(cfg, s, i)
    ensures OvershootInv(cfg, Next(cfg, s, i))
  {
    SumOfUpdate(s.threads, i, NextThread(s, s.threads[i]), AtDecrement);
    SumOfOnes(Next(cfg, s, i).threads, AtDecrement);
  }

  lemma StepKeepsInv(cfg: Config, s: State, i: nat)
    requires Inv(cfg, s) && Enabled(cfg, s, i)
    ensures Inv(cfg, Next(cfg, s, i))
  {
    if cfg.locked {
      StepKeepsLock(cfg, s, i);
    }
    StepKeepsCounts(cfg, s, i);
    StepKeepsOwn(cfg, s, i);
    StepKeepsOvershoot(cfg, s, i);
  }

  lemma {:induction false} RunKeepsInv(cfg: Config, s: State, schedule: seq<nat>, end: State)
    requires Inv(cfg, s) && Run(cfg, s, schedule, end)
    ensures Inv(cfg, end)
    decreases |schedule|
  {
    if schedule != [] {
      StepKeepsInv(cfg, s, schedule[0]);
      RunKeepsInv(cfg, Next(cfg, s, schedule[0]), schedule[1..], end);
    }
  }

  lemma ReachableHasInv(cfg: Config, s: State)
    requires Reachable(cfg, s)
    ensures Inv(cfg, s)
  {
    var schedule := Runs.RunFromInit(Steps(cfg), Init(cfg), s);
    InitHasInv(cfg);
    RunKeepsInv(cfg, Init(cfg), schedule, s);
  }

  // ----- totals -----

  lemma TotalsAtTheEnd(cfg: Config, s: State)
    requires Inv(cfg, s) && AllReturned(s) && cfg.threads > 0
    ensures Sum(s.threads, Written) == |s.output| == cfg.limit - s.limit && 1 - cfg.threads <= s.limit <= 0
  {
    SumOfZeros(s.threads, Unwritten);
    SumOfZeros(s.threads, Uncounted);
    SumOfZeros(s.threads, AtDecrement);
    assert s.threads[0].pc.Returned?;
  }

  /** With the mutex, the threads write exactly `limit` characters, in every interleaving. */
  lemma LockedTotalIsExact(cfg: Config, s: State)
    requires cfg.locked && cfg.threads > 0 && Reachable(cfg, s) && AllReturned(s)
    ensures Sum(s.threads, Written) == |s.output| == cfg.limit
  {
    ReachableHasInv(cfg, s);
    TotalsAtTheEnd(cfg, s);
  }

  /** Without it, they write at least `limit` and overshoot by less than the number of threads. */
  lemma UnlockedTotalIsBounded(cfg: Config, s: State)
    requires !cfg.locked && cfg.threads > 0 && Reachable(cfg, s) && AllReturned(s)
    ensures cfg.limit <= Sum(s.threads, Written) == |s.output| <= cfg.limit + cfg.threads - 1
  {
    ReachableHasInv(cfg, s);
    TotalsAtTheEnd(cfg, s);
  }

  /** The count that a thread returns is the number of characters that it wrote itself. */
  lemma EachThreadReportsItsOwn(cfg: Config, s: State, i: nat)
    requires Reachable(cfg, s) && i < |s.threads| && s.threads[i].pc.Returned?
    ensures s.threads[i].written == multiset(s.output)[i]
  {
    ReachableHasInv(cfg, s);
  }

  // ----- termination -----

  function StepsLeft(t: Thread): nat {
    match t.pc
    case Returned => 0
    case ReleaseLast => 1
    case Test => 2
    case Acquire => 3
    case CountUp => 4
    case Write => 5
    case Release => 6
    case Decrement => 7
  }

  /** Every successful test uses up one of the decrements that are left. */
  function Measure(cfg: Config, s: State): int {
    6 * (s.limit + cfg.threads - Sum(s.threads, AtDecrement)) + Sum(s.threads, StepsLeft)
  }

  lemma MeasureIsNatural(cfg: Config, s: State)
    requires Inv(cfg, s)
    ensures 0 <= Measure(cfg, s)
  {
  }

  lemma StepDecreasesMeasure(cfg: Config, s: State, i: nat)
    requires Enabled(cfg, s, i)
    ensures Measure(cfg, Next(cfg, s, i)) < Measure(cfg, s)
  {
    var t := NextThread(s, s.threads[i]);
    SumOfUpdate(s.threads, i, t, AtDecrement);
    SumOfUpdate(s.threads, i, t, StepsLeft);
  }

  lemma SomeoneCanMove(cfg: Config, s: State)
    requires Inv(cfg, s) && !AllReturned(s)
    ensures exists i: nat :: Enabled(cfg, s, i)
  {
    var i: nat :| i < |s.threads| && !s.threads[i].pc.Returned?;
    if !Enabled(cfg, s, i) {
      assert Enabled(cfg, s, s.mutex.value);
    }
  }

  lemma {:induction false} RunsAreShort(cfg: Config, s: State, schedule: seq<nat>, end: State)
    requires Inv(cfg, s) && Run(cfg, s, schedule, end)
    ensures |schedule| + Measure(cfg, end) <= Measure(cfg, s)
    decreases |schedule|
  {
    if schedule != [] {
      StepDecreasesMeasure(cfg, s, schedule[0]);
      StepKeepsInv(cfg, s, schedule[0]);
      RunsAreShort(cfg, Next(cfg, s, schedule[0]), schedule[1..], end);
    }
  }

  /** With or without the mutex, every run is finite, and it can only end when all threads have
      returned: no `pthread_join` waits for ever. */
  lemma EveryJoinReturns(cfg: Config, s: State, schedule: seq<nat>, end: State)
    requires Reachable(cfg, s) && Run(cfg, s, schedule, end)
    ensures |schedule| <= Measure(cfg, s) - Measure(cfg, end) <= Measure(cfg, s)
    ensures (forall i: nat :: !Enabled(cfg, end, i)) <==> AllReturned(end)
  {
    ReachableHasInv(cfg, s);
    RunsAreShort(cfg, s, schedule, end);
    RunKeepsInv(cfg, s, schedule, end);
    MeasureIsNatural(cfg, end);
    if !AllReturned(end) {
      SomeoneCanMove(cfg, end);
    }
  }

  /** One way to run the threads until they return. */
  lemma {:induction false} RunToTheEnd(cfg: Config, s: State) returns (schedule: seq<nat>, end: State)
    requires Inv(cfg, s)
    ensures Run(cfg, s, schedule, end) && AllReturned(end)
    decreases Measure(cfg, s)
  {
    if AllReturned(s) {
      schedule, end := [], s;
    } else {
      SomeoneCanMove(cfg, s);
      var i: nat :| Enabled(cfg, s, i);
      StepDecreasesMeasure(cfg, s, i);
      MeasureIsNatural(cfg, s);
      StepKeepsInv(cfg, s, i);
      MeasureIsNatural(cfg, Next(cfg, s, i));
      var rest;
      rest, end := RunToTheEnd(cfg, Next(cfg, s, i));
      schedule := [i] + rest;
      Runs.RunOneMore(Steps(cfg), s, i, rest, end);
    }
  }

  // ----- every overshoot happens -----

  /** The first `done` threads have decremented, the next ones up to `racing` are about to, and the
      others have not started their round. */
  ghost predicate Lined(cfg: Config, s: State, done: nat, racing: nat) {
    && |s.threads| == cfg.threads
    && forall i :: 0 <= i < cfg.threads ==>
         s.threads[i].pc == if i < done then Release else if i < racing then Decrement else Acquire
  }

  /** Thread 0 alone counts down to `limit`. */
  lemma {:induction false} OneThreadCountsDown(cfg: Config, limit: nat) returns (s: State)
    requires !cfg.locked && cfg.threads > 0 && limit <= cfg.limit
    ensures Reachable(cfg, s) && Lined(cfg, s, 0, 0) && s.limit == limit
    decreases cfg.limit - limit
  {
    if limit == cfg.limit {
      s := Init(cfg);
      Runs.InitIsReachable(Steps(cfg), s);
    } else {
      s := OneThreadCountsDown(cfg, limit + 1);
      s := Twice(cfg, s, 0);
      s := Twice(cfg, s, 0);
      s := Twice(cfg, s, 0);
    }
  }

  /** Two steps of thread `i`, without the mutex. */
  lemma Twice(cfg: Config, s: State, i: nat) returns (end: State)
    requires !cfg.locked && Reachable(cfg, s) && i < |s.threads|
    requires !s.threads[i].pc.Returned? && !s.threads[i].pc.ReleaseLast?
    ensures var mid := Next(cfg, s, i); Enabled(cfg, mid, i) && end == Next(cfg, mid, i)
    ensures Reachable(cfg, end)
  {
    Runs.ReachableByStep(Steps(cfg), Init(cfg), s, i);
    Runs.ReachableByStep(Steps(cfg), Init(cfg), Next(cfg, s, i), i);
    end := Next(cfg, Next(cfg, s, i), i);
  }

  /** `racing` threads pass the test while the limit is 1. */
  lemma {:induction false} ThreadsLineUp(cfg: Config, racing: nat) returns (s: State)
    requires !cfg.locked && cfg.limit > 0 && 0 < cfg.threads && racing <= cfg.threads
    ensures Reachable(cfg, s) && Lined(cfg, s, 0, racing) && s.limit == 1
  {
    if racing == 0 {
      s := OneThreadCountsDown(cfg, 1);
    } else {
      s := ThreadsLineUp(cfg, racing - 1);
      s := Twice(cfg, s, racing - 1);
    }
  }

  /** Then `done` of them decrement. */
  lemma {:induction false} ThreadsOvershoot(cfg: Config, done: nat, racing: nat) returns (s: State)
    requires !cfg.locked && cfg.limit > 0 && 0 < cfg.threads && done <= racing <= cfg.threads
    ensures Reachable(cfg, s) && Lined(cfg, s, done, racing) && s.limit == 1 - done
    decreases done
  {
    if done == 0 {
      s := ThreadsLineUp(cfg, racing);
    } else {
      s := ThreadsOvershoot(cfg, done - 1, racing);
      var i: nat := done - 1;
      Runs.ReachableByStep(Steps(cfg), Init(cfg), s, i);
      s := Next(cfg, s, i);
    }
  }

  lemma {:induction false} LimitStaysDown(cfg: Config, s: State, schedule: seq<nat>, end: State)
    requires Run(cfg, s, schedule, end) && s.limit <= 0
    requires forall i :: 0 <= i < |s.threads| ==> !s.threads[i].pc.Decrement?
    ensures end.limit == s.limit
    decreases |schedule|
  {
    if schedule != [] {
      LimitStaysDown(cfg, Next(cfg, s, schedule[0]), schedule[1..], end);
    }
  }

  /** The bound of the unlocked countdown cannot be improved: every total from `limit` to
      `limit + threads - 1` comes out of some run. */
  lemma EveryOvershootHappens(cfg: Config, extra: nat) returns (end: State)
    requires !cfg.locked && cfg.limit > 0 && extra < cfg.threads
    ensures Reachable(cfg, end) && AllReturned(end)
    ensures Sum(end.threads, Written) == |end.output| == cfg.limit + extra
  {
    var s := ThreadsOvershoot(cfg, extra + 1, extra + 1);
    ReachableHasInv(cfg, s);
    var schedule;
    schedule, end := RunToTheEnd(cfg, s);
    LimitStaysDown(cfg, s, schedule, end);
    RunKeepsInv(cfg, s, schedule, end);
    TotalsAtTheEnd(cfg, end);
    Runs.ReachableByRun(Steps(cfg), Init(cfg), s, schedule, end);
  }

  // ----- the pool with its shared variables -----

  class Pool {
    const cfg: Config
    const threads: array<Thread>
    var limit: int
    var mutex: Option<nat>
    /** What has been written so far. */
    var output: seq<nat>

    ghost function Abs(): State
      reads this, threads
    {
      State(limit, mutex, threads[..], output)
    }

    ghost predicate Valid()
      reads this, threads
    {
      Reachable(cfg, Abs())
    }

    constructor (cfg: Config)
      ensures Valid() && this.cfg == cfg && Abs() == Init(cfg) && fresh(threads)
    {
      this.cfg := cfg;
      threads := new Thread[cfg.threads](_ => Thread(Acquire, 0));
      limit, mutex, output := cfg.limit, None, [];
      new;
      assert threads[..] == Init(cfg).threads;
      Runs.InitIsReachable(Steps(cfg), Init(cfg));
    }

    /** The next statement of thread `i` of `thrfunc`. */
    method Step(i: nat)
      requires Valid() && Enabled(cfg, Abs(), i)
      modifies this, threads
      ensures Valid() && Abs() == Next(cfg, old(Abs()), i)
    {
      ghost var s := Abs();
      var t := threads[i];
      match t.pc {
        case Acquire =>
          if cfg.locked {
            mutex := Some(i);
          }
          threads[i] := t.(pc := Test);
        case Test =>
          threads[i] := t.(pc := if limit <= 0 then ReleaseLast else Decrement);
        case Decrement =>
          limit := limit - 1;
          threads[i] := t.(pc := Release);
        case Release =>
          if cfg.locked {
            mutex := None;
          }
          threads[i] := t.(pc := Write);
        case Write =>
          output := output + [i];
          threads[i] := t.(pc := CountUp);
        case CountUp =>
          threads[i] := Thread(Acquire, t.written + 1);
        case ReleaseLast =>
          if cfg.locked {
            mutex := None;
          }
          threads[i] := t.(pc := Returned);
        case Returned =>
      }
      assert Abs() == Next(cfg, s, i);
      Runs.ReachableByStep(Steps(cfg), Init(cfg), s, i);
    }
  }
}
