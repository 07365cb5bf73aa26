/** K threads fill a shared buffer with 0, 1, 2, ...: with the mutex (Exercises/prob07/p1a.c) and
    without it (Exercises/prob07/p1b.c). Every access to shared state is one step, and so is each of
    `pos++` and `val++` (load and store together) and of `buf[pos] = val` (its two loads and its store);
    the totals of the unlocked threads depend on it. Without the mutex, its lock and unlock do
    nothing. */
module Fill {
  import opened Types
  import opened Counting
  import Runs

  /** `npos` positions to fill, in a buffer of `size` cells. */
  datatype Config = Config(locked: bool, npos: int, size: nat, threads: nat)

  datatype Pc = Acquire | Test | Store | StepPos | StepVal | Release | ReleaseLast | CountUp | Returned

  datatype Thread = Thread(pc: Pc, count: nat)

  /** A store past the end of the buffer shows as a cell with an index of `size` or more. */
  datatype State = State(buf: map<int, int>, pos: int, val: int, mutex: Option<nat>, threads: seq<Thread>)

  function Cells(buf: seq<int>): map<int, int> {
    map k | 0 <= k < |buf| :: buf[k]
  }

  function Init(cfg: Config): State {
    State(Cells(seq(cfg.size, _ => 0)), 0, 0, None, seq(cfg.threads, _ => Thread(Acquire, 0)))
  }

  predicate Enabled(cfg: Config, s: State, i: nat) {
    && i < |s.threads|
    && !s.threads[i].pc.Returned?
    && (s.threads[i].pc.Acquire? && cfg.locked ==> s.mutex.None?)
  }

  function NextPc(cfg: Config, s: State, pc: Pc): Pc {
    match pc
    case Acquire => Test
    case Test => if s.pos >= cfg.npos then ReleaseLast else Store
    case Store => StepPos
    case StepPos => StepVal
    case StepVal => Release
    case Release => CountUp
    case CountUp => Acquire
    case ReleaseLast => Returned
    case Returned => Returned
  }

  function NextThread(cfg: Config, s: State, t: Thread): Thread {
    Thread(NextPc(cfg, s, t.pc), if t.pc.CountUp? then t.count + 1 else t.count)
  }

  /** One step of thread `i` of `fill`. */
  function Next(cfg: Config, s: State, i: nat): State
    requires Enabled(cfg, s, i)
  {
    var pc := s.threads[i].pc;
    State(
      if pc.Store? then s.buf[s.pos := s.val] else s.buf,
      if pc.StepPos? then s.pos + 1 else s.pos,
      if pc.StepVal? then s.val + 1 else s.val,
      if !cfg.locked then s.mutex
      else if pc.Acquire? then Some(i)
      else if pc.Release? || pc.ReleaseLast? then None
      else s.mutex,
      s.threads[i := NextThread(cfg, s, s.threads[i])])
  }

  function Steps(cfg: Config): (State, nat) -> Option<State> {
    (s: State, i: nat) => if Enabled(cfg, s, i) then Some(Next(cfg, s, i)) else None
  }

  /** The threads in `schedule`, one step each, lead from `s` to `end`. */
  ghost predicate Run(cfg: Config, s: State, schedule: seq<nat>, end: State) {
    Runs.Run(Steps(cfg), s, schedule, end)
  }

  ghost predicate Reachable(cfg: Config, s: State) {
    Runs.Reachable(Steps(cfg), Init(cfg), s)
  }

  ghost predicate AllReturned(s: State) {
    forall i :: 0 <= i < |s.threads| ==> s.threads[i].pc.Returned?
  }

  /** What `verify` looks for. */
  ghost predicate Clean(cfg: Config, s: State) {
    forall k :: 0 <= k < cfg.npos ==> k in s.buf && s.buf[k] == k
  }

  // ----- invariant -----

  predicate InCritical(pc: Pc) {
    !pc.Acquire? && !pc.CountUp? && !pc.Returned?
  }

  /** Has passed the test and not moved `pos` yet. */
  function Filling(t: Thread): nat {
    if t.pc.Store? || t.pc.StepPos? then 1 else 0
  }

  function AtStepVal(t: Thread): nat {
    if t.pc.StepVal? then 1 else 0
  }

  function Counted(t: Thread): nat {
    t.count
  }

  /** Has moved `pos` and not counted it yet. */
  function Owed(t: Thread): nat {
    if t.pc.StepVal? || t.pc.Release? || t.pc.CountUp? then 1 else 0
  }

  function Max(a: int, b: int): int {
    if a < b then b else a
  }

  ghost predicate LockInv(s: State) {
    forall i :: 0 <= i < |s.threads| ==> (InCritical(s.threads[i].pc) <==> s.mutex == Some(i))
  }

  ghost predicate CountInv(s: State) {
    && 0 <= s.pos && 0 <= s.val
    && s.val + Sum(s.threads, AtStepVal) == s.pos
    && Sum(s.threads, Counted) + Sum(s.threads, Owed) == s.pos
  }

  ghost predicate OvershootInv(cfg: Config, s: State) {
    && (cfg.threads > 0 ==> s.pos + Sum(s.threads, Filling) <= Max(cfg.npos, 0) + cfg.threads - 1)
    && (cfg.npos <= 0 ==> s.pos == 0 && forall i :: 0 <= i < |s.threads| ==> Filling(s.threads[i]) == 0)
    && forall i :: 0 <= i < |s.threads| ==>
         (s.threads[i].pc.ReleaseLast? || s.threads[i].pc.Returned? ==> s.pos >= cfg.npos)
  }

  ghost predicate Inv(cfg: Config, s: State) {
    && |s.threads| == cfg.threads
    && (s.mutex.Some? ==> s.mutex.value < |s.threads|)
    && (cfg.locked ==> LockInv(s))
    && CountInv(s)
    && OvershootInv(cfg, s)
  }

  lemma InitHasInv(cfg: Config)
    ensures Inv(cfg, Init(cfg))
  {
    var ts := Init(cfg).threads;
    SumOfZeros(ts, Filling);
    SumOfZeros(ts, AtStepVal);
    SumOfZeros(ts, Counted);
    SumOfZeros(ts, Owed);
  }

  lemma StepKeepsCounts(cfg: Config, s: State, i: nat)
    requires CountInv(s) && Enabled(cfg, s, i)
    ensures CountInv(Next(cfg, s, i))
  {
    var t := NextThread(cfg, s, s.threads[i]);
    SumOfUpdate(s.threads, i, t, AtStepVal);
    SumOfUpdate(s.threads, i, t, Counted);
    SumOfUpdate(s.threads, i, t, Owed);
  }

  lemma StepKeepsOvershoot(cfg: Config, s: State, i: nat)
    requires |s.threads| == cfg.threads && s.pos >= 0 && OvershootInv(cfg, s) && Enabled(cfg, s, i)
    ensures OvershootInv(cfg, Next(cfg, s, i))
  {
    SumOfUpdate(s.threads, i, NextThread(cfg, s, s.threads[i]), Filling);
    SumOfOnes(Next(cfg, s, i).threads, Filling);
  }

  lemma StepKeepsInv(cfg: Config, s: State, i: nat)
    requires Inv(cfg, s) && Enabled(cfg, s, i)
    ensures Inv(cfg, Next(cfg, s, i))
  {
    StepKeepsCounts(cfg, s, i);
    StepKeepsOvershoot(cfg, s, i);
  }

  // ----- when the buffer comes out right -----

  /** The mutex is there, or there is nobody to share with. */
  predicate Exclusive(cfg: Config) {
    cfg.locked || cfg.threads <= 1
  }

  /** How far the one thread inside has got. */
  ghost predicate ExclusiveInv(cfg: Config, s: State) {
    && (forall i, j :: 0 <= i < |s.threads| && 0 <= j < |s.threads| && i != j ==>
          !(InCritical(s.threads[i].pc) && InCritical(s.threads[j].pc)))
    && (forall i :: 0 <= i < |s.threads| && (s.threads[i].pc.Store? || s.threads[i].pc.StepPos?) ==>
          s.pos < cfg.npos && (s.threads[i].pc.StepPos? ==> s.pos in s.buf && s.buf[s.pos] == s.pos))
    && s.pos <= Max(cfg.npos, 0)
    && (forall k :: 0 <= k < s.pos ==> k in s.buf && s.buf[k] == k)
  }

  lemma StepKeepsExclusive(cfg: Config, s: State, i: nat)
    requires Inv(cfg, s) && Exclusive(cfg) && ExclusiveInv(cfg, s) && Enabled(cfg, s, i)
    ensures ExclusiveInv(cfg, Next(cfg, s, i))
  {
    if s.threads[i].pc.Store? {
      SumOfZeros(s.threads, AtStepVal);
    }
  }

  /** Without the mutex, only the first cell is safe: `val` never runs ahead of `pos`. */
  ghost predicate FirstCellInv(s: State) {
    && (s.pos > 0 ==> 0 in s.buf && s.buf[0] == 0)
    && forall i :: 0 <= i < |s.threads| && s.threads[i].pc.StepPos? && s.pos == 0 ==> 0 in s.buf && s.buf[0] == 0
  }

  lemma StepKeepsFirstCell(cfg: Config, s: State, i: nat)
    requires Inv(cfg, s) && FirstCellInv(s) && Enabled(cfg, s, i)
    ensures FirstCellInv(Next(cfg, s, i))
  {
  }

  // ----- runs -----

  lemma {:induction false} RunKeepsInv(cfg: Config, s: State, schedule: seq<nat>, end: State)
    requires Inv(cfg, s) && FirstCellInv(s) && (Exclusive(cfg) ==> ExclusiveInv(cfg, s))
    requires Run(cfg, s, schedule, end)
    ensures Inv(cfg, end) && FirstCellInv(end) && (Exclusive(cfg) ==> ExclusiveInv(cfg, end))
    decreases |schedule|
  {
    if schedule != [] {
      var next := Next(cfg, s, schedule[0]);
      StepKeepsInv(cfg, s, schedule[0]);
      StepKeepsFirstCell(cfg, s, schedule[0]);
      if Exclusive(cfg) {
        StepKeepsExclusive(cfg, s, schedule[0]);
      }
      RunKeepsInv(cfg, next, schedule[1..], end);
    }
  }

  lemma ReachableHasInv(cfg: Config, s: State)
    requires Reachable(cfg, s)
    ensures Inv(cfg, s) && FirstCellInv(s) && (Exclusive(cfg) ==> ExclusiveInv(cfg, s))
  {
    var schedule := Runs.RunFromInit(Steps(cfg), Init(cfg), s);
    InitHasInv(cfg);
    RunKeepsInv(cfg, Init(cfg), schedule, s);
  }

  /** Whenever the mutex is free, the filled part is right and every position filled is counted or
      about to be. */
  lemma FilledPartIsRight(cfg: Config, s: State)
    requires cfg.locked && Reachable(cfg, s) && s.mutex.None?
    ensures s.pos == s.val <= Max(cfg.npos, 0)
    ensures forall k :: 0 <= k < s.pos ==> k in s.buf && s.buf[k] == k
    ensures Sum(s.threads, Counted) + Sum(s.threads, Owed) == s.pos
  {
    ReachableHasInv(cfg, s);
    SumOfZeros(s.threads, AtStepVal);
  }

  lemma TotalAtTheEnd(cfg: Config, s: State)
    requires Reachable(cfg, s) && AllReturned(s) && cfg.threads > 0
    ensures Sum(s.threads, Counted) == s.pos >= cfg.npos
    ensures s.pos <= Max(cfg.npos, 0) + cfg.threads - 1
    ensures Exclusive(cfg) ==> s.pos == Max(cfg.npos, 0)
  {
    ReachableHasInv(cfg, s);
    SumOfZeros(s.threads, Owed);
    SumOfZeros(s.threads, Filling);
    assert s.threads[0].pc.Returned?;
  }

  /** With the mutex, after all joins the counts add up to `npos` and `verify` finds nothing, in every
      interleaving. */
  lemma LockedFillIsExact(cfg: Config, s: State)
    requires cfg.locked && cfg.threads > 0 && Reachable(cfg, s) && AllReturned(s)
    ensures Sum(s.threads, Counted) == Max(cfg.npos, 0) && Clean(cfg, s)
  {
    TotalAtTheEnd(cfg, s);
    ReachableHasInv(cfg, s);
  }

  /** Without it, the counts overshoot by less than the number of threads, and so do the stores. */
  lemma UnlockedFillIsBounded(cfg: Config, s: State)
    requires !cfg.locked && cfg.threads > 0 && Reachable(cfg, s)
    ensures AllReturned(s) ==> cfg.npos <= Sum(s.threads, Counted) == s.pos <= Max(cfg.npos, 0) + cfg.threads - 1
    ensures forall i :: 0 <= i < |s.threads| && s.threads[i].pc.Store? ==> 0 <= s.pos < cfg.npos + cfg.threads - 1
  {
    if AllReturned(s) {
      TotalAtTheEnd(cfg, s);
    }
    forall i | 0 <= i < |s.threads| && s.threads[i].pc.Store?
      ensures 0 <= s.pos < cfg.npos + cfg.threads - 1
    {
      ReachableHasInv(cfg, s);
      SumCoversEach(s.threads, i, Filling);
    }
  }

  // ----- termination -----

  function StepsLeft(t: Thread): nat {
    match t.pc
    case Returned => 0
    case ReleaseLast => 1
    case Test => 2
    case Acquire => 3
    case CountUp => 4
    case Release => 5
    case StepVal => 6
    case StepPos => 7
    case Store => 8
  }

  function Measure(cfg: Config, s: State): int {
    7 * (Max(cfg.npos, 0) + cfg.threads - s.pos - Sum(s.threads, Filling)) + Sum(s.threads, StepsLeft)
  }

  lemma MeasureIsNatural(cfg: Config, s: State)
    requires Inv(cfg, s)
    ensures 0 <= Measure(cfg, s)
  {
  }

  lemma StepDecreasesMeasure(cfg: Config, s: State, i: nat)
    requires Inv(cfg, s) && Enabled(cfg, s, i)
    ensures 0 <= Measure(cfg, Next(cfg, s, i)) < Measure(cfg, s)
  {
    StepKeepsInv(cfg, s, i);
    var t := NextThread(cfg, s, s.threads[i]);
    SumOfUpdate(s.threads, i, t, Filling);
    SumOfUpdate(s.threads, i, t, StepsLeft);
  }

  lemma SomeoneCanMove(cfg: Config, s: State)
    requires Inv(cfg, s) && !AllReturned(s)
    ensures exists i: nat :: Enabled(cfg, s, i)
  {
    var i: nat :| i < |s.threads| && !s.threads[i].pc.Returned?;
    if !Enabled(cfg, s, i) {
      assert Enabled(cfg, s, s.mutex.value);
    }
  }

  lemma {:induction false} RunsAreShort(cfg: Config, s: State, schedule: seq<nat>, end: State)
    requires Inv(cfg, s) && Run(cfg, s, schedule, end)
    ensures Inv(cfg, end) && |schedule| + Measure(cfg, end) <= Measure(cfg, s)
    decreases |schedule|
  {
    if schedule != [] {
      StepDecreasesMeasure(cfg, s, schedule[0]);
      StepKeepsInv(cfg, s, schedule[0]);
      RunsAreShort(cfg, Next(cfg, s, schedule[0]), schedule[1..], end);
    }
  }

  /** With or without the mutex, every run is finite, and it can only end when all threads have
      returned: no `pthread_join` waits for ever. */
  lemma EveryJoinReturns(cfg: Config, s: State, schedule: seq<nat>, end: State)
    requires Reachable(cfg, s) && Run(cfg, s, schedule, end)
    ensures |schedule| <= Measure(cfg, s) - Measure(cfg, end) <= Measure(cfg, s)
    ensures (forall i: nat :: !Enabled(cfg, end, i)) <==> AllReturned(end)
  {
    ReachableHasInv(cfg, s);
    RunsAreShort(cfg, s, schedule, end);
    MeasureIsNatural(cfg, end);
    if !AllReturned(end) {
      SomeoneCanMove(cfg, end);
    }
  }

  lemma {:induction false} RunToTheEnd(cfg: Config, s: State) returns (schedule: seq<nat>, end: State)
    requires Inv(cfg, s)
    ensures Run(cfg, s, schedule, end) && AllReturned(end)
    decreases Measure(cfg, s)
  {
    if AllReturned(s) {
      schedule, end := [], s;
    } else {
      SomeoneCanMove(cfg, s);
      var i: nat :| Enabled(cfg, s, i);
      StepDecreasesMeasure(cfg, s, i);
      StepKeepsInv(cfg, s, i);
      var rest;
      rest, end := RunToTheEnd(cfg, Next(cfg, s, i));
      schedule := [i] + rest;
      Runs.RunOneMore(Steps(cfg), s, i, rest, end);
    }
  }

  // ----- exactly when the buffer comes out right -----

  /** Thread `i` enters and passes the test. */
  lemma ThreadEnters(cfg: Config, s: State, i: nat) returns (end: State)
    requires Reachable(cfg, s) && i < |s.threads| && s.threads[i].pc.Acquire? && s.pos < cfg.npos
    requires cfg.locked ==> s.mutex.None?
    ensures Reachable(cfg, end)
    ensures end == s.(mutex := if cfg.locked then Some(i) else s.mutex,
                      threads := s.threads[i := Thread(Store, s.threads[i].count)])
  {
    Runs.ReachableByStep(Steps(cfg), Init(cfg), s, i);
    var mid := Next(cfg, s, i);
    Runs.ReachableByStep(Steps(cfg), Init(cfg), mid, i);
    end := Next(cfg, mid, i);
  }

  /** Thread `i` stores and moves `pos`. */
  lemma ThreadStores(cfg: Config, s: State, i: nat) returns (end: State)
    requires Reachable(cfg, s) && i < |s.threads| && s.threads[i].pc.Store?
    ensures Reachable(cfg, end)
    ensures end == s.(buf := s.buf[s.pos := s.val], pos := s.pos + 1,
                      threads := s.threads[i := Thread(StepVal, s.threads[i].count)])
  {
    Runs.ReachableByStep(Steps(cfg), Init(cfg), s, i);
    var mid := Next(cfg, s, i);
    Runs.ReachableByStep(Steps(cfg), Init(cfg), mid, i);
    end := Next(cfg, mid, i);
  }

  /** Thread `i` moves `val`, leaves and counts. */
  lemma ThreadLeaves(cfg: Config, s: State, i: nat) returns (end: State)
    requires Reachable(cfg, s) && i < |s.threads| && s.threads[i].pc.StepVal?
    ensures Reachable(cfg, end)
    ensures end == s.(val := s.val + 1, mutex := if cfg.locked then None else s.mutex,
                      threads := s.threads[i := Thread(Acquire, s.threads[i].count + 1)])
  {
    Runs.ReachableByStep(Steps(cfg), Init(cfg), s, i);
    var mid := Next(cfg, s, i);
    Runs.ReachableByStep(Steps(cfg), Init(cfg), mid, i);
    var last := Next(cfg, mid, i);
    Runs.ReachableByStep(Steps(cfg), Init(cfg), last, i);
    end := Next(cfg, last, i);
  }

  lemma {:induction false} WrongCellStaysWrong(cfg: Config, s: State, schedule: seq<nat>, end: State)
    requires Run(cfg, s, schedule, end) && s.pos >= 2 && 1 in s.buf && s.buf[1] == 0
    ensures 1 in end.buf && end.buf[1] == 0
    decreases |schedule|
  {
    if schedule != [] {
      WrongCellStaysWrong(cfg, Next(cfg, s, schedule[0]), schedule[1..], end);
    }
  }

  /** Two threads without the mutex can leave a 0 in the second cell. */
  lemma UnlockedFillCanGoWrong(cfg: Config) returns (end: State)
    requires !cfg.locked && cfg.threads >= 2 && cfg.npos >= 2
    ensures Reachable(cfg, end) && AllReturned(end) && !Clean(cfg, end)
  {
    var s := Init(cfg);
    Runs.InitIsReachable(Steps(cfg), s);
    s := ThreadEnters(cfg, s, 0);
    s := ThreadStores(cfg, s, 0);
    s := ThreadEnters(cfg, s, 1);
    s := ThreadStores(cfg, s, 1);
    ReachableHasInv(cfg, s);
    var schedule;
    schedule, end := RunToTheEnd(cfg, s);
    WrongCellStaysWrong(cfg, s, schedule, end);
    Runs.ReachableByRun(Steps(cfg), Init(cfg), s, schedule, end);
  }

  lemma CleanAtTheEnd(cfg: Config, s: State)
    requires cfg.threads > 0 && Reachable(cfg, s) && AllReturned(s)
    requires Exclusive(cfg) || cfg.npos <= 1
    ensures Clean(cfg, s)
  {
    TotalAtTheEnd(cfg, s);
    ReachableHasInv(cfg, s);
  }

  /** `verify` finds no error after any run exactly if the threads take the mutex, or there is one
      thread only, or at most one position. */
  lemma FillIsCleanExactly(cfg: Config)
    requires cfg.threads > 0
    ensures (forall s :: Reachable(cfg, s) && AllReturned(s) ==> Clean(cfg, s))
       <==> cfg.locked || cfg.threads <= 1 || cfg.npos <= 1
  {
    if cfg.locked || cfg.threads <= 1 || cfg.npos <= 1 {
      forall s | Reachable(cfg, s) && AllReturned(s)
        ensures Clean(cfg, s)
      {
        CleanAtTheEnd(cfg, s);
      }
    } else {
      var end := UnlockedFillCanGoWrong(cfg);
      assert Reachable(cfg, end) && AllReturned(end) && !Clean(cfg, end);
    }
  }

  // ----- every overshoot happens -----

  /** The first `done` threads have moved `pos`, the next ones up to `racing` are about to store, and the
      others have not started their round. */
  ghost predicate Lined(cfg: Config, s: State, done: nat, racing: nat) {
    && |s.threads| == cfg.threads
    && forall i :: 0 <= i < cfg.threads ==>
         s.threads[i].pc == if i < done then StepVal else if i < racing then Store else Acquire
  }

  /** Thread 0 alone fills the first `pos` positions. */
  lemma {:induction false} OneThreadFills(cfg: Config, pos: nat) returns (s: State)
    requires cfg.threads > 0 && pos < cfg.npos
    ensures Reachable(cfg, s) && Lined(cfg, s, 0, 0) && s.pos == pos && s.mutex.None?
  {
    if pos == 0 {
      s := Init(cfg);
      Runs.InitIsReachable(Steps(cfg), s);
    } else {
      s := OneThreadFills(cfg, pos - 1);
      s := ThreadEnters(cfg, s, 0);
      s := ThreadStores(cfg, s, 0);
      s := ThreadLeaves(cfg, s, 0);
    }
  }

  /** `racing` threads pass the test while one position is left; with the mutex at most one can. */
  lemma {:induction false} ThreadsLineUp(cfg: Config, racing: nat) returns (s: State)
    requires 0 < cfg.threads && cfg.npos > 0 && racing <= if cfg.locked then 1 else cfg.threads
    ensures Reachable(cfg, s) && Lined(cfg, s, 0, racing) && s.pos == cfg.npos - 1
    ensures racing == 0 ==> s.mutex.None?
  {
    if racing == 0 {
      s := OneThreadFills(cfg, cfg.npos - 1);
    } else {
      s := ThreadsLineUp(cfg, racing - 1);
      s := ThreadEnters(cfg, s, racing - 1);
    }
  }

  /** Then `done` of them store. */
  lemma {:induction false} ThreadsOvershoot(cfg: Config, done: nat, racing: nat) returns (s: State)
    requires 0 < cfg.threads && cfg.npos > 0 && done <= racing <= if cfg.locked then 1 else cfg.threads
    ensures Reachable(cfg, s) && Lined(cfg, s, done, racing) && s.pos == cfg.npos - 1 + done
    decreases done
  {
    if done == 0 {
      s := ThreadsLineUp(cfg, racing);
    } else {
      s := ThreadsOvershoot(cfg, done - 1, racing);
      s := ThreadStores(cfg, s, done - 1);
    }
  }

  lemma {:induction false} PosStays(cfg: Config, s: State, schedule: seq<nat>, end: State)
    requires Run(cfg, s, schedule, end) && s.pos >= cfg.npos
    requires forall i :: 0 <= i < |s.threads| ==> Filling(s.threads[i]) == 0
    ensures end.pos == s.pos
    decreases |schedule|
  {
    if schedule != [] {
      PosStays(cfg, Next(cfg, s, schedule[0]), schedule[1..], end);
    }
  }

  /** The bound of the unlocked fill cannot be improved: every total from `npos` to
      `npos + threads - 1` comes out of some run. */
  lemma EveryOvershootHappens(cfg: Config, extra: nat) returns (end: State)
    requires !cfg.locked && cfg.npos > 0 && extra < cfg.threads
    ensures Reachable(cfg, end) && AllReturned(end)
    ensures Sum(end.threads, Counted) == end.pos == cfg.npos + extra
  {
    var s := ThreadsOvershoot(cfg, extra + 1, extra + 1);
    ReachableHasInv(cfg, s);
    var schedule;
    schedule, end := RunToTheEnd(cfg, s);
    PosStays(cfg, s, schedule, end);
    Runs.ReachableByRun(Steps(cfg), Init(cfg), s, schedule, end);
    TotalAtTheEnd(cfg, end);
  }

  // ----- exactly when every store is inside the buffer -----

  /** There is nothing to store, or room for `npos` positions and the possible overshoot. */
  predicate Fits(cfg: Config) {
    || cfg.npos <= 0 || cfg.threads == 0
    || cfg.npos + (if cfg.locked then 0 else cfg.threads - 1) <= cfg.size
  }

  predicate AtStore(s: State, i: nat) {
    i < |s.threads| && s.threads[i].pc.Store?
  }

  lemma StoresFit(cfg: Config, s: State, i: nat)
    requires Fits(cfg) && Reachable(cfg, s) && AtStore(s, i)
    ensures 0 <= s.pos < cfg.size
  {
    ReachableHasInv(cfg, s);
    assert Filling(s.threads[i]) == 1;
    if !cfg.locked {
      UnlockedFillIsBounded(cfg, s);
    }
  }

  lemma StoreCanMiss(cfg: Config) returns (s: State, i: nat)
    requires !Fits(cfg)
    ensures Reachable(cfg, s) && AtStore(s, i) && s.pos >= cfg.size
  {
    var racing: nat := if cfg.locked then 1 else cfg.threads;
    s := ThreadsOvershoot(cfg, racing - 1, racing);
    i := racing - 1;
  }

  /** Every store of every run falls inside the buffer exactly if `Fits` holds. Without the mutex a
      buffer of `npos` cells is too small from two threads on. */
  lemma StoresFitExactly(cfg: Config)
    ensures (forall s, i :: Reachable(cfg, s) && AtStore(s, i) ==> 0 <= s.pos < cfg.size) <==> Fits(cfg)
  {
    if Fits(cfg) {
      forall s, i | Reachable(cfg, s) && AtStore(s, i)
        ensures 0 <= s.pos < cfg.size
      {
        StoresFit(cfg, s, i);
      }
    } else {
      var s, i := StoreCanMiss(cfg);
      assert Reachable(cfg, s) && AtStore(s, i);
    }
  }

  // ----- the program with its shared variables -----

  class Pool {
    const cfg: Config
    const buf: array<int>
    const threads: array<Thread>
    var pos: int
    var val: int
    var mutex: Option<nat>

    ghost function Abs(): State
      reads this, buf, threads
    {
      State(Cells(buf[..]), pos, val, mutex, threads[..])
    }

    ghost predicate Valid()
      reads this, buf, threads
    {
      && buf.Length == cfg.size && threads.Length == cfg.threads
      && Fits(cfg) && cfg.npos <= cfg.size && Reachable(cfg, Abs())
    }

    /** (`main` limits `npos` to the size of the buffer.) */
    constructor (cfg: Config)
      requires Fits(cfg) && cfg.npos <= cfg.size
      ensures Valid() && this.cfg == cfg && Abs() == Init(cfg) && fresh(buf) && fresh(threads)
    {
      this.cfg := cfg;
      buf := new int[cfg.size](_ => 0);
      threads := new Thread[cfg.threads](_ => Thread(Acquire, 0));
      pos, val, mutex := 0, 0, None;
      new;
      assert threads[..] == Init(cfg).threads && Cells(buf[..]) == Init(cfg).buf;
      Runs.InitIsReachable(Steps(cfg), Init(cfg));
    }

    /** The next statement of thread `i` of `fill`. */
    method Step(i: nat)
      requires Valid() && Enabled(cfg, Abs(), i)
      modifies this, buf, threads
      ensures Valid() && Abs() == Next(cfg, old(Abs()), i)
    {
      ghost var s := Abs();
      var t := threads[i];
      match t.pc {
        case Acquire =>
          if cfg.locked {
            mutex := Some(i);
          }
          threads[i] := t.(pc := Test);
        case Test =>
          threads[i] := t.(pc := if pos >= cfg.npos then ReleaseLast else Store);
        case Store =>
          StoresFit(cfg, s, i);
          buf[pos] := val;
          threads[i] := t.(pc := StepPos);
          assert Cells(buf[..]) == s.buf[pos := val];
        case StepPos =>
          pos := pos + 1;
          threads[i] := t.(pc := StepVal);
        case StepVal =>
          val := val + 1;
          threads[i] := t.(pc := Release);
        case Release =>
          if cfg.locked {
            mutex := None;
          }
          threads[i] := t.(pc := CountUp);
        case CountUp =>
          threads[i] := Thread(Acquire, t.count + 1);
        case ReleaseLast =>
          if cfg.locked {
            mutex := None;
          }
          threads[i] := t.(pc := Returned);
        case Returned =>
      }
      assert threads[..] == s.threads[i := NextThread(cfg, s, t)];
      assert Abs() == Next(cfg, s, i);
      Runs.ReachableByStep(Steps(cfg), Init(cfg), s, i);
    }

    /** `main` after the joins: it adds up the counts. */
    method Total() returns (total: int)
      requires Valid() && AllReturned(Abs())
      ensures total == Sum(threads[..], Counted)
      ensures cfg.locked && cfg.threads > 0 ==> total == Max(cfg.npos, 0)
    {
      total := 0;
      for k := 0 to threads.Length
        invariant total == Sum(threads[..k], Counted)
      {
        assert threads[..k + 1][..k] == threads[..k];
        total := total + threads[k].count;
      }
      assert threads[..threads.Length] == threads[..];
      if cfg.locked && cfg.threads > 0 {
        LockedFillIsExact(cfg, Abs());
      }
    }

    /** `verify`: the positions it reports, in order. */
    method Verify() returns (errors: seq<int>)
      requires Valid()
      ensures forall k :: k in errors <==> 0 <= k < cfg.npos && buf[k] != k
      ensures forall i, j :: 0 <= i < j < |errors| ==> errors[i] < errors[j]
      ensures errors == [] <==> Clean(cfg, Abs())
    {
      errors := [];
      var k := 0;
      while k < cfg.npos
        invariant 0 <= k <= Max(cfg.npos, 0)
        invariant forall e :: e in errors <==> 0 <= e < k && buf[e] != e
        invariant forall i :: 0 <= i < |errors| ==> errors[i] < k
        invariant forall i, j :: 0 <= i < j < |errors| ==> errors[i] < errors[j]
      {
        if buf[k] != k {
          errors := errors + [k];
        }
        k := k + 1;
      }
      assert forall e :: 0 <= e < cfg.npos ==> e in Cells(buf[..]) && Cells(buf[..])[e] == buf[e];
      if errors != [] {
        assert errors[0] in errors;
      }
    }
  }
}
