/** Progress of the bank server: what can get stuck and what cannot, that the queue drains, and how
    long a request can wait. */
module ProtocolProgress {
  import opened Types
  import opened Bank
  import opened BankProperties
  import opened Counting
  import opened Protocol
  import opened ProtocolInvariant
  import Runs
  import opened ProtocolSafety

  // ----- deadlock -----

  /** No office can move. */
  ghost predicate Quiet(s: State) {
    forall i: nat :: !WorkerEnabled(s, i)
  }

  /** `main` is between taking the mutex for a push and the post that announces it. */
  predicate Announcing(main: MainPc) {
    main.MainPush? || main.MainUnlock? || main.MainPost?
  }

  /** There is a request that the server still owes an answer. */
  predicate Outstanding(s: State) {
    s.mutex.ByWorker? || (s.queue != [] && !s.closeThread)
  }

  ghost predicate SomeoneStuck(s: State) {
    exists i: nat :: StuckInSelfTransfer(s, i)
  }

  lemma QuietOfficesWaitOrReturned(cfg: Config, s: State)
    requires Reachable(cfg, s) && NonEmpty(cfg.hash) && Quiet(s) && !SomeoneStuck(s) && !Announcing(s.main)
    ensures s.mutex.Free?
    ensures forall i :: 0 <= i < |s.workers| ==>
      (s.workers[i].pc.WaitMain? && s.mainSem == 0) || s.workers[i].pc.Returned?
  {
    ReachableTable(cfg, s);
    if s.mutex.ByWorker? {
      HolderMovesUnlessSelfTransfer(cfg, s, s.mutex.i);
    }
    forall i | 0 <= i < |s.workers|
      ensures (s.workers[i].pc.WaitMain? && s.mainSem == 0) || s.workers[i].pc.Returned?
    {
      assert !WorkerEnabled(s, i);
    }
  }

  /** While a request is outstanding, some office can move or `main` is about to announce a push,
      unless the mutex holder is stuck in a transfer from an active account to itself. */
  lemma OnlySelfTransfersDeadlock(cfg: Config, s: State)
    requires Reachable(cfg, s) && NonEmpty(cfg.hash) && cfg.offices > 0
    requires Outstanding(s) && Quiet(s) && !Announcing(s.main)
    ensures SomeoneStuck(s)
  {
    ReachableCounts(cfg, s);
    if !SomeoneStuck(s) {
      QuietOfficesWaitOrReturned(cfg, s);
      SumOfZeros(s.workers, Woken);
    }
  }

  ghost predicate NothingHappened(s: State, end: State, i: nat)
    requires i < |s.workers|
  {
    && StuckInSelfTransfer(end, i) && end.workers[i] == s.workers[i] && end.accounts == s.accounts
    && end.queue == s.queue && end.pushed == s.pushed && end.calls == s.calls && end.replies == s.replies
  }

  lemma StuckStep(cfg: Config, s: State, i: nat, a: Action)
    requires MutexInv(s) && StartInv(s) && StuckInSelfTransfer(s, i) && Enabled(s, a)
    ensures NothingHappened(s, Next(cfg, s, a), i)
  {
    if a.WorkerStep? {
      assert a.i != i;
      assert !InCritical(s.workers[a.i].pc);
    }
  }

  /** Once stuck, stuck for ever: in no run does the holder move, a request enter or leave the queue,
      the table change or a reply get logged. */
  lemma {:induction false} StuckForEver(cfg: Config, s: State, i: nat, actions: seq<Action>, end: State)
    requires Reachable(cfg, s) && NonEmpty(cfg.hash) && StuckInSelfTransfer(s, i) && Run(cfg, s, actions, end)
    ensures NothingHappened(s, end, i)
    decreases |actions|
  {
    if actions != [] {
      ReachableTable(cfg, s);
      StuckStep(cfg, s, i, actions[0]);
      ReachableStep(cfg, s, actions[0]);
      StuckForEver(cfg, Next(cfg, s, actions[0]), i, actions[1..], end);
    }
  }

  // ----- draining -----

  /** How many steps an office is from its next wait on `main_sem` or its return. */
  function PcStepsLeft(pc: Pc): nat {
    match pc
    case WaitMain | Returned => 0
    case TestLoop => 1
    case CountOut => 2
    case NoteShutdown => 3
    case UnlockMutex => 4
    case SendReply => 5
    case PostTarget => 6
    case PostSource => 7
    case BuildReply => 8
    case WaitTarget => 9
    case WaitSource => 10
    case CountIn => 11
    case PopRequest => 12
    case LockMutex => 13
    case TestClose => 14
  }

  function StepsLeft(w: Worker): nat {
    PcStepsLeft(w.pc)
  }

  function Measure(s: State): nat {
    15 * s.mainSem + Sum(s.workers, StepsLeft)
  }

  lemma PcAdvances(s: State, pc: Pc)
    requires !pc.Returned?
    ensures PcStepsLeft(NextPc(s, pc)) < PcStepsLeft(pc) + if pc.WaitMain? then 15 else 0
  {
  }

  lemma OfficeStepDecreasesMeasure(cfg: Config, s: State, a: Action)
    requires a.WorkerStep? && WorkerEnabled(s, a.i)
    ensures Measure(WorkerNext(cfg, s, a)) < Measure(s)
  {
    PcAdvances(s, s.workers[a.i].pc);
    SumOfUpdate(s.workers, a.i, NextWorker(cfg, s, a), StepsLeft);
  }

  /** How many of the actions are steps of an office. */
  function OfficeSteps(actions: seq<Action>): nat {
    if actions == [] then 0
    else (if actions[0].WorkerStep? then 1 else 0) + OfficeSteps(actions[1..])
  }

  /** `main` reads nothing more. */
  ghost predicate NoInput(actions: seq<Action>) {
    forall k :: 0 <= k < |actions| && actions[k].MainStep? ==> actions[k].input.None?
  }

  /** How many posts of `main_sem` can still come without further input. */
  function PostsLeft(s: State): nat {
    match s.main
    case MainLock | MainPush | MainUnlock | MainPost => |s.workers| + 1
    case Release(n) => if n <= |s.workers| then |s.workers| - n else 0
    case Join(_) => 0
    case Exited => 0
    case _ => |s.workers|
  }

  lemma MainStepUsesPosts(cfg: Config, s: State, a: Action)
    requires a.MainStep? && a.input.None? && MainEnabled(s)
    ensures var next := MainNext(cfg, s, a); Measure(next) + 15 * PostsLeft(next) <= Measure(s) + 15 * PostsLeft(s)
  {
  }

  lemma {:induction false} NoInputRunsDrain(cfg: Config, s: State, actions: seq<Action>, end: State)
    requires NoInput(actions) && Run(cfg, s, actions, end)
    ensures OfficeSteps(actions) + Measure(end) + 15 * PostsLeft(end) <= Measure(s) + 15 * PostsLeft(s)
    decreases |actions|
  {
    if actions != [] {
      if actions[0].WorkerStep? {
        OfficeStepDecreasesMeasure(cfg, s, actions[0]);
      } else {
        MainStepUsesPosts(cfg, s, actions[0]);
      }
      NoInputRunsDrain(cfg, Next(cfg, s, actions[0]), actions[1..], end);
    }
  }

  /** How many requests are to be answered: those pushed before `close_thread` was set. */
  function Due(s: State): nat {
    if s.closeThread then s.cutoff else |s.pushed|
  }

  lemma QuietMeansAnswered(cfg: Config, s: State)
    requires Reachable(cfg, s) && NonEmpty(cfg.hash) && cfg.offices > 0
    requires Quiet(s) && !Announcing(s.main) && !SomeoneStuck(s)
    ensures s.mutex.Free? && |s.replies| == |s.calls| == Due(s)
    ensures !s.closeThread ==> s.queue == []
  {
    ReachableCounts(cfg, s);
    ReachableHistory(cfg, s);
    QuietOfficesWaitOrReturned(cfg, s);
    if !s.closeThread {
      SumOfZeros(s.workers, Woken);
      assert s.workers[0].pc.WaitMain?;
    }
  }

  /** When the input ends, at whatever moment, the offices take a bounded number of further steps,
      however they and `main` are scheduled and also if the server closes meanwhile; and where the
      offices come to rest every request due has been answered, unless one of them is stuck in a
      self-transfer. */
  lemma QueueDrains(cfg: Config, s: State, actions: seq<Action>, end: State)
    requires Reachable(cfg, s) && NonEmpty(cfg.hash) && cfg.offices > 0
    requires NoInput(actions) && Run(cfg, s, actions, end)
    ensures OfficeSteps(actions) <= Measure(s) + 15 * PostsLeft(s) <= Measure(s) + 15 * (cfg.offices + 1)
    ensures Quiet(end) && !Announcing(end.main) ==>
      SomeoneStuck(end) || (end.mutex.Free? && |end.replies| == |end.calls| == Due(end))
  {
    NoInputRunsDrain(cfg, s, actions, end);
    ReachableCounts(cfg, s);
    Runs.ReachableByRun(Steps(cfg), Init(cfg), s, actions, end);
    if Quiet(end) && !Announcing(end.main) && !SomeoneStuck(end) {
      QuietMeansAnswered(cfg, end);
    }
  }

  /** `main` has stood still, and every reply since `s` was delivered. */
  ghost predicate OnlyOfficesMoved(s: State, end: State) {
    && end.main == s.main && end.pushed == s.pushed && end.request == s.request && end.closeThread == s.closeThread
    && s.delivered <= end.delivered
    && forall k :: |s.delivered| <= k < |end.delivered| ==> end.delivered[k]
  }

  lemma OfficeMoves(cfg: Config, s: State, a: Action)
    requires a.WorkerStep? && a.up && WorkerEnabled(s, a.i)
    ensures OnlyOfficesMoved(s, WorkerNext(cfg, s, a))
  {
  }

  lemma OfficesMoveOn(s: State, mid: State, end: State)
    requires OnlyOfficesMoved(s, mid) && OnlyOfficesMoved(mid, end)
    ensures OnlyOfficesMoved(s, end)
  {
    assert mid.delivered == end.delivered[..|mid.delivered|];
  }

  /** From every state the offices can come to rest, with `main` standing still and every reply
      delivered. */
  lemma {:induction false} OfficesComeToRest(cfg: Config, s: State) returns (actions: seq<Action>, end: State)
    ensures Run(cfg, s, actions, end) && Quiet(end)
    ensures OfficeSteps(actions) == |actions| && OnlyOfficesMoved(s, end)
    decreases Measure(s)
  {
    if Quiet(s) {
      actions, end := [], s;
    } else {
      var i: nat :| WorkerEnabled(s, i);
      var a := WorkerStep(i, "", 0, true);
      OfficeStepDecreasesMeasure(cfg, s, a);
      var next := WorkerNext(cfg, s, a);
      var rest;
      rest, end := OfficesComeToRest(cfg, next);
      actions := [a] + rest;
      Runs.RunOneMore(Steps(cfg), s, a, rest, end);
      OfficeMoves(cfg, s, a);
      OfficesMoveOn(s, next, end);
    }
  }

  // ----- waiting -----

  /** How far an office has come since the last reply it logged: 15 steps lead to the next. */
  function PcPhase(pc: Pc): nat {
    match pc
    case UnlockMutex => 0
    case NoteShutdown => 1
    case CountOut => 2
    case TestLoop => 3
    case WaitMain => 4
    case TestClose => 5
    case LockMutex => 6
    case PopRequest => 7
    case CountIn => 8
    case WaitSource => 9
    case WaitTarget => 10
    case BuildReply => 11
    case PostSource => 12
    case PostTarget => 13
    case SendReply => 14
    case Returned => 15
  }

  function Phase(w: Worker): nat {
    PcPhase(w.pc)
  }

  lemma PhaseAdvances(s: State, pc: Pc)
    requires !pc.Returned?
    ensures PcPhase(NextPc(s, pc)) + (if pc.SendReply? then 15 else 0) > PcPhase(pc)
    ensures !s.closeThread ==> PcPhase(NextPc(s, pc)) + (if pc.SendReply? then 15 else 0) == PcPhase(pc) + 1
  {
  }

  lemma OfficeStepAdvances(cfg: Config, s: State, a: Action)
    requires a.WorkerStep? && WorkerEnabled(s, a.i)
    ensures var next := WorkerNext(cfg, s, a);
      && 15 * |next.replies| + Sum(next.workers, Phase) >= 15 * |s.replies| + Sum(s.workers, Phase) + 1
      && (!s.closeThread ==>
            15 * |next.replies| + Sum(next.workers, Phase) == 15 * |s.replies| + Sum(s.workers, Phase) + 1)
  {
    PhaseAdvances(s, s.workers[a.i].pc);
    SumOfUpdate(s.workers, a.i, NextWorker(cfg, s, a), Phase);
  }

  /** In any run, 15 steps of the offices make one reply, up to the phases in which they are at its start
      and its end; and while the server is open, exactly. */
  lemma {:induction false} OfficeStepsAdvance(cfg: Config, s: State, actions: seq<Action>, end: State)
    requires Run(cfg, s, actions, end)
    ensures |end.workers| == |s.workers|
    ensures 15 * |end.replies| + Sum(end.workers, Phase) >=
            15 * |s.replies| + Sum(s.workers, Phase) + OfficeSteps(actions)
    ensures s.closeThread ==> end.closeThread
    ensures !end.closeThread ==>
      15 * |end.replies| + Sum(end.workers, Phase) == 15 * |s.replies| + Sum(s.workers, Phase) + OfficeSteps(actions)
    decreases |actions|
  {
    if actions != [] {
      if actions[0].WorkerStep? {
        OfficeStepAdvances(cfg, s, actions[0]);
      }
      OfficeStepsAdvance(cfg, Next(cfg, s, actions[0]), actions[1..], end);
    }
  }

  lemma {:induction false} PhasesAreBounded(workers: seq<Worker>)
    ensures Sum(workers, Phase) <= 15 * |workers|
  {
    if workers != [] {
      PhasesAreBounded(workers[..|workers| - 1]);
    }
  }

  lemma {:induction false} DueGrows(cfg: Config, s: State, actions: seq<Action>, end: State)
    requires Reachable(cfg, s) && NonEmpty(cfg.hash) && Run(cfg, s, actions, end)
    ensures Due(s) <= Due(end)
    decreases |actions|
  {
    if actions != [] {
      ReachableCounts(cfg, s);
      ReachableStep(cfg, s, actions[0]);
      DueGrows(cfg, Next(cfg, s, actions[0]), actions[1..], end);
    }
  }

  /** Bounded waiting, under any schedule and any further input: a request is answered within a number
      of office steps linear in the requests before it and the number of offices, and until then some
      office can move or `main` is about to announce a push, unless an office is stuck in a
      self-transfer. */
  lemma EachRequestIsAnsweredSoon(cfg: Config, s: State, j: nat, actions: seq<Action>, end: State)
    requires Reachable(cfg, s) && NonEmpty(cfg.hash) && cfg.offices > 0
    requires j < Due(s) && Run(cfg, s, actions, end)
    ensures OfficeSteps(actions) > 15 * (j - |s.replies| + cfg.offices) ==> j < |end.replies|
    ensures j < |end.replies| || SomeoneStuck(end) || Announcing(end.main) || !Quiet(end)
  {
    OfficeStepsAdvance(cfg, s, actions, end);
    PhasesAreBounded(end.workers);
    ReachableCounts(cfg, s);
    DueGrows(cfg, s, actions, end);
    Runs.ReachableByRun(Steps(cfg), Init(cfg), s, actions, end);
    if Quiet(end) && !Announcing(end.main) && !SomeoneStuck(end) {
      QuietMeansAnswered(cfg, end);
    }
  }

  // ----- exactly when the server gets stuck -----

  lemma HolderHasPushedRequest(cfg: Config, s: State, i: nat)
    requires MutexInv(s) && QueueInv(s) && CloseInv(s) && StartInv(s) && TableInv(cfg, s)
    requires StuckInSelfTransfer(s, i)
    ensures |s.calls| < Due(s) && |s.calls| < |s.pushed|
    ensures SelfActive(cfg.After(s.calls), s.pushed[|s.calls|])
  {
    assert Popped(s)[|s.calls|] == s.workers[i].request;
  }

  /** Whoever is stuck serves the first unanswered request, a transfer from an account to itself. */
  lemma StuckMeansSelfTransfer(cfg: Config, s: State)
    requires Reachable(cfg, s) && NonEmpty(cfg.hash) && SomeoneStuck(s)
    ensures |s.calls| < Due(s) && |s.calls| < |s.pushed|
    ensures SelfActive(cfg.After(s.calls), s.pushed[|s.calls|])
  {
    ReachableTable(cfg, s);
    ReachableCounts(cfg, s);
    ReachableHistory(cfg, s);
    var i: nat :| StuckInSelfTransfer(s, i);
    HolderHasPushedRequest(cfg, s, i);
  }

  lemma CallsAnswerPushes(cfg: Config, s: State, j: nat)
    requires QueueInv(s) && CallsInv(cfg, s) && j < |s.calls|
    ensures j < |s.pushed| && !SelfActive(cfg.After(s.calls[..j]), s.pushed[j])
  {
    assert Popped(s)[j] == s.calls[j].request;
  }

  /** Where the offices rest, one is stuck exactly when a request due has not been answered; then the
      first unanswered one is the first of all pushed requests to be a transfer from an account to
      itself that is active by the time of its turn. */
  lemma StuckExactlyAtSelfTransfers(cfg: Config, s: State)
    requires Reachable(cfg, s) && NonEmpty(cfg.hash) && cfg.offices > 0
    requires Quiet(s) && !Announcing(s.main)
    ensures SomeoneStuck(s) <==> |s.calls| < Due(s)
    ensures |s.calls| <= |s.pushed|
    ensures SomeoneStuck(s) ==> |s.calls| < |s.pushed| && SelfActive(cfg.After(s.calls), s.pushed[|s.calls|])
    ensures forall j :: 0 <= j < |s.calls| ==> !SelfActive(cfg.After(s.calls[..j]), s.pushed[j])
  {
    ReachableHistory(cfg, s);
    if SomeoneStuck(s) {
      StuckMeansSelfTransfer(cfg, s);
    } else {
      QuietMeansAnswered(cfg, s);
    }
    forall j | 0 <= j < |s.calls|
      ensures !SelfActive(cfg.After(s.calls[..j]), s.pushed[j])
    {
      CallsAnswerPushes(cfg, s, j);
    }
  }

  /** A request due that is a transfer from an active account to itself always gets an office stuck:
      whatever else is pushed and however the threads are scheduled, when the offices come to rest one
      of them is. */
  lemma SelfTransfersOfActiveAccountsStick(cfg: Config, s: State, actions: seq<Action>, end: State, j: nat)
    requires Reachable(cfg, s) && NonEmpty(cfg.hash) && cfg.offices > 0 && !s.main.CreateAdmin?
    requires |s.calls| <= j < |s.pushed| && j < Due(s) && s.pushed[j].IsSelfTransfer()
    requires IsActive(s.accounts, s.pushed[j].accountId)
    requires Run(cfg, s, actions, end) && Quiet(end) && !Announcing(end.main)
    ensures SomeoneStuck(end)
  {
    Runs.ReachableByRun(Steps(cfg), Init(cfg), s, actions, end);
    StuckExactlyAtSelfTransfers(cfg, end);
    DueGrows(cfg, s, actions, end);
    HistoryGrows(cfg, s, actions, end);
    if j < |end.calls| {
      ReachableTable(cfg, s);
      TableIsFoldButSemaphores(cfg, s);
      AfterIsCoherent(cfg, s.calls);
      FoldKeepsCredentials(cfg, s.calls, end.calls[..j], s.pushed[j].accountId);
      assert !SelfActive(cfg.After(end.calls[..j]), end.pushed[j]);
    }
  }

  /** An office at its second account wait is stuck exactly when it serves a transfer from an active
      account to itself. */
  lemma SecondWaitOnOwnAccountIsStuck(cfg: Config, s: State, i: nat)
    requires Reachable(cfg, s) && NonEmpty(cfg.hash) && i < |s.workers| && s.workers[i].pc.WaitTarget?
    ensures StuckInSelfTransfer(s, i) <==> SelfActive(s.accounts, s.workers[i].request)
  {
    ReachableTable(cfg, s);
    AfterIsCoherent(cfg, s.calls);
  }

  function SelfTransferBy(id: uint32): Request
    requires id < MAX_BANK_ACCOUNTS
  {
    RawRequest(Transfer, 0, id, "", 0, id, 0, "")
  }

  // ----- states that can follow -----

  /** A reachable state that some run from the reachable state `s` leads to. */
  ghost predicate LeadsTo(cfg: Config, s: State, end: State) {
    Reachable(cfg, end) && Runs.Reachable(Steps(cfg), s, end)
  }

  lemma LeadsToNext(cfg: Config, s: State, mid: State, a: Action)
    requires LeadsTo(cfg, s, mid) && Enabled(mid, a)
    ensures LeadsTo(cfg, s, Next(cfg, mid, a))
  {
    ReachableStep(cfg, mid, a);
    Runs.ReachableByStep(Steps(cfg), s, mid, a);
  }

  lemma LeadsToRest(cfg: Config, s: State, mid: State) returns (end: State)
    requires LeadsTo(cfg, s, mid)
    ensures LeadsTo(cfg, s, end) && Quiet(end) && OnlyOfficesMoved(mid, end)
  {
    var actions;
    actions, end := OfficesComeToRest(cfg, mid);
    Runs.ReachableByRun(Steps(cfg), Init(cfg), mid, actions, end);
    Runs.ReachableByRun(Steps(cfg), s, mid, actions, end);
  }

  /** `main` reads `r` at the end of one round of its loop. */
  lemma RequestIsRead(cfg: Config, s: State, mid: State, r: Request) returns (end: State)
    requires LeadsTo(cfg, s, mid) && mid.main.MainTest? && !mid.closeThread && !mid.serverExit
    ensures LeadsTo(cfg, s, end) && end == mid.(main := MainLock, request := r)
  {
    var tick := MainStep(None);
    LeadsToNext(cfg, s, mid, tick);
    var mid1 := Next(cfg, mid, tick);
    LeadsToNext(cfg, s, mid1, tick);
    var mid2 := Next(cfg, mid1, tick);
    LeadsToNext(cfg, s, mid2, MainStep(Some(r)));
    end := Next(cfg, mid2, MainStep(Some(r)));
  }

  /** And pushes and announces it. */
  lemma RequestIsPushed(cfg: Config, s: State, mid: State) returns (end: State)
    requires LeadsTo(cfg, s, mid) && mid.main.MainLock? && mid.mutex.Free?
    ensures LeadsTo(cfg, s, end)
    ensures end == mid.(main := MainTest, queue := mid.queue + [mid.request],
                        pushed := mid.pushed + [mid.request], mainSem := mid.mainSem + 1)
  {
    var tick := MainStep(None);
    LeadsToNext(cfg, s, mid, tick);
    var mid1 := Next(cfg, mid, tick);
    LeadsToNext(cfg, s, mid1, tick);
    var mid2 := Next(cfg, mid1, tick);
    LeadsToNext(cfg, s, mid2, tick);
    var mid3 := Next(cfg, mid2, tick);
    LeadsToNext(cfg, s, mid3, tick);
    end := Next(cfg, mid3, tick);
  }

  lemma ServerStarts(cfg: Config) returns (s: State)
    ensures LeadsTo(cfg, Init(cfg), s) && s == Init(cfg).(main := MainTest, accounts := cfg.Genesis())
  {
    Runs.InitIsReachable(Steps(cfg), Init(cfg));
    LeadsToNext(cfg, Init(cfg), Init(cfg), MainStep(None));
    s := Next(cfg, Init(cfg), MainStep(None));
  }

  /** The deadlock is real: for any positive number of offices, one request suffices, and it needs no password. */
  lemma DeadlockIsReachable(cfg: Config) returns (end: State)
    requires NonEmpty(cfg.hash) && cfg.offices > 0
    ensures Reachable(cfg, end) && SomeoneStuck(end)
    ensures end.pushed == [SelfTransferBy(ADMIN_ACCOUNT_ID)]
  {
    var s := ServerStarts(cfg);
    s := RequestIsRead(cfg, Init(cfg), s, SelfTransferBy(ADMIN_ACCOUNT_ID));
    s := RequestIsPushed(cfg, Init(cfg), s);
    GenesisIsCoherent(cfg.hash, cfg.adminPassword, cfg.adminSalt);
    var actions;
    actions, end := OfficesComeToRest(cfg, s);
    SelfTransfersOfActiveAccountsStick(cfg, s, actions, end, 0);
    Runs.ReachableByRun(Steps(cfg), Init(cfg), s, actions, end);
  }
}
