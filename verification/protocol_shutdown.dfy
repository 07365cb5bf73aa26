/** Shutdown of the bank server: what closing finds, that it completes under every schedule, and that
    it is possible from every state. */
module ProtocolShutdown {
  import opened Types
  import opened Bank
  import opened BankProperties
  import opened Counting
  import opened Protocol
  import opened ProtocolInvariant
  import Runs
  import opened ProtocolSafety
  import opened ProtocolProgress

  // ----- what closing finds -----

  lemma ReachableRelease(cfg: Config, s: State)
    requires Reachable(cfg, s) && NonEmpty(cfg.hash)
    ensures ReleaseInv(s)
  {
    ReachableHasInv(cfg, s);
  }

  /** When `main` sets `close_thread`, the queue is empty and no office sits between its wait on
      `main_sem` and its pop. */
  lemma CloseFindsNothingWaiting(cfg: Config, s: State)
    requires Reachable(cfg, s) && NonEmpty(cfg.hash) && s.main.SetClose?
    ensures s.serverExit && s.queue == [] && s.mainSem == 0
    ensures forall i :: 0 <= i < |s.workers| ==> Woken(s.workers[i]) == 0
  {
    ReachableCounts(cfg, s);
    forall i | 0 <= i < |s.workers|
      ensures Woken(s.workers[i]) == 0
    {
      SumCoversEach(s.workers, i, Woken);
    }
  }

  /** From then on exactly the requests pushed before have been popped, and at most one later request
      stays in the queue. */
  lemma OnlyOneRequestComesTooLate(cfg: Config, s: State)
    requires Reachable(cfg, s) && NonEmpty(cfg.hash) && s.closeThread
    ensures s.cutoff <= |s.pushed| <= s.cutoff + 1
    ensures Popped(s) == s.pushed[..s.cutoff] && s.queue == s.pushed[s.cutoff..]
  {
    ReachableCounts(cfg, s);
    ReachableHistory(cfg, s);
  }

  /** That later request is never served: no run pops anything any more. */
  lemma {:induction false} NothingIsPoppedAfterClose(cfg: Config, s: State, actions: seq<Action>, end: State)
    requires Reachable(cfg, s) && NonEmpty(cfg.hash) && s.closeThread && Run(cfg, s, actions, end)
    ensures end.closeThread && end.cutoff == s.cutoff && Popped(end) == Popped(s)
    decreases |actions|
  {
    if actions != [] {
      var next := Next(cfg, s, actions[0]);
      ReachableCounts(cfg, s);
      ReachableHistory(cfg, s);
      NothingIsPoppedInOneStep(cfg, s, actions[0]);
      ReachableStep(cfg, s, actions[0]);
      NothingIsPoppedAfterClose(cfg, next, actions[1..], end);
    }
  }

  lemma NothingIsPoppedInOneStep(cfg: Config, s: State, a: Action)
    requires MutexInv(s) && QueueInv(s) && CloseInv(s) && s.closeThread && Enabled(s, a)
    ensures var next := Next(cfg, s, a);
      next.closeThread && next.cutoff == s.cutoff && Popped(next) == Popped(s)
  {
    if a.WorkerStep? {
      WorkerKeepsQueue(cfg, s, a);
    }
  }

  /** Once `main` has made its posts, every office that still waits on `main_sem` can go on. */
  lemma NobodyIsLeftWaiting(cfg: Config, s: State, i: nat)
    requires Reachable(cfg, s) && NonEmpty(cfg.hash) && s.main.Join?
    requires i < |s.workers| && s.workers[i].pc.WaitMain?
    ensures WorkerEnabled(s, i)
    ensures s.mainSem + Sum(s.workers, NotWaiting) >= |s.workers|
  {
    ReachableRelease(cfg, s);
    SumOfOnes(s.workers, NotWaiting);
  }

  /** How many steps `main` is from its end, once `close_thread` is set; a post still to be made
      counts for the steps it gives to an office. */
  function MainStepsLeft(s: State): nat {
    var k := |s.workers|;
    match s.main
    case Exited => 0
    case Join(n) => if n <= k then k - n + 1 else 0
    case Release(n) => if n <= k then 16 * (k - n) + k + 2 else 0
    case MainTest => 17 * k + 3
    case MainPost => 17 * k + 19
    case MainUnlock => 17 * k + 20
    case MainPush => 17 * k + 21
    case MainLock => 17 * k + 22
    case _ => 17 * k + 23
  }

  lemma ShutdownStepDecreases(cfg: Config, s: State, a: Action)
    requires ReleaseInv(s) && CloseInv(s) && s.closeThread && Enabled(s, a)
    ensures var next := Next(cfg, s, a);
      next.closeThread && MainStepsLeft(next) + Measure(next) < MainStepsLeft(s) + Measure(s)
  {
    if a.WorkerStep? {
      OfficeStepDecreasesMeasure(cfg, s, a);
    }
  }

  lemma {:induction false} ShutdownRunsAreShort(cfg: Config, s: State, actions: seq<Action>, end: State)
    requires Reachable(cfg, s) && NonEmpty(cfg.hash) && s.closeThread && Run(cfg, s, actions, end)
    ensures end.closeThread
    ensures |actions| + MainStepsLeft(end) + Measure(end) <= MainStepsLeft(s) + Measure(s)
    decreases |actions|
  {
    if actions != [] {
      var next := Next(cfg, s, actions[0]);
      ReachableCounts(cfg, s);
      ReachableRelease(cfg, s);
      ShutdownStepDecreases(cfg, s, actions[0]);
      ReachableStep(cfg, s, actions[0]);
      ShutdownRunsAreShort(cfg, next, actions[1..], end);
    }
  }

  lemma ShutdownEndsAtExit(cfg: Config, s: State)
    requires Reachable(cfg, s) && NonEmpty(cfg.hash) && s.closeThread
    requires Quiet(s) && !MainEnabled(s) && !SomeoneStuck(s)
    ensures s.main.Exited?
  {
    ReachableCounts(cfg, s);
    ReachableRelease(cfg, s);
    QuietOfficesWaitOrReturned(cfg, s);
    if s.main.Join? {
      SumOfOnes(s.workers, NotWaiting);
    }
  }

  lemma ExitMeansAllAnswered(cfg: Config, s: State)
    requires |s.workers| == cfg.offices && MutexInv(s) && QueueInv(s) && CloseInv(s) && ReleaseInv(s)
    requires ReplyInv(cfg, s) && s.main.Exited?
    ensures forall i :: 0 <= i < |s.workers| ==> s.workers[i].pc.Returned?
    ensures |s.replies| == |s.calls| == s.cutoff <= |s.pushed| && Requests(s.calls) == s.pushed[..s.cutoff]
  {
    assert !s.mutex.ByWorker?;
  }

  /** However the threads are scheduled from the moment `close_thread` is set, they take a bounded
      number of steps, and where they come to rest every `pthread_join` has returned and exactly the
      requests pushed before that moment have been answered, unless an office is stuck in a
      self-transfer. */
  lemma ShutdownCompletes(cfg: Config, s: State, actions: seq<Action>, end: State)
    requires Reachable(cfg, s) && NonEmpty(cfg.hash) && s.closeThread && Run(cfg, s, actions, end)
    ensures |actions| <= MainStepsLeft(s) + Measure(s)
    ensures Quiet(end) && !MainEnabled(end) ==>
      SomeoneStuck(end)
      || (&& end.main.Exited?
          && (forall i :: 0 <= i < |end.workers| ==> end.workers[i].pc.Returned?)
          && |end.replies| == |end.calls| == end.cutoff == s.cutoff <= |end.pushed|
          && Requests(end.calls) == end.pushed[..end.cutoff])
  {
    ShutdownRunsAreShort(cfg, s, actions, end);
    NothingIsPoppedAfterClose(cfg, s, actions, end);
    Runs.ReachableByRun(Steps(cfg), Init(cfg), s, actions, end);
    if Quiet(end) && !MainEnabled(end) && !SomeoneStuck(end) {
      ShutdownEndsAtExit(cfg, end);
      ReachableCounts(cfg, end);
      ReachableHistory(cfg, end);
      ReachableRelease(cfg, end);
      ExitMeansAllAnswered(cfg, end);
    }
  }

  // ----- from `server_exit` to `close_thread` -----

  /** How many steps `main` takes until it finds `server_exit` set and the queue empty, and closes. */
  function StepsToClose(main: MainPc): nat {
    match main
    case SetClose => 1
    case TestEmpty => 2
    case TestExit => 3
    case MainTest => 4
    case _ => 5
  }

  lemma IdleServerMovesToClose(cfg: Config, s: State, a: Action)
    requires Reachable(cfg, s) && NonEmpty(cfg.hash) && Enabled(s, a) && (a.MainStep? ==> a.input.None?)
    requires s.serverExit && !s.closeThread && s.queue == [] && !s.main.MainLock? && !s.main.MainPush?
    ensures var next := Next(cfg, s, a);
      && next.serverExit && next.queue == [] && !next.main.MainLock? && !next.main.MainPush?
      && (a.WorkerStep? ==> next.main == s.main && next.closeThread == s.closeThread)
      && (a.MainStep? ==> next.closeThread || StepsToClose(next.main) < StepsToClose(s.main))
  {
    ReachableTable(cfg, s);
    ReachableCounts(cfg, s);
  }

  lemma {:induction false} ClosedStaysClosed(cfg: Config, s: State, actions: seq<Action>, end: State)
    requires Run(cfg, s, actions, end) && s.closeThread
    ensures end.closeThread
    decreases |actions|
  {
    if actions != [] {
      ClosedStaysClosed(cfg, Next(cfg, s, actions[0]), actions[1..], end);
    }
  }

  /** Once `server_exit` is set and the queue is empty, `main` closes the server within five of its own
      steps, whatever the offices do, unless another request comes in. */
  lemma {:induction false} IdleServerCloses(cfg: Config, s: State, actions: seq<Action>, end: State)
    requires Reachable(cfg, s) && NonEmpty(cfg.hash) && NoInput(actions) && Run(cfg, s, actions, end)
    requires s.serverExit && !s.closeThread && s.queue == [] && !s.main.MainLock? && !s.main.MainPush?
    ensures |actions| - OfficeSteps(actions) >= StepsToClose(s.main) ==> end.closeThread
    ensures StepsToClose(s.main) <= 5
    decreases |actions|
  {
    if actions != [] {
      var next := Next(cfg, s, actions[0]);
      IdleServerMovesToClose(cfg, s, actions[0]);
      ReachableStep(cfg, s, actions[0]);
      if next.closeThread {
        ClosedStaysClosed(cfg, next, actions[1..], end);
      } else {
        IdleServerCloses(cfg, next, actions[1..], end);
      }
    }
  }

  // ----- a shutdown is always possible -----

  function AdminShutdown(cfg: Config): Request {
    RawRequest(Shutdown, 0, ADMIN_ACCOUNT_ID, cfg.adminPassword, 0, 0, 0, "")
  }

  /** Only requests in `known` were pushed or are about to be. */
  ghost predicate OnlyKnown(s: State, known: seq<Request>) {
    s.request in known && forall r :: r in s.pushed ==> r in known
  }

  lemma MainStepPushesKnown(cfg: Config, s: State, known: seq<Request>)
    requires OnlyKnown(s, known) && MainEnabled(s)
    ensures OnlyKnown(MainNext(cfg, s, MainStep(None)), known)
  {
  }

  /** How far `main` is from the head of its loop. */
  function StepsToLoop(main: MainPc): nat {
    match main
    case CreateAdmin | ReadRequest | MainPost => 1
    case MainUnlock | SetClose => 2
    case MainPush | TestEmpty => 3
    case MainLock | TestExit => 4
    case _ => 0
  }

  lemma {:induction false} MainReturnsToLoop(cfg: Config, s: State, mid: State, known: seq<Request>)
    returns (end: State)
    requires LeadsTo(cfg, s, mid) && OnlyKnown(mid, known) && (mid.main.MainLock? ==> mid.mutex.Free?)
    ensures LeadsTo(cfg, s, end) && OnlyKnown(end, known) && StepsToLoop(end.main) == 0
    decreases StepsToLoop(mid.main)
  {
    if StepsToLoop(mid.main) == 0 {
      end := mid;
    } else {
      LeadsToNext(cfg, s, mid, MainStep(None));
      MainStepPushesKnown(cfg, mid, known);
      end := MainReturnsToLoop(cfg, s, MainNext(cfg, mid, MainStep(None)), known);
    }
  }

  /** In every state the administrator's password is the one from the command line. */
  lemma AdminLogsIn(cfg: Config, calls: seq<Call>)
    requires NonEmpty(cfg.hash)
    ensures Code(cfg.hash, cfg.After(calls), AdminShutdown(cfg)).Ok?
  {
    GenesisIsCoherent(cfg.hash, cfg.adminPassword, cfg.adminSalt);
    CredentialsAreStable(cfg.hash, cfg.Genesis(), calls, ADMIN_ACCOUNT_ID);
  }

  lemma ShutdownTakesEffect(cfg: Config, s: State)
    requires Reachable(cfg, s) && NonEmpty(cfg.hash) && cfg.offices > 0
    requires Quiet(s) && !Announcing(s.main) && !SomeoneStuck(s) && !s.closeThread
    requires s.pushed != [] && s.pushed[|s.pushed| - 1] == AdminShutdown(cfg)
    requires |s.delivered| >= |s.pushed| ==> s.delivered[|s.pushed| - 1]
    ensures s.serverExit
  {
    var j := |s.pushed| - 1;
    QuietMeansAnswered(cfg, s);
    QuietOfficesWaitOrReturned(cfg, s);
    ReachableHistory(cfg, s);
    AdminLogsIn(cfg, s.calls[..j]);
    ExitMeansDeliveredShutdown(cfg, s);
    assert IsDeliveredShutdown(cfg, s, j);
  }

  /** With the offices at rest and the queue empty, the administrator shuts the server down. */
  lemma ServerCanClose(cfg: Config, s: State, mid: State, known: seq<Request>) returns (end: State)
    requires LeadsTo(cfg, s, mid) && NonEmpty(cfg.hash) && cfg.offices > 0
    requires Quiet(mid) && !SomeoneStuck(mid) && mid.main.MainTest? && !mid.closeThread
    requires OnlyKnown(mid, known) && AdminShutdown(cfg) in known
    ensures LeadsTo(cfg, s, end) && OnlyKnown(end, known)
    ensures Quiet(end) && end.main.MainTest? && !end.closeThread && (SomeoneStuck(end) || end.serverExit)
  {
    if mid.serverExit {
      end := mid;
    } else {
      QuietMeansAnswered(cfg, mid);
      ReachableHistory(cfg, mid);
      var asked := RequestIsRead(cfg, s, mid, AdminShutdown(cfg));
      asked := RequestIsPushed(cfg, s, asked);
      end := LeadsToRest(cfg, s, asked);
      if !SomeoneStuck(end) {
        ShutdownTakesEffect(cfg, end);
      }
    }
  }

  lemma ServerCloses(cfg: Config, s: State, mid: State) returns (end: State)
    requires LeadsTo(cfg, s, mid) && mid.main.MainTest? && !mid.closeThread && mid.serverExit && mid.queue == []
    ensures LeadsTo(cfg, s, end)
    ensures end == mid.(main := ReadRequest, closeThread := true, cutoff := |mid.pushed|)
  {
    var tick := MainStep(None);
    LeadsToNext(cfg, s, mid, tick);
    var mid1 := Next(cfg, mid, tick);
    LeadsToNext(cfg, s, mid1, tick);
    var mid2 := Next(cfg, mid1, tick);
    LeadsToNext(cfg, s, mid2, tick);
    var mid3 := Next(cfg, mid2, tick);
    LeadsToNext(cfg, s, mid3, tick);
    end := Next(cfg, mid3, tick);
  }

  /** One way to run the threads of a closed server until none can move. */
  lemma {:induction false} ClosedServerComesToRest(cfg: Config, s: State, mid: State, known: seq<Request>)
    returns (end: State)
    requires LeadsTo(cfg, s, mid) && NonEmpty(cfg.hash) && mid.closeThread && OnlyKnown(mid, known)
    ensures LeadsTo(cfg, s, end) && OnlyKnown(end, known)
    ensures end.main.Exited? || SomeoneStuck(end)
    decreases MainStepsLeft(mid) + Measure(mid)
  {
    if Quiet(mid) && !MainEnabled(mid) {
      end := mid;
      if !SomeoneStuck(end) {
        ShutdownEndsAtExit(cfg, end);
      }
    } else {
      var a := MainStep(None);
      if MainEnabled(mid) {
        MainStepPushesKnown(cfg, mid, known);
      } else {
        var i: nat :| WorkerEnabled(mid, i);
        a := WorkerStep(i, "", 0, true);
      }
      ReachableCounts(cfg, mid);
      ReachableRelease(cfg, mid);
      ShutdownStepDecreases(cfg, mid, a);
      LeadsToNext(cfg, s, mid, a);
      end := ClosedServerComesToRest(cfg, s, Next(cfg, mid, a), known);
    }
  }

  /** The offices come to rest while `main` goes back to the head of its loop. */
  lemma ServerComesToRest(cfg: Config, s: State, known: seq<Request>) returns (end: State)
    requires Reachable(cfg, s) && NonEmpty(cfg.hash) && OnlyKnown(s, known)
    ensures LeadsTo(cfg, s, end) && OnlyKnown(end, known)
    ensures SomeoneStuck(end) || end.closeThread || (Quiet(end) && end.main.MainTest?)
  {
    Runs.InitIsReachable(Steps(cfg), s);
    end := LeadsToRest(cfg, s, s);
    if !SomeoneStuck(end) {
      if end.main.MainLock? {
        QuietOfficesWaitOrReturned(cfg, end);
      }
      end := MainReturnsToLoop(cfg, s, end, known);
      ReachableCounts(cfg, end);
      end := LeadsToRest(cfg, s, end);
    }
  }

  /** From every state of every run the server can still be shut down, by one request of the
      administrator: there is a run from it in which all joins return, or an office gets stuck in a
      self-transfer; and the former if no request pushed or read before is a self-transfer. */
  lemma ShutdownIsAlwaysPossible(cfg: Config, s: State) returns (end: State)
    requires Reachable(cfg, s) && NonEmpty(cfg.hash) && cfg.offices > 0
    ensures LeadsTo(cfg, s, end) && (end.main.Exited? || SomeoneStuck(end))
    ensures (forall r :: r in s.pushed + [s.request] ==> !r.IsSelfTransfer()) ==> end.main.Exited?
  {
    var known := s.pushed + [s.request, AdminShutdown(cfg)];
    end := ServerComesToRest(cfg, s, known);
    if !SomeoneStuck(end) && !end.closeThread {
      end := ServerCanClose(cfg, s, end, known);
      if !SomeoneStuck(end) {
        QuietMeansAnswered(cfg, end);
        end := ServerCloses(cfg, s, end);
      }
    }
    if !SomeoneStuck(end) {
      end := ClosedServerComesToRest(cfg, s, end, known);
    }
    if SomeoneStuck(end) {
      StuckMeansSelfTransfer(cfg, end);
      assert end.pushed[|end.calls|] in end.pushed;
    }
  }

  /** In particular the theorems on shutdown are about something: for any positive number of offices some run of
      the whole server ends with all offices returned. */
  lemma ExitIsReachable(cfg: Config) returns (end: State)
    requires NonEmpty(cfg.hash) && cfg.offices > 0
    ensures Reachable(cfg, end) && end.main.Exited?
    ensures forall i :: 0 <= i < |end.workers| ==> end.workers[i].pc.Returned?
  {
    Runs.InitIsReachable(Steps(cfg), Init(cfg));
    end := ShutdownIsAlwaysPossible(cfg, Init(cfg));
    ReachableRelease(cfg, end);
  }

  // ----- the request that comes too late -----

  /** The server has served a shutdown and is about to close. */
  lemma ServerServesShutdown(cfg: Config) returns (s: State)
    requires NonEmpty(cfg.hash) && cfg.offices > 0
    ensures Reachable(cfg, s) && s.main.MainTest? && !s.closeThread && s.serverExit
    ensures s.mutex.Free? && s.queue == [] && s.pushed == [AdminShutdown(cfg)]
  {
    s := ServerStarts(cfg);
    s := RequestIsRead(cfg, Init(cfg), s, AdminShutdown(cfg));
    s := RequestIsPushed(cfg, Init(cfg), s);
    s := LeadsToRest(cfg, Init(cfg), s);
    if SomeoneStuck(s) {
      StuckMeansSelfTransfer(cfg, s);
    }
    QuietMeansAnswered(cfg, s);
    ShutdownTakesEffect(cfg, s);
  }

  /** In the round in which it closes, `main` still reads and pushes `r`. */
  lemma LateRequestIsPushed(cfg: Config, r: Request) returns (s: State)
    requires NonEmpty(cfg.hash) && cfg.offices > 0
    ensures Reachable(cfg, s) && s.closeThread && s.cutoff == 1 && s.pushed == [AdminShutdown(cfg), r]
  {
    var base := ServerServesShutdown(cfg);
    Runs.InitIsReachable(Steps(cfg), base);
    s := ServerCloses(cfg, base, base);
    LeadsToNext(cfg, base, s, MainStep(Some(r)));
    s := Next(cfg, s, MainStep(Some(r)));
    s := RequestIsPushed(cfg, base, s);
  }

  /** The bound of `OnlyOneRequestComesTooLate` cannot be improved: for every request `r` there is a run
      that ends with `r` pushed, still in the queue, and never answered. */
  lemma LateRequestIsLost(cfg: Config, r: Request) returns (end: State)
    requires NonEmpty(cfg.hash) && cfg.offices > 0
    ensures Reachable(cfg, end) && end.main.Exited?
    ensures end.pushed == [AdminShutdown(cfg), r] && end.queue == [r] && |end.replies| == 1
  {
    var s := LateRequestIsPushed(cfg, r);
    Runs.InitIsReachable(Steps(cfg), s);
    end := ClosedServerComesToRest(cfg, s, s, s.pushed + [s.request]);
    var actions := Runs.RunFromInit(Steps(cfg), s, end);
    HistoryGrows(cfg, s, actions, end);
    NothingIsPoppedAfterClose(cfg, s, actions, end);
    OnlyOneRequestComesTooLate(cfg, end);
    if SomeoneStuck(end) {
      StuckMeansSelfTransfer(cfg, end);
    }
    ReachableCounts(cfg, end);
    ReachableHistory(cfg, end);
    ReachableRelease(cfg, end);
    ExitMeansAllAnswered(cfg, end);
  }
}
