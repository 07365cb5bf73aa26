/** The history of the bank server against the choices made in a run: what `main` reads is what it
    pushes, and what the environment chooses is what the calls and the log record. */
module ProtocolHistory {
  import opened Types
  import opened Bank
  import opened Counting
  import opened Protocol
  import opened ProtocolInvariant
  import opened ProtocolSafety
  import opened ProtocolProgress
  import Runs

  /** What `f` sees at the steps of a run, in order. */
  ghost function Collect<T>(cfg: Config, s: State, actions: seq<Action>, f: (State, Action) -> seq<T>): seq<T>
    decreases |actions|
  {
    if actions == [] || !Enabled(s, actions[0]) then []
    else f(s, actions[0]) + Collect(cfg, Next(cfg, s, actions[0]), actions[1..], f)
  }

  /** A sequence that each step extends by what `f` sees there. */
  lemma Extended<T>(before: seq<T>, now: seq<T>, later: seq<T>, next: seq<T>, end: seq<T>)
    requires next == before + now && end == next + later
    ensures end == before + (now + later)
  {
  }

  // ----- what main reads -----

  /** The result of the `read` that this step makes, if it makes one. */
  function ReadAt(s: State, a: Action): seq<Option<Request>> {
    if a.MainStep? && s.main.ReadRequest? then [a.input] else []
  }

  /** The request that this step reads, if it reads one. */
  function RequestAt(s: State, a: Action): seq<Request> {
    if a.MainStep? && s.main.ReadRequest? && a.input.Some? then [a.input.value] else []
  }

  /** The request that `main` has read and not pushed yet. */
  function InHand(s: State): seq<Request> {
    if s.main.MainLock? || s.main.MainPush? then [s.request] else []
  }

  lemma StepPushesWhatItReads(cfg: Config, s: State, a: Action)
    requires Enabled(s, a)
    ensures var next := Next(cfg, s, a);
      next.pushed + InHand(next) == s.pushed + InHand(s) + RequestAt(s, a)
  {
  }

  /** Every request read is pushed, once and in the order of reading, also after a shutdown; nothing
      else is. */
  lemma {:induction false} EveryReadIsPushed(cfg: Config, s: State, actions: seq<Action>, end: State)
    requires Run(cfg, s, actions, end)
    ensures end.pushed + InHand(end) == s.pushed + InHand(s) + Collect(cfg, s, actions, RequestAt)
    decreases |actions|
  {
    if actions != [] {
      var next := Next(cfg, s, actions[0]);
      StepPushesWhatItReads(cfg, s, actions[0]);
      EveryReadIsPushed(cfg, next, actions[1..], end);
      Extended(s.pushed + InHand(s), RequestAt(s, actions[0]), Collect(cfg, next, actions[1..], RequestAt),
               next.pushed + InHand(next), end.pushed + InHand(end));
    }
  }

  /** This step enters the body of the loop of `main`. */
  function RoundAt(s: State, a: Action): seq<bool> {
    if a.MainStep? && s.main.MainTest? && !s.closeThread then [true] else []
  }

  /** `main` is in a round of its loop and has not read yet. */
  function BeforeRead(s: State): nat {
    if s.main.TestExit? || s.main.TestEmpty? || s.main.SetClose? || s.main.ReadRequest? then 1 else 0
  }

  /** `main` reads exactly once in each round of its loop, also while the queue drains after a shutdown
      and in the round in which it closes the server. */
  lemma {:induction false} OneReadPerRound(cfg: Config, s: State, actions: seq<Action>, end: State)
    requires Run(cfg, s, actions, end)
    ensures |Collect(cfg, s, actions, ReadAt)| + BeforeRead(end) == |Collect(cfg, s, actions, RoundAt)| + BeforeRead(s)
    decreases |actions|
  {
    if actions != [] {
      OneReadPerRound(cfg, Next(cfg, s, actions[0]), actions[1..], end);
    }
  }

  lemma EveryReadIsPushedFromTheStart(cfg: Config, actions: seq<Action>, end: State)
    requires Run(cfg, Init(cfg), actions, end)
    ensures Reachable(cfg, end) && end.pushed + InHand(end) == Collect(cfg, Init(cfg), actions, RequestAt)
  {
    var init := Init(cfg);
    EveryReadIsPushed(cfg, init, actions, end);
    assert init.pushed + InHand(init) == [];
    Runs.InitIsReachable(Steps(cfg), init);
    Runs.ReachableByRun(Steps(cfg), init, init, actions, end);
  }

  /** Every office of an open server waits for a request, nobody is stuck, and `main` holds nothing. */
  ghost predicate Idle(s: State) {
    Quiet(s) && !s.closeThread && !Announcing(s.main) && !s.main.MainLock? && !SomeoneStuck(s)
  }

  lemma IdleServerHasAnsweredAllPushes(cfg: Config, s: State)
    requires Reachable(cfg, s) && NonEmpty(cfg.hash) && cfg.offices > 0 && Idle(s)
    ensures s.pushed + InHand(s) == Requests(s.calls) && |s.replies| == |s.calls|
  {
    ReachableHistory(cfg, s);
    QuietMeansAnswered(cfg, s);
  }

  /** From the start of the server: the requests read are those popped, in order, followed by those in
      the queue and in the hand of `main`; and when the server is idle all of them have been answered. */
  lemma EveryRequestReadIsAnswered(cfg: Config, actions: seq<Action>, end: State)
    requires NonEmpty(cfg.hash) && cfg.offices > 0 && Run(cfg, Init(cfg), actions, end)
    ensures var requests := Collect(cfg, Init(cfg), actions, RequestAt);
      && requests == Popped(end) + end.queue + InHand(end)
      && (Idle(end) ==> requests == Requests(end.calls) && |end.replies| == |end.calls|)
  {
    EveryReadIsPushedFromTheStart(cfg, actions, end);
    ReachableHistory(cfg, end);
    if Idle(end) {
      IdleServerHasAnsweredAllPushes(cfg, end);
    }
  }

  // ----- what the offices record -----

  /** Whether the reply sent in this step reaches its user, if one is sent. */
  function DeliveryAt(s: State, a: Action): seq<bool> {
    if a.WorkerStep? && a.i < |s.workers| && s.workers[a.i].pc.SendReply? then [a.up] else []
  }

  lemma StepRecordsDelivery(cfg: Config, s: State, a: Action)
    requires Enabled(s, a)
    ensures Next(cfg, s, a).delivered == s.delivered + DeliveryAt(s, a)
  {
  }

  lemma {:induction false} DeliveriesAreRecorded(cfg: Config, s: State, actions: seq<Action>, end: State)
    requires Run(cfg, s, actions, end)
    ensures end.delivered == s.delivered + Collect(cfg, s, actions, DeliveryAt)
    decreases |actions|
  {
    if actions != [] {
      var next := Next(cfg, s, actions[0]);
      StepRecordsDelivery(cfg, s, actions[0]);
      DeliveriesAreRecorded(cfg, next, actions[1..], end);
      Extended(s.delivered, DeliveryAt(s, actions[0]), Collect(cfg, next, actions[1..], DeliveryAt),
               next.delivered, end.delivered);
    }
  }

  /** The call made in this step, if one is made: for the first request without a call, with the salt
      drawn now and the number of offices between their increment and decrement of `active_threads`
      now. */
  function CallAt(s: State, a: Action): seq<Call> {
    if a.WorkerStep? && a.i < |s.workers| && s.workers[a.i].pc.BuildReply? && |s.calls| < |s.pushed|
    then [Call(s.pushed[|s.calls|], a.salt, Sum(s.workers, Counted), a.junk)]
    else []
  }

  lemma StepMakesItsCall(cfg: Config, s: State, a: Action)
    requires MutexInv(s) && QueueInv(s) && CountInv(s) && Enabled(s, a)
    ensures Next(cfg, s, a).calls == s.calls + CallAt(s, a)
  {
    if a.WorkerStep? && s.workers[a.i].pc.BuildReply? {
      assert Popped(s)[|s.calls|] == s.workers[a.i].request;
    }
  }

  lemma {:induction false} CallsAreRecorded(cfg: Config, s: State, actions: seq<Action>, end: State)
    requires Reachable(cfg, s) && NonEmpty(cfg.hash) && Run(cfg, s, actions, end)
    ensures end.calls == s.calls + Collect(cfg, s, actions, CallAt)
    decreases |actions|
  {
    if actions != [] {
      var next := Next(cfg, s, actions[0]);
      ReachableHistory(cfg, s);
      ReachableCounts(cfg, s);
      StepMakesItsCall(cfg, s, actions[0]);
      ReachableStep(cfg, s, actions[0]);
      CallsAreRecorded(cfg, next, actions[1..], end);
      Extended(s.calls, CallAt(s, actions[0]), Collect(cfg, next, actions[1..], CallAt), next.calls, end.calls);
    }
  }

  /** One step of a reachable state, as these theorems see it. */
  lemma StepKeepsHistory(cfg: Config, s: State, a: Action)
    requires Reachable(cfg, s) && NonEmpty(cfg.hash) && Enabled(s, a)
    ensures var next := Next(cfg, s, a);
      && next.pushed + InHand(next) == s.pushed + InHand(s) + RequestAt(s, a)
      && next.calls == s.calls + CallAt(s, a)
      && next.delivered == s.delivered + DeliveryAt(s, a)
  {
    StepPushesWhatItReads(cfg, s, a);
    ReachableHistory(cfg, s);
    ReachableCounts(cfg, s);
    StepMakesItsCall(cfg, s, a);
    StepRecordsDelivery(cfg, s, a);
  }
}
