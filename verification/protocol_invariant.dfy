/** The invariant of the server protocol and the proof that every step keeps it. */
module ProtocolInvariant {
  import opened Types
  import opened Bank
  import opened BankProperties
  import opened Counting
  import opened Protocol
  import Runs

  // ----- where an office stands -----

  /** Holds the mutex. */
  predicate InCritical(pc: Pc) {
    match pc
    case PopRequest | CountIn | WaitSource | WaitTarget | BuildReply
       | PostSource | PostTarget | SendReply | UnlockMutex => true
    case _ => false
  }

  /** Has popped a request that no call has handled yet. */
  predicate HasRequest(pc: Pc) {
    pc.CountIn? || pc.WaitSource? || pc.WaitTarget? || pc.BuildReply?
  }

  /** Has built a reply and not logged it yet. */
  predicate HasReply(pc: Pc) {
    pc.PostSource? || pc.PostTarget? || pc.SendReply?
  }

  /** Has passed the wait on `main_sem` and not popped yet. */
  function Woken(w: Worker): nat {
    if w.pc.TestClose? || w.pc.LockMutex? || w.pc.PopRequest? then 1 else 0
  }

  /** Is between the increment and the decrement of `active_threads`. */
  function Counted(w: Worker): nat {
    if (InCritical(w.pc) && !w.pc.PopRequest? && !w.pc.CountIn?) || w.pc.NoteShutdown? || w.pc.CountOut? then 1 else 0
  }

  function NotWaiting(w: Worker): nat {
    if w.pc.WaitMain? then 0 else 1
  }

  function Pending(main: MainPc): nat {
    if main.MainUnlock? || main.MainPost? then 1 else 0
  }

  // ----- requests and replies in order -----

  function Requests(calls: seq<Call>): seq<Request> {
    seq(|calls|, i requires 0 <= i < |calls| => calls[i].request)
  }

  /** The requests popped so far, in order. */
  function Popped(s: State): seq<Request> {
    Requests(s.calls) +
    if s.mutex.ByWorker? && s.mutex.i < |s.workers| && HasRequest(s.workers[s.mutex.i].pc)
    then [s.workers[s.mutex.i].request] else []
  }

  /** What a server without threads would log for `c` after the calls `before`: the bank's reply, with
      the return code alone replaced if the user is gone. */
  function ReplyTo(hash: HashFn, t: Table, before: seq<Call>, c: Call, up: bool): Reply {
    var reply := Handle(hash, Fold(hash, t, before), c).reply;
    if up then reply else Reply(reply.op, reply.length, reply.accountId, UsrDown, reply.word)
  }

  /** What a server without threads would log for the calls. */
  function SequentialReplies(hash: HashFn, t: Table, calls: seq<Call>, delivered: seq<bool>): seq<Reply>
    requires |calls| == |delivered|
  {
    seq(|calls|, j requires 0 <= j < |calls| => ReplyTo(hash, t, calls[..j], calls[j], delivered[j]))
  }

  /** The table `base` with the semaphores that `w` holds taken. */
  function Held(base: Table, w: Worker): Table {
    match w.pc
    case WaitTarget => Take(base, w.request.accountId)
    case BuildReply | PostSource => TakeTarget(Take(base, w.request.accountId), w.request)
    case PostTarget => TakeTarget(base, w.request)
    case _ => base
  }

  predicate SelfActive(t: Table, r: Request) {
    r.IsSelfTransfer() && t[r.accountId].active
  }

  // ----- the invariant, part by part -----

  ghost predicate MutexInv(s: State) {
    && (forall i :: 0 <= i < |s.workers| ==> (InCritical(s.workers[i].pc) <==> s.mutex == ByWorker(i)))
    && (s.mutex.ByWorker? ==> s.mutex.i < |s.workers|)
    && (s.main.MainPush? || s.main.MainUnlock? <==> s.mutex.ByMain?)
  }

  ghost predicate QueueInv(s: State) {
    s.pushed == Popped(s) + s.queue
  }

  ghost predicate CountInv(s: State) {
    && s.activeThreads == Sum(s.workers, Counted)
    && (!s.closeThread ==> |s.queue| == s.mainSem + Sum(s.workers, Woken) + Pending(s.main))
  }

  ghost predicate StartInv(s: State) {
    s.main.CreateAdmin? ==>
      && s.accounts == BlankTable() && s.mutex.Free? && s.mainSem == 0 && !s.serverExit && !s.closeThread
      && s.calls == [] && s.pushed == []
      && forall i :: 0 <= i < |s.workers| ==> s.workers[i].pc.TestLoop? || s.workers[i].pc.WaitMain?
  }

  ghost predicate CloseInv(s: State) {
    && (s.main.TestEmpty? || s.main.SetClose? || s.closeThread ==> s.serverExit)
    && (s.main.SetClose? ==> s.queue == [])
    && (s.main.Release? || s.main.Join? || s.main.Exited? ==> s.closeThread)
    && (if s.closeThread then
          && !s.main.TestExit? && !s.main.TestEmpty? && !s.main.SetClose? && !s.main.CreateAdmin?
          && s.cutoff == |Popped(s)|
          && |s.queue| <= 1
          && (s.main.ReadRequest? || s.main.MainLock? || s.main.MainPush? ==> s.queue == [])
          && (forall i :: 0 <= i < |s.workers| ==> !s.workers[i].pc.LockMutex? && !s.workers[i].pc.PopRequest?)
        else
          forall i :: 0 <= i < |s.workers| ==> !s.workers[i].pc.Returned?)
  }

  ghost predicate ReleaseInv(s: State) {
    match s.main
    case Release(n) => n <= |s.workers| && s.mainSem + Sum(s.workers, NotWaiting) >= n
    case Join(n) =>
      && n <= |s.workers| && s.mainSem + Sum(s.workers, NotWaiting) >= |s.workers|
      && forall i :: 0 <= i < n ==> s.workers[i].pc.Returned?
    case Exited => forall i :: 0 <= i < |s.workers| ==> s.workers[i].pc.Returned?
    case _ => true
  }

  ghost predicate TableInv(cfg: Config, s: State) {
    !s.main.CreateAdmin? ==>
      s.accounts ==
        if s.mutex.ByWorker? && s.mutex.i < |s.workers|
        then Held(cfg.After(s.calls), s.workers[s.mutex.i]) else cfg.After(s.calls)
  }

  ghost predicate CallsInv(cfg: Config, s: State) {
    forall j :: 0 <= j < |s.calls| ==>
      1 <= s.calls[j].offices <= cfg.offices && !SelfActive(cfg.After(s.calls[..j]), s.calls[j].request)
  }

  /** Nobody gets past the second wait with a transfer to the same active account. */
  ghost predicate SelfInv(cfg: Config, s: State) {
    forall i :: 0 <= i < |s.workers| ==>
      (s.workers[i].pc.BuildReply? || s.workers[i].pc.PostSource? || s.workers[i].pc.PostTarget?) ==>
        !SelfActive(cfg.After(s.calls), s.workers[i].request)
  }

  /** A reply built and not yet logged is the one the last call gives. */
  ghost predicate HandInv(cfg: Config, s: State) {
    if s.mutex.ByWorker? && s.mutex.i < |s.workers| && HasReply(s.workers[s.mutex.i].pc) then
      var w, n := s.workers[s.mutex.i], |s.calls| - 1;
      && |s.calls| == |s.replies| + 1
      && w.request == s.calls[n].request
      && w.reply == Handle(cfg.hash, cfg.After(s.calls[..n]), s.calls[n]).reply
    else |s.calls| == |s.replies|
  }

  ghost predicate LogInv(cfg: Config, s: State) {
    && |s.replies| == |s.delivered| <= |s.calls|
    && forall j {:trigger s.replies[j]} :: 0 <= j < |s.replies| ==>
         s.replies[j] == ReplyTo(cfg.hash, cfg.Genesis(), s.calls[..j], s.calls[j], s.delivered[j])
  }

  ghost predicate ReplyInv(cfg: Config, s: State) {
    HandInv(cfg, s) && LogInv(cfg, s)
  }

  ghost predicate AnyAccepted(replies: seq<Reply>) {
    exists r :: r in replies && IsAcceptedShutdown(r)
  }

  /** An office that has logged an accepted shutdown and not yet set `server_exit`. */
  ghost predicate Noting(workers: seq<Worker>) {
    exists i :: 0 <= i < |workers| && (workers[i].pc.UnlockMutex? || workers[i].pc.NoteShutdown?)
                && IsAcceptedShutdown(workers[i].reply)
  }

  ghost predicate ShutdownInv(s: State) {
    AnyAccepted(s.replies) <==> s.serverExit || Noting(s.workers)
  }

  ghost predicate Inv(cfg: Config, s: State) {
    && |s.workers| == cfg.offices
    && MutexInv(s)
    && QueueInv(s)
    && CountInv(s)
    && StartInv(s)
    && CloseInv(s)
    && ReleaseInv(s)
    && TableInv(cfg, s)
    && CallsInv(cfg, s)
    && SelfInv(cfg, s)
    && ReplyInv(cfg, s)
    && ShutdownInv(s)
  }

  // ----- the start -----

  lemma InitHasInv(cfg: Config)
    ensures Inv(cfg, Init(cfg))
  {
    var s := Init(cfg);
    SumOfZeros(s.workers, Woken);
    SumOfZeros(s.workers, Counted);
  }

  // ----- offices -----

  lemma WorkerKeepsMutex(cfg: Config, s: State, a: Action)
    requires MutexInv(s) && StartInv(s) && a.WorkerStep? && WorkerEnabled(s, a.i)
    ensures MutexInv(WorkerNext(cfg, s, a)) && StartInv(WorkerNext(cfg, s, a))
  {
    var next := WorkerNext(cfg, s, a);
    assert next.workers == s.workers[a.i := next.workers[a.i]];
  }

  lemma WorkerKeepsQueue(cfg: Config, s: State, a: Action)
    requires MutexInv(s) && QueueInv(s) && a.WorkerStep? && WorkerEnabled(s, a.i)
    ensures QueueInv(WorkerNext(cfg, s, a))
    ensures s.workers[a.i].pc.PopRequest? || Popped(WorkerNext(cfg, s, a)) == Popped(s)
  {
    var next := WorkerNext(cfg, s, a);
    if s.workers[a.i].pc.PopRequest? {
      assert Popped(next) == Popped(s) + [s.queue[0]];
    }
  }

  lemma WorkerKeepsOfficeCount(cfg: Config, s: State, a: Action)
    requires s.activeThreads == Sum(s.workers, Counted) && a.WorkerStep? && WorkerEnabled(s, a.i)
    ensures var next := WorkerNext(cfg, s, a); next.activeThreads == Sum(next.workers, Counted)
  {
    SumOfUpdate(s.workers, a.i, NextWorker(cfg, s, a), Counted);
  }

  lemma WorkerKeepsWoken(cfg: Config, s: State, a: Action)
    requires CountInv(s) && CloseInv(s) && a.WorkerStep? && WorkerEnabled(s, a.i) && !s.closeThread
    ensures var next := WorkerNext(cfg, s, a);
      |next.queue| == next.mainSem + Sum(next.workers, Woken) + Pending(next.main)
  {
    SumOfUpdate(s.workers, a.i, NextWorker(cfg, s, a), Woken);
  }

  lemma WorkerKeepsCounts(cfg: Config, s: State, a: Action)
    requires CountInv(s) && CloseInv(s) && a.WorkerStep? && WorkerEnabled(s, a.i)
    ensures CountInv(WorkerNext(cfg, s, a))
  {
    WorkerKeepsOfficeCount(cfg, s, a);
    if !s.closeThread {
      WorkerKeepsWoken(cfg, s, a);
    }
  }

  lemma WorkerKeepsRelease(cfg: Config, s: State, a: Action)
    requires ReleaseInv(s) && CloseInv(s) && a.WorkerStep? && WorkerEnabled(s, a.i)
    ensures ReleaseInv(WorkerNext(cfg, s, a))
  {
    SumOfUpdate(s.workers, a.i, NextWorker(cfg, s, a), NotWaiting);
  }

  lemma WorkerKeepsClose(cfg: Config, s: State, a: Action)
    requires MutexInv(s) && QueueInv(s) && CloseInv(s) && a.WorkerStep? && WorkerEnabled(s, a.i)
    ensures CloseInv(WorkerNext(cfg, s, a))
  {
    WorkerKeepsQueue(cfg, s, a);
  }

  lemma WorkerKeepsShutdown(cfg: Config, s: State, a: Action)
    requires ShutdownInv(s) && a.WorkerStep? && WorkerEnabled(s, a.i)
    ensures ShutdownInv(WorkerNext(cfg, s, a))
  {
    var next := WorkerNext(cfg, s, a);
    assert forall k :: 0 <= k < |s.workers| && k != a.i ==> next.workers[k] == s.workers[k];
    var w := next.workers[a.i];
    if s.workers[a.i].pc.SendReply? {
      assert w.reply in next.replies;
      assert forall r :: r in s.replies ==> r in next.replies;
    }
  }

  lemma BuildReplyFillsHand(cfg: Config, s: State, a: Action)
    requires MutexInv(s) && HandInv(cfg, s) && a.WorkerStep? && WorkerEnabled(s, a.i)
    requires s.workers[a.i].pc.BuildReply?
    requires Handle(cfg.hash, s.accounts, CallOf(s, a)).reply ==
             Handle(cfg.hash, cfg.After(s.calls), CallOf(s, a)).reply
    ensures HandInv(cfg, WorkerNext(cfg, s, a))
  {
    assert (s.calls + [CallOf(s, a)])[..|s.calls|] == s.calls;
  }

  lemma OtherStepsKeepHand(cfg: Config, s: State, a: Action)
    requires MutexInv(s) && HandInv(cfg, s) && a.WorkerStep? && WorkerEnabled(s, a.i)
    requires !s.workers[a.i].pc.BuildReply?
    ensures HandInv(cfg, WorkerNext(cfg, s, a))
  {
  }

  lemma LogSurvivesACall(cfg: Config, s: State, next: State, c: Call)
    requires LogInv(cfg, s) && next.calls == s.calls + [c]
    requires next.replies == s.replies && next.delivered == s.delivered
    ensures LogInv(cfg, next)
  {
    assert forall j :: 0 <= j < |s.replies| ==> next.calls[..j] == s.calls[..j];
  }

  lemma LogTakesAReply(cfg: Config, s: State, next: State, reply: Reply, up: bool)
    requires LogInv(cfg, s) && next.calls == s.calls && |s.calls| == |s.replies| + 1
    requires next.replies == s.replies + [reply] && next.delivered == s.delivered + [up]
    requires reply == ReplyTo(cfg.hash, cfg.Genesis(), s.calls[..|s.replies|], s.calls[|s.replies|], up)
    ensures LogInv(cfg, next)
  {
  }

  lemma WorkerKeepsLog(cfg: Config, s: State, a: Action)
    requires MutexInv(s) && ReplyInv(cfg, s) && a.WorkerStep? && WorkerEnabled(s, a.i)
    ensures LogInv(cfg, WorkerNext(cfg, s, a))
  {
    var next := WorkerNext(cfg, s, a);
    match s.workers[a.i].pc {
      case BuildReply => LogSurvivesACall(cfg, s, next, CallOf(s, a));
      case SendReply => LogTakesAReply(cfg, s, next, Sent(s.workers[a.i].reply, a.up), a.up);
      case _ =>
    }
  }

  // ----- the account table -----

  /** `build_tlv_reply` does not look at semaphores, so it commutes with taking them. */
  lemma HandleCommutesWithTake(hash: HashFn, base: Table, c: Call)
    requires Coherent(base) && !SelfActive(base, c.request)
    ensures var r, after := c.request, Handle(hash, base, c);
      Handle(hash, TakeTarget(Take(base, r.accountId), r), c) ==
      Result(TakeTarget(Take(after.accounts, r.accountId), r), after.reply)
  {
    var r, after := c.request, Handle(hash, base, c).accounts;
    var locked := TakeTarget(Take(base, r.accountId), r);
    assert forall k :: 0 <= k < MAX_BANK_ACCOUNTS ==>
      locked[k] == base[k].(semaphore := locked[k].semaphore);
    assert Code(hash, locked, r) == Code(hash, base, r);
    assert Updated(hash, locked, c) == TakeTarget(Take(after, r.accountId), r);
  }

  lemma GiveUndoesTake(base: Table, r: Request)
    requires Coherent(base) && !SelfActive(base, r)
    ensures Give(TakeTarget(Take(base, r.accountId), r), r.accountId) == TakeTarget(base, r)
    ensures GiveTarget(TakeTarget(base, r), r) == base
  {
  }

  lemma CallsAppend(cfg: Config, s: State, c: Call)
    requires CallsInv(cfg, s) && 1 <= c.offices <= cfg.offices && !SelfActive(cfg.After(s.calls), c.request)
    ensures forall j :: 0 <= j < |s.calls + [c]| ==>
      && 1 <= (s.calls + [c])[j].offices <= cfg.offices
      && !SelfActive(cfg.After((s.calls + [c])[..j]), (s.calls + [c])[j].request)
  {
    var calls := s.calls + [c];
    forall j | 0 <= j < |calls|
      ensures 1 <= calls[j].offices <= cfg.offices && !SelfActive(cfg.After(calls[..j]), calls[j].request)
    {
      assert calls[..j] == s.calls[..j];
      assert s.calls[..|s.calls|] == s.calls;
    }
  }

  lemma OfficesAreCounted(cfg: Config, s: State, i: nat)
    requires CountInv(s) && |s.workers| == cfg.offices && i < |s.workers| && Counted(s.workers[i]) == 1
    ensures 1 <= s.activeThreads <= cfg.offices
  {
    SumCoversEach(s.workers, i, Counted);
    SumOfOnes(s.workers, Counted);
  }

  lemma AfterIsCoherent(cfg: Config, calls: seq<Call>)
    requires NonEmpty(cfg.hash)
    ensures Coherent(cfg.After(calls))
  {
    GenesisIsCoherent(cfg.hash, cfg.adminPassword, cfg.adminSalt);
    FoldIsCoherent(cfg.hash, cfg.Genesis(), calls);
  }

  lemma HandleKeepsSelfActive(hash: HashFn, t: Table, c: Call)
    requires Coherent(t) && !SelfActive(t, c.request)
    ensures !SelfActive(Handle(hash, t, c).accounts, c.request)
  {
  }

  /** What the holder of the mutex sees when it builds its reply. */
  lemma BuildReplySeesTheFold(cfg: Config, s: State, a: Action)
    requires MutexInv(s) && StartInv(s) && TableInv(cfg, s) && SelfInv(cfg, s) && NonEmpty(cfg.hash)
    requires a.WorkerStep? && WorkerEnabled(s, a.i) && s.workers[a.i].pc.BuildReply?
    ensures var c, base := CallOf(s, a), cfg.After(s.calls);
      && cfg.After(s.calls + [c]) == Handle(cfg.hash, base, c).accounts
      && !SelfActive(cfg.After(s.calls + [c]), c.request)
      && Handle(cfg.hash, s.accounts, c) ==
         Result(TakeTarget(Take(cfg.After(s.calls + [c]), c.request.accountId), c.request),
                Handle(cfg.hash, base, c).reply)
  {
    var c, base := CallOf(s, a), cfg.After(s.calls);
    AfterIsCoherent(cfg, s.calls);
    FoldAppend(cfg.hash, cfg.Genesis(), s.calls, c);
    HandleCommutesWithTake(cfg.hash, base, c);
    HandleKeepsSelfActive(cfg.hash, base, c);
  }

  lemma WorkerKeepsCalls(cfg: Config, s: State, a: Action)
    requires |s.workers| == cfg.offices && CountInv(s) && CallsInv(cfg, s) && SelfInv(cfg, s)
    requires a.WorkerStep? && WorkerEnabled(s, a.i)
    ensures CallsInv(cfg, WorkerNext(cfg, s, a))
  {
    if s.workers[a.i].pc.BuildReply? {
      OfficesAreCounted(cfg, s, a.i);
      CallsAppend(cfg, s, CallOf(s, a));
    }
  }

  /** A second wait on one's own account is never granted. */
  lemma SecondWaitIsRefused(cfg: Config, s: State, i: nat)
    requires MutexInv(s) && StartInv(s) && TableInv(cfg, s) && NonEmpty(cfg.hash)
    requires i < |s.workers| && s.workers[i].pc.WaitTarget?
    requires SelfActive(cfg.After(s.calls), s.workers[i].request)
    ensures StuckInSelfTransfer(s, i) && !WorkerEnabled(s, i)
  {
    AfterIsCoherent(cfg, s.calls);
  }

  lemma BuildReplyKeepsSelf(cfg: Config, s: State, a: Action)
    requires MutexInv(s) && StartInv(s) && TableInv(cfg, s) && SelfInv(cfg, s) && NonEmpty(cfg.hash)
    requires a.WorkerStep? && WorkerEnabled(s, a.i) && s.workers[a.i].pc.BuildReply?
    ensures SelfInv(cfg, WorkerNext(cfg, s, a))
  {
    BuildReplySeesTheFold(cfg, s, a);
    assert forall k :: 0 <= k < |s.workers| && k != a.i ==> s.mutex != ByWorker(k);
  }

  lemma OtherStepsKeepSelf(cfg: Config, s: State, a: Action)
    requires MutexInv(s) && StartInv(s) && TableInv(cfg, s) && SelfInv(cfg, s) && NonEmpty(cfg.hash)
    requires a.WorkerStep? && WorkerEnabled(s, a.i) && !s.workers[a.i].pc.BuildReply?
    ensures SelfInv(cfg, WorkerNext(cfg, s, a))
  {
    if s.workers[a.i].pc.WaitTarget? && SelfActive(cfg.After(s.calls), s.workers[a.i].request) {
      SecondWaitIsRefused(cfg, s, a.i);
    }
  }

  lemma BuildReplyKeepsTable(cfg: Config, s: State, a: Action)
    requires MutexInv(s) && StartInv(s) && TableInv(cfg, s) && SelfInv(cfg, s) && NonEmpty(cfg.hash)
    requires a.WorkerStep? && WorkerEnabled(s, a.i) && s.workers[a.i].pc.BuildReply?
    ensures TableInv(cfg, WorkerNext(cfg, s, a))
  {
    BuildReplySeesTheFold(cfg, s, a);
  }

  lemma WaitsKeepTable(cfg: Config, s: State, a: Action)
    requires MutexInv(s) && StartInv(s) && TableInv(cfg, s)
    requires a.WorkerStep? && WorkerEnabled(s, a.i)
    requires s.workers[a.i].pc.WaitSource? || s.workers[a.i].pc.WaitTarget?
    ensures TableInv(cfg, WorkerNext(cfg, s, a))
  {
  }

  lemma PostSourceKeepsTable(cfg: Config, s: State, a: Action)
    requires MutexInv(s) && StartInv(s) && TableInv(cfg, s) && SelfInv(cfg, s) && NonEmpty(cfg.hash)
    requires a.WorkerStep? && WorkerEnabled(s, a.i) && s.workers[a.i].pc.PostSource?
    ensures TableInv(cfg, WorkerNext(cfg, s, a))
  {
    AfterIsCoherent(cfg, s.calls);
    GiveUndoesTake(cfg.After(s.calls), s.workers[a.i].request);
  }

  lemma PostTargetKeepsTable(cfg: Config, s: State, a: Action)
    requires MutexInv(s) && StartInv(s) && TableInv(cfg, s) && SelfInv(cfg, s) && NonEmpty(cfg.hash)
    requires a.WorkerStep? && WorkerEnabled(s, a.i) && s.workers[a.i].pc.PostTarget?
    ensures TableInv(cfg, WorkerNext(cfg, s, a))
  {
    AfterIsCoherent(cfg, s.calls);
    GiveUndoesTake(cfg.After(s.calls), s.workers[a.i].request);
  }

  predicate TouchesTable(pc: Pc) {
    pc.WaitSource? || pc.WaitTarget? || pc.BuildReply? || pc.PostSource? || pc.PostTarget?
  }

  lemma OtherStepsKeepTable(cfg: Config, s: State, a: Action)
    requires MutexInv(s) && StartInv(s) && TableInv(cfg, s)
    requires a.WorkerStep? && WorkerEnabled(s, a.i) && !TouchesTable(s.workers[a.i].pc)
    ensures TableInv(cfg, WorkerNext(cfg, s, a))
  {
    assert NextAccounts(cfg, s, a) == s.accounts;
  }

  lemma WorkerKeepsTable(cfg: Config, s: State, a: Action)
    requires MutexInv(s) && StartInv(s) && TableInv(cfg, s) && SelfInv(cfg, s) && NonEmpty(cfg.hash)
    requires a.WorkerStep? && WorkerEnabled(s, a.i)
    ensures TableInv(cfg, WorkerNext(cfg, s, a))
  {
    match s.workers[a.i].pc {
      case WaitSource | WaitTarget => WaitsKeepTable(cfg, s, a);
      case BuildReply => BuildReplyKeepsTable(cfg, s, a);
      case PostSource => PostSourceKeepsTable(cfg, s, a);
      case PostTarget => PostTargetKeepsTable(cfg, s, a);
      case _ => OtherStepsKeepTable(cfg, s, a);
    }
  }

  lemma WorkerKeepsInv(cfg: Config, s: State, a: Action)
    requires Inv(cfg, s) && NonEmpty(cfg.hash) && a.WorkerStep? && WorkerEnabled(s, a.i)
    ensures Inv(cfg, WorkerNext(cfg, s, a))
  {
    WorkerKeepsMutex(cfg, s, a);
    WorkerKeepsQueue(cfg, s, a);
    WorkerKeepsCounts(cfg, s, a);
    WorkerKeepsRelease(cfg, s, a);
    WorkerKeepsClose(cfg, s, a);
    WorkerKeepsShutdown(cfg, s, a);
    WorkerKeepsCalls(cfg, s, a);
    WorkerKeepsTable(cfg, s, a);
    if s.workers[a.i].pc.BuildReply? {
      BuildReplySeesTheFold(cfg, s, a);
      BuildReplyFillsHand(cfg, s, a);
      BuildReplyKeepsSelf(cfg, s, a);
    } else {
      OtherStepsKeepHand(cfg, s, a);
      OtherStepsKeepSelf(cfg, s, a);
    }
    WorkerKeepsLog(cfg, s, a);
  }

  // ----- the main thread -----

  lemma MainKeepsMutex(cfg: Config, s: State, a: Action)
    requires MutexInv(s) && StartInv(s) && QueueInv(s) && a.MainStep? && MainEnabled(s)
    ensures var next := MainNext(cfg, s, a); MutexInv(next) && StartInv(next) && QueueInv(next)
  {
  }

  lemma MainKeepsCounts(cfg: Config, s: State, a: Action)
    requires CountInv(s) && CloseInv(s) && ReleaseInv(s) && a.MainStep? && MainEnabled(s)
    ensures var next := MainNext(cfg, s, a); CountInv(next) && ReleaseInv(next)
  {
  }

  lemma MainKeepsClose(cfg: Config, s: State, a: Action)
    requires MutexInv(s) && QueueInv(s) && CountInv(s) && CloseInv(s) && StartInv(s)
    requires a.MainStep? && MainEnabled(s)
    ensures CloseInv(MainNext(cfg, s, a))
  {
    if s.main.SetClose? {
      forall i | 0 <= i < |s.workers|
        ensures !s.workers[i].pc.LockMutex? && !s.workers[i].pc.PopRequest?
      {
        SumCoversEach(s.workers, i, Woken);
      }
    }
  }

  lemma MainKeepsTable(cfg: Config, s: State, a: Action)
    requires MutexInv(s) && StartInv(s) && TableInv(cfg, s) && a.MainStep? && MainEnabled(s)
    ensures TableInv(cfg, MainNext(cfg, s, a))
  {
  }

  lemma MainKeepsHistory(cfg: Config, s: State, a: Action)
    requires MutexInv(s) && CallsInv(cfg, s) && SelfInv(cfg, s) && ReplyInv(cfg, s) && ShutdownInv(s)
    requires a.MainStep? && MainEnabled(s)
    ensures var next := MainNext(cfg, s, a);
      CallsInv(cfg, next) && SelfInv(cfg, next) && ReplyInv(cfg, next) && ShutdownInv(next)
  {
  }

  lemma MainKeepsInv(cfg: Config, s: State, a: Action)
    requires Inv(cfg, s) && a.MainStep? && MainEnabled(s)
    ensures Inv(cfg, MainNext(cfg, s, a))
  {
    MainKeepsMutex(cfg, s, a);
    MainKeepsCounts(cfg, s, a);
    MainKeepsClose(cfg, s, a);
    MainKeepsTable(cfg, s, a);
    MainKeepsHistory(cfg, s, a);
  }

  // ----- runs -----

  lemma StepKeepsInv(cfg: Config, s: State, a: Action)
    requires Inv(cfg, s) && NonEmpty(cfg.hash) && Enabled(s, a)
    ensures Inv(cfg, Next(cfg, s, a))
  {
    if a.WorkerStep? {
      WorkerKeepsInv(cfg, s, a);
    } else {
      MainKeepsInv(cfg, s, a);
    }
  }

  lemma {:induction false} RunKeepsInv(cfg: Config, s: State, actions: seq<Action>, end: State)
    requires Inv(cfg, s) && NonEmpty(cfg.hash) && Run(cfg, s, actions, end)
    ensures Inv(cfg, end)
    decreases |actions|
  {
    if actions != [] {
      StepKeepsInv(cfg, s, actions[0]);
      RunKeepsInv(cfg, Next(cfg, s, actions[0]), actions[1..], end);
    }
  }

  lemma ReachableStep(cfg: Config, s: State, a: Action)
    requires Reachable(cfg, s) && Enabled(s, a)
    ensures Reachable(cfg, Next(cfg, s, a))
  {
    Runs.ReachableByStep(Steps(cfg), Init(cfg), s, a);
  }

  lemma OfficeStepIsReachable(cfg: Config, s: State, a: Action, next: State)
    requires Reachable(cfg, s) && a.WorkerStep? && WorkerEnabled(s, a.i) && next == WorkerNext(cfg, s, a)
    ensures Reachable(cfg, next)
  {
    ReachableStep(cfg, s, a);
  }

  lemma MainStepIsReachable(cfg: Config, s: State, a: Action, next: State)
    requires Reachable(cfg, s) && a.MainStep? && MainEnabled(s) && next == MainNext(cfg, s, a)
    ensures Reachable(cfg, next)
  {
    ReachableStep(cfg, s, a);
  }

  /** Every state of every run, for any number of offices, has the invariant. */
  lemma ReachableHasInv(cfg: Config, s: State)
    requires Reachable(cfg, s) && NonEmpty(cfg.hash)
    ensures Inv(cfg, s)
  {
    var actions := Runs.RunFromInit(Steps(cfg), Init(cfg), s);
    InitHasInv(cfg);
    RunKeepsInv(cfg, Init(cfg), actions, s);
  }
}
