/** Safety of the bank server over all its runs: linearizability, account semaphores, office count,
    the shutdown flag, and what the sequential bank's guarantees become for the server. */
module ProtocolSafety {
  import opened Types
  import opened Bank
  import opened BankProperties
  import opened BankAnswers
  import opened Counting
  import opened Protocol
  import opened ProtocolInvariant
  import Runs

  // ----- parts of the invariant, for reachable states -----

  lemma ReachableTable(cfg: Config, s: State)
    requires Reachable(cfg, s) && NonEmpty(cfg.hash)
    ensures MutexInv(s) && StartInv(s) && TableInv(cfg, s)
  {
    ReachableHasInv(cfg, s);
  }

  lemma ReachableHistory(cfg: Config, s: State)
    requires Reachable(cfg, s) && NonEmpty(cfg.hash)
    ensures MutexInv(s) && QueueInv(s) && CallsInv(cfg, s) && ReplyInv(cfg, s)
  {
    ReachableHasInv(cfg, s);
  }

  lemma ReachableCounts(cfg: Config, s: State)
    requires Reachable(cfg, s) && NonEmpty(cfg.hash)
    ensures |s.workers| == cfg.offices && MutexInv(s) && CountInv(s) && CloseInv(s)
  {
    ReachableHasInv(cfg, s);
  }

  lemma ReachableSelf(cfg: Config, s: State)
    requires Reachable(cfg, s) && NonEmpty(cfg.hash)
    ensures SelfInv(cfg, s)
  {
    ReachableHasInv(cfg, s);
  }

  // ----- linearizability -----

  lemma IdleServerHasAnsweredAllCalls(cfg: Config, s: State)
    requires HandInv(cfg, s) && LogInv(cfg, s) && !s.mutex.ByWorker?
    ensures |s.delivered| == |s.calls|
    ensures s.replies == SequentialReplies(cfg.hash, cfg.Genesis(), s.calls, s.delivered)
  {
    assert s.calls[..|s.replies|] == s.calls;
  }

  /** With no office in its critical section, the account table is that of a server without threads
      that answered the popped requests one by one; those are a prefix of the pushed requests, in
      push order; and the log is what that server would have logged, up to `RC_USR_DOWN` for the
      replies that could not be delivered. */
  lemma ServerIsLinearizable(cfg: Config, s: State)
    requires Reachable(cfg, s) && NonEmpty(cfg.hash) && !s.mutex.ByWorker? && !s.main.CreateAdmin?
    ensures s.accounts == cfg.After(s.calls)
    ensures s.pushed == Requests(s.calls) + s.queue
    ensures |s.delivered| == |s.calls|
    ensures s.replies == SequentialReplies(cfg.hash, cfg.Genesis(), s.calls, s.delivered)
  {
    ReachableTable(cfg, s);
    ReachableHistory(cfg, s);
    IdleServerHasAnsweredAllCalls(cfg, s);
  }

  /** At any moment, mid-request included, the j-th logged reply answers the j-th pushed request, on
      the table left by the requests before it, with an office count between 1 and the number of
      offices; if it was not delivered, its return code alone is replaced. */
  lemma EachReplyAnswersItsRequest(cfg: Config, s: State, j: nat)
    requires Reachable(cfg, s) && NonEmpty(cfg.hash) && j < |s.replies|
    ensures j < |s.calls| && j < |s.pushed| && j < |s.delivered|
    ensures s.calls[j].request == s.pushed[j] && 1 <= s.calls[j].offices <= cfg.offices
    ensures var y := Handle(cfg.hash, cfg.After(s.calls[..j]), s.calls[j]).reply;
      s.replies[j] == if s.delivered[j] then y else Reply(y.op, y.length, y.accountId, UsrDown, y.word)
  {
    ReachableHistory(cfg, s);
    var answered := s.calls[..|s.replies|];
    assert answered[..j] == s.calls[..j];
    assert Popped(s)[j] == s.calls[j].request;
  }

  /** So every logged reply names the operation and the account of its request, and its return code is
      the bank's for that request, or `RC_USR_DOWN`. */
  lemma EachReplyEchoesItsRequest(cfg: Config, s: State, j: nat)
    requires Reachable(cfg, s) && NonEmpty(cfg.hash) && j < |s.replies|
    ensures j < |s.calls| && j < |s.pushed| && j < |s.delivered|
    ensures s.replies[j].op == s.pushed[j].op && s.replies[j].accountId == s.pushed[j].accountId
    ensures s.replies[j].length == 8
    ensures s.replies[j].retCode ==
      if s.delivered[j] then Code(cfg.hash, cfg.After(s.calls[..j]), s.pushed[j]) else UsrDown
  {
    EachReplyAnswersItsRequest(cfg, s, j);
    HeaderEchoesRequest(cfg.hash, cfg.After(s.calls[..j]), s.calls[j]);
  }

  lemma {:induction false} HistoryGrows(cfg: Config, s: State, actions: seq<Action>, end: State)
    requires Run(cfg, s, actions, end)
    ensures s.pushed <= end.pushed && s.calls <= end.calls && s.replies <= end.replies
    decreases |actions|
  {
    if actions != [] {
      HistoryGrows(cfg, Next(cfg, s, actions[0]), actions[1..], end);
    }
  }

  /** `front` and `pop` never see an empty queue. */
  lemma PopFindsARequest(cfg: Config, s: State, i: nat)
    requires Reachable(cfg, s) && NonEmpty(cfg.hash) && i < |s.workers| && s.workers[i].pc.PopRequest?
    ensures s.queue != [] && s.mutex == ByWorker(i)
  {
    ReachableCounts(cfg, s);
    SumCoversEach(s.workers, i, Woken);
  }

  /** Before the shutdown posts, every queued request has its post: taken, waiting, or about to come. */
  lemma QueueMatchesSemaphore(cfg: Config, s: State)
    requires Reachable(cfg, s) && NonEmpty(cfg.hash) && !s.closeThread
    ensures |s.queue| == s.mainSem + Sum(s.workers, Woken) + Pending(s.main)
  {
    ReachableCounts(cfg, s);
  }

  // ----- account semaphores -----

  /** With no office in its critical section, every active account's semaphore is 1, and the flag
      `active` agrees with the hash. */
  lemma SemaphoresBalance(cfg: Config, s: State, id: uint32)
    requires Reachable(cfg, s) && NonEmpty(cfg.hash) && !s.mutex.ByWorker? && id < MAX_BANK_ACCOUNTS
    ensures s.accounts[id].active ==> s.accounts[id].semaphore == 1
    ensures s.accounts[id].active <==> IsActive(s.accounts, id)
  {
    ReachableTable(cfg, s);
    AfterIsCoherent(cfg, s.calls);
  }

  /** The office has waited for the account and not posted it yet: its own account between the first
      wait and the first post, the target of a transfer between the second wait and the second post. */
  predicate HoldsAccount(w: Worker, id: int) {
    || (w.request.accountId == id && (w.pc.WaitTarget? || w.pc.BuildReply? || w.pc.PostSource?))
    || (&& w.request.op.Transfer? && w.request.argId == id
        && (w.pc.BuildReply? || w.pc.PostSource? || w.pc.PostTarget?))
  }

  /** While an office is in its critical section, the semaphores of exactly the accounts it has waited
      for and not posted yet are 0, and those of all other active accounts are 1. */
  lemma SemaphoresShowTheHolder(cfg: Config, s: State, i: nat, id: uint32)
    requires Reachable(cfg, s) && NonEmpty(cfg.hash) && s.mutex == ByWorker(i)
    requires id < MAX_BANK_ACCOUNTS && s.accounts[id].active
    ensures i < |s.workers|
    ensures s.accounts[id].semaphore == if HoldsAccount(s.workers[i], id) then 0 else 1
  {
    ReachableTable(cfg, s);
    ReachableSelf(cfg, s);
    AfterIsCoherent(cfg, s.calls);
  }

  /** The holder of the mutex can always move, except when it waits a second time for the semaphore
      of its own account. In particular no account wait of a transfer between two ids ever blocks. */
  lemma HolderMovesUnlessSelfTransfer(cfg: Config, s: State, i: nat)
    requires Reachable(cfg, s) && NonEmpty(cfg.hash) && s.mutex == ByWorker(i)
    ensures WorkerEnabled(s, i) <==> !StuckInSelfTransfer(s, i)
  {
    ReachableTable(cfg, s);
    ReachableCounts(cfg, s);
    AfterIsCoherent(cfg, s.calls);
    SumCoversEach(s.workers, i, Woken);
    var w := s.workers[i];
    if w.pc.WaitTarget? && SelfActive(cfg.After(s.calls), w.request) {
      SecondWaitIsRefused(cfg, s, i);
    }
  }

  /** Exactly when an office cannot move: it has returned, it waits for a request, it waits for the
      mutex while somebody holds it, or it is stuck in a self-transfer. */
  lemma OfficeBlocksExactly(cfg: Config, s: State, i: nat)
    requires Reachable(cfg, s) && NonEmpty(cfg.hash) && i < |s.workers|
    ensures var pc := s.workers[i].pc;
      !WorkerEnabled(s, i) <==>
        || pc.Returned? || (pc.WaitMain? && s.mainSem == 0) || (pc.LockMutex? && !s.mutex.Free?)
        || StuckInSelfTransfer(s, i)
  {
    ReachableTable(cfg, s);
    if s.mutex == ByWorker(i) {
      HolderMovesUnlessSelfTransfer(cfg, s, i);
    }
  }

  /** Exactly when `main` cannot move: an office holds the mutex that it wants for a push, it joins an
      office that has not returned, or it is done. */
  lemma MainBlocksExactly(cfg: Config, s: State)
    requires Reachable(cfg, s) && NonEmpty(cfg.hash)
    ensures !MainEnabled(s) <==>
      || s.main.Exited?
      || (s.main.MainLock? && exists i :: 0 <= i < |s.workers| && InCritical(s.workers[i].pc))
      || (s.main.Join? && s.main.joined < |s.workers| && !s.workers[s.main.joined].pc.Returned?)
  {
    ReachableTable(cfg, s);
    if s.main.MainLock? && s.mutex.ByWorker? {
      assert InCritical(s.workers[s.mutex.i].pc);
    }
  }

  // ----- offices and the shutdown flag -----

  /** `active_threads` is the number of offices between its increment and its decrement. */
  lemma ActiveThreadsCountOffices(cfg: Config, s: State)
    requires Reachable(cfg, s) && NonEmpty(cfg.hash)
    ensures s.activeThreads == Sum(s.workers, Counted) <= cfg.offices
  {
    ReachableCounts(cfg, s);
    SumOfOnes(s.workers, Counted);
  }

  /** An accepted shutdown reports at least one active office and at most all of them. */
  lemma ShutdownReportsOffices(cfg: Config, s: State, j: nat)
    requires Reachable(cfg, s) && NonEmpty(cfg.hash) && cfg.offices < UINT32_RANGE
    requires j < |s.replies| && IsAcceptedShutdown(s.replies[j])
    ensures j < |s.calls| && s.replies[j].word == s.calls[j].offices && 1 <= s.replies[j].word <= cfg.offices
  {
    EachReplyAnswersItsRequest(cfg, s, j);
  }

  /** The j-th request is a shutdown to which the bank answers `RC_OK` (so it comes from the
      administrator, with the right password), and its reply was delivered. */
  ghost predicate IsDeliveredShutdown(cfg: Config, s: State, j: nat) {
    && j < |s.delivered| && j < |s.pushed| && j < |s.calls|
    && s.delivered[j] && s.pushed[j].op.Shutdown?
    && Code(cfg.hash, cfg.After(s.calls[..j]), s.pushed[j]).Ok?
  }

  lemma AcceptedMeansDelivered(cfg: Config, s: State, j: nat)
    requires Reachable(cfg, s) && NonEmpty(cfg.hash) && j < |s.replies|
    ensures IsAcceptedShutdown(s.replies[j]) <==> IsDeliveredShutdown(cfg, s, j)
  {
    EachReplyAnswersItsRequest(cfg, s, j);
  }

  lemma ReachableShutdown(cfg: Config, s: State)
    requires Reachable(cfg, s) && NonEmpty(cfg.hash)
    ensures ShutdownInv(s)
  {
    ReachableHasInv(cfg, s);
  }

  /** `server_exit` is set exactly when the reply to some accepted shutdown was delivered, except
      while the office that served it is on its way to set the flag. */
  lemma ExitMeansDeliveredShutdown(cfg: Config, s: State)
    requires Reachable(cfg, s) && NonEmpty(cfg.hash) && !Noting(s.workers)
    ensures s.serverExit <==> exists j: nat :: j < |s.replies| && IsDeliveredShutdown(cfg, s, j)
  {
    ReachableShutdown(cfg, s);
    if s.serverExit {
      var r :| r in s.replies && IsAcceptedShutdown(r);
      var j: nat :| j < |s.replies| && s.replies[j] == r;
      AcceptedMeansDelivered(cfg, s, j);
    } else {
      forall j: nat | j < |s.replies|
        ensures !IsDeliveredShutdown(cfg, s, j)
      {
        AcceptedMeansDelivered(cfg, s, j);
        assert s.replies[j] in s.replies;
      }
    }
  }

  lemma SameIdNeedsSelfActive(hash: HashFn, t: Table, c: Call)
    requires Coherent(t) && Handle(hash, t, c).reply.retCode.SameId?
    ensures SelfActive(t, c.request)
  {
  }

  /** The server never answers `RC_SAME_ID`: a logged-in self-transfer does not get that far. */
  lemma SameIdIsNeverAnswered(cfg: Config, s: State, j: nat)
    requires Reachable(cfg, s) && NonEmpty(cfg.hash) && j < |s.replies|
    ensures !s.replies[j].retCode.SameId?
  {
    ReachableHistory(cfg, s);
    EachReplyAnswersItsRequest(cfg, s, j);
    AfterIsCoherent(cfg, s.calls[..j]);
    if Handle(cfg.hash, cfg.After(s.calls[..j]), s.calls[j]).reply.retCode.SameId? {
      SameIdNeedsSelfActive(cfg.hash, cfg.After(s.calls[..j]), s.calls[j]);
    }
  }

  // ----- the bank's guarantees, for the server -----

  /** Taking semaphores leaves everything else in the table. */
  ghost predicate SameButSemaphores(t: Table, u: Table) {
    forall k :: 0 <= k < MAX_BANK_ACCOUNTS ==> t[k] == u[k].(semaphore := t[k].semaphore)
  }

  lemma HoldingTouchesSemaphoresOnly(base: Table, w: Worker)
    ensures SameButSemaphores(Held(base, w), base)
  {
  }

  lemma TableIsFoldButSemaphores(cfg: Config, s: State)
    requires TableInv(cfg, s) && !s.main.CreateAdmin?
    ensures SameButSemaphores(s.accounts, cfg.After(s.calls))
  {
    if s.mutex.ByWorker? && s.mutex.i < |s.workers| {
      HoldingTouchesSemaphoresOnly(cfg.After(s.calls), s.workers[s.mutex.i]);
    }
  }

  /** Every account of the server is stored under its own id. */
  lemma ServerAccountsKeepTheirPlace(cfg: Config, s: State)
    requires Reachable(cfg, s) && NonEmpty(cfg.hash)
    ensures StoredUnderId(s.accounts)
  {
    ReachableTable(cfg, s);
    if !s.main.CreateAdmin? {
      AccountsKeepTheirPlace(cfg.hash, cfg.Genesis(), s.calls);
      TableIsFoldButSemaphores(cfg, s);
    }
  }

  lemma {:induction false} TotalIgnoresSemaphores(t: seq<Account>, u: seq<Account>)
    requires |t| == |u| && forall k :: 0 <= k < |t| ==> t[k] == u[k].(semaphore := t[k].semaphore)
    ensures Total(t) == Total(u)
  {
    if t != [] {
      TotalIgnoresSemaphores(t[..|t| - 1], u[..|u| - 1]);
    }
  }

  /** In every reachable state the active balances add up to the deposits made so far, provided the
      deposits fit in 32 bits, whatever the transfer amounts and the interleaving. */
  lemma ServerConservesMoney(cfg: Config, s: State)
    requires Reachable(cfg, s) && NonEmpty(cfg.hash) && !s.main.CreateAdmin?
    requires Deposits(cfg.hash, cfg.Genesis(), s.calls) < UINT32_RANGE
    ensures Total(s.accounts) == Deposits(cfg.hash, cfg.Genesis(), s.calls)
  {
    ReachableTable(cfg, s);
    TableIsFoldButSemaphores(cfg, s);
    TotalIgnoresSemaphores(s.accounts, cfg.After(s.calls));
    GenesisIsCoherent(cfg.hash, cfg.adminPassword, cfg.adminSalt);
    GenesisIsWorthNothing(cfg.hash, cfg.adminPassword, cfg.adminSalt);
    MoneyIsConserved(cfg.hash, cfg.Genesis(), s.calls);
  }

  /** If every request pushed keeps to the limits, every reachable state keeps the balance bounds and
      the administrator's empty account. */
  lemma ServerKeepsBounds(cfg: Config, s: State, limit: int)
    requires Reachable(cfg, s) && NonEmpty(cfg.hash) && !s.main.CreateAdmin?
    requires limit < UINT32_RANGE - MAX_BALANCE
    requires forall j :: 0 <= j < |s.pushed| ==> WithinPolicy(s.pushed[j], limit)
    ensures InBounds(s.accounts)
  {
    ReachableTable(cfg, s);
    TableIsFoldButSemaphores(cfg, s);
    ReachableHistory(cfg, s);
    forall j | 0 <= j < |s.calls|
      ensures WithinPolicy(s.calls[j].request, limit)
    {
      assert s.pushed[j] == Popped(s)[j] == s.calls[j].request;
    }
    GenesisIsCoherent(cfg.hash, cfg.adminPassword, cfg.adminSalt);
    BoundsHoldOverRuns(cfg.hash, cfg.Genesis(), s.calls, limit);
  }

  lemma {:induction false} CreateAdminIsFirst(cfg: Config, s: State, actions: seq<Action>, end: State)
    requires Run(cfg, s, actions, end) && !s.main.CreateAdmin?
    ensures !end.main.CreateAdmin?
    decreases |actions|
  {
    if actions != [] {
      CreateAdminIsFirst(cfg, Next(cfg, s, actions[0]), actions[1..], end);
    }
  }

  lemma FoldKeepsCredentials(cfg: Config, calls: seq<Call>, later: seq<Call>, id: uint32)
    requires NonEmpty(cfg.hash) && calls <= later
    requires id < MAX_BANK_ACCOUNTS && IsActive(cfg.After(calls), id)
    ensures SameCredentials(cfg.After(calls)[id], cfg.After(later)[id])
  {
    var more := later[|calls|..];
    assert later == calls + more;
    FoldConcat(cfg.hash, cfg.Genesis(), calls, more);
    AfterIsCoherent(cfg, calls);
    CredentialsAreStable(cfg.hash, cfg.After(calls), more, id);
  }

  /** With requests in range, every delivered reply reports the first applicable error of the rule in
      types.h, except in the situations of `DepartsFromRule`, where it never does. */
  lemma ServerReportsFirstErrors(cfg: Config, s: State, j: nat, limit: int)
    requires Reachable(cfg, s) && NonEmpty(cfg.hash) && j < |s.replies|
    requires limit < UINT32_RANGE - MAX_BALANCE
    requires forall k :: 0 <= k < |s.pushed| ==> WithinPolicy(s.pushed[k], limit)
    ensures j < |s.delivered| && j < |s.pushed| && j < |s.calls|
    ensures s.delivered[j] ==>
      (IsFirstError(cfg.hash, cfg.After(s.calls[..j]), s.pushed[j], s.replies[j].retCode)
       <==> !DepartsFromRule(cfg.hash, cfg.After(s.calls[..j]), s.pushed[j]))
  {
    EachReplyAnswersItsRequest(cfg, s, j);
    forall k | 0 <= k < j
      ensures WithinPolicy(s.calls[k].request, limit)
    {
      EachReplyAnswersItsRequest(cfg, s, k);
    }
    AfterIsCoherent(cfg, s.calls[..j]);
    GenesisIsCoherent(cfg.hash, cfg.adminPassword, cfg.adminSalt);
    BoundsHoldOverRuns(cfg.hash, cfg.Genesis(), s.calls[..j], limit);
    FirstErrorIsReportedExactly(cfg.hash, cfg.After(s.calls[..j]), s.pushed[j]);
  }

  /** No run changes the salt, the hash or the activity of an account that exists. */
  lemma ServerKeepsCredentials(cfg: Config, s: State, actions: seq<Action>, end: State, id: uint32)
    requires Reachable(cfg, s) && NonEmpty(cfg.hash) && Run(cfg, s, actions, end)
    requires !s.main.CreateAdmin? && id < MAX_BANK_ACCOUNTS && IsActive(s.accounts, id)
    ensures SameCredentials(s.accounts[id], end.accounts[id])
  {
    ReachableTable(cfg, s);
    Runs.ReachableByRun(Steps(cfg), Init(cfg), s, actions, end);
    ReachableTable(cfg, end);
    CreateAdminIsFirst(cfg, s, actions, end);
    TableIsFoldButSemaphores(cfg, s);
    TableIsFoldButSemaphores(cfg, end);
    HistoryGrows(cfg, s, actions, end);
    FoldKeepsCredentials(cfg, s.calls, end.calls, id);
  }

  /** After a call that created an account, whether or not its reply arrived, a delivered reply to a
      later request for that account is `RC_LOGIN_FAIL` exactly when the password does not hash like
      the one given at creation. */
  lemma CreatedPasswordDecidesLogin(cfg: Config, s: State, i: nat, j: nat)
    requires Reachable(cfg, s) && NonEmpty(cfg.hash) && i < j < |s.replies|
    requires i < |s.calls| && Creates(cfg.hash, cfg.After(s.calls[..i]), s.calls[i])
    requires j < |s.pushed| && s.pushed[j].accountId == s.pushed[i].argId
    ensures j < |s.delivered| && j < |s.calls|
    ensures s.delivered[j] ==>
      (s.replies[j].retCode.LoginFail? <==>
       cfg.hash(s.pushed[j].password, s.calls[i].salt) != cfg.hash(s.pushed[i].argPassword, s.calls[i].salt))
  {
    EachReplyAnswersItsRequest(cfg, s, i);
    EachReplyAnswersItsRequest(cfg, s, j);
    GenesisIsCoherent(cfg.hash, cfg.adminPassword, cfg.adminSalt);
    var between := s.calls[i + 1..j];
    assert s.calls[..j] == s.calls[..i] + [s.calls[i]] + between;
    CreatedPasswordKeepsWorking(cfg.hash, cfg.Genesis(), s.calls[..i], s.calls[i], between, s.pushed[j].password);
    LoginFailMeansWrongPassword(cfg, s.calls[..i], s.calls[i], s.calls[..j], s.calls[j]);
  }

  lemma LoginFailMeansWrongPassword(cfg: Config, before: seq<Call>, create: Call, later: seq<Call>, c: Call)
    requires NonEmpty(cfg.hash) && before + [create] <= later
    requires Creates(cfg.hash, cfg.After(before), create) && c.request.accountId == create.request.argId
    ensures Code(cfg.hash, cfg.After(later), c.request).LoginFail? <==>
      !Validated(cfg.hash, cfg.After(later), c.request.accountId, c.request.password).Ok?
  {
    var made := before + [create];
    FoldAppend(cfg.hash, cfg.Genesis(), before, create);
    assert cfg.hash(create.request.argPassword, create.salt) != "";
    FoldKeepsCredentials(cfg, made, later, create.request.argId);
  }
}
