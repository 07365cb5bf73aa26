/** The bank server with its shared variables: every statement of `read_request` and `main`
    (Project2/source/server.c) as a method that updates them in place. `Valid` says that the values
    of the variables form a reachable state of the protocol, so all that is proved about reachable
    states holds of the object. */
module Server {
  import opened Types
  import opened Bank
  import opened ListQueues
  import opened Protocol
  import opened ProtocolInvariant
  import Runs
  import opened ProtocolSafety
  import opened ProtocolHistory

  class BankServer {
    const cfg: Config
    const accounts: array<Account>
    const requests: ListQueue<Request>
    var mainSem: nat
    var mutex: Owner
    var serverExit: bool
    var closeThread: bool
    var activeThreads: int

    /** Each thread's program counter and local variables. */
    const workers: array<Worker>
    var main: MainPc
    var request: Request

    ghost var pushed: seq<Request>
    ghost var calls: seq<Call>
    ghost var replies: seq<Reply>
    ghost var delivered: seq<bool>
    ghost var cutoff: nat

    ghost predicate Sound()
      reads this, accounts, workers, requests, requests.Repr
    {
      && accounts.Length == MAX_BANK_ACCOUNTS
      && workers.Length == cfg.offices
      && requests.Valid()
      && this !in requests.Repr && accounts as object !in requests.Repr && workers as object !in requests.Repr
    }

    /** The variables as one state of the protocol. */
    ghost function Abs(): State
      requires Sound()
      reads this, accounts, workers, requests, requests.Repr
    {
      State(accounts[..], requests.contents, mainSem, mutex, serverExit, closeThread, activeThreads,
            workers[..], main, request, pushed, calls, replies, delivered, cutoff)
    }

    ghost predicate Valid()
      reads this, accounts, workers, requests, requests.Repr
    {
      Sound() && NonEmpty(cfg.hash) && Reachable(cfg, Abs())
    }

    constructor (cfg: Config)
      requires NonEmpty(cfg.hash)
      ensures Valid() && this.cfg == cfg && Abs() == Init(cfg)
      ensures fresh(accounts) && fresh(workers) && fresh(requests.Repr)
    {
      this.cfg := cfg;
      accounts := new Account[MAX_BANK_ACCOUNTS](_ => BLANK_ACCOUNT);
      requests := new ListQueue<Request>();
      workers := new Worker[cfg.offices](_ => Worker(TestLoop, NO_REQUEST, NO_REPLY));
      mainSem, mutex, serverExit, closeThread, activeThreads := 0, Free, false, false, 0;
      main, request := CreateAdmin, NO_REQUEST;
      pushed, calls, replies, delivered, cutoff := [], [], [], [], 0;
      new;
      assert accounts[..] == BlankTable();
      assert workers[..] == Init(cfg).workers;
      Runs.InitIsReachable(Steps(cfg), Init(cfg));
    }

    static function Act(i: nat): Action {
      WorkerStep(i, "", 0, false)
    }

    static function Tick(): Action {
      MainStep(None)
    }

    ghost predicate At(i: nat, pc: Pc)
      reads workers
    {
      i < workers.Length && workers[i].pc == pc
    }

    // ----- read_request -----

    /** `while (!close_thread)` */
    method ReadCloseFlag(i: nat)
      requires Valid() && At(i, TestLoop)
      modifies workers
      ensures Valid() && Abs() == WorkerNext(cfg, old(Abs()), Act(i))
    {
      ghost var s, a := Abs(), Act(i);
      workers[i] := workers[i].(pc := if closeThread then Returned else WaitMain);
      assert workers[..] == s.workers[i := NextWorker(cfg, s, a)];
      OfficeStepIsReachable(cfg, s, a, Abs());
    }

    /** `wait_sem(&main_sem)`: blocks while the semaphore is 0. */
    method AwaitRequest(i: nat)
      requires Valid() && At(i, WaitMain) && mainSem > 0
      modifies this`mainSem, workers
      ensures Valid() && Abs() == WorkerNext(cfg, old(Abs()), Act(i))
    {
      ghost var s, a := Abs(), Act(i);
      mainSem := mainSem - 1;
      workers[i] := workers[i].(pc := TestClose);
      assert workers[..] == s.workers[i := NextWorker(cfg, s, a)];
      OfficeStepIsReachable(cfg, s, a, Abs());
    }

    /** `if (close_thread) break` */
    method RecheckCloseFlag(i: nat)
      requires Valid() && At(i, TestClose)
      modifies workers
      ensures Valid() && Abs() == WorkerNext(cfg, old(Abs()), Act(i))
    {
      ghost var s, a := Abs(), Act(i);
      workers[i] := workers[i].(pc := if closeThread then Returned else LockMutex);
      assert workers[..] == s.workers[i := NextWorker(cfg, s, a)];
      OfficeStepIsReachable(cfg, s, a, Abs());
    }

    /** `lock_mutex(&mutex)`: blocks while somebody holds it. */
    method AcquireMutex(i: nat)
      requires Valid() && At(i, LockMutex) && mutex.Free?
      modifies this`mutex, workers
      ensures Valid() && Abs() == WorkerNext(cfg, old(Abs()), Act(i))
    {
      ghost var s, a := Abs(), Act(i);
      mutex := ByWorker(i);
      workers[i] := workers[i].(pc := PopRequest);
      assert workers[..] == s.workers[i := NextWorker(cfg, s, a)];
      OfficeStepIsReachable(cfg, s, a, Abs());
    }

    /** `front` and `pop`, which find a request: the protocol guarantees it. */
    method TakeRequest(i: nat)
      requires Valid() && At(i, PopRequest)
      modifies workers, requests.Repr
      ensures old(requests.contents) != []
      ensures Valid() && fresh(requests.Repr - old(requests.Repr))
      ensures Abs() == WorkerNext(cfg, old(Abs()), Act(i))
    {
      ghost var s, a := Abs(), Act(i);
      PopFindsARequest(cfg, s, i);
      var front := requests.Front();
      requests.Pop();
      workers[i] := workers[i].(pc := CountIn, request := front);
      assert workers[..] == s.workers[i := NextWorker(cfg, s, a)];
      OfficeStepIsReachable(cfg, s, a, Abs());
    }

    /** `++active_threads` */
    method EnterCount(i: nat)
      requires Valid() && At(i, CountIn)
      modifies this`activeThreads, workers
      ensures Valid() && Abs() == WorkerNext(cfg, old(Abs()), Act(i))
    {
      ghost var s, a := Abs(), Act(i);
      activeThreads := activeThreads + 1;
      workers[i] := workers[i].(pc := WaitSource);
      assert workers[..] == s.workers[i := NextWorker(cfg, s, a)];
      OfficeStepIsReachable(cfg, s, a, Abs());
    }

    /** `wait_sem` on the requesting account if it is active: blocks while its semaphore is 0. */
    method AwaitSource(i: nat)
      requires Valid() && At(i, WaitSource)
        && CanTake(accounts[..], workers[i].request.accountId)
      modifies accounts, workers
      ensures Valid() && Abs() == WorkerNext(cfg, old(Abs()), Act(i))
    {
      ghost var s, a := Abs(), Act(i);
      var id := workers[i].request.accountId;
      if accounts[id].active {
        accounts[id] := accounts[id].(semaphore := accounts[id].semaphore - 1);
      }
      workers[i] := workers[i].(pc := WaitTarget);
      assert workers[..] == s.workers[i := NextWorker(cfg, s, a)];
      OfficeStepIsReachable(cfg, s, a, Abs());
    }

    /** `wait_sem` on the target of a transfer if it is active: blocks while its semaphore is 0. */
    method AwaitTarget(i: nat)
      requires Valid() && At(i, WaitTarget)
        && (workers[i].request.op.Transfer? ==> CanTake(accounts[..], workers[i].request.argId))
      modifies accounts, workers
      ensures Valid() && Abs() == WorkerNext(cfg, old(Abs()), Act(i))
    {
      ghost var s, a := Abs(), Act(i);
      var r := workers[i].request;
      if r.op.Transfer? && accounts[r.argId].active {
        accounts[r.argId] := accounts[r.argId].(semaphore := accounts[r.argId].semaphore - 1);
      }
      workers[i] := workers[i].(pc := BuildReply);
      assert workers[..] == s.workers[i := NextWorker(cfg, s, a)];
      OfficeStepIsReachable(cfg, s, a, Abs());
    }

    /** The reply lives on the stack of the office. */
    method FillReply(request: Request, salt: string, junk: uint32) returns (reply: Reply)
      requires accounts.Length == MAX_BANK_ACCOUNTS
      modifies accounts
      ensures Handle(cfg.hash, old(accounts[..]), Call(request, salt, activeThreads, junk)) ==
              Result(accounts[..], reply)
    {
      var local := new TlvReply(junk);
      BuildTlvReply(cfg.hash, request, accounts, local, salt, activeThreads);
      reply := local.Value();
    }

    /** `build_tlv_reply`, with the salt a creation would draw and the old contents of the reply. */
    method AnswerRequest(i: nat, salt: string, junk: uint32)
      requires Valid() && At(i, BuildReply)
      modifies this`calls, accounts, workers
      ensures Valid() && Abs() == WorkerNext(cfg, old(Abs()), WorkerStep(i, salt, junk, false))
    {
      ghost var s, a := Abs(), WorkerStep(i, salt, junk, false);
      var reply := FillReply(workers[i].request, salt, junk);
      calls := calls + [Call(workers[i].request, salt, activeThreads, junk)];
      workers[i] := workers[i].(pc := PostSource, reply := reply);
      assert workers[..] == s.workers[i := NextWorker(cfg, s, a)];
      OfficeStepIsReachable(cfg, s, a, Abs());
    }

    /** `post_sem` on the requesting account if it is active. */
    method ReleaseSource(i: nat)
      requires Valid() && At(i, PostSource)
      modifies accounts, workers
      ensures Valid() && Abs() == WorkerNext(cfg, old(Abs()), Act(i))
    {
      ghost var s, a := Abs(), Act(i);
      var id := workers[i].request.accountId;
      if accounts[id].active {
        accounts[id] := accounts[id].(semaphore := accounts[id].semaphore + 1);
      }
      workers[i] := workers[i].(pc := PostTarget);
      assert workers[..] == s.workers[i := NextWorker(cfg, s, a)];
      OfficeStepIsReachable(cfg, s, a, Abs());
    }

    /** `post_sem` on the target of a transfer if it is active. */
    method ReleaseTarget(i: nat)
      requires Valid() && At(i, PostTarget)
      modifies accounts, workers
      ensures Valid() && Abs() == WorkerNext(cfg, old(Abs()), Act(i))
    {
      ghost var s, a := Abs(), Act(i);
      var r := workers[i].request;
      if r.op.Transfer? && accounts[r.argId].active {
        accounts[r.argId] := accounts[r.argId].(semaphore := accounts[r.argId].semaphore + 1);
      }
      workers[i] := workers[i].(pc := SendReply);
      assert workers[..] == s.workers[i := NextWorker(cfg, s, a)];
      OfficeStepIsReachable(cfg, s, a, Abs());
    }

    /** `open_user_fifo`, which succeeds or not. */
    static method SendToUser(reply: Reply, up: bool) returns (sent: Reply)
      ensures sent == Sent(reply, up)
    {
      sent := reply;
      if !up {
        sent := sent.(retCode := UsrDown);
      }
    }

    /** `open_user_fifo` and `log_reply`. */
    method DeliverReply(i: nat, up: bool)
      requires Valid() && At(i, SendReply)
      modifies this`replies, this`delivered, workers
      ensures Valid() && Abs() == WorkerNext(cfg, old(Abs()), WorkerStep(i, "", 0, up))
    {
      ghost var s, a := Abs(), WorkerStep(i, "", 0, up);
      var reply := SendToUser(workers[i].reply, up);
      replies, delivered := replies + [reply], delivered + [up];
      workers[i] := workers[i].(pc := UnlockMutex, reply := reply);
      assert workers[..] == s.workers[i := NextWorker(cfg, s, a)];
      OfficeStepIsReachable(cfg, s, a, Abs());
    }

    /** `unlock_mutex(&mutex)` */
    method ReleaseMutex(i: nat)
      requires Valid() && At(i, UnlockMutex)
      modifies this`mutex, workers
      ensures Valid() && Abs() == WorkerNext(cfg, old(Abs()), Act(i))
    {
      ghost var s, a := Abs(), Act(i);
      mutex := Free;
      workers[i] := workers[i].(pc := NoteShutdown);
      assert workers[..] == s.workers[i := NextWorker(cfg, s, a)];
      OfficeStepIsReachable(cfg, s, a, Abs());
    }

    /** `server_exit = true` after a shutdown answered with `RC_OK`. */
    method RecordShutdown(i: nat)
      requires Valid() && At(i, NoteShutdown)
      modifies this`serverExit, workers
      ensures Valid() && Abs() == WorkerNext(cfg, old(Abs()), Act(i))
    {
      ghost var s, a := Abs(), Act(i);
      if workers[i].reply.op.Shutdown? && workers[i].reply.retCode.Ok? {
        serverExit := true;
      }
      workers[i] := workers[i].(pc := CountOut);
      assert workers[..] == s.workers[i := NextWorker(cfg, s, a)];
      OfficeStepIsReachable(cfg, s, a, Abs());
    }

    /** `--active_threads` */
    method LeaveCount(i: nat)
      requires Valid() && At(i, CountOut)
      modifies this`activeThreads, workers
      ensures Valid() && Abs() == WorkerNext(cfg, old(Abs()), Act(i))
    {
      ghost var s, a := Abs(), Act(i);
      activeThreads := activeThreads - 1;
      workers[i] := workers[i].(pc := TestLoop);
      assert workers[..] == s.workers[i := NextWorker(cfg, s, a)];
      OfficeStepIsReachable(cfg, s, a, Abs());
    }

    // ----- main -----

    /** The administrator's account. */
    method CreateAdministrator()
      requires Valid() && main == CreateAdmin
      modifies this`main, accounts
      ensures Valid() && Abs() == MainNext(cfg, old(Abs()), Tick())
    {
      ghost var s, a := Abs(), Tick();
      var _ := CreateBankAccount(cfg.hash, accounts, ADMIN_ACCOUNT_ID, 0, cfg.adminPassword, cfg.adminSalt);
      main := MainTest;
      MainStepIsReachable(cfg, s, a, Abs());
    }

    /** `while (!close_thread)` */
    method TestCloseFlag()
      requires Valid() && main == MainTest
      modifies this`main
      ensures Valid() && Abs() == MainNext(cfg, old(Abs()), Tick())
    {
      ghost var s, a := Abs(), Tick();
      main := if closeThread then Release(0) else TestExit;
      MainStepIsReachable(cfg, s, a, Abs());
    }

    /** `server_exit` */
    method TestExitFlag()
      requires Valid() && main == TestExit
      modifies this`main
      ensures Valid() && Abs() == MainNext(cfg, old(Abs()), Tick())
    {
      ghost var s, a := Abs(), Tick();
      main := if serverExit then TestEmpty else ReadRequest;
      MainStepIsReachable(cfg, s, a, Abs());
    }

    /** `requests.size == 0` */
    method TestQueueSize()
      requires Valid() && main == TestEmpty
      modifies this`main
      ensures Valid() && Abs() == MainNext(cfg, old(Abs()), Tick())
    {
      ghost var s, a := Abs(), Tick();
      main := if requests.size == 0 then SetClose else ReadRequest;
      MainStepIsReachable(cfg, s, a, Abs());
    }

    /** `close_thread = true` */
    method CloseServer()
      requires Valid() && main == SetClose
      modifies this`main, this`closeThread, this`cutoff
      ensures Valid() && Abs() == MainNext(cfg, old(Abs()), Tick())
    {
      ghost var s, a := Abs(), Tick();
      closeThread, cutoff := true, |pushed|;
      main := ReadRequest;
      MainStepIsReachable(cfg, s, a, Abs());
    }

    /** `read`, which delivers a request or nothing. */
    method ReadInput(input: Option<Request>)
      requires Valid() && main == ReadRequest
      modifies this`main, this`request
      ensures Valid() && Abs() == MainNext(cfg, old(Abs()), MainStep(input))
    {
      ghost var s, a := Abs(), MainStep(input);
      match input {
        case None => main := MainTest;
        case Some(r) =>
          request := r;
          main := MainLock;
      }
      MainStepIsReachable(cfg, s, a, Abs());
    }

    /** `lock_mutex(&mutex)`: blocks while somebody holds it. */
    method AcquireForPush()
      requires Valid() && main == MainLock && mutex.Free?
      modifies this`main, this`mutex
      ensures Valid() && Abs() == MainNext(cfg, old(Abs()), Tick())
    {
      ghost var s, a := Abs(), Tick();
      mutex := ByMain;
      main := MainPush;
      MainStepIsReachable(cfg, s, a, Abs());
    }

    /** `push` */
    method PushRequest()
      requires Valid() && main == MainPush
      modifies this`main, this`pushed, requests.Repr
      ensures Valid() && fresh(requests.Repr - old(requests.Repr))
      ensures Abs() == MainNext(cfg, old(Abs()), Tick())
    {
      ghost var s, a := Abs(), Tick();
      requests.Push(request);
      pushed := pushed + [request];
      main := MainUnlock;
      MainStepIsReachable(cfg, s, a, Abs());
    }

    /** `unlock_mutex(&mutex)` */
    method ReleaseAfterPush()
      requires Valid() && main == MainUnlock
      modifies this`main, this`mutex
      ensures Valid() && Abs() == MainNext(cfg, old(Abs()), Tick())
    {
      ghost var s, a := Abs(), Tick();
      mutex := Free;
      main := MainPost;
      MainStepIsReachable(cfg, s, a, Abs());
    }

    /** `post_sem(&main_sem)` */
    method AnnounceRequest()
      requires Valid() && main == MainPost
      modifies this`main, this`mainSem
      ensures Valid() && Abs() == MainNext(cfg, old(Abs()), Tick())
    {
      ghost var s, a := Abs(), Tick();
      mainSem := mainSem + 1;
      main := MainTest;
      MainStepIsReachable(cfg, s, a, Abs());
    }

    /** One round of the loop that posts `main_sem` once per office. */
    method ReleaseOffice()
      requires Valid() && main.Release? && main.posted < workers.Length
      modifies this`main, this`mainSem
      ensures Valid() && Abs() == MainNext(cfg, old(Abs()), Tick())
    {
      ghost var s, a := Abs(), Tick();
      mainSem := mainSem + 1;
      main := Release(main.posted + 1);
      MainStepIsReachable(cfg, s, a, Abs());
    }

    /** The end of that loop. */
    method StartJoining()
      requires Valid() && main.Release? && main.posted >= workers.Length
      modifies this`main
      ensures Valid() && Abs() == MainNext(cfg, old(Abs()), Tick())
    {
      ghost var s, a := Abs(), Tick();
      main := Join(0);
      MainStepIsReachable(cfg, s, a, Abs());
    }

    /** One round of the loop that joins the offices: blocks until the office has returned. */
    method JoinOffice()
      requires Valid() && main.Join?
        && (main.joined < workers.Length ==> workers[main.joined].pc.Returned?)
      modifies this`main
      ensures Valid() && Abs() == MainNext(cfg, old(Abs()), Tick())
    {
      ghost var s, a := Abs(), Tick();
      main := if main.joined < workers.Length then Join(main.joined + 1) else Exited;
      MainStepIsReachable(cfg, s, a, Abs());
    }

    // ----- any thread -----

    /** The salt, the old reply word and the fate of the user's FIFO matter only to the statements that
        use them. */
    lemma ChoicesMatterWhereUsed(s: State, a: Action, b: Action)
      requires a.WorkerStep? && b.WorkerStep? && a.i == b.i && WorkerEnabled(s, a.i)
      requires s.workers[a.i].pc.BuildReply? ==> a.salt == b.salt && a.junk == b.junk
      requires s.workers[a.i].pc.SendReply? ==> a.up == b.up
      ensures WorkerNext(cfg, s, a) == WorkerNext(cfg, s, b)
    {
    }

    /** The next statement of office `i` outside the critical section. */
    method LoopStep(i: nat)
      requires Valid() && WorkerEnabled(Abs(), i) && !InCritical(workers[i].pc)
      modifies this, workers
      ensures Valid() && Abs() == WorkerNext(cfg, old(Abs()), Act(i))
    {
      match workers[i].pc {
        case TestLoop => ReadCloseFlag(i);
        case WaitMain => AwaitRequest(i);
        case TestClose => RecheckCloseFlag(i);
        case LockMutex => AcquireMutex(i);
        case NoteShutdown => RecordShutdown(i);
        case CountOut => LeaveCount(i);
        case _ =>
      }
    }

    /** The next statement of the office in the critical section, up to the reply. */
    method ServeStep(i: nat, salt: string, junk: uint32)
      requires Valid() && WorkerEnabled(Abs(), i)
      requires HasRequest(workers[i].pc) || workers[i].pc.PopRequest?
      modifies this, accounts, workers, requests.Repr
      ensures Valid() && fresh(requests.Repr - old(requests.Repr))
      ensures Abs() == WorkerNext(cfg, old(Abs()), WorkerStep(i, salt, junk, false))
    {
      ghost var s := Abs();
      if !workers[i].pc.BuildReply? {
        ChoicesMatterWhereUsed(s, WorkerStep(i, salt, junk, false), Act(i));
      }
      match workers[i].pc {
        case PopRequest => TakeRequest(i);
        case CountIn => EnterCount(i);
        case WaitSource => AwaitSource(i);
        case WaitTarget => AwaitTarget(i);
        case BuildReply => AnswerRequest(i, salt, junk);
        case _ =>
      }
    }

    /** And from there on. */
    method ReplyStep(i: nat, up: bool)
      requires Valid() && WorkerEnabled(Abs(), i)
      requires HasReply(workers[i].pc) || workers[i].pc.UnlockMutex?
      modifies this, accounts, workers
      ensures Valid() && Abs() == WorkerNext(cfg, old(Abs()), WorkerStep(i, "", 0, up))
    {
      ghost var s := Abs();
      if !workers[i].pc.SendReply? {
        ChoicesMatterWhereUsed(s, WorkerStep(i, "", 0, up), Act(i));
      }
      match workers[i].pc {
        case PostSource => ReleaseSource(i);
        case PostTarget => ReleaseTarget(i);
        case SendReply => DeliverReply(i, up);
        case UnlockMutex => ReleaseMutex(i);
        case _ =>
      }
    }

    /** The next statement of office `i`. */
    method OfficeStep(i: nat, salt: string, junk: uint32, up: bool)
      requires Valid() && WorkerEnabled(Abs(), i)
      modifies this, accounts, workers, requests.Repr
      ensures Valid() && fresh(requests.Repr - old(requests.Repr))
      ensures Abs() == WorkerNext(cfg, old(Abs()), WorkerStep(i, salt, junk, up))
    {
      ghost var s, a := Abs(), WorkerStep(i, salt, junk, up);
      if !InCritical(workers[i].pc) {
        ChoicesMatterWhereUsed(s, a, Act(i));
        LoopStep(i);
      } else if HasReply(workers[i].pc) || workers[i].pc.UnlockMutex? {
        ChoicesMatterWhereUsed(s, a, WorkerStep(i, "", 0, up));
        ReplyStep(i, up);
      } else {
        ChoicesMatterWhereUsed(s, a, WorkerStep(i, salt, junk, false));
        ServeStep(i, salt, junk);
      }
    }

    /** The next statement of `main`. */
    method MainThreadStep(input: Option<Request>)
      requires Valid() && MainEnabled(Abs())
      modifies this, accounts, workers, requests.Repr
      ensures Valid() && fresh(requests.Repr - old(requests.Repr))
      ensures Abs() == MainNext(cfg, old(Abs()), MainStep(input))
    {
      match main {
        case CreateAdmin => CreateAdministrator();
        case MainTest => TestCloseFlag();
        case TestExit => TestExitFlag();
        case TestEmpty => TestQueueSize();
        case SetClose => CloseServer();
        case ReadRequest => ReadInput(input);
        case MainLock => AcquireForPush();
        case MainPush => PushRequest();
        case MainUnlock => ReleaseAfterPush();
        case MainPost => AnnounceRequest();
        case Release(posted) =>
          if posted < workers.Length {
            ReleaseOffice();
          } else {
            StartJoining();
          }
        case Join(_) => JoinOffice();
        case Exited =>
      }
    }

    /** Whatever step the protocol allows, the shared variables can take it, and end up where the
        protocol says; what `main` reads joins what is pushed, and the history grows by the call made
        and by the fate of the reply sent. */
    method Step(a: Action)
      requires Valid() && Enabled(Abs(), a)
      modifies this, accounts, workers, requests.Repr
      ensures Valid() && fresh(requests.Repr - old(requests.Repr))
      ensures Abs() == Next(cfg, old(Abs()), a)
      ensures pushed + InHand(Abs()) == old(pushed + InHand(Abs())) + old(RequestAt(Abs(), a))
      ensures calls == old(calls) + old(CallAt(Abs(), a))
      ensures delivered == old(delivered) + old(DeliveryAt(Abs(), a))
    {
      StepKeepsHistory(cfg, Abs(), a);
      match a {
        case WorkerStep(i, salt, junk, up) => OfficeStep(i, salt, junk, up);
        case MainStep(input) => MainThreadStep(input);
      }
    }
  }
}
