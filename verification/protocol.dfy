/** The bank server (Project2/source/server.c) as interleaved steps: the main thread, which reads
    requests into the queue and runs the shutdown, and the offices, which serve the queue. One step
    is one access to shared state; a step that would block is not enabled. */
module Protocol {
  import opened Types
  import opened Bank
  import opened BankProperties
  import Runs

  datatype Config = Config(hash: HashFn, adminPassword: string, adminSalt: string, offices: nat)
  {
    function Genesis(): Table {
      BankProperties.Genesis(hash, adminPassword, adminSalt)
    }

    function After(calls: seq<Call>): Table {
      Fold(hash, Genesis(), calls)
    }
  }

  datatype Owner = Free | ByMain | ByWorker(i: nat)

  /** Program counter of `read_request`. */
  datatype Pc =
    | TestLoop | WaitMain | TestClose | LockMutex | PopRequest | CountIn | WaitSource | WaitTarget
    | BuildReply | PostSource | PostTarget | SendReply | UnlockMutex | NoteShutdown | CountOut | Returned

  /** An office thread: where it is, and its local request and reply. */
  datatype Worker = Worker(pc: Pc, request: Request, reply: Reply)

  /** Program counter of `main`, from the creation of the administrator on. */
  datatype MainPc =
    | CreateAdmin | MainTest | TestExit | TestEmpty | SetClose | ReadRequest
    | MainLock | MainPush | MainUnlock | MainPost
    | Release(posted: nat) | Join(joined: nat) | Exited

  /** The fields from `pushed` on are history: the requests pushed, the calls of `build_tlv_reply`,
      the replies logged and whether the user got them, and how many requests had been pushed when
      `close_thread` was set. */
  datatype State = State(
    accounts: Table,
    queue: seq<Request>,
    mainSem: nat,
    mutex: Owner,
    serverExit: bool,
    closeThread: bool,
    activeThreads: int,
    workers: seq<Worker>,
    main: MainPc,
    request: Request,
    pushed: seq<Request>,
    calls: seq<Call>,
    replies: seq<Reply>,
    delivered: seq<bool>,
    cutoff: nat)

  /** One step of one thread, with what the environment supplies to it. */
  datatype Action =
    | WorkerStep(i: nat, salt: string, junk: uint32, up: bool)
    | MainStep(input: Option<Request>)

  const NO_REQUEST: Request := RawRequest(Shutdown, 0, 0, "", 0, 0, 0, "")
  const NO_REPLY := Reply(Shutdown, 0, 0, RetCode.Ok, 0)

  function Init(cfg: Config): State {
    State(BlankTable(), [], 0, Free, false, false, 0,
          seq(cfg.offices, _ => Worker(TestLoop, NO_REQUEST, NO_REPLY)), CreateAdmin, NO_REQUEST,
          [], [], [], [], 0)
  }

  // ----- account semaphores -----

  predicate CanTake(t: Table, id: uint32)
    requires id < MAX_BANK_ACCOUNTS
  {
    t[id].active ==> t[id].semaphore > 0
  }

  /** `wait_sem` on the account if it is active. */
  function Take(t: Table, id: uint32): Table
    requires id < MAX_BANK_ACCOUNTS
  {
    if t[id].active && t[id].semaphore > 0 then t[id := t[id].(semaphore := t[id].semaphore - 1)] else t
  }

  /** `post_sem` on the account if it is active. */
  function Give(t: Table, id: uint32): Table
    requires id < MAX_BANK_ACCOUNTS
  {
    if t[id].active then t[id := t[id].(semaphore := t[id].semaphore + 1)] else t
  }

  function TakeTarget(t: Table, r: Request): Table {
    if r.op.Transfer? then Take(t, r.argId) else t
  }

  function GiveTarget(t: Table, r: Request): Table {
    if r.op.Transfer? then Give(t, r.argId) else t
  }

  // ----- the offices -----

  predicate WorkerEnabled(s: State, i: nat) {
    && i < |s.workers|
    && var w := s.workers[i];
      match w.pc
      case WaitMain => s.mainSem > 0
      case LockMutex => s.mutex.Free?
      case PopRequest => s.queue != []
      case WaitSource => CanTake(s.accounts, w.request.accountId)
      case WaitTarget => w.request.op.Transfer? ==> CanTake(s.accounts, w.request.argId)
      case Returned => false
      case _ => true
  }

  /** The reply as logged: `RC_USR_DOWN` when the user's FIFO cannot be opened. */
  function Sent(reply: Reply, up: bool): Reply {
    if up then reply else reply.(retCode := UsrDown)
  }

  /** A shutdown takes effect only if its reply, as sent, still says `RC_OK`. */
  predicate IsAcceptedShutdown(reply: Reply) {
    reply.op.Shutdown? && reply.retCode.Ok?
  }

  function NextPc(s: State, pc: Pc): Pc {
    match pc
    case TestLoop => if s.closeThread then Returned else WaitMain
    case WaitMain => TestClose
    case TestClose => if s.closeThread then Returned else LockMutex
    case LockMutex => PopRequest
    case PopRequest => CountIn
    case CountIn => WaitSource
    case WaitSource => WaitTarget
    case WaitTarget => BuildReply
    case BuildReply => PostSource
    case PostSource => PostTarget
    case PostTarget => SendReply
    case SendReply => UnlockMutex
    case UnlockMutex => NoteShutdown
    case NoteShutdown => CountOut
    case CountOut => TestLoop
    case Returned => Returned
  }

  /** The call that an office at `BuildReply` makes. */
  function CallOf(s: State, a: Action): Call
    requires a.WorkerStep? && a.i < |s.workers|
  {
    Call(s.workers[a.i].request, a.salt, s.activeThreads, a.junk)
  }

  /** The local variables of the office after its step. */
  function NextWorker(cfg: Config, s: State, a: Action): Worker
    requires a.WorkerStep? && WorkerEnabled(s, a.i)
  {
    var w := s.workers[a.i];
    Worker(
      NextPc(s, w.pc),
      if w.pc.PopRequest? then s.queue[0] else w.request,
      match w.pc
      case BuildReply => Handle(cfg.hash, s.accounts, CallOf(s, a)).reply
      case SendReply => Sent(w.reply, a.up)
      case _ => w.reply)
  }

  /** The account table after the step of an office. */
  function NextAccounts(cfg: Config, s: State, a: Action): Table
    requires a.WorkerStep? && WorkerEnabled(s, a.i)
  {
    var w := s.workers[a.i];
    match w.pc
    case WaitSource => Take(s.accounts, w.request.accountId)
    case WaitTarget => TakeTarget(s.accounts, w.request)
    case BuildReply => Handle(cfg.hash, s.accounts, CallOf(s, a)).accounts
    case PostSource => Give(s.accounts, w.request.accountId)
    case PostTarget => GiveTarget(s.accounts, w.request)
    case _ => s.accounts
  }

  /** One step of an office: field by field, what the statement at its program counter changes. */
  function WorkerNext(cfg: Config, s: State, a: Action): State
    requires a.WorkerStep? && WorkerEnabled(s, a.i)
  {
    var w := s.workers[a.i];
    s.(workers := s.workers[a.i := NextWorker(cfg, s, a)],
       mainSem := if w.pc.WaitMain? then s.mainSem - 1 else s.mainSem,
       mutex := if w.pc.LockMutex? then ByWorker(a.i) else if w.pc.UnlockMutex? then Free else s.mutex,
       queue := if w.pc.PopRequest? then s.queue[1..] else s.queue,
       activeThreads :=
         s.activeThreads + if w.pc.CountIn? then 1 else if w.pc.CountOut? then -1 else 0,
       accounts := NextAccounts(cfg, s, a),
       serverExit := s.serverExit || (w.pc.NoteShutdown? && IsAcceptedShutdown(w.reply)),
       calls := if w.pc.BuildReply? then s.calls + [CallOf(s, a)] else s.calls,
       replies := if w.pc.SendReply? then s.replies + [Sent(w.reply, a.up)] else s.replies,
       delivered := if w.pc.SendReply? then s.delivered + [a.up] else s.delivered)
  }

  // ----- the main thread -----

  predicate MainEnabled(s: State) {
    match s.main
    case MainLock => s.mutex.Free?
    case Join(n) => n < |s.workers| ==> s.workers[n].pc.Returned?
    case Exited => false
    case _ => true
  }

  function NextMainPc(s: State, input: Option<Request>): MainPc {
    match s.main
    case CreateAdmin => MainTest
    case MainTest => if s.closeThread then Release(0) else TestExit
    case TestExit => if s.serverExit then TestEmpty else ReadRequest
    case TestEmpty => if s.queue == [] then SetClose else ReadRequest
    case SetClose => ReadRequest
    case ReadRequest => if input.Some? then MainLock else MainTest
    case MainLock => MainPush
    case MainPush => MainUnlock
    case MainUnlock => MainPost
    case MainPost => MainTest
    case Release(n) => if n < |s.workers| then Release(n + 1) else Join(0)
    case Join(n) => if n < |s.workers| then Join(n + 1) else Exited
    case Exited => Exited
  }

  /** One step of `main`: field by field, what the statement at its program counter changes. */
  function MainNext(cfg: Config, s: State, a: Action): State
    requires a.MainStep? && MainEnabled(s)
  {
    s.(main := NextMainPc(s, a.input),
       accounts :=
         if s.main.CreateAdmin?
         then Created(cfg.hash, s.accounts, ADMIN_ACCOUNT_ID, 0, cfg.adminPassword, cfg.adminSalt)
         else s.accounts,
       closeThread := s.closeThread || s.main.SetClose?,
       cutoff := if s.main.SetClose? then |s.pushed| else s.cutoff,
       request := if s.main.ReadRequest? && a.input.Some? then a.input.value else s.request,
       mutex := if s.main.MainLock? then ByMain else if s.main.MainUnlock? then Free else s.mutex,
       queue := if s.main.MainPush? then s.queue + [s.request] else s.queue,
       pushed := if s.main.MainPush? then s.pushed + [s.request] else s.pushed,
       mainSem :=
         s.mainSem + if s.main.MainPost? || (s.main.Release? && s.main.posted < |s.workers|) then 1 else 0)
  }

  // ----- runs -----

  predicate Enabled(s: State, a: Action) {
    match a
    case WorkerStep(i, _, _, _) => WorkerEnabled(s, i)
    case MainStep(_) => MainEnabled(s)
  }

  function Next(cfg: Config, s: State, a: Action): State
    requires Enabled(s, a)
  {
    match a
    case WorkerStep(_, _, _, _) => WorkerNext(cfg, s, a)
    case MainStep(_) => MainNext(cfg, s, a)
  }

  function Steps(cfg: Config): (State, Action) -> Option<State> {
    (s, a) => if Enabled(s, a) then Some(Next(cfg, s, a)) else None
  }

  /** `actions`, one after the other, lead from `s` to `end`. */
  ghost predicate Run(cfg: Config, s: State, actions: seq<Action>, end: State) {
    Runs.Run(Steps(cfg), s, actions, end)
  }

  ghost predicate Reachable(cfg: Config, s: State) {
    Runs.Reachable(Steps(cfg), Init(cfg), s)
  }

  /** The mutex holder waits a second time for the semaphore of its own account. */
  predicate StuckInSelfTransfer(s: State, i: nat) {
    && i < |s.workers|
    && s.mutex == ByWorker(i)
    && s.workers[i].pc.WaitTarget?
    && s.workers[i].request.IsSelfTransfer()
    && s.accounts[s.workers[i].request.accountId].active
    && s.accounts[s.workers[i].request.accountId].semaphore == 0
  }
}
