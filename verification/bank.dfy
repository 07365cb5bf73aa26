/** The sequential bank (Project2/source/banking_aux.c): what each routine does to the account
    table, as functions, and the routines themselves, which update the table in place. */
module Bank {
  import opened Types

  /** One call of `build_tlv_reply` with what it takes from outside its arguments: the salt a
      creation would draw, the number of active offices it reads, and the word left in the
      reply's union. */
  datatype Call = Call(request: Request, salt: string, offices: int, junk: uint32)

  datatype Result = Result(accounts: Table, reply: Reply)

  datatype Posting = Posting(code: RetCode, source: uint32, dest: uint32)

  predicate IsActive(t: Table, id: uint32)
    requires id < MAX_BANK_ACCOUNTS
  {
    t[id].hash != ""
  }

  function Opened(hash: HashFn, id: uint32, balance: uint32, password: string, salt: string): Account {
    Account(id, balance, salt, hash(password, salt), 1, true)
  }

  function Created(hash: HashFn, t: Table, id: uint32, balance: uint32, password: string, salt: string): Table
    requires id < MAX_BANK_ACCOUNTS
  {
    if IsActive(t, id) then t else t[id := Opened(hash, id, balance, password, salt)]
  }

  function Validated(hash: HashFn, t: Table, id: uint32, password: string): RetCode
    requires id < MAX_BANK_ACCOUNTS
  {
    if !IsActive(t, id) then IdNotFound
    else if hash(password, t[id].salt) != t[id].hash then LoginFail
    else Ok
  }

  /** The wrapping arithmetic of a transfer between two distinct accounts. */
  function MachineTransfer(source: uint32, dest: uint32, amount: uint32): Posting {
    if AsInt32(Wrap(source - amount)) < MIN_BALANCE then Posting(NoFunds, source, dest)
    else if Wrap(dest + amount) > MAX_BALANCE then Posting(TooHigh, source, dest)
    else Posting(Ok, Wrap(source - amount), Wrap(dest + amount))
  }

  function Code(hash: HashFn, t: Table, r: Request): RetCode {
    var login := Validated(hash, t, r.accountId, r.password);
    if !login.Ok? then login
    else match r.op
      case CreateAccount =>
        if r.accountId != ADMIN_ACCOUNT_ID then OpNAllow
        else if IsActive(t, r.argId) then IdInUse
        else Ok
      case Balance =>
        if r.accountId == ADMIN_ACCOUNT_ID then OpNAllow
        else if !IsActive(t, r.argId) then IdNotFound
        else Ok
      case Transfer =>
        if r.accountId == r.argId then SameId
        else if r.accountId == ADMIN_ACCOUNT_ID then OpNAllow
        else if r.argId == ADMIN_ACCOUNT_ID then OpNAllow
        else if !IsActive(t, r.argId) then IdNotFound
        else MachineTransfer(t[r.accountId].balance, t[r.argId].balance, r.argAmount).code
      case Shutdown =>
        if r.accountId != ADMIN_ACCOUNT_ID then OpNAllow else Ok
      case OtherOp(_) => Ok
  }

  function Updated(hash: HashFn, t: Table, c: Call): Table {
    var r := c.request;
    if !Code(hash, t, r).Ok? then t
    else match r.op
      case CreateAccount => t[r.argId := Opened(hash, r.argId, r.argAmount, r.argPassword, c.salt)]
      case Transfer =>
        var p := MachineTransfer(t[r.accountId].balance, t[r.argId].balance, r.argAmount);
        t[r.argId := t[r.argId].(balance := p.dest)][r.accountId := t[r.accountId].(balance := p.source)]
      case Balance => t
      case Shutdown => t
      case OtherOp(_) => t
  }

  function Word(hash: HashFn, t: Table, c: Call): uint32 {
    var r := c.request;
    var code := Code(hash, t, r);
    match r.op
    case Balance => if code.Ok? then t[r.accountId].balance else c.junk
    case Transfer =>
      if !Validated(hash, t, r.accountId, r.password).Ok? then c.junk
      else if code.Ok? then MachineTransfer(t[r.accountId].balance, t[r.argId].balance, r.argAmount).source
      else r.argAmount
    case Shutdown => if code.Ok? then Wrap(c.offices) else c.junk
    case CreateAccount => c.junk
    case OtherOp(_) => c.junk
  }

  /** What one call of `build_tlv_reply` computes. */
  function Handle(hash: HashFn, t: Table, c: Call): Result {
    Result(Updated(hash, t, c),
           Reply(c.request.op, REPLY_LENGTH, c.request.accountId, Code(hash, t, c.request), Word(hash, t, c)))
  }

  /** The table after a sequence of calls, one after the other. */
  function Fold(hash: HashFn, t: Table, calls: seq<Call>): Table {
    if calls == [] then t
    else Handle(hash, Fold(hash, t, calls[..|calls| - 1]), calls[|calls| - 1]).accounts
  }

  // ----- the routines, in place -----

  /** A reply under construction. */
  class TlvReply {
    var op: OpType
    var length: uint32
    var accountId: uint32
    var retCode: RetCode
    var word: uint32

    function Value(): Reply
      reads this
    {
      Reply(op, length, accountId, retCode, word)
    }

    constructor (junk: uint32)
      ensures word == junk
    {
      op, length, accountId, retCode, word := Shutdown, 0, 0, Ok, junk;
    }
  }

  method IsActiveAccount(accounts: array<Account>, id: uint32) returns (b: bool)
    requires accounts.Length == MAX_BANK_ACCOUNTS && id < MAX_BANK_ACCOUNTS
    ensures b == IsActive(accounts[..], id) && (b <==> accounts[id].hash != "")
  {
    if |accounts[id].hash| == 0 {
      return false;
    }
    return true;
  }

  method CreateBankAccount(hash: HashFn, accounts: array<Account>, id: uint32, balance: uint32,
                           password: string, salt: string) returns (created: bool)
    requires accounts.Length == MAX_BANK_ACCOUNTS && id < MAX_BANK_ACCOUNTS
    modifies accounts
    ensures created <==> old(accounts[id].hash) == ""
    ensures !created ==> accounts[..] == old(accounts[..])
    ensures created ==>
      accounts[..] == old(accounts[..])[id := Account(id, balance, salt, hash(password, salt), 1, true)]
    ensures accounts[..] == Created(hash, old(accounts[..]), id, balance, password, salt)
  {
    var inUse := IsActiveAccount(accounts, id);
    if inUse {
      return false;
    }
    accounts[id] := accounts[id].(accountId := id);
    accounts[id] := accounts[id].(balance := balance);
    accounts[id] := accounts[id].(salt := salt);
    accounts[id] := accounts[id].(hash := hash(password, accounts[id].salt));
    accounts[id] := accounts[id].(active := true);
    accounts[id] := accounts[id].(semaphore := 1);
    return true;
  }

  method ValidateBankAccount(hash: HashFn, accounts: array<Account>, id: uint32, password: string)
    returns (code: RetCode)
    requires accounts.Length == MAX_BANK_ACCOUNTS && id < MAX_BANK_ACCOUNTS
    ensures code == Validated(hash, accounts[..], id, password)
    ensures code == IdNotFound <==> accounts[id].hash == ""
    ensures code == Ok <==> accounts[id].hash != "" && accounts[id].hash == hash(password, accounts[id].salt)
    ensures code == IdNotFound || code == Ok || code == LoginFail
  {
    var known := IsActiveAccount(accounts, id);
    if !known {
      return IdNotFound;
    }
    var digest := hash(password, accounts[id].salt);
    if digest != accounts[id].hash {
      return LoginFail;
    }
    return Ok;
  }

  /** The transfer branch of `build_tlv_reply`. */
  method ReplyToTransfer(hash: HashFn, request: Request, accounts: array<Account>, reply: TlvReply,
                         ghost salt: string, ghost activeThreads: int)
    requires accounts.Length == MAX_BANK_ACCOUNTS && request.op.Transfer?
    requires Validated(hash, accounts[..], request.accountId, request.password).Ok? && reply.retCode.Ok?
    modifies accounts, reply`retCode, reply`word
    ensures var call, t := Call(request, salt, activeThreads, old(reply.word)), old(accounts[..]);
      && accounts[..] == Updated(hash, t, call)
      && reply.retCode == Code(hash, t, request) && reply.word == Word(hash, t, call)
  {
    reply.word := request.argAmount;
    var known := IsActiveAccount(accounts, request.argId);
    if request.accountId == request.argId {
      reply.retCode := SameId;
    } else if request.accountId == ADMIN_ACCOUNT_ID {
      reply.retCode := OpNAllow;
    } else if request.argId == ADMIN_ACCOUNT_ID {
      reply.retCode := OpNAllow;
    } else if !known {
      reply.retCode := IdNotFound;
    } else if AsInt32(Wrap(accounts[request.accountId].balance - request.argAmount)) < MIN_BALANCE {
      reply.retCode := NoFunds;
    } else if Wrap(accounts[request.argId].balance + request.argAmount) > MAX_BALANCE {
      reply.retCode := TooHigh;
    } else {
      accounts[request.argId] := accounts[request.argId].(
        balance := Wrap(accounts[request.argId].balance + request.argAmount));
      accounts[request.accountId] := accounts[request.accountId].(
        balance := Wrap(accounts[request.accountId].balance - request.argAmount));
      reply.word := accounts[request.accountId].balance;
    }
  }

  method BuildTlvReply(hash: HashFn, request: Request, accounts: array<Account>, reply: TlvReply,
                       salt: string, activeThreads: int)
    requires accounts.Length == MAX_BANK_ACCOUNTS
    modifies accounts, reply
    ensures var call := Call(request, salt, activeThreads, old(reply.word));
      Handle(hash, old(accounts[..]), call) == Result(accounts[..], reply.Value())
  {
    reply.op := request.op;
    reply.accountId := request.accountId;
    reply.retCode := ValidateBankAccount(hash, accounts, request.accountId, request.password);
    if reply.retCode.Ok? {
      match request.op {
        case CreateAccount =>
          if request.accountId != ADMIN_ACCOUNT_ID {
            reply.retCode := OpNAllow;
          } else {
            var inUse := IsActiveAccount(accounts, request.argId);
            if inUse {
              reply.retCode := IdInUse;
            } else {
              var _ := CreateBankAccount(hash, accounts, request.argId, request.argAmount,
                                         request.argPassword, salt);
            }
          }
        case Balance =>
          if request.accountId == ADMIN_ACCOUNT_ID {
            reply.retCode := OpNAllow;
          } else {
            var known := IsActiveAccount(accounts, request.argId);
            if !known {
              reply.retCode := IdNotFound;
            } else {
              reply.word := accounts[reply.accountId].balance;
            }
          }
        case Transfer =>
          ReplyToTransfer(hash, request, accounts, reply, salt, activeThreads);
        case Shutdown =>
          if request.accountId != ADMIN_ACCOUNT_ID {
            reply.retCode := OpNAllow;
          } else {
            reply.word := Wrap(activeThreads);
          }
        case OtherOp(_) =>
      }
    }
    reply.length := REPLY_LENGTH;
  }
}
