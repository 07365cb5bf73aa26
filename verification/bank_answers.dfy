/** What every reply of the sequential bank says, for every table and every call: stated on the fields
    of the accounts and over the integers, without the routines that compute it. */
module BankAnswers {
  import opened Types
  import opened Bank
  import opened BankProperties

  /** The requester exists and the password has the stored hash. */
  predicate LoggedIn(hash: HashFn, t: Table, r: Request) {
    t[r.accountId].hash != "" && hash(r.password, t[r.accountId].salt) == t[r.accountId].hash
  }

  /** A transfer between two different existing customers, by its source. */
  predicate BetweenCustomers(hash: HashFn, t: Table, r: Request) {
    && LoggedIn(hash, t, r) && r.op.Transfer? && r.accountId != r.argId
    && r.accountId != ADMIN_ACCOUNT_ID && r.argId != ADMIN_ACCOUNT_ID && t[r.argId].hash != ""
  }

  /** What is left in the source, over the integers, looks positive to the machine. */
  predicate LooksFunded(left: int) {
    MIN_BALANCE <= left < INT32_LIMIT || left < -INT32_LIMIT
  }

  /** The new balance of the target, over the integers, looks too high to the machine. */
  predicate LooksTooHigh(sum: int) {
    MAX_BALANCE < sum < UINT32_RANGE || sum > UINT32_RANGE + MAX_BALANCE
  }

  /** The header of a reply echoes the request. */
  lemma HeaderEchoesRequest(hash: HashFn, t: Table, c: Call)
    ensures var reply := Handle(hash, t, c).reply;
      reply.op == c.request.op && reply.accountId == c.request.accountId && reply.length == 8
  {
  }

  /** The login is decided first: an unknown requester gets `RC_ID_NOT_FOUND` and a wrong password
      `RC_LOGIN_FAIL`, whatever the operation and its arguments. */
  lemma LoginIsDecidedFirst(hash: HashFn, t: Table, r: Request)
    ensures t[r.accountId].hash == "" ==> Code(hash, t, r) == IdNotFound
    ensures Code(hash, t, r) == LoginFail <==> t[r.accountId].hash != "" && !LoggedIn(hash, t, r)
  {
  }

  /** When each code is answered, for every request and all 32-bit balances and amounts; the codes not
      listed never are. */
  lemma EachCodeHasItsCause(hash: HashFn, t: Table, r: Request)
    ensures var code := Code(hash, t, r);
      && (code.OpNAllow? <==>
            LoggedIn(hash, t, r) &&
            match r.op
            case CreateAccount | Shutdown => r.accountId != ADMIN_ACCOUNT_ID
            case Balance => r.accountId == ADMIN_ACCOUNT_ID
            case Transfer =>
              r.accountId != r.argId && (r.accountId == ADMIN_ACCOUNT_ID || r.argId == ADMIN_ACCOUNT_ID)
            case OtherOp(_) => false)
      && (code.IdInUse? <==>
            LoggedIn(hash, t, r) && r.op.CreateAccount? && r.accountId == ADMIN_ACCOUNT_ID
            && t[r.argId].hash != "")
      && (code.IdNotFound? <==>
            || t[r.accountId].hash == ""
            || (&& LoggedIn(hash, t, r) && r.accountId != ADMIN_ACCOUNT_ID
                && (r.op.Balance? || (r.op.Transfer? && r.accountId != r.argId && r.argId != ADMIN_ACCOUNT_ID))
                && t[r.argId].hash == ""))
      && (code.SameId? <==> LoggedIn(hash, t, r) && r.op.Transfer? && r.accountId == r.argId)
      && (code.NoFunds? <==>
            BetweenCustomers(hash, t, r) && !LooksFunded(t[r.accountId].balance - r.argAmount))
      && (code.TooHigh? <==>
            && BetweenCustomers(hash, t, r) && LooksFunded(t[r.accountId].balance - r.argAmount)
            && LooksTooHigh(t[r.argId].balance + r.argAmount))
      && !code.SrvDown? && !code.SrvTimeout? && !code.UsrDown? && !code.Other?
  {
    if BetweenCustomers(hash, t, r) {
      TransferOutcome(t[r.accountId].balance, t[r.argId].balance, r.argAmount);
    }
  }

  lemma TransferOutcome(source: uint32, dest: uint32, amount: uint32)
    ensures var p := MachineTransfer(source, dest, amount);
      && (p.code.NoFunds? <==> !LooksFunded(source - amount))
      && (p.code.TooHigh? <==> LooksFunded(source - amount) && LooksTooHigh(dest + amount))
      && (p.code.Ok? || p.code.NoFunds? || p.code.TooHigh?)
  {
  }

  /** What the last word of a reply is: the requester's balance after a successful query or transfer,
      the amount after a transfer refused to a logged-in requester, the number of active offices after
      an accepted shutdown, and otherwise what the memory held before. */
  lemma WordOfReply(hash: HashFn, t: Table, c: Call)
    ensures var r, after, reply := c.request, Handle(hash, t, c).accounts, Handle(hash, t, c).reply;
      reply.word ==
        if (r.op.Balance? || r.op.Transfer?) && reply.retCode.Ok? then after[r.accountId].balance
        else if r.op.Transfer? && LoggedIn(hash, t, r) then r.argAmount
        else if r.op.Shutdown? && reply.retCode.Ok? then c.offices % UINT32_RANGE
        else c.junk
  {
  }

  /** A creation never overwrites an account that exists. */
  lemma CreationRefusesIdsInUse(
      hash: HashFn, t: Table, id: uint32, balance: uint32, password: string, salt: string)
    requires id < MAX_BANK_ACCOUNTS
    ensures var after := Created(hash, t, id, balance, password, salt);
      if t[id].hash != "" then after == t
      else after == t[id := Account(id, balance, salt, hash(password, salt), 1, true)]
  {
  }

  /** A successful creation opens exactly the account asked for. */
  lemma CreationOpensTheAccount(hash: HashFn, t: Table, c: Call)
    requires c.request.op.CreateAccount? && Handle(hash, t, c).reply.retCode.Ok?
    ensures var r, after := c.request, Handle(hash, t, c).accounts;
      && t[r.argId].hash == ""
      && after[r.argId] == Account(r.argId, r.argAmount, c.salt, hash(r.argPassword, c.salt), 1, true)
      && forall k :: 0 <= k < MAX_BANK_ACCOUNTS && k != r.argId ==> after[k] == t[k]
  {
  }

  /** A successful transfer changes two balances, by the amount and modulo 2^32, and nothing else. */
  lemma TransferMovesTheAmount(hash: HashFn, t: Table, c: Call)
    requires c.request.op.Transfer? && Handle(hash, t, c).reply.retCode.Ok?
    ensures var r, after := c.request, Handle(hash, t, c).accounts;
      && BetweenCustomers(hash, t, r)
      && after[r.accountId].balance == (t[r.accountId].balance - r.argAmount) % UINT32_RANGE
      && after[r.argId].balance == (t[r.argId].balance + r.argAmount) % UINT32_RANGE
      && forall k :: 0 <= k < MAX_BANK_ACCOUNTS ==>
           after[k] == if k == r.accountId || k == r.argId then t[k].(balance := after[k].balance) else t[k]
  {
  }

  /** Every account that exists is stored under its own id. */
  ghost predicate StoredUnderId(t: Table) {
    forall k :: 0 <= k < MAX_BANK_ACCOUNTS && t[k].hash != "" ==> t[k].accountId == k
  }

  lemma {:induction false} AccountsKeepTheirPlace(hash: HashFn, t: Table, calls: seq<Call>)
    requires StoredUnderId(t)
    ensures StoredUnderId(Fold(hash, t, calls))
    decreases |calls|
  {
    if calls != [] {
      AccountsKeepTheirPlace(hash, t, calls[..|calls| - 1]);
    }
  }
}
