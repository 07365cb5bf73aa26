/** What the sequential bank guarantees for every table, every request and every run. */
module BankProperties {
  import opened Types
  import opened Bank

  /** The flag, the hash and the semaphore of every account agree. */
  ghost predicate Coherent(t: Table) {
    forall k :: 0 <= k < MAX_BANK_ACCOUNTS ==>
      && (t[k].active <==> t[k].hash != "")
      && (t[k].active ==> t[k].semaphore == 1)
  }

  /** The table once `main` has created the administrator. */
  function Genesis(hash: HashFn, password: string, salt: string): Table {
    Created(hash, BlankTable(), ADMIN_ACCOUNT_ID, 0, password, salt)
  }

  predicate Creates(hash: HashFn, t: Table, c: Call) {
    c.request.op.CreateAccount? && Code(hash, t, c.request).Ok?
  }

  lemma {:induction false} FoldAppend(hash: HashFn, t: Table, calls: seq<Call>, c: Call)
    ensures Fold(hash, t, calls + [c]) == Handle(hash, Fold(hash, t, calls), c).accounts
  {
    assert (calls + [c])[..|calls|] == calls;
  }

  lemma {:induction false} FoldConcat(hash: HashFn, t: Table, first: seq<Call>, second: seq<Call>)
    ensures Fold(hash, t, first + second) == Fold(hash, Fold(hash, t, first), second)
    decreases |second|
  {
    if second == [] {
      assert first + second == first;
    } else {
      var n := |second| - 1;
      FoldConcat(hash, t, first, second[..n]);
      assert first + second == (first + second[..n]) + [second[n]];
      FoldAppend(hash, t, first + second[..n], second[n]);
    }
  }

  lemma {:induction false} FoldIsCoherent(hash: HashFn, t: Table, calls: seq<Call>)
    requires NonEmpty(hash) && Coherent(t)
    ensures Coherent(Fold(hash, t, calls))
    decreases |calls|
  {
    if calls != [] {
      FoldIsCoherent(hash, t, calls[..|calls| - 1]);
    }
  }

  lemma GenesisIsCoherent(hash: HashFn, password: string, salt: string)
    requires NonEmpty(hash)
    ensures Coherent(Genesis(hash, password, salt))
    ensures IsActive(Genesis(hash, password, salt), ADMIN_ACCOUNT_ID)
  {
  }

  // ----- credentials -----

  ghost predicate SameCredentials(a: Account, b: Account) {
    a.accountId == b.accountId && a.salt == b.salt && a.hash == b.hash && a.active == b.active
  }

  /** No run changes the identity of an account that exists. */
  lemma {:induction false} CredentialsAreStable(hash: HashFn, t: Table, calls: seq<Call>, id: uint32)
    requires NonEmpty(hash) && Coherent(t) && id < MAX_BANK_ACCOUNTS && IsActive(t, id)
    ensures SameCredentials(t[id], Fold(hash, t, calls)[id])
    decreases |calls|
  {
    if calls != [] {
      CredentialsAreStable(hash, t, calls[..|calls| - 1], id);
    }
  }

  /** After a successful creation, exactly the passwords with the hash of the given one log in,
      whatever is called in between; and the id is never created again. */
  lemma {:induction false} CreatedPasswordKeepsWorking(
      hash: HashFn, t: Table, before: seq<Call>, c: Call, after: seq<Call>, password: string)
    requires NonEmpty(hash) && Coherent(t)
    requires Creates(hash, Fold(hash, t, before), c)
    ensures var now := Fold(hash, t, before + [c] + after);
      && !IsActive(Fold(hash, t, before), c.request.argId)
      && (Validated(hash, now, c.request.argId, password).Ok?
          <==> hash(password, c.salt) == hash(c.request.argPassword, c.salt))
      && forall d: Call :: d.request.op.CreateAccount? && d.request.argId == c.request.argId
           ==> !Creates(hash, now, d)
  {
    var made := Fold(hash, t, before + [c]);
    FoldAppend(hash, t, before, c);
    FoldIsCoherent(hash, t, before + [c]);
    FoldConcat(hash, t, before + [c], after);
    var p := c.request.argPassword;
    assert hash(p, c.salt) != "";
    assert made[c.request.argId] == Opened(hash, c.request.argId, c.request.argAmount, p, c.salt);
    CredentialsAreStable(hash, made, after, c.request.argId);
  }

  // ----- conservation -----

  function Worth(a: Account): nat {
    if a.active then a.balance else 0
  }

  /** The money held by active accounts. */
  function Total(t: seq<Account>): nat {
    if t == [] then 0 else Total(t[..|t| - 1]) + Worth(t[|t| - 1])
  }

  /** The money brought in by the successful creations of a run. */
  function Deposits(hash: HashFn, t: Table, calls: seq<Call>): nat {
    if calls == [] then 0
    else
      var before, last := calls[..|calls| - 1], calls[|calls| - 1];
      Deposits(hash, t, before) + if Creates(hash, Fold(hash, t, before), last) then last.request.argAmount else 0
  }

  lemma {:induction false} TotalOfUpdate(t: seq<Account>, i: nat, a: Account)
    requires i < |t|
    ensures Total(t[i := a]) == Total(t) - Worth(t[i]) + Worth(a)
  {
    var n := |t| - 1;
    if i < n {
      assert t[i := a][..n] == t[..n][i := a];
      TotalOfUpdate(t[..n], i, a);
    } else {
      assert t[i := a][..n] == t[..n];
    }
  }

  lemma TotalCoversPair(t: seq<Account>, i: nat, j: nat)
    requires i < |t| && j < |t| && i != j
    ensures Worth(t[i]) + Worth(t[j]) <= Total(t)
  {
    TotalOfUpdate(t, i, BLANK_ACCOUNT);
    TotalOfUpdate(t[i := BLANK_ACCOUNT], j, BLANK_ACCOUNT);
  }

  lemma {:induction false} TotalOfBlank(t: seq<Account>)
    requires forall k :: 0 <= k < |t| ==> !t[k].active
    ensures Total(t) == 0
  {
    if t != [] {
      TotalOfBlank(t[..|t| - 1]);
    }
  }

  lemma TotalOfTwoBalances(t: seq<Account>, i: nat, j: nat, x: uint32, y: uint32)
    requires i < |t| && j < |t| && i != j && t[i].active && t[j].active
    ensures Total(t[j := t[j].(balance := y)][i := t[i].(balance := x)]) ==
            Total(t) - (t[i].balance + t[j].balance) + x + y
  {
    TotalOfUpdate(t, j, t[j].(balance := y));
    TotalOfUpdate(t[j := t[j].(balance := y)], i, t[i].(balance := x));
  }

  /** What the two wrapped balances of a successful transfer add up to. */
  lemma WrappedPair(source: uint32, dest: uint32, amount: uint32)
    requires MachineTransfer(source, dest, amount).code.Ok?
    ensures Wrap(source - amount) + Wrap(dest + amount) == Wrap(source + dest)
  {
    assert Wrap(source - amount) + Wrap(dest + amount) < UINT32_RANGE;
  }

  /** A successful transfer sets the balances of two distinct active accounts and nothing else. */
  lemma TransferSetsTwoBalances(hash: HashFn, t: Table, c: Call) returns (x: uint32, y: uint32)
    requires c.request.op.Transfer? && Code(hash, t, c.request).Ok?
    ensures var r := c.request;
      var source, dest := t[r.accountId], t[r.argId];
      && r.accountId != r.argId && IsActive(t, r.accountId) && IsActive(t, r.argId)
      && MachineTransfer(source.balance, dest.balance, r.argAmount) == Posting(Ok, x, y)
      && x + y == Wrap(source.balance + dest.balance)
      && Handle(hash, t, c).accounts ==
         t[r.argId := dest.(balance := y)][r.accountId := source.(balance := x)]
  {
    var r := c.request;
    var p := MachineTransfer(t[r.accountId].balance, t[r.argId].balance, r.argAmount);
    x, y := p.source, p.dest;
    WrappedPair(t[r.accountId].balance, t[r.argId].balance, r.argAmount);
  }

  lemma TotalAfterTransfer(hash: HashFn, t: Table, c: Call, source: uint32, dest: uint32)
    requires Coherent(t) && c.request.op.Transfer? && Code(hash, t, c.request).Ok?
    requires source == c.request.accountId && dest == c.request.argId
    ensures t[source].balance + t[dest].balance <= Total(t)
    ensures Total(Handle(hash, t, c).accounts) ==
            Total(t) - (t[source].balance + t[dest].balance) + Wrap(t[source].balance + t[dest].balance)
  {
    var x, y := TransferSetsTwoBalances(hash, t, c);
    TotalCoversPair(t, source, dest);
    TotalOfTwoBalances(t, source, dest, x, y);
  }

  /** A successful transfer keeps the total exactly when the two balances together fit in 32 bits,
      for every amount, including those where the subtraction or the addition wraps; otherwise it
      loses 2^32. */
  lemma TransferConservesExactly(hash: HashFn, t: Table, c: Call)
    requires Coherent(t) && c.request.op.Transfer? && Code(hash, t, c.request).Ok?
    ensures var together := t[c.request.accountId].balance + t[c.request.argId].balance;
      var after := Total(Handle(hash, t, c).accounts);
      && together <= Total(t)
      && (after == Total(t) <==> together < UINT32_RANGE)
      && (together >= UINT32_RANGE ==> after == Total(t) - UINT32_RANGE)
  {
    TotalAfterTransfer(hash, t, c, c.request.accountId, c.request.argId);
  }

  lemma CreationAddsDeposit(hash: HashFn, t: Table, c: Call)
    requires NonEmpty(hash) && Coherent(t) && Creates(hash, t, c)
    ensures Total(Handle(hash, t, c).accounts) == Total(t) + c.request.argAmount
  {
    var r := c.request;
    TotalOfUpdate(t, r.argId, Opened(hash, r.argId, r.argAmount, r.argPassword, c.salt));
  }

  /** Over any run, the active balances add up to what they were plus the deposits. */
  lemma {:induction false} MoneyIsConserved(hash: HashFn, t: Table, calls: seq<Call>)
    requires NonEmpty(hash) && Coherent(t)
    requires Total(t) + Deposits(hash, t, calls) < UINT32_RANGE
    ensures Total(Fold(hash, t, calls)) == Total(t) + Deposits(hash, t, calls)
    decreases |calls|
  {
    if calls != [] {
      var before, c := calls[..|calls| - 1], calls[|calls| - 1];
      MoneyIsConserved(hash, t, before);
      FoldIsCoherent(hash, t, before);
      var now := Fold(hash, t, before);
      if Creates(hash, now, c) {
        CreationAddsDeposit(hash, now, c);
      } else if c.request.op.Transfer? && Code(hash, now, c.request).Ok? {
        TransferConservesExactly(hash, now, c);
      } else {
        assert Updated(hash, now, c) == now;
      }
    }
  }

  lemma GenesisIsWorthNothing(hash: HashFn, password: string, salt: string)
    ensures Total(Genesis(hash, password, salt)) == 0
  {
    TotalOfBlank(BlankTable());
    TotalOfUpdate(BlankTable(), ADMIN_ACCOUNT_ID, Opened(hash, ADMIN_ACCOUNT_ID, 0, password, salt));
  }

  // ----- machine arithmetic against integers -----

  datatype IdealPosting = IdealPosting(code: RetCode, source: int, dest: int)

  /** A transfer as the return codes describe it, over the integers. */
  function IdealTransfer(source: int, dest: int, amount: int): IdealPosting {
    if source - amount < MIN_BALANCE then IdealPosting(NoFunds, source, dest)
    else if dest + amount > MAX_BALANCE then IdealPosting(TooHigh, source, dest)
    else IdealPosting(Ok, source - amount, dest + amount)
  }

  /** Where the machine's answer is the ideal one, and what it does everywhere else: there the
      ideal answer is `NoFunds`, and a success moves `2^32 - amount` the other way. */
  lemma MachineTransferAgreesExactly(source: uint32, dest: uint32, amount: uint32)
    requires source <= MAX_BALANCE && dest <= MAX_BALANCE
    ensures var m, ideal := MachineTransfer(source, dest, amount), IdealTransfer(source, dest, amount);
      && (IdealPosting(m.code, m.source, m.dest) == ideal <==> amount <= INT32_LIMIT + source)
      && (amount > INT32_LIMIT + source ==>
            && ideal.code == NoFunds
            && (dest + amount < UINT32_RANGE ==> m == Posting(TooHigh, source, dest))
            && (dest + amount >= UINT32_RANGE ==>
                  m == Posting(Ok, source + (UINT32_RANGE - amount), dest - (UINT32_RANGE - amount))))
  {
  }

  /** Within the range of agreement, a logged-in transfer between two customers does to the table
      and answers what the integer transfer says, and touches no third account. */
  lemma TransferIsTheIdealTransfer(hash: HashFn, t: Table, c: Call)
    requires Coherent(t) && InBounds(t) && c.request.op.Transfer?
    requires var r := c.request;
      && Validated(hash, t, r.accountId, r.password).Ok? && IsActive(t, r.argId)
      && r.accountId != r.argId && r.accountId != ADMIN_ACCOUNT_ID && r.argId != ADMIN_ACCOUNT_ID
      && r.argAmount <= INT32_LIMIT + t[r.accountId].balance
    ensures var r, after, reply := c.request, Handle(hash, t, c).accounts, Handle(hash, t, c).reply;
      var ideal := IdealTransfer(t[r.accountId].balance, t[r.argId].balance, r.argAmount);
      && reply.retCode == ideal.code
      && after[r.accountId].balance == ideal.source && after[r.argId].balance == ideal.dest
      && reply.word == (if ideal.code.Ok? then ideal.source else r.argAmount)
      && (forall k :: 0 <= k < MAX_BANK_ACCOUNTS ==>
            && SameCredentials(after[k], t[k]) && after[k].semaphore == t[k].semaphore
            && (k != r.accountId && k != r.argId ==> after[k] == t[k]))
  {
    var r := c.request;
    MachineTransferAgreesExactly(t[r.accountId].balance, t[r.argId].balance, r.argAmount);
  }

  /** An error leaves the table alone, and so does everything but creations and transfers; a balance
      query answers the requester's own balance. */
  lemma OnlySuccessChangesTheTable(hash: HashFn, t: Table, c: Call)
    ensures var after, reply := Handle(hash, t, c).accounts, Handle(hash, t, c).reply;
      && (after != t ==> reply.retCode.Ok? && (reply.op.CreateAccount? || reply.op.Transfer?))
      && (reply.op.Balance? && reply.retCode.Ok? ==> reply.word == t[c.request.accountId].balance)
  {
  }

  // ----- bounds on balances -----

  ghost predicate InBounds(t: Table) {
    && IsActive(t, ADMIN_ACCOUNT_ID) && t[ADMIN_ACCOUNT_ID].balance == 0
    && forall k :: 0 < k < MAX_BANK_ACCOUNTS && t[k].active ==> MIN_BALANCE <= t[k].balance <= MAX_BALANCE
  }

  /** Creations in range and no transfer above `limit`. */
  ghost predicate WithinPolicy(r: Request, limit: int) {
    && (r.op.CreateAccount? ==> MIN_BALANCE <= r.argAmount <= MAX_BALANCE)
    && (r.op.Transfer? ==> r.argAmount <= limit)
  }

  ghost predicate AllWithinPolicy(calls: seq<Call>, limit: int) {
    forall i :: 0 <= i < |calls| ==> WithinPolicy(calls[i].request, limit)
  }

  lemma TransferKeepsBounds(hash: HashFn, t: Table, c: Call, limit: int)
    requires Coherent(t) && InBounds(t) && c.request.op.Transfer? && Code(hash, t, c.request).Ok?
    requires c.request.argAmount <= limit < UINT32_RANGE - MAX_BALANCE
    ensures InBounds(Handle(hash, t, c).accounts)
  {
    var r := c.request;
    var _, _ := TransferSetsTwoBalances(hash, t, c);
    MachineTransferAgreesExactly(t[r.accountId].balance, t[r.argId].balance, r.argAmount);
  }

  lemma CreationKeepsBounds(hash: HashFn, t: Table, c: Call)
    requires NonEmpty(hash) && InBounds(t) && Creates(hash, t, c)
    requires MIN_BALANCE <= c.request.argAmount <= MAX_BALANCE
    ensures InBounds(Handle(hash, t, c).accounts)
  {
    assert c.request.argId != ADMIN_ACCOUNT_ID;
  }

  lemma OneCallKeepsBounds(hash: HashFn, t: Table, c: Call, limit: int)
    requires NonEmpty(hash) && Coherent(t) && InBounds(t)
    requires WithinPolicy(c.request, limit) && limit < UINT32_RANGE - MAX_BALANCE
    ensures InBounds(Handle(hash, t, c).accounts)
  {
    if Creates(hash, t, c) {
      CreationKeepsBounds(hash, t, c);
    } else if c.request.op.Transfer? && Code(hash, t, c.request).Ok? {
      TransferKeepsBounds(hash, t, c, limit);
    } else {
      OnlySuccessChangesTheTable(hash, t, c);
    }
  }

  lemma {:induction false} BoundsHoldOverRuns(hash: HashFn, t: Table, calls: seq<Call>, limit: int)
    requires NonEmpty(hash) && Coherent(t) && InBounds(t)
    requires AllWithinPolicy(calls, limit) && limit < UINT32_RANGE - MAX_BALANCE
    ensures InBounds(Fold(hash, t, calls))
    decreases |calls|
  {
    if calls != [] {
      var before, c := calls[..|calls| - 1], calls[|calls| - 1];
      BoundsHoldOverRuns(hash, t, before, limit);
      FoldIsCoherent(hash, t, before);
      OneCallKeepsBounds(hash, Fold(hash, t, before), c, limit);
    }
  }

  function AdminCreates(password: string, id: uint32, balance: uint32): Call
    requires id < MAX_BANK_ACCOUNTS
  {
    Call(RawRequest(CreateAccount, 0, ADMIN_ACCOUNT_ID, password, 0, id, balance, password), "", 0, 0)
  }

  lemma AdminCreationOpens(hash: HashFn, t: Table, password: string, id: uint32, balance: uint32)
    requires NonEmpty(hash) && IsActive(t, ADMIN_ACCOUNT_ID)
    requires hash(password, t[ADMIN_ACCOUNT_ID].salt) == t[ADMIN_ACCOUNT_ID].hash
    requires id < MAX_BANK_ACCOUNTS && !IsActive(t, id)
    ensures Handle(hash, t, AdminCreates(password, id, balance)).accounts ==
            t[id := Opened(hash, id, balance, password, "")]
  {
  }

  /** A bank with the administrator and customers 1 and 2. */
  function TwoCustomers(hash: HashFn, password: string, salt: string, first: uint32, second: uint32): Table {
    Genesis(hash, password, salt)[1 := Opened(hash, 1, first, password, "")]
                                 [2 := Opened(hash, 2, second, password, "")]
  }

  lemma CreationsGiveTwoCustomers(hash: HashFn, password: string, salt: string, first: uint32, second: uint32)
    requires NonEmpty(hash)
    ensures Fold(hash, Genesis(hash, password, salt),
                 [AdminCreates(password, 1, first), AdminCreates(password, 2, second)]) ==
            TwoCustomers(hash, password, salt, first, second)
  {
    var t0 := Genesis(hash, password, salt);
    var run := [AdminCreates(password, 1, first), AdminCreates(password, 2, second)];
    assert hash(password, salt) != "";
    AdminCreationOpens(hash, t0, password, 1, first);
    AdminCreationOpens(hash, t0[1 := Opened(hash, 1, first, password, "")], password, 2, second);
    assert [] + [run[0]] == run[..1] && run[..1] + [run[1]] == run;
    FoldAppend(hash, t0, [], run[0]);
    FoldAppend(hash, t0, run[..1], run[1]);
  }

  function FirstPaysSecond(password: string, amount: uint32): Call {
    Call(RawRequest(Transfer, 0, 1, password, 0, 2, amount, ""), "", 0, 0)
  }

  /** Two creations and a transfer between the two accounts. */
  function TransferRun(password: string, first: uint32, second: uint32, amount: uint32): seq<Call> {
    [AdminCreates(password, 1, first), AdminCreates(password, 2, second), FirstPaysSecond(password, amount)]
  }

  lemma TransferRunPosts(hash: HashFn, password: string, salt: string, first: uint32, second: uint32, amount: uint32)
    requires NonEmpty(hash)
    ensures var t := Fold(hash, Genesis(hash, password, salt), TransferRun(password, first, second, amount));
      var p := MachineTransfer(first, second, amount);
      t == TwoCustomers(hash, password, salt, p.source, p.dest)
  {
    var t0, run := Genesis(hash, password, salt), TransferRun(password, first, second, amount);
    CreationsGiveTwoCustomers(hash, password, salt, first, second);
    assert run[..2] == [run[0], run[1]] && run[..2] + [run[2]] == run;
    FoldAppend(hash, t0, run[..2], run[2]);
    FirstPaysSecondPosts(hash, password, salt, first, second, amount);
  }

  lemma FirstPaysSecondPosts(
      hash: HashFn, password: string, salt: string, first: uint32, second: uint32, amount: uint32)
    requires NonEmpty(hash)
    ensures var t, p := TwoCustomers(hash, password, salt, first, second), MachineTransfer(first, second, amount);
      Handle(hash, t, FirstPaysSecond(password, amount)).accounts ==
      TwoCustomers(hash, password, salt, p.source, p.dest)
  {
    assert hash(password, "") != "";
  }

  /** Two creations in range and one transfer of 2^32 - MAX_BALANCE. */
  function BreakingRun(password: string): seq<Call> {
    TransferRun(password, 1, MAX_BALANCE, UINT32_RANGE - MAX_BALANCE)
  }

  lemma BreakingRunLeavesBounds(hash: HashFn, password: string, salt: string)
    requires NonEmpty(hash)
    ensures var t := Fold(hash, Genesis(hash, password, salt), BreakingRun(password));
      t[1].balance == MAX_BALANCE + 1 && t[2].balance == 0 && t[1].active && t[2].active
  {
    TransferRunPosts(hash, password, salt, 1, MAX_BALANCE, UINT32_RANGE - MAX_BALANCE);
    MachineTransferAgreesExactly(1, MAX_BALANCE, UINT32_RANGE - MAX_BALANCE);
  }

  lemma TotalOfTwoCustomers(hash: HashFn, password: string, salt: string, first: uint32, second: uint32)
    ensures Total(TwoCustomers(hash, password, salt, first, second)) == first + second
  {
    var t := Genesis(hash, password, salt);
    var one, two := Opened(hash, 1, first, password, ""), Opened(hash, 2, second, password, "");
    GenesisIsWorthNothing(hash, password, salt);
    TotalOfUpdate(t, 1, one);
    TotalOfUpdate(t[1 := one], 2, two);
  }

  /** Deposits of more than 2^32 do get lost: after creations of 2^31 and 2^31 + 100 and a transfer of
      2^31 - 50, two balances of 50 are left. */
  lemma LargeDepositsGetLost(hash: HashFn, password: string, salt: string)
    requires NonEmpty(hash)
    ensures var t := Genesis(hash, password, salt);
      var run := TransferRun(password, INT32_LIMIT, INT32_LIMIT + 100, INT32_LIMIT - 50);
      && Total(Fold(hash, t, run[..2])) == UINT32_RANGE + 100
      && Total(Fold(hash, t, run)) == 100
      && Fold(hash, t, run)[1].balance == Fold(hash, t, run)[2].balance == 50
  {
    var first, second, amount := INT32_LIMIT, INT32_LIMIT + 100, INT32_LIMIT - 50;
    var run := TransferRun(password, first, second, amount);
    assert run[..2] == [AdminCreates(password, 1, first), AdminCreates(password, 2, second)];
    CreationsGiveTwoCustomers(hash, password, salt, first, second);
    TotalOfTwoCustomers(hash, password, salt, first, second);
    TransferRunPosts(hash, password, salt, first, second, amount);
    assert MachineTransfer(first, second, amount) == Posting(Ok, 50, 50);
    TotalOfTwoCustomers(hash, password, salt, 50, 50);
  }

  /** Every run under a limit keeps the bounds exactly when the limit is below 2^32 - MAX_BALANCE. */
  lemma BoundsHoldExactly(hash: HashFn, password: string, salt: string, limit: int)
    requires NonEmpty(hash)
    ensures (forall calls :: AllWithinPolicy(calls, limit) ==>
               InBounds(Fold(hash, Genesis(hash, password, salt), calls)))
       <==> limit < UINT32_RANGE - MAX_BALANCE
  {
    GenesisIsCoherent(hash, password, salt);
    var genesis := Genesis(hash, password, salt);
    if limit < UINT32_RANGE - MAX_BALANCE {
      forall calls | AllWithinPolicy(calls, limit)
        ensures InBounds(Fold(hash, genesis, calls))
      {
        BoundsHoldOverRuns(hash, genesis, calls, limit);
      }
    } else {
      BreakingRunLeavesBounds(hash, password, salt);
      assert AllWithinPolicy(BreakingRun(password), limit);
      assert !InBounds(Fold(hash, genesis, BreakingRun(password)));
    }
  }

  // ----- which error is reported -----

  /** The documented meaning of each error the bank can report. */
  ghost predicate Applies(hash: HashFn, t: Table, r: Request, e: RetCode) {
    match e
    case LoginFail =>
      !(IsActive(t, r.accountId) && hash(r.password, t[r.accountId].salt) == t[r.accountId].hash)
    case OpNAllow =>
      (match r.op
       case CreateAccount => r.accountId != ADMIN_ACCOUNT_ID
       case Balance => r.accountId == ADMIN_ACCOUNT_ID
       case Transfer => r.accountId == ADMIN_ACCOUNT_ID || r.argId == ADMIN_ACCOUNT_ID
       case Shutdown => r.accountId != ADMIN_ACCOUNT_ID
       case OtherOp(_) => false)
    case IdInUse => r.op.CreateAccount? && r.argId < MAX_BANK_ACCOUNTS && IsActive(t, r.argId)
    case IdNotFound => !IsActive(t, r.accountId) || (r.op.Transfer? && !IsActive(t, r.argId))
    case SameId => r.IsSelfTransfer()
    case NoFunds => r.op.Transfer? && t[r.accountId].balance - r.argAmount < MIN_BALANCE
    case TooHigh => r.op.Transfer? && t[r.argId].balance + r.argAmount > MAX_BALANCE
    case _ => false
  }

  /** The rule of types.h: of the errors that apply, the first in declaration order. */
  ghost predicate IsFirstError(hash: HashFn, t: Table, r: Request, code: RetCode) {
    if code.Ok? then forall e :: !Applies(hash, t, r, e)
    else Applies(hash, t, r, code) && forall e :: Applies(hash, t, r, e) ==> code.Rank() <= e.Rank()
  }

  /** The four situations in which the code departs from the rule. */
  predicate DepartsFromRule(hash: HashFn, t: Table, r: Request) {
    || !IsActive(t, r.accountId)
    || (&& Validated(hash, t, r.accountId, r.password).Ok?
        && match r.op
           case Balance => r.accountId != ADMIN_ACCOUNT_ID && !IsActive(t, r.argId)
           case Transfer =>
             || r.accountId == r.argId == ADMIN_ACCOUNT_ID
             || (&& r.accountId != r.argId && r.accountId != ADMIN_ACCOUNT_ID && r.argId != ADMIN_ACCOUNT_ID
                 && IsActive(t, r.argId)
                 && r.argAmount > INT32_LIMIT + t[r.accountId].balance)
           case _ => false)
  }

  /** The reported code is the first applicable error in exactly the other situations; in these four it
      is `RC_ID_NOT_FOUND` for the first two, `RC_SAME_ID` for the third, and for the last `RC_TOO_HIGH`
      or, when the sum wraps, `RC_OK`. */
  lemma FirstErrorIsReportedExactly(hash: HashFn, t: Table, r: Request)
    requires Coherent(t) && InBounds(t)
    ensures IsFirstError(hash, t, r, Code(hash, t, r)) <==> !DepartsFromRule(hash, t, r)
    ensures DepartsFromRule(hash, t, r) ==>
      Code(hash, t, r) ==
        if t[r.accountId].hash == "" || r.op.Balance? then IdNotFound
        else if r.accountId == r.argId then SameId
        else if t[r.argId].balance + r.argAmount < UINT32_RANGE then TooHigh
        else Ok
  {
    var code := Code(hash, t, r);
    if r.op.Transfer? && IsActive(t, r.accountId) && IsActive(t, r.argId) {
      MachineTransferAgreesExactly(t[r.accountId].balance, t[r.argId].balance, r.argAmount);
    }
    if DepartsFromRule(hash, t, r) {
      assert !IsActive(t, r.accountId) ==> Applies(hash, t, r, LoginFail);
      assert r.op.Transfer? && r.accountId == ADMIN_ACCOUNT_ID ==> Applies(hash, t, r, OpNAllow);
      assert r.op.Transfer? && r.argAmount > INT32_LIMIT + t[r.accountId].balance
          ==> Applies(hash, t, r, NoFunds);
    }
  }

  /** Each of the four situations occurs: in a bank with two customers of balance 1, these requests get
      these codes, and none of them is the first applicable error. */
  lemma EachDepartureOccurs(hash: HashFn, password: string, salt: string)
    requires NonEmpty(hash)
    ensures var t := TwoCustomers(hash, password, salt, 1, 1);
      var stranger := RawRequest(Shutdown, 0, 3, password, 0, 0, 0, "");
      var query := RawRequest(Balance, 0, 1, password, 0, 3, 0, "");
      var ownTransfer := RawRequest(Transfer, 0, ADMIN_ACCOUNT_ID, password, 0, ADMIN_ACCOUNT_ID, 0, "");
      var large := FirstPaysSecond(password, INT32_LIMIT + 2).request;
      && Code(hash, t, stranger) == IdNotFound && !IsFirstError(hash, t, stranger, IdNotFound)
      && Code(hash, t, query) == IdNotFound && !IsFirstError(hash, t, query, IdNotFound)
      && Code(hash, t, ownTransfer) == SameId && !IsFirstError(hash, t, ownTransfer, SameId)
      && Code(hash, t, large) == TooHigh && !IsFirstError(hash, t, large, TooHigh)
  {
    var t := TwoCustomers(hash, password, salt, 1, 1);
    assert hash(password, "") != "" && hash(password, salt) != "";
    FirstErrorIsReportedExactly(hash, t, RawRequest(Shutdown, 0, 3, password, 0, 0, 0, ""));
    FirstErrorIsReportedExactly(hash, t, RawRequest(Balance, 0, 1, password, 0, 3, 0, ""));
    FirstErrorIsReportedExactly(
      hash, t, RawRequest(Transfer, 0, ADMIN_ACCOUNT_ID, password, 0, ADMIN_ACCOUNT_ID, 0, ""));
    FirstErrorIsReportedExactly(hash, t, FirstPaysSecond(password, INT32_LIMIT + 2).request);
  }
}
