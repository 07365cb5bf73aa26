# Multithreaded bank server: model and proofs

A Dafny 4.11 model of the bank server of `Project2` and of the thread-pool exercises beside it.
Verify everything with `dafny verify dfyconfig.toml`.

The server keeps a table of 4096 accounts. Its main thread reads requests into a linked queue and posts
a semaphore; the offices (threads) wait on that semaphore, take the mutex, pop a request, wait on the
semaphores of the accounts involved, build the reply, post the semaphores, log the reply and release the
mutex. A shutdown answered with `RC_OK` makes the main thread close the server once the queue is empty.

## Layout

| file | content |
|---|---|
| `types.dfy` | constants, requests, replies, accounts, return codes |
| `bank.dfy` | the sequential bank: what each routine computes (`Handle`), and the routines in place on the account array |
| `bank_properties.dfy` | conservation, exact agreement with integer arithmetic, balance bounds, first-error rule, credentials |
| `bank_answers.dfy` | what every reply says and every call changes, stated on the raw account fields and over the integers |
| `list_queue.dfy` | the linked queue as a heap structure that refines a sequence |
| `counting.dfy` | sums over the threads of a pool of any size |
| `runs.dfy` | runs and reachable states of any system of threads |
| `protocol.dfy` | the server as interleaved steps of the main thread and K offices |
| `protocol_invariant.dfy` | the invariant of the protocol, kept by every step |
| `protocol_safety.dfy` | linearizability, semaphores, office count, shutdown flag, the bank's guarantees for the server |
| `protocol_progress.dfy` | deadlock characterised exactly, draining, bounded waiting |
| `protocol_shutdown.dfy` | what closing finds, complete shutdown under every schedule, shutdown possible from every state |
| `protocol_history.dfy` | what main reads is what it pushes; the calls and the log record the choices made in the run |
| `server.dfy` | the server's shared variables as an object with one method per statement, whose values are always a reachable state of the protocol |
| `countdown.dfy`, `fill.dfy` | the exercises: locked and unlocked countdown, locked and unlocked buffer filling |

The layers compose: `BankServer` (linked queue, account array, in-place reply) performs the steps of the
protocol; the protocol's account table is the sequential `Handle` folded over the popped requests; and
`Handle` is compared with integer arithmetic and with the documented error order.

## Assumptions

- Each access to a shared variable is one atomic step, including `++active_threads`, `--active_threads`
  and the unprotected reads of `server_exit`, `close_thread` and `requests.size`. Statements inside the
  critical section that touch the same variable together (`front` and `pop`; the `active` test and the
  wait it guards) are one step, because the mutex keeps everybody else away from it.
- In the exercises `limit--`, `pos++`, `val++` and the statement `buf[pos] = val`, which involves three
  shared variables, are one atomic step each. The totals of the unlocked programs depend on it: with a
  separate load and store, updates could be lost and the overshoot would be larger.
- The password hash is an arbitrary function with non-empty results, the salt an arbitrary string, the
  next request and the success of opening a user's FIFO are arbitrary.
- The word of a reply that no branch sets keeps whatever the memory held (`junk`).
- Ids that the server uses as indices without checking them are below 4096: the requester's id, the id
  word of a transfer, of a creation by the administrator and of a balance query by a customer. The id
  word shared by the create, transfer and balance requests is one field, `argId`, and so is the amount
  word, `argAmount`.

## Where the code departs from its own documentation

- The list of return codes says the first applicable error is reported. `FirstErrorIsReportedExactly`
  proves the four situations in which it is not: an unknown requester (`RC_ID_NOT_FOUND` before
  `RC_LOGIN_FAIL`), a balance query whose shared id word names no account (the query tests that word, not
  the requester's id), a transfer from the administrator to itself, and an amount so large that the
  subtraction wraps to a positive number. `EachDepartureOccurs` gives a request for each of them.
- Balances are 32-bit words, and a creation may deposit any of them. A successful transfer between two
  accounts that together hold 2^32 or more loses 2^32: `TransferConservesExactly` says that this is the
  only case, and `LargeDepositsGetLost` is a run in which it happens.
- The server does not check the starting balance of a creation, so the balance bounds are theorems about
  runs whose creations are in range. `BoundsHoldExactly` gives the exact limit on transfer amounts,
  2^32 - 1000000000, and `BreakingRun` a run that leaves the bounds at that amount.
- A transfer from an active account to itself never gets `RC_SAME_ID`: the office waits twice for the
  same semaphore while it holds the mutex, and the server stops. `SameIdIsNeverAnswered`,
  `StuckExactlyAtSelfTransfers`, `SelfTransfersOfActiveAccountsStick` and `StuckForEver` say so exactly.
- A shutdown whose reply cannot be delivered does not take effect.
- The reply's length field holds the size of a pointer.

## Model

| member | source | states |
|---|---|---|
| Bank.IsActiveAccount | Project2/source/banking_aux.c:13-16 | true if and only if the account's stored hash is non-empty |
| Bank.CreateBankAccount | Project2/source/banking_aux.c:18-31 | refuses an id in use and leaves the table alone; otherwise exactly that account becomes active, with the new balance, salt, hash and semaphore 1 |
| Bank.ValidateBankAccount | Project2/source/banking_aux.c:33-42 | `RC_OK` if and only if the account has a non-empty hash and the password hashes to it; `RC_ID_NOT_FOUND` if and only if the hash is empty; else `RC_LOGIN_FAIL` |
| Bank.BuildTlvReply | Project2/source/banking_aux.c:93-193 | the array and the reply, updated in place, end up as the bank function `Handle` says for the old array, request, salt, office count and old reply word; what `Handle` says is pinned by the `BankAnswers` rows |
| BankAnswers.HeaderEchoesRequest | Project2/source/banking_aux.c:95-96 | for every table and call the reply carries the request's operation, the requester's id, and length 8 |
| BankAnswers.LoginIsDecidedFirst | Project2/source/banking_aux.c:33-42 | an unknown requester gets `RC_ID_NOT_FOUND` whatever the operation, and `RC_LOGIN_FAIL` is answered if and only if a known requester's password has another hash |
| BankAnswers.EachCodeHasItsCause | Project2/source/banking_aux.c:93-190 | for every table and request, each code is answered if and only if its cause holds; `RC_NO_FUNDS` and `RC_TOO_HIGH` for all 32-bit balances and amounts by ranges of integers; the other codes never are |
| BankAnswers.WordOfReply | Project2/source/banking_aux.c:128-185 | which of the requester's new balance, the amount, the office count and the old memory word the reply holds, for every call |
| BankAnswers.CreationOpensTheAccount | Project2/source/banking_aux.c:21-29 | a successful creation stores id, balance, salt, hash, semaphore 1 and the flag in an account that did not exist, and touches no other |
| BankAnswers.CreationRefusesIdsInUse | Project2/source/banking_aux.c:18-31 | a creation never overwrites an account that exists |
| BankAnswers.TransferMovesTheAmount | Project2/source/banking_aux.c:157-177 | for every amount, a successful transfer joins two different existing customers, changes their balances by the amount modulo 2^32, and nothing else |
| BankAnswers.AccountsKeepTheirPlace | Project2/source/banking_aux.c:20-22 | over any run every existing account is stored under its own id |
| BankProperties.TransferIsTheIdealTransfer | Project2/source/banking_aux.c:132-178 | a logged-in transfer between two customers, amount up to 2^31 + source, gives the outcome, the two balances and the reply word of the transfer over the integers, and changes no other account and no credentials |
| BankProperties.OnlySuccessChangesTheTable | Project2/source/banking_aux.c:93-193 | an error reply leaves the table unchanged, only creations and transfers change it, and a balance query answers the requester's own balance |
| BankProperties.MachineTransferAgreesExactly | Project2/source/banking_aux.c:157-174 | for balances up to the maximum, wrapping 32-bit arithmetic agrees with the integers if and only if amount <= 2^31 + source; beyond that it answers `RC_TOO_HIGH` or moves 2^32 - amount the other way |
| BankProperties.WrappedPair | Project2/source/banking_aux.c:162-174 | whenever a transfer succeeds, the two new balances add up to the old sum modulo 2^32 |
| BankProperties.TransferConservesExactly | Project2/source/banking_aux.c:162-174 | a successful transfer keeps the total of active balances if and only if the two balances together are below 2^32; otherwise it loses 2^32 |
| BankProperties.LargeDepositsGetLost | Project2/source/banking_aux.c:108-174 | two creations of 2^31 and 2^31 + 100 and a transfer of 2^31 - 50 leave 50 and 50: 2^32 of the deposits are gone |
| BankProperties.MoneyIsConserved | Project2/source/banking_aux.c:93-193 | over any run whose deposits fit in 32 bits, for every transfer amount, the active balances add up to the initial total plus the deposits of successful creations |
| BankProperties.BoundsHoldOverRuns | Project2/source/banking_aux.c:102-178 | creations in range and amounts below 2^32 - MAX_BALANCE keep every active customer between the minimum and the maximum balance and the administrator active at 0 |
| BankProperties.BreakingRunLeavesBounds | Project2/source/banking_aux.c:162-174 | a concrete run with amount 2^32 - MAX_BALANCE after which one balance is above the maximum and one is 0 |
| BankProperties.BoundsHoldExactly | Project2/source/constants.h:5-6 | all runs under an amount limit keep the bounds if and only if the limit is below 2^32 - MAX_BALANCE |
| BankProperties.FirstErrorIsReportedExactly | Project2/source/types.h:17-32 | for every request on a table in bounds, the code reported is the first applicable error in declaration order if and only if none of four named situations holds, and in each of these it is the code stated |
| BankProperties.EachDepartureOccurs | Project2/source/banking_aux.c:33-178 | one concrete request for each of the four situations, with the code it gets, which is not the first applicable error |
| BankProperties.FoldIsCoherent | Project2/source/banking_aux.c:18-31 | over any run the active flag agrees with a non-empty hash and every active account's semaphore is 1 |
| BankProperties.CredentialsAreStable | Project2/source/banking_aux.c:13-31 | no run changes the id, salt, hash or activity of an account that exists |
| BankProperties.CreatedPasswordKeepsWorking | Project2/source/banking_aux.c:33-42 | after a successful creation and any further calls, exactly the passwords hashing like the given one log in, and no later call creates that id again |
| ListQueues.ListQueue.constructor | Project2/source/list_queue.h:47-54 | a valid empty queue |
| ListQueues.ListQueue.Push | Project2/source/list_queue.h:20-32 | the value joins the end of the contents, also when `back` points at a freed node; only the queue's own nodes are touched |
| ListQueues.ListQueue.Pop | Project2/source/list_queue.h:34-41 | drops and frees the first node, or does nothing when empty; after the last pop `back` is left at a freed node and the queue is still valid |
| ListQueues.ListQueue.Front | Project2/source/list_queue.h:43-45 | the oldest value |
| ListQueues.QueueIsFirstInFirstOut | Project2/source/list_queue.h:20-45 | after any sequence of pushes and pops the queue holds the initial contents followed by all pushed values, in order, minus one from the front for each pop of a non-empty queue |
| ListQueues.RunOps | Project2/source/list_queue.h:20-54 | the linked list on the heap does exactly that for any sequence of calls, and its size field counts the contents |
| ProtocolInvariant.HandleCommutesWithTake | Project2/source/server.c:51-79 | building the reply with the account semaphores taken is building it without and taking them afterwards |
| ProtocolInvariant.GiveUndoesTake | Project2/source/server.c:72-79 | the two posts restore the table that the two waits found, for every request that passes both waits |
| ProtocolInvariant.StepKeepsInv | Project2/source/server.c:35-182 | every step of every thread keeps the invariant relating mutex, queue, both kinds of semaphores, table, replies, office count and shutdown |
| ProtocolInvariant.ReachableHasInv | Project2/source/server.c:35-182 | every state of every run, for any number of offices, has that invariant |
| ProtocolSafety.ServerIsLinearizable | Project2/source/server.c:44-91 | with no office in its critical section, the table is the sequential fold over the popped requests, these and the queue are the pushed requests in order, and the log is that of a server without threads up to `RC_USR_DOWN` |
| ProtocolSafety.EachReplyAnswersItsRequest | Project2/source/server.c:44-91 | at any moment the j-th logged reply is the bank's reply to the j-th pushed request on the table left by the earlier ones, unchanged if delivered, else with `RC_USR_DOWN` in place of the code |
| ProtocolSafety.EachReplyEchoesItsRequest | Project2/source/banking_aux.c:95-98 | the j-th logged reply names the operation and requester of the j-th pushed request, with the bank's code for it or `RC_USR_DOWN` |
| ProtocolSafety.HistoryGrows | Project2/source/server.c:35-182 | no run retracts a push, a call or a logged reply |
| ProtocolSafety.PopFindsARequest | Project2/source/server.c:45-46 | `front` and `pop` are never called on an empty queue |
| ProtocolSafety.QueueMatchesSemaphore | Project2/source/server.c:40-46 | before the server closes, queue length = `main_sem` + offices woken but not yet popped + 1 if a push is not yet posted |
| ProtocolSafety.SemaphoresBalance | Project2/source/server.c:51-79 | with no office in its critical section every active account's semaphore is 1, and activity agrees with the hash |
| ProtocolSafety.SemaphoresShowTheHolder | Project2/source/server.c:51-79 | while an office is inside, exactly the accounts that it has waited for and not posted yet (the requester, and the target of a transfer) have semaphore 0 and all other active accounts 1 |
| ProtocolSafety.HolderMovesUnlessSelfTransfer | Project2/source/server.c:44-90 | the mutex holder is blocked if and only if it is at its second account wait of a transfer from an active account to itself |
| ProtocolSafety.OfficeBlocksExactly | Project2/source/server.c:38-90 | an office cannot move if and only if it has returned, waits with `main_sem` at 0, waits for a mutex somebody holds, or is stuck in a self-transfer |
| ProtocolSafety.MainBlocksExactly | Project2/source/server.c:160-182 | main cannot move if and only if an office holds the mutex it wants, the office it joins has not returned, or it is done |
| ProtocolSafety.ActiveThreadsCountOffices | Project2/source/server.c:48-101 | `active_threads` is the number of offices between its increment and decrement |
| ProtocolSafety.ShutdownReportsOffices | Project2/source/banking_aux.c:179-186 | an accepted shutdown reports the office count of its call (by `CallsAreRecorded`, the offices active when the reply was built), between 1 and K |
| ProtocolSafety.ExitMeansDeliveredShutdown | Project2/source/server.c:83-98 | `server_exit` is set if and only if some request j is a shutdown to which the bank, after the requests before it, answers `RC_OK` (right password of the administrator), and its reply was delivered; but for the office on its way to set it |
| ProtocolSafety.SameIdIsNeverAnswered | Project2/source/banking_aux.c:135-140 | no run of the server logs `RC_SAME_ID` |
| ProtocolSafety.ServerConservesMoney | Project2/source/banking_aux.c:157-174 | in every reachable state, mid-request included, the active balances add up to the deposits, provided these fit in 32 bits |
| ProtocolSafety.ServerKeepsBounds | Project2/source/constants.h:5-6 | if the pushed requests are in range, every reachable state keeps the balance bounds and the administrator's empty account |
| ProtocolSafety.ServerReportsFirstErrors | Project2/source/types.h:17-32 | with requests in range, each delivered reply is the first applicable error unless one of the named situations holds, where it is not |
| ProtocolSafety.ServerKeepsCredentials | Project2/source/banking_aux.c:18-31 | no run of the server changes the salt, hash or activity of an existing account |
| ProtocolSafety.ServerAccountsKeepTheirPlace | Project2/source/banking_aux.c:20-22 | in every reachable state every existing account is stored under its own id |
| ProtocolSafety.CreatedPasswordDecidesLogin | Project2/source/banking_aux.c:108-114 | after a call that created an account, its reply delivered or not, a later delivered reply for that account is `RC_LOGIN_FAIL` if and only if the password hashes differently |
| ProtocolProgress.OnlySelfTransfersDeadlock | Project2/source/server.c:44-68 | a reachable state with an outstanding request in which no office can move and no push is being announced has an office stuck in a self-transfer |
| ProtocolProgress.StuckForEver | Project2/source/server.c:61-68 | once stuck, no run moves the holder, the queue, the table or the log |
| ProtocolProgress.SecondWaitOnOwnAccountIsStuck | Project2/source/server.c:61-66 | an office at its second account wait is stuck if and only if it serves a transfer from an active account to itself |
| ProtocolProgress.StuckExactlyAtSelfTransfers | Project2/source/server.c:44-68 | where the offices rest, one is stuck if and only if a request due has no answer; the first such request is a self-transfer of an account active by then, and no earlier pushed request was one at its turn |
| ProtocolProgress.StuckMeansSelfTransfer | Project2/source/server.c:54-68 | whoever is stuck, at any moment, serves the first unanswered request, a self-transfer of an active account; so runs that push no self-transfer never get stuck |
| ProtocolProgress.SelfTransfersOfActiveAccountsStick | Project2/source/server.c:54-68 | a self-transfer of an active account that is due gets an office stuck under every schedule of offices and main and whatever else is pushed |
| ProtocolProgress.DeadlockIsReachable | Project2/source/server.c:54-68 | for any positive number of offices one unauthenticated request leads to that deadlock |
| ProtocolProgress.OfficeStepDecreasesMeasure | Project2/source/server.c:38-103 | every step of an office lowers a measure of `main_sem` and remaining steps |
| ProtocolProgress.QueueDrains | Project2/source/server.c:38-172 | from any reachable state, once the input ends and however offices and main are scheduled (main may announce, close and post), the offices take at most `Measure` + 15 (K + 1) steps, and where they rest all requests due have been answered or an office is stuck in a self-transfer |
| ProtocolProgress.EachRequestIsAnsweredSoon | Project2/source/server.c:38-103 | under any schedule and any further input, request j is answered within 15 (j - replies so far + K) office steps, and until then some office can move or main is announcing, unless an office is stuck |
| ProtocolProgress.OfficeStepsAdvance | Project2/source/server.c:38-103 | in any run of an open server the offices take exactly 15 steps per reply, up to the phases they are in at its two ends; in any other run at most that |
| ProtocolProgress.OfficesComeToRest | Project2/source/server.c:38-103 | from every state there is a run of the offices alone to rest in which every reply is delivered |
| ProtocolShutdown.CloseFindsNothingWaiting | Project2/source/server.c:161-163 | when `close_thread` is set, the queue is empty and no office is between its `main_sem` wait and its pop |
| ProtocolShutdown.OnlyOneRequestComesTooLate | Project2/source/server.c:161-171 | afterwards exactly the requests pushed before have been popped and at most one later request is queued |
| ProtocolShutdown.NothingIsPoppedAfterClose | Project2/source/server.c:38-46 | no run after closing pops anything: the late request is never served |
| ProtocolShutdown.NobodyIsLeftWaiting | Project2/source/server.c:174-182 | once main has made its posts, `main_sem` covers every waiting office, so each can go on |
| ProtocolShutdown.ShutdownCompletes | Project2/source/server.c:160-182 | from closing on, every schedule is bounded and ends with all offices returned, all joins done and exactly the requests pushed before closing answered, or with an office stuck in a self-transfer |
| ProtocolShutdown.IdleServerCloses | Project2/source/server.c:160-164 | with `server_exit` set, the queue empty and no input, main sets `close_thread` within five of its own steps, whatever the offices do |
| ProtocolShutdown.ShutdownIsAlwaysPossible | Project2/source/server.c:81-182 | from every reachable state some run ends with all joins done or with an office stuck in a self-transfer, and the former if no request pushed or read so far is a self-transfer |
| ProtocolShutdown.ExitIsReachable | Project2/source/server.c:107-182 | for any positive number of offices some run of the whole server ends with all offices returned and all joins done |
| ProtocolShutdown.LateRequestIsLost | Project2/source/server.c:160-172 | for every request there is a run in which it is read in the round that closes the server, pushed, and never answered |
| ProtocolHistory.EveryReadIsPushed | Project2/source/server.c:164-171 | over any run, what has been pushed and what main holds grow by exactly the requests read, in order, also after a shutdown was served |
| ProtocolHistory.OneReadPerRound | Project2/source/server.c:160-164 | main reads exactly once in each round of its loop, also while the queue drains and in the round that closes the server |
| ProtocolHistory.EveryRequestReadIsAnswered | Project2/source/server.c:38-172 | from the start, the requests read are those popped, then those queued, then the one in main's hand; and an idle open server has answered all of them in reading order |
| ProtocolHistory.CallsAreRecorded | Project2/source/server.c:44-70 | each call of a run is for the next pushed request, with the salt drawn and the offices active at that step |
| ProtocolHistory.DeliveriesAreRecorded | Project2/source/server.c:81-89 | whether each logged reply counts as delivered is what happened at its send |
| Server.BankServer.constructor | Project2/source/server.c:18-26 | the initial state of the protocol |
| Server.BankServer.Step | Project2/source/server.c:35-182 | every step that the protocol allows for any thread can be taken on the linked list, the account array and the other shared variables, in place, and leaves them exactly as the protocol says, in a reachable state again; a request read joins what is pushed or held, and the calls and deliveries grow by those of the step |
| Server.BankServer.TakeRequest | Project2/source/server.c:45-46 | `front` and `pop` on the linked list find a request without being told so, and take the oldest |
| Server.BankServer.AnswerRequest | Project2/source/server.c:70 | the in-place reply on the shared table, as the protocol's step |
| Server.BankServer.TestQueueSize | Project2/source/server.c:161 | the list's size field is 0 exactly when the protocol's queue is empty |
| Server.BankServer.PushRequest | Project2/source/server.c:166 | the push on the linked list appends to the protocol's queue |
| Countdown.LockedTotalIsExact | Exercises/prob07/p2.c:12-33 | with the mutex, any positive number of threads write exactly `limit` characters in every interleaving |
| Countdown.UnlockedTotalIsBounded | Exercises/prob06/p02.c:15-19 | without it, between `limit` and `limit + K - 1` |
| Countdown.EveryOvershootHappens | Exercises/prob06/p02.c:15-19 | each total in that range is the result of some run, for every K and every positive limit |
| Countdown.EveryJoinReturns | Exercises/prob07/p2.c:34-46 | with or without the mutex no run is longer than the measure of its first state, and it can only end with all threads returned |
| Countdown.EachThreadReportsItsOwn | Exercises/prob07/p2.c:24-32 | the count a thread returns is the number of characters it wrote itself |
| Countdown.Pool.Step | Exercises/prob07/p2.c:17-28 | each statement of a thread, on the shared variables, is the model's step and keeps the state reachable |
| Fill.FilledPartIsRight | Exercises/prob07/p1a.c:15-31 | whenever the mutex is free, `pos == val`, the filled part is right, and counts plus increments owed add up to `pos` |
| Fill.LockedFillIsExact | Exercises/prob07/p1a.c:54-68 | after all joins the counts add up to `npos` and `verify` finds nothing, in every interleaving |
| Fill.UnlockedFillIsBounded | Exercises/prob07/p1b.c:15-31 | without the mutex the final `pos` is between `npos` and `npos + K - 1`, equals the counts, and no store goes past `npos + K - 2` |
| Fill.FillIsCleanExactly | Exercises/prob07/p1b.c:15-40 | `verify` finds no error after any run if and only if there is the mutex, or one thread, or at most one position |
| Fill.UnlockedFillCanGoWrong | Exercises/prob07/p1b.c:17-30 | two threads without the mutex can finish with a wrong second cell |
| Fill.EveryOvershootHappens | Exercises/prob07/p1b.c:15-31 | each total from `npos` to `npos + K - 1` is the result of some unlocked run |
| Fill.StoresFitExactly | Exercises/prob07/p1b.c:11-31 | every store of every run falls inside the buffer if and only if there is nothing to store or the buffer has room for `npos` cells and, without the mutex, K - 1 more |
| Fill.EveryJoinReturns | Exercises/prob07/p1a.c:59-65 | no run is longer than the measure of its first state, and it can only end with all threads returned |
| Fill.Pool.Step | Exercises/prob07/p1a.c:17-30 | each statement of a thread, on the shared array and counters, is the model's step, inside the buffer |
| Fill.Pool.Total | Exercises/prob07/p1a.c:59-66 | the sum of the counts; with the mutex it is `npos` |
| Fill.Pool.Verify | Exercises/prob07/p1a.c:33-40 | exactly the wrong positions, in order; none if and only if the buffer is right |

## Left out

- FIFO creation, opening, reading and writing, `chmod`, `stat`, `atexit` and delays: a read is an arbitrary next request or nothing, an open is an arbitrary boolean, a delay has no effect.
- Log files and the formatting in log.c: only the sequence of logged replies is kept.
- `shasum`, `popen`, `rand`: an arbitrary hash function and an arbitrary salt; the sizes of their buffers are not modelled.
- Weak-memory effects of the unprotected flags and counters: each access is one atomic step.
- user.c and `build_tlv_request`: argument parsing and client I/O; requests start decoded.
- Bank.BuildTlvReply: ids of 4096 and more where the server uses them as indices, since the source would read outside the array; also left out, although the source answers it with `RC_LOGIN_FAIL`, is a creation under the administrator's id with a wrong password and such an id word.
- The 32-bit width of the queue's `size`, of `active_threads` and of the exercises' counters.
- The destruction of the semaphores after the joins (Project2/source/server.c:184-189).
- `malloc` failure; `free` is a mark on the node, after which no method touches it.
- Server.BankServer: the threads' control flow is their program counters; which thread runs next is up to the caller, so there is no loop over a schedule.
- Fill.Pool: the object is restricted to configurations whose stores all fit in the buffer (`Fits`, exact by `StoresFitExactly`); the model without the object is not.
- Project1 and the other exercises: wrappers over system calls; `prob07/p3.c` and `prob07/p4.c` repeat `p1a.c`.
