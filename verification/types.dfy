/** Constants, messages and account records shared by every part of the bank server
    (Project2/source/constants.h, types.h and banking_aux.h). */
module Types {

  const MAX_BANK_ACCOUNTS := 4096
  const MIN_BALANCE := 1
  const MAX_BALANCE := 1000000000
  const ADMIN_ACCOUNT_ID := 0

  const UINT32_RANGE := 0x1_0000_0000
  const INT32_LIMIT := 0x8000_0000

  type uint32 = x: int | 0 <= x < UINT32_RANGE

  /** What a 32-bit unsigned register keeps of the integer `x`. */
  function Wrap(x: int): uint32 {
    x % UINT32_RANGE
  }

  /** The cast of a `uint32_t` to `int`: two's complement. */
  function AsInt32(x: uint32): int {
    if x < INT32_LIMIT then x else x - UINT32_RANGE
  }

  datatype Option<+T> = None | Some(value: T)

  datatype OpType = CreateAccount | Balance | Transfer | Shutdown | OtherOp(code: int)

  /** Return codes in their declared order: of several errors, the first must be returned. */
  datatype RetCode =
    | Ok | SrvDown | SrvTimeout | UsrDown | LoginFail | OpNAllow | IdInUse
    | IdNotFound | SameId | NoFunds | TooHigh | Other
  {
    function Rank(): nat {
      match this
      case Ok => 0
      case SrvDown => 1
      case SrvTimeout => 2
      case UsrDown => 3
      case LoginFail => 4
      case OpNAllow => 5
      case IdInUse => 6
      case IdNotFound => 7
      case SameId => 8
      case NoFunds => 9
      case TooHigh => 10
      case Other => 11
    }
  }

  /** A decoded request. The create and transfer arguments share their storage in the source:
      `argId` is `create.account_id` and `transfer.account_id`, `argAmount` is `create.balance`
      and `transfer.amount`. */
  datatype RawRequest = RawRequest(
    op: OpType,
    pid: int,
    accountId: uint32,
    password: string,
    opDelayMs: uint32,
    argId: uint32,
    argAmount: uint32,
    argPassword: string)
  {
    /** The server indexes its table with the requester's id in every request, and with `argId` in
        every transfer, in a creation by the administrator and in a balance query by a customer; it
        checks none of them. */
    predicate IdsInRange() {
      && accountId < MAX_BANK_ACCOUNTS
      && (op.CreateAccount? && accountId == ADMIN_ACCOUNT_ID ==> argId < MAX_BANK_ACCOUNTS)
      && (op.Balance? && accountId != ADMIN_ACCOUNT_ID ==> argId < MAX_BANK_ACCOUNTS)
      && (op.Transfer? ==> argId < MAX_BANK_ACCOUNTS)
    }

    predicate IsSelfTransfer() {
      op.Transfer? && accountId == argId
    }
  }

  type Request = r: RawRequest | r.IdsInRange()
    witness RawRequest(Shutdown, 0, 0, "", 0, 0, 0, "")

  /** `word` is the reply's union: a balance or the number of active offices. */
  datatype Reply = Reply(op: OpType, length: uint32, accountId: uint32, retCode: RetCode, word: uint32)

  const REPLY_LENGTH: uint32 := 8 // size of a pointer: the source measures the pointer, not the struct

  datatype Account = Account(
    accountId: uint32,
    balance: uint32,
    salt: string,
    hash: string,
    semaphore: nat,
    active: bool)

  const BLANK_ACCOUNT := Account(0, 0, "", "", 0, false)

  type Table = t: seq<Account> | |t| == MAX_BANK_ACCOUNTS
    witness seq(MAX_BANK_ACCOUNTS, _ => BLANK_ACCOUNT)

  function BlankTable(): Table {
    seq(MAX_BANK_ACCOUNTS, _ => BLANK_ACCOUNT)
  }

  /** The external password hash, as a function of password and salt. */
  type HashFn = (string, string) -> string

  ghost predicate NonEmpty(hash: HashFn) {
    forall password, salt :: hash(password, salt) != ""
  }
}
