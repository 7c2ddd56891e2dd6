// The records of the shared-expense ledger, with money in integer cents.

module LedgerTypes {

  /** Opaque identifiers (generated UUIDs in the application). */
  type Id = string

  datatype Option<T> = None | Some(value: T)

  /** A user record `{ id, name, email }`; group members have the same shape. */
  datatype Member = Member(id: Id, name: string, email: string)

  /** A group: its members in insertion order, its creator and creation time. */
  datatype Group = Group(id: Id, name: string, members: seq<Member>, createdBy: Id, createdAt: int)

  /** One member's share of an expense, in cents. */
  datatype Split = Split(userId: Id, amount: int)

  /** An expense: `amount` (cents) paid by `paidBy`, divided by `splits`; `date` is a timestamp. */
  datatype Expense = Expense(
    id: Id, groupId: Id, description: string, amount: int, paidBy: Id, date: int, splits: seq<Split>)

  /** A member's net position in a group: positive is owed money, negative owes money. */
  datatype Balance = Balance(userId: Id, userName: string, amount: int)

  datatype SplitType = Equal | Custom

  /** The errors `addExpense` and `createGroup` throw. */
  datatype Error =
    | NotLoggedIn     // addExpense without a current user
    | NoCreator       // createGroup without a current user
    | GroupNotFound   // no group with the given id
    | SplitMismatch   // custom splits do not add up to the amount
    | InvalidSplit    // custom split type without a split list

  datatype Result<T> = Ok(value: T) | Err(error: Error)

  /** The text thrown for each error; the expense form shows addExpense's. */
  function Message(e: Error): string
  {
    match e
    case NotLoggedIn => "You must be logged in to add an expense"
    case NoCreator => "You must be logged in to create a group"
    case GroupNotFound => "Group not found"
    case SplitMismatch => "Custom splits must add up to the total amount"
    case InvalidSplit => "Invalid split type or missing custom splits"
  }

  /** The 0.01 currency-unit tolerance, in cents. */
  const Tolerance: int := 1

  function Abs(x: int): int { if x < 0 then -x else x }

  /** Two amounts are treated as equal when they differ by at most the tolerance. */
  predicate Within(x: int, y: int) { Abs(x - y) <= Tolerance }
}
