/** The entities the interactive prompts read and write: categories, external
    accounts and transactions. Transactions live in an arena keyed by the
    database id; ids are handed out in increasing order and never reused. */
module Ledger {

  datatype Option<+T> = None | Some(value: T) {
    function GetOr(default: T): T {
      match this
      case Some(v) => v
      case None => default
    }
  }

  /** The exceptions a prompt can end with. None of them is caught in the
      prompts, so each one ends the whole interactive run. */
  datatype Error =
    | EOFError                  // input() found no more operator input
    | ValueError(text: string)  // int() or strptime() refused the text
    | IndexError(index: int)    // a query set indexed at or past its end
    | AttributeError            // `.name` read on a transaction without a category
    | TypeError                 // a call with a wrong argument list, or a missing balance used as a number
    | IntegrityError            // a transaction saved without an account

  datatype Outcome<+T> = Ok(value: T) | Err(error: Error)

  datatype Status = Done | Failed(error: Error)

  /** A point in time at the fixed +08:00 offset the prompts use: a calendar
      day number and the minute within that day. */
  datatype DateTime = DateTime(day: int, minute: int)

  /** Every date the prompts build is set to 12:00. */
  const Noon: int := 12 * 60

  predicate DateBefore(a: DateTime, b: DateTime) {
    a.day < b.day || (a.day == b.day && a.minute < b.minute)
  }

  /** The closed set of institutions an external account may name. */
  datatype Institution = Patelco {
    /** The value stored in the `name` column. */
    function Code(): string { "patelco" }
  }

  /** A category; a name with colons is nested, and `parent` points at the
      category of the name up to the last colon. */
  datatype Category = Category(id: int, name: string, description: Option<string>, parent: Option<int>)

  datatype ExternalAccount = ExternalAccount(
    id: int,
    name: Institution,
    description: string,
    interestRate: Option<real>,
    notes: Option<string>)

  /** A stored or candidate transaction. `account`, `transferAccount` and
      `category` hold ids of accounts and categories, `parent` the id of the
      split header this row belongs to. Amounts are in thousandths. */
  datatype Txn = Txn(
    account: int,
    parent: Option<int>,
    description: string,
    amount: int,
    date: DateTime,
    num: Option<string>,
    notes: Option<string>,
    transferAccount: Option<int>,
    reconciled: bool,
    category: Option<int>)

  /** The transaction table, by id. */
  type Store = map<int, Txn>

  /** The database state one prompt session works on: the transactions, the
      id the next save receives, and the ids already claimed in the current
      import run (`matched_pks`). */
  datatype Books = Books(store: Store, nextId: int, matched: set<int>)

  /** Every stored id was handed out before `nextId`, and every claimed id
      names a stored row. */
  ghost predicate BooksValid(b: Books) {
    && (forall id :: id in b.store ==> id < b.nextId)
    && b.matched <= b.store.Keys
  }

  /** A new row saved under the next id. */
  function SaveNew(b: Books, t: Txn): Books {
    Books(b.store[b.nextId := t], b.nextId + 1, b.matched)
  }

  /** The category and account tables, in the order a query lists them. */
  datatype Tables = Tables(categories: seq<Category>, accounts: seq<ExternalAccount>) {
    function CategoryNames(): seq<string> {
      seq(|categories|, i requires 0 <= i < |categories| => categories[i].name)
    }
    function AccountNames(): seq<string> {
      seq(|accounts|, i requires 0 <= i < |accounts| => accounts[i].name.Code())
    }
    /** The id of the category a prompt picked by position in the table. */
    function CategoryAt(pick: Option<nat>): Option<int> {
      match pick
      case Some(i) => if i < |categories| then Some(categories[i].id) else None
      case None => None
    }
    /** The id of the account a prompt picked by position in the table. */
    function AccountAt(pick: Option<nat>): Option<int> {
      match pick
      case Some(i) => if i < |accounts| then Some(accounts[i].id) else None
      case None => None
    }
  }
}
