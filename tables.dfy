/**
 * The in-memory picture of the three tables (customer, item, transaction)
 * behind the shared connection pool, and the failure points of the SQL
 * statements the repositories run against them.
 */
module Tables {
  import opened Basics
  import opened Model

  /**
   * A statement that fails with a storage error in a given call. Which ones
   * fail is chosen by the environment and passed in as a set.
   */
  datatype Fault =
    | CustomerInsert | CustomerIDExists | CustomerIDByName | CustomerGetBalance
    | CustomerGetByID | CustomerGetAll | CustomerUpdate | CustomerDelete
    | ItemInsert | ItemIDExists | ItemIDByName | ItemGetByID | ItemGetAll
    | ItemUpdate | ItemDelete
    | TxBegin | TxCommit | TxCreateDebit | TxInsert
    | TxUpdateCredit | TxUpdateDebit | TxUpdateRow
    | TxIDExists | TxGetByID | TxGetAll | TxDelete
    | TxGetAllViews | TxGetByTransactionID | TxGetAllViewsByFilters

  /** The database: each table maps a row id to its row; ids come from serial counters. */
  class Database {
    var customers: map<int, Customer>
    var items: map<int, Item>
    var transactions: map<int, Transaction>
    var nextCustomerId: int
    var nextItemId: int
    var nextTransactionId: int

    /** Serial ids start at 1 and stay below the next value; a row's id is its key. */
    ghost predicate Valid()
      reads this
    {
      && 1 <= nextCustomerId && 1 <= nextItemId && 1 <= nextTransactionId
      && (forall k :: k in customers ==> 1 <= k < nextCustomerId && customers[k].id == k)
      && (forall k :: k in items ==> 1 <= k < nextItemId && items[k].id == k)
      && (forall k :: k in transactions ==> 1 <= k < nextTransactionId && transactions[k].id == k)
    }

    constructor ()
      ensures Valid()
      ensures customers == map[] && items == map[] && transactions == map[]
      ensures nextCustomerId == 1 && nextItemId == 1 && nextTransactionId == 1
    {
      customers, items, transactions := map[], map[], map[];
      nextCustomerId, nextItemId, nextTransactionId := 1, 1, 1;
    }
  }

  /**
   * The rows of a table with id below `hi` that satisfy `live`, in id order:
   * what a sequential scan with a WHERE on the soft-delete marker yields.
   */
  function LiveRows<T>(table: map<int, T>, live: T -> bool, hi: int): seq<T>
    decreases hi
  {
    if hi <= 1 then []
    else LiveRows(table, live, hi - 1) + (if hi - 1 in table && live(table[hi - 1]) then [table[hi - 1]] else [])
  }

  /** A row is scanned exactly when it is live and its id is in range. */
  lemma {:induction false} LiveRowsMembership<T>(table: map<int, T>, live: T -> bool, hi: int, x: T)
    ensures x in LiveRows(table, live, hi) <==> exists k :: 1 <= k < hi && k in table && table[k] == x && live(x)
    decreases hi
  {
    if hi > 1 {
      LiveRowsMembership(table, live, hi - 1, x);
      if hi - 1 in table && table[hi - 1] == x && live(x) {
        assert x in LiveRows(table, live, hi);
      }
    }
  }

  /**
   * The row walk of a list query with `WHERE deleted_at IS NULL`: visit the
   * ids in insertion order and keep the live rows.
   */
  method Scan<T>(table: map<int, T>, live: T -> bool, hi: int) returns (rows: seq<T>)
    ensures rows == LiveRows(table, live, hi)
  {
    rows := [];
    var id := 1;
    while id < hi
      invariant 1 <= id <= (if hi > 1 then hi else 1)
      invariant rows == LiveRows(table, live, id)
    {
      if id in table && live(table[id]) {
        rows := rows + [table[id]];
      }
      id := id + 1;
    }
  }

  /** `UPDATE customer SET balance = balance + delta WHERE id = id`. */
  function AdjustBalance(customers: map<int, Customer>, id: int, delta: Money): (r: map<int, Customer>)
    ensures r.Keys == customers.Keys
    ensures forall k :: k in customers && k != id ==> r[k] == customers[k]
    ensures id in customers ==> r[id] == customers[id].(balance := customers[id].balance + delta)
  {
    if id in customers then customers[id := customers[id].(balance := customers[id].balance + delta)] else customers
  }

  /** The ids of the customer rows, deleted or not, that carry a name. */
  function CustomerNameHolders(customers: map<int, Customer>, name: string): set<int>
  {
    set k | k in customers && customers[k].name == name
  }

  /** The ids of the item rows, deleted or not, that carry a name. */
  function ItemNameHolders(items: map<int, Item>, name: string): set<int>
  {
    set k | k in items && items[k].itemName == name
  }

  /** No two customer rows, deleted or not, share a name. */
  ghost predicate CustomerNamesUnique(customers: map<int, Customer>)
  {
    forall j, k :: j in customers && k in customers && customers[j].name == customers[k].name ==> j == k
  }

  /** No two item rows, deleted or not, share a name. */
  ghost predicate ItemNamesUnique(items: map<int, Item>)
  {
    forall j, k :: j in items && k in items && items[j].itemName == items[k].itemName ==> j == k
  }

  /** Under uniqueness a name is held by no row or by exactly one. */
  lemma CustomerHoldersAtMostOne(customers: map<int, Customer>, name: string, k: int)
    requires CustomerNamesUnique(customers)
    requires k in CustomerNameHolders(customers, name)
    ensures CustomerNameHolders(customers, name) == {k}
  {
    forall j | j in CustomerNameHolders(customers, name) ensures j == k {
      assert customers[j].name == customers[k].name;
    }
  }

  lemma ItemHoldersAtMostOne(items: map<int, Item>, name: string, k: int)
    requires ItemNamesUnique(items)
    requires k in ItemNameHolders(items, name)
    ensures ItemNameHolders(items, name) == {k}
  {
    forall j | j in ItemNameHolders(items, name) ensures j == k {
      assert items[j].itemName == items[k].itemName;
    }
  }
}
