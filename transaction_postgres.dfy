/**
 * The transaction repository (internal/service/repo/postgresSQL/transaction.go).
 * Create and Update run several statements inside one database transaction:
 * they work on a private copy of the tables and publish it only on commit,
 * so a failing step leaves the tables as they were.
 */
module TransactionPostgres {
  import opened Basics
  import opened Model
  import opened Tables
  import opened QueryHelper

  /** The row `INSERT INTO transaction (...) VALUES (..., now(), now(), null)` creates. */
  function Inserted(t: Transaction, id: int, now: Time): (r: Transaction)
    ensures r.id == id && r.customerId == t.customerId && r.itemId == t.itemId
    ensures r.qty == t.qty && r.price == t.price && r.amount == t.amount
    ensures r.createdAt == now && r.updatedAt == now && TransactionLive(r)
  {
    Transaction(id, t.customerId, t.itemId, t.qty, t.price, t.amount, now, now, None)
  }

  /**
   * The first statement of Update: credit the stored row's amount back to the
   * stored row's customer. A deleted row is credited too; a missing one
   * credits nothing. (The source's CTE names its table `TransactionTable`
   * inside the SQL text, a table that does not exist; this is the statement it
   * evidently means.)
   */
  function Refunded(customers: map<int, Customer>, transactions: map<int, Transaction>, id: int): (r: map<int, Customer>)
    ensures r.Keys == customers.Keys
    ensures id !in transactions ==> r == customers
    ensures id in transactions ==> r == AdjustBalance(customers, transactions[id].customerId, transactions[id].amount)
  {
    if id in transactions then AdjustBalance(customers, transactions[id].customerId, transactions[id].amount)
    else customers
  }

  /** `UPDATE transaction SET customer_id, item_id, qty, price, amount, updated_at = now() WHERE id`. */
  function Rewritten(transactions: map<int, Transaction>, t: Transaction, now: Time): (r: map<int, Transaction>)
    ensures r.Keys == transactions.Keys
    ensures forall k :: k in transactions && k != t.id ==> r[k] == transactions[k]
    ensures t.id in transactions ==>
      r[t.id] == transactions[t.id].(customerId := t.customerId, itemId := t.itemId, qty := t.qty,
                                     price := t.price, amount := t.amount, updatedAt := now)
  {
    if t.id in transactions
    then transactions[t.id := transactions[t.id].(customerId := t.customerId, itemId := t.itemId, qty := t.qty,
                                                  price := t.price, amount := t.amount, updatedAt := now)]
    else transactions
  }

  /** The balances after Update's two statements: credit the old amount, debit the new one. */
  function Rebalanced(customers: map<int, Customer>, transactions: map<int, Transaction>, t: Transaction): (r: map<int, Customer>)
    ensures r.Keys == customers.Keys
    ensures forall k :: k in customers && k != t.customerId && (t.id !in transactions || k != transactions[t.id].customerId)
                        ==> r[k] == customers[k]
  {
    AdjustBalance(Refunded(customers, transactions, t.id), t.customerId, -t.amount)
  }

  /**
   * For an unchanged customer, Update's net effect on the balance is the old
   * amount minus the new one; no other customer changes.
   */
  lemma RebalancedSameCustomer(customers: map<int, Customer>, transactions: map<int, Transaction>, t: Transaction)
    requires t.id in transactions && transactions[t.id].customerId == t.customerId
    requires t.customerId in customers
    ensures var r := Rebalanced(customers, transactions, t);
      && r.Keys == customers.Keys
      && r[t.customerId] == customers[t.customerId].(balance := customers[t.customerId].balance + transactions[t.id].amount - t.amount)
      && forall k :: k in customers && k != t.customerId ==> r[k] == customers[k]
  {
  }

  /**
   * When Update moves a transaction to another customer, the old customer gets
   * the old amount back and the new one pays the new amount.
   */
  lemma RebalancedOtherCustomer(customers: map<int, Customer>, transactions: map<int, Transaction>, t: Transaction)
    requires t.id in transactions && transactions[t.id].customerId != t.customerId
    requires transactions[t.id].customerId in customers && t.customerId in customers
    ensures var r := Rebalanced(customers, transactions, t);
      var was := transactions[t.id].customerId;
      && r[was].balance == customers[was].balance + transactions[t.id].amount
      && r[t.customerId].balance == customers[t.customerId].balance - t.amount
  {
  }

  /**
   * Update of an id that has no row credits nothing but still debits the new
   * customer.
   */
  lemma RebalancedMissingRow(customers: map<int, Customer>, transactions: map<int, Transaction>, t: Transaction)
    requires t.id !in transactions && t.customerId in customers
    ensures Rebalanced(customers, transactions, t)[t.customerId].balance == customers[t.customerId].balance - t.amount
  {
  }

  /** `UPDATE transaction SET deleted_at = now() WHERE id`. */
  function SoftDeleted(transactions: map<int, Transaction>, id: int, now: Time): (r: map<int, Transaction>)
    ensures r.Keys == transactions.Keys
    ensures forall k :: k in transactions && k != id ==> r[k] == transactions[k]
    ensures id in transactions ==> r[id] == transactions[id].(deletedAt := Some(now))
  {
    if id in transactions then transactions[id := transactions[id].(deletedAt := Some(now))] else transactions
  }

  /** Create's statements, any of which may fail. */
  predicate CreateFails(faults: set<Fault>)
  {
    TxBegin in faults || TxCreateDebit in faults || TxInsert in faults || TxCommit in faults
  }

  /** Update's statements, any of which may fail. */
  predicate UpdateFails(faults: set<Fault>)
  {
    TxBegin in faults || TxUpdateCredit in faults || TxUpdateDebit in faults || TxUpdateRow in faults || TxCommit in faults
  }

  /**
   * Create debits the amount from the customer (deleted or not) and inserts
   * the row, together. It always returns 0: the id it declares is never
   * assigned.
   */
  method Create(db: Database, t: Transaction, now: Time, faults: set<Fault>) returns (id: int, err: bool)
    requires db.Valid()
    modifies db`customers, db`transactions, db`nextTransactionId
    ensures db.Valid()
    ensures id == 0
    ensures err <==> CreateFails(faults)
    ensures err ==> unchanged(db)
    ensures !err ==> db.customers == AdjustBalance(old(db.customers), t.customerId, -t.amount)
    ensures !err ==> db.transactions == old(db.transactions)[old(db.nextTransactionId) := Inserted(t, old(db.nextTransactionId), now)]
    ensures !err ==> db.nextTransactionId == old(db.nextTransactionId) + 1
  {
    id := 0;
    if TxBegin in faults {
      return 0, true;
    }
    var customers, transactions, next := db.customers, db.transactions, db.nextTransactionId;
    if TxCreateDebit in faults {
      // tx.Rollback
      return 0, true;
    }
    customers := AdjustBalance(customers, t.customerId, -t.amount);
    if TxInsert in faults {
      // returned without Rollback; the uncommitted debit is never visible
      return 0, true;
    }
    transactions := transactions[next := Inserted(t, next, now)];
    next := next + 1;
    if TxCommit in faults {
      return 0, true;
    }
    db.customers, db.transactions, db.nextTransactionId := customers, transactions, next;
    err := false;
  }

  /** IDExists ignores soft-deletion. */
  method IDExists(db: Database, id: int, faults: set<Fault>) returns (exists_: bool, err: bool)
    ensures err <==> TxIDExists in faults
    ensures err ==> !exists_
    ensures !err ==> (exists_ <==> id in db.transactions)
  {
    if TxIDExists in faults {
      return false, true;
    }
    exists_ := id in db.transactions;
    err := false;
  }

  /**
   * GetByID returns a live transaction; a missing or deleted one is an error
   * (no rows). The source's `AND WHERE` is rejected by Postgres; this is the
   * query it evidently means.
   */
  method GetByID(db: Database, id: int, faults: set<Fault>) returns (t: Transaction, err: bool)
    ensures err <==> TxGetByID in faults || !(id in db.transactions && TransactionLive(db.transactions[id]))
    ensures err ==> t == ZeroTransaction
    ensures !err ==> t == db.transactions[id]
  {
    if TxGetByID in faults || !(id in db.transactions && TransactionLive(db.transactions[id])) {
      return ZeroTransaction, true;
    }
    t := db.transactions[id];
    err := false;
  }

  /**
   * GetAll returns the live transactions in insertion order, restricted by
   * the LIMIT/OFFSET tail; a limit of 0 is first replaced by -1, which the
   * tail builder also ignores. (As with items, the source puts the tail
   * before the WHERE; it is applied after it here.)
   */
  method GetAll(db: Database, limit: int, offset: int, faults: set<Fault>) returns (transactions: seq<Transaction>, err: bool)
    requires db.Valid()
    ensures err <==> TxGetAll in faults
    ensures err ==> transactions == []
    ensures !err ==> transactions == Page(LiveRows(db.transactions, TransactionLive, db.nextTransactionId), limit, offset)
    ensures forall t :: t in transactions ==> t.id in db.transactions && db.transactions[t.id] == t && TransactionLive(t)
  {
    var lim := limit;
    if lim == 0 {
      lim := -1;
    }
    if TxGetAll in faults {
      return [], true;
    }
    var clause := LimitAndOffset(lim, offset);
    var rows := Scan(db.transactions, TransactionLive, db.nextTransactionId);
    transactions := Paged(rows, clause);
    err := false;
    PagedByHelper(rows, lim, offset);
    forall t | t in transactions
      ensures t.id in db.transactions && db.transactions[t.id] == t && TransactionLive(t)
    {
      LiveRowsMembership(db.transactions, TransactionLive, db.nextTransactionId, t);
    }
  }

  /**
   * Update credits the stored amount to the stored customer, debits the new
   * amount from the new customer and overwrites the row's five mutable fields,
   * all or nothing. It returns its input.
   */
  method Update(db: Database, t: Transaction, now: Time, faults: set<Fault>) returns (r: Transaction, err: bool)
    requires db.Valid()
    modifies db`customers, db`transactions
    ensures db.Valid()
    ensures err <==> UpdateFails(faults)
    ensures err ==> r == ZeroTransaction && unchanged(db)
    ensures !err ==> r == t
    ensures !err ==> db.customers == Rebalanced(old(db.customers), old(db.transactions), t)
    ensures !err ==> db.transactions == Rewritten(old(db.transactions), t, now)
  {
    if TxBegin in faults {
      return ZeroTransaction, true;
    }
    var customers, transactions := db.customers, db.transactions;
    if TxUpdateCredit in faults {
      return ZeroTransaction, true;
    }
    customers := Refunded(customers, transactions, t.id);
    if TxUpdateDebit in faults {
      return ZeroTransaction, true;
    }
    customers := AdjustBalance(customers, t.customerId, -t.amount);
    if TxUpdateRow in faults {
      return ZeroTransaction, true;
    }
    transactions := Rewritten(transactions, t, now);
    if TxCommit in faults {
      return ZeroTransaction, true;
    }
    db.customers, db.transactions := customers, transactions;
    r, err := t, false;
  }

  /** Delete only marks the row deleted; no balance changes. */
  method Delete(db: Database, id: int, now: Time, faults: set<Fault>) returns (err: bool)
    requires db.Valid()
    modifies db`transactions
    ensures db.Valid()
    ensures err <==> TxDelete in faults
    ensures err ==> unchanged(db)
    ensures !err ==> db.transactions == SoftDeleted(old(db.transactions), id, now)
  {
    if TxDelete in faults {
      return true;
    }
    db.transactions := SoftDeleted(db.transactions, id, now);
    err := false;
  }

  /** A live transaction row whose customer and item rows exist, deleted or not: the inner join keeps it. */
  predicate Joinable(transactions: map<int, Transaction>, customers: map<int, Customer>, items: map<int, Item>, k: int)
  {
    k in transactions && TransactionLive(transactions[k])
    && transactions[k].customerId in customers && transactions[k].itemId in items
  }

  /** A transaction row joined with its customer's and its item's names. */
  function ViewOf(t: Transaction, c: Customer, i: Item): (v: TransactionView)
    ensures v.id == t.id && v.customerId == t.customerId && v.itemId == t.itemId
    ensures v.customerName == c.name && v.itemName == i.itemName
    ensures v.qty == t.qty && v.price == t.price && v.amount == t.amount
    ensures v.createdAt == t.createdAt && v.updatedAt == t.updatedAt && v.deletedAt == t.deletedAt
  {
    TransactionView(t.id, t.customerId, c.name, t.itemId, i.itemName, t.qty, t.price, t.amount,
                    t.createdAt, t.updatedAt, t.deletedAt)
  }

  function JoinedAt(transactions: map<int, Transaction>, customers: map<int, Customer>, items: map<int, Item>, k: int): TransactionView
    requires Joinable(transactions, customers, items, k)
  {
    var t := transactions[k];
    ViewOf(t, customers[t.customerId], items[t.itemId])
  }

  /**
   * `transaction AS t INNER JOIN customer AS c ON t.customer_id = c.id INNER
   * JOIN item AS i ON t.item_id = i.id WHERE t.deleted_at IS NULL`, over
   * transaction ids below `hi`, in transaction id order.
   */
  function JoinedViews(transactions: map<int, Transaction>, customers: map<int, Customer>, items: map<int, Item>, hi: int): (views: seq<TransactionView>)
    ensures |views| <= if hi <= 1 then 0 else hi - 1
    ensures forall v :: v in views ==> v.deletedAt.None?
    decreases hi
  {
    if hi <= 1 then []
    else
      var last := if Joinable(transactions, customers, items, hi - 1)
        then [JoinedAt(transactions, customers, items, hi - 1)] else [];
      JoinedViews(transactions, customers, items, hi - 1) + last
  }

  /** Every joinable transaction below `hi` has its view in the join. */
  lemma {:induction false} JoinedViewsComplete(transactions: map<int, Transaction>, customers: map<int, Customer>, items: map<int, Item>, hi: int, k: int)
    requires 1 <= k < hi
    requires Joinable(transactions, customers, items, k)
    ensures JoinedAt(transactions, customers, items, k) in JoinedViews(transactions, customers, items, hi)
    decreases hi
  {
    if k < hi - 1 {
      JoinedViewsComplete(transactions, customers, items, hi - 1, k);
    }
  }

  /**
   * Every view in the join comes from a joinable transaction, so in
   * particular no soft-deleted transaction appears in it.
   */
  lemma {:induction false} JoinedViewsSound(transactions: map<int, Transaction>, customers: map<int, Customer>, items: map<int, Item>, hi: int, v: TransactionView)
    requires forall k :: k in transactions ==> transactions[k].id == k
    requires v in JoinedViews(transactions, customers, items, hi)
    ensures Joinable(transactions, customers, items, v.id) && v == JoinedAt(transactions, customers, items, v.id)
    decreases hi
  {
    if hi > 1 {
      if v !in JoinedViews(transactions, customers, items, hi - 1) {
        assert Joinable(transactions, customers, items, hi - 1) && v == JoinedAt(transactions, customers, items, hi - 1);
      } else {
        JoinedViewsSound(transactions, customers, items, hi - 1, v);
      }
    }
  }

  /** Every view in the join carries the id of a transaction row below `hi`. */
  lemma {:induction false} JoinedViewsIdsBelow(transactions: map<int, Transaction>, customers: map<int, Customer>, items: map<int, Item>, hi: int, i: int)
    requires forall k :: k in transactions ==> transactions[k].id == k
    requires 0 <= i < |JoinedViews(transactions, customers, items, hi)|
    ensures 1 <= JoinedViews(transactions, customers, items, hi)[i].id < hi
    decreases hi
  {
    if i < |JoinedViews(transactions, customers, items, hi - 1)| {
      JoinedViewsIdsBelow(transactions, customers, items, hi - 1, i);
    }
  }

  /**
   * The join lists the views in strictly increasing transaction id, so it
   * holds at most one view per transaction.
   */
  lemma {:induction false} JoinedViewsOrdered(transactions: map<int, Transaction>, customers: map<int, Customer>, items: map<int, Item>, hi: int)
    requires forall k :: k in transactions ==> transactions[k].id == k
    ensures forall i, j :: 0 <= i < j < |JoinedViews(transactions, customers, items, hi)| ==>
              JoinedViews(transactions, customers, items, hi)[i].id < JoinedViews(transactions, customers, items, hi)[j].id
    decreases hi
  {
    if hi > 1 {
      JoinedViewsOrdered(transactions, customers, items, hi - 1);
      var prefix := JoinedViews(transactions, customers, items, hi - 1);
      forall i | 0 <= i < |prefix|
        ensures prefix[i].id < hi - 1
      {
        JoinedViewsIdsBelow(transactions, customers, items, hi - 1, i);
      }
    }
  }

  /**
   * GetAllTransactionViews returns the inner join of the live transactions
   * with their customers and items, restricted by the LIMIT/OFFSET tail. (The
   * source puts the tail before the WHERE; it is applied after it here.)
   */
  method GetAllTransactionViews(db: Database, limit: int, offset: int, faults: set<Fault>) returns (views: seq<TransactionView>, err: bool)
    requires db.Valid()
    ensures err <==> TxGetAllViews in faults
    ensures err ==> views == []
    ensures !err ==> views == Page(JoinedViews(db.transactions, db.customers, db.items, db.nextTransactionId), limit, offset)
  {
    if TxGetAllViews in faults {
      return [], true;
    }
    var clause := LimitAndOffset(limit, offset);
    var rows: seq<TransactionView> := [];
    var k := 1;
    while k < db.nextTransactionId
      invariant 1 <= k <= db.nextTransactionId
      invariant rows == JoinedViews(db.transactions, db.customers, db.items, k)
    {
      if Joinable(db.transactions, db.customers, db.items, k) {
        var t := db.transactions[k];
        rows := rows + [ViewOf(t, db.customers[t.customerId], db.items[t.itemId])];
      }
      k := k + 1;
    }
    views := Paged(rows, clause);
    err := false;
    PagedByHelper(rows, limit, offset);
  }

  /** GetByTransactionID returns the joined view of a live transaction; anything else is an error (no rows). */
  method GetByTransactionID(db: Database, id: int, faults: set<Fault>) returns (view: TransactionView, err: bool)
    ensures err <==> TxGetByTransactionID in faults || !Joinable(db.transactions, db.customers, db.items, id)
    ensures err ==> view == ZeroTransactionView
    ensures !err ==> view == JoinedAt(db.transactions, db.customers, db.items, id)
  {
    if TxGetByTransactionID in faults || !Joinable(db.transactions, db.customers, db.items, id) {
      return ZeroTransactionView, true;
    }
    var t := db.transactions[id];
    view := ViewOf(t, db.customers[t.customerId], db.items[t.itemId]);
    err := false;
  }
}
