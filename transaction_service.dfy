/**
 * The transaction service (internal/service/transaction.go): the guards run
 * before each repository call, and the Status each outcome maps to.
 */
module TransactionService {
  import opened Basics
  import opened Model
  import opened Tables
  import opened ServiceStatus
  import QueryHelper
  import CustomerPostgres
  import ItemPostgres
  import TransactionPostgres

  /** Create's first guard passes: the item lookup works and finds the id (deleted or not). */
  ghost predicate ItemFound(items: map<int, Item>, t: Transaction, faults: set<Fault>)
  {
    ItemIDExists !in faults && t.itemId in items
  }

  /** Create's second guard passes too: the customer lookup works and finds a live customer. */
  ghost predicate CustomerFound(items: map<int, Item>, customers: map<int, Customer>, t: Transaction, faults: set<Fault>)
  {
    ItemFound(items, t, faults) && CustomerIDExists !in faults
    && t.customerId in customers && CustomerLive(customers[t.customerId])
  }

  /** A balance the service can read: a live customer and a working query. */
  ghost predicate BalanceReadable(customers: map<int, Customer>, id: int, faults: set<Fault>)
  {
    CustomerGetBalance !in faults && id in customers && CustomerLive(customers[id])
  }

  /** Create's third guard passes too: the balance is read and covers the amount (equality suffices). */
  ghost predicate Affordable(items: map<int, Item>, customers: map<int, Customer>, t: Transaction, faults: set<Fault>)
  {
    CustomerFound(items, customers, t, faults) && CustomerGetBalance !in faults
    && customers[t.customerId].balance >= t.amount
  }

  /**
   * Create checks the item, then the customer, then the balance; the first
   * failing check decides the status and nothing is written. The id returned
   * is the repository's, which is always 0.
   */
  method Create(db: Database, t: Transaction, now: Time, faults: set<Fault>) returns (id: int, s: Status)
    requires db.Valid()
    modifies db`customers, db`transactions, db`nextTransactionId
    ensures db.Valid()
    ensures id == 0
    ensures !s.Ok() ==> unchanged(db)
    ensures !s.Ok() ==> s.code in {StatusNotFound, StatusBadRequest, StatusInternalServerError}
    ensures ItemIDExists in faults ==>
      s == ErrorStatus(true, "error with item id", StatusInternalServerError)
    ensures ItemIDExists !in faults && t.itemId !in old(db.items) ==>
      s == ErrorStatus(false, "item id does not exist", StatusNotFound)
    ensures ItemFound(old(db.items), t, faults) && CustomerIDExists in faults ==>
      s == ErrorStatus(true, "error with customer id", StatusInternalServerError)
    ensures ItemFound(old(db.items), t, faults) && CustomerIDExists !in faults
            && !(t.customerId in old(db.customers) && CustomerLive(old(db.customers)[t.customerId])) ==>
      s == ErrorStatus(false, "customer id does not exist", StatusNotFound)
    ensures CustomerFound(old(db.items), old(db.customers), t, faults) && CustomerGetBalance in faults ==>
      s == ErrorStatus(true, "error with customer balance", StatusInternalServerError)
    ensures CustomerFound(old(db.items), old(db.customers), t, faults) && CustomerGetBalance !in faults
            && old(db.customers)[t.customerId].balance < t.amount ==>
      s == ErrorStatus(false, "customer balance is not enough", StatusBadRequest)
    ensures Affordable(old(db.items), old(db.customers), t, faults) && TransactionPostgres.CreateFails(faults) ==>
      s == ErrorStatus(true, "error with transaction creation", StatusInternalServerError)
    ensures s.Ok() <==> Affordable(old(db.items), old(db.customers), t, faults) && !TransactionPostgres.CreateFails(faults)
    ensures s.Ok() ==> s == SuccessStatus("transaction succesfully created", StatusCreated)
    ensures s.Ok() ==> db.customers == AdjustBalance(old(db.customers), t.customerId, -t.amount)
    ensures s.Ok() ==> db.transactions == old(db.transactions)[old(db.nextTransactionId) :=
                         TransactionPostgres.Inserted(t, old(db.nextTransactionId), now)]
    ensures s.Ok() ==> db.nextTransactionId == old(db.nextTransactionId) + 1
    ensures CustomerNamesUnique(old(db.customers)) ==> CustomerNamesUnique(db.customers)
  {
    var status := new StatusVar();
    var itemExists, err := ItemPostgres.IDExists(db, t.itemId, faults);
    if err {
      s := status.WithError(err, "error with item id", StatusInternalServerError);
      return 0, s;
    }
    if !itemExists {
      s := status.WithError(err, "item id does not exist", StatusNotFound);
      return 0, s;
    }
    var customerExists;
    customerExists, err := CustomerPostgres.IDExists(db, t.customerId, faults);
    if err {
      s := status.WithError(err, "error with customer id", StatusInternalServerError);
      return 0, s;
    }
    if !customerExists {
      s := status.WithError(err, "customer id does not exist", StatusNotFound);
      return 0, s;
    }
    var balance;
    balance, err := CustomerPostgres.GetBalance(db, t.customerId, faults);
    if err {
      s := status.WithError(err, "error with customer balance", StatusInternalServerError);
      return 0, s;
    }
    if balance < t.amount {
      s := status.WithError(err, "customer balance is not enough", StatusBadRequest);
      return 0, s;
    }
    id, err := TransactionPostgres.Create(db, t, now, faults);
    if err {
      s := status.WithError(err, "error with transaction creation", StatusInternalServerError);
      return 0, s;
    }
    s := status.Success("transaction succesfully created", StatusCreated);
  }

  /**
   * GetByID answers 404 only when the existence check fails with an error; a
   * clean "does not exist" falls through to the read, which then fails with
   * 500. Success is reported with 201.
   */
  method GetByID(db: Database, id: int, faults: set<Fault>) returns (t: Transaction, s: Status)
    ensures TxIDExists in faults ==>
      t == ZeroTransaction && s == ErrorStatus(true, "transaction does not exist", StatusNotFound)
    ensures TxIDExists !in faults && (TxGetByID in faults || !(id in db.transactions && TransactionLive(db.transactions[id]))) ==>
      t == ZeroTransaction && s == ErrorStatus(true, "couldn't get transaction", StatusInternalServerError)
    ensures s.Ok() <==> TxIDExists !in faults && TxGetByID !in faults && id in db.transactions && TransactionLive(db.transactions[id])
    ensures s.Ok() ==> t == db.transactions[id] && s == SuccessStatus("transaction retrieved", StatusCreated)
  {
    var status := new StatusVar();
    var exist, err := TransactionPostgres.IDExists(db, id, faults);
    if err {
      if !exist {
        s := status.WithError(err, "transaction does not exist", StatusNotFound);
        return ZeroTransaction, s;
      }
    }
    t, err := TransactionPostgres.GetByID(db, id, faults);
    if err {
      s := status.WithError(err, "couldn't get transaction", StatusInternalServerError);
      return t, s;
    }
    s := status.Success("transaction retrieved", StatusCreated);
  }

  /** GetAll passes limit and offset to the repository; a storage error is 500. */
  method GetAll(db: Database, limit: int, offset: int, faults: set<Fault>) returns (transactions: seq<Transaction>, s: Status)
    requires db.Valid()
    ensures TxGetAll in faults ==>
      transactions == [] && s == ErrorStatus(true, "couldn't get all transactions", StatusInternalServerError)
    ensures TxGetAll !in faults ==>
      && transactions == QueryHelper.Page(LiveRows(db.transactions, TransactionLive, db.nextTransactionId), limit, offset)
      && s == SuccessStatus("transactions retrieved", StatusOK)
  {
    var status := new StatusVar();
    var err;
    transactions, err := TransactionPostgres.GetAll(db, limit, offset, faults);
    if err {
      s := status.WithError(err, "couldn't get all transactions", StatusInternalServerError);
      return transactions, s;
    }
    s := status.Success("transactions retrieved", StatusOK);
  }

  /**
   * Update answers 404 only when the existence check fails with an error; a
   * transaction id with no row is not rejected. The balance guard compares the
   * customer's current balance with the new amount alone, not with the
   * balance plus the old amount.
   */
  method Update(db: Database, t: Transaction, now: Time, faults: set<Fault>) returns (r: Transaction, s: Status)
    requires db.Valid()
    modifies db`customers, db`transactions
    ensures db.Valid()
    ensures !s.Ok() ==> unchanged(db)
    ensures !s.Ok() ==> s.code in {StatusNotFound, StatusBadRequest, StatusInternalServerError}
    ensures TxIDExists in faults ==>
      r == t && s == ErrorStatus(true, "transaction does not exist", StatusNotFound)
    ensures TxIDExists !in faults && !BalanceReadable(old(db.customers), t.customerId, faults) ==>
      r == t && s == ErrorStatus(true, "error with customer balance", StatusInternalServerError)
    ensures TxIDExists !in faults && BalanceReadable(old(db.customers), t.customerId, faults)
            && old(db.customers)[t.customerId].balance < t.amount ==>
      r == t && s == ErrorStatus(false, "customer balance is not enough", StatusBadRequest)
    ensures TxIDExists !in faults && BalanceReadable(old(db.customers), t.customerId, faults)
            && old(db.customers)[t.customerId].balance >= t.amount && TransactionPostgres.UpdateFails(faults) ==>
      r == ZeroTransaction && s == ErrorStatus(true, "couldn't update transaction", StatusInternalServerError)
    ensures s.Ok() <==> TxIDExists !in faults && BalanceReadable(old(db.customers), t.customerId, faults)
                        && old(db.customers)[t.customerId].balance >= t.amount && !TransactionPostgres.UpdateFails(faults)
    ensures s.Ok() ==> r == t && s == SuccessStatus("transaction updated", StatusOK)
    ensures s.Ok() ==> db.customers == TransactionPostgres.Rebalanced(old(db.customers), old(db.transactions), t)
    ensures s.Ok() ==> db.transactions == TransactionPostgres.Rewritten(old(db.transactions), t, now)
    ensures CustomerNamesUnique(old(db.customers)) ==> CustomerNamesUnique(db.customers)
  {
    var status := new StatusVar();
    var exist, err := TransactionPostgres.IDExists(db, t.id, faults);
    if err {
      if !exist {
        s := status.WithError(err, "transaction does not exist", StatusNotFound);
        return t, s;
      }
    }
    var balance;
    balance, err := CustomerPostgres.GetBalance(db, t.customerId, faults);
    if err {
      s := status.WithError(err, "error with customer balance", StatusInternalServerError);
      return t, s;
    }
    if balance < t.amount {
      s := status.WithError(err, "customer balance is not enough", StatusBadRequest);
      return t, s;
    }
    r, err := TransactionPostgres.Update(db, t, now, faults);
    if err {
      s := status.WithError(err, "couldn't update transaction", StatusInternalServerError);
      return r, s;
    }
    s := status.Success("transaction updated", StatusOK);
  }

  /** Delete only delegates the soft-delete: no balance is restored. */
  method Delete(db: Database, id: int, now: Time, faults: set<Fault>) returns (s: Status)
    requires db.Valid()
    modifies db`transactions
    ensures db.Valid()
    ensures TxDelete in faults ==>
      s == ErrorStatus(true, "couldn't delete transaction", StatusInternalServerError) && unchanged(db)
    ensures TxDelete !in faults ==>
      s == SuccessStatus("transaction deleted", StatusOK)
      && db.transactions == TransactionPostgres.SoftDeleted(old(db.transactions), id, now)
  {
    var status := new StatusVar();
    var err := TransactionPostgres.Delete(db, id, now, faults);
    if err {
      s := status.WithError(err, "couldn't delete transaction", StatusInternalServerError);
      return s;
    }
    s := status.Success("transaction deleted", StatusOK);
  }

  /** GetAllTransactionViews passes limit and offset to the repository; a storage error is 500. */
  method GetAllTransactionViews(db: Database, limit: int, offset: int, faults: set<Fault>) returns (views: seq<TransactionView>, s: Status)
    requires db.Valid()
    ensures TxGetAllViews in faults ==>
      views == [] && s == ErrorStatus(true, "couldn't get all transactions", StatusInternalServerError)
    ensures TxGetAllViews !in faults ==>
      && views == QueryHelper.Page(TransactionPostgres.JoinedViews(db.transactions, db.customers, db.items, db.nextTransactionId), limit, offset)
      && s == SuccessStatus("transactions retrieved", StatusOK)
  {
    var status := new StatusVar();
    var err;
    views, err := TransactionPostgres.GetAllTransactionViews(db, limit, offset, faults);
    if err {
      s := status.WithError(err, "couldn't get all transactions", StatusInternalServerError);
      return views, s;
    }
    s := status.Success("transactions retrieved", StatusOK);
  }

  /** GetByTransactionID: the same 404 rule as GetByID; success is 200. */
  method GetByTransactionID(db: Database, id: int, faults: set<Fault>) returns (view: TransactionView, s: Status)
    ensures TxIDExists in faults ==>
      view == ZeroTransactionView && s == ErrorStatus(true, "transaction does not exist", StatusNotFound)
    ensures TxIDExists !in faults && (TxGetByTransactionID in faults || !TransactionPostgres.Joinable(db.transactions, db.customers, db.items, id)) ==>
      view == ZeroTransactionView && s == ErrorStatus(true, "couldn't get transaction", StatusInternalServerError)
    ensures s.Ok() <==> TxIDExists !in faults && TxGetByTransactionID !in faults
                        && TransactionPostgres.Joinable(db.transactions, db.customers, db.items, id)
    ensures s.Ok() ==> view == TransactionPostgres.JoinedAt(db.transactions, db.customers, db.items, id)
                       && s == SuccessStatus("transaction retrieved", StatusOK)
  {
    var status := new StatusVar();
    var exist, err := TransactionPostgres.IDExists(db, id, faults);
    if err {
      if !exist {
        s := status.WithError(err, "transaction does not exist", StatusNotFound);
        return ZeroTransactionView, s;
      }
    }
    view, err := TransactionPostgres.GetByTransactionID(db, id, faults);
    if err {
      s := status.WithError(err, "couldn't get transaction", StatusInternalServerError);
      return view, s;
    }
    s := status.Success("transaction retrieved", StatusOK);
  }

  /** A filter with no id and no names. */
  function EmptyFilter(filter: TransactionFilter): (empty: bool)
    ensures empty <==> filter == TransactionFilter(0, "", "")
  {
    filter.customerName == "" && filter.itemName == "" && filter.id == 0
  }

  /**
   * GetAllTransactionViewsByFilters rejects an empty filter with 400 before
   * any query runs. The repository's filtered query has no implementation in
   * the source; `found` stands for the rows it returns.
   */
  method GetAllTransactionViewsByFilters(filter: TransactionFilter, found: seq<TransactionView>, faults: set<Fault>)
    returns (views: seq<TransactionView>, s: Status)
    ensures EmptyFilter(filter) ==>
      views == [] && s == ErrorStatus(false, "filter is empty", StatusBadRequest)
    ensures !EmptyFilter(filter) && TxGetAllViewsByFilters in faults ==>
      views == [] && s == ErrorStatus(true, "couldn't get all transactions", StatusInternalServerError)
    ensures !EmptyFilter(filter) && TxGetAllViewsByFilters !in faults ==>
      views == found && s == SuccessStatus("transactions retrieved", StatusOK)
  {
    var status := new StatusVar();
    if filter.customerName == "" && filter.itemName == "" && filter.id == 0 {
      s := status.WithError(false, "filter is empty", StatusBadRequest);
      return [], s;
    }
    var err := TxGetAllViewsByFilters in faults;
    views := if err then [] else found;
    if err {
      s := status.WithError(err, "couldn't get all transactions", StatusInternalServerError);
      return views, s;
    }
    s := status.Success("transactions retrieved", StatusOK);
  }
}
