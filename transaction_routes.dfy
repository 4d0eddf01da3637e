/**
 * The transaction request of the HTTP layer
 * (internal/delivery/http/v1/transaction.go): its conversion to a transaction
 * record, its validation, and the two handlers, which pass the converted
 * request to the transaction service without validating it.
 */
module TransactionRoutes {
  import opened Basics
  import opened Model
  import opened Tables
  import opened ServiceStatus
  import TransactionPostgres
  import TransactionService

  /** The JSON body of a create or an update. */
  datatype TransactionRequest = TransactionRequest(customerId: int, itemId: int, qty: int, price: Money)

  /** What a handler writes back: an error message, a created id or a transaction. */
  datatype Reply = Failure(error: string) | Created(id: int) | Body(transaction: Transaction)

  /** The transaction a request describes: its amount is price times quantity. */
  function ToModel(request: TransactionRequest): (t: Transaction)
    ensures AmountConsistent(t)
    ensures FromModel(t) == request
    ensures t.id == 0 && TransactionLive(t) && t.createdAt == 0 && t.updatedAt == 0
  {
    Transaction(0, request.customerId, request.itemId, request.qty, request.price,
                request.price * request.qty as real, 0, 0, None)
  }

  /** The request fields a transaction record carries. */
  function FromModel(t: Transaction): TransactionRequest
  {
    TransactionRequest(t.customerId, t.itemId, t.qty, t.price)
  }

  /** A record with a consistent amount that ToModel could have produced is recovered from its request. */
  lemma ToModelFromModel(t: Transaction)
    requires t.id == 0 && TransactionLive(t) && t.createdAt == 0 && t.updatedAt == 0
    requires AmountConsistent(t)
    ensures ToModel(FromModel(t)) == t
  {
  }

  const CustomerFragment := " customer id is invalid,"
  const ItemFragment := " item id is invalid,"
  const QtyFragment := " qty is invalid,"
  const PriceFragment := " price is invalid or under zero,"

  /** Every check passes. */
  predicate RequestValid(request: TransactionRequest)
  {
    request.customerId >= 1 && request.itemId >= 1 && request.qty >= 1 && request.price > 0.0
  }

  /** The message fragments of the failing checks, in field order. */
  function Failures(request: TransactionRequest): seq<string>
  {
    (if request.customerId < 1 then [CustomerFragment] else [])
    + (if request.itemId < 1 then [ItemFragment] else [])
    + (if request.qty < 1 then [QtyFragment] else [])
    + (if request.price <= 0.0 then [PriceFragment] else [])
  }

  /** A request is let through exactly when every check passes. */
  lemma FailuresEmpty(request: TransactionRequest)
    ensures Failures(request) == [] <==> RequestValid(request)
  {
  }

  /**
   * Validate appends the fragment of each failing check to the message and
   * fails when the message is not empty. No handler calls it.
   */
  method Validate(request: TransactionRequest) returns (err: Option<string>)
    ensures err.None? <==> RequestValid(request)
    ensures err.Some? ==> err.value == Concat(Failures(request))
  {
    var msg := "";
    ghost var parts: seq<string> := [];
    if request.customerId < 1 {
      ConcatAppend(parts, CustomerFragment);
      msg, parts := msg + CustomerFragment, parts + [CustomerFragment];
    }
    if request.itemId < 1 {
      ConcatAppend(parts, ItemFragment);
      msg, parts := msg + ItemFragment, parts + [ItemFragment];
    }
    if request.qty < 1 {
      ConcatAppend(parts, QtyFragment);
      msg, parts := msg + QtyFragment, parts + [QtyFragment];
    }
    if request.price <= 0.0 {
      ConcatAppend(parts, PriceFragment);
      msg, parts := msg + PriceFragment, parts + [PriceFragment];
    }
    assert parts == Failures(request);
    ConcatEmpty(parts);
    if |msg| != 0 {
      err := Some(msg);
    } else {
      err := None;
    }
  }

  /**
   * Because no handler validates, a request with a negative quantity and a
   * positive price reaches the ledger with a negative amount, and a
   * successful create then raises the customer's balance.
   */
  lemma NegativeQuantityCredits(request: TransactionRequest, customers: map<int, Customer>)
    requires request.qty < 0 && request.price > 0.0
    requires request.customerId in customers
    ensures QtyFragment in Failures(request)
    ensures ToModel(request).amount < 0.0
    ensures AdjustBalance(customers, request.customerId, -ToModel(request).amount)[request.customerId].balance
            > customers[request.customerId].balance
  {
    assert request.price * request.qty as real < 0.0 by {
      assert request.qty as real < 0.0;
    }
  }

  /**
   * Create converts the request without validating it and writes back the
   * service's code with its message, or with the id the service returns.
   */
  method Create(db: Database, request: TransactionRequest, now: Time, faults: set<Fault>) returns (code: int, reply: Reply)
    requires db.Valid()
    modifies db`customers, db`transactions, db`nextTransactionId
    ensures db.Valid()
    ensures code == StatusCreated <==>
      TransactionService.Affordable(old(db.items), old(db.customers), ToModel(request), faults)
      && !TransactionPostgres.CreateFails(faults)
    ensures code == StatusCreated ==>
      && reply == Created(0)
      && db.customers == AdjustBalance(old(db.customers), request.customerId, -ToModel(request).amount)
      && db.transactions == old(db.transactions)[old(db.nextTransactionId) :=
           TransactionPostgres.Inserted(ToModel(request), old(db.nextTransactionId), now)]
    ensures code != StatusCreated ==> reply.Failure? && unchanged(db)
  {
    var id, status := TransactionService.Create(db, ToModel(request), now, faults);
    if !status.Ok() {
      return status.code, Failure(status.msg);
    }
    return status.code, Created(id);
  }

  /**
   * Update converts the request without validating it, takes the id from the
   * path, and writes back the service's outcome.
   */
  method Update(db: Database, request: TransactionRequest, id: int, now: Time, faults: set<Fault>) returns (code: int, reply: Reply)
    requires db.Valid()
    modifies db`customers, db`transactions
    ensures db.Valid()
    ensures code == StatusOK <==>
      && TxIDExists !in faults
      && TransactionService.BalanceReadable(old(db.customers), request.customerId, faults)
      && old(db.customers)[request.customerId].balance >= request.price * request.qty as real
      && !TransactionPostgres.UpdateFails(faults)
    ensures code == StatusOK ==>
      && reply == Body(ToModel(request).(id := id))
      && db.customers == TransactionPostgres.Rebalanced(old(db.customers), old(db.transactions), ToModel(request).(id := id))
      && db.transactions == TransactionPostgres.Rewritten(old(db.transactions), ToModel(request).(id := id), now)
    ensures code != StatusOK ==> reply.Failure? && unchanged(db)
  {
    var transaction := ToModel(request).(id := id);
    var result, status := TransactionService.Update(db, transaction, now, faults);
    if !status.Ok() {
      return status.code, Failure(status.msg);
    }
    return status.code, Body(result);
  }
}
