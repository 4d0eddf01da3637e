/**
 * The customer request of the HTTP layer (internal/delivery/http/v1/customer.go):
 * its conversion to a customer record, its validation, and the two handlers
 * that pass it to the customer service.
 */
module CustomerRoutes {
  import opened Basics
  import opened Model
  import opened Tables
  import opened ServiceStatus
  import CustomerPostgres
  import CustomerService

  /** The JSON body of a create or an update. */
  datatype CustomerRequest = CustomerRequest(name: string, balance: Money)

  /** What a handler writes back: an error message, a created id or a customer. */
  datatype Reply = Failure(error: string) | Created(id: int) | Body(customer: Customer)

  /** The customer a request describes: id 0, zero timestamps, not deleted. */
  function ToModel(request: CustomerRequest): (c: Customer)
    ensures FromModel(c) == request
    ensures c.id == 0 && CustomerLive(c) && c.createdAt == 0 && c.updatedAt == 0
  {
    Customer(0, request.name, request.balance, 0, 0, None)
  }

  /** The request fields a customer record carries. */
  function FromModel(c: Customer): CustomerRequest
  {
    CustomerRequest(c.name, c.balance)
  }

  /** A record that ToModel could have produced is recovered from its request. */
  lemma ToModelFromModel(c: Customer)
    requires c.id == 0 && CustomerLive(c) && c.createdAt == 0 && c.updatedAt == 0
    ensures ToModel(FromModel(c)) == c
  {
  }

  const NameFragment := " name is invalid or shorter than 5,"
  const BalanceFragment := " balance is invalid or equal or less than zero"

  /** The name check; the source measures the length in bytes, here in characters. */
  predicate NameValid(name: string)
  {
    !(name == "" || |name| < 5)
  }

  predicate BalanceValid(balance: Money)
  {
    !(balance <= 0.0)
  }

  /** Every check passes. */
  predicate RequestValid(request: CustomerRequest)
  {
    |request.name| >= 5 && request.balance > 0.0
  }

  /** The message fragments of the failing checks, in field order. */
  function Failures(request: CustomerRequest): seq<string>
  {
    (if NameValid(request.name) then [] else [NameFragment])
    + (if BalanceValid(request.balance) then [] else [BalanceFragment])
  }

  /** A request is let through exactly when every check passes. */
  lemma FailuresEmpty(request: CustomerRequest)
    ensures Failures(request) == [] <==> RequestValid(request)
  {
  }

  /**
   * Validate appends the fragment of each failing check to the message and
   * fails when the message is not empty.
   */
  method Validate(request: CustomerRequest) returns (err: Option<string>)
    ensures err.None? <==> RequestValid(request)
    ensures err.Some? ==> err.value == Concat(Failures(request))
    ensures !NameValid(request.name) && !BalanceValid(request.balance) ==>
      err == Some(NameFragment + BalanceFragment)
  {
    var msg := "";
    ghost var parts: seq<string> := [];
    if request.name == "" || |request.name| < 5 {
      ConcatAppend(parts, NameFragment);
      msg, parts := msg + NameFragment, parts + [NameFragment];
    }
    if request.balance <= 0.0 {
      ConcatAppend(parts, BalanceFragment);
      msg, parts := msg + BalanceFragment, parts + [BalanceFragment];
    }
    assert parts == Failures(request);
    if !NameValid(request.name) && !BalanceValid(request.balance) {
      assert parts[1..] == [BalanceFragment] && parts[1..][1..] == [];
      assert Concat(parts) == NameFragment + BalanceFragment;
    }
    ConcatEmpty(parts);
    if |msg| > 0 {
      err := Some(msg);
    } else {
      err := None;
    }
  }

  /**
   * Create rejects an invalid request with 400 before the service runs;
   * otherwise the service's status code and message, or the created id, are
   * written back.
   */
  method Create(db: Database, request: CustomerRequest, now: Time, faults: set<Fault>) returns (code: int, reply: Reply)
    requires db.Valid()
    modifies db`customers, db`nextCustomerId
    ensures db.Valid()
    ensures !RequestValid(request) ==>
      code == StatusBadRequest && reply == Failure(Concat(Failures(request))) && unchanged(db)
    ensures RequestValid(request) ==>
      (code == StatusCreated <==> CustomerIDByName !in faults && CustomerInsert !in faults
                                  && CustomerNameHolders(old(db.customers), request.name) == {})
    ensures code == StatusCreated ==>
      && reply == Created(old(db.nextCustomerId))
      && db.customers == old(db.customers)[old(db.nextCustomerId) :=
           CustomerPostgres.Inserted(ToModel(request), old(db.nextCustomerId), now)]
    ensures code != StatusCreated ==> reply.Failure? && unchanged(db)
    ensures CustomerNamesUnique(old(db.customers)) ==> CustomerNamesUnique(db.customers)
  {
    var err := Validate(request);
    if err.Some? {
      return StatusBadRequest, Failure(err.value);
    }
    var customer := ToModel(request);
    var id, status := CustomerService.Create(db, customer, now, faults);
    if !status.Ok() {
      return status.code, Failure(status.msg);
    }
    return status.code, Created(id);
  }

  /**
   * Update converts the request without validating it, takes the id from the
   * path, and writes back the service's outcome. It uses the service's
   * corrected name check.
   */
  method Update(db: Database, request: CustomerRequest, id: int, now: Time, faults: set<Fault>) returns (code: int, reply: Reply)
    requires db.Valid()
    modifies db`customers
    ensures db.Valid()
    ensures code == StatusOK ==>
      && reply == Body(ToModel(request).(id := id))
      && db.customers == CustomerPostgres.Overwritten(old(db.customers), ToModel(request).(id := id), now)
    ensures code != StatusOK ==> reply.Failure? && unchanged(db)
    ensures CustomerIDExists !in faults && CustomerIDByName !in faults && CustomerUpdate !in faults
            && CustomerNamesUnique(old(db.customers))
            && CustomerService.Admits(old(db.customers), ToModel(request).(id := id))
            ==> code == StatusOK
    ensures CustomerNamesUnique(old(db.customers)) ==> CustomerNamesUnique(db.customers)
  {
    var customer := ToModel(request).(id := id);
    var result, status := CustomerService.UpdateIntended(db, customer, now, faults);
    if !status.Ok() {
      return status.code, Failure(status.msg);
    }
    return status.code, Body(result);
  }

  /**
   * The update handler as the program runs it: the same steps as Update, but
   * through the service's update as written, so that a rename of an existing
   * customer to a name no row holds answers 400.
   */
  method UpdateAsWritten(db: Database, request: CustomerRequest, id: int, now: Time, faults: set<Fault>) returns (code: int, reply: Reply)
    requires db.Valid()
    modifies db`customers
    ensures db.Valid()
    ensures code == StatusOK ==>
      && reply == Body(ToModel(request).(id := id))
      && db.customers == CustomerPostgres.Overwritten(old(db.customers), ToModel(request).(id := id), now)
    ensures code != StatusOK ==> reply.Failure? && unchanged(db)
    ensures CustomerIDExists !in faults && CustomerIDByName !in faults
            && !CustomerService.AdmitsAsWritten(old(db.customers), ToModel(request).(id := id))
            ==> code == StatusBadRequest && reply == Failure("customer name already exists")
    ensures CustomerIDExists !in faults && CustomerIDByName !in faults && CustomerUpdate !in faults
            && CustomerNamesUnique(old(db.customers))
            && CustomerService.AdmitsAsWritten(old(db.customers), ToModel(request).(id := id))
            ==> code == StatusOK
    ensures CustomerNamesUnique(old(db.customers)) ==> CustomerNamesUnique(db.customers)
  {
    var customer := ToModel(request).(id := id);
    var result, status := CustomerService.Update(db, customer, now, faults);
    if !status.Ok() {
      return status.code, Failure(status.msg);
    }
    return status.code, Body(result);
  }
}
