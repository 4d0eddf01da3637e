/**
 * The customer service (internal/service/customer.go): the name guard run
 * before a create or an update, and the Status each outcome maps to.
 */
module CustomerService {
  import opened Basics
  import opened Model
  import opened Tables
  import opened ServiceStatus
  import QueryHelper
  import CustomerPostgres

  /** Update's name check as the source writes it: the lookup must yield the customer's own id. */
  function NameCheckAsWritten(lookup: int, id: int): (admitted: bool)
    ensures lookup == 0 && id != 0 ==> !admitted
    ensures admitted ==> lookup == id
  {
    lookup == id
  }

  /**
   * The name check Update evidently intends, and the one the item service
   * writes: the lookup yields the customer's own id or no id at all.
   */
  predicate NameCheck(lookup: int, id: int)
  {
    lookup == id || lookup == 0
  }

  /**
   * As written, renaming an existing customer to a name no row holds is
   * rejected (the lookup yields 0, which is not the customer's id), although
   * the rename would keep names unique.
   */
  lemma AsWrittenRejectsFreshName(customers: map<int, Customer>, customer: Customer, now: Time)
    requires CustomerNamesUnique(customers)
    requires customer.id in customers && customer.id != 0
    requires CustomerNameHolders(customers, customer.name) == {}
    ensures !NameCheckAsWritten(0, customer.id)
    ensures CustomerNamesUnique(CustomerPostgres.Overwritten(customers, customer, now))
  {
    CustomerPostgres.OverwrittenKeepsNamesUnique(customers, customer, now);
  }

  /** The smallest instance: customer 1 "Alice" renamed to "Alicia". */
  lemma AsWrittenRejectsAliceRename()
    ensures var customers := map[1 := Customer(1, "Alice", 100.0, 0, 0, None)];
            var renamed := Customer(1, "Alicia", 100.0, 0, 0, None);
            && CustomerNameHolders(customers, renamed.name) == {}
            && !NameCheckAsWritten(0, renamed.id)
            && CustomerNamesUnique(CustomerPostgres.Overwritten(customers, renamed, 0))
  {
  }

  /**
   * Under unique names the intended check admits exactly the names that no
   * row other than the customer's own holds, whichever holder the lookup yields.
   */
  lemma NameCheckAdmitsFreeOrOwn(customers: map<int, Customer>, customer: Customer, lookup: int)
    requires CustomerNamesUnique(customers)
    requires lookup == 0 <==> CustomerNameHolders(customers, customer.name) == {}
    requires lookup != 0 ==> lookup in CustomerNameHolders(customers, customer.name)
    ensures NameCheck(lookup, customer.id) <==> CustomerNameHolders(customers, customer.name) <= {customer.id}
  {
    if lookup != 0 {
      CustomerHoldersAtMostOne(customers, customer.name, lookup);
    }
  }

  /**
   * The intended check admits an update of an existing customer exactly when
   * the overwrite keeps names unique, whichever holder the lookup yields.
   */
  lemma NameCheckKeepsNamesUnique(customers: map<int, Customer>, customer: Customer, lookup: int, now: Time)
    requires CustomerNamesUnique(customers)
    requires customer.id in customers
    requires lookup == 0 <==> CustomerNameHolders(customers, customer.name) == {}
    requires lookup != 0 ==> lookup in CustomerNameHolders(customers, customer.name)
    ensures NameCheck(lookup, customer.id) <==> CustomerNamesUnique(CustomerPostgres.Overwritten(customers, customer, now))
  {
    var holders := CustomerNameHolders(customers, customer.name);
    if NameCheck(lookup, customer.id) {
      if lookup != 0 {
        CustomerHoldersAtMostOne(customers, customer.name, lookup);
      }
      CustomerPostgres.OverwrittenKeepsNamesUnique(customers, customer, now);
    } else {
      var r := CustomerPostgres.Overwritten(customers, customer, now);
      assert lookup in holders;
      assert r[lookup].name == r[customer.id].name && lookup != customer.id;
    }
  }

  /**
   * Create rejects a name held by any row, deleted or not, then inserts.
   * A rejected or failed create writes nothing.
   */
  method Create(db: Database, customer: Customer, now: Time, faults: set<Fault>) returns (id: int, s: Status)
    requires db.Valid()
    modifies db`customers, db`nextCustomerId
    ensures db.Valid()
    ensures !s.Ok() ==> id == 0 && unchanged(db)
    ensures !s.Ok() ==> s.code in {StatusNotFound, StatusBadRequest, StatusInternalServerError}
    ensures CustomerIDByName in faults ==>
      s == ErrorStatus(true, "error with customer name", StatusInternalServerError)
    ensures CustomerIDByName !in faults && CustomerNameHolders(old(db.customers), customer.name) != {} ==>
      s == ErrorStatus(false, "customer name already exists", StatusBadRequest)
    ensures CustomerIDByName !in faults && CustomerNameHolders(old(db.customers), customer.name) == {} && CustomerInsert in faults ==>
      s == ErrorStatus(true, "error with customer creation", StatusInternalServerError)
    ensures s.Ok() <==> CustomerIDByName !in faults && CustomerNameHolders(old(db.customers), customer.name) == {}
                        && CustomerInsert !in faults
    ensures s.Ok() ==> s == SuccessStatus("customer succesfully created", StatusCreated)
    ensures s.Ok() ==> id == old(db.nextCustomerId) && id !in old(db.customers)
                       && db.customers == old(db.customers)[id := CustomerPostgres.Inserted(customer, id, now)]
    ensures s.Ok() ==> db.nextCustomerId == old(db.nextCustomerId) + 1
    ensures CustomerNamesUnique(old(db.customers)) ==> CustomerNamesUnique(db.customers)
  {
    var status := new StatusVar();
    var found, err := CustomerPostgres.IDByName(db, customer.name, faults);
    if err {
      s := status.WithError(err, "error with customer name", StatusInternalServerError);
      return 0, s;
    }
    if found != 0 {
      s := status.WithError(err, "customer name already exists", StatusBadRequest);
      return 0, s;
    }
    ghost var before := db.customers;
    id, err := CustomerPostgres.Create(db, customer, now, faults);
    if err {
      s := status.WithError(err, "error with customer creation", StatusInternalServerError);
      return 0, s;
    }
    if CustomerNamesUnique(before) {
      CustomerPostgres.InsertedKeepsNamesUnique(before, customer, id, now);
    }
    s := status.Success("customer succesfully created", StatusCreated);
  }

  /**
   * GetByID answers 404 only when the existence check fails with an error; a
   * missing or deleted customer otherwise reaches the read and is 500.
   * Success is reported with 201.
   */
  method GetByID(db: Database, id: int, faults: set<Fault>) returns (customer: Customer, s: Status)
    ensures CustomerIDExists in faults ==>
      customer == ZeroCustomer && s == ErrorStatus(true, "customer does not exist", StatusNotFound)
    ensures CustomerIDExists !in faults && (CustomerGetByID in faults || !(id in db.customers && CustomerLive(db.customers[id]))) ==>
      customer == ZeroCustomer && s == ErrorStatus(true, "couldn't get customer", StatusInternalServerError)
    ensures s.Ok() <==> CustomerIDExists !in faults && CustomerGetByID !in faults && id in db.customers && CustomerLive(db.customers[id])
    ensures s.Ok() ==> customer == db.customers[id] && s == SuccessStatus("customer retrieved", StatusCreated)
  {
    var status := new StatusVar();
    var exist, err := CustomerPostgres.IDExists(db, id, faults);
    if err {
      if !exist {
        s := status.WithError(err, "customer does not exist", StatusNotFound);
        return ZeroCustomer, s;
      }
    }
    customer, err := CustomerPostgres.GetByID(db, id, faults);
    if err {
      s := status.WithError(err, "couldn't get customer", StatusInternalServerError);
      return customer, s;
    }
    s := status.Success("customer retrieved", StatusCreated);
  }

  /** GetAll passes limit and offset to the repository; a storage error is 500. */
  method GetAll(db: Database, limit: int, offset: int, faults: set<Fault>) returns (customers: seq<Customer>, s: Status)
    requires db.Valid()
    ensures CustomerGetAll in faults ==>
      customers == [] && s == ErrorStatus(true, "couldn't get all customers", StatusInternalServerError)
    ensures CustomerGetAll !in faults ==>
      && customers == QueryHelper.Page(LiveRows(db.customers, CustomerLive, db.nextCustomerId), limit, offset)
      && s == SuccessStatus("customers retrieved", StatusOK)
  {
    var status := new StatusVar();
    var err;
    customers, err := CustomerPostgres.GetAll(db, limit, offset, faults);
    if err {
      s := status.WithError(err, "couldn't get all customers", StatusInternalServerError);
      return customers, s;
    }
    s := status.Success("customers retrieved", StatusOK);
  }

  /**
   * The name guard Update passes for certain under unique names: the name is
   * the customer's own, or no row holds it and the customer id is 0. Without
   * unique names it is still necessary for the update to proceed.
   */
  ghost predicate AdmitsAsWritten(customers: map<int, Customer>, customer: Customer)
  {
    var holders := CustomerNameHolders(customers, customer.name);
    customer.id in holders || (holders == {} && customer.id == 0)
  }

  /**
   * Update as the source writes it: 404 only on an erroring existence check,
   * then the name guard NameCheckAsWritten, then the overwrite.
   */
  method Update(db: Database, customer: Customer, now: Time, faults: set<Fault>) returns (r: Customer, s: Status)
    requires db.Valid()
    modifies db`customers
    ensures db.Valid()
    ensures !s.Ok() ==> unchanged(db)
    ensures !s.Ok() ==> s.code in {StatusNotFound, StatusBadRequest, StatusInternalServerError}
    ensures CustomerIDExists in faults ==>
      r == customer && s == ErrorStatus(true, "customer does not exist", StatusNotFound)
    ensures CustomerIDExists !in faults && CustomerIDByName in faults ==>
      r == customer && s == ErrorStatus(true, "couldn't get customer id", StatusInternalServerError)
    ensures CustomerIDExists !in faults && CustomerIDByName !in faults && !AdmitsAsWritten(old(db.customers), customer) ==>
      r == customer && s == ErrorStatus(false, "customer name already exists", StatusBadRequest)
    ensures CustomerIDExists !in faults && CustomerIDByName !in faults && CustomerNamesUnique(old(db.customers))
            && AdmitsAsWritten(old(db.customers), customer) && CustomerUpdate in faults ==>
      r == ZeroCustomer && s == ErrorStatus(true, "couldn't update customer", StatusInternalServerError)
    ensures CustomerIDExists !in faults && CustomerIDByName !in faults && CustomerNamesUnique(old(db.customers))
            && AdmitsAsWritten(old(db.customers), customer) && CustomerUpdate !in faults
            ==> s.Ok()
    ensures s.Ok() ==> CustomerIDExists !in faults && CustomerIDByName !in faults && CustomerUpdate !in faults
                       && AdmitsAsWritten(old(db.customers), customer)
    ensures s.Ok() ==> r == customer && s == SuccessStatus("customer updated", StatusOK)
                       && db.customers == CustomerPostgres.Overwritten(old(db.customers), customer, now)
    ensures CustomerNamesUnique(old(db.customers)) ==> CustomerNamesUnique(db.customers)
  {
    var status := new StatusVar();
    var exist, err := CustomerPostgres.IDExists(db, customer.id, faults);
    if err {
      if !exist {
        s := status.WithError(err, "customer does not exist", StatusNotFound);
        return customer, s;
      }
    }
    var found;
    found, err := CustomerPostgres.IDByName(db, customer.name, faults);
    if err {
      s := status.WithError(err, "couldn't get customer id", StatusInternalServerError);
      return customer, s;
    }
    if CustomerNamesUnique(db.customers) && customer.id in CustomerNameHolders(db.customers, customer.name) {
      CustomerHoldersAtMostOne(db.customers, customer.name, customer.id);
    }
    if !NameCheckAsWritten(found, customer.id) {
      s := status.WithError(err, "customer name already exists", StatusBadRequest);
      return customer, s;
    }
    ghost var before := db.customers;
    r, err := CustomerPostgres.Update(db, customer, now, faults);
    if err {
      s := status.WithError(err, "couldn't update customer", StatusInternalServerError);
      return r, s;
    }
    if CustomerNamesUnique(before) {
      if found != 0 {
        CustomerHoldersAtMostOne(before, customer.name, found);
      }
      CustomerPostgres.OverwrittenKeepsNamesUnique(before, customer, now);
    }
    s := status.Success("customer updated", StatusOK);
  }

  /**
   * The name guard the intended check passes for certain under unique names:
   * no row holds the name, or the customer holds it. Without unique names it
   * is still necessary for the update to proceed.
   */
  ghost predicate Admits(customers: map<int, Customer>, customer: Customer)
  {
    var holders := CustomerNameHolders(customers, customer.name);
    holders == {} || customer.id in holders
  }

  /**
   * Update with the intended name check NameCheck: a name no row holds, or
   * the customer's own name, proceeds; a name another row holds is 400.
   */
  method UpdateIntended(db: Database, customer: Customer, now: Time, faults: set<Fault>) returns (r: Customer, s: Status)
    requires db.Valid()
    modifies db`customers
    ensures db.Valid()
    ensures !s.Ok() ==> unchanged(db)
    ensures !s.Ok() ==> s.code in {StatusNotFound, StatusBadRequest, StatusInternalServerError}
    ensures CustomerIDExists in faults ==>
      r == customer && s == ErrorStatus(true, "customer does not exist", StatusNotFound)
    ensures CustomerIDExists !in faults && CustomerIDByName in faults ==>
      r == customer && s == ErrorStatus(true, "couldn't get customer id", StatusInternalServerError)
    ensures CustomerIDExists !in faults && CustomerIDByName !in faults && !Admits(old(db.customers), customer) ==>
      r == customer && s == ErrorStatus(false, "customer name already exists", StatusBadRequest)
    ensures CustomerIDExists !in faults && CustomerIDByName !in faults && CustomerNamesUnique(old(db.customers))
            && Admits(old(db.customers), customer) && CustomerUpdate in faults ==>
      r == ZeroCustomer && s == ErrorStatus(true, "couldn't update customer", StatusInternalServerError)
    ensures CustomerIDExists !in faults && CustomerIDByName !in faults && CustomerNamesUnique(old(db.customers))
            && Admits(old(db.customers), customer) && CustomerUpdate !in faults
            ==> s.Ok()
    ensures s.Ok() ==> CustomerIDExists !in faults && CustomerIDByName !in faults && CustomerUpdate !in faults
                       && Admits(old(db.customers), customer)
    ensures s.Ok() ==> r == customer && s == SuccessStatus("customer updated", StatusOK)
                       && db.customers == CustomerPostgres.Overwritten(old(db.customers), customer, now)
    ensures CustomerNamesUnique(old(db.customers)) ==> CustomerNamesUnique(db.customers)
  {
    var status := new StatusVar();
    var exist, err := CustomerPostgres.IDExists(db, customer.id, faults);
    if err {
      if !exist {
        s := status.WithError(err, "customer does not exist", StatusNotFound);
        return customer, s;
      }
    }
    var found;
    found, err := CustomerPostgres.IDByName(db, customer.name, faults);
    if err {
      s := status.WithError(err, "couldn't get customer id", StatusInternalServerError);
      return customer, s;
    }
    if CustomerNamesUnique(db.customers) && customer.id in CustomerNameHolders(db.customers, customer.name) {
      CustomerHoldersAtMostOne(db.customers, customer.name, customer.id);
    }
    if !NameCheck(found, customer.id) {
      s := status.WithError(err, "customer name already exists", StatusBadRequest);
      return customer, s;
    }
    ghost var before := db.customers;
    r, err := CustomerPostgres.Update(db, customer, now, faults);
    if err {
      s := status.WithError(err, "couldn't update customer", StatusInternalServerError);
      return r, s;
    }
    if CustomerNamesUnique(before) {
      if found != 0 {
        CustomerHoldersAtMostOne(before, customer.name, found);
      }
      CustomerPostgres.OverwrittenKeepsNamesUnique(before, customer, now);
    }
    s := status.Success("customer updated", StatusOK);
  }

  /** Delete only delegates the soft-delete. */
  method Delete(db: Database, id: int, now: Time, faults: set<Fault>) returns (s: Status)
    requires db.Valid()
    modifies db`customers
    ensures db.Valid()
    ensures CustomerDelete in faults ==>
      s == ErrorStatus(true, "couldn't delete customer", StatusInternalServerError) && unchanged(db)
    ensures CustomerDelete !in faults ==>
      s == SuccessStatus("customer deleted", StatusOK)
      && db.customers == CustomerPostgres.SoftDeleted(old(db.customers), id, now)
    ensures CustomerNamesUnique(old(db.customers)) ==> CustomerNamesUnique(db.customers)
  {
    var status := new StatusVar();
    ghost var before := db.customers;
    var err := CustomerPostgres.Delete(db, id, now, faults);
    if err {
      s := status.WithError(err, "couldn't delete customer", StatusInternalServerError);
      return s;
    }
    if CustomerNamesUnique(before) {
      CustomerPostgres.SoftDeletedKeepsNamesUnique(before, id, now);
    }
    s := status.Success("customer deleted", StatusOK);
  }
}
