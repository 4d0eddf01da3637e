/**
 * The customer repository (internal/service/repo/postgresSQL/customer.go):
 * each SQL statement as its effect on the customer table.
 */
module CustomerPostgres {
  import opened Basics
  import opened Model
  import opened Tables
  import opened QueryHelper

  /**
   * The row `INSERT INTO customer (customer_name, balance)` creates; the
   * timestamps and the soft-delete marker take their column defaults, taken
   * here to be now() and null.
   */
  function Inserted(customer: Customer, id: int, now: Time): (c: Customer)
    ensures c.id == id && c.name == customer.name && c.balance == customer.balance
    ensures c.createdAt == now && c.updatedAt == now && CustomerLive(c)
  {
    Customer(id, customer.name, customer.balance, now, now, None)
  }

  /** `UPDATE customer SET customer_name, balance, updated_at = now() WHERE id`. */
  function Overwritten(customers: map<int, Customer>, customer: Customer, now: Time): (r: map<int, Customer>)
    ensures r.Keys == customers.Keys
    ensures forall k :: k in customers && k != customer.id ==> r[k] == customers[k]
    ensures customer.id in customers ==>
      var old_ := customers[customer.id];
      r[customer.id] == old_.(name := customer.name, balance := customer.balance, updatedAt := now)
  {
    if customer.id in customers
    then customers[customer.id := customers[customer.id].(name := customer.name, balance := customer.balance, updatedAt := now)]
    else customers
  }

  /** `UPDATE customer SET deleted_at = now() WHERE id`. */
  function SoftDeleted(customers: map<int, Customer>, id: int, now: Time): (r: map<int, Customer>)
    ensures r.Keys == customers.Keys
    ensures forall k :: k in customers && k != id ==> r[k] == customers[k]
    ensures id in customers ==> r[id] == customers[id].(deletedAt := Some(now))
  {
    if id in customers then customers[id := customers[id].(deletedAt := Some(now))] else customers
  }

  /** Inserting a row under a name no row holds keeps names unique. */
  lemma InsertedKeepsNamesUnique(customers: map<int, Customer>, customer: Customer, id: int, now: Time)
    requires CustomerNamesUnique(customers)
    requires id !in customers
    requires CustomerNameHolders(customers, customer.name) == {}
    ensures CustomerNamesUnique(customers[id := Inserted(customer, id, now)])
  {
    assert forall k :: k in customers ==> k !in CustomerNameHolders(customers, customer.name);
  }

  /** Overwriting a row with a name held by no other row keeps names unique. */
  lemma OverwrittenKeepsNamesUnique(customers: map<int, Customer>, customer: Customer, now: Time)
    requires CustomerNamesUnique(customers)
    requires CustomerNameHolders(customers, customer.name) <= {customer.id}
    ensures CustomerNamesUnique(Overwritten(customers, customer, now))
  {
    assert forall k :: k in customers && k != customer.id ==> k !in CustomerNameHolders(customers, customer.name);
  }

  /**
   * The converse: if a row with the customer's id exists and the overwrite
   * leaves names unique, no other row held the new name.
   */
  lemma OverwrittenUniqueOnlyIfFree(customers: map<int, Customer>, customer: Customer, now: Time)
    requires customer.id in customers
    requires CustomerNamesUnique(Overwritten(customers, customer, now))
    ensures CustomerNameHolders(customers, customer.name) <= {customer.id}
  {
  }

  /** A soft delete changes no name. */
  lemma SoftDeletedKeepsNamesUnique(customers: map<int, Customer>, id: int, now: Time)
    requires CustomerNamesUnique(customers)
    ensures CustomerNamesUnique(SoftDeleted(customers, id, now))
  {
  }

  /** Create inserts the name and balance and returns the generated id. */
  method Create(db: Database, customer: Customer, now: Time, faults: set<Fault>) returns (id: int, err: bool)
    requires db.Valid()
    modifies db`customers, db`nextCustomerId
    ensures db.Valid()
    ensures err <==> CustomerInsert in faults
    ensures err ==> id == 0 && unchanged(db)
    ensures !err ==> id == old(db.nextCustomerId) && id >= 1 && id !in old(db.customers)
    ensures !err ==> db.customers == old(db.customers)[id := Inserted(customer, id, now)]
    ensures !err ==> db.nextCustomerId == id + 1
  {
    if CustomerInsert in faults {
      return 0, true;
    }
    id := db.nextCustomerId;
    db.customers := db.customers[id := Inserted(customer, id, now)];
    db.nextCustomerId := id + 1;
    err := false;
  }

  /** IDExists is true only for a row with that id that is not soft-deleted. */
  method IDExists(db: Database, id: int, faults: set<Fault>) returns (exists_: bool, err: bool)
    ensures err <==> CustomerIDExists in faults
    ensures err ==> !exists_
    ensures !err ==> (exists_ <==> id in db.customers && CustomerLive(db.customers[id]))
  {
    if CustomerIDExists in faults {
      return false, true;
    }
    exists_ := id in db.customers && CustomerLive(db.customers[id]);
    err := false;
  }

  /**
   * IDByName returns the id of a row with the name, deleted or not, and 0 with
   * no error when there is none. QueryRow takes the first row the query
   * yields, so among several rows with the name any may be returned.
   */
  method IDByName(db: Database, name: string, faults: set<Fault>) returns (id: int, err: bool)
    requires db.Valid()
    ensures err <==> CustomerIDByName in faults
    ensures err ==> id == 0
    ensures !err ==> (id == 0 <==> CustomerNameHolders(db.customers, name) == {})
    ensures !err && id != 0 ==> id in CustomerNameHolders(db.customers, name)
  {
    if CustomerIDByName in faults {
      return 0, true;
    }
    if exists k :: k in db.customers && db.customers[k].name == name {
      id :| id in db.customers && db.customers[id].name == name;
      assert id in CustomerNameHolders(db.customers, name);
    } else {
      id := 0;
      assert forall k :: k !in CustomerNameHolders(db.customers, name);
    }
    err := false;
  }

  /** GetBalance reads only live customers; a missing or deleted one is an error (no rows). */
  method GetBalance(db: Database, id: int, faults: set<Fault>) returns (balance: Money, err: bool)
    ensures err <==> CustomerGetBalance in faults || !(id in db.customers && CustomerLive(db.customers[id]))
    ensures err ==> balance == 0.0
    ensures !err ==> balance == db.customers[id].balance
  {
    if CustomerGetBalance in faults || !(id in db.customers && CustomerLive(db.customers[id])) {
      return 0.0, true;
    }
    balance := db.customers[id].balance;
    err := false;
  }

  /** GetByID returns a live customer; a missing or deleted one is an error (no rows). */
  method GetByID(db: Database, id: int, faults: set<Fault>) returns (customer: Customer, err: bool)
    ensures err <==> CustomerGetByID in faults || !(id in db.customers && CustomerLive(db.customers[id]))
    ensures err ==> customer == ZeroCustomer
    ensures !err ==> customer == db.customers[id]
  {
    if CustomerGetByID in faults || !(id in db.customers && CustomerLive(db.customers[id])) {
      return ZeroCustomer, true;
    }
    customer := db.customers[id];
    err := false;
  }

  /**
   * GetAll returns the live customers, in insertion order, restricted by the
   * LIMIT/OFFSET tail.
   */
  method GetAll(db: Database, limit: int, offset: int, faults: set<Fault>) returns (customers: seq<Customer>, err: bool)
    requires db.Valid()
    ensures err <==> CustomerGetAll in faults
    ensures err ==> customers == []
    ensures !err ==> customers == Page(LiveRows(db.customers, CustomerLive, db.nextCustomerId), limit, offset)
    ensures forall c :: c in customers ==> c.id in db.customers && db.customers[c.id] == c && CustomerLive(c)
  {
    if CustomerGetAll in faults {
      return [], true;
    }
    // SELECT ... FROM customer WHERE deleted_at IS NULL + getLimitAndOffset(limit, offset)
    var clause := LimitAndOffset(limit, offset);
    var rows := Scan(db.customers, CustomerLive, db.nextCustomerId);
    customers := Paged(rows, clause);
    err := false;
    PagedByHelper(rows, limit, offset);
    forall c | c in customers
      ensures c.id in db.customers && db.customers[c.id] == c && CustomerLive(c)
    {
      LiveRowsMembership(db.customers, CustomerLive, db.nextCustomerId, c);
    }
  }

  /** Update overwrites name and balance only, and returns its input. */
  method Update(db: Database, customer: Customer, now: Time, faults: set<Fault>) returns (r: Customer, err: bool)
    requires db.Valid()
    modifies db`customers
    ensures db.Valid()
    ensures err <==> CustomerUpdate in faults
    ensures err ==> r == ZeroCustomer && unchanged(db)
    ensures !err ==> r == customer && db.customers == Overwritten(old(db.customers), customer, now)
  {
    if CustomerUpdate in faults {
      return ZeroCustomer, true;
    }
    db.customers := Overwritten(db.customers, customer, now);
    r, err := customer, false;
  }

  /** Delete sets the soft-delete marker and nothing else. */
  method Delete(db: Database, id: int, now: Time, faults: set<Fault>) returns (err: bool)
    requires db.Valid()
    modifies db`customers
    ensures db.Valid()
    ensures err <==> CustomerDelete in faults
    ensures err ==> unchanged(db)
    ensures !err ==> db.customers == SoftDeleted(old(db.customers), id, now)
  {
    if CustomerDelete in faults {
      return true;
    }
    db.customers := SoftDeleted(db.customers, id, now);
    err := false;
  }
}
