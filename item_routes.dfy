/**
 * The item request of the HTTP layer (internal/delivery/http/v1/item.go):
 * its conversion to an item record, its validation, and the two handlers
 * that pass it to the item service.
 */
module ItemRoutes {
  import opened Basics
  import opened Model
  import opened Tables
  import opened ServiceStatus
  import ItemPostgres
  import ItemService

  /** The JSON body of a create or an update. */
  datatype ItemRequest = ItemRequest(itemName: string, cost: Money, price: Money, sort: int)

  /** What a handler writes back: an error message, a created id or an item. */
  datatype Reply = Failure(error: string) | Created(id: int) | Body(item: Item)

  /** The item a request describes: id 0, zero timestamps, not deleted. */
  function ToModel(request: ItemRequest): (i: Item)
    ensures FromModel(i) == request
    ensures i.id == 0 && ItemLive(i) && i.createdAt == 0 && i.updatedAt == 0
  {
    Item(0, request.itemName, request.cost, request.price, request.sort, 0, 0, None)
  }

  /** The request fields an item record carries. */
  function FromModel(i: Item): ItemRequest
  {
    ItemRequest(i.itemName, i.cost, i.price, i.sort)
  }

  /** A record that ToModel could have produced is recovered from its request. */
  lemma ToModelFromModel(i: Item)
    requires i.id == 0 && ItemLive(i) && i.createdAt == 0 && i.updatedAt == 0
    ensures ToModel(FromModel(i)) == i
  {
  }

  const NameFragment := " item name is invalid or shorter than 3,"
  const CostFragment := " cost is invalid or under zero,"
  const PriceFragment := " price is invalid or under zero,"
  const SortFragment := " sort is invalid or under zero,"

  /** The name check; the source measures the length in bytes, here in characters. */
  predicate NameValid(name: string)
  {
    !(name == "" || |name| < 3)
  }

  /** Every check passes. */
  predicate RequestValid(request: ItemRequest)
  {
    |request.itemName| >= 3 && request.cost > 0.0 && request.price > 0.0 && request.sort > 0
  }

  /** The message fragments of the failing checks, in field order. */
  function Failures(request: ItemRequest): seq<string>
  {
    (if NameValid(request.itemName) then [] else [NameFragment])
    + (if request.cost <= 0.0 then [CostFragment] else [])
    + (if request.price <= 0.0 then [PriceFragment] else [])
    + (if request.sort <= 0 then [SortFragment] else [])
  }

  /** A request is let through exactly when every check passes. */
  lemma FailuresEmpty(request: ItemRequest)
    ensures Failures(request) == [] <==> RequestValid(request)
  {
  }

  /**
   * Validate appends the fragment of each failing check to the message and
   * fails when the message is not empty.
   */
  method Validate(request: ItemRequest) returns (err: Option<string>)
    ensures err.None? <==> RequestValid(request)
    ensures err.Some? ==> err.value == Concat(Failures(request))
  {
    var msg := "";
    ghost var parts: seq<string> := [];
    if request.itemName == "" || |request.itemName| < 3 {
      ConcatAppend(parts, NameFragment);
      msg, parts := msg + NameFragment, parts + [NameFragment];
    }
    if request.cost <= 0.0 {
      ConcatAppend(parts, CostFragment);
      msg, parts := msg + CostFragment, parts + [CostFragment];
    }
    if request.price <= 0.0 {
      ConcatAppend(parts, PriceFragment);
      msg, parts := msg + PriceFragment, parts + [PriceFragment];
    }
    if request.sort <= 0 {
      ConcatAppend(parts, SortFragment);
      msg, parts := msg + SortFragment, parts + [SortFragment];
    }
    assert parts == Failures(request);
    ConcatEmpty(parts);
    if |msg| != 0 {
      err := Some(msg);
    } else {
      err := None;
    }
  }

  /**
   * Create rejects an invalid request with 400 before the service runs;
   * otherwise the service's status code and message, or the created id, are
   * written back.
   */
  method Create(db: Database, request: ItemRequest, now: Time, faults: set<Fault>) returns (code: int, reply: Reply)
    requires db.Valid()
    modifies db`items, db`nextItemId
    ensures db.Valid()
    ensures !RequestValid(request) ==>
      code == StatusBadRequest && reply == Failure(Concat(Failures(request))) && unchanged(db)
    ensures RequestValid(request) ==>
      (code == StatusCreated <==> ItemIDByName !in faults && ItemInsert !in faults
                                  && ItemNameHolders(old(db.items), request.itemName) == {})
    ensures code == StatusCreated ==>
      && reply == Created(old(db.nextItemId))
      && db.items == old(db.items)[old(db.nextItemId) :=
           ItemPostgres.Inserted(ToModel(request), old(db.nextItemId), now)]
    ensures code != StatusCreated ==> reply.Failure? && unchanged(db)
    ensures ItemNamesUnique(old(db.items)) ==> ItemNamesUnique(db.items)
  {
    var err := Validate(request);
    if err.Some? {
      return StatusBadRequest, Failure(err.value);
    }
    var item := ToModel(request);
    var id, status := ItemService.Create(db, item, now, faults);
    if !status.Ok() {
      return status.code, Failure(status.msg);
    }
    return status.code, Created(id);
  }

  /**
   * Update converts the request without validating it, takes the id from the
   * path, and writes back the service's outcome.
   */
  method Update(db: Database, request: ItemRequest, id: int, now: Time, faults: set<Fault>) returns (code: int, reply: Reply)
    requires db.Valid()
    modifies db`items
    ensures db.Valid()
    ensures code == StatusOK ==>
      && reply == Body(ToModel(request).(id := id))
      && db.items == ItemPostgres.Overwritten(old(db.items), ToModel(request).(id := id), now)
    ensures code != StatusOK ==> reply.Failure? && unchanged(db)
    ensures ItemIDExists !in faults && ItemIDByName !in faults && ItemUpdate !in faults
            && ItemNamesUnique(old(db.items))
            && ItemService.Admits(old(db.items), ToModel(request).(id := id))
            ==> code == StatusOK
    ensures ItemNamesUnique(old(db.items)) ==> ItemNamesUnique(db.items)
  {
    var item := ToModel(request).(id := id);
    var result, status := ItemService.Update(db, item, now, faults);
    if !status.Ok() {
      return status.code, Failure(status.msg);
    }
    return status.code, Body(result);
  }
}
