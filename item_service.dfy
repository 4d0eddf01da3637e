/**
 * The item service (internal/service/item.go): the name guard run before a
 * create or an update, and the Status each outcome maps to.
 */
module ItemService {
  import opened Basics
  import opened Model
  import opened Tables
  import opened ServiceStatus
  import QueryHelper
  import ItemPostgres

  /**
   * Create rejects a name held by any row, deleted or not, then inserts.
   * A rejected or failed create writes nothing.
   */
  method Create(db: Database, item: Item, now: Time, faults: set<Fault>) returns (id: int, s: Status)
    requires db.Valid()
    modifies db`items, db`nextItemId
    ensures db.Valid()
    ensures !s.Ok() ==> id == 0 && unchanged(db)
    ensures !s.Ok() ==> s.code in {StatusNotFound, StatusBadRequest, StatusInternalServerError}
    ensures ItemIDByName in faults ==>
      s == ErrorStatus(true, "error with item name", StatusInternalServerError)
    ensures ItemIDByName !in faults && ItemNameHolders(old(db.items), item.itemName) != {} ==>
      s == ErrorStatus(false, "item name already exists", StatusBadRequest)
    ensures ItemIDByName !in faults && ItemNameHolders(old(db.items), item.itemName) == {} && ItemInsert in faults ==>
      s == ErrorStatus(true, "error with item creation", StatusInternalServerError)
    ensures s.Ok() <==> ItemIDByName !in faults && ItemNameHolders(old(db.items), item.itemName) == {}
                        && ItemInsert !in faults
    ensures s.Ok() ==> s == SuccessStatus("item succesfully created", StatusCreated)
    ensures s.Ok() ==> id == old(db.nextItemId) && id !in old(db.items)
                       && db.items == old(db.items)[id := ItemPostgres.Inserted(item, id, now)]
    ensures s.Ok() ==> db.nextItemId == old(db.nextItemId) + 1
    ensures ItemNamesUnique(old(db.items)) ==> ItemNamesUnique(db.items)
  {
    var status := new StatusVar();
    var found, err := ItemPostgres.IDByItemName(db, item.itemName, faults);
    if err {
      s := status.WithError(err, "error with item name", StatusInternalServerError);
      return 0, s;
    }
    if found != 0 {
      s := status.WithError(err, "item name already exists", StatusBadRequest);
      return 0, s;
    }
    ghost var before := db.items;
    id, err := ItemPostgres.Create(db, item, now, faults);
    if err {
      s := status.WithError(err, "error with item creation", StatusInternalServerError);
      return 0, s;
    }
    if ItemNamesUnique(before) {
      ItemPostgres.InsertedKeepsNamesUnique(before, item, id, now);
    }
    s := status.Success("item succesfully created", StatusCreated);
  }

  /**
   * GetByID answers 404 only when the existence check fails with an error; a
   * missing or deleted item otherwise reaches the read and is 500. Success is
   * reported with 201.
   */
  method GetByID(db: Database, id: int, faults: set<Fault>) returns (item: Item, s: Status)
    ensures ItemIDExists in faults ==>
      item == ZeroItem && s == ErrorStatus(true, "item does not exist", StatusNotFound)
    ensures ItemIDExists !in faults && (ItemGetByID in faults || !(id in db.items && ItemLive(db.items[id]))) ==>
      item == ZeroItem && s == ErrorStatus(true, "couldn't get item", StatusInternalServerError)
    ensures s.Ok() <==> ItemIDExists !in faults && ItemGetByID !in faults && id in db.items && ItemLive(db.items[id])
    ensures s.Ok() ==> item == db.items[id] && s == SuccessStatus("item retrieved", StatusCreated)
  {
    var status := new StatusVar();
    var exist, err := ItemPostgres.IDExists(db, id, faults);
    if err {
      if !exist {
        s := status.WithError(err, "item does not exist", StatusNotFound);
        return ZeroItem, s;
      }
    }
    item, err := ItemPostgres.GetByID(db, id, faults);
    if err {
      s := status.WithError(err, "couldn't get item", StatusInternalServerError);
      return item, s;
    }
    s := status.Success("item retrieved", StatusCreated);
  }

  /** GetAll passes limit and offset to the repository; a storage error is 500. */
  method GetAll(db: Database, limit: int, offset: int, faults: set<Fault>) returns (items: seq<Item>, s: Status)
    requires db.Valid()
    ensures ItemGetAll in faults ==>
      items == [] && s == ErrorStatus(true, "couldn't get all items", StatusInternalServerError)
    ensures ItemGetAll !in faults ==>
      && items == QueryHelper.Page(LiveRows(db.items, ItemLive, db.nextItemId), limit, offset)
      && s == SuccessStatus("items retrieved", StatusOK)
  {
    var status := new StatusVar();
    var err;
    items, err := ItemPostgres.GetAll(db, limit, offset, faults);
    if err {
      s := status.WithError(err, "couldn't get all items", StatusInternalServerError);
      return items, s;
    }
    s := status.Success("items retrieved", StatusOK);
  }

  /**
   * The name guard Update passes for certain under unique names: no row holds
   * the name, or the item holds it. Without unique names it is still
   * necessary for the update to proceed.
   */
  ghost predicate Admits(items: map<int, Item>, item: Item)
  {
    var holders := ItemNameHolders(items, item.itemName);
    holders == {} || item.id in holders
  }

  /**
   * Update: 404 only on an erroring existence check, then the name guard
   * (rejecting a name that another row holds), then the overwrite.
   */
  method Update(db: Database, item: Item, now: Time, faults: set<Fault>) returns (r: Item, s: Status)
    requires db.Valid()
    modifies db`items
    ensures db.Valid()
    ensures !s.Ok() ==> unchanged(db)
    ensures !s.Ok() ==> s.code in {StatusNotFound, StatusBadRequest, StatusInternalServerError}
    ensures ItemIDExists in faults ==>
      r == item && s == ErrorStatus(true, "item does not exist", StatusNotFound)
    ensures ItemIDExists !in faults && ItemIDByName in faults ==>
      r == item && s == ErrorStatus(true, "couldn't get item id", StatusInternalServerError)
    ensures ItemIDExists !in faults && ItemIDByName !in faults && !Admits(old(db.items), item) ==>
      r == item && s == ErrorStatus(false, "item name already exists", StatusBadRequest)
    ensures ItemIDExists !in faults && ItemIDByName !in faults && ItemNamesUnique(old(db.items))
            && Admits(old(db.items), item) && ItemUpdate in faults ==>
      r == ZeroItem && s == ErrorStatus(true, "couldn't update item", StatusInternalServerError)
    ensures ItemIDExists !in faults && ItemIDByName !in faults && ItemNamesUnique(old(db.items))
            && Admits(old(db.items), item) && ItemUpdate !in faults
            ==> s.Ok()
    ensures s.Ok() ==> ItemIDExists !in faults && ItemIDByName !in faults && ItemUpdate !in faults
                       && Admits(old(db.items), item)
    ensures s.Ok() ==> r == item && s == SuccessStatus("item updated", StatusOK)
                       && db.items == ItemPostgres.Overwritten(old(db.items), item, now)
    ensures ItemNamesUnique(old(db.items)) ==> ItemNamesUnique(db.items)
  {
    var status := new StatusVar();
    var exist, err := ItemPostgres.IDExists(db, item.id, faults);
    if err {
      if !exist {
        s := status.WithError(err, "item does not exist", StatusNotFound);
        return item, s;
      }
    }
    var found;
    found, err := ItemPostgres.IDByItemName(db, item.itemName, faults);
    if err {
      s := status.WithError(err, "couldn't get item id", StatusInternalServerError);
      return item, s;
    }
    if ItemNamesUnique(db.items) && item.id in ItemNameHolders(db.items, item.itemName) {
      ItemHoldersAtMostOne(db.items, item.itemName, item.id);
    }
    if found != item.id && found != 0 {
      s := status.WithError(err, "item name already exists", StatusBadRequest);
      return item, s;
    }
    ghost var before := db.items;
    r, err := ItemPostgres.Update(db, item, now, faults);
    if err {
      s := status.WithError(err, "couldn't update item", StatusInternalServerError);
      return r, s;
    }
    if ItemNamesUnique(before) {
      if found != 0 {
        ItemHoldersAtMostOne(before, item.itemName, found);
      }
      ItemPostgres.OverwrittenKeepsNamesUnique(before, item, now);
    }
    s := status.Success("item updated", StatusOK);
  }

  /** Delete only delegates the soft-delete. */
  method Delete(db: Database, id: int, now: Time, faults: set<Fault>) returns (s: Status)
    requires db.Valid()
    modifies db`items
    ensures db.Valid()
    ensures ItemDelete in faults ==>
      s == ErrorStatus(true, "couldn't delete item", StatusInternalServerError) && unchanged(db)
    ensures ItemDelete !in faults ==>
      s == SuccessStatus("item deleted", StatusOK)
      && db.items == ItemPostgres.SoftDeleted(old(db.items), id, now)
    ensures ItemNamesUnique(old(db.items)) ==> ItemNamesUnique(db.items)
  {
    var status := new StatusVar();
    ghost var before := db.items;
    var err := ItemPostgres.Delete(db, id, now, faults);
    if err {
      s := status.WithError(err, "couldn't delete item", StatusInternalServerError);
      return s;
    }
    if ItemNamesUnique(before) {
      ItemPostgres.SoftDeletedKeepsNamesUnique(before, id, now);
    }
    s := status.Success("item deleted", StatusOK);
  }
}
