/**
 * The item repository (internal/service/repo/postgresSQL/item.go): each SQL
 * statement as its effect on the item table.
 */
module ItemPostgres {
  import opened Basics
  import opened Model
  import opened Tables
  import opened QueryHelper

  /**
   * The row `INSERT INTO item (item_name, cost, price, sort)` creates; the
   * timestamps and the soft-delete marker take their column defaults, taken
   * here to be now() and null.
   */
  function Inserted(item: Item, id: int, now: Time): (i: Item)
    ensures i.id == id && i.itemName == item.itemName && i.cost == item.cost
    ensures i.price == item.price && i.sort == item.sort
    ensures i.createdAt == now && i.updatedAt == now && ItemLive(i)
  {
    Item(id, item.itemName, item.cost, item.price, item.sort, now, now, None)
  }

  /** `UPDATE item SET item_name, cost, price, sort, updated_at = now() WHERE id`. */
  function Overwritten(items: map<int, Item>, item: Item, now: Time): (r: map<int, Item>)
    ensures r.Keys == items.Keys
    ensures forall k :: k in items && k != item.id ==> r[k] == items[k]
    ensures item.id in items ==>
      r[item.id] == items[item.id].(itemName := item.itemName, cost := item.cost,
                                    price := item.price, sort := item.sort, updatedAt := now)
  {
    if item.id in items
    then items[item.id := items[item.id].(itemName := item.itemName, cost := item.cost,
                                          price := item.price, sort := item.sort, updatedAt := now)]
    else items
  }

  /** `UPDATE item SET deleted_at = now() WHERE id`. */
  function SoftDeleted(items: map<int, Item>, id: int, now: Time): (r: map<int, Item>)
    ensures r.Keys == items.Keys
    ensures forall k :: k in items && k != id ==> r[k] == items[k]
    ensures id in items ==> r[id] == items[id].(deletedAt := Some(now))
  {
    if id in items then items[id := items[id].(deletedAt := Some(now))] else items
  }

  /** Inserting a row under a name no row holds keeps names unique. */
  lemma InsertedKeepsNamesUnique(items: map<int, Item>, item: Item, id: int, now: Time)
    requires ItemNamesUnique(items)
    requires id !in items
    requires ItemNameHolders(items, item.itemName) == {}
    ensures ItemNamesUnique(items[id := Inserted(item, id, now)])
  {
    assert forall k :: k in items ==> k !in ItemNameHolders(items, item.itemName);
  }

  /** Overwriting a row with a name held by no other row keeps names unique. */
  lemma OverwrittenKeepsNamesUnique(items: map<int, Item>, item: Item, now: Time)
    requires ItemNamesUnique(items)
    requires ItemNameHolders(items, item.itemName) <= {item.id}
    ensures ItemNamesUnique(Overwritten(items, item, now))
  {
    assert forall k :: k in items && k != item.id ==> k !in ItemNameHolders(items, item.itemName);
  }

  /**
   * The converse: if a row with the item's id exists and the overwrite
   * leaves names unique, no other row held the new name.
   */
  lemma OverwrittenUniqueOnlyIfFree(items: map<int, Item>, item: Item, now: Time)
    requires item.id in items
    requires ItemNamesUnique(Overwritten(items, item, now))
    ensures ItemNameHolders(items, item.itemName) <= {item.id}
  {
  }

  /** A soft delete changes no name. */
  lemma SoftDeletedKeepsNamesUnique(items: map<int, Item>, id: int, now: Time)
    requires ItemNamesUnique(items)
    ensures ItemNamesUnique(SoftDeleted(items, id, now))
  {
  }

  /** Create inserts name, cost, price and sort and returns the generated id. */
  method Create(db: Database, item: Item, now: Time, faults: set<Fault>) returns (id: int, err: bool)
    requires db.Valid()
    modifies db`items, db`nextItemId
    ensures db.Valid()
    ensures err <==> ItemInsert in faults
    ensures err ==> id == 0 && unchanged(db)
    ensures !err ==> id == old(db.nextItemId) && id >= 1 && id !in old(db.items)
    ensures !err ==> db.items == old(db.items)[id := Inserted(item, id, now)]
    ensures !err ==> db.nextItemId == id + 1
  {
    if ItemInsert in faults {
      return 0, true;
    }
    id := db.nextItemId;
    db.items := db.items[id := Inserted(item, id, now)];
    db.nextItemId := id + 1;
    err := false;
  }

  /** IDExists ignores soft-deletion: a deleted item still exists. */
  method IDExists(db: Database, id: int, faults: set<Fault>) returns (exists_: bool, err: bool)
    ensures err <==> ItemIDExists in faults
    ensures err ==> !exists_
    ensures !err ==> (exists_ <==> id in db.items)
  {
    if ItemIDExists in faults {
      return false, true;
    }
    exists_ := id in db.items;
    err := false;
  }

  /**
   * IDByItemName returns the id of a row with the name, deleted or not, and 0
   * with no error when there is none; among several such rows any may be
   * returned.
   */
  method IDByItemName(db: Database, itemName: string, faults: set<Fault>) returns (id: int, err: bool)
    requires db.Valid()
    ensures err <==> ItemIDByName in faults
    ensures err ==> id == 0
    ensures !err ==> (id == 0 <==> ItemNameHolders(db.items, itemName) == {})
    ensures !err && id != 0 ==> id in ItemNameHolders(db.items, itemName)
  {
    if ItemIDByName in faults {
      return 0, true;
    }
    if exists k :: k in db.items && db.items[k].itemName == itemName {
      id :| id in db.items && db.items[id].itemName == itemName;
      assert id in ItemNameHolders(db.items, itemName);
    } else {
      id := 0;
      assert forall k :: k !in ItemNameHolders(db.items, itemName);
    }
    err := false;
  }

  /**
   * GetByID returns a live item; a missing or deleted one is an error (no
   * rows). The source's query reads `WHERE id = $1 AND WHERE deleted_at IS
   * NULL`, which Postgres rejects; this is the query it evidently means.
   */
  method GetByID(db: Database, id: int, faults: set<Fault>) returns (item: Item, err: bool)
    ensures err <==> ItemGetByID in faults || !(id in db.items && ItemLive(db.items[id]))
    ensures err ==> item == ZeroItem
    ensures !err ==> item == db.items[id]
  {
    if ItemGetByID in faults || !(id in db.items && ItemLive(db.items[id])) {
      return ZeroItem, true;
    }
    item := db.items[id];
    err := false;
  }

  /**
   * GetAll returns the live items, in insertion order, restricted by the
   * LIMIT/OFFSET tail. The source appends the tail before `WHERE deleted_at IS
   * NULL`, which Postgres rejects whenever the tail is not empty; the tail is
   * applied here after the WHERE, as evidently meant.
   */
  method GetAll(db: Database, limit: int, offset: int, faults: set<Fault>) returns (items: seq<Item>, err: bool)
    requires db.Valid()
    ensures err <==> ItemGetAll in faults
    ensures err ==> items == []
    ensures !err ==> items == Page(LiveRows(db.items, ItemLive, db.nextItemId), limit, offset)
    ensures forall i :: i in items ==> i.id in db.items && db.items[i.id] == i && ItemLive(i)
  {
    if ItemGetAll in faults {
      return [], true;
    }
    var clause := LimitAndOffset(limit, offset);
    var rows := Scan(db.items, ItemLive, db.nextItemId);
    items := Paged(rows, clause);
    err := false;
    PagedByHelper(rows, limit, offset);
    forall i | i in items
      ensures i.id in db.items && db.items[i.id] == i && ItemLive(i)
    {
      LiveRowsMembership(db.items, ItemLive, db.nextItemId, i);
    }
  }

  /** Update overwrites the four mutable fields and returns its input. */
  method Update(db: Database, item: Item, now: Time, faults: set<Fault>) returns (r: Item, err: bool)
    requires db.Valid()
    modifies db`items
    ensures db.Valid()
    ensures err <==> ItemUpdate in faults
    ensures err ==> r == ZeroItem && unchanged(db)
    ensures !err ==> r == item && db.items == Overwritten(old(db.items), item, now)
  {
    if ItemUpdate in faults {
      return ZeroItem, true;
    }
    db.items := Overwritten(db.items, item, now);
    r, err := item, false;
  }

  /** Delete sets the soft-delete marker only. */
  method Delete(db: Database, id: int, now: Time, faults: set<Fault>) returns (err: bool)
    requires db.Valid()
    modifies db`items
    ensures db.Valid()
    ensures err <==> ItemDelete in faults
    ensures err ==> unchanged(db)
    ensures !err ==> db.items == SoftDeleted(old(db.items), id, now)
  {
    if ItemDelete in faults {
      return true;
    }
    db.items := SoftDeleted(db.items, id, now);
    err := false;
  }
}
