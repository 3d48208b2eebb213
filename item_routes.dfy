/**
 * The item endpoints. The list named in the request is looked up and its
 * access rule applied (owner or invited user) before any write; the
 * handlers answer with the whole refreshed list.
 */
module ItemRoutes {
  import opened Wrappers
  import opened Aggregate
  import ListStore
  import DbEngine
  import PostgreDb
  import opened Http

  /** `POST /items/create`: a new, not-done item at the end of a list the caller may use. */
  method Create(db: DbEngine.Backend, caller: Id, listId: Id, order: int, content: string, freshItemId: Id)
    returns (resp: Response)
    requires DbEngine.Valid(db) && ListStore.ItemIdFresh(DbEngine.Lists(db), freshItemId)
    modifies DbEngine.Repr(db)
    ensures DbEngine.Valid(db) && DbEngine.Users(db) == old(DbEngine.Users(db))
    ensures resp.status == 404 <==> listId !in old(DbEngine.Lists(db))
    ensures resp.status == 401 <==> listId in old(DbEngine.Lists(db)) && !CanAccess(old(DbEngine.Lists(db))[listId], caller)
    ensures resp.status == 201 <==> listId in old(DbEngine.Lists(db)) && CanAccess(old(DbEngine.Lists(db))[listId], caller)
    ensures resp.status == 201 ==>
      && DbEngine.Lists(db) == ListStore.AddItem(old(DbEngine.Lists(db)), listId, freshItemId, order, content)
      && listId in DbEngine.Lists(db)
      && DbEngine.Lists(db)[listId].items
         == old(DbEngine.Lists(db))[listId].items + [Item(freshItemId, order, content, false)]
      && resp.body == ListJson(Some(DbEngine.Lists(db)[listId]))
    ensures resp.status != 201 ==> DbEngine.Lists(db) == old(DbEngine.Lists(db))
  {
    var list := DbEngine.GetListById(db, listId);
    if list.None? {
      resp := Response(404, Text("Could not find list " + listId));
      return;
    }
    if list.value.owner != caller && caller !in list.value.invitedUsers {
      resp := Response(401, Text("You are not invited or owner of this list"));
      return;
    }
    var data := DbEngine.AddItem(db, listId, order, content, freshItemId);
    resp := Response(201, ListJson(data.value));
  }

  /**
   * `PATCH /items/:itemId`: the item, found in the named list, takes the
   * request's order, content and completion; its id is kept and no other
   * item of any list changes.
   */
  method Patch(db: DbEngine.Backend, caller: Id, itemId: Id, listId: Id, order: int, content: string, isDone: bool)
    returns (resp: Response)
    requires DbEngine.Valid(db)
    modifies DbEngine.Repr(db)
    ensures DbEngine.Valid(db) && DbEngine.Users(db) == old(DbEngine.Users(db))
    ensures resp.status == 401 <==> listId in old(DbEngine.Lists(db)) && !CanAccess(old(DbEngine.Lists(db))[listId], caller)
    ensures resp.status == 404 <==>
      listId !in old(DbEngine.Lists(db)) ||
      (CanAccess(old(DbEngine.Lists(db))[listId], caller) && itemId !in IdsOf(old(DbEngine.Lists(db))[listId].items))
    ensures resp.status == 200 ==>
      && DbEngine.Lists(db) == ListStore.UpdateItem(old(DbEngine.Lists(db)), listId, Item(itemId, order, content, isDone))
      && listId in DbEngine.Lists(db)
      && Item(itemId, order, content, isDone) in DbEngine.Lists(db)[listId].items
      && resp.body == ListJson(Some(DbEngine.Lists(db)[listId]))
      && (forall k :: k in old(DbEngine.Lists(db)) && k != listId ==> k in DbEngine.Lists(db) && DbEngine.Lists(db)[k] == old(DbEngine.Lists(db))[k])
    ensures resp.status != 200 ==> DbEngine.Lists(db) == old(DbEngine.Lists(db))
    ensures resp.status == 200 <==>
      && listId in old(DbEngine.Lists(db)) && CanAccess(old(DbEngine.Lists(db))[listId], caller)
      && itemId in IdsOf(old(DbEngine.Lists(db))[listId].items)
  {
    var list := DbEngine.GetListById(db, listId);
    if list.None? {
      resp := Response(404, Text("Could not find list " + listId));
      return;
    }
    if list.value.owner != caller && caller !in list.value.invitedUsers {
      resp := Response(401, Text("You are not invited or owner of this list"));
      return;
    }
    var found := FindItem(list.value.items, itemId);
    if found.None? {
      resp := Response(404, Text("Could not find item " + itemId));
      return;
    }
    var item := found.value;
    item := item.(content := content);
    item := item.(isDone := isDone);
    item := item.(order := order);
    assert item == Item(itemId, order, content, isDone);
    ghost var ls := DbEngine.Lists(db);
    assert ListStore.HoldsItem(ls, listId, itemId);
    ListStore.UpdateItemTouchesOneItem(ls, listId, item);
    var data := DbEngine.UpdateItem(db, listId, item);
    resp := Response(200, ListJson(data));
  }

  /**
   * `DELETE /items/:itemId` as written: the caller's access is checked on the
   * named list, but the item is never looked up in it. The document store
   * then deletes only within that list; the relational store deletes the
   * item wherever it is, also from lists the caller cannot use (see
   * PostgreDb.DeleteItemCrossesLists).
   */
  method Delete(db: DbEngine.Backend, caller: Id, itemId: Id, listId: Id) returns (resp: Response)
    requires DbEngine.Valid(db)
    modifies DbEngine.Repr(db)
    ensures DbEngine.Valid(db) && DbEngine.Users(db) == old(DbEngine.Users(db))
    ensures resp.status == 404 <==> listId !in old(DbEngine.Lists(db))
    ensures resp.status == 401 <==> listId in old(DbEngine.Lists(db)) && !CanAccess(old(DbEngine.Lists(db))[listId], caller)
    ensures resp.status == 200 <==> listId in old(DbEngine.Lists(db)) && CanAccess(old(DbEngine.Lists(db))[listId], caller)
    ensures resp.status == 200 ==>
      && listId in DbEngine.Lists(db)
      && itemId !in IdsOf(DbEngine.Lists(db)[listId].items)
      && resp.body == ListJson(Some(DbEngine.Lists(db)[listId]))
      && (db.Embedded? ==> DbEngine.Lists(db) == ListStore.DeleteItem(old(DbEngine.Lists(db)), listId, itemId))
      && (db.Relational? ==> DbEngine.Lists(db) == PostgreDb.DeleteItemEverywhere(old(DbEngine.Lists(db)), itemId))
    ensures resp.status != 200 ==> DbEngine.Lists(db) == old(DbEngine.Lists(db))
  {
    var list := DbEngine.GetListById(db, listId);
    if list.None? {
      resp := Response(404, Text("Could not find list " + listId));
      return;
    }
    if list.value.owner != caller && caller !in list.value.invitedUsers {
      resp := Response(401, Text("You are not invited or owner of this list"));
      return;
    }
    var data := DbEngine.DeleteItem(db, listId, itemId);
    resp := Response(200, ListJson(data));
  }

  /**
   * `delete_` as intended: the item must belong to the named list (404
   * otherwise, as `patch` does); then both stores remove it from that list
   * and from nowhere else.
   */
  method DeleteChecked(db: DbEngine.Backend, caller: Id, itemId: Id, listId: Id) returns (resp: Response)
    requires DbEngine.Valid(db)
    modifies DbEngine.Repr(db)
    ensures DbEngine.Valid(db) && DbEngine.Users(db) == old(DbEngine.Users(db))
    ensures resp.status == 404 <==>
      listId !in old(DbEngine.Lists(db)) ||
      (CanAccess(old(DbEngine.Lists(db))[listId], caller) && itemId !in IdsOf(old(DbEngine.Lists(db))[listId].items))
    ensures resp.status == 401 <==> listId in old(DbEngine.Lists(db)) && !CanAccess(old(DbEngine.Lists(db))[listId], caller)
    ensures resp.status == 200 <==>
      && listId in old(DbEngine.Lists(db)) && CanAccess(old(DbEngine.Lists(db))[listId], caller)
      && itemId in IdsOf(old(DbEngine.Lists(db))[listId].items)
    ensures resp.status == 200 ==>
      && DbEngine.Lists(db) == ListStore.DeleteItem(old(DbEngine.Lists(db)), listId, itemId)
      && listId in DbEngine.Lists(db)
      && itemId !in IdsOf(DbEngine.Lists(db)[listId].items)
      && resp.body == ListJson(Some(DbEngine.Lists(db)[listId]))
      && (forall k :: k in old(DbEngine.Lists(db)) && k != listId ==> k in DbEngine.Lists(db) && DbEngine.Lists(db)[k] == old(DbEngine.Lists(db))[k])
    ensures resp.status != 200 ==> DbEngine.Lists(db) == old(DbEngine.Lists(db))
  {
    var list := DbEngine.GetListById(db, listId);
    if list.None? {
      resp := Response(404, Text("Could not find list " + listId));
      return;
    }
    if list.value.owner != caller && caller !in list.value.invitedUsers {
      resp := Response(401, Text("You are not invited or owner of this list"));
      return;
    }
    var found := FindItem(list.value.items, itemId);
    if found.None? {
      resp := Response(404, Text("Could not find item " + itemId));
      return;
    }
    DbEngine.ValidIsInv(db);
    ghost var ls := DbEngine.Lists(db);
    forall k | k in ls && k != listId ensures itemId !in IdsOf(ls[k].items) {
      assert IdsOf(ls[k].items) !! IdsOf(ls[listId].items);
    }
    ListStore.DeleteItemScoped(ls, listId, itemId);
    var data := DbEngine.DeleteItem(db, listId, itemId);
    resp := Response(200, ListJson(data));
  }
}
