/**
 * The list endpoints. Each handler runs behind the session gate, so the
 * caller is the id of the logged-in user; the request fields arrive
 * already validated. Every handler looks the list up first (404 when
 * absent), then applies its access rule (401), and only then writes.
 */
module ListRoutes {
  import opened Wrappers
  import opened Aggregate
  import ListStore
  import DbEngine
  import opened Http

  /** `GET /list/:listId`: the list, to its owner and invited users only. */
  method Get(db: DbEngine.Backend, caller: Id, listId: Id) returns (resp: Response)
    requires DbEngine.Valid(db)
    ensures resp.status == 404 <==> listId !in DbEngine.Lists(db)
    ensures resp.status == 401 <==> listId in DbEngine.Lists(db) && !CanAccess(DbEngine.Lists(db)[listId], caller)
    ensures resp.status == 200 <==> listId in DbEngine.Lists(db) && CanAccess(DbEngine.Lists(db)[listId], caller)
    ensures resp.status == 200 ==> resp.body == ListJson(Some(DbEngine.Lists(db)[listId]))
  {
    var list := DbEngine.GetListById(db, listId);
    if list.None? {
      resp := Response(404, Text("Could not find list " + listId));
      return;
    }
    if list.value.owner != caller && caller !in list.value.invitedUsers {
      resp := Response(401, Text("You are not invited or owner of this list"));
      return;
    }
    resp := Response(200, ListJson(list));
  }

  /**
   * `POST /list/create`: a new empty list owned by the caller. A refused
   * write (an owner that is not a user, or, for the document store, an
   * empty name) throws and is answered 500.
   */
  method Create(db: DbEngine.Backend, caller: Id, listName: string, freshId: Id) returns (resp: Response)
    requires DbEngine.Valid(db) && freshId !in DbEngine.Lists(db)
    modifies DbEngine.Repr(db)
    ensures DbEngine.Valid(db) && DbEngine.Users(db) == old(DbEngine.Users(db))
    ensures resp.status == 201 <==>
      if db.Embedded? then listName != "" && caller != "" else caller in ListStore.UserIds(DbEngine.Users(db))
    ensures resp.status == 201 ==>
      && resp.body == ListJson(Some(NewList(freshId, listName, caller)))
      && DbEngine.Lists(db) == ListStore.CreateList(old(DbEngine.Lists(db)), freshId, listName, caller)
      && CanAccess(DbEngine.Lists(db)[freshId], caller) && OwnerNotInvited(DbEngine.Lists(db)[freshId])
    ensures resp.status != 201 ==> resp == Uncaught && DbEngine.Lists(db) == old(DbEngine.Lists(db))
  {
    var data := DbEngine.CreateList(db, listName, caller, freshId);
    if data.Failure? {
      resp := Uncaught;
      return;
    }
    resp := Response(201, ListJson(Some(data.value)));
  }

  /**
   * `PATCH /list/:listId`: the owner replaces any of name, owner and
   * archived. A new owner that is not a user makes the relational store
   * throw. See PatchChecked for the owner transfer.
   */
  method Patch(db: DbEngine.Backend, caller: Id, listId: Id,
               name: Option<string>, owner: Option<Id>, archived: Option<bool>) returns (resp: Response)
    requires DbEngine.Valid(db)
    modifies DbEngine.Repr(db)
    ensures DbEngine.Valid(db) && DbEngine.Users(db) == old(DbEngine.Users(db))
    ensures resp.status == 404 <==> listId !in old(DbEngine.Lists(db))
    ensures resp.status == 401 <==> listId in old(DbEngine.Lists(db)) && old(DbEngine.Lists(db))[listId].owner != caller
    ensures resp.status == 200 ==>
      && DbEngine.Lists(db) == ListStore.UpdateList(old(DbEngine.Lists(db)), listId, name, owner, archived)
      && listId in DbEngine.Lists(db)
      && resp.body == ListJson(Some(DbEngine.Lists(db)[listId]))
    ensures resp.status != 200 ==> DbEngine.Lists(db) == old(DbEngine.Lists(db))
    ensures resp.status == 500 <==>
      && listId in old(DbEngine.Lists(db)) && old(DbEngine.Lists(db))[listId].owner == caller
      && db.Relational? && owner.Some? && owner.value !in ListStore.UserIds(DbEngine.Users(db))
    ensures resp.status == 200 <==>
      && listId in old(DbEngine.Lists(db)) && old(DbEngine.Lists(db))[listId].owner == caller
      && !(db.Relational? && owner.Some? && owner.value !in ListStore.UserIds(DbEngine.Users(db)))
  {
    var list := DbEngine.GetListById(db, listId);
    if list.None? {
      resp := Response(404, Text("Could not find list " + listId));
      return;
    }
    if list.value.owner != caller {
      resp := Response(401, Text("Only the owner can edit a list"));
      return;
    }
    var data := DbEngine.UpdateList(db, listId, name, owner, archived);
    if data.Failure? {
      resp := Uncaught;
      return;
    }
    if data.value.None? {
      resp := InternalError;
      return;
    }
    resp := Response(200, ListJson(data.value));
  }

  /**
   * As written, `patch` may hand the list to a user it is shared with: the
   * new owner then also sits in the ACL, which `addUser` otherwise rules out.
   */
  lemma PatchLeavesOwnerInvited()
    ensures var ls := map["L" := List("L", "Groceries", "a", false, ["b"], [])];
      && ls["L"].owner == "a" && OwnerNotInvited(ls["L"])
      && !OwnerNotInvited(ListStore.UpdateList(ls, "L", None, Some("b"), None)["L"])
  {
  }

  /**
   * `patch` with the owner transfer completed: the new owner also leaves
   * the ACL, so the owner is never an invited user.
   */
  method PatchChecked(db: DbEngine.Backend, caller: Id, listId: Id,
                      name: Option<string>, owner: Option<Id>, archived: Option<bool>) returns (resp: Response)
    requires DbEngine.Valid(db)
    modifies DbEngine.Repr(db)
    ensures DbEngine.Valid(db) && DbEngine.Users(db) == old(DbEngine.Users(db))
    ensures resp.status == 404 <==> listId !in old(DbEngine.Lists(db))
    ensures resp.status == 401 <==> listId in old(DbEngine.Lists(db)) && old(DbEngine.Lists(db))[listId].owner != caller
    ensures resp.status == 200 ==>
      && listId in DbEngine.Lists(db)
      && resp.body == ListJson(Some(DbEngine.Lists(db)[listId]))
      && DbEngine.Lists(db) == (
           var merged := ListStore.UpdateList(old(DbEngine.Lists(db)), listId, name, owner, archived);
           if owner.Some? then ListStore.RemoveUserFromList(merged, listId, owner.value) else merged)
      && (OwnerNotInvited(old(DbEngine.Lists(db))[listId]) || owner.Some? ==> OwnerNotInvited(DbEngine.Lists(db)[listId]))
    ensures resp.status != 200 ==> DbEngine.Lists(db) == old(DbEngine.Lists(db))
    ensures resp.status == 500 <==>
      && listId in old(DbEngine.Lists(db)) && old(DbEngine.Lists(db))[listId].owner == caller
      && db.Relational? && owner.Some? && owner.value !in ListStore.UserIds(DbEngine.Users(db))
    ensures resp.status == 200 <==>
      && listId in old(DbEngine.Lists(db)) && old(DbEngine.Lists(db))[listId].owner == caller
      && !(db.Relational? && owner.Some? && owner.value !in ListStore.UserIds(DbEngine.Users(db)))
  {
    var list := DbEngine.GetListById(db, listId);
    if list.None? {
      resp := Response(404, Text("Could not find list " + listId));
      return;
    }
    if list.value.owner != caller {
      resp := Response(401, Text("Only the owner can edit a list"));
      return;
    }
    var data := DbEngine.UpdateList(db, listId, name, owner, archived);
    if data.Failure? {
      resp := Uncaught;
      return;
    }
    if data.value.None? {
      resp := InternalError;
      return;
    }
    if owner.Some? {
      var l := DbEngine.RemoveUserFromList(db, listId, owner.value);
      resp := Response(200, ListJson(l));
    } else {
      resp := Response(200, ListJson(data.value));
    }
  }

  /**
   * `addUser`: the owner shares the list with another user. The router in
   * src/routes/index.ts mounts no path for this handler. The store call is
   * not awaited: the answer is 200 with the pending call as its body,
   * whatever the store then does, even when the relational store refuses
   * an unknown or already invited user. The owner never enters the ACL.
   */
  method AddUser(db: DbEngine.Backend, caller: Id, listId: Id, userId: Id) returns (resp: Response)
    requires DbEngine.Valid(db)
    modifies DbEngine.Repr(db)
    ensures DbEngine.Valid(db) && DbEngine.Users(db) == old(DbEngine.Users(db))
    ensures resp.status == 404 <==> listId !in old(DbEngine.Lists(db))
    ensures resp.status == 401 <==> listId in old(DbEngine.Lists(db)) && old(DbEngine.Lists(db))[listId].owner != caller
    ensures resp.status == 400 <==>
      listId in old(DbEngine.Lists(db)) && old(DbEngine.Lists(db))[listId].owner == caller && userId == caller
    ensures resp.status != 200 ==> DbEngine.Lists(db) == old(DbEngine.Lists(db))
    ensures resp.status == 200 ==>
      && resp.body == Pending
      && listId in DbEngine.Lists(db)
      && userId != DbEngine.Lists(db)[listId].owner
      && DbEngine.Lists(db)[listId].owner == old(DbEngine.Lists(db))[listId].owner
      && (OwnerNotInvited(old(DbEngine.Lists(db))[listId]) ==> OwnerNotInvited(DbEngine.Lists(db)[listId]))
      && (db.Embedded? || userId in ListStore.UserIds(DbEngine.Users(db)) ==>
            DbEngine.Lists(db) == ListStore.AddUserToList(old(DbEngine.Lists(db)), listId, userId))
      && (db.Relational? && userId !in ListStore.UserIds(DbEngine.Users(db)) ==>
            DbEngine.Lists(db) == old(DbEngine.Lists(db)))
      && (userId in ListStore.UserIds(DbEngine.Users(db)) ==> userId in DbEngine.Lists(db)[listId].invitedUsers)
    ensures resp.status == 200 <==>
      listId in old(DbEngine.Lists(db)) && old(DbEngine.Lists(db))[listId].owner == caller && userId != caller
  {
    var list := DbEngine.GetListById(db, listId);
    if list.None? {
      resp := Response(404, Text("Could not find list " + listId));
      return;
    }
    if list.value.owner != caller {
      resp := Response(401, Text("Only the owner can add to the acl"));
      return;
    }
    if caller == userId {
      resp := Response(400, Text("You cannot add yourself to your own list"));
      return;
    }
    var _ := DbEngine.AddUserToList(db, listId, userId);
    resp := Response(200, Pending);
  }

  /**
   * `removeUser`: the owner removes anyone but themselves; any invited user
   * may remove themselves. Not mounted by the router and not awaited, like
   * `addUser`.
   */
  method RemoveUser(db: DbEngine.Backend, caller: Id, listId: Id, userId: Id) returns (resp: Response)
    requires DbEngine.Valid(db)
    modifies DbEngine.Repr(db)
    ensures DbEngine.Valid(db) && DbEngine.Users(db) == old(DbEngine.Users(db))
    ensures resp.status == 404 <==> listId !in old(DbEngine.Lists(db))
    ensures resp.status == 401 <==>
      listId in old(DbEngine.Lists(db)) && old(DbEngine.Lists(db))[listId].owner != caller && userId != caller
    ensures resp.status == 400 <==>
      && listId in old(DbEngine.Lists(db))
      && (old(DbEngine.Lists(db))[listId].owner == caller || userId == caller)
      && old(DbEngine.Lists(db))[listId].owner == userId
    ensures resp.status != 200 ==> DbEngine.Lists(db) == old(DbEngine.Lists(db))
    ensures resp.status == 200 ==>
      && resp.body == Pending
      && DbEngine.Lists(db) == ListStore.RemoveUserFromList(old(DbEngine.Lists(db)), listId, userId)
      && listId in DbEngine.Lists(db)
      && userId !in DbEngine.Lists(db)[listId].invitedUsers
      && DbEngine.Lists(db)[listId].owner == old(DbEngine.Lists(db))[listId].owner
      && CanAccess(DbEngine.Lists(db)[listId], DbEngine.Lists(db)[listId].owner)
    ensures resp.status == 200 <==>
      && listId in old(DbEngine.Lists(db))
      && (old(DbEngine.Lists(db))[listId].owner == caller || userId == caller)
      && old(DbEngine.Lists(db))[listId].owner != userId
  {
    var list := DbEngine.GetListById(db, listId);
    if list.None? {
      resp := Response(404, Text("Could not find list " + listId));
      return;
    }
    if list.value.owner != caller && userId != caller {
      resp := Response(401, Text("Only the owner can remove other users from the acl"));
      return;
    }
    if list.value.owner == userId {
      resp := Response(400, Text("You cannot remove yourself from the list as the owner"));
      return;
    }
    var _ := DbEngine.RemoveUserFromList(db, listId, userId);
    resp := Response(200, Pending);
  }

  /**
   * `DELETE /list/:listId` as written: `deleteList` yields no value, so an
   * owner's successful delete is answered 500.
   */
  method Delete(db: DbEngine.Backend, caller: Id, listId: Id) returns (resp: Response)
    requires DbEngine.Valid(db)
    modifies DbEngine.Repr(db)
    ensures DbEngine.Valid(db) && DbEngine.Users(db) == old(DbEngine.Users(db))
    ensures resp.status == 404 <==> listId !in old(DbEngine.Lists(db))
    ensures resp.status == 401 <==> listId in old(DbEngine.Lists(db)) && old(DbEngine.Lists(db))[listId].owner != caller
    ensures resp.status != 200
    ensures listId in old(DbEngine.Lists(db)) && old(DbEngine.Lists(db))[listId].owner == caller ==>
      && resp == InternalError
      && DbEngine.Lists(db) == ListStore.DeleteList(old(DbEngine.Lists(db)), listId)
      && listId !in DbEngine.Lists(db)
    ensures resp != InternalError ==> DbEngine.Lists(db) == old(DbEngine.Lists(db))
  {
    var list := DbEngine.GetListById(db, listId);
    if list.None? {
      resp := Response(404, Text("Could not find list " + listId));
      return;
    }
    if list.value.owner != caller {
      resp := Response(401, Text("Only the owner can delete a list"));
      return;
    }
    DbEngine.DeleteList(db, listId);
    resp := InternalError;
  }

  /** `delete_` as intended: the owner's delete is answered 200. */
  method DeleteChecked(db: DbEngine.Backend, caller: Id, listId: Id) returns (resp: Response)
    requires DbEngine.Valid(db)
    modifies DbEngine.Repr(db)
    ensures DbEngine.Valid(db) && DbEngine.Users(db) == old(DbEngine.Users(db))
    ensures resp.status == 404 <==> listId !in old(DbEngine.Lists(db))
    ensures resp.status == 401 <==> listId in old(DbEngine.Lists(db)) && old(DbEngine.Lists(db))[listId].owner != caller
    ensures resp.status == 200 <==> listId in old(DbEngine.Lists(db)) && old(DbEngine.Lists(db))[listId].owner == caller
    ensures resp.status == 200 ==>
      && DbEngine.Lists(db) == ListStore.DeleteList(old(DbEngine.Lists(db)), listId)
      && listId !in DbEngine.Lists(db)
    ensures resp.status != 200 ==> DbEngine.Lists(db) == old(DbEngine.Lists(db))
  {
    var list := DbEngine.GetListById(db, listId);
    if list.None? {
      resp := Response(404, Text("Could not find list " + listId));
      return;
    }
    if list.value.owner != caller {
      resp := Response(401, Text("Only the owner can delete a list"));
      return;
    }
    DbEngine.DeleteList(db, listId);
    resp := Response(200, Empty);
  }
}
