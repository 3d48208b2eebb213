/**
 * The document-store engine: one document per list with its items and its
 * ACL embedded, and a user collection. Every list-scoped operation is one
 * update operator applied to the document selected by the list id, so the
 * store after each method is the contract function applied to the store
 * before it.
 */
module MongoDb {
  import opened Wrappers
  import opened Aggregate
  import ListStore

  class MongoEngine {
    /** The List collection, by `_id`. */
    var lists: map<Id, List>
    /** The User collection, in insertion order (the schema has no unique index on `name`). */
    var users: seq<User>

    ghost predicate Valid()
      reads this
    {
      ListStore.Inv(lists)
    }

    constructor ()
      ensures Valid() && lists == map[] && users == []
    {
      lists := map[];
      users := [];
    }

    /**
     * `User.create`: inserts whatever names are already stored. The schema's
     * `required` on `name` refuses the empty string.
     */
    method CreateUser(name: string, bcrypt: Credential, id: Id) returns (r: Result<User, StoreError>)
      requires id !in ListStore.UserIds(users)
      modifies this
      ensures lists == old(lists)
      ensures name == "" ==> r == Failure(ValidationError) && users == old(users)
      ensures name != "" ==>
        r == Success(User(id, name, bcrypt)) && users == ListStore.CreateUser(old(users), id, name, bcrypt)
    {
      if name == "" {
        r := Failure(ValidationError);
      } else {
        var u := User(id, name, bcrypt);
        users := users + [u];
        r := Success(u);
      }
    }

    method GetUserById(id: Id) returns (r: Option<User>)
      ensures r.None? <==> id !in ListStore.UserIds(users)
      ensures r.Some? ==> r.value in users && r.value.id == id
    {
      r := ListStore.GetUserById(users, id);
    }

    method GetUserByName(name: string) returns (r: Option<User>)
      ensures r.None? <==> !ListStore.NameTaken(users, name)
      ensures r.Some? ==> r.value in users && r.value.name == name
      ensures r == ListStore.GetUserByName(users, name)
    {
      r := ListStore.GetUserByName(users, name);
    }

    /**
     * `List.create` with empty `items` and `invitedUsers`. The schema's
     * `required` on `name` and `owner` refuses an empty string.
     */
    method CreateList(name: string, owner: Id, id: Id) returns (r: Result<List, StoreError>)
      requires Valid() && id !in lists
      modifies this
      ensures Valid() && users == old(users)
      ensures name == "" || owner == "" ==> r == Failure(ValidationError) && lists == old(lists)
      ensures name != "" && owner != "" ==>
        r == Success(NewList(id, name, owner)) && lists == ListStore.CreateList(old(lists), id, name, owner)
    {
      if name == "" || owner == "" {
        r := Failure(ValidationError);
      } else {
        ListStore.CreateListKeepsInv(lists, id, name, owner);
        var l := NewList(id, name, owner);
        lists := lists[id := l];
        r := Success(l);
      }
    }

    /** `List.findById`. */
    method GetListById(id: Id) returns (r: Option<List>)
      ensures r == ListStore.GetListById(lists, id)
      ensures r.Some? ==> id in lists && r.value == lists[id]
    {
      if id in lists {
        r := Some(lists[id]);
      } else {
        r := None;
      }
    }

    /** `List.findByIdAndUpdate(id, fields, { new: true })`: null when no such list. */
    method UpdateList(id: Id, name: Option<string>, owner: Option<Id>, archived: Option<bool>)
      returns (r: Option<List>)
      requires Valid()
      modifies this
      ensures Valid()
      ensures lists == ListStore.UpdateList(old(lists), id, name, owner, archived) && users == old(users)
      ensures r == ListStore.GetListById(lists, id)
    {
      ListStore.UpdateListKeepsInv(lists, id, name, owner, archived);
      if id in lists {
        lists := lists[id := ListStore.MergeListFields(lists[id], name, owner, archived)];
        r := Some(lists[id]);
      } else {
        r := None;
      }
    }

    /** `List.findByIdAndDelete`: the embedded items and ACL go with the document. */
    method DeleteList(id: Id)
      requires Valid()
      modifies this
      ensures Valid()
      ensures lists == ListStore.DeleteList(old(lists), id) && users == old(users)
    {
      ListStore.DeleteListKeepsInv(lists, id);
      lists := lists - {id};
    }

    /** `$push: { items: { order, content } }` on the list; the item id and `isDone` come from the schema defaults. */
    method AddItem(listId: Id, order: int, content: string, itemId: Id) returns (r: Option<List>)
      requires Valid() && ListStore.ItemIdFresh(lists, itemId)
      modifies this
      ensures Valid()
      ensures lists == ListStore.AddItem(old(lists), listId, itemId, order, content) && users == old(users)
      ensures r == ListStore.GetListById(lists, listId)
    {
      ListStore.AddItemKeepsInv(lists, listId, itemId, order, content);
      if listId in lists {
        var l := lists[listId];
        lists := lists[listId := l.(items := l.items + [Item(itemId, order, content, false)])];
        r := Some(lists[listId]);
      } else {
        r := None;
      }
    }

    /**
     * `findOneAndUpdate({ _id: listId, 'items._id': item._id }, { $set: { 'items.$': item } })`:
     * null unless the named list holds an item with that id.
     */
    method UpdateItem(listId: Id, item: Item) returns (r: Option<List>)
      requires Valid()
      modifies this
      ensures Valid()
      ensures lists == ListStore.UpdateItem(old(lists), listId, item) && users == old(users)
      ensures r == if ListStore.HoldsItem(old(lists), listId, item.id) then ListStore.GetListById(lists, listId) else None
    {
      ListStore.UpdateItemKeepsInv(lists, listId, item);
      if listId in lists && FirstIndex(lists[listId].items, item.id) >= 0 {
        var l := lists[listId];
        lists := lists[listId := l.(items := ReplaceFirst(l.items, item))];
        r := Some(lists[listId]);
      } else {
        r := None;
      }
    }

    /** `$pull: { items: { _id: itemId } }` on the named list only. */
    method DeleteItem(listId: Id, itemId: Id) returns (r: Option<List>)
      requires Valid()
      modifies this
      ensures Valid()
      ensures lists == ListStore.DeleteItem(old(lists), listId, itemId) && users == old(users)
      ensures r == ListStore.GetListById(lists, listId)
    {
      ListStore.DeleteItemKeepsInv(lists, listId, itemId);
      if listId in lists {
        var l := lists[listId];
        lists := lists[listId := l.(items := PullItem(l.items, itemId))];
        r := Some(lists[listId]);
      } else {
        r := None;
      }
    }

    /** `$addToSet: { invitedUsers: userId }`. */
    method AddUserToList(listId: Id, userId: Id) returns (r: Option<List>)
      requires Valid()
      modifies this
      ensures Valid()
      ensures lists == ListStore.AddUserToList(old(lists), listId, userId) && users == old(users)
      ensures r == ListStore.GetListById(lists, listId)
    {
      ListStore.AddUserToListKeepsInv(lists, listId, userId);
      if listId in lists {
        var l := lists[listId];
        lists := lists[listId := l.(invitedUsers := AddToSet(l.invitedUsers, userId))];
        r := Some(lists[listId]);
      } else {
        r := None;
      }
    }

    /** `$pull: { invitedUsers: userId }`. */
    method RemoveUserFromList(listId: Id, userId: Id) returns (r: Option<List>)
      requires Valid()
      modifies this
      ensures Valid()
      ensures lists == ListStore.RemoveUserFromList(old(lists), listId, userId) && users == old(users)
      ensures r == ListStore.GetListById(lists, listId)
    {
      ListStore.RemoveUserFromListKeepsInv(lists, listId, userId);
      if listId in lists {
        var l := lists[listId];
        lists := lists[listId := l.(invitedUsers := PullUser(l.invitedUsers, userId))];
        r := Some(lists[listId]);
      } else {
        r := None;
      }
    }
  }
}
