/**
 * The storage contract shared by both engines, stated on the abstract
 * store: a map from list id to list aggregate, plus the user table.
 * Each function gives the store after one contract operation; both
 * engines are proved against these functions (the relational one with
 * the exceptions its code makes, see PostgreDb).
 */
module ListStore {
  import opened Wrappers
  import opened Aggregate

  type Lists = map<Id, List>

  // ----------------------------------------------------------------------
  // Store invariants
  // ----------------------------------------------------------------------

  /** Every list is stored under its own id. */
  predicate WellKeyed(ls: Lists)
  {
    forall k :: k in ls ==> ls[k].id == k
  }

  /** An item id occurs at most once in the whole store. */
  predicate ItemIdsUnique(ls: Lists)
  {
    && (forall k :: k in ls ==> NoDupIds(ls[k].items))
    && (forall k1, k2 :: k1 in ls && k2 in ls && k1 != k2 ==> IdsOf(ls[k1].items) !! IdsOf(ls[k2].items))
  }

  predicate Inv(ls: Lists)
  {
    WellKeyed(ls) && ItemIdsUnique(ls)
  }

  /** No list holds an item with this id (a freshly generated UUID). */
  predicate ItemIdFresh(ls: Lists, id: Id)
  {
    forall k :: k in ls ==> id !in IdsOf(ls[k].items)
  }

  /** The named list exists and holds an item with this id. */
  predicate HoldsItem(ls: Lists, listId: Id, itemId: Id)
  {
    listId in ls && itemId in IdsOf(ls[listId].items)
  }

  // ----------------------------------------------------------------------
  // Contract operations on lists
  // ----------------------------------------------------------------------

  function GetListById(ls: Lists, id: Id): Option<List>
  {
    if id in ls then Some(ls[id]) else None
  }

  function CreateList(ls: Lists, id: Id, name: string, owner: Id): Lists
  {
    ls[id := NewList(id, name, owner)]
  }

  /** Each supplied field replaces the stored one; the others are kept. */
  function MergeListFields(l: List, name: Option<string>, owner: Option<Id>, archived: Option<bool>): List
  {
    l.(name := if name.Some? then name.value else l.name,
       owner := if owner.Some? then owner.value else l.owner,
       archived := if archived.Some? then archived.value else l.archived)
  }

  function UpdateList(ls: Lists, id: Id, name: Option<string>, owner: Option<Id>, archived: Option<bool>): Lists
  {
    if id in ls then ls[id := MergeListFields(ls[id], name, owner, archived)] else ls
  }

  /** The list goes, and with it its embedded items and ACL. */
  function DeleteList(ls: Lists, id: Id): Lists
  {
    ls - {id}
  }

  function AddItem(ls: Lists, listId: Id, itemId: Id, order: int, content: string): Lists
  {
    if listId in ls then
      ls[listId := ls[listId].(items := ls[listId].items + [Item(itemId, order, content, false)])]
    else ls
  }

  function UpdateItem(ls: Lists, listId: Id, item: Item): Lists
  {
    if HoldsItem(ls, listId, item.id) then
      ls[listId := ls[listId].(items := ReplaceFirst(ls[listId].items, item))]
    else ls
  }

  function DeleteItem(ls: Lists, listId: Id, itemId: Id): Lists
  {
    if listId in ls then ls[listId := ls[listId].(items := PullItem(ls[listId].items, itemId))] else ls
  }

  function AddUserToList(ls: Lists, listId: Id, userId: Id): Lists
  {
    if listId in ls then
      ls[listId := ls[listId].(invitedUsers := AddToSet(ls[listId].invitedUsers, userId))]
    else ls
  }

  function RemoveUserFromList(ls: Lists, listId: Id, userId: Id): Lists
  {
    if listId in ls then
      ls[listId := ls[listId].(invitedUsers := PullUser(ls[listId].invitedUsers, userId))]
    else ls
  }

  // ----------------------------------------------------------------------
  // Contract operations on users
  // ----------------------------------------------------------------------

  function UserIds(us: seq<User>): set<Id>
  {
    set u | u in us :: u.id
  }

  predicate NameTaken(us: seq<User>, name: string)
  {
    exists u :: u in us && u.name == name
  }

  /** No two users share a name. */
  predicate NamesUnique(us: seq<User>)
  {
    forall i, j :: 0 <= i < j < |us| ==> us[i].name != us[j].name
  }

  /** `findOne({ name })`: the first user with that name in stored order. */
  function GetUserByName(us: seq<User>, name: string): (r: Option<User>)
    ensures r.None? <==> !NameTaken(us, name)
    ensures r.Some? ==> r.value in us && r.value.name == name
    ensures r.Some? ==> exists k :: 0 <= k < |us| && us[k] == r.value &&
                          forall j :: 0 <= j < k ==> us[j].name != name
  {
    if us == [] then None
    else if us[0].name == name then Some(us[0])
    else
      var tail := us[1..];
      var r := GetUserByName(tail, name);
      if r.Some? then
        var k :| 0 <= k < |tail| && tail[k] == r.value && forall j :: 0 <= j < k ==> tail[j].name != name;
        assert us[k + 1] == tail[k];
        r
      else
        assert forall u :: u in tail ==> u in us;
        r
  }

  /** `findById(id)`: the user with that id, if any. */
  function GetUserById(us: seq<User>, id: Id): (r: Option<User>)
    ensures r.None? <==> id !in UserIds(us)
    ensures r.Some? ==> r.value in us && r.value.id == id
  {
    if us == [] then None
    else if us[0].id == id then Some(us[0])
    else
      assert forall u :: u in us[1..] ==> u in us;
      assert us == [us[0]] + us[1..];
      GetUserById(us[1..], id)
  }

  function CreateUser(us: seq<User>, id: Id, name: string, bcrypt: Credential): seq<User>
  {
    us + [User(id, name, bcrypt)]
  }

  // ----------------------------------------------------------------------
  // What the contract promises
  // ----------------------------------------------------------------------

  /** `createList` yields the given name and owner with no items and no invited users. */
  lemma CreateListYieldsEmptyList(ls: Lists, id: Id, name: string, owner: Id)
    requires id !in ls
    ensures GetListById(CreateList(ls, id, name, owner), id) == Some(List(id, name, owner, false, [], []))
    ensures forall k :: k in ls ==> k in CreateList(ls, id, name, owner) && CreateList(ls, id, name, owner)[k] == ls[k]
  {
  }

  /**
   * `addItem` appends exactly one not-done item with the given fields at
   * the end; earlier items, the list's other fields and other lists stay.
   */
  lemma AddItemAppendsOne(ls: Lists, listId: Id, itemId: Id, order: int, content: string)
    requires listId in ls
    ensures var r := AddItem(ls, listId, itemId, order, content);
      && r.Keys == ls.Keys
      && |r[listId].items| == |ls[listId].items| + 1
      && r[listId].items[..|ls[listId].items|] == ls[listId].items
      && r[listId].items[|ls[listId].items|] == Item(itemId, order, content, false)
      && r[listId].(items := ls[listId].items) == ls[listId]
      && forall k :: k in ls && k != listId ==> r[k] == ls[k]
  {
  }

  /**
   * `updateItem` changes only the first matching item of the named list;
   * the list's other fields and every other list are unchanged, and a list
   * without such an item is left as it was.
   */
  lemma UpdateItemTouchesOneItem(ls: Lists, listId: Id, item: Item)
    ensures var r := UpdateItem(ls, listId, item);
      && r.Keys == ls.Keys
      && (!HoldsItem(ls, listId, item.id) ==> r == ls)
      && (HoldsItem(ls, listId, item.id) ==>
            && r[listId].(items := ls[listId].items) == ls[listId]
            && |r[listId].items| == |ls[listId].items|
            && item in r[listId].items
            && forall j :: 0 <= j < |ls[listId].items| && ls[listId].items[j].id != item.id ==>
                 r[listId].items[j] == ls[listId].items[j])
      && forall k :: k in ls && k != listId ==> r[k] == ls[k]
  {
  }

  /**
   * `deleteItem` removes every item with that id from the named list only,
   * keeps the rest in order, and changes nothing when the id is absent.
   */
  lemma DeleteItemScoped(ls: Lists, listId: Id, itemId: Id)
    ensures var r := DeleteItem(ls, listId, itemId);
      && r.Keys == ls.Keys
      && (listId in ls ==> itemId !in IdsOf(r[listId].items))
      && (listId in ls ==> forall x :: x in ls[listId].items && x.id != itemId ==> x in r[listId].items)
      && (!HoldsItem(ls, listId, itemId) ==> r == ls)
      && forall k :: k in ls && k != listId ==> r[k] == ls[k]
  {
    if listId in ls && !HoldsItem(ls, listId, itemId) {
      assert ls[listId].(items := ls[listId].items) == ls[listId];
    }
  }

  /**
   * `addUserToList` is add-if-absent: the user is invited afterwards, a
   * duplicate-free ACL stays duplicate-free and a repeat call is a no-op.
   */
  lemma {:induction false} AddUserToListIdempotent(ls: Lists, listId: Id, userId: Id)
    requires listId in ls
    ensures var r := AddUserToList(ls, listId, userId);
      && userId in r[listId].invitedUsers
      && (NoDup(ls[listId].invitedUsers) ==> NoDup(r[listId].invitedUsers))
      && AddUserToList(r, listId, userId) == r
      && forall k :: k in ls && k != listId ==> r[k] == ls[k]
  {
    var r := AddUserToList(ls, listId, userId);
    assert r[listId].(invitedUsers := AddToSet(r[listId].invitedUsers, userId)) == r[listId];
  }

  /**
   * `removeUserFromList` removes every occurrence of the user, and removing
   * an absent user leaves the store as it was.
   */
  lemma RemoveUserFromListRemovesAll(ls: Lists, listId: Id, userId: Id)
    requires listId in ls
    ensures var r := RemoveUserFromList(ls, listId, userId);
      && userId !in r[listId].invitedUsers
      && (forall v :: v != userId ==> (v in r[listId].invitedUsers <==> v in ls[listId].invitedUsers))
      && (userId !in ls[listId].invitedUsers ==> r == ls)
      && forall k :: k in ls && k != listId ==> r[k] == ls[k]
  {
    if userId !in ls[listId].invitedUsers {
      assert ls[listId].(invitedUsers := ls[listId].invitedUsers) == ls[listId];
    }
  }

  /** After `deleteList` the list, its items and its ACL are gone; no other list changes. */
  lemma DeleteListRemoves(ls: Lists, id: Id)
    ensures GetListById(DeleteList(ls, id), id) == None
    ensures DeleteList(ls, id).Keys == ls.Keys - {id}
    ensures forall k :: k in ls && k != id ==> DeleteList(ls, id)[k] == ls[k]
  {
  }

  // ----------------------------------------------------------------------
  // The invariant is kept by every contract operation
  // ----------------------------------------------------------------------

  /** Shrinking the item-id sets of lists (or dropping lists) keeps item ids unique. */
  lemma ItemIdsUniqueShrink(ls: Lists, r: Lists)
    requires ItemIdsUnique(ls)
    requires r.Keys <= ls.Keys
    requires forall k :: k in r ==> NoDupIds(r[k].items) && IdsOf(r[k].items) <= IdsOf(ls[k].items)
    ensures ItemIdsUnique(r)
  {
    forall k1, k2 | k1 in r && k2 in r && k1 != k2
      ensures IdsOf(r[k1].items) !! IdsOf(r[k2].items)
    {
      assert IdsOf(ls[k1].items) !! IdsOf(ls[k2].items);
    }
  }

  lemma {:induction false} AppendFreshKeepsNoDupIds(items: seq<Item>, x: Item)
    requires NoDupIds(items) && x.id !in IdsOf(items)
    ensures NoDupIds(items + [x]) && IdsOf(items + [x]) == IdsOf(items) + {x.id}
  {
    var t := items + [x];
    forall i, j | 0 <= i < j < |t| ensures t[i].id != t[j].id {
      if j == |items| {
        assert t[i] == items[i];
        assert items[i] in items;
      } else {
        assert t[i] == items[i] && t[j] == items[j];
      }
    }
    forall y | y in t ensures y.id in IdsOf(items) + {x.id} {
      if y != x { assert y in items; }
    }
  }

  /** A fresh item id keeps item ids unique when `addItem` appends it. */
  lemma AddItemKeepsInv(ls: Lists, listId: Id, itemId: Id, order: int, content: string)
    requires Inv(ls) && ItemIdFresh(ls, itemId)
    ensures Inv(AddItem(ls, listId, itemId, order, content))
  {
    if listId in ls {
      var r := AddItem(ls, listId, itemId, order, content);
      AppendFreshKeepsNoDupIds(ls[listId].items, Item(itemId, order, content, false));
      forall k1, k2 | k1 in r && k2 in r && k1 != k2
        ensures IdsOf(r[k1].items) !! IdsOf(r[k2].items)
      {
        assert IdsOf(ls[k1].items) !! IdsOf(ls[k2].items);
      }
    }
  }

  /**
   * Replacing one list by a list with the same id whose item ids are
   * distinct and among the old ones keeps the invariant.
   */
  lemma ReplaceListKeepsInv(ls: Lists, id: Id, l: List)
    requires Inv(ls) && id in ls && l.id == id
    requires NoDupIds(l.items) && IdsOf(l.items) <= IdsOf(ls[id].items)
    ensures Inv(ls[id := l])
  {
    ItemIdsUniqueShrink(ls, ls[id := l]);
  }

  /** `updateList` keeps the store invariant: it leaves items alone. */
  lemma UpdateListKeepsInv(ls: Lists, id: Id, name: Option<string>, owner: Option<Id>, archived: Option<bool>)
    requires Inv(ls)
    ensures Inv(UpdateList(ls, id, name, owner, archived))
  {
    if id in ls {
      ReplaceListKeepsInv(ls, id, MergeListFields(ls[id], name, owner, archived));
    }
  }

  /** `addUserToList` keeps the store invariant. */
  lemma AddUserToListKeepsInv(ls: Lists, listId: Id, userId: Id)
    requires Inv(ls)
    ensures Inv(AddUserToList(ls, listId, userId))
  {
    if listId in ls {
      ReplaceListKeepsInv(ls, listId, ls[listId].(invitedUsers := AddToSet(ls[listId].invitedUsers, userId)));
    }
  }

  /** `removeUserFromList` keeps the store invariant. */
  lemma RemoveUserFromListKeepsInv(ls: Lists, listId: Id, userId: Id)
    requires Inv(ls)
    ensures Inv(RemoveUserFromList(ls, listId, userId))
  {
    if listId in ls {
      ReplaceListKeepsInv(ls, listId, ls[listId].(invitedUsers := PullUser(ls[listId].invitedUsers, userId)));
    }
  }

  /** `deleteList` keeps the store invariant. */
  lemma DeleteListKeepsInv(ls: Lists, listId: Id)
    requires Inv(ls)
    ensures Inv(DeleteList(ls, listId))
  {
    ItemIdsUniqueShrink(ls, DeleteList(ls, listId));
  }

  /** `updateItem` keeps the store invariant: it keeps the list's item ids. */
  lemma UpdateItemKeepsInv(ls: Lists, listId: Id, item: Item)
    requires Inv(ls)
    ensures Inv(UpdateItem(ls, listId, item))
  {
    if HoldsItem(ls, listId, item.id) {
      ReplaceListKeepsInv(ls, listId, ls[listId].(items := ReplaceFirst(ls[listId].items, item)));
    }
  }

  /** `deleteItem` keeps the store invariant: it only drops item ids. */
  lemma DeleteItemKeepsInv(ls: Lists, listId: Id, itemId: Id)
    requires Inv(ls)
    ensures Inv(DeleteItem(ls, listId, itemId))
  {
    if listId in ls {
      ReplaceListKeepsInv(ls, listId, ls[listId].(items := PullItem(ls[listId].items, itemId)));
    }
  }

  /** A list created under a fresh id keeps the invariant (its item set is empty). */
  lemma CreateListKeepsInv(ls: Lists, id: Id, name: string, owner: Id)
    requires Inv(ls) && id !in ls
    ensures Inv(CreateList(ls, id, name, owner))
  {
    var r := CreateList(ls, id, name, owner);
    forall k1, k2 | k1 in r && k2 in r && k1 != k2
      ensures IdsOf(r[k1].items) !! IdsOf(r[k2].items)
    {
      if k1 != id && k2 != id {
        assert IdsOf(ls[k1].items) !! IdsOf(ls[k2].items);
      }
    }
  }

  /** Appending a user with a name nobody has keeps names unique. */
  lemma CreateUserKeepsNamesUnique(us: seq<User>, id: Id, name: string, bcrypt: Credential)
    requires NamesUnique(us) && !NameTaken(us, name)
    ensures NamesUnique(CreateUser(us, id, name, bcrypt))
  {
    var r := CreateUser(us, id, name, bcrypt);
    forall i, j | 0 <= i < j < |r| ensures r[i].name != r[j].name {
      assert r[i] == us[i];
      if j < |us| { assert r[j] == us[j]; } else { assert us[i] in us; }
    }
  }
}
