/**
 * The relational engine: User, List, Item and ACL tables with foreign keys
 * (Item.listId and ACL.listId to List, List.owner and ACL.userId to User,
 * cascading on delete). `getListById` rebuilds the list aggregate from the
 * rows; `Abs` applies that reconstruction to every List row and is the
 * abstraction under which each method is compared with the contract.
 */
module PostgreDb {
  import opened Wrappers
  import opened Aggregate
  import ListStore

  datatype ListRow = ListRow(id: Id, name: string, owner: Id, archived: bool)
  datatype ItemRow = ItemRow(id: Id, listId: Id, order: int, content: string, isDone: bool)
  datatype AclRow = AclRow(listId: Id, userId: Id)

  // ----------------------------------------------------------------------
  // Reconstruction of the aggregate (getListById)
  // ----------------------------------------------------------------------

  function ToItem(r: ItemRow): Item
  {
    Item(r.id, r.order, r.content, r.isDone)
  }

  /** The Item rows of one list, in table order, as items. */
  function ItemsOf(rows: seq<ItemRow>, listId: Id): seq<Item>
  {
    if rows == [] then []
    else (if rows[0].listId == listId then [ToItem(rows[0])] else []) + ItemsOf(rows[1..], listId)
  }

  /** The `userId`s of the ACL rows of one list, in table order. */
  function InvitedOf(acl: seq<AclRow>, listId: Id): seq<Id>
  {
    if acl == [] then []
    else (if acl[0].listId == listId then [acl[0].userId] else []) + InvitedOf(acl[1..], listId)
  }

  function Assemble(row: ListRow, items: seq<ItemRow>, acl: seq<AclRow>): List
  {
    List(row.id, row.name, row.owner, row.archived, InvitedOf(acl, row.id), ItemsOf(items, row.id))
  }

  /** `getListById` when its queries succeed: absent exactly when no List row has the id. */
  function Rebuild(lists: map<Id, ListRow>, items: seq<ItemRow>, acl: seq<AclRow>, id: Id): Option<List>
  {
    if id in lists then Some(Assemble(lists[id], items, acl)) else None
  }

  /** The abstract store the tables represent. */
  function Abs(lists: map<Id, ListRow>, items: seq<ItemRow>, acl: seq<AclRow>): ListStore.Lists
  {
    map k | k in lists :: Assemble(lists[k], items, acl)
  }

  lemma AbsRebuild(lists: map<Id, ListRow>, items: seq<ItemRow>, acl: seq<AclRow>, id: Id)
    ensures Rebuild(lists, items, acl, id) == ListStore.GetListById(Abs(lists, items, acl), id)
  {
  }

  lemma ItemsOfCons(r: ItemRow, rows: seq<ItemRow>, listId: Id)
    ensures ItemsOf([r] + rows, listId) == (if r.listId == listId then [ToItem(r)] else []) + ItemsOf(rows, listId)
  {
    assert ([r] + rows)[1..] == rows;
  }

  lemma InvitedOfCons(a: AclRow, acl: seq<AclRow>, listId: Id)
    ensures InvitedOf([a] + acl, listId) == (if a.listId == listId then [a.userId] else []) + InvitedOf(acl, listId)
  {
    assert ([a] + acl)[1..] == acl;
  }

  /** A rebuilt aggregate's items are exactly the Item rows that carry the list's id. */
  lemma {:induction false} ItemsOfExactly(rows: seq<ItemRow>, listId: Id)
    ensures forall x :: x in ItemsOf(rows, listId) <==> exists r :: r in rows && r.listId == listId && ToItem(r) == x
  {
    if rows != [] {
      ItemsOfExactly(rows[1..], listId);
      assert rows == [rows[0]] + rows[1..];
      ItemsOfCons(rows[0], rows[1..], listId);
    }
  }

  /** A rebuilt aggregate's invited users are exactly the users of the ACL rows that carry the list's id. */
  lemma {:induction false} InvitedOfExactly(acl: seq<AclRow>, listId: Id)
    ensures forall u :: u in InvitedOf(acl, listId) <==> AclRow(listId, u) in acl
  {
    if acl != [] {
      InvitedOfExactly(acl[1..], listId);
      assert acl == [acl[0]] + acl[1..];
      InvitedOfCons(acl[0], acl[1..], listId);
    }
  }

  // ----------------------------------------------------------------------
  // Row-level writes
  // ----------------------------------------------------------------------

  /** `List.update(fields, { where: { _id: id } })`: supplied fields replace the row's. */
  function UpdateListRows(lists: map<Id, ListRow>, id: Id, name: Option<string>, owner: Option<Id>,
                          archived: Option<bool>): map<Id, ListRow>
  {
    if id in lists then
      lists[id := lists[id].(
        name := if name.Some? then name.value else lists[id].name,
        owner := if owner.Some? then owner.value else lists[id].owner,
        archived := if archived.Some? then archived.value else lists[id].archived)]
    else lists
  }

  /** `Item.update({ order, content, isDone }, { where: { _id: item._id } })`. */
  function UpdateItemRows(rows: seq<ItemRow>, item: Item): seq<ItemRow>
  {
    if rows == [] then []
    else
      [if rows[0].id == item.id
       then rows[0].(order := item.order, content := item.content, isDone := item.isDone)
       else rows[0]] + UpdateItemRows(rows[1..], item)
  }

  /** `Item.destroy({ where: { _id: itemId } })`. */
  function DestroyItemRows(rows: seq<ItemRow>, itemId: Id): seq<ItemRow>
  {
    if rows == [] then []
    else (if rows[0].id == itemId then [] else [rows[0]]) + DestroyItemRows(rows[1..], itemId)
  }

  /** The cascade from List to Item: rows of the removed lists go. */
  function DestroyItemsOfLists(rows: seq<ItemRow>, gone: set<Id>): seq<ItemRow>
  {
    if rows == [] then []
    else (if rows[0].listId in gone then [] else [rows[0]]) + DestroyItemsOfLists(rows[1..], gone)
  }

  /** `ACL.destroy({ where: { listId, userId } })`. */
  function DestroyAclPair(acl: seq<AclRow>, listId: Id, userId: Id): seq<AclRow>
  {
    if acl == [] then []
    else (if acl[0] == AclRow(listId, userId) then [] else [acl[0]]) + DestroyAclPair(acl[1..], listId, userId)
  }

  /** The cascades into ACL: rows of the removed lists and of the removed user go. */
  function DestroyAclOf(acl: seq<AclRow>, gone: set<Id>, userId: Option<Id>): seq<AclRow>
  {
    if acl == [] then []
    else
      (if acl[0].listId in gone || Some(acl[0].userId) == userId then [] else [acl[0]])
      + DestroyAclOf(acl[1..], gone, userId)
  }

  /** The ids of the lists a user owns: the rows the List-owner cascade removes. */
  function OwnedBy(lists: map<Id, ListRow>, userId: Id): set<Id>
  {
    set k | k in lists && lists[k].owner == userId
  }

  function DropLists(lists: map<Id, ListRow>, gone: set<Id>): map<Id, ListRow>
  {
    map k | k in lists && k !in gone :: lists[k]
  }

  function DestroyUserRows(users: seq<User>, userId: Id): seq<User>
  {
    if users == [] then []
    else (if users[0].id == userId then [] else [users[0]]) + DestroyUserRows(users[1..], userId)
  }

  // ----------------------------------------------------------------------
  // How the row writes show through the reconstruction
  // ----------------------------------------------------------------------

  lemma PullUserCons(x: Id, us: seq<Id>, u: Id)
    ensures PullUser([x] + us, u) == (if x == u then [] else [x]) + PullUser(us, u)
  {
    assert ([x] + us)[1..] == us;
  }

  lemma PullItemCons(x: Item, items: seq<Item>, id: Id)
    ensures PullItem([x] + items, id) == (if x.id == id then [] else [x]) + PullItem(items, id)
  {
    assert ([x] + items)[1..] == items;
  }

  lemma ReplaceAllCons(x: Item, items: seq<Item>, item: Item)
    ensures ReplaceAll([x] + items, item) == [if x.id == item.id then item else x] + ReplaceAll(items, item)
  {
    assert ([x] + items)[1..] == items;
  }

  lemma {:induction false} ItemsOfAppend(rows: seq<ItemRow>, x: ItemRow, listId: Id)
    ensures ItemsOf(rows + [x], listId) == ItemsOf(rows, listId) + (if x.listId == listId then [ToItem(x)] else [])
  {
    if rows == [] {
      assert rows + [x] == [x] + [];
      ItemsOfCons(x, [], listId);
    } else {
      assert rows + [x] == [rows[0]] + (rows[1..] + [x]);
      assert rows == [rows[0]] + rows[1..];
      ItemsOfAppend(rows[1..], x, listId);
      ItemsOfCons(rows[0], rows[1..] + [x], listId);
      ItemsOfCons(rows[0], rows[1..], listId);
    }
  }

  lemma {:induction false} ItemsOfNone(rows: seq<ItemRow>, listId: Id)
    requires forall r :: r in rows ==> r.listId != listId
    ensures ItemsOf(rows, listId) == []
  {
    if rows != [] {
      assert rows[0] in rows;
      assert forall r :: r in rows[1..] ==> r in rows;
      ItemsOfNone(rows[1..], listId);
    }
  }

  lemma {:induction false} InvitedOfNone(acl: seq<AclRow>, listId: Id)
    requires forall a :: a in acl ==> a.listId != listId
    ensures InvitedOf(acl, listId) == []
  {
    if acl != [] {
      assert acl[0] in acl;
      assert forall a :: a in acl[1..] ==> a in acl;
      InvitedOfNone(acl[1..], listId);
    }
  }

  lemma {:induction false} ItemsOfUpdate(rows: seq<ItemRow>, item: Item, listId: Id)
    ensures ItemsOf(UpdateItemRows(rows, item), listId) == ReplaceAll(ItemsOf(rows, listId), item)
  {
    if rows != [] {
      var r, rest := rows[0], rows[1..];
      var r' := if r.id == item.id then r.(order := item.order, content := item.content, isDone := item.isDone) else r;
      ItemsOfUpdate(rest, item, listId);
      assert rows == [r] + rest;
      assert UpdateItemRows(rows, item) == [r'] + UpdateItemRows(rest, item);
      ItemsOfCons(r, rest, listId);
      ItemsOfCons(r', UpdateItemRows(rest, item), listId);
      if r.listId == listId {
        ReplaceAllCons(ToItem(r), ItemsOf(rest, listId), item);
      } else {
        assert ItemsOf(rows, listId) == ItemsOf(rest, listId);
      }
    }
  }

  lemma {:induction false} ItemsOfDestroy(rows: seq<ItemRow>, itemId: Id, listId: Id)
    ensures ItemsOf(DestroyItemRows(rows, itemId), listId) == PullItem(ItemsOf(rows, listId), itemId)
  {
    if rows != [] {
      var r, rest := rows[0], rows[1..];
      var d := DestroyItemRows(rest, itemId);
      ItemsOfDestroy(rest, itemId, listId);
      assert rows == [r] + rest;
      ItemsOfCons(r, rest, listId);
      if r.id == itemId {
        assert DestroyItemRows(rows, itemId) == d;
      } else {
        assert DestroyItemRows(rows, itemId) == [r] + d;
        ItemsOfCons(r, d, listId);
      }
      if r.listId == listId {
        PullItemCons(ToItem(r), ItemsOf(rest, listId), itemId);
      } else {
        assert ItemsOf(rows, listId) == ItemsOf(rest, listId);
        assert ItemsOf(DestroyItemRows(rows, itemId), listId) == ItemsOf(d, listId);
      }
    }
  }

  /** One rebuilt list after destroying Item rows by id. */
  lemma AssembleDestroy(row: ListRow, items: seq<ItemRow>, acl: seq<AclRow>, itemId: Id)
    ensures Assemble(row, DestroyItemRows(items, itemId), acl)
         == Assemble(row, items, acl).(items := PullItem(Assemble(row, items, acl).items, itemId))
  {
    ItemsOfDestroy(items, itemId, row.id);
  }

  lemma {:induction false} ItemsOfCascade(rows: seq<ItemRow>, gone: set<Id>, listId: Id)
    requires listId !in gone
    ensures ItemsOf(DestroyItemsOfLists(rows, gone), listId) == ItemsOf(rows, listId)
  {
    if rows != [] {
      var r, rest := rows[0], rows[1..];
      var d := DestroyItemsOfLists(rest, gone);
      ItemsOfCascade(rest, gone, listId);
      assert rows == [r] + rest;
      ItemsOfCons(r, rest, listId);
      if r.listId in gone {
        assert DestroyItemsOfLists(rows, gone) == d;
        assert ItemsOf(rows, listId) == ItemsOf(rest, listId);
      } else {
        assert DestroyItemsOfLists(rows, gone) == [r] + d;
        ItemsOfCons(r, d, listId);
      }
    }
  }

  lemma {:induction false} InvitedOfAppend(acl: seq<AclRow>, a: AclRow, listId: Id)
    ensures InvitedOf(acl + [a], listId) == InvitedOf(acl, listId) + (if a.listId == listId then [a.userId] else [])
  {
    if acl == [] {
      assert acl + [a] == [a] + [];
      InvitedOfCons(a, [], listId);
    } else {
      assert acl + [a] == [acl[0]] + (acl[1..] + [a]);
      assert acl == [acl[0]] + acl[1..];
      InvitedOfAppend(acl[1..], a, listId);
      InvitedOfCons(acl[0], acl[1..] + [a], listId);
      InvitedOfCons(acl[0], acl[1..], listId);
    }
  }

  lemma {:induction false} InvitedOfDestroyPair(acl: seq<AclRow>, l: Id, u: Id, listId: Id)
    ensures InvitedOf(DestroyAclPair(acl, l, u), listId)
         == if listId == l then PullUser(InvitedOf(acl, listId), u) else InvitedOf(acl, listId)
  {
    if acl != [] {
      var a, rest := acl[0], acl[1..];
      var d := DestroyAclPair(rest, l, u);
      InvitedOfDestroyPair(rest, l, u, listId);
      assert acl == [a] + rest;
      InvitedOfCons(a, rest, listId);
      if a == AclRow(l, u) {
        assert DestroyAclPair(acl, l, u) == d;
      } else {
        assert DestroyAclPair(acl, l, u) == [a] + d;
        InvitedOfCons(a, d, listId);
      }
      if a.listId == listId {
        PullUserCons(a.userId, InvitedOf(rest, listId), u);
      } else {
        assert InvitedOf(acl, listId) == InvitedOf(rest, listId);
      }
    }
  }

  lemma {:induction false} InvitedOfCascade(acl: seq<AclRow>, gone: set<Id>, userId: Option<Id>, listId: Id)
    requires listId !in gone
    ensures InvitedOf(DestroyAclOf(acl, gone, userId), listId)
         == if userId.Some? then PullUser(InvitedOf(acl, listId), userId.value) else InvitedOf(acl, listId)
  {
    if acl != [] {
      var a, rest := acl[0], acl[1..];
      var d := DestroyAclOf(rest, gone, userId);
      InvitedOfCascade(rest, gone, userId, listId);
      assert acl == [a] + rest;
      InvitedOfCons(a, rest, listId);
      if a.listId in gone || Some(a.userId) == userId {
        assert DestroyAclOf(acl, gone, userId) == d;
      } else {
        assert DestroyAclOf(acl, gone, userId) == [a] + d;
        InvitedOfCons(a, d, listId);
      }
      if a.listId == listId {
        if userId.Some? {
          PullUserCons(a.userId, InvitedOf(rest, listId), userId.value);
        }
      } else {
        assert InvitedOf(acl, listId) == InvitedOf(rest, listId);
      }
    }
  }

  // ----------------------------------------------------------------------
  // The relational semantics where the code ignores `listId`
  // ----------------------------------------------------------------------

  /** `updateItem` overwrites the item with that id in whichever list holds it. */
  function UpdateItemEverywhere(ls: ListStore.Lists, item: Item): ListStore.Lists
  {
    map k | k in ls :: ls[k].(items := ReplaceAll(ls[k].items, item))
  }

  /** `deleteItem` destroys the item with that id in whichever list holds it. */
  function DeleteItemEverywhere(ls: ListStore.Lists, itemId: Id): ListStore.Lists
  {
    map k | k in ls :: ls[k].(items := PullItem(ls[k].items, itemId))
  }

  /** An accepted `ACL.create`: the user is appended to the list's ACL. */
  function AppendAclEntry(ls: ListStore.Lists, listId: Id, userId: Id): ListStore.Lists
  {
    if listId in ls then ls[listId := ls[listId].(invitedUsers := ls[listId].invitedUsers + [userId])] else ls
  }

  /** Deleting a user removes the lists they own and their ACL entries everywhere. */
  function DestroyUserCascade(ls: ListStore.Lists, userId: Id): ListStore.Lists
  {
    map k | k in ls && ls[k].owner != userId :: ls[k].(invitedUsers := PullUser(ls[k].invitedUsers, userId))
  }

  /**
   * Where the item belongs to the named list (and item ids are unique),
   * the relational `updateItem` agrees with the contract.
   */
  lemma UpdateItemAgrees(ls: ListStore.Lists, listId: Id, item: Item)
    requires ListStore.ItemIdsUnique(ls) && ListStore.HoldsItem(ls, listId, item.id)
    ensures UpdateItemEverywhere(ls, item) == ListStore.UpdateItem(ls, listId, item)
  {
    var a, b := UpdateItemEverywhere(ls, item), ListStore.UpdateItem(ls, listId, item);
    forall k | k in ls ensures a[k] == b[k] {
      if k == listId {
        ReplaceAllIsReplaceFirst(ls[k].items, item);
      } else {
        assert IdsOf(ls[k].items) !! IdsOf(ls[listId].items);
        forall j | 0 <= j < |ls[k].items| ensures ls[k].items[j].id != item.id {
          assert ls[k].items[j] in ls[k].items;
        }
        assert ReplaceAll(ls[k].items, item) == ls[k].items;
      }
    }
  }

  /**
   * Where no other list holds the item, the relational `deleteItem` agrees
   * with the contract; the lemma DeleteItemCrossesLists shows that
   * otherwise it does not.
   */
  lemma DeleteItemAgrees(ls: ListStore.Lists, listId: Id, itemId: Id)
    requires listId in ls
    requires forall k :: k in ls && k != listId ==> itemId !in IdsOf(ls[k].items)
    ensures DeleteItemEverywhere(ls, itemId) == ListStore.DeleteItem(ls, listId, itemId)
  {
  }

  /** Where the user is not yet invited, inserting an ACL row agrees with `$addToSet`. */
  lemma AddUserAgrees(ls: ListStore.Lists, listId: Id, userId: Id)
    requires listId in ls ==> userId !in ls[listId].invitedUsers
    ensures AppendAclEntry(ls, listId, userId) == ListStore.AddUserToList(ls, listId, userId)
  {
  }

  /**
   * The relational `deleteItem` reaches into a list other than the named
   * one: with the item `x` in list `B`, deleting it "from" list `A`
   * removes it from `B`, where the contract leaves `B` alone.
   */
  lemma DeleteItemCrossesLists()
    ensures var x := Item("x", 1, "Milk", false);
      var ls := map["A" := List("A", "mine", "u", false, [], []),
                    "B" := List("B", "theirs", "v", false, [], [x])];
      && !CanAccess(ls["B"], "u")
      && DeleteItemEverywhere(ls, "x")["B"].items == []
      && ListStore.DeleteItem(ls, "A", "x")["B"].items == [x]
  {
    var x := Item("x", 1, "Milk", false);
    assert PullItem([x], "x") == [];
  }

  /**
   * Under the composite key on ACL, a rebuilt list never names a user twice:
   * the relational ACL is a set, as `$addToSet` keeps the document's.
   */
  lemma {:induction false} InvitedOfNoDup(acl: seq<AclRow>, listId: Id)
    requires AclKeyUnique(acl)
    ensures NoDup(InvitedOf(acl, listId))
  {
    if acl != [] {
      var a, rest := acl[0], acl[1..];
      assert acl == [a] + rest;
      AclKeyUniqueCons(a, rest);
      InvitedOfNoDup(rest, listId);
      InvitedOfCons(a, rest, listId);
      if a.listId == listId {
        InvitedOfExactly(rest, listId);
        var t := InvitedOf(rest, listId);
        assert a.userId !in t;
        forall i, j | 0 <= i < j < |[a.userId] + t| ensures ([a.userId] + t)[i] != ([a.userId] + t)[j] {
          if i == 0 {
            assert ([a.userId] + t)[j] == t[j - 1];
          }
        }
      }
    }
  }

  lemma EverywhereKeepsInv(ls: ListStore.Lists, item: Item, itemId: Id)
    requires ListStore.Inv(ls)
    ensures ListStore.Inv(UpdateItemEverywhere(ls, item))
    ensures ListStore.Inv(DeleteItemEverywhere(ls, itemId))
  {
    var u := UpdateItemEverywhere(ls, item);
    forall k | k in u ensures NoDupIds(u[k].items) && IdsOf(u[k].items) <= IdsOf(ls[k].items) {
      var s := ls[k].items;
      forall y | y in ReplaceAll(s, item) ensures y.id in IdsOf(s) {
        var j :| 0 <= j < |s| && ReplaceAll(s, item)[j] == y;
        assert s[j] in s;
      }
    }
    ListStore.ItemIdsUniqueShrink(ls, u);
    ListStore.ItemIdsUniqueShrink(ls, DeleteItemEverywhere(ls, itemId));
  }

  // ----------------------------------------------------------------------
  // Keys and foreign keys
  // ----------------------------------------------------------------------

  /** The primary key of List: every row is stored under its own id. */
  predicate ListKeys(lists: map<Id, ListRow>)
  {
    forall k :: k in lists ==> lists[k].id == k
  }

  /** List.owner references User. */
  predicate OwnersExist(lists: map<Id, ListRow>, users: seq<User>)
  {
    forall k :: k in lists ==> lists[k].owner in ListStore.UserIds(users)
  }

  /** Item.listId references List. */
  predicate ItemRowsRefer(items: seq<ItemRow>, lists: map<Id, ListRow>)
  {
    forall r :: r in items ==> r.listId in lists
  }

  /** ACL.listId references List and ACL.userId references User. */
  predicate AclRowsRefer(acl: seq<AclRow>, lists: map<Id, ListRow>, users: seq<User>)
  {
    forall a :: a in acl ==> a.listId in lists && a.userId in ListStore.UserIds(users)
  }

  /**
   * The key of ACL: the two many-to-many associations through ACL make the
   * pair (listId, userId) its primary key, so no pair is stored twice.
   */
  predicate AclKeyUnique(acl: seq<AclRow>)
  {
    forall i, j :: 0 <= i < j < |acl| ==> acl[i] != acl[j]
  }

  /** The primary key of User. */
  predicate UserIdsDistinct(users: seq<User>)
  {
    forall i, j :: 0 <= i < j < |users| ==> users[i].id != users[j].id
  }

  lemma AbsWellKeyed(lists: map<Id, ListRow>, items: seq<ItemRow>, acl: seq<AclRow>)
    requires ListKeys(lists)
    ensures ListStore.WellKeyed(Abs(lists, items, acl))
  {
  }

  // ----------------------------------------------------------------------
  // Each write, seen through the reconstruction, is a contract operation
  // ----------------------------------------------------------------------

  /** A new List row with no Item or ACL rows under its id is `createList`. */
  lemma AbsCreateList(lists: map<Id, ListRow>, items: seq<ItemRow>, acl: seq<AclRow>, users: seq<User>,
                      id: Id, name: string, owner: Id)
    requires id !in lists && ItemRowsRefer(items, lists) && AclRowsRefer(acl, lists, users)
    ensures Abs(lists[id := ListRow(id, name, owner, false)], items, acl)
         == ListStore.CreateList(Abs(lists, items, acl), id, name, owner)
  {
    ItemsOfNone(items, id);
    InvitedOfNone(acl, id);
    var a := Abs(lists[id := ListRow(id, name, owner, false)], items, acl);
    var b := ListStore.CreateList(Abs(lists, items, acl), id, name, owner);
    assert a.Keys == b.Keys;
    forall k | k in a ensures a[k] == b[k] {
    }
  }

  lemma AbsUpdateList(lists: map<Id, ListRow>, items: seq<ItemRow>, acl: seq<AclRow>,
                      id: Id, name: Option<string>, owner: Option<Id>, archived: Option<bool>)
    ensures Abs(UpdateListRows(lists, id, name, owner, archived), items, acl)
         == ListStore.UpdateList(Abs(lists, items, acl), id, name, owner, archived)
  {
    var a := Abs(UpdateListRows(lists, id, name, owner, archived), items, acl);
    var b := ListStore.UpdateList(Abs(lists, items, acl), id, name, owner, archived);
    assert a.Keys == b.Keys;
    forall k | k in a ensures a[k] == b[k] {
    }
  }

  /** Updating a List row keeps the keys, and the owner foreign key when a new owner is a user. */
  lemma UpdateListRowsKeys(lists: map<Id, ListRow>, users: seq<User>, id: Id,
                           name: Option<string>, owner: Option<Id>, archived: Option<bool>)
    requires ListKeys(lists) && OwnersExist(lists, users)
    requires id in lists && owner.Some? ==> owner.value in ListStore.UserIds(users)
    ensures UpdateListRows(lists, id, name, owner, archived).Keys == lists.Keys
    ensures ListKeys(UpdateListRows(lists, id, name, owner, archived))
    ensures OwnersExist(UpdateListRows(lists, id, name, owner, archived), users)
  {
  }

  /** Deleting a List row with its cascades is `deleteList`. */
  lemma AbsDeleteList(lists: map<Id, ListRow>, items: seq<ItemRow>, acl: seq<AclRow>, id: Id)
    requires ListKeys(lists)
    ensures Abs(lists - {id}, DestroyItemsOfLists(items, {id}), DestroyAclOf(acl, {id}, None))
         == ListStore.DeleteList(Abs(lists, items, acl), id)
  {
    var a := Abs(lists - {id}, DestroyItemsOfLists(items, {id}), DestroyAclOf(acl, {id}, None));
    var b := ListStore.DeleteList(Abs(lists, items, acl), id);
    assert a.Keys == b.Keys;
    forall k | k in a ensures a[k] == b[k] {
      ItemsOfCascade(items, {id}, k);
      InvitedOfCascade(acl, {id}, None, k);
    }
  }

  /** Deleting a User row with its cascades is DestroyUserCascade. */
  lemma AbsDestroyUser(lists: map<Id, ListRow>, items: seq<ItemRow>, acl: seq<AclRow>, userId: Id)
    requires ListKeys(lists)
    ensures var gone := OwnedBy(lists, userId);
      Abs(DropLists(lists, gone), DestroyItemsOfLists(items, gone), DestroyAclOf(acl, gone, Some(userId)))
      == DestroyUserCascade(Abs(lists, items, acl), userId)
  {
    var gone := OwnedBy(lists, userId);
    var a := Abs(DropLists(lists, gone), DestroyItemsOfLists(items, gone), DestroyAclOf(acl, gone, Some(userId)));
    var b := DestroyUserCascade(Abs(lists, items, acl), userId);
    assert a.Keys == b.Keys;
    forall k | k in a ensures a[k] == b[k] {
      ItemsOfCascade(items, gone, k);
      InvitedOfCascade(acl, gone, Some(userId), k);
    }
  }

  /** Appending an Item row (not done) under an existing list is `addItem`. */
  lemma AbsAddItem(lists: map<Id, ListRow>, items: seq<ItemRow>, acl: seq<AclRow>, row: ItemRow)
    requires ListKeys(lists) && row.listId in lists && !row.isDone
    ensures Abs(lists, items + [row], acl)
         == ListStore.AddItem(Abs(lists, items, acl), row.listId, row.id, row.order, row.content)
  {
    var a := Abs(lists, items + [row], acl);
    var b := ListStore.AddItem(Abs(lists, items, acl), row.listId, row.id, row.order, row.content);
    assert a.Keys == b.Keys;
    forall k | k in a ensures a[k] == b[k] {
      ItemsOfAppend(items, row, k);
    }
  }

  lemma AbsUpdateItem(lists: map<Id, ListRow>, items: seq<ItemRow>, acl: seq<AclRow>, item: Item)
    ensures Abs(lists, UpdateItemRows(items, item), acl) == UpdateItemEverywhere(Abs(lists, items, acl), item)
  {
    var a := Abs(lists, UpdateItemRows(items, item), acl);
    var b := UpdateItemEverywhere(Abs(lists, items, acl), item);
    assert a.Keys == b.Keys;
    forall k | k in a ensures a[k] == b[k] {
      ItemsOfUpdate(items, item, lists[k].id);
    }
  }

  lemma AbsDeleteItem(lists: map<Id, ListRow>, items: seq<ItemRow>, acl: seq<AclRow>, itemId: Id)
    ensures Abs(lists, DestroyItemRows(items, itemId), acl) == DeleteItemEverywhere(Abs(lists, items, acl), itemId)
  {
    var d := DestroyItemRows(items, itemId);
    forall k | k in lists
      ensures Assemble(lists[k], d, acl)
           == Assemble(lists[k], items, acl).(items := PullItem(Assemble(lists[k], items, acl).items, itemId))
    {
      AssembleDestroy(lists[k], items, acl, itemId);
    }
  }

  lemma AbsAddAcl(lists: map<Id, ListRow>, items: seq<ItemRow>, acl: seq<AclRow>, listId: Id, userId: Id)
    requires ListKeys(lists) && listId in lists
    ensures Abs(lists, items, acl + [AclRow(listId, userId)])
         == AppendAclEntry(Abs(lists, items, acl), listId, userId)
  {
    var a := Abs(lists, items, acl + [AclRow(listId, userId)]);
    var b := AppendAclEntry(Abs(lists, items, acl), listId, userId);
    assert a.Keys == b.Keys;
    forall k | k in a ensures a[k] == b[k] {
      InvitedOfAppend(acl, AclRow(listId, userId), k);
    }
  }

  /**
   * `addUserToList` under ACL's key: a stored pair is exactly an invited
   * user, whom `$addToSet` leaves alone; otherwise the insert is `$addToSet`.
   */
  lemma AbsAddAclChecked(lists: map<Id, ListRow>, items: seq<ItemRow>, acl: seq<AclRow>, listId: Id, userId: Id)
    requires ListKeys(lists) && listId in lists
    ensures userId in Abs(lists, items, acl)[listId].invitedUsers <==> AclRow(listId, userId) in acl
    ensures AclRow(listId, userId) in acl ==>
      ListStore.AddUserToList(Abs(lists, items, acl), listId, userId) == Abs(lists, items, acl)
    ensures AclRow(listId, userId) !in acl ==>
      && Abs(lists, items, acl + [AclRow(listId, userId)]) == AppendAclEntry(Abs(lists, items, acl), listId, userId)
      && AppendAclEntry(Abs(lists, items, acl), listId, userId) == ListStore.AddUserToList(Abs(lists, items, acl), listId, userId)
  {
    var ls := Abs(lists, items, acl);
    assert lists[listId].id == listId;
    InvitedOfExactly(acl, listId);
    assert ls[listId].invitedUsers == InvitedOf(acl, listId);
    if AclRow(listId, userId) in acl {
      assert ls[listId].(invitedUsers := ls[listId].invitedUsers) == ls[listId];
    } else {
      AbsAddAcl(lists, items, acl, listId, userId);
      AddUserAgrees(ls, listId, userId);
    }
  }

  /** Destroying the ACL rows of a pair is `removeUserFromList`. */
  lemma AbsRemoveAcl(lists: map<Id, ListRow>, items: seq<ItemRow>, acl: seq<AclRow>, listId: Id, userId: Id)
    requires ListKeys(lists)
    ensures Abs(lists, items, DestroyAclPair(acl, listId, userId))
         == ListStore.RemoveUserFromList(Abs(lists, items, acl), listId, userId)
  {
    var ls := Abs(lists, items, acl);
    var a := Abs(lists, items, DestroyAclPair(acl, listId, userId));
    var b := ListStore.RemoveUserFromList(ls, listId, userId);
    assert a.Keys == b.Keys;
    forall k | k in a ensures a[k] == b[k] {
      AssembleDestroyPair(lists[k], items, acl, listId, userId);
    }
  }

  lemma AssembleDestroyPair(row: ListRow, items: seq<ItemRow>, acl: seq<AclRow>, listId: Id, userId: Id)
    ensures Assemble(row, items, DestroyAclPair(acl, listId, userId))
         == if row.id == listId
            then Assemble(row, items, acl).(invitedUsers := PullUser(InvitedOf(acl, row.id), userId))
            else Assemble(row, items, acl)
  {
    InvitedOfDestroyPair(acl, listId, userId, row.id);
  }

  // ----------------------------------------------------------------------
  // The engine
  // ----------------------------------------------------------------------

  class PostgreEngine {
    var users: seq<User>
    var listRows: map<Id, ListRow>
    var itemRows: seq<ItemRow>
    var aclRows: seq<AclRow>

    /** The list aggregates the tables represent. */
    function Lists(): ListStore.Lists
      reads this
    {
      Abs(listRows, itemRows, aclRows)
    }

    /** Primary keys (ACL's composite one included), the unique user name, the foreign keys, and unique item ids. */
    ghost predicate Valid()
      reads this
    {
      && ListKeys(listRows)
      && OwnersExist(listRows, users)
      && ItemRowsRefer(itemRows, listRows)
      && AclRowsRefer(aclRows, listRows, users)
      && AclKeyUnique(aclRows)
      && UserIdsDistinct(users)
      && ListStore.NamesUnique(users)
      && ListStore.ItemIdsUnique(Lists())
    }

    constructor ()
      ensures Valid() && users == [] && listRows == map[] && itemRows == [] && aclRows == []
      ensures Lists() == map[]
    {
      users, listRows, itemRows, aclRows := [], map[], [], [];
    }

    /** `User.create`; the unique constraint on `name` refuses a taken name. */
    method CreateUser(name: string, bcrypt: Credential, id: Id) returns (r: Result<User, StoreError>)
      requires Valid() && id !in ListStore.UserIds(users)
      modifies this
      ensures Valid()
      ensures ListStore.NameTaken(old(users), name) ==> r == Failure(UniqueViolation) && users == old(users)
      ensures !ListStore.NameTaken(old(users), name) ==>
        r == Success(User(id, name, bcrypt)) && users == ListStore.CreateUser(old(users), id, name, bcrypt)
      ensures listRows == old(listRows) && itemRows == old(itemRows) && aclRows == old(aclRows)
    {
      if ListStore.GetUserByName(users, name).Some? {
        r := Failure(UniqueViolation);
      } else {
        ListStore.CreateUserKeepsNamesUnique(users, id, name, bcrypt);
        var u := User(id, name, bcrypt);
        UserIdsAppend(users, u);
        users := users + [u];
        r := Success(u);
      }
    }

    method GetUserById(id: Id) returns (r: Option<User>)
      ensures r.None? <==> id !in ListStore.UserIds(users)
      ensures r.Some? ==> r.value in users && r.value.id == id
    {
      r := ListStore.GetUserById(users, id);
    }

    method GetUserByName(name: string) returns (r: Option<User>)
      ensures r.None? <==> !ListStore.NameTaken(users, name)
      ensures r.Some? ==> r.value in users && r.value.name == name
      ensures r == ListStore.GetUserByName(users, name)
    {
      r := ListStore.GetUserByName(users, name);
    }

    /** `List.create`; the foreign key on `owner` refuses an unknown user. */
    method CreateList(name: string, owner: Id, id: Id) returns (r: Result<List, StoreError>)
      requires Valid() && id !in listRows
      modifies this
      ensures Valid() && users == old(users)
      ensures owner !in ListStore.UserIds(users) ==>
        r == Failure(ForeignKeyViolation) && Lists() == old(Lists())
      ensures owner in ListStore.UserIds(users) ==>
        && r == Success(NewList(id, name, owner))
        && Lists() == ListStore.CreateList(old(Lists()), id, name, owner)
    {
      if ListStore.GetUserById(users, owner).None? {
        r := Failure(ForeignKeyViolation);
      } else {
        AbsCreateList(listRows, itemRows, aclRows, users, id, name, owner);
        AbsWellKeyed(listRows, itemRows, aclRows);
        ListStore.CreateListKeepsInv(Lists(), id, name, owner);
        listRows := listRows[id := ListRow(id, name, owner, false)];
        r := Success(NewList(id, name, owner));
      }
    }

    /** `getListById`: the reconstruction, or absent when a query throws. */
    method GetListById(id: Id, queryFails: bool) returns (r: Option<List>)
      requires Valid()
      ensures queryFails ==> r.None?
      ensures !queryFails ==> r == ListStore.GetListById(Lists(), id)
      ensures !queryFails && r.Some? ==>
        && r.value.items == ItemsOf(itemRows, id)
        && r.value.invitedUsers == InvitedOf(aclRows, id)
    {
      if queryFails {
        r := None;
      } else {
        r := Rebuild(listRows, itemRows, aclRows, id);
        if id in listRows {
          assert listRows[id].id == id;
        }
      }
    }

    /** `List.update(fields, { where: { _id } })` then `getListById`. */
    method UpdateList(id: Id, name: Option<string>, owner: Option<Id>, archived: Option<bool>)
      returns (r: Result<Option<List>, StoreError>)
      requires Valid()
      modifies this
      ensures Valid() && users == old(users)
      ensures id in old(listRows) && owner.Some? && owner.value !in ListStore.UserIds(users) ==>
        r == Failure(ForeignKeyViolation) && Lists() == old(Lists())
      ensures !(id in old(listRows) && owner.Some? && owner.value !in ListStore.UserIds(users)) ==>
        && Lists() == ListStore.UpdateList(old(Lists()), id, name, owner, archived)
        && r == Success(ListStore.GetListById(Lists(), id))
    {
      if id in listRows && owner.Some? && ListStore.GetUserById(users, owner.value).None? {
        r := Failure(ForeignKeyViolation);
      } else {
        AbsWellKeyed(listRows, itemRows, aclRows);
        ListStore.UpdateListKeepsInv(Lists(), id, name, owner, archived);
        AbsUpdateList(listRows, itemRows, aclRows, id, name, owner, archived);
        UpdateListRowsKeys(listRows, users, id, name, owner, archived);
        listRows := UpdateListRows(listRows, id, name, owner, archived);
        r := Success(Rebuild(listRows, itemRows, aclRows, id));
      }
    }

    /** `List.destroy`, cascading to the list's Item and ACL rows. */
    method DeleteList(id: Id)
      requires Valid()
      modifies this
      ensures Valid() && users == old(users)
      ensures listRows == old(listRows) - {id}
      ensures itemRows == DestroyItemsOfLists(old(itemRows), {id})
      ensures aclRows == DestroyAclOf(old(aclRows), {id}, None)
      ensures Lists() == ListStore.DeleteList(old(Lists()), id)
    {
      AbsWellKeyed(listRows, itemRows, aclRows);
      ListStore.DeleteListKeepsInv(Lists(), id);
      AbsDeleteList(listRows, itemRows, aclRows, id);
      ItemRowsCascadeKept(itemRows, {id});
      AclRowsCascadeKept(aclRows, {id}, None);
      AclCascadeUnique(aclRows, {id}, None);
      listRows := listRows - {id};
      itemRows := DestroyItemsOfLists(itemRows, {id});
      aclRows := DestroyAclOf(aclRows, {id}, None);
    }

    /** `Item.create` under `listId` with `isDone = false`, then `getListById`. */
    method AddItem(listId: Id, order: int, content: string, itemId: Id)
      returns (r: Result<Option<List>, StoreError>)
      requires Valid() && ListStore.ItemIdFresh(Lists(), itemId)
      modifies this
      ensures Valid() && users == old(users)
      ensures listId !in old(listRows) ==> r == Failure(ForeignKeyViolation) && Lists() == old(Lists())
      ensures listId in old(listRows) ==>
        && itemRows == old(itemRows) + [ItemRow(itemId, listId, order, content, false)]
        && Lists() == ListStore.AddItem(old(Lists()), listId, itemId, order, content)
        && r == Success(ListStore.GetListById(Lists(), listId))
    {
      if listId !in listRows {
        r := Failure(ForeignKeyViolation);
      } else {
        AbsWellKeyed(listRows, itemRows, aclRows);
        ListStore.AddItemKeepsInv(Lists(), listId, itemId, order, content);
        var row := ItemRow(itemId, listId, order, content, false);
        AbsAddItem(listRows, itemRows, aclRows, row);
        itemRows := itemRows + [row];
        r := Success(Rebuild(listRows, itemRows, aclRows, listId));
      }
    }

    /** `Item.update` keyed by the item id alone; `listId` only selects the list returned. */
    method UpdateItem(listId: Id, item: Item) returns (r: Option<List>)
      requires Valid()
      modifies this
      ensures Valid() && users == old(users)
      ensures itemRows == UpdateItemRows(old(itemRows), item)
      ensures Lists() == UpdateItemEverywhere(old(Lists()), item)
      ensures r == ListStore.GetListById(Lists(), listId)
    {
      AbsWellKeyed(listRows, itemRows, aclRows);
      EverywhereKeepsInv(Lists(), item, item.id);
      AbsUpdateItem(listRows, itemRows, aclRows, item);
      UpdateRowsKeepListIds(itemRows, item);
      itemRows := UpdateItemRows(itemRows, item);
      r := Rebuild(listRows, itemRows, aclRows, listId);
    }

    /** `Item.destroy` keyed by the item id alone; `listId` only selects the list returned. */
    method DeleteItem(listId: Id, itemId: Id) returns (r: Option<List>)
      requires Valid()
      modifies this
      ensures Valid() && users == old(users)
      ensures itemRows == DestroyItemRows(old(itemRows), itemId)
      ensures Lists() == DeleteItemEverywhere(old(Lists()), itemId)
      ensures r == ListStore.GetListById(Lists(), listId)
    {
      AbsWellKeyed(listRows, itemRows, aclRows);
      EverywhereKeepsInv(Lists(), Item(itemId, 0, "", false), itemId);
      AbsDeleteItem(listRows, itemRows, aclRows, itemId);
      DestroyRowsKept(itemRows, itemId);
      itemRows := DestroyItemRows(itemRows, itemId);
      r := Rebuild(listRows, itemRows, aclRows, listId);
    }

    /**
     * `ACL.create({ listId, userId })`: both foreign keys are checked, and
     * the composite key refuses a pair already stored.
     */
    method AddUserToList(listId: Id, userId: Id) returns (r: Result<Option<List>, StoreError>)
      requires Valid()
      modifies this
      ensures Valid() && users == old(users)
      ensures (listId !in old(listRows) || userId !in ListStore.UserIds(users)) ==>
        r == Failure(ForeignKeyViolation) && Lists() == old(Lists())
      ensures listId in old(listRows) && userId in ListStore.UserIds(users) ==>
        Lists() == ListStore.AddUserToList(old(Lists()), listId, userId)
      ensures listId in old(listRows) && userId in ListStore.UserIds(users) &&
              userId in old(Lists())[listId].invitedUsers ==>
        r == Failure(UniqueViolation) && aclRows == old(aclRows)
      ensures listId in old(listRows) && userId in ListStore.UserIds(users) &&
              userId !in old(Lists())[listId].invitedUsers ==>
        && aclRows == old(aclRows) + [AclRow(listId, userId)]
        && Lists() == AppendAclEntry(old(Lists()), listId, userId)
        && r == Success(ListStore.GetListById(Lists(), listId))
    {
      if listId !in listRows || ListStore.GetUserById(users, userId).None? {
        r := Failure(ForeignKeyViolation);
        return;
      }
      ghost var before := Lists();
      AbsAddAclChecked(listRows, itemRows, aclRows, listId, userId);
      if AclRow(listId, userId) in aclRows {
        r := Failure(UniqueViolation);
      } else {
        AclKeyAppend(aclRows, AclRow(listId, userId));
        aclRows := aclRows + [AclRow(listId, userId)];
        ListStore.ItemIdsUniqueShrink(before, Lists());
        r := Success(Rebuild(listRows, itemRows, aclRows, listId));
      }
    }

    /** `ACL.destroy({ where: { listId, userId } })`: every row of the pair goes. */
    method RemoveUserFromList(listId: Id, userId: Id) returns (r: Option<List>)
      requires Valid()
      modifies this
      ensures Valid() && users == old(users)
      ensures aclRows == DestroyAclPair(old(aclRows), listId, userId)
      ensures Lists() == ListStore.RemoveUserFromList(old(Lists()), listId, userId)
      ensures r == ListStore.GetListById(Lists(), listId)
    {
      AbsWellKeyed(listRows, itemRows, aclRows);
      ListStore.RemoveUserFromListKeepsInv(Lists(), listId, userId);
      AbsRemoveAcl(listRows, itemRows, aclRows, listId, userId);
      AclPairKept(aclRows, listId, userId);
      AclPairUnique(aclRows, listId, userId);
      aclRows := DestroyAclPair(aclRows, listId, userId);
      r := Rebuild(listRows, itemRows, aclRows, listId);
    }

    /**
     * Deleting a User row with the declared cascades: the lists they own
     * go (and with them those lists' Item and ACL rows), and so do their
     * own ACL rows on other lists.
     */
    method DestroyUser(userId: Id)
      requires Valid()
      modifies this
      ensures Valid()
      ensures users == DestroyUserRows(old(users), userId)
      ensures Lists() == DestroyUserCascade(old(Lists()), userId)
    {
      var gone := OwnedBy(listRows, userId);
      DestroyUserKeepsUnique(Lists(), userId);
      AbsDestroyUser(listRows, itemRows, aclRows, userId);
      ItemRowsCascadeKept(itemRows, gone);
      AclRowsCascadeKept(aclRows, gone, Some(userId));
      AclCascadeUnique(aclRows, gone, Some(userId));
      UserRowsKept(users, userId);
      listRows := DropLists(listRows, gone);
      itemRows := DestroyItemsOfLists(itemRows, gone);
      aclRows := DestroyAclOf(aclRows, gone, Some(userId));
      users := DestroyUserRows(users, userId);
    }
  }

  lemma UserIdsAppend(users: seq<User>, u: User)
    requires UserIdsDistinct(users) && u.id !in ListStore.UserIds(users)
    ensures ListStore.UserIds(users + [u]) == ListStore.UserIds(users) + {u.id}
    ensures UserIdsDistinct(users + [u])
  {
    var t := users + [u];
    forall i, j | 0 <= i < j < |t| ensures t[i].id != t[j].id {
      if j == |users| {
        assert t[i] in users;
      }
    }
  }

  lemma AclKeyUniqueCons(a: AclRow, acl: seq<AclRow>)
    ensures AclKeyUnique([a] + acl) <==> a !in acl && AclKeyUnique(acl)
  {
    var t := [a] + acl;
    if a !in acl && AclKeyUnique(acl) {
      forall i, j | 0 <= i < j < |t| ensures t[i] != t[j] {
        assert t[j] == acl[j - 1];
        if i == 0 {
          assert acl[j - 1] in acl;
        } else {
          assert t[i] == acl[i - 1];
        }
      }
    }
    if AclKeyUnique(t) {
      forall i, j | 0 <= i < j < |acl| ensures acl[i] != acl[j] {
        assert t[i + 1] == acl[i] && t[j + 1] == acl[j];
      }
      forall j | 0 <= j < |acl| ensures acl[j] != a {
        assert t[0] == a && t[j + 1] == acl[j];
        assert t[0] != t[j + 1];
      }
    }
  }

  /** An insert of a pair not yet stored keeps ACL's key. */
  lemma AclKeyAppend(acl: seq<AclRow>, a: AclRow)
    requires AclKeyUnique(acl) && a !in acl
    ensures AclKeyUnique(acl + [a])
  {
    var t := acl + [a];
    forall i, j | 0 <= i < j < |t| ensures t[i] != t[j] {
      if j == |acl| {
        assert t[i] in acl;
      }
    }
  }

  /** Destroying the rows of a pair keeps ACL's key. */
  lemma {:induction false} AclPairUnique(acl: seq<AclRow>, listId: Id, userId: Id)
    requires AclKeyUnique(acl)
    ensures AclKeyUnique(DestroyAclPair(acl, listId, userId))
  {
    if acl != [] {
      var a, rest := acl[0], acl[1..];
      assert acl == [a] + rest;
      AclKeyUniqueCons(a, rest);
      AclPairUnique(rest, listId, userId);
      AclPairKept(rest, listId, userId);
      AclKeyUniqueCons(a, DestroyAclPair(rest, listId, userId));
    }
  }

  /** The cascades into ACL keep its key. */
  lemma {:induction false} AclCascadeUnique(acl: seq<AclRow>, gone: set<Id>, userId: Option<Id>)
    requires AclKeyUnique(acl)
    ensures AclKeyUnique(DestroyAclOf(acl, gone, userId))
  {
    if acl != [] {
      var a, rest := acl[0], acl[1..];
      assert acl == [a] + rest;
      AclKeyUniqueCons(a, rest);
      AclCascadeUnique(rest, gone, userId);
      AclRowsCascadeKept(rest, gone, userId);
      AclKeyUniqueCons(a, DestroyAclOf(rest, gone, userId));
    }
  }

  // ----------------------------------------------------------------------
  // Row filters keep only rows that were there (for the foreign keys)
  // ----------------------------------------------------------------------

  lemma {:induction false} ItemRowsCascadeKept(rows: seq<ItemRow>, gone: set<Id>)
    ensures forall r :: r in DestroyItemsOfLists(rows, gone) ==> r in rows && r.listId !in gone
  {
    if rows != [] {
      ItemRowsCascadeKept(rows[1..], gone);
      assert forall r :: r in rows[1..] ==> r in rows;
    }
  }

  lemma {:induction false} AclRowsCascadeKept(acl: seq<AclRow>, gone: set<Id>, userId: Option<Id>)
    ensures forall a :: a in DestroyAclOf(acl, gone, userId) ==>
      a in acl && a.listId !in gone && Some(a.userId) != userId
  {
    if acl != [] {
      AclRowsCascadeKept(acl[1..], gone, userId);
      assert forall a :: a in acl[1..] ==> a in acl;
    }
  }

  lemma {:induction false} AclPairKept(acl: seq<AclRow>, listId: Id, userId: Id)
    ensures forall a :: a in DestroyAclPair(acl, listId, userId) ==> a in acl
  {
    if acl != [] {
      AclPairKept(acl[1..], listId, userId);
      assert forall a :: a in acl[1..] ==> a in acl;
    }
  }

  lemma {:induction false} DestroyRowsKept(rows: seq<ItemRow>, itemId: Id)
    ensures forall r :: r in DestroyItemRows(rows, itemId) ==> r in rows
  {
    if rows != [] {
      DestroyRowsKept(rows[1..], itemId);
      assert forall r :: r in rows[1..] ==> r in rows;
    }
  }

  lemma {:induction false} UpdateRowsKeepListIds(rows: seq<ItemRow>, item: Item)
    ensures forall r :: r in UpdateItemRows(rows, item) ==> exists s :: s in rows && s.listId == r.listId
  {
    if rows != [] {
      UpdateRowsKeepListIds(rows[1..], item);
      assert forall r :: r in rows[1..] ==> r in rows;
      assert rows[0] in rows;
    }
  }

  /** Deleting a user row keeps exactly the other users. */
  lemma {:induction false} UserRowsMembers(users: seq<User>, userId: Id)
    ensures forall u :: u in DestroyUserRows(users, userId) <==> u in users && u.id != userId
  {
    if users != [] {
      UserRowsMembers(users[1..], userId);
      assert users == [users[0]] + users[1..];
    }
  }

  /** Deleting a user row keeps ids and names unique. */
  lemma {:induction false} UserRowsUnique(users: seq<User>, userId: Id)
    requires UserIdsDistinct(users) && ListStore.NamesUnique(users)
    ensures UserIdsDistinct(DestroyUserRows(users, userId))
    ensures ListStore.NamesUnique(DestroyUserRows(users, userId))
  {
    if users != [] {
      var x, rest := users[0], users[1..];
      UserRowsUnique(rest, userId);
      UserRowsMembers(rest, userId);
      var t := DestroyUserRows(rest, userId);
      forall u | u in t ensures u.id != x.id && u.name != x.name {
        var j :| 0 <= j < |rest| && rest[j] == u;
        assert u == users[j + 1];
      }
      if x.id != userId {
        assert DestroyUserRows(users, userId) == [x] + t;
        var s := [x] + t;
        forall i, j | 0 <= i < j < |s| ensures s[i].id != s[j].id && s[i].name != s[j].name {
          assert s[j] == t[j - 1] && s[j] in t;
          if i > 0 { assert s[i] == t[i - 1]; }
        }
      } else {
        assert DestroyUserRows(users, userId) == t;
      }
    }
  }

  lemma UserRowsKept(users: seq<User>, userId: Id)
    requires UserIdsDistinct(users) && ListStore.NamesUnique(users)
    ensures forall u :: u in DestroyUserRows(users, userId) ==> u in users && u.id != userId
    ensures forall u :: u in users && u.id != userId ==> u in DestroyUserRows(users, userId)
    ensures ListStore.UserIds(DestroyUserRows(users, userId)) == ListStore.UserIds(users) - {userId}
    ensures UserIdsDistinct(DestroyUserRows(users, userId))
    ensures ListStore.NamesUnique(DestroyUserRows(users, userId))
  {
    UserRowsMembers(users, userId);
    UserRowsUnique(users, userId);
  }

  lemma DestroyUserKeepsUnique(ls: ListStore.Lists, userId: Id)
    requires ListStore.ItemIdsUnique(ls)
    ensures ListStore.ItemIdsUnique(DestroyUserCascade(ls, userId))
  {
    ListStore.ItemIdsUniqueShrink(ls, DestroyUserCascade(ls, userId));
  }
}
