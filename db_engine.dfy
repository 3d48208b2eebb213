/**
 * The storage interface the route handlers program against, and the
 * factory that picks and memoizes one engine per process. The interface
 * is the choice between the two engines; each operation below states what
 * both engines guarantee on the abstract store, and where they differ,
 * what each one does.
 */
module DbEngine {
  import opened Wrappers
  import opened Aggregate
  import ListStore
  import MongoDb
  import PostgreDb

  /** The configured database type, read from the environment at start-up. */
  datatype DbType = Mongo | Postgres | Other(name: string)

  /** An engine: the document store or the relational store. */
  datatype Backend = Embedded(mongo: MongoDb.MongoEngine) | Relational(pg: PostgreDb.PostgreEngine)

  function Repr(db: Backend): set<object>
  {
    if db.Embedded? then {db.mongo} else {db.pg}
  }

  ghost predicate Valid(db: Backend)
    reads Repr(db)
  {
    match db
    case Embedded(m) => m.Valid()
    case Relational(p) => p.Valid()
  }

  /** The list aggregates as `getListById` returns them. */
  function Lists(db: Backend): ListStore.Lists
    reads Repr(db)
  {
    match db
    case Embedded(m) => m.lists
    case Relational(p) => p.Lists()
  }

  function Users(db: Backend): seq<User>
    reads Repr(db)
  {
    match db
    case Embedded(m) => m.users
    case Relational(p) => p.users
  }

  lemma ValidIsInv(db: Backend)
    requires Valid(db)
    ensures ListStore.Inv(Lists(db))
  {
    if db.Relational? {
      PostgreDb.AbsWellKeyed(db.pg.listRows, db.pg.itemRows, db.pg.aclRows);
    }
  }

  // ----------------------------------------------------------------------
  // Users
  // ----------------------------------------------------------------------

  /**
   * `createUser`: the relational store refuses a taken name and accepts an
   * empty one; the document store refuses an empty name and accepts a taken
   * one.
   */
  method CreateUser(db: Backend, name: string, bcrypt: Credential, id: Id) returns (r: Result<User, StoreError>)
    requires Valid(db) && id !in ListStore.UserIds(Users(db))
    modifies Repr(db)
    ensures Valid(db) && Lists(db) == old(Lists(db))
    ensures r.Success? ==>
      r.value == User(id, name, bcrypt) && Users(db) == ListStore.CreateUser(old(Users(db)), id, name, bcrypt)
    ensures r.Failure? ==> Users(db) == old(Users(db))
    ensures r.Success? <==> if db.Embedded? then name != "" else !ListStore.NameTaken(old(Users(db)), name)
    ensures r.Failure? ==> r.error == if db.Embedded? then ValidationError else UniqueViolation
    ensures ListStore.NamesUnique(old(Users(db))) && !ListStore.NameTaken(old(Users(db)), name) ==>
      ListStore.NamesUnique(Users(db))
  {
    if ListStore.NamesUnique(Users(db)) && !ListStore.NameTaken(Users(db), name) {
      ListStore.CreateUserKeepsNamesUnique(Users(db), id, name, bcrypt);
    }
    match db
    case Embedded(m) =>
      r := m.CreateUser(name, bcrypt, id);
    case Relational(p) =>
      r := p.CreateUser(name, bcrypt, id);
  }

  /** `getUserById`: the user with that id, absent exactly when no user has it. */
  method GetUserById(db: Backend, id: Id) returns (r: Option<User>)
    ensures r.None? <==> id !in ListStore.UserIds(Users(db))
    ensures r.Some? ==> r.value in Users(db) && r.value.id == id
  {
    match db
    case Embedded(m) =>
      r := m.GetUserById(id);
    case Relational(p) =>
      r := p.GetUserById(id);
  }

  /** `getUserByName`: the first stored user with that name. */
  method GetUserByName(db: Backend, name: string) returns (r: Option<User>)
    ensures r.None? <==> !ListStore.NameTaken(Users(db), name)
    ensures r.Some? ==> r.value in Users(db) && r.value.name == name
    ensures r == ListStore.GetUserByName(Users(db), name)
  {
    match db
    case Embedded(m) =>
      r := m.GetUserByName(name);
      assert m.users == Users(db);
    case Relational(p) =>
      r := p.GetUserByName(name);
      assert p.users == Users(db);
  }

  // ----------------------------------------------------------------------
  // Lists
  // ----------------------------------------------------------------------

  /**
   * `createList`: the relational store refuses an owner that is not a user;
   * the document store refuses an empty name or owner.
   */
  method CreateList(db: Backend, name: string, owner: Id, id: Id) returns (r: Result<List, StoreError>)
    requires Valid(db) && id !in Lists(db)
    modifies Repr(db)
    ensures Valid(db) && Users(db) == old(Users(db))
    ensures r.Success? ==>
      r.value == NewList(id, name, owner) && Lists(db) == ListStore.CreateList(old(Lists(db)), id, name, owner)
    ensures r.Failure? ==> Lists(db) == old(Lists(db))
    ensures r.Success? <==>
      if db.Embedded? then name != "" && owner != "" else owner in ListStore.UserIds(Users(db))
    ensures r.Failure? ==> r.error == if db.Embedded? then ValidationError else ForeignKeyViolation
  {
    match db
    case Embedded(m) =>
      r := m.CreateList(name, owner, id);
    case Relational(p) =>
      r := p.CreateList(name, owner, id);
  }

  method GetListById(db: Backend, id: Id) returns (r: Option<List>)
    requires Valid(db)
    ensures r == ListStore.GetListById(Lists(db), id)
    ensures r.Some? <==> id in Lists(db)
  {
    match db
    case Embedded(m) =>
      r := m.GetListById(id);
    case Relational(p) =>
      r := p.GetListById(id, false);
  }

  /**
   * `updateList`, as the merge of the supplied fields. The relational store
   * refuses a new owner that is not a user.
   */
  method UpdateList(db: Backend, id: Id, name: Option<string>, owner: Option<Id>, archived: Option<bool>)
    returns (r: Result<Option<List>, StoreError>)
    requires Valid(db)
    modifies Repr(db)
    ensures Valid(db) && Users(db) == old(Users(db))
    ensures r.Success? ==>
      && Lists(db) == ListStore.UpdateList(old(Lists(db)), id, name, owner, archived)
      && r.value == ListStore.GetListById(Lists(db), id)
    ensures r.Failure? ==>
      && Lists(db) == old(Lists(db))
      && db.Relational? && id in Lists(db) && owner.Some? && owner.value !in ListStore.UserIds(Users(db))
    ensures db.Embedded? || owner.None? || owner.value in ListStore.UserIds(Users(db)) ==> r.Success?
  {
    match db
    case Embedded(m) =>
      var l := m.UpdateList(id, name, owner, archived);
      r := Success(l);
    case Relational(p) =>
      r := p.UpdateList(id, name, owner, archived);
  }

  /** `deleteList`: the list goes with its items and its ACL; nothing else changes. */
  method DeleteList(db: Backend, id: Id)
    requires Valid(db)
    modifies Repr(db)
    ensures Valid(db) && Users(db) == old(Users(db))
    ensures Lists(db) == ListStore.DeleteList(old(Lists(db)), id)
  {
    match db
    case Embedded(m) =>
      m.DeleteList(id);
    case Relational(p) =>
      p.DeleteList(id);
  }

  // ----------------------------------------------------------------------
  // Items
  // ----------------------------------------------------------------------

  /** `addItem`: the item is appended to the named list, not done. */
  method AddItem(db: Backend, listId: Id, order: int, content: string, itemId: Id)
    returns (r: Result<Option<List>, StoreError>)
    requires Valid(db) && ListStore.ItemIdFresh(Lists(db), itemId)
    modifies Repr(db)
    ensures Valid(db) && Users(db) == old(Users(db))
    ensures Lists(db) == ListStore.AddItem(old(Lists(db)), listId, itemId, order, content)
    ensures listId in old(Lists(db)) ==> r == Success(ListStore.GetListById(Lists(db), listId))
    ensures listId !in old(Lists(db)) ==>
      r == if db.Embedded? then Success(None) else Failure(ForeignKeyViolation)
  {
    match db
    case Embedded(m) =>
      var l := m.AddItem(listId, order, content, itemId);
      r := Success(l);
    case Relational(p) =>
      r := p.AddItem(listId, order, content, itemId);
  }

  /**
   * `updateItem`. The document store updates the item only inside the named
   * list; the relational store updates it wherever it is. When the named
   * list holds the item, both do what the contract says.
   */
  method UpdateItem(db: Backend, listId: Id, item: Item) returns (r: Option<List>)
    requires Valid(db)
    modifies Repr(db)
    ensures Valid(db) && Users(db) == old(Users(db))
    ensures db.Embedded? ==> Lists(db) == ListStore.UpdateItem(old(Lists(db)), listId, item)
    ensures db.Relational? ==> Lists(db) == PostgreDb.UpdateItemEverywhere(old(Lists(db)), item)
    ensures ListStore.HoldsItem(old(Lists(db)), listId, item.id) ==>
      && Lists(db) == ListStore.UpdateItem(old(Lists(db)), listId, item)
      && r == ListStore.GetListById(Lists(db), listId)
  {
    ValidIsInv(db);
    if ListStore.HoldsItem(Lists(db), listId, item.id) {
      PostgreDb.UpdateItemAgrees(Lists(db), listId, item);
    }
    match db
    case Embedded(m) =>
      r := m.UpdateItem(listId, item);
    case Relational(p) =>
      r := p.UpdateItem(listId, item);
  }

  /**
   * `deleteItem`. The document store removes the item only from the named
   * list; the relational store removes it wherever it is. When no other
   * list holds the item, both do what the contract says.
   */
  method DeleteItem(db: Backend, listId: Id, itemId: Id) returns (r: Option<List>)
    requires Valid(db)
    modifies Repr(db)
    ensures Valid(db) && Users(db) == old(Users(db))
    ensures r == ListStore.GetListById(Lists(db), listId)
    ensures db.Embedded? ==> Lists(db) == ListStore.DeleteItem(old(Lists(db)), listId, itemId)
    ensures db.Relational? ==> Lists(db) == PostgreDb.DeleteItemEverywhere(old(Lists(db)), itemId)
    ensures (listId in old(Lists(db)) &&
             forall k :: k in old(Lists(db)) && k != listId ==> itemId !in IdsOf(old(Lists(db))[k].items)) ==>
      Lists(db) == ListStore.DeleteItem(old(Lists(db)), listId, itemId)
  {
    if listId in Lists(db) && forall k :: k in Lists(db) && k != listId ==> itemId !in IdsOf(Lists(db)[k].items) {
      PostgreDb.DeleteItemAgrees(Lists(db), listId, itemId);
    }
    match db
    case Embedded(m) =>
      r := m.DeleteItem(listId, itemId);
    case Relational(p) =>
      r := p.DeleteItem(listId, itemId);
  }

  // ----------------------------------------------------------------------
  // ACL
  // ----------------------------------------------------------------------

  /**
   * `addUserToList`. The document store adds the user as a set member and
   * checks nothing else. The relational store refuses an unknown list or
   * user (foreign keys) and a user already invited (ACL's key), and
   * otherwise appends. For a list and a user that exist, both leave the
   * store as the contract says.
   */
  method AddUserToList(db: Backend, listId: Id, userId: Id) returns (r: Result<Option<List>, StoreError>)
    requires Valid(db)
    modifies Repr(db)
    ensures Valid(db) && Users(db) == old(Users(db))
    ensures r.Success? ==> r.value == ListStore.GetListById(Lists(db), listId)
    ensures r.Failure? ==> Lists(db) == old(Lists(db))
    ensures db.Embedded? ==> r.Success? && Lists(db) == ListStore.AddUserToList(old(Lists(db)), listId, userId)
    ensures db.Relational? ==>
      && (r.Success? <==> listId in old(Lists(db)) && userId in ListStore.UserIds(Users(db))
                          && userId !in old(Lists(db))[listId].invitedUsers)
      && (r.Failure? ==> r.error == if listId in old(Lists(db)) && userId in ListStore.UserIds(Users(db))
                                    then UniqueViolation else ForeignKeyViolation)
    ensures listId in old(Lists(db)) && userId in ListStore.UserIds(Users(db)) ==>
      Lists(db) == ListStore.AddUserToList(old(Lists(db)), listId, userId)
  {
    match db
    case Embedded(m) =>
      var l := m.AddUserToList(listId, userId);
      r := Success(l);
    case Relational(p) =>
      r := p.AddUserToList(listId, userId);
  }

  /** `removeUserFromList`: every entry of the user leaves the named list's ACL. */
  method RemoveUserFromList(db: Backend, listId: Id, userId: Id) returns (r: Option<List>)
    requires Valid(db)
    modifies Repr(db)
    ensures Valid(db) && Users(db) == old(Users(db))
    ensures Lists(db) == ListStore.RemoveUserFromList(old(Lists(db)), listId, userId)
    ensures r == ListStore.GetListById(Lists(db), listId)
  {
    match db
    case Embedded(m) =>
      r := m.RemoveUserFromList(listId, userId);
    case Relational(p) =>
      r := p.RemoveUserFromList(listId, userId);
  }

  // ----------------------------------------------------------------------
  // The factory
  // ----------------------------------------------------------------------

  /**
   * `getDbEngine`: the module-level engine variable, created on first use
   * from the configured type and connected once (the connection is started
   * and not awaited; `connects` counts the calls).
   */
  class EngineFactory {
    const dbType: DbType
    var engine: Option<Backend>
    var connects: nat

    constructor (dbType: DbType)
      ensures this.dbType == dbType && engine == None && connects == 0
    {
      this.dbType := dbType;
      engine := None;
      connects := 0;
    }

    method GetDbEngine() returns (r: Result<Backend, string>)
      modifies this
      ensures old(engine).Some? ==> r == Success(old(engine).value) && engine == old(engine) && connects == old(connects)
      ensures old(engine).None? && dbType.Other? ==>
        r == Failure("Unsupported database type: " + dbType.name) && engine == None && connects == old(connects)
      ensures old(engine).None? && !dbType.Other? ==>
        && r.Success? && engine == Some(r.value) && connects == old(connects) + 1
        && (r.value.Embedded? <==> dbType.Mongo?)
        && fresh(Repr(r.value)) && Valid(r.value) && Lists(r.value) == map[] && Users(r.value) == []
    {
      if engine.Some? {
        r := Success(engine.value);
        return;
      }
      if dbType.Other? {
        r := Failure("Unsupported database type: " + dbType.name);
        return;
      }
      var e: Backend;
      if dbType.Mongo? {
        var m := new MongoDb.MongoEngine();
        e := Embedded(m);
      } else {
        var p := new PostgreDb.PostgreEngine();
        e := Relational(p);
      }
      engine := Some(e);
      connects := connects + 1;
      r := Success(e);
    }
  }

  /** Every handler that asks for the engine gets the same one, and it is connected once. */
  method SameEngineTwice(f: EngineFactory) returns (a: Result<Backend, string>, b: Result<Backend, string>)
    requires f.dbType.Mongo? || f.dbType.Postgres?
    modifies f
    ensures a.Success? && b == a
    ensures f.engine == Some(a.value)
    ensures f.connects == old(f.connects) + (if old(f.engine).None? then 1 else 0)
  {
    a := f.GetDbEngine();
    b := f.GetDbEngine();
  }
}
