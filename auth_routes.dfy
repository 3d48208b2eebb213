/**
 * Login and registration. These run before the session gate; a success
 * stores the user in the caller's session. Hashing is symbolic (see
 * Aggregate.Hash) and the salt is a parameter.
 */
module AuthRoutes {
  import opened Wrappers
  import opened Aggregate
  import ListStore
  import DbEngine
  import opened Http

  /** The server-side session of one client. */
  class Session {
    var user: Option<User>

    constructor ()
      ensures user == None
    {
      user := None;
    }
  }

  /**
   * `POST /auth/login`: 404 for an unknown name, 401 for a wrong password;
   * otherwise the user is stored in the session. The store is not written.
   */
  method Login(db: DbEngine.Backend, session: Session, name: string, password: string) returns (resp: Response)
    modifies session
    ensures var found := ListStore.GetUserByName(DbEngine.Users(db), name);
      && (resp.status == 404 <==> found.None?)
      && (resp.status == 401 <==> found.Some? && !Compare(password, found.value.bcrypt))
      && (resp.status == 200 <==> found.Some? && Compare(password, found.value.bcrypt))
      && (resp.status == 200 ==> session.user == found && resp.body == UserJson(found.value))
    ensures resp.status != 200 ==> session.user == old(session.user)
  {
    var user := DbEngine.GetUserByName(db, name);
    if user.None? {
      resp := Response(404, Text("User not found"));
      return;
    }
    var isPasswordValid := Compare(password, user.value.bcrypt);
    if !isPasswordValid {
      resp := Response(401, Text("Invalid password"));
      return;
    }
    session.user := user;
    resp := Response(200, UserJson(user.value));
  }

  /**
   * `POST /auth/register`: 409 for a taken name; otherwise the user is
   * stored with the hash of the password (never the password itself) and
   * logged in, and names stay unique. The document store refuses an empty
   * name: the write throws and the answer is 500.
   */
  method Register(db: DbEngine.Backend, session: Session, name: string, password: string, salt: nat, freshId: Id)
    returns (resp: Response)
    requires DbEngine.Valid(db) && freshId !in ListStore.UserIds(DbEngine.Users(db))
    modifies DbEngine.Repr(db), session
    ensures DbEngine.Valid(db) && DbEngine.Lists(db) == old(DbEngine.Lists(db))
    ensures resp.status == 409 <==> ListStore.NameTaken(old(DbEngine.Users(db)), name)
    ensures resp.status == 409 ==>
      DbEngine.Users(db) == old(DbEngine.Users(db)) && session.user == old(session.user)
    ensures resp.status == 500 <==> !ListStore.NameTaken(old(DbEngine.Users(db)), name) && db.Embedded? && name == ""
    ensures resp.status == 500 ==>
      resp == Uncaught && DbEngine.Users(db) == old(DbEngine.Users(db)) && session.user == old(session.user)
    ensures resp.status == 201 <==> !ListStore.NameTaken(old(DbEngine.Users(db)), name) && (db.Relational? || name != "")
    ensures resp.status == 201 ==>
      var u := User(freshId, name, Hash(password, salt));
      && resp == Response(201, UserJson(u))
      && DbEngine.Users(db) == old(DbEngine.Users(db)) + [u]
      && session.user == Some(u)
      && (ListStore.NamesUnique(old(DbEngine.Users(db))) ==> ListStore.NamesUnique(DbEngine.Users(db)))
  {
    var existingUser := DbEngine.GetUserByName(db, name);
    if existingUser.Some? {
      resp := Response(409, Text("Username already exists"));
      return;
    }
    var hashedPassword := Hash(password, salt);
    var user := DbEngine.CreateUser(db, name, hashedPassword, freshId);
    if user.Failure? {
      resp := Uncaught;
      return;
    }
    session.user := Some(user.value);
    resp := Response(201, UserJson(user.value));
  }

  /** After appending a user whose name was free, looking the name up finds that user. */
  lemma {:induction false} GetUserByNameAfterAppend(us: seq<User>, u: User)
    requires !ListStore.NameTaken(us, u.name)
    ensures ListStore.GetUserByName(us + [u], u.name) == Some(u)
  {
    if us == [] {
      assert us + [u] == [u];
    } else {
      assert us[0] in us;
      assert (us + [u])[1..] == us[1..] + [u];
      assert forall v :: v in us[1..] ==> v in us;
      GetUserByNameAfterAppend(us[1..], u);
    }
  }

  /** Registering and then logging in with the same name and password succeeds, as that user. */
  method RegisterThenLogin(db: DbEngine.Backend, session: Session, name: string, password: string,
                           salt: nat, freshId: Id) returns (reg: Response, login: Response)
    requires DbEngine.Valid(db) && freshId !in ListStore.UserIds(DbEngine.Users(db))
    modifies DbEngine.Repr(db), session
    ensures reg.status == 201 <==> !ListStore.NameTaken(old(DbEngine.Users(db)), name) && (db.Relational? || name != "")
    ensures reg.status == 201 ==>
      login == Response(200, UserJson(User(freshId, name, Hash(password, salt))))
      && session.user == Some(User(freshId, name, Hash(password, salt)))
  {
    ghost var before := DbEngine.Users(db);
    reg := Register(db, session, name, password, salt, freshId);
    if reg.status == 201 {
      GetUserByNameAfterAppend(before, User(freshId, name, Hash(password, salt)));
    }
    login := Login(db, session, name, password);
  }
}
