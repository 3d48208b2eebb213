# Shopper backend: the storage contract, its two engines and the routes over them

The shopper backend is an HTTP service for shared shopping lists. A user
registers and logs in; a list belongs to one owner, who can share it by
adding other users to its access-control list (ACL, the list's
`invitedUsers`). The owner and the invited users may read the list and add,
edit and delete its items. Routes never talk to a database directly. They
go through `IDbEngine`, a storage interface with two implementations:

- a document store (MongoDB through mongoose), with one document per list
  and the items and ACL embedded in it;
- a relational store (PostgreSQL through Sequelize), with User, List, Item
  and ACL tables joined by foreign keys that cascade on delete.

`getDbEngine` picks the engine from the configuration, once per process.

This project models that core in Dafny:

- `Aggregate` holds the list aggregate, items and users, and the array
  operators the document store applies (`$push`, `$set` on the positional
  `items.$`, `$pull`, `$addToSet`).
- `ListStore` states the storage contract on an abstract store (a map from
  list id to list, plus the user sequence) and proves what each operation
  promises and that each keeps the store invariant: lists are stored under
  their own id, and an item id occurs once in the whole store.
- `MongoDb.MongoEngine` is a class whose fields are the two collections. Each
  method is proved to leave the store equal to the contract function applied
  to the old store.
- `PostgreDb.PostgreEngine` is a class whose fields are the four tables.
  `PostgreDb.Abs` rebuilds the aggregates from the rows as `getListById`
  does, up to three things listed under "Left out": the `archived` flag,
  the order of rows, and the `listId` column that rebuilt items carry. Each method is proved against the contract through
  that abstraction. Where the code keys a write by the item id alone, the
  method is proved against a relational variant, and lemmas state when the
  variant agrees with the contract and show an input where it does not.
- `DbEngine` is the interface: a choice between the two engines. Each
  operation states what both engines guarantee and where they differ. The
  `EngineFactory` class models the memoized factory.
- `ListRoutes`, `ItemRoutes` and `AuthRoutes` model the handlers as methods
  that return `Http.Response` (a status and a body). Their contracts give
  each status code the handler can answer as an if-and-only-if over the
  stored state, the success status included. They say what is written on
  success and that nothing is written otherwise. `ListRoutes.Delete` is the
  one exception: as written it answers 500 after a successful delete, and
  its contract states exactly that.
- `ItemModel` models `newItem` and `testItem`: default values, object
  spread, and per-key validation with a version-4 UUID check (RFC 9562,
  sections 4 and 5.4).

Identifiers, UUID generation, the salt and the password hash are
parameters or symbols. A fresh id arrives as an argument that is not yet
in use (`requires freshId !in ...`). `Aggregate.Hash` is the one-way
hash, kept as a salted symbol.

## Model

| member | source | states |
|---|---|---|
| Aggregate.Compare | src/routes/AuthRoutes.ts:31 | a credential made from a password by `Hash`, with any salt, accepts that password; a password accepted is the one the credential was hashed from under its own salt |
| Aggregate.NewList | src/db/mongoDB.ts:65-67 | a created list has the given id, name and owner, no items, no invited users, and is not archived |
| Aggregate.PullItem | src/db/mongoDB.ts:97-103 | `$pull` by `_id`: exactly the items with another id remain, the id set loses that id, an absent id changes nothing, and distinct ids stay distinct |
| Aggregate.PullItemConcat | src/db/mongoDB.ts:97-103 | `$pull` keeps the relative order of the remaining items (it distributes over concatenation) |
| Aggregate.FirstIndex | src/routes/ItemRoutes.ts:79 | the index of the first item with the id, or -1 exactly when no item has it |
| Aggregate.FindItem | src/routes/ItemRoutes.ts:79-84 | `items.find`: absent exactly when no item has the id; otherwise the first item of the list with that id |
| Aggregate.ReplaceFirst | src/db/mongoDB.ts:89-95 | positional `$set`: the length and the id set are kept; only the first position with the item's id changes, to the item; no match means no change |
| Aggregate.ReplaceAll | src/db/postgreDB.ts:171-175 | an UPDATE keyed by item id: every position with that id becomes the item, and the others are unchanged |
| Aggregate.ReplaceAllIsReplaceFirst | src/db/postgreDB.ts:173 | when ids are distinct, the relational update and the positional `$set` give the same items |
| Aggregate.AddToSet | src/db/mongoDB.ts:105-111 | `$addToSet`: the user is in the result, nothing else is added, an existing member changes nothing, and a duplicate-free ACL stays duplicate-free |
| Aggregate.PullUser | src/db/mongoDB.ts:113-119 | `$pull` of a user: every occurrence leaves, every other user keeps its count, and an absent user changes nothing |
| ListStore.GetUserByName | src/db/dbEngine.ts:21 | absent exactly when no user has the name; otherwise the first stored user with that name |
| ListStore.GetUserById | src/db/dbEngine.ts:20 | absent exactly when no user has the id; otherwise the stored user with that id |
| ListStore.CreateListYieldsEmptyList | src/db/dbEngine.ts:24 | after `createList` the new id reads back as an empty, unarchived list with the given name and owner, and every existing list is unchanged |
| ListStore.AddItemAppendsOne | src/db/dbEngine.ts:30 | `addItem` appends exactly one not-done item with the given order and content; earlier items, the list's other fields and the other lists are unchanged |
| ListStore.UpdateItemTouchesOneItem | src/db/dbEngine.ts:31 | `updateItem` writes the item into the named list, changes no position whose id differs, and leaves that list's other fields and every other list alone; without the item it changes nothing |
| ListStore.DeleteItemScoped | src/db/dbEngine.ts:32 | `deleteItem` removes the id from the named list, keeps every other item, changes no other list, and changes nothing when the list lacks the item |
| ListStore.AddUserToListIdempotent | src/db/dbEngine.ts:35 | `addUserToList` makes the user invited, keeps the ACL duplicate-free, and a second call is a no-op |
| ListStore.RemoveUserFromListRemovesAll | src/db/dbEngine.ts:36 | `removeUserFromList` leaves the user uninvited and keeps every other invited user; removing an absent user changes nothing |
| ListStore.DeleteListRemoves | src/db/dbEngine.ts:27 | `deleteList` removes exactly that id, and every other list is unchanged |
| ListStore.ItemIdsUniqueShrink | src/db/mongoDB.ts:28-34 | dropping lists or shrinking their item sets keeps item ids unique across the store |
| ListStore.AddItemKeepsInv | src/db/mongoDB.ts:81-87 | appending a fresh item id keeps the store invariant |
| ListStore.ReplaceListKeepsInv | src/db/dbEngine.ts:26-36 | replacing one list by one whose item ids are distinct and among the old ones keeps the store invariant |
| ListStore.UpdateListKeepsInv | src/db/dbEngine.ts:26 | `updateList` keeps the store invariant |
| ListStore.AddUserToListKeepsInv | src/db/dbEngine.ts:35 | `addUserToList` keeps the store invariant |
| ListStore.RemoveUserFromListKeepsInv | src/db/dbEngine.ts:36 | `removeUserFromList` keeps the store invariant |
| ListStore.DeleteListKeepsInv | src/db/dbEngine.ts:27 | `deleteList` keeps the store invariant |
| ListStore.UpdateItemKeepsInv | src/db/dbEngine.ts:31 | `updateItem` keeps the store invariant |
| ListStore.DeleteItemKeepsInv | src/db/dbEngine.ts:32 | `deleteItem` keeps the store invariant |
| ListStore.CreateListKeepsInv | src/db/dbEngine.ts:24 | a list created under a fresh id keeps the store invariant |
| ListStore.CreateUserKeepsNamesUnique | src/db/postgreDB.ts:70 | appending a user whose name is free keeps user names unique |
| MongoDb.MongoEngine.constructor | src/db/mongoDB.ts:36-37 | the collections start empty and valid |
| MongoDb.MongoEngine.CreateUser | src/db/mongoDB.ts:53-55 | an empty name fails the `required` check of the User schema (lines 22-26) with nothing written; any other name is appended whatever names are already stored (the schema has no unique index on the name); lists are untouched |
| MongoDb.MongoEngine.GetUserById | src/db/mongoDB.ts:57-59 | absent exactly when no user has the id; otherwise the stored user with that id |
| MongoDb.MongoEngine.GetUserByName | src/db/mongoDB.ts:61-63 | absent exactly when the name is free; otherwise the first stored user with that name |
| MongoDb.MongoEngine.CreateList | src/db/mongoDB.ts:65-67 | an empty name or owner fails the `required` check of the List schema (lines 28-34) with nothing written; otherwise the result is the new empty list, the store is the contract's `createList` of the old store, and the invariant is kept |
| MongoDb.MongoEngine.GetListById | src/db/mongoDB.ts:69-71 | the stored list under that id, or absent |
| MongoDb.MongoEngine.UpdateList | src/db/mongoDB.ts:73-75 | the store is the contract's `updateList` of the old store; the result is the updated list, or null for an unknown id |
| MongoDb.MongoEngine.DeleteList | src/db/mongoDB.ts:77-79 | the store is the contract's `deleteList` of the old store; users are untouched |
| MongoDb.MongoEngine.AddItem | src/db/mongoDB.ts:81-87 | the store is the contract's `addItem` of the old store, with the schema defaults (fresh id, not done); the result is the updated list or null |
| MongoDb.MongoEngine.UpdateItem | src/db/mongoDB.ts:89-95 | the store is the contract's `updateItem`; the result is null unless the named list holds the item |
| MongoDb.MongoEngine.DeleteItem | src/db/mongoDB.ts:97-103 | the store is the contract's `deleteItem`, which acts on the named list only |
| MongoDb.MongoEngine.AddUserToList | src/db/mongoDB.ts:105-111 | the store is the contract's `addUserToList`, with add-if-absent |
| MongoDb.MongoEngine.RemoveUserFromList | src/db/mongoDB.ts:113-119 | the store is the contract's `removeUserFromList` |
| PostgreDb.AbsRebuild | src/db/postgreDB.ts:124-155 | `getListById` on the tables is the abstract store's lookup |
| PostgreDb.ItemsOfExactly | src/db/postgreDB.ts:126-130 | a rebuilt list's items are exactly the Item rows with its id |
| PostgreDb.InvitedOfExactly | src/db/postgreDB.ts:137-140 | a rebuilt list's invited users are exactly the users of the ACL rows with its id |
| PostgreDb.ItemsOfUpdate | src/db/postgreDB.ts:173 | updating Item rows by id updates every rebuilt list as `ReplaceAll` |
| PostgreDb.ItemsOfDestroy | src/db/postgreDB.ts:178 | destroying Item rows by id removes the id from every rebuilt list as `$pull` does |
| PostgreDb.ItemsOfCascade | src/db/postgreDB.ts:95 | the cascade from a deleted list leaves the other lists' items unchanged |
| PostgreDb.InvitedOfDestroyPair | src/db/postgreDB.ts:188 | destroying the ACL rows of a pair is `$pull` of the user on that list, and changes no other list |
| PostgreDb.InvitedOfCascade | src/db/postgreDB.ts:97-98 | the ACL cascade from deleted lists or a deleted user leaves the remaining lists' ACLs without that user and otherwise unchanged |
| PostgreDb.UpdateItemAgrees | src/db/postgreDB.ts:171-175 | when the named list holds the item and item ids are unique, the relational `updateItem` equals the contract's |
| PostgreDb.DeleteItemAgrees | src/db/postgreDB.ts:177-180 | when no other list holds the item, the relational `deleteItem` equals the contract's |
| PostgreDb.AddUserAgrees | src/db/postgreDB.ts:182-185 | for a user not yet invited, inserting an ACL row equals `$addToSet` |
| PostgreDb.DeleteItemCrossesLists | src/db/postgreDB.ts:177-180 | with item `x` in another user's list `B`, deleting `x` "from" list `A` empties `B`, which the contract leaves alone |
| PostgreDb.InvitedOfNoDup | src/db/postgreDB.ts:88-98 | under ACL's composite key (listId, userId) a rebuilt list names no user twice, as `$addToSet` keeps the document's ACL |
| PostgreDb.EverywhereKeepsInv | src/db/postgreDB.ts:171-180 | the id-keyed update and delete keep the store invariant |
| PostgreDb.AbsWellKeyed | src/db/postgreDB.ts:75 | the rebuilt store is keyed by list id |
| PostgreDb.AbsCreateList | src/db/postgreDB.ts:119-122 | inserting a List row is the contract's `createList` on the rebuilt store |
| PostgreDb.UpdateListRowsKeys | src/db/postgreDB.ts:157-160 | updating a List row keeps its key, and the owner foreign key when the new owner is a user |
| PostgreDb.AbsUpdateList | src/db/postgreDB.ts:157-160 | updating a List row's fields is the contract's `updateList` on the rebuilt store |
| PostgreDb.AbsDeleteList | src/db/postgreDB.ts:162-164 | destroying a List row with its cascades is the contract's `deleteList` |
| PostgreDb.AbsDestroyUser | src/db/postgreDB.ts:93-98 | destroying a User row with its cascades removes the lists the user owns and the user's ACL entries everywhere |
| PostgreDb.AbsAddItem | src/db/postgreDB.ts:166-169 | inserting an Item row is the contract's `addItem` |
| PostgreDb.AbsUpdateItem | src/db/postgreDB.ts:171-175 | updating Item rows by id is the id-keyed variant on the rebuilt store |
| PostgreDb.AssembleDestroy | src/db/postgreDB.ts:177-180 | each list rebuilt after destroying Item rows by id is the old rebuilt list with that id pulled |
| PostgreDb.AbsDeleteItem | src/db/postgreDB.ts:177-180 | destroying Item rows by id is the id-keyed variant on the rebuilt store |
| PostgreDb.AbsAddAcl | src/db/postgreDB.ts:182-185 | inserting an ACL row appends the user to that list's invited users |
| PostgreDb.AbsAddAclChecked | src/db/postgreDB.ts:182-185 | a stored pair is exactly an invited user, for whom `$addToSet` changes nothing; for any other user the insert is `$addToSet` |
| PostgreDb.AclKeyAppend | src/db/postgreDB.ts:182-185 | inserting a pair not yet stored keeps ACL's composite key (lines 97-98) |
| PostgreDb.AclPairUnique | src/db/postgreDB.ts:187-190 | destroying a pair's rows keeps ACL's composite key (lines 97-98) |
| PostgreDb.AclCascadeUnique | src/db/postgreDB.ts:93-98 | the cascades from a deleted list or user keep ACL's composite key |
| PostgreDb.AbsRemoveAcl | src/db/postgreDB.ts:187-190 | destroying a pair's ACL rows is the contract's `removeUserFromList` |
| PostgreDb.AssembleDestroyPair | src/db/postgreDB.ts:187-190 | a list rebuilt after destroying one (list, user) ACL row pair is the old rebuilt list with that user pulled from the named list, and unchanged for every other list |
| PostgreDb.PostgreEngine.constructor | src/db/postgreDB.ts:55-65 | the tables start empty and valid |
| PostgreDb.PostgreEngine.CreateUser | src/db/postgreDB.ts:107-109 | the unique index refuses a taken name with no write; otherwise the user is appended; other tables are untouched |
| PostgreDb.PostgreEngine.GetUserById | src/db/postgreDB.ts:111-113 | absent exactly when no user has the id; otherwise the user with that id |
| PostgreDb.PostgreEngine.GetUserByName | src/db/postgreDB.ts:115-117 | absent exactly when the name is free; otherwise the first user with it |
| PostgreDb.PostgreEngine.CreateList | src/db/postgreDB.ts:119-122 | the foreign key refuses an unknown owner with no write; otherwise the rebuilt store is the contract's `createList` |
| PostgreDb.PostgreEngine.GetListById | src/db/postgreDB.ts:124-155 | null when a query throws; otherwise the rebuilt list or null, its items and invited users being exactly its rows |
| PostgreDb.PostgreEngine.UpdateList | src/db/postgreDB.ts:157-160 | a new owner that is not a user is refused with no write; otherwise the rebuilt store is the contract's `updateList` |
| PostgreDb.PostgreEngine.DeleteList | src/db/postgreDB.ts:162-164 | the List row and, by cascade, its Item and ACL rows go; the rebuilt store is the contract's `deleteList` |
| PostgreDb.PostgreEngine.AddItem | src/db/postgreDB.ts:166-169 | an unknown list is refused by the foreign key with no write; otherwise the rebuilt store is the contract's `addItem` |
| PostgreDb.PostgreEngine.UpdateItem | src/db/postgreDB.ts:171-175 | the update is keyed by item id alone: the item changes in whichever list holds it |
| PostgreDb.PostgreEngine.DeleteItem | src/db/postgreDB.ts:177-180 | the delete is keyed by item id alone: the item leaves whichever list holds it |
| PostgreDb.PostgreEngine.AddUserToList | src/db/postgreDB.ts:182-185 | an unknown list or user is refused (foreign keys) and an invited user is refused (ACL's key), with no write; otherwise the pair is appended; whenever list and user exist the rebuilt store is the contract's `addUserToList` |
| PostgreDb.PostgreEngine.RemoveUserFromList | src/db/postgreDB.ts:187-190 | every ACL row of the pair goes; the rebuilt store is the contract's `removeUserFromList` |
| PostgreDb.PostgreEngine.DestroyUser | src/db/postgreDB.ts:93-98 | with the declared cascades, deleting a user removes the lists the user owns and the user's ACL entries, and keeps every invariant |
| PostgreDb.UserIdsAppend | src/db/postgreDB.ts:69 | a user appended under a fresh id keeps the primary key distinct |
| PostgreDb.UserRowsMembers | src/db/postgreDB.ts:69-70 | after deleting a user row, a row is present exactly when it was present with another id |
| PostgreDb.UserRowsUnique | src/db/postgreDB.ts:69-71 | deleting a user row keeps the primary key and the unique name constraint |
| PostgreDb.UserRowsKept | src/db/postgreDB.ts:69-70 | deleting a user row removes exactly that id and keeps ids and names unique |
| PostgreDb.DestroyUserKeepsUnique | src/db/postgreDB.ts:93-98 | the user cascade keeps item ids unique |
| DbEngine.ValidIsInv | src/db/dbEngine.ts:14-37 | whichever engine is in use, its lists satisfy the store invariant |
| DbEngine.CreateUser | src/db/dbEngine.ts:19 | succeeds exactly when the name is non-empty (document store) or not taken (relational store), and then appends the user; a failure names the violated rule and writes nothing; lists are untouched |
| DbEngine.GetUserById | src/db/dbEngine.ts:20 | absent exactly when no user has the id |
| DbEngine.GetUserByName | src/db/dbEngine.ts:21 | absent exactly when the name is free; otherwise the first user with it |
| DbEngine.CreateList | src/db/dbEngine.ts:24 | succeeds exactly when name and owner are non-empty (document store) or the owner is a user (relational store), and then stores the new empty list; a failure names the violated rule and writes nothing |
| DbEngine.GetListById | src/db/dbEngine.ts:25 | present exactly when the store has the id, and then that list |
| DbEngine.UpdateList | src/db/dbEngine.ts:26 | on success the store is the contract's `updateList`; only the relational store fails, for a new owner that is not a user, with no write |
| DbEngine.DeleteList | src/db/dbEngine.ts:27 | both engines perform the contract's `deleteList` |
| DbEngine.AddItem | src/db/dbEngine.ts:30 | both engines perform the contract's `addItem`; for an unknown list the document store returns null and the relational one fails |
| DbEngine.UpdateItem | src/db/dbEngine.ts:31 | when the named list holds the item, both engines perform the contract's `updateItem` |
| DbEngine.DeleteItem | src/db/dbEngine.ts:32 | when no other list holds the item, both engines perform the contract's `deleteItem` |
| DbEngine.AddUserToList | src/db/dbEngine.ts:35 | whenever list and user exist both engines leave the contract's `addUserToList`; the relational store succeeds exactly for an existing list and user not yet invited, and otherwise names the violated key |
| DbEngine.RemoveUserFromList | src/db/dbEngine.ts:36 | both engines perform the contract's `removeUserFromList` |
| DbEngine.EngineFactory.constructor | src/db/dbEngine.ts:44 | no engine has been created yet |
| DbEngine.EngineFactory.GetDbEngine | src/db/dbEngine.ts:46-62 | the first call creates a fresh, valid, empty engine of the configured type and connects it once; later calls return the same engine; an unsupported type fails with its message |
| DbEngine.SameEngineTwice | src/db/dbEngine.ts:46-62 | two calls return the same engine, and connect happens at most once |
| ListRoutes.Get | src/routes/ListRoutes.ts:25-43 | 404 exactly for an unknown list, 401 exactly for a caller who is neither owner nor invited, otherwise 200 with the list |
| ListRoutes.Create | src/routes/ListRoutes.ts:45-50 | 201 with a new empty list owned by the caller exactly when the store accepts it (a non-empty name on the document store, a caller who is a user on the relational one); otherwise the uncaught 500 with nothing written |
| ListRoutes.Patch | src/routes/ListRoutes.ts:52-74 | 404, then 401 for a non-owner, 500 exactly when the relational store refuses an unknown new owner, and 200 in every other case, with the merged fields stored; the store is written only on 200 |
| ListRoutes.PatchLeavesOwnerInvited | src/routes/ListRoutes.ts:71 | handing the list to an invited user leaves the new owner in the ACL |
| ListRoutes.PatchChecked | src/routes/ListRoutes.ts:52-74 | the same statuses as `patch`, each an if-and-only-if; on 200 a new owner also leaves the ACL, so the owner is never invited |
| ListRoutes.AddUser | src/routes/ListRoutes.ts:76-101 | 404, 401 for a non-owner, 400 when the owner adds themselves, and 200 in every other case, with the pending call as body; on 200 the new store is the contract's `addUserToList` for the document store and for an existing user, unchanged for an unknown user on the relational store, and the owner never enters the ACL |
| ListRoutes.RemoveUser | src/routes/ListRoutes.ts:103-128 | 404; 401 when a non-owner removes someone else; 400 when the owner is the one removed; 200 in every other case, and then the user leaves the ACL and nothing else changes |
| ListRoutes.Delete | src/routes/ListRoutes.ts:130-150 | 404, 401 for a non-owner; an owner's delete removes the list and is answered 500 |
| ListRoutes.DeleteChecked | src/routes/ListRoutes.ts:130-150 | as `delete_`, and an owner's delete is answered 200 |
| ItemRoutes.Create | src/routes/ItemRoutes.ts:38-58 | 404, 401 for a caller without access; otherwise 201, with one not-done item appended to that list |
| ItemRoutes.Patch | src/routes/ItemRoutes.ts:60-92 | 404 for the list, 401, 404 for an item not in the list, and 200 in every other case; on 200 that item takes the new order, content and completion, and no other list changes |
| ItemRoutes.Delete | src/routes/ItemRoutes.ts:94-115 | 404, then 401; otherwise 200 and the item is gone from the named list; the relational store removes it from every list |
| ItemRoutes.DeleteChecked | src/routes/ItemRoutes.ts:94-115 | 404 exactly for a missing list or an item not in an accessible list, 401 for no access, 200 otherwise; on 200 both engines remove it from that list only |
| AuthRoutes.Session.constructor | src/routes/AuthRoutes.ts:37 | a new session has no user |
| AuthRoutes.Login | src/routes/AuthRoutes.ts:21-39 | 404 exactly for an unknown name, 401 exactly for a wrong password, otherwise 200 and the session holds the user; the session changes only on 200 |
| AuthRoutes.Register | src/routes/AuthRoutes.ts:41-56 | 409 exactly for a taken name, with nothing written; 500 exactly for a free empty name on the document store, with nothing written; otherwise 201, the user is stored with the password's hash and logged in, and names stay unique |
| AuthRoutes.GetUserByNameAfterAppend | src/db/dbEngine.ts:21 | a user appended under a free name is the one found by that name |
| AuthRoutes.RegisterThenLogin | tests/shopper-api.test.js:101-127 | registration succeeds exactly for a free name the store accepts, and then logging in with the same name and password answers 200 with that user |
| ItemModel.ExampleUuid | src/util/validators.ts:15-17 | a well-formed v4 UUID passes; a version-1 UUID and the nil UUID fail |
| ItemModel.ParseItem | src/models/Item.ts:36-41 | succeeds exactly when every key passes its validator and then carries those values; otherwise it lists exactly the failing keys |
| ItemModel.ParseRoundTrip | src/models/Item.ts:36-41 | an item's object parses back to the item exactly when its id is a v4 UUID, and every parsed object is the object of its item |
| ItemModel.NewItem | src/models/Item.ts:51-56 | a key the partial item supplies overrides its default (even as `undefined`); it succeeds exactly when every supplied key is valid and a generated id is v4, and otherwise fails naming exactly the offending keys |
| ItemModel.TestItem | src/models/Item.ts:61-63 | true exactly when every key passes its validator |
| ItemModel.NewItemDefaults | src/models/Item.ts:11-16 | with no keys supplied, the item is the defaults under the generated id |
| ItemModel.NewItemUndefinedOverrides | src/models/Item.ts:52 | a `content` supplied as `undefined` replaces the default and makes `newItem` fail on `content` alone |
| ItemModel.NewItemPassesTest | src/models/Item.ts:51-63 | every item `newItem` returns passes `testItem` |

## Left out

- `connect` and `disconnect` are left out: they open and close the database connection, and the schema they set up is the tables' shape and `Valid`. The factory counts connections in `connects`; it does not wait for them.
- Request validation (zod schemas and `parseReq` in routes/util) is left out. Handlers receive fields that are already parsed. routes/util is not part of this model. A request that fails validation throws before the handler runs.
- The session gate and `req.session` storage are left out beyond `AuthRoutes.Session`. Handlers take the caller's id as a parameter.
- UserRoutes (`/user/me`) is left out. It is not one of the routes modelled here.
- bcrypt is a foreign call. `Aggregate.Hash` is a salted symbol, and the salt is a parameter (the code asks for 10 rounds).
- UUID generation is a parameter. Each creating call receives an id that is not yet in use.
- `archived` has no column in either schema (mongoDB.ts:28-34, postgreDB.ts:74-78), so both databases drop it on write. The model keeps it on the aggregate and stores it, so `updateList`'s merge covers all three fields the route accepts.
- DbEngine.UpdateList: models the merge of the supplied name, owner and archived fields. ListRoutes.ts:71 passes the id and three optional fields where the interface (dbEngine.ts:26) takes one list object, and the engines then read `list._id` from that argument. The model follows the evidently intended merge.
- PostgreDb.PostgreEngine.GetListById: a query that throws is the `queryFails` parameter. Handlers pass `false`, because a failing database is not modelled elsewhere.
- Relational row order is insertion order. SQL promises no order without `ORDER BY`, so the model picks one.
- The items that `getListById` returns from the relational store (postgreDB.ts:126-130, 146) are Item rows and also carry their `listId` column. `PostgreDb.Abs` rebuilds them as plain items without it.
- The router (routes/index.ts:19-30) mounts no path for `ListRoutes.addUser` or `removeUser`. Both handlers are modelled as written, and the model does not say how a request reaches them.
- Aggregate.Compare: real bcrypt accepts any password that agrees with the hashed one in its first 72 bytes. The symbolic credential accepts only the exact password.
- Numbers are integers. NaN, fractions and the relational INTEGER column's 32-bit range are not modelled.
- The refusals modelled are the relational unique keys (User name, ACL pair), its foreign keys, and the document schemas' `required` check on an empty `name` or `owner` at `create`. Other refusals are not modelled: connection loss and timeouts, and every rule tied to the input's shape or size (see the next lines).
- PostgreDb.PostgreEngine.CreateUser: the relational text columns are `DataTypes.STRING` (postgreDB.ts:70, 76, 84), that is VARCHAR(255), which refuses a name longer than 255 characters. The model accepts any length.
- PostgreDb.PostgreEngine.CreateList: a name longer than 255 characters is refused by the VARCHAR(255) column; not modelled.
- PostgreDb.PostgreEngine.AddItem: content longer than 255 characters is refused by the VARCHAR(255) column; not modelled.
- PostgreDb.PostgreEngine.UpdateItem: content longer than 255 characters is refused by the VARCHAR(255) column; not modelled.
- PostgreDb.PostgreEngine.UpdateList: a name longer than 255 characters is refused by the VARCHAR(255) column; not modelled.
- MongoDb.MongoEngine.UpdateList, MongoDb.MongoEngine.AddItem and MongoDb.MongoEngine.UpdateItem write through update operators, which mongoose does not validate by default, so an empty `name` or `content` is stored there and the model stores it too.
- Concurrency between requests, and the non-awaited `addUserToList` and `removeUserFromList` calls, are not modelled. The model applies those writes before the response, and the response body is `Pending` whatever the write does. When the relational insert is refused, the promise is rejected with no handler; what the Node runtime then does is not modelled.
- `isItemArray` and `isUserArray` in validators.ts are left out. They test User objects and are not used by the core.
- The item PATCH test at tests/shopper-api.test.js:355-367 sends only `content` and `isComplete`. The route requires `listId`, `order`, `content` and `isDone`, and that request fails validation. Only the route is modelled.

## Findings

| source | as written | input that shows it | evidently intended | confidence | as-written member | corrected member |
|---|---|---|---|---|---|---|
| src/routes/ListRoutes.ts:148-149 | `deleteList` returns nothing, so the status is `data ? 200 : 500`, which is 500 after every successful delete | an owner deletes an existing list: the list is gone and the answer is 500 "Internal server error" | 200 after a successful delete, as tests/shopper-api.test.js:270-274 expects | high (not executed) | ListRoutes.Delete | ListRoutes.DeleteChecked |
| src/routes/ItemRoutes.ts:94-115 with src/db/postgreDB.ts:177-180 | the handler checks access to the named list but never checks that the item is in it, and the relational delete is keyed by item id alone | user `u` owns list `A`; item `x` is in list `B` owned by `v`; `u` deletes `x` "from" `A` and `B` loses `x` | 404 for an item not in the list, as `patch` does; the delete removes the item from that list only | high (not executed) | ItemRoutes.Delete, PostgreDb.DeleteItemCrossesLists | ItemRoutes.DeleteChecked |
| src/routes/ListRoutes.ts:16,71 | `patch` accepts any user as the new owner, including one already in the ACL | list `L` owned by `a` with `b` invited; `a` patches owner `b`; `b` is then owner and invited at once | the owner never sits in the ACL (`addUser` refuses the owner at ListRoutes.ts:94-97) | medium (not executed) | ListRoutes.Patch, ListRoutes.PatchLeavesOwnerInvited | ListRoutes.PatchChecked |
