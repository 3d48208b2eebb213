/**
 * The shopping-list aggregate: a list with its items and its access-control
 * list (the invited users), the user record, and the sequence operations
 * that the document store's update operators perform on an embedded array.
 */
module Aggregate {
  import opened Wrappers

  /** Identifiers are UUID strings; the model compares them only for equality. */
  type Id = string

  /** One entry of a list. `order` is caller-chosen and never renumbered. */
  datatype Item = Item(id: Id, order: int, content: string, isDone: bool)

  /** The list aggregate: its own fields, the invited users and the items, in stored order. */
  datatype List = List(
    id: Id,
    name: string,
    owner: Id,
    archived: bool,
    invitedUsers: seq<Id>,
    items: seq<Item>)

  /**
   * A stored password credential. Hashing is a foreign call; the model keeps
   * it symbolic: a salted digest of the secret, never the secret as a string.
   */
  datatype Credential = Bcrypt(salt: nat, secret: string)

  datatype User = User(id: Id, name: string, bcrypt: Credential)

  /**
   * Why a store refuses a write (the write throws and stores nothing): a
   * unique or foreign-key constraint of the relational tables, or a
   * `required` path of a document schema left empty.
   */
  datatype StoreError = UniqueViolation | ForeignKeyViolation | ValidationError

  /** The one-way hash of a password with the given salt. */
  function Hash(password: string, salt: nat): Credential
  {
    Bcrypt(salt, password)
  }

  /**
   * The password check on the symbolic credential: a password is accepted
   * exactly when hashing it under the credential's own salt gives the
   * credential back. Real bcrypt also accepts passwords that agree in their
   * first 72 bytes; the symbol does not model that truncation.
   */
  function Compare(password: string, credential: Credential): (ok: bool)
    ensures forall salt: nat :: credential == Hash(password, salt) ==> ok
    ensures ok ==> credential == Hash(password, credential.salt)
  {
    credential.secret == password
  }

  /** A freshly created list: empty items, empty ACL, not archived. */
  function NewList(id: Id, name: string, owner: Id): (l: List)
    ensures l.id == id && l.name == name && l.owner == owner
    ensures l.items == [] && l.invitedUsers == [] && !l.archived
  {
    List(id, name, owner, false, [], [])
  }

  /** The access rule of every list-scoped handler: the owner or an invited user. */
  predicate CanAccess(l: List, user: Id)
  {
    l.owner == user || user in l.invitedUsers
  }

  /** The design invariant that the owner is never stored in the ACL. */
  predicate OwnerNotInvited(l: List)
  {
    l.owner !in l.invitedUsers
  }

  // ----------------------------------------------------------------------
  // Item identifiers
  // ----------------------------------------------------------------------

  function IdsOf(items: seq<Item>): set<Id>
  {
    set i | i in items :: i.id
  }

  /** No two items of the sequence share an id. */
  predicate NoDupIds(items: seq<Item>)
  {
    forall i, j :: 0 <= i < j < |items| ==> items[i].id != items[j].id
  }

  /** No value occurs twice. */
  predicate NoDup(us: seq<Id>)
  {
    forall i, j :: 0 <= i < j < |us| ==> us[i] != us[j]
  }

  lemma NoDupIdsCons(x: Item, s: seq<Item>)
    requires x.id !in IdsOf(s) && NoDupIds(s)
    ensures NoDupIds([x] + s)
  {
    var t := [x] + s;
    forall i, j | 0 <= i < j < |t| ensures t[i].id != t[j].id {
      assert t[j] == s[j - 1];
      if i == 0 {
        assert s[j - 1] in s;
      } else {
        assert t[i] == s[i - 1];
      }
    }
  }

  lemma NoDupIdsTail(s: seq<Item>)
    requires |s| > 0 && NoDupIds(s)
    ensures s[0].id !in IdsOf(s[1..]) && NoDupIds(s[1..])
  {
    forall y | y in s[1..] ensures y.id != s[0].id {
      var j :| 0 <= j < |s[1..]| && s[1..][j] == y;
      assert y == s[j + 1];
    }
    forall i, j | 0 <= i < j < |s[1..]| ensures s[1..][i].id != s[1..][j].id {
      assert s[1..][i] == s[i + 1] && s[1..][j] == s[j + 1];
    }
  }

  // ----------------------------------------------------------------------
  // The array operators of the document store
  // ----------------------------------------------------------------------

  /**
   * `$pull: { items: { _id: id } }`: every item with that id leaves the
   * array; the others keep their multiplicity (and, by PullItemConcat,
   * their relative order).
   */
  function PullItem(items: seq<Item>, id: Id): (r: seq<Item>)
    ensures forall x: Item :: x in r <==> x in items && x.id != id
    ensures IdsOf(r) == IdsOf(items) - {id}
    ensures id !in IdsOf(items) ==> r == items
    ensures NoDupIds(items) ==> NoDupIds(r)
  {
    if items == [] then []
    else
      var rest := PullItem(items[1..], id);
      assert items == [items[0]] + items[1..];
      if items[0].id == id then
        (assert NoDupIds(items) ==> NoDupIds(items[1..]) by {
           if NoDupIds(items) { NoDupIdsTail(items); }
         }
         rest)
      else
        (assert NoDupIds(items) ==> NoDupIds([items[0]] + rest) by {
           if NoDupIds(items) {
             NoDupIdsTail(items);
             NoDupIdsCons(items[0], rest);
           }
         }
         [items[0]] + rest)
  }

  /** `$pull` keeps relative order: it distributes over concatenation. */
  lemma {:induction false} PullItemConcat(a: seq<Item>, b: seq<Item>, id: Id)
    ensures PullItem(a + b, id) == PullItem(a, id) + PullItem(b, id)
  {
    if a == [] {
      assert a + b == b;
    } else {
      assert (a + b)[1..] == a[1..] + b;
      PullItemConcat(a[1..], b, id);
    }
  }

  /** Index of the first item with the given id, or -1 (the array `find` / positional `$`). */
  function FirstIndex(items: seq<Item>, id: Id): (k: int)
    ensures -1 <= k < |items|
    ensures k == -1 <==> id !in IdsOf(items)
    ensures k >= 0 ==> items[k].id == id && forall j :: 0 <= j < k ==> items[j].id != id
  {
    if items == [] then -1
    else if items[0].id == id then 0
    else
      var k := FirstIndex(items[1..], id);
      assert items == [items[0]] + items[1..];
      if k < 0 then -1 else k + 1
  }

  /** `items.find(item => item._id == id)`: the first item with the id. */
  function FindItem(items: seq<Item>, id: Id): (r: Option<Item>)
    ensures r.None? <==> id !in IdsOf(items)
    ensures r.Some? ==> r.value in items && r.value.id == id
    ensures r.Some? ==> exists k :: 0 <= k < |items| && items[k] == r.value &&
                          forall j :: 0 <= j < k ==> items[j].id != id
  {
    var k := FirstIndex(items, id);
    if k < 0 then None else Some(items[k])
  }

  /**
   * `$set: { 'items.$': item }` under a filter on `items._id`: the first
   * item whose id matches is replaced, every other position is untouched,
   * and without a match nothing changes.
   */
  function ReplaceFirst(items: seq<Item>, item: Item): (r: seq<Item>)
    ensures |r| == |items|
    ensures item.id !in IdsOf(items) ==> r == items
    ensures item.id in IdsOf(items) ==> item in r
    ensures forall j :: 0 <= j < |items| && r[j] != items[j] ==>
      r[j] == item && items[j].id == item.id &&
      forall i :: 0 <= i < j ==> items[i].id != item.id
    ensures IdsOf(r) == IdsOf(items)
    ensures NoDupIds(items) ==> NoDupIds(r)
  {
    var k := FirstIndex(items, item.id);
    if k < 0 then items
    else
      var r := items[k := item];
      assert r[k] == item;
      forall x | x in r ensures x.id in IdsOf(items) {
        var j :| 0 <= j < |r| && r[j] == x;
        assert j != k ==> x == items[j];
      }
      forall x | x in items ensures x.id in IdsOf(r) {
        var j :| 0 <= j < |items| && items[j] == x;
        assert j != k ==> r[j] == x;
      }
      r
  }

  /** Every item with `item.id` replaced by `item` (an UPDATE keyed by the item id alone). */
  function ReplaceAll(items: seq<Item>, item: Item): (r: seq<Item>)
    ensures |r| == |items|
    ensures forall j :: 0 <= j < |r| ==> r[j] == if items[j].id == item.id then item else items[j]
  {
    if items == [] then []
    else [if items[0].id == item.id then item else items[0]] + ReplaceAll(items[1..], item)
  }

  /** Within a list whose ids are distinct, replacing every match is replacing the first one. */
  lemma ReplaceAllIsReplaceFirst(items: seq<Item>, item: Item)
    requires NoDupIds(items)
    ensures ReplaceAll(items, item) == ReplaceFirst(items, item)
  {
    var a, b := ReplaceAll(items, item), ReplaceFirst(items, item);
    forall j | 0 <= j < |items| ensures a[j] == b[j] {
      var k := FirstIndex(items, item.id);
      if items[j].id == item.id {
        assert items[k].id == items[j].id;
      }
    }
  }

  /** `$addToSet: { invitedUsers: u }`: append only when absent. */
  function AddToSet(us: seq<Id>, u: Id): (r: seq<Id>)
    ensures u in r
    ensures forall v :: v in r <==> v in us || v == u
    ensures u in us ==> r == us
    ensures NoDup(us) ==> NoDup(r)
  {
    if u in us then us else us + [u]
  }

  /** `$pull: { invitedUsers: u }`: every occurrence of `u` leaves; the others keep their order. */
  function PullUser(us: seq<Id>, u: Id): (r: seq<Id>)
    ensures forall v :: v in r <==> v in us && v != u
    ensures forall v :: v != u ==> multiset(r)[v] == multiset(us)[v]
    ensures u !in us ==> r == us
    ensures |r| <= |us|
  {
    if us == [] then []
    else
      assert us == [us[0]] + us[1..];
      if us[0] == u then PullUser(us[1..], u) else [us[0]] + PullUser(us[1..], u)
  }
}
