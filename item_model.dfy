/**
 * The item record's constructor and checker: `newItem` spreads a partial
 * item over the defaults (fresh id, order -1, empty content, not done)
 * and parses the result; `testItem` parses an untrusted object. Parsing
 * checks each of the four keys with its validator and reports the keys
 * that fail.
 */
module ItemModel {
  import opened Wrappers
  import opened Aggregate

  /** A JavaScript value as a request body can carry it (numbers as integers). */
  datatype JsValue = JsString(s: string) | JsNumber(n: int) | JsBool(b: bool) | JsUndefined | JsNull

  /** An own property of an object: absent, or present with a value (possibly `undefined`). */
  datatype Field = Missing | Present(value: JsValue)

  /** An object, seen through the four keys of an item. */
  datatype RawItem = RawItem(id: Field, order: Field, content: Field, isDone: Field)

  datatype FieldName = IdField | OrderField | ContentField | IsDoneField

  // ----------------------------------------------------------------------
  // UUID version 4 (RFC 9562, sections 4 and 5.4)
  // ----------------------------------------------------------------------

  predicate IsHexDigit(c: char)
  {
    '0' <= c <= '9' || 'a' <= c <= 'f' || 'A' <= c <= 'F'
  }

  predicate IsHyphenPosition(i: int)
  {
    i == 8 || i == 13 || i == 18 || i == 23
  }

  /**
   * The 8-4-4-4-12 hexadecimal form in either case, with version digit 4
   * and variant digit 8, 9, a or b.
   */
  predicate IsUuidV4(s: string)
  {
    && |s| == 36
    && (forall i :: 0 <= i < 36 && IsHyphenPosition(i) ==> s[i] == '-')
    && (forall i :: 0 <= i < 36 && !IsHyphenPosition(i) ==> IsHexDigit(s[i]))
    && s[14] == '4'
    && s[19] in "89abAB"
  }

  lemma ExampleUuid()
    ensures IsUuidV4("0f8fad5b-d9cb-469f-a165-70867728950e")
    ensures !IsUuidV4("0f8fad5b-d9cb-169f-a165-70867728950e")
    ensures !IsUuidV4("00000000-0000-0000-0000-000000000000")
  {
    var s := "0f8fad5b-d9cb-469f-a165-70867728950e";
    assert |s| == 36;
    forall i | 0 <= i < 36 && !IsHyphenPosition(i) ensures IsHexDigit(s[i]) {
    }
  }

  // ----------------------------------------------------------------------
  // Parsing
  // ----------------------------------------------------------------------

  function FieldOf(raw: RawItem, f: FieldName): Field
  {
    match f
    case IdField => raw.id
    case OrderField => raw.order
    case ContentField => raw.content
    case IsDoneField => raw.isDone
  }

  /** Whether the key passes its validator: a v4 UUID, a number, a string, a boolean. */
  predicate FieldOk(raw: RawItem, f: FieldName)
  {
    var v := FieldOf(raw, f);
    v.Present? &&
    match f
    case IdField => v.value.JsString? && IsUuidV4(v.value.s)
    case OrderField => v.value.JsNumber?
    case ContentField => v.value.JsString?
    case IsDoneField => v.value.JsBool?
  }

  function Failing(raw: RawItem, f: FieldName): seq<FieldName>
  {
    if FieldOk(raw, f) then [] else [f]
  }

  /**
   * `parseItem`: the item when every key passes; otherwise the keys that
   * fail, each once, in key order.
   */
  function ParseItem(raw: RawItem): (r: Result<Item, seq<FieldName>>)
    ensures r.Success? <==> forall f :: FieldOk(raw, f)
    ensures r.Failure? ==> r.error != [] && forall f :: f in r.error <==> !FieldOk(raw, f)
    ensures r.Success? ==>
      && raw.id == Present(JsString(r.value.id))
      && raw.order == Present(JsNumber(r.value.order))
      && raw.content == Present(JsString(r.value.content))
      && raw.isDone == Present(JsBool(r.value.isDone))
  {
    var errors := Failing(raw, IdField) + Failing(raw, OrderField)
                + Failing(raw, ContentField) + Failing(raw, IsDoneField);
    if errors == [] then
      assert forall f :: FieldOk(raw, f) by {
        forall f ensures FieldOk(raw, f) {
          assert f == IdField || f == OrderField || f == ContentField || f == IsDoneField;
        }
      }
      Success(Item(raw.id.value.s, raw.order.value.n, raw.content.value.s, raw.isDone.value.b))
    else
      Failure(errors)
  }

  /** An item, as the object that carries it. */
  function ToRaw(it: Item): RawItem
  {
    RawItem(Present(JsString(it.id)), Present(JsNumber(it.order)), Present(JsString(it.content)), Present(JsBool(it.isDone)))
  }

  /** Parsing accepts exactly the objects that carry an item with a v4 id, and gives that item back. */
  lemma ParseRoundTrip(it: Item, raw: RawItem)
    ensures ParseItem(ToRaw(it)) == Success(it) <==> IsUuidV4(it.id)
    ensures ParseItem(raw).Success? ==> raw == ToRaw(ParseItem(raw).value)
  {
    if IsUuidV4(it.id) {
      assert forall f :: FieldOk(ToRaw(it), f);
    }
  }

  // ----------------------------------------------------------------------
  // newItem and testItem
  // ----------------------------------------------------------------------

  /** `DEFAULT_ITEM_VALS`, with the generated id as a parameter. */
  function Defaults(freshId: string): RawItem
  {
    RawItem(Present(JsString(freshId)), Present(JsNumber(-1)), Present(JsString("")), Present(JsBool(false)))
  }

  function Pick(base: Field, over: Field): Field
  {
    if over.Present? then over else base
  }

  /** `{ ...base, ...over }`: every key `over` has, even as `undefined`, wins. */
  function Spread(base: RawItem, over: RawItem): RawItem
  {
    RawItem(Pick(base.id, over.id), Pick(base.order, over.order),
            Pick(base.content, over.content), Pick(base.isDone, over.isDone))
  }

  /**
   * `newItem`: an item exactly when every key the partial item supplies is
   * valid and, if it supplies no id, the generated one is a v4 UUID.
   * Otherwise an error (the function throws) naming exactly the supplied
   * keys with an invalid value, and the id when the generated one is not
   * v4. Keys not supplied take the defaults.
   */
  function NewItem(user: RawItem, freshId: string): (r: Result<Item, seq<FieldName>>)
    ensures r.Success? <==> forall f ::
      if FieldOf(user, f).Missing? then f != IdField || IsUuidV4(freshId) else FieldOk(user, f)
    ensures r.Failure? ==> r.error != []
    ensures r.Failure? ==> forall f :: f in r.error <==>
      if FieldOf(user, f).Missing? then f == IdField && !IsUuidV4(freshId) else !FieldOk(user, f)
    ensures r.Success? ==>
      && (if user.id.Present? then user.id == Present(JsString(r.value.id)) else r.value.id == freshId)
      && (if user.order.Present? then user.order == Present(JsNumber(r.value.order)) else r.value.order == -1)
      && (if user.content.Present? then user.content == Present(JsString(r.value.content)) else r.value.content == "")
      && (if user.isDone.Present? then user.isDone == Present(JsBool(r.value.isDone)) else !r.value.isDone)
  {
    var raw := Spread(Defaults(freshId), user);
    assert forall f :: FieldOk(raw, f) <==>
      if FieldOf(user, f).Missing? then f != IdField || IsUuidV4(freshId) else FieldOk(user, f);
    ParseItem(raw)
  }

  /** `testItem`: whether the object parses as an item. */
  function TestItem(arg: RawItem): (ok: bool)
    ensures ok <==> forall f :: FieldOk(arg, f)
  {
    ParseItem(arg).Success?
  }

  /** With no keys supplied, `newItem` yields the defaults under the generated id. */
  lemma NewItemDefaults(freshId: string)
    requires IsUuidV4(freshId)
    ensures NewItem(RawItem(Missing, Missing, Missing, Missing), freshId) == Success(Item(freshId, -1, "", false))
  {
    assert forall f :: FieldOk(Defaults(freshId), f);
  }

  /** A key supplied as `undefined` overrides its default and makes `newItem` fail on that key. */
  lemma NewItemUndefinedOverrides(freshId: string)
    requires IsUuidV4(freshId)
    ensures NewItem(RawItem(Missing, Missing, Present(JsUndefined), Missing), freshId) == Failure([ContentField])
  {
    var raw := Spread(Defaults(freshId), RawItem(Missing, Missing, Present(JsUndefined), Missing));
    assert FieldOk(raw, IdField) && FieldOk(raw, OrderField) && FieldOk(raw, IsDoneField);
    assert !FieldOk(raw, ContentField);
    assert Failing(raw, IdField) + Failing(raw, OrderField) + Failing(raw, ContentField)
           + Failing(raw, IsDoneField) == [ContentField];
  }

  /** Whatever `newItem` returns passes `testItem`. */
  lemma NewItemPassesTest(user: RawItem, freshId: string)
    ensures NewItem(user, freshId).Success? ==> TestItem(ToRaw(NewItem(user, freshId).value))
  {
    var r := NewItem(user, freshId);
    if r.Success? {
      ParseRoundTrip(r.value, Spread(Defaults(freshId), user));
    }
  }
}
