/** The schema names of scripts/protocol-gen-swift.ts: registration, and look-up by object or by structure. */
module SchemaRegistry {
  import opened Prelude
  import opened Sorting

  datatype Fields = NoFields | Field(key: string, value: Json, tail: Fields)

  /** A JSON value; numbers are their text. */
  datatype Json =
    | Null
    | Bool(truth: bool)
    | Number(digits: string)
    | Text(text: string)
    | Array(items: Items)
    | Object(fields: Fields)

  datatype Items = NoItems | Item(head: Json, tail: Items)

  function Get(fields: Fields, key: string): Option<Json> {
    match fields
    case NoFields => None
    case Field(k, value, tail) => if k == key then Some(value) else Get(tail, key)
  }

  predicate ProperFields(fields: Fields) {
    match fields
    case NoFields => true
    case Field(key, value, tail) => Get(tail, key).None? && Proper(value) && ProperFields(tail)
  }

  /** What JavaScript objects are: no key occurs twice, at any depth. */
  predicate Proper(json: Json) {
    match json
    case Array(items) => ProperItems(items)
    case Object(fields) => ProperFields(fields)
    case _ => true
  }

  predicate ProperItems(items: Items) {
    match items
    case NoItems => true
    case Item(head, tail) => Proper(head) && ProperItems(tail)
  }

  // ---------------------------------------------------------------- stableJson

  function Insert(key: string, value: Json, sorted: Fields): Fields {
    match sorted
    case NoFields => Field(key, value, NoFields)
    case Field(k, v, tail) =>
      if CodeOrder(key, k) then Field(key, value, sorted) else Field(k, v, Insert(key, value, tail))
  }

  function StableFields(fields: Fields): Fields {
    match fields
    case NoFields => NoFields
    case Field(key, value, tail) => Insert(key, StableJson(value), StableFields(tail))
  }

  /** The same value with the keys of every object in order. */
  function StableJson(json: Json): Json {
    match json
    case Array(items) => Array(StableItems(items))
    case Object(fields) => Object(StableFields(fields))
    case _ => json
  }

  function StableItems(items: Items): Items {
    match items
    case NoItems => NoItems
    case Item(head, tail) => Item(StableJson(head), StableItems(tail))
  }

  // ---------------------------------------------------------------- equality up to key order

  predicate HasKeys(fields: Fields, other: Fields) {
    match fields
    case NoFields => true
    case Field(key, _, tail) => Get(other, key).Some? && HasKeys(tail, other)
  }

  /** Every field of `fields` is in `other` with the same value. */
  predicate Within(fields: Fields, other: Fields) {
    match fields
    case NoFields => true
    case Field(key, value, tail) =>
      Get(other, key).Some? && SameUpToOrder(value, Get(other, key).value) && Within(tail, other)
  }

  /** Two values that differ at most in the order of keys, at any depth. */
  predicate SameUpToOrder(a: Json, b: Json) {
    match a
    case Array(items) => b.Array? && SameItems(items, b.items)
    case Object(fields) => b.Object? && Within(fields, b.fields) && HasKeys(b.fields, fields)
    case _ => a == b
  }

  predicate SameItems(xs: Items, ys: Items) {
    match xs
    case NoItems => ys.NoItems?
    case Item(head, tail) => ys.Item? && SameUpToOrder(head, ys.head) && SameItems(tail, ys.tail)
  }

  // ---------------------------------------------------------------- sorted fields

  ghost predicate SortedFields(fields: Fields) {
    match fields
    case NoFields => true
    case Field(key, _, tail) =>
      && SortedFields(tail) && Get(tail, key).None?
      && forall k :: Get(tail, k).Some? ==> CodeOrder(key, k)
  }

  lemma {:induction false} InsertSorts(key: string, value: Json, sorted: Fields)
    requires IsTotal(CodeOrder) && SortedFields(sorted) && Get(sorted, key).None?
    ensures SortedFields(Insert(key, value, sorted))
    ensures forall k :: Get(Insert(key, value, sorted), k) == if k == key then Some(value) else Get(sorted, k)
  {
    match sorted
    case NoFields =>
    case Field(k, v, tail) =>
      if CodeOrder(key, k) {
        forall x | Get(sorted, x).Some? ensures CodeOrder(key, x) {
        }
      } else {
        InsertSorts(key, value, tail);
      }
  }

  /** Stable fields are sorted, and hold the stable form of every value under its own key. */
  lemma {:induction false} StableFieldsAreSorted(fields: Fields)
    requires IsTotal(CodeOrder) && ProperFields(fields)
    ensures SortedFields(StableFields(fields))
    ensures forall k :: Get(StableFields(fields), k)
                        == if Get(fields, k).Some? then Some(StableJson(Get(fields, k).value)) else None
  {
    match fields
    case NoFields =>
    case Field(key, value, tail) =>
      StableFieldsAreSorted(tail);
      InsertSorts(key, StableJson(value), StableFields(tail));
  }

  /** Sorted fields with the same content are the same. */
  lemma {:induction false} SortedFieldsAreUnique(a: Fields, b: Fields)
    requires IsTotal(CodeOrder) && SortedFields(a) && SortedFields(b)
    requires forall k :: Get(a, k) == Get(b, k)
    ensures a == b
  {
    match a
    case NoFields =>
      assert b.Field? ==> Get(b, b.key).Some?;
    case Field(key, value, tail) =>
      assert Get(a, key) == Get(b, key);
      assert b.Field? && Get(a, b.key) == Get(b, b.key);
      assert CodeOrder(key, b.key) && CodeOrder(b.key, key);
      assert key == b.key;
      forall k ensures Get(tail, k) == Get(b.tail, k) {
        assert Get(a, k) == Get(b, k);
      }
      SortedFieldsAreUnique(tail, b.tail);
  }

  // ---------------------------------------------------------------- the signature decides equality up to order

  /** Every value of `fields` has the same stable form as its counterpart in `other`. */
  ghost predicate SameStableValues(fields: Fields, other: Fields) {
    forall k | Get(fields, k).Some? :: Get(other, k).Some? && StableJson(Get(fields, k).value) == StableJson(Get(other, k).value)
  }

  ghost predicate KeysWithin(fields: Fields, other: Fields) {
    forall k | Get(fields, k).Some? :: Get(other, k).Some?
  }

  lemma {:induction false} HasKeysMeans(fields: Fields, other: Fields)
    ensures HasKeys(fields, other) <==> KeysWithin(fields, other)
  {
    match fields
    case NoFields =>
    case Field(key, _, tail) =>
      HasKeysMeans(tail, other);
      assert Get(fields, key).Some?;
      assert forall k | Get(fields, k).Some? :: k == key || Get(tail, k).Some?;
      assert forall k | Get(tail, k).Some? :: Get(fields, k).Some?;
  }

  lemma {:induction false} ProperGet(fields: Fields, key: string)
    requires ProperFields(fields) && Get(fields, key).Some?
    ensures Proper(Get(fields, key).value)
  {
    if fields.key != key {
      ProperGet(fields.tail, key);
    }
  }

  lemma GetStable(fields: Fields, key: string)
    requires IsTotal(CodeOrder) && ProperFields(fields)
    ensures Get(StableFields(fields), key) == if Get(fields, key).Some? then Some(StableJson(Get(fields, key).value)) else None
  {
    StableFieldsAreSorted(fields);
  }

  lemma EqualStableFields(a: Fields, b: Fields)
    requires IsTotal(CodeOrder) && ProperFields(a) && ProperFields(b) && StableFields(a) == StableFields(b)
    ensures SameStableValues(a, b) && KeysWithin(b, a)
  {
    forall k
      ensures Get(a, k).Some? <==> Get(b, k).Some?
      ensures Get(a, k).Some? ==> StableJson(Get(a, k).value) == StableJson(Get(b, k).value)
    {
      GetStable(a, k);
      GetStable(b, k);
    }
  }

  lemma StableFieldsEqual(a: Fields, b: Fields)
    requires ProperFields(a) && ProperFields(b)
    ensures StableFields(a) == StableFields(b) <==> SameStableValues(a, b) && KeysWithin(b, a)
  {
    CodeOrderIsTotal();
    StableFieldsAreSorted(a);
    StableFieldsAreSorted(b);
    if SameStableValues(a, b) && KeysWithin(b, a) {
      SortedFieldsAreUnique(StableFields(a), StableFields(b));
    }
    if StableFields(a) == StableFields(b) {
      EqualStableFields(a, b);
    }
  }

  lemma {:induction false} WithinMeans(fields: Fields, other: Fields)
    requires ProperFields(fields) && ProperFields(other)
    ensures Within(fields, other) <==> SameStableValues(fields, other)
    decreases fields
  {
    match fields
    case NoFields =>
    case Field(key, value, tail) =>
      WithinMeans(tail, other);
      assert Get(fields, key) == Some(value);
      if Get(other, key).Some? {
        ProperGet(other, key);
        SignatureDecides(value, Get(other, key).value);
      }
      assert forall k | Get(tail, k).Some? :: Get(fields, k) == Get(tail, k);
      assert forall k | Get(fields, k).Some? :: k == key || Get(tail, k).Some?;
  }

  /**
   * Two schemas have the same signature exactly when they differ at most in the order of keys, at any
   * depth.
   */
  lemma {:induction false} SignatureDecides(a: Json, b: Json)
    requires Proper(a) && Proper(b)
    ensures StableJson(a) == StableJson(b) <==> SameUpToOrder(a, b)
    decreases a
  {
    if a.Array? && b.Array? {
      SignatureDecidesItems(a.items, b.items);
    } else if a.Object? && b.Object? {
      WithinMeans(a.fields, b.fields);
      HasKeysMeans(b.fields, a.fields);
      StableFieldsEqual(a.fields, b.fields);
    }
  }

  lemma {:induction false} SignatureDecidesItems(xs: Items, ys: Items)
    requires ProperItems(xs) && ProperItems(ys)
    ensures StableItems(xs) == StableItems(ys) <==> SameItems(xs, ys)
    decreases xs
  {
    if xs.Item? && ys.Item? {
      SignatureDecides(xs.head, ys.head);
      SignatureDecidesItems(xs.tail, ys.tail);
    }
  }

  // ---------------------------------------------------------------- the registry

  /** One call of registerNamedSchema; the schema object has an identity. */
  datatype Registration = Registration(id: nat, name: string, schema: Json)

  datatype Registry = Registry(
    nameByObject: map<nat, string>,
    nameBySignature: map<Json, string>,
    duplicates: set<Json>)

  function Register(r: Registry, entry: Registration): Registry {
    var named := r.(nameByObject := r.nameByObject[entry.id := entry.name]);
    var signature := StableJson(entry.schema);
    if signature in r.duplicates then named
    else if signature in r.nameBySignature then
      named.(nameBySignature := r.nameBySignature - {signature}, duplicates := r.duplicates + {signature})
    else named.(nameBySignature := r.nameBySignature[signature := entry.name])
  }

  function After(history: seq<Registration>): Registry {
    if history == [] then Registry(map[], map[], {})
    else Register(After(history[..|history| - 1]), history[|history| - 1])
  }

  /** namedSchema */
  function NamedSchema(r: Registry, id: nat, schema: Json, allowStructuralFallback: bool): Option<string> {
    if id in r.nameByObject then Some(r.nameByObject[id])
    else if allowStructuralFallback && StableJson(schema) in r.nameBySignature then Some(r.nameBySignature[StableJson(schema)])
    else None
  }

  class Schemas {
    var schemaNameByObject: map<nat, string>
    var schemaNameBySignature: map<Json, string>
    var duplicateSchemaSignatures: set<Json>
    ghost var history: seq<Registration>

    ghost function Current(): Registry
      reads this
    {
      Registry(schemaNameByObject, schemaNameBySignature, duplicateSchemaSignatures)
    }

    ghost predicate Valid()
      reads this
    {
      Current() == After(history)
    }

    constructor ()
      ensures Valid() && history == []
    {
      schemaNameByObject, schemaNameBySignature, duplicateSchemaSignatures := map[], map[], {};
      history := [];
    }

    method RegisterNamedSchema(id: nat, name: string, schema: Json)
      requires Valid()
      modifies this
      ensures Valid() && history == old(history) + [Registration(id, name, schema)]
    {
      history := history + [Registration(id, name, schema)];
      assert history[..|history| - 1] == old(history);
      schemaNameByObject := schemaNameByObject[id := name];
      var signature := StableJson(schema);
      if signature in duplicateSchemaSignatures {
        return;
      }
      if signature in schemaNameBySignature {
        schemaNameBySignature := schemaNameBySignature - {signature};
        duplicateSchemaSignatures := duplicateSchemaSignatures + {signature};
        return;
      }
      schemaNameBySignature := schemaNameBySignature[signature := name];
    }
  }

  // ---------------------------------------------------------------- what the registry knows

  /** The registrations whose schema has the given signature. */
  function With(history: seq<Registration>, signature: Json): seq<Registration> {
    if history == [] then []
    else
      var last := history[|history| - 1];
      With(history[..|history| - 1], signature) + (if StableJson(last.schema) == signature then [last] else [])
  }

  /** After any registrations a signature has a name exactly when one registration had it, and then that name. */
  lemma {:induction false} SignatureNamesTheOnlyOne(history: seq<Registration>, signature: Json)
    ensures var r := After(history);
            var with := With(history, signature);
            && (signature in r.nameBySignature <==> |with| == 1)
            && (|with| == 1 ==> r.nameBySignature[signature] == with[0].name)
            && (signature in r.duplicates <==> |with| >= 2)
  {
    if history == [] {
    } else {
      SignatureNamesTheOnlyOne(history[..|history| - 1], signature);
    }
  }

  lemma {:induction false} WithCounts(history: seq<Registration>, signature: Json, entry: Registration)
    ensures multiset(With(history, signature))[entry]
            == if StableJson(entry.schema) == signature then multiset(history)[entry] else 0
  {
    if history == [] {
    } else {
      WithCounts(history[..|history| - 1], signature, entry);
      assert history == history[..|history| - 1] + [history[|history| - 1]];
    }
  }

  lemma SameElements(a: seq<Registration>, b: seq<Registration>)
    requires multiset(a) == multiset(b)
    ensures |a| == |b| && (|a| == 1 ==> a[0] == b[0])
  {
    assert |a| == |multiset(a)| && |b| == |multiset(b)|;
    if |a| == 1 {
      assert a[0] in multiset(a);
      assert a[0] in b;
    }
  }

  lemma SameRegistrations(history: seq<Registration>, other: seq<Registration>, signature: Json)
    requires multiset(history) == multiset(other)
    ensures |With(history, signature)| == |With(other, signature)|
    ensures |With(history, signature)| == 1 ==> With(history, signature)[0] == With(other, signature)[0]
  {
    var a, b := With(history, signature), With(other, signature);
    forall entry ensures multiset(a)[entry] == multiset(b)[entry] {
      WithCounts(history, signature, entry);
      WithCounts(other, signature, entry);
    }
    assert multiset(a) == multiset(b);
    SameElements(a, b);
  }

  /** The look-up by structure does not depend on the order of the registrations. */
  lemma RegistrationOrderDoesNotMatter(history: seq<Registration>, other: seq<Registration>)
    requires multiset(history) == multiset(other)
    ensures After(history).nameBySignature == After(other).nameBySignature
    ensures After(history).duplicates == After(other).duplicates
  {
    forall signature
      ensures signature in After(history).nameBySignature <==> signature in After(other).nameBySignature
      ensures signature in After(history).nameBySignature ==>
        After(history).nameBySignature[signature] == After(other).nameBySignature[signature]
      ensures signature in After(history).duplicates <==> signature in After(other).duplicates
    {
      SameRegistrations(history, other, signature);
      SignatureNamesTheOnlyOne(history, signature);
      SignatureNamesTheOnlyOne(other, signature);
    }
  }

  /** The registrations whose schema is the given one up to the order of keys. */
  function Alike(history: seq<Registration>, schema: Json): seq<Registration> {
    if history == [] then []
    else
      var last := history[|history| - 1];
      Alike(history[..|history| - 1], schema) + (if SameUpToOrder(last.schema, schema) then [last] else [])
  }

  lemma {:induction false} AlikeIsWith(history: seq<Registration>, schema: Json)
    requires Proper(schema) && forall i | 0 <= i < |history| :: Proper(history[i].schema)
    ensures Alike(history, schema) == With(history, StableJson(schema))
  {
    if history == [] {
    } else {
      AlikeIsWith(history[..|history| - 1], schema);
      SignatureDecides(history[|history| - 1].schema, schema);
    }
  }

  /** The name under which an object was registered last. */
  function LastName(history: seq<Registration>, id: nat): Option<string> {
    if history == [] then None
    else if history[|history| - 1].id == id then Some(history[|history| - 1].name)
    else LastName(history[..|history| - 1], id)
  }

  lemma {:induction false} LastNameOfUnknown(history: seq<Registration>, id: nat)
    ensures LastName(history, id).None? <==> forall i | 0 <= i < |history| :: history[i].id != id
  {
    if history == [] {
    } else {
      LastNameOfUnknown(history[..|history| - 1], id);
    }
  }

  /** A registered object is known by its last name, whatever the structure of its schema. */
  lemma {:induction false} ObjectsAreRegistered(history: seq<Registration>, id: nat)
    ensures var names := After(history).nameByObject;
            (if id in names then Some(names[id]) else None) == LastName(history, id)
  {
    if history == [] {
    } else {
      ObjectsAreRegistered(history[..|history| - 1], id);
    }
  }

  /**
   * A schema object that was registered is named by its last registration, whatever it looks like and
   * whether or not structure may decide; another one is named exactly when structure may decide and one
   * registered schema is the same up to the order of keys at every depth, and then by that one's name.
   */
  lemma LookupIsExact(history: seq<Registration>, id: nat, schema: Json, allowStructuralFallback: bool)
    requires Proper(schema) && forall i | 0 <= i < |history| :: Proper(history[i].schema)
    ensures NamedSchema(After(history), id, schema, allowStructuralFallback)
            == if LastName(history, id).Some? then LastName(history, id)
               else if allowStructuralFallback && |Alike(history, schema)| == 1 then Some(Alike(history, schema)[0].name)
               else None
    ensures LastName(history, id).Some? <==> exists i | 0 <= i < |history| :: history[i].id == id
  {
    AlikeIsWith(history, schema);
    SignatureNamesTheOnlyOne(history, StableJson(schema));
    ObjectsAreRegistered(history, id);
    LastNameOfUnknown(history, id);
  }
}
