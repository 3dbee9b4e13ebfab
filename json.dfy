/** The documents that ld-query walks: JSON values as JavaScript sees them after
    `JSON.parse`. Objects keep their keys in `Object.keys` order; numbers are
    integers (matching only ever compares against strings). `null` is not a
    value here: the walker throws on it (`Object.keys(null)`). */
module Json {
  import opened Wrappers

  datatype Json =
    | JString(str: string)
    | JNumber(num: int)
    | JBool(flag: bool)
    | JArray(items: seq<Json>)
    | JObject(fields: seq<Field>)

  /** One own property of an object, in `Object.keys` order. */
  datatype Field = Field(key: string, value: Json)

  /** The key of the synthetic root entry and step. */
  const DocumentKey := "#document"

  /** The key whose arrays are values, not sub-documents. */
  const TypeKey := "@type"

  /** How many children `Object.keys` or the indices of an array give. */
  function ChildCount(v: Json): nat
  {
    match v
    case JArray(items) => |items|
    case JObject(fields) => |fields|
    case _ => 0
  }

  /** The `i`-th child: an array element or the value of the `i`-th field. */
  function ChildValue(v: Json, i: nat): (r: Json)
    requires i < ChildCount(v)
    ensures r < v
  {
    match v
    case JArray(items) => items[i]
    case JObject(fields) => fields[i].value
  }

  /** JavaScript truthiness of a value: `""`, `0` and `false` are falsy. */
  predicate Truthy(v: Json)
  {
    match v
    case JString(s) => s != ""
    case JNumber(n) => n != 0
    case JBool(b) => b
    case _ => true
  }

  /** The value of the first field named `key`, if any. */
  function Lookup(fields: seq<Field>, key: string): (r: Option<Json>)
    ensures r.Some? ==> exists i :: 0 <= i < |fields| && fields[i].key == key && fields[i].value == r.value
    ensures r.None? <==> forall i :: 0 <= i < |fields| ==> fields[i].key != key
  {
    if fields == [] then None
    else if fields[0].key == key then Some(fields[0].value)
    else Lookup(fields[1..], key)
  }

  /** `value[key]`: the property `key` of an object. Properties of strings,
      numbers, booleans and arrays are treated as absent. */
  function Attr(v: Json, key: string): (r: Option<Json>)
    ensures r.Some? ==> v.JObject?
    ensures r.Some? ==> exists i :: 0 <= i < |v.fields| && v.fields[i] == Field(key, r.value)
    ensures r.None? <==> !v.JObject? || forall i :: 0 <= i < |v.fields| ==> v.fields[i].key != key
  {
    if v.JObject? then Lookup(v.fields, key) else None
  }

  /** Keys of every object in the value are pairwise distinct, as in any
      JavaScript object. */
  predicate DistinctKeys(fields: seq<Field>)
  {
    forall i, j :: 0 <= i < j < |fields| ==> fields[i].key != fields[j].key
  }

  lemma {:induction false} LookupDistinct(fields: seq<Field>, i: nat)
    requires DistinctKeys(fields) && i < |fields|
    ensures Lookup(fields, fields[i].key) == Some(fields[i].value)
  {
    if i > 0 {
      assert fields[0].key != fields[i].key;
      assert fields[1..][i - 1] == fields[i];
      LookupDistinct(fields[1..], i - 1);
    }
  }
}
