/** Parsed JSON values as the handlers and the front end see them. `JSON.parse` itself is not
    modelled: every member that parses takes it as a partial function `parse`. Objects keep their
    members in insertion order, as JavaScript objects do. */
module Json {
  import opened Basics

  datatype Json =
    | JNull
    | JBool(b: bool)
    | JNum(n: real)
    | JStr(s: string)
    | JArr(items: seq<Json>)
    | JObj(fields: seq<Field>)

  datatype Field = Field(key: string, value: Json)

  /** JSON.parse as an abstract partial function. */
  type Parser = string -> Option<Json>

  /** JavaScript truthiness of a JSON value. */
  predicate Truthy(v: Json) {
    match v
    case JNull => false
    case JBool(b) => b
    case JNum(n) => n != 0.0
    case JStr(s) => s != ""
    case _ => true
  }

  /** Position of the member named `key`; later duplicates win, as in JSON.parse. */
  function FieldIndex(fs: seq<Field>, key: string): (r: Option<nat>)
    ensures r.Some? ==> r.value < |fs| && fs[r.value].key == key
    ensures r.Some? ==> forall j :: r.value < j < |fs| ==> fs[j].key != key
    ensures r.None? ==> forall j :: 0 <= j < |fs| ==> fs[j].key != key
  {
    if fs == [] then None
    else if fs[|fs| - 1].key == key then Some(|fs| - 1)
    else FieldIndex(fs[..|fs| - 1], key)
  }

  /** `v[key]` for an object `v`; `undefined` (None) for a missing member or a non-object that
      has no such property (numbers, strings, booleans, arrays). */
  function Get(v: Json, key: string): Option<Json> {
    match v
    case JObj(fs) =>
      (match FieldIndex(fs, key)
       case Some(i) => Some(fs[i].value)
       case None => None)
    case _ => None
  }

  /** `v[key]` as a string when it holds one. */
  function GetString(v: Json, key: string): Option<string> {
    match Get(v, key)
    case Some(JStr(s)) => Some(s)
    case _ => None
  }

  /** Setting a member of an object: overwrites the member in place or appends a new one. */
  function Put(fs: seq<Field>, key: string, value: Json): (r: seq<Field>)
    ensures Get(JObj(r), key) == Some(value)
    ensures forall k :: k != key ==> Get(JObj(r), k) == Get(JObj(fs), k)
  {
    match FieldIndex(fs, key)
    case Some(i) =>
      var r := fs[i := Field(key, value)];
      assert forall k :: FieldIndex(r, k) == FieldIndex(fs, k) by {
        forall k ensures FieldIndex(r, k) == FieldIndex(fs, k) { SameKeysSameIndex(fs, r, k); }
      }
      r
    case None =>
      var r := fs + [Field(key, value)];
      assert forall k :: k != key ==> FieldIndex(r, k) == FieldIndex(fs, k) by {
        forall k | k != key ensures FieldIndex(r, k) == FieldIndex(fs, k) { assert r[..|r| - 1] == fs; }
      }
      r
  }

  lemma {:induction false} SameKeysSameIndex(a: seq<Field>, b: seq<Field>, key: string)
    requires |a| == |b|
    requires forall j :: 0 <= j < |a| ==> a[j].key == b[j].key
    ensures FieldIndex(a, key) == FieldIndex(b, key)
  {
    if a != [] && a[|a| - 1].key != key {
      SameKeysSameIndex(a[..|a| - 1], b[..|b| - 1], key);
    }
  }

  /** The body `{ "error": msg }` every handler sends with a failure status. */
  function ErrorBody(msg: string): Json {
    JObj([Field("error", JStr(msg))])
  }
}
