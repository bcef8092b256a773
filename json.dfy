/** JSON-shaped values as the application sees them after `JSON.parse`, and the
    few JavaScript operations on them that the core uses: truthiness, reading a
    property, counting own keys, `Object.entries` order and `String(value)`.

    Numbers are integers (fractions and exponents are not modelled). An object
    is the list of its entries in insertion order; as `JSON.parse` produces
    them, the keys are assumed distinct. */
module Json {

  import opened Wrappers
  import Text

  datatype Json =
    | JNull
    | JBool(b: bool)
    | JNum(n: int)
    | JStr(s: string)
    | JArr(items: seq<Json>)
    | JObj(entries: seq<(string, Json)>)

  const EmptyObject: Json := JObj([])

  /** JavaScript truthiness: `null`, `false`, `0` and `""` are falsy. */
  predicate Truthy(v: Json) {
    match v
    case JNull => false
    case JBool(b) => b
    case JNum(n) => n != 0
    case JStr(s) => s != []
    case _ => true
  }

  /** Truthiness of a value that may be `undefined`. */
  predicate TruthyOpt(v: Option<Json>) {
    v.Some? && Truthy(v.value)
  }

  /** Strings, numbers and booleans: the values a `Set` compares by value. */
  predicate IsPrimitive(v: Json) {
    v.JBool? || v.JNum? || v.JStr?
  }

  /** The value stored under `key`, if the object has that key. */
  function Get(entries: seq<(string, Json)>, key: string): (r: Option<Json>)
    ensures r.Some? <==> exists i :: 0 <= i < |entries| && entries[i].0 == key
    ensures r.Some? ==> exists i :: 0 <= i < |entries| && entries[i] == (key, r.value)
    decreases |entries|
  {
    if entries == [] then None
    else if entries[0].0 == key then Some(entries[0].1)
    else
      var r := Get(entries[1..], key);
      assert r.Some? ==> exists i :: 0 <= i < |entries[1..]| && entries[1..][i] == (key, r.value);
      r
  }

  /** A property name that is the canonical decimal form of a natural number. */
  predicate IsCanonicalIndex(key: string) {
    key != [] && (forall i :: 0 <= i < |key| ==> Text.IsDigit(key[i])) && (key[0] == '0' ==> key == "0")
  }

  function IndexValue(key: string): nat
    requires IsCanonicalIndex(key)
  {
    Text.DigitsValue(key)
  }

  /** `v[key]` for a value that is neither `undefined` nor `null`: the own
      properties of objects, of arrays (indices and `length`) and of strings
      (indices and `length`). Inherited properties are not modelled. */
  function Prop(v: Json, key: string): (r: Option<Json>)
    ensures v.JObj? ==> r == Get(v.entries, key)
    ensures v.JNull? || v.JBool? || v.JNum? ==> r == None
  {
    match v
    case JObj(entries) => Get(entries, key)
    case JArr(items) =>
      if key == "length" then Some(JNum(|items|))
      else if IsCanonicalIndex(key) && IndexValue(key) < |items| then Some(items[IndexValue(key)])
      else None
    case JStr(s) =>
      if key == "length" then Some(JNum(|s|))
      else if IsCanonicalIndex(key) && IndexValue(key) < |s| then Some(JStr([s[IndexValue(key)]]))
      else None
    case _ => None
  }

  /** `Object.keys(v).length` for a value that is neither `undefined` nor `null`. */
  function KeyCount(v: Json): (r: nat)
    ensures r == 0 <==> match v
                        case JObj(e) => e == []
                        case JArr(a) => a == []
                        case JStr(s) => s == []
                        case _ => true
  {
    match v
    case JObj(entries) => |entries|
    case JArr(items) => |items|
    case JStr(s) => |s|
    case _ => 0
  }

  // ---------------------------------------------------------------------------
  // Object.entries order
  // ---------------------------------------------------------------------------

  /** Keys that JavaScript orders before all others: array indices below 2^32 - 1. */
  predicate IsArrayIndexKey(key: string) {
    IsCanonicalIndex(key) && IndexValue(key) < 0xFFFF_FFFF
  }

  /** The entry whose key is the smallest array index, if any key is one. */
  function MinIndexEntry(entries: seq<(string, Json)>): (r: Option<(string, Json)>)
    ensures r.None? <==> forall i :: 0 <= i < |entries| ==> !IsArrayIndexKey(entries[i].0)
    ensures r.Some? ==> r.value in entries && IsArrayIndexKey(r.value.0)
    ensures r.Some? ==> forall i :: 0 <= i < |entries| && IsArrayIndexKey(entries[i].0) ==>
                          IndexValue(r.value.0) <= IndexValue(entries[i].0)
    decreases |entries|
  {
    if entries == [] then None
    else
      var rest := MinIndexEntry(entries[1..]);
      assert forall e :: e in entries[1..] ==> e in entries;
      var head := entries[0];
      if !IsArrayIndexKey(head.0) then rest
      else if rest.None? || IndexValue(head.0) <= IndexValue(rest.value.0) then Some(head)
      else rest
  }

  /** `Object.entries(o)[0]`: integer-like keys come first in ascending order,
      then the other keys in insertion order. */
  function FirstEntry(entries: seq<(string, Json)>): (r: (string, Json))
    requires entries != []
    ensures r in entries
    ensures (forall i :: 0 <= i < |entries| ==> !IsArrayIndexKey(entries[i].0)) ==> r == entries[0]
  {
    match MinIndexEntry(entries)
    case Some(e) => e
    case None => entries[0]
  }

  // ---------------------------------------------------------------------------
  // String(value)
  // ---------------------------------------------------------------------------

  /** `String(v)`, as a template literal inserts it. Arrays join their elements
      with commas, writing `null` elements as nothing; every object is
      `[object Object]` (own `toString`/`valueOf` keys are not modelled). */
  function ToStr(v: Json): string
    decreases v
  {
    match v
    case JNull => "null"
    case JBool(b) => if b then "true" else "false"
    case JNum(n) => Text.IntToString(n)
    case JStr(s) => s
    case JArr(items) =>
      Text.Join(seq(|items|, i requires 0 <= i < |items| =>
                      if items[i].JNull? then "" else ToStr(items[i])), ',')
    case JObj(_) => "[object Object]"
  }
}
