/**
 * The value `json.loads` produces from the language model's reply. Parsing itself is
 * not modelled: a reply arrives already parsed. Numbers keep the distinction
 * Python makes between `int` and `float`; a float carries the text `str()`
 * prints for it, since float formatting is not modelled.
 */
module Json {
  import opened Strings

  datatype Json =
    | JNull
    | JBool(b: bool)
    | JInt(i: int)
    | JFloat(value: real, text: string)
    | JStr(s: string)
    | JArray(items: seq<Json>)
    | JObject(fields: seq<(string, Json)>)  // in document order; a repeated key keeps its last value

  /** The object names `key` somewhere. */
  predicate HasKey(fields: seq<(string, Json)>, key: string) {
    exists i :: 0 <= i < |fields| && fields[i].0 == key
  }

  /** `v` is the value of the last member named `key`: the one the dict
      `json.loads` builds keeps when a name repeats. */
  predicate IsLastValue(fields: seq<(string, Json)>, key: string, v: Json) {
    exists i :: 0 <= i < |fields| && fields[i] == (key, v) && forall j :: i < j < |fields| ==> fields[j].0 != key
  }

  /** `d.get(key, default)` on the dict `json.loads` builds from an object. */
  function Get(fields: seq<(string, Json)>, key: string, default: Json): (v: Json)
    ensures !HasKey(fields, key) ==> v == default
    ensures HasKey(fields, key) ==> IsLastValue(fields, key, v)
  {
    if fields == [] then default
    else if fields[|fields| - 1].0 == key then fields[|fields| - 1].1
    else
      var prefix := fields[..|fields| - 1];
      assert forall i :: 0 <= i < |prefix| ==> prefix[i] == fields[i];
      Get(prefix, key, default)
  }

  /** Python truthiness of a parsed value (`if not value`). */
  predicate Truthy(j: Json) {
    match j
    case JNull => false
    case JBool(b) => b
    case JInt(i) => i != 0
    case JFloat(r, _) => r != 0.0
    case JStr(s) => s != []
    case JArray(items) => items != []
    case JObject(fields) => fields != []
  }

  /** `isinstance(j, (int, float))`; a Python `bool` is an `int`. */
  predicate IsNumber(j: Json) {
    j.JBool? || j.JInt? || j.JFloat?
  }

  /** The numeric value of a number, where `True` counts 1 and `False` 0. */
  function NumberValue(j: Json): real
    requires IsNumber(j)
  {
    match j
    case JBool(b) => if b then 1.0 else 0.0
    case JInt(i) => i as real
    case JFloat(r, _) => r
  }

  /** `type(j).__name__`. */
  function TypeName(j: Json): string {
    match j
    case JNull => "NoneType"
    case JBool(_) => "bool"
    case JInt(_) => "int"
    case JFloat(_, _) => "float"
    case JStr(_) => "str"
    case JArray(_) => "list"
    case JObject(_) => "dict"
  }

  /** `str(j)`, the text an f-string substitutes. */
  function Str(j: Json): string {
    if j.JStr? then j.s else Repr(j)
  }

  /** `repr(j)`; string quoting ignores escapes. */
  function Repr(j: Json): string
    decreases j, 1
  {
    match j
    case JNull => "None"
    case JBool(b) => if b then "True" else "False"
    case JInt(i) => IntToString(i)
    case JFloat(_, t) => t
    case JStr(s) => "'" + s + "'"
    case JArray(items) => "[" + ReprItems(items) + "]"
    case JObject(fields) => "{" + ReprFields(fields) + "}"
  }

  function ReprItems(items: seq<Json>): string
    decreases items, 0
  {
    if items == [] then ""
    else if |items| == 1 then Repr(items[0])
    else Repr(items[0]) + ", " + ReprItems(items[1..])
  }

  function ReprFields(fields: seq<(string, Json)>): string
    decreases fields, 0
  {
    if fields == [] then ""
    else
      var entry := ReprField(fields[0]);
      if |fields| == 1 then entry else entry + ", " + ReprFields(fields[1..])
  }

  function ReprField(field: (string, Json)): string
    decreases field, 0
  {
    "'" + field.0 + "': " + Repr(field.1)
  }
}
