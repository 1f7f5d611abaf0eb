/**
 * The JavaScript values a request can carry: the parsed JSON body and the query
 * object. A missing key of an object is JavaScript's `undefined`.
 */
module Json {
  import opened Wrappers

  datatype Json =
    | JNull
    | JBool(b: bool)
    | JNum(n: int)
    | JStr(s: string)
    | JArray(items: seq<Json>)
    | JObject(fields: map<string, Json>)

  /** The value stored under `key`, or None when the key is absent (`undefined`). */
  function Lookup(fields: map<string, Json>, key: string): (v: Option<Json>)
    ensures v.Some? <==> key in fields
    ensures v.Some? ==> fields[key := v.value] == fields
  {
    if key in fields then Some(fields[key]) else None
  }

  /** The type name Zod reports as "received" in its invalid-type messages. */
  function TypeName(j: Json): string
  {
    match j
    case JNull => "null"
    case JBool(_) => "boolean"
    case JNum(_) => "number"
    case JStr(_) => "string"
    case JArray(_) => "array"
    case JObject(_) => "object"
  }

  /**
   * JavaScript truthiness of a possibly-undefined value: `undefined`, `null`, `false`,
   * `0` and the empty string are falsy, everything else (arrays and objects included) is truthy.
   */
  predicate Truthy(v: Option<Json>)
  {
    match v
    case None => false
    case Some(JNull) => false
    case Some(JBool(b)) => b
    case Some(JNum(n)) => n != 0
    case Some(JStr(s)) => s != ""
    case Some(JArray(_)) => true
    case Some(JObject(_)) => true
  }

  /** Truthiness of an optional string field (`if (student.name)`). */
  predicate TruthyText(v: Option<string>)
  {
    v.Some? && v.value != ""
  }
}
