/**
 * JSON values as JavaScript holds them after `JSON.parse`, and the few
 * JavaScript operators the core applies to them: truthiness, `typeof` and
 * property lookup. `JSON.parse` itself is foreign code: the model never
 * defines it, every operation that needs it takes it as a `Parser` argument,
 * so every property proved holds for any parser.
 */
module JsonValue {
  import opened Wrappers

  /** Object members are a map: member order is not modelled. */
  datatype Json =
    | JNull
    | JBool(b: bool)
    | JNumber(n: real)
    | JString(s: string)
    | JArray(elems: seq<Json>)
    | JObject(fields: map<string, Json>)

  /** The outcome of `JSON.parse`: a value, or the message of the `SyntaxError` it throws. */
  datatype ParseOutcome = Parsed(value: Json) | SyntaxError(message: string)

  type Parser = string -> ParseOutcome

  /** JavaScript truthiness (`!!v`). `JSON.parse` never yields NaN, so a number is falsy only when zero. */
  predicate Truthy(v: Json) {
    match v
    case JNull => false
    case JBool(b) => b
    case JNumber(n) => n != 0.0
    case JString(s) => s != ""
    case JArray(_) => true
    case JObject(_) => true
  }

  /** `typeof v === "object"`: true of null, of arrays and of objects. */
  predicate TypeofObject(v: Json) {
    v.JNull? || v.JArray? || v.JObject?
  }

  /**
   * `key in v` and `v?.key` for the keys the core looks up ("mark",
   * "encoding", "event", "data"): none of them is an array index, `length`,
   * or a property inherited from a prototype, so only an object's own
   * members can supply them.
   */
  function Member(v: Json, key: string): (r: Option<Json>)
    ensures r.Some? <==> v.JObject? && key in v.fields
    ensures r.Some? ==> r.value == v.fields[key]
  {
    if v.JObject? && key in v.fields then Some(v.fields[key]) else None
  }

  /** `!!v?.key`: undefined is falsy. */
  predicate MemberTruthy(v: Json, key: string) {
    match Member(v, key)
    case None => false
    case Some(m) => Truthy(m)
  }
}
