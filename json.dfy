/** JSON-like values, as the Flask generation receives and produces them. */
module Json {

  /** A JSON value. Python's int, float and bool numbers are all `JNum`, except that
      a literal `true`/`false` stays a `JBool`. */
  datatype Json =
    | JNull
    | JBool(b: bool)
    | JNum(n: real)
    | JStr(s: string)
    | JArr(items: seq<Json>)
    | JObj(fields: map<string, Json>)

  /** Python's truthiness of a JSON value (`if x`, `x or y`). */
  predicate Truthy(j: Json) {
    match j
    case JNull => false
    case JBool(b) => b
    case JNum(n) => n != 0.0
    case JStr(s) => s != ""
    case JArr(xs) => xs != []
    case JObj(m) => m != map[]
  }

  /** Python's `x or default`. */
  function Or(j: Json, default: Json): Json {
    if Truthy(j) then j else default
  }
}
