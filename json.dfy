/** JSON values as Python's `json.loads` returns them, and Python's truth test on them. */
module Json {

  datatype Json =
    | Null
    | Bool(b: bool)
    | Number(n: real)
    | Str(s: string)
    | Array(items: seq<Json>)
    | Object(fields: map<string, Json>)

  /** The outcome of `json.loads(text)`: a value, or the message of a `JSONDecodeError`. */
  datatype Parsed = Value(json: Json) | DecodeError(reason: string)

  /** Python's `bool(v)`: `None`, `False`, zero and empty containers are false. */
  predicate Truthy(v: Json) {
    match v
    case Null => false
    case Bool(b) => b
    case Number(n) => n != 0.0
    case Str(s) => s != []
    case Array(items) => items != []
    case Object(fields) => fields != map[]
  }
}
