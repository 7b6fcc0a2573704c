/** Decoded JSON documents as Python's `json` module hands them back, with the
    two Python operations the mail handler applies to them: truthiness (`not x`)
    and `dict.get`. */
module JsonValues {
  import opened Wrappers

  /** A decoded JSON value: `None`, `bool`, a number, `str`, `list` or `dict`. */
  datatype Json =
    | JNull
    | JBool(b: bool)
    | JNumber(n: real)
    | JString(s: string)
    | JArray(items: seq<Json>)
    | JObject(fields: map<string, Json>)

  /** Python truthiness of a decoded value: `None`, `False`, zero and empty
      containers are falsy, everything else is truthy. */
  predicate IsTruthy(v: Json)
  {
    match v
    case JNull => false
    case JBool(b) => b
    case JNumber(n) => n != 0.0
    case JString(s) => s != []
    case JArray(items) => items != []
    case JObject(fields) => fields != map[]
  }

  /** Truthiness of the result of `d.get(key)`: a missing key gives `None`. */
  predicate IsTruthyOpt(o: Option<Json>)
  {
    o.Some? && IsTruthy(o.value)
  }

  /** `d.get(key)` on a decoded JSON object. */
  function Get(fields: map<string, Json>, key: string): Option<Json>
  {
    if key in fields then Some(fields[key]) else None
  }

  /** What one HTTP request gives the handler: the request itself raised
      (connection error, timeout, ...), the body is not JSON (so `.json()`
      raises), or the body decodes to a JSON document. */
  datatype Reply = RequestFailed | NotJson | Parsed(doc: Json)
}
