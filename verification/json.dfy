/**
 * The values `JSONSerialization.jsonObject(with:)` produces: objects are
 * string-keyed dictionaries, arrays keep their order. Decoding bytes into
 * such a value is done by the platform and is not part of this model; the
 * modules that consume JSON receive the decoded value (or its absence).
 */
module JsonValue {
  import opened Wrappers

  datatype Json =
    | JNull
    | JBool(b: bool)
    | JNumber(n: real)
    | JString(s: string)
    | JArray(items: seq<Json>)
    | JObject(fields: map<string, Json>)

  /** A dictionary: Swift's `[String: Any]`. */
  type Object = map<string, Json>

  /** `dict[key] as? String`: the value at `key` when it is present and a string. */
  function StringAt(obj: Object, key: string): (r: Option<string>)
    ensures r.Some? <==> key in obj && obj[key].JString?
    ensures r.Some? ==> obj[key] == JString(r.value)
  {
    if key in obj && obj[key].JString? then Some(obj[key].s) else None
  }
}
