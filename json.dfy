/** The values `JSON.parse` can produce. Parsing itself is not modelled: callers receive
    a parser as a parameter (see GeminiService). */
module Json {
  import opened Wrappers

  /** A parsed JSON value. Objects are maps because `JSON.parse` keeps the last of
      duplicated keys. */
  datatype Json =
    | JNull
    | JBool(b: bool)
    | JNumber(n: real)
    | JString(s: string)
    | JArray(items: seq<Json>)
    | JObject(members: map<string, Json>)

  /** JavaScript truthiness of a parsed value: `null`, `false`, `0` and `""` are falsy,
      everything else (including empty arrays and objects) is truthy. */
  predicate Truthy(v: Json)
  {
    match v
    case JNull => false
    case JBool(b) => b
    case JNumber(n) => n != 0.0
    case JString(s) => s != ""
    case JArray(_) => true
    case JObject(_) => true
  }

  /** `typeof v[key] === 'string'`. Only objects have own members; none of the keys this
      model looks up is a built-in property of arrays, strings, numbers or booleans. */
  predicate HasStringMember(v: Json, key: string)
  {
    v.JObject? && key in v.members && v.members[key].JString?
  }

  /** The string stored under `key`. */
  function StringMember(v: Json, key: string): string
    requires HasStringMember(v, key)
  {
    v.members[key].s
  }
}
