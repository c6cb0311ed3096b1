/** JSON request bodies and stored records, and JavaScript truthiness of a
    property read from them. */
module Json {
  import opened Wrappers

  /** A JSON value. Numbers are integers: fractional numbers and NaN are not modelled. */
  datatype JsonValue =
    | JNull
    | JBool(b: bool)
    | JNum(n: int)
    | JStr(s: string)
    | JArray(items: seq<JsonValue>)
    | JObject(entries: seq<(string, JsonValue)>)

  /** A JSON object (a request body or a stored row), keyed by property name. */
  type Record = map<string, JsonValue>

  /** `obj[key]`: `None` stands for `undefined`, i.e. a missing property. */
  function Property(obj: Record, key: string): (r: Option<JsonValue>)
    ensures r.Some? <==> key in obj
    ensures r.Some? ==> r.value == obj[key]
  {
    if key in obj then Some(obj[key]) else None
  }

  /** JavaScript truthiness: `undefined`, `null`, `false`, `0` and `""` are falsy;
      every array and object is truthy. */
  predicate Truthy(v: Option<JsonValue>) {
    match v
    case None => false
    case Some(JNull) => false
    case Some(JBool(b)) => b
    case Some(JNum(n)) => n != 0
    case Some(JStr(s)) => s != ""
    case Some(JArray(_)) => true
    case Some(JObject(_)) => true
  }
}
