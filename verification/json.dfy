/** A JSON document as a value, the shape `serde_json::Value` gives it.
    Text parsing and printing are not modelled here: the modules that need
    them take them as function parameters. */
module JsonValue {
  import opened Outcomes

  datatype Json =
    | JNull
    | JBool(b: bool)
    | JNumber(n: int)
    | JString(s: string)
    | JArray(items: seq<Json>)
    | JObject(members: map<string, Json>)

  /** The member `key` of an object; `None` for a missing key or a non-object. */
  function Member(v: Json, key: string): (r: Option<Json>)
    ensures r.Some? <==> v.JObject? && key in v.members
    ensures r.Some? ==> r.value == v.members[key]
  {
    match v
    case JObject(m) => if key in m then Some(m[key]) else None
    case _ => None
  }
}
