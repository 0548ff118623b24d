/** A decoded JSON value, as `json.loads` hands it to the tools; only its shape matters here. */
module Json {

  datatype Json =
    | JNull
    | JBool(b: bool)
    | JNumber(literal: string)   // kept in its textual form: the core never computes with it
    | JString(s: string)
    | JArray(items: seq<Json>)
    | JObject(members: map<string, Json>)
}
