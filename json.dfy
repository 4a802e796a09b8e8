/** A JSON value as PHP's `json_decode($text, true)` hands it over: objects become
    string-keyed maps (a repeated key keeps its last value), arrays keep their order. */
module Json {

  datatype Value =
    | JNull
    | JBool(b: bool)
    | JNumber(n: int)
    | JString(s: string)
    | JArray(items: seq<Value>)
    | JObject(fields: map<string, Value>)
}
