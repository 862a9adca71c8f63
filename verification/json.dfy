/**
 * The value `json.loads` produces, kept abstract: the adapter only asks
 * whether a value is an object, an array or a string. A JSON object becomes a
 * Python dict, so an object is a map from keys to values (when a document
 * repeats a key the parser keeps the last one, which a map already reflects).
 */
module Json {

  datatype JsonValue =
    | JNull
    | JBool(b: bool)
    | JNumber(n: real)
    | JString(text: string)
    | JArray(items: seq<JsonValue>)
    | JObject(fields: map<string, JsonValue>)
}
