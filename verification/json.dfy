/** Decoded JSON values, as `JSON.parse` hands them to the frame handler.
    Numbers are kept as integers: only the shape of a frame matters here. */
module Json {
  import opened Wrappers

  datatype Json =
    | JNull
    | JBool(b: bool)
    | JNumber(n: int)
    | JString(s: string)
    | JArray(items: seq<Json>)
    | JObject(fields: map<string, Json>)

  /** JavaScript indexing `items[i]`: an index past the end reads `undefined`. */
  function At(items: seq<Json>, i: nat): (r: Option<Json>)
    ensures r.Some? <==> i < |items|
    ensures r.Some? ==> r.value == items[i]
  {
    if i < |items| then Some(items[i]) else None
  }

  /** JavaScript property read `obj[key]` on a decoded object. */
  function Field(fields: map<string, Json>, key: string): (r: Option<Json>)
    ensures r.Some? <==> key in fields
    ensures r.Some? ==> r.value == fields[key]
  {
    if key in fields then Some(fields[key]) else None
  }
}
