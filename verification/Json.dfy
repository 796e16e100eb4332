/** Values as JSON decoding builds them, without identity: what event data means once it has been cloned. The last four
    kinds are other Go values that event data may hold. */
module Json {
  datatype Json =
    | JNull
    | JString(s: string)
    | JNumber(n: real)
    | JBool(b: bool)
    | JObject(fields: map<string, Json>)
    | JArray(items: seq<Json>)
    | JStrings(strings: seq<string>)
    | JStringMap(texts: map<string, string>)
    | JBytes(bytes: seq<nat>)
    | JOther(id: int)

  datatype Option<+T> = None | Some(value: T)
}
