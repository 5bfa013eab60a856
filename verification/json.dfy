/** JSON values and the JSON library (to_json and JSON.parse), left abstract. */
module Json {
  import opened Wrappers
  import opened Words

  datatype Json =
    | JNull
    | JBool(b: bool)
    | JNumber(n: int)
    | JString(s: string)
    | JArray(items: seq<Json>)
    | JObject(fields: map<string, Json>)

  /** Ruby truthiness: everything except nil and false. */
  predicate Truthy(v: Json) {
    v != JNull && v != JBool(false)
  }

  /** object.to_json as UTF-8 text, and JSON.parse, which answers None where it raises. */
  datatype JsonCodec = JsonCodec(generate: Json -> Bytes, parse: Bytes -> Option<Json>)

  /** A JSON text is never empty, and parsing generated text gives the value back. */
  ghost predicate JsonSound(c: JsonCodec) {
    forall v: Json :: |c.generate(v)| > 0 && c.parse(c.generate(v)) == Some(v)
  }
}
