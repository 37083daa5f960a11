/** JSON values, as the host language reads them. */
module Json {
  import opened Options

  type Object = map<string, Json>

  datatype Json = JNull | JBool(truth: bool) | JNumber(number: real) | JString(text: string) | JArray(items: seq<Json>) | JObject(fields: Object)

  function Get(o: Object, key: string): Option<Json> {
    if key in o then Some(o[key]) else None
  }

  predicate IsString(value: Option<Json>) {
    value.Some? && value.value.JString?
  }

  /** A whole number that a double holds exactly. */
  predicate IsSafeInteger(x: real) {
    x == x.Floor as real && -9007199254740991.0 <= x <= 9007199254740991.0
  }
}
