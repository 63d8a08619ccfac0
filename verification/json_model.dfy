/** A decoded JSON document (section 3 of RFC 8259) as Python sees it after
    `response.json()`: objects become dicts, so a key occurring twice keeps
    its last value and an object is a finite map. */
module JsonModel {

  /** A number is kept exactly as `mantissa * 10^exponent`; nothing here does
      arithmetic on it. */
  datatype Json =
    | JNull
    | JBool(b: bool)
    | JNumber(mantissa: int, exponent: int)
    | JString(s: string)
    | JArray(items: seq<Json>)
    | JObject(fields: map<string, Json>)

  /** The three ways Python's `value[key]` with a string key can end. */
  datatype Lookup = Found(value: Json) | Missing | NotMapping

  /** Python's `value[key]`: a dict answers or raises `KeyError`; a list, a
      string, a number, a bool or `None` raises `TypeError`. */
  function Index(v: Json, key: string): (r: Lookup)
    ensures r.NotMapping? <==> !v.JObject?
    ensures r.Found? <==> v.JObject? && key in v.fields
    ensures r.Found? ==> r.value == v.fields[key]
  {
    match v
    case JObject(fields) => if key in fields then Found(fields[key]) else Missing
    case _ => NotMapping
  }
}
