/** The parsed JSON values an import file can hold. Numbers are integers only. */
module Json {
  import opened Common

  datatype Json =
    | JNull
    | JBool(b: bool)
    | JInt(i: int)
    | JStr(s: string)
    | JArray(items: seq<Json>)
    | JObject(fields: map<string, Json>)

  /** JavaScript truthiness of a JSON value (`!!v`). */
  predicate Truthy(v: Json) {
    match v
    case JNull => false
    case JBool(b) => b
    case JInt(i) => i != 0
    case JStr(s) => s != ""
    case JArray(_) => true
    case JObject(_) => true
  }

  /** `Object.keys(v).includes(k)`: only objects own named keys (arrays and strings own index keys only). */
  predicate HasKey(v: Json, k: string) {
    v.JObject? && k in v.fields
  }

  /** Property access `v[k]`; None stands for `undefined`. */
  function Prop(v: Json, k: string): (r: Option<Json>)
    ensures r.Some? <==> HasKey(v, k)
    ensures r.Some? ==> r.value == v.fields[k]
  {
    if v.JObject? && k in v.fields then Some(v.fields[k]) else None
  }

  /** `typeof v[k] === "string"` */
  predicate HasStringKey(v: Json, k: string) {
    HasKey(v, k) && v.fields[k].JStr?
  }
}
