/**
 * A parsed JSON document, as `json.load` hands it to the analysis, together
 * with Python's truthiness test and the dictionary/list accessors the
 * analysis uses on it.
 */
module Json {
  import opened Wrappers

  /**
   * A JSON value. An object is a Python `dict`; since `json.load` keeps the
   * last of several equal keys, a map from key to value describes it fully.
   */
  datatype Json =
    | JNull
    | JBool(b: bool)
    | JNumber(x: real)
    | JString(s: string)
    | JArray(items: seq<Json>)
    | JObject(fields: map<string, Json>)

  /** Python's `bool(v)` for a value produced by `json.load`. */
  predicate Truthy(j: Json)
    ensures !Truthy(j) <==> j in {JNull, JBool(false), JNumber(0.0), JString(""), JArray([]), JObject(map[])}
  {
    match j
    case JNull => false
    case JBool(b) => b
    case JNumber(x) => x != 0.0
    case JString(s) => s != ""
    case JArray(items) => items != []
    case JObject(fields) => fields != map[]
  }

  /** `d.get(key)` on a dict: `None` when the key is absent. */
  function Get(fields: map<string, Json>, key: string): Option<Json> {
    if key in fields then Some(fields[key]) else None
  }

  /** Python truthiness of the result of `d.get(key)`, `None` being falsy. */
  predicate TruthyGet(fields: map<string, Json>, key: string) {
    key in fields && Truthy(fields[key])
  }

  /**
   * Safe navigation `record[key][0]['value']`: the value of the first entry
   * of the array stored under `key`, or `None` as soon as one step of the
   * path is missing or of the wrong shape. It never fails; it is the
   * reference against which the analysis's own, failing, access is compared.
   */
  function FirstEntryValue(record: Json, key: string): Option<Json> {
    match record
    case JObject(fields) =>
      (match Get(fields, key)
       case Some(JArray(entries)) =>
         if entries == [] then None
         else (match entries[0]
               case JObject(entry) => Get(entry, "value")
               case _ => None)
       case _ => None)
    case _ => None
  }
}
