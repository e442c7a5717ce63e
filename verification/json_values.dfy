/**
 * Decoded JSON values as the script tools see them after `json.load` /
 * `json.loads`, with the two bits of Python semantics the tools depend on:
 * truthiness (`if x`, `a or b`) and hashability (use as a dict key or set member).
 */
module JsonValues {

  /** A decoded JSON value. Numbers are integers; JSON objects are dicts keyed by strings. */
  datatype Json =
    | JNull
    | JBool(b: bool)
    | JNum(n: int)
    | JStr(s: string)
    | JList(items: seq<Json>)
    | JObj(fields: map<string, Json>)

  /** A dict with string keys: a dialogue record, a JSON-line config, a speaker entry. */
  type Record = map<string, Json>

  /** Python truthiness of a decoded value. */
  predicate Truthy(j: Json) {
    match j
    case JNull => false
    case JBool(b) => b
    case JNum(n) => n != 0
    case JStr(s) => s != []
    case JList(items) => items != []
    case JObj(fields) => fields != map[]
  }

  /** Lists and dicts cannot be dict keys or set members in Python (TypeError). */
  predicate Hashable(j: Json) {
    !j.JList? && !j.JObj?
  }

  /** `d.get(key, default)`. */
  function Get(d: Record, key: string, default: Json): Json {
    if key in d then d[key] else default
  }
}
