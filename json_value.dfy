/** JSON values as the Python lambdas receive them from `json.loads` and
    from boto3, with Python's truthiness and dictionary access. Numbers are
    integers only. */
module JsonValue {
  import opened Wrappers

  datatype Json =
    | JNull
    | JBool(b: bool)
    | JNum(n: int)
    | JStr(s: string)
    | JArr(items: seq<Json>)
    | JObj(fields: map<string, Json>)

  /** `bool(v)` in Python: None, False, 0, "", [] and {} are false. */
  predicate Truthy(v: Json) {
    match v
    case JNull => false
    case JBool(b) => b
    case JNum(n) => n != 0
    case JStr(s) => s != ""
    case JArr(a) => |a| > 0
    case JObj(m) => |m| > 0
  }

  /** `d.get(k)` on a dictionary: None when the key is absent. Only
      dictionaries have `get`; callers treat anything else as an error. */
  function Get(v: Json, k: string): (r: Option<Json>)
    requires v.JObj?
    ensures r.Some? <==> k in v.fields
    ensures r.Some? ==> r.value == v.fields[k]
  {
    if k in v.fields then Some(v.fields[k]) else None
  }

  /** `d[k]` on a value: raises (KeyError, TypeError) unless `v` is a
      dictionary holding `k`. */
  function Index(v: Json, k: string): (r: Option<Json>)
    ensures r.Some? <==> v.JObj? && k in v.fields
    ensures r.Some? ==> r.value == v.fields[k]
  {
    if v.JObj? && k in v.fields then Some(v.fields[k]) else None
  }
}
