/** Parsed JSON values, the input of the validator. Numbers are integers in this
    model; JavaScript's `undefined` (a missing property) is `None` of `Get`. */
module Json {
  import opened Wrappers

  datatype Json =
    | JNull
    | JBool(b: bool)
    | JNum(n: int)
    | JStr(s: string)
    | JArr(items: seq<Json>)
    | JObj(fields: map<string, Json>)

  /** JavaScript truthiness of a present value. */
  predicate Truthy(v: Json) {
    match v
    case JNull => false
    case JBool(b) => b
    case JNum(n) => n != 0
    case JStr(s) => s != ""
    case _ => true
  }

  /** Property read `v[key]`; `None` is `undefined`. */
  function Get(v: Json, key: string): Option<Json> {
    if v.JObj? && key in v.fields then Some(v.fields[key]) else None
  }

  /** `v || d` where `v` may be `undefined`. */
  function OrElse(v: Option<Json>, d: Json): (r: Json)
    ensures Truthy(r) || r == d
  {
    if v.Some? && Truthy(v.value) then v.value else d
  }

  /** `isObject`: a non-null, non-array object. */
  predicate IsObject(v: Json) {
    v.JObj?
  }

  /** `isString` of a possibly-undefined value. */
  predicate IsStr(v: Option<Json>) {
    v.Some? && v.value.JStr?
  }

  /** `isArray` of a possibly-undefined value. */
  predicate IsArr(v: Option<Json>) {
    v.Some? && v.value.JArr?
  }

  /** `isNumber` of a possibly-undefined value (NaN is not modelled). */
  predicate IsNum(v: Option<Json>) {
    v.Some? && v.value.JNum?
  }

  /** `isBoolean` of a possibly-undefined value. */
  predicate IsBool(v: Option<Json>) {
    v.Some? && v.value.JBool?
  }

  /** The elements of an array value, or none at all. */
  function Items(v: Option<Json>): seq<Json> {
    if IsArr(v) then v.value.items else []
  }

  /** `isNullOrString(v) ? v : null`, as a nullable string. */
  function NullOrString(v: Option<Json>): (r: Option<string>)
    ensures r.Some? <==> IsStr(v)
    ensures r.Some? ==> r.value == v.value.s
  {
    if IsStr(v) then Some(v.value.s) else None
  }
}
