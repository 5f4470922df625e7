/** JSON values as the source's objects hold them, with JavaScript truthiness and
    field access where a missing field reads as `undefined` (None). */
module Json {
  import opened Wrappers
  import opened Text

  /** Numbers are integers: the model only meets versions, counts and satoshi amounts. */
  datatype Json =
    | JNull
    | JBool(b: bool)
    | JNum(n: int)
    | JStr(s: string)
    | JArr(items: seq<Json>)
    | JObj(fields: map<string, Json>)

  /** A plain object such as one wallet record. */
  type Record = map<string, Json>

  /** JavaScript truthiness; objects and arrays are always truthy. */
  predicate Truthy(j: Json) {
    match j
    case JNull => false
    case JBool(b) => b
    case JNum(n) => n != 0
    case JStr(s) => s != ""
    case JArr(_) => true
    case JObj(_) => true
  }

  /** Truthiness of a possibly `undefined` value. */
  predicate Present(v: Option<Json>) {
    v.Some? && Truthy(v.value)
  }

  /** `r.key` on a record. */
  function Field(r: Record, key: string): (v: Option<Json>)
    ensures v.Some? <==> key in r
    ensures v.Some? ==> v.value == r[key]
  {
    if key in r then Some(r[key]) else None
  }

  /** `j?.key`: reading a field of anything that is not an object gives `undefined`. */
  function Get(j: Json, key: string): (v: Option<Json>)
    ensures v.Some? <==> j.JObj? && key in j.fields
  {
    if j.JObj? then Field(j.fields, key) else None
  }

  /** `{...r, ...over}`: a shallow spread, later fields win. */
  function Spread(r: Record, over: Record): (m: Record)
    ensures m.Keys == r.Keys + over.Keys
    ensures forall k :: k in over ==> m[k] == over[k]
    ensures forall k :: k in r && k !in over ==> m[k] == r[k]
  {
    r + over
  }

  /** An array of records as a JSON array of objects. */
  function Objects(rs: seq<Record>): (a: seq<Json>)
    ensures |a| == |rs|
    ensures forall i :: 0 <= i < |rs| ==> a[i] == JObj(rs[i])
  {
    seq(|rs|, i requires 0 <= i < |rs| => JObj(rs[i]))
  }

  /** `String(v)`, the conversion `new Error(v)` and `TextEncoder.encode(v)` apply:
      an array joins its items with commas, a `null` item reading as empty. */
  function JsString(j: Json): (r: string)
    ensures j.JStr? ==> r == j.s
    ensures Truthy(j) && !j.JArr? ==> r != ""
    ensures j.JNum? && j.n >= 0 ==> AllDigits(r) && DigitsValue(r) == j.n
  {
    match j
    case JNull => "null"
    case JBool(b) => if b then "true" else "false"
    case JNum(n) => IntToString(n)
    case JStr(s) => s
    case JArr(items) => Join(seq(|items|, i requires 0 <= i < |items| => if items[i].JNull? then "" else JsString(items[i])), ",")
    case JObj(_) => "[object Object]"
  }

  /** `a === b` between fields of two separately built objects: `undefined` equals
      `undefined` and primitives compare by value, but an object or array is a
      reference of its own, so it is strictly equal to nothing read elsewhere. */
  predicate StrictEquals(a: Option<Json>, b: Option<Json>) {
    a == b && (a.None? || !(a.value.JArr? || a.value.JObj?))
  }

  /** The TypeError of `body.field` when the body is `null`. */
  function NullRead(field: string): string {
    "Cannot read properties of null (reading '" + field + "')"
  }

  /** The TypeError of `const {field} = body` when the body is `null`. */
  function NullDestructure(field: string): string {
    "Cannot destructure property '" + field + "' of '(intermediate value)' as it is null."
  }
}
