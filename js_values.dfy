/**
 * The JavaScript values the application stores and exchanges (the JSON subset, with integer numbers),
 * and the few language rules the modelled code relies on: truthiness, `===`, property access,
 * object spread and string coercion.
 */
module JsValues {
  import opened Wrappers

  datatype Json =
    | JNull
    | JBool(b: bool)
    | JNum(n: int)
    | JStr(s: string)
    | JArr(items: seq<Json>)
    | JObj(fields: map<string, Json>)

  /** A value as JavaScript reads it from a property: `None` is `undefined`. */
  type Value = Option<Json>

  /** The own fields of a plain object. */
  type Record = map<string, Json>

  /** `!!v` */
  predicate Truthy(v: Value) {
    match v
    case None => false
    case Some(j) =>
      match j
      case JNull => false
      case JBool(b) => b
      case JNum(n) => n != 0
      case JStr(s) => s != ""
      case _ => true
  }

  predicate IsPrimitive(j: Json) {
    !j.JArr? && !j.JObj?
  }

  /**
   * `a === b` for two values that come from separate `JSON.parse` calls or literals:
   * primitives compare by value, while two objects or arrays are never the same reference.
   */
  predicate StrictEq(a: Value, b: Value) {
    match (a, b)
    case (None, None) => true
    case (Some(x), Some(y)) => IsPrimitive(x) && x == y
    case _ => false
  }

  /** `r.k` on a plain object. */
  function Field(r: Record, k: string): Value {
    if k in r then Some(r[k]) else None
  }

  /** `j.k` for a named data field of a value that is not `null`: only objects have one. */
  function Member(j: Json, k: string): Value {
    if j.JObj? then Field(j.fields, k) else None
  }

  /**
   * `v.k` for a named data field: reading a property of `undefined` or `null` throws a `TypeError`;
   * numbers, strings, booleans and arrays have no such own field.
   */
  function Prop(v: Value, k: string): (r: Result<Value>)
    ensures r.Thrown? <==> v.None? || v == Some(JNull)
    ensures r.Ok? ==> r.value == Member(v.value, k)
  {
    match v
    case None => Thrown
    case Some(JNull) => Thrown
    case Some(j) => Ok(Member(j, k))
  }

  /** `v?.k`: `undefined` when `v` is `null` or `undefined`. */
  function OptionalProp(v: Value, k: string): (r: Value)
    ensures v.None? || v == Some(JNull) ==> r.None?
    ensures v.Some? && v != Some(JNull) ==> r == Member(v.value, k)
  {
    match Prop(v, k)
    case Thrown => None
    case Ok(r) => r
  }

  /** `a || b` */
  function Or(a: Value, b: Value): (r: Value)
    ensures Truthy(a) ==> r == a
    ensures !Truthy(a) ==> r == b
  {
    if Truthy(a) then a else b
  }

  /** The object written as `{...v}`: an object's own fields, an array's or a string's elements under their indices, nothing otherwise. */
  function Spread(v: Value): Record {
    match v
    case Some(JObj(m)) => m
    case Some(JArr(items)) => Indexed(items)
    case Some(JStr(s)) => Indexed(seq(|s|, i requires 0 <= i < |s| => JStr([s[i]])))
    case _ => map[]
  }

  function Indexed(items: seq<Json>): Record
    decreases |items|
  {
    if |items| == 0 then map[]
    else Indexed(items[..|items| - 1])[NumberString(|items| - 1) := items[|items| - 1]]
  }

  /**
   * How `JSON.stringify` stores an object whose properties may hold `undefined`: those properties are dropped.
   */
  function Serialized(o: map<string, Value>): (r: Record)
    ensures forall k :: k in r <==> k in o && o[k].Some?
    ensures forall k :: k in r ==> Some(r[k]) == o[k]
  {
    map k | k in o && o[k].Some? :: o[k].value
  }

  /** `JSON.parse(JSON.stringify({...prior, ...o}))`: the fields of `o` win, and those it holds as `undefined` disappear. */
  function MergeSerialized(prior: Record, o: map<string, Value>): (r: Record)
    ensures forall k :: k in o ==> Field(r, k) == o[k]
    ensures forall k :: k !in o ==> Field(r, k) == Field(prior, k)
  {
    map k | k in prior.Keys + o.Keys && (k in o ==> o[k].Some?) :: if k in o then o[k].value else prior[k]
  }

  function Digit(d: int): char
    requires 0 <= d < 10
  {
    "0123456789"[d]
  }

  function NatString(n: nat): string
    decreases n
  {
    if n < 10 then [Digit(n)] else NatString(n / 10) + [Digit(n % 10)]
  }

  /** `String(n)` for an integer number. */
  function NumberString(n: int): string {
    if n < 0 then "-" + NatString(-n) else NatString(n)
  }

  /** `String(j)`, which is also how a value used as a property key becomes a string. */
  function ToString(j: Json): string
    decreases j
  {
    match j
    case JNull => "null"
    case JBool(b) => if b then "true" else "false"
    case JNum(n) => NumberString(n)
    case JStr(s) => s
    case JArr(items) =>
      // Array.prototype.join(","): null elements contribute the empty string
      Join(seq(|items|, i requires 0 <= i < |items| => if items[i] == JNull then "" else ToString(items[i])))
    case JObj(_) => "[object Object]"
  }

  function Join(parts: seq<string>): string
    decreases |parts|
  {
    if |parts| == 0 then ""
    else if |parts| == 1 then parts[0]
    else parts[0] + "," + Join(parts[1..])
  }

  /** `String(v)` and `${v}` for a value that may be `undefined`. */
  function ValueString(v: Value): string {
    match v
    case None => "undefined"
    case Some(j) => ToString(j)
  }
}
