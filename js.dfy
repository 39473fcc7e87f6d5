/**
 * The JavaScript values the front end reads from the server's JSON, and the few
 * operators it applies to them: truthiness, `||`, property access with and without
 * optional chaining, and strict equality.
 */
module Js {
  import opened Wrappers

  datatype Json =
    | Undefined
    | Null
    | Bool(b: bool)
    | Num(n: int)
    | Str(s: string)
    | Arr(items: seq<Json>)
    | Obj(fields: map<string, Json>)

  /** The exception a property read on `null` or `undefined`, or a call of a method
    * a value does not have, throws. */
  datatype JsError = TypeError

  /** `!!v`: everything is truthy except `undefined`, `null`, `false`, `0` and `""`. */
  predicate Truthy(v: Json) {
    match v
    case Undefined => false
    case Null => false
    case Bool(b) => b
    case Num(n) => n != 0
    case Str(s) => s != ""
    case Arr(_) => true
    case Obj(_) => true
  }

  /** `a || b`: `a` when it is truthy, otherwise `b`. */
  function Or(a: Json, b: Json): (r: Json)
    ensures Truthy(a) ==> r == a
    ensures !Truthy(a) ==> r == b
  {
    if Truthy(a) then a else b
  }

  /** `a && b`: `a` when it is falsy, otherwise `b`. */
  function And(a: Json, b: Json): (r: Json)
    ensures !Truthy(a) ==> r == a
    ensures Truthy(a) ==> r == b
  {
    if Truthy(a) then b else a
  }

  /** `v.name` on a value that is neither `null` nor `undefined`: the field of an
    * object, and `undefined` for a missing field or a value of another kind. */
  function Field(v: Json, name: string): (r: Json)
    ensures v.Obj? && name in v.fields ==> r == v.fields[name]
    ensures !(v.Obj? && name in v.fields) ==> r == Undefined
  {
    match v
    case Obj(fields) => if name in fields then fields[name] else Undefined
    case _ => Undefined
  }

  /** `v.name`: throws on `null` and `undefined`. */
  function Get(v: Json, name: string): (r: Result<Json, JsError>)
    ensures r.Err? <==> v == Null || v == Undefined
    ensures r.Ok? ==> r.value == Field(v, name)
  {
    if v == Null || v == Undefined then Err(TypeError) else Ok(Field(v, name))
  }

  /** `v?.name`: `undefined` on `null` and `undefined`. */
  function OptGet(v: Json, name: string): (r: Json)
    ensures v == Null || v == Undefined ==> r == Undefined
    ensures Get(v, name).Ok? ==> r == Get(v, name).value
  {
    if v == Null || v == Undefined then Undefined else Field(v, name)
  }

  /** `a === b` on primitives. Arrays and objects compare by reference, which the
    * model does not have, so two of them are never strictly equal here. */
  predicate StrictEquals(a: Json, b: Json) {
    match (a, b)
    case (Undefined, Undefined) => true
    case (Null, Null) => true
    case (Bool(x), Bool(y)) => x == y
    case (Num(x), Num(y)) => x == y
    case (Str(x), Str(y)) => x == y
    case _ => false
  }
}
