/** The JavaScript values that reach the code as request-body fields, JWT
    claims or database columns, with the two coercions the code applies to
    them: truthiness (`||`, `if (v)`) and `String(v)`. Objects and
    non-integral numbers are not part of this model. */
module Js {
  import opened Numbers

  datatype JsValue =
    | Nullish               // null or undefined
    | Str(s: string)
    | Int(i: int)
    | Bool(b: bool)

  predicate Truthy(v: JsValue) {
    match v
    case Nullish => false
    case Str(s) => s != ""
    case Int(i) => i != 0
    case Bool(b) => b
  }

  /** `String(v)`. */
  function ToString(v: JsValue): (r: string)
    ensures v.Str? ==> r == v.s
    ensures v.Int? || v.Bool? || v.Nullish? ==> r != ""
  {
    match v
    case Nullish => "null"
    case Str(s) => s
    case Int(i) => IntToString(i)
    case Bool(b) => if b then "true" else "false"
  }

  /** `String(v || "")`: the text of a truthy value, "" for a falsy one. */
  function TextOr(v: JsValue): (r: string)
    ensures r == "" <==> !Truthy(v)
  {
    if Truthy(v) then ToString(v) else ""
  }
}
