/** JavaScript values as they arrive in request bodies and API responses,
    with the truthiness rules the program's `||` defaults and `!x` guards use. */
module Js {
  import opened Wrappers
  import Text
  import Numbers

  datatype JsValue =
    | Undefined
    | Null
    | Bool(b: bool)
    | Num(n: real)
    | NaN
    | Str(s: string)
    | Arr(items: seq<JsValue>)
    | Obj

  /** `!!v`: everything is truthy except `undefined`, `null`, `false`, `0`,
      `NaN` and the empty string. */
  predicate Truthy(v: JsValue) {
    match v
    case Undefined => false
    case Null => false
    case Bool(b) => b
    case Num(n) => n != 0.0
    case NaN => false
    case Str(s) => s != ""
    case Arr(_) => true
    case Obj => true
  }

  /** `a || b`. */
  function Or(a: JsValue, b: JsValue): (r: JsValue)
    ensures Truthy(a) ==> r == a
    ensures !Truthy(a) ==> r == b
  {
    if Truthy(a) then a else b
  }

  /** `a || b` is falsy only when both are. */
  lemma OrTruthy(a: JsValue, b: JsValue)
    ensures Truthy(Or(a, b)) <==> Truthy(a) || Truthy(b)
  {
  }

  /** A request body or JSON object: a missing key reads as `undefined`. */
  type Body = map<string, JsValue>

  function Get(body: Body, key: string): (v: JsValue)
    ensures key !in body ==> v == Undefined
  {
    if key in body then body[key] else Undefined
  }

  /** `typeof v === 'string'`. */
  predicate IsString(v: JsValue) { v.Str? }

  /** `String(v).trim()` for the values that reach it as strings. */
  function TrimValue(v: JsValue): (r: JsValue)
    ensures v.Str? ==> r == Str(Text.Trim(v.s))
    ensures !v.Str? ==> r == v
  {
    if v.Str? then Str(Text.Trim(v.s)) else v
  }

  /** `parseFloat(v)`: numbers pass through, strings are parsed, anything
      else is `NaN`. */
  function ParseFloatValue(v: JsValue): (r: JsValue)
    ensures r.Num? || r.NaN?
  {
    match v
    case Num(n) => Num(n)
    case Str(s) => (match Numbers.ParseFloat(s) case Some(x) => Num(x) case None => NaN)
    case _ => NaN
  }

  /** `parseFloat(v) || 0` as a number. */
  function NumberOrZero(v: JsValue): real {
    match ParseFloatValue(v)
    case Num(n) => n
    case _ => 0.0
  }

  /** A number written as a string parses back to itself. */
  lemma ParseFloatValueOfNat(n: nat)
    ensures ParseFloatValue(Str(Numbers.NatToString(n))) == Num(n as real)
  {
    Numbers.ParseFloatOfNat(n);
  }
}
