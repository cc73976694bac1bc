/** The JavaScript values the request handlers and runtime guards inspect:
    what `JSON.parse` can produce, plus `undefined`. Numbers are integers
    (fractions and NaN are not modelled). */
module Js {

  datatype JsValue =
    | Undefined
    | Null
    | Bool(b: bool)
    | Num(n: int)
    | Str(s: string)
    | Arr(items: seq<JsValue>)
    | Obj(fields: map<string, JsValue>)

  /** JavaScript truthiness: `undefined`, `null`, `false`, `0` and `""` are
      falsy; every array and object is truthy. */
  predicate Truthy(v: JsValue)
    ensures !Truthy(v) <==> v == Undefined || v == Null || v == Bool(false) || v == Num(0) || v == Str("")
  {
    match v
    case Undefined => false
    case Null => false
    case Bool(b) => b
    case Num(n) => n != 0
    case Str(s) => s != ""
    case Arr(_) => true
    case Obj(_) => true
  }

  /** Whether properties can be read off a value: reading one off `null` or
      `undefined` throws. */
  predicate Readable(v: JsValue) {
    !v.Null? && !v.Undefined?
  }

  /** Property read `v.key` for the own, non-prototype keys the source reads
      (`id`, `url`, `accessCode`, `recommendations` and the six recommendation
      fields): present on objects only, `undefined` otherwise. Callers check
      `Readable` first, since reading a property of `null` or `undefined` throws. */
  function Get(v: JsValue, key: string): (r: JsValue)
    ensures r != Undefined ==> v.Obj? && key in v.fields && r == v.fields[key]
    ensures v.Obj? && key in v.fields ==> r == v.fields[key]
  {
    match v
    case Obj(m) => if key in m then m[key] else Undefined
    case _ => Undefined
  }

  /** `typeof v === 'string'`. */
  predicate IsString(v: JsValue) {
    v.Str?
  }

  /** `a === s` for a string `s`: only a string with the same characters is
      strictly equal to it. */
  predicate StrictEqualsString(a: JsValue, s: string) {
    a == Str(s)
  }
}
