/** The few JavaScript value rules the sales bot relies on: a looked-up
    property may be `undefined`, `null` or a real value; lodash's `_.get`
    falls back to its default only on `undefined`; `String.prototype.slice`
    clamps its end index; a template literal prints `undefined` and `null`
    by name. */
module JsValue {

  /** What a property access can produce. */
  datatype Js<+T> = Undefined | Null | Defined(value: T)

  /** `_.get(obj, [field])` one step down: a missing or null object yields
      `undefined`, otherwise the field's own value, which may itself be null. */
  function Get<T, U>(obj: Js<T>, field: T -> Js<U>): (r: Js<U>)
    ensures !obj.Defined? ==> r.Undefined?
    ensures obj.Defined? ==> r == field(obj.value)
  {
    match obj
    case Defined(o) => field(o)
    case _ => Undefined
  }

  /** The default argument of `_.get`: used only when the looked-up value is
      `undefined`; a `null` is returned as it is. */
  function OrElse<T>(primary: Js<T>, fallback: Js<T>): (r: Js<T>)
    ensures !primary.Undefined? ==> r == primary
    ensures primary.Undefined? ==> r == fallback
  {
    if primary.Undefined? then fallback else primary
  }

  /** `s.slice(0, n)` for `n >= 0`: the first `n` characters, or all of `s`
      when it is shorter. */
  function Prefix(s: string, n: nat): (r: string)
    ensures |r| == if |s| < n then |s| else n
    ensures r <= s
  {
    if |s| < n then s else s[..n]
  }

  /** How a template literal `${v}` prints a looked-up string. */
  function TemplateText(v: Js<string>): (r: string)
    ensures v.Defined? ==> r == v.value
    ensures v.Undefined? ==> r == "undefined"
    ensures v.Null? ==> r == "null"
  {
    match v
    case Undefined => "undefined"
    case Null => "null"
    case Defined(s) => s
  }
}
