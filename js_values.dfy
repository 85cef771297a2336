/** The few JavaScript value rules the fetcher relies on: truthiness of
    numeric and string fields, `||` fallbacks, and the coercions that `-`,
    `/` and `>=` apply to a number that may be missing. Floating-point
    rounding is not modelled: numbers are `real`. */
module JsValues {
  import opened Wrappers

  /** A numeric value as JavaScript sees it: a field that is absent
      (`undefined`), a JSON `null`, the result `NaN`, or a number. */
  datatype Number = Undefined | Null | NaN | Num(value: real)

  /** A numeric JSON field in a boolean context: absent, `null` and `0`
      are falsy. */
  predicate Truthy(x: Option<real>)
  {
    x.Some? && x.value != 0.0
  }

  /** `a || b` on two numeric JSON fields. */
  function Or(a: Option<real>, b: Option<real>): Option<real>
  {
    if Truthy(a) then a else b
  }

  /** `s || fallback` on a string JSON field: absent, `null` and `""` fall
      through to the fallback. */
  function OrString(s: Option<string>, fallback: string): string
  {
    if s.Some? && s.value != "" then s.value else fallback
  }

  /** ToNumber as applied by the arithmetic and relational operators:
      `undefined` becomes `NaN`, `null` becomes `0`. */
  function ToNumber(n: Number): Number
  {
    match n
    case Undefined => NaN
    case Null => Num(0.0)
    case _ => n
  }

  /** `a - b` where `b` is a number. */
  function Minus(a: Number, b: real): Number
  {
    match ToNumber(a)
    case Num(x) => Num(x - b)
    case _ => NaN
  }

  /** `(change / previousClose) * 100` for a nonzero previous close. */
  function PercentOf(change: Number, previousClose: real): Number
    requires previousClose != 0.0
  {
    match ToNumber(change)
    case Num(c) => Num(c / previousClose * 100.0)
    case _ => NaN
  }

  /** `n >= 0`: false for anything that coerces to `NaN`. */
  predicate IsNonNegative(n: Number)
  {
    match ToNumber(n)
    case Num(x) => x >= 0.0
    case _ => false
  }
}
