/** `formatNumber` and `formatChange`. The runtime's digit grouping
    (`toLocaleString` with two decimals) is the parameter `fmt`; what the
    model keeps is when formatting throws and how the sign and the
    up/down glyph are chosen. */
module Formatting {
  import opened Wrappers
  import opened JsValues

  /** The glyph pair chosen by the sign of a change: ▲ and the green dot, or
      ▼ and the red dot. */
  datatype Trend = Up | Down

  /** `formatNumber` can format a number or `NaN`. */
  predicate Formattable(n: Number)
  {
    n.Num? || n.NaN?
  }

  /** The TypeError (V8 wording) that `formatNumber` raises on `undefined`
      or `null`, before any digit grouping happens. */
  function FormatError(n: Number): (e: Option<string>)
    ensures e.None? <==> Formattable(n)
  {
    match n
    case Undefined => Some("Cannot read properties of undefined (reading 'toLocaleString')")
    case Null => Some("Cannot read properties of null (reading 'toLocaleString')")
    case _ => None
  }

  function FormatNumber(n: Number, fmt: real -> string): (r: Result<string, string>)
    ensures r.Failure? <==> !Formattable(n)
    ensures n.Num? ==> r == Success(fmt(n.value))
    ensures n.NaN? ==> r == Success("NaN")
  {
    match FormatError(n)
    case Some(e) => Failure(e)
    case None => if n.NaN? then Success("NaN") else Success(fmt(n.value))
  }

  /** `change >= 0 ? '+' : ''` */
  function ChangeSign(change: Number): (s: string)
    ensures s == "+" || s == ""
    ensures s == "+" <==> IsNonNegative(change)
  {
    if IsNonNegative(change) then "+" else ""
  }

  /** `change >= 0 ? '▲' : '▼'`, also the green/red dot of a table row. */
  function TrendOf(change: Number): Trend
  {
    if IsNonNegative(change) then Up else Down
  }

  /** The pieces of `${arrow} ${sign}${change} (${sign}${percent}%)`. */
  datatype ChangeText = ChangeText(arrow: Trend, change: string, percent: string)

  function FormatChange(change: Number, percent: Number, fmt: real -> string): (r: Result<ChangeText, string>)
    ensures r.Failure? <==> !Formattable(change) || !Formattable(percent)
    ensures r.Success? ==>
      && (r.value.arrow == Up <==> IsNonNegative(change))
      && r.value.change == ChangeSign(change) + FormatNumber(change, fmt).value
      && r.value.percent == ChangeSign(change) + FormatNumber(percent, fmt).value + "%"
  {
    var sign := ChangeSign(change);
    match FormatNumber(change, fmt)
    case Failure(e) => Failure(e)
    case Success(c) =>
      match FormatNumber(percent, fmt)
      case Failure(e) => Failure(e)
      case Success(p) => Success(ChangeText(TrendOf(change), sign + c, sign + p + "%"))
  }

  /** The sign follows the comparison `change >= 0`: `+` and the up glyph
      for every nonnegative number, no sign and the down glyph for a
      negative one or `NaN`, so the sign and the glyph always agree. */
  lemma SignFollowsChange(change: Number)
    ensures change.Num? ==> (ChangeSign(change) == "+" <==> change.value >= 0.0)
    ensures change.NaN? ==> ChangeSign(change) == "" && TrendOf(change) == Down
    ensures ChangeSign(change) == "+" <==> TrendOf(change) == Up
  {
  }
}
