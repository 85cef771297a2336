/** The provider's reply for one symbol, after the HTTP exchange: either the
    transport failed, or the body did not parse as JSON, or it parsed into
    the chart document below. Each JSON field the fetcher reads that may be
    missing or `null` is an `Option` (or a `Number`); entries of the close
    series are `None` where the provider sent `null`. */
module Payload {
  import opened Wrappers
  import opened JsValues

  datatype Response =
    | TransportError(message: string)
    | Unparsable(detail: string)
    | Parsed(json: Root)

  /** `{ chart: { result: [ { meta, indicators } ] } }` */
  datatype Root = Root(chart: Option<Chart>)

  datatype Chart = Chart(result: Option<seq<Option<ChartResult>>>)

  datatype ChartResult = ChartResult(meta: Option<Meta>, indicators: Option<Indicators>)

  datatype Meta = Meta(
    symbol: Option<string>,
    regularMarketPrice: Number,
    previousClose: Option<real>,
    chartPreviousClose: Option<real>,
    marketState: Option<string>,
    exchangeName: Option<string>,
    currency: Option<string>)

  /** `indicators: { quote: [ { close: [number | null, ...] } ] }` */
  datatype Indicators = Indicators(quote: Option<seq<Option<QuoteSeries>>>)

  datatype QuoteSeries = QuoteSeries(close: Option<seq<Option<real>>>)
}
