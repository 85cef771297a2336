/** What `fetchQuote` does with one reply: the chart-result guard, the
    previous-close fallback chain with its backward scan over the close
    series, the change arithmetic and the string defaults. */
module Normalizer {
  import opened Wrappers
  import opened JsValues
  import opened Payload

  /** The record `fetchQuote` resolves with. */
  datatype Quote = Quote(
    symbol: Option<string>,
    price: Number,
    previousClose: real,
    change: Number,
    changePercent: Number,
    marketState: string,
    exchangeName: string,
    currency: string)

  function InvalidResponse(symbol: string): string
  {
    "Invalid response for " + symbol
  }

  function ParseError(symbol: string, detail: string): string
  {
    "Parse error for " + symbol + ": " + detail
  }

  /** The TypeError message (V8 wording) raised by reading the price off a
      chart result that has no `meta`. */
  const MetaTypeError: string := "Cannot read properties of undefined (reading 'regularMarketPrice')"

  /** `json.chart && json.chart.result && json.chart.result[0]`, when truthy. */
  function FirstResult(root: Root): Option<ChartResult>
  {
    if root.chart.Some? && root.chart.value.result.Some?
       && |root.chart.value.result.value| > 0
    then root.chart.value.result.value[0]
    else None
  }

  /** `indicators.quote[0].close`, behind the guard
      `indicators && indicators.quote && indicators.quote[0]`. */
  function CloseSeries(indicators: Option<Indicators>): Option<seq<Option<real>>>
  {
    if indicators.Some? && indicators.value.quote.Some?
       && |indicators.value.quote.value| > 0
       && indicators.value.quote.value[0].Some?
    then indicators.value.quote.value[0].value.close
    else None
  }

  /** The greatest index below `hi` whose close is not `null`. */
  function LatestNonNull(closes: seq<Option<real>>, hi: nat): (r: Option<nat>)
    requires hi <= |closes|
    ensures r.Some? ==> r.value < hi && closes[r.value].Some?
    ensures r.Some? ==> forall j :: r.value < j < hi ==> closes[j].None?
    ensures r.None? ==> forall j :: 0 <= j < hi ==> closes[j].None?
    decreases hi
  {
    if hi == 0 then None
    else if closes[hi - 1].Some? then Some(hi - 1)
    else LatestNonNull(closes, hi - 1)
  }

  /** Where the backward scan leaves the previous close: the latest non-null
      entry before the last one when the series has at least two entries
      and one exists, otherwise the value it had before. */
  function ScanResult(closes: seq<Option<real>>, prior: Option<real>): Option<real>
  {
    if |closes| >= 2 then
      match LatestNonNull(closes, |closes| - 1)
      case Some(j) => closes[j]
      case None => prior
    else prior
  }

  /** The previous close, before the `|| 0` of the output record. */
  function ResolvePreviousClose(meta: Meta, indicators: Option<Indicators>): (pc: Option<real>)
    ensures Truthy(meta.previousClose) ==> pc == meta.previousClose
    ensures !Truthy(meta.previousClose) && Truthy(meta.chartPreviousClose) ==> pc == meta.chartPreviousClose
    ensures !Truthy(meta.previousClose) && !Truthy(meta.chartPreviousClose) ==>
      var series := CloseSeries(indicators);
      if series.Some? && |series.value| >= 2 && LatestNonNull(series.value, |series.value| - 1).Some?
      then pc == series.value[LatestNonNull(series.value, |series.value| - 1).value] && pc.Some?
      else pc == meta.chartPreviousClose && !Truthy(pc)
  {
    var first := Or(meta.previousClose, meta.chartPreviousClose);
    if !Truthy(first) then
      match CloseSeries(indicators)
      case Some(closes) => ScanResult(closes, first)
      case None => first
    else first
  }

  /** The change fields are zero exactly when the previous close is unknown
      (recorded as 0); otherwise they are the difference from the previous
      close and that difference as a percentage of it. */
  ghost predicate ChangeConsistent(q: Quote)
  {
    && (q.previousClose == 0.0 ==> q.change == Num(0.0) && q.changePercent == Num(0.0))
    && (q.previousClose != 0.0 ==>
          q.change == Minus(q.price, q.previousClose)
          && q.changePercent == PercentOf(q.change, q.previousClose))
  }

  /** The normalisation of one parsed reply, as a value. */
  function Normalize(symbol: string, root: Root): (r: Result<Quote, string>)
    ensures FirstResult(root).None? ==> r == Failure(InvalidResponse(symbol))
    ensures FirstResult(root).Some? && FirstResult(root).value.meta.None? ==>
      r == Failure(ParseError(symbol, MetaTypeError))
    ensures r.Success? <==> FirstResult(root).Some? && FirstResult(root).value.meta.Some?
    ensures r.Success? ==>
      var meta := FirstResult(root).value.meta.value;
      var pc := ResolvePreviousClose(meta, FirstResult(root).value.indicators);
      && r.value.symbol == meta.symbol
      && r.value.price == meta.regularMarketPrice
      && r.value.previousClose == (if Truthy(pc) then pc.value else 0.0)
      && ChangeConsistent(r.value)
      && r.value.marketState == OrString(meta.marketState, "UNKNOWN")
      && r.value.exchangeName == OrString(meta.exchangeName, "")
      && r.value.currency == OrString(meta.currency, "USD")
  {
    match FirstResult(root)
    case None => Failure(InvalidResponse(symbol))
    case Some(result) =>
      match result.meta
      case None => Failure(ParseError(symbol, MetaTypeError))
      case Some(meta) =>
        var pc := ResolvePreviousClose(meta, result.indicators);
        var change := if Truthy(pc) then Minus(meta.regularMarketPrice, pc.value) else Num(0.0);
        var changePercent := if Truthy(pc) then PercentOf(change, pc.value) else Num(0.0);
        Success(Quote(
          meta.symbol,
          meta.regularMarketPrice,
          if Truthy(pc) then pc.value else 0.0,
          change,
          changePercent,
          OrString(meta.marketState, "UNKNOWN"),
          OrString(meta.exchangeName, ""),
          OrString(meta.currency, "USD")))
  }

  /** The descending `for` loop with `break`, behind its guard
      `closes.length >= 2`. */
  method ScanBackward(closes: seq<Option<real>>, prior: Option<real>) returns (previousClose: Option<real>)
    ensures previousClose == ScanResult(closes, prior)
  {
    previousClose := prior;
    if |closes| >= 2 {
      var i := |closes| - 2;
      while i >= 0
        invariant -1 <= i <= |closes| - 2
        invariant previousClose == prior
        invariant forall j :: i < j < |closes| - 1 ==> closes[j].None?
      {
        if closes[i].Some? {
          previousClose := closes[i];
          break;
        }
        i := i - 1;
      }
    }
  }

  /** The normalisation body of `fetchQuote`, step by step. */
  method NormalizeQuote(symbol: string, root: Root) returns (r: Result<Quote, string>)
    ensures r == Normalize(symbol, root)
  {
    var first := FirstResult(root);
    if first.None? {
      return Failure(InvalidResponse(symbol));
    }
    var result := first.value;
    if result.meta.None? {
      return Failure(ParseError(symbol, MetaTypeError));
    }
    var meta := result.meta.value;
    var currentPrice := meta.regularMarketPrice;
    var previousClose := Or(meta.previousClose, meta.chartPreviousClose);
    if !Truthy(previousClose) {
      var closes := CloseSeries(result.indicators);
      if closes.Some? {
        previousClose := ScanBackward(closes.value, previousClose);
      }
    }
    var change := Num(0.0);
    var changePercent := Num(0.0);
    if Truthy(previousClose) {
      change := Minus(currentPrice, previousClose.value);
      changePercent := PercentOf(change, previousClose.value);
    }
    r := Success(Quote(
      meta.symbol,
      currentPrice,
      if Truthy(previousClose) then previousClose.value else 0.0,
      change,
      changePercent,
      OrString(meta.marketState, "UNKNOWN"),
      OrString(meta.exchangeName, ""),
      OrString(meta.currency, "USD")));
  }

  /** How `fetchQuote` settles for one reply: a transport error rejects with
      its own message, a body that is not JSON with a parse error, and a
      parsed body is normalised. */
  function FetchOutcome(symbol: string, response: Response): (r: Result<Quote, string>)
    ensures response.TransportError? ==> r == Failure(response.message)
    ensures response.Unparsable? ==> r == Failure(ParseError(symbol, response.detail))
    ensures response.Parsed? ==> r == Normalize(symbol, response.json)
  {
    match response
    case TransportError(message) => Failure(message)
    case Unparsable(detail) => Failure(ParseError(symbol, detail))
    case Parsed(json) => Normalize(symbol, json)
  }

  method FetchQuote(symbol: string, response: Response) returns (r: Result<Quote, string>)
    ensures r == FetchOutcome(symbol, response)
  {
    match response {
      case TransportError(message) =>
        r := Failure(message);
      case Unparsable(detail) =>
        r := Failure(ParseError(symbol, detail));
      case Parsed(json) =>
        r := NormalizeQuote(symbol, json);
    }
  }

  /** A missing chart, a missing result list, and a list whose first
      entry is missing or `null` all reject with "Invalid response", even
      when later entries of the list hold a usable chart result. */
  lemma InvalidResponseWhateverFollows(symbol: string, rest: seq<Option<ChartResult>>)
    ensures FetchOutcome(symbol, Parsed(Root(None))) == Failure("Invalid response for " + symbol)
    ensures FetchOutcome(symbol, Parsed(Root(Some(Chart(None))))) == Failure("Invalid response for " + symbol)
    ensures FetchOutcome(symbol, Parsed(Root(Some(Chart(Some([])))))) == Failure("Invalid response for " + symbol)
    ensures FetchOutcome(symbol, Parsed(Root(Some(Chart(Some([None] + rest)))))) == Failure("Invalid response for " + symbol)
  {
  }

  /** A previous close that resolves to a nonzero number yields
      `change + previousClose == price` and `changePercent * previousClose
      == change * 100` whenever the price is a number. */
  lemma ChangeReconstructsPrice(symbol: string, root: Root, p: real)
    requires Normalize(symbol, root).Success?
    requires Normalize(symbol, root).value.price == Num(p)
    requires Normalize(symbol, root).value.previousClose != 0.0
    ensures Normalize(symbol, root).value.change.Num?
    ensures Normalize(symbol, root).value.changePercent.Num?
    ensures Normalize(symbol, root).value.change.value + Normalize(symbol, root).value.previousClose == p
    ensures Normalize(symbol, root).value.changePercent.value * Normalize(symbol, root).value.previousClose
            == Normalize(symbol, root).value.change.value * 100.0
  {
    var q := Normalize(symbol, root).value;
    assert q.change == Num(p - q.previousClose);
    assert q.changePercent == Num((p - q.previousClose) / q.previousClose * 100.0);
  }

  /** The example series [100, null, null, 98, null] with no previous close
      in the meta block resolves to 98. */
  lemma ScanExample(meta: Meta)
    requires !Truthy(meta.previousClose) && !Truthy(meta.chartPreviousClose)
    ensures ResolvePreviousClose(meta, Some(Indicators(Some([Some(QuoteSeries(Some([Some(100.0), None, None, Some(98.0), None])))]))))
            == Some(98.0)
  {
    var closes := [Some(100.0), None, None, Some(98.0), None];
    assert LatestNonNull(closes, 4) == Some(3);
  }

  /** The scan never reads the last entry: changing it changes nothing. */
  lemma ScanIgnoresLastEntry(closes: seq<Option<real>>, last: Option<real>, other: Option<real>, prior: Option<real>)
    ensures ScanResult(closes + [last], prior) == ScanResult(closes + [other], prior)
  {
    var a, b := closes + [last], closes + [other];
    if |a| >= 2 {
      LatestNonNullPrefix(a, b, |closes|);
    }
  }

  /** `LatestNonNull` below `hi` depends only on the first `hi` entries. */
  lemma {:induction false} LatestNonNullPrefix(a: seq<Option<real>>, b: seq<Option<real>>, hi: nat)
    requires hi <= |a| && hi <= |b|
    requires a[..hi] == b[..hi]
    ensures LatestNonNull(a, hi) == LatestNonNull(b, hi)
    decreases hi
  {
    if hi > 0 {
      assert a[hi - 1] == a[..hi][hi - 1] == b[..hi][hi - 1] == b[hi - 1];
      assert a[..hi - 1] == a[..hi][..hi - 1];
      assert b[..hi - 1] == b[..hi][..hi - 1];
      LatestNonNullPrefix(a, b, hi - 1);
    }
  }
}
