/** `main`: one awaited fetch per configured symbol, each outcome recorded
    in `results` or `errors`, the report built from both lists, and the
    exit status derived from `errors`. The network reply for each symbol
    and the clock readings are inputs; writing the two report files and
    the log is not modelled. */
module Orchestrator {
  import opened Wrappers
  import opened JsValues
  import opened Payload
  import opened Normalizer
  import opened Formatting
  import opened PacificDate
  import opened MarketReport

  datatype SymbolSpec = SymbolSpec(symbol: string, name: string)

  /** The configured indices, in the order they are fetched. */
  const Symbols: seq<SymbolSpec> := [
    SymbolSpec("^GSPC", "S&P 500"),
    SymbolSpec("^DJI", "Dow Jones Industrial Average"),
    SymbolSpec("^IXIC", "NASDAQ Composite"),
    SymbolSpec("^RUT", "Russell 2000"),
    SymbolSpec("^VIX", "CBOE Volatility Index (VIX)")
  ]

  /** What one configured symbol contributes: a result or an error. */
  datatype Entry = Resolved(fetched: Fetched) | Rejected(failure: FailedFetch)

  /** The TypeError, if any, raised while formatting the progress line
      `${formatNumber(quote.price)} ${formatChange(quote.change, quote.changePercent)}`,
      in evaluation order. */
  function LogLineFailure(q: Quote): (e: Option<string>)
    ensures e.None? <==> Formattable(q.price) && Formattable(q.change) && Formattable(q.changePercent)
  {
    if FormatError(q.price).Some? then FormatError(q.price)
    else if FormatError(q.change).Some? then FormatError(q.change)
    else FormatError(q.changePercent)
  }

  /** The entry for one symbol once its progress line is formatted before
      the quote is recorded: a rejected fetch, or a quote the line cannot
      format, is an error; any other quote is a result. */
  function Classify(spec: SymbolSpec, outcome: Result<Quote, string>): (e: Entry)
    ensures e.Resolved? <==> outcome.Success? && LogLineFailure(outcome.value).None?
    ensures e.Resolved? ==> e.fetched == Fetched(spec.name, outcome.value)
    ensures e.Rejected? ==> e.failure.name == spec.name && e.failure.symbol == spec.symbol
    ensures outcome.Failure? ==> e == Rejected(FailedFetch(spec.name, spec.symbol, outcome.error))
  {
    match outcome
    case Failure(message) => Rejected(FailedFetch(spec.name, spec.symbol, message))
    case Success(quote) =>
      match LogLineFailure(quote)
      case Some(message) => Rejected(FailedFetch(spec.name, spec.symbol, message))
      case None => Resolved(Fetched(spec.name, quote))
  }

  /** One entry per configured symbol, in configuration order. */
  function Entries(symbols: seq<SymbolSpec>, responses: seq<Response>): (es: seq<Entry>)
    requires |responses| == |symbols|
    ensures |es| == |symbols|
    ensures forall i :: 0 <= i < |symbols| ==>
      es[i] == Classify(symbols[i], FetchOutcome(symbols[i].symbol, responses[i]))
  {
    seq(|symbols|, i requires 0 <= i < |symbols| => Classify(symbols[i], FetchOutcome(symbols[i].symbol, responses[i])))
  }

  /** The `results` list an entry sequence produces. */
  function Successes(es: seq<Entry>): seq<Fetched>
  {
    if es == [] then []
    else (if es[0].Resolved? then [es[0].fetched] else []) + Successes(es[1..])
  }

  /** The `errors` list an entry sequence produces. */
  function Failures(es: seq<Entry>): seq<FailedFetch>
  {
    if es == [] then []
    else (if es[0].Rejected? then [es[0].failure] else []) + Failures(es[1..])
  }

  /** Both lists are order-preserving: the lists of a concatenation are the
      concatenations of the lists. */
  lemma PartitionAppend(a: seq<Entry>, b: seq<Entry>)
    ensures Successes(a + b) == Successes(a) + Successes(b)
    ensures Failures(a + b) == Failures(a) + Failures(b)
  {
    SuccessesAppend(a, b);
    FailuresAppend(a, b);
  }

  lemma {:induction false} SuccessesAppend(a: seq<Entry>, b: seq<Entry>)
    ensures Successes(a + b) == Successes(a) + Successes(b)
    decreases |a|
  {
    if a == [] {
      assert a + b == b;
    } else {
      var head := if a[0].Resolved? then [a[0].fetched] else [];
      assert (a + b)[0] == a[0];
      assert (a + b)[1..] == a[1..] + b;
      SuccessesAppend(a[1..], b);
      calc {
        Successes(a + b);
        head + Successes(a[1..] + b);
        head + (Successes(a[1..]) + Successes(b));
        (head + Successes(a[1..])) + Successes(b);
        Successes(a) + Successes(b);
      }
    }
  }

  lemma {:induction false} FailuresAppend(a: seq<Entry>, b: seq<Entry>)
    ensures Failures(a + b) == Failures(a) + Failures(b)
    decreases |a|
  {
    if a == [] {
      assert a + b == b;
    } else {
      var head := if a[0].Rejected? then [a[0].failure] else [];
      assert (a + b)[0] == a[0];
      assert (a + b)[1..] == a[1..] + b;
      FailuresAppend(a[1..], b);
      calc {
        Failures(a + b);
        head + Failures(a[1..] + b);
        head + (Failures(a[1..]) + Failures(b));
        (head + Failures(a[1..])) + Failures(b);
        Failures(a) + Failures(b);
      }
    }
  }

  /** Every entry lands in exactly one of the two lists. */
  lemma {:induction false} PartitionCounts(es: seq<Entry>)
    ensures |Successes(es)| + |Failures(es)| == |es|
    decreases |es|
  {
    if es != [] {
      PartitionCounts(es[1..]);
    }
  }

  /** `errors` is empty exactly when every entry is a result. */
  lemma {:induction false} NoFailuresIffAllResolved(es: seq<Entry>)
    ensures Failures(es) == [] <==> forall i :: 0 <= i < |es| ==> es[i].Resolved?
    decreases |es|
  {
    if es != [] {
      NoFailuresIffAllResolved(es[1..]);
      assert forall i :: 1 <= i < |es| ==> es[i] == es[1..][i - 1];
    }
  }

  /** Every recorded result can be formatted, so the report never throws on
      a row. */
  lemma {:induction false} ResultsAreFormattable(es: seq<Entry>)
    requires forall i :: 0 <= i < |es| ==> es[i].Resolved? ==> LogLineFailure(es[i].fetched.quote).None?
    ensures forall k :: 0 <= k < |Successes(es)| ==>
      Formattable(Successes(es)[k].quote.price)
      && Formattable(Successes(es)[k].quote.change)
      && Formattable(Successes(es)[k].quote.changePercent)
    decreases |es|
  {
    if es != [] {
      assert forall i :: 0 <= i < |es[1..]| ==> es[1..][i] == es[i + 1];
      ResultsAreFormattable(es[1..]);
    }
  }

  /** `errors.length > 0 ? 1 : 0`, the status `process.exit` is given (a
      run that ends normally exits with 0). */
  function ExitCode(errors: seq<FailedFetch>): (code: nat)
    ensures code <= 1
    ensures code == 0 <==> errors == []
  {
    if |errors| > 0 then 1 else 0
  }

  /** The fetch loop: each configured symbol is fetched in turn and its
      outcome appended to `results` or `errors`. */
  method FetchAll(symbols: seq<SymbolSpec>, responses: seq<Response>)
    returns (results: seq<Fetched>, errors: seq<FailedFetch>)
    requires |responses| == |symbols|
    ensures results == Successes(Entries(symbols, responses))
    ensures errors == Failures(Entries(symbols, responses))
    ensures |results| + |errors| == |symbols|
  {
    results, errors := [], [];
    ghost var es := Entries(symbols, responses);
    for i := 0 to |symbols|
      invariant results == Successes(es[..i]) && errors == Failures(es[..i])
      invariant |results| + |errors| == i
    {
      var spec := symbols[i];
      var outcome := FetchQuote(spec.symbol, responses[i]);
      ghost var entry := Classify(spec, outcome);
      assert es[i] == entry;
      PartitionPrefix(es, i);
      match outcome {
        case Failure(message) =>
          errors := errors + [FailedFetch(spec.name, spec.symbol, message)];
        case Success(quote) =>
          var logFailure := LogLineFailure(quote);
          if logFailure.Some? {
            errors := errors + [FailedFetch(spec.name, spec.symbol, logFailure.value)];
          } else {
            results := results + [Fetched(spec.name, quote)];
          }
      }
    }
    assert es[..|symbols|] == es;
  }

  /** Appending one entry appends to exactly one list. */
  lemma PartitionStep(done: seq<Entry>, entry: Entry)
    ensures Successes(done + [entry]) == Successes(done) + (if entry.Resolved? then [entry.fetched] else [])
    ensures Failures(done + [entry]) == Failures(done) + (if entry.Rejected? then [entry.failure] else [])
  {
    PartitionAppend(done, [entry]);
    assert [entry][1..] == [];
  }

  lemma PartitionPrefix(es: seq<Entry>, i: nat)
    requires i < |es|
    ensures Successes(es[..i + 1]) == Successes(es[..i]) + (if es[i].Resolved? then [es[i].fetched] else [])
    ensures Failures(es[..i + 1]) == Failures(es[..i]) + (if es[i].Rejected? then [es[i].failure] else [])
  {
    assert es[..i + 1] == es[..i] + [es[i]];
    PartitionStep(es[..i], es[i]);
  }

  /** One run of `main`: fetch every symbol, build the report, decide the
      exit status. The report is always produced, carries the weekend
      notice exactly on Saturdays and Sundays, and the run exits nonzero
      exactly when some symbol failed. */
  method RunMain(symbols: seq<SymbolSpec>, responses: seq<Response>,
                 fullDate: string, dayOfWeek: string, dateString: string, utcInstant: string,
                 fmt: real -> string)
    returns (report: seq<Line>, exitCode: nat)
    requires |responses| == |symbols|
    ensures Report(PacificDateInfo(fullDate, dayOfWeek, dateString), utcInstant,
                   Successes(Entries(symbols, responses)), Failures(Entries(symbols, responses)), fmt)
            == Some(report)
    ensures |Select(report, IsWeekendNotice)| == if dayOfWeek == "Sat" || dayOfWeek == "Sun" then 1 else 0
    ensures exitCode == 1 <==> exists i :: 0 <= i < |symbols| && Entries(symbols, responses)[i].Rejected?
    ensures exitCode == 0 <==> forall i :: 0 <= i < |symbols| ==> Entries(symbols, responses)[i].Resolved?
    ensures |Select(report, IsErrorsHeading)| == exitCode
    ensures Select(report, IsErrorItem) == ErrorItems(Failures(Entries(symbols, responses)))
  {
    var dateInfo := PacificDateInfo(fullDate, dayOfWeek, dateString);
    var results, errors := FetchAll(symbols, responses);
    ghost var es := Entries(symbols, responses);
    ResultsAreFormattable(es);
    var built := BuildReport(dateInfo, utcInstant, results, errors, fmt);
    report := built.value;
    ReportSections(dateInfo, utcInstant, results, errors, fmt, report);
    NoFailuresIffAllResolved(es);
    exitCode := ExitCode(errors);
  }

  /** The fetch loop as the code is written: the quote is pushed into
      `results` before the progress line is formatted, so a quote the line
      cannot format is recorded as a result and then, by the `catch`, as an
      error as well. */
  function ClassifyAsWritten(spec: SymbolSpec, outcome: Result<Quote, string>): (es: seq<Entry>)
    ensures 1 <= |es| <= 2
    ensures |es| == 2 <==> outcome.Success? && LogLineFailure(outcome.value).Some?
    ensures outcome.Failure? ==> es == [Rejected(FailedFetch(spec.name, spec.symbol, outcome.error))]
    ensures outcome.Success? ==> es[0] == Resolved(Fetched(spec.name, outcome.value))
    ensures |es| == 2 ==> es[1] == Rejected(FailedFetch(spec.name, spec.symbol, LogLineFailure(outcome.value).value))
  {
    match outcome
    case Failure(message) => [Rejected(FailedFetch(spec.name, spec.symbol, message))]
    case Success(quote) =>
      [Resolved(Fetched(spec.name, quote))]
        + match LogLineFailure(quote)
          case Some(message) => [Rejected(FailedFetch(spec.name, spec.symbol, message))]
          case None => []
  }

  /** Fetching symbol `i` succeeds, and then formatting its progress line
      throws. */
  ghost predicate LogLineThrowsAt(symbols: seq<SymbolSpec>, responses: seq<Response>, i: nat)
    requires |responses| == |symbols| && i < |symbols|
  {
    var outcome := FetchOutcome(symbols[i].symbol, responses[i]);
    outcome.Success? && LogLineFailure(outcome.value).Some?
  }

  /** The entries of the fetch loop as written: each symbol contributes the
      entries of `ClassifyAsWritten`, in configuration order, so there are
      more entries than symbols exactly when some progress line throws. */
  function EntriesAsWritten(symbols: seq<SymbolSpec>, responses: seq<Response>): (es: seq<Entry>)
    requires |responses| == |symbols|
    ensures |es| >= |symbols|
    ensures |es| == |symbols| <==> forall i :: 0 <= i < |symbols| ==> !LogLineThrowsAt(symbols, responses, i)
    decreases |symbols|
  {
    if symbols == [] then []
    else
      var first := ClassifyAsWritten(symbols[0], FetchOutcome(symbols[0].symbol, responses[0]));
      var rest := EntriesAsWritten(symbols[1..], responses[1..]);
      assert LogLineThrowsAt(symbols, responses, 0) <==> |first| == 2;
      NoThrowSplit(symbols, responses);
      first + rest
  }

  /** No progress line throws exactly when the first one does not and none
      of the rest does. */
  lemma NoThrowSplit(symbols: seq<SymbolSpec>, responses: seq<Response>)
    requires |responses| == |symbols| > 0
    ensures (forall i :: 0 <= i < |symbols| ==> !LogLineThrowsAt(symbols, responses, i)) <==>
      !LogLineThrowsAt(symbols, responses, 0)
      && forall i :: 0 <= i < |symbols| - 1 ==> !LogLineThrowsAt(symbols[1..], responses[1..], i)
  {
    forall j | 1 <= j < |symbols|
      ensures LogLineThrowsAt(symbols, responses, j) == LogLineThrowsAt(symbols[1..], responses[1..], j - 1)
    {
      assert symbols[1..][j - 1] == symbols[j] && responses[1..][j - 1] == responses[j];
    }
    forall i | 0 <= i < |symbols| - 1
      ensures LogLineThrowsAt(symbols[1..], responses[1..], i) == LogLineThrowsAt(symbols, responses, i + 1)
    {
      assert symbols[1..][i] == symbols[i + 1] && responses[1..][i] == responses[i + 1];
    }
  }

  /** As written, every quote that is fetched is recorded in `results`,
      whether or not its progress line then throws. */
  lemma {:induction false} AsWrittenRecordsQuote(symbols: seq<SymbolSpec>, responses: seq<Response>, i: nat)
    requires |responses| == |symbols| && i < |symbols|
    requires FetchOutcome(symbols[i].symbol, responses[i]).Success?
    ensures Fetched(symbols[i].name, FetchOutcome(symbols[i].symbol, responses[i]).value)
      in Successes(EntriesAsWritten(symbols, responses))
    decreases i
  {
    var first := ClassifyAsWritten(symbols[0], FetchOutcome(symbols[0].symbol, responses[0]));
    var rest := EntriesAsWritten(symbols[1..], responses[1..]);
    assert EntriesAsWritten(symbols, responses) == first + rest;
    SuccessesAppend(first, rest);
    if i == 0 {
      assert first == [first[0]] + first[1..];
      SuccessesAppend([first[0]], first[1..]);
      assert [first[0]][1..] == [];
      assert Successes(first)[0] == first[0].fetched;
    } else {
      AsWrittenRecordsQuote(symbols[1..], responses[1..], i - 1);
      assert symbols[1..][i - 1] == symbols[i] && responses[1..][i - 1] == responses[i];
    }
  }

  /** As written, the two lists together hold at least one outcome per
      symbol, and exactly one per symbol only when no progress line
      throws. */
  lemma AsWrittenOutcomeCount(symbols: seq<SymbolSpec>, responses: seq<Response>)
    requires |responses| == |symbols|
    ensures var es := EntriesAsWritten(symbols, responses);
      |Successes(es)| + |Failures(es)| >= |symbols|
    ensures var es := EntriesAsWritten(symbols, responses);
      |Successes(es)| + |Failures(es)| == |symbols| <==>
        forall i :: 0 <= i < |symbols| ==> !LogLineThrowsAt(symbols, responses, i)
  {
    PartitionCounts(EntriesAsWritten(symbols, responses));
  }

  /** As written, one progress line that throws makes the report throw as
      well: the quote is in `results`, and its row cannot be formatted, so
      `main` rejects before any file is written. */
  lemma AsWrittenReportThrows(symbols: seq<SymbolSpec>, responses: seq<Response>, i: nat,
                              date: DateInfo, utcInstant: string, fmt: real -> string)
    requires |responses| == |symbols| && i < |symbols|
    requires LogLineThrowsAt(symbols, responses, i)
    ensures var es := EntriesAsWritten(symbols, responses);
      Report(date, utcInstant, Successes(es), Failures(es), fmt).None?
  {
    var es := EntriesAsWritten(symbols, responses);
    var f := Fetched(symbols[i].name, FetchOutcome(symbols[i].symbol, responses[i]).value);
    AsWrittenRecordsQuote(symbols, responses, i);
    var k :| 0 <= k < |Successes(es)| && Successes(es)[k] == f;
    assert RowOf(Successes(es)[k], fmt).None?;
  }

  /** A chart result whose meta block has no regularMarketPrice. */
  const NoPriceReply: Response :=
    Parsed(Root(Some(Chart(Some([Some(ChartResult(
      Some(Meta(Some("^GSPC"), Undefined, Some(5000.0), None, None, None, None)),
      None))])))))

  /** As written, one configured symbol whose reply lacks a price yields a
      result and an error, two outcomes for one symbol, and the report then
      throws on that result's row; with the progress line formatted first,
      the same run records one error and renders its report. */
  lemma MissingPriceRecordedTwice(date: DateInfo, utcInstant: string, fmt: real -> string)
    ensures var es := EntriesAsWritten([Symbols[0]], [NoPriceReply]);
      && |Successes(es)| == 1 && |Failures(es)| == 1
      && |Successes(es)| + |Failures(es)| > |[Symbols[0]]|
      && Report(date, utcInstant, Successes(es), Failures(es), fmt).None?
    ensures var es := Entries([Symbols[0]], [NoPriceReply]);
      && |Successes(es)| == 0 && |Failures(es)| == 1
      && Report(date, utcInstant, Successes(es), Failures(es), fmt).Some?
  {
    var q := FetchOutcome(Symbols[0].symbol, NoPriceReply);
    assert q.Success? && q.value.price == Undefined;
    var es := EntriesAsWritten([Symbols[0]], [NoPriceReply]);
    assert [Symbols[0]][1..] == [] && [NoPriceReply][1..] == [];
    assert es == ClassifyAsWritten(Symbols[0], q) + EntriesAsWritten([], []);
    assert |es| == 2 && es[0].Resolved? && es[1].Rejected?;
    assert es == [es[0]] + [es[1]];
    PartitionAppend([es[0]], [es[1]]);
    assert [es[0]][1..] == [] && [es[1]][1..] == [];
    assert Successes(es) == [es[0].fetched];
    assert Failures(es) == [es[1].failure];
    assert RowOf(Successes(es)[0], fmt).None?;
    var fixed := Entries([Symbols[0]], [NoPriceReply]);
    assert fixed == [Classify(Symbols[0], q)];
    assert fixed[0].Rejected?;
  }
}
