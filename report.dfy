/** The Markdown report `main` assembles. A document is a sequence of
    lines; each `Line` keeps the kind of line and the values interpolated
    into it, while the fixed wording around them (headings, table pipes,
    glyphs, footer) is implied by the kind. */
module MarketReport {
  import opened Wrappers
  import opened JsValues
  import opened Formatting
  import opened PacificDate
  import opened Normalizer

  /** An entry of `results`: `{ name, ...quote }`. */
  datatype Fetched = Fetched(name: string, quote: Quote)

  /** An entry of `errors`: `{ name, symbol, error }`. */
  datatype FailedFetch = FailedFetch(name: string, symbol: string, message: string)

  datatype Line =
    | Title                                  // # Daily Market Report
    | Generated(fullDate: string)            // **Generated:** ... (Pacific Time)
    | UtcTime(instant: string)               // **UTC Time:** ...
    | WeekendNotice                          // > **Weekend Notice:** ...
    | IndicesHeading                         // ## Major Indices
    | TableHeader                            // | Index | Price | ... and its alignment row
    | Row(name: string, price: string, change: string, percent: string, status: Trend, marketState: string)
    | ErrorsHeading                          // ## Errors
    | ErrorItem(name: string, symbol: string, message: string)
    | Footer                                 // ---, data source, schedule

  predicate IsRow(l: Line) { l.Row? }

  predicate IsErrorItem(l: Line) { l.ErrorItem? }

  predicate IsWeekendNotice(l: Line) { l.WeekendNotice? }

  predicate IsErrorsHeading(l: Line) { l.ErrorsHeading? }

  /** The lines of `lines` that `keep` selects, in order. */
  function Select(lines: seq<Line>, keep: Line -> bool): seq<Line>
  {
    if lines == [] then []
    else (if keep(lines[0]) then [lines[0]] else []) + Select(lines[1..], keep)
  }

  lemma {:induction false} SelectAppend(a: seq<Line>, b: seq<Line>, keep: Line -> bool)
    ensures Select(a + b, keep) == Select(a, keep) + Select(b, keep)
    decreases |a|
  {
    if a == [] {
      assert a + b == b;
    } else {
      var head := if keep(a[0]) then [a[0]] else [];
      assert (a + b)[0] == a[0];
      assert (a + b)[1..] == a[1..] + b;
      SelectAppend(a[1..], b, keep);
      calc {
        Select(a + b, keep);
        head + Select(a[1..] + b, keep);
        head + (Select(a[1..], keep) + Select(b, keep));
        (head + Select(a[1..], keep)) + Select(b, keep);
        Select(a, keep) + Select(b, keep);
      }
    }
  }

  /** The table row of one result; `None` when `formatNumber` throws on its
      price, change or percent. */
  function RowOf(f: Fetched, fmt: real -> string): (r: Option<Line>)
    ensures r.Some? <==>
      Formattable(f.quote.price) && Formattable(f.quote.change) && Formattable(f.quote.changePercent)
    ensures r.Some? ==>
      && r.value.Row?
      && r.value.name == f.name
      && r.value.marketState == f.quote.marketState
      && r.value.price == FormatNumber(f.quote.price, fmt).value
      && r.value.change == ChangeSign(f.quote.change) + FormatNumber(f.quote.change, fmt).value
      && r.value.percent == ChangeSign(f.quote.change) + FormatNumber(f.quote.changePercent, fmt).value + "%"
      && (r.value.status == Up <==> IsNonNegative(f.quote.change))
  {
    var sign := ChangeSign(f.quote.change);
    match (FormatNumber(f.quote.price, fmt), FormatNumber(f.quote.change, fmt), FormatNumber(f.quote.changePercent, fmt))
    case (Success(p), Success(c), Success(pc)) =>
      Some(Row(f.name, p, sign + c, sign + pc + "%", TrendOf(f.quote.change), f.quote.marketState))
    case _ => None
  }

  /** The table rows of all results, in order; `None` as soon as one row
      cannot be formatted. */
  function Rows(results: seq<Fetched>, fmt: real -> string): (r: Option<seq<Line>>)
    ensures r.Some? <==> forall k :: 0 <= k < |results| ==> RowOf(results[k], fmt).Some?
    ensures r.Some? ==> |r.value| == |results|
    ensures r.Some? ==> forall k :: 0 <= k < |results| ==> r.value[k] == RowOf(results[k], fmt).value
    decreases |results|
  {
    if results == [] then Some([])
    else
      var front := results[..|results| - 1];
      assert forall k :: 0 <= k < |front| ==> front[k] == results[k];
      match Rows(front, fmt)
      case None => None
      case Some(init) =>
        match RowOf(results[|results| - 1], fmt)
        case None => None
        case Some(row) => Some(init + [row])
  }

  /** One bullet per error, in order. */
  function ErrorItems(errors: seq<FailedFetch>): (r: seq<Line>)
    ensures |r| == |errors|
    ensures forall k :: 0 <= k < |errors| ==>
      r[k] == ErrorItem(errors[k].name, errors[k].symbol, errors[k].message)
    decreases |errors|
  {
    if errors == [] then []
    else
      var last := errors[|errors| - 1];
      ErrorItems(errors[..|errors| - 1]) + [ErrorItem(last.name, last.symbol, last.message)]
  }

  function ErrorSection(errors: seq<FailedFetch>): seq<Line>
  {
    if |errors| > 0 then [ErrorsHeading] + ErrorItems(errors) else []
  }

  function Header(date: DateInfo, utcInstant: string): seq<Line>
  {
    [Title, Generated(date.fullDate), UtcTime(utcInstant)]
      + (if date.isWeekend then [WeekendNotice] else [])
      + [IndicesHeading, TableHeader]
  }

  /** The report around already formatted rows. */
  function Assemble(date: DateInfo, utcInstant: string, rows: seq<Line>, errors: seq<FailedFetch>): seq<Line>
  {
    Header(date, utcInstant) + rows + ErrorSection(errors) + [Footer]
  }

  /** The whole document; `None` when a row throws, which aborts `main`. */
  function Report(date: DateInfo, utcInstant: string, results: seq<Fetched>, errors: seq<FailedFetch>,
                  fmt: real -> string): (r: Option<seq<Line>>)
    ensures r.Some? <==> forall k :: 0 <= k < |results| ==> RowOf(results[k], fmt).Some?
  {
    match Rows(results, fmt)
    case None => None
    case Some(rows) => Some(Assemble(date, utcInstant, rows, errors))
  }

  /** Selecting from an assembled report selects from its parts. */
  lemma SelectAssemble(date: DateInfo, utcInstant: string, rows: seq<Line>, errors: seq<FailedFetch>,
                       keep: Line -> bool)
    ensures Select(Assemble(date, utcInstant, rows, errors), keep) ==
      Select(Header(date, utcInstant), keep) + Select(rows, keep)
      + Select(ErrorSection(errors), keep) + Select([Footer], keep)
  {
    var head, section := Header(date, utcInstant), ErrorSection(errors);
    SelectAppend(head, rows, keep);
    SelectAppend(head + rows, section, keep);
    SelectAppend(head + rows + section, [Footer], keep);
  }

  /** A produced report is the assembly of one table row per result, in the
      order of `results`. */
  lemma ReportParts(date: DateInfo, utcInstant: string, results: seq<Fetched>, errors: seq<FailedFetch>,
                    fmt: real -> string, lines: seq<Line>)
    requires Report(date, utcInstant, results, errors, fmt) == Some(lines)
    ensures Rows(results, fmt).Some?
    ensures lines == Assemble(date, utcInstant, Rows(results, fmt).value, errors)
    ensures forall k :: 0 <= k < |Rows(results, fmt).value| ==> Rows(results, fmt).value[k].Row?
  {
    RowsAreRows(results, fmt);
  }

  lemma HeaderNotice(date: DateInfo, utcInstant: string)
    ensures |Select(Header(date, utcInstant), IsWeekendNotice)| == if date.isWeekend then 1 else 0
  {
    var notice := if date.isWeekend then [WeekendNotice] else [];
    var top := [Title, Generated(date.fullDate), UtcTime(utcInstant)];
    var table := [IndicesHeading, TableHeader];
    assert Header(date, utcInstant) == top + notice + table;
    SelectAppend(top, notice, IsWeekendNotice);
    SelectAppend(top + notice, table, IsWeekendNotice);
    SelectNone(top, IsWeekendNotice);
    SelectNone(table, IsWeekendNotice);
    SelectAll(notice, IsWeekendNotice);
  }

  /** The weekend notice appears once on a weekend and not at all otherwise. */
  lemma WeekendNoticeOnce(date: DateInfo, utcInstant: string, rows: seq<Line>, errors: seq<FailedFetch>)
    requires forall k :: 0 <= k < |rows| ==> rows[k].Row?
    ensures |Select(Assemble(date, utcInstant, rows, errors), IsWeekendNotice)| == if date.isWeekend then 1 else 0
  {
    SelectAssemble(date, utcInstant, rows, errors, IsWeekendNotice);
    HeaderNotice(date, utcInstant);
    SelectNone(rows, IsWeekendNotice);
    SelectNone(ErrorSection(errors), IsWeekendNotice);
    SelectNone([Footer], IsWeekendNotice);
  }

  /** The table rows of a report are exactly the rows it was assembled
      from, in order. */
  lemma TableRowsInOrder(date: DateInfo, utcInstant: string, rows: seq<Line>, errors: seq<FailedFetch>)
    requires forall k :: 0 <= k < |rows| ==> rows[k].Row?
    ensures Select(Assemble(date, utcInstant, rows, errors), IsRow) == rows
  {
    SelectAssemble(date, utcInstant, rows, errors, IsRow);
    SelectAll(rows, IsRow);
    SelectNone(Header(date, utcInstant), IsRow);
    SelectNone(ErrorSection(errors), IsRow);
    SelectNone([Footer], IsRow);
    assert [] + rows + [] + [] == rows;
  }

  lemma SectionHeading(errors: seq<FailedFetch>)
    ensures |Select(ErrorSection(errors), IsErrorsHeading)| == if |errors| > 0 then 1 else 0
  {
    if |errors| > 0 {
      SelectAppend([ErrorsHeading], ErrorItems(errors), IsErrorsHeading);
      SelectAll([ErrorsHeading], IsErrorsHeading);
      SelectNone(ErrorItems(errors), IsErrorsHeading);
    } else {
      SelectNone(ErrorSection(errors), IsErrorsHeading);
    }
  }

  lemma SectionItems(errors: seq<FailedFetch>)
    ensures Select(ErrorSection(errors), IsErrorItem) == ErrorItems(errors)
  {
    var items := ErrorItems(errors);
    if |errors| > 0 {
      SelectAppend([ErrorsHeading], items, IsErrorItem);
      SelectNone([ErrorsHeading], IsErrorItem);
      SelectAll(items, IsErrorItem);
      assert [] + items == items;
    } else {
      SelectNone(ErrorSection(errors), IsErrorItem);
    }
  }

  /** A produced report has one table row per result, in the order of
      `results`, each the row of that result. */
  lemma OneRowPerResult(date: DateInfo, utcInstant: string, results: seq<Fetched>, errors: seq<FailedFetch>,
                        fmt: real -> string, lines: seq<Line>)
    requires Report(date, utcInstant, results, errors, fmt) == Some(lines)
    ensures |Select(lines, IsRow)| == |results|
    ensures forall k :: 0 <= k < |results| ==> Select(lines, IsRow)[k] == RowOf(results[k], fmt).value
  {
    ReportParts(date, utcInstant, results, errors, fmt, lines);
    TableRowsInOrder(date, utcInstant, Rows(results, fmt).value, errors);
  }

  /** The optional parts of a produced report: the weekend notice, the errors
      heading and the error bullets. */
  lemma ReportSections(date: DateInfo, utcInstant: string, results: seq<Fetched>, errors: seq<FailedFetch>,
                       fmt: real -> string, lines: seq<Line>)
    requires Report(date, utcInstant, results, errors, fmt) == Some(lines)
    ensures |Select(lines, IsWeekendNotice)| == if date.isWeekend then 1 else 0
    ensures |Select(lines, IsErrorsHeading)| == if |errors| > 0 then 1 else 0
    ensures Select(lines, IsErrorItem) == ErrorItems(errors)
  {
    ReportParts(date, utcInstant, results, errors, fmt, lines);
    var rows := Rows(results, fmt).value;
    WeekendNoticeOnce(date, utcInstant, rows, errors);
    ErrorsHeadingIffErrors(date, utcInstant, rows, errors);
    OneBulletPerError(date, utcInstant, rows, errors);
  }

  /** The errors heading appears once when there are errors and not at all
      otherwise. */
  lemma ErrorsHeadingIffErrors(date: DateInfo, utcInstant: string, rows: seq<Line>, errors: seq<FailedFetch>)
    requires forall k :: 0 <= k < |rows| ==> rows[k].Row?
    ensures |Select(Assemble(date, utcInstant, rows, errors), IsErrorsHeading)| == if |errors| > 0 then 1 else 0
  {
    SelectAssemble(date, utcInstant, rows, errors, IsErrorsHeading);
    SelectNone(Header(date, utcInstant), IsErrorsHeading);
    SelectNone(rows, IsErrorsHeading);
    SelectNone([Footer], IsErrorsHeading);
    SectionHeading(errors);
  }

  /** The error bullets are one per error, in the order of `errors`. */
  lemma OneBulletPerError(date: DateInfo, utcInstant: string, rows: seq<Line>, errors: seq<FailedFetch>)
    requires forall k :: 0 <= k < |rows| ==> rows[k].Row?
    ensures Select(Assemble(date, utcInstant, rows, errors), IsErrorItem) == ErrorItems(errors)
  {
    SelectAssemble(date, utcInstant, rows, errors, IsErrorItem);
    SelectNone(Header(date, utcInstant), IsErrorItem);
    SelectNone(rows, IsErrorItem);
    SelectNone([Footer], IsErrorItem);
    SectionItems(errors);
    assert [] + [] + ErrorItems(errors) + [] == ErrorItems(errors);
  }

  lemma RowsAreRows(results: seq<Fetched>, fmt: real -> string)
    requires Rows(results, fmt).Some?
    ensures forall k :: 0 <= k < |Rows(results, fmt).value| ==> Rows(results, fmt).value[k].Row?
  {
    forall k | 0 <= k < |Rows(results, fmt).value| ensures Rows(results, fmt).value[k].Row? {
      assert Rows(results, fmt).value[k] == RowOf(results[k], fmt).value;
    }
  }

  lemma {:induction false} SelectAll(lines: seq<Line>, keep: Line -> bool)
    requires forall k :: 0 <= k < |lines| ==> keep(lines[k])
    ensures Select(lines, keep) == lines
    decreases |lines|
  {
    if lines != [] {
      SelectAll(lines[1..], keep);
    }
  }

  lemma {:induction false} SelectNone(lines: seq<Line>, keep: Line -> bool)
    requires forall k :: 0 <= k < |lines| ==> !keep(lines[k])
    ensures Select(lines, keep) == []
    decreases |lines|
  {
    if lines != [] {
      SelectNone(lines[1..], keep);
    }
  }

  /** The report assembly of `main`, appending line by line. */
  method BuildReport(date: DateInfo, utcInstant: string, results: seq<Fetched>, errors: seq<FailedFetch>,
                     fmt: real -> string) returns (r: Option<seq<Line>>)
    ensures r == Report(date, utcInstant, results, errors, fmt)
  {
    var markdown := [Title, Generated(date.fullDate), UtcTime(utcInstant)];
    if date.isWeekend {
      markdown := markdown + [WeekendNotice];
    }
    markdown := markdown + [IndicesHeading, TableHeader];
    assert markdown == Header(date, utcInstant);
    var withRows := AppendRows(markdown, results, fmt);
    if withRows.None? {
      return None;
    }
    markdown := AppendErrorSection(withRows.value, errors);
    markdown := markdown + [Footer];
    r := Some(markdown);
  }

  /** The loop over `results`, one table row each; `None` when a row throws. */
  method AppendRows(markdown: seq<Line>, results: seq<Fetched>, fmt: real -> string) returns (r: Option<seq<Line>>)
    ensures Rows(results, fmt).None? ==> r.None?
    ensures Rows(results, fmt).Some? ==> r == Some(markdown + Rows(results, fmt).value)
  {
    var out := markdown;
    for i := 0 to |results|
      invariant Rows(results[..i], fmt).Some?
      invariant out == markdown + Rows(results[..i], fmt).value
    {
      var row := RowOf(results[i], fmt);
      RowsStep(results, i, fmt);
      if row.None? {
        return None;
      }
      out := out + [row.value];
    }
    assert results[..|results|] == results;
    r := Some(out);
  }

  /** The errors section: a heading and one bullet per error, only when
      there are errors. */
  method AppendErrorSection(markdown: seq<Line>, errors: seq<FailedFetch>) returns (out: seq<Line>)
    ensures out == markdown + ErrorSection(errors)
  {
    out := markdown;
    if |errors| > 0 {
      out := out + [ErrorsHeading];
      ghost var withHeading := out;
      for i := 0 to |errors|
        invariant out == withHeading + ErrorItems(errors[..i])
      {
        var err := errors[i];
        var item := ErrorItem(err.name, err.symbol, err.message);
        assert errors[..i + 1][..i] == errors[..i];
        assert ErrorItems(errors[..i + 1]) == ErrorItems(errors[..i]) + [item];
        out := out + [item];
      }
      assert errors[..|errors|] == errors;
    }
  }

  lemma RowsNoneAt(results: seq<Fetched>, i: nat, fmt: real -> string)
    requires i < |results| && RowOf(results[i], fmt).None?
    ensures Rows(results, fmt).None?
  {
  }

  /** One step of the row loop: the row of `results[i]` either aborts the
      whole table or extends the rows of the prefix. */
  lemma RowsStep(results: seq<Fetched>, i: nat, fmt: real -> string)
    requires i < |results| && Rows(results[..i], fmt).Some?
    ensures RowOf(results[i], fmt).None? ==> Rows(results, fmt).None?
    ensures RowOf(results[i], fmt).Some? ==>
      Rows(results[..i + 1], fmt) == Some(Rows(results[..i], fmt).value + [RowOf(results[i], fmt).value])
  {
    if RowOf(results[i], fmt).None? {
      RowsNoneAt(results, i, fmt);
    } else {
      var extended := results[..i + 1];
      assert extended[..|extended| - 1] == results[..i];
      assert extended[|extended| - 1] == results[i];
    }
  }

  /** The progress line of a result and its table row agree: when the row
      can be formatted, so can the line's `formatChange`, and both choose
      the same direction, the same signed change and the same signed
      percent. */
  lemma LogLineAgreesWithRow(f: Fetched, fmt: real -> string)
    requires RowOf(f, fmt).Some?
    ensures FormatChange(f.quote.change, f.quote.changePercent, fmt).Success?
    ensures var text, row := FormatChange(f.quote.change, f.quote.changePercent, fmt).value, RowOf(f, fmt).value;
      && (text.arrow == Up <==> row.status == Up)
      && text.change == row.change
      && text.percent == row.percent
  {
  }
}
