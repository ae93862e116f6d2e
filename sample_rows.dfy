/**
 * SGSData.py `table_then_two_graphs`, first half: the rows below the header that
 * carry a date, the month the report is for, and the six calendar months ending
 * with it.
 */
module SampleRows {
  import opened Wrappers
  import opened Strings
  import opened Stamps
  import opened Cells
  import opened DateCells
  import opened Scans
  import opened VisitWindow

  /** A data row whose date cell parses, with the date it parses to. The source keeps
      the two as the parallel lists `row_idxs` and `dates`. */
  datatype DatedRow = DatedRow(row: int, date: Stamp)

  /** The cell of `dateCol` in row `r` parses as a date. */
  function DateParsesIn(ws: Sheet, lib: Library, dateCol: int): int -> bool
  {
    r => ParseDateCell(At(ws, r, dateCol), lib).Some?
  }

  /** The dated rows among rows lo..hi, in sheet order. */
  function DatedRows(ws: Sheet, lib: Library, dateCol: int, lo: int, hi: int): seq<DatedRow>
    decreases hi - lo
  {
    if hi < lo then []
    else
      DatedRows(ws, lib, dateCol, lo, hi - 1)
        + (match ParseDateCell(At(ws, hi, dateCol), lib)
           case Some(d) => [DatedRow(hi, d)]
           case None => [])
  }

  function RowsOf(dated: seq<DatedRow>): seq<int>
  {
    seq(|dated|, k requires 0 <= k < |dated| => dated[k].row)
  }

  lemma RowsOfAppend(a: seq<DatedRow>, b: seq<DatedRow>)
    ensures RowsOf(a + b) == RowsOf(a) + RowsOf(b)
  {
  }

  /** The collected rows are exactly the rows lo..hi whose date cell parses, in
      increasing order, and each carries the date its own cell parses to. */
  lemma {:induction false} DatedRowsShape(ws: Sheet, lib: Library, dateCol: int, lo: int, hi: int)
    ensures var dated := DatedRows(ws, lib, dateCol, lo, hi);
      && RowsOf(dated) == Where(DateParsesIn(ws, lib, dateCol), lo, hi)
      && forall k :: 0 <= k < |dated| ==> ParseDateCell(At(ws, dated[k].row, dateCol), lib) == Some(dated[k].date)
    decreases hi - lo
  {
    if hi >= lo {
      var prev := DatedRows(ws, lib, dateCol, lo, hi - 1);
      DatedRowsShape(ws, lib, dateCol, lo, hi - 1);
      var tail := match ParseDateCell(At(ws, hi, dateCol), lib)
        case Some(d) => [DatedRow(hi, d)]
        case None => [];
      assert DatedRows(ws, lib, dateCol, lo, hi) == prev + tail;
      RowsOfAppend(prev, tail);
      assert RowsOf(tail) == if DateParsesIn(ws, lib, dateCol)(hi) then [hi] else [];
    }
  }

  /** The loop of lines 163-166. */
  method CollectDatedRows(ws: Sheet, lib: Library, dateCol: int, startRow: int) returns (dated: seq<DatedRow>)
    ensures dated == DatedRows(ws, lib, dateCol, startRow, ws.maxRow)
  {
    dated := [];
    var r := startRow;
    while r <= ws.maxRow
      invariant startRow <= r && (r <= ws.maxRow + 1 || r == startRow)
      invariant dated == DatedRows(ws, lib, dateCol, startRow, r - 1)
      decreases ws.maxRow - r
    {
      var dt := ParseDateCell(At(ws, r, dateCol), lib);
      if dt.Some? {
        dated := dated + [DatedRow(r, dt.value)];
      }
      r := r + 1;
    }
  }

  // ---------------------------------------------------------------------------
  // The selected month

  /** `[int(x) for x in parts if x.strip().isdigit()]`. */
  function DigitTokens(parts: seq<string>): (tokens: seq<nat>)
    ensures |tokens| <= |parts|
  {
    if parts == [] then []
    else
      var x := Trim(parts[|parts| - 1]);
      DigitTokens(parts[..|parts| - 1]) + (if IsDigits(x) then [DigitsValue(x)] else [])
  }

  /** The comprehension works part by part: the tokens of two lists of parts are
      those of the first followed by those of the second. */
  lemma {:induction false} DigitTokensConcat(a: seq<string>, b: seq<string>)
    ensures DigitTokens(a + b) == DigitTokens(a) + DigitTokens(b)
  {
    if b != [] {
      var init := b[..|b| - 1];
      assert (a + b)[..|a + b| - 1] == a + init;
      assert (a + b)[|a + b| - 1] == b[|b| - 1];
      DigitTokensConcat(a, init);
    } else {
      assert a + b == a;
    }
  }

  /** A single part gives its value when it is a numeral once stripped, and nothing
      otherwise. */
  lemma DigitTokensOne(x: string)
    ensures DigitTokens([x]) == if IsDigits(Trim(x)) then [DigitsValue(Trim(x))] else []
  {
    assert [x][..0] == [];
  }

  /** The tokens of `months_csv`. */
  function MonthTokens(csv: string): seq<nat>
  {
    DigitTokens(Split(csv, ','))
  }

  lemma NumeralUnpadded(x: string)
    requires IsDigits(x)
    ensures Trim(x) == x
  {
    assert IsDigit(x[0]) && IsDigit(x[|x| - 1]);
    TrimUnpadded(x);
  }

  /** When every part is a plain decimal numeral, each one becomes a token: its value. */
  lemma {:induction false} DigitTokensOfNumerals(parts: seq<string>)
    requires forall k :: 0 <= k < |parts| ==> IsDigits(parts[k])
    ensures |DigitTokens(parts)| == |parts|
    ensures forall k :: 0 <= k < |parts| ==> IsDigits(parts[k]) && DigitTokens(parts)[k] == DigitsValue(parts[k])
  {
    if parts != [] {
      var init := parts[..|parts| - 1];
      var last := parts[|parts| - 1];
      assert forall k :: 0 <= k < |init| ==> init[k] == parts[k];
      DigitTokensOfNumerals(init);
      NumeralUnpadded(last);
      assert DigitTokens(parts) == DigitTokens(init) + [DigitsValue(last)];
    }
  }

  /** The `months_csv` that AutoSummary.py hands over yields one token per month of its
      span, and the last token, the month the report is for, is the month the user
      picked there. */
  lemma SummaryCsvSelectsPickedMonth(visits: seq<string>, picked: string)
    requires ValidSchedule(visits, picked) && IsMonthName(picked)
    ensures var span := Span(visits, picked);
      var tokens := MonthTokens(Join(MonthNumbers(span), ','));
      && |tokens| == |span|
      && (forall k :: 0 <= k < |span| ==> tokens[k] == MonthNumber(span[k]))
      && tokens[|tokens| - 1] == MonthNumber(picked)
  {
    MonthsCsvTokens(visits, picked);
    var parts := Split(Join(MonthNumbers(Span(visits, picked)), ','), ',');
    DigitTokensOfNumerals(parts);
  }

  /** `max(dates)`: the first of the latest dates. */
  function Latest(dated: seq<DatedRow>): (m: Stamp)
    requires |dated| > 0
    ensures exists k :: 0 <= k < |dated| && dated[k].date == m
    ensures forall k :: 0 <= k < |dated| ==> LessEq(dated[k].date, m)
  {
    if |dated| == 1 then dated[0].date
    else
      var best := Latest(dated[..|dated| - 1]);
      var d := dated[|dated| - 1].date;
      LessEqTotal(d, best);
      assert forall k :: 0 <= k < |dated| - 1 ==> dated[..|dated| - 1][k] == dated[k];
      if !LessEq(d, best) then
        assert forall k :: 0 <= k < |dated| - 1 ==> LessEq(dated[k].date, d) by {
          forall k | 0 <= k < |dated| - 1 ensures LessEq(dated[k].date, d) {
            LessEqTransitive(dated[k].date, best, d);
          }
        }
        d
      else
        best
  }

  /** `(sel_year, sel_month)`: the last token with the year argument, or the month of
      the latest date when `months_csv` holds no token. */
  function SelectedMonth(tokens: seq<nat>, year: int, dated: seq<DatedRow>): (ym: (int, int))
    requires |tokens| > 0 || |dated| > 0
    ensures |tokens| > 0 ==> ym == (year, tokens[|tokens| - 1])
    ensures |tokens| == 0 ==>
      exists k :: 0 <= k < |dated|
        && (dated[k].date.year, dated[k].date.month) == ym
        && forall j :: 0 <= j < |dated| ==> LessEq(dated[j].date, dated[k].date)
  {
    if |tokens| > 0 then (year, tokens[|tokens| - 1])
    else
      var latest := Latest(dated);
      (latest.year, latest.month)
  }

  // ---------------------------------------------------------------------------
  // The six-month window

  /** `month_start(*ym_add(sel_year, sel_month, -5))`. */
  function WindowStart(year: int, month: int): Stamp
  {
    var (sy, sm) := YmAdd(year, month, -5);
    MonthStart(sy, sm)
  }

  /** `start_dt <= d <= end_dt`. */
  predicate InWindow(d: Stamp, year: int, month: int)
  {
    LessEq(WindowStart(year, month), d) && LessEq(d, MonthEnd(year, month))
  }

  /** A calendar date is in the window exactly when its month is the selected month
      (normalised, since a token can be any number) or one of the five before it, and
      it is not a time after midnight on the selected month's last day. */
  lemma InWindowByMonth(d: Stamp, year: int, month: int)
    requires IsCalendarDay(d.year, d.month, d.day) && 0 <= d.micro
    ensures var (y, m) := YmAdd(year, month, 0);
      var i := MonthIndex(d.year, d.month);
      InWindow(d, year, month) <==>
        MonthIndex(y, m) - 5 <= i <= MonthIndex(y, m)
        && (i == MonthIndex(y, m) ==> d.day < DaysInMonth(y, m) || Midnight(d))
  {
    var (y, m) := YmAdd(year, month, 0);
    var (sy, sm) := YmAdd(year, month, -5);
    AfterMonthStart(d, sy, sm);
    YmAddCompose(year, month, 0, 1);
    assert MonthEnd(year, month) == MonthEnd(y, m);
    BeforeMonthEnd(d, y, m);
  }

  /** `idxs`, as the dated rows it selects: those whose date is in the window, in
      their order. */
  function InWindowRows(dated: seq<DatedRow>, year: int, month: int): (w: seq<DatedRow>)
    ensures |w| <= |dated|
  {
    if dated == [] then []
    else
      var last := dated[|dated| - 1];
      InWindowRows(dated[..|dated| - 1], year, month) + (if InWindow(last.date, year, month) then [last] else [])
  }

  /** The window keeps exactly the dated rows whose date is in it. */
  lemma {:induction false} InWindowRowsMembers(dated: seq<DatedRow>, year: int, month: int)
    ensures var w := InWindowRows(dated, year, month);
      && (forall x :: x in w <==> x in dated && InWindow(x.date, year, month))
      && (forall k :: 0 <= k < |w| ==> InWindow(w[k].date, year, month))
  {
    if dated != [] {
      var init := dated[..|dated| - 1];
      InWindowRowsMembers(init, year, month);
      assert dated == init + [dated[|dated| - 1]];
    }
  }

  /** Rows in increasing sheet order stay in increasing order. */
  lemma {:induction false} InWindowRowsOrdered(dated: seq<DatedRow>, year: int, month: int)
    requires forall k, j :: 0 <= k < j < |dated| ==> dated[k].row < dated[j].row
    ensures var w := InWindowRows(dated, year, month);
      forall k, j :: 0 <= k < j < |w| ==> w[k].row < w[j].row
  {
    if dated != [] {
      var init := dated[..|dated| - 1];
      var last := dated[|dated| - 1];
      assert forall k :: 0 <= k < |init| ==> init[k] == dated[k];
      InWindowRowsOrdered(init, year, month);
      InWindowRowsMembers(init, year, month);
      var w0 := InWindowRows(init, year, month);
      var w := InWindowRows(dated, year, month);
      forall k, j | 0 <= k < j < |w| ensures w[k].row < w[j].row {
        if j < |w0| {
          assert w[k] == w0[k] && w[j] == w0[j];
        } else {
          assert w[j] == last && w[k] == w0[k] && w0[k] in init;
          var i :| 0 <= i < |init| && init[i] == w0[k];
          assert dated[i] == w0[k];
        }
      }
    }
  }
}
