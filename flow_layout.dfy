/**
 * FlowData.py `sheet_to_word_table`, lines 89-163: where a monthly flow sheet's
 * table is. The Date row (column 1 reads "Date") and the first later row that
 * mentions "average" bound the table; the kept columns run left to right up to
 * the first daily-total header, skipping pump counters and empty columns; the
 * chart reads its values from the first kept "Flow" column.
 *
 * Column indices in `keep` are 0-based, as in the source's `keep_cols`; the
 * spreadsheet column of index k is k + 1.
 */
module FlowLayout {
  import opened Wrappers
  import opened Strings
  import opened Cells
  import opened Scans

  // ---------------------------------------------------------------------------
  // The Date and Average rows (lines 89-104)

  /** A string cell that reads `s` once stripped and lower-cased. */
  predicate IsLabel(c: Cell, s: string)
  {
    c.Str? && Lower(Trim(c.s)) == s
  }

  /** Column 1 of row r is the string "Date". */
  function DateLabelIn(ws: Sheet): int -> bool
  {
    r => IsLabel(At(ws, r, 1), "date")
  }

  /** `str(v).lower()` for the cells of row r up to column n that are not None. */
  function FlowRowWords(ws: Sheet, r: int, n: int): seq<string>
    decreases n
  {
    if n < 1 then []
    else FlowRowWords(ws, r, n - 1) + (if At(ws, r, n).Empty? then [] else [Lower(Display(At(ws, r, n)))])
  }

  /** `row_text`: the words of the row's non-empty cells joined with single spaces. */
  function FlowRowText(ws: Sheet, r: int): string
  {
    Join(FlowRowWords(ws, r, ws.maxCol), ' ')
  }

  predicate MentionsAverage(ws: Sheet, r: int)
  {
    Contains(FlowRowText(ws, r), "average")
  }

  function AverageIn(ws: Sheet): int -> bool
  {
    r => MentionsAverage(ws, r)
  }

  /** The row a scan stops at: it passes `mentions` and some row from 1 up to it
      passes `isDate`. */
  function StopWhen(mentions: int -> bool, isDate: int -> bool): int -> bool
  {
    r => mentions(r) && LastWhere(isDate, 1, r).Some?
  }

  /** `(date_row, avg_row)` when a loop over rows 1..n ends that sets `date_row` on
      every row passing `isDate` and breaks at the first row passing `mentions` once
      `date_row` is set. */
  function RowScanOf(mentions: int -> bool, isDate: int -> bool, n: int): (Option<int>, Option<int>)
  {
    match FirstWhere(StopWhen(mentions, isDate), 1, n)
    case Some(a) => (LastWhere(isDate, 1, a), Some(a))
    case None => (LastWhere(isDate, 1, n), None)
  }

  /** `if not date_row or not avg_row or avg_row < date_row: return`. */
  function RowsGuard(scan: (Option<int>, Option<int>)): Option<(int, int)>
  {
    var (d, a) := scan;
    if d.None? || a.None? || a.value < d.value then None else Some((d.value, a.value))
  }

  /** `(date_row, avg_row)` when the row loop of the flow sheet ends. */
  function RowScan(ws: Sheet): (Option<int>, Option<int>)
  {
    RowScanOf(AverageIn(ws), DateLabelIn(ws), ws.maxRow)
  }

  /** The rows `date_row..avg_row` of the table, None where the sheet is skipped. */
  function TableRows(ws: Sheet): Option<(int, int)>
  {
    RowsGuard(RowScan(ws))
  }

  /** The row loop: `date_row = r` on each Date row, break at the first row that
      mentions "average" once a Date row was seen. */
  method LocateDateAndAverage(ws: Sheet) returns (dateRow: Option<int>, avgRow: Option<int>)
    ensures (dateRow, avgRow) == RowScan(ws)
  {
    dateRow, avgRow := None, None;
    var r := 1;
    while r <= ws.maxRow
      invariant 1 <= r <= ws.maxRow + 1
      invariant dateRow == LastWhere(DateLabelIn(ws), 1, r - 1)
      invariant FirstWhere(StopWhen(AverageIn(ws), DateLabelIn(ws)), 1, ws.maxRow)
        == FirstWhere(StopWhen(AverageIn(ws), DateLabelIn(ws)), r, ws.maxRow)
    {
      var firstVal := At(ws, r, 1);
      if firstVal.Str? && Lower(Trim(firstVal.s)) == "date" {
        dateRow := Some(r);
      }
      assert dateRow == LastWhere(DateLabelIn(ws), 1, r);
      var rowText := FlowRowText(ws, r);
      if dateRow.Some? && Contains(rowText, "average") {
        assert StopWhen(AverageIn(ws), DateLabelIn(ws))(r);
        avgRow := Some(r);
        return;
      }
      r := r + 1;
    }
  }

  /** For any row tests: a kept pair (d, a) has d the last `isDate` row at or above a
      and a the first `mentions` row with an `isDate` row at or above it, so no
      earlier `mentions` row has one; the guard rejects the scan exactly when no
      `mentions` row has an `isDate` row at or above it. */
  lemma RowScanShape(mentions: int -> bool, isDate: int -> bool, n: int)
    ensures var t := RowsGuard(RowScanOf(mentions, isDate, n));
      && (t.Some? ==>
            && 1 <= t.value.0 <= t.value.1 <= n
            && isDate(t.value.0)
            && (forall r :: t.value.0 < r <= t.value.1 ==> !isDate(r))
            && mentions(t.value.1)
            && (forall r :: t.value.0 <= r < t.value.1 ==> !mentions(r))
            && (forall r :: 1 <= r < t.value.1 && mentions(r) ==> forall d :: 1 <= d <= r ==> !isDate(d)))
      && (t.None? <==> forall r :: 1 <= r <= n && mentions(r) ==> forall d :: 1 <= d <= r ==> !isDate(d))
  {
    var p := StopWhen(mentions, isDate);
    FirstWhereShape(p, 1, n);
    var f := FirstWhere(p, 1, n);
    if f.Some? {
      var a := f.value;
      LastWhereShape(isDate, 1, a);
      var d := LastWhere(isDate, 1, a).value;
      forall r | d <= r < a ensures !mentions(r) {
        LastWhereShape(isDate, 1, r);
        assert !p(r);
      }
      forall r | 1 <= r < a && mentions(r) ensures forall d :: 1 <= d <= r ==> !isDate(d) {
        assert !p(r);
        LastWhereShape(isDate, 1, r);
      }
      assert 1 <= a <= n && mentions(a) && 1 <= d <= a && isDate(d);
    } else {
      forall r | 1 <= r <= n && mentions(r) ensures forall d :: 1 <= d <= r ==> !isDate(d) {
        assert !p(r);
        LastWhereShape(isDate, 1, r);
      }
    }
  }

  /** Every word of the row text comes from a non-empty cell of the row, and every
      non-empty cell gives one. */
  lemma {:induction false} FlowRowWordsMembers(ws: Sheet, r: int, n: int)
    ensures forall w :: w in FlowRowWords(ws, r, n) <==>
      exists c :: 1 <= c <= n && !At(ws, r, c).Empty? && w == Lower(Display(At(ws, r, c)))
    decreases n
  {
    if n >= 1 {
      FlowRowWordsMembers(ws, r, n - 1);
      forall w {:trigger w in FlowRowWords(ws, r, n)}
        ensures w in FlowRowWords(ws, r, n) <==>
          exists c :: 1 <= c <= n && !At(ws, r, c).Empty? && w == Lower(Display(At(ws, r, c)))
      {
        if exists c :: 1 <= c <= n && !At(ws, r, c).Empty? && w == Lower(Display(At(ws, r, c))) {
          var c :| 1 <= c <= n && !At(ws, r, c).Empty? && w == Lower(Display(At(ws, r, c)));
          if c < n {
            assert 1 <= c <= n - 1 && !At(ws, r, c).Empty? && w == Lower(Display(At(ws, r, c)));
          }
        }
      }
    }
  }

  /** "average" has no space, so a row mentions it exactly when one of its
      non-empty cells does. */
  lemma MentionsAverageByCell(ws: Sheet, r: int)
    ensures MentionsAverage(ws, r) <==>
      exists c :: 1 <= c <= ws.maxCol && !At(ws, r, c).Empty? && Contains(Lower(Display(At(ws, r, c))), "average")
  {
    var words := FlowRowWords(ws, r, ws.maxCol);
    JoinContains(words, ' ', "average");
    FlowRowWordsMembers(ws, r, ws.maxCol);
    if MentionsAverage(ws, r) {
      var i :| 0 <= i < |words| && Contains(words[i], "average");
      assert words[i] in words;
    }
    if exists c :: 1 <= c <= ws.maxCol && !At(ws, r, c).Empty? && Contains(Lower(Display(At(ws, r, c))), "average") {
      var c :| 1 <= c <= ws.maxCol && !At(ws, r, c).Empty? && Contains(Lower(Display(At(ws, r, c))), "average");
      var w := Lower(Display(At(ws, r, c)));
      assert w in words;
      var i :| 0 <= i < |words| && words[i] == w;
    }
  }

  /** The table rows: `date_row` is the last Date row at or above `avg_row`, and
      `avg_row` is the first row that mentions "average" with a Date row at or above
      it: every earlier row that mentions "average" has no Date row at or above it,
      so a later Date/Average block is never the one taken. The sheet is skipped exactly when no row has both, so the guard
      `avg_row < date_row` of line 102 never decides anything. */
  lemma TableRowsShape(ws: Sheet)
    ensures var t := TableRows(ws);
      && (t.Some? ==>
            && 1 <= t.value.0 <= t.value.1 <= ws.maxRow
            && IsLabel(At(ws, t.value.0, 1), "date")
            && (forall r :: t.value.0 < r <= t.value.1 ==> !IsLabel(At(ws, r, 1), "date"))
            && MentionsAverage(ws, t.value.1)
            && (forall r :: t.value.0 <= r < t.value.1 ==> !MentionsAverage(ws, r))
            && (forall r :: 1 <= r < t.value.1 && MentionsAverage(ws, r) ==>
                  forall d :: 1 <= d <= r ==> !IsLabel(At(ws, d, 1), "date")))
      && (t.None? <==>
            forall r :: 1 <= r <= ws.maxRow && MentionsAverage(ws, r) ==>
              forall d :: 1 <= d <= r ==> !IsLabel(At(ws, d, 1), "date"))
  {
    var mentions, isDate := AverageIn(ws), DateLabelIn(ws);
    RowScanShape(mentions, isDate, ws.maxRow);
    var t := TableRows(ws);
    if t.Some? {
      var (d, a) := t.value;
      assert isDate(d) && mentions(a);
      forall r | d < r <= a ensures !IsLabel(At(ws, r, 1), "date") {
        assert !isDate(r);
      }
      forall r | d <= r < a ensures !MentionsAverage(ws, r) {
        assert !mentions(r);
      }
      forall r | 1 <= r < a && MentionsAverage(ws, r)
        ensures forall d :: 1 <= d <= r ==> !IsLabel(At(ws, d, 1), "date")
      {
        assert mentions(r);
        forall d | 1 <= d <= r ensures !IsLabel(At(ws, d, 1), "date") {
          assert !isDate(d);
        }
      }
    } else {
      forall r | 1 <= r <= ws.maxRow && MentionsAverage(ws, r)
        ensures forall d :: 1 <= d <= r ==> !IsLabel(At(ws, d, 1), "date")
      {
        assert mentions(r);
        forall d | 1 <= d <= r ensures !IsLabel(At(ws, d, 1), "date") {
          assert !isDate(d);
        }
      }
    }
  }

  // ---------------------------------------------------------------------------
  // The kept columns (lines 106-118)

  /** `str(raw).strip().lower() if raw is not None else ''` for the Date row. */
  function Header(ws: Sheet, dateRow: int, c: int): string
  {
    var raw := At(ws, dateRow, c);
    if raw.Empty? then "" else Lower(Trim(Display(raw)))
  }

  /** The column loop breaks at a daily total other than the total daily flow. */
  predicate StopsAt(header: string)
  {
    Contains(header, "daily") && !StartsWith(header, "total daily flow")
  }

  /** `re.search(r'^pump\s*\d', header)`: "pump", optional white space, a digit. */
  predicate IsPumpHeader(header: string)
  {
    StartsWith(header, "pump")
      && var rest := TrimLeft(header[4..]);
      |rest| > 0 && IsDigit(rest[0])
  }

  /** `ws.cell(r, c).value not in (None, "")`. */
  predicate NonBlank(c: Cell)
  {
    !c.Empty? && c != Str("")
  }

  /** Some cell of column c in the table rows holds a value. */
  predicate HasData(ws: Sheet, c: int, dateRow: int, avgRow: int)
  {
    exists r | dateRow <= r <= avgRow :: NonBlank(At(ws, r, c))
  }

  function StopIndex(ws: Sheet, dateRow: int): int -> bool
  {
    c => StopsAt(Header(ws, dateRow, c))
  }

  /** Index k is kept when its column is no pump counter and holds a value. */
  function KeptIn(ws: Sheet, dateRow: int, avgRow: int): int -> bool
  {
    k => !IsPumpHeader(Header(ws, dateRow, k + 1)) && HasData(ws, k + 1, dateRow, avgRow)
  }

  /** The last column a loop over columns 1..n looks at before it breaks at the first
      column passing `stop`. */
  function ScanEnd(stop: int -> bool, n: int): int
  {
    match FirstWhere(stop, 1, n)
    case Some(c) => c - 1
    case None => n
  }

  /** The 0-based indices such a loop appends when it keeps the columns passing `kept`
      (the test takes the index). */
  function KeepOf(stop: int -> bool, kept: int -> bool, n: int): seq<int>
  {
    Where(kept, 0, ScanEnd(stop, n) - 1)
  }

  /** `keep_cols`. */
  function KeepCols(ws: Sheet, dateRow: int, avgRow: int): seq<int>
  {
    KeepOf(StopIndex(ws, dateRow), KeptIn(ws, dateRow, avgRow), ws.maxCol)
  }

  /** The column loop with its `break` and `continue`, for any tests. */
  method KeepColumns(stop: int -> bool, kept: int -> bool, n: nat) returns (keep: seq<int>)
    ensures keep == KeepOf(stop, kept, n)
  {
    keep := [];
    var c := 1;
    while c <= n
      invariant 1 <= c <= n + 1
      invariant keep == Where(kept, 0, c - 2)
      invariant FirstWhere(stop, 1, n) == FirstWhere(stop, c, n)
    {
      if stop(c) {
        break;
      }
      if kept(c - 1) {
        keep := keep + [c - 1];
      }
      c := c + 1;
    }
  }

  /** The column loop of the flow sheet: it breaks at a daily-total header and
      skips pump counters and columns without a value. */
  method SelectKeepCols(ws: Sheet, dateRow: int, avgRow: int) returns (keep: seq<int>)
    ensures keep == KeepCols(ws, dateRow, avgRow)
  {
    keep := KeepColumns(StopIndex(ws, dateRow), KeptIn(ws, dateRow, avgRow), ws.maxCol);
  }

  /** For any tests: an index is kept exactly when it is below n, no column from 1 up
      to its own stops the scan and it passes `kept`; the indices ascend strictly. */
  lemma KeepOfShape(stop: int -> bool, kept: int -> bool, n: int)
    ensures var keep := KeepOf(stop, kept, n);
      && (forall k :: k in keep <==> 0 <= k < n && (forall j :: 1 <= j <= k + 1 ==> !stop(j)) && kept(k))
      && (forall i, j :: 0 <= i < j < |keep| ==> keep[i] < keep[j])
  {
    FirstWhereShape(stop, 1, n);
    WhereIsFilter(kept, 0, ScanEnd(stop, n) - 1);
    var keep := KeepOf(stop, kept, n);
    forall k ensures k in keep <==> 0 <= k < n && (forall j :: 1 <= j <= k + 1 ==> !stop(j)) && kept(k) {
      if 0 <= k < n && ScanEnd(stop, n) <= k {
        var s := FirstWhere(stop, 1, n).value;
        assert stop(s) && 1 <= s <= k + 1;
      }
    }
  }

  /** No header from column 1 up to column `col` stops the column loop. */
  predicate BeforeStop(ws: Sheet, dateRow: int, col: int)
  {
    forall j :: 1 <= j <= col ==> !StopsAt(Header(ws, dateRow, j))
  }

  /** The column loop keeps index k: its column lies in the sheet before the loop
      breaks, its header is no pump counter and it holds a value in the table rows. */
  predicate IsKept(ws: Sheet, dateRow: int, avgRow: int, k: int)
  {
    && 0 <= k < ws.maxCol
    && BeforeStop(ws, dateRow, k + 1)
    && !IsPumpHeader(Header(ws, dateRow, k + 1))
    && HasData(ws, k + 1, dateRow, avgRow)
  }

  lemma KeptAt(ws: Sheet, dateRow: int, avgRow: int, k: int)
    ensures k in KeepCols(ws, dateRow, avgRow) <==> IsKept(ws, dateRow, avgRow, k)
  {
    var stop, kept := StopIndex(ws, dateRow), KeptIn(ws, dateRow, avgRow);
    KeepOfShape(stop, kept, ws.maxCol);
    if k in KeepCols(ws, dateRow, avgRow) {
      forall j | 1 <= j <= k + 1 ensures !StopsAt(Header(ws, dateRow, j)) {
        assert !stop(j);
      }
      assert kept(k);
    }
    if IsKept(ws, dateRow, avgRow, k) {
      forall j | 1 <= j <= k + 1 ensures !stop(j) {
        assert !StopsAt(Header(ws, dateRow, j));
      }
      assert kept(k);
    }
  }

  /** `keep_cols` holds exactly the indices the loop keeps, in strictly ascending order. */
  lemma KeepColsShape(ws: Sheet, dateRow: int, avgRow: int)
    ensures var keep := KeepCols(ws, dateRow, avgRow);
      && (forall k :: k in keep <==> IsKept(ws, dateRow, avgRow, k))
      && (forall i, j :: 0 <= i < j < |keep| ==> keep[i] < keep[j])
  {
    KeepOfShape(StopIndex(ws, dateRow), KeptIn(ws, dateRow, avgRow), ws.maxCol);
    forall k ensures k in KeepCols(ws, dateRow, avgRow) <==> IsKept(ws, dateRow, avgRow, k) {
      KeptAt(ws, dateRow, avgRow, k);
    }
  }

  // ---------------------------------------------------------------------------
  // The chart column (lines 129-139 and 155-163)

  /** The kept column of index i has the string header "Flow". */
  predicate IsFlowHeader(ws: Sheet, dateRow: int, keep: seq<int>, i: int)
  {
    0 <= i < |keep| && IsLabel(At(ws, dateRow, keep[i] + 1), "flow")
  }

  function FlowAt(ws: Sheet, dateRow: int, keep: seq<int>): int -> bool
  {
    i => IsFlowHeader(ws, dateRow, keep, i)
  }

  /** Where the chart's values come from (`excel_chart_col`, 1-based) and which
      table column is marked red (`chart_col_idx`, an index into the kept columns). */
  datatype ChartColumn = ChartColumn(excelCol: int, markIdx: Option<int>)

  /** For a test `flow` on the indices of `keep`: the values come from the first kept
      column that passes, the marking goes to the last one; when none passes, both go
      to the last kept column. */
  function ChartColumnFor(flow: int -> bool, keep: seq<int>): ChartColumn
    requires |keep| > 0
  {
    FirstWhereShape(flow, 0, |keep| - 1);
    var marked := LastWhere(flow, 0, |keep| - 1);
    match FirstWhere(flow, 0, |keep| - 1)
    case Some(i) => ChartColumn(keep[i] + 1, marked)
    case None => ChartColumn(keep[|keep| - 1] + 1, Some(|keep| - 1))
  }

  /** The chart column of the flow sheet, the test being a "Flow" header. */
  function ChartColumnOf(ws: Sheet, dateRow: int, keep: seq<int>): ChartColumn
    requires |keep| > 0
  {
    ChartColumnFor(FlowAt(ws, dateRow, keep), keep)
  }

  /** The header pass of the table loop, then the search for the Flow column with
      its fallback to the last kept column. */
  method FindChartColumn(ws: Sheet, dateRow: int, keep: seq<int>) returns (chart: ChartColumn)
    requires |keep| > 0
    ensures chart == ChartColumnOf(ws, dateRow, keep)
  {
    var chartColIdx: Option<int> := None;
    var cidx := 0;
    while cidx < |keep|
      invariant 0 <= cidx <= |keep|
      invariant chartColIdx == LastWhere(FlowAt(ws, dateRow, keep), 0, cidx - 1)
    {
      if IsFlowHeader(ws, dateRow, keep, cidx) {
        chartColIdx := Some(cidx);
      }
      cidx := cidx + 1;
    }
    var excelCol: Option<int> := None;
    var i := 0;
    while i < |keep|
      invariant 0 <= i <= |keep|
      invariant FirstWhere(FlowAt(ws, dateRow, keep), 0, |keep| - 1) == FirstWhere(FlowAt(ws, dateRow, keep), i, |keep| - 1)
    {
      if IsFlowHeader(ws, dateRow, keep, i) {
        excelCol := Some(keep[i] + 1);
        break;
      }
      i := i + 1;
    }
    if excelCol.None? {
      return ChartColumn(keep[|keep| - 1] + 1, Some(|keep| - 1));
    }
    return ChartColumn(excelCol.value, chartColIdx);
  }

  /** For any test on kept columns in ascending order: the chart reads a kept column,
      the first that passes or the last one when none does; the marked column is the
      last that passes, or the last kept column when none does, and it is the
      chart's own column exactly when no two kept columns pass. */
  lemma ChartColumnForShape(flow: int -> bool, keep: seq<int>)
    requires |keep| > 0
    requires forall i, j :: 0 <= i < j < |keep| ==> keep[i] < keep[j]
    ensures var chart := ChartColumnFor(flow, keep);
      && (exists i :: 0 <= i < |keep| && chart.excelCol == keep[i] + 1)
      && ((exists i :: 0 <= i < |keep| && flow(i)) ==>
            exists i :: 0 <= i < |keep| && chart.excelCol == keep[i] + 1 && flow(i)
              && forall j :: 0 <= j < i ==> !flow(j))
      && ((forall i :: 0 <= i < |keep| ==> !flow(i)) ==> chart.excelCol == keep[|keep| - 1] + 1)
      && chart.markIdx.Some? && 0 <= chart.markIdx.value < |keep|
      && ((exists i :: 0 <= i < |keep| && flow(i)) ==>
            flow(chart.markIdx.value) && forall j :: chart.markIdx.value < j < |keep| ==> !flow(j))
      && ((forall i :: 0 <= i < |keep| ==> !flow(i)) ==> chart.markIdx == Some(|keep| - 1))
      && (chart.excelCol == keep[chart.markIdx.value] + 1 <==>
            forall i, j :: 0 <= i < j < |keep| && flow(i) ==> !flow(j))
  {
    FirstWhereShape(flow, 0, |keep| - 1);
    LastWhereShape(flow, 0, |keep| - 1);
    var first := FirstWhere(flow, 0, |keep| - 1);
    var chart := ChartColumnFor(flow, keep);
    if first.Some? {
      var f := first.value;
      var l := chart.markIdx.value;
      assert flow(f) && flow(l) && f <= l;
      assert 0 <= f < |keep| && chart.excelCol == keep[f] + 1;
      if f < l {
        assert 0 <= f < l < |keep| && flow(f) && flow(l);
      }
    } else {
      assert 0 <= |keep| - 1 < |keep| && chart.excelCol == keep[|keep| - 1] + 1;
    }
  }

  /** The chart reads a kept column: the first kept column headed "Flow", or the last
      kept column when none is. A table column is always marked (so the test
      `chart_col_idx is not None` of line 184 always holds): the last kept column
      headed "Flow", or the last kept column when none is; it is the chart's own
      column exactly when no second kept column is headed "Flow". */
  lemma ChartColumnShape(ws: Sheet, dateRow: int, keep: seq<int>)
    requires |keep| > 0
    requires forall i, j :: 0 <= i < j < |keep| ==> keep[i] < keep[j]
    ensures var chart := ChartColumnOf(ws, dateRow, keep);
      && (exists i :: 0 <= i < |keep| && chart.excelCol == keep[i] + 1)
      && ((exists i :: 0 <= i < |keep| && IsFlowHeader(ws, dateRow, keep, i)) ==>
            exists i :: 0 <= i < |keep| && chart.excelCol == keep[i] + 1
              && IsFlowHeader(ws, dateRow, keep, i)
              && forall j :: 0 <= j < i ==> !IsFlowHeader(ws, dateRow, keep, j))
      && ((forall i :: 0 <= i < |keep| ==> !IsFlowHeader(ws, dateRow, keep, i)) ==>
            chart.excelCol == keep[|keep| - 1] + 1)
      && chart.markIdx.Some? && 0 <= chart.markIdx.value < |keep|
      && ((exists i :: 0 <= i < |keep| && IsFlowHeader(ws, dateRow, keep, i)) ==>
            && IsFlowHeader(ws, dateRow, keep, chart.markIdx.value)
            && forall j :: chart.markIdx.value < j < |keep| ==> !IsFlowHeader(ws, dateRow, keep, j))
      && ((forall i :: 0 <= i < |keep| ==> !IsFlowHeader(ws, dateRow, keep, i)) ==>
            chart.markIdx == Some(|keep| - 1))
      && (chart.excelCol == keep[chart.markIdx.value] + 1 <==>
            forall i, j :: 0 <= i < j < |keep| && IsFlowHeader(ws, dateRow, keep, i) ==>
              !IsFlowHeader(ws, dateRow, keep, j))
  {
    var flow := FlowAt(ws, dateRow, keep);
    assert forall i :: flow(i) == IsFlowHeader(ws, dateRow, keep, i);
    ChartColumnForShape(flow, keep);
  }
}
