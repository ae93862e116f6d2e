/**
 * FlowData.py `sheet_to_word_table`: one flow sheet's analysis, from the Date and
 * Average rows to the summary sentence's numbers. What it adds to the document
 * (table text, shading, red marking, the chart image, where the sentence goes) is
 * left out; what it computes is kept as a value.
 */
module FlowSheet {
  import opened Wrappers
  import opened Cells
  import opened FlowLayout
  import opened FlowSeries

  /** Everything `sheet_to_word_table` computes for a sheet it does not skip. */
  datatype FlowTable = FlowTable(
    dateRow: int,
    avgRow: int,
    keep: seq<int>,
    chart: ChartColumn,
    points: seq<FlowPoint>,
    exceedances: seq<FlowPoint>,
    plot: Chart,
    summary: Option<FlowSummary>)

  /** The analysis of the kept columns of rows dateRow..avgRow. */
  function TableFrom(ws: Sheet, lib: Library, capacity: Option<real>, dateRow: int, avgRow: int, keep: seq<int>): FlowTable
    requires |keep| > 0
  {
    var chart := ChartColumnOf(ws, dateRow, keep);
    var points := FlowPoints(ws, lib, chart.excelCol, dateRow, avgRow);
    var plot := ChartOf(points);
    var exceedances := Exceedances(points, capacity, chart.markIdx.Some?);
    FlowTable(dateRow, avgRow, keep, chart, points, exceedances, plot, SummaryAsWritten(plot, exceedances, capacity))
  }

  /** A sheet whose Date row itself mentions "average", with a column kept: the
      table has one row, so `table.rows[-2]` (line 144) raises IndexError. */
  predicate OneRowTable(ws: Sheet)
  {
    match TableRows(ws)
    case None => false
    case Some((dateRow, avgRow)) => dateRow == avgRow && KeepCols(ws, dateRow, avgRow) != []
  }

  /** What `sheet_to_word_table` makes of a sheet: None where it raises, Some(None)
      where it returns early (no Date/Average rows, or no kept column), otherwise
      the analysis. */
  function SheetToWordTableOf(ws: Sheet, lib: Library, capacity: Option<real>): Option<Option<FlowTable>>
  {
    match TableRows(ws)
    case None => Some(None)
    case Some((dateRow, avgRow)) =>
      var keep := KeepCols(ws, dateRow, avgRow);
      if keep == [] then Some(None)
      else if dateRow == avgRow then None
      else Some(Some(TableFrom(ws, lib, capacity, dateRow, avgRow, keep)))
  }

  /** `sheet_to_word_table(ws, title, doc, site, peak_capacity)`. */
  method SheetToWordTable(ws: Sheet, lib: Library, capacity: Option<real>) returns (table: Option<Option<FlowTable>>)
    ensures table == SheetToWordTableOf(ws, lib, capacity)
  {
    var dateRow, avgRow := LocateDateAndAverage(ws);
    if dateRow.None? || avgRow.None? || avgRow.value < dateRow.value {
      return Some(None);
    }
    var d, a := dateRow.value, avgRow.value;
    var keep := SelectKeepCols(ws, d, a);
    if keep == [] {
      return Some(None);
    }
    if d == a {
      // a one-row table has no `table.rows[-2]`
      return None;
    }
    var chart := FindChartColumn(ws, d, keep);
    var points, exceedances := BuildFlowSeries(ws, lib, chart.excelCol, d, a, capacity, chart.markIdx.Some?);
    var plot := ChartOf(points);
    var summary := SummaryAsWritten(plot, exceedances, capacity);
    table := Some(Some(FlowTable(d, a, keep, chart, points, exceedances, plot, summary)));
  }

  /** The sheet raises exactly on a one-row table: the first row that mentions
      "average" at or below a Date row is that Date row itself, and a column is
      kept. */
  lemma SheetRaisesShape(ws: Sheet, lib: Library, capacity: Option<real>)
    ensures SheetToWordTableOf(ws, lib, capacity).None? <==> OneRowTable(ws)
    ensures OneRowTable(ws) ==>
      var d := TableRows(ws).value.0;
      && 1 <= d <= ws.maxRow
      && IsLabel(At(ws, d, 1), "date") && MentionsAverage(ws, d)
      && KeepCols(ws, d, d) != []
  {
    TableRowsShape(ws);
  }

  /** The analysis of kept columns in ascending order: the chart reads a kept
      column, a column is marked, every point comes from a row of the table and is the
      `float()` of its chart cell, the exceedances are the points above the capacity,
      and there is a sentence exactly when a capacity is known and the chart has
      values; its count of days exceeded is the number of exceedances, and its
      average and band are those of the chart's values. */
  lemma TableFromShape(ws: Sheet, lib: Library, capacity: Option<real>, dateRow: int, avgRow: int, keep: seq<int>)
    requires |keep| > 0
    requires forall i, j :: 0 <= i < j < |keep| ==> keep[i] < keep[j]
    ensures var t := TableFrom(ws, lib, capacity, dateRow, avgRow, keep);
      && (exists i :: 0 <= i < |keep| && t.chart.excelCol == keep[i] + 1)
      && t.chart.markIdx.Some?
      && (forall i :: 0 <= i < |t.points| ==>
            dateRow <= t.points[i].row <= avgRow
            && FloatOf(At(ws, t.points[i].row, t.chart.excelCol), lib) == Some(t.points[i].value))
      && (forall p :: p in t.exceedances <==> p in t.points && capacity.Some? && p.value > capacity.value)
      && (t.summary.Some? <==> capacity.Some? && |t.plot.values| > 0)
      && (t.summary.Some? ==>
            && t.summary.value.exceeded == |t.exceedances| <= |t.points|
            && t.summary.value.average == Mean(t.plot.values)
            && t.summary.value.band == Classify(Mean(t.plot.values), capacity.value))
  {
    var t := TableFrom(ws, lib, capacity, dateRow, avgRow, keep);
    ChartColumnShape(ws, dateRow, keep);
    FlowPointsShape(ws, lib, t.chart.excelCol, dateRow, avgRow);
    ExceedancesShape(t.points, capacity, true);
    SummaryAsWrittenShape(t.points, t.exceedances, capacity);
  }

  /** A sheet that is neither skipped nor raising has its table between its Date
      row and a later Average row, over its kept columns, analysed as above. */
  lemma FlowTableShape(ws: Sheet, lib: Library, capacity: Option<real>)
    requires SheetToWordTableOf(ws, lib, capacity).Some?
    requires SheetToWordTableOf(ws, lib, capacity).value.Some?
    ensures var t := SheetToWordTableOf(ws, lib, capacity).value.value;
      && 1 <= t.dateRow < t.avgRow <= ws.maxRow
      && TableRows(ws) == Some((t.dateRow, t.avgRow))
      && t.keep == KeepCols(ws, t.dateRow, t.avgRow) && |t.keep| > 0
      && (forall i, j :: 0 <= i < j < |t.keep| ==> t.keep[i] < t.keep[j])
      && t == TableFrom(ws, lib, capacity, t.dateRow, t.avgRow, t.keep)
  {
    var t := SheetToWordTableOf(ws, lib, capacity).value.value;
    TableRowsShape(ws);
    KeepColsShape(ws, t.dateRow, t.avgRow);
  }
}
