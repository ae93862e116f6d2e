/**
 * SGSData.py: one sheet's report (`table_then_two_graphs`) and the walk over the
 * workbook (`main`). Writing to the Word document is left out; what is written is
 * kept as a value: the heading, the table and the two graphs.
 */
module SgsReport {
  import opened Wrappers
  import opened Strings
  import opened Stamps
  import opened Cells
  import opened SheetLocators
  import opened SampleRows
  import opened ParamColumns
  import opened TimeSort
  import opened PlotSeries
  import opened VisitWindow

  /** `sheet_name.split(" ", 1)[1] if " " in sheet_name else sheet_name`. */
  function Heading(name: string): string
  {
    match IndexOf(name, ' ')
    case None => name
    case Some(i) => name[i + 1..]
  }

  /** The heading drops the site code: everything up to and including the first
      space; a name without a space is kept whole. */
  lemma HeadingShape(name: string)
    ensures ' ' !in name ==> Heading(name) == name
    ensures ' ' in name ==>
      exists i :: 0 <= i < |name| && name[i] == ' ' && ' ' !in name[..i] && Heading(name) == name[i + 1..]
  {
    var r := IndexOf(name, ' ');
    if r.Some? {
      var i := r.value;
      assert Heading(name) == name[i + 1..];
    }
  }

  /** A table row: the row's date and the cells of the table's columns; their
      rendering as text is not part of this model. */
  datatype TableRow = TableRow(date: Stamp, cells: seq<Cell>)

  /** The table body: `row = [dt.strftime(...)] + [value of each table column]`. */
  function TableOf(ws: Sheet, window: seq<DatedRow>, cols: seq<int>): seq<TableRow>
  {
    seq(|window|, i requires 0 <= i < |window| =>
      TableRow(window[i].date, seq(|cols|, j requires 0 <= j < |cols| => At(ws, window[i].row, cols[j]))))
  }

  /** What `table_then_two_graphs` adds to the document for a sheet it accepts. */
  datatype Report = Report(
    heading: string,
    headers: seq<string>,
    rows: seq<TableRow>,
    graph1: Option<Graph>,
    graph2: Option<Graph>)

  const Graph1Suffix: string := " — cBOD/BOD/TSS (Last 6 Months)"
  const Graph2Suffix: string := " — Nitrogen Species (Last 6 Months)"

  /** Where a sheet's data is: the parameter header row, the date column and the
      dated rows of the six-month window. */
  datatype Located = Located(paramRow: int, dateCol: int, window: seq<DatedRow>)

  /** Lines 153-183 of `table_then_two_graphs`: None where it returns False. */
  function LocateWindow(ws: Sheet, lib: Library, csv: string, year: int): Option<Located>
  {
    match ParamHeaderRow(ws)
    case None => None
    case Some(paramRow) =>
      match DateColumn(ws, lib)
      case None => None
      case Some(dateCol) =>
        var dated := DatedRows(ws, lib, dateCol, DataStart(ws, paramRow), ws.maxRow);
        if dated == [] then None
        else
          var (y, m) := SelectedMonth(MonthTokens(csv), year, dated);
          var window := InWindowRows(dated, y, m);
          if window == [] then None else Some(Located(paramRow, dateCol, window))
  }

  /** The graph of one column group, drawn when the group has columns. */
  function GroupGraph(ws: Sheet, lib: Library, labels: seq<string>, cols: seq<int>, window: seq<DatedRow>, title: string): Option<Graph>
  {
    if cols == [] then None else PlotOf(title, SeriesOf(ws, lib, labels, cols, window))
  }

  /** Lines 185-254: the columns, the table and the two graphs, None where no column
      qualifies. */
  function ReportAt(ws: Sheet, lib: Library, name: string, loc: Located): Option<Report>
  {
    var sel := SelectionOf(ws, loc.paramRow, loc.dateCol, loc.window);
    if sel.allCols == [] then None
    else
      var heading := Heading(name);
      var graph1 := GroupGraph(ws, lib, sel.group1Labels, sel.group1Cols, loc.window, heading + Graph1Suffix);
      var graph2 := GroupGraph(ws, lib, sel.group2Labels, sel.group2Cols, loc.window, heading + Graph2Suffix);
      Some(Report(heading, ["Date"] + sel.allLabels, TableOf(ws, loc.window, sel.allCols), graph1, graph2))
  }

  /** `table_then_two_graphs`: None where it returns False before writing anything. */
  function ReportOf(ws: Sheet, lib: Library, name: string, csv: string, year: int): Option<Report>
  {
    match LocateWindow(ws, lib, csv, year)
    case None => None
    case Some(loc) => ReportAt(ws, lib, name, loc)
  }

  /** `table_then_two_graphs(doc, ws, sheet_name, months_csv, year, ...)`. */
  method TableThenTwoGraphs(ws: Sheet, lib: Library, name: string, csv: string, year: int)
    returns (report: Option<Report>)
    ensures report == ReportOf(ws, lib, name, csv, year)
  {
    var paramRow := FindParamHeaderRow(ws);
    var dateCol := FindDateColumn(ws, lib);
    if paramRow.None? || dateCol.None? {
      return None;
    }
    var startRow := SkipMetaRows(ws, paramRow.value);
    var dated := CollectDatedRows(ws, lib, dateCol.value, startRow);
    if dated == [] {
      return None;
    }
    var tokens := MonthTokens(csv);
    var (selYear, selMonth) := SelectedMonth(tokens, year, dated);
    var window := InWindowRows(dated, selYear, selMonth);
    if window == [] {
      return None;
    }
    assert LocateWindow(ws, lib, csv, year) == Some(Located(paramRow.value, dateCol.value, window));
    report := WriteSheet(ws, lib, name, Located(paramRow.value, dateCol.value, window));
  }

  /** Lines 185-254 as statements. */
  method WriteSheet(ws: Sheet, lib: Library, name: string, loc: Located) returns (report: Option<Report>)
    ensures report == ReportAt(ws, lib, name, loc)
  {
    var window := loc.window;
    var sel := SelectColumns(ws, loc.paramRow, loc.dateCol, window);
    if sel.allCols == [] {
      return None;
    }
    var heading := Heading(name);
    var rows := TableOf(ws, window, sel.allCols);
    var graph1: Option<Graph> := None;
    if sel.group1Cols != [] {
      var series1 := BuildSeries(ws, lib, sel.group1Labels, sel.group1Cols, window);
      if series1 != [] {
        graph1 := PlotSeriesToDoc(heading + Graph1Suffix, series1);
      }
    }
    var graph2: Option<Graph> := None;
    if sel.group2Cols != [] {
      var series2 := BuildSeries(ws, lib, sel.group2Labels, sel.group2Cols, window);
      if series2 != [] {
        graph2 := PlotSeriesToDoc(heading + Graph2Suffix, series2);
      }
    }
    report := Some(Report(heading, ["Date"] + sel.allLabels, rows, graph1, graph2));
  }

  /** The window holds dated rows below the header, all in the six months ending
      with the selected month: with a month in `months_csv`, the last one listed, in
      the year given. */
  lemma LocateWindowShape(ws: Sheet, lib: Library, csv: string, year: int)
    requires LocateWindow(ws, lib, csv, year).Some?
    ensures var loc := LocateWindow(ws, lib, csv, year).value;
      var dated := DatedRows(ws, lib, loc.dateCol, DataStart(ws, loc.paramRow), ws.maxRow);
      var (y, m) := SelectedMonth(MonthTokens(csv), year, dated);
      && Some(loc.paramRow) == ParamHeaderRow(ws)
      && Some(loc.dateCol) == DateColumn(ws, lib)
      && |loc.window| > 0
      && (forall x :: x in loc.window <==> x in dated && InWindow(x.date, y, m))
      && (|MonthTokens(csv)| > 0 ==> (y, m) == (year, MonthTokens(csv)[|MonthTokens(csv)| - 1]))
  {
    var loc := LocateWindow(ws, lib, csv, year).value;
    var dated := DatedRows(ws, lib, loc.dateCol, DataStart(ws, loc.paramRow), ws.maxRow);
    var (y, m) := SelectedMonth(MonthTokens(csv), year, dated);
    InWindowRowsMembers(dated, y, m);
  }

  /** A report's table: a "Date" header, then the header text of each kept column,
      left to right (at least one); one row per window row, holding that row's date
      and its cell in each kept column. */
  ghost predicate TableOfKept(ws: Sheet, loc: Located, headers: seq<string>, rows: seq<TableRow>)
  {
    var cols := SelectionOf(ws, loc.paramRow, loc.dateCol, loc.window).allCols;
    && (forall c :: c in cols <==> 1 <= c <= ws.maxCol && ColumnVerdict(ws, loc.paramRow, loc.dateCol, loc.window, c).Keep?)
    && (forall k, j :: 0 <= k < j < |cols| ==> cols[k] < cols[j])
    && |cols| > 0
    && |headers| == |cols| + 1 && headers[0] == "Date"
    && (forall k :: 0 <= k < |cols| ==> headers[k + 1] == Trim(Text(ws, loc.paramRow, cols[k])))
    && |rows| == |loc.window|
    && forall i :: 0 <= i < |rows| ==>
         && rows[i].date == loc.window[i].date
         && |rows[i].cells| == |cols|
         && forall j :: 0 <= j < |cols| ==> rows[i].cells[j] == At(ws, loc.window[i].row, cols[j])
  }

  lemma ReportTableShape(ws: Sheet, lib: Library, name: string, loc: Located)
    requires ReportAt(ws, lib, name, loc).Some?
    ensures var rep := ReportAt(ws, lib, name, loc).value;
      TableOfKept(ws, loc, rep.headers, rep.rows)
  {
    SelectionShape(ws, loc.paramRow, loc.dateCol, loc.window);
  }

  /** A graph that is drawn has the given title and one line per label, with
      distinct labels, each holding points in time order. */
  predicate DrawsSortedLines(g: Option<Graph>, title: string)
  {
    g.Some? ==>
      && g.value.title == title
      && DistinctKeys(g.value.series)
      && forall i :: 0 <= i < |g.value.series| ==>
           g.value.series[i].points != [] && SortedByTime(g.value.series[i].points)
  }

  lemma GroupGraphShape(ws: Sheet, lib: Library, labels: seq<string>, cols: seq<int>, window: seq<DatedRow>, title: string)
    ensures DrawsSortedLines(GroupGraph(ws, lib, labels, cols, window, title), title)
    ensures DrawnFrom(GroupGraph(ws, lib, labels, cols, window, title), ws, lib, labels, cols, window)
  {
    if cols != [] {
      var g := GroupGraph(ws, lib, labels, cols, window, title);
      assert g == PlotOf(title, SeriesOf(ws, lib, labels, cols, window));
      assert DrawsSortedLines(g, title) by {
        GraphOfSeries(ws, lib, labels, cols, window, title);
      }
      assert DrawnFrom(g, ws, lib, labels, cols, window) by {
        GraphLines(ws, lib, labels, cols, window, title);
      }
    }
  }

  /** A column group of a report: the kept columns whose header key holds one of the
      group's keys, left to right, each labelled by its header text. */
  ghost predicate GroupOfKept(ws: Sheet, loc: Located, keys: seq<string>, cols: seq<int>, labels: seq<string>)
  {
    var all := SelectionOf(ws, loc.paramRow, loc.dateCol, loc.window).allCols;
    && (forall c :: c in cols <==> c in all && ContainsAny(HeaderKey(ws, loc.paramRow, c), keys))
    && (forall k, j :: 0 <= k < j < |cols| ==> cols[k] < cols[j])
    && |labels| == |cols|
    && forall k :: 0 <= k < |cols| ==> labels[k] == Trim(Text(ws, loc.paramRow, cols[k]))
  }

  /** The first graph is drawn from the cBOD/BOD/TSS columns and the second from the
      nitrogen columns, every kept column being in one of them; each is titled by the
      heading with its suffix, with distinct labels and points in time order. */
  lemma ReportGraphsShape(ws: Sheet, lib: Library, name: string, loc: Located)
    requires ReportAt(ws, lib, name, loc).Some?
    ensures var rep := ReportAt(ws, lib, name, loc).value;
      var sel := SelectionOf(ws, loc.paramRow, loc.dateCol, loc.window);
      && rep.heading == Heading(name)
      && GroupOfKept(ws, loc, Group1Keys, sel.group1Cols, sel.group1Labels)
      && GroupOfKept(ws, loc, Group2Keys, sel.group2Cols, sel.group2Labels)
      && (forall c :: c in sel.allCols ==> c in sel.group1Cols || c in sel.group2Cols)
      && DrawsSortedLines(rep.graph1, rep.heading + Graph1Suffix)
      && DrawnFrom(rep.graph1, ws, lib, sel.group1Labels, sel.group1Cols, loc.window)
      && DrawsSortedLines(rep.graph2, rep.heading + Graph2Suffix)
      && DrawnFrom(rep.graph2, ws, lib, sel.group2Labels, sel.group2Cols, loc.window)
  {
    var sel := SelectionOf(ws, loc.paramRow, loc.dateCol, loc.window);
    var heading := Heading(name);
    SelectionShape(ws, loc.paramRow, loc.dateCol, loc.window);
    GroupGraphShape(ws, lib, sel.group1Labels, sel.group1Cols, loc.window, heading + Graph1Suffix);
    GroupGraphShape(ws, lib, sel.group2Labels, sel.group2Cols, loc.window, heading + Graph2Suffix);
  }

  /** A sheet's report: its table as in ReportTableShape, its graphs as in
      ReportGraphsShape. */
  lemma ReportAtShape(ws: Sheet, lib: Library, name: string, loc: Located)
    requires ReportAt(ws, lib, name, loc).Some?
    ensures var rep := ReportAt(ws, lib, name, loc).value;
      var sel := SelectionOf(ws, loc.paramRow, loc.dateCol, loc.window);
      && TableOfKept(ws, loc, rep.headers, rep.rows)
      && rep.heading == Heading(name)
      && GroupOfKept(ws, loc, Group1Keys, sel.group1Cols, sel.group1Labels)
      && GroupOfKept(ws, loc, Group2Keys, sel.group2Cols, sel.group2Labels)
      && (forall c :: c in sel.allCols ==> c in sel.group1Cols || c in sel.group2Cols)
      && DrawsSortedLines(rep.graph1, rep.heading + Graph1Suffix)
      && DrawnFrom(rep.graph1, ws, lib, sel.group1Labels, sel.group1Cols, loc.window)
      && DrawsSortedLines(rep.graph2, rep.heading + Graph2Suffix)
      && DrawnFrom(rep.graph2, ws, lib, sel.group2Labels, sel.group2Cols, loc.window)
  {
    ReportTableShape(ws, lib, name, loc);
    ReportGraphsShape(ws, lib, name, loc);
  }

  /** With a month in `months_csv`, every row of a sheet's table is dated in the six
      months ending with the last month listed there, in the year given. */
  lemma ReportRowsInWindow(ws: Sheet, lib: Library, name: string, csv: string, year: int)
    requires LocateWindow(ws, lib, csv, year).Some?
    requires ReportAt(ws, lib, name, LocateWindow(ws, lib, csv, year).value).Some?
    requires |MonthTokens(csv)| > 0
    ensures var rep := ReportAt(ws, lib, name, LocateWindow(ws, lib, csv, year).value).value;
      var tokens := MonthTokens(csv);
      forall i :: 0 <= i < |rep.rows| ==> InWindow(rep.rows[i].date, year, tokens[|tokens| - 1])
  {
    var loc := LocateWindow(ws, lib, csv, year).value;
    var rep := ReportAt(ws, lib, name, loc).value;
    var tokens := MonthTokens(csv);
    var month := tokens[|tokens| - 1];
    LocateWindowShape(ws, lib, csv, year);
    ReportTableShape(ws, lib, name, loc);
    var dated := DatedRows(ws, lib, loc.dateCol, DataStart(ws, loc.paramRow), ws.maxRow);
    assert SelectedMonth(tokens, year, dated) == (year, month);
    forall i | 0 <= i < |rep.rows| ensures InWindow(rep.rows[i].date, year, month) {
      assert rep.rows[i].date == loc.window[i].date && loc.window[i] in loc.window;
    }
  }
}
