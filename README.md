# Monthly site report: summary, SGS appendix and flow appendix

This project is a Dafny model of the computing core of a small report generator
for wastewater treatment sites. Three Python scripts make up the core:

- `AutoSummary.py` picks a reporting month. It takes the previous visit month
  from the site's visit schedule, walks the calendar from that month to the
  picked one (wrapping past December), and hands the walked month numbers on as
  a comma-separated list (`months_csv`).
- `SGSData.py` writes Appendix A from the laboratory workbook. It walks the
  workbook's sheets in order and keeps only the treatment-stage sheets. For each
  such sheet it:
  - finds the parameter header row and the date column;
  - skips meta rows and collects the dated rows;
  - takes the six calendar months ending at the selected month;
  - keeps the parameter columns that hold numbers in that window;
  - builds a table and two graphs (cBOD/BOD/TSS, and the nitrogen species).

  The walk stops after the final or polisher effluent sheet.
- `FlowData.py` writes Appendix B from the flow workbook. It:
  - reads the peak rated capacity from the report's narrative;
  - for each requested month in ascending order, forms the sheet tag such as
    "Mar 25" and finds the sheets whose names hold it;
  - analyses each such sheet: the Date and Average rows, the kept columns, the
    chart column, the flow series, the exceedances, the by-day chart, and the
    numbers of the summary sentence.

## How the model is built

Rules that apply across the model:

- A sheet is a value: `Cells.Sheet`, a function from (row, column) to a
  `Cells.Cell`, with its `max_row` and `max_column`.
- Every loop of the scripts is a `method` with a `while` loop. It is proved
  equal to a function on its inputs, and the properties the scripts rely on are
  lemmas about those functions.
- Python's `datetime` is `Stamps.Stamp`: the calendar fields plus the
  microseconds of the day. Its comparison, `ym_add`, `month_start` and
  `month_end` are written out. Lemmas such as `YmAddRoundTrip` and
  `BeforeMonthEnd` tie them back to a day count.
- Library calls whose behaviour is not part of the scripts are parameters:
  - `strptime`;
  - openpyxl's `from_excel`;
  - `float()` of a string;
  - the capacity regular expression.
- Dictionaries are sequences of entries with distinct keys. An update keeps an
  existing key's place and appends a new key, as Python's insertion order does.

Each script's `main` does I/O around its core. The model keeps the value the
core computes and leaves out writing the document:

- `SgsWorkbook.AppendSgsSheets` returns, for each processed sheet, the report
  and whether a page break went before it.
- `FlowMonths.AppendFlowData` returns the capacity and one section per
  requested month, or None where `main` raises before saving: a month
  outside -11..12, or a matching sheet whose table has a single row.
- The summary sentence of a flow sheet counts the days exceeded as the code
  does, one per exceedance (`FlowSeries.SummaryAsWritten`). The count over the
  charted days that the code evidently intends is `FlowSeries.SummaryOf`; see
  "## Findings".

## Model

| member | source | states |
|---|---|---|
| VisitWindow.MonthTablesInverse | AutoSummary.py:29-34 | MONTH_TO_NUM and NUM_TO_MONTH are inverse bijections between the twelve full month names and 1..12 |
| VisitWindow.MonthNamesDistinct | AutoSummary.py:29-32 | the twelve names of MONTHS_FULL are pairwise different |
| VisitWindow.IndexOf | AutoSummary.py:74 | `list.index`: None exactly when the value is absent, otherwise the first position holding it |
| VisitWindow.WalkClosedForm | AutoSummary.py:62-68 | the calendar walk from i to e has ((e - i) mod 12) + 1 entries, entry k being month i advanced by k |
| VisitWindow.WalkEnds | AutoSummary.py:64-68 | the walk ends at e, reaches e nowhere earlier, and each entry is the calendar successor of the one before (December to January) |
| VisitWindow.WalkDistinct | AutoSummary.py:62-68 | the walk holds at most twelve months and never repeats one, so the loop terminates |
| VisitWindow.WalkShape | AutoSummary.py:58-69 | the combined walk facts: starts at i, ends at e, steps one month, no repeats, a single month when i == e |
| VisitWindow.WalkNames | AutoSummary.py:62-69 | the `while True` loop yields the names of the calendar walk from start to end |
| VisitWindow.MonthsBetweenInclusive | AutoSummary.py:58-69 | `months_between_inclusive` yields the names of the walk between the two months' numbers |
| VisitWindow.WalkNamesOf | AutoSummary.py:58-69 | the walked names start with the first month's name, end with the last's, name it only there, and step one calendar month with no repeats |
| VisitWindow.WalkNamesShape | AutoSummary.py:58-69 | the same, over month names: the output starts with prev, ends with curr, and has (num(curr) - num(prev)) mod 12 + 1 entries |
| VisitWindow.PreviousVisitMonth | AutoSummary.py:71-77 | None exactly when the current month is not in the schedule, otherwise an entry of the schedule |
| VisitWindow.PreviousVisitMonthAt | AutoSummary.py:74-75 | the predecessor is the entry before the first occurrence, wrapping to the last entry; a one-entry schedule is its own predecessor |
| VisitWindow.MonthSpan | AutoSummary.py:186-190 | the span is the walk from the previous visit, or just the picked month when there is none or it is the empty string |
| VisitWindow.SpanShape | AutoSummary.py:186-190 | the span is never empty, holds month names only, ends with the picked month, starts at the previous visit when that is a non-empty name, and is just the picked month otherwise, in particular when it is not a visit month |
| VisitWindow.MonthNumbersAt | AutoSummary.py:192 | each entry of `month_numbers` is `str()` of the month's number |
| VisitWindow.MonthsCsv | AutoSummary.py:192-193 | `months_csv` is the comma join of the span's month numbers |
| VisitWindow.MonthsCsvTokens | AutoSummary.py:192-193 | splitting `months_csv` on commas gives back one decimal token per span month in walk order, the last being the picked month |
| Strings.SplitJoin | AutoSummary.py:193 | `split` on a one-character separator inverts `join` when no part holds the separator |
| Strings.DigitsOfNat | AutoSummary.py:192 | `int(str(n)) == n` for a non-negative integer |
| Strings.JoinContains | SGSData.py:159 | a key without the separator occurs in a join exactly when it occurs in one of the parts |
| Strings.RemoveChar | FlowData.py:79 | `replace(c, "")` leaves no `c` and never lengthens the string |
| Strings.RemoveCharConcat | FlowData.py:79 | removing `c` from a concatenation removes it from each part and keeps them in order |
| Strings.RemoveCharOne | FlowData.py:79 | a single character is dropped exactly when it is `c`, and kept otherwise |
| Stamps.YmAdd | SGSData.py:38-42 | `ym_add` gives a month in 1..12 whose absolute month index is the input's plus delta |
| Stamps.MonthIndexInjective | SGSData.py:38-42 | an absolute month index names only one (year, month) with the month in 1..12 |
| Stamps.YmAddRoundTrip | SGSData.py:38-42 | stepping back by delta undoes stepping forward by delta |
| Stamps.YmAddCompose | SGSData.py:38-42 | two steps of `ym_add` add up |
| Stamps.YmAddYearBoundary | SGSData.py:38-42 | December plus one month is January of the next year, and January minus one is December of the year before |
| Stamps.YmAddZero | SGSData.py:38-42 | a zero step leaves a month in 1..12 unchanged |
| Stamps.MonthStart | SGSData.py:44-45 | `month_start` is midnight on a real calendar day |
| Stamps.MonthEnd | SGSData.py:47-49 | `month_end` is midnight on a real calendar day, for any month number |
| Stamps.MonthEndOrdinal | SGSData.py:47-49 | `month_end` is the day just before the first day of the following month |
| Stamps.MonthEndIsLastDay | SGSData.py:47-49 | `month_end(y, m)` is midnight on the last day of the month that (y, m) normalises to |
| Stamps.AddDaysOrdinal | SGSData.py:49 | adding a whole number of days with `timedelta` moves the day count by exactly that number |
| Stamps.AfterMonthStart | SGSData.py:179 | a date is at or after `month_start` exactly when its month is not earlier |
| Stamps.BeforeMonthEnd | SGSData.py:180 | a date is at or before `month_end` exactly when its month is earlier, or it is that month and it is not a time after midnight on the last day |
| Stamps.LessEqTotal | SGSData.py:175 | datetime comparison is total and antisymmetric, so `max(dates)` is defined |
| DateCells.ParseDateCell | SGSData.py:51-73 | `parse_date_cell` branch by branch: datetimes as they are, dates at midnight, None for blanks, meta labels and times, the first accepted format for other strings, the spreadsheet serial for numbers with the 1899-12-30 fallback only where `from_excel` raises; any date it returns is valid |
| DateCells.FirstParse | SGSData.py:58-61 | the result is that of the first format `strptime` accepts, None exactly when none does |
| DateCells.FromSerial | SGSData.py:62-70 | the numeric branch returns only valid datetimes when the library does |
| DateCells.RoundHalfEven | SGSData.py:65 | the microseconds of a fractional day are rounded to the nearest whole number |
| DateCells.EpochFallbackOrdinal | SGSData.py:65 | the fallback lands the rounded number of microseconds after 1899-12-30 |
| DateCells.EpochFallbackWholeDays | SGSData.py:65 | a whole serial n lands at midnight, n days after 1899-12-30 |
| Cells.FloatOf | SGSData.py:237 | `float(v)` succeeds on every int and float and raises on None, datetimes, dates and times |
| Cells.NonTextHasNoLetters | SGSData.py:75-77 | in the model, `text()` of an int, date, datetime or time, and the model's decimal form of a float, holds no letter, so no keyword search can match it |
| Scans.CountUpTo | SGSData.py:95-100 | the `hits` loop counts the indices that pass the test |
| Scans.CountAtLeastTwo | SGSData.py:101 | `hits >= 2` exactly when two different columns pass |
| Scans.FirstWhereShape | SGSData.py:94-102 | a first-match search returns an index that passes with none passing before it, or None exactly when none passes |
| Scans.FindFirst | SGSData.py:107-109 | the loop with an early return finds the first index that passes |
| Scans.LastWhereShape | FlowData.py:90-93 | a variable set on every passing index ends as the last such index, or None exactly when none passes |
| Scans.ArgMaxFirst | SGSData.py:111-114 | the strict `>` scan returns a highest score with every earlier column strictly lower, and None only with no column |
| Scans.FirstArgMax | SGSData.py:111-115 | the scoring loop computes that column |
| SheetLocators.FindParamHeaderRow | SGSData.py:92-102 | the nested loops compute the first header row |
| SheetLocators.ParamHeaderRowShape | SGSData.py:92-102 | the header row is the first of the first min(max_row, 80) rows with two parameter cells, None exactly when there is none |
| SheetLocators.HeaderRowByColumns | SGSData.py:94-101 | counting two hits is the same as two different columns whose normalised text holds a parameter key |
| SheetLocators.FindDateColumn | SGSData.py:104-115 | the header search and then the scoring loop compute `find_date_column` |
| SheetLocators.DateHeaderRowIff | SGSData.py:107-109 | a row has a "date" header exactly when one of its first min(max_column, 60) cells holds "date" |
| SheetLocators.FirstDateHeaderRow | SGSData.py:107-109 | the row search stops at the first row of the 60 x 60 box holding a "date" cell |
| SheetLocators.DateColumnFromHeader | SGSData.py:106-109 | with a "date" header, the result is the column of the first one in row-major order |
| SheetLocators.DateColumnFromScores | SGSData.py:110-115 | without one, the result is the first column of highest date score, None exactly when the sheet has no column |
| SheetLocators.RowWords | SGSData.py:159 | the row's words are the lower-cased `text()` of each column |
| SheetLocators.MetaRowByCell | SGSData.py:159-160 | a row is a meta row exactly when one of its cells holds a meta word, as no meta word holds a space |
| SheetLocators.SkipMetaRows | SGSData.py:157-160 | the two-pass loop computes the data start |
| SheetLocators.DataStartShape | SGSData.py:157-160 | the data starts one to three rows below the header, every skipped row is a meta row, and the start is not a meta row unless it is the third row down |
| SampleRows.CollectDatedRows | SGSData.py:163-166 | the loop collects the dated rows from the start row to the last row |
| SampleRows.DatedRowsShape | SGSData.py:163-166 | the collected rows are, in order, exactly the rows whose date cell parses, each with its parsed date |
| SampleRows.DigitTokens | SGSData.py:170 | the tokens are at most as many as the parts |
| SampleRows.DigitTokensOfNumerals | SGSData.py:170 | when every part is a plain decimal numeral, there is one token per part, in order, each part's value |
| SampleRows.DigitTokensConcat | SGSData.py:170 | the tokens of a concatenation of part lists are the tokens of each list, in order |
| SampleRows.DigitTokensOne | SGSData.py:170 | one part gives one token, its stripped value, exactly when its stripped text is all digits, and no token otherwise |
| SampleRows.SummaryCsvSelectsPickedMonth | SGSData.py:170-172 | the `months_csv` handed over by AutoSummary.py yields one token per span month and selects the picked month |
| SampleRows.Latest | SGSData.py:175 | `max(dates)` is one of the dates and no date is later |
| SampleRows.SelectedMonth | SGSData.py:170-176 | the selected month is the last token with the year argument, or else the month of the latest date |
| SampleRows.InWindowByMonth | SGSData.py:178-182 | a date is in the window exactly when its month is one of the six months ending at the selected month, and on the last day it is at midnight |
| SampleRows.InWindowRowsMembers | SGSData.py:182 | `idxs` keeps exactly the dated rows whose date lies in the window |
| SampleRows.InWindowRowsOrdered | SGSData.py:182 | rows in increasing sheet order stay in increasing order |
| ParamColumns.SelectColumns | SGSData.py:186-205 | the column loop computes the selection |
| ParamColumns.ColumnVerdictIff | SGSData.py:188-200 | a column is kept exactly when no `continue` fires: not the date column, a non-empty header that is not "date" and holds no excluded word, a group key, and a number in the window; each group flag is its key test |
| ParamColumns.SelectionShape | SGSData.py:186-204 | the table columns are the kept columns in sheet order, each group holds exactly the kept columns with its keys, in sheet order, every table column is in a group, and every label list is the stripped headers of its columns |
| ParamColumns.PhosphorusColumnSkipped | SGSData.py:28-30 | a "TP" column passes the header search but no group holds its key, so the column loop skips it |
| TimeSort.SortByTimeSorted | SGSData.py:123 | `pts.sort(key=...)` puts the points in time order |
| TimeSort.SortByTimeStable | SGSData.py:123 | the sort is stable: points with the same time keep their order |
| PlotSeries.BuildPoints | SGSData.py:234-238 | the inner loop computes the column's points |
| PlotSeries.PointsShape | SGSData.py:234-238 | the points are, in window order, exactly the window rows whose cell `float()` accepts, each with its row's date and that value |
| PlotSeries.KeyIndexShape | SGSData.py:239 | a key's position is its first entry, None exactly when no entry has that key |
| PlotSeries.PutFacts | SGSData.py:239 | after `d[key] = v` the key finds v, every other key finds what it found before, and the keys stay distinct |
| PlotSeries.CollectSeries | SGSData.py:232-239 | the graph loop over the first n pairs computes the series |
| PlotSeries.BuildSeries | SGSData.py:232-239 | the loop over `zip(labels, cols)` computes the series |
| PlotSeries.SeriesUpToDistinct | SGSData.py:232-239 | the series has distinct labels and no empty entry |
| PlotSeries.SeriesUpToKeys | SGSData.py:232-239 | a label is in the series exactly when some pair with that label has points |
| PlotSeries.SeriesUpToLastWins | SGSData.py:233-239 | under a repeated label the series holds the points of the last pair with that label that has points |
| PlotSeries.PrepareSeries | SGSData.py:120-124 | the clean-up loop computes the cleaned series |
| PlotSeries.CleanedIsSortedEach | SGSData.py:120-124 | cleaning sorts each entry's points by time and drops none when none is empty |
| PlotSeries.CleanedSortsEach | SGSData.py:120-124 | for distinct non-empty entries, the cleaned series has the same labels in the same order, each with its points in time order |
| PlotSeries.PlotSeriesToDoc | SGSData.py:118-125 | no graph for an empty or fully undated series, otherwise the cleaned series under the title |
| PlotSeries.LastWithPointsExists | SGSData.py:232-239 | a label some pair with points carries has a last such pair |
| PlotSeries.SeriesUpToEmpty | SGSData.py:232-240 | the series is empty exactly when no pair has points |
| PlotSeries.SeriesUpToEntry | SGSData.py:232-239 | each series entry holds the points of the last pair with points under its label |
| PlotSeries.SeriesUpToPair | SGSData.py:232-239 | every pair with points has an entry under its label |
| PlotSeries.GraphLineAt | SGSData.py:231-240 | each line of a drawn graph holds, in some order, the points of the last pair with points under its label |
| PlotSeries.GraphPairAt | SGSData.py:231-240 | every pair with points names a line of a drawn graph |
| PlotSeries.GraphLines | SGSData.py:231-240 | a group's graph is drawn exactly when some (label, column) pair has points in the window; each line holds the points of the last such pair under its label; every such pair names a line |
| PlotSeries.GraphOfSeries | SGSData.py:231-240 | a graph is drawn exactly when the built series is not empty; it has the title and one line per series entry, with distinct labels, each line holding that entry's points, none lost, in time order |
| SgsReport.HeadingShape | SGSData.py:212 | the heading drops everything up to and including the first space, or is the whole name when it has none |
| SgsReport.LocateWindowShape | SGSData.py:153-183 | the header row and date column are those the locators find, the window is not empty and holds exactly the dated rows inside the six months ending at the selected month, which is the last token's month when there is one |
| SgsReport.ReportTableShape | SGSData.py:186-225 | there is at least one table column; the columns are exactly the kept columns, in sheet order; the headers are "Date" then each column's stripped header text; there is one row per window row, with that row's date and its cell in each table column |
| SgsReport.GroupGraphShape | SGSData.py:231-240 | a group's graph, when drawn, carries its title and lines with distinct labels and time-ordered points; it is drawn exactly when some (label, column) pair has points in the window, each line holds the points of the last such pair under its label, and every such pair names a line |
| SgsReport.ReportGraphsShape | SGSData.py:186-252 | the heading is the sheet name without its site code; graph 1 is drawn, as in GroupGraphShape, from the kept cBOD/BOD/TSS columns in sheet order, labelled by their headers, and graph 2 likewise from the kept nitrogen columns; every kept column is in one of the groups; each graph has the heading with its suffix as its title |
| SgsReport.ReportAtShape | SGSData.py:185-254 | a sheet's report has both the table of ReportTableShape and the graphs of ReportGraphsShape |
| SgsReport.WriteSheet | SGSData.py:185-254 | the statements after the window compute the report |
| SgsReport.TableThenTwoGraphs | SGSData.py:152-254 | `table_then_two_graphs` computes the sheet's report, None exactly where it returns False |
| SgsReport.ReportRowsInWindow | SGSData.py:170-182 | with a month in `months_csv`, every table row is dated in the six months ending at the last token's month of the year argument |
| SgsWorkbook.RunsOwnSheets | SGSData.py:276-284 | every run is for a stage sheet at or after the start, and carries that sheet's own report |
| SgsWorkbook.RunsInOrder | SGSData.py:276 | runs follow workbook order |
| SgsWorkbook.RunsSheets | SGSData.py:276-284 | the two facts together |
| SgsWorkbook.RunsStopAtLastStage | SGSData.py:286-288 | only the last run can be for a final or polisher effluent sheet |
| SgsWorkbook.RunsPageBreaks | SGSData.py:275-284 | a run gets a page break exactly when an earlier run wrote a report, or the walk did not start as the first section |
| SgsWorkbook.RunsCoverStages | SGSData.py:276-288 | every stage sheet with no final stage before it gets a run |
| SgsWorkbook.WalkSheets | SGSData.py:274-288 | the sheet loop computes the runs, and `any_done` holds exactly when some run wrote a report |
| SgsWorkbook.AppendSgsSheets | SGSData.py:274-288 | `main`'s walk with `table_then_two_graphs` as the per-sheet report |
| FlowCapacity.ExtractPeakCapacity | FlowData.py:71-84 | the paragraph loop computes the capacity of the first paragraph that yields one |
| FlowCapacity.CapacityShape | FlowData.py:76-84 | the capacity is the value of the first paragraph whose match converts, with every earlier paragraph yielding none; None exactly when no paragraph yields one |
| FlowCapacity.NoMatchNoCapacity | FlowData.py:76-84 | no matching paragraph means no capacity |
| FlowLayout.LocateDateAndAverage | FlowData.py:89-101 | the row loop computes the Date row and the Average row |
| FlowLayout.RowScanShape | FlowData.py:89-104 | the Average row is the first row that mentions "average" with a Date row at or above it: no earlier such row has one, so a later Date/Average block is never taken; the Date row is the last Date row at or above it; the guard rejects the scan exactly when no such row exists |
| FlowLayout.FlowRowWordsMembers | FlowData.py:94-98 | every word of the row text comes from a non-empty cell, lower-cased, and every non-empty cell gives one |
| FlowLayout.MentionsAverageByCell | FlowData.py:94-99 | a row mentions "average" exactly when one of its non-empty cells does |
| FlowLayout.TableRowsShape | FlowData.py:89-104 | the table is the sheet's first Date/Average pair: it ends at the first row that mentions "average" with a Date row at or above it, no earlier such row having one, and starts at the last Date row above that; a sheet without such a pair is skipped |
| FlowLayout.KeepColumns | FlowData.py:110-118 | the column loop with its `break` and `continue` computes the kept indices |
| FlowLayout.SelectKeepCols | FlowData.py:109-118 | `keep_cols` of the sheet |
| FlowLayout.KeepOfShape | FlowData.py:110-118 | an index is kept exactly when no column up to it stops the loop and its column passes, in strictly ascending order |
| FlowLayout.KeptAt | FlowData.py:110-118 | a kept index is a column before the stop that is no pump counter and holds a value in the table rows |
| FlowLayout.KeepColsShape | FlowData.py:109-118 | `keep_cols` holds exactly those indices, in strictly ascending order |
| FlowLayout.FindChartColumn | FlowData.py:129-163 | the header pass and the Flow search compute the chart column and the marked column |
| FlowLayout.ChartColumnForShape | FlowData.py:138-163 | values come from the first kept column headed "Flow", or the last kept column; the marked column is the last one headed "Flow", or the last kept column |
| FlowLayout.ChartColumnShape | FlowData.py:138-163 | for the sheet's "Flow" headers: values come from the first kept column headed "Flow", or the last kept column; the marked column is the last one headed "Flow", since each match overwrites it, or the last kept column when none is; the two coincide exactly when no second kept column is headed "Flow" |
| FlowSeries.ParseRowDate | FlowData.py:169-179 | the row's date: a datetime as it is, a truthy value through the first of five formats, otherwise none |
| FlowSeries.BuildFlowSeries | FlowData.py:165-188 | the series loop computes the points and the exceedances |
| FlowSeries.GatherShape | FlowData.py:168-186 | the points are, in row order, one per row whose chart cell converts |
| FlowSeries.FlowPointsShape | FlowData.py:168-186 | every point comes from a table row, carries that row's date, and is `float()` of its chart cell |
| FlowSeries.ExceedancesShape | FlowData.py:187-188 | a point is an exceedance exactly when a capacity is known, the column is marked, and the value is above the capacity |
| FlowSeries.DatedMembers | FlowData.py:198 | the dated pairs are exactly the points' (time, value) where a time is present |
| FlowSeries.ChartDatedShape | FlowData.py:197-200 | with some dated point, each chart day and value comes from a dated point, and every dated point gives a chart entry |
| FlowSeries.DatedAtIndices | FlowData.py:198 | the dated pairs are the dated points, one per point, in point order |
| FlowSeries.ChartDatedOrder | FlowData.py:197-200 | with some dated point, the chart has one entry per dated point, in point order, each that point's day of the month and value |
| FlowSeries.ChartOfShape | FlowData.py:194-200 | the chart has as many days as values; with no dated point the days are 1..n and the values all the points' |
| FlowSeries.ClassifyBands | FlowData.py:238 | an average below 90 % of the capacity is well within, up to the capacity close to, and above it above |
| FlowSeries.ClassifyMonotone | FlowData.py:238 | a larger average never lands in a lower band |
| FlowSeries.MeanAboveHasValueAbove | FlowData.py:237-238 | an average above the capacity needs a charted value above it |
| FlowSeries.SummaryShape | FlowData.py:235-238 | a sentence exists exactly when a capacity is known and the chart has values; its average and band are those of the charted values; its count is positive exactly when a charted value is above the capacity and never exceeds the chart's days; an "above" average implies a positive count |
| FlowSeries.SummaryAsWrittenShape | FlowData.py:235-238 | the sentence as the code writes it exists exactly when a capacity is known and the chart has values; it counts one day per exceedance and gives the chart's mean and band |
| FlowSeries.AverageRowCounted | FlowData.py:235-236 | the count as written reports 2 days exceeded on a one-day chart whose Average row also exceeds |
| FlowSheet.SheetToWordTable | FlowData.py:86-238 | `sheet_to_word_table` computes the sheet's analysis: nothing where it returns early, a failure where the one-row table makes `table.rows[-2]` raise |
| FlowSheet.SheetRaisesShape | FlowData.py:89-144 | the call raises exactly when a column is kept and the Date row itself is the first row mentioning "average", so the table has one row |
| FlowSheet.TableFromShape | FlowData.py:127-238 | the chart reads a kept column, a column is marked, every point comes from a table row as `float()` of its chart cell, the exceedances are the points above the capacity, a sentence exists exactly when a capacity is known and the chart has values, and it reports as many days exceeded as there are exceedances, at most one per point |
| FlowSheet.FlowTableShape | FlowData.py:89-121 | an analysed sheet's table lies between its Date row and a later Average row, over its kept columns in ascending order |
| FlowMonths.SortMonths | FlowData.py:286 | `sorted(months)` keeps the same months with their duplicates |
| FlowMonths.SortMonthsAscending | FlowData.py:286 | the months come out in ascending order |
| FlowMonths.FullMonthName | FlowData.py:287 | `month_names_full[m-1]` is defined exactly for m in -11..12, with Python's negative indices |
| FlowMonths.TwoDigitYearDigits | FlowData.py:288 | from year 10 on, `str(year)[-2:]` is the year's tens and units digits |
| FlowMonths.TitleKeepsCapitalised | FlowData.py:289 | `.title()` leaves a capitalised word as it is |
| FlowMonths.SheetTagOfMonth | FlowData.py:287-289 | the tag is the month name's first three letters, a space, and the two year digits |
| FlowMonths.MatchingSheetsShape | FlowData.py:291 | the matching sheets are, in workbook order, exactly those whose lower-cased name holds the lower-cased tag |
| FlowMonths.MatchSheets | FlowData.py:291 | the comprehension's loop computes them |
| FlowMonths.TablesOfShape | FlowData.py:301-302 | the sheet loop fails exactly when a listed sheet raises; otherwise one table per listed sheet, in the listed order |
| FlowMonths.CollectTables | FlowData.py:301-302 | the per-sheet loop computes them |
| FlowMonths.SectionForShape | FlowData.py:291-302 | a month fails exactly when a sheet whose name holds its tag raises; otherwise it gets an appendix exactly when some sheet's name holds its tag, and its tables are those sheets' |
| FlowMonths.SortedRunShape | FlowData.py:286-302 | for any loop body, the run over the sorted months fails exactly when a month fails; otherwise it has one section per requested month, with duplicates, in ascending order |
| FlowMonths.FlowRunShape | FlowData.py:286-302 | the month loop fails exactly when a requested month is outside -11..12 or one of its matching sheets raises; otherwise it has one section per requested month in ascending order |
| FlowMonths.AppendFlowMonths | FlowData.py:286-302 | the month loop computes the run |
| FlowMonths.AppendMonth | FlowData.py:287-302 | the loop body computes the month's section |
| FlowMonths.FlowDataFails | FlowData.py:286-302 | with `sheet_to_word_table` as the per-sheet call, the run fails exactly when a requested month is outside -11..12 or one of its matching sheets has a one-row table |
| FlowMonths.AppendFlowData | FlowData.py:281-302 | `main` takes the capacity of the narrative and runs the month loop with `sheet_to_word_table` at that capacity |

## Left out

- Rendering is not modelled: the Word document, the styles, the table widths and shading, the page breaks and headings as document content, and the matplotlib images. The red marking of exceedances is also left out, so `chart_col_idx` is kept only as the marked column.
- Text formatting of table cells (`strftime("%d-%b-%y")`, `:g`, `:.0f`) and of the summary sentence is not modelled; the model keeps the values.
- Cells.Display: a float is rendered by its sign, integer part and six decimals, while Python prints the shortest form that round-trips.
- Cells.NonTextHasNoLetters holds for the model's float text only. Python's `str()` of a float uses an exponent below 1e-4 and from 1e16 on (`1e-05`, `1e+16`), and `inf` and `nan` are not reals, so for such floats the text holds letters.
- Boolean cells (`True`, `False`) are not a kind of `Cells.Cell`.
- A capacity so large that `float()` gives `inf`, where `int(peak_capacity)` at FlowData.py:240 raises OverflowError, cannot arise with capacities as reals.
- IEEE floating point: cell numbers, `float()` results, averages and capacities are exact reals.
- String case and white space are ASCII-only: `lower()`, `title()`, `isdigit()` and the regex classes cover ASCII letters and digits. `strip()` and `split()` use Python's full `str.isspace` set (`Strings.IsSpace`).
- Stamps.Valid: the bounds of `datetime` are kept only as the year range 1..9999. An overflow in `month_end` or `ym_add` at year 9999 is not modelled. Nor is the ValueError that `month_start` raises below year 1 (SGSData.py:178-179): with the selected year 1 and month 5 or less, `ym_add(1, m, -5)` falls in year 0, or the year argument itself is below 1, and the model still returns a stamp there.
- `datetime.strptime`, openpyxl's `from_excel` and `float()` of a string are parameters (`Cells.Library`), not definitions.
- The capacity regular expression is a `search` parameter that returns the matched numeric group.
- The parallel lists of the scripts (`dates`/`row_idxs`, `times`/`values`, the column and label lists) are sequences of records.
- An in-place `list.sort` is a function on the sequence.
- Dictionaries are sequences of entries.
- The fallback chart of FlowData.py:305-334, with `made_chart` and `before_shapes`, is not modelled: it only draws an image.
- The search for the heading after which the summary sentence is inserted (FlowData.py:243-255) is not modelled.
- The chart title's month (FlowData.py:216-224) is not modelled.
- The command line and argv parsing, including the month list of FlowData.py:268, are not modelled: the months, `months_csv` and the year are parameters.
- Opening and saving workbooks and documents, `find_latest_docx`, `load_sites`, `find_excel_for`, the GUI, the subprocess calls and the PDF export are not modelled.
- The printed messages are not modelled, except `any_done`.
- FlowSeries.ClassifyBands and FlowSeries.ClassifyMonotone require a non-negative capacity. This holds for every capacity the pattern can produce, and the bands of a negative capacity are not stated.
- FlowMonths.TwoDigitYearDigits and FlowMonths.SheetTagOfMonth are stated only for years from 10 on. FlowMonths.SheetTagOfMonth is also stated only for months 1..12. The tag of other inputs is still defined by `SheetTag`.
- VisitWindow.Span, VisitWindow.MonthSpan, VisitWindow.SpanShape, VisitWindow.MonthsCsv, VisitWindow.MonthsCsvTokens, VisitWindow.MonthsBetweenInclusive and SampleRows.SummaryCsvSelectsPickedMonth require a picked month name, which the GUI's month buttons always give, and (`ValidSchedule`) a predecessor that is a month name when it is present and not empty. Only a predecessor outside the month names makes `months_between_inclusive` raise `KeyError` (AutoSummary.py:60, 186-188); that case is not modelled.

## Findings

| source | as written | input that shows it | evidently intended | confidence | as-written member | corrected member |
|---|---|---|---|---|---|---|
| FlowData.py:235-236 | `exceed_count = len([v for _, v in exceedances])` counts every exceedance, including rows without a date such as the Average row, which the by-day chart drops | a one-day sheet: a datetime row reading 150 and an Average row reading 150, at capacity 100, gives "2 day(s) exceeded" on a chart with one day | count the charted days whose value exceeds the capacity | not executed | FlowSeries.SummaryAsWritten, with the counterexample FlowSeries.AverageRowCounted | FlowSeries.SummaryOf, proved in FlowSeries.SummaryShape |
