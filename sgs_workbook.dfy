/**
 * SGSData.py `main`, lines 274-288: the walk over the workbook's sheets in order,
 * one report per treatment-stage sheet, stopping after the final stage. The walk
 * does not depend on what a report is, so it is stated for any report type `R`
 * and any per-sheet report function; `AppendSgsSheets` instantiates it with
 * `table_then_two_graphs`.
 */
module SgsWorkbook {
  import opened Wrappers
  import opened Strings
  import opened Cells
  import opened SgsReport

  /** The sheets `main` processes, by lower-cased name (lines 278-279). */
  predicate IsStageSheet(lname: string)
  {
    || ContainsAny(lname, ["raw", "sewage", "biofilter", "waternox", "waternox-ls"])
    || IsLastStage(lname)
  }

  /** The final stage: the walk stops after it (line 287). */
  predicate IsLastStage(lname: string)
  {
    Contains(lname, "final effluent") || Contains(lname, "polisher effluent")
  }

  /** A processed sheet: its position in the workbook, whether a page break went
      before its report (`need_pagebreak`), and the report, None when
      `table_then_two_graphs` returned False. */
  datatype SheetRun<R> = SheetRun(sheet: int, pageBreak: bool, report: Option<R>)

  /** The runs of the loop from sheet i on, `first` being `first_section` there. */
  function RunsFrom<R>(book: seq<(string, Sheet)>, report: (string, Sheet) -> Option<R>, i: nat, first: bool): seq<SheetRun<R>>
    decreases |book| - i
  {
    if i >= |book| then []
    else
      var lname := Lower(book[i].0);
      if !IsStageSheet(lname) then RunsFrom(book, report, i + 1, first)
      else
        var r := report(book[i].0, book[i].1);
        [SheetRun(i, !first, r)] + (if IsLastStage(lname) then [] else RunsFrom(book, report, i + 1, first && r.None?))
  }

  /** The sheet's lower-cased name, "" past the end of the workbook. */
  function LName(book: seq<(string, Sheet)>, j: int): string
  {
    if 0 <= j < |book| then Lower(book[j].0) else ""
  }

  /** The runs from a sheet `main` skips are those from the next sheet. */
  lemma RunsFromSkip<R>(book: seq<(string, Sheet)>, report: (string, Sheet) -> Option<R>, i: nat, first: bool)
    requires i < |book| && !IsStageSheet(LName(book, i))
    ensures RunsFrom(book, report, i, first) == RunsFrom(book, report, i + 1, first)
  {
  }

  /** The runs that follow the run of a stage sheet: none after the final stage. */
  function RestAfter<R>(book: seq<(string, Sheet)>, report: (string, Sheet) -> Option<R>, i: nat, first: bool): seq<SheetRun<R>>
    requires i < |book|
  {
    if IsLastStage(LName(book, i)) then []
    else RunsFrom(book, report, i + 1, first && report(book[i].0, book[i].1).None?)
  }

  /** The runs from a stage sheet: its own run, then the rest. */
  lemma RunsFromStage<R>(book: seq<(string, Sheet)>, report: (string, Sheet) -> Option<R>, i: nat, first: bool)
    requires i < |book| && IsStageSheet(LName(book, i))
    ensures RunsFrom(book, report, i, first)
      == [SheetRun(i, !first, report(book[i].0, book[i].1))] + RestAfter(book, report, i, first)
  {
  }

  /** Every run is for a stage sheet at or after i and carries that sheet's own report. */
  lemma {:induction false} RunsOwnSheets<R>(book: seq<(string, Sheet)>, report: (string, Sheet) -> Option<R>, i: nat, first: bool)
    ensures var runs := RunsFrom(book, report, i, first);
      forall k :: 0 <= k < |runs| ==>
        && i <= runs[k].sheet < |book|
        && IsStageSheet(LName(book, runs[k].sheet))
        && runs[k].report == report(book[runs[k].sheet].0, book[runs[k].sheet].1)
    decreases |book| - i
  {
    if i < |book| {
      if !IsStageSheet(LName(book, i)) {
        RunsFromSkip(book, report, i, first);
        RunsOwnSheets(book, report, i + 1, first);
      } else {
        RunsFromStage(book, report, i, first);
        var rest := RestAfter(book, report, i, first);
        var runs := RunsFrom(book, report, i, first);
        var next := first && report(book[i].0, book[i].1).None?;
        RunsOwnSheets(book, report, i + 1, next);
        forall k | 0 <= k < |runs|
          ensures i <= runs[k].sheet < |book| && IsStageSheet(LName(book, runs[k].sheet))
          ensures runs[k].report == report(book[runs[k].sheet].0, book[runs[k].sheet].1)
        {
          if k > 0 {
            assert !IsLastStage(LName(book, i));
            assert rest == RunsFrom(book, report, i + 1, next);
            assert runs[k] == rest[k - 1];
          } else {
            assert runs[0] == SheetRun(i, !first, report(book[i].0, book[i].1));
          }
        }
      }
    }
  }

  /** The runs are in workbook order. */
  lemma {:induction false} RunsInOrder<R>(book: seq<(string, Sheet)>, report: (string, Sheet) -> Option<R>, i: nat, first: bool)
    ensures var runs := RunsFrom(book, report, i, first);
      forall k, j :: 0 <= k < j < |runs| ==> runs[k].sheet < runs[j].sheet
    decreases |book| - i
  {
    if i < |book| {
      if !IsStageSheet(LName(book, i)) {
        RunsFromSkip(book, report, i, first);
        RunsInOrder(book, report, i + 1, first);
      } else {
        RunsFromStage(book, report, i, first);
        var rest := RestAfter(book, report, i, first);
        var runs := RunsFrom(book, report, i, first);
        var next := first && report(book[i].0, book[i].1).None?;
        RunsInOrder(book, report, i + 1, next);
        forall k, j | 0 <= k < j < |runs| ensures runs[k].sheet < runs[j].sheet {
          assert !IsLastStage(LName(book, i));
          assert rest == RunsFrom(book, report, i + 1, next);
          assert runs[j] == rest[j - 1];
          assert i + 1 <= rest[j - 1].sheet by {
            RunsOwnSheets(book, report, i + 1, next);
          }
          if k > 0 {
            assert runs[k] == rest[k - 1];
          }
        }
      }
    }
  }

  /** Every run is for a stage sheet at or after i, in workbook order, and carries
      that sheet's own report. */
  lemma RunsSheets<R>(book: seq<(string, Sheet)>, report: (string, Sheet) -> Option<R>, i: nat, first: bool)
    ensures var runs := RunsFrom(book, report, i, first);
      && (forall k :: 0 <= k < |runs| ==>
            && i <= runs[k].sheet < |book|
            && IsStageSheet(LName(book, runs[k].sheet))
            && runs[k].report == report(book[runs[k].sheet].0, book[runs[k].sheet].1))
      && (forall k, j :: 0 <= k < j < |runs| ==> runs[k].sheet < runs[j].sheet)
  {
    RunsOwnSheets(book, report, i, first);
    RunsInOrder(book, report, i, first);
  }

  /** Only the last run can be for a final-stage sheet: the walk stops there. */
  lemma {:induction false} RunsStopAtLastStage<R>(book: seq<(string, Sheet)>, report: (string, Sheet) -> Option<R>, i: nat, first: bool)
    ensures var runs := RunsFrom(book, report, i, first);
      forall k :: 0 <= k < |runs| - 1 ==> !IsLastStage(LName(book, runs[k].sheet))
    decreases |book| - i
  {
    if i < |book| {
      if !IsStageSheet(LName(book, i)) {
        RunsFromSkip(book, report, i, first);
        RunsStopAtLastStage(book, report, i + 1, first);
      } else {
        RunsFromStage(book, report, i, first);
        var rest := RestAfter(book, report, i, first);
        var runs := RunsFrom(book, report, i, first);
        if !IsLastStage(LName(book, i)) {
          RunsStopAtLastStage(book, report, i + 1, first && report(book[i].0, book[i].1).None?);
          forall k | 0 <= k < |runs| - 1 ensures !IsLastStage(LName(book, runs[k].sheet)) {
            if k > 0 {
              assert runs[k] == rest[k - 1];
            }
          }
        }
      }
    }
  }

  /** A report is preceded by a page break exactly when a report was written before
      it: `need_pagebreak=not first_section`. */
  lemma {:induction false} RunsPageBreaks<R>(book: seq<(string, Sheet)>, report: (string, Sheet) -> Option<R>, i: nat, first: bool)
    ensures var runs := RunsFrom(book, report, i, first);
      forall k :: 0 <= k < |runs| ==>
        (runs[k].pageBreak <==> !first || exists j :: 0 <= j < k && runs[j].report.Some?)
    decreases |book| - i
  {
    if i < |book| {
      if !IsStageSheet(LName(book, i)) {
        RunsFromSkip(book, report, i, first);
        RunsPageBreaks(book, report, i + 1, first);
      } else {
        RunsFromStage(book, report, i, first);
        var r := report(book[i].0, book[i].1);
        var rest := RestAfter(book, report, i, first);
        var runs := RunsFrom(book, report, i, first);
        if !IsLastStage(LName(book, i)) {
          RunsPageBreaks(book, report, i + 1, first && r.None?);
          assert rest == RunsFrom(book, report, i + 1, first && r.None?);
          forall k | 0 < k < |runs|
            ensures runs[k].pageBreak <==> !first || exists j :: 0 <= j < k && runs[j].report.Some?
          {
            assert runs[k] == rest[k - 1];
            assert runs[0].report == r;
            assert rest[k - 1].pageBreak <==> !(first && r.None?) || exists j :: 0 <= j < k - 1 && rest[j].report.Some?;
            if exists j :: 0 <= j < k - 1 && rest[j].report.Some? {
              var j :| 0 <= j < k - 1 && rest[j].report.Some?;
              assert runs[j + 1] == rest[j];
            }
            if exists j :: 0 <= j < k && runs[j].report.Some? {
              var j :| 0 <= j < k && runs[j].report.Some?;
              if j > 0 {
                assert rest[j - 1] == runs[j];
              }
            }
          }
        }
      }
    }
  }

  /** Every stage sheet from i on that no final-stage sheet precedes gets a run. */
  lemma {:induction false} RunsCoverStages<R>(book: seq<(string, Sheet)>, report: (string, Sheet) -> Option<R>, i: nat, first: bool, j: int)
    requires i <= j < |book| && IsStageSheet(LName(book, j))
    requires forall t :: i <= t < j ==> !IsLastStage(LName(book, t))
    ensures var runs := RunsFrom(book, report, i, first);
      exists k :: 0 <= k < |runs| && runs[k].sheet == j
    decreases |book| - i
  {
    var runs := RunsFrom(book, report, i, first);
    if !IsStageSheet(LName(book, i)) {
      RunsFromSkip(book, report, i, first);
      RunsCoverStages(book, report, i + 1, first, j);
    } else {
      RunsFromStage(book, report, i, first);
      if j == i {
        assert runs[0].sheet == i;
      } else {
        var rest := RestAfter(book, report, i, first);
        RunsCoverStages(book, report, i + 1, first && report(book[i].0, book[i].1).None?, j);
        var k :| 0 <= k < |rest| && rest[k].sheet == j;
        assert runs[k + 1] == rest[k];
      }
    }
  }

  /** Some run wrote a report: `any_done`. */
  predicate AnyReport<R>(runs: seq<SheetRun<R>>)
  {
    exists k :: 0 <= k < |runs| && runs[k].report.Some?
  }

  lemma AnyReportSnoc<R>(runs: seq<SheetRun<R>>, run: SheetRun<R>)
    ensures AnyReport(runs + [run]) <==> AnyReport(runs) || run.report.Some?
  {
    var all := runs + [run];
    if run.report.Some? {
      assert all[|runs|] == run;
    }
    if AnyReport(runs) {
      var k :| 0 <= k < |runs| && runs[k].report.Some?;
      assert all[k] == runs[k];
    }
    if AnyReport(all) {
      var k :| 0 <= k < |all| && all[k].report.Some?;
      if k < |runs| {
        assert all[k] == runs[k];
      }
    }
  }

  /** One sheet's report, as a function of its name and contents. */
  function SheetReport(lib: Library, csv: string, year: int): (string, Sheet) -> Option<Report>
  {
    (name, ws) => ReportOf(ws, lib, name, csv, year)
  }

  /** The sheet loop of `main` for any per-sheet report function; `anyDone` is
      `any_done`. */
  method WalkSheets<R>(book: seq<(string, Sheet)>, report: (string, Sheet) -> Option<R>)
    returns (runs: seq<SheetRun<R>>, anyDone: bool)
    ensures runs == RunsFrom(book, report, 0, true)
    ensures anyDone <==> AnyReport(runs)
  {
    runs := [];
    anyDone := false;
    var first := true;
    var i := 0;
    while i < |book|
      invariant 0 <= i <= |book|
      invariant runs + RunsFrom(book, report, i, first) == RunsFrom(book, report, 0, true)
      invariant anyDone <==> AnyReport(runs)
      invariant first <==> !anyDone
    {
      var name := book[i].0;
      var lname := Lower(name);
      assert lname == LName(book, i);
      if !IsStageSheet(lname) {
        RunsFromSkip(book, report, i, first);
        i := i + 1;
        continue;
      }
      RunsFromStage(book, report, i, first);
      ghost var rest := RestAfter(book, report, i, first);
      var r := report(name, book[i].1);
      ghost var before := runs;
      AnyReportSnoc(runs, SheetRun(i, !first, r));
      runs := runs + [SheetRun(i, !first, r)];
      assert runs + rest == before + RunsFrom(book, report, i, first);
      if r.Some? {
        anyDone := true;
        first := false;
      }
      if IsLastStage(lname) {
        break;
      }
      i := i + 1;
    }
  }

  /** `main`'s walk with `table_then_two_graphs` as the per-sheet report. */
  method AppendSgsSheets(book: seq<(string, Sheet)>, lib: Library, csv: string, year: int)
    returns (runs: seq<SheetRun<Report>>, anyDone: bool)
    ensures runs == RunsFrom(book, SheetReport(lib, csv, year), 0, true)
    ensures anyDone <==> AnyReport(runs)
  {
    runs, anyDone := WalkSheets(book, SheetReport(lib, csv, year));
  }
}
