/**
 * SGSData.py: how a lab-results sheet is read before anything is extracted:
 * the parameter header row (`find_param_header_row`), the date column
 * (`find_date_column`) and the skip over the meta rows (Units, CofA/ECA
 * objectives and limits) that follow the header.
 */
module SheetLocators {
  import opened Wrappers
  import opened Strings
  import opened Cells
  import opened DateCells
  import opened Scans

  /** PARAM_KEYS (a set in the source; only `any(k in tok ...)` is asked of it). */
  const ParamKeys: seq<string> := ["cbod", "cbod5", "tss", "tp", "tan", "tkn", "no3", "no2", "tn", "bod", "bod5"]

  /** The words whose presence marks a row after the header as a meta row. */
  const MetaRowKeys: seq<string> := ["units", "cofa", "eca", "objective", "limit"]

  // ---------------------------------------------------------------------------
  // find_param_header_row

  /** A cell whose lower-cased text, reduced to [a-z0-9], contains a parameter key. */
  predicate IsParamCell(ws: Sheet, r: int, c: int)
  {
    var s := Lower(Text(ws, r, c));
    s != "" && ContainsAny(KeepAlnum(s), ParamKeys)
  }

  /** Column c of row r is a parameter cell. */
  function ParamCellIn(ws: Sheet, r: int): int -> bool
  {
    c => IsParamCell(ws, r, c)
  }

  /** A row with at least two parameter cells among the first min(max_column, 80) columns. */
  predicate IsHeaderRow(ws: Sheet, r: int)
  {
    Count(ParamCellIn(ws, r), (if ws.maxCol < 80 then ws.maxCol else 80)) >= 2
  }

  function HeaderRowIn(ws: Sheet): int -> bool
  {
    r => IsHeaderRow(ws, r)
  }

  /** What `find_param_header_row(ws)` returns: the first header row among rows
      1..min(max_row, 80), None when there is none. */
  function ParamHeaderRow(ws: Sheet): Option<int>
  {
    FirstWhere(HeaderRowIn(ws), 1, if ws.maxRow < 80 then ws.maxRow else 80)
  }

  /** `find_param_header_row(ws)`: rows in order, `hits` counted over the columns. */
  method FindParamHeaderRow(ws: Sheet) returns (row: Option<int>)
    ensures row == ParamHeaderRow(ws)
  {
    var maxR := if ws.maxRow < 80 then ws.maxRow else 80;
    var maxC := if ws.maxCol < 80 then ws.maxCol else 80;
    var r := 1;
    while r <= maxR
      invariant 1 <= r <= maxR + 1
      invariant ParamHeaderRow(ws) == FirstWhere(HeaderRowIn(ws), r, maxR)
    {
      var hits := CountUpTo(ParamCellIn(ws, r), maxC);
      if hits >= 2 {
        return Some(r);
      }
      r := r + 1;
    }
    return None;
  }

  /** The header row is the first row, within the first 80, that is a header row. */
  lemma ParamHeaderRowShape(ws: Sheet)
    ensures var row := ParamHeaderRow(ws);
      && (row.Some? ==> 1 <= row.value <= 80 && row.value <= ws.maxRow && IsHeaderRow(ws, row.value))
      && (row.Some? ==> forall r :: 1 <= r < row.value ==> !IsHeaderRow(ws, r))
      && (row.None? <==> forall r :: 1 <= r <= 80 && r <= ws.maxRow ==> !IsHeaderRow(ws, r))
  {
    FirstWhereShape(HeaderRowIn(ws), 1, if ws.maxRow < 80 then ws.maxRow else 80);
    assert forall r :: HeaderRowIn(ws)(r) == IsHeaderRow(ws, r);
  }

  /** Counting hits is the same as finding two different parameter columns. */
  lemma HeaderRowByColumns(ws: Sheet, r: int)
    ensures IsHeaderRow(ws, r) <==>
      exists c1, c2 :: 1 <= c1 < c2 <= (if ws.maxCol < 80 then ws.maxCol else 80) && IsParamCell(ws, r, c1) && IsParamCell(ws, r, c2)
  {
    CountAtLeastTwo(ParamCellIn(ws, r), if ws.maxCol < 80 then ws.maxCol else 80);
    assert forall c :: ParamCellIn(ws, r)(c) == IsParamCell(ws, r, c);
  }

  // ---------------------------------------------------------------------------
  // find_date_column

  /** A cell whose lower-cased text contains "date". */
  predicate IsDateHeader(ws: Sheet, r: int, c: int)
  {
    Contains(Lower(Text(ws, r, c)), "date")
  }

  /** Some cell of the 60 x 60 top-left box is a "date" header. */
  predicate HasDateHeader(ws: Sheet)
  {
    exists r, c :: 1 <= r <= (if ws.maxRow < 60 then ws.maxRow else 60) && 1 <= c <= (if ws.maxCol < 60 then ws.maxCol else 60) && IsDateHeader(ws, r, c)
  }

  /** Row r of column c holds a value `parse_date_cell` accepts. */
  function DateCellIn(ws: Sheet, lib: Library, c: int): int -> bool
  {
    r => ParseDateCell(At(ws, r, c), lib).Some?
  }

  /** The fallback score of a column: date-parseable cells in rows 1..min(max_row, 40). */
  function Score(ws: Sheet, lib: Library): int -> nat
  {
    c => Count(DateCellIn(ws, lib, c), (if ws.maxRow < 40 then ws.maxRow else 40))
  }

  /** (r, c) is the first "date" header of the 60 x 60 box in row-major order. */
  predicate FirstDateHeaderAt(ws: Sheet, r: int, c: int)
  {
    && 1 <= r <= (if ws.maxRow < 60 then ws.maxRow else 60) && 1 <= c <= (if ws.maxCol < 60 then ws.maxCol else 60) && IsDateHeader(ws, r, c)
    && (forall r', c' :: 1 <= r' < r && 1 <= c' <= (if ws.maxCol < 60 then ws.maxCol else 60) ==> !IsDateHeader(ws, r', c'))
    && (forall c' :: 1 <= c' < c ==> !IsDateHeader(ws, r, c'))
  }

  /** c has the highest score among the first min(max_column, 60) columns and every
      earlier column scores strictly less. */
  predicate IsBestColumn(ws: Sheet, lib: Library, c: int)
  {
    && 1 <= c <= (if ws.maxCol < 60 then ws.maxCol else 60)
    && (forall c' :: 1 <= c' <= (if ws.maxCol < 60 then ws.maxCol else 60) ==> Score(ws, lib)(c') <= Score(ws, lib)(c))
    && (forall c' :: 1 <= c' < c ==> Score(ws, lib)(c') < Score(ws, lib)(c))
  }

  function DateHeaderIn(ws: Sheet, r: int): int -> bool
  {
    c => IsDateHeader(ws, r, c)
  }

  /** Row r has a "date" header among the first min(max_column, 60) columns. */
  function DateHeaderRowIn(ws: Sheet): int -> bool
  {
    r => FirstWhere(DateHeaderIn(ws, r), 1, if ws.maxCol < 60 then ws.maxCol else 60).Some?
  }

  /** What `find_date_column(ws)` returns: the column of the first "date" header of the
      60 x 60 box in row-major order; failing that, the first column of highest score
      among the first min(max_column, 60). */
  function DateColumn(ws: Sheet, lib: Library): Option<int>
  {
    var maxC := if ws.maxCol < 60 then ws.maxCol else 60;
    var r := FirstWhere(DateHeaderRowIn(ws), 1, if ws.maxRow < 60 then ws.maxRow else 60);
    if r.Some? then FirstWhere(DateHeaderIn(ws, r.value), 1, maxC)
    else ArgMaxFirst(Score(ws, lib), maxC)
  }

  /** `find_date_column(ws)`: the nested header search, then the scoring loop. */
  method FindDateColumn(ws: Sheet, lib: Library) returns (col: Option<int>)
    ensures col == DateColumn(ws, lib)
  {
    var maxR := if ws.maxRow < 60 then ws.maxRow else 60;
    var maxC := if ws.maxCol < 60 then ws.maxCol else 60;
    var r := 1;
    while r <= maxR
      invariant 1 <= r <= maxR + 1
      invariant FirstWhere(DateHeaderRowIn(ws), 1, maxR) == FirstWhere(DateHeaderRowIn(ws), r, maxR)
    {
      var found := FindFirst(DateHeaderIn(ws, r), 1, maxC);
      if found.Some? {
        return found;
      }
      r := r + 1;
    }
    col := FirstArgMax(Score(ws, lib), maxC);
  }

  lemma DateHeaderRowIff(ws: Sheet, r: int)
    ensures DateHeaderRowIn(ws)(r) <==>
      exists c :: 1 <= c <= (if ws.maxCol < 60 then ws.maxCol else 60) && IsDateHeader(ws, r, c)
  {
    FirstWhereShape(DateHeaderIn(ws, r), 1, if ws.maxCol < 60 then ws.maxCol else 60);
    assert forall c :: DateHeaderIn(ws, r)(c) == IsDateHeader(ws, r, c);
  }

  /** A "date" header wins: the column of the first one, scanning rows and, within a
      row, columns of the 60 x 60 box. */
  lemma DateColumnFromHeader(ws: Sheet, lib: Library)
    requires HasDateHeader(ws)
    ensures DateColumn(ws, lib).Some?
    ensures exists r :: FirstDateHeaderAt(ws, r, DateColumn(ws, lib).value)
  {
    var maxC := if ws.maxCol < 60 then ws.maxCol else 60;
    FirstDateHeaderRow(ws);
    var r := FirstWhere(DateHeaderRowIn(ws), 1, if ws.maxRow < 60 then ws.maxRow else 60).value;
    FirstWhereShape(DateHeaderIn(ws, r), 1, maxC);
    assert forall c :: DateHeaderIn(ws, r)(c) == IsDateHeader(ws, r, c);
    assert FirstDateHeaderAt(ws, r, DateColumn(ws, lib).value);
  }

  /** The row search finds the first row of the box holding a "date" header. */
  lemma FirstDateHeaderRow(ws: Sheet)
    requires HasDateHeader(ws)
    ensures var maxR := if ws.maxRow < 60 then ws.maxRow else 60;
      var r := FirstWhere(DateHeaderRowIn(ws), 1, maxR);
      && r.Some? && 1 <= r.value <= maxR && DateHeaderRowIn(ws)(r.value)
      && forall r', c' :: 1 <= r' < r.value && 1 <= c' <= (if ws.maxCol < 60 then ws.maxCol else 60) ==>
           !IsDateHeader(ws, r', c')
  {
    var maxR := if ws.maxRow < 60 then ws.maxRow else 60;
    var maxC := if ws.maxCol < 60 then ws.maxCol else 60;
    var r1, c1 :| 1 <= r1 <= maxR && 1 <= c1 <= maxC && IsDateHeader(ws, r1, c1);
    DateHeaderRowIff(ws, r1);
    FirstWhereShape(DateHeaderRowIn(ws), 1, maxR);
    var r := FirstWhere(DateHeaderRowIn(ws), 1, maxR).value;
    forall r', c' | 1 <= r' < r && 1 <= c' <= maxC
      ensures !IsDateHeader(ws, r', c')
    {
      DateHeaderRowIff(ws, r');
    }
  }

  /** Without a "date" header: the first column of highest score (the comparison is a
      strict `>`, so a tie goes to the earlier column); None only when the sheet has
      no column. */
  lemma DateColumnFromScores(ws: Sheet, lib: Library)
    requires !HasDateHeader(ws)
    ensures DateColumn(ws, lib).None? <==> ws.maxCol == 0
    ensures DateColumn(ws, lib).Some? ==> IsBestColumn(ws, lib, DateColumn(ws, lib).value)
  {
    var maxR := if ws.maxRow < 60 then ws.maxRow else 60;
    FirstWhereShape(DateHeaderRowIn(ws), 1, maxR);
    forall r' | 1 <= r' <= maxR
      ensures !DateHeaderRowIn(ws)(r')
    {
      DateHeaderRowIff(ws, r');
    }
  }

  // ---------------------------------------------------------------------------
  // The meta-row skip after the header row

  /** `text(ws, r, c).lower()` for c in 1..max_column. */
  function RowWords(ws: Sheet, r: int): (words: seq<string>)
    ensures |words| == ws.maxCol
    ensures forall c :: 1 <= c <= ws.maxCol ==> words[c - 1] == Lower(Text(ws, r, c))
  {
    seq(ws.maxCol, i => Lower(Text(ws, r, i + 1)))
  }

  /** `" ".join(text(ws, r, c).lower() for c in range(1, max_column + 1))`. */
  function RowText(ws: Sheet, r: int): string
  {
    Join(RowWords(ws, r), ' ')
  }

  /** A row whose joined text contains one of the meta words. */
  predicate IsMetaRow(ws: Sheet, r: int)
  {
    ContainsAny(RowText(ws, r), MetaRowKeys)
  }

  lemma MetaRowKeysPlain()
    ensures forall j | 0 <= j < |MetaRowKeys| :: ' ' !in MetaRowKeys[j] && |MetaRowKeys[j]| > 0
  {
  }

  /** Since no meta word holds a space, a row is a meta row exactly when one of its
      cells, lower-cased, contains a meta word. */
  lemma MetaRowByCell(ws: Sheet, r: int)
    ensures IsMetaRow(ws, r) <==>
      exists c, j :: 1 <= c <= ws.maxCol && 0 <= j < |MetaRowKeys| && Contains(Lower(Text(ws, r, c)), MetaRowKeys[j])
  {
    var words := RowWords(ws, r);
    assert IsMetaRow(ws, r) <==>
      exists i, j :: 0 <= i < |words| && 0 <= j < |MetaRowKeys| && Contains(words[i], MetaRowKeys[j]) by {
      MetaRowKeysPlain();
      JoinContainsAny(words, ' ', MetaRowKeys);
    }
    if IsMetaRow(ws, r) {
      var i, j :| 0 <= i < |words| && 0 <= j < |MetaRowKeys| && Contains(words[i], MetaRowKeys[j]);
      assert words[(i + 1) - 1] == Lower(Text(ws, r, i + 1));
    }
    if exists c, j :: 1 <= c <= ws.maxCol && 0 <= j < |MetaRowKeys| && Contains(Lower(Text(ws, r, c)), MetaRowKeys[j]) {
      var c, j :| 1 <= c <= ws.maxCol && 0 <= j < |MetaRowKeys| && Contains(Lower(Text(ws, r, c)), MetaRowKeys[j]);
      assert Contains(words[c - 1], MetaRowKeys[j]);
    }
  }

  /** The first data row after `param_row + 1`, skipping up to two meta rows. */
  function DataStart(ws: Sheet, paramRow: int): int
  {
    if !IsMetaRow(ws, paramRow + 1) then paramRow + 1
    else if !IsMetaRow(ws, paramRow + 2) then paramRow + 2
    else paramRow + 3
  }

  /** `start_row = param_row + 1; for _ in range(2): ...` */
  method SkipMetaRows(ws: Sheet, paramRow: int) returns (startRow: int)
    ensures startRow == DataStart(ws, paramRow)
  {
    startRow := paramRow + 1;
    var k := 0;
    while k < 2
      invariant 0 <= k <= 2
      invariant k == 0 ==> startRow == paramRow + 1
      invariant k == 1 ==> startRow == (if IsMetaRow(ws, paramRow + 1) then paramRow + 2 else paramRow + 1)
      invariant k == 2 ==> startRow == DataStart(ws, paramRow)
    {
      var rowText := RowText(ws, startRow);
      if ContainsAny(rowText, MetaRowKeys) {
        startRow := startRow + 1;
      }
      k := k + 1;
    }
  }

  /** The data start lies one to three rows below the header, every row skipped is a
      meta row, and the data start itself is either not a meta row or the third row down. */
  lemma DataStartShape(ws: Sheet, paramRow: int)
    ensures paramRow + 1 <= DataStart(ws, paramRow) <= paramRow + 3
    ensures forall r :: paramRow + 1 <= r < DataStart(ws, paramRow) ==> IsMetaRow(ws, r)
    ensures DataStart(ws, paramRow) == paramRow + 3 || !IsMetaRow(ws, DataStart(ws, paramRow))
  {
  }
}
