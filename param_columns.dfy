/**
 * SGSData.py `table_then_two_graphs`, lines 185-205: which parameter columns the
 * table shows and which of them each of the two graphs plots.
 */
module ParamColumns {
  import opened Strings
  import opened Cells
  import opened Scans
  import opened SampleRows

  /** GROUP1_KEYS (graph 1: cBOD, BOD, TSS); a set in the source, only searched. */
  const Group1Keys: seq<string> := ["cbod5", "bod5", "tss", "cbod", "bod"]

  /** GROUP2_KEYS (graph 2: nitrogen species). */
  const Group2Keys: seq<string> := ["tkn", "tan", "no2", "no3", "tn"]

  /** EXCLUDE_HDR_WORDS. */
  const ExcludeHeaderWords: seq<string> := ["units", "objective", "limit", "average", "median", "cofa", "eca"]

  /** What the loop does with one column: skip it, or keep it for the table and
      for the graphs whose keys its header holds. */
  datatype Verdict = Skip | Keep(inGroup1: bool, inGroup2: bool)

  /** `has_num`: some row of the window holds an int or a float in column c. */
  predicate HasNumber(ws: Sheet, window: seq<DatedRow>, c: int)
  {
    exists k :: 0 <= k < |window| && IsNumber(At(ws, window[k].row, c))
  }

  /** The header normalised as on line 192. */
  function HeaderKey(ws: Sheet, paramRow: int, c: int): string
  {
    KeepAlnum(Lower(Text(ws, paramRow, c)))
  }

  /** One pass of the column loop, each `continue` a Skip. */
  function ColumnVerdict(ws: Sheet, paramRow: int, dateCol: int, window: seq<DatedRow>, c: int): Verdict
  {
    if c == dateCol then Skip
    else if Text(ws, paramRow, c) == "" then Skip
    else
      var norm := HeaderKey(ws, paramRow, c);
      if norm == "" || norm == "date" || ContainsAny(norm, ExcludeHeaderWords) then Skip
      else
        var inG1 := ContainsAny(norm, Group1Keys);
        var inG2 := ContainsAny(norm, Group2Keys);
        if !(inG1 || inG2) then Skip
        else if !HasNumber(ws, window, c) then Skip
        else Keep(inG1, inG2)
  }

  function KeptIn(ws: Sheet, paramRow: int, dateCol: int, window: seq<DatedRow>): int -> bool
  {
    c => ColumnVerdict(ws, paramRow, dateCol, window, c).Keep?
  }

  function Group1In(ws: Sheet, paramRow: int, dateCol: int, window: seq<DatedRow>): int -> bool
  {
    c => var v := ColumnVerdict(ws, paramRow, dateCol, window, c); v.Keep? && v.inGroup1
  }

  function Group2In(ws: Sheet, paramRow: int, dateCol: int, window: seq<DatedRow>): int -> bool
  {
    c => var v := ColumnVerdict(ws, paramRow, dateCol, window, c); v.Keep? && v.inGroup2
  }

  /** `raw.strip()` of each chosen column's header. */
  function Labels(ws: Sheet, paramRow: int, cols: seq<int>): seq<string>
  {
    seq(|cols|, k requires 0 <= k < |cols| => Trim(Text(ws, paramRow, cols[k])))
  }

  lemma LabelsAppend(ws: Sheet, paramRow: int, cols: seq<int>, c: int)
    ensures Labels(ws, paramRow, cols + [c]) == Labels(ws, paramRow, cols) + [Trim(Text(ws, paramRow, c))]
  {
  }

  /** The six lists the loop builds. */
  datatype Selection = Selection(
    allCols: seq<int>, allLabels: seq<string>,
    group1Cols: seq<int>, group1Labels: seq<string>,
    group2Cols: seq<int>, group2Labels: seq<string>)

  function SelectionOf(ws: Sheet, paramRow: int, dateCol: int, window: seq<DatedRow>): Selection
  {
    var all := Where(KeptIn(ws, paramRow, dateCol, window), 1, ws.maxCol);
    var g1 := Where(Group1In(ws, paramRow, dateCol, window), 1, ws.maxCol);
    var g2 := Where(Group2In(ws, paramRow, dateCol, window), 1, ws.maxCol);
    Selection(all, Labels(ws, paramRow, all), g1, Labels(ws, paramRow, g1), g2, Labels(ws, paramRow, g2))
  }

  /** The column loop of lines 186-204. */
  method SelectColumns(ws: Sheet, paramRow: int, dateCol: int, window: seq<DatedRow>) returns (sel: Selection)
    ensures sel == SelectionOf(ws, paramRow, dateCol, window)
  {
    var allCols, allLabels, g1Cols, g1Labels, g2Cols, g2Labels := [], [], [], [], [], [];
    var c := 1;
    while c <= ws.maxCol
      invariant 1 <= c <= ws.maxCol + 1
      invariant allCols == Where(KeptIn(ws, paramRow, dateCol, window), 1, c - 1)
      invariant g1Cols == Where(Group1In(ws, paramRow, dateCol, window), 1, c - 1)
      invariant g2Cols == Where(Group2In(ws, paramRow, dateCol, window), 1, c - 1)
      invariant allLabels == Labels(ws, paramRow, allCols)
      invariant g1Labels == Labels(ws, paramRow, g1Cols)
      invariant g2Labels == Labels(ws, paramRow, g2Cols)
    {
      var v := ColumnVerdict(ws, paramRow, dateCol, window, c);
      if v.Keep? {
        var name := Trim(Text(ws, paramRow, c));
        LabelsAppend(ws, paramRow, allCols, c);
        allCols, allLabels := allCols + [c], allLabels + [name];
        if v.inGroup1 {
          LabelsAppend(ws, paramRow, g1Cols, c);
          g1Cols, g1Labels := g1Cols + [c], g1Labels + [name];
        }
        if v.inGroup2 {
          LabelsAppend(ws, paramRow, g2Cols, c);
          g2Cols, g2Labels := g2Cols + [c], g2Labels + [name];
        }
      }
      c := c + 1;
    }
    sel := Selection(allCols, allLabels, g1Cols, g1Labels, g2Cols, g2Labels);
  }

  /** A column is kept exactly when it is not the date column, its header is not
      blank, its normalised header is neither empty nor "date" and holds no excluded
      word but some key of a group, and some window row holds a number in it; the
      verdict then records which groups' keys the header holds. */
  lemma ColumnVerdictIff(ws: Sheet, paramRow: int, dateCol: int, window: seq<DatedRow>, c: int)
    ensures var v := ColumnVerdict(ws, paramRow, dateCol, window, c);
      var norm := HeaderKey(ws, paramRow, c);
      && (v.Keep? <==>
        && c != dateCol && Text(ws, paramRow, c) != ""
        && norm != "" && norm != "date"
        && (forall j :: 0 <= j < |ExcludeHeaderWords| ==> !Contains(norm, ExcludeHeaderWords[j]))
        && ((exists j :: 0 <= j < |Group1Keys| && Contains(norm, Group1Keys[j]))
            || (exists j :: 0 <= j < |Group2Keys| && Contains(norm, Group2Keys[j])))
        && HasNumber(ws, window, c))
      && (v.Keep? ==> v.inGroup1 == ContainsAny(norm, Group1Keys) && v.inGroup2 == ContainsAny(norm, Group2Keys))
  {
    var norm := HeaderKey(ws, paramRow, c);
    ContainsAnyIff(norm, ExcludeHeaderWords);
    ContainsAnyIff(norm, Group1Keys);
    ContainsAnyIff(norm, Group2Keys);
  }

  /** The table's columns are the kept columns in sheet order; graph 1 plots exactly
      the kept ones whose header holds a group-1 key, graph 2 those with a group-2
      key, every table column is in at least one graph, and each label is its
      column's header. */
  lemma SelectionShape(ws: Sheet, paramRow: int, dateCol: int, window: seq<DatedRow>)
    ensures var sel := SelectionOf(ws, paramRow, dateCol, window);
      && (forall c :: c in sel.allCols <==> 1 <= c <= ws.maxCol && ColumnVerdict(ws, paramRow, dateCol, window, c).Keep?)
      && (forall c :: c in sel.group1Cols <==> c in sel.allCols && ContainsAny(HeaderKey(ws, paramRow, c), Group1Keys))
      && (forall c :: c in sel.group2Cols <==> c in sel.allCols && ContainsAny(HeaderKey(ws, paramRow, c), Group2Keys))
      && (forall c :: c in sel.allCols ==> c in sel.group1Cols || c in sel.group2Cols)
      && (forall k, j :: 0 <= k < j < |sel.allCols| ==> sel.allCols[k] < sel.allCols[j])
      && |sel.allLabels| == |sel.allCols|
      && (forall k :: 0 <= k < |sel.allCols| ==> sel.allLabels[k] == Trim(Text(ws, paramRow, sel.allCols[k])))
      && (forall k, j :: 0 <= k < j < |sel.group1Cols| ==> sel.group1Cols[k] < sel.group1Cols[j])
      && (forall k, j :: 0 <= k < j < |sel.group2Cols| ==> sel.group2Cols[k] < sel.group2Cols[j])
      && |sel.group1Labels| == |sel.group1Cols| && |sel.group2Labels| == |sel.group2Cols|
      && (forall k :: 0 <= k < |sel.group1Cols| ==> sel.group1Labels[k] == Trim(Text(ws, paramRow, sel.group1Cols[k])))
      && (forall k :: 0 <= k < |sel.group2Cols| ==> sel.group2Labels[k] == Trim(Text(ws, paramRow, sel.group2Cols[k])))
  {
    var kept := KeptIn(ws, paramRow, dateCol, window);
    var g1 := Group1In(ws, paramRow, dateCol, window);
    var g2 := Group2In(ws, paramRow, dateCol, window);
    WhereIsFilter(kept, 1, ws.maxCol);
    WhereIsFilter(g1, 1, ws.maxCol);
    WhereIsFilter(g2, 1, ws.maxCol);
    forall c ensures kept(c) == ColumnVerdict(ws, paramRow, dateCol, window, c).Keep? {
    }
    forall c | kept(c) ensures g1(c) == ContainsAny(HeaderKey(ws, paramRow, c), Group1Keys)
      && g2(c) == ContainsAny(HeaderKey(ws, paramRow, c), Group2Keys) && (g1(c) || g2(c)) {
      ColumnVerdictIff(ws, paramRow, dateCol, window, c);
    }
    forall c | !kept(c) ensures !g1(c) && !g2(c) {
    }
  }

  lemma PhosphorusKey()
    ensures KeepAlnum(Lower("TP")) == "tp"
  {
    assert Lower("TP") == "tp";
    assert "tp"[1..] == "p" && "p"[1..] == "";
  }

  lemma PhosphorusInNoGroup()
    ensures !ContainsAny("tp", Group1Keys) && !ContainsAny("tp", Group2Keys)
  {
    ContainsAnyIff("tp", Group1Keys);
    ContainsAnyIff("tp", Group2Keys);
    forall j | 0 <= j < |Group1Keys| ensures !Contains("tp", Group1Keys[j]) {
      assert |Group1Keys[j]| > 2;
    }
    forall j | 0 <= j < |Group2Keys| ensures !Contains("tp", Group2Keys[j]) {
      if j == 4 {
        assert "tp"[0..2][1] != "tn"[1];
      } else {
        assert |Group2Keys[j]| > 2;
      }
    }
  }

  /** A total-phosphorus column (header "TP") is a parameter the header search
      counts, but neither graph's keys match it, so it is never shown. */
  lemma PhosphorusColumnSkipped(ws: Sheet, paramRow: int, dateCol: int, window: seq<DatedRow>, c: int)
    requires Text(ws, paramRow, c) == "TP"
    ensures ColumnVerdict(ws, paramRow, dateCol, window, c) == Skip
  {
    PhosphorusKey();
    PhosphorusInNoGroup();
  }
}
