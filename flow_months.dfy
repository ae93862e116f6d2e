/**
 * FlowData.py `main`, lines 283-338: the peak capacity read once from the report,
 * then, for every requested month in ascending order, the sheets whose name holds
 * the month's "Mmm YY" tag, each turned into a flow table under an
 * "Appendix B" heading. The command line, the opening of the workbook and the
 * document, and the saving of the document are left out; the walk over the months
 * is stated for any per-sheet result `T` and instantiated with
 * `sheet_to_word_table`.
 */
module FlowMonths {
  import opened Wrappers
  import opened Strings
  import opened Cells
  import opened Scans
  import opened VisitWindow
  import opened FlowCapacity
  import opened FlowSheet

  // ---------------------------------------------------------------------------
  // sorted(months)

  predicate Ascending(ms: seq<int>)
  {
    forall i, j :: 0 <= i < j < |ms| ==> ms[i] <= ms[j]
  }

  /** Puts m after every month not greater than it. */
  function InsertMonth(sorted: seq<int>, m: int): (r: seq<int>)
    ensures multiset(r) == multiset(sorted) + multiset{m}
  {
    if sorted == [] then [m]
    else
      var last := sorted[|sorted| - 1];
      var init := sorted[..|sorted| - 1];
      assert sorted == init + [last];
      if last <= m then sorted + [m] else InsertMonth(init, m) + [last]
  }

  /** Python `sorted(months)`: the same months, duplicates kept. */
  function SortMonths(ms: seq<int>): (r: seq<int>)
    ensures multiset(r) == multiset(ms)
  {
    if ms == [] then []
    else
      assert ms == ms[..|ms| - 1] + [ms[|ms| - 1]];
      InsertMonth(SortMonths(ms[..|ms| - 1]), ms[|ms| - 1])
  }

  /** Inserting a month no greater than a bound into months no greater than it
      keeps every month under the bound. */
  lemma InsertMonthBounded(sorted: seq<int>, m: int, b: int)
    requires forall i :: 0 <= i < |sorted| ==> sorted[i] <= b
    requires m <= b
    ensures forall x :: x in InsertMonth(sorted, m) ==> x <= b
  {
    var ins := InsertMonth(sorted, m);
    forall x | x in ins ensures x <= b {
      assert x in multiset(ins);
      if x != m {
        assert x in multiset(sorted);
        var i :| 0 <= i < |sorted| && sorted[i] == x;
      }
    }
  }

  /** An ascending sequence followed by a bound of all its elements is ascending. */
  lemma AscendingThenBound(ins: seq<int>, last: int)
    requires Ascending(ins)
    requires forall x :: x in ins ==> x <= last
    ensures Ascending(ins + [last])
  {
    var r := ins + [last];
    forall i, j | 0 <= i < j < |r| ensures r[i] <= r[j] {
      if j == |ins| {
        assert r[i] in ins;
      } else {
        assert r[i] == ins[i] && r[j] == ins[j];
      }
    }
  }

  lemma {:induction false} InsertMonthAscending(sorted: seq<int>, m: int)
    requires Ascending(sorted)
    ensures Ascending(InsertMonth(sorted, m))
  {
    if sorted != [] {
      var last := sorted[|sorted| - 1];
      var init := sorted[..|sorted| - 1];
      if last > m {
        InsertMonthAscending(init, m);
        InsertMonthBounded(init, m, last);
        AscendingThenBound(InsertMonth(init, m), last);
      }
    }
  }

  /** The months are visited in ascending order. */
  lemma {:induction false} SortMonthsAscending(ms: seq<int>)
    ensures Ascending(SortMonths(ms))
  {
    if ms != [] {
      SortMonthsAscending(ms[..|ms| - 1]);
      InsertMonthAscending(SortMonths(ms[..|ms| - 1]), ms[|ms| - 1]);
    }
  }

  // ---------------------------------------------------------------------------
  // The month's name and the sheet tag

  /** `month_names_full[m-1]`: Python also accepts the negative indices -12..-1,
      so 0 names December and -11 January; None where the index raises IndexError. */
  function FullMonthName(m: int): (r: Option<string>)
    ensures r.Some? <==> -11 <= m <= 12
    ensures IsMonth(m) ==> r == Some(MonthName(m))
    ensures -11 <= m <= 0 ==> r == Some(MonthName(m + 12))
  {
    if 1 <= m <= 12 then Some(MonthsFull[m - 1])
    else if -11 <= m <= 0 then Some(MonthsFull[m + 11])
    else None
  }

  /** `str(year)[-2:]`. */
  function TwoDigitYear(year: int): string
  {
    Suffix(IntToString(year), 2)
  }

  lemma NatToStringLast(n: nat)
    ensures var s := NatToString(n); s[|s| - 1] == DigitChar(n % 10)
  {
  }

  /** The tens and units digits of a year, as characters. */
  function LastTwoDigits(year: int): string
  {
    [DigitChar(year / 10 % 10), DigitChar(year % 10)]
  }

  /** From year 10 on, the tag's year is the year's last two decimal digits. */
  lemma TwoDigitYearDigits(year: int)
    requires year >= 10
    ensures TwoDigitYear(year) == LastTwoDigits(year)
  {
    var head := NatToString(year / 10);
    NatToStringLast(year / 10);
    assert NatToString(year) == head + [DigitChar(year % 10)];
    assert TwoDigitYear(year) == [head[|head| - 1], DigitChar(year % 10)];
  }

  /** A capitalised ASCII word: an upper-case letter, then lower-case ones. */
  predicate Capitalised(s: string)
  {
    |s| > 0 && IsUpper(s[0]) && forall i :: 1 <= i < |s| ==> IsLower(s[i])
  }

  lemma {:induction false} TitleAfterLetterKeepsLower(s: string)
    requires forall i :: 0 <= i < |s| ==> IsLower(s[i])
    ensures TitleAfter(s, true) == s
  {
    if s != [] {
      TitleAfterLetterKeepsLower(s[1..]);
    }
  }

  /** `.title()` leaves a capitalised word as it is. */
  lemma TitleKeepsCapitalised(s: string)
    requires Capitalised(s)
    ensures Title(s) == s
  {
    TitleAfterLetterKeepsLower(s[1..]);
    assert s == [s[0]] + s[1..];
  }

  /** `f"{month_name[:3].title()} {two_digit_year}"`. */
  function SheetTag(name: string, year: int): string
  {
    Title(Prefix(name, 3)) + " " + TwoDigitYear(year)
  }

  /** For a month 1..12 and a year from 10 on, the tag is the month's three-letter
      abbreviation, a space and the year's last two digits: "Mar 24". */
  lemma SheetTagOfMonth(m: int, year: int)
    requires IsMonth(m) && year >= 10
    ensures SheetTag(MonthName(m), year) == MonthName(m)[..3] + " " + LastTwoDigits(year)
  {
    var name := MonthName(m);
    AbbreviationCapitalised(m);
    TitleKeepsCapitalised(name[..3]);
    assert Prefix(name, 3) == name[..3];
    TwoDigitYearDigits(year);
  }

  lemma AbbreviationCapitalised(m: int)
    requires IsMonth(m)
    ensures Capitalised(MonthName(m)[..3])
  {
    assert forall k :: 0 <= k < 12 ==> Capitalised(MonthsFull[k][..3]);
  }

  // ---------------------------------------------------------------------------
  // matching_sheets

  /** Sheet i's lower-cased name holds `key`. */
  function NameHolds(book: seq<(string, Sheet)>, key: string): int -> bool
  {
    i => 0 <= i < |book| && Contains(Lower(book[i].0), key)
  }

  /** `[s for s in wb.sheetnames if target.lower() in s.lower()]`, as sheet positions. */
  function MatchingSheets(book: seq<(string, Sheet)>, target: string): (hits: seq<int>)
    ensures forall k :: 0 <= k < |hits| ==> 0 <= hits[k] < |book|
  {
    var w := Where(NameHolds(book, Lower(target)), 0, |book| - 1);
    WhereIsFilter(NameHolds(book, Lower(target)), 0, |book| - 1);
    assert forall k :: 0 <= k < |w| ==> w[k] in w;
    w
  }

  /** The matching sheets are those whose lower-cased name holds the lower-cased
      target, in workbook order; there is one exactly when some name holds it. */
  lemma MatchingSheetsShape(book: seq<(string, Sheet)>, target: string)
    ensures var hits := MatchingSheets(book, target);
      && (forall j :: j in hits <==> 0 <= j < |book| && Contains(Lower(book[j].0), Lower(target)))
      && (forall k, l :: 0 <= k < l < |hits| ==> hits[k] < hits[l])
      && (hits != [] <==> exists j :: 0 <= j < |book| && Contains(Lower(book[j].0), Lower(target)))
  {
    var hits := MatchingSheets(book, target);
    var holds := NameHolds(book, Lower(target));
    WhereIsFilter(holds, 0, |book| - 1);
    assert forall j :: j in hits <==> holds(j);
    assert hits != [] <==> exists j :: holds(j) by {
      if hits != [] {
        assert hits[0] in hits;
      }
    }
  }

  /** The list comprehension's loop. */
  method MatchSheets(book: seq<(string, Sheet)>, target: string) returns (hits: seq<int>)
    ensures hits == MatchingSheets(book, target)
  {
    var key := Lower(target);
    hits := [];
    var j := 0;
    while j < |book|
      invariant 0 <= j <= |book|
      invariant hits == Where(NameHolds(book, key), 0, j - 1)
    {
      if Contains(Lower(book[j].0), key) {
        hits := hits + [j];
      }
      j := j + 1;
    }
  }

  // ---------------------------------------------------------------------------
  // One month

  /** A matching sheet and what `sheet_to_word_table` made of it. */
  datatype SheetTable<T> = SheetTable(sheet: int, table: T)

  /** What the loop body does for a month it can name: print that no sheet matched
      and go on, or add a page break, the appendix heading and one table per
      matching sheet. */
  datatype MonthSection<T> =
    | NoSheet(month: int, tag: string)
    | Appendix(month: int, tag: string, heading: string, tables: seq<SheetTable<T>>)

  /** `f"Appendix B: Flow Data — {month_name} {year}"`. */
  function AppendixHeading(name: string, year: int): string
  {
    "Appendix B: Flow Data — " + name + " " + IntToString(year)
  }

  /** The per-sheet call on sheet j, with None where it raises. */
  function TableAt<T>(book: seq<(string, Sheet)>, table: Sheet -> Option<T>): int -> Option<SheetTable<T>>
  {
    j => if 0 <= j < |book| && table(book[j].1).Some? then Some(SheetTable(j, table(book[j].1).value)) else None
  }

  /** The tables of the listed sheets, in the listed order; None when one of the
      calls raises. */
  function TablesOf<T>(book: seq<(string, Sheet)>, table: Sheet -> Option<T>, hits: seq<int>): Option<seq<SheetTable<T>>>
  {
    RunAll(TableAt(book, table), hits)
  }

  /** The tables fail exactly when a listed sheet raises; otherwise there is one per
      listed sheet, in the listed order, each that sheet's per-sheet result. */
  lemma TablesOfShape<T>(book: seq<(string, Sheet)>, table: Sheet -> Option<T>, hits: seq<int>)
    requires forall k :: 0 <= k < |hits| ==> 0 <= hits[k] < |book|
    ensures var r := TablesOf(book, table, hits);
      && (r.None? <==> exists k :: 0 <= k < |hits| && table(book[hits[k]].1).None?)
      && (r.Some? ==>
            && |r.value| == |hits|
            && forall k :: 0 <= k < |hits| ==>
                 r.value[k].sheet == hits[k] && Some(r.value[k].table) == table(book[hits[k]].1))
  {
    var at := TableAt(book, table);
    RunAllShape(at, hits);
    forall k | 0 <= k < |hits| ensures at(hits[k]).None? <==> table(book[hits[k]].1).None? {
    }
  }

  /** `for sheet_name in matching_sheets: sheet_to_word_table(wb[sheet_name], ...)`. */
  method CollectTables<T>(book: seq<(string, Sheet)>, table: Sheet -> Option<T>, hits: seq<int>)
    returns (tables: Option<seq<SheetTable<T>>>)
    requires forall k :: 0 <= k < |hits| ==> 0 <= hits[k] < |book|
    ensures tables == TablesOf(book, table, hits)
  {
    var done: seq<SheetTable<T>> := [];
    var k := 0;
    while k < |hits|
      invariant 0 <= k <= |hits|
      invariant TablesOf(book, table, hits[..k]) == Some(done)
    {
      assert hits[..k + 1][..k] == hits[..k];
      var t := table(book[hits[k]].1);
      if t.None? {
        RunAllShape(TableAt(book, table), hits);
        assert TableAt(book, table)(hits[k]).None?;
        return None;
      }
      done := done + [SheetTable(hits[k], t.value)];
      k := k + 1;
    }
    assert hits[..k] == hits;
    tables := Some(done);
  }

  /** Some sheet whose lower-cased name holds the lower-cased tag raises. */
  predicate SheetRaisesFor<T>(book: seq<(string, Sheet)>, table: Sheet -> Option<T>, tag: string)
  {
    exists j :: 0 <= j < |book| && Contains(Lower(book[j].0), Lower(tag)) && table(book[j].1).None?
  }

  /** The loop body for a month once its tag and heading are known; None when a
      matching sheet raises. */
  function SectionFor<T>(book: seq<(string, Sheet)>, table: Sheet -> Option<T>, m: int, tag: string, heading: string): Option<MonthSection<T>>
  {
    var hits := MatchingSheets(book, tag);
    if hits == [] then Some(NoSheet(m, tag))
    else
      match TablesOf(book, table, hits)
      case None => None
      case Some(tables) => Some(Appendix(m, tag, heading, tables))
  }

  /** The month fails exactly when a sheet whose name holds its tag raises.
      Otherwise it gets an appendix exactly when some sheet's name holds its tag,
      whatever the case (see MatchingSheetsShape); the appendix has one table per
      matching sheet, in workbook order, each the per-sheet result of that sheet. */
  lemma SectionForShape<T>(book: seq<(string, Sheet)>, table: Sheet -> Option<T>, m: int, tag: string, heading: string)
    ensures var s := SectionFor(book, table, m, tag, heading);
      var hits := MatchingSheets(book, tag);
      && (s.None? <==> SheetRaisesFor(book, table, tag))
      && (s.Some? ==>
            && s.value.month == m && s.value.tag == tag
            && (s.value.Appendix? <==> exists j :: 0 <= j < |book| && Contains(Lower(book[j].0), Lower(tag)))
            && (s.value.Appendix? ==>
                  && s.value.heading == heading
                  && |s.value.tables| == |hits|
                  && forall k :: 0 <= k < |hits| ==>
                       s.value.tables[k].sheet == hits[k] && Some(s.value.tables[k].table) == table(book[hits[k]].1)))
  {
    var hits := MatchingSheets(book, tag);
    MatchingSheetsShape(book, tag);
    TablesOfShape(book, table, hits);
    var raises := exists k :: 0 <= k < |hits| && table(book[hits[k]].1).None?;
    if raises {
      var k :| 0 <= k < |hits| && table(book[hits[k]].1).None?;
      assert hits[k] in hits;
    }
    if SheetRaisesFor(book, table, tag) {
      var j :| 0 <= j < |book| && Contains(Lower(book[j].0), Lower(tag)) && table(book[j].1).None?;
      assert j in hits;
      var k :| 0 <= k < |hits| && hits[k] == j;
    }
  }

  /** The loop body for month m: None where `month_names_full[m-1]` raises or a
      matching sheet raises. */
  function SectionOf<T>(book: seq<(string, Sheet)>, table: Sheet -> Option<T>, year: int, m: int): Option<MonthSection<T>>
  {
    match FullMonthName(m)
    case None => None
    case Some(name) => SectionFor(book, table, m, SheetTag(name, year), AppendixHeading(name, year))
  }

  function SectionIn<T>(book: seq<(string, Sheet)>, table: Sheet -> Option<T>, year: int): int -> Option<MonthSection<T>>
  {
    m => SectionOf(book, table, year, m)
  }

  // ---------------------------------------------------------------------------
  // All months

  /** A loop over the listed items, in the given order, for any loop body: None
      when the body fails for one of them (it raises, and the loop stops). */
  function RunAll<S>(section: int -> Option<S>, ms: seq<int>): Option<seq<S>>
  {
    if ms == [] then Some([])
    else
      match RunAll(section, ms[..|ms| - 1])
      case None => None
      case Some(done) =>
        match section(ms[|ms| - 1])
        case None => None
        case Some(s) => Some(done + [s])
  }

  lemma {:induction false} RunAllShape<S>(section: int -> Option<S>, ms: seq<int>)
    ensures var r := RunAll(section, ms);
      && (r.None? <==> exists k :: 0 <= k < |ms| && section(ms[k]).None?)
      && (r.Some? ==>
            && |r.value| == |ms|
            && forall k :: 0 <= k < |ms| ==> Some(r.value[k]) == section(ms[k]))
  {
    if ms != [] {
      var init := ms[..|ms| - 1];
      RunAllShape(section, init);
      assert forall k :: 0 <= k < |init| ==> init[k] == ms[k];
      if exists k :: 0 <= k < |init| && section(init[k]).None? {
        var k :| 0 <= k < |init| && section(init[k]).None?;
        assert section(ms[k]).None?;
      }
    }
  }

  /** `for m in sorted(months): ...`; None when a month raises, since `main` then
      stops before `doc.save`. */
  function FlowRunOf<T>(book: seq<(string, Sheet)>, table: Sheet -> Option<T>, months: seq<int>, year: int): Option<seq<MonthSection<T>>>
  {
    RunAll(SectionIn(book, table, year), SortMonths(months))
  }

  /** The months that label the sections, in order. */
  function MonthsOf<S>(monthOf: S -> int, r: seq<S>): (ms: seq<int>)
    ensures |ms| == |r| && forall k :: 0 <= k < |r| ==> ms[k] == monthOf(r[k])
  {
    seq(|r|, k requires 0 <= k < |r| => monthOf(r[k]))
  }

  /** A section's month. */
  function MonthOf<T>(s: MonthSection<T>): int
  {
    s.month
  }

  /** The run over the sorted months fails exactly when the loop body fails for
      a requested month. */
  lemma SortedRunFails<S>(section: int -> Option<S>, months: seq<int>)
    ensures RunAll(section, SortMonths(months)).None? <==> exists m :: m in months && section(m).None?
  {
    var ms := SortMonths(months);
    RunAllShape(section, ms);
    forall m ensures m in months <==> m in ms {
      assert m in months <==> m in multiset(months);
      assert m in ms <==> m in multiset(ms);
    }
    if RunAll(section, ms).None? {
      var k :| 0 <= k < |ms| && section(ms[k]).None?;
      assert ms[k] in ms;
      assert ms[k] in months;
    }
    if exists m :: m in months && section(m).None? {
      var m :| m in months && section(m).None?;
      assert m in ms;
      var k :| 0 <= k < |ms| && ms[k] == m;
      assert section(ms[k]).None?;
    }
  }

  /** For a loop body that labels a month's section with that month, a run that
      does not fail labels its sections with the sorted months. */
  lemma SortedRunMonths<S>(section: int -> Option<S>, monthOf: S -> int, months: seq<int>)
    requires forall m :: section(m).Some? ==> monthOf(section(m).value) == m
    ensures var r := RunAll(section, SortMonths(months));
      r.Some? ==>
        && MonthsOf(monthOf, r.value) == SortMonths(months)
        && forall k :: 0 <= k < |r.value| ==> Some(r.value[k]) == section(monthOf(r.value[k]))
  {
    var ms := SortMonths(months);
    RunAllShape(section, ms);
    var r := RunAll(section, ms);
    if r.Some? {
      forall k | 0 <= k < |ms| ensures monthOf(r.value[k]) == ms[k] {
        assert Some(r.value[k]) == section(ms[k]);
      }
      assert MonthsOf(monthOf, r.value) == ms;
    }
  }

  /** For any loop body that labels a month's section with that month, the run
      over the sorted months fails exactly when the body fails for a requested
      month; otherwise it has one section per requested month, duplicates included,
      in ascending month order, each the body's outcome for its month. */
  lemma SortedRunShape<S>(section: int -> Option<S>, monthOf: S -> int, months: seq<int>)
    requires forall m :: section(m).Some? ==> monthOf(section(m).value) == m
    ensures var r := RunAll(section, SortMonths(months));
      && (r.None? <==> exists m :: m in months && section(m).None?)
      && (r.Some? ==>
            && |r.value| == |months|
            && multiset(MonthsOf(monthOf, r.value)) == multiset(months)
            && (forall k, l :: 0 <= k < l < |r.value| ==> monthOf(r.value[k]) <= monthOf(r.value[l]))
            && forall k :: 0 <= k < |r.value| ==> Some(r.value[k]) == section(monthOf(r.value[k])))
  {
    SortedRunFails(section, months);
    SortedRunMonths(section, monthOf, months);
    SortMonthsAscending(months);
    var r := RunAll(section, SortMonths(months));
    if r.Some? {
      var ms := MonthsOf(monthOf, r.value);
      assert |multiset(ms)| == |multiset(months)|;
      assert forall k :: 0 <= k < |r.value| ==> monthOf(r.value[k]) == ms[k];
    }
  }

  /** Month m raises: `month_names_full[m-1]` is out of range, or a sheet whose
      name holds the month's tag raises. */
  predicate MonthFails<T>(book: seq<(string, Sheet)>, table: Sheet -> Option<T>, year: int, m: int)
  {
    !(-11 <= m <= 12) || SheetRaisesFor(book, table, SheetTag(FullMonthName(m).value, year))
  }

  /** The run fails exactly when a requested month fails; otherwise it has one
      section per requested month, duplicates included, in ascending month order,
      each the loop body's outcome for that month. */
  lemma FlowRunShape<T>(book: seq<(string, Sheet)>, table: Sheet -> Option<T>, months: seq<int>, year: int)
    ensures var r := FlowRunOf(book, table, months, year);
      && (r.None? <==> exists m :: m in months && MonthFails(book, table, year, m))
      && (r.Some? ==>
            && |r.value| == |months|
            && multiset(MonthsOf(MonthOf, r.value)) == multiset(months)
            && (forall k, l :: 0 <= k < l < |r.value| ==> r.value[k].month <= r.value[l].month)
            && forall k :: 0 <= k < |r.value| ==> Some(r.value[k]) == SectionOf(book, table, year, r.value[k].month))
  {
    var section := SectionIn(book, table, year);
    forall m ensures section(m).None? <==> MonthFails(book, table, year, m) {
      assert section(m) == SectionOf(book, table, year, m);
      if -11 <= m <= 12 {
        var name := FullMonthName(m).value;
        SectionForShape(book, table, m, SheetTag(name, year), AppendixHeading(name, year));
      }
    }
    forall m | section(m).Some? ensures section(m).value.month == m {
      var name := FullMonthName(m).value;
      SectionForShape(book, table, m, SheetTag(name, year), AppendixHeading(name, year));
    }
    SortedRunShape(section, MonthOf, months);
  }

  /** The month loop of `main` for any per-sheet result. */
  method AppendFlowMonths<T>(book: seq<(string, Sheet)>, table: Sheet -> Option<T>, months: seq<int>, year: int)
    returns (sections: Option<seq<MonthSection<T>>>)
    ensures sections == FlowRunOf(book, table, months, year)
  {
    var ms := SortMonths(months);
    var done: seq<MonthSection<T>> := [];
    var i := 0;
    while i < |ms|
      invariant 0 <= i <= |ms|
      invariant RunAll(SectionIn(book, table, year), ms[..i]) == Some(done)
    {
      assert ms[..i + 1][..i] == ms[..i];
      var section := AppendMonth(book, table, year, ms[i]);
      assert SectionIn(book, table, year)(ms[i]) == section;
      if section.None? {
        RunAllShape(SectionIn(book, table, year), ms);
        return None;
      }
      done := done + [section.value];
      i := i + 1;
    }
    assert ms[..i] == ms;
    sections := Some(done);
  }

  /** The loop body for month m. */
  method AppendMonth<T>(book: seq<(string, Sheet)>, table: Sheet -> Option<T>, year: int, m: int)
    returns (section: Option<MonthSection<T>>)
    ensures section == SectionOf(book, table, year, m)
  {
    var name := FullMonthName(m);
    if name.None? {
      return None;
    }
    var tag := SheetTag(name.value, year);
    var heading := AppendixHeading(name.value, year);
    var hits := MatchSheets(book, tag);
    if hits == [] {
      section := Some(NoSheet(m, tag));
    } else {
      var tables := CollectTables(book, table, hits);
      if tables.None? {
        return None;
      }
      section := Some(Appendix(m, tag, heading, tables.value));
    }
  }

  /** `sheet_to_word_table` at a given peak capacity, as a per-sheet result. */
  function SheetTables(lib: Library, capacity: Option<real>): Sheet -> Option<Option<FlowTable>>
  {
    ws => SheetToWordTableOf(ws, lib, capacity)
  }

  /** With `sheet_to_word_table` as the per-sheet call, `main` stops before saving
      exactly when a requested month is outside -11..12 or one of its matching
      sheets has a one-row table (see FlowSheet.SheetRaisesShape). */
  lemma FlowDataFails(book: seq<(string, Sheet)>, lib: Library, capacity: Option<real>, months: seq<int>, year: int)
    ensures FlowRunOf(book, SheetTables(lib, capacity), months, year).None? <==>
      exists m :: m in months &&
        (!(-11 <= m <= 12) ||
         exists j :: 0 <= j < |book| && Contains(Lower(book[j].0), Lower(SheetTag(FullMonthName(m).value, year)))
                     && OneRowTable(book[j].1))
  {
    var table := SheetTables(lib, capacity);
    FlowRunShape(book, table, months, year);
    forall ws: Sheet ensures table(ws).None? <==> OneRowTable(ws) {
      SheetRaisesShape(ws, lib, capacity);
    }
  }

  /** `main` once the workbook and the document are open: the peak capacity from the
      document's paragraphs, then the month loop with `sheet_to_word_table` at that
      capacity. */
  method AppendFlowData(book: seq<(string, Sheet)>, lib: Library, paras: seq<string>,
                        search: string -> Option<string>, parseFloat: string -> Option<real>,
                        months: seq<int>, year: int)
    returns (capacity: Option<real>, sections: Option<seq<MonthSection<Option<FlowTable>>>>)
    ensures capacity == CapacityOf(search, parseFloat, paras)
    ensures sections == FlowRunOf(book, SheetTables(lib, capacity), months, year)
  {
    capacity := ExtractPeakCapacity(search, parseFloat, paras);
    sections := AppendFlowMonths(book, SheetTables(lib, capacity), months, year);
  }
}
