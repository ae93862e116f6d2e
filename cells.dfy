/**
 * A worksheet as the scripts see it through openpyxl: a 1-based grid with
 * `max_row` and `max_column`, each cell holding None, a string, an int, a float,
 * a datetime, a date or a time; plus the library calls the core treats as
 * black boxes (`datetime.strptime`, openpyxl's `from_excel`, `float(str)`).
 */
module Cells {
  import opened Wrappers
  import opened Strings
  import opened Stamps

  datatype Cell =
    | Empty                                  // Python None
    | Str(s: string)
    | Int(i: int)
    | Real(x: real)                          // a float; IEEE behaviour is not modelled
    | DateTime(t: Stamp)
    | Date(year: int, month: int, day: int)
    | Time(micro: int)                       // a time of day, microseconds since midnight

  /** Every date-like value in a sheet is one Python could hold. */
  predicate ValidCell(c: Cell)
  {
    match c
    case DateTime(t) => Stamps.Valid(t)
    case Date(y, m, d) => Stamps.Valid(Stamp(y, m, d, 0))
    case Time(us) => 0 <= us < MicrosPerDay
    case _ => true
  }

  /** A worksheet: cells outside `cells` read as None, as openpyxl's do. */
  datatype Sheet = Sheet(maxRow: nat, maxCol: nat, cells: map<(int, int), Cell>)

  function At(ws: Sheet, r: int, c: int): Cell
  {
    if (r, c) in ws.cells then ws.cells[(r, c)] else Empty
  }

  predicate WellFormed(ws: Sheet)
  {
    forall k | k in ws.cells :: ValidCell(ws.cells[k])
  }

  /** What `datetime(1899, 12, 30) + ...`, `strptime` and `from_excel` are taken to be. */
  datatype ExcelValue =
    | Raises                        // the conversion threw
    | AsDateTime(t: Stamp)
    | AsDate(year: int, month: int, day: int)
    | AsTime(micro: int)

  /** The black-box library calls, as parameters of the model. */
  datatype Library = Library(
    strptime: (string, string) -> Option<Stamp>,   // datetime.strptime(text, format), None when it raises
    fromExcel: real -> ExcelValue,                  // openpyxl from_excel(value, CALENDAR_WINDOWS_1900)
    parseFloat: string -> Option<real>)             // float(text), None when it raises

  /** The library returns only values Python can hold. */
  ghost predicate ValidLibrary(lib: Library)
  {
    && (forall s, f :: lib.strptime(s, f).Some? ==> Stamps.Valid(lib.strptime(s, f).value))
    && (forall x :: lib.fromExcel(x).AsDateTime? ==> Stamps.Valid(lib.fromExcel(x).t))
    && (forall x :: lib.fromExcel(x).AsDate? ==>
          Stamps.Valid(Stamp(lib.fromExcel(x).year, lib.fromExcel(x).month, lib.fromExcel(x).day, 0)))
  }

  // ---------------------------------------------------------------------------
  // str(value)

  function Pad(n: nat, width: nat): (s: string)
    ensures forall i :: 0 <= i < |s| ==> IsDigit(s[i])
  {
    var digits := NatToString(n);
    if |digits| >= width then digits else seq(width - |digits|, _ => '0') + digits
  }

  function DayText(y: int, m: int, d: int): string
  {
    (if y < 0 then "-" else "") + Pad(if y < 0 then -y else y, 4) + "-"
      + Pad(if m < 0 then -m else m, 2) + "-" + Pad(if d < 0 then -d else d, 2)
  }

  function TimeText(us: int): string
  {
    var t := if us < 0 then 0 else us;
    var secs := t / 1_000_000;
    Pad(secs / 3600, 2) + ":" + Pad(secs / 60 % 60, 2) + ":" + Pad(secs % 60, 2)
      + (if t % 1_000_000 == 0 then "" else "." + Pad(t % 1_000_000, 6))
  }

  /** A float as its sign, integer part, "." and six decimals. */
  function RealText(x: real): string
  {
    var a := if x < 0.0 then -x else x;
    (if x < 0.0 then "-" else "") + NatToString(a.Floor) + "." + Pad(((a - a.Floor as real) * 1000000.0).Floor, 6)
  }

  /** Python `str(v)`. Strings, ints, dates, datetimes and times are rendered as Python
      renders them; a float is shown as its sign, integer part, "." and six decimals,
      where Python prints the shortest round-tripping form. */
  function Display(c: Cell): string
  {
    match c
    case Empty => "None"
    case Str(s) => s
    case Int(i) => IntToString(i)
    case Real(x) => RealText(x)
    case DateTime(t) => DayText(t.year, t.month, t.day) + " " + TimeText(t.micro)
    case Date(y, m, d) => DayText(y, m, d)
    case Time(us) => TimeText(us)
  }

  /** SGSData.py `text(ws, r, c)`: the cell's string form, stripped; "" for None. */
  function Text(ws: Sheet, r: int, c: int): string
  {
    var v := At(ws, r, c);
    if v.Empty? then "" else Trim(Display(v))
  }

  /** Python truthiness of a cell value (`if value:`). */
  predicate Truthy(c: Cell)
  {
    match c
    case Empty => false
    case Str(s) => s != ""
    case Int(i) => i != 0
    case Real(x) => x != 0.0
    case _ => true
  }

  /** `isinstance(v, (int, float))`. */
  predicate IsNumber(c: Cell)
  {
    c.Int? || c.Real?
  }

  /** `float(v)`, None where Python raises. Strings go through the library's parser. */
  function FloatOf(c: Cell, lib: Library): (r: Option<real>)
    ensures IsNumber(c) ==> r.Some?
    ensures (c.Empty? || c.DateTime? || c.Date? || c.Time?) ==> r.None?
  {
    match c
    case Int(i) => Some(i as real)
    case Real(x) => Some(x)
    case Str(s) => lib.parseFloat(s)
    case _ => None
  }

  predicate NoLetters(s: string)
  {
    forall i :: 0 <= i < |s| ==> !IsLetter(s[i])
  }

  lemma NoLettersConcat(a: string, b: string)
    requires NoLetters(a) && NoLetters(b)
    ensures NoLetters(a + b)
  {
    forall i | 0 <= i < |a + b| ensures !IsLetter((a + b)[i]) {
      if i < |a| { assert (a + b)[i] == a[i]; } else { assert (a + b)[i] == b[i - |a|]; }
    }
  }

  lemma DayTextNoLetters(y: int, m: int, d: int)
    ensures NoLetters(DayText(y, m, d))
  {
    var p1 := (if y < 0 then "-" else "") + Pad(if y < 0 then -y else y, 4);
    NoLettersConcat(if y < 0 then "-" else "", Pad(if y < 0 then -y else y, 4));
    NoLettersConcat(p1, "-");
    NoLettersConcat(p1 + "-", Pad(if m < 0 then -m else m, 2));
    NoLettersConcat(p1 + "-" + Pad(if m < 0 then -m else m, 2), "-");
    NoLettersConcat(p1 + "-" + Pad(if m < 0 then -m else m, 2) + "-", Pad(if d < 0 then -d else d, 2));
  }

  lemma TimeTextNoLetters(us: int)
    ensures NoLetters(TimeText(us))
  {
    var t := if us < 0 then 0 else us;
    var secs := t / 1_000_000;
    var h, mi, se := Pad(secs / 3600, 2), Pad(secs / 60 % 60, 2), Pad(secs % 60, 2);
    var frac := if t % 1_000_000 == 0 then "" else "." + Pad(t % 1_000_000, 6);
    NoLettersConcat(".", Pad(t % 1_000_000, 6));
    NoLettersConcat(h, ":");
    NoLettersConcat(h + ":", mi);
    NoLettersConcat(h + ":" + mi, ":");
    NoLettersConcat(h + ":" + mi + ":", se);
    NoLettersConcat(h + ":" + mi + ":" + se, frac);
  }

  lemma RealTextNoLetters(x: real)
    ensures NoLetters(RealText(x))
  {
    var a := if x < 0.0 then -x else x;
    var sign := if x < 0.0 then "-" else "";
    var whole := NatToString(a.Floor);
    var frac := Pad(((a - a.Floor as real) * 1000000.0).Floor, 6);
    NoLettersConcat(sign, whole);
    NoLettersConcat(sign + whole, ".");
    NoLettersConcat(sign + whole + ".", frac);
  }

  /** The string form of a number, date, datetime or time holds no letter, so no
      keyword search of the scripts can match it. */
  lemma NonTextHasNoLetters(c: Cell)
    requires !c.Str? && !c.Empty?
    ensures NoLetters(Display(c))
  {
    match c
    case Int(i) =>
      if i < 0 { NoLettersConcat("-", NatToString(-i)); }
    case Real(x) => RealTextNoLetters(x);
    case DateTime(t) =>
      var day := DayText(t.year, t.month, t.day);
      DayTextNoLetters(t.year, t.month, t.day);
      TimeTextNoLetters(t.micro);
      NoLettersConcat(day, " ");
      NoLettersConcat(day + " ", TimeText(t.micro));
    case Date(y, m, d) =>
      DayTextNoLetters(y, m, d);
    case Time(us) =>
      TimeTextNoLetters(us);
  }
}
