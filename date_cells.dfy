/**
 * SGSData.py `parse_date_cell`: turns a cell of any kind into a timestamp, or
 * None when the cell is not a date.
 */
module DateCells {
  import opened Wrappers
  import opened Strings
  import opened Stamps
  import opened Cells

  /** DATE_PARSE_FORMATS, tried in this order. */
  const DateParseFormats: seq<string> :=
    ["%d-%b-%Y", "%d-%b-%y", "%Y-%m-%d", "%b %d, %Y", "%B %d, %Y", "%d/%m/%Y", "%m/%d/%Y"]

  /** Row labels that are never dates (compared trimmed and lower-cased). */
  const MetaLabels: set<string> :=
    {"units", "average", "median", "cofa objective", "eca objective", "cofa limit", "eca limit"}

  /** The result of `strptime` under the first format of `formats` that accepts `s`. */
  function FirstParse(strptime: (string, string) -> Option<Stamp>, s: string, formats: seq<string>): (r: Option<Stamp>)
    ensures r.Some? <==> exists i :: 0 <= i < |formats| && strptime(s, formats[i]).Some?
    ensures r.Some? ==>
      exists i :: 0 <= i < |formats| && strptime(s, formats[i]) == r && forall j :: 0 <= j < i ==> strptime(s, formats[j]).None?
  {
    if formats == [] then None
    else if strptime(s, formats[0]).Some? then strptime(s, formats[0])
    else
      var r := FirstParse(strptime, s, formats[1..]);
      assert forall i :: 1 <= i < |formats| ==> formats[i] == formats[1..][i - 1];
      if r.Some? then
        var i :| 0 <= i < |formats[1..]| && strptime(s, formats[1..][i]) == r
          && forall j :: 0 <= j < i ==> strptime(s, formats[1..][j]).None?;
        assert strptime(s, formats[i + 1]) == r;
        r
      else
        r
  }

  /** Python's rounding of a float to a whole number of microseconds: to the nearest,
      ties to the even neighbour. */
  function RoundHalfEven(q: real): (n: int)
    ensures q - 1.0 / 2.0 <= n as real <= q + 1.0 / 2.0
  {
    var f := q.Floor;
    var frac := q - f as real;
    if frac > 1.0 / 2.0 then f + 1
    else if frac < 1.0 / 2.0 then f
    else if f % 2 == 0 then f else f + 1
  }

  /** 1899-12-30, the day that spreadsheet serial 0 stands for. */
  const ExcelEpoch: Stamp := Stamp(1899, 12, 30, 0)

  /** `datetime(1899, 12, 30) + timedelta(days=value)`, None when the result leaves
      Python's year range (OverflowError). */
  function EpochFallback(value: real): (r: Option<Stamp>)
    ensures r.Some? ==> Stamps.Valid(r.value)
  {
    var t := RoundHalfEven(value * MicrosPerDay as real);
    var day := AddDays(ExcelEpoch, t / MicrosPerDay);
    var stamp := day.(micro := t % MicrosPerDay);
    if 1 <= stamp.year <= 9999 then Some(stamp) else None
  }

  /** The fallback lands the rounded number of microseconds after the epoch. */
  lemma EpochFallbackOrdinal(value: real)
    requires EpochFallback(value).Some?
    ensures var s := EpochFallback(value).value;
      Ordinal(s) * MicrosPerDay + s.micro == Ordinal(ExcelEpoch) * MicrosPerDay + RoundHalfEven(value * MicrosPerDay as real)
  {
    var t := RoundHalfEven(value * MicrosPerDay as real);
    AddDaysOrdinal(ExcelEpoch, t / MicrosPerDay);
  }

  /** A whole serial number n lands at midnight, n days after the epoch. */
  lemma EpochFallbackWholeDays(n: int)
    requires EpochFallback(n as real).Some?
    ensures var s := EpochFallback(n as real).value;
      Midnight(s) && Ordinal(s) == Ordinal(ExcelEpoch) + n
  {
    EpochFallbackOrdinal(n as real);
    var q := n as real * MicrosPerDay as real;
    assert q == (n * MicrosPerDay) as real;
    assert q.Floor == n * MicrosPerDay;
    var t := RoundHalfEven(q);
    assert t == n * MicrosPerDay;
    assert t / MicrosPerDay == n && t % MicrosPerDay == 0;
  }

  /** `parse_date_cell(val)`. */
  function ParseDateCell(c: Cell, lib: Library): (r: Option<Stamp>)
    // native datetimes pass through; plain dates become midnight datetimes
    ensures c.DateTime? ==> r == Some(c.t)
    ensures c.Date? ==> r == Some(Stamp(c.year, c.month, c.day, 0))
    // None, blank strings, meta labels and times of day are not dates
    ensures c.Empty? || c.Time? ==> r.None?
    ensures c.Str? && Trim(c.s) == "" ==> r.None?
    ensures c.Str? && Lower(Trim(c.s)) in MetaLabels ==> r.None?
    // any other string: the first of DATE_PARSE_FORMATS that parses it
    ensures c.Str? && Trim(c.s) != "" && Lower(Trim(c.s)) !in MetaLabels ==>
      r == FirstParse(lib.strptime, Trim(c.s), DateParseFormats)
    // numbers: a spreadsheet serial; the manual epoch offset only when from_excel raises
    ensures IsNumber(c) ==>
      var x := if c.Int? then c.i as real else c.x;
      match lib.fromExcel(x)
      case Raises => r == EpochFallback(x)
      case AsTime(_) => r.None?
      case AsDate(y, m, d) => r == Some(Stamp(y, m, d, 0))
      case AsDateTime(t) => r == Some(t)
    ensures ValidLibrary(lib) && ValidCell(c) && r.Some? ==> Stamps.Valid(r.value)
  {
    match c
    case DateTime(t) => Some(t)
    case Empty => None
    case Str(v) =>
      var s := Trim(v);
      if s == "" then None
      else if Lower(s) in MetaLabels then None
      else FirstParse(lib.strptime, s, DateParseFormats)
    case Int(i) => FromSerial(i as real, lib)
    case Real(x) => FromSerial(x, lib)
    case Time(_) => None
    case Date(y, m, d) => Some(Stamp(y, m, d, 0))
  }

  /** The numeric branch of `parse_date_cell`. */
  function FromSerial(x: real, lib: Library): (r: Option<Stamp>)
    ensures ValidLibrary(lib) && r.Some? ==> Stamps.Valid(r.value)
  {
    match lib.fromExcel(x)
    case Raises => EpochFallback(x)
    case AsTime(_) => None
    case AsDate(y, m, d) => Some(Stamp(y, m, d, 0))
    case AsDateTime(t) => Some(t)
  }
}
