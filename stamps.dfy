/**
 * Calendar arithmetic behind SGSData.py: Python `datetime` values as calendar
 * fields plus a time of day, the proleptic Gregorian calendar, `ym_add`,
 * `month_start` and `month_end`.
 */
module Stamps {

  const MicrosPerDay: int := 86_400_000_000

  /** A naive Python `datetime`: calendar day and microseconds since midnight. */
  datatype Stamp = Stamp(year: int, month: int, day: int, micro: int)

  predicate IsLeap(y: int)
  {
    y % 4 == 0 && (y % 100 != 0 || y % 400 == 0)
  }

  function DaysInMonth(y: int, m: int): (n: int)
    requires 1 <= m <= 12
    ensures 28 <= n <= 31
  {
    if m == 2 then (if IsLeap(y) then 29 else 28)
    else if m == 4 || m == 6 || m == 9 || m == 11 then 30
    else 31
  }

  /** A real day of the calendar, in any year. */
  predicate IsCalendarDay(y: int, m: int, d: int)
  {
    1 <= m <= 12 && 1 <= d <= DaysInMonth(y, m)
  }

  /** The values Python's `datetime` can hold: years 1 to 9999. */
  predicate Valid(s: Stamp)
  {
    IsCalendarDay(s.year, s.month, s.day) && 0 <= s.micro < MicrosPerDay && 1 <= s.year <= 9999
  }

  /** Python's `<=` on naive datetimes: lexicographic on the fields. */
  predicate LessEq(a: Stamp, b: Stamp)
  {
    a.year < b.year
    || (a.year == b.year && (a.month < b.month
      || (a.month == b.month && (a.day < b.day
        || (a.day == b.day && a.micro <= b.micro)))))
  }

  /** `<=` on datetimes is a total preorder (on these fields, a total order). */
  lemma LessEqTotal(a: Stamp, b: Stamp)
    ensures LessEq(a, b) || LessEq(b, a)
    ensures LessEq(a, b) && LessEq(b, a) ==> a == b
  {
  }

  lemma LessEqTransitive(a: Stamp, b: Stamp, c: Stamp)
    requires LessEq(a, b) && LessEq(b, c)
    ensures LessEq(a, c)
  {
  }

  predicate Midnight(s: Stamp)
  {
    s.micro == 0
  }

  // ---------------------------------------------------------------------------
  // Day numbers (Python's `date.toordinal`: 0001-01-01 is day 1)

  function DaysBeforeYear(y: int): int
  {
    (y - 1) * 365 + (y - 1) / 4 - (y - 1) / 100 + (y - 1) / 400
  }

  function DaysBeforeMonth(y: int, m: int): int
    requires 1 <= m <= 12
  {
    (match m
     case 1 => 0 case 2 => 31 case 3 => 59 case 4 => 90 case 5 => 120 case 6 => 151
     case 7 => 181 case 8 => 212 case 9 => 243 case 10 => 273 case 11 => 304 case _ => 334)
    + (if m > 2 && IsLeap(y) then 1 else 0)
  }

  function Ordinal(s: Stamp): int
    requires 1 <= s.month <= 12
  {
    DaysBeforeYear(s.year) + DaysBeforeMonth(s.year, s.month) + s.day
  }

  lemma YearLength(y: int)
    ensures DaysBeforeYear(y + 1) - DaysBeforeYear(y) == if IsLeap(y) then 366 else 365
  {
    DivStep(y, 4);
    DivStep(y, 100);
    DivStep(y, 400);
  }

  lemma DivStep(y: int, k: int)
    requires k == 4 || k == 100 || k == 400
    ensures y / k - (y - 1) / k == if y % k == 0 then 1 else 0
  {
  }

  lemma MonthLengths(y: int, m: int)
    requires 1 <= m < 12
    ensures DaysBeforeMonth(y, m + 1) == DaysBeforeMonth(y, m) + DaysInMonth(y, m)
  {
  }

  /** The day after `s`, at the same time of day. */
  function NextDay(s: Stamp): (r: Stamp)
    requires IsCalendarDay(s.year, s.month, s.day)
    ensures IsCalendarDay(r.year, r.month, r.day) && r.micro == s.micro
  {
    if s.day < DaysInMonth(s.year, s.month) then s.(day := s.day + 1)
    else if s.month < 12 then s.(month := s.month + 1, day := 1)
    else Stamp(s.year + 1, 1, 1, s.micro)
  }

  lemma NextDayOrdinal(s: Stamp)
    requires IsCalendarDay(s.year, s.month, s.day)
    ensures Ordinal(NextDay(s)) == Ordinal(s) + 1
  {
    if s.day == DaysInMonth(s.year, s.month) {
      if s.month < 12 {
        MonthLengths(s.year, s.month);
      } else {
        YearLength(s.year);
      }
    }
  }

  /** The day before `s`, at the same time of day. */
  function PrevDay(s: Stamp): (r: Stamp)
    requires IsCalendarDay(s.year, s.month, s.day)
    ensures IsCalendarDay(r.year, r.month, r.day) && r.micro == s.micro
  {
    if s.day > 1 then s.(day := s.day - 1)
    else if s.month > 1 then s.(month := s.month - 1, day := DaysInMonth(s.year, s.month - 1))
    else Stamp(s.year - 1, 12, 31, s.micro)
  }

  lemma PrevDayOrdinal(s: Stamp)
    requires IsCalendarDay(s.year, s.month, s.day)
    ensures Ordinal(PrevDay(s)) == Ordinal(s) - 1
  {
    if s.day == 1 {
      if s.month > 1 {
        MonthLengths(s.year, s.month - 1);
      } else {
        YearLength(s.year - 1);
      }
    }
  }

  /** `s + timedelta(days=n)` for a whole number of days, in an unbounded calendar. */
  function AddDays(s: Stamp, n: int): (r: Stamp)
    requires IsCalendarDay(s.year, s.month, s.day)
    ensures IsCalendarDay(r.year, r.month, r.day) && r.micro == s.micro
    decreases if n >= 0 then n else -n
  {
    if n == 0 then s
    else if n > 0 then AddDays(NextDay(s), n - 1)
    else AddDays(PrevDay(s), n + 1)
  }

  lemma {:induction false} AddDaysForward(s: Stamp, n: nat)
    requires IsCalendarDay(s.year, s.month, s.day)
    ensures Ordinal(AddDays(s, n)) == Ordinal(s) + n
    decreases n
  {
    if n > 0 {
      var t := NextDay(s);
      assert AddDays(s, n) == AddDays(t, n - 1);
      NextDayOrdinal(s);
      AddDaysForward(t, n - 1);
    }
  }

  lemma {:induction false} AddDaysBackward(s: Stamp, n: nat)
    requires IsCalendarDay(s.year, s.month, s.day)
    ensures Ordinal(AddDays(s, 0 - n)) == Ordinal(s) - n
    decreases n
  {
    if n > 0 {
      var t := PrevDay(s);
      assert AddDays(s, 0 - n) == AddDays(t, 0 - (n - 1));
      PrevDayOrdinal(s);
      AddDaysBackward(t, n - 1);
    }
  }

  /** Adding n days moves the day number by exactly n. */
  lemma AddDaysOrdinal(s: Stamp, n: int)
    requires IsCalendarDay(s.year, s.month, s.day)
    ensures Ordinal(AddDays(s, n)) == Ordinal(s) + n
  {
    if n >= 0 {
      AddDaysForward(s, n);
    } else {
      AddDaysBackward(s, -n);
    }
  }

  // ---------------------------------------------------------------------------
  // Month arithmetic (SGSData.py:38-49)

  /** The absolute month number of (year, month): January of year 0 is 0. */
  function MonthIndex(year: int, month: int): int
  {
    year * 12 + month - 1
  }

  /** `ym_add`: the (year, month) `delta` months after (year, month). Python's `//`
      and `%` by 12 floor, which is what Dafny's Euclidean operators do for a
      positive divisor. The result is the one calendar month whose index is
      `MonthIndex(year, month) + delta`. */
  function YmAdd(year: int, month: int, delta: int): (r: (int, int))
    ensures 1 <= r.1 <= 12
    ensures MonthIndex(r.0, r.1) == MonthIndex(year, month) + delta
  {
    (year + (month - 1 + delta) / 12, (month - 1 + delta) % 12 + 1)
  }

  /** A month index names exactly one (year, month) with the month in 1..12. */
  lemma MonthIndexInjective(y1: int, m1: int, y2: int, m2: int)
    requires 1 <= m1 <= 12 && 1 <= m2 <= 12
    requires MonthIndex(y1, m1) == MonthIndex(y2, m2)
    ensures y1 == y2 && m1 == m2
  {
  }

  /** Stepping back by `delta` undoes stepping forward by `delta`. */
  lemma YmAddRoundTrip(year: int, month: int, delta: int)
    requires 1 <= month <= 12
    ensures var (y, m) := YmAdd(year, month, delta); YmAdd(y, m, -delta) == (year, month)
  {
    var (y, m) := YmAdd(year, month, delta);
    var (y', m') := YmAdd(y, m, -delta);
    MonthIndexInjective(y', m', year, month);
  }

  /** Two steps add up. */
  lemma YmAddCompose(year: int, month: int, a: int, b: int)
    ensures var (y, m) := YmAdd(year, month, a); YmAdd(y, m, b) == YmAdd(year, month, a + b)
  {
    var (y, m) := YmAdd(year, month, a);
    var (y1, m1) := YmAdd(y, m, b);
    var (y2, m2) := YmAdd(year, month, a + b);
    MonthIndexInjective(y1, m1, y2, m2);
  }

  /** December rolls into January of the next year, and January back into December. */
  lemma YmAddYearBoundary(year: int)
    ensures YmAdd(year, 12, 1) == (year + 1, 1)
    ensures YmAdd(year, 1, -1) == (year - 1, 12)
  {
  }

  /** A valid month leaves `ym_add` by zero unchanged. */
  lemma YmAddZero(year: int, month: int)
    requires 1 <= month <= 12
    ensures YmAdd(year, month, 0) == (year, month)
  {
    var (y, m) := YmAdd(year, month, 0);
    MonthIndexInjective(y, m, year, month);
  }

  /** `month_start`: midnight on the first day of the month. */
  function MonthStart(year: int, month: int): (r: Stamp)
    requires 1 <= month <= 12
    ensures IsCalendarDay(r.year, r.month, r.day) && Midnight(r)
  {
    Stamp(year, month, 1, 0)
  }

  /** `month_end`: one day before the first day of the following month. The month
      may be any integer, as in the source: it is normalised by `ym_add`. */
  function MonthEnd(year: int, month: int): (r: Stamp)
    ensures IsCalendarDay(r.year, r.month, r.day) && Midnight(r)
  {
    var (ny, nm) := YmAdd(year, month, 1);
    AddDays(MonthStart(ny, nm), -1)
  }

  /** `month_end` is the day just before the next month's first day. */
  lemma MonthEndOrdinal(year: int, month: int)
    ensures var (ny, nm) := YmAdd(year, month, 1);
      Ordinal(MonthEnd(year, month)) + 1 == Ordinal(MonthStart(ny, nm))
  {
    var (ny, nm) := YmAdd(year, month, 1);
    AddDaysOrdinal(MonthStart(ny, nm), -1);
  }

  /** `month_end(y, m)` is midnight on the last day of the month that index
      `MonthIndex(y, m)` names: for a month in 1..12, the last day of month m. */
  lemma MonthEndIsLastDay(year: int, month: int)
    ensures var (y, m) := YmAdd(year, month, 0);
      MonthEnd(year, month) == Stamp(y, m, DaysInMonth(y, m), 0)
  {
    var (y, m) := YmAdd(year, month, 0);
    var (ny, nm) := YmAdd(year, month, 1);
    YmAddCompose(year, month, 0, 1);
    var first := MonthStart(ny, nm);
    assert AddDays(first, -1) == AddDays(PrevDay(first), 0);
    if nm == 1 {
      MonthIndexInjective(y, m, ny - 1, 12);
    } else {
      MonthIndexInjective(y, m, ny, nm - 1);
    }
  }

  /** A calendar day is at or after `month_start(y, m)` exactly when its month is. */
  lemma AfterMonthStart(s: Stamp, year: int, month: int)
    requires IsCalendarDay(s.year, s.month, s.day) && 0 <= s.micro
    requires 1 <= month <= 12
    ensures LessEq(MonthStart(year, month), s) <==> MonthIndex(year, month) <= MonthIndex(s.year, s.month)
  {
  }

  /** A calendar day is at or before `month_end(y, m)` (midnight of the month's last
      day) exactly when its month is earlier, or it is that month and it is not a
      time after midnight on the last day. */
  lemma BeforeMonthEnd(s: Stamp, year: int, month: int)
    requires IsCalendarDay(s.year, s.month, s.day) && 0 <= s.micro
    requires 1 <= month <= 12
    ensures LessEq(s, MonthEnd(year, month)) <==>
      MonthIndex(s.year, s.month) < MonthIndex(year, month)
      || (MonthIndex(s.year, s.month) == MonthIndex(year, month)
          && (s.day < DaysInMonth(year, month) || Midnight(s)))
  {
    MonthEndIsLastDay(year, month);
    YmAddZero(year, month);
    if MonthIndex(s.year, s.month) == MonthIndex(year, month) {
      MonthIndexInjective(s.year, s.month, year, month);
    }
  }
}
