/**
 * AutoSummary.py: month-name tables, the calendar walk from the previous visit
 * to the reporting month, the schedule predecessor, and the `months_csv`
 * argument handed to SGSData.py and FlowData.py.
 */
module VisitWindow {
  import opened Wrappers
  import opened Strings

  const MonthsFull: seq<string> := [
    "January", "February", "March", "April", "May", "June",
    "July", "August", "September", "October", "November", "December"]

  /** The first position of `x` in `s` (`list.index`), None where Python raises. */
  function IndexOf<T(==)>(s: seq<T>, x: T): (r: Option<nat>)
    ensures r.None? <==> x !in s
    ensures r.Some? ==> r.value < |s| && s[r.value] == x && x !in s[..r.value]
  {
    if s == [] then None
    else if s[0] == x then Some(0)
    else
      match IndexOf(s[1..], x)
      case None => None
      case Some(i) =>
        assert s[..i + 1] == [s[0]] + s[1..][..i];
        Some(i + 1)
  }

  predicate IsMonth(n: int)
  {
    1 <= n <= 12
  }

  /** A key of MONTH_TO_NUM: one of the twelve full English month names. */
  predicate IsMonthName(s: string)
  {
    s in MonthsFull
  }

  /** The twelve names are distinct, so the two dictionaries built from their
      enumeration are inverse to each other. */
  lemma MonthNamesDistinct()
    ensures forall a, b :: 0 <= a < b < 12 ==> MonthsFull[a] != MonthsFull[b]
  {
  }

  /** `NUM_TO_MONTH[n]`, where `NUM_TO_MONTH = {i+1: m for i, m in enumerate(MONTHS_FULL)}`. */
  function MonthName(n: int): (s: string)
    requires IsMonth(n)
    ensures IsMonthName(s)
  {
    MonthsFull[n - 1]
  }

  /** `MONTH_TO_NUM[s]`, where `MONTH_TO_NUM = {m: i+1 for i, m in enumerate(MONTHS_FULL)}`:
      the 1-based position of the name in MONTHS_FULL. */
  function MonthNumber(s: string): (n: nat)
    requires IsMonthName(s)
    ensures IsMonth(n)
  {
    IndexOf(MonthsFull, s).value + 1
  }

  /** The two tables are inverse bijections between the twelve names and 1..12. */
  lemma MonthTablesInverse(n: int, s: string)
    ensures IsMonth(n) ==> MonthNumber(MonthName(n)) == n
    ensures IsMonthName(s) ==> MonthName(MonthNumber(s)) == s
  {
    if IsMonth(n) {
      MonthNamesDistinct();
      var m := MonthNumber(MonthName(n));
      assert MonthsFull[m - 1] == MonthsFull[n - 1];
    }
  }

  /** The calendar successor, December wrapping to January. */
  function Succ(m: int): (r: int)
    requires IsMonth(m)
    ensures IsMonth(r)
  {
    if m == 12 then 1 else m + 1
  }

  /** How many calendar months lie after month i up to month e: (e - i) mod 12. */
  function MonthsAfter(i: int, e: int): (d: nat)
    ensures d < 12
  {
    (e - i) % 12
  }

  /** Month i advanced by k calendar months. */
  function Advance(i: int, k: int): (r: int)
    ensures IsMonth(r)
  {
    (i - 1 + k) % 12 + 1
  }

  /** The calendar walk from `i` to `e`, inclusive: the sequence of month numbers
      `months_between_inclusive` visits. */
  function Walk(i: int, e: int): (w: seq<int>)
    requires IsMonth(i) && IsMonth(e)
    ensures |w| >= 1 && w[0] == i
    ensures forall k :: 0 <= k < |w| ==> IsMonth(w[k])
    decreases MonthsAfter(i, e)
  {
    if i == e then [i] else [i] + Walk(Succ(i), e)
  }

  function Names(w: seq<int>): (r: seq<string>)
    requires forall k :: 0 <= k < |w| ==> IsMonth(w[k])
    ensures |r| == |w|
  {
    if w == [] then [] else [MonthName(w[0])] + Names(w[1..])
  }

  lemma {:induction false} NamesAt(w: seq<int>, k: int)
    requires forall j :: 0 <= j < |w| ==> IsMonth(w[j])
    requires 0 <= k < |w|
    ensures Names(w)[k] == MonthName(w[k])
  {
    assert Names(w) == [MonthName(w[0])] + Names(w[1..]);
    if k > 0 {
      NamesAt(w[1..], k - 1);
      assert w[1..][k - 1] == w[k];
    }
  }

  /** The walk has ((e - i) mod 12) + 1 entries and entry k is month i advanced by k. */
  lemma {:induction false} WalkClosedForm(i: int, e: int)
    requires IsMonth(i) && IsMonth(e)
    ensures |Walk(i, e)| == MonthsAfter(i, e) + 1
    ensures forall k :: 0 <= k < |Walk(i, e)| ==> Walk(i, e)[k] == Advance(i, k)
    decreases MonthsAfter(i, e)
  {
    if i != e {
      WalkStep(i, e);
      WalkClosedForm(Succ(i), e);
      var w, t := Walk(i, e), Walk(Succ(i), e);
      forall k | 0 <= k < |w| ensures w[k] == Advance(i, k) {
        if k > 0 {
          assert w[k] == t[k - 1];
          SuccAdvance(i, k - 1);
        }
      }
    }
  }

  /** Advancing the successor of i by k is advancing i by k + 1. */
  lemma SuccAdvance(i: int, k: int)
    requires IsMonth(i) && k >= 0
    ensures Advance(Succ(i), k) == Advance(i, k + 1)
  {
    if i == 12 {
      assert (12 + k) % 12 == k % 12;
    }
  }

  /** Unfolding one step of the walk, which brings it one month closer to its end. */
  lemma {:induction false} WalkStep(i: int, e: int)
    requires IsMonth(i) && IsMonth(e) && i != e
    ensures Walk(i, e) == [i] + Walk(Succ(i), e)
    ensures MonthsAfter(Succ(i), e) == MonthsAfter(i, e) - 1
  {
    if i == 12 {
      assert (e - 12) % 12 == e;
    } else if e > i {
      assert (e - i) % 12 == e - i;
    } else {
      assert (e - i) % 12 == e - i + 12;
    }
  }

  lemma NamesCons(x: int, w: seq<int>)
    requires IsMonth(x) && forall k :: 0 <= k < |w| ==> IsMonth(w[k])
    ensures Names([x] + w) == [MonthName(x)] + Names(w)
  {
    assert ([x] + w)[1..] == w;
  }

  /** The walk ends at e, reaches e nowhere before, and steps one calendar month at a time. */
  lemma {:induction false} WalkEnds(i: int, e: int)
    requires IsMonth(i) && IsMonth(e)
    ensures var w := Walk(i, e);
      && w[|w| - 1] == e
      && (forall k :: 0 <= k < |w| - 1 ==> w[k] != e)
      && (forall k :: 0 <= k < |w| - 1 ==> w[k + 1] == Succ(w[k]))
    decreases MonthsAfter(i, e)
  {
    if i != e {
      WalkStep(i, e);
      WalkEnds(Succ(i), e);
      var w, t := Walk(i, e), Walk(Succ(i), e);
      assert w == [i] + t;
      forall k | 0 <= k < |w| - 1 ensures w[k] != e && w[k + 1] == Succ(w[k]) {
        if k > 0 {
          assert w[k] == t[k - 1] && w[k + 1] == t[k];
        }
      }
    }
  }

  /** Advancing by fewer than twelve different counts gives different months. */
  lemma AdvanceDistinct(i: int, k1: int, k2: int)
    requires 0 <= k1 < k2 < 12
    ensures Advance(i, k1) != Advance(i, k2)
  {
    var a, d := i - 1 + k1, k2 - k1;
    assert a % 12 != (a + d) % 12;
  }

  /** The walk names at most twelve months and never the same one twice. */
  lemma {:induction false} WalkDistinct(i: int, e: int)
    requires IsMonth(i) && IsMonth(e)
    ensures var w := Walk(i, e);
      && |w| <= 12
      && (forall k1, k2 :: 0 <= k1 < k2 < |w| ==> w[k1] != w[k2])
  {
    var w := Walk(i, e);
    WalkClosedForm(i, e);
    forall k1, k2 | 0 <= k1 < k2 < |w| ensures w[k1] != w[k2] {
      AdvanceDistinct(i, k1, k2);
    }
  }

  /** What the walk promises: it starts at i, ends at e and reaches e only there,
      steps one calendar month at a time, and never repeats a month. */
  lemma {:induction false} WalkShape(i: int, e: int)
    requires IsMonth(i) && IsMonth(e)
    ensures var w := Walk(i, e);
      && 1 <= |w| <= 12
      && w[0] == i && w[|w| - 1] == e
      && (forall k :: 0 <= k < |w| - 1 ==> w[k] != e)
      && (forall k :: 0 <= k < |w| - 1 ==> w[k + 1] == Succ(w[k]))
      && (forall k1, k2 :: 0 <= k1 < k2 < |w| ==> w[k1] != w[k2])
      && (i == e ==> w == [i])
  {
    WalkEnds(i, e);
    WalkDistinct(i, e);
  }

  /** `months_between_inclusive(prev_month, curr_month)`. */
  method MonthsBetweenInclusive(prevMonth: string, currMonth: string) returns (out: seq<string>)
    requires IsMonthName(prevMonth) && IsMonthName(currMonth)
    ensures out == Names(Walk(MonthNumber(prevMonth), MonthNumber(currMonth)))
  {
    var start := MonthNumber(prevMonth);
    var end := MonthNumber(currMonth);
    out := WalkNames(start, end);
  }

  /** The loop of `months_between_inclusive`: it appends month names from `start`
      until `end` is reached. */
  method WalkNames(start: int, end: int) returns (out: seq<string>)
    requires IsMonth(start) && IsMonth(end)
    ensures out == Names(Walk(start, end))
  {
    out := [];
    var i := start;
    while true
      invariant IsMonth(i)
      invariant out + Names(Walk(i, end)) == Names(Walk(start, end))
      decreases MonthsAfter(i, end)
    {
      WalkNamesStep(i, end);
      out := out + [MonthName(i)];
      if i == end {
        break;
      }
      i := Succ(i);
    }
  }

  /** The names of a walk: the first month's name, then those of the rest of the walk. */
  lemma WalkNamesStep(i: int, e: int)
    requires IsMonth(i) && IsMonth(e)
    ensures Names(Walk(i, e)) == [MonthName(i)] + (if i == e then [] else Names(Walk(Succ(i), e)))
    ensures i != e ==> MonthsAfter(Succ(i), e) < MonthsAfter(i, e)
  {
    if i == e {
      NamesCons(i, []);
    } else {
      WalkStep(i, e);
      NamesCons(i, Walk(Succ(i), e));
    }
  }

  /** Names of month numbers are month names that map back to the same numbers. */
  lemma NamesBack(w: seq<int>)
    requires forall k :: 0 <= k < |w| ==> IsMonth(w[k])
    ensures forall k :: 0 <= k < |w| ==> IsMonthName(Names(w)[k]) && MonthNumber(Names(w)[k]) == w[k]
  {
    forall k | 0 <= k < |w| ensures IsMonthName(Names(w)[k]) && MonthNumber(Names(w)[k]) == w[k] {
      NamesAt(w, k);
      MonthTablesInverse(w[k], "");
    }
  }

  /** The names of the walk from month s to month e start with s's name and end
      with e's, one name per month of the walk. */
  lemma WalkNamesEnds(s: int, e: int)
    requires IsMonth(s) && IsMonth(e)
    ensures var out := Names(Walk(s, e));
      && |out| == MonthsAfter(s, e) + 1
      && out[0] == MonthName(s) && out[|out| - 1] == MonthName(e)
      && (s == e ==> out == [MonthName(s)])
  {
    var w := Walk(s, e);
    WalkEnds(s, e);
    WalkClosedForm(s, e);
    NamesAt(w, 0);
    NamesAt(w, |w| - 1);
  }

  /** Different months have different names. */
  lemma MonthNameInjective(a: int, b: int)
    requires IsMonth(a) && IsMonth(b) && a != b
    ensures MonthName(a) != MonthName(b)
  {
    MonthNamesDistinct();
    if a < b {
      assert MonthsFull[a - 1] != MonthsFull[b - 1];
    } else {
      assert MonthsFull[b - 1] != MonthsFull[a - 1];
    }
  }

  /** The names of the walk name e only at the end and no month twice. */
  lemma WalkNamesDistinct(s: int, e: int)
    requires IsMonth(s) && IsMonth(e)
    ensures var out := Names(Walk(s, e));
      && MonthName(e) !in out[..|out| - 1]
      && (forall k1, k2 :: 0 <= k1 < k2 < |out| ==> out[k1] != out[k2])
  {
    var w := Walk(s, e);
    WalkShape(s, e);
    var out := Names(w);
    var before := out[..|out| - 1];
    forall k | 0 <= k < |before| ensures before[k] != MonthName(e) {
      NamesAt(w, k);
      MonthNameInjective(w[k], e);
    }
    forall k1, k2 | 0 <= k1 < k2 < |out| ensures out[k1] != out[k2] {
      NamesAt(w, k1);
      NamesAt(w, k2);
      MonthNameInjective(w[k1], w[k2]);
    }
  }

  /** The names of the walk are month names, each naming the calendar successor of
      the month before. */
  lemma WalkNamesSucc(s: int, e: int)
    requires IsMonth(s) && IsMonth(e)
    ensures var out := Names(Walk(s, e));
      && (forall k :: 0 <= k < |out| ==> IsMonthName(out[k]))
      && (forall k :: 0 <= k < |out| - 1 ==> MonthNumber(out[k + 1]) == Succ(MonthNumber(out[k])))
  {
    WalkShape(s, e);
    NamesBack(Walk(s, e));
  }

  /** The names of the walk from month s to month e: they start with s's name, end
      with e's and name e only there, each is the calendar successor of the one
      before, and none comes twice. */
  lemma WalkNamesOf(s: int, e: int)
    requires IsMonth(s) && IsMonth(e)
    ensures var out := Names(Walk(s, e));
      && |out| == MonthsAfter(s, e) + 1
      && out[0] == MonthName(s) && out[|out| - 1] == MonthName(e)
      && MonthName(e) !in out[..|out| - 1]
      && (forall k :: 0 <= k < |out| ==> IsMonthName(out[k]))
      && (forall k :: 0 <= k < |out| - 1 ==> MonthNumber(out[k + 1]) == Succ(MonthNumber(out[k])))
      && (forall k1, k2 :: 0 <= k1 < k2 < |out| ==> out[k1] != out[k2])
      && (s == e ==> out == [MonthName(s)])
  {
    WalkNamesEnds(s, e);
    WalkNamesDistinct(s, e);
    WalkNamesSucc(s, e);
  }

  /** The walk over month names: it starts with `prev`, ends with `curr`, names
      `curr` only at the end, has ((num(curr) - num(prev)) mod 12) + 1 entries, each
      the calendar successor of the one before, with no month twice. */
  lemma WalkNamesShape(prev: string, curr: string)
    requires IsMonthName(prev) && IsMonthName(curr)
    ensures var out := Names(Walk(MonthNumber(prev), MonthNumber(curr)));
      && |out| == MonthsAfter(MonthNumber(prev), MonthNumber(curr)) + 1
      && out[0] == prev && out[|out| - 1] == curr
      && curr !in out[..|out| - 1]
      && (forall k :: 0 <= k < |out| ==> IsMonthName(out[k]))
      && (forall k :: 0 <= k < |out| - 1 ==> MonthNumber(out[k + 1]) == Succ(MonthNumber(out[k])))
      && (forall k1, k2 :: 0 <= k1 < k2 < |out| ==> out[k1] != out[k2])
      && (prev == curr ==> out == [prev])
  {
    var s, e := MonthNumber(prev), MonthNumber(curr);
    WalkNamesOf(s, e);
    MonthTablesInverse(s, prev);
    MonthTablesInverse(e, curr);
  }

  /** `previous_visit_month(visit_list, current_month)`. */
  function PreviousVisitMonth(visits: seq<string>, current: string): (r: Option<string>)
    ensures r.None? <==> current !in visits
    ensures r.Some? ==> r.value in visits
  {
    match IndexOf(visits, current)
    case None => None
    case Some(idx) => Some(if idx > 0 then visits[idx - 1] else visits[|visits| - 1])
  }

  /** The predecessor is the entry just before the first occurrence of the current
      month, or the last entry when that occurrence is the first; a one-entry
      schedule is its own predecessor. */
  lemma PreviousVisitMonthAt(visits: seq<string>, current: string, i: int)
    requires 0 <= i < |visits| && visits[i] == current && current !in visits[..i]
    ensures PreviousVisitMonth(visits, current) == Some(if i > 0 then visits[i - 1] else visits[|visits| - 1])
    ensures |visits| == 1 ==> PreviousVisitMonth(visits, current) == Some(current)
  {
    var j := IndexOf(visits, current).value;
    forall t | 0 <= t < i ensures visits[t] != current {
      assert visits[..i][t] == visits[t];
    }
    forall t | 0 <= t < j ensures visits[t] != current {
      assert visits[..j][t] == visits[t];
    }
  }

  /** The visit before the picked month, when there is one and it is not the empty
      string, is a month name: `months_between_inclusive` looks it up in
      `MONTH_TO_NUM`, and anything else raises KeyError. */
  predicate ValidSchedule(visits: seq<string>, picked: string)
  {
    var prev := PreviousVisitMonth(visits, picked);
    prev.Some? && prev.value != "" ==> IsMonthName(prev.value)
  }

  /** The month span of `run_summary` (AutoSummary.py:186-190) as a value. */
  function Span(visits: seq<string>, picked: string): (span: seq<string>)
    requires ValidSchedule(visits, picked) && IsMonthName(picked)
    ensures forall k :: 0 <= k < |span| ==> IsMonthName(span[k])
  {
    match PreviousVisitMonth(visits, picked)
    case None => [picked]
    case Some(prev) =>
      if prev == "" then [picked]
      else
        WalkNamesShape(prev, picked);
        Names(Walk(MonthNumber(prev), MonthNumber(picked)))
  }

  /** `prev_visit = previous_visit_month(...)`, then the walk, or `[picked]`. */
  method MonthSpan(visits: seq<string>, picked: string) returns (span: seq<string>)
    requires ValidSchedule(visits, picked) && IsMonthName(picked)
    ensures span == Span(visits, picked)
  {
    var prevVisit := PreviousVisitMonth(visits, picked);
    if prevVisit.Some? && prevVisit.value != "" {
      span := MonthsBetweenInclusive(prevVisit.value, picked);
    } else {
      span := [picked];
    }
  }

  /** The span is never empty, holds month names only and ends with the picked month;
      it starts at the predecessor when that is a non-empty name, and is just the
      picked month otherwise. */
  lemma SpanShape(visits: seq<string>, picked: string)
    requires ValidSchedule(visits, picked) && IsMonthName(picked)
    ensures var span := Span(visits, picked);
      var prev := PreviousVisitMonth(visits, picked);
      && |span| >= 1 && span[|span| - 1] == picked
      && (forall k :: 0 <= k < |span| ==> IsMonthName(span[k]))
      && (prev.Some? && prev.value != "" ==> span[0] == prev.value)
      && (prev.None? || prev.value == "" ==> span == [picked])
      && (picked !in visits ==> span == [picked])
  {
    var prev := PreviousVisitMonth(visits, picked);
    if prev.Some? && prev.value != "" {
      WalkNamesShape(prev.value, picked);
    }
  }

  /** `[str(MONTH_TO_NUM[m]) for m in span_months]`. */
  function MonthNumbers(span: seq<string>): (r: seq<string>)
    requires forall k :: 0 <= k < |span| ==> IsMonthName(span[k])
    ensures |r| == |span|
  {
    if span == [] then [] else [NatToString(MonthNumber(span[0]))] + MonthNumbers(span[1..])
  }

  lemma {:induction false} MonthNumbersAt(span: seq<string>, k: int)
    requires forall j :: 0 <= j < |span| ==> IsMonthName(span[j])
    requires 0 <= k < |span|
    ensures MonthNumbers(span)[k] == NatToString(MonthNumber(span[k]))
  {
    var tail := MonthNumbers(span[1..]);
    assert MonthNumbers(span) == [NatToString(MonthNumber(span[0]))] + tail;
    if k > 0 {
      MonthNumbersAt(span[1..], k - 1);
      assert span[1..][k - 1] == span[k];
      assert MonthNumbers(span)[k] == tail[k - 1];
    }
  }

  /** `months_csv = ",".join(month_numbers)`. */
  method MonthsCsv(visits: seq<string>, picked: string) returns (csv: string)
    requires ValidSchedule(visits, picked) && IsMonthName(picked)
    ensures csv == Join(MonthNumbers(Span(visits, picked)), ',')
  {
    var span := MonthSpan(visits, picked);
    csv := Join(MonthNumbers(span), ',');
  }

  /** Splitting `months_csv` on "," gives one decimal token per span month, in walk
      order, and the last one is the picked month's number. */
  lemma MonthsCsvTokens(visits: seq<string>, picked: string)
    requires ValidSchedule(visits, picked) && IsMonthName(picked)
    ensures var span := Span(visits, picked);
      var tokens := Split(Join(MonthNumbers(span), ','), ',');
      && |tokens| == |span|
      && (forall k :: 0 <= k < |tokens| ==> IsDigits(tokens[k]) && DigitsValue(tokens[k]) == MonthNumber(span[k]))
      && DigitsValue(tokens[|tokens| - 1]) == MonthNumber(picked)
  {
    SpanShape(visits, picked);
    var span := Span(visits, picked);
    var nums := MonthNumbers(span);
    forall k | 0 <= k < |nums| ensures ',' !in nums[k] && IsDigits(nums[k]) && DigitsValue(nums[k]) == MonthNumber(span[k]) {
      MonthNumbersAt(span, k);
      DigitsOfNat(MonthNumber(span[k]));
      assert forall j :: 0 <= j < |nums[k]| ==> IsDigit(nums[k][j]);
    }
    SplitJoin(nums, ',');
  }
}
