/**
 * FlowData.py `sheet_to_word_table`, lines 165-238: the flow series of the table
 * rows, the points above the peak capacity, the by-day chart data and the summary
 * sentence's numbers (how many days exceeded, and where the average lies against
 * the capacity).
 */
module FlowSeries {
  import opened Wrappers
  import opened Stamps
  import opened Cells
  import opened DateCells
  import opened Scans

  // ---------------------------------------------------------------------------
  // The points (lines 165-188)

  /** The formats tried, in this order, on a column-1 value that is not a datetime. */
  const FlowDateFormats: seq<string> := ["%d-%b-%y", "%d-%b-%Y", "%Y-%m-%d", "%b %d, %Y", "%B %d, %Y"]

  /** `dt` of a row: a datetime as it is, any other truthy value through `strptime`
      on its string form, None otherwise or when no format parses it. */
  function RowDate(c: Cell, lib: Library): Option<Stamp>
  {
    if c.DateTime? then Some(c.t)
    else if Truthy(c) then FirstParse(lib.strptime, Display(c), FlowDateFormats)
    else None
  }

  /** The date lookup with its loop over the formats and its `break`. */
  method ParseRowDate(c: Cell, lib: Library) returns (dt: Option<Stamp>)
    ensures dt == RowDate(c, lib)
  {
    dt := None;
    if c.DateTime? {
      dt := Some(c.t);
    } else if Truthy(c) {
      var text := Display(c);
      var k := 0;
      while k < |FlowDateFormats|
        invariant 0 <= k <= |FlowDateFormats|
        invariant dt.None?
        invariant FirstParse(lib.strptime, text, FlowDateFormats) == FirstParse(lib.strptime, text, FlowDateFormats[k..])
      {
        assert FlowDateFormats[k..][0] == FlowDateFormats[k];
        assert FlowDateFormats[k..][1..] == FlowDateFormats[k + 1..];
        var parsed := lib.strptime(text, FlowDateFormats[k]);
        if parsed.Some? {
          dt := parsed;
          break;
        }
        k := k + 1;
      }
    }
  }

  /** One point of the series: its sheet row, `dt` and `fval`. */
  datatype FlowPoint = FlowPoint(row: int, at: Option<Stamp>, value: real)

  /** Row r's point: None where `float()` of its chart cell raises (`continue`). */
  function PointOf(ws: Sheet, lib: Library, col: int, r: int): Option<FlowPoint>
  {
    match FloatOf(At(ws, r, col), lib)
    case None => None
    case Some(v) => Some(FlowPoint(r, RowDate(At(ws, r, 1), lib), v))
  }

  function PointIn(ws: Sheet, lib: Library, col: int): int -> Option<FlowPoint>
  {
    r => PointOf(ws, lib, col, r)
  }

  /** The points of rows lo..hi, in row order. */
  function Gather(point: int -> Option<FlowPoint>, lo: int, hi: int): seq<FlowPoint>
    decreases hi - lo
  {
    if hi < lo then []
    else Gather(point, lo, hi - 1) + (match point(hi) case None => [] case Some(p) => [p])
  }

  /** `times` and `values` of the table rows lo..hi, the values read from column `col`. */
  function FlowPoints(ws: Sheet, lib: Library, col: int, lo: int, hi: int): seq<FlowPoint>
  {
    Gather(PointIn(ws, lib, col), lo, hi)
  }

  /** `fval > peak_capacity` with a capacity, and a marked column. */
  predicate Exceeds(p: FlowPoint, capacity: Option<real>, marked: bool)
  {
    capacity.Some? && p.value > capacity.value && marked
  }

  /** `exceedances`: the points above the capacity, in order. */
  function Exceedances(pts: seq<FlowPoint>, capacity: Option<real>, marked: bool): seq<FlowPoint>
  {
    if pts == [] then []
    else
      var p := pts[|pts| - 1];
      Exceedances(pts[..|pts| - 1], capacity, marked) + (if Exceeds(p, capacity, marked) then [p] else [])
  }

  /** The series loop: the points and the exceedances, appended row by row. */
  method BuildFlowSeries(ws: Sheet, lib: Library, col: int, dateRow: int, avgRow: int,
                         capacity: Option<real>, marked: bool)
    returns (points: seq<FlowPoint>, exceedances: seq<FlowPoint>)
    ensures points == FlowPoints(ws, lib, col, dateRow, avgRow)
    ensures exceedances == Exceedances(points, capacity, marked)
  {
    points, exceedances := [], [];
    var r := dateRow;
    while r <= avgRow
      invariant dateRow <= r && (r <= avgRow + 1 || r == dateRow)
      invariant points == Gather(PointIn(ws, lib, col), dateRow, r - 1)
      invariant exceedances == Exceedances(points, capacity, marked)
      decreases avgRow - r
    {
      var dt := ParseRowDate(At(ws, r, 1), lib);
      var fval := FloatOf(At(ws, r, col), lib);
      if fval.Some? {
        var p := FlowPoint(r, dt, fval.value);
        assert PointIn(ws, lib, col)(r) == Some(p);
        assert (points + [p])[..|points|] == points;
        points := points + [p];
        if capacity.Some? && fval.value > capacity.value && marked {
          exceedances := exceedances + [p];
        }
      } else {
        assert PointIn(ws, lib, col)(r).None?;
      }
      r := r + 1;
    }
  }

  /** For a point function that stamps each point with its row: every gathered point
      is the point of its row, rows ascend strictly within lo..hi, and every row of
      lo..hi that has a point contributes it. */
  lemma {:induction false} GatherShape(point: int -> Option<FlowPoint>, lo: int, hi: int)
    requires forall r :: point(r).Some? ==> point(r).value.row == r
    ensures var pts := Gather(point, lo, hi);
      && (forall i :: 0 <= i < |pts| ==> lo <= pts[i].row <= hi && point(pts[i].row) == Some(pts[i]))
      && (forall i, j :: 0 <= i < j < |pts| ==> pts[i].row < pts[j].row)
      && (forall r :: lo <= r <= hi && point(r).Some? ==> point(r).value in pts)
    decreases hi - lo
  {
    if hi >= lo {
      GatherShape(point, lo, hi - 1);
      var init := Gather(point, lo, hi - 1);
      var pts := Gather(point, lo, hi);
      assert forall i :: 0 <= i < |init| ==> pts[i] == init[i];
    }
  }

  /** The series holds one point per table row whose chart cell `float()` accepts, in
      row order: its value is that conversion and its time the row's date. */
  lemma FlowPointsShape(ws: Sheet, lib: Library, col: int, lo: int, hi: int)
    ensures var pts := FlowPoints(ws, lib, col, lo, hi);
      && (forall i :: 0 <= i < |pts| ==>
            && lo <= pts[i].row <= hi
            && FloatOf(At(ws, pts[i].row, col), lib) == Some(pts[i].value)
            && pts[i].at == RowDate(At(ws, pts[i].row, 1), lib))
      && (forall i, j :: 0 <= i < j < |pts| ==> pts[i].row < pts[j].row)
      && (forall r :: lo <= r <= hi && FloatOf(At(ws, r, col), lib).Some? ==>
            exists i :: 0 <= i < |pts| && pts[i].row == r)
  {
    var point := PointIn(ws, lib, col);
    GatherShape(point, lo, hi);
    var pts := FlowPoints(ws, lib, col, lo, hi);
    forall i | 0 <= i < |pts|
      ensures FloatOf(At(ws, pts[i].row, col), lib) == Some(pts[i].value)
      ensures pts[i].at == RowDate(At(ws, pts[i].row, 1), lib)
    {
      assert point(pts[i].row) == Some(pts[i]);
    }
    forall r | lo <= r <= hi && FloatOf(At(ws, r, col), lib).Some?
      ensures exists i :: 0 <= i < |pts| && pts[i].row == r
    {
      assert point(r).Some?;
      var i :| 0 <= i < |pts| && pts[i] == point(r).value;
    }
  }

  /** A point is an exceedance exactly when it is a point of the series above the
      capacity (strictly) and a column is marked; there are no more exceedances than
      points, and none without a capacity. */
  lemma {:induction false} ExceedancesShape(pts: seq<FlowPoint>, capacity: Option<real>, marked: bool)
    ensures var ex := Exceedances(pts, capacity, marked);
      && (forall p :: p in ex <==> p in pts && capacity.Some? && p.value > capacity.value && marked)
      && |ex| <= |pts|
      && (capacity.None? ==> ex == [])
  {
    if pts != [] {
      var init := pts[..|pts| - 1];
      ExceedancesShape(init, capacity, marked);
      assert pts == init + [pts[|pts| - 1]];
    }
  }

  // ---------------------------------------------------------------------------
  // The chart data (lines 194-200)

  /** `[(t, v) for t, v in zip(times, values) if isinstance(t, datetime)]`. */
  function Dated(pts: seq<FlowPoint>): seq<(Stamp, real)>
  {
    if pts == [] then []
    else
      var p := pts[|pts| - 1];
      Dated(pts[..|pts| - 1]) + (if p.at.Some? then [(p.at.value, p.value)] else [])
  }

  predicate AllUndated(pts: seq<FlowPoint>)
  {
    forall i :: 0 <= i < |pts| ==> pts[i].at.None?
  }

  /** The x and y values of the flow chart. */
  datatype Chart = Chart(days: seq<int>, values: seq<real>)

  /** The days of the month of the dated pairs. */
  function PairDays(pairs: seq<(Stamp, real)>): (days: seq<int>)
    ensures |days| == |pairs| && forall i :: 0 <= i < |pairs| ==> days[i] == pairs[i].0.day
  {
    seq(|pairs|, i requires 0 <= i < |pairs| => pairs[i].0.day)
  }

  /** The values of the dated pairs. */
  function PairValues(pairs: seq<(Stamp, real)>): (values: seq<real>)
    ensures |values| == |pairs| && forall i :: 0 <= i < |pairs| ==> values[i] == pairs[i].1
  {
    seq(|pairs|, i requires 0 <= i < |pairs| => pairs[i].1)
  }

  /** Days 1..n when no point has a date; otherwise the dated points only, each at its
      day of the month. */
  function ChartOf(pts: seq<FlowPoint>): (chart: Chart)
    ensures |chart.days| == |chart.values|
  {
    if |pts| > 0 && AllUndated(pts) then
      Chart(seq(|pts|, i => i + 1), seq(|pts|, i requires 0 <= i < |pts| => pts[i].value))
    else
      var pairs := Dated(pts);
      Chart(PairDays(pairs), PairValues(pairs))
  }

  /** The dated pairs are exactly the points' (time, value) where a time is present. */
  lemma {:induction false} DatedMembers(pts: seq<FlowPoint>)
    ensures forall x :: x in Dated(pts) <==> exists j :: 0 <= j < |pts| && pts[j].at == Some(x.0) && pts[j].value == x.1
    ensures |Dated(pts)| <= |pts|
    ensures AllUndated(pts) ==> Dated(pts) == []
  {
    if pts != [] {
      var init := pts[..|pts| - 1];
      var p := pts[|pts| - 1];
      DatedMembers(init);
      assert forall j :: 0 <= j < |init| ==> pts[j] == init[j];
      forall x ensures x in Dated(pts) <==> exists j :: 0 <= j < |pts| && pts[j].at == Some(x.0) && pts[j].value == x.1 {
        if exists j :: 0 <= j < |pts| && pts[j].at == Some(x.0) && pts[j].value == x.1 {
          var j :| 0 <= j < |pts| && pts[j].at == Some(x.0) && pts[j].value == x.1;
          if j < |init| {
            assert init[j].at == Some(x.0) && init[j].value == x.1;
          }
        }
      }
    }
  }

  /** Point j has a date. */
  function DatedIn(pts: seq<FlowPoint>): int -> bool
  {
    j => 0 <= j < |pts| && pts[j].at.Some?
  }

  /** The positions of the dated points, in ascending order. */
  function DatedIndices(pts: seq<FlowPoint>): seq<int>
  {
    Where(DatedIn(pts), 0, |pts| - 1)
  }

  /** The dated pairs are the dated points taken in order, one pair per point. */
  lemma {:induction false} DatedAtIndices(pts: seq<FlowPoint>)
    ensures var ix := DatedIndices(pts);
      && |Dated(pts)| == |ix|
      && forall i :: 0 <= i < |ix| ==>
           0 <= ix[i] < |pts| && pts[ix[i]].at.Some? && Dated(pts)[i] == (pts[ix[i]].at.value, pts[ix[i]].value)
  {
    WhereIsFilter(DatedIn(pts), 0, |pts| - 1);
    if pts != [] {
      var init := pts[..|pts| - 1];
      var p := pts[|pts| - 1];
      DatedAtIndices(init);
      WhereCongruent(DatedIn(init), DatedIn(pts), 0, |init| - 1);
      var ix0 := DatedIndices(init);
      assert DatedIndices(pts) == ix0 + (if p.at.Some? then [|init|] else []);
      forall i | 0 <= i < |ix0| ensures pts[ix0[i]] == init[ix0[i]] {
      }
    }
  }

  /** With some dated point (or no point at all), the chart holds the dated points
      in point order, one entry per dated point, each at its day of the month with
      its value. */
  lemma ChartDatedOrder(pts: seq<FlowPoint>)
    requires !(|pts| > 0 && AllUndated(pts))
    ensures var chart := ChartOf(pts);
      var ix := DatedIndices(pts);
      && (forall j :: j in ix <==> 0 <= j < |pts| && pts[j].at.Some?)
      && (forall k, l :: 0 <= k < l < |ix| ==> ix[k] < ix[l])
      && |chart.days| == |ix|
      && (forall i :: 0 <= i < |ix| ==>
            0 <= ix[i] < |pts| && pts[ix[i]].at.Some?
            && chart.days[i] == pts[ix[i]].at.value.day && chart.values[i] == pts[ix[i]].value)
  {
    var pairs := Dated(pts);
    assert ChartOf(pts) == Chart(PairDays(pairs), PairValues(pairs));
    WhereIsFilter(DatedIn(pts), 0, |pts| - 1);
    DatedAtIndices(pts);
  }

  /** With some dated point (or no point at all), each day and value of the chart
      is a dated point's day of the month and value, and every dated point is
      drawn; ChartDatedOrder gives the order. */
  lemma ChartDatedShape(pts: seq<FlowPoint>)
    requires !(|pts| > 0 && AllUndated(pts))
    ensures var chart := ChartOf(pts);
      && (forall i :: 0 <= i < |chart.days| ==>
            (exists j :: 0 <= j < |pts| && pts[j].at.Some?
               && chart.days[i] == pts[j].at.value.day && chart.values[i] == pts[j].value))
      && (forall j :: 0 <= j < |pts| && pts[j].at.Some? ==>
            (exists i :: 0 <= i < |chart.days| && chart.days[i] == pts[j].at.value.day
               && chart.values[i] == pts[j].value))
  {
    var pairs := Dated(pts);
    var chart := Chart(PairDays(pairs), PairValues(pairs));
    assert ChartOf(pts) == chart;
    forall i | 0 <= i < |chart.days|
      ensures exists j :: (0 <= j < |pts| && pts[j].at.Some?
        && chart.days[i] == pts[j].at.value.day && chart.values[i] == pts[j].value)
    {
      DatedMembers(pts);
      assert pairs[i] in pairs;
    }
    forall j | 0 <= j < |pts| && pts[j].at.Some?
      ensures exists i :: (0 <= i < |chart.days| && chart.days[i] == pts[j].at.value.day
        && chart.values[i] == pts[j].value)
    {
      var x := (pts[j].at.value, pts[j].value);
      assert x in pairs by {
        DatedMembers(pts);
      }
      var i :| 0 <= i < |pairs| && pairs[i] == x;
      assert chart.days[i] == pts[j].at.value.day;
    }
  }

  /** The chart has as many days as values. With no dated point (and some point) the
      days are 1..n over every value; otherwise each day and value is a dated point's
      day of the month and value, and every dated point is drawn. */
  lemma ChartOfShape(pts: seq<FlowPoint>)
    ensures var chart := ChartOf(pts);
      && |chart.days| == |chart.values|
      && (|pts| > 0 && AllUndated(pts) ==>
            forall i :: 0 <= i < |pts| ==> chart.days[i] == i + 1 && chart.values[i] == pts[i].value)
      && (!(|pts| > 0 && AllUndated(pts)) ==>
            && (forall i :: 0 <= i < |chart.days| ==>
                  (exists j :: 0 <= j < |pts| && pts[j].at.Some?
                     && chart.days[i] == pts[j].at.value.day && chart.values[i] == pts[j].value))
            && (forall j :: 0 <= j < |pts| && pts[j].at.Some? ==>
                  (exists i :: 0 <= i < |chart.days| && chart.days[i] == pts[j].at.value.day
                     && chart.values[i] == pts[j].value)))
  {
    if !(|pts| > 0 && AllUndated(pts)) {
      ChartDatedShape(pts);
    }
  }

  // ---------------------------------------------------------------------------
  // The summary sentence (lines 235-238)

  /** "well within", "close to", "above" (the anticipated range). */
  datatype Band = WellWithin | CloseTo | Above

  /** Line 238. */
  function Classify(average: real, capacity: real): Band
  {
    if average < 0.9 * capacity then WellWithin
    else if average <= capacity then CloseTo
    else Above
  }

  /** For a capacity that is not negative (the capacity's text is digits and commas):
      below 90% of it is "well within", from 90% up to and including 100% "close to",
      above it "above"; exactly 90% and exactly 100% are both "close to". */
  lemma ClassifyBands(average: real, capacity: real)
    requires capacity >= 0.0
    ensures Classify(average, capacity) == WellWithin <==> average < 0.9 * capacity
    ensures Classify(average, capacity) == CloseTo <==> 0.9 * capacity <= average <= capacity
    ensures Classify(average, capacity) == Above <==> average > capacity
    ensures Classify(0.9 * capacity, capacity) == CloseTo && Classify(capacity, capacity) == CloseTo
  {
  }

  function Rank(b: Band): nat
  {
    match b
    case WellWithin => 0
    case CloseTo => 1
    case Above => 2
  }

  /** A larger average never lands in a lower band. */
  lemma ClassifyMonotone(a1: real, a2: real, capacity: real)
    requires capacity >= 0.0 && a1 <= a2
    ensures Rank(Classify(a1, capacity)) <= Rank(Classify(a2, capacity))
  {
  }

  function Sum(vs: seq<real>): real
  {
    if vs == [] then 0.0 else Sum(vs[..|vs| - 1]) + vs[|vs| - 1]
  }

  /** `sum(values) / len(values)`. */
  function Mean(vs: seq<real>): real
    requires |vs| > 0
  {
    Sum(vs) / (|vs| as real)
  }

  /** The number of values strictly above the capacity. */
  function CountAbove(vs: seq<real>, capacity: real): nat
  {
    if vs == [] then 0
    else CountAbove(vs[..|vs| - 1], capacity) + (if vs[|vs| - 1] > capacity then 1 else 0)
  }

  lemma {:induction false} CountAboveShape(vs: seq<real>, capacity: real)
    ensures CountAbove(vs, capacity) <= |vs|
    ensures CountAbove(vs, capacity) > 0 <==> exists i :: 0 <= i < |vs| && vs[i] > capacity
  {
    if vs != [] {
      var init := vs[..|vs| - 1];
      CountAboveShape(init, capacity);
      assert forall i :: 0 <= i < |init| ==> vs[i] == init[i];
      if CountAbove(init, capacity) > 0 {
        var i :| 0 <= i < |init| && init[i] > capacity;
        assert vs[i] > capacity;
      }
    }
  }

  /** A sum above n times a bound needs a value above the bound. */
  lemma {:induction false} SumAboveHasValueAbove(vs: seq<real>, bound: real)
    requires |vs| > 0 && Sum(vs) > (|vs| as real) * bound
    ensures exists i :: 0 <= i < |vs| && vs[i] > bound
  {
    var init := vs[..|vs| - 1];
    var x := vs[|vs| - 1];
    if x <= bound {
      SumAboveHasValueAbove(init, bound);
      var i :| 0 <= i < |init| && init[i] > bound;
      assert vs[i] == init[i];
    }
  }

  /** An average above the capacity needs a value above it. */
  lemma MeanAboveHasValueAbove(vs: seq<real>, capacity: real)
    requires |vs| > 0 && Mean(vs) > capacity
    ensures exists i :: 0 <= i < |vs| && vs[i] > capacity
  {
    var n := |vs| as real;
    var m := Mean(vs);
    assert Sum(vs) == m * n;
    assert m * n > capacity * n;
    SumAboveHasValueAbove(vs, capacity);
  }

  /** The two numbers of the sentence and the band of the average. */
  datatype FlowSummary = FlowSummary(exceeded: nat, average: real, band: Band)

  /** The sentence's numbers as the code computes them: `exceed_count` counts every
      exceedance, including those of rows without a date such as the Average row. */
  function SummaryAsWritten(chart: Chart, exceedances: seq<FlowPoint>, capacity: Option<real>): Option<FlowSummary>
  {
    if |chart.values| > 0 && |chart.days| > 0 && capacity.Some? then
      var average := Mean(chart.values);
      Some(FlowSummary(|exceedances|, average, Classify(average, capacity.value)))
    else None
  }

  /** The sentence `main` writes: present exactly when a capacity is known and the
      chart has values; it counts one day exceeded per exceedance and gives the
      chart's mean and its band. */
  lemma SummaryAsWrittenShape(pts: seq<FlowPoint>, exceedances: seq<FlowPoint>, capacity: Option<real>)
    ensures var chart := ChartOf(pts);
      var s := SummaryAsWritten(chart, exceedances, capacity);
      && (s.Some? <==> |chart.values| > 0 && capacity.Some?)
      && (s.Some? ==>
            && s.value.exceeded == |exceedances|
            && s.value.average == Mean(chart.values)
            && s.value.band == Classify(Mean(chart.values), capacity.value))
  {
    ChartOfShape(pts);
  }

  /** The sentence's numbers with the days exceeded counted over the chart's days: the
      charted values above the capacity. */
  function SummaryOf(chart: Chart, capacity: Option<real>): Option<FlowSummary>
  {
    if |chart.values| > 0 && |chart.days| > 0 && capacity.Some? then
      var average := Mean(chart.values);
      Some(FlowSummary(CountAbove(chart.values, capacity.value), average, Classify(average, capacity.value)))
    else None
  }

  /** There is a sentence exactly when the chart has values and a capacity is known;
      it never counts more days exceeded than the chart has days, it counts at least
      one whenever the average is above the capacity, and it counts none exactly when
      no charted value is above the capacity. */
  lemma SummaryShape(pts: seq<FlowPoint>, capacity: Option<real>)
    ensures var chart := ChartOf(pts);
      var s := SummaryOf(chart, capacity);
      && (s.Some? <==> |chart.values| > 0 && capacity.Some?)
      && (s.Some? ==>
            && s.value.average == Mean(chart.values)
            && s.value.band == Classify(Mean(chart.values), capacity.value)
            && s.value.exceeded <= |chart.days|
            && (s.value.exceeded > 0 <==> exists i :: 0 <= i < |chart.values| && chart.values[i] > capacity.value)
            && (s.value.band == Above ==> s.value.exceeded > 0))
  {
    var chart := ChartOf(pts);
    if |chart.values| > 0 && capacity.Some? {
      CountAboveShape(chart.values, capacity.value);
      if Mean(chart.values) > capacity.value {
        MeanAboveHasValueAbove(chart.values, capacity.value);
      }
    }
  }

  /** A sheet whose one dated day and whose Average row both read 150 against a
      capacity of 100: the code reports two days exceeded for a chart of one day. */
  lemma AverageRowCounted(t: Stamp)
    ensures var pts := [FlowPoint(2, Some(t), 150.0), FlowPoint(3, None, 150.0)];
      var chart := ChartOf(pts);
      var ex := Exceedances(pts, Some(100.0), true);
      && |chart.days| == 1
      && SummaryAsWritten(chart, ex, Some(100.0)).value.exceeded == 2
      && SummaryOf(chart, Some(100.0)).value.exceeded == 1
  {
    var day, avg := FlowPoint(2, Some(t), 150.0), FlowPoint(3, None, 150.0);
    var pts := [day, avg];
    assert pts[..1] == [day] && [day][..0] == [];
    assert Exceedances([day], Some(100.0), true) == [day];
    assert Exceedances(pts, Some(100.0), true) == pts;
    assert Dated([day]) == [(t, 150.0)];
    assert Dated(pts) == [(t, 150.0)];
    assert !AllUndated(pts) by {
      assert pts[0].at.Some?;
    }
    var chart := ChartOf(pts);
    assert chart.values == [150.0];
    assert chart.values[..0] == [];
    assert CountAbove(chart.values, 100.0) == CountAbove([], 100.0) + 1;
  }
}
