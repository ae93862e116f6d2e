/**
 * SGSData.py: the series each graph plots (`table_then_two_graphs`, lines 231-252)
 * and the clean-up of `plot_series_to_doc` (lines 118-125). A series dictionary
 * keeps Python's insertion order, so it is a list of entries with distinct labels.
 */
module PlotSeries {
  import opened Wrappers
  import opened Cells
  import opened Scans
  import opened SampleRows
  import opened TimeSort
  import opened VisitWindow

  // ---------------------------------------------------------------------------
  // The points of one column

  /** `float()` of a window row's cell in column c, None where it raises. */
  function CellValue(ws: Sheet, lib: Library, c: int): DatedRow -> Option<real>
  {
    (r: DatedRow) => FloatOf(At(ws, r.row, c), lib)
  }

  /** The inner loop's `pts` for a column whose cells convert by `value`: a point for
      each window row whose cell converts; rows where `float()` raises are skipped. */
  function PointsOf(value: DatedRow -> Option<real>, window: seq<DatedRow>): seq<Point>
  {
    if window == [] then []
    else
      var last := window[|window| - 1];
      PointsOf(value, window[..|window| - 1])
        + (match value(last)
           case Some(v) => [Point(last.date, v)]
           case None => [])
  }

  /** The inner loop `for i in idxs: ... pts.append((dates[i], float(v)))`. */
  method BuildPoints(value: DatedRow -> Option<real>, window: seq<DatedRow>) returns (pts: seq<Point>)
    ensures pts == PointsOf(value, window)
  {
    pts := [];
    var i := 0;
    while i < |window|
      invariant 0 <= i <= |window|
      invariant pts == PointsOf(value, window[..i])
    {
      assert window[..i + 1][..i] == window[..i];
      var f := value(window[i]);
      if f.Some? {
        pts := pts + [Point(window[i].date, f.value)];
      }
      i := i + 1;
    }
    assert window[..|window|] == window;
  }

  /** Window position k holds a cell that converts. */
  function ConvertsIn(value: DatedRow -> Option<real>, window: seq<DatedRow>): int -> bool
  {
    k => 0 <= k < |window| && value(window[k]).Some?
  }

  /** The points are, in order, exactly the window rows whose cell converts, each
      with its row's date and the converted value: no row is filled in with a
      default. */
  lemma {:induction false} PointsShape(value: DatedRow -> Option<real>, window: seq<DatedRow>)
    ensures var ks := Where(ConvertsIn(value, window), 0, |window| - 1);
      var pts := PointsOf(value, window);
      && |pts| == |ks|
      && forall j :: 0 <= j < |ks| ==>
        && 0 <= ks[j] < |window|
        && value(window[ks[j]]).Some?
        && pts[j] == Point(window[ks[j]].date, value(window[ks[j]]).value)
  {
    if window != [] {
      var init := window[..|window| - 1];
      var n := |window| - 1;
      PointsShape(value, init);
      WhereCongruent(ConvertsIn(value, init), ConvertsIn(value, window), 0, n - 1);
      var before := Where(ConvertsIn(value, init), 0, n - 1);
      var ks := Where(ConvertsIn(value, window), 0, n);
      var prev := PointsOf(value, init);
      var pts := PointsOf(value, window);
      assert ks == before + (if ConvertsIn(value, window)(n) then [n] else []);
      assert pts == prev + (match value(window[n]) case Some(v) => [Point(window[n].date, v)] case None => []);
      forall j | 0 <= j < |ks|
        ensures 0 <= ks[j] < |window| && value(window[ks[j]]).Some?
        ensures pts[j] == Point(window[ks[j]].date, value(window[ks[j]]).value)
      {
        if j < |before| {
          assert ks[j] == before[j] && pts[j] == prev[j];
          assert window[ks[j]] == init[before[j]];
        }
      }
    }
  }

  // ---------------------------------------------------------------------------
  // Dictionaries from label to points

  datatype Entry = Entry(name: string, points: seq<Point>)

  predicate DistinctKeys(d: seq<Entry>)
  {
    forall i, j :: 0 <= i < j < |d| ==> d[i].name != d[j].name
  }

  /** The position of `key` among the dictionary's keys: the first entry named `key`. */
  function KeyIndex(d: seq<Entry>, key: string): (r: Option<nat>)
    ensures r.Some? ==> r.value < |d|
  {
    if d == [] then None
    else if d[0].name == key then Some(0)
    else
      match KeyIndex(d[1..], key)
      case None => None
      case Some(i) => Some(i + 1)
  }

  /** The position found is the first entry named `key`, and there is none exactly
      when no entry has that name. */
  lemma {:induction false} KeyIndexShape(d: seq<Entry>, key: string)
    ensures var r := KeyIndex(d, key);
      && (r.None? <==> forall i :: 0 <= i < |d| ==> d[i].name != key)
      && (r.Some? ==> d[r.value].name == key && forall i :: 0 <= i < r.value ==> d[i].name != key)
  {
    if d != [] && d[0].name != key {
      KeyIndexShape(d[1..], key);
      assert forall i :: 1 <= i < |d| ==> d[i] == d[1..][i - 1];
    }
  }

  /** `d.get(key)`. */
  function Lookup(d: seq<Entry>, key: string): Option<seq<Point>>
  {
    match KeyIndex(d, key)
    case None => None
    case Some(i) => Some(d[i].points)
  }

  /** `d[key] = v`: an existing key keeps its place, a new one goes last. */
  function Put(d: seq<Entry>, key: string, v: seq<Point>): seq<Entry>
  {
    match KeyIndex(d, key)
    case Some(i) => d[i := Entry(key, v)]
    case None => d + [Entry(key, v)]
  }

  /** With distinct keys, each entry is what its key looks up. */
  lemma LookupAt(d: seq<Entry>, i: int)
    requires DistinctKeys(d) && 0 <= i < |d|
    ensures Lookup(d, d[i].name) == Some(d[i].points)
  {
    KeyIndexShape(d, d[i].name);
    var j := KeyIndex(d, d[i].name).value;
    assert j == i;
  }

  lemma LookupMissing(d: seq<Entry>, key: string)
    requires forall i :: 0 <= i < |d| ==> d[i].name != key
    ensures Lookup(d, key).None?
  {
    KeyIndexShape(d, key);
  }

  /** `d[key] = v` for a key not in d appends the entry. */
  lemma PutNew(d: seq<Entry>, key: string, v: seq<Point>)
    requires forall i :: 0 <= i < |d| ==> d[i].name != key
    ensures Put(d, key, v) == d + [Entry(key, v)]
  {
    KeyIndexShape(d, key);
  }

  /** A dictionary update: afterwards the key finds the new value and every other key
      what it found before; keys stay distinct; a new key is appended; every entry is
      an old one or the new one. */
  lemma PutFacts(d: seq<Entry>, key: string, v: seq<Point>)
    requires DistinctKeys(d)
    ensures var r := Put(d, key, v);
      && DistinctKeys(r)
      && Lookup(r, key) == Some(v)
      && (forall k :: k != key ==> Lookup(r, k) == Lookup(d, k))
      && (forall i :: 0 <= i < |r| ==> r[i] == Entry(key, v) || r[i] in d)
      && ((forall i :: 0 <= i < |d| ==> d[i].name != key) ==> r == d + [Entry(key, v)])
  {
    var r := Put(d, key, v);
    var found := KeyIndex(d, key);
    KeyIndexShape(d, key);
    if found.Some? {
      assert forall j :: 0 <= j < |r| ==> r[j].name == d[j].name;
    } else {
      assert forall j :: 0 <= j < |d| ==> r[j] == d[j];
    }
    assert DistinctKeys(r);
    LookupAt(r, if found.Some? then found.value else |d|);
    forall k | k != key ensures Lookup(r, k) == Lookup(d, k) {
      if j :| 0 <= j < |d| && d[j].name == k {
        assert r[j] == d[j];
        LookupAt(r, j);
        LookupAt(d, j);
      } else {
        LookupMissing(d, k);
        LookupMissing(r, k);
      }
    }
  }

  // ---------------------------------------------------------------------------
  // The series of one graph

  /** Pair j's cells: those of column `cols[j]`, none past the columns. */
  function ColumnValues(ws: Sheet, lib: Library, cols: seq<int>): int -> (DatedRow -> Option<real>)
  {
    j => if 0 <= j < |cols| then CellValue(ws, lib, cols[j]) else (r: DatedRow) => None
  }

  /** Pair j's points, its cells converting by `valueOf(j)`. */
  function PointsFrom(valueOf: int -> (DatedRow -> Option<real>), window: seq<DatedRow>): int -> seq<Point>
  {
    j => PointsOf(valueOf(j), window)
  }

  /** `series` after the first n pairs of `zip(labels, cols)`, pair j's points being
      `pointsOf(j)`. */
  function SeriesUpTo(labels: seq<string>, pointsOf: int -> seq<Point>, n: nat): seq<Entry>
    requires n <= |labels|
  {
    if n == 0 then []
    else
      var d := SeriesUpTo(labels, pointsOf, n - 1);
      var pts := pointsOf(n - 1);
      if pts != [] then Put(d, labels[n - 1], pts) else d
  }

  /** `series1` / `series2`: zip stops at the shorter list. */
  function SeriesOf(ws: Sheet, lib: Library, labels: seq<string>, cols: seq<int>, window: seq<DatedRow>): seq<Entry>
  {
    SeriesUpTo(labels, PointsFrom(ColumnValues(ws, lib, cols), window), if |labels| < |cols| then |labels| else |cols|)
  }

  /** The graph loop of lines 232-239, over the first n pairs. */
  method CollectSeries(labels: seq<string>, valueOf: int -> (DatedRow -> Option<real>), n: nat, window: seq<DatedRow>)
    returns (series: seq<Entry>)
    requires n <= |labels|
    ensures series == SeriesUpTo(labels, PointsFrom(valueOf, window), n)
  {
    ghost var pointsOf := PointsFrom(valueOf, window);
    series := [];
    var i := 0;
    while i < n
      invariant 0 <= i <= n
      invariant series == SeriesUpTo(labels, pointsOf, i)
    {
      var pts := BuildPoints(valueOf(i), window);
      assert pts == pointsOf(i);
      if pts != [] {
        series := Put(series, labels[i], pts);
      }
      i := i + 1;
    }
  }

  /** The graph loop over `zip(labels, cols)`. */
  method BuildSeries(ws: Sheet, lib: Library, labels: seq<string>, cols: seq<int>, window: seq<DatedRow>)
    returns (series: seq<Entry>)
    ensures series == SeriesOf(ws, lib, labels, cols, window)
  {
    var n := if |labels| < |cols| then |labels| else |cols|;
    series := CollectSeries(labels, ColumnValues(ws, lib, cols), n, window);
  }

  /** Pair j is the last of the first n whose label is `key` and that has points. */
  predicate LastWithPoints(labels: seq<string>, pointsOf: int -> seq<Point>, n: nat, key: string, j: int)
    requires n <= |labels|
  {
    && 0 <= j < n && labels[j] == key && pointsOf(j) != []
    && forall j' :: j < j' < n && labels[j'] == key ==> pointsOf(j') == []
  }

  /** The series has distinct labels and no empty entry. */
  lemma {:induction false} SeriesUpToDistinct(labels: seq<string>, pointsOf: int -> seq<Point>, n: nat)
    requires n <= |labels|
    ensures var d := SeriesUpTo(labels, pointsOf, n);
      DistinctKeys(d) && forall i :: 0 <= i < |d| ==> d[i].points != []
  {
    if n > 0 {
      SeriesUpToDistinct(labels, pointsOf, n - 1);
      var d := SeriesUpTo(labels, pointsOf, n - 1);
      var pts := pointsOf(n - 1);
      if pts != [] {
        PutFacts(d, labels[n - 1], pts);
      }
    }
  }

  /** A label is in the series exactly when some pair with that label has points. */
  lemma {:induction false} SeriesUpToKeys(labels: seq<string>, pointsOf: int -> seq<Point>, n: nat)
    requires n <= |labels|
    ensures var d := SeriesUpTo(labels, pointsOf, n);
      forall key :: Lookup(d, key).Some? <==> exists j :: 0 <= j < n && labels[j] == key && pointsOf(j) != []
  {
    if n > 0 {
      SeriesUpToKeys(labels, pointsOf, n - 1);
      SeriesUpToDistinct(labels, pointsOf, n - 1);
      var d := SeriesUpTo(labels, pointsOf, n - 1);
      var pts := pointsOf(n - 1);
      var r := SeriesUpTo(labels, pointsOf, n);
      if pts != [] {
        PutFacts(d, labels[n - 1], pts);
      }
      forall key ensures Lookup(r, key).Some? <==> exists j :: 0 <= j < n && labels[j] == key && pointsOf(j) != []
      {
        if key == labels[n - 1] && pts != [] {
          assert Lookup(r, key).Some?;
        } else {
          assert Lookup(r, key) == Lookup(d, key);
          assert (exists j :: 0 <= j < n && labels[j] == key && pointsOf(j) != [])
            ==> exists j :: 0 <= j < n - 1 && labels[j] == key && pointsOf(j) != [];
        }
      }
    }
  }

  /** For a label in the series, its points are those of the last pair with that
      label that has points: a later column with the same header overwrites an
      earlier one. */
  lemma {:induction false} SeriesUpToLastWins(labels: seq<string>, pointsOf: int -> seq<Point>, n: nat)
    requires n <= |labels|
    ensures var d := SeriesUpTo(labels, pointsOf, n);
      forall key, j :: LastWithPoints(labels, pointsOf, n, key, j) ==> Lookup(d, key) == Some(pointsOf(j))
  {
    if n > 0 {
      SeriesUpToLastWins(labels, pointsOf, n - 1);
      SeriesUpToDistinct(labels, pointsOf, n - 1);
      var d := SeriesUpTo(labels, pointsOf, n - 1);
      var pts := pointsOf(n - 1);
      var r := SeriesUpTo(labels, pointsOf, n);
      if pts != [] {
        PutFacts(d, labels[n - 1], pts);
        forall key, j | LastWithPoints(labels, pointsOf, n, key, j)
          ensures Lookup(r, key) == Some(pointsOf(j))
        {
          if key != labels[n - 1] {
            assert LastWithPoints(labels, pointsOf, n - 1, key, j);
          }
        }
      } else {
        forall key, j | LastWithPoints(labels, pointsOf, n, key, j)
          ensures LastWithPoints(labels, pointsOf, n - 1, key, j)
        {
        }
      }
    }
  }

  // ---------------------------------------------------------------------------
  // plot_series_to_doc

  /** `clean`: each series' points in time order, empty series dropped. The
      `isinstance(dt, datetime)` filter keeps every point here, since every date
      of a dated row is a datetime. */
  function Cleaned(series: seq<Entry>): seq<Entry>
  {
    if series == [] then []
    else
      var clean := Cleaned(series[..|series| - 1]);
      var last := series[|series| - 1];
      var pts := SortByTime(last.points);
      if pts != [] then Put(clean, last.name, pts) else clean
  }

  /** The loop of lines 121-124. */
  method PrepareSeries(series: seq<Entry>) returns (clean: seq<Entry>)
    ensures clean == Cleaned(series)
  {
    clean := [];
    var i := 0;
    while i < |series|
      invariant 0 <= i <= |series|
      invariant clean == Cleaned(series[..i])
    {
      assert series[..i + 1][..i] == series[..i];
      var pts := SortByTime(series[i].points);
      if pts != [] {
        clean := Put(clean, series[i].name, pts);
      }
      i := i + 1;
    }
    assert series[..|series|] == series;
  }

  /** Each entry with its points in time order. */
  function SortedEach(series: seq<Entry>): (r: seq<Entry>)
    ensures |r| == |series|
    ensures forall i :: 0 <= i < |series| ==> r[i].name == series[i].name
  {
    if series == [] then []
    else
      var last := series[|series| - 1];
      SortedEach(series[..|series| - 1]) + [Entry(last.name, SortByTime(last.points))]
  }

  lemma {:induction false} CleanedIsSortedEach(series: seq<Entry>)
    requires DistinctKeys(series)
    requires forall i :: 0 <= i < |series| ==> series[i].points != []
    ensures Cleaned(series) == SortedEach(series)
  {
    if series != [] {
      var init := series[..|series| - 1];
      var last := series[|series| - 1];
      assert DistinctKeys(init) && forall i :: 0 <= i < |init| ==> init[i].points != [] by {
        assert forall i :: 0 <= i < |init| ==> init[i] == series[i];
      }
      CleanedIsSortedEach(init);
      var pts := SortByTime(last.points);
      assert pts != [] by {
        assert |multiset(pts)| == |multiset(last.points)|;
      }
      var done := SortedEach(init);
      assert Cleaned(series) == Put(done, last.name, pts);
      forall i | 0 <= i < |done| ensures done[i].name != last.name {
        assert done[i].name == series[i].name;
      }
      PutNew(done, last.name, pts);
    }
  }

  lemma {:induction false} SortedEachAt(series: seq<Entry>, i: int)
    requires 0 <= i < |series|
    ensures SortedEach(series)[i] == Entry(series[i].name, SortByTime(series[i].points))
  {
    var init := series[..|series| - 1];
    if i < |init| {
      SortedEachAt(init, i);
      assert init[i] == series[i];
    }
  }

  /** For a series with distinct labels and no empty entry, cleaning keeps every
      entry in place and only sorts its points by time. */
  lemma CleanedSortsEach(series: seq<Entry>)
    requires DistinctKeys(series)
    requires forall i :: 0 <= i < |series| ==> series[i].points != []
    ensures |Cleaned(series)| == |series|
    ensures forall i :: 0 <= i < |series| ==>
      Cleaned(series)[i] == Entry(series[i].name, SortByTime(series[i].points))
  {
    CleanedIsSortedEach(series);
    forall i | 0 <= i < |series| ensures Cleaned(series)[i] == Entry(series[i].name, SortByTime(series[i].points)) {
      SortedEachAt(series, i);
    }
  }

  /** A graph: its title and the cleaned series it draws, one line each. */
  datatype Graph = Graph(title: string, series: seq<Entry>)

  /** `plot_series_to_doc`: no graph for an empty dictionary or one that cleans to
      nothing. Every cleaned entry has points, so the `any_pts` guard never stops it. */
  function PlotOf(title: string, series: seq<Entry>): Option<Graph>
  {
    if series == [] then None
    else
      var clean := Cleaned(series);
      if clean == [] then None else Some(Graph(title, clean))
  }

  /** `plot_series_to_doc` up to the drawing: the early returns and the clean-up. */
  method PlotSeriesToDoc(title: string, series: seq<Entry>) returns (g: Option<Graph>)
    ensures g == PlotOf(title, series)
  {
    if series == [] {
      return None;
    }
    var clean := PrepareSeries(series);
    if clean == [] {
      return None;
    }
    g := Some(Graph(title, clean));
  }

  /** A graph drawn from a series the graph loop built: one line per label, in the
      order the labels first got points, each line's points in time order. */
  lemma GraphOfSeries(ws: Sheet, lib: Library, labels: seq<string>, cols: seq<int>, window: seq<DatedRow>, title: string)
    ensures var series := SeriesOf(ws, lib, labels, cols, window);
      var g := PlotOf(title, series);
      && (g.Some? <==> series != [])
      && (g.Some? ==> g.value.title == title)
      && (g.Some? ==>
        && |g.value.series| == |series|
        && DistinctKeys(g.value.series)
        && forall i :: 0 <= i < |series| ==>
          && g.value.series[i].name == series[i].name
          && g.value.series[i].points != []
          && SortedByTime(g.value.series[i].points)
          && multiset(g.value.series[i].points) == multiset(series[i].points))
  {
    var n := if |labels| < |cols| then |labels| else |cols|;
    var series := SeriesOf(ws, lib, labels, cols, window);
    SeriesUpToDistinct(labels, PointsFrom(ColumnValues(ws, lib, cols), window), n);
    CleanedSortsEach(series);
    var clean := Cleaned(series);
    forall i | 0 <= i < |series| ensures SortedByTime(clean[i].points) && clean[i].points != [] {
      SortByTimeSorted(series[i].points);
      assert |multiset(clean[i].points)| == |multiset(series[i].points)|;
    }
    assert DistinctKeys(clean) by {
      forall i, j | 0 <= i < j < |clean| ensures clean[i].name != clean[j].name {
        assert clean[i].name == series[i].name && clean[j].name == series[j].name;
      }
    }
  }

  /** Among the first n pairs, one with label `key` has points, so there is a last
      such pair. */
  lemma {:induction false} LastWithPointsExists(labels: seq<string>, pointsOf: int -> seq<Point>, n: nat, key: string)
    requires n <= |labels|
    requires exists j :: 0 <= j < n && labels[j] == key && pointsOf(j) != []
    ensures exists j :: LastWithPoints(labels, pointsOf, n, key, j)
  {
    if labels[n - 1] == key && pointsOf(n - 1) != [] {
      assert LastWithPoints(labels, pointsOf, n, key, n - 1);
    } else {
      var j :| 0 <= j < n && labels[j] == key && pointsOf(j) != [];
      assert j < n - 1;
      LastWithPointsExists(labels, pointsOf, n - 1, key);
      var j' :| LastWithPoints(labels, pointsOf, n - 1, key, j');
      assert LastWithPoints(labels, pointsOf, n, key, j');
    }
  }

  /** The series after the first n pairs is empty exactly when no pair has points. */
  lemma SeriesUpToEmpty(labels: seq<string>, pointsOf: int -> seq<Point>, n: nat)
    requires n <= |labels|
    ensures SeriesUpTo(labels, pointsOf, n) != [] <==> exists j :: 0 <= j < n && pointsOf(j) != []
  {
    var d := SeriesUpTo(labels, pointsOf, n);
    SeriesUpToKeys(labels, pointsOf, n);
    SeriesUpToDistinct(labels, pointsOf, n);
    if d != [] {
      LookupAt(d, 0);
    }
    if exists j :: 0 <= j < n && pointsOf(j) != [] {
      var j :| 0 <= j < n && pointsOf(j) != [];
      assert Lookup(d, labels[j]).Some?;
    }
  }

  /** Entry i of the series is named by a pair with points and holds the points of
      the last pair with points under that name. */
  lemma SeriesUpToEntry(labels: seq<string>, pointsOf: int -> seq<Point>, n: nat, i: int)
    requires n <= |labels|
    requires 0 <= i < |SeriesUpTo(labels, pointsOf, n)|
    ensures var d := SeriesUpTo(labels, pointsOf, n);
      exists j :: LastWithPoints(labels, pointsOf, n, d[i].name, j) && d[i].points == pointsOf(j)
  {
    var d := SeriesUpTo(labels, pointsOf, n);
    var key := d[i].name;
    SeriesUpToDistinct(labels, pointsOf, n);
    LookupAt(d, i);
    assert exists j :: 0 <= j < n && labels[j] == key && pointsOf(j) != [] by {
      SeriesUpToKeys(labels, pointsOf, n);
    }
    LastWithPointsExists(labels, pointsOf, n, key);
    var j :| LastWithPoints(labels, pointsOf, n, key, j);
    SeriesUpToLastWins(labels, pointsOf, n);
    assert Lookup(d, key) == Some(pointsOf(j));
  }

  /** A pair with points names an entry of the series. */
  lemma SeriesUpToPair(labels: seq<string>, pointsOf: int -> seq<Point>, n: nat, k: int)
    requires n <= |labels|
    requires 0 <= k < n && pointsOf(k) != []
    ensures var d := SeriesUpTo(labels, pointsOf, n);
      exists i :: 0 <= i < |d| && d[i].name == labels[k]
  {
    SeriesUpToKeys(labels, pointsOf, n);
    assert Lookup(SeriesUpTo(labels, pointsOf, n), labels[k]).Some?;
    KeyIndexShape(SeriesUpTo(labels, pointsOf, n), labels[k]);
    var i := KeyIndex(SeriesUpTo(labels, pointsOf, n), labels[k]).value;
    assert SeriesUpTo(labels, pointsOf, n)[i].name == labels[k];
  }

  /** The number of pairs `zip(labels, cols)` yields. */
  function PairCount(labels: seq<string>, cols: seq<int>): nat
  {
    if |labels| < |cols| then |labels| else |cols|
  }

  /** Line i of a drawn graph is named by a pair with points and holds, in some
      order, the points of the last pair with points under that name. */
  lemma GraphLineAt(ws: Sheet, lib: Library, labels: seq<string>, cols: seq<int>, window: seq<DatedRow>, title: string, i: int)
    requires PlotOf(title, SeriesOf(ws, lib, labels, cols, window)).Some?
    requires 0 <= i < |PlotOf(title, SeriesOf(ws, lib, labels, cols, window)).value.series|
    ensures var line := PlotOf(title, SeriesOf(ws, lib, labels, cols, window)).value.series[i];
      var pointsOf := PointsFrom(ColumnValues(ws, lib, cols), window);
      exists j :: LastWithPoints(labels, pointsOf, PairCount(labels, cols), line.name, j)
        && multiset(line.points) == multiset(pointsOf(j))
  {
    var pointsOf := PointsFrom(ColumnValues(ws, lib, cols), window);
    var n := PairCount(labels, cols);
    assert SeriesOf(ws, lib, labels, cols, window) == SeriesUpTo(labels, pointsOf, n);
    GraphOfSeries(ws, lib, labels, cols, window, title);
    SeriesUpToEntry(labels, pointsOf, n, i);
  }

  /** A pair with points names a line of the drawn graph. */
  lemma GraphPairAt(ws: Sheet, lib: Library, labels: seq<string>, cols: seq<int>, window: seq<DatedRow>, title: string, k: int)
    requires PlotOf(title, SeriesOf(ws, lib, labels, cols, window)).Some?
    requires 0 <= k < PairCount(labels, cols) && PointsFrom(ColumnValues(ws, lib, cols), window)(k) != []
    ensures var g := PlotOf(title, SeriesOf(ws, lib, labels, cols, window)).value;
      exists i :: 0 <= i < |g.series| && g.series[i].name == labels[k]
  {
    var pointsOf := PointsFrom(ColumnValues(ws, lib, cols), window);
    var n := PairCount(labels, cols);
    assert SeriesOf(ws, lib, labels, cols, window) == SeriesUpTo(labels, pointsOf, n);
    GraphOfSeries(ws, lib, labels, cols, window, title);
    SeriesUpToPair(labels, pointsOf, n, k);
  }

  /** What a graph is drawn from: it is drawn exactly when some pair of
      `zip(labels, cols)` has points in the window; each line is named by such a
      pair and holds, in some order, the points of the last one under that label;
      every such pair names a line. */
  ghost predicate DrawnFrom(g: Option<Graph>, ws: Sheet, lib: Library, labels: seq<string>, cols: seq<int>, window: seq<DatedRow>)
  {
    var n := PairCount(labels, cols);
    var pointsOf := PointsFrom(ColumnValues(ws, lib, cols), window);
    && (g.Some? <==> exists j :: 0 <= j < n && pointsOf(j) != [])
    && (g.Some? ==> forall i :: 0 <= i < |g.value.series| ==>
          exists j :: (LastWithPoints(labels, pointsOf, n, g.value.series[i].name, j)
            && multiset(g.value.series[i].points) == multiset(pointsOf(j))))
    && (g.Some? ==> forall j :: 0 <= j < n && pointsOf(j) != [] ==>
          exists i :: 0 <= i < |g.value.series| && g.value.series[i].name == labels[j])
  }

  lemma GraphLines(ws: Sheet, lib: Library, labels: seq<string>, cols: seq<int>, window: seq<DatedRow>, title: string)
    ensures DrawnFrom(PlotOf(title, SeriesOf(ws, lib, labels, cols, window)), ws, lib, labels, cols, window)
  {
    var pointsOf := PointsFrom(ColumnValues(ws, lib, cols), window);
    var n := PairCount(labels, cols);
    assert PlotOf(title, SeriesOf(ws, lib, labels, cols, window)).Some? <==> exists j :: 0 <= j < n && pointsOf(j) != [] by {
      assert SeriesOf(ws, lib, labels, cols, window) == SeriesUpTo(labels, pointsOf, n);
      GraphOfSeries(ws, lib, labels, cols, window, title);
      SeriesUpToEmpty(labels, pointsOf, n);
    }
    if PlotOf(title, SeriesOf(ws, lib, labels, cols, window)).Some? {
      forall i | 0 <= i < |PlotOf(title, SeriesOf(ws, lib, labels, cols, window)).value.series| {
        GraphLineAt(ws, lib, labels, cols, window, title, i);
      }
      forall j | 0 <= j < n && pointsOf(j) != [] {
        GraphPairAt(ws, lib, labels, cols, window, title, j);
      }
    }
  }
}
