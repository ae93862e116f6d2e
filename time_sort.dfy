/**
 * The points of a graph and `pts.sort(key=lambda x: x[0])` (SGSData.py:123):
 * Python's stable sort by timestamp, as an insertion sort.
 */
module TimeSort {
  import opened Stamps

  /** A `(datetime, float)` pair of a series. */
  datatype Point = Point(at: Stamp, value: real)

  predicate SortedByTime(pts: seq<Point>)
  {
    forall i, j :: 0 <= i < j < |pts| ==> LessEq(pts[i].at, pts[j].at)
  }

  /** Puts p after every point not later than it: after its equals, so the sort
      built on it is stable. */
  function InsertByTime(sorted: seq<Point>, p: Point): (r: seq<Point>)
    ensures multiset(r) == multiset(sorted) + multiset{p}
  {
    if sorted == [] then [p]
    else
      var last := sorted[|sorted| - 1];
      var init := sorted[..|sorted| - 1];
      assert sorted == init + [last];
      if LessEq(last.at, p.at) then sorted + [p] else InsertByTime(init, p) + [last]
  }

  function SortByTime(pts: seq<Point>): (r: seq<Point>)
    ensures multiset(r) == multiset(pts)
  {
    if pts == [] then []
    else
      assert pts == pts[..|pts| - 1] + [pts[|pts| - 1]];
      InsertByTime(SortByTime(pts[..|pts| - 1]), pts[|pts| - 1])
  }

  lemma {:induction false} InsertKeepsSorted(sorted: seq<Point>, p: Point)
    requires SortedByTime(sorted)
    ensures SortedByTime(InsertByTime(sorted, p))
  {
    if sorted != [] {
      var last := sorted[|sorted| - 1];
      var init := sorted[..|sorted| - 1];
      if LessEq(last.at, p.at) {
        var r := sorted + [p];
        forall i, j | 0 <= i < j < |r| ensures LessEq(r[i].at, r[j].at) {
          if j == |sorted| && i < |sorted| - 1 {
            LessEqTransitive(sorted[i].at, last.at, p.at);
          }
        }
      } else {
        LessEqTotal(last.at, p.at);
        InsertKeepsSorted(init, p);
        var ins := InsertByTime(init, p);
        var r := ins + [last];
        forall x | x in ins ensures LessEq(x.at, last.at) {
          assert x in multiset(ins);
          if x != p {
            assert x in multiset(init);
            var i :| 0 <= i < |init| && init[i] == x;
            assert sorted[i] == x;
          }
        }
        forall i, j | 0 <= i < j < |r| ensures LessEq(r[i].at, r[j].at) {
          if j == |ins| {
            assert r[i] in ins;
          } else {
            assert r[i] == ins[i] && r[j] == ins[j];
          }
        }
      }
    }
  }

  /** The sort's result is in time order. */
  lemma {:induction false} SortByTimeSorted(pts: seq<Point>)
    ensures SortedByTime(SortByTime(pts))
  {
    if pts != [] {
      SortByTimeSorted(pts[..|pts| - 1]);
      InsertKeepsSorted(SortByTime(pts[..|pts| - 1]), pts[|pts| - 1]);
    }
  }

  /** The points stamped `t`, in order. */
  function AtTime(pts: seq<Point>, t: Stamp): seq<Point>
  {
    if pts == [] then []
    else AtTime(pts[..|pts| - 1], t) + (if pts[|pts| - 1].at == t then [pts[|pts| - 1]] else [])
  }

  lemma AtTimeSnoc(a: seq<Point>, x: Point, t: Stamp)
    ensures AtTime(a + [x], t) == AtTime(a, t) + (if x.at == t then [x] else [])
  {
    assert (a + [x])[..|a|] == a;
  }

  lemma {:induction false} InsertAtTime(sorted: seq<Point>, p: Point, t: Stamp)
    ensures AtTime(InsertByTime(sorted, p), t) == AtTime(sorted, t) + (if p.at == t then [p] else [])
  {
    if sorted == [] {
      AtTimeSnoc([], p, t);
    } else {
      var last := sorted[|sorted| - 1];
      var init := sorted[..|sorted| - 1];
      assert sorted == init + [last];
      AtTimeSnoc(init, last, t);
      if LessEq(last.at, p.at) {
        AtTimeSnoc(sorted, p, t);
      } else {
        InsertAtTime(init, p, t);
        AtTimeSnoc(InsertByTime(init, p), last, t);
        assert last.at != p.at;
      }
    }
  }

  /** The sort is stable: points with the same timestamp keep their order. */
  lemma {:induction false} SortByTimeStable(pts: seq<Point>, t: Stamp)
    ensures AtTime(SortByTime(pts), t) == AtTime(pts, t)
  {
    if pts != [] {
      var init := pts[..|pts| - 1];
      var p := pts[|pts| - 1];
      SortByTimeStable(init, t);
      InsertAtTime(SortByTime(init), p, t);
    }
  }
}
