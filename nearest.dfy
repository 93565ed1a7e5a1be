/**
 * The cursor query of the mouse-move handler: for each series, the point
 * whose x is closest to the cursor's x, among the points closer than a
 * threshold of one thirtieth of the x axis's `Maximum - Minimum`.
 */
module Nearest {
  import opened Wrappers
  import opened Plot

  /** `double.MaxValue`, the scan's initial "closest so far" distance. */
  const DoubleMax: real := 1.7976931348623157e308

  /** The x axis's range is divided by this to obtain the threshold. */
  const ThresholdDivisor: real := 30.0

  /** `(AxisX.Maximum - AxisX.Minimum) / 30.0`. */
  function Threshold(axisMin: real, axisMax: real): real
  {
    (axisMax - axisMin) / ThresholdDivisor
  }

  /** `Math.Abs(point.XValue - xValue)`. */
  function Dist(p: Point, query: real): real
  {
    if p.x as real >= query then p.x as real - query else query - p.x as real
  }

  /** A point the scan may pick: strictly closer than the threshold (and than the sentinel). */
  predicate Qualifies(p: Point, query: real, threshold: real)
  {
    Dist(p, query) < threshold && Dist(p, query) < DoubleMax
  }

  /**
   * `points[k]` is the answer: it qualifies, no qualifying point is closer,
   * and every qualifying point before it is strictly farther (ties go to
   * the earliest point).
   */
  ghost predicate IsFirstNearest(points: seq<Point>, query: real, threshold: real, k: int)
  {
    && 0 <= k < |points|
    && Qualifies(points[k], query, threshold)
    && (forall j :: 0 <= j < |points| && Qualifies(points[j], query, threshold) ==>
          Dist(points[k], query) <= Dist(points[j], query))
    && (forall j :: 0 <= j < k && Qualifies(points[j], query, threshold) ==>
          Dist(points[k], query) < Dist(points[j], query))
  }

  /** What the query answers for one series: none when no point qualifies, else the first nearest point. */
  ghost predicate NearestResult(points: seq<Point>, query: real, threshold: real, r: Option<Point>)
  {
    match r
    case None => forall j :: 0 <= j < |points| ==> !Qualifies(points[j], query, threshold)
    case Some(p) => exists k :: IsFirstNearest(points, query, threshold, k) && points[k] == p
  }

  /** The answer is determined by the series, the query and the threshold. */
  lemma NearestResultUnique(points: seq<Point>, query: real, threshold: real, r1: Option<Point>, r2: Option<Point>)
    requires NearestResult(points, query, threshold, r1)
    requires NearestResult(points, query, threshold, r2)
    ensures r1 == r2
  {
    if r1.Some? && r2.Some? {
      var k1 :| IsFirstNearest(points, query, threshold, k1) && points[k1] == r1.value;
      var k2 :| IsFirstNearest(points, query, threshold, k2) && points[k2] == r2.value;
      if k1 < k2 || k2 < k1 {
        assert false;
      }
    }
  }

  /**
   * The linear scan over one series: keeps the point of smallest distance
   * among those below the threshold, replacing it only on a strictly
   * smaller distance.
   */
  method NearestPoint(points: seq<Point>, query: real, threshold: real) returns (nearest: Option<Point>)
    ensures NearestResult(points, query, threshold, nearest)
  {
    nearest := None;
    var minDistance := DoubleMax;
    ghost var at := -1;
    for j := 0 to |points|
      invariant nearest.None? ==> minDistance == DoubleMax && forall t :: 0 <= t < j ==> !Qualifies(points[t], query, threshold)
      invariant nearest.Some? ==> IsFirstNearest(points[..j], query, threshold, at)
                                  && nearest.value == points[at] && minDistance == Dist(points[at], query)
    {
      var distance := Dist(points[j], query);
      if distance < minDistance && distance < threshold {
        minDistance := distance;
        nearest := Some(points[j]);
        at := j;
      }
    }
    assert points[..|points|] == points;
  }

  /**
   * On a series whose x values increase (as every loaded series does), the
   * scan's answer is a neighbour of the query: the last point at or below
   * it, or the first point above it. A search that looks only at the two
   * points around the query's insertion position finds the same point.
   */
  lemma NearestIsNeighbour(points: seq<Point>, query: real, threshold: real, k: int)
    requires XIncreasing(points)
    requires IsFirstNearest(points, query, threshold, k)
    ensures points[k].x as real <= query ==> k + 1 == |points| || points[k + 1].x as real > query
    ensures points[k].x as real > query ==> k == 0 || points[k - 1].x as real <= query
  {
  }

  /**
   * The query over all series of the chart, in chart order; an empty
   * series is skipped and has no answer.
   */
  method QueryAllSeries(series: seq<ChartSeries>, query: real, threshold: real) returns (answers: seq<Option<Point>>)
    ensures |answers| == |series|
    ensures forall j :: 0 <= j < |series| ==> NearestResult(series[j].points, query, threshold, answers[j])
  {
    answers := [];
    for j := 0 to |series|
      invariant |answers| == j
      invariant forall t :: 0 <= t < j ==> NearestResult(series[t].points, query, threshold, answers[t])
    {
      var nearest: Option<Point> := None;
      if |series[j].points| != 0 {
        nearest := NearestPoint(series[j].points, query, threshold);
      }
      answers := answers + [nearest];
    }
  }

  /**
   * A worked case: points (10, 1.0), (20, 2.0), (30, 1.5), cursor at 14
   * over an x axis from 0 to 300, so the threshold is 10; (10, 1.0) at
   * distance 4 is the answer, (20, 2.0) being 6 away.
   */
  lemma ThreeFixedPoints()
    ensures Threshold(0.0, 300.0) == 10.0
    ensures NearestResult([Point(10, 1.0), Point(20, 2.0), Point(30, 1.5)], 14.0, 10.0, Some(Point(10, 1.0)))
  {
    var points := [Point(10, 1.0), Point(20, 2.0), Point(30, 1.5)];
    assert Dist(points[1], 14.0) == 6.0 && Dist(points[2], 14.0) == 16.0;
    assert IsFirstNearest(points, 14.0, 10.0, 0);
  }
}
