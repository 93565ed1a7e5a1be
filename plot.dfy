/**
 * The values the load produces: points `(line index, cell value)`, the
 * chart's series, and, as functions, which points a column receives from a
 * given set of visited lines.
 */
module Plot {
  import opened Wrappers
  import opened CsvText
  import opened Sampling

  /** A chart point; `x` is the line index in the file, so the first data line has x = 1. */
  datatype Point = Point(x: int, y: real)

  /** One series of the chart, named after its column. */
  datatype ChartSeries = ChartSeries(name: string, points: seq<Point>)

  /** `double.TryParse`, left abstract: the value of a cell, if it parses. */
  type Parser = string -> Option<real>

  /** `Items.IndexOf(name)`: the first position holding `name`, or -1. */
  function IndexOf(items: seq<string>, name: string): (r: int)
    ensures -1 <= r < |items|
    ensures r == -1 <==> name !in items
    ensures r >= 0 ==> items[r] == name && forall j :: 0 <= j < r ==> items[j] != name
  {
    if items == [] then -1
    else if items[0] == name then 0
    else
      var r := IndexOf(items[1..], name);
      if r == -1 then -1 else r + 1
  }

  /**
   * The value a line contributes for column `col`: present only when the
   * line has that many fields and the field parses.
   */
  function Cell(line: string, col: nat, parse: Parser): Option<real>
  {
    var fields := Split(line, Comma);
    if |fields| > col then parse(fields[col]) else None
  }

  /** The point (zero or one) line `i` contributes to column `col`. */
  function RowPoints(line: string, i: int, col: nat, parse: Parser): seq<Point>
  {
    match Cell(line, col, parse)
    case Some(v) => [Point(i, v)]
    case None => []
  }

  ghost predicate Within(lines: seq<string>, rows: seq<int>)
  {
    forall j :: 0 <= j < |rows| ==> 0 <= rows[j] < |lines|
  }

  /** The points column `col` collects from `rows`, visited in order. */
  function SeriesPoints(lines: seq<string>, rows: seq<int>, col: nat, parse: Parser): seq<Point>
    requires Within(lines, rows)
  {
    if rows == [] then []
    else
      var last := rows[|rows| - 1];
      SeriesPoints(lines, rows[..|rows| - 1], col, parse) + RowPoints(lines[last], last, col, parse)
  }

  /** Visiting one more line appends that line's point, if any. */
  lemma SeriesPointsSnoc(lines: seq<string>, rows: seq<int>, r: int, col: nat, parse: Parser)
    requires Within(lines, rows) && 0 <= r < |lines|
    ensures Within(lines, rows + [r])
    ensures SeriesPoints(lines, rows + [r], col, parse)
         == SeriesPoints(lines, rows, col, parse) + RowPoints(lines[r], r, col, parse)
  {
    assert (rows + [r])[..|rows|] == rows;
  }

  ghost predicate Increasing(rows: seq<int>)
  {
    forall i, j :: 0 <= i < j < |rows| ==> rows[i] < rows[j]
  }

  ghost predicate XIncreasing(points: seq<Point>)
  {
    forall i, j :: 0 <= i < j < |points| ==> points[i].x < points[j].x
  }

  /**
   * A column's points come from the visited lines, at most one per line,
   * and their x values strictly increase when the lines were visited in
   * increasing order.
   */
  lemma {:induction false} SeriesPointsOrdered(lines: seq<string>, rows: seq<int>, col: nat, parse: Parser)
    requires Within(lines, rows) && Increasing(rows)
    ensures var points := SeriesPoints(lines, rows, col, parse);
      && |points| <= |rows|
      && (forall j :: 0 <= j < |points| ==> points[j].x in rows)
      && XIncreasing(points)
  {
    if rows != [] {
      var init := rows[..|rows| - 1];
      var last := rows[|rows| - 1];
      assert Within(lines, init) && Increasing(init);
      SeriesPointsOrdered(lines, init, col, parse);
      var before := SeriesPoints(lines, init, col, parse);
      var added := RowPoints(lines[last], last, col, parse);
      var points := before + added;
      assert points == SeriesPoints(lines, rows, col, parse);
      assert |added| <= 1 && forall j :: 0 <= j < |added| ==> added[j].x == last;
      forall j | 0 <= j < |before| ensures before[j].x < last && before[j].x in rows {
        var t :| 0 <= t < |init| && init[t] == before[j].x;
        assert rows[t] == init[t];
      }
      forall j | 0 <= j < |points| ensures points[j].x in rows {
        if j >= |before| {
          assert points[j] == added[j - |before|];
        } else {
          assert points[j] == before[j];
        }
      }
      forall a, b | 0 <= a < b < |points| ensures points[a].x < points[b].x {
        if b < |before| {
          assert points[a] == before[a] && points[b] == before[b];
        } else {
          assert points[a] == before[a] && points[b] == added[b - |before|];
        }
      }
    }
  }

  /**
   * Which points a column receives: `(i, v)` is among them exactly when
   * line `i` was visited and its cell for the column parses to `v`. A
   * missing or unparsable cell loses that single point and nothing else.
   */
  lemma {:induction false} SeriesPointsMembership(lines: seq<string>, rows: seq<int>, col: nat, parse: Parser, i: int, v: real)
    requires Within(lines, rows) && Increasing(rows)
    ensures Point(i, v) in SeriesPoints(lines, rows, col, parse) <==>
      (i in rows && 0 <= i < |lines| && Cell(lines[i], col, parse) == Some(v))
  {
    if rows != [] {
      var init := rows[..|rows| - 1];
      var last := rows[|rows| - 1];
      assert Within(lines, init) && Increasing(init);
      SeriesPointsMembership(lines, init, col, parse, i, v);
      assert rows == init + [last];
      if i == last {
        SeriesPointsOrdered(lines, init, col, parse);
        assert i !in init;
      }
    }
  }

  /**
   * The seriesDict keys built from the first `j` catalog entries: each
   * checked name once, at its first checked position.
   */
  function SelectedPrefix(items: seq<string>, checked: seq<bool>, j: nat): (names: seq<string>)
    requires j <= |items| == |checked|
    ensures forall s :: s in names <==> exists t :: 0 <= t < j && checked[t] && items[t] == s
    ensures forall a, b :: 0 <= a < b < |names| ==> names[a] != names[b]
  {
    if j == 0 then []
    else
      var prev := SelectedPrefix(items, checked, j - 1);
      if checked[j - 1] && items[j - 1] !in prev then prev + [items[j - 1]] else prev
  }

  /** Up to position `t` of the catalog, no checked entry is named `r`. */
  predicate NotCheckedUpTo(items: seq<string>, checked: seq<bool>, r: string, t: nat)
    requires t < |items| == |checked|
  {
    forall u :: 0 <= u <= t && checked[u] ==> items[u] != r
  }

  /** Among the first `j` entries, `s` is checked at a position before any checked `r`. */
  predicate CheckedEarlier(items: seq<string>, checked: seq<bool>, s: string, r: string, j: nat)
    requires j <= |items| == |checked|
  {
    exists t :: 0 <= t < j && checked[t] && items[t] == s && NotCheckedUpTo(items, checked, r, t)
  }

  /**
   * The seriesDict keys come in catalog order: of two keys, the earlier one
   * is checked in the catalog before the later one is checked anywhere.
   */
  lemma {:induction false} SelectedPrefixOrder(items: seq<string>, checked: seq<bool>, j: nat)
    requires j <= |items| == |checked|
    ensures forall a, b :: 0 <= a < b < |SelectedPrefix(items, checked, j)| ==>
      CheckedEarlier(items, checked, SelectedPrefix(items, checked, j)[a], SelectedPrefix(items, checked, j)[b], j)
  {
    if j > 0 {
      SelectedPrefixOrder(items, checked, j - 1);
      var prev := SelectedPrefix(items, checked, j - 1);
      var names := SelectedPrefix(items, checked, j);
      forall a, b | 0 <= a < b < |names| ensures CheckedEarlier(items, checked, names[a], names[b], j) {
        if b < |prev| {
          assert names[a] == prev[a] && names[b] == prev[b];
          var t :| 0 <= t < j - 1 && checked[t] && items[t] == prev[a] && NotCheckedUpTo(items, checked, prev[b], t);
        } else {
          var x := items[j - 1];
          assert names == prev + [x] && x !in prev && names[b] == x;
          assert names[a] == prev[a] && prev[a] in prev;
          var t :| 0 <= t < j - 1 && checked[t] && items[t] == prev[a];
          assert NotCheckedUpTo(items, checked, x, t);
        }
      }
    }
  }

  /** The series one load creates: one per distinct checked name, in catalog order. */
  function SelectedNames(items: seq<string>, checked: seq<bool>): seq<string>
    requires |items| == |checked|
  {
    SelectedPrefix(items, checked, |items|)
  }

  /** The chart right after the series are created: one empty series per name. */
  function EmptyChart(names: seq<string>): seq<ChartSeries>
  {
    seq(|names|, j requires 0 <= j < |names| => ChartSeries(names[j], []))
  }

  /** The chart after a completed load: each name's series holds its column's points. */
  function LoadedChart(lines: seq<string>, items: seq<string>, names: seq<string>, rows: seq<int>, parse: Parser): seq<ChartSeries>
    requires forall j :: 0 <= j < |names| ==> names[j] in items
    requires Within(lines, rows)
  {
    seq(|names|, j requires 0 <= j < |names| =>
      ChartSeries(names[j], SeriesPoints(lines, rows, IndexOf(items, names[j]), parse)))
  }

  /** The visited lines of a load lie within the file and increase. */
  lemma SampledRowsUsable(lines: seq<string>, step: int)
    requires step >= 1
    ensures Within(lines, SampledRows(|lines|, step)) && Increasing(SampledRows(|lines|, step))
  {
    SampledRowsIncreasing(|lines|, step);
  }

  /**
   * Every series of a completed load: x strictly increasing, every x a
   * visited data line (never the header line 0, always a whole number of
   * strides after line 1), and fewer points than twice the budget.
   */
  lemma LoadedSeriesShape(lines: seq<string>, items: seq<string>, names: seq<string>, parse: Parser, j: int)
    requires forall t :: 0 <= t < |names| ==> names[t] in items
    requires 0 <= j < |names|
    ensures var step := Stride(|lines| - 1);
      var rows := SampledRows(|lines|, step);
      Within(lines, rows) &&
      var points := LoadedChart(lines, items, names, rows, parse)[j].points;
      && XIncreasing(points)
      && |points| < 2 * MaxPoints
      && forall t :: 0 <= t < |points| ==> 1 <= points[t].x < |lines| && (points[t].x - 1) % step == 0
  {
    var step := Stride(|lines| - 1);
    var rows := SampledRows(|lines|, step);
    SampledRowsUsable(lines, step);
    var points := LoadedChart(lines, items, names, rows, parse)[j].points;
    SeriesPointsOrdered(lines, rows, IndexOf(items, names[j]), parse);
    SampleCountBound(|lines|);
    forall t | 0 <= t < |points| ensures 1 <= points[t].x < |lines| && (points[t].x - 1) % step == 0 {
      SampledRowsMembership(|lines|, step, points[t].x);
    }
  }

  /**
   * The points of a completed load's series for name `names[j]`: `(i, v)`
   * is there exactly when line `i` is visited and the cell under the FIRST
   * catalog column carrying that name parses to `v`.
   */
  lemma LoadedSeriesPoints(lines: seq<string>, items: seq<string>, names: seq<string>, parse: Parser, j: int, i: int, v: real)
    requires forall t :: 0 <= t < |names| ==> names[t] in items
    requires 0 <= j < |names|
    ensures var step := Stride(|lines| - 1);
      var rows := SampledRows(|lines|, step);
      Within(lines, rows) &&
      (Point(i, v) in LoadedChart(lines, items, names, rows, parse)[j].points <==>
        (1 <= i < |lines| && (i - 1) % step == 0 && Cell(lines[i], IndexOf(items, names[j]), parse) == Some(v)))
  {
    var step := Stride(|lines| - 1);
    SampledRowsUsable(lines, step);
    SampledRowsMembership(|lines|, step, i);
    SeriesPointsMembership(lines, SampledRows(|lines|, step), IndexOf(items, names[j]), parse, i, v);
  }
}
