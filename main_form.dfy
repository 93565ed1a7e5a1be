/**
 * The form's state and its handlers: the column catalog, the load guard,
 * the background load with its stride sampling, progress and cancellation,
 * the clear button, and the rate-limited cursor query.
 */
module MainForm {
  import opened Wrappers
  import opened CsvText
  import opened Sampling
  import opened Plot
  import opened Nearest
  import opened Debounce

  /** How a run of the background load ends (the three branches of its completion handler). */
  datatype WorkerResult = Completed | Cancelled | Failed

  /** What the Load button does. */
  datatype LoadRequest = NeedValidFile | NeedColumn | Start

  /** What one mouse-move event does. */
  datatype MoveResult =
    | Dropped                                   // within 20 ms of the last accepted move
    | Ignored                                   // accepted, but the cursor is outside or there are no series
    | Shown(answers: seq<Option<Point>>)        // the nearest point per chart series

  /**
   * The cancellation flag as the loop sees it on its `k`-th check:
   * `cancelAt` is the first check that finds it set (it stays set once
   * set), `None` when no check of this run does.
   */
  predicate CancellationPending(cancelAt: Option<nat>, k: nat)
  {
    cancelAt.Some? && cancelAt.value <= k
  }

  /** Whether the flag stops a loop of `count` iterations before it completes. */
  predicate CancelledBefore(cancelAt: Option<nat>, count: nat)
  {
    cancelAt.Some? && cancelAt.value < count
  }

  /** How many of `count` iterations run before the flag is seen. */
  function IterationsRun(cancelAt: Option<nat>, count: nat): (k: nat)
    ensures k <= count
    ensures k < count <==> CancelledBefore(cancelAt, count)
    ensures CancelledBefore(cancelAt, count) ==> k == cancelAt.value
  {
    if CancelledBefore(cancelAt, count) then cancelAt.value else count
  }

  /** The lists after line `i` is collected: each name's list gains the line's point for its column, if any. */
  function WithRow(lists: map<string, seq<Point>>, names: seq<string>, items: seq<string>,
                   line: string, i: int, parse: Parser): map<string, seq<Point>>
  {
    map c | c in lists :: if c in names && c in items then lists[c] + RowPoints(line, i, IndexOf(items, c), parse) else lists[c]
  }

  /**
   * The work on one visited line `i`: split it once, then for each series
   * name look up its column with `IndexOf` and append `(i, value)` to that
   * name's list when the line has the field and it parses. Every other
   * name's list is left as it was.
   */
  method CollectRow(pointsToAdd: map<string, seq<Point>>, names: seq<string>, items: seq<string>,
                    line: string, i: int, parse: Parser)
    returns (after: map<string, seq<Point>>)
    requires forall c :: c in names ==> c in pointsToAdd && c in items
    requires forall a, b :: 0 <= a < b < |names| ==> names[a] != names[b]
    ensures after == WithRow(pointsToAdd, names, items, line, i, parse)
  {
    after := pointsToAdd;
    var fields := Split(line, Comma);
    for m := 0 to |names|
      invariant forall c :: c in after <==> c in pointsToAdd
      invariant forall t :: 0 <= t < m ==>
                  after[names[t]] == pointsToAdd[names[t]] + RowPoints(line, i, IndexOf(items, names[t]), parse)
      invariant forall c :: c in pointsToAdd && c !in names[..m] ==> after[c] == pointsToAdd[c]
    {
      var colIndex := IndexOf(items, names[m]);
      if |fields| > colIndex {
        var value := parse(fields[colIndex]);
        if value.Some? {
          after := after[names[m] := after[names[m]] + [Point(i, value.value)]];
        }
      }
      assert names[..m + 1] == names[..m] + [names[m]];
    }
    assert names[..|names|] == names;
    assert forall c :: c in pointsToAdd && c !in names ==> after[c] == pointsToAdd[c];
  }

  /** The per-name point lists after visiting `visited`: each name's column's points. */
  ghost function Collected(lines: seq<string>, items: seq<string>, names: seq<string>, visited: seq<int>, parse: Parser)
    : map<string, seq<Point>>
    requires forall c :: c in names ==> c in items
    requires Within(lines, visited)
  {
    map c | c in names :: SeriesPoints(lines, visited, IndexOf(items, c), parse)
  }

  /** Two maps with the same keys and the same value at every key are equal. */
  lemma MapsEqual(m1: map<string, seq<Point>>, m2: map<string, seq<Point>>)
    requires forall c :: c in m1 <==> c in m2
    requires forall c :: c in m1 ==> m1[c] == m2[c]
    ensures m1 == m2
  {
  }

  /** Collecting line `i` into the lists of `visited` gives the lists of `visited + [i]`. */
  lemma CollectedSnoc(lines: seq<string>, items: seq<string>, names: seq<string>, visited: seq<int>, i: int,
                      parse: Parser, after: map<string, seq<Point>>)
    requires forall c :: c in names ==> c in items
    requires Within(lines, visited) && 0 <= i < |lines|
    requires after == WithRow(Collected(lines, items, names, visited, parse), names, items, lines[i], i, parse)
    ensures Within(lines, visited + [i])
    ensures after == Collected(lines, items, names, visited + [i], parse)
  {
    SeriesPointsSnoc(lines, visited, i, 0, parse);
    var before := Collected(lines, items, names, visited, parse);
    var target := Collected(lines, items, names, visited + [i], parse);
    forall c | c in after
      ensures c in target && after[c] == target[c]
    {
      var col := IndexOf(items, c);
      SeriesPointsSnoc(lines, visited, i, col, parse);
      assert after[c] == before[c] + RowPoints(lines[i], i, col, parse);
    }
    MapsEqual(after, target);
  }

  /**
   * One iteration's collection, stated against the lines visited so far:
   * the lists of `visited` become the lists of `visited + [i]`.
   */
  method CollectLine(pointsToAdd: map<string, seq<Point>>, names: seq<string>, items: seq<string>,
                     lines: seq<string>, ghost visited: seq<int>, i: int, parse: Parser)
    returns (after: map<string, seq<Point>>)
    requires forall c :: c in names ==> c in items
    requires forall a, b :: 0 <= a < b < |names| ==> names[a] != names[b]
    requires Within(lines, visited) && 0 <= i < |lines|
    requires pointsToAdd == Collected(lines, items, names, visited, parse)
    ensures Within(lines, visited + [i])
    ensures after == Collected(lines, items, names, visited + [i], parse)
  {
    after := CollectRow(pointsToAdd, names, items, lines[i], i, parse);
    CollectedSnoc(lines, items, names, visited, i, parse, after);
  }

  class FrmMain {
    /** `clb_Name.Items`: the column catalog. */
    var items: seq<string>
    /** The check state of each catalog entry. */
    var checked: seq<bool>
    /** `chart_Main.Series`, in chart order. */
    var chartSeries: seq<ChartSeries>
    var totalLines: int
    var processedLines: int
    /** In ticks of 100 ns. */
    var lastMouseMoveTime: int
    var isMouseInChart: bool

    ghost predicate Valid()
      reads this
    {
      |checked| == |items|
    }

    constructor ()
      ensures Valid()
      ensures items == [] && chartSeries == [] && !isMouseInChart
      ensures totalLines == 0 && processedLines == 0 && lastMouseMoveTime == MinValueTicks
    {
      items := [];
      checked := [];
      chartSeries := [];
      totalLines := 0;
      processedLines := 0;
      lastMouseMoveTime := MinValueTicks;
      isMouseInChart := false;
    }

    /**
     * Reads the header line of `file` (`None` when the file cannot be read)
     * into the catalog. The catalog is cleared first, so a file that cannot
     * be read, or has no first line, leaves it empty.
     */
    method LoadCSVHeaders(file: Option<seq<string>>)
      requires Valid()
      modifies this`items, this`checked
      ensures Valid()
      ensures file.Some? && |file.value| > 0 ==> items == HeaderNames(file.value[0])
      ensures file.None? || |file.value| == 0 ==> items == []
      ensures forall j :: 0 <= j < |checked| ==> !checked[j]
    {
      items := [];
      checked := [];
      if file.Some? && |file.value| > 0 {
        var headers := Split(file.value[0], Comma);
        for j := 0 to |headers|
          invariant |items| == j && forall t :: 0 <= t < j ==> items[t] == Trim(headers[t])
          invariant |checked| == j && forall t :: 0 <= t < j ==> !checked[t]
        {
          items := items + [Trim(headers[j])];
          checked := checked + [false];
        }
        assert forall t :: 0 <= t < |items| ==> HeaderNames(file.value[0])[t] == HeaderNameOf(headers[t]);
      }
    }

    /** The user ticks or unticks catalog entry `j`. */
    method SetItemChecked(j: nat, value: bool)
      requires Valid() && j < |items|
      modifies this`checked
      ensures Valid() && checked == old(checked)[j := value]
    {
      checked := checked[j := value];
    }

    /**
     * The Load button's guard: a non-empty path naming an existing file
     * (whose existence the caller supplies), and at least one ticked column.
     */
    method LoadClicked(pathText: string, fileExists: bool) returns (r: LoadRequest)
      requires Valid()
      ensures r == NeedValidFile <==> pathText == "" || !fileExists
      ensures r == NeedColumn <==> pathText != "" && fileExists && forall j :: 0 <= j < |checked| ==> !checked[j]
      ensures r == Start <==> pathText != "" && fileExists && exists j :: 0 <= j < |checked| && checked[j]
    {
      if pathText == "" || !fileExists {
        return NeedValidFile;
      }
      var any := false;
      for j := 0 to |checked|
        invariant any <==> exists t :: 0 <= t < j && checked[t]
      {
        any := any || checked[j];
      }
      r := if any then Start else NeedColumn;
    }

    /**
     * The background load. `file` is the file's lines (`None` when it cannot
     * be read), `parse` stands for `double.TryParse`, and `cancelAt` says
     * on which check the cancellation flag is first seen set.
     *
     * It counts the data lines, replaces the chart's series by one empty
     * series per distinct ticked name, computes the stride, and visits
     * lines 1, 1 + stride, ... collecting, per name, the points of the
     * first catalog column with that name. After each visited line it adds
     * the stride to `processedLines` and reports the percentage. A set
     * flag, checked before each line, ends the run with no points handed
     * to the chart; otherwise every series receives its points at the end.
     */
    method LoadingWorkerDoWork(file: Option<seq<string>>, parse: Parser, cancelAt: Option<nat>)
      returns (result: WorkerResult, reports: seq<int>)
      requires Valid()
      modifies this`chartSeries, this`totalLines, this`processedLines
      ensures Valid()
      ensures file.None? ==> result == Failed && reports == [] && unchanged(this)
      ensures file.Some? ==>
        var lines := file.value;
        var step := Stride(|lines| - 1);
        var rows := SampledRows(|lines|, step);
        var names := SelectedNames(items, checked);
        var cancelled := CancelledBefore(cancelAt, |rows|);
        var visited := IterationsRun(cancelAt, |rows|);
        && Within(lines, rows)
        && (forall c :: c in names ==> c in items)
        && totalLines == |lines| - 1
        && result == (if cancelled then Cancelled else Completed)
        && processedLines == visited * step
        && (visited == 0 || totalLines > 0)
        && reports == ProgressReports(totalLines, step, visited)
        && chartSeries == (if cancelled then EmptyChart(names) else LoadedChart(lines, items, names, rows, parse))
    {
      if file.None? {
        return Failed, [];
      }
      var lines := file.value;
      totalLines := |lines| - 1;
      var names := CreateSeries();
      var step := Stride(totalLines);
      var cancelled, pointsToAdd;
      cancelled, pointsToAdd, reports := SampleLines(lines, names, step, parse, cancelAt);
      if cancelled {
        return Cancelled, reports;
      }
      // The single hand-off of all collected points to the chart.
      AddCollectedPoints(names, pointsToAdd);
      result := Completed;
    }

    /**
     * Clears the chart and creates the series dictionary: one empty series
     * per ticked name, in catalog order; a name ticked twice gets one series.
     */
    method CreateSeries() returns (names: seq<string>)
      requires Valid()
      modifies this`chartSeries
      ensures names == SelectedNames(items, checked)
      ensures forall c :: c in names ==> c in items
      ensures chartSeries == EmptyChart(names)
    {
      chartSeries := [];
      names := [];
      for j := 0 to |items|
        invariant names == SelectedPrefix(items, checked, j)
        invariant chartSeries == EmptyChart(names)
      {
        if checked[j] && items[j] !in names {
          names := names + [items[j]];
          chartSeries := chartSeries + [ChartSeries(items[j], [])];
        }
      }
      forall j | 0 <= j < |names| ensures names[j] in items {
        assert names[j] in SelectedPrefix(items, checked, |items|);
        var t :| 0 <= t < |items| && checked[t] && items[t] == names[j];
      }
    }

    /**
     * The sampling loop: visits lines 1, 1 + step, ... below `|lines|`,
     * checking the cancellation flag first on each, collecting the line's
     * points for every name, adding the stride to `processedLines` and
     * reporting the percentage. Reports whether it stopped on the flag.
     */
    method SampleLines(lines: seq<string>, names: seq<string>, step: int, parse: Parser, cancelAt: Option<nat>)
      returns (cancelled: bool, pointsToAdd: map<string, seq<Point>>, reports: seq<int>)
      requires totalLines == |lines| - 1 && step == Stride(totalLines)
      requires forall c :: c in names ==> c in items
      requires forall a, b :: 0 <= a < b < |names| ==> names[a] != names[b]
      modifies this`processedLines
      ensures var rows := SampledRows(|lines|, step);
        var visited := IterationsRun(cancelAt, |rows|);
        && Within(lines, rows)
        && cancelled == CancelledBefore(cancelAt, |rows|)
        && processedLines == visited * step
        && (visited == 0 || totalLines > 0)
        && reports == ProgressReports(totalLines, step, visited)
        && (!cancelled ==> pointsToAdd == Collected(lines, items, names, rows, parse))
    {
      processedLines := 0;
      pointsToAdd := map c | c in names :: [];
      assert pointsToAdd == Collected(lines, items, names, [], parse);
      ghost var rows := SampledRows(|lines|, step);
      SampledRowsUsable(lines, step);
      ghost var visited: seq<int> := [];
      reports := [];
      cancelled := false;
      var iteration: nat := 0;
      var i := 1;
      while i < |lines|
        invariant rows == visited + SampledFrom(i, |lines|, step)
        invariant i >= 1 && iteration == |visited| && |visited| <= |rows|
        invariant Within(lines, visited)
        invariant processedLines == iteration * step
        invariant iteration == 0 || totalLines > 0
        invariant reports == ProgressReports(totalLines, step, iteration)
        invariant !CancellationPending(cancelAt, iteration) || cancelAt.value == iteration
        invariant pointsToAdd == Collected(lines, items, names, visited, parse)
        decreases |lines| - i
      {
        if CancellationPending(cancelAt, iteration) {
          cancelled := true;
          break;
        }
        pointsToAdd, reports := VisitLine(lines, names, step, parse, i, iteration, visited, pointsToAdd, reports);
        SampledFromAdvance(rows, visited, i, |lines|, step);
        visited := visited + [i];
        i := i + step;
        iteration := iteration + 1;
      }
      if cancelled {
        assert IterationsRun(cancelAt, |rows|) == iteration;
      } else {
        assert visited == rows;
        assert IterationsRun(cancelAt, |rows|) == iteration;
      }
    }

    /**
     * One visited line of the sampling loop: its points are collected for
     * every name, and its stride is counted and reported.
     */
    method VisitLine(lines: seq<string>, names: seq<string>, step: int, parse: Parser, i: int, ghost iteration: nat,
                     ghost visited: seq<int>, pointsToAdd: map<string, seq<Point>>, reports: seq<int>)
      returns (after: map<string, seq<Point>>, reportsAfter: seq<int>)
      requires totalLines == |lines| - 1 && 1 <= i < |lines|
      requires forall c :: c in names ==> c in items
      requires forall a, b :: 0 <= a < b < |names| ==> names[a] != names[b]
      requires Within(lines, visited)
      requires processedLines == iteration * step
      requires reports == ProgressReports(totalLines, step, iteration)
      requires pointsToAdd == Collected(lines, items, names, visited, parse)
      modifies this`processedLines
      ensures Within(lines, visited + [i])
      ensures processedLines == (iteration + 1) * step
      ensures reportsAfter == ProgressReports(totalLines, step, iteration + 1)
      ensures after == Collected(lines, items, names, visited + [i], parse)
    {
      after := CollectLine(pointsToAdd, names, items, lines, visited, i, parse);
      var progress := ReportProgress(step, iteration);
      reportsAfter := reports + [progress];
    }

    /**
     * The bookkeeping after one visited line: the stride is added to the
     * processed count, and the percentage of the data lines it stands for
     * is what the load reports.
     */
    method ReportProgress(step: int, ghost iteration: nat) returns (progress: int)
      requires totalLines > 0 && processedLines == iteration * step
      modifies this`processedLines
      ensures processedLines == (iteration + 1) * step
      ensures progress == Progress(totalLines, processedLines)
      ensures ProgressReports(totalLines, step, iteration) + [progress] == ProgressReports(totalLines, step, iteration + 1)
    {
      processedLines := processedLines + step;
      progress := Progress(totalLines, processedLines);
      ProgressReportsNext(totalLines, step, iteration);
    }

    /**
     * Adds each name's collected points to its (still empty) series of the
     * chart, series by series.
     */
    method AddCollectedPoints(names: seq<string>, pointsToAdd: map<string, seq<Point>>)
      requires chartSeries == EmptyChart(names)
      requires forall c :: c in names ==> c in pointsToAdd
      modifies this`chartSeries
      ensures |chartSeries| == |names|
      ensures forall t :: 0 <= t < |names| ==> chartSeries[t] == ChartSeries(names[t], pointsToAdd[names[t]])
    {
      for j := 0 to |names|
        invariant |chartSeries| == |names|
        invariant forall t :: 0 <= t < |names| ==>
                    chartSeries[t] == ChartSeries(names[t], if t < j then pointsToAdd[names[t]] else [])
      {
        chartSeries := chartSeries[j := ChartSeries(chartSeries[j].name, chartSeries[j].points + pointsToAdd[names[j]])];
      }
    }

    /**
     * The Clear button: unticks every column and removes every series from
     * the chart; the catalog stays. Its `CancelAsync` call is not modelled:
     * the button is disabled for as long as a load runs.
     */
    method ClearClicked()
      requires Valid()
      modifies this`checked, this`chartSeries
      ensures Valid() && chartSeries == []
      ensures |checked| == |old(checked)| && forall j :: 0 <= j < |checked| ==> !checked[j]
    {
      for j := 0 to |checked|
        invariant |checked| == |items| && forall t :: 0 <= t < j ==> !checked[t]
      {
        checked := checked[j := false];
      }
      chartSeries := [];
    }

    method ChartMainMouseEnter()
      modifies this`isMouseInChart
      ensures isMouseInChart
    {
      isMouseInChart := true;
    }

    method ChartMainMouseLeave()
      modifies this`isMouseInChart
      ensures !isMouseInChart
    {
      isMouseInChart := false;
    }

    /**
     * A mouse move at time `now` (ticks) with the cursor at `xValue` on an
     * x axis whose `Minimum` and `Maximum` are `axisXMin` and `axisXMax`.
     * Within 20 ms of the last accepted move it does nothing; otherwise it
     * records `now` as the last accepted move, even when it then stops because the cursor is outside
     * the chart or the chart has no series, and answers the nearest point
     * of every series.
     */
    method ChartMainMouseMove(now: int, xValue: real, axisXMin: real, axisXMax: real) returns (r: MoveResult)
      requires Valid()
      modifies this`lastMouseMoveTime
      ensures !Accepts(old(lastMouseMoveTime), now) ==> r == Dropped && lastMouseMoveTime == old(lastMouseMoveTime)
      ensures Accepts(old(lastMouseMoveTime), now) ==> lastMouseMoveTime == now && r != Dropped
      ensures r == Ignored <==> Accepts(old(lastMouseMoveTime), now) && (!isMouseInChart || chartSeries == [])
      ensures r.Shown? ==> |r.answers| == |chartSeries| && forall j :: 0 <= j < |chartSeries| ==>
                NearestResult(chartSeries[j].points, xValue, Threshold(axisXMin, axisXMax), r.answers[j])
    {
      if !Accepts(lastMouseMoveTime, now) {
        return Dropped;
      }
      lastMouseMoveTime := now;
      if !isMouseInChart || |chartSeries| == 0 {
        return Ignored;
      }
      var threshold := Threshold(axisXMin, axisXMax);
      var answers := QueryAllSeries(chartSeries, xValue, threshold);
      r := Shown(answers);
    }

    /**
     * A series of mouse moves at times `events`, each handled in turn by
     * the mouse-move handler with the cursor at `xValue`. The moves that
     * get past the rate limit are exactly those the debounce filter
     * accepts from the last accepted time before the series.
     */
    method ReplayMouseMoves(events: seq<int>, xValue: real, axisXMin: real, axisXMax: real) returns (accepted: seq<int>)
      requires Valid()
      modifies this`lastMouseMoveTime
      ensures accepted == AcceptedTimes(old(lastMouseMoveTime), events)
      ensures accepted == [] ==> lastMouseMoveTime == old(lastMouseMoveTime)
      ensures accepted != [] ==> lastMouseMoveTime == accepted[|accepted| - 1]
    {
      accepted := [];
      var j := 0;
      while j < |events|
        invariant 0 <= j <= |events|
        invariant Valid()
        invariant accepted + AcceptedTimes(lastMouseMoveTime, events[j..]) == AcceptedTimes(old(lastMouseMoveTime), events)
        invariant accepted == [] ==> lastMouseMoveTime == old(lastMouseMoveTime)
        invariant accepted != [] ==> lastMouseMoveTime == accepted[|accepted| - 1]
      {
        assert events[j..][1..] == events[j + 1..];
        var r := ChartMainMouseMove(events[j], xValue, axisXMin, axisXMax);
        if r != Dropped {
          accepted := accepted + [events[j]];
        }
        j := j + 1;
      }
      assert events[j..] == [];
    }
  }
}
