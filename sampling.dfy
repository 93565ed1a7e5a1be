/**
 * The row-sampling arithmetic of the background load: the stride derived
 * from the number of data lines, the line indices the loop visits, and the
 * progress percentage reported after each visited line.
 */
module Sampling {

  /** The point budget of one load. */
  const MaxPoints: int := 5000

  /** C#'s `/` on `int`: the quotient truncated toward zero. */
  function TruncDiv(a: int, b: int): (q: int)
    requires b > 0
    ensures a >= 0 ==> 0 <= q && q * b <= a < q * b + b
    ensures a < 0 ==> q <= 0 && a <= q * b < a + b
  {
    if a >= 0 then
      DivisionBounds(a, b);
      a / b
    else
      DivisionBounds(-a, b);
      -((-a) / b)
  }

  /** Euclidean division of a non-negative number: the quotient is the largest multiple that fits. */
  lemma DivisionBounds(a: int, b: int)
    requires a >= 0 && b > 0
    ensures 0 <= a / b && (a / b) * b <= a < (a / b) * b + b
    ensures -(a / b) * b == -((a / b) * b)
  {
    var q := a / b;
    assert a == q * b + a % b;
  }

  /**
   * `Math.Max(1, totalLines / maxPoints)`. Every `totalLines` the load can
   * produce (at least -1, for a file without lines) gives a stride of at
   * least 1; below twice the budget the stride is 1, and from there on it
   * is the number of whole budgets in the data lines.
   */
  function Stride(totalLines: int): (step: int)
    ensures step >= 1
    ensures totalLines < 2 * MaxPoints ==> step == 1
    ensures totalLines >= 2 * MaxPoints ==> MaxPoints * step <= totalLines < MaxPoints * step + MaxPoints
  {
    var q := TruncDiv(totalLines, MaxPoints);
    if q > 1 then q else 1
  }

  /** The indices `i, i + step, i + 2*step, ...` below `n`, as the `for` loop visits them. */
  function SampledFrom(i: int, n: int, step: int): seq<int>
    requires step >= 1
    decreases n - i
  {
    if i >= n then [] else [i] + SampledFrom(i + step, n, step)
  }

  /** Visiting `i` moves it from the lines still ahead to the lines visited. */
  lemma SampledFromAdvance(rows: seq<int>, visited: seq<int>, i: int, n: int, step: int)
    requires step >= 1 && i < n
    requires rows == visited + SampledFrom(i, n, step)
    ensures rows == (visited + [i]) + SampledFrom(i + step, n, step)
    ensures |visited| < |rows|
  {
    assert SampledFrom(i, n, step) == [i] + SampledFrom(i + step, n, step);
    assert visited + ([i] + SampledFrom(i + step, n, step)) == (visited + [i]) + SampledFrom(i + step, n, step);
  }

  /** The data lines the load visits in a file of `n` lines: `1, 1 + step, ...` below `n`. */
  function SampledRows(n: int, step: int): seq<int>
    requires step >= 1
  {
    SampledFrom(1, n, step)
  }

  /**
   * The visited indices are exactly `i + k*step` for the `k` whose index is
   * below `n`; they strictly increase.
   */
  lemma {:induction false} SampledFromShape(i: int, n: int, step: int)
    requires step >= 1
    ensures var rows := SampledFrom(i, n, step);
      && (forall k :: 0 <= k < |rows| ==> rows[k] == i + k * step && rows[k] < n)
      && i + |rows| * step >= n
    decreases n - i
  {
    if i < n {
      SampledFromShape(i + step, n, step);
      var rows := SampledFrom(i, n, step);
      var rest := SampledFrom(i + step, n, step);
      assert rows == [i] + rest;
      forall k | 1 <= k < |rows| ensures rows[k] == i + k * step {
        assert rows[k] == rest[k - 1] == i + step + (k - 1) * step;
      }
      assert i + step + |rest| * step == i + |rows| * step;
    }
  }

  /**
   * The number of visited lines: none when the file has no data line;
   * otherwise the last visited index is below `n` and one more stride
   * reaches or passes it.
   */
  lemma SampledRowsCount(n: int, step: int)
    requires step >= 1
    ensures var c := |SampledRows(n, step)|;
      && (c == 0 <==> n <= 1)
      && (c >= 1 ==> (c - 1) * step < n - 1 <= c * step)
  {
    var rows := SampledRows(n, step);
    SampledFromShape(1, n, step);
    if |rows| >= 1 {
      assert rows[|rows| - 1] == 1 + (|rows| - 1) * step;
    } else {
      assert 1 >= n;
    }
    if n > 1 {
      assert rows == [1] + SampledFrom(1 + step, n, step);
    }
  }

  /** `i + k*step` with `k >= 0` never falls below `i`, and grows with `k`. */
  lemma ScaledStepMonotone(k1: int, k2: int, step: int)
    requires 0 <= k1 <= k2 && step >= 1
    ensures 0 <= k1 * step <= k2 * step
  {
  }

  /**
   * Membership in the sampled rows: a line index is visited exactly when it
   * is a data line (1 or more, below `n`) at a whole number of strides from
   * line 1. The header line 0 is never visited.
   */
  lemma SampledRowsMembership(n: int, step: int, x: int)
    requires step >= 1
    ensures x in SampledRows(n, step) <==> 1 <= x < n && (x - 1) % step == 0
  {
    if x in SampledRows(n, step) {
      VisitedIsOnStride(n, step, x);
    }
    if 1 <= x < n && (x - 1) % step == 0 {
      OnStrideIsVisited(n, step, x);
    }
  }

  /** A visited line is a data line a whole number of strides after line 1. */
  lemma VisitedIsOnStride(n: int, step: int, x: int)
    requires step >= 1 && x in SampledRows(n, step)
    ensures 1 <= x < n && (x - 1) % step == 0
  {
    var rows := SampledRows(n, step);
    SampledFromShape(1, n, step);
    var k :| 0 <= k < |rows| && rows[k] == x;
    assert x - 1 == k * step;
    ScaledStepMonotone(0, k, step);
    ModOfMultiple(k, step);
  }

  /** A data line a whole number of strides after line 1 is visited. */
  lemma OnStrideIsVisited(n: int, step: int, x: int)
    requires step >= 1 && 1 <= x < n && (x - 1) % step == 0
    ensures x in SampledRows(n, step)
  {
    var rows := SampledRows(n, step);
    SampledFromShape(1, n, step);
    var k := (x - 1) / step;
    assert x - 1 == k * step + (x - 1) % step;
    assert k * step == x - 1;
    if k >= |rows| {
      ScaledStepMonotone(|rows|, k, step);
      assert false;
    }
    assert rows[k] == 1 + k * step;
  }

  lemma ModOfMultiple(k: int, step: int)
    requires step >= 1
    ensures (k * step) % step == 0
  {
    var q := (k * step) / step;
    var r := (k * step) % step;
    assert (q - k) * step + r == 0;
    if q - k >= 1 { ScaledStepMonotone(1, q - k, step); }
    if q - k <= -1 { ScaledStepMonotone(1, k - q, step); }
  }

  /** The sampled rows strictly increase. */
  lemma SampledRowsIncreasing(n: int, step: int)
    requires step >= 1
    ensures var rows := SampledRows(n, step);
      && (forall k :: 0 <= k < |rows| ==> 1 <= rows[k] < n)
      && (forall j, k :: 0 <= j < k < |rows| ==> rows[j] < rows[k])
  {
    var rows := SampledRows(n, step);
    SampledFromShape(1, n, step);
    forall k | 0 <= k < |rows| ensures 1 <= rows[k] < n {
      ScaledStepMonotone(0, k, step);
    }
    forall j, k | 0 <= j < k < |rows| ensures 1 <= rows[j] < rows[k] < n {
      ScaledStepMonotone(0, j, step);
      ScaledStepMonotone(j + 1, k, step);
    }
  }

  /**
   * How many lines one load visits: fewer than twice the point budget, for
   * every file. (With a stride of 1 up to 9999 lines are visited.)
   */
  lemma SampleCountBound(n: int)
    ensures |SampledRows(n, Stride(n - 1))| < 2 * MaxPoints
  {
    var step := Stride(n - 1);
    var rows := SampledRows(n, step);
    var c := |rows|;
    SampledRowsCount(n, step);
    if c > 0 {
      if step == 1 {
        assert c < n;
      } else {
        assert (c - 1) * step < MaxPoints * step + MaxPoints;
        if c - 1 >= 3 * MaxPoints / 2 {
          ScaledStepMonotone(3 * MaxPoints / 2, c - 1, step);
          assert 2 * MaxPoints <= MaxPoints * step;
        }
      }
    }
  }

  /** With a stride of 1 every data line is visited. */
  lemma UnitStrideVisitsEveryLine(n: int)
    requires n >= 1
    ensures |SampledRows(n, 1)| == n - 1
  {
    SampledRowsCount(n, 1);
  }

  /** `(int)((double)processed / totalLines * 100)`, with exact arithmetic. */
  function Progress(totalLines: int, processed: int): int
    requires totalLines > 0
  {
    TruncDiv(processed * 100, totalLines)
  }

  /** The percentages reported after each of the first `k` visited lines. */
  function ProgressReports(totalLines: int, step: int, k: nat): seq<int>
    requires k == 0 || totalLines > 0
  {
    seq(k, j requires 0 <= j < k => Progress(totalLines, (j + 1) * step))
  }

  /** One more visited line adds one report, for the stride just added. */
  lemma ProgressReportsNext(totalLines: int, step: int, k: nat)
    requires totalLines > 0
    ensures ProgressReports(totalLines, step, k + 1)
         == ProgressReports(totalLines, step, k) + [Progress(totalLines, (k + 1) * step)]
  {
    var next := ProgressReports(totalLines, step, k + 1);
    assert next[..k] == ProgressReports(totalLines, step, k);
  }

  /** A non-negative `a` below `m * t` has quotient below `m`. */
  lemma QuotientBelow(a: int, t: int, m: int)
    requires t > 0 && 0 <= a < m * t
    ensures a / t < m
  {
    var q := a / t;
    if q >= m {
      ScaledStepMonotone(m, q, t);
      assert false;
    }
  }

  /** Division by a positive number is monotone. */
  lemma QuotientMonotone(a: int, b: int, t: int)
    requires t > 0 && 0 <= a <= b
    ensures a / t <= b / t
  {
    if a / t > b / t {
      ScaledStepMonotone(b / t + 1, a / t, t);
      assert false;
    }
  }

  /**
   * The progress after `k` visited lines (k at least 1 and at most the
   * number of visited lines) lies within 0..100: when the stride exceeds 1,
   * the stride is at most a 5000th of the data lines, so overshooting the
   * last line by less than one stride stays below 101 percent.
   */
  lemma ProgressWithinPercent(n: int, k: int)
    requires 1 <= k <= |SampledRows(n, Stride(n - 1))|
    ensures n >= 2
    ensures 0 <= Progress(n - 1, k * Stride(n - 1)) <= 100
  {
    var step := Stride(n - 1);
    var t := n - 1;
    var c := |SampledRows(n, step)|;
    SampledRowsCount(n, step);
    ScaledStepMonotone(k - 1, c - 1, step);
    ScaledStepMonotone(0, k, step);
    var p := k * step;
    assert p == (k - 1) * step + step;
    if step == 1 {
      assert p * 100 <= t * 100;
    } else {
      assert MaxPoints * step <= t;
      assert p * 100 < 101 * t;
    }
    QuotientBelow(p * 100, t, 101);
  }

  /** The progress reported after the last visited line is exactly 100. */
  lemma ProgressEndsAtHundred(n: int)
    requires |SampledRows(n, Stride(n - 1))| >= 1
    ensures n >= 2
    ensures Progress(n - 1, |SampledRows(n, Stride(n - 1))| * Stride(n - 1)) == 100
  {
    var step := Stride(n - 1);
    var c := |SampledRows(n, step)|;
    SampledRowsCount(n, step);
    ProgressWithinPercent(n, c);
    var p := c * step;
    assert p >= n - 1;
    QuotientAtLeast(p * 100, n - 1, 100);
  }

  /** A non-negative `a` of at least `m * t` has truncated quotient at least `m`. */
  lemma QuotientAtLeast(a: int, t: int, m: int)
    requires t > 0 && m >= 0 && a >= m * t
    ensures TruncDiv(a, t) >= m
  {
    ScaledStepMonotone(0, m, t);
    var q := TruncDiv(a, t);
    if q < m {
      ScaledStepMonotone(q + 1, m, t);
      assert false;
    }
  }

  /**
   * The reported percentages of a run that visited `k` lines: each within
   * 0..100, never decreasing, and ending at 100 when the run visited every
   * sampled line of a file with data.
   */
  lemma ProgressReportsWellFormed(n: int, k: nat)
    requires k <= |SampledRows(n, Stride(n - 1))|
    ensures k == 0 || n >= 2
    ensures var reports := ProgressReports(n - 1, Stride(n - 1), k);
      && (forall j :: 0 <= j < k ==> 0 <= reports[j] <= 100)
      && (forall i, j :: 0 <= i <= j < k ==> reports[i] <= reports[j])
      && (k >= 1 && k == |SampledRows(n, Stride(n - 1))| ==> reports[k - 1] == 100)
  {
    if k >= 1 {
      var step := Stride(n - 1);
      var reports := ProgressReports(n - 1, step, k);
      ProgressWithinPercent(n, 1);
      forall j | 0 <= j < k ensures 0 <= reports[j] <= 100 {
        ProgressWithinPercent(n, j + 1);
      }
      forall i, j | 0 <= i <= j < k ensures reports[i] <= reports[j] {
        ScaledStepMonotone(i + 1, j + 1, step);
        ScaledStepMonotone(0, i + 1, step);
        QuotientMonotone((i + 1) * step * 100, (j + 1) * step * 100, n - 1);
      }
      if k == |SampledRows(n, step)| {
        ProgressEndsAtHundred(n);
      }
    }
  }
}
