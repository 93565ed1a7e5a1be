# CSVChat load-and-query core, in Dafny

CSVChat is a Windows Forms tool that plots chosen columns of a CSV file as
line series. This project models the core of its main form (`FrmMain` in
`CSVChat/Form1.cs`) and proves properties of that model:

- **Header catalog.** `LoadCSVHeaders` reads the first line of the file,
  splits it on commas and adds each trimmed field to the column catalog.
  Every entry starts unticked.
- **Load guard.** The Load button needs a non-empty path to an existing file
  and at least one ticked column.
- **Background load.** The load counts the data lines. It replaces the
  chart's series with one empty series per distinct ticked name. Its stride
  is `max(1, totalLines / 5000)` (integer division). It visits lines
  `1, 1 + stride, …` and, for each name, collects `(line index, value)` from
  the first catalog column with that name whenever the field exists and
  parses. After each visited line it adds the stride to the processed count
  and reports a truncated percentage. It checks the cancellation flag
  before each line. At the end it hands all collected points to the chart at
  once.
- **Cursor query.** A mouse move is ignored within 20 ms of the last
  accepted one. Otherwise it reports, for every non-empty series, the point
  whose x is nearest the cursor's x. Only points strictly closer than a
  thirtieth of the x axis's range (`Maximum - Minimum`) count, and ties go to
  the earliest point.

Modules: `Wrappers` (`Option`), `CsvText` (`String.Split(',')`,
`String.Trim()`, header names), `Sampling` (stride, visited lines, progress),
`Plot` (points, series, the points a column receives), `Nearest` (the
nearest-point scan and its specification), `Debounce` (the 20 ms rate limit)
and `MainForm` (the class `FrmMain` with the form's fields and handlers).

How the model stands in for things outside the program's own logic:

- The file is an `Option<seq<string>>` of its lines. `None` means it cannot
  be read.
- `double.TryParse` is a `Parser` parameter (`string -> Option<real>`).
- File existence for the Load button is a boolean input.
- The clock is an integer number of .NET ticks (100 ns), so 20 ms is
  200000 ticks and `DateTime.MinValue` is tick 0.
- The cursor's x value and the x axis's `Minimum` and `Maximum` are `real`
  inputs.
- The worker's cancellation flag is `cancelAt: Option<nat>`. It is the
  first flag check of the loop that sees the flag set. The flag stays set
  once set. No control of the form sets it (see below); the input keeps the
  cancel branch of the loop in the model.

## Behaviour worth knowing

- `maxPoints = 5000` (Form1.cs:166) is not a cap on the points of a load.
  Below 10000 data lines the stride is 1, so up to 9999 lines are visited.
  Every file gets fewer than 10000 visited lines (`Sampling.SampleCountBound`).
- A cancelled load leaves the chart with the cleared, recreated empty series,
  and the collected points are never handed over (Form1.cs:179-183).
- No control of the form can cancel a load. `LoadCSVDataAndPlot` disables
  the Clear button (`SetControlsEnabled(false)`, Form1.cs:109 and 516)
  before it starts the worker (Form1.cs:112). The controls come back only
  in the `finally` of `RunWorkerCompleted` (Form1.cs:508), when the worker
  is no longer busy. So the `CancelAsync` call at Form1.cs:217-219 is never
  reached while a load runs, and the cancel branch at 179-183 is not
  reachable from the form's own controls.
- The nearest point is found by a linear scan over every point of a series,
  with a strict `<` on both tests (Form1.cs:412-420), so ties go to the
  earliest point. `Nearest.NearestIsNeighbour` shows that on a loaded series
  (x increasing) the answer is one of the two points around the cursor.
- The column of a series is looked up with `Items.IndexOf` (Form1.cs:191).
  A ticked entry whose name appears earlier in the catalog therefore reads
  the earlier column's cells.
- The threshold is a thirtieth of `AxisX.Maximum - AxisX.Minimum`
  (Form1.cs:403), the axis scale. Zooming moves the scale view, not these
  two values, so after a zoom the threshold is still a thirtieth of the
  whole axis.

## Model

| member | source | states |
|---|---|---|
| CsvText.Split | CSVChat/Form1.cs:68 | a line with k commas splits into exactly k + 1 fields, empty fields kept, none containing a comma |
| CsvText.JoinSplit | CSVChat/Form1.cs:68 | splitting loses nothing: joining the fields with commas gives the line back |
| CsvText.SplitJoin | CSVChat/Form1.cs:68 | comma-free fields joined with commas split back into the same fields |
| CsvText.TrimStartShape | CSVChat/Form1.cs:72 | the front trim leaves a suffix, drops only white space and stops at a non-white character |
| CsvText.TrimEndShape | CSVChat/Form1.cs:72 | the back trim leaves a prefix, drops only white space and stops at a non-white character |
| CsvText.TrimKeepsMiddle | CSVChat/Form1.cs:72 | `Trim` keeps a contiguous middle slice whose ends are not white space and removes only white space on either side |
| CsvText.TrimIdempotent | CSVChat/Form1.cs:72 | trimming a trimmed name changes nothing |
| CsvText.TrimOfTrimmed | CSVChat/Form1.cs:72 | a string without white space at either end is its own trim |
| CsvText.HeaderNameOf | CSVChat/Form1.cs:72 | a catalog name is its header field with the white space at both ends removed: a slice of the field with only white space before and after it, itself trimmed and comma-free |
| CsvText.HeaderNames | CSVChat/Form1.cs:68-73 | the catalog of a header line has one name per field (commas + 1), in header order: entry j is field j of the line, trimmed |
| CsvText.HeaderNamesOfJoined | CSVChat/Form1.cs:68-73 | round trip: trimmed comma-free names written as a header line are read back as the same catalog |
| Sampling.TruncDiv | CSVChat/Form1.cs:167 | C# integer division truncates toward zero: quotient bounds for non-negative and for negative dividends |
| Sampling.Stride | CSVChat/Form1.cs:166-167 | the stride is at least 1; it is 1 below 10000 data lines; from 10000 on 5000 × stride ≤ data lines < 5000 × (stride + 1) |
| Sampling.SampledFromShape | CSVChat/Form1.cs:177 | the k-th visited index is `i + k*step`, below the line count, and one more stride passes the end |
| Sampling.SampledRowsCount | CSVChat/Form1.cs:177 | no line is visited exactly when the file has no data line; otherwise the last visited line is within one stride of the last line |
| Sampling.SampledRowsMembership | CSVChat/Form1.cs:177 | a line is visited if and only if it is a data line a whole number of strides after line 1; the header line 0 never is |
| Sampling.SampledRowsIncreasing | CSVChat/Form1.cs:177 | visited lines are data lines in strictly increasing order |
| Sampling.SampleCountBound | CSVChat/Form1.cs:166-177 | every file yields fewer than 2 × 5000 visited lines |
| Sampling.UnitStrideVisitsEveryLine | CSVChat/Form1.cs:167-177 | with stride 1 every data line is visited |
| Sampling.ProgressReportsNext | CSVChat/Form1.cs:198-200 | one more visited line appends exactly one report, for the processed count including that line's stride |
| Sampling.ProgressWithinPercent | CSVChat/Form1.cs:198-200 | every percentage reported during a load lies in 0..100, so the progress bar (line 476) accepts it |
| Sampling.ProgressEndsAtHundred | CSVChat/Form1.cs:198-200 | the report after the last visited line is exactly 100 |
| Sampling.ProgressReportsWellFormed | CSVChat/Form1.cs:198-200 | the reports of a run are within 0..100 and never decrease, and a run that visits every sampled line ends on 100 |
| Plot.IndexOf | CSVChat/Form1.cs:191 | `Items.IndexOf`: -1 exactly when the name is absent, otherwise the first position holding it |
| Plot.SeriesPointsSnoc | CSVChat/Form1.cs:187-196 | visiting one more line appends that line's point for the column, if any |
| Plot.SeriesPointsOrdered | CSVChat/Form1.cs:187-196 | a column gets at most one point per visited line, each x a visited line, x strictly increasing when lines are visited in order |
| Plot.SeriesPointsMembership | CSVChat/Form1.cs:191-195 | `(i, v)` is among a column's points if and only if line i was visited and its field for the column exists and parses to v |
| Plot.SelectedPrefix | CSVChat/Form1.cs:142-163 | the dictionary keys hold each ticked name once, and only ticked names |
| Plot.SelectedPrefixOrder | CSVChat/Form1.cs:142-163 | the dictionary keys come in catalog order: of two keys, the earlier one is ticked at a catalog position before any ticked entry of the later one |
| Plot.SampledRowsUsable | CSVChat/Form1.cs:177-187 | every line the loop reads lies within the file, in increasing order |
| Plot.LoadedSeriesShape | CSVChat/Form1.cs:166-212 | each series of a completed load has strictly increasing x, fewer than 10000 points, and every x a data line a whole number of strides after line 1 |
| Plot.LoadedSeriesPoints | CSVChat/Form1.cs:177-212 | a completed load's series for a name holds `(i, v)` if and only if line i is visited and the first column with that name parses to v there |
| Nearest.NearestResultUnique | CSVChat/Form1.cs:409-420 | the specified answer for a series is unique: none, or the one earliest nearest qualifying point |
| Nearest.NearestPoint | CSVChat/Form1.cs:409-420 | the scan returns nothing exactly when no point is strictly within the threshold; otherwise it returns a nearest qualifying point, the earliest among ties |
| Nearest.NearestIsNeighbour | CSVChat/Form1.cs:405-420 | on a series with increasing x the answer is the last point at or left of the cursor, or the first point right of it |
| Nearest.QueryAllSeries | CSVChat/Form1.cs:403-426 | one answer per series in chart order; an empty series has none; each answer meets the nearest-point specification |
| Nearest.ThreeFixedPoints | CSVChat/Form1.cs:403-420 | with points (10,1.0), (20,2.0), (30,1.5), the cursor at 14 and axis 0..300 (threshold 10), the answer is (10,1.0) |
| Debounce.AcceptedTimesSpaced | CSVChat/Form1.cs:384-386 | over any sequence of move events, the accepted ones are pairwise at least 20 ms apart and each at least 20 ms after the starting reference |
| Debounce.SpacedEventsAllAccepted | CSVChat/Form1.cs:384-386 | the filter drops nothing when consecutive events are at least 20 ms apart |
| MainForm.IterationsRun | CSVChat/Form1.cs:177-183 | a loop of `count` iterations runs fewer of them exactly when the flag is seen before it finishes, and then exactly as many as the flag checks that passed |
| MainForm.CollectRow | CSVChat/Form1.cs:187-196 | after one line, each name's list gains the line's point for the first column with that name, if any; the key set stays the same |
| MainForm.CollectedSnoc | CSVChat/Form1.cs:187-196 | collecting line i into the lists of the visited lines gives the lists of the visited lines followed by i |
| MainForm.CollectLine | CSVChat/Form1.cs:187-196 | one iteration's collection turns the lists of the lines visited so far into those of the lines visited so far followed by i |
| MainForm.FrmMain.constructor | CSVChat/Form1.cs:16-29 | a new form has an empty catalog and chart, no processed lines, the cursor outside the chart and the last move at `DateTime.MinValue` |
| MainForm.FrmMain.LoadCSVHeaders | CSVChat/Form1.cs:61-86 | the catalog becomes the header names of the first line, all unticked; an unreadable or empty file leaves it empty |
| MainForm.FrmMain.SetItemChecked | CSVChat/Form1.cs:224 | the user ticks or unticks one catalog box: that entry's check state changes and nothing else |
| MainForm.FrmMain.LoadClicked | CSVChat/Form1.cs:88-103 | the load starts if and only if the path is non-empty, the file exists and a column is ticked; each refusal happens exactly in its case |
| MainForm.FrmMain.LoadingWorkerDoWork | CSVChat/Form1.cs:122-213 | an unreadable file fails with the form unchanged. Otherwise: data-line count set; result Cancelled exactly when the flag is seen before the last sampled line; processed count and reports match the lines visited; chart is the empty series if cancelled, else each name's series holds its column's points on the sampled lines |
| MainForm.FrmMain.CreateSeries | CSVChat/Form1.cs:128-163 | the chart is cleared and gets one empty series per distinct ticked name, in catalog order (`Plot.SelectedPrefixOrder`); every name is in the catalog |
| MainForm.FrmMain.SampleLines | CSVChat/Form1.cs:165-201 | the loop visits the sampled lines until the flag is seen; it returns the processed count, the reports and, when not cancelled, each name's points on all sampled lines |
| MainForm.FrmMain.ReportProgress | CSVChat/Form1.cs:198-200 | one stride is added to the processed count and the percentage of the data lines it represents is reported; it is the next entry of the run's report sequence |
| MainForm.FrmMain.AddCollectedPoints | CSVChat/Form1.cs:203-212 | each empty series receives exactly its name's collected points, in order |
| MainForm.FrmMain.ClearClicked | CSVChat/Form1.cs:215-234 | every catalog entry is unticked, the catalog stays, and the chart has no series |
| MainForm.FrmMain.ChartMainMouseEnter | CSVChat/Form1.cs:366-370 | the cursor is marked inside the chart |
| MainForm.FrmMain.ChartMainMouseLeave | CSVChat/Form1.cs:372-380 | the cursor is marked outside the chart |
| MainForm.FrmMain.ChartMainMouseMove | CSVChat/Form1.cs:382-426 | a move within 20 ms of the last accepted one is dropped and changes nothing. Any other move becomes the last accepted one; it is ignored exactly when the cursor is outside or the chart has no series; otherwise each series gets its nearest-point answer under the threshold of a thirtieth of the x axis's `Maximum - Minimum` |
| MainForm.FrmMain.ReplayMouseMoves | CSVChat/Form1.cs:382-389 | handling a series of move events one after another, the moves that get past the 20 ms rate limit are exactly `AcceptedTimes` of the series from the last accepted time before it, and the last of them becomes the last accepted time |

## Left out

- Threads: `BackgroundWorker`, `Invoke` onto the UI thread, and the delivery of `ReportProgress` and `RunWorkerCompleted` events. The load runs as one call that returns its reports in order and its outcome (`Completed`, `Cancelled`, `Failed`).
- `LoadingWorker_ProgressChanged` (Form1.cs:474-478) shows each report on the progress bar and status label; the model only returns the reports.
- `LoadingWorker_RunWorkerCompleted` (Form1.cs:480-510) is left out. It shows the error message box on a failure, updates the status label and progress bar (100 on completion), resumes the chart layout and re-adds the crosshair annotations after a completed load, and re-enables the controls in its `finally` block.
- The exception a chart raises on a second series with the same name. When two ticked catalog entries share a name, the dictionary keeps one key, but the chart library refuses the second `Series.Add` and that load fails. The model keeps one series per distinct name.
- The chart library's renaming of a series created with an empty name is left out.
- Floating point: values are `real`. The progress `(int)((double)processed / total * 100)` is exact division truncated toward zero, `TotalMilliseconds < 20` is exact tick arithmetic, and `Math.Abs` and the threshold are exact.
- MainForm.FrmMain.ClearClicked: the `CancelAsync` call at Form1.cs:217-219 is not modelled. The button is disabled for as long as the worker is busy, so that call never runs.
- MainForm.FrmMain.ChartMainMouseMove: the two `DateTime.Now` reads at lines 384 and 386 are taken as the same instant.
- `processedLines` and `totalLines` are unbounded integers. In the code they are 32-bit `int`s; the model does not state that `processedLines` stays within that range.
- The check `if (i >= csvLines.Length) break;` at line 185 can never fire inside the loop, so the model has no branch for it.
- The `csvData` DataTable is created and never used.
- Everything on screen: the crosshair annotations, tooltip text and placement, axis titles, zoom, secondary axis, context menu, export, drag and drop, file dialogs, `SetControlsEnabled`, and console logging.
- The catalog (`items`, `checked`) is held fixed during a load. The form
  still accepts a dropped file while a load runs: `AllowDrop` is set at
  Form1.cs:40, and `SetControlsEnabled` does not turn off the drop handler
  (Form1.cs:639-663). That handler's `LoadCSVHeaders` rewrites
  `clb_Name.Items` while the worker reads it (Form1.cs:144-148 and 191). If
  `IndexOf` then returns -1, `fields[-1]` at line 192 throws. The model does
  not capture this interleaving.
- Reading the file is an input, either its lines or `None`. For the header catalog the model reads the whole file where the code reads only the first line lazily.
- `PixelPositionToValue` and the axis scale are inputs: the cursor's x value and the x axis's `Minimum` and `Maximum`.
