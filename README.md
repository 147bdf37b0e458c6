# pattern-to-insight: student performance and chart logic in Dafny

This project models the computational core of *pattern-to-insight*, a web app
for exploring uploaded student datasets. It covers:

- the per-student and class statistics of `performanceHelpers.js`: the
  three-subject average, the class and subject averages, the above/at/below
  status, the strengths and improvements split, the positional ranking, the
  top three and the admin bundle;
- the chart derivations of `AnalysisCharts.jsx`: the fixed-bin histogram,
  the mean-threshold split with its counts and sentence, and the comparison
  sentence and bar colours;
- the single-student standing of `StudentSummaryCard.jsx`: the
  case-insensitive lookup, the competition rank, the percentile and the
  badge;
- the admin summary (`AdminSummaryCard.jsx`) and the attention panel
  (`AdminAttentionPanel.jsx`);
- the name-resolution state of `StudentAnalysis.jsx`, as a class;
- the subject insights card (`SubjectInsightsCard.jsx`);
- the backend's `trend_pattern`, `threshold_pattern` and `validate_dataset`;
- the CSV-to-cells step of the upload handler in `App.jsx`.

Modules (one file each):

| module | file | models |
|---|---|---|
| `Wrappers` | wrappers.dfy | `Option` |
| `Rounding` | rounding.dfy | `parseFloat(x.toFixed(2))` as rounding to hundredths, halves away from zero |
| `Stats` | stats.dfy | sums, means, `Math.max`/`Math.min`, `indexOf`, filter-counts |
| `Sorting` | sorting.dfy | the engine's stable `sort` with a numeric comparator, as a functional insertion sort |
| `Text` | text.dfy | `trim`, `split` on one character, ASCII `toLowerCase`, case-insensitive first match |
| `CsvUpload` | csv_upload.dfy | `App.jsx`'s text → rows of cells |
| `Validator` | validator.dfy | `validate_dataset` |
| `Patterns` | patterns.dfy | `trend_pattern`, `threshold_pattern` |
| `PerformanceHelpers` | performance_helpers.dfy | `performanceHelpers.js` |
| `AnalysisCharts` | analysis_charts.dfy | the helpers of `AnalysisCharts.jsx` |
| `MarkedStudents` | marked_students.dfy | the `{ name, marks }` records of the summary cards |
| `StudentSummaryCard` | student_summary_card.dfy | `StudentSummaryCard.jsx` |
| `AdminSummaryCard` | admin_summary_card.dfy | `AdminSummaryCard.jsx` |
| `AdminAttentionPanel` | admin_attention_panel.dfy | `AdminAttentionPanel.jsx` |
| `StudentAnalysis` | student_analysis.dfy | `StudentAnalysis.jsx` (the class `StudentAnalysis.StudentAnalysis`) |
| `SubjectInsightsCard` | subject_insights_card.dfy | `SubjectInsightsCard.jsx` |

The model keeps to the source's form.

- Loops in the source are methods with loop invariants:
  - `buildHistogram` increments the counts of a fresh array (`BuildHistogram`);
  - `generateSubjectInsights` pushes into two lists while walking the subjects (`GenerateSubjectInsights`).

  The card that calls the second is a method too.
- The three state fields of `StudentAnalysis.jsx` are fields of a class whose methods update them.
- Everything else is map/filter/reduce/sort code and is written as functions, with lemmas relating them.

Numeric modelling:

- Marks are `real`.
- `parseFloat(x) || 0` is the `Field` datatype (`Number(v)` or `NonNumeric`) read through `NumberOrZero`.
- `parseFloat(x.toFixed(2))` is `Rounding.Round2`: the exact real rounded to hundredths, halves away from zero.
- The NaN mean of an empty series is `None`.

Two notions of rank are kept apart:

- `PerformanceHelpers.GenerateRankedStudents` gives positional ranks. Tied students get different ranks.
- `StudentSummaryCard.FindStudentRank` gives competition ranks. Tied students share a rank.

## Model

| member | source | states |
|---|---|---|
| Rounding.Round2 | frontend/frontend/src/helpers/performanceHelpers.js:25 | `parseFloat(x.toFixed(2))` is within half a hundredth of `x` and keeps its sign |
| Rounding.Round2Idempotent | frontend/frontend/src/helpers/performanceHelpers.js:25 | rounding an already rounded value changes nothing |
| Rounding.Round2Monotone | frontend/frontend/src/helpers/performanceHelpers.js:25 | rounding preserves order |
| Rounding.CentsDifference | frontend/frontend/src/components/AdminAttentionPanel.jsx:17 | the difference of two two-decimal values has two decimals, so rounding it is exact |
| Stats.Mean | frontend/frontend/src/components/AnalysisCharts.jsx:45 | the mean exists exactly for a non-empty series |
| Stats.MeanAttained | frontend/frontend/src/components/AnalysisCharts.jsx:45 | some value of a non-empty series is at least its mean |
| Stats.MeanAtMostMax | frontend/frontend/src/helpers/performanceHelpers.js:56-57 | the mean never exceeds the maximum |
| Stats.Max | frontend/frontend/src/components/AnalysisCharts.jsx:9 | `Math.max` is a member of the series and bounds it from above |
| Stats.Min | frontend/frontend/src/components/AnalysisCharts.jsx:8 | `Math.min` is a member of the series and bounds it from below |
| Stats.IndexOf | frontend/frontend/src/components/AnalysisCharts.jsx:66-67 | `indexOf` is the first index holding the value, or none |
| Stats.CountLessPlusAtLeast | frontend/frontend/src/components/AnalysisCharts.jsx:104-105 | values below and values at or above a threshold add up to the length |
| Stats.CountGreaterDrops | frontend/frontend/src/components/StudentSummaryCard.jsx:15 | raising the threshold past a value lowers the count of values above it |
| Sorting.SortDescBy | frontend/frontend/src/helpers/performanceHelpers.js:259 | the sorted copy is a permutation of the input |
| Sorting.SortDescBySorted | frontend/frontend/src/helpers/performanceHelpers.js:259 | the sorted copy is non-increasing by the key |
| Sorting.SortDescByStable | frontend/frontend/src/components/AdminSummaryCard.jsx:11 | the sort is stable: for every key value, the elements with that key come out in their input order, so ties keep dataset order |
| Sorting.SortedPrefixDominates | frontend/frontend/src/components/AdminSummaryCard.jsx:11-12 | a prefix of a sorted sequence is sorted, drawn from it, and no element left out outranks an element kept |
| Text.Trim | frontend/frontend/src/App.jsx:30 | `trim` leaves no whitespace at either end |
| Text.TrimMiddle | frontend/frontend/src/App.jsx:30 | `trim` keeps a contiguous slice of the string and removes only whitespace on each side |
| Text.TrimEmpty | frontend/frontend/src/App.jsx:28 | a string trims to empty exactly when it is all whitespace |
| Text.TrimIdempotent | frontend/frontend/src/App.jsx:30 | trimming twice is trimming once |
| Text.TrimPadded | frontend/frontend/src/components/StudentAnalysis.jsx:31 | whitespace added around a trimmed string is exactly what `trim` removes |
| Text.Split | frontend/frontend/src/App.jsx:28-30 | `split` gives one more piece than there are separators, and no piece holds the separator |
| Text.JoinSplit | frontend/frontend/src/App.jsx:28-30 | joining the pieces of a split gives the string back |
| Text.SplitJoin | frontend/frontend/src/App.jsx:28-30 | splitting the join of separator-free pieces gives the pieces back |
| Text.FindIgnoringCase | frontend/frontend/src/components/StudentSummaryCard.jsx:8-10 | the first index whose lower-cased name equals the lower-cased query, or none when no name matches |
| Text.LowerIdempotent | frontend/frontend/src/components/StudentAnalysis.jsx:40 | lower-casing twice is lower-casing once |
| CsvUpload.NonBlankLines | frontend/frontend/src/App.jsx:28 | the kept lines are non-blank lines of the input, no more of them than there were lines |
| CsvUpload.NonBlankLinesAppend | frontend/frontend/src/App.jsx:28 | the filter distributes over concatenation, so line order is preserved |
| CsvUpload.WhitespaceLineDropped | frontend/frontend/src/App.jsx:28 | a whitespace-only line gives no row |
| CsvUpload.Cells | frontend/frontend/src/App.jsx:29-31 | a row has one more cell than its line has commas, and every cell is trimmed |
| CsvUpload.ParseCsv | frontend/frontend/src/App.jsx:27-31 | at most one row per line, no row is empty, and no cell has whitespace at either end |
| CsvUpload.ParseCsvText | frontend/frontend/src/App.jsx:27-31 | round trip: a table whose rows each have a non-empty cell, and whose cells are trimmed and hold no ',' or line break, is read back unchanged from its CSV text |
| CsvUpload.CellsOfLine | frontend/frontend/src/App.jsx:29-31 | the cell count is the comma count plus one, and the untrimmed cells rejoin into the line |
| Validator.NamesOfKind | backend/venv/services/validator.py:9-10 | the names of one kind come from columns of that kind, and the list is empty iff no column has that kind |
| Validator.ValidateDataset | backend/venv/services/validator.py:3-24 | valid iff more than 10 rows and both kinds present; the row rule first, then numeric, then categorical; on success the rows and the two name lists |
| Validator.KindsPartitionColumns | backend/venv/services/validator.py:9-10 | the numeric and categorical names partition the column names, as multisets |
| Validator.ValidReportsPartition | backend/venv/services/validator.py:20-24 | a successful result lists every column exactly once, with at least one of each kind |
| Patterns.Article | backend/venv/services/patterns.py:35 | "an" exactly before a vowel |
| Patterns.TrendPattern | backend/venv/services/patterns.py:25-43 | "upward" iff last > first, "downward" iff last < first, "stable" iff equal; values returned unchanged; non-empty series required |
| Patterns.TrendArticles | backend/venv/services/patterns.py:35-36 | the sentence says "an upward", "a downward" or "a stable" |
| Patterns.ThresholdPattern | backend/venv/services/patterns.py:88-105 | an absent threshold defaults to the mean; the count is of values strictly below it; "Several values…" iff the count is positive |
| Patterns.DefaultThresholdLeavesOneAtOrAbove | backend/venv/services/patterns.py:89-92 | against the default mean threshold, not every value of a non-empty column is below |
| PerformanceHelpers.NumberOrZero | frontend/frontend/src/helpers/performanceHelpers.js:18-20 | a non-numeric mark reads as 0, a number as itself |
| PerformanceHelpers.CalculateStudentAverage | frontend/frontend/src/helpers/performanceHelpers.js:15-26 | a missing student averages 0; otherwise the mean of the three scores to two decimals |
| PerformanceHelpers.CalculateClassAverage | frontend/frontend/src/helpers/performanceHelpers.js:47-60 | 0 for no students; otherwise the mean of the student averages to two decimals |
| PerformanceHelpers.ClassAverageAtMostBest | frontend/frontend/src/helpers/performanceHelpers.js:47-60 | the class average never exceeds the best student average |
| PerformanceHelpers.CalculateSubjectAverages | frontend/frontend/src/helpers/performanceHelpers.js:83-99 | all 0 for no students; otherwise each subject's mean to two decimals |
| PerformanceHelpers.CompareStudentWithClass | frontend/frontend/src/helpers/performanceHelpers.js:118-135 | exactly one status: above iff the rounded difference > 0.01, below iff < -0.01, at otherwise |
| PerformanceHelpers.StatusByGap | frontend/frontend/src/helpers/performanceHelpers.js:118-135 | the status in terms of the unrounded gap: above from +0.015, below from -0.015 |
| PerformanceHelpers.GenerateSubjectInsights | frontend/frontend/src/helpers/performanceHelpers.js:179-219 | two empty lists for a missing input; otherwise the strengths and improvements the loop collects in subject order |
| PerformanceHelpers.StrengthsInSubjectOrder | frontend/frontend/src/helpers/performanceHelpers.js:190-213 | strengths are Math, Biology, Physics in that order, each kept iff scored above the average |
| PerformanceHelpers.ImprovementsInSubjectOrder | frontend/frontend/src/helpers/performanceHelpers.js:190-213 | improvements are Math, Biology, Physics in that order, each kept iff scored below the average |
| PerformanceHelpers.StrengthsAndImprovementsPartition | frontend/frontend/src/helpers/performanceHelpers.js:206-211 | a strength iff above, an improvement iff below, never both, at most three in all |
| PerformanceHelpers.GenerateRankedStudents | frontend/frontend/src/helpers/performanceHelpers.js:248-267 | same length, a permutation of the (name, average) pairs, non-increasing averages, rank = position + 1 |
| PerformanceHelpers.GetTopThreePerformers | frontend/frontend/src/helpers/performanceHelpers.js:291-296 | the first min(3, n) entries of the ranking, none below a later entry |
| PerformanceHelpers.CountStudentsBelowAverage | frontend/frontend/src/helpers/performanceHelpers.js:318-324 | the number of students whose average is strictly below the value, at most n |
| PerformanceHelpers.NotEveryoneBelowClassAverage | frontend/frontend/src/helpers/performanceHelpers.js:318-324 | against the class average, at least one student of a non-empty class is not below |
| PerformanceHelpers.GenerateAdminAnalytics | frontend/frontend/src/helpers/performanceHelpers.js:364-388 | all empty/zero for no students; otherwise total = n, top three a prefix of the ranking, below-average count < n |
| AnalysisCharts.BinSize | frontend/frontend/src/components/AnalysisCharts.jsx:10 | the width is positive: 1 when all values are equal, else the range over the bin count |
| AnalysisCharts.BinIndexInRange | frontend/frontend/src/components/AnalysisCharts.jsx:21 | every value's clamped index lies in `[0, binCount - 1]` |
| AnalysisCharts.BuildHistogram | frontend/frontend/src/components/AnalysisCharts.jsx:6-26 | exactly `binCount` bins, bin `k` counting the values whose index is `k`, counts summing to the number of values |
| AnalysisCharts.CountsAddUp | frontend/frontend/src/components/AnalysisCharts.jsx:20-23 | the per-bin counts add up to the number of values |
| AnalysisCharts.MaxInLastBin | frontend/frontend/src/components/AnalysisCharts.jsx:21 | when the values are spread out, the maximum is clamped into the last bin |
| AnalysisCharts.EqualValuesInFirstBin | frontend/frontend/src/components/AnalysisCharts.jsx:10-21 | equal values give width 1 and all land in bin 0 |
| AnalysisCharts.BuildThresholdData | frontend/frontend/src/components/AnalysisCharts.jsx:41-47 | the values unchanged, and the threshold their mean (absent for no values) |
| AnalysisCharts.GetThresholdSplitData | frontend/frontend/src/components/AnalysisCharts.jsx:86-96 | each value appears in "above" iff ≥ threshold and in "below" iff < threshold, in exactly one of them |
| AnalysisCharts.GetThresholdCounts | frontend/frontend/src/components/AnalysisCharts.jsx:98-108 | the counts at or above and below the threshold, adding up to n |
| AnalysisCharts.CountsMatchSplit | frontend/frontend/src/components/AnalysisCharts.jsx:86-108 | the counts are the numbers of points plotted in the two split series |
| AnalysisCharts.GetThresholdInsight | frontend/frontend/src/components/AnalysisCharts.jsx:110-126 | no data at total 0; underperformance above 60% below; else acceptable above 50% at or above; else mixed |
| AnalysisCharts.ThresholdInsightOfSeries | frontend/frontend/src/components/AnalysisCharts.jsx:110-126 | against its own mean a series reports "No data" iff it is empty, and has at least one value at or above |
| AnalysisCharts.FirstExtremeIndices | frontend/frontend/src/components/AnalysisCharts.jsx:62-67 | the chosen indices hold the maximum and the minimum, and no earlier index does |
| AnalysisCharts.GetComparisonInsight | frontend/frontend/src/components/AnalysisCharts.jsx:58-71 | the sentence names the categories at the first maximum and the first minimum |
| AnalysisCharts.GetComparisonBarColors | frontend/frontend/src/components/AnalysisCharts.jsx:73-84 | one colour per value: green iff the maximum, red iff the minimum but not the maximum, blue otherwise |
| AnalysisCharts.BarColorsCoverExtremes | frontend/frontend/src/components/AnalysisCharts.jsx:73-84 | equal values are all green; there is always a green bar, and a red one when the values are spread out |
| StudentSummaryCard.FindStudent | frontend/frontend/src/components/StudentSummaryCard.jsx:8-12 | the first record whose name matches ignoring case, or none when no name matches |
| StudentSummaryCard.FindStudentRank | frontend/frontend/src/components/StudentSummaryCard.jsx:6-19 | null iff no student is found; otherwise 1 + the number of strictly higher marks, between 1 and the total |
| StudentSummaryCard.EqualMarksEqualRank | frontend/frontend/src/components/StudentSummaryCard.jsx:15-16 | students with equal marks get equal rank |
| StudentSummaryCard.HigherMarksBetterRank | frontend/frontend/src/components/StudentSummaryCard.jsx:15-16 | strictly higher marks give a strictly smaller rank |
| StudentSummaryCard.BestMarksRankFirst | frontend/frontend/src/components/StudentSummaryCard.jsx:15-16 | a student with the highest marks has rank 1 |
| StudentSummaryCard.ComputePercentile | frontend/frontend/src/components/StudentSummaryCard.jsx:24-27 | 0 without a rank; otherwise `(rank - 1) / total * 100`, in `[0, 100)` for a rank between 1 and the total |
| StudentSummaryCard.GetStatusBadge | frontend/frontend/src/components/StudentSummaryCard.jsx:32-42 | exactly one tier: ≤ 10 Top Performer, ≤ 50 Above Average, ≤ 75 Average, else Needs Improvement, with their colours |
| StudentSummaryCard.RenderSummaryCard | frontend/frontend/src/components/StudentSummaryCard.jsx:44-48 | "Status unavailable." iff the name is unknown; otherwise a rank within the total, a percentile in `[0, 100)` and its badge |
| StudentSummaryCard.RankOneIsTopPerformer | frontend/frontend/src/components/StudentSummaryCard.jsx:16-34 | rank 1 always gets "Top Performer" |
| AdminSummaryCard.GetTotalStudents | frontend/frontend/src/components/AdminSummaryCard.jsx:5-7 | the total is the dataset length |
| AdminSummaryCard.GetTopPerformers | frontend/frontend/src/components/AdminSummaryCard.jsx:10-13 | min(3, n) students from a sorted copy, non-increasing, drawn from the dataset, none left out scoring above one kept |
| AdminSummaryCard.GetClassAverage | frontend/frontend/src/components/AdminSummaryCard.jsx:16-20 | 0 for an empty dataset; otherwise the mean of the marks to two decimals |
| AdminSummaryCard.GetCountBelowAverage | frontend/frontend/src/components/AdminSummaryCard.jsx:23-26 | the students strictly below the rounded average, at most n |
| AdminSummaryCard.CentsMarksNotAllBelow | frontend/frontend/src/components/AdminSummaryCard.jsx:16-26 | when all marks have two decimals, not everyone is below the average |
| AdminSummaryCard.RoundedAverageCanExceedEveryone | frontend/frontend/src/components/AdminSummaryCard.jsx:19-25 | with more decimals everyone can be below: one student with 66.666 is counted below 66.67 |
| AdminSummaryCard.RenderAdminSummary | frontend/frontend/src/components/AdminSummaryCard.jsx:28-31 | the card's figures: total n, min(3, n) top performers from the dataset, a count at most n, all zero for no students |
| AdminAttentionPanel.GetWeakestSubject | frontend/frontend/src/components/AdminAttentionPanel.jsx:33-43 | with numeric marks, a lowest subject and the earliest among equal ones; a non-numeric Math mark is never replaced |
| AdminAttentionPanel.BelowAverage | frontend/frontend/src/components/AdminAttentionPanel.jsx:26 | the filter keeps exactly the entries below the class average |
| AdminAttentionPanel.GetStudentsNeedingAttention | frontend/frontend/src/components/AdminAttentionPanel.jsx:7-30 | empty for a missing or empty dataset; otherwise the below-average rows, each below the class average, sorted ascending |
| AdminAttentionPanel.TiesInDatasetOrder | frontend/frontend/src/components/AdminAttentionPanel.jsx:13-27 | rows with equal averages are listed in the order the filter kept them, which is dataset order |
| AdminAttentionPanel.EntriesComeFromDataset | frontend/frontend/src/components/AdminAttentionPanel.jsx:13-24 | every row is the row of some dataset student |
| AdminAttentionPanel.EntryGap | frontend/frontend/src/components/AdminAttentionPanel.jsx:17-23 | a listed row's `improvementNeeded` is exactly class average − average, and positive |
| AdminAttentionPanel.AttentionCount | frontend/frontend/src/components/AdminAttentionPanel.jsx:10-26 | the panel lists as many students as have an average strictly below the class average |
| AdminAttentionPanel.NotEveryoneNeedsAttention | frontend/frontend/src/components/AdminAttentionPanel.jsx:10-26 | a non-empty class never has everyone in the panel |
| StudentAnalysis.FindNameHeader | frontend/frontend/src/components/StudentAnalysis.jsx:16-18 | the first header equal to "name" or "student" ignoring case, or none |
| StudentAnalysis.NameColumn | frontend/frontend/src/components/StudentAnalysis.jsx:15-23 | the first name/student header, else column 0 |
| StudentAnalysis.ColumnCells | frontend/frontend/src/components/StudentAnalysis.jsx:25 | non-empty cells only, at most one per row |
| StudentAnalysis.ColumnCellsAppend | frontend/frontend/src/components/StudentAnalysis.jsx:25 | the names keep row order: the names of two blocks of rows are those of the first block followed by those of the second |
| StudentAnalysis.ColumnCellsSingle | frontend/frontend/src/components/StudentAnalysis.jsx:25 | a row gives its name cell exactly when that cell is present and non-empty |
| StudentAnalysis.GetValidNames | frontend/frontend/src/components/StudentAnalysis.jsx:11-26 | no names for missing or empty data; otherwise the name cells of the body rows, non-empty, at most rows − 1 |
| StudentAnalysis.ValidNamesAreBodyCells | frontend/frontend/src/components/StudentAnalysis.jsx:25 | a name is valid iff it is a non-empty name-column cell of a row after the header |
| StudentAnalysis.ValidateName | frontend/frontend/src/components/StudentAnalysis.jsx:30-50 | blank: the error and no change to the accepted name; a match: the dataset's spelling of the first match and no error; no match: the error and no accepted name |
| StudentAnalysis.AcceptedNameIsValid | frontend/frontend/src/components/StudentAnalysis.jsx:39-45 | an accepted name is always one of the valid names |
| StudentAnalysis.ValidNameAccepted | frontend/frontend/src/components/StudentAnalysis.jsx:31-45 | a valid name typed lower-case with whitespace around it is accepted in the dataset's spelling |
| StudentAnalysis.StudentAnalysis.constructor | frontend/frontend/src/components/StudentAnalysis.jsx:6-8 | starts with nothing typed, nothing accepted and no error |
| StudentAnalysis.StudentAnalysis.SetStudentName | frontend/frontend/src/components/StudentAnalysis.jsx:95 | typing replaces the entry and leaves the accepted name and the error as they were |
| StudentAnalysis.StudentAnalysis.ValidateStudent | frontend/frontend/src/components/StudentAnalysis.jsx:30-50 | updates the accepted name and the error as `ValidateName` says, keeping the entry and the invariant |
| StudentAnalysis.StudentAnalysis.ChangeStudent | frontend/frontend/src/components/StudentAnalysis.jsx:66-70 | back to no accepted name, an empty entry and no error |
| SubjectInsightsCard.FindStudent | frontend/frontend/src/components/SubjectInsightsCard.jsx:7-12 | nothing without a dataset or a name; otherwise the first case-insensitive match |
| SubjectInsightsCard.GetSubjectAverages | frontend/frontend/src/components/SubjectInsightsCard.jsx:15-20 | all 0 for no students; otherwise each subject's mean to two decimals |
| SubjectInsightsCard.RenderInsightsCard | frontend/frontend/src/components/SubjectInsightsCard.jsx:22-84 | nothing without a student; otherwise the strengths and improvements against the whole class, each empty list replaced by its sentence |
| SubjectInsightsCard.SoleStudentHasNeither | frontend/frontend/src/components/SubjectInsightsCard.jsx:15-29 | the averages include the student: alone in the class with two-decimal scores, the student has neither strengths nor improvements |

## Left out

- Rendering, routing, HTTP and PDF export are not modelled. This covers the JSX markup, `exportHelper.js`, `ExportReportButton.jsx`, `RoleSelection.jsx`, `AdminAnalysis.jsx`, `StudentDashboard.jsx`, `main.py` and the rest of `App.jsx`.
- `buildAnomalyData` is not modelled: it needs a square root of a float. The same goes for the correlation, anomaly, comparison and distribution patterns of `patterns.py`, which rely on pandas statistics.
- pandas dtype inference in `validate_dataset` is not modelled: each column comes with its kind.
- Floating point is not modelled. Values are exact reals, so binary rounding, Infinity and NaN other than the empty mean are out of scope.
- Number-to-string conversion is not modelled:
  - the histogram labels (`toFixed(1)`);
  - the numbers inside insight sentences;
  - `toFixed(2)` returning a string (a rounded value stays a number here).
- `parseFloat` on text is not modelled. A mark is already a number or not.
- `Patterns.ThresholdPattern`: reports the threshold unrounded. The source rounds it with `round(threshold, 2)` for display only.
- `Text.Lower`: lower-cases ASCII letters only. `toLowerCase` also maps non-ASCII letters.
- `AdminAttentionPanel.GetWeakestSubject`: a `NonNumeric` mark never compares as lower, as NaN does under `<`. That is right for text that is not a number. It is not right for `null`, `""` and `false`, which `<` reads as 0, or `true`, which it reads as 1. Two numeric strings compared with each other (lexicographically) are not modelled either. So for `{math: 5, biology: null, physics: 7}` the source answers Biology and the model answers Math.
- `AnalysisCharts.BuildHistogram`: requires a non-empty series and a positive bin count. On an empty series `Math.min`/`Math.max` give ±Infinity. The component always passes 5 bins.
- `AnalysisCharts.GetComparisonInsight`: requires a non-empty series and as many categories as values, which is how the backend builds them. On other inputs the source shows "undefined" or Infinity.
- The guards that show "Loading..." or return `""`, `[]` or zero counts while the analysis result is still null are not modelled. The model starts from a present result.
- Key events of the input box (Enter triggering validation) are not modelled separately. `SetStudentName` followed by `ValidateStudent` covers them.
- `SubjectInsightsCard.RenderInsightsCard`: takes the typed name as a string, so a missing name is the empty string.
