# Student welfare report: a Dafny model

The program is a one-page dashboard over a small table of students. Each
row has a name, three marks (Math, Science, English), an attendance
percentage and activity points. The script adds three derived columns to
the table in place:

- **Total Marks**: the sum of the three marks.
- **Average Marks**: their mean, rounded to two decimals.
- **Welfare_Status**: a label from a three-branch rule with strict
  priority. "Needs Support" comes first, when the average is below 50 or
  attendance is below 60. "Excellent" comes next, when the average is at
  least 80 and attendance is at least 85. Every other row is "Good".

It then reports three counts: the number of students, the number rated
Excellent and the number rated Needs Support.

This project models that pipeline and proves its properties.

- `welfare.dfy` holds module `Welfare`, the pure part. It defines the row
  datatypes, the derived marks, the classification rule, the row-wise
  enrichment of a table as a function over `seq`, and the counts as
  recursive functions.
- `student_table.dfy` holds module `StudentTable`. Its class `Frame` is
  the table as the script grows it. Each input column is a `seq` field.
  Each derived column is a field that is `Absent` until a method adds it.
  The methods are proved to produce exactly what the `Welfare` functions
  describe.

Marks and attendance are integers, as the script generates them. The
average is kept in exact integer hundredths: 83.33 is stored as 8333. The
exact mean in hundredths is 100 * total / 3. Its fractional part is 0, 1/3
or 2/3, so rounding to the nearest value never meets a tie. That makes the
integer model exact whatever tie rule the rounding uses. The model computes
it as `(100 * total + 1) / 3`. Dafny's division rounds down for a positive
divisor, so this is correct for negative totals too.

Two facts make the rule easier to reason about, and both are proved:

- Rounding never moves a row across a threshold. The rounded average is
  below 50.00 exactly when the total is below 150. It is at least 80.00
  exactly when the total is at least 240.
- The "Needs Support" and "Excellent" conditions can never hold together.
  So the priority of the first branch never changes a result: testing the
  branches in the other order labels every row the same way. For example,
  average 90 with attendance 50 is "Needs Support". It would not be
  "Excellent" either, because attendance 50 is below 85.

## Model

| member | source | states |
|---|---|---|
| `Welfare.AverageHundredths` | app.py:40 | the stored average is within 1/3 of a hundredth of the exact mean, 100·total/3 |
| `Welfare.AverageIsNearest` | app.py:40 | the stored average is the unique nearest two-decimal value to the mean; every other candidate is strictly farther away |
| `Welfare.AverageMonotone` | app.py:40 | a larger total never gives a smaller rounded average |
| `Welfare.AverageWithinMarks` | app.py:40 | the average lies between the smallest and the largest mark, so it lies in [0, 100] when the marks do |
| `Welfare.AverageBelowSupportIff` | app.py:40-46 | rounded average < 50.00 exactly when total < 150 |
| `Welfare.AverageReachesExcellentIff` | app.py:40-48 | rounded average ≥ 80.00 exactly when total ≥ 240 |
| `Welfare.Classify` | app.py:45-51 | Needs Support iff average < 50 or attendance < 60; Excellent iff average ≥ 80 and attendance ≥ 85; Good iff neither, each in both directions, so exactly one label applies |
| `Welfare.BranchOrderImmaterial` | app.py:46-49 | the two tested conditions are disjoint, and testing Excellent first gives the same status for every input |
| `Welfare.ClassifyMonotone` | app.py:45-51 | a higher average or attendance never lowers the status (NeedsSupport < Good < Excellent) |
| `Welfare.LabelsDistinct` | app.py:45-51 | the three returned texts are pairwise distinct, so counting by text counts by status |
| `Welfare.Enrich` | app.py:39-53 | an enriched row keeps its input fields; its total is Math + Science + English exactly; its average is the rounded mean of that total; its status is the rule applied to that average and the row's attendance |
| `Welfare.StatusByMarks` | app.py:39-51 | the status stated on the raw total: Needs Support iff total < 150 or attendance < 60, Excellent iff total ≥ 240 and attendance ≥ 85, Good otherwise |
| `Welfare.EnrichMonotone` | app.py:39-51 | raising any mark or the attendance never lowers a student's status |
| `Welfare.EnrichAll` | app.py:53 | the row-wise apply keeps the number and order of rows, and row i of the result is the enrichment of input row i |
| `Welfare.StatusDependsOnlyOnRow` | app.py:53 | two rows, in any tables and at any positions, with equal average and attendance get the same status |
| `Welfare.StatusColumn` | app.py:53 | the Welfare_Status column has one entry per row, holding that row's status |
| `Welfare.Count` | app.py:59-60 | a count is at most the column length; it is 0 iff the label does not occur; it equals the length iff every entry has that label |
| `Welfare.CountIsMultiplicity` | app.py:59-60 | the count of a label is its multiplicity in the column |
| `Welfare.CountPartition` | app.py:58-60 | Excellent + Needs Support + Good counts add up to the number of rows |
| `Welfare.SummarizeColumn` | app.py:58-60 | read off a status column: the count of entries, the multiplicities of Excellent and Needs Support, their sum at most the count, and the remainder is the number of Good entries |
| `Welfare.Summarize` | app.py:58-60 | total students is the number of rows; the two counts are the multiplicities of Excellent and Needs Support; their sum is at most the total, and what remains is the number of Good rows |
| `Welfare.TwoRowExample` | app.py:39-60 | marks (90,90,90) with attendance 95 and marks (30,40,35) with attendance 50 give averages 90.00 and 35.00, statuses Excellent and Needs Support, and summary (2, 1, 1) |
| `StudentTable.Frame.constructor` | app.py:31 | the frame holds the input rows in order and has no derived column yet |
| `StudentTable.Frame.AddTotalMarks` | app.py:39 | adds Total Marks as the row-wise sum of the three mark columns, changing no other column |
| `StudentTable.Frame.AddAverageMarks` | app.py:40 | adds Average Marks from the mark columns, each entry the rounded mean of that row, changing no other column |
| `StudentTable.Frame.AddWelfareStatus` | app.py:45-53 | adds Welfare_Status by applying the rule to each row's Average Marks and Attendance, changing no other column |
| `StudentTable.Frame.AddDerivedColumns` | app.py:39-53 | after the three column steps the frame is exactly `EnrichAll` of its unchanged input rows |
| `StudentTable.Frame.Summarize` | app.py:58-60 | the metrics are the row count and the multiplicities of Excellent and Needs Support in the status column; the rest are Good; on a complete frame they equal `Welfare.Summarize` of its rows |

## Left out

- Page setup and all rendering are left out because they are user interface only. This covers the title, the data tables, the metric widgets, the chart selector, the bar chart, the download button and the captions (app.py:10-12, 33-34, 66-82, 88-96).
- The sample data is left out. The script draws it from a seeded NumPy random generator (app.py:17-29), which is a foreign source of randomness. The frame's constructor takes the rows as a parameter, and `TwoRowExample` uses a fixed literal table.
- The attendance–marks correlation (app.py:61) and its two-decimal formatting (app.py:73) are left out. They are floating-point numerics inside pandas, including the undefined case for constant or too-short columns.
- The CSV export (app.py:87) is left out because it is pandas text formatting that is not visible here.
- Floating point in the average is left out: the float mean and the IEEE behaviour of `np.round` (app.py:40). The model uses exact hundredths instead. The exact mean of three integers always lies at least 1/6 of a hundredth away from a rounding tie. For totals below about 10^12 in magnitude, far beyond any mark, float error is much smaller than that margin and cannot change the rounded value. Comparing the stored two-decimal value with 50 and 80 gives the same answers as comparing the hundredths with 5000 and 8000.
- Machine integer widths are not modelled: Total Marks is an int64 column that would wrap at 2^63, and at huge magnitudes (totals beyond about 10^12; sums beyond 2^53 are not even exact) the float64 mean and the scaling by 100 in `np.round` lose precision, so the script's average could differ from the exact hundredths (app.py:39-40). The model uses unbounded integers. This never matters in the program, because the generator draws marks from [35, 99] and attendance from [50, 99] (app.py:24-27).
- Name and activity points are carried as opaque fields because no computation uses them (app.py:19, 28).
- Out-of-range marks and attendance are accepted unchanged, as in the script. Nothing in the model requires the values to lie in [0, 100].
