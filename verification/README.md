# Health monitor report logic, modelled in Dafny

This project models the report logic of a single-user command-line health
monitor. The monitor records a patient's vitals (age, systolic blood
pressure, glucose, weight, height) as reports. Each report also holds a
derived BMI, a BMI band, a condition flag and a recommendation. Reports are
appended to a per-patient CSV log (`<name>_report.csv`). A report can later
be updated in place. The log is also read back to draw trend charts.

Modules, one per part of the core:

- `Metrics` (metrics.dfy): BMI, its four bands, and the health score, over
  mathematical reals.
- `Input` (input.dfy): the range-checked prompt, over a finite sequence of
  already-parsed input lines.
- `Reports` (reports.dfy): the report record and its construction.
- `Store` (store.dfy): the per-patient files, as a class whose `files` map is
  changed by `SaveReport` and `UpdateReport`. A file is a sequence of lines:
  one header line, then one line per report.
- `Trends` (trends.dfy): the row-decoding loop of the trend chart, and the
  selection of the rows that have a BMI.
- `Wrappers` (wrappers.dfy): `Option` and `Result`.

## Model

| member | source | states |
|---|---|---|
| `Metrics.CalculateBmi` | main.py:20-21 | A positive weight gives a positive BMI, and the BMI is zero exactly when the weight is zero. Requires a non-zero height. |
| `Metrics.BmiRoundTrip` | main.py:20-21 | BMI times the squared height in metres gives back the weight. |
| `Metrics.BmiBoundsForAcceptedInput` | main.py:277-278 | For the weights (20-300 kg) and heights (50-250 cm) the entry menu accepts, BMI lies in [3.2, 1200], so the height is never zero. |
| `Metrics.BmiExample` | main.py:20-31 | 70 kg at 175 cm gives a BMI between 22.85 and 22.86, in the normal band. |
| `Metrics.GetBmiCategory` | main.py:23-31 | Total. Each band is characterised in both directions: below 18.5 is underweight, [18.5, 25) normal weight, [25, 30) overweight, 30 and above obese. Lower bounds are inclusive. |
| `Metrics.CategoryMonotone` | main.py:23-31 | A larger BMI never falls into a lighter band. |
| `Metrics.LabelsDistinct` | main.py:24-31 | The four band labels are pairwise different, so the stored text identifies the band. |
| `Metrics.Penalty` | main.py:208-210 | Each score term lies in [0, 100] and is 100 exactly at its ideal value. |
| `Metrics.CalculateHealthScore` | main.py:207-211 | The score lies in [0, 100]. It is 100 exactly when bp = 120, glucose = 100 and BMI = 22.5. |
| `Input.FirstAccepted` | main.py:10-14 | Gives the position of the first attempt that parses and is in range, with no earlier attempt accepted. It is None exactly when no attempt is accepted. |
| `Input.Validated` | main.py:9-14 | The value the prompt returns is in [min, max] and is one of the typed values. It is None exactly when no attempt is acceptable. |
| `Input.ValidateInput` | main.py:9-18 | The loop returns `Validated(...)` after reading exactly up to the first accepted attempt. Every attempt it skipped was unparsable or out of range. |
| `Reports.GenerateReport` | main.py:98-121 | The entered columns are copied from the arguments. BMI and band are derived from weight and height. Condition, and its stored label "Needs Attention", holds iff bp > 120 or glucose > 140 or BMI < 18.5 or BMI >= 25, and the condition and label are "Normal" otherwise. Each condition gets its fixed recommendation. A Normal condition implies the Normal weight band. The result satisfies `ConsistentReport`, which states the condition through the band instead. |
| `Reports.ConsistentReportDetermined` | main.py:99-119 | A consistent report is fixed by its date and its six entered columns. |
| `Store.Rows` | main.py:216-218 | Reading a well-formed file yields one report per line after the header, in file order. |
| `Store.FileOf` | main.py:248-251 | Rewriting a file (header, then all reports) gives a well-formed file that reads back as exactly those reports. |
| `Store.Appended` | main.py:124-132 | Appending to a missing file creates it with header plus report, which reads back as exactly that report. Appending to an existing file adds one line at the end and leaves every earlier line unchanged. A well-formed file then reads back as its old reports plus the new one. |
| `Store.AppendedHeaders` | main.py:126-131 | Appending adds a header line iff the file did not exist before. |
| `Store.WellFormedHasOneHeader` | main.py:130-131 | A file written by the program holds exactly one header. |
| `Store.AppendedPatientFile` | main.py:124-132 | Appending a consistent report of the patient keeps the patient's file valid. |
| `Store.FileOfPatientFile` | main.py:244-251 | Rewriting with consistent reports of the patient gives a valid patient file. |
| `Store.RowOfPatientFile` | main.py:232 | Every report read from a valid patient file is a consistent report of that patient. |
| `Store.RegenerateReport` | main.py:238-245 | An edited report is regenerated over the current values, where each edit that is absent keeps the current value. It keeps the original date and is consistent again. |
| `Store.ReplacedRowFile` | main.py:246-251 | Putting a regenerated report at position k and rewriting the file gives a valid patient file, with the same number of reports, report k replaced, and every other report unchanged. |
| `Store.ReportStore.RewriteWithReplacement` | main.py:246-251 | The store keeps its invariant, and only the patient's file changes: it becomes the header followed by the old reports, with report k replaced. |
| `Store.ReportStore.ReadReports` | main.py:214-218 | Reading a patient without a file fails with NotFound. Otherwise it yields the file's reports in order. |
| `Store.ReportStore.SaveReport` | main.py:124-132 | The patient's file becomes `Appended(old file, report)`, which reads back as the old reports plus the new one. Other patients' files are unchanged and the store invariant is kept. |
| `Store.ReportStore.UpdateReport` | main.py:213-256 | A missing file or an empty log leaves the store unchanged. So do a cancelled choice (0) and input ending without a valid choice. For choice k in [1, n], only that patient's file changes: it is rewritten with a header and the same number n of reports. Report k is regenerated from the edits over its current values and keeps its original date. Every other report is unchanged. |
| `Trends.RowBmi` | main.py:159-167 | A row has no BMI exactly when it has neither a BMI column nor weight and height. |
| `Trends.DecodeTrendRows` | main.py:152-167 | Succeeds iff no row needs a BMI recomputed from a zero height. On success it gives four lists as long as the rows, in file order. Each row's date, blood pressure and glucose are copied. Its BMI is the stored one, else recomputed from weight and height, else None. |
| `Trends.SomeIndices` | main.py:185-187 | Lists the positions that have a BMI, strictly increasing, and no others. |
| `Trends.ValidDates` | main.py:186 | The kept dates are those of the rows with a BMI, in file order. |
| `Trends.ValidBmis` | main.py:187 | The kept BMIs are the present ones, in file order, one per kept date. |
| `Trends.BmiPanelOf` | main.py:185-196 | Gives the placeholder exactly when no row has a BMI. Otherwise it gives a non-empty trend with as many dates as BMIs: the dates (`ValidDates`) and the BMIs (`ValidBmis`) of the rows that have one, in file order. |
| `Trends.PlotHealthTrends` | main.py:149-205 | A missing file gives NoReportsFound. Otherwise it succeeds iff every row decodes. The charts are drawn from the decoded lists and from the BMI panel of those lists. |
| `Trends.TrendRowOf` | main.py:109-113 | A report written by the current version reads back with its BMI column, and its BMI is the stored one. |
| `Trends.AllPresentIndices` | main.py:185-187 | When every row has a BMI, every position is kept. |
| `Trends.AllPresentKeepsAll` | main.py:185-187 | When every row has a BMI, the BMI chart keeps all dates and all BMIs. |
| `Trends.StoredReportsPlotFully` | main.py:159-160 | A file of current-version reports plots every report. The BMI chart shows each report's date and stored BMI, in order. |

## Left out

- The menu loop, prompts, printed messages and the table view of the history (`display_report_history`). These are interactive I/O.
- Chart drawing and saving the PNG. This is a graphics library with no logic to state. `PlotHealthTrends` stops at the data the charts are drawn from.
- Health tips and the fitness challenge. They depend on random choice, sleeping and the wall clock.
- Medication tracking. It is a menu that only reads and writes CSV lines.
- The current time is the parameter `now`, and dates are opaque strings. Parsing the date in the trend reader is not modelled, so a malformed date cannot fail there.
- `Metrics.CalculateBmi`: BMI is an unrounded real. The two-decimal text stored in the BMI column is not modelled. In the menu, the health score is computed from that rounded text, while the condition and band use the unrounded value. The model uses the unrounded value for all of them.
- `Metrics.CalculateBmi`: reals, not IEEE doubles. The squared height is written as two successive divisions, which gives the same real.
- CSV quoting, text encoding and file-handle mechanics. A file is a sequence of header and report lines, and a missing file has no map entry.
- `Store.ReportStore.UpdateReport`: edits arrive already parsed. A typed value that is not a number raises an uncaught ValueError in the source (main.py:238-244), and this is not modelled. The report number comes from the range-checked prompt (main.py:228), so no out-of-range error is modelled either.
- `Store.RegenerateReport`: a typed height of 0 makes the source divide by zero, so this method and `Store.ReportStore.UpdateReport` both require that the typed height is not 0.
- `Store.ReportStore`: only files in the current format are modelled, with the 11-column header and consistent reports. Older files, whose header has no BMI column (main.py:159-161), and files mixing older and current rows behave differently in the source. `save_report` appends an 11-field row under a header without the BMI column (main.py:128-132). `update_report` rewrites a file of older rows only with an empty BMI cell in each row (main.py:248-251). On a mixed file the row with the extra cell makes the CSV writer raise ValueError, which is not caught (main.py:255). The file, already opened for writing (main.py:248), is then left holding the header and the rows before that one.
- `Store.ReportStore.UpdateReport`: the source prompts for a report number until it gets a valid one. The model reads a finite sequence of attempts and reports `NoValidChoice` when they run out.
- `Store.ReportStore.SaveReport`: an existing but empty file would get a report without a header. The store invariant rules this out, because the program never leaves a file empty.
- `Trends.DecodeTrendRows`: only the division by a zero height is modelled as a failure. Blood-pressure and glucose text that is not an integer would also abort the chart in the source. The row shape (BMI column, weight and height, or neither) is a property of the file's header in the source. It is given per row here.
