/**
 * The report log: one CSV file per patient, `<name>_report.csv`.  A file is
 * a sequence of lines, a header line naming the eleven columns followed by
 * one line per report; a patient without a file has no entry in the map.
 */
module Store {
  import opened Wrappers
  import opened Metrics
  import opened Reports
  import opened Input

  /** The header the writer emits: the report's keys in insertion order. */
  const ReportFields: seq<string> := [
    "Date", "Name", "Age", "Blood Pressure", "Glucose", "Weight (kg)",
    "Height (cm)", "BMI", "BMI Category", "Condition", "Recommendation"]

  datatype Line = Header(fields: seq<string>) | Row(report: Report)

  /** A file as this program writes it: the header exactly once, first, then report rows. */
  predicate WellFormedFile(lines: seq<Line>) {
    && |lines| >= 1
    && lines[0] == Header(ReportFields)
    && forall i :: 1 <= i < |lines| ==> lines[i].Row?
  }

  /** The reports a dictionary reader yields from a well-formed file, in file order. */
  function Rows(lines: seq<Line>): (rows: seq<Report>)
    requires WellFormedFile(lines)
    ensures |rows| == |lines| - 1
    ensures forall i :: 0 <= i < |rows| ==> lines[i + 1] == Row(rows[i])
  {
    seq(|lines| - 1, i requires 0 <= i < |lines| - 1 => lines[i + 1].report)
  }

  /** Number of header lines in a file. */
  function Headers(lines: seq<Line>): nat {
    if |lines| == 0 then 0
    else (if lines[0].Header? then 1 else 0) + Headers(lines[1..])
  }

  lemma {:induction false} HeadersConcat(a: seq<Line>, b: seq<Line>)
    ensures Headers(a + b) == Headers(a) + Headers(b)
  {
    if |a| == 0 {
      assert a + b == b;
    } else {
      assert (a + b)[1..] == a[1..] + b;
      HeadersConcat(a[1..], b);
    }
  }

  /** A well-formed file holds exactly one header. */
  lemma WellFormedHasOneHeader(lines: seq<Line>)
    requires WellFormedFile(lines)
    ensures Headers(lines) == 1
  {
    var rest := lines[1..];
    assert lines == [lines[0]] + rest;
    HeadersConcat([lines[0]], rest);
    NoHeaders(rest);
  }

  lemma {:induction false} NoHeaders(lines: seq<Line>)
    requires forall i :: 0 <= i < |lines| ==> lines[i].Row?
    ensures Headers(lines) == 0
  {
    if |lines| > 0 {
      NoHeaders(lines[1..]);
    }
  }

  /** The file written in full: header, then every report in order (the rewrite after an update). */
  function FileOf(rows: seq<Report>): (lines: seq<Line>)
    ensures WellFormedFile(lines)
    ensures Rows(lines) == rows
  {
    [Header(ReportFields)] + seq(|rows|, i requires 0 <= i < |rows| => Row(rows[i]))
  }

  /**
   * The file after appending one report: a missing file is created with the
   * header first; an existing one only gains the report's line at its end.
   */
  function Appended(file: Option<seq<Line>>, report: Report): (lines: seq<Line>)
    ensures file.None? ==> |lines| == 2 && WellFormedFile(lines) && Rows(lines) == [report]
    ensures file.Some? ==> |lines| == |file.value| + 1 && lines[..|file.value|] == file.value
    ensures lines[|lines| - 1] == Row(report)
    ensures file.Some? && WellFormedFile(file.value) ==>
              WellFormedFile(lines) && Rows(lines) == Rows(file.value) + [report]
  {
    match file
    case None => [Header(ReportFields), Row(report)]
    case Some(existing) => existing + [Row(report)]
  }

  /** The header is written exactly when the file did not exist before. */
  lemma AppendedHeaders(file: Option<seq<Line>>, report: Report)
    ensures Headers(Appended(file, report)) == if file.None? then 1 else Headers(file.value)
  {
    var lines := Appended(file, report);
    match file
    case None =>
      WellFormedHasOneHeader(lines);
    case Some(existing) =>
      assert lines == existing + [Row(report)];
      HeadersConcat(existing, [Row(report)]);
      assert Headers([Row(report)]) == 0 by {
        NoHeaders([Row(report)]);
      }
  }

  /** A patient's file: well formed, and every report in it is that patient's and consistent. */
  predicate PatientFile(name: string, lines: seq<Line>) {
    && WellFormedFile(lines)
    && forall r :: r in Rows(lines) ==> r.name == name && ConsistentReport(r)
  }

  /** Appending a consistent report of the patient keeps the patient's file valid. */
  lemma AppendedPatientFile(name: string, file: Option<seq<Line>>, report: Report)
    requires file.Some? ==> PatientFile(name, file.value)
    requires report.name == name && ConsistentReport(report)
    ensures PatientFile(name, Appended(file, report))
  {
    var lines := Appended(file, report);
    var prior := if file.None? then [] else Rows(file.value);
    assert Rows(lines) == prior + [report];
    forall r | r in Rows(lines)
      ensures r.name == name && ConsistentReport(r)
    {
      if r != report {
        assert r in prior;
      }
    }
  }

  /** Rewriting the file with consistent reports of the patient gives a valid patient file. */
  lemma FileOfPatientFile(name: string, rows: seq<Report>)
    requires forall i :: 0 <= i < |rows| ==> rows[i].name == name && ConsistentReport(rows[i])
    ensures PatientFile(name, FileOf(rows))
  {
    forall r | r in Rows(FileOf(rows))
      ensures r.name == name && ConsistentReport(r)
    {
      var i :| 0 <= i < |rows| && rows[i] == r;
    }
  }

  /** Every row of a valid patient file is that patient's and consistent. */
  lemma RowOfPatientFile(name: string, lines: seq<Line>, i: int)
    requires PatientFile(name, lines)
    requires 0 <= i < |Rows(lines)|
    ensures Rows(lines)[i].name == name && ConsistentReport(Rows(lines)[i])
  {
    assert Rows(lines)[i] in Rows(lines);
  }

  /** Every patient's file is a valid patient file. */
  ghost predicate ValidFiles(files: map<string, seq<Line>>) {
    forall name :: name in files ==> PatientFile(name, files[name])
  }

  /** Storing a valid patient file under its patient's name keeps every file valid. */
  lemma PutKeepsValid(files: map<string, seq<Line>>, name: string, lines: seq<Line>)
    requires ValidFiles(files) && PatientFile(name, lines)
    ensures ValidFiles(files[name := lines])
  {
  }

  /** Values typed while updating a report; None where the user kept the current value. */
  datatype Edits = Edits(
    age: Option<int>,
    bloodPressure: Option<int>,
    glucose: Option<int>,
    weight: Option<real>,
    height: Option<real>)

  /**
   * `updated` is what updating `current` with `edits` gives: the original
   * date, each entered column either typed anew or kept, and derived columns
   * recomputed.
   */
  predicate Regenerated(updated: Report, current: Report, edits: Edits, name: string) {
    && updated.date == current.date
    && updated.name == name
    && updated.age == edits.age.GetOr(current.age)
    && updated.bloodPressure == edits.bloodPressure.GetOr(current.bloodPressure)
    && updated.glucose == edits.glucose.GetOr(current.glucose)
    && updated.weight == edits.weight.GetOr(current.weight)
    && updated.height == edits.height.GetOr(current.height)
    && ConsistentReport(updated)
  }

  /**
   * `after` is `before` with report number `k` (1-based) regenerated from
   * `edits`, and every other report left as it was.
   */
  predicate ReplacedAt(before: seq<Report>, after: seq<Report>, k: int, edits: Edits, name: string) {
    && 1 <= k <= |before|
    && |after| == |before|
    && Regenerated(after[k - 1], before[k - 1], edits, name)
    && forall i :: 0 <= i < |before| && i != k - 1 ==> after[i] == before[i]
  }

  /**
   * Putting a regenerated report in place of report number `k` of a valid
   * patient file and rewriting the file gives a valid patient file that
   * reads back as the replacement.
   */
  lemma ReplacedRowFile(name: string, lines: seq<Line>, k: int, newReport: Report, edits: Edits)
    requires PatientFile(name, lines)
    requires 1 <= k <= |Rows(lines)|
    requires Regenerated(newReport, Rows(lines)[k - 1], edits, name)
    ensures PatientFile(name, FileOf(Rows(lines)[k - 1 := newReport]))
    ensures ReplacedAt(Rows(lines), Rows(lines)[k - 1 := newReport], k, edits, name)
  {
    var before := Rows(lines);
    var after := before[k - 1 := newReport];
    forall i | 0 <= i < |after|
      ensures after[i].name == name && ConsistentReport(after[i])
    {
      if i != k - 1 {
        RowOfPatientFile(name, lines, i);
      }
    }
    FileOfPatientFile(name, after);
  }

  /**
   * The new values of an update: each typed value, or the current one where
   * nothing was typed; the report generated from them at `now` is then given
   * the current report's date.
   */
  method RegenerateReport(current: Report, edits: Edits, name: string, now: string) returns (updated: Report)
    requires ConsistentReport(current)
    requires edits.height != Some(0.0)
    ensures Regenerated(updated, current, edits, name)
  {
    var age := edits.age.GetOr(current.age);
    var bp := edits.bloodPressure.GetOr(current.bloodPressure);
    var glucose := edits.glucose.GetOr(current.glucose);
    var weight := edits.weight.GetOr(current.weight);
    var height := edits.height.GetOr(current.height);
    updated := GenerateReport(now, name, age, bp, glucose, weight, height);
    updated := updated.(date := current.date);
  }

  datatype ReadError = NotFound

  datatype UpdateOutcome =
    | NoReportsFound     // the patient has no file
    | NoExistingReports  // the file holds no report
    | NoValidChoice      // the input ended before an acceptable report number
    | Cancelled          // the user chose 0
    | Updated(index: nat)

  class ReportStore {
    /** Each patient's file, keyed by patient name; no key, no file. */
    var files: map<string, seq<Line>>

    ghost predicate Valid()
      reads this
    {
      ValidFiles(files)
    }

    constructor ()
      ensures Valid() && files == map[]
    {
      files := map[];
    }

    /** The patient's file, or None when it does not exist. */
    function FileFor(name: string): (file: Option<seq<Line>>)
      reads this
      ensures file.Some? <==> name in files
      ensures file.Some? ==> file.value == files[name]
    {
      if name in files then Some(files[name]) else None
    }

    /** Reading a patient's reports: NotFound when there is no file, else its rows in order. */
    function ReadReports(name: string): (r: Result<seq<Report>, ReadError>)
      reads this
      requires Valid()
      ensures r.Failure? <==> name !in files
      ensures r.Success? ==> r.value == Rows(files[name])
    {
      if name in files then Success(Rows(files[name])) else Failure(NotFound)
    }

    /** Appends the report to its patient's file, writing the header first when the file is new. */
    method SaveReport(report: Report)
      requires Valid()
      requires ConsistentReport(report)
      modifies this
      ensures Valid()
      ensures files == old(files)[report.name := Appended(old(FileFor(report.name)), report)]
      ensures ReadReports(report.name) ==
                Success((if report.name in old(files) then Rows(old(files)[report.name]) else []) + [report])
    {
      var fileExists := report.name in files;
      var lines := if fileExists then files[report.name] else [];
      if !fileExists {
        lines := lines + [Header(ReportFields)];
      }
      lines := lines + [Row(report)];
      ghost var file := FileFor(report.name);
      assert lines == Appended(file, report);
      AppendedPatientFile(report.name, file, report);
      PutKeepsValid(files, report.name, lines);
      ghost var prior := if fileExists then Rows(files[report.name]) else [];
      assert Rows(lines) == prior + [report];
      files := files[report.name := lines];
    }

    /** Puts `updated` in place of report number `k` and rewrites the whole file. */
    method RewriteWithReplacement(name: string, k: int, updated: Report, ghost edits: Edits)
      requires Valid()
      requires name in files && 1 <= k <= |Rows(files[name])|
      requires Regenerated(updated, Rows(files[name])[k - 1], edits, name)
      modifies this
      ensures Valid()
      ensures files == old(files)[name := FileOf(Rows(old(files)[name])[k - 1 := updated])]
    {
      var reports := Rows(files[name]);
      ReplacedRowFile(name, files[name], k, updated, edits);
      reports := reports[k - 1 := updated];
      PutKeepsValid(files, name, FileOf(reports));
      files := files[name := FileOf(reports)];
    }

    /**
     * Replaces one report of the patient's file.  The user picks a report
     * number from `choices` (1-based, 0 cancels); the new report is generated
     * from `edits` over the current values at time `now`, then given the
     * original date, and the whole file is rewritten.
     */
    method UpdateReport(name: string, choices: seq<Option<int>>, edits: Edits, now: string)
      returns (outcome: UpdateOutcome)
      requires Valid()
      requires edits.height != Some(0.0)
      modifies this
      ensures Valid()
      ensures outcome == NoReportsFound <==> name !in old(files)
      ensures outcome == NoExistingReports <==> name in old(files) && |Rows(old(files)[name])| == 0
      ensures name in old(files) && |Rows(old(files)[name])| > 0 ==>
                var chosen := Validated(choices, 0, |Rows(old(files)[name])|);
                && (outcome == NoValidChoice <==> chosen == None)
                && (outcome == Cancelled <==> chosen == Some(0))
                && (outcome.Updated? ==> chosen == Some(outcome.index))
      ensures !outcome.Updated? ==> files == old(files)
      ensures outcome.Updated? ==>
                && name in old(files) && name in files
                && files == old(files)[name := files[name]]
                && files[name] == FileOf(Rows(files[name]))
                && ReplacedAt(Rows(old(files)[name]), Rows(files[name]), outcome.index, edits, name)
    {
      if name !in files {
        return NoReportsFound;
      }
      var reports := Rows(files[name]);
      if |reports| == 0 {
        return NoExistingReports;
      }
      var choice, _ := ValidateInput(choices, 0, |reports|);
      if choice.None? {
        return NoValidChoice;
      }
      if choice.value == 0 {
        return Cancelled;
      }
      var k := choice.value;
      var current := reports[k - 1];
      RowOfPatientFile(name, files[name], k - 1);
      var newReport := RegenerateReport(current, edits, name, now);
      ReplacedRowFile(name, files[name], k, newReport, edits);
      RewriteWithReplacement(name, k, newReport, edits);
      outcome := Updated(k);
    }
  }
}
