/**
 * Decoding a patient's file for the trend charts.  Each row yields a date,
 * a blood pressure, a glucose level and a BMI when one can be had; the
 * rows with a BMI are then kept, in file order, for the BMI chart.  Files
 * of older versions carry weight and height but no BMI column, so a row
 * comes in one of three shapes.
 */
module Trends {
  import opened Wrappers
  import opened Metrics
  import opened Reports

  /** The columns from which a row's BMI can come. */
  datatype BodyColumns =
    | BmiColumn(bmi: real)                          // current files: the stored BMI
    | WeightHeightColumns(weight: real, height: real) // older files: weight and height only
    | NoBodyColumns                                 // neither

  /** A row as read back, with its date kept as the stored text. */
  datatype TrendRow = TrendRow(date: string, bloodPressure: int, glucose: int, body: BodyColumns)

  /** A row decodes unless its BMI must be recomputed from a zero height. */
  predicate Decodable(row: TrendRow) {
    !(row.body.WeightHeightColumns? && row.body.height == 0.0)
  }

  /** The BMI column wins; otherwise BMI is recomputed from weight and height; otherwise there is none. */
  function RowBmi(row: TrendRow): (bmi: Option<real>)
    requires Decodable(row)
    ensures bmi.None? <==> row.body.NoBodyColumns?
  {
    match row.body
    case BmiColumn(b) => Some(b)
    case WeightHeightColumns(w, h) => Some(CalculateBmi(w, h))
    case NoBodyColumns => None
  }

  /** The four parallel lists the decoding loop builds. */
  datatype Series = Series(dates: seq<string>, bloodPressures: seq<int>, glucoses: seq<int>, bmis: seq<Option<real>>)

  /** `s` holds, position by position, what each of `rows` decodes to. */
  predicate DecodedFrom(s: Series, rows: seq<TrendRow>) {
    && |s.dates| == |rows| && |s.bloodPressures| == |rows|
    && |s.glucoses| == |rows| && |s.bmis| == |rows|
    && forall i :: 0 <= i < |rows| ==>
         && Decodable(rows[i])
         && s.dates[i] == rows[i].date
         && s.bloodPressures[i] == rows[i].bloodPressure
         && s.glucoses[i] == rows[i].glucose
         && s.bmis[i] == RowBmi(rows[i])
  }

  datatype PlotError =
    | NoReportsFound  // the patient has no file
    | DecodeFailed    // a row raised while decoding (division by a zero height)

  /** The row loop: appends one entry to each list per row, in file order. */
  method DecodeTrendRows(rows: seq<TrendRow>) returns (r: Result<Series, PlotError>)
    ensures r.Success? <==> forall i :: 0 <= i < |rows| ==> Decodable(rows[i])
    ensures r.Failure? ==> r.error == DecodeFailed
    ensures r.Success? ==> DecodedFrom(r.value, rows)
  {
    var dates, bloodPressures, glucoses, bmis := [], [], [], [];
    var i := 0;
    while i < |rows|
      invariant 0 <= i <= |rows|
      invariant DecodedFrom(Series(dates, bloodPressures, glucoses, bmis), rows[..i])
    {
      var row := rows[i];
      dates := dates + [row.date];
      bloodPressures := bloodPressures + [row.bloodPressure];
      glucoses := glucoses + [row.glucose];
      match row.body {
        case BmiColumn(b) =>
          bmis := bmis + [Some(b)];
        case WeightHeightColumns(w, h) =>
          if h == 0.0 {
            return Failure(DecodeFailed);
          }
          bmis := bmis + [Some(CalculateBmi(w, h))];
        case NoBodyColumns =>
          bmis := bmis + [None];
      }
      i := i + 1;
    }
    assert rows[..i] == rows;
    return Success(Series(dates, bloodPressures, glucoses, bmis));
  }

  /** Positions of the rows that have a BMI, in increasing order. */
  function SomeIndices(bmis: seq<Option<real>>): (idx: seq<nat>)
    ensures forall k :: 0 <= k < |idx| ==> idx[k] < |bmis| && bmis[idx[k]].Some?
    ensures forall k, l :: 0 <= k < l < |idx| ==> idx[k] < idx[l]
    ensures forall i :: 0 <= i < |bmis| && bmis[i].Some? ==> i in idx
  {
    if |bmis| == 0 then []
    else
      var n := |bmis| - 1;
      var rest := SomeIndices(bmis[..n]);
      if bmis[n].Some? then rest + [n] else rest
  }

  /** The dates of the rows that have a BMI, in file order. */
  function ValidDates(dates: seq<string>, bmis: seq<Option<real>>): (valid: seq<string>)
    requires |dates| == |bmis|
    ensures |valid| == |SomeIndices(bmis)|
    ensures forall k :: 0 <= k < |valid| ==> valid[k] == dates[SomeIndices(bmis)[k]]
  {
    if |bmis| == 0 then []
    else
      var n := |bmis| - 1;
      var rest := ValidDates(dates[..n], bmis[..n]);
      if bmis[n].Some? then rest + [dates[n]] else rest
  }

  /** The BMIs that are present, in file order. */
  function ValidBmis(bmis: seq<Option<real>>): (valid: seq<real>)
    ensures |valid| == |SomeIndices(bmis)|
    ensures forall k :: 0 <= k < |valid| ==> bmis[SomeIndices(bmis)[k]] == Some(valid[k])
  {
    if |bmis| == 0 then []
    else
      var n := |bmis| - 1;
      var rest := ValidBmis(bmis[..n]);
      if bmis[n].Some? then rest + [bmis[n].value] else rest
  }

  /** The third chart: the BMI trend over the rows that have one, or a placeholder. */
  datatype BmiPanel = BmiTrend(dates: seq<string>, bmis: seq<real>) | NoBmiData

  function BmiPanelOf(dates: seq<string>, bmis: seq<Option<real>>): (panel: BmiPanel)
    requires |dates| == |bmis|
    ensures panel.NoBmiData? <==> forall i :: 0 <= i < |bmis| ==> bmis[i].None?
    ensures panel.BmiTrend? ==> |panel.dates| == |panel.bmis| > 0
    ensures panel.BmiTrend? ==> panel == BmiTrend(ValidDates(dates, bmis), ValidBmis(bmis))
  {
    if exists i :: 0 <= i < |bmis| && bmis[i].Some? then
      BmiTrend(ValidDates(dates, bmis), ValidBmis(bmis))
    else
      NoBmiData
  }

  datatype TrendPlot = TrendPlot(series: Series, bmiPanel: BmiPanel)

  /** What the charts are drawn from; None for a patient without a file. */
  method PlotHealthTrends(file: Option<seq<TrendRow>>) returns (r: Result<TrendPlot, PlotError>)
    ensures file.None? ==> r == Failure(NoReportsFound)
    ensures file.Some? ==> (r.Success? <==> forall i :: 0 <= i < |file.value| ==> Decodable(file.value[i]))
    ensures r.Failure? && file.Some? ==> r.error == DecodeFailed
    ensures r.Success? ==>
              && file.Some?
              && DecodedFrom(r.value.series, file.value)
              && r.value.bmiPanel == BmiPanelOf(r.value.series.dates, r.value.series.bmis)
  {
    if file.None? {
      return Failure(NoReportsFound);
    }
    var decoded := DecodeTrendRows(file.value);
    if decoded.Failure? {
      return Failure(decoded.error);
    }
    var series := decoded.value;
    return Success(TrendPlot(series, BmiPanelOf(series.dates, series.bmis)));
  }

  /** How a report written by the current version reads back: its BMI column is present. */
  function TrendRowOf(report: Report): (row: TrendRow)
    ensures Decodable(row) && RowBmi(row) == Some(report.bmi)
    ensures row.date == report.date
  {
    TrendRow(report.date, report.bloodPressure, report.glucose, BmiColumn(report.bmi))
  }

  /** When every row has a BMI, every position is kept. */
  lemma {:induction false} AllPresentIndices(bmis: seq<Option<real>>)
    requires forall i :: 0 <= i < |bmis| ==> bmis[i].Some?
    ensures |SomeIndices(bmis)| == |bmis|
    ensures forall k :: 0 <= k < |bmis| ==> SomeIndices(bmis)[k] == k
  {
    if |bmis| > 0 {
      AllPresentIndices(bmis[..|bmis| - 1]);
    }
  }

  /** When every row has a BMI, the BMI chart keeps every date and every BMI. */
  lemma AllPresentKeepsAll(dates: seq<string>, bmis: seq<Option<real>>)
    requires |dates| == |bmis|
    requires forall i :: 0 <= i < |bmis| ==> bmis[i].Some?
    ensures ValidDates(dates, bmis) == dates
    ensures |ValidBmis(bmis)| == |bmis|
    ensures forall i :: 0 <= i < |bmis| ==> bmis[i] == Some(ValidBmis(bmis)[i])
  {
    AllPresentIndices(bmis);
  }

  /**
   * A file written by the current version plots every report: the BMI
   * chart shows all their dates and their stored BMIs.
   */
  lemma StoredReportsPlotFully(reports: seq<Report>, rows: seq<TrendRow>, s: Series)
    requires |reports| > 0 && |rows| == |reports|
    requires forall i :: 0 <= i < |reports| ==> rows[i] == TrendRowOf(reports[i])
    requires DecodedFrom(s, rows)
    ensures BmiPanelOf(s.dates, s.bmis).BmiTrend?
    ensures |BmiPanelOf(s.dates, s.bmis).dates| == |BmiPanelOf(s.dates, s.bmis).bmis| == |reports|
    ensures forall i :: 0 <= i < |reports| ==>
              && BmiPanelOf(s.dates, s.bmis).dates[i] == reports[i].date
              && BmiPanelOf(s.dates, s.bmis).bmis[i] == reports[i].bmi
  {
    StoredRowsDecode(reports, rows, s);
    AllPresentKeepsAll(s.dates, s.bmis);
    var panel := BmiPanelOf(s.dates, s.bmis);
    assert s.bmis[0].Some?;
    assert panel == BmiTrend(ValidDates(s.dates, s.bmis), ValidBmis(s.bmis));
    forall i | 0 <= i < |reports|
      ensures panel.dates[i] == reports[i].date && panel.bmis[i] == reports[i].bmi
    {
      assert s.bmis[i] == Some(panel.bmis[i]);
    }
  }

  /** Each decoded row of a current-version file carries its report's date and stored BMI. */
  lemma StoredRowsDecode(reports: seq<Report>, rows: seq<TrendRow>, s: Series)
    requires |rows| == |reports|
    requires forall i :: 0 <= i < |reports| ==> rows[i] == TrendRowOf(reports[i])
    requires DecodedFrom(s, rows)
    ensures |s.dates| == |s.bmis| == |reports|
    ensures forall i :: 0 <= i < |reports| ==> s.bmis[i] == Some(reports[i].bmi) && s.dates[i] == reports[i].date
  {
    forall i | 0 <= i < |s.bmis|
      ensures s.bmis[i] == Some(reports[i].bmi) && s.dates[i] == reports[i].date
    {
      assert s.bmis[i] == RowBmi(rows[i]);
    }
  }
}
