/**
 * Report construction: one row of a patient's log, built from the vitals
 * entered at the prompt plus the derived BMI, BMI band, condition and
 * recommendation.  The generation time is passed in as an opaque string.
 */
module Reports {
  import opened Metrics

  datatype Condition = Normal | NeedsAttention {
    /** The text stored in the report's "Condition" column. */
    function Label(): string {
      match this
      case Normal => "Normal"
      case NeedsAttention => "Needs Attention"
    }

    /** The fixed advice that goes with each condition. */
    function Recommendation(): string {
      match this
      case Normal => "Keep up the good work!"
      case NeedsAttention => "Please consult with your doctor."
    }
  }

  /** The eleven columns of a report, in the order they are written. */
  datatype Report = Report(
    date: string,
    name: string,
    age: int,
    bloodPressure: int,
    glucose: int,
    weight: real,
    height: real,
    bmi: real,
    bmiCategory: BmiCategory,
    condition: Condition,
    recommendation: string)

  /**
   * The record invariant, stated through the BMI band rather than the BMI
   * thresholds: the derived columns follow from weight and height, and the
   * condition needs attention exactly when blood pressure or glucose is high
   * or the band is anything but normal weight.
   */
  predicate ConsistentReport(r: Report) {
    && r.height != 0.0
    && r.bmi == CalculateBmi(r.weight, r.height)
    && r.bmiCategory == GetBmiCategory(r.bmi)
    && (r.condition == NeedsAttention <==> r.bloodPressure > 120 || r.glucose > 140 || r.bmiCategory != NormalWeight)
    && r.recommendation == r.condition.Recommendation()
  }

  /**
   * Builds the record with condition "Normal" first and overwrites condition
   * and recommendation when any vital is out of range.  Every column but
   * the derived ones is copied from the arguments.
   */
  method GenerateReport(now: string, name: string, age: int, bp: int, glucose: int, weight: real, height: real)
    returns (report: Report)
    requires height != 0.0
    ensures report.date == now && report.name == name && report.age == age
    ensures report.bloodPressure == bp && report.glucose == glucose
    ensures report.weight == weight && report.height == height
    ensures report.bmi == CalculateBmi(weight, height)
    ensures report.bmiCategory == GetBmiCategory(report.bmi)
    ensures report.condition == NeedsAttention <==> bp > 120 || glucose > 140 || report.bmi < 18.5 || report.bmi >= 25.0
    ensures report.condition.Label() == "Needs Attention" <==> bp > 120 || glucose > 140 || report.bmi < 18.5 || report.bmi >= 25.0
    ensures report.condition.Label() == "Normal" <==> !(bp > 120 || glucose > 140 || report.bmi < 18.5 || report.bmi >= 25.0)
    ensures report.condition == Normal ==> report.recommendation == "Keep up the good work!"
    ensures report.condition == NeedsAttention ==> report.recommendation == "Please consult with your doctor."
    ensures report.condition == Normal ==> report.bmiCategory == NormalWeight
    ensures bp <= 120 && glucose <= 140 ==> (report.condition == Normal <==> report.bmiCategory == NormalWeight)
    ensures ConsistentReport(report)
  {
    var bmi := CalculateBmi(weight, height);
    var bmiCategory := GetBmiCategory(bmi);
    report := Report(now, name, age, bp, glucose, weight, height, bmi, bmiCategory,
                     Normal, "Keep up the good work!");
    if bp > 120 || glucose > 140 || bmi < 18.5 || bmi >= 25.0 {
      report := report.(condition := NeedsAttention, recommendation := "Please consult with your doctor.");
    }
  }

  /** A consistent report is fixed by its date and its six entered columns. */
  lemma ConsistentReportDetermined(r1: Report, r2: Report)
    requires ConsistentReport(r1) && ConsistentReport(r2)
    requires r1.date == r2.date && r1.name == r2.name && r1.age == r2.age
    requires r1.bloodPressure == r2.bloodPressure && r1.glucose == r2.glucose
    requires r1.weight == r2.weight && r1.height == r2.height
    ensures r1 == r2
  {
  }
}
