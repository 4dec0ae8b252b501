/**
 * The metric rules of the health monitor: body-mass index, its four
 * bands, and the composite health score.  Numbers are mathematical reals,
 * so the properties below are about the formulas, not about floating point.
 */
module Metrics {

  /**
   * BMI from weight in kilograms and height in centimetres: the weight
   * divided by the square of the height in metres.  It is written as two
   * successive divisions by the height in metres, which is the same real
   * number and keeps the solver away from squared terms.
   */
  function CalculateBmi(weight: real, height: real): (bmi: real)
    requires height != 0.0
    ensures weight > 0.0 ==> bmi > 0.0
    ensures weight == 0.0 <==> bmi == 0.0
  {
    var metres := height / 100.0;
    DivFacts(weight, metres);
    DivFacts(weight / metres, metres);
    weight / metres / metres
  }

  /** Multiplying the BMI back by the squared height in metres gives the weight. */
  lemma BmiRoundTrip(weight: real, height: real)
    requires height != 0.0
    ensures (CalculateBmi(weight, height) * (height / 100.0)) * (height / 100.0) == weight
  {
    var metres := height / 100.0;
    DivFacts(weight, metres);
    DivFacts(weight / metres, metres);
  }

  lemma DivFacts(w: real, a: real)
    requires a != 0.0
    ensures (w / a) * a == w
    ensures (w > 0.0 && a > 0.0) || (w < 0.0 && a < 0.0) ==> w / a > 0.0
    ensures (w > 0.0 && a < 0.0) || (w < 0.0 && a > 0.0) ==> w / a < 0.0
    ensures w == 0.0 <==> w / a == 0.0
  {
  }

  lemma DivMonoNumerator(x: real, y: real, a: real)
    requires a > 0.0 && x <= y
    ensures x / a <= y / a
  {
    DivFacts(x, a);
    DivFacts(y, a);
  }

  lemma DivMonoDenominator(x: real, a: real, b: real)
    requires x >= 0.0 && 0.0 < a <= b
    ensures x / b <= x / a
  {
    DivFacts(x, a);
    DivFacts(x, b);
  }

  /**
   * The entry menu accepts weights in [20, 300] kg and heights in
   * [50, 250] cm; every such pair has a BMI between 3.2 and 1200, and in
   * particular the height is never zero.
   */
  lemma BmiBoundsForAcceptedInput(weight: real, height: real)
    requires 20.0 <= weight <= 300.0 && 50.0 <= height <= 250.0
    ensures 3.2 <= CalculateBmi(weight, height) <= 1200.0
  {
    var m := height / 100.0;
    var perMetre := weight / m;
    DivMonoNumerator(20.0, weight, m);
    DivMonoDenominator(20.0, m, 2.5);
    DivMonoNumerator(weight, 300.0, m);
    DivMonoDenominator(300.0, 0.5, m);
    assert 8.0 <= perMetre <= 600.0;
    DivMonoNumerator(8.0, perMetre, m);
    DivMonoDenominator(8.0, m, 2.5);
    DivMonoNumerator(perMetre, 600.0, m);
    DivMonoDenominator(600.0, 0.5, m);
  }

  /** 70 kg at 175 cm gives a BMI of about 22.86, in the normal band. */
  lemma BmiExample()
    ensures 22.85 < CalculateBmi(70.0, 175.0) < 22.86
    ensures GetBmiCategory(CalculateBmi(70.0, 175.0)) == NormalWeight
  {
  }

  datatype BmiCategory = Underweight | NormalWeight | Overweight | Obese {
    /** The text stored in the report's "BMI Category" column. */
    function Label(): string {
      match this
      case Underweight => "Underweight"
      case NormalWeight => "Normal weight"
      case Overweight => "Overweight"
      case Obese => "Obese"
    }

    /** Position of the band on the BMI axis, lightest first. */
    function Rank(): nat {
      match this
      case Underweight => 0
      case NormalWeight => 1
      case Overweight => 2
      case Obese => 3
    }
  }

  /** Each band is closed at its lower bound and open at its upper bound. */
  function GetBmiCategory(bmi: real): (c: BmiCategory)
    ensures c == Underweight <==> bmi < 18.5
    ensures c == NormalWeight <==> 18.5 <= bmi < 25.0
    ensures c == Overweight <==> 25.0 <= bmi < 30.0
    ensures c == Obese <==> 30.0 <= bmi
  {
    if bmi < 18.5 then Underweight
    else if 18.5 <= bmi < 25.0 then NormalWeight
    else if 25.0 <= bmi < 30.0 then Overweight
    else Obese
  }

  /** The band is monotone: a larger BMI never falls into a lighter band. */
  lemma CategoryMonotone(a: real, b: real)
    requires a <= b
    ensures GetBmiCategory(a).Rank() <= GetBmiCategory(b).Rank()
  {
  }

  /** The four bands carry four different labels, so the stored text identifies the band. */
  lemma LabelsDistinct(c: BmiCategory, d: BmiCategory)
    ensures c.Label() == d.Label() <==> c == d
  {
  }

  function Abs(x: real): (r: real)
    ensures r >= 0.0 && (r == x || r == -x)
  {
    if x < 0.0 then -x else x
  }

  function Max(a: real, b: real): (r: real)
    ensures r >= a && r >= b && (r == a || r == b)
  {
    if a < b then b else a
  }

  /** One term of the score: 100 at the ideal value, losing `slope` points per unit away from it, never below 0. */
  function Penalty(actual: real, ideal: real, slope: real): (s: real)
    requires slope > 0.0
    ensures 0.0 <= s <= 100.0
    ensures s == 100.0 <==> actual == ideal
  {
    Max(0.0, 100.0 - slope * Abs(actual - ideal))
  }

  /** The average of the blood-pressure, glucose and BMI terms, ideal at 120, 100 and 22.5. */
  function CalculateHealthScore(bp: int, glucose: int, bmi: real): (score: real)
    ensures 0.0 <= score <= 100.0
    ensures score == 100.0 <==> bp == 120 && glucose == 100 && bmi == 22.5
  {
    var bpScore := Penalty(bp as real, 120.0, 1.0);
    var glucoseScore := Penalty(glucose as real, 100.0, 1.0);
    var bmiScore := Penalty(bmi, 22.5, 5.0);
    (bpScore + glucoseScore + bmiScore) / 3.0
  }
}
