/**
 * The BMI value and its four-way classification (BMI.py:195-213).
 */
module Classification {

  /** The weight-status labels stored in the `category` column. */
  datatype Category = Underweight | Normal | Overweight | Obese

  /** Lower bounds of Normal, Overweight and Obese; each bound belongs to the upper class. */
  const NormalFrom: real := 18.5
  const OverweightFrom: real := 25.0
  const ObeseFrom: real := 30.0

  /** The threshold chain of `calculate_bmi`: the first `bmi < limit` that holds decides. */
  function Classify(bmi: real): (c: Category)
    ensures c == Underweight <==> bmi < 18.5
    ensures c == Normal <==> 18.5 <= bmi < 25.0
    ensures c == Overweight <==> 25.0 <= bmi < 30.0
    ensures c == Obese <==> 30.0 <= bmi
  {
    if bmi < NormalFrom then Underweight
    else if bmi < OverweightFrom then Normal
    else if bmi < ObeseFrom then Overweight
    else Obese
  }

  /** The advice line shown under the result for each category. */
  function Advice(c: Category): string
  {
    match c
    case Underweight => "Consider consulting a nutritionist for a healthy weight gain plan."
    case Normal => "Great! Maintain your healthy lifestyle."
    case Overweight => "Consider a balanced diet and regular exercise."
    case Obese => "Please consult a healthcare professional for guidance."
  }

  /** Position of a category on the scale, lightest first. */
  function Severity(c: Category): nat
  {
    match c
    case Underweight => 0
    case Normal => 1
    case Overweight => 2
    case Obese => 3
  }

  /** How many of the thresholds in `limits` the value has reached. */
  function Reached(limits: seq<real>, bmi: real): (n: nat)
    ensures n <= |limits|
  {
    if limits == [] then 0 else (if limits[0] <= bmi then 1 else 0) + Reached(limits[1..], bmi)
  }

  /** The category is the number of thresholds reached, counting from Underweight. */
  lemma ClassifyCountsThresholds(bmi: real)
    ensures Severity(Classify(bmi)) == Reached([NormalFrom, OverweightFrom, ObeseFrom], bmi)
  {
    var limits := [NormalFrom, OverweightFrom, ObeseFrom];
    assert limits[1..] == [OverweightFrom, ObeseFrom];
    assert limits[1..][1..] == [ObeseFrom];
    assert limits[1..][1..][1..] == [];
    assert Reached(limits[1..][1..], bmi) == if ObeseFrom <= bmi then 1 else 0;
    assert Reached(limits[1..], bmi) == (if OverweightFrom <= bmi then 1 else 0) + Reached(limits[1..][1..], bmi);
    assert Reached(limits, bmi) == (if NormalFrom <= bmi then 1 else 0) + Reached(limits[1..], bmi);
  }

  /** A larger BMI never gets a lighter category. */
  lemma ClassifyMonotone(a: real, b: real)
    requires a <= b
    ensures Severity(Classify(a)) <= Severity(Classify(b))
  {
  }

  /** Each threshold belongs to the heavier category. */
  lemma ClassifyBoundaries()
    ensures Classify(18.49) == Underweight && Classify(18.5) == Normal && Classify(24.999) == Normal
    ensures Classify(25.0) == Overweight && Classify(29.999) == Overweight && Classify(30.0) == Obese
  {
  }

  function Abs(x: real): real
  {
    if x < 0.0 then -x else x
  }

  /**
   * `round(x, 2)`: the nearest whole number of hundredths, ties going to the
   * even one, applied to the exact value.
   */
  function Round2(x: real): (r: real)
    ensures Abs(r - x) <= 0.005
    ensures x >= 0.0 ==> r >= 0.0
    ensures (r * 100.0).Floor as real == r * 100.0
  {
    var y := x * 100.0;
    var f := y.Floor;
    var d := y - f as real;
    var n := if d < 0.5 then f else if d > 0.5 then f + 1 else if f % 2 == 0 then f else f + 1;
    n as real / 100.0
  }

  /** No whole number of hundredths is closer to `x` than `Round2(x)`. */
  lemma Round2Nearest(x: real, m: int)
    ensures Abs(Round2(x) - x) <= Abs(m as real / 100.0 - x)
  {
    var y := x * 100.0;
    var f := y.Floor;
    assert f as real <= y < f as real + 1.0;
    if m <= f {
      assert m as real / 100.0 <= f as real / 100.0;
    } else {
      assert m as real / 100.0 >= (f + 1) as real / 100.0;
    }
  }

  /** An exact tie between two hundredths goes to the even one. */
  lemma Round2TiesToEven(x: real)
    ensures Abs(Round2(x) - x) == 0.005 ==> (Round2(x) * 100.0).Floor % 2 == 0
  {
    var y := x * 100.0;
    var f := y.Floor;
    assert f as real <= y < f as real + 1.0;
    var r := Round2(x);
    if Abs(r - x) == 0.005 {
      assert y - f as real == 0.5;
      var n := if f % 2 == 0 then f else f + 1;
      assert r == n as real / 100.0;
      assert r * 100.0 == n as real;
    }
  }

  /** A value already given in hundredths is kept as it is. */
  lemma Round2Idempotent(x: real)
    ensures Round2(Round2(x)) == Round2(x)
  {
    var r := Round2(x);
    var n := (r * 100.0).Floor;
    assert r * 100.0 == n as real;
    assert (r * 100.0).Floor == n;
  }

  /** `round(weight / height ** 2, 2)`, computed once the entries are known to be positive. */
  function Bmi(weight: real, height: real): (b: real)
    requires weight > 0.0 && height > 0.0
    ensures b >= 0.0
    ensures Abs(b - weight / (height * height)) <= 0.005
  {
    assert height * height > 0.0;
    Round2(weight / (height * height))
  }

  /** 70 kg at 1.75 m: BMI 22.86, Normal. */
  lemma ScenarioAnn()
    ensures Bmi(70.0, 1.75) == 22.86 && Classify(Bmi(70.0, 1.75)) == Normal
  {
    var y := 70.0 / (1.75 * 1.75) * 100.0;
    assert 2285.0 <= y < 2286.0;
    assert y.Floor == 2285;
  }

  /** 100 kg at 1.6 m: BMI 39.06, Obese. */
  lemma ScenarioBob()
    ensures Bmi(100.0, 1.6) == 39.06 && Classify(Bmi(100.0, 1.6)) == Obese
  {
    var y := 100.0 / (1.6 * 1.6) * 100.0;
    assert 3906.0 <= y < 3907.0;
    assert y.Floor == 3906;
  }
}
