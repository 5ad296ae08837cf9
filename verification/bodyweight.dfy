/** The body-weight panel: Devine ideal body weight, the actual weight
    compared with it, the adjusted body weight and the body-mass index
    with its category.  Heights are centimetres and weights kilograms;
    a field that does not parse (`NaN`) is `None`. */
module BodyWeight {
  import opened Wrappers

  datatype Sex = Male | Female

  /** A result line: left blank, "insufficient data", or a value. */
  datatype Field<T> = Blank | Insufficient | Value(value: T)

  const CmPerInch: real := 2.54
  const FiveFeet: real := 60.0        // inches
  const KgPerInchOverFiveFeet: real := 2.3

  /** The ideal weight at five feet or less. */
  function BaseWeight(sex: Sex): (kg: real)
    ensures kg > 0.0
  {
    match sex
    case Male => 50.0
    case Female => 45.5
  }

  /** A usable number: parsed and positive. */
  predicate Positive(x: Option<real>)
  {
    x.Some? && x.value > 0.0
  }

  /** Devine's formula: the base weight plus 2.3 kg for every inch over
      five feet; no reduction below five feet. */
  function IdealBodyWeight(sex: Sex, heightCm: real): (ibw: real)
    requires heightCm > 0.0
    ensures ibw >= BaseWeight(sex)
    ensures heightCm / CmPerInch <= FiveFeet ==> ibw == BaseWeight(sex)
    ensures heightCm / CmPerInch > FiveFeet ==>
      ibw - BaseWeight(sex) == KgPerInchOverFiveFeet * (heightCm / CmPerInch - FiveFeet)
  {
    var inches := heightCm / CmPerInch;
    if inches <= FiveFeet then BaseWeight(sex)
    else BaseWeight(sex) + KgPerInchOverFiveFeet * (inches - FiveFeet)
  }

  /** A taller patient never has a lower ideal weight. */
  lemma IdealWeightMonotone(sex: Sex, h1: real, h2: real)
    requires 0.0 < h1 <= h2
    ensures IdealBodyWeight(sex, h1) <= IdealBodyWeight(sex, h2)
  {
    assert h1 / CmPerInch <= h2 / CmPerInch;
  }

  /** At any height the male ideal weight is 4.5 kg above the female one. */
  lemma IdealWeightSexGap(heightCm: real)
    requires heightCm > 0.0
    ensures IdealBodyWeight(Male, heightCm) - IdealBodyWeight(Female, heightCm) == 4.5
  {
  }

  /** How the actual weight compares with the ideal weight. */
  datatype WeightClass = Above | Below | Near

  /** The percentage difference `(actual - ibw) / ibw * 100`, classified at
      plus and minus ten percent. */
  datatype Comparison = Comparison(percent: real, verdict: WeightClass)

  function CompareWithIdeal(actual: real, ibw: real): (c: Comparison)
    requires ibw > 0.0
    ensures c.percent * ibw == (actual - ibw) * 100.0
    ensures c.verdict == Above <==> c.percent > 10.0
    ensures c.verdict == Below <==> c.percent < -10.0
  {
    var pct := (actual - ibw) / ibw * 100.0;
    Comparison(pct, if pct > 10.0 then Above else if pct < -10.0 then Below else Near)
  }

  /** The classes in weight terms: more than 110% of the ideal weight is
      above, less than 90% is below, and anything in between is near. */
  lemma ComparisonInWeights(actual: real, ibw: real)
    requires ibw > 0.0
    ensures CompareWithIdeal(actual, ibw).verdict == Above <==> actual > 1.1 * ibw
    ensures CompareWithIdeal(actual, ibw).verdict == Below <==> actual < 0.9 * ibw
    ensures CompareWithIdeal(actual, ibw).verdict == Near <==> 0.9 * ibw <= actual <= 1.1 * ibw
  {
    var c := CompareWithIdeal(actual, ibw);
    var p := c.percent;
    assert p * ibw == (actual - ibw) * 100.0;
    assert p > 10.0 <==> p * ibw > 10.0 * ibw by {
      ScaleStrict(p, 10.0, ibw);
    }
    assert p < -10.0 <==> p * ibw < -10.0 * ibw by {
      ScaleStrict(-10.0, p, ibw);
    }
  }

  /** Multiplying by a positive factor keeps a strict order, both ways. */
  lemma ScaleStrict(x: real, y: real, k: real)
    requires k > 0.0
    ensures x > y <==> x * k > y * k
  {
    if x > y {
      assert x * k - y * k == (x - y) * k;
    } else {
      assert y * k - x * k == (y - x) * k;
    }
  }

  /** The adjusted body weight: the ideal weight plus 40% of the excess
      (or minus 40% of the shortfall). */
  function AdjustedBodyWeight(ibw: real, actual: real): (abw: real)
    ensures ibw <= actual ==> ibw <= abw <= actual
    ensures actual <= ibw ==> actual <= abw <= ibw
    ensures abw - ibw == 0.4 * (actual - ibw)
  {
    ibw + 0.4 * (actual - ibw)
  }

  datatype BmiCategory = Underweight | Normal | Overweight | ObeseOne | ObeseTwo

  /** The position of a category on the scale. */
  function Rank(c: BmiCategory): (k: nat)
    ensures k < 5
  {
    match c
    case Underweight => 0
    case Normal => 1
    case Overweight => 2
    case ObeseOne => 3
    case ObeseTwo => 4
  }

  /** The Asian cut-offs the panel uses: below 18.5, up to 22.9, up to
      24.9, up to 29.9, and above. */
  function Categorise(bmi: real): (c: BmiCategory)
    ensures c == Underweight <==> bmi < 18.5
    ensures c == Normal <==> 18.5 <= bmi <= 22.9
    ensures c == Overweight <==> 22.9 < bmi <= 24.9
    ensures c == ObeseOne <==> 24.9 < bmi <= 29.9
    ensures c == ObeseTwo <==> 29.9 < bmi
  {
    if bmi < 18.5 then Underweight
    else if bmi <= 22.9 then Normal
    else if bmi <= 24.9 then Overweight
    else if bmi <= 29.9 then ObeseOne
    else ObeseTwo
  }

  /** A higher index never lands in a lower category. */
  lemma CategoriseMonotone(b1: real, b2: real)
    requires b1 <= b2
    ensures Rank(Categorise(b1)) <= Rank(Categorise(b2))
  {
  }

  /** Weight over the square of the height in metres. */
  function BodyMassIndex(heightCm: real, actual: real): (bmi: real)
    requires heightCm > 0.0 && actual > 0.0
    ensures bmi > 0.0
    ensures bmi * ((heightCm / 100.0) * (heightCm / 100.0)) == actual
  {
    var m := heightCm / 100.0;
    assert m * m > 0.0;
    actual / (m * m)
  }

  /** Every line the panel shows. */
  datatype Panel = Panel(
    ibw: Field<real>,
    comparison: Field<Comparison>,
    abw: Field<real>,
    bmi: Field<(real, BmiCategory)>)

  /** The panel starts computing once a sex with a height, or a weight, is
      entered. */
  predicate AnyInputFilled(sex: Option<Sex>, heightCm: Option<real>, actual: Option<real>)
  {
    (sex.Some? && Positive(heightCm)) || Positive(actual)
  }

  /** `calculateIBWABW`: an unfilled form leaves every line blank;
      otherwise each line shows its value when its own inputs are usable
      and "insufficient data" when they are not. */
  function CalculatePanel(sex: Option<Sex>, heightCm: Option<real>, actual: Option<real>): (p: Panel)
    ensures !AnyInputFilled(sex, heightCm, actual) ==> p == Panel(Blank, Blank, Blank, Blank)
    ensures AnyInputFilled(sex, heightCm, actual) ==>
      && !p.ibw.Blank? && !p.comparison.Blank? && !p.abw.Blank? && !p.bmi.Blank?
      && (p.ibw.Value? <==> sex.Some? && Positive(heightCm))
      && (p.abw.Value? <==> p.ibw.Value? && Positive(actual))
      && (p.comparison.Value? <==> p.abw.Value?)
      && (p.bmi.Value? <==> Positive(heightCm) && Positive(actual))
    ensures p.ibw.Value? ==> p.ibw.value == IdealBodyWeight(sex.value, heightCm.value)
    ensures p.abw.Value? ==>
      && p.ibw.Value? && actual.Some?
      && (p.ibw.value <= actual.value ==> p.ibw.value <= p.abw.value <= actual.value)
      && (actual.value <= p.ibw.value ==> actual.value <= p.abw.value <= p.ibw.value)
    ensures p.comparison.Value? ==>
      && p.ibw.Value? && actual.Some?
      && (p.comparison.value.verdict == Above <==> actual.value > 1.1 * p.ibw.value)
      && (p.comparison.value.verdict == Below <==> actual.value < 0.9 * p.ibw.value)
    ensures p.abw.Value? ==> p.abw.value == AdjustedBodyWeight(p.ibw.value, actual.value)
    ensures p.comparison.Value? ==> p.comparison.value == CompareWithIdeal(actual.value, p.ibw.value)
    ensures p.bmi.Value? ==>
      && heightCm.Some? && actual.Some? && heightCm.value > 0.0 && actual.value > 0.0
      && p.bmi.value.0 == BodyMassIndex(heightCm.value, actual.value)
      && p.bmi.value.1 == Categorise(p.bmi.value.0)
  {
    if !AnyInputFilled(sex, heightCm, actual) then Panel(Blank, Blank, Blank, Blank)
    else
      var ibw: Field<real> :=
        if sex.Some? && Positive(heightCm) then Value(IdealBodyWeight(sex.value, heightCm.value))
        else Insufficient;
      var usable := ibw.Value? && Positive(actual);
      var comparison: Field<Comparison> :=
        if usable then
          ComparisonInWeights(actual.value, ibw.value);
          Value(CompareWithIdeal(actual.value, ibw.value))
        else Insufficient;
      var abw: Field<real> := if usable then Value(AdjustedBodyWeight(ibw.value, actual.value)) else Insufficient;
      var bmi: Field<(real, BmiCategory)> :=
        if Positive(heightCm) && Positive(actual) then
          var b := BodyMassIndex(heightCm.value, actual.value);
          Value((b, Categorise(b)))
        else Insufficient;
      Panel(ibw, comparison, abw, bmi)
  }
}
