/** The creatinine-clearance panel: the Cockcroft-Gault estimate from
    sex, age, weight and serum creatinine, with creatinine entered in
    mg/dL or in µmol/L. */
module CreatinineClearance {
  import opened Wrappers
  import opened BodyWeight

  /** A number box: left empty, or holding text that parses to a number
      (`Some`) or to `NaN` (`None`). */
  datatype Entry = Empty | Typed(parsed: Option<real>)

  datatype ScrUnit = MgPerDl | UmolPerL

  /** Micromoles per litre of creatinine in one mg/dL. */
  const UmolPerMg: real := 88.4

  /** The creatinine in mg/dL; any unit other than µmol/L is read as mg/dL. */
  function ScrInMgDl(scr: real, unit: ScrUnit): (mg: real)
    ensures unit == MgPerDl ==> mg == scr
    ensures unit == UmolPerL ==> mg * UmolPerMg == scr
  {
    match unit
    case MgPerDl => scr
    case UmolPerL => scr / UmolPerMg
  }

  /** Cockcroft-Gault: `(140 - age) * weight / (72 * SCr)`, times 0.85
      for a woman. */
  function CockcroftGault(sex: Sex, age: real, weight: real, scrMg: real): (crcl: real)
    requires scrMg > 0.0
    ensures sex == Male ==> crcl * (scrMg * 72.0) == (140.0 - age) * weight
    ensures sex == Female ==> crcl * (scrMg * 72.0) == (140.0 - age) * weight * 0.85
  {
    var male := ((140.0 - age) * weight) / (scrMg * 72.0);
    match sex
    case Male => male
    case Female => male * 0.85
  }

  /** The female estimate is 85% of the male one for the same patient data. */
  lemma FemaleIsEightyFivePercent(age: real, weight: real, scrMg: real)
    requires scrMg > 0.0
    ensures CockcroftGault(Female, age, weight, scrMg) == 0.85 * CockcroftGault(Male, age, weight, scrMg)
  {
  }

  /** The estimate is positive exactly for patients younger than 140. */
  lemma PositiveBelowAgeLimit(sex: Sex, age: real, weight: real, scrMg: real)
    requires scrMg > 0.0 && weight > 0.0
    ensures CockcroftGault(sex, age, weight, scrMg) > 0.0 <==> age < 140.0
  {
    var c := CockcroftGault(sex, age, weight, scrMg);
    var k := scrMg * 72.0;
    assert k > 0.0;
    ScaleStrict(c, 0.0, k);
    ScaleStrict(140.0 - age, 0.0, weight);
    if sex == Female {
      ScaleStrict((140.0 - age) * weight, 0.0, 0.85);
    }
  }

  /** An older patient never has a higher estimate (other data fixed). */
  lemma DecreasesWithAge(sex: Sex, a1: real, a2: real, weight: real, scrMg: real)
    requires a1 <= a2 && weight > 0.0 && scrMg > 0.0
    ensures CockcroftGault(sex, a2, weight, scrMg) <= CockcroftGault(sex, a1, weight, scrMg)
  {
    var k := scrMg * 72.0;
    var c1 := CockcroftGault(sex, a1, weight, scrMg);
    var c2 := CockcroftGault(sex, a2, weight, scrMg);
    assert (140.0 - a2) * weight <= (140.0 - a1) * weight by {
      ScaleWeak(140.0 - a2, 140.0 - a1, weight);
    }
    assert c2 * k <= c1 * k;
    ScaleStrict(c2, c1, k);
  }

  /** A higher creatinine never raises the estimate for a patient under 140. */
  lemma DecreasesWithCreatinine(sex: Sex, age: real, weight: real, s1: real, s2: real)
    requires 0.0 < s1 <= s2 && weight > 0.0 && age < 140.0
    ensures CockcroftGault(sex, age, weight, s2) <= CockcroftGault(sex, age, weight, s1)
  {
    var c1 := CockcroftGault(sex, age, weight, s1);
    var c2 := CockcroftGault(sex, age, weight, s2);
    PositiveBelowAgeLimit(sex, age, weight, s1);
    assert c2 * (s2 * 72.0) == c1 * (s1 * 72.0);
    assert c1 * (s1 * 72.0) <= c1 * (s2 * 72.0) by {
      ScaleWeak(s1 * 72.0, s2 * 72.0, c1);
    }
    ScaleStrict(c2, c1, s2 * 72.0);
  }

  /** Multiplying by a non-negative factor keeps a weak order. */
  lemma ScaleWeak(x: real, y: real, k: real)
    requires x <= y && k >= 0.0
    ensures x * k <= y * k
  {
    assert y * k - x * k == (y - x) * k;
  }

  /** The same number typed in µmol/L instead of mg/dL gives 88.4 times
      the estimate, since the creatinine is divided by 88.4 first. */
  lemma UnitsAgree(sex: Sex, age: real, weight: real, x: real)
    requires x > 0.0
    ensures CockcroftGault(sex, age, weight, ScrInMgDl(x, UmolPerL))
         == UmolPerMg * CockcroftGault(sex, age, weight, ScrInMgDl(x, MgPerDl))
  {
    var y := ScrInMgDl(x, UmolPerL);
    assert y * UmolPerMg == x;
    var c1 := CockcroftGault(sex, age, weight, y);
    var c2 := CockcroftGault(sex, age, weight, x);
    assert c1 * (y * 72.0) == c2 * (x * 72.0);
    assert c2 * (x * 72.0) == (UmolPerMg * c2) * (y * 72.0);
    CancelPositive(c1, UmolPerMg * c2, y * 72.0);
  }

  /** A positive common factor cancels. */
  lemma CancelPositive(a: real, b: real, k: real)
    requires k > 0.0 && a * k == b * k
    ensures a == b
  {
    ScaleStrict(a, b, k);
    ScaleStrict(b, a, k);
  }

  /** A box holding a positive number. */
  predicate PositiveEntry(e: Entry)
  {
    e.Typed? && Positive(e.parsed)
  }

  /** `calculateCrCl`: blank while every box and the sex are empty; an
      estimate when the sex is chosen and age, weight and creatinine are
      all positive numbers; "insufficient data" otherwise. */
  function CalculateCrCl(sex: Option<Sex>, age: Entry, weight: Entry, scr: Entry, unit: ScrUnit): (o: Field<real>)
    ensures o.Blank? <==> sex.None? && age.Empty? && weight.Empty? && scr.Empty?
    ensures o.Value? <==> sex.Some? && PositiveEntry(age) && PositiveEntry(weight) && PositiveEntry(scr)
    ensures o.Value? ==>
      o.value == CockcroftGault(sex.value, age.parsed.value, weight.parsed.value, ScrInMgDl(scr.parsed.value, unit))
      && (o.value > 0.0 <==> age.parsed.value < 140.0)
  {
    if sex.None? && age.Empty? && weight.Empty? && scr.Empty? then Blank
    else if sex.Some? && PositiveEntry(age) && PositiveEntry(weight) && PositiveEntry(scr) then
      var scrMg := ScrInMgDl(scr.parsed.value, unit);
      PositiveBelowAgeLimit(sex.value, age.parsed.value, weight.parsed.value, scrMg);
      Value(CockcroftGault(sex.value, age.parsed.value, weight.parsed.value, scrMg))
    else Insufficient
  }
}
