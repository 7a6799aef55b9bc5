/** The per-item selection weight (`calculate_item_weight` in backend/services/selector.py). */
module Weighting {
  import opened Wrappers
  import opened Models

  /** The three tuning parameters of the weighting section, defaults applied. */
  datatype WeightParams = WeightParams(baseMultiplier: real, daysFactor: real, countDivisor: real)

  /** A missing weighting section, or a missing key in it, falls back to 1.0, 7 and 1. */
  function ResolveWeighting(w: Option<WeightingSettings>): (p: WeightParams)
    ensures w.None? ==> p == WeightParams(1.0, 7.0, 1.0)
    ensures w.Some? && w.value.baseMultiplier.Some? ==> p.baseMultiplier == w.value.baseMultiplier.value
    ensures w.Some? && w.value.daysSincePracticeFactor.Some? ==> p.daysFactor == w.value.daysSincePracticeFactor.value
    ensures w.Some? && w.value.practiceCountDivisor.Some? ==> p.countDivisor == w.value.practiceCountDivisor.value
    ensures w.Some? && w.value.baseMultiplier.None? ==> p.baseMultiplier == 1.0
    ensures w.Some? && w.value.daysSincePracticeFactor.None? ==> p.daysFactor == 7.0
    ensures w.Some? && w.value.practiceCountDivisor.None? ==> p.countDivisor == 1.0
  {
    match w
    case None => WeightParams(1.0, 7.0, 1.0)
    case Some(s) =>
      WeightParams(s.baseMultiplier.GetOr(1.0), s.daysSincePracticeFactor.GetOr(7.0), s.practiceCountDivisor.GetOr(1.0))
  }

  /** An item that was never practiced counts as last practiced this many days ago. */
  const NeverPracticedDays: int := 30

  /** Python raises ZeroDivisionError when a divisor of the formula is zero. */
  datatype WeightError = ZeroDivision

  /** base_weight × base_multiplier × (1 + days / days_factor) ÷ (practice_count + divisor). */
  function Formula(baseWeight: real, p: WeightParams, practiceCount: nat, days: int): real
    requires p.daysFactor != 0.0 && practiceCount as real + p.countDivisor != 0.0
  {
    baseWeight * p.baseMultiplier * (1.0 + days as real / p.daysFactor) / (practiceCount as real + p.countDivisor)
  }

  /** `calculate_item_weight`: fails exactly when one of the two divisions is by zero;
      otherwise the weight times the count term gives back the recency-scaled base weight,
      with a never-practiced item treated as 30 days old. */
  function CalculateItemWeight(baseWeight: real, practiceCount: nat, daysSince: Option<int>, p: WeightParams)
    : (r: Result<real, WeightError>)
    ensures r.Failure? <==> p.daysFactor == 0.0 || practiceCount as real + p.countDivisor == 0.0
    ensures r.Success? ==>
      r.value * (practiceCount as real + p.countDivisor)
      == baseWeight * p.baseMultiplier * (1.0 + daysSince.GetOr(NeverPracticedDays) as real / p.daysFactor)
  {
    var days := daysSince.GetOr(NeverPracticedDays);
    if p.daysFactor == 0.0 || practiceCount as real + p.countDivisor == 0.0 then Failure(ZeroDivision)
    else Success(Formula(baseWeight, p, practiceCount, days))
  }

  /** The hypotheses under which the weight is a usable sampling weight. */
  predicate PositiveParams(baseWeight: real, p: WeightParams) {
    baseWeight > 0.0 && p.baseMultiplier > 0.0 && p.daysFactor > 0.0 && p.countDivisor > 0.0
  }

  lemma DivPositive(a: real, b: real)
    requires a > 0.0 && b > 0.0
    ensures a / b > 0.0
  {
  }

  /** With positive parameters and a non-negative age, the weight exists and is positive. */
  lemma WeightPositive(baseWeight: real, practiceCount: nat, daysSince: Option<int>, p: WeightParams)
    requires PositiveParams(baseWeight, p)
    requires daysSince.Some? ==> daysSince.value >= 0
    ensures CalculateItemWeight(baseWeight, practiceCount, daysSince, p).Success?
    ensures CalculateItemWeight(baseWeight, practiceCount, daysSince, p).value > 0.0
  {
    var days := daysSince.GetOr(NeverPracticedDays);
    var recency := 1.0 + days as real / p.daysFactor;
    assert days as real / p.daysFactor >= 0.0;
    var num := baseWeight * p.baseMultiplier * recency;
    assert baseWeight * p.baseMultiplier > 0.0;
    assert num > 0.0;
    DivPositive(num, practiceCount as real + p.countDivisor);
  }

  lemma ScaleMonotone(c: real, x: real, y: real)
    requires c >= 0.0 && x <= y
    ensures c * x <= c * y
  {
  }

  /** Recency: holding everything else fixed, a longer time since practice never lowers the weight. */
  lemma WeightNondecreasingInDays(baseWeight: real, practiceCount: nat, d1: int, d2: int, p: WeightParams)
    requires PositiveParams(baseWeight, p)
    requires d1 <= d2
    ensures CalculateItemWeight(baseWeight, practiceCount, Some(d1), p).Success?
    ensures CalculateItemWeight(baseWeight, practiceCount, Some(d2), p).Success?
    ensures CalculateItemWeight(baseWeight, practiceCount, Some(d1), p).value
         <= CalculateItemWeight(baseWeight, practiceCount, Some(d2), p).value
  {
    var den := practiceCount as real + p.countDivisor;
    var c := baseWeight * p.baseMultiplier / den;
    assert baseWeight * p.baseMultiplier > 0.0;
    DivPositive(baseWeight * p.baseMultiplier, den);
    var r1 := 1.0 + d1 as real / p.daysFactor;
    var r2 := 1.0 + d2 as real / p.daysFactor;
    assert d1 as real / p.daysFactor <= d2 as real / p.daysFactor;
    ScaleMonotone(c, r1, r2);
    assert Formula(baseWeight, p, practiceCount, d1) == c * r1;
    assert Formula(baseWeight, p, practiceCount, d2) == c * r2;
  }

  lemma DivAntitone(a: real, x: real, y: real)
    requires a >= 0.0 && 0.0 < x <= y
    ensures a / y <= a / x
  {
    assert a / y == (a / x) * (x / y);
    assert x / y <= 1.0;
    ScaleMonotone(a / x, x / y, 1.0);
  }

  /** Frequency: holding everything else fixed, more practice never raises the weight. */
  lemma WeightNonincreasingInCount(baseWeight: real, c1: nat, c2: nat, daysSince: Option<int>, p: WeightParams)
    requires PositiveParams(baseWeight, p)
    requires daysSince.Some? ==> daysSince.value >= 0
    requires c1 <= c2
    ensures CalculateItemWeight(baseWeight, c1, daysSince, p).Success?
    ensures CalculateItemWeight(baseWeight, c2, daysSince, p).Success?
    ensures CalculateItemWeight(baseWeight, c2, daysSince, p).value
         <= CalculateItemWeight(baseWeight, c1, daysSince, p).value
  {
    var days := daysSince.GetOr(NeverPracticedDays);
    assert days as real / p.daysFactor >= 0.0;
    var num := baseWeight * p.baseMultiplier * (1.0 + days as real / p.daysFactor);
    assert baseWeight * p.baseMultiplier > 0.0;
    assert num > 0.0;
    DivAntitone(num, c1 as real + p.countDivisor, c2 as real + p.countDivisor);
  }

  /** A never-practiced item weighs exactly what a 30-day-old one does. */
  lemma NeverPracticedAsThirtyDays(baseWeight: real, practiceCount: nat, p: WeightParams)
    ensures CalculateItemWeight(baseWeight, practiceCount, None, p)
         == CalculateItemWeight(baseWeight, practiceCount, Some(30), p)
  {
  }

  /** With the default parameters a fresh item of static weight 1 weighs 1 + 30/7 = 37/7. */
  lemma DefaultFreshItemWeight()
    ensures CalculateItemWeight(1.0, 0, None, ResolveWeighting(None)) == Success(37.0 / 7.0)
  {
  }
}
