/**
 Properties of the fare calculator: sign, monotonicity, the start-mileage
 clamp, the distance from the unrounded fare, the empty trip, the two-tier
 rounding, and the rule-selection step of the forecast.
 */
module FareProperties {
  import opened FixedPoint
  import opened PriceRules
  import opened ForecastPriceService

  /** With non-negative tariff rates and a non-negative duration the fare is
      non-negative, whatever the distance: a negative excess is clamped away. */
  lemma PriceNonNegative(distance: int, duration: int, rule: PriceRule)
    requires duration >= 0 && rule.HasNonNegativeRates()
    ensures GetPrice(distance, duration, rule) >= 0
  {
    var b := Breakdown(distance, duration, rule);
    MulMonotone(0, b.billableKm, rule.unitPricePerMile);
    MulMonotone(0, b.durationMinutes, rule.unitPricePerMinute);
  }

  /** A longer trip never costs less, all else fixed. */
  lemma PriceMonotoneInDistance(distance1: int, distance2: int, duration: int, rule: PriceRule)
    requires distance1 <= distance2 && rule.unitPricePerMile >= 0
    ensures GetPrice(distance1, duration, rule) <= GetPrice(distance2, duration, rule)
  {
    var b1, b2 := Breakdown(distance1, duration, rule), Breakdown(distance2, duration, rule);
    RoundHalfUpMonotone(distance1, distance2, 10);
    assert b1.billableKm <= b2.billableKm;
    MulMonotone(b1.billableKm, b2.billableKm, rule.unitPricePerMile);
    RoundHalfUpMonotone(b1.billableKm * rule.unitPricePerMile, b2.billableKm * rule.unitPricePerMile, 100);
    assert b1.timeFare == b2.timeFare;
    RoundHalfUpMonotone(100 * rule.startFare + 100 * b1.mileFare + b1.timeFare,
                        100 * rule.startFare + 100 * b2.mileFare + b2.timeFare, 100);
  }

  /** A longer ride never costs less, all else fixed. */
  lemma PriceMonotoneInDuration(distance: int, duration1: int, duration2: int, rule: PriceRule)
    requires duration1 <= duration2 && rule.unitPricePerMinute >= 0
    ensures GetPrice(distance, duration1, rule) <= GetPrice(distance, duration2, rule)
  {
    var b1, b2 := Breakdown(distance, duration1, rule), Breakdown(distance, duration2, rule);
    RoundHalfUpMonotone(100 * duration1, 100 * duration2, 60);
    MulMonotone(b1.durationMinutes, b2.durationMinutes, rule.unitPricePerMinute);
    assert b1.mileFare == b2.mileFare;
    RoundHalfUpMonotone(100 * rule.startFare + 100 * b1.mileFare + b1.timeFare,
                        100 * rule.startFare + 100 * b2.mileFare + b2.timeFare, 100);
  }

  /** A trip whose length, rounded to hundredths of a kilometre, does not
      exceed the start mileage has a mileage fare of exactly 0, so it costs
      what a trip of zero length and the same duration costs. */
  lemma NoMileFareWithinStartMile(distance: int, duration: int, rule: PriceRule)
    requires DistanceKm(distance) <= 100 * rule.startMile && rule.startMile >= 0
    ensures Breakdown(distance, duration, rule).billableKm == 0
    ensures Breakdown(distance, duration, rule).mileFare == 0
    ensures GetPrice(distance, duration, rule) == GetPrice(0, duration, rule)
  {
    var b := Breakdown(distance, duration, rule);
    assert b.billableKm == 0;
    assert b.billableKm * rule.unitPricePerMile == 0;
    assert IsHalfUp(0, 100, 0);
    HalfUpUnique(0, 100, b.mileFare, 0);
    var b0 := FareBreakdown(0, 0, 0, b.durationMinutes, b.timeFare, b.price);
    assert IsHalfUp(0, 10, 0);
    assert 0 * rule.unitPricePerMile == 0;
    assert IsHalfUp(100 * duration, 60, b0.durationMinutes);
    assert b0.timeFare == b0.durationMinutes * rule.unitPricePerMinute;
    assert IsHalfUp(100 * rule.startFare + 100 * b0.mileFare + b0.timeFare, 100, b0.price);
    assert IsBreakdownOf(0, duration, rule, b0);
  }

  /** The two roundings of money, each by at most half a hundredth, keep the
      fare within one hundredth of a yuan of the unrounded sum of start fare,
      excess distance times unit price, and minutes times unit price
      (all in ten-thousandths here). */
  lemma PriceWithinOneCent(distance: int, duration: int, rule: PriceRule)
    ensures var b := Breakdown(distance, duration, rule);
            var exact := 100 * rule.startFare + b.billableKm * rule.unitPricePerMile + b.timeFare;
            -100 <= 100 * b.price - exact <= 100
  {
    var b := Breakdown(distance, duration, rule);
    RoundHalfUpError(b.billableKm * rule.unitPricePerMile, 100);
    RoundHalfUpError(100 * rule.startFare + 100 * b.mileFare + b.timeFare, 100);
  }

  /** A trip of no distance and no duration costs exactly the start fare. */
  lemma PriceOfEmptyTrip(rule: PriceRule)
    requires rule.startMile >= 0
    ensures GetPrice(0, 0, rule) == rule.startFare
  {
    var b := FareBreakdown(0, 0, 0, 0, 0, rule.startFare);
    assert IsBreakdownOf(0, 0, rule, b);
  }

  /** 6500 m and 1800 s under {10.00 start fare, 3 km included, 1.80 per km,
      0.50 per minute} cost 31.30: 6.50 km, 3.50 km billed, a mileage fare
      of 6.30, 30.00 minutes, a time fare of 15.0000, and
      10.00 + 6.30 + 15.0000 = 31.30 in all: 31.30 is a fare the six steps
      allow. The trip and rule are parameters fixed by `requires` rather
      than literal arguments because the existential goal with literals
      inside is much costlier for the solver. */
  lemma WorkedExample(distance: int, duration: int, rule: PriceRule)
    requires distance == 6500 && duration == 1800
    requires rule == PriceRule(1000, 3, 180, 50)
    ensures IsFare(distance, duration, rule, 3130)
  {
    var steps := FareBreakdown(650, 350, 630, 3000, 150000, 3130);
    assert IsBreakdownOf(distance, duration, rule, steps);
  }

  /** The same trip step by step: the calculator produces exactly the
      intermediate values above, and `GetPrice` returns 31.30. */
  lemma WorkedExampleBreakdown()
    ensures Breakdown(6500, 1800, PriceRule(1000, 3, 180, 50))
            == FareBreakdown(650, 350, 630, 3000, 150000, 3130)
    ensures GetPrice(6500, 1800, PriceRule(1000, 3, 180, 50)) == 3130
  {
    var rule := PriceRule(1000, 3, 180, 50);
    var expected := FareBreakdown(650, 350, 630, 3000, 150000, 3130);
    assert IsBreakdownOf(6500, 1800, rule, expected);
    BreakdownUnique(6500, 1800, rule, Breakdown(6500, 1800, rule), expected);
  }

  /** The six steps for 70 m and 1 s under {0.00 start fare, 0 km included,
      0.07 per km, 0.01 per minute}: 0.07 km, all of it billed, a mileage
      product of 0.0049 rounded to 0.00, 0.02 minutes (1/60 rounded up),
      a time fare of 0.0002, and 0.00 in all. */
  lemma SmallTripBreakdown()
    ensures Breakdown(70, 1, PriceRule(0, 0, 7, 1)) == FareBreakdown(7, 7, 0, 2, 2, 0)
  {
    var rule := PriceRule(0, 0, 7, 1);
    var expected := FareBreakdown(7, 7, 0, 2, 2, 0);
    assert IsHalfUp(70, 10, 7);
    assert IsHalfUp(49, 100, 0);
    assert IsHalfUp(100, 60, 2);
    assert IsHalfUp(2, 100, 0);
    assert IsBreakdownOf(70, 1, rule, expected);
    BreakdownUnique(70, 1, rule, Breakdown(70, 1, rule), expected);
  }

  /** The mileage fare is rounded before it is added and the time fare is
      not, and that order shows in the total: on the small trip above the
      fare is 0.00, while rounding only once, the unrounded sum
      0.0049 + 0.0002 = 0.0051, would give 0.01. The rule is a parameter
      fixed by `requires`, as in `WorkedExample`, to keep the proof cheap. */
  lemma TwoTierRoundingDiffersFromSingle(rule: PriceRule)
    requires rule == PriceRule(0, 0, 7, 1)
    ensures GetPrice(70, 1, rule) == 0
    ensures var b := Breakdown(70, 1, rule);
            RoundHalfUp(100 * rule.startFare + b.billableKm * rule.unitPricePerMile + b.timeFare, 100) == 1
  {
    var b := Breakdown(70, 1, rule);
    SmallTripBreakdown();
    assert IsBreakdownOf(70, 1, rule, b);
    SingleRoundingOfSmallTrip(rule, b);
  }

  /** Rounding the small trip's unrounded sum once gives 0.01. */
  lemma SingleRoundingOfSmallTrip(rule: PriceRule, b: FareBreakdown)
    requires rule == PriceRule(0, 0, 7, 1) && b == FareBreakdown(7, 7, 0, 2, 2, 0)
    ensures RoundHalfUp(100 * rule.startFare + b.billableKm * rule.unitPricePerMile + b.timeFare, 100) == 1
  {
    var sum := 100 * rule.startFare + b.billableKm * rule.unitPricePerMile + b.timeFare;
    assert sum == 51;
    assert IsHalfUp(sum, 100, 1);
    HalfUpUnique(sum, 100, RoundHalfUp(sum, 100), 1);
  }

  /** The forecast prices with the first rule only: lists that agree on
      their first rule give the same forecast. */
  lemma ForecastUsesFirstRule(direction: Direction, rules1: seq<PriceRule>, rules2: seq<PriceRule>)
    requires |rules1| > 0 && |rules2| > 0 && rules1[0] == rules2[0]
    ensures ForecastPrice(direction, rules1) == ForecastPrice(direction, rules2)
    ensures ForecastPrice(direction, rules1).Success?
  {
  }

  /** A rule whose tariff fields are all zero is a valid rule priced at 0.00,
      distinct from having no rule at all. */
  lemma ZeroRuleIsNotMissingRule(direction: Direction)
    ensures ForecastPrice(direction, [PriceRule(0, 0, 0, 0)]) == Success(0)
    ensures ForecastPrice(direction, []) == Fail(PriceNotExists)
  {
    var b := Breakdown(direction.distance, direction.duration, PriceRule(0, 0, 0, 0));
    assert b.mileFare == 0 by {
      RoundHalfUpExact(0, 100);
    }
    RoundHalfUpExact(0, 100);
  }
}
