/**
 The fare calculator of the price service and the rule-selection step
 around it.

 Units: distances in metres and durations in seconds come in as integers;
 kilometres and minutes are counted in hundredths; money in hundredths of
 a yuan; a unit price times a hundredth-scaled quantity is counted in
 ten-thousandths of a yuan.
 */
module ForecastPriceService {
  import opened FixedPoint
  import opened PriceRules

  /** Every intermediate value of one fare calculation, in calculation order. */
  datatype FareBreakdown = FareBreakdown(
    /** Trip length, hundredths of a kilometre. */
    distanceKm: int,
    /** Trip length beyond the start mileage, hundredths of a kilometre. */
    billableKm: int,
    /** Mileage fare, hundredths of a yuan (rounded). */
    mileFare: int,
    /** Trip duration, hundredths of a minute. */
    durationMinutes: int,
    /** Time fare, ten-thousandths of a yuan (not rounded). */
    timeFare: int,
    /** Total fare, hundredths of a yuan (rounded). */
    price: int
  )

  /** `b` follows the six steps of the tariff for a trip of `distance`
      metres and `duration` seconds, each rounding stated by its defining
      inequalities rather than by a division formula:
      1. the distance in kilometres rounded half-up to two decimals;
      2. the excess over the start mileage, or exactly 0 when there is none;
      3. the excess times the per-kilometre price, rounded half-up to two decimals;
      4. the duration in minutes rounded half-up to two decimals;
      5. the minutes times the per-minute price, not rounded;
      6. start fare plus mileage fare plus time fare, rounded half-up to two decimals. */
  ghost predicate IsBreakdownOf(distance: int, duration: int, rule: PriceRule, b: FareBreakdown) {
    var excess := b.distanceKm - 100 * rule.startMile;
    && IsHalfUp(distance, 10, b.distanceKm)
    && b.billableKm >= 0 && b.billableKm >= excess
    && (b.billableKm == 0 || b.billableKm == excess)
    && IsHalfUp(b.billableKm * rule.unitPricePerMile, 100, b.mileFare)
    && IsHalfUp(100 * duration, 60, b.durationMinutes)
    && b.timeFare == b.durationMinutes * rule.unitPricePerMinute
    && IsHalfUp(100 * rule.startFare + 100 * b.mileFare + b.timeFare, 100, b.price)
  }

  /** Step 1: metres to hundredths of a kilometre (metres / 1000, two decimals). */
  function DistanceKm(distance: int): (km: int)
    ensures IsHalfUp(distance, 10, km)
  {
    RoundHalfUp(distance, 10)
  }

  /** Step 2: the distance beyond the start mileage, clamped at zero. */
  function BillableKm(distanceKm: int, startMile: int): (billable: int)
    ensures billable >= 0 && billable >= distanceKm - 100 * startMile
    ensures billable == 0 || billable == distanceKm - 100 * startMile
    ensures billable == 0 <==> distanceKm <= 100 * startMile
  {
    var excess := distanceKm - 100 * startMile;
    if excess > 0 then excess else 0
  }

  /** Step 3: the mileage fare, rounded to hundredths of a yuan. */
  function MileFare(billableKm: int, unitPricePerMile: int): (fare: int)
    ensures IsHalfUp(billableKm * unitPricePerMile, 100, fare)
  {
    RoundHalfUp(billableKm * unitPricePerMile, 100)
  }

  /** Step 4: seconds to hundredths of a minute (seconds / 60, two decimals). */
  function DurationMinutes(duration: int): (minutes: int)
    ensures IsHalfUp(100 * duration, 60, minutes)
  {
    RoundHalfUp(100 * duration, 60)
  }

  /** All six steps of the fare calculation for one trip and one rule. */
  function Breakdown(distance: int, duration: int, rule: PriceRule): (b: FareBreakdown)
    ensures IsBreakdownOf(distance, duration, rule, b)
  {
    var km := DistanceKm(distance);
    var billable := BillableKm(km, rule.startMile);
    var mileFare := MileFare(billable, rule.unitPricePerMile);
    var minutes := DurationMinutes(duration);
    // Step 5: the time fare stays in ten-thousandths until the final rounding.
    var timeFare := minutes * rule.unitPricePerMinute;
    var price := RoundHalfUp(100 * rule.startFare + 100 * mileFare + timeFare, 100);
    FareBreakdown(km, billable, mileFare, minutes, timeFare, price)
  }

  /** The six steps leave no freedom: two breakdowns of the same trip agree. */
  lemma BreakdownUnique(distance: int, duration: int, rule: PriceRule, b1: FareBreakdown, b2: FareBreakdown)
    requires IsBreakdownOf(distance, duration, rule, b1)
    requires IsBreakdownOf(distance, duration, rule, b2)
    ensures b1 == b2
  {
    HalfUpUnique(distance, 10, b1.distanceKm, b2.distanceKm);
    assert b1.billableKm == b2.billableKm;
    HalfUpUnique(b1.billableKm * rule.unitPricePerMile, 100, b1.mileFare, b2.mileFare);
    HalfUpUnique(100 * duration, 60, b1.durationMinutes, b2.durationMinutes);
    assert b1.timeFare == b2.timeFare;
    HalfUpUnique(100 * rule.startFare + 100 * b1.mileFare + b1.timeFare, 100, b1.price, b2.price);
  }

  /** `price` is a fare the six tariff steps allow for the trip: the total
      of some breakdown that follows them. */
  ghost predicate IsFare(distance: int, duration: int, rule: PriceRule, price: int) {
    exists b :: IsBreakdownOf(distance, duration, rule, b) && b.price == price
  }

  /** The fare, in hundredths of a yuan, of a trip of `distance` metres and
      `duration` seconds under `rule`: the one and only total that the six
      tariff steps allow. */
  function GetPrice(distance: int, duration: int, rule: PriceRule): (price: int)
    ensures IsFare(distance, duration, rule, price)
    ensures forall p :: IsFare(distance, duration, rule, p) ==> p == price
  {
    var b := Breakdown(distance, duration, rule);
    assert forall p :: IsFare(distance, duration, rule, p) ==> p == b.price by {
      forall p | IsFare(distance, duration, rule, p)
        ensures p == b.price
      {
        var b' :| IsBreakdownOf(distance, duration, rule, b') && b'.price == p;
        BreakdownUnique(distance, duration, rule, b', b);
      }
    }
    b.price
  }

  /** What the mapping service reports for a route. */
  datatype Direction = Direction(
    /** Route length in metres. */
    distance: int,
    /** Travel time in seconds. */
    duration: int
  )

  /** The failure status this part of the service can report. */
  datatype CommonStatus = PriceNotExists

  /** The response of a fare forecast: a price, or a failure status. */
  datatype ResponseResult = Success(price: int) | Fail(status: CommonStatus)

  /** A fare forecast for a route, given the rules the store returned for
      the city and vehicle class. With no rule the forecast fails with
      `PriceNotExists` and no price is computed; otherwise it is priced with
      the FIRST rule of the list, whatever the others hold. */
  function ForecastPrice(direction: Direction, priceRules: seq<PriceRule>): (r: ResponseResult)
    ensures r.Fail? <==> |priceRules| == 0
    ensures r.Fail? ==> r.status == PriceNotExists
    ensures r.Success? ==> r.price == GetPrice(direction.distance, direction.duration, priceRules[0])
  {
    if |priceRules| == 0 then
      Fail(PriceNotExists)
    else
      var priceRule := priceRules[0];
      Success(GetPrice(direction.distance, direction.duration, priceRule))
  }
}
