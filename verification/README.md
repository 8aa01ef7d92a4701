# Fare forecast of the price service, in Dafny

This project models the fare calculator of the ride-hailing platform's
price service (`ForecastPriceService.getPrice`). It also models the
rule-selection step of `forecastPrice` around it.

The calculator turns a route length in metres, a travel time in seconds
and a pricing rule into a fare. It uses decimal arithmetic with half-up
rounding at fixed points:

1. Metres become kilometres, rounded half-up to two decimals.
2. The start mileage is subtracted. A result that is not positive becomes exactly 0.
3. The excess is multiplied by the price per kilometre. This mileage fare is rounded half-up to two decimals.
4. Seconds become minutes, rounded half-up to two decimals.
5. The minutes are multiplied by the price per minute. This time fare is not rounded.
6. Start fare, mileage fare and time fare are added. The total is rounded half-up to two decimals.

The forecast fails with `PRICE_NOT_EXISTS` when the rule store returns no
rule. Otherwise it prices the trip with the first rule in the list.

Representation: every decimal is an integer counting hundredths. Money is
in hundredths of a yuan; kilometres and minutes are in hundredths. A
product of two such values counts ten-thousandths. `BigDecimal`'s
`ROUND_HALF_UP` rounds a tie away from zero. `FixedPoint.RoundHalfUp`
models that for every sign, so `GetPrice` is total over all integers,
just as the Java method has no checks. Non-negativity appears only as a
precondition of the lemmas that need it.

Files:
- `fixed_point.dfy` (module `FixedPoint`): half-up rounding of a quotient,
  its defining inequalities `IsHalfUp`, and uniqueness, monotonicity,
  exactness and error bounds.
- `price_rule.dfy` (module `PriceRules`): the tariff fields of a rule.
- `forecast_price_service.dfy` (module `ForecastPriceService`): the six
  steps, the fare breakdown, `GetPrice` and `ForecastPrice`.
- `fare_properties.dfy` (module `FareProperties`): properties of the fare
  and of the forecast.

The independent reference for the calculator is
`ForecastPriceService.IsBreakdownOf`. It states each step's rounding by
inequalities rather than by a division formula.
`ForecastPriceService.Breakdown` meets it, and
`ForecastPriceService.BreakdownUnique` shows that nothing else does.
`ForecastPriceService.IsFare` calls a price a fare of the trip when some
breakdown meeting the steps ends in it. The contract of `GetPrice` says
that its price is a fare of the trip and that every fare of the trip
equals it.

Two facts about the code shape the model:
- `forecastPrice` takes `priceRules.get(0)` (line 71) and does not pick
  a rule by version. `ForecastPrice` uses the first rule of the list.
- `getPrice` validates nothing and computes a fare for any input,
  negative ones included. `GetPrice` therefore has no error path and no
  precondition.

## Model

| member | source | states |
|---|---|---|
| FixedPoint.RoundHalfUp | service-price/src/main/java/com/sdu/serviceprice/service/ForecastPriceService.java:101 | the result is the quotient rounded to the nearest integer, with a tie away from zero (`IsHalfUp`); a non-negative dividend gives a non-negative result and a non-positive one a non-positive result |
| FixedPoint.RoundHalfUpMonotone | service-price/src/main/java/com/sdu/serviceprice/service/ForecastPriceService.java:101 | half-up rounding by a fixed divisor never reverses the order of two dividends |
| ForecastPriceService.DistanceKm | service-price/src/main/java/com/sdu/serviceprice/service/ForecastPriceService.java:99-101 | the distance in hundredths of a kilometre is metres / 1000 rounded half-up to two decimals |
| ForecastPriceService.BillableKm | service-price/src/main/java/com/sdu/serviceprice/service/ForecastPriceService.java:103-108 | billable distance is the maximum of 0 and distance minus start mileage; it is 0 exactly when the distance does not exceed the start mileage |
| ForecastPriceService.MileFare | service-price/src/main/java/com/sdu/serviceprice/service/ForecastPriceService.java:109-114 | the mileage fare is billable km times price per km, rounded half-up to two decimals |
| ForecastPriceService.DurationMinutes | service-price/src/main/java/com/sdu/serviceprice/service/ForecastPriceService.java:119-121 | the duration in hundredths of a minute is seconds / 60 rounded half-up to two decimals |
| ForecastPriceService.Breakdown | service-price/src/main/java/com/sdu/serviceprice/service/ForecastPriceService.java:88-127 | the intermediate values and total satisfy all six tariff steps, including the unrounded time fare and the single final rounding |
| ForecastPriceService.BreakdownUnique | service-price/src/main/java/com/sdu/serviceprice/service/ForecastPriceService.java:88-127 | the six tariff steps determine every intermediate value and the total: two breakdowns of one trip are equal |
| ForecastPriceService.GetPrice | service-price/src/main/java/com/sdu/serviceprice/service/ForecastPriceService.java:88-130 | the price is a fare the six tariff steps allow for the trip (`IsFare`), and every price they allow equals it |
| ForecastPriceService.ForecastPrice | service-price/src/main/java/com/sdu/serviceprice/service/ForecastPriceService.java:67-78 | the forecast fails, with `PriceNotExists`, exactly when the rule list is empty; otherwise it is the fare under the first rule |
| FareProperties.PriceNonNegative | service-price/src/main/java/com/sdu/serviceprice/service/ForecastPriceService.java:88-130 | with non-negative money fields and duration the fare is non-negative, for any distance and start mileage |
| FareProperties.PriceMonotoneInDistance | service-price/src/main/java/com/sdu/serviceprice/service/ForecastPriceService.java:99-115 | with a non-negative price per km, a longer distance never gives a lower fare |
| FareProperties.PriceMonotoneInDuration | service-price/src/main/java/com/sdu/serviceprice/service/ForecastPriceService.java:119-127 | with a non-negative price per minute, a longer duration never gives a lower fare |
| FareProperties.NoMileFareWithinStartMile | service-price/src/main/java/com/sdu/serviceprice/service/ForecastPriceService.java:99-115 | a trip whose distance rounded to hundredths of a km does not exceed the start mileage has billable distance 0 and mileage fare 0, and costs what a zero-length trip of the same duration costs |
| FareProperties.PriceWithinOneCent | service-price/src/main/java/com/sdu/serviceprice/service/ForecastPriceService.java:114-127 | the two money roundings together keep the fare within 0.01 of start fare + billable km × price per km + time fare |
| FareProperties.PriceOfEmptyTrip | service-price/src/main/java/com/sdu/serviceprice/service/ForecastPriceService.java:88-127 | zero distance and zero duration cost exactly the start fare, for a non-negative start mileage |
| FareProperties.WorkedExample | service-price/src/main/java/com/sdu/serviceprice/service/ForecastPriceService.java:132-139 | 6500 m, 1800 s, rule {10.00, 3 km, 1.80/km, 0.50/min}: 31.30 is a fare the six tariff steps allow for that trip |
| FareProperties.WorkedExampleBreakdown | service-price/src/main/java/com/sdu/serviceprice/service/ForecastPriceService.java:88-139 | on that trip the calculator yields exactly 6.50 km, 3.50 km billed, mileage fare 6.30, 30.00 min, time fare 15.0000 and total 31.30, and `GetPrice` returns 31.30 |
| FareProperties.SmallTripBreakdown | service-price/src/main/java/com/sdu/serviceprice/service/ForecastPriceService.java:99-127 | 70 m, 1 s, rule {0.00, 0 km, 0.07/km, 0.01/min}: 0.07 km billed, mileage product 0.0049 rounded to 0.00, 0.02 min, time fare 0.0002, total 0.00 |
| FareProperties.TwoTierRoundingDiffersFromSingle | service-price/src/main/java/com/sdu/serviceprice/service/ForecastPriceService.java:114-127 | on that trip the fare is 0.00, while rounding once the unrounded sum of the same breakdown (start fare + billable km × price per km + time fare = 0.0051) gives 0.01: rounding the mileage fare before the sum changes the result |
| FareProperties.ForecastUsesFirstRule | service-price/src/main/java/com/sdu/serviceprice/service/ForecastPriceService.java:68-74 | two non-empty rule lists with the same first rule give the same successful forecast, whatever the later rules are |
| FareProperties.ZeroRuleIsNotMissingRule | service-price/src/main/java/com/sdu/serviceprice/service/ForecastPriceService.java:67-78 | a rule with all tariff fields zero forecasts a fare of 0.00 for any route, which differs from the `PriceNotExists` failure of an empty list |

## Left out

- The call to the mapping service (`serviceMapClient.direction`, lines 53-61): its distance and duration are the `Direction` parameter of `ForecastPrice`. A missing or failed map response is not modelled.
- The rule query `priceRuleMapper.selectByMap` with its fixed city and vehicle keys (lines 63-67): the rules it returns are the `priceRules` parameter. The keys are configuration.
- Logging (lines 47-52, 61, 63, 73): no effect on the result.
- Conversions between `double` and `BigDecimal` (lines 93, 106, 109, 112, 124, 129): the rule fields are exact two-decimal values and the fare is exact hundredths. The binary floating-point representation error is not modelled.
- Null `Integer` or `Double` fields of the route or the rule: not modelled.
- Java `Integer` range of distance, duration and start mileage: the model takes unbounded integers, a superset. `BigDecimal` arithmetic does not overflow, so nothing else depends on it.
- The numeric code and message of `CommonStatusEnum.PRICE_NOT_EXISTS`: the enum is not part of this model. The failure is the constructor `PriceNotExists`.
- Fields of the pricing rule that the calculator does not read (city, vehicle type, fare type, version): `PriceRule` holds only the four tariff fields.
- `PriceRuleService` (newest version, is-new check, add and edit): `PriceRuleService` is not part of this model; `PriceRuleController` only delegates to it. The Feign clients and the `DriverUser` data holder contain no logic.
- FareProperties.PriceOfEmptyTrip: requires a non-negative start mileage. With a negative one, even a zero-length trip has a positive billable distance and is charged mileage.
- Determinism: `GetPrice` and `ForecastPrice` are Dafny functions, so equal inputs give equal outputs by construction. No lemma states it.
