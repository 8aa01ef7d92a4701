/**
 The tariff fields of a pricing rule that the fare calculator reads.
 Money is counted in hundredths of a yuan and prices per unit in
 hundredths of a yuan per unit, so every field is an exact two-decimal
 value; the start mileage is a whole number of kilometres.
 */
module PriceRules {

  datatype PriceRule = PriceRule(
    /** Flat charge included in every trip, in hundredths of a yuan. */
    startFare: int,
    /** Distance included in the start fare, in whole kilometres. */
    startMile: int,
    /** Rate beyond the start mileage, in hundredths of a yuan per kilometre. */
    unitPricePerMile: int,
    /** Rate for elapsed time, in hundredths of a yuan per minute. */
    unitPricePerMinute: int
  ) {
    /** The three money fields are non-negative; the start mileage may be
        anything, since the clamp on billable distance absorbs it. */
    predicate HasNonNegativeRates() {
      startFare >= 0 && unitPricePerMile >= 0 && unitPricePerMinute >= 0
    }
  }
}
