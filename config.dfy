/**
 * The default coefficients of the logistics model, as immutable records.
 * A variant of a parameter set is a record update (`p.(airFreightFraction := 1.0)`),
 * never an in-place change of the shared default.
 */
module Config {

  /** The cost coefficients read by the cost model. */
  datatype CostParams = CostParams(
    fuelConsumptionLPer100km: real,
    fuelPriceEurPerL: real,
    driverWageEurPerHour: real,
    avgSpeedKmh: real,
    tollEurPerKm: real,
    fixedCostPerLegEur: real)
  {
    /** Non-negative coefficients and a positive speed: every cost they produce is non-negative. */
    predicate Sound()
    {
      && fuelConsumptionLPer100km >= 0.0
      && fuelPriceEurPerL >= 0.0
      && driverWageEurPerHour >= 0.0
      && avgSpeedKmh > 0.0
      && tollEurPerKm >= 0.0
      && fixedCostPerLegEur >= 0.0
    }
  }

  /** The emission coefficients read by the emissions model. */
  datatype EmissionsParams = EmissionsParams(
    roadFreightGCo2ePerKm: real,
    airFreightGCo2ePerTonneKm: real,
    airFreightFraction: real)
  {
    /** Non-negative emission factors and an air share within [0, 1]. */
    predicate Sound()
    {
      && roadFreightGCo2ePerKm >= 0.0
      && airFreightGCo2ePerTonneKm >= 0.0
      && 0.0 <= airFreightFraction <= 1.0
    }
  }

  const DefaultCostParams: CostParams := CostParams(
    fuelConsumptionLPer100km := 30.0,
    fuelPriceEurPerL := 1.50,
    driverWageEurPerHour := 35.0,
    avgSpeedKmh := 80.0,
    tollEurPerKm := 0.25,
    fixedCostPerLegEur := 500.0)

  /** By default everything travels by road. */
  const DefaultEmissionsParams: EmissionsParams := EmissionsParams(
    roadFreightGCo2ePerKm := 850.0,
    airFreightGCo2ePerTonneKm := 500.0,
    airFreightFraction := 0.0)

  /** The daily driving limit used when a caller gives none. */
  const MaxDriverHoursPerDay: real := 9.0

  lemma DefaultsAreSound()
    ensures DefaultCostParams.Sound() && DefaultEmissionsParams.Sound()
    ensures MaxDriverHoursPerDay > 0.0
  {
  }
}
