/**
 * The cost model: a linear formula per leg, rounded to cents per component, and
 * season totals that add the already-rounded per-leg components.
 */
module Cost {
  import opened Wrappers
  import opened Numeric
  import opened Config
  import opened DataModels

  /** Every truck carries two drivers working in shifts. */
  const DriversPerTruck: real := 2.0

  /** Fuel for `n` trucks over `d` km, before rounding. */
  function RawFuelCost(d: real, n: int, p: CostParams): real
  {
    (d / 100.0) * p.fuelConsumptionLPer100km * n as real * p.fuelPriceEurPerL
  }

  /** Driver wages for `n` trucks over `d` km at the average speed, before rounding. */
  function RawLaborCost(d: real, n: int, p: CostParams): real
    requires p.avgSpeedKmh != 0.0
  {
    (d / p.avgSpeedKmh) * n as real * DriversPerTruck * p.driverWageEurPerHour
  }

  /** Road tolls for `n` trucks over `d` km, before rounding. */
  function RawTollCost(d: real, n: int, p: CostParams): real
  {
    d * p.tollEurPerKm * n as real
  }

  /**
   * The cost of moving `numTrucks` trucks along `leg`. Each component is the linear
   * formula rounded to cents; the permit and admin cost is charged once per leg.
   */
  function LegCost(leg: Leg, numTrucks: int, params: CostParams): (c: CostBreakdown)
    requires params.avgSpeedKmh != 0.0
    ensures IsCents(c.fuelCostEur) && IsCents(c.laborCostEur) && IsCents(c.tollCostEur) && IsCents(c.fixedCostEur)
    ensures params.Sound() && leg.distanceKm >= 0.0 && numTrucks >= 0 ==> c.Valid()
  {
    var d := leg.distanceKm;
    var c := CostBreakdown(
      fuelCostEur := Round2(RawFuelCost(d, numTrucks, params)),
      laborCostEur := Round2(RawLaborCost(d, numTrucks, params)),
      tollCostEur := Round2(RawTollCost(d, numTrucks, params)),
      fixedCostEur := Round2(params.fixedCostPerLegEur));
    assert params.Sound() && d >= 0.0 && numTrucks >= 0 ==> c.Valid() by {
      if params.Sound() && d >= 0.0 && numTrucks >= 0 {
        RawCostsNonNegative(d, numTrucks, params);
      }
    }
    c
  }

  /**
   * `calculate_leg_cost`: the breakdown of LegCost, or `None` where building it is
   * rejected because a rounded component is negative (a negative truck count, say).
   */
  function CalculateLegCost(leg: Leg, numTrucks: int, params: CostParams): (r: Option<CostBreakdown>)
    requires params.avgSpeedKmh != 0.0
    ensures r.Some? <==> LegCost(leg, numTrucks, params).Valid()
    ensures r.Some? ==> r.value == LegCost(leg, numTrucks, params)
    ensures params.Sound() && leg.distanceKm >= 0.0 && numTrucks >= 0 ==> r.Some?
  {
    var c := LegCost(leg, numTrucks, params);
    NewCostBreakdown(c.fuelCostEur, c.laborCostEur, c.tollCostEur, c.fixedCostEur)
  }

  /** A 600 km leg at the default prices with a truck count of -1 is rejected: its fuel cost is -270. */
  lemma NegativeTruckCountRejected()
    ensures var start := Circuit("Start", "Start", "Europe", 0.0, 0.0);
      CalculateLegCost(Leg(start, start, 600.0, Haversine), -1, DefaultCostParams).None?
  {
    var start := Circuit("Start", "Start", "Europe", 0.0, 0.0);
    var fuel := RawFuelCost(600.0, -1, DefaultCostParams);
    assert fuel == -270.0;
    assert Round2(fuel) < 0.0;
  }

  /** With sound coefficients, a non-negative distance and truck count, no raw component is negative. */
  lemma RawCostsNonNegative(d: real, n: int, p: CostParams)
    requires p.Sound() && d >= 0.0 && n >= 0
    ensures RawFuelCost(d, n, p) >= 0.0 && RawLaborCost(d, n, p) >= 0.0 && RawTollCost(d, n, p) >= 0.0
  {
    var nr := n as real;
    assert (d / 100.0) * p.fuelConsumptionLPer100km >= 0.0;
    assert (d / 100.0) * p.fuelConsumptionLPer100km * nr >= 0.0;
    assert d / p.avgSpeedKmh >= 0.0;
    assert (d / p.avgSpeedKmh) * nr >= 0.0;
    assert (d / p.avgSpeedKmh) * nr * DriversPerTruck >= 0.0;
    assert d * p.tollEurPerKm >= 0.0;
  }

  /** The permit and admin cost does not depend on the leg's length or the number of trucks. */
  lemma FixedCostIndependentOfLegAndTrucks(leg1: Leg, n1: int, leg2: Leg, n2: int, params: CostParams)
    requires params.avgSpeedKmh != 0.0
    ensures LegCost(leg1, n1, params).fixedCostEur == LegCost(leg2, n2, params).fixedCostEur
  {
  }

  /** A leg of zero length costs only its fixed charge. */
  lemma ZeroDistanceCostsOnlyFixed(leg: Leg, numTrucks: int, params: CostParams)
    requires params.avgSpeedKmh != 0.0
    requires leg.distanceKm == 0.0
    ensures LegCost(leg, numTrucks, params).fuelCostEur == 0.0
    ensures LegCost(leg, numTrucks, params).laborCostEur == 0.0
    ensures LegCost(leg, numTrucks, params).tollCostEur == 0.0
    ensures LegCost(leg, numTrucks, params).TotalCostEur() == Round2(params.fixedCostPerLegEur)
  {
    Round2Zero();
  }

  /** `a * x` grows with `x` when `a` is non-negative. */
  lemma MulMonotone(a: real, x: real, y: real)
    requires a >= 0.0 && x <= y
    ensures a * x <= a * y
  {
    assert a * y - a * x == a * (y - x);
  }

  /** Below the quotient `f / c` of a positive divisor, a multiple of `c` stays below `f`. */
  lemma BelowQuotient(x: real, f: real, c: real)
    requires c > 0.0 && x < f / c
    ensures x * c < f
  {
    var q := f / c;
    assert q * c == f;
    assert f - x * c == (q - x) * c;
  }

  /** Raw fuel cost grows with distance and truck count. */
  lemma RawFuelMonotone(d1: real, n1: int, d2: real, n2: int, p: CostParams)
    requires p.Sound() && 0.0 <= d1 <= d2 && 0 <= n1 <= n2
    ensures RawFuelCost(d1, n1, p) <= RawFuelCost(d2, n2, p)
  {
    var x1, x2 := n1 as real, n2 as real;
    var f1, f2 := (d1 / 100.0) * p.fuelConsumptionLPer100km, (d2 / 100.0) * p.fuelConsumptionLPer100km;
    MulMonotone(p.fuelConsumptionLPer100km, d1 / 100.0, d2 / 100.0);
    MulMonotone(x1, f1, f2);
    MulMonotone(f2, x1, x2);
    MulMonotone(p.fuelPriceEurPerL, f1 * x1, f2 * x2);
  }

  /** Raw labour cost grows with distance and truck count. */
  lemma RawLaborMonotone(d1: real, n1: int, d2: real, n2: int, p: CostParams)
    requires p.Sound() && 0.0 <= d1 <= d2 && 0 <= n1 <= n2
    ensures RawLaborCost(d1, n1, p) <= RawLaborCost(d2, n2, p)
  {
    var x1, x2 := n1 as real, n2 as real;
    var h1, h2 := d1 / p.avgSpeedKmh, d2 / p.avgSpeedKmh;
    MulMonotone(x1, h1, h2);
    MulMonotone(h2, x1, x2);
    var w := DriversPerTruck * p.driverWageEurPerHour;
    MulMonotone(w, h1 * x1, h2 * x2);
    assert RawLaborCost(d1, n1, p) == w * (h1 * x1);
    assert RawLaborCost(d2, n2, p) == w * (h2 * x2);
  }

  /** Raw toll cost grows with distance and truck count. */
  lemma RawTollMonotone(d1: real, n1: int, d2: real, n2: int, p: CostParams)
    requires p.Sound() && 0.0 <= d1 <= d2 && 0 <= n1 <= n2
    ensures RawTollCost(d1, n1, p) <= RawTollCost(d2, n2, p)
  {
    var x1, x2 := n1 as real, n2 as real;
    MulMonotone(p.tollEurPerKm, d1, d2);
    MulMonotone(x1, d1 * p.tollEurPerKm, d2 * p.tollEurPerKm);
    MulMonotone(d2 * p.tollEurPerKm, x1, x2);
  }

  /**
   * A longer leg or a larger convoy never costs less: every component, and so the
   * total, grows with the distance and with the truck count.
   */
  lemma LegCostMonotone(leg1: Leg, n1: int, leg2: Leg, n2: int, params: CostParams)
    requires params.Sound()
    requires 0.0 <= leg1.distanceKm <= leg2.distanceKm
    requires 0 <= n1 <= n2
    ensures LegCost(leg1, n1, params).fuelCostEur <= LegCost(leg2, n2, params).fuelCostEur
    ensures LegCost(leg1, n1, params).laborCostEur <= LegCost(leg2, n2, params).laborCostEur
    ensures LegCost(leg1, n1, params).tollCostEur <= LegCost(leg2, n2, params).tollCostEur
    ensures LegCost(leg1, n1, params).TotalCostEur() <= LegCost(leg2, n2, params).TotalCostEur()
  {
    var d1, d2 := leg1.distanceKm, leg2.distanceKm;
    RawFuelMonotone(d1, n1, d2, n2, params);
    Round2Monotone(RawFuelCost(d1, n1, params), RawFuelCost(d2, n2, params));
    RawLaborMonotone(d1, n1, d2, n2, params);
    Round2Monotone(RawLaborCost(d1, n1, params), RawLaborCost(d2, n2, params));
    RawTollMonotone(d1, n1, d2, n2, params);
    Round2Monotone(RawTollCost(d1, n1, params), RawTollCost(d2, n2, params));
  }

  /** Component-wise addition of two breakdowns. */
  function AddCost(a: CostBreakdown, b: CostBreakdown): CostBreakdown
  {
    CostBreakdown(
      a.fuelCostEur + b.fuelCostEur,
      a.laborCostEur + b.laborCostEur,
      a.tollCostEur + b.tollCostEur,
      a.fixedCostEur + b.fixedCostEur)
  }

  /** Adding breakdowns adds their totals and keeps them valid. */
  lemma AddCostTotal(a: CostBreakdown, b: CostBreakdown)
    ensures AddCost(a, b).TotalCostEur() == a.TotalCostEur() + b.TotalCostEur()
    ensures a.Valid() && b.Valid() ==> AddCost(a, b).Valid()
  {
  }

  lemma AddCostAssociative(x: CostBreakdown, y: CostBreakdown, z: CostBreakdown)
    ensures AddCost(AddCost(x, y), z) == AddCost(x, AddCost(y, z))
  {
  }

  /** The component-wise sum of a list of breakdowns, accumulated left to right. */
  function SumCosts(cs: seq<CostBreakdown>): CostBreakdown
  {
    if cs == [] then ZeroCost else AddCost(SumCosts(cs[..|cs| - 1]), cs[|cs| - 1])
  }

  /** Each component rounded to cents. */
  function RoundCost(c: CostBreakdown): (r: CostBreakdown)
    ensures IsCents(r.fuelCostEur) && IsCents(r.laborCostEur) && IsCents(r.tollCostEur) && IsCents(r.fixedCostEur)
    ensures c.Valid() ==> r.Valid()
  {
    CostBreakdown(Round2(c.fuelCostEur), Round2(c.laborCostEur), Round2(c.tollCostEur), Round2(c.fixedCostEur))
  }

  predicate IsCentsCost(c: CostBreakdown)
  {
    IsCents(c.fuelCostEur) && IsCents(c.laborCostEur) && IsCents(c.tollCostEur) && IsCents(c.fixedCostEur)
  }

  /** Every breakdown of the list passes validation. */
  predicate AllCostsValid(cs: seq<CostBreakdown>)
  {
    forall i :: 0 <= i < |cs| ==> cs[i].Valid()
  }

  /** The per-leg breakdowns of a season, in leg order. */
  function LegCosts(legs: seq<LegSource>, numTrucks: int, params: CostParams): (cs: seq<CostBreakdown>)
    requires |legs| > 0 ==> params.avgSpeedKmh != 0.0
    ensures |cs| == |legs|
    ensures forall i :: 0 <= i < |legs| ==> cs[i] == LegCost(legs[i].LegOf(), numTrucks, params)
  {
    seq(|legs|, i requires 0 <= i < |legs| => LegCost(legs[i].LegOf(), numTrucks, params))
  }

  /**
   * The season cost: the per-leg components, already rounded, added component by
   * component and rounded again; `None` as soon as one leg's breakdown is rejected.
   */
  method SeasonCost(legs: seq<LegSource>, numTrucks: int, params: CostParams) returns (c: Option<CostBreakdown>)
    requires |legs| > 0 ==> params.avgSpeedKmh != 0.0
    ensures c.Some? <==> AllCostsValid(LegCosts(legs, numTrucks, params))
    ensures c.Some? ==> c.value == RoundCost(SumCosts(LegCosts(legs, numTrucks, params)))
  {
    var totalFuel, totalLabor, totalToll, totalFixed := 0.0, 0.0, 0.0, 0.0;
    for i := 0 to |legs|
      invariant CostBreakdown(totalFuel, totalLabor, totalToll, totalFixed) == SumCosts(LegCosts(legs[..i], numTrucks, params))
      invariant AllCostsValid(LegCosts(legs[..i], numTrucks, params))
    {
      var cost := CalculateLegCost(legs[i].LegOf(), numTrucks, params);
      if cost.None? {
        assert !LegCosts(legs, numTrucks, params)[i].Valid();
        return None;
      }
      LegCostsSnoc(legs, i, numTrucks, params);
      totalFuel := totalFuel + cost.value.fuelCostEur;
      totalLabor := totalLabor + cost.value.laborCostEur;
      totalToll := totalToll + cost.value.tollCostEur;
      totalFixed := totalFixed + cost.value.fixedCostEur;
    }
    assert legs[..|legs|] == legs;
    ValidLegsValidSeason(LegCosts(legs, numTrucks, params));
    c := NewCostBreakdown(Round2(totalFuel), Round2(totalLabor), Round2(totalToll), Round2(totalFixed));
  }

  /** The breakdowns of one more leg: those before it, then its own. */
  lemma LegCostsSnoc(legs: seq<LegSource>, i: int, numTrucks: int, params: CostParams)
    requires 0 <= i < |legs| && params.avgSpeedKmh != 0.0
    ensures LegCosts(legs[..i + 1], numTrucks, params) == LegCosts(legs[..i], numTrucks, params) + [LegCost(legs[i].LegOf(), numTrucks, params)]
    ensures AllCostsValid(LegCosts(legs[..i], numTrucks, params)) && LegCost(legs[i].LegOf(), numTrucks, params).Valid()
      ==> AllCostsValid(LegCosts(legs[..i + 1], numTrucks, params))
  {
    assert LegCosts(legs[..i + 1], numTrucks, params) == LegCosts(legs[..i], numTrucks, params) + [LegCost(legs[i].LegOf(), numTrucks, params)];
  }

  /** Valid, whole-cent leg breakdowns add up to a valid season breakdown. */
  lemma ValidLegsValidSeason(cs: seq<CostBreakdown>)
    requires forall i :: 0 <= i < |cs| ==> IsCentsCost(cs[i])
    requires AllCostsValid(cs)
    ensures RoundCost(SumCosts(cs)).Valid()
  {
    SumCostsOfCents(cs);
  }

  /** Summing the legs of any split of a season and adding the two parts gives the season sum. */
  lemma {:induction false} SumCostsAppend(a: seq<CostBreakdown>, b: seq<CostBreakdown>)
    ensures SumCosts(a + b) == AddCost(SumCosts(a), SumCosts(b))
  {
    if b == [] {
      assert a + b == a;
    } else {
      var ab, init, last := a + b, b[..|b| - 1], b[|b| - 1];
      assert ab[..|ab| - 1] == a + init;
      SumCostsAppend(a, init);
      AddCostAssociative(SumCosts(a), SumCosts(init), last);
    }
  }

  /** The sum of whole-cent, valid breakdowns is whole cents and valid. */
  lemma {:induction false} SumCostsOfCents(cs: seq<CostBreakdown>)
    requires forall i :: 0 <= i < |cs| ==> IsCentsCost(cs[i])
    ensures IsCentsCost(SumCosts(cs))
    ensures (forall i :: 0 <= i < |cs| ==> cs[i].Valid()) ==> SumCosts(cs).Valid()
  {
    if cs == [] {
      CentsZero();
    } else {
      var init, last := cs[..|cs| - 1], cs[|cs| - 1];
      SumCostsOfCents(init);
      var s := SumCosts(init);
      CentsAdd(s.fuelCostEur, last.fuelCostEur);
      CentsAdd(s.laborCostEur, last.laborCostEur);
      CentsAdd(s.tollCostEur, last.tollCostEur);
      CentsAdd(s.fixedCostEur, last.fixedCostEur);
      AddCostTotal(s, last);
    }
  }

  /** The totals of a list of breakdowns. */
  function Totals(cs: seq<CostBreakdown>): (ts: seq<real>)
    ensures |ts| == |cs|
    ensures forall i :: 0 <= i < |cs| ==> ts[i] == cs[i].TotalCostEur()
  {
    seq(|cs|, i requires 0 <= i < |cs| => cs[i].TotalCostEur())
  }

  lemma {:induction false} SumCostsTotal(cs: seq<CostBreakdown>)
    ensures SumCosts(cs).TotalCostEur() == Sum(Totals(cs))
  {
    if cs != [] {
      SumCostsTotal(cs[..|cs| - 1]);
      AddCostTotal(SumCosts(cs[..|cs| - 1]), cs[|cs| - 1]);
      assert Totals(cs)[..|cs| - 1] == Totals(cs[..|cs| - 1]);
    }
  }

  /**
   * Because per-leg figures are already whole cents, the season rounding changes
   * nothing: each season component is exactly the sum of the per-leg figures, the
   * season total is the sum of the per-leg totals, and an empty season costs nothing.
   */
  lemma SeasonCostIsSumOfLegs(legs: seq<LegSource>, numTrucks: int, params: CostParams)
    requires |legs| > 0 ==> params.avgSpeedKmh != 0.0
    ensures RoundCost(SumCosts(LegCosts(legs, numTrucks, params))) == SumCosts(LegCosts(legs, numTrucks, params))
    ensures SumCosts(LegCosts(legs, numTrucks, params)).TotalCostEur() == Sum(Totals(LegCosts(legs, numTrucks, params)))
    ensures legs == [] ==> SumCosts(LegCosts(legs, numTrucks, params)) == ZeroCost
  {
    var cs := LegCosts(legs, numTrucks, params);
    assert forall i :: 0 <= i < |cs| ==> IsCentsCost(cs[i]);
    SumCostsOfCents(cs);
    RoundCostOfCents(SumCosts(cs));
    SumCostsTotal(cs);
  }

  /** With sound coefficients, valid legs and a non-negative truck count, the season breakdown is valid. */
  lemma SeasonCostValid(legs: seq<LegSource>, numTrucks: int, params: CostParams)
    requires params.Sound() && numTrucks >= 0
    requires forall i :: 0 <= i < |legs| ==> legs[i].LegOf().Valid()
    ensures RoundCost(SumCosts(LegCosts(legs, numTrucks, params))).Valid()
  {
    var cs := LegCosts(legs, numTrucks, params);
    assert forall i :: 0 <= i < |cs| ==> IsCentsCost(cs[i]) && cs[i].Valid();
    SumCostsOfCents(cs);
  }

  lemma RoundCostOfCents(c: CostBreakdown)
    requires IsCentsCost(c)
    ensures RoundCost(c) == c
  {
    Round2OfCents(c.fuelCostEur);
    Round2OfCents(c.laborCostEur);
    Round2OfCents(c.tollCostEur);
    Round2OfCents(c.fixedCostEur);
  }

  /** Hours on the road: distance over average speed. */
  function EstimateTravelHours(distanceKm: real, avgSpeedKmh: real): (h: real)
    requires avgSpeedKmh != 0.0
    ensures h * avgSpeedKmh == distanceKm
    ensures distanceKm >= 0.0 && avgSpeedKmh > 0.0 ==> h >= 0.0
  {
    distanceKm / avgSpeedKmh
  }

  /** 800 km at 80 km/h take exactly ten hours. */
  lemma EightHundredKmAtEightyTakeTenHours()
    ensures EstimateTravelHours(800.0, 80.0) == 10.0
  {
  }

  /** Euros per kilometre; a zero distance reports 0 instead of dividing by zero. */
  function CostPerKm(cost: CostBreakdown, distanceKm: real): (r: real)
    ensures distanceKm == 0.0 ==> r == 0.0
    ensures distanceKm != 0.0 ==> r * distanceKm == cost.TotalCostEur()
  {
    if distanceKm == 0.0 then 0.0 else cost.TotalCostEur() / distanceKm
  }

  /**
   * The fewest trucks that carry the freight, at least one. The distance does not
   * enter the answer.
   */
  function OptimizeTruckCount(distanceKm: real, freightTonnes: real, truckCapacityTonnes: real): (n: int)
    requires truckCapacityTonnes != 0.0
    ensures n >= 1
    ensures truckCapacityTonnes > 0.0 ==> n as real * truckCapacityTonnes >= freightTonnes
    ensures truckCapacityTonnes > 0.0 && n > 1 ==> (n - 1) as real * truckCapacityTonnes < freightTonnes
  {
    var needed := Ceil(freightTonnes / truckCapacityTonnes);
    var n := if needed > 1 then needed else 1;
    assert truckCapacityTonnes > 0.0 ==> n as real * truckCapacityTonnes >= freightTonnes by {
      if truckCapacityTonnes > 0.0 {
        MulMonotone(truckCapacityTonnes, freightTonnes / truckCapacityTonnes, n as real);
      }
    }
    assert truckCapacityTonnes > 0.0 && n > 1 ==> (n - 1) as real * truckCapacityTonnes < freightTonnes by {
      if truckCapacityTonnes > 0.0 && n > 1 {
        BelowQuotient((n - 1) as real, freightTonnes, truckCapacityTonnes);
      }
    }
    n
  }

  /**
   * The cost of one leg under each truck count of a list, keyed by that count; `None`
   * as soon as the breakdown for one count is rejected.
   */
  method CompareScenarios(leg: Leg, truckCounts: seq<int>, params: CostParams) returns (results: Option<map<int, CostBreakdown>>)
    requires |truckCounts| > 0 ==> params.avgSpeedKmh != 0.0
    ensures results.Some? <==> forall k :: k in truckCounts ==> LegCost(leg, k, params).Valid()
    ensures results.Some? ==> results.value.Keys == set k | k in truckCounts
    ensures results.Some? ==> forall k :: k in results.value ==> results.value[k] == LegCost(leg, k, params)
  {
    var found: map<int, CostBreakdown> := map[];
    for i := 0 to |truckCounts|
      invariant found.Keys == set k | k in truckCounts[..i]
      invariant forall k :: k in found ==> found[k] == LegCost(leg, k, params) && found[k].Valid()
    {
      var count := truckCounts[i];
      assert truckCounts[..i + 1] == truckCounts[..i] + [count];
      var cost := CalculateLegCost(leg, count, params);
      if cost.None? {
        return None;
      }
      found := found[count := cost.value];
    }
    assert truckCounts[..|truckCounts|] == truckCounts;
    results := Some(found);
  }
}
