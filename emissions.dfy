/**
 * The emissions model: road emissions per truck-kilometre, plus an optional share of
 * the freight flown, each rounded to hundredths of a kilogram; season totals add
 * the already-rounded per-leg components.
 */
module Emissions {
  import opened Wrappers
  import opened Numeric
  import opened Config
  import opened DataModels

  /** Road emissions of `n` trucks over `d` km, in kilograms, before any air share is removed. */
  function RawRoadCo2eKg(d: real, n: int, p: EmissionsParams): real
  {
    p.roadFreightGCo2ePerKm * d * n as real / 1000.0
  }

  /** Road emissions of the freight left on the road when the share `f` is flown. */
  function RemainingRoadCo2eKg(d: real, n: int, p: EmissionsParams): real
  {
    RawRoadCo2eKg(d, n, p) * (1.0 - p.airFreightFraction)
  }

  /** Emissions of flying the air share of `freight` tonnes over `d` km, in kilograms. */
  function RawAirCo2eKg(d: real, freightTonnes: real, p: EmissionsParams): real
  {
    p.airFreightGCo2ePerTonneKm * d * (freightTonnes * p.airFreightFraction) / 1000.0
  }

  /**
   * The emissions of a leg. Air emissions arise only for a positive air share; then the
   * road emissions are scaled down by the share that no longer travels by road.
   */
  function LegEmissions(leg: Leg, numTrucks: int, freightTonnes: real, params: EmissionsParams): (e: EmissionsBreakdown)
    ensures IsCents(e.roadCo2eKg) && IsCents(e.airCo2eKg)
    ensures params.Sound() && leg.distanceKm >= 0.0 && numTrucks >= 0 && freightTonnes >= 0.0 ==> e.Valid()
  {
    var d, f := leg.distanceKm, params.airFreightFraction;
    var road := RawRoadCo2eKg(d, numTrucks, params);
    var e := if f > 0.0
      then EmissionsBreakdown(Round2(RemainingRoadCo2eKg(d, numTrucks, params)), Round2(RawAirCo2eKg(d, freightTonnes, params)))
      else EmissionsBreakdown(Round2(road), Round2(0.0));
    assert params.Sound() && d >= 0.0 && numTrucks >= 0 && freightTonnes >= 0.0 ==> e.Valid() by {
      if params.Sound() && d >= 0.0 && numTrucks >= 0 && freightTonnes >= 0.0 {
        RawEmissionsNonNegative(d, numTrucks, freightTonnes, params);
      }
    }
    e
  }

  /**
   * `calculate_leg_emissions`: the breakdown of LegEmissions, or `None` where building
   * it is rejected because a rounded part is negative (negative trucks or freight, or
   * an air share above one).
   */
  function CalculateLegEmissions(leg: Leg, numTrucks: int, freightTonnes: real, params: EmissionsParams): (r: Option<EmissionsBreakdown>)
    ensures r.Some? <==> LegEmissions(leg, numTrucks, freightTonnes, params).Valid()
    ensures r.Some? ==> r.value == LegEmissions(leg, numTrucks, freightTonnes, params)
    ensures params.Sound() && leg.distanceKm >= 0.0 && numTrucks >= 0 && freightTonnes >= 0.0 ==> r.Some?
  {
    var e := LegEmissions(leg, numTrucks, freightTonnes, params);
    NewEmissionsBreakdown(e.roadCo2eKg, e.airCo2eKg)
  }

  /** Flying twice the freight (an air share of 2) leaves a negative road figure, which is rejected. */
  lemma AirShareAboveOneRejected()
    ensures CalculateLegEmissions(Leg(DummyCircuit, DummyCircuit, 100.0, Haversine), 1, 0.0, WithAirShare(2.0)).None?
  {
    var road := RemainingRoadCo2eKg(100.0, 1, WithAirShare(2.0));
    assert road == -85.0;
    assert Round2(road) < 0.0;
  }

  lemma RawEmissionsNonNegative(d: real, n: int, freightTonnes: real, p: EmissionsParams)
    requires p.Sound() && d >= 0.0 && n >= 0 && freightTonnes >= 0.0
    ensures RawRoadCo2eKg(d, n, p) >= 0.0
    ensures RemainingRoadCo2eKg(d, n, p) >= 0.0
    ensures RawAirCo2eKg(d, freightTonnes, p) >= 0.0
  {
    assert p.roadFreightGCo2ePerKm * d >= 0.0;
    assert p.roadFreightGCo2ePerKm * d * n as real >= 0.0;
    assert freightTonnes * p.airFreightFraction >= 0.0;
    assert p.airFreightGCo2ePerTonneKm * d >= 0.0;
    assert p.airFreightGCo2ePerTonneKm * d * (freightTonnes * p.airFreightFraction) >= 0.0;
  }

  /**
   * Without an air share (the default) nothing is flown: the air component is zero,
   * the road component is the unscaled road emissions, and the total is the road figure.
   */
  lemma NoAirShareMeansAllRoad(leg: Leg, numTrucks: int, freightTonnes: real, params: EmissionsParams)
    requires params.airFreightFraction <= 0.0
    ensures LegEmissions(leg, numTrucks, freightTonnes, params).airCo2eKg == 0.0
    ensures LegEmissions(leg, numTrucks, freightTonnes, params).roadCo2eKg == Round2(RawRoadCo2eKg(leg.distanceKm, numTrucks, params))
    ensures LegEmissions(leg, numTrucks, freightTonnes, params).TotalCo2eKg() == LegEmissions(leg, numTrucks, freightTonnes, params).roadCo2eKg
  {
    Round2Zero();
  }

  /**
   * With a positive air share `f`, the flown tonnage is `f` of the freight, and the
   * road figure keeps only `1 - f` of the road emissions.
   */
  lemma AirShareSplitsFreight(leg: Leg, numTrucks: int, freightTonnes: real, params: EmissionsParams)
    requires params.airFreightFraction > 0.0
    ensures LegEmissions(leg, numTrucks, freightTonnes, params).airCo2eKg
            == Round2(RawAirCo2eKg(leg.distanceKm, freightTonnes, params))
    ensures LegEmissions(leg, numTrucks, freightTonnes, params).roadCo2eKg
            == Round2(RemainingRoadCo2eKg(leg.distanceKm, numTrucks, params))
  {
  }

  /** Flying all the freight leaves no road emissions at all. */
  lemma AllAirLeavesNoRoad(leg: Leg, numTrucks: int, freightTonnes: real, params: EmissionsParams)
    requires params.airFreightFraction == 1.0
    ensures LegEmissions(leg, numTrucks, freightTonnes, params).roadCo2eKg == 0.0
  {
    AirShareSplitsFreight(leg, numTrucks, freightTonnes, params);
    assert RemainingRoadCo2eKg(leg.distanceKm, numTrucks, params) == 0.0;
    Round2Zero();
  }

  function AddEmissions(a: EmissionsBreakdown, b: EmissionsBreakdown): EmissionsBreakdown
  {
    EmissionsBreakdown(a.roadCo2eKg + b.roadCo2eKg, a.airCo2eKg + b.airCo2eKg)
  }

  /** Adding breakdowns adds their totals and keeps them valid. */
  lemma AddEmissionsTotal(a: EmissionsBreakdown, b: EmissionsBreakdown)
    ensures AddEmissions(a, b).TotalCo2eKg() == a.TotalCo2eKg() + b.TotalCo2eKg()
    ensures a.Valid() && b.Valid() ==> AddEmissions(a, b).Valid()
  {
  }

  lemma AddEmissionsAssociative(x: EmissionsBreakdown, y: EmissionsBreakdown, z: EmissionsBreakdown)
    ensures AddEmissions(AddEmissions(x, y), z) == AddEmissions(x, AddEmissions(y, z))
  {
  }

  /** The component-wise sum of a list of breakdowns, accumulated left to right. */
  function SumEmissions(es: seq<EmissionsBreakdown>): EmissionsBreakdown
  {
    if es == [] then ZeroEmissions else AddEmissions(SumEmissions(es[..|es| - 1]), es[|es| - 1])
  }

  /** Each component rounded to hundredths of a kilogram. */
  function RoundEmissions(e: EmissionsBreakdown): (r: EmissionsBreakdown)
    ensures IsCents(r.roadCo2eKg) && IsCents(r.airCo2eKg)
    ensures e.Valid() ==> r.Valid()
  {
    EmissionsBreakdown(Round2(e.roadCo2eKg), Round2(e.airCo2eKg))
  }

  predicate IsCentsEmissions(e: EmissionsBreakdown)
  {
    IsCents(e.roadCo2eKg) && IsCents(e.airCo2eKg)
  }

  /** Every breakdown of the list passes validation. */
  predicate AllEmissionsValid(es: seq<EmissionsBreakdown>)
  {
    forall i :: 0 <= i < |es| ==> es[i].Valid()
  }

  /** The per-leg breakdowns of a season, in leg order. */
  function LegEmissionsList(legs: seq<LegSource>, numTrucks: int, freightTonnes: real, params: EmissionsParams): (es: seq<EmissionsBreakdown>)
    ensures |es| == |legs|
    ensures forall i :: 0 <= i < |legs| ==> es[i] == LegEmissions(legs[i].LegOf(), numTrucks, freightTonnes, params)
  {
    seq(|legs|, i requires 0 <= i < |legs| => LegEmissions(legs[i].LegOf(), numTrucks, freightTonnes, params))
  }

  /**
   * The season emissions: the per-leg components, already rounded, added component
   * by component and rounded again; `None` as soon as one leg's breakdown is rejected.
   */
  method SeasonEmissions(legs: seq<LegSource>, numTrucks: int, freightTonnes: real, params: EmissionsParams)
    returns (e: Option<EmissionsBreakdown>)
    ensures e.Some? <==> AllEmissionsValid(LegEmissionsList(legs, numTrucks, freightTonnes, params))
    ensures e.Some? ==> e.value == RoundEmissions(SumEmissions(LegEmissionsList(legs, numTrucks, freightTonnes, params)))
  {
    var totalRoad, totalAir := 0.0, 0.0;
    for i := 0 to |legs|
      invariant EmissionsBreakdown(totalRoad, totalAir) == SumEmissions(LegEmissionsList(legs[..i], numTrucks, freightTonnes, params))
      invariant AllEmissionsValid(LegEmissionsList(legs[..i], numTrucks, freightTonnes, params))
    {
      var emissions := CalculateLegEmissions(legs[i].LegOf(), numTrucks, freightTonnes, params);
      if emissions.None? {
        assert !LegEmissionsList(legs, numTrucks, freightTonnes, params)[i].Valid();
        return None;
      }
      LegEmissionsListSnoc(legs, i, numTrucks, freightTonnes, params);
      totalRoad := totalRoad + emissions.value.roadCo2eKg;
      totalAir := totalAir + emissions.value.airCo2eKg;
    }
    assert legs[..|legs|] == legs;
    ValidLegsValidSeason(LegEmissionsList(legs, numTrucks, freightTonnes, params));
    e := NewEmissionsBreakdown(Round2(totalRoad), Round2(totalAir));
  }

  /** The breakdowns of one more leg: those before it, then its own. */
  lemma LegEmissionsListSnoc(legs: seq<LegSource>, i: int, numTrucks: int, freightTonnes: real, params: EmissionsParams)
    requires 0 <= i < |legs|
    ensures LegEmissionsList(legs[..i + 1], numTrucks, freightTonnes, params)
      == LegEmissionsList(legs[..i], numTrucks, freightTonnes, params) + [LegEmissions(legs[i].LegOf(), numTrucks, freightTonnes, params)]
    ensures AllEmissionsValid(LegEmissionsList(legs[..i], numTrucks, freightTonnes, params))
      && LegEmissions(legs[i].LegOf(), numTrucks, freightTonnes, params).Valid()
      ==> AllEmissionsValid(LegEmissionsList(legs[..i + 1], numTrucks, freightTonnes, params))
  {
    assert LegEmissionsList(legs[..i + 1], numTrucks, freightTonnes, params)
      == LegEmissionsList(legs[..i], numTrucks, freightTonnes, params) + [LegEmissions(legs[i].LegOf(), numTrucks, freightTonnes, params)];
  }

  /** Valid, whole-hundredth leg breakdowns add up to a valid season breakdown. */
  lemma ValidLegsValidSeason(es: seq<EmissionsBreakdown>)
    requires forall i :: 0 <= i < |es| ==> IsCentsEmissions(es[i])
    requires AllEmissionsValid(es)
    ensures RoundEmissions(SumEmissions(es)).Valid()
  {
    SumEmissionsOfCents(es);
  }

  /** Summing the legs of any split of a season and adding the two parts gives the season sum. */
  lemma {:induction false} SumEmissionsAppend(a: seq<EmissionsBreakdown>, b: seq<EmissionsBreakdown>)
    ensures SumEmissions(a + b) == AddEmissions(SumEmissions(a), SumEmissions(b))
  {
    if b == [] {
      assert a + b == a;
    } else {
      var ab, init, last := a + b, b[..|b| - 1], b[|b| - 1];
      assert ab[..|ab| - 1] == a + init;
      SumEmissionsAppend(a, init);
      AddEmissionsAssociative(SumEmissions(a), SumEmissions(init), last);
    }
  }

  /** The sum of whole-hundredth, valid breakdowns is whole hundredths and valid. */
  lemma {:induction false} SumEmissionsOfCents(es: seq<EmissionsBreakdown>)
    requires forall i :: 0 <= i < |es| ==> IsCentsEmissions(es[i])
    ensures IsCentsEmissions(SumEmissions(es))
    ensures (forall i :: 0 <= i < |es| ==> es[i].Valid()) ==> SumEmissions(es).Valid()
  {
    if es == [] {
      CentsZero();
    } else {
      var init, last := es[..|es| - 1], es[|es| - 1];
      SumEmissionsOfCents(init);
      var s := SumEmissions(init);
      CentsAdd(s.roadCo2eKg, last.roadCo2eKg);
      CentsAdd(s.airCo2eKg, last.airCo2eKg);
      AddEmissionsTotal(s, last);
    }
  }

  /** The totals of a list of breakdowns. */
  function EmissionTotals(es: seq<EmissionsBreakdown>): (ts: seq<real>)
    ensures |ts| == |es|
    ensures forall i :: 0 <= i < |es| ==> ts[i] == es[i].TotalCo2eKg()
  {
    seq(|es|, i requires 0 <= i < |es| => es[i].TotalCo2eKg())
  }

  lemma {:induction false} SumEmissionsTotal(es: seq<EmissionsBreakdown>)
    ensures SumEmissions(es).TotalCo2eKg() == Sum(EmissionTotals(es))
  {
    if es != [] {
      SumEmissionsTotal(es[..|es| - 1]);
      AddEmissionsTotal(SumEmissions(es[..|es| - 1]), es[|es| - 1]);
      assert EmissionTotals(es)[..|es| - 1] == EmissionTotals(es[..|es| - 1]);
    }
  }

  lemma RoundEmissionsOfCents(e: EmissionsBreakdown)
    requires IsCentsEmissions(e)
    ensures RoundEmissions(e) == e
  {
    Round2OfCents(e.roadCo2eKg);
    Round2OfCents(e.airCo2eKg);
  }

  /**
   * The season rounding changes nothing: each season component is exactly the sum of
   * the per-leg figures, the season total is the sum of the per-leg totals, and an
   * empty season emits nothing.
   */
  lemma SeasonEmissionsIsSumOfLegs(legs: seq<LegSource>, numTrucks: int, freightTonnes: real, params: EmissionsParams)
    ensures RoundEmissions(SumEmissions(LegEmissionsList(legs, numTrucks, freightTonnes, params)))
            == SumEmissions(LegEmissionsList(legs, numTrucks, freightTonnes, params))
    ensures SumEmissions(LegEmissionsList(legs, numTrucks, freightTonnes, params)).TotalCo2eKg()
            == Sum(EmissionTotals(LegEmissionsList(legs, numTrucks, freightTonnes, params)))
    ensures legs == [] ==> SumEmissions(LegEmissionsList(legs, numTrucks, freightTonnes, params)) == ZeroEmissions
  {
    var es := LegEmissionsList(legs, numTrucks, freightTonnes, params);
    assert forall i :: 0 <= i < |es| ==> IsCentsEmissions(es[i]);
    SumEmissionsOfCents(es);
    RoundEmissionsOfCents(SumEmissions(es));
    SumEmissionsTotal(es);
  }

  /** With sound coefficients and valid legs the season breakdown is valid. */
  lemma SeasonEmissionsValid(legs: seq<LegSource>, numTrucks: int, freightTonnes: real, params: EmissionsParams)
    requires params.Sound() && numTrucks >= 0 && freightTonnes >= 0.0
    requires forall i :: 0 <= i < |legs| ==> legs[i].LegOf().Valid()
    ensures RoundEmissions(SumEmissions(LegEmissionsList(legs, numTrucks, freightTonnes, params))).Valid()
  {
    var es := LegEmissionsList(legs, numTrucks, freightTonnes, params);
    assert forall i :: 0 <= i < |es| ==> IsCentsEmissions(es[i]) && es[i].Valid();
    SumEmissionsOfCents(es);
  }

  /** Kilograms of CO2e per kilometre; a zero distance reports 0 instead of dividing by zero. */
  function EmissionsPerKm(emissions: EmissionsBreakdown, distanceKm: real): (r: real)
    ensures distanceKm == 0.0 ==> r == 0.0
    ensures distanceKm != 0.0 ==> r * distanceKm == emissions.TotalCo2eKg()
  {
    if distanceKm == 0.0 then 0.0 else emissions.TotalCo2eKg() / distanceKm
  }

  /** The placeholder circuit at (0, 0) that anchors a leg of a given length. */
  const DummyCircuit: Circuit := Circuit("Start", "Start", "Europe", 0.0, 0.0)

  /** The default emission coefficients with a different air share. */
  function WithAirShare(fraction: real): (p: EmissionsParams)
    ensures p.airFreightFraction == fraction
    ensures p.roadFreightGCo2ePerKm == DefaultEmissionsParams.roadFreightGCo2ePerKm
    ensures p.airFreightGCo2ePerTonneKm == DefaultEmissionsParams.airFreightGCo2ePerTonneKm
  {
    DefaultEmissionsParams.(airFreightFraction := fraction)
  }

  /** The emissions of the freight over the placeholder leg of `distanceKm` with air share `share`. */
  function ModeEmissions(distanceKm: real, freightTonnes: real, numTrucks: int, share: real): EmissionsBreakdown
  {
    LegEmissions(Leg(DummyCircuit, DummyCircuit, distanceKm, Haversine), numTrucks, freightTonnes, WithAirShare(share))
  }

  /**
   * The emissions of moving the freight `distanceKm` all by road, all by air and half
   * by each, on copies of the default coefficients. A negative distance cannot make
   * the placeholder leg, and a rejected breakdown stops the comparison: nothing is
   * returned in either case.
   */
  method CompareTransportModes(distanceKm: real, freightTonnes: real, numTrucks: int)
    returns (scenarios: Option<map<string, EmissionsBreakdown>>)
    ensures scenarios.Some? <==>
      && distanceKm >= 0.0
      && ModeEmissions(distanceKm, freightTonnes, numTrucks, 0.0).Valid()
      && ModeEmissions(distanceKm, freightTonnes, numTrucks, 1.0).Valid()
      && ModeEmissions(distanceKm, freightTonnes, numTrucks, 0.5).Valid()
    ensures distanceKm >= 0.0 && freightTonnes >= 0.0 && numTrucks >= 0 ==> scenarios.Some?
    ensures scenarios.Some? ==> scenarios.value.Keys == {"all_road", "all_air", "mixed_50"}
    ensures scenarios.Some? ==> scenarios.value["all_road"] == ModeEmissions(distanceKm, freightTonnes, numTrucks, 0.0)
    ensures scenarios.Some? ==> scenarios.value["all_air"] == ModeEmissions(distanceKm, freightTonnes, numTrucks, 1.0)
    ensures scenarios.Some? ==> scenarios.value["mixed_50"] == ModeEmissions(distanceKm, freightTonnes, numTrucks, 0.5)
    ensures scenarios.Some? ==> scenarios.value["all_road"].airCo2eKg == 0.0
    ensures scenarios.Some? ==> scenarios.value["all_air"].roadCo2eKg == 0.0
  {
    var dummyLeg := NewLeg(DummyCircuit, DummyCircuit, distanceKm, Haversine);
    if dummyLeg.None? {
      return None;
    }
    var leg := dummyLeg.value;
    var result: map<string, EmissionsBreakdown> := map[];

    var allRoadParams := WithAirShare(0.0);
    var allRoad := CalculateLegEmissions(leg, numTrucks, freightTonnes, allRoadParams);
    if allRoad.None? {
      return None;
    }
    result := result["all_road" := allRoad.value];
    NoAirShareMeansAllRoad(leg, numTrucks, freightTonnes, allRoadParams);

    var allAirParams := WithAirShare(1.0);
    var allAir := CalculateLegEmissions(leg, numTrucks, freightTonnes, allAirParams);
    if allAir.None? {
      return None;
    }
    result := result["all_air" := allAir.value];
    AllAirLeavesNoRoad(leg, numTrucks, freightTonnes, allAirParams);

    var mixedParams := WithAirShare(0.5);
    var mixed := CalculateLegEmissions(leg, numTrucks, freightTonnes, mixedParams);
    if mixed.None? {
      return None;
    }
    result := result["mixed_50" := mixed.value];

    scenarios := Some(result);
  }

  /** The price of offsetting `emissionsKg` kilograms at a price per tonne. */
  function CarbonOffsetCost(emissionsKg: real, offsetPriceEurPerTonne: real): (cost: real)
    ensures cost * 1000.0 == emissionsKg * offsetPriceEurPerTonne
    ensures emissionsKg >= 0.0 && offsetPriceEurPerTonne >= 0.0 ==> cost >= 0.0
  {
    (emissionsKg / 1000.0) * offsetPriceEurPerTonne
  }
}
