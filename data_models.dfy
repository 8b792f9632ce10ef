/**
 * The value objects of the logistics model. Each source class validates its fields
 * when it is built; here a `Valid()` predicate states those bounds and a `New…`
 * function performs the construction, answering `None` where the source raises a
 * validation error. Derived read-only properties are member functions.
 */
module DataModels {
  import opened Wrappers
  import Numeric

  /** A circuit and its geographic position in degrees. */
  datatype Circuit = Circuit(name: string, city: string, country: string, latitude: real, longitude: real)
  {
    predicate Valid()
    {
      -90.0 <= latitude <= 90.0 && -180.0 <= longitude <= 180.0
    }
  }

  /** Builds a circuit; coordinates off the globe are rejected. */
  function NewCircuit(name: string, city: string, country: string, latitude: real, longitude: real): (r: Option<Circuit>)
    ensures r.Some? <==> -90.0 <= latitude <= 90.0 && -180.0 <= longitude <= 180.0
    ensures r.Some? ==> r.value.Valid() && r.value.latitude == latitude && r.value.longitude == longitude
    ensures r.Some? ==> r.value.name == name && r.value.city == city && r.value.country == country
  {
    var c := Circuit(name, city, country, latitude, longitude);
    if c.Valid() then Some(c) else None
  }

  /** A latitude of 100 degrees does not make a circuit. */
  lemma LatitudeOutOfRangeRejected()
    ensures NewCircuit("Test", "Test", "Test", 100.0, 5.0) == None
    ensures NewCircuit("Test", "Test", "Test", 45.0, 5.0).Some?
  {
  }

  /** A calendar date; its calendar validity is the data loader's concern. */
  datatype Date = Date(year: int, month: int, day: int)

  datatype RaceEvent = RaceEvent(season: int, round: int, raceName: string, circuit: Circuit, raceDate: Date)
  {
    predicate Valid()
    {
      1950 <= season <= 2100 && round >= 1 && circuit.Valid()
    }
  }

  /** Builds a race event of a season between 1950 and 2100 with a positive round number. */
  function NewRaceEvent(season: int, round: int, raceName: string, circuit: Circuit, raceDate: Date): (r: Option<RaceEvent>)
    requires circuit.Valid()
    ensures r.Some? <==> 1950 <= season <= 2100 && round >= 1
    ensures r.Some? ==> r.value.Valid() && r.value.circuit == circuit && r.value.season == season && r.value.round == round
  {
    var e := RaceEvent(season, round, raceName, circuit, raceDate);
    if e.Valid() then Some(e) else None
  }

  /** How a leg's distance was obtained: analytically, or from the road-routing service. */
  datatype RoutingMethod = Haversine | Osrm

  /**
   * The text between the two city names of a leg's name: a space, the UTF-8 bytes of a
   * right arrow (E2 86 92) each read as a Windows-1252 character, and a space. The
   * source file holds the arrow in that doubly-encoded form, so this is the string the
   * program produces.
   */
  const LegNameSeparator: string := " \U{00E2}\U{2020}\U{2019} "

  /** A travel leg between two consecutive circuits. */
  datatype Leg = Leg(fromCircuit: Circuit, toCircuit: Circuit, distanceKm: real, routing: RoutingMethod)
  {
    predicate Valid()
    {
      distanceKm >= 0.0 && fromCircuit.Valid() && toCircuit.Valid()
    }

    /** The from city, LegNameSeparator, then the to city. */
    function LegName(): (r: string)
      ensures |r| == |fromCircuit.city| + |LegNameSeparator| + |toCircuit.city|
      ensures r[..|fromCircuit.city|] == fromCircuit.city
      ensures r[|fromCircuit.city|..|r| - |toCircuit.city|] == LegNameSeparator
      ensures r[|r| - |toCircuit.city|..] == toCircuit.city
    {
      fromCircuit.city + LegNameSeparator + toCircuit.city
    }
  }

  /** Builds a leg; a negative distance is rejected. */
  function NewLeg(fromCircuit: Circuit, toCircuit: Circuit, distanceKm: real, routing: RoutingMethod): (r: Option<Leg>)
    requires fromCircuit.Valid() && toCircuit.Valid()
    ensures r.Some? <==> distanceKm >= 0.0
    ensures r.Some? ==> r.value.Valid() && r.value == Leg(fromCircuit, toCircuit, distanceKm, routing)
  {
    var leg := Leg(fromCircuit, toCircuit, distanceKm, routing);
    if leg.Valid() then Some(leg) else None
  }

  /** The cost of a leg or a season, in euros, by component. */
  datatype CostBreakdown = CostBreakdown(fuelCostEur: real, laborCostEur: real, tollCostEur: real, fixedCostEur: real)
  {
    predicate Valid()
    {
      fuelCostEur >= 0.0 && laborCostEur >= 0.0 && tollCostEur >= 0.0 && fixedCostEur >= 0.0
    }

    /** The total is derived from the four components, never stored. */
    function TotalCostEur(): (r: real)
      ensures Valid() ==> r >= fuelCostEur && r >= laborCostEur && r >= tollCostEur && r >= fixedCostEur
      ensures Valid() ==> r >= 0.0
    {
      fuelCostEur + laborCostEur + tollCostEur + fixedCostEur
    }
  }

  /** The breakdown every field of which takes its default, 0. */
  const ZeroCost: CostBreakdown := CostBreakdown(0.0, 0.0, 0.0, 0.0)

  /** Builds a cost breakdown; a negative component is rejected. */
  function NewCostBreakdown(fuel: real, labor: real, toll: real, fixed: real): (r: Option<CostBreakdown>)
    ensures r.Some? <==> fuel >= 0.0 && labor >= 0.0 && toll >= 0.0 && fixed >= 0.0
    ensures r.Some? ==> r.value.Valid() && r.value.fuelCostEur == fuel && r.value.laborCostEur == labor
    ensures r.Some? ==> r.value.tollCostEur == toll && r.value.fixedCostEur == fixed
  {
    var c := CostBreakdown(fuel, labor, toll, fixed);
    if c.Valid() then Some(c) else None
  }

  /** Reading the derived total back from a freshly built breakdown gives the sum of the parts. */
  lemma CostTotalRoundTrip(fuel: real, labor: real, toll: real, fixed: real)
    requires NewCostBreakdown(fuel, labor, toll, fixed).Some?
    ensures NewCostBreakdown(fuel, labor, toll, fixed).value.TotalCostEur() == fuel + labor + toll + fixed
  {
  }

  /** The carbon-equivalent emissions of a leg or a season, in kilograms, by mode. */
  datatype EmissionsBreakdown = EmissionsBreakdown(roadCo2eKg: real, airCo2eKg: real)
  {
    predicate Valid()
    {
      roadCo2eKg >= 0.0 && airCo2eKg >= 0.0
    }

    function TotalCo2eKg(): (r: real)
      ensures Valid() ==> r >= roadCo2eKg && r >= airCo2eKg && r >= 0.0
      ensures airCo2eKg == 0.0 ==> r == roadCo2eKg
    {
      roadCo2eKg + airCo2eKg
    }

    /** The same total in tonnes: a thousandth of the kilograms. */
    function TotalCo2eTonnes(): (r: real)
      ensures r * 1000.0 == TotalCo2eKg()
    {
      TotalCo2eKg() / 1000.0
    }
  }

  const ZeroEmissions: EmissionsBreakdown := EmissionsBreakdown(0.0, 0.0)

  /** Builds an emissions breakdown; a negative component is rejected. */
  function NewEmissionsBreakdown(road: real, air: real): (r: Option<EmissionsBreakdown>)
    ensures r.Some? <==> road >= 0.0 && air >= 0.0
    ensures r.Some? ==> r.value.Valid() && r.value.roadCo2eKg == road && r.value.airCo2eKg == air
  {
    var e := EmissionsBreakdown(road, air);
    if e.Valid() then Some(e) else None
  }

  lemma EmissionsTotalRoundTrip(road: real, air: real)
    requires NewEmissionsBreakdown(road, air).Some?
    ensures NewEmissionsBreakdown(road, air).value.TotalCo2eKg() == road + air
    ensures NewEmissionsBreakdown(road, air).value.TotalCo2eTonnes() == (road + air) / 1000.0
  {
  }

  /** One leg with its cost, emissions, travel time and the truck count they were computed for. */
  datatype LegAnalysis = LegAnalysis(leg: Leg, cost: CostBreakdown, emissions: EmissionsBreakdown, travelHours: real, numTrucks: int)
  {
    predicate Valid()
    {
      leg.Valid() && cost.Valid() && emissions.Valid() && travelHours >= 0.0 && numTrucks >= 1
    }
  }

  /** Builds a leg analysis; negative travel time or fewer than one truck is rejected. */
  function NewLegAnalysis(leg: Leg, cost: CostBreakdown, emissions: EmissionsBreakdown, travelHours: real, numTrucks: int): (r: Option<LegAnalysis>)
    requires leg.Valid() && cost.Valid() && emissions.Valid()
    ensures r.Some? <==> travelHours >= 0.0 && numTrucks >= 1
    ensures r.Some? ==> r.value.Valid() && r.value.leg == leg && r.value.travelHours == travelHours && r.value.numTrucks == numTrucks
  {
    var a := LegAnalysis(leg, cost, emissions, travelHours, numTrucks);
    if a.Valid() then Some(a) else None
  }

  /**
   * What the season aggregations accept: a bare leg or a leg analysis, whose leg is used.
   * This replaces probing each item for a `leg` attribute at run time.
   */
  datatype LegSource = PlainLeg(plain: Leg) | AnalysedLeg(analysis: LegAnalysis)
  {
    function LegOf(): (r: Leg)
      ensures PlainLeg? ==> r == plain
      ensures AnalysedLeg? ==> r == analysis.leg
    {
      match this
      case PlainLeg(l) => l
      case AnalysedLeg(a) => a.leg
    }
  }

  /** A whole season: its legs and the season totals. */
  datatype SeasonAnalysis = SeasonAnalysis(
    season: int,
    legs: seq<LegAnalysis>,
    totalDistanceKm: real,
    totalCost: CostBreakdown,
    totalEmissions: EmissionsBreakdown,
    totalTravelHours: real)
  {
    predicate Valid()
    {
      (forall i :: 0 <= i < |legs| ==> legs[i].Valid()) && totalCost.Valid() && totalEmissions.Valid()
    }

    function NumLegs(): (n: nat)
      ensures n == |legs|
    {
      |legs|
    }

    /** The mean leg length; a season without legs reports its total rather than dividing by zero. */
    function AvgLegDistanceKm(): (r: real)
      ensures NumLegs() > 0 ==> r * NumLegs() as real == totalDistanceKm
      ensures NumLegs() == 0 ==> r == totalDistanceKm
    {
      totalDistanceKm / (if NumLegs() > 1 then NumLegs() else 1) as real
    }

    /** The distances of the legs, in order. */
    function LegDistances(): (ds: seq<real>)
      ensures |ds| == |legs|
      ensures forall i :: 0 <= i < |legs| ==> ds[i] == legs[i].leg.distanceKm
    {
      seq(|legs|, i requires 0 <= i < |legs| => legs[i].leg.distanceKm)
    }
  }

  /**
   * When the season total is the sum of its legs, the average lies between the
   * shortest and the longest leg.
   */
  lemma AvgLegDistanceBetweenExtremes(s: SeasonAnalysis)
    requires s.NumLegs() > 0
    requires s.totalDistanceKm == Numeric.Sum(s.LegDistances())
    ensures Numeric.Min(s.LegDistances()) <= s.AvgLegDistanceKm() <= Numeric.Max(s.LegDistances())
  {
    var ds := s.LegDistances();
    assert s.AvgLegDistanceKm() == Numeric.Mean(ds);
    Numeric.MeanWithinExtremes(ds);
  }

  /** What the fleet optimiser records beside its costs; empty by default. */
  datatype OptimizationParameters = NoParameters | FleetParameters(totalFleetSize: int, allocation: map<int, int>)

  datatype OptimizationResult = OptimizationResult(
    originalCostEur: real,
    optimizedCostEur: real,
    savingsEur: real,
    savingsPercent: real,
    methodName: string,
    parameters: OptimizationParameters)
  {
    /** An optimisation improved on the baseline exactly when it saved money. */
    predicate IsImproved()
    {
      savingsEur > 0.0
    }
  }
}
