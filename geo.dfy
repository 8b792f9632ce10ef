/**
 * Distances between circuits and the legs of a season. The distance of a leg comes
 * from the road-routing service when that is enabled and answers, and otherwise
 * from the analytic (great-circle) distance; either is rounded to two decimals.
 * Both the routing service and the analytic distance are supplied by the caller.
 */
module Geo {
  import opened Wrappers
  import opened Numeric
  import opened DataModels

  /** A position as (latitude, longitude) in degrees. */
  type Coord = (real, real)

  /** The analytic distance in kilometres between two positions, as the geodesy library computes it. */
  type DistanceFn = (Coord, Coord) -> real

  /** One route of a routing answer; `None` when the route carries no `distance` entry. */
  datatype Route = Route(distanceM: Option<real>)

  /**
   * What a driving-route request yields: no usable answer at all (timeout, connection
   * failure, error status, a body that is not JSON), or a decoded payload with its
   * `code` entry (if any) and its list of routes.
   */
  datatype RouteResponse = NoAnswer | Payload(code: Option<string>, routes: seq<Route>)

  /** The routing service, asked for the driving route between two positions. */
  type RoutingService = (Coord, Coord) -> RouteResponse

  function CircuitCoordinates(c: Circuit): Coord
  {
    (c.latitude, c.longitude)
  }

  /**
   * The driving distance in kilometres that a routing answer gives: only an "Ok"
   * payload with at least one route yields one, the first route's distance in metres
   * divided by 1000; every other answer, and every failure, yields none.
   */
  function OsrmDistance(response: RouteResponse): (km: Option<real>)
    ensures km.Some? <==> response.Payload? && response.code == Some("Ok") && |response.routes| > 0
                          && response.routes[0].distanceM.Some?
    ensures km.Some? ==> km.value * 1000.0 == response.routes[0].distanceM.value
  {
    match response
    case NoAnswer => None
    case Payload(code, routes) =>
      if code == Some("Ok") && |routes| > 0 then
        match routes[0].distanceM
        case Some(m) => Some(m / 1000.0)
        case None => None
      else None
  }

  /**
   * The distance between two positions and how it was obtained: the routing service's
   * answer when routing is enabled and the answer is usable, the analytic distance otherwise.
   */
  function ResolveDistance(a: Coord, b: Coord, useOsrm: bool, service: RoutingService, geodesic: DistanceFn): (RoutingMethod, real)
  {
    if useOsrm && OsrmDistance(service(a, b)).Some? then (Osrm, OsrmDistance(service(a, b)).value)
    else (Haversine, geodesic(a, b))
  }

  /** The leg between two circuits, or `None` when the distance found rounds to a negative value. */
  function LegBetween(fromCircuit: Circuit, toCircuit: Circuit, useOsrm: bool, service: RoutingService, geodesic: DistanceFn): Option<Leg>
    requires fromCircuit.Valid() && toCircuit.Valid()
  {
    var (routing, d) := ResolveDistance(CircuitCoordinates(fromCircuit), CircuitCoordinates(toCircuit), useOsrm, service, geodesic);
    NewLeg(fromCircuit, toCircuit, Round2(d), routing)
  }

  /** Resolves the distance between two circuits, preferring the routing service when enabled. */
  method CalculateLegDistance(fromCircuit: Circuit, toCircuit: Circuit, useOsrm: bool, service: RoutingService, geodesic: DistanceFn)
    returns (leg: Option<Leg>)
    requires fromCircuit.Valid() && toCircuit.Valid()
    ensures leg == LegBetween(fromCircuit, toCircuit, useOsrm, service, geodesic)
    ensures leg.Some? ==> leg.value.fromCircuit == fromCircuit && leg.value.toCircuit == toCircuit
  {
    var coord1 := CircuitCoordinates(fromCircuit);
    var coord2 := CircuitCoordinates(toCircuit);
    var distanceKm: Option<real> := None;
    var routing := Haversine;
    if useOsrm {
      var osrmDist := OsrmDistance(service(coord1, coord2));
      if osrmDist.Some? {
        distanceKm := osrmDist;
        routing := Osrm;
      }
    }
    if distanceKm.None? {
      distanceKm := Some(geodesic(coord1, coord2));
      routing := Haversine;
    }
    leg := NewLeg(fromCircuit, toCircuit, Round2(distanceKm.value), routing);
  }

  /**
   * With routing disabled the service is never consulted: the leg's distance is the
   * rounded analytic distance, whatever the service would have answered, and a
   * non-negative analytic distance always makes a leg.
   */
  lemma NoRoutingUsesAnalyticDistance(fromCircuit: Circuit, toCircuit: Circuit, service1: RoutingService, service2: RoutingService, geodesic: DistanceFn)
    requires fromCircuit.Valid() && toCircuit.Valid()
    ensures LegBetween(fromCircuit, toCircuit, false, service1, geodesic) == LegBetween(fromCircuit, toCircuit, false, service2, geodesic)
    ensures LegBetween(fromCircuit, toCircuit, false, service1, geodesic).Some? ==>
            LegBetween(fromCircuit, toCircuit, false, service1, geodesic).value.routing == Haversine &&
            LegBetween(fromCircuit, toCircuit, false, service1, geodesic).value.distanceKm
              == Round2(geodesic(CircuitCoordinates(fromCircuit), CircuitCoordinates(toCircuit)))
    ensures geodesic(CircuitCoordinates(fromCircuit), CircuitCoordinates(toCircuit)) >= 0.0 ==>
            LegBetween(fromCircuit, toCircuit, false, service1, geodesic).Some?
  {
  }

  /**
   * With routing enabled, a usable answer from the service decides the distance and the
   * leg is marked as routed; an unusable answer falls back to the analytic distance
   * exactly as if routing were disabled.
   */
  lemma RoutingAnswerOrFallback(fromCircuit: Circuit, toCircuit: Circuit, service: RoutingService, geodesic: DistanceFn)
    requires fromCircuit.Valid() && toCircuit.Valid()
    ensures var answer := OsrmDistance(service(CircuitCoordinates(fromCircuit), CircuitCoordinates(toCircuit)));
      && (answer.Some? && Round2(answer.value) >= 0.0 ==>
           LegBetween(fromCircuit, toCircuit, true, service, geodesic) == Some(Leg(fromCircuit, toCircuit, Round2(answer.value), Osrm)))
      && (answer.None? ==> LegBetween(fromCircuit, toCircuit, true, service, geodesic) == LegBetween(fromCircuit, toCircuit, false, service, geodesic))
  {
  }

  /** Every race of the calendar was validated. */
  predicate ValidCalendar(races: seq<RaceEvent>)
  {
    forall i :: 0 <= i < |races| ==> races[i].Valid()
  }

  /** The leg from the `i`-th race's circuit to the next race's circuit. */
  function CalendarLeg(races: seq<RaceEvent>, i: int, useOsrm: bool, service: RoutingService, geodesic: DistanceFn): Option<Leg>
    requires ValidCalendar(races) && 0 <= i < |races| - 1
  {
    assert races[i].Valid() && races[i + 1].Valid();
    LegBetween(races[i].circuit, races[i + 1].circuit, useOsrm, service, geodesic)
  }

  /**
   * The legs joining consecutive races, in calendar order; fewer than two races give no
   * legs. A distance that cannot make a leg aborts the whole build.
   */
  method BuildSeasonLegs(races: seq<RaceEvent>, useOsrm: bool, service: RoutingService, geodesic: DistanceFn)
    returns (legs: Option<seq<Leg>>)
    requires ValidCalendar(races)
    ensures legs.Some? <==> forall i :: 0 <= i < |races| - 1 ==> CalendarLeg(races, i, useOsrm, service, geodesic).Some?
    ensures |races| < 2 ==> legs == Some([])
    ensures legs.Some? ==> |legs.value| == if |races| < 2 then 0 else |races| - 1
    ensures legs.Some? ==> forall i :: 0 <= i < |legs.value| ==>
              Some(legs.value[i]) == CalendarLeg(races, i, useOsrm, service, geodesic)
    ensures legs.Some? ==> forall i :: 0 <= i < |legs.value| ==>
              legs.value[i].fromCircuit == races[i].circuit && legs.value[i].toCircuit == races[i + 1].circuit
    ensures legs.Some? ==> forall i :: 0 <= i < |legs.value| - 1 ==> legs.value[i].toCircuit == legs.value[i + 1].fromCircuit
  {
    if |races| < 2 {
      return Some([]);
    }
    var built: seq<Leg> := [];
    for i := 0 to |races| - 1
      invariant |built| == i
      invariant forall j :: 0 <= j < i ==> Some(built[j]) == CalendarLeg(races, j, useOsrm, service, geodesic)
      invariant forall j :: 0 <= j < i ==> built[j].fromCircuit == races[j].circuit && built[j].toCircuit == races[j + 1].circuit
    {
      var leg := CalculateLegDistance(races[i].circuit, races[i + 1].circuit, useOsrm, service, geodesic);
      if leg.None? {
        assert CalendarLeg(races, i, useOsrm, service, geodesic).None?;
        return None;
      }
      built := built + [leg.value];
    }
    legs := Some(built);
  }

  function Latitudes(circuits: seq<Circuit>): (lats: seq<real>)
    ensures |lats| == |circuits|
    ensures forall i :: 0 <= i < |circuits| ==> lats[i] == circuits[i].latitude
  {
    seq(|circuits|, i requires 0 <= i < |circuits| => circuits[i].latitude)
  }

  function Longitudes(circuits: seq<Circuit>): (lons: seq<real>)
    ensures |lons| == |circuits|
    ensures forall i :: 0 <= i < |circuits| ==> lons[i] == circuits[i].longitude
  {
    seq(|circuits|, i requires 0 <= i < |circuits| => circuits[i].longitude)
  }

  /**
   * The smallest box ((min latitude, min longitude), (max latitude, max longitude))
   * holding every circuit; ((0, 0), (0, 0)) for no circuits.
   */
  function BoundingBox(circuits: seq<Circuit>): (box: (Coord, Coord))
    ensures circuits == [] ==> box == ((0.0, 0.0), (0.0, 0.0))
    ensures circuits != [] ==> box.0.0 <= box.1.0 && box.0.1 <= box.1.1
    ensures forall i :: 0 <= i < |circuits| ==>
              box.0.0 <= circuits[i].latitude <= box.1.0 && box.0.1 <= circuits[i].longitude <= box.1.1
    ensures circuits != [] ==> box.0.0 in Latitudes(circuits) && box.1.0 in Latitudes(circuits)
    ensures circuits != [] ==> box.0.1 in Longitudes(circuits) && box.1.1 in Longitudes(circuits)
  {
    if circuits == [] then ((0.0, 0.0), (0.0, 0.0))
    else
      var lats, lons := Latitudes(circuits), Longitudes(circuits);
      ((Min(lats), Min(lons)), (Max(lats), Max(lons)))
  }

  /** The mean latitude and mean longitude of the circuits, (0, 0) for none. */
  function CenterPoint(circuits: seq<Circuit>): (center: Coord)
    ensures circuits == [] ==> center == (0.0, 0.0)
    ensures circuits != [] ==> center.0 * |circuits| as real == Sum(Latitudes(circuits))
    ensures circuits != [] ==> center.1 * |circuits| as real == Sum(Longitudes(circuits))
  {
    if circuits == [] then (0.0, 0.0) else (Mean(Latitudes(circuits)), Mean(Longitudes(circuits)))
  }

  /** The centre point lies inside the bounding box. */
  lemma CenterInsideBoundingBox(circuits: seq<Circuit>)
    ensures BoundingBox(circuits).0.0 <= CenterPoint(circuits).0 <= BoundingBox(circuits).1.0
    ensures BoundingBox(circuits).0.1 <= CenterPoint(circuits).1 <= BoundingBox(circuits).1.1
  {
    if circuits != [] {
      var lats, lons := Latitudes(circuits), Longitudes(circuits);
      MeanWithinExtremes(lats);
      MeanWithinExtremes(lons);
      assert BoundingBox(circuits) == ((Min(lats), Min(lons)), (Max(lats), Max(lons)));
    }
  }
}
