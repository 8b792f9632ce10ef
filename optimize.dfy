/**
 * The fleet optimiser: a per-leg sweep over truck counts, a greedy split of a fixed
 * fleet across the season's legs (longest legs first), driver-hour compliance and
 * multi-day route splitting.
 */
module Optimize {
  import opened Wrappers
  import opened Numeric
  import opened Config
  import opened DataModels
  import Cost
  import Ranking

  // ---------------------------------------------------------------------------
  // Per-leg sweep over truck counts

  /** A leg's total cost spread over its trucks. */
  function CostPerTruck(leg: Leg, count: int, params: CostParams): real
    requires params.avgSpeedKmh != 0.0 && count != 0
  {
    Cost.LegCost(leg, count, params).TotalCostEur() / count as real
  }

  /** The sweep over `lo..hi` never divides by zero. */
  predicate SweepDefined(lo: int, hi: int, params: CostParams)
  {
    lo <= hi ==> params.avgSpeedKmh != 0.0 && !(lo <= 0 <= hi)
  }

  /**
   * `count` is the sweep's choice for `leg`: in `lo..hi`, no count in the range has a
   * lower cost per truck, and every smaller count has a strictly higher one (ties go
   * to the smallest count).
   */
  predicate IsBestCount(leg: Leg, lo: int, hi: int, params: CostParams, count: int)
    requires lo <= hi && SweepDefined(lo, hi, params)
  {
    && lo <= count <= hi
    && (forall k :: lo <= k <= hi ==> CostPerTruck(leg, count, params) <= CostPerTruck(leg, k, params))
    && (forall k :: lo <= k < count ==> CostPerTruck(leg, k, params) > CostPerTruck(leg, count, params))
  }

  /** Every count of the sweep `lo..hi` gives `leg` a breakdown that passes validation. */
  predicate SweepValid(leg: Leg, lo: int, hi: int, params: CostParams)
    requires SweepDefined(lo, hi, params)
  {
    forall k :: lo <= k <= hi ==> Cost.LegCost(leg, k, params).Valid()
  }

  /**
   * The least cost per truck over `lo..hi`, first minimiser kept; `None` as soon as the
   * breakdown for one count of the sweep is rejected.
   */
  method BestCount(leg: Leg, lo: int, hi: int, params: CostParams) returns (bestCount: Option<int>)
    requires SweepDefined(lo, hi, params)
    ensures bestCount.Some? <==> SweepValid(leg, lo, hi, params)
    ensures bestCount.Some? && lo <= hi ==> IsBestCount(leg, lo, hi, params, bestCount.value)
    ensures lo > hi ==> bestCount == Some(lo)
  {
    // `None` plays the role of the initial `float("inf")`.
    var bestCost: Option<real> := None;
    var best := lo;
    if lo <= hi {
      for count := lo to hi + 1
        invariant bestCost.None? <==> count == lo
        invariant count == lo ==> best == lo
        invariant count > lo ==> lo <= best < count && bestCost == Some(CostPerTruck(leg, best, params))
        invariant forall k :: lo <= k < count ==> bestCost.value <= CostPerTruck(leg, k, params)
        invariant forall k :: lo <= k < best ==> CostPerTruck(leg, k, params) > CostPerTruck(leg, best, params)
        invariant forall k :: lo <= k < count ==> Cost.LegCost(leg, k, params).Valid()
      {
        var cost := Cost.CalculateLegCost(leg, count, params);
        if cost.None? {
          return None;
        }
        var costPerTruck := cost.value.TotalCostEur() / count as real;
        if bestCost.None? || costPerTruck < bestCost.value {
          bestCost := Some(costPerTruck);
          best := count;
        }
      }
    }
    bestCount := Some(best);
  }

  /** With sound prices, a leg of non-negative length and no negative count, no count of the sweep is rejected. */
  lemma SweepValidForNonNegativeCounts(leg: Leg, lo: int, hi: int, params: CostParams)
    requires params.Sound() && leg.distanceKm >= 0.0 && lo >= 0
    requires SweepDefined(lo, hi, params)
    ensures SweepValid(leg, lo, hi, params)
  {
  }

  /** A sweep reaching a negative count on a 600 km leg at the default prices is rejected. */
  lemma NegativeSweepRejected()
    ensures SweepDefined(-1, -1, DefaultCostParams)
    ensures !SweepValid(Leg(ExampleCircuit, ExampleCircuit, 600.0, Haversine), -1, -1, DefaultCostParams)
  {
    var leg := Leg(ExampleCircuit, ExampleCircuit, 600.0, Haversine);
    assert Cost.RawFuelCost(600.0, -1, DefaultCostParams) == -270.0;
    assert !Cost.LegCost(leg, -1, DefaultCostParams).Valid();
  }

  /**
   * For each leg, the truck count in `minTrucks..maxTrucks` with the least cost per
   * truck; `minTrucks` when the range is empty; `None` as soon as one breakdown of a
   * sweep is rejected.
   */
  method GreedyTruckAllocation(legs: seq<Leg>, minTrucks: int, maxTrucks: int, params: CostParams)
    returns (allocation: Option<map<int, int>>)
    requires |legs| > 0 ==> SweepDefined(minTrucks, maxTrucks, params)
    ensures allocation.Some? <==> forall i :: 0 <= i < |legs| ==> SweepValid(legs[i], minTrucks, maxTrucks, params)
    ensures allocation.Some? ==> forall i :: i in allocation.value <==> 0 <= i < |legs|
    ensures allocation.Some? && minTrucks > maxTrucks ==> forall i :: i in allocation.value ==> allocation.value[i] == minTrucks
    ensures allocation.Some? && minTrucks <= maxTrucks ==>
      forall i :: 0 <= i < |legs| ==> IsBestCount(legs[i], minTrucks, maxTrucks, params, allocation.value[i])
  {
    var chosen: map<int, int> := map[];
    for idx := 0 to |legs|
      invariant forall i :: i in chosen <==> 0 <= i < idx
      invariant forall i :: 0 <= i < idx ==> SweepValid(legs[i], minTrucks, maxTrucks, params)
      invariant minTrucks > maxTrucks ==> forall i :: i in chosen ==> chosen[i] == minTrucks
      invariant minTrucks <= maxTrucks ==>
        forall i :: 0 <= i < idx ==> IsBestCount(legs[i], minTrucks, maxTrucks, params, chosen[i])
    {
      var best := BestCount(legs[idx], minTrucks, maxTrucks, params);
      if best.None? {
        return None;
      }
      chosen := chosen[idx := best.value];
    }
    allocation := Some(chosen);
  }

  // ---------------------------------------------------------------------------
  // Greedy split of a fixed fleet

  const GreedyFleetMethodName: string := "greedy_fleet_allocation"

  /** The legs' distances, in calendar order. */
  function Distances(legs: seq<Leg>): (ds: seq<real>)
    ensures |ds| == |legs|
    ensures forall i :: 0 <= i < |legs| ==> ds[i] == legs[i].distanceKm
  {
    seq(|legs|, i requires 0 <= i < |legs| => legs[i].distanceKm)
  }

  function TotalDistance(legs: seq<Leg>): real
  {
    Sum(Distances(legs))
  }

  /** Each leg's share of the season distance is defined whenever the proportional rule is used. */
  predicate ProportionsDefined(legs: seq<Leg>)
  {
    |legs| >= 2 ==> TotalDistance(legs) != 0.0
  }

  /** Baseline trucks per leg: the fleet divided evenly (rounded down), but at least one. */
  function BaselineTrucks(fleet: int, numLegs: nat): (t: int)
    ensures t >= 1
    ensures numLegs >= 1 && fleet >= numLegs ==> t * numLegs <= fleet < (t + 1) * numLegs
  {
    IntMax(1, fleet / IntMax(numLegs, 1))
  }

  /** Every one of the first `numLegs` legs gets `trucks`. */
  function EvenAllocation(numLegs: nat, trucks: int): (m: map<int, int>)
    ensures forall i :: i in m <==> 0 <= i < numLegs
    ensures forall i :: i in m ==> m[i] == trucks
  {
    var legIndices := Ranking.Range(numLegs);
    assert forall i :: i in legIndices <==> 0 <= i < numLegs by {
      forall i | 0 <= i < numLegs
        ensures i in legIndices
      {
        assert legIndices[i] == i;
      }
    }
    map i | i in legIndices :: trucks
  }

  /** An allocation names a truck count for every leg. */
  predicate Covers(allocation: map<int, int>, numLegs: nat)
  {
    forall i :: 0 <= i < numLegs ==> i in allocation
  }

  /** The summed leg totals when leg `i` runs `allocation[i]` trucks. */
  function FleetCost(legs: seq<Leg>, allocation: map<int, int>, params: CostParams): real
    requires |legs| >= 1 ==> params.avgSpeedKmh != 0.0
    requires Covers(allocation, |legs|)
  {
    Sum(seq(|legs|, i requires 0 <= i < |legs| => Cost.LegCost(legs[i], allocation[i], params).TotalCostEur()))
  }

  /** The leg breakdowns when leg `i` runs `allocation[i]` trucks, in leg order. */
  function AllocatedLegCosts(legs: seq<Leg>, allocation: map<int, int>, params: CostParams): (cs: seq<CostBreakdown>)
    requires |legs| >= 1 ==> params.avgSpeedKmh != 0.0
    requires Covers(allocation, |legs|)
    ensures |cs| == |legs|
    ensures forall i :: 0 <= i < |legs| ==> cs[i] == Cost.LegCost(legs[i], allocation[i], params)
  {
    seq(|legs|, i requires 0 <= i < |legs| => Cost.LegCost(legs[i], allocation[i], params))
  }

  /** The leg's proportional share of the fleet, truncated to an integer. */
  function ProportionalShare(legs: seq<Leg>, idx: int, fleet: int): int
    requires 0 <= idx < |legs| && TotalDistance(legs) != 0.0
  {
    Trunc(legs[idx].distanceKm / TotalDistance(legs) * fleet as real)
  }

  /** Every leg's proportional share, when the season distance is non-zero (all 0 otherwise, where no share is used). */
  function Shares(legs: seq<Leg>, fleet: int): (shares: seq<int>)
    ensures |shares| == |legs|
  {
    if TotalDistance(legs) == 0.0 then seq(|legs|, i => 0)
    else seq(|legs|, i requires 0 <= i < |legs| => ProportionalShare(legs, i, fleet))
  }

  /**
   * Trucks given to a leg with proportional share `share`, out of `numLegs` legs, when
   * `placed` legs already hold an allocation and `remaining` trucks are left: while more
   * than one leg is still open, its share (at least one), capped so each open leg after
   * it can still get one truck; the last leg gets what is left, but at least one.
   */
  function AllocationStep(numLegs: nat, share: int, placed: nat, remaining: int): int
  {
    if placed < numLegs - 1 then
      IntMin(IntMax(1, share), remaining - (numLegs - placed - 1))
    else
      IntMax(1, remaining)
  }

  /** Every entry of `order` is a leg index. */
  predicate IndicesOf(numLegs: nat, order: seq<int>)
  {
    forall a :: 0 <= a < |order| ==> 0 <= order[a] < numLegs
  }

  /**
   * The allocation loop from position `j` of `order` on, starting from `allocation` and
   * `remaining`, where leg `i` has proportional share `shares[i]`.
   */
  function AllocateFrom(shares: seq<int>, order: seq<int>, j: nat, allocation: map<int, int>, remaining: int): map<int, int>
    requires j <= |order| && IndicesOf(|shares|, order)
    decreases |order| - j
  {
    if j == |order| then allocation
    else
      var idx := order[j];
      var placed := |allocation|;
      var given := AllocationStep(|shares|, shares[idx], placed, remaining);
      AllocateFrom(shares, order, j + 1, allocation[idx := given], remaining - given)
  }

  /** Leg indices, longest leg first and equal lengths in calendar order. */
  function Priorities(legs: seq<Leg>): (order: seq<int>)
    ensures |order| == |legs| && IndicesOf(|legs|, order)
    ensures multiset(order) == multiset(Ranking.Range(|legs|))
    ensures Ranking.RankedBy(Distances(legs), order)
  {
    Ranking.RankDescending(Distances(legs))
  }

  /** The truck count the greedy split gives each leg. */
  function FleetAllocation(legs: seq<Leg>, fleet: int): map<int, int>
    requires ProportionsDefined(legs)
  {
    AllocateFrom(Shares(legs, fleet), Priorities(legs), 0, map[], fleet)
  }

  /** Distinct entries: no leg is visited twice. */
  lemma PrioritiesDistinct(legs: seq<Leg>)
    ensures forall a, b :: 0 <= a < b < |Priorities(legs)| ==> Priorities(legs)[a] != Priorities(legs)[b]
  {
    var order := Priorities(legs);
    forall a, b | 0 <= a < b < |order|
      ensures order[a] != order[b]
    {
      assert Ranking.Precedes(Distances(legs), order[a], order[b]);
    }
  }

  /** The priority order visits exactly the leg indices. */
  lemma PrioritiesAreLegIndices(legs: seq<Leg>)
    ensures forall k :: k in Priorities(legs) <==> 0 <= k < |legs|
  {
    var order := Priorities(legs);
    forall k
      ensures k in order <==> 0 <= k < |legs|
    {
      assert k in order <==> k in multiset(order);
      assert k in Ranking.Range(|legs|) <==> k in multiset(Ranking.Range(|legs|));
      if 0 <= k < |legs| {
        assert Ranking.Range(|legs|)[k] == k;
      }
    }
  }

  /** The loop from `j` on adds exactly the indices still to visit. */
  lemma {:induction false} AllocateFromKeys(shares: seq<int>, order: seq<int>, j: nat, allocation: map<int, int>, remaining: int)
    requires j <= |order| && IndicesOf(|shares|, order)
    ensures forall k :: k in AllocateFrom(shares, order, j, allocation, remaining) <==>
      k in allocation || k in order[j..]
    decreases |order| - j
  {
    if j < |order| {
      var idx := order[j];
      var given := AllocationStep(|shares|, shares[idx], |allocation|, remaining);
      AllocateFromKeys(shares, order, j + 1, allocation[idx := given], remaining - given);
      assert order[j..] == [idx] + order[j + 1..];
    }
  }

  /** Every leg index, and nothing else, gets a truck count. */
  lemma FleetAllocationKeys(legs: seq<Leg>, fleet: int)
    requires ProportionsDefined(legs)
    ensures forall k :: k in FleetAllocation(legs, fleet) <==> 0 <= k < |legs|
  {
    AllocateFromKeys(Shares(legs, fleet), Priorities(legs), 0, map[], fleet);
    PrioritiesAreLegIndices(legs);
    assert Priorities(legs)[0..] == Priorities(legs);
  }

  /** Trucks handed to the legs listed in `ks`, summed left to right. */
  function TrucksOn(allocation: map<int, int>, ks: seq<int>): int
    requires forall a :: 0 <= a < |ks| ==> ks[a] in allocation
  {
    if ks == [] then 0 else TrucksOn(allocation, ks[..|ks| - 1]) + allocation[ks[|ks| - 1]]
  }

  /** Trucks handed to legs 0..numLegs-1. */
  function AllocatedTrucks(allocation: map<int, int>, numLegs: nat): int
    requires Covers(allocation, numLegs)
  {
    TrucksOn(allocation, Ranking.Range(numLegs))
  }

  lemma {:induction false} TrucksOnAppend(allocation: map<int, int>, s: seq<int>, t: seq<int>)
    requires forall a :: 0 <= a < |s| ==> s[a] in allocation
    requires forall a :: 0 <= a < |t| ==> t[a] in allocation
    ensures TrucksOn(allocation, s + t) == TrucksOn(allocation, s) + TrucksOn(allocation, t)
    decreases |t|
  {
    if t == [] {
      assert s + t == s;
    } else {
      var t' := t[..|t| - 1];
      assert (s + t)[..|s + t| - 1] == s + t';
      TrucksOnAppend(allocation, s, t');
    }
  }

  /** Every listed leg has a count. */
  predicate AllIn(allocation: map<int, int>, ks: seq<int>)
  {
    forall a :: 0 <= a < |ks| ==> ks[a] in allocation
  }

  lemma TrucksOnSnoc(allocation: map<int, int>, ks: seq<int>, x: int)
    requires AllIn(allocation, ks) && x in allocation
    ensures AllIn(allocation, ks + [x])
    ensures TrucksOn(allocation, ks + [x]) == TrucksOn(allocation, ks) + allocation[x]
  {
    assert (ks + [x])[..|ks|] == ks;
  }

  /** Removing one occurrence of `t[k]` from both sides of a multiset equation. */
  lemma MultisetRemoveAt(s': seq<int>, x: int, t: seq<int>, k: int)
    requires 0 <= k < |t| && t[k] == x
    requires multiset(s' + [x]) == multiset(t)
    ensures multiset(s') == multiset(t[..k] + t[k + 1..])
  {
    assert t == t[..k] + [x] + t[k + 1..];
    assert multiset(t) == multiset(t[..k]) + multiset{x} + multiset(t[k + 1..]);
    assert multiset(s' + [x]) == multiset(s') + multiset{x};
    assert multiset(t[..k] + t[k + 1..]) == multiset(t[..k]) + multiset(t[k + 1..]);
    forall y
      ensures multiset(s')[y] == multiset(t[..k] + t[k + 1..])[y]
    {
      assert multiset(s' + [x])[y] == multiset(t)[y];
    }
  }

  /** A rearrangement of listed legs lists only legs with counts. */
  lemma AllInPermutation(allocation: map<int, int>, s: seq<int>, t: seq<int>)
    requires AllIn(allocation, s)
    requires multiset(s) == multiset(t)
    ensures AllIn(allocation, t)
  {
    forall a | 0 <= a < |t|
      ensures t[a] in allocation
    {
      assert t[a] in multiset(s);
    }
  }

  /** Taking the leg at position `k` out of the list takes its count out of the total. */
  lemma TrucksOnRemoveAt(allocation: map<int, int>, t: seq<int>, k: int)
    requires AllIn(allocation, t)
    requires 0 <= k < |t|
    ensures AllIn(allocation, t[..k] + t[k + 1..])
    ensures TrucksOn(allocation, t) == TrucksOn(allocation, t[..k] + t[k + 1..]) + allocation[t[k]]
  {
    var left, right, x := t[..k], t[k + 1..], t[k];
    assert t == (left + [x]) + right;
    assert AllIn(allocation, left + [x]) && AllIn(allocation, right);
    TrucksOnAppend(allocation, left + [x], right);
    TrucksOnSnoc(allocation, left, x);
    TrucksOnAppend(allocation, left, right);
  }

  /** The total does not depend on the order the legs are listed in. */
  lemma {:induction false} TrucksOnPermutation(allocation: map<int, int>, s: seq<int>, t: seq<int>)
    requires AllIn(allocation, s)
    requires multiset(s) == multiset(t)
    ensures AllIn(allocation, t)
    ensures TrucksOn(allocation, s) == TrucksOn(allocation, t)
    decreases |s|
  {
    AllInPermutation(allocation, s, t);
    if s != [] {
      var x := s[|s| - 1];
      var s' := s[..|s| - 1];
      assert s == s' + [x];
      assert x in multiset(t);
      var k :| 0 <= k < |t| && t[k] == x;
      MultisetRemoveAt(s', x, t, k);
      assert AllIn(allocation, s');
      TrucksOnPermutation(allocation, s', t[..k] + t[k + 1..]);
      TrucksOnRemoveAt(allocation, t, k);
    }
  }

  /** Giving a count to a leg not in `ks` leaves the total on `ks` alone. */
  lemma {:induction false} TrucksOnUpdateElsewhere(allocation: map<int, int>, ks: seq<int>, k: int, v: int)
    requires forall a :: 0 <= a < |ks| ==> ks[a] in allocation
    requires k !in ks
    ensures TrucksOn(allocation[k := v], ks) == TrucksOn(allocation, ks)
    decreases |ks|
  {
    if ks != [] {
      TrucksOnUpdateElsewhere(allocation, ks[..|ks| - 1], k, v);
    }
  }

  /**
   * What holds before the allocation loop visits position `j` of `order`, when there
   * are at least as many trucks as legs: the first `j` visited legs hold at least one
   * truck each, the trucks handed out plus those remaining make the fleet, and at least
   * one truck remains for every open leg (none remain once all are visited).
   */
  ghost predicate FleetInvariant(shares: seq<int>, fleet: int, order: seq<int>, j: nat, allocation: map<int, int>, remaining: int)
  {
    && j <= |order| == |shares|
    && IndicesOf(|shares|, order)
    && (forall a, b :: 0 <= a < b < |order| ==> order[a] != order[b])
    && (forall k :: k in allocation <==> k in order[..j])
    && |allocation| == j
    && (forall k :: k in allocation ==> allocation[k] >= 1)
    && AllIn(allocation, order[..j])
    && TrucksOn(allocation, order[..j]) + remaining == fleet
    && (j < |order| ==> remaining >= |order| - j)
    && (j == |order| ==> remaining == 0)
  }

  /** One pass of the allocation loop keeps FleetInvariant. */
  lemma AllocationStepKeeps(shares: seq<int>, fleet: int, order: seq<int>, j: nat, allocation: map<int, int>, remaining: int)
    requires FleetInvariant(shares, fleet, order, j, allocation, remaining)
    requires j < |order|
    ensures var given := AllocationStep(|shares|, shares[order[j]], |allocation|, remaining);
      FleetInvariant(shares, fleet, order, j + 1, allocation[order[j] := given], remaining - given)
  {
    var given := AllocationStep(|shares|, shares[order[j]], |allocation|, remaining);
    AllocationStepBounds(|shares|, shares[order[j]], |allocation|, remaining);
    GiveKeeps(shares, fleet, order, j, allocation, remaining, given);
  }

  /** Giving the next leg `given` trucks, within the bounds a step keeps, preserves FleetInvariant. */
  lemma GiveKeeps(shares: seq<int>, fleet: int, order: seq<int>, j: nat, allocation: map<int, int>, remaining: int, given: int)
    requires FleetInvariant(shares, fleet, order, j, allocation, remaining)
    requires j < |order|
    requires given >= 1
    requires j + 1 < |order| ==> remaining - given >= |order| - j - 1
    requires j + 1 == |order| ==> remaining - given == 0
    ensures FleetInvariant(shares, fleet, order, j + 1, allocation[order[j] := given], remaining - given)
  {
    var idx := order[j];
    var next := allocation[idx := given];
    assert idx !in order[..j] by {
      forall a | 0 <= a < j
        ensures order[..j][a] != idx
      {
        assert order[..j][a] == order[a];
      }
    }
    assert forall k :: k in next <==> k in order[..j + 1] by {
      PrefixSnoc(order, j);
      KeysExtend(allocation, order[..j], idx, given);
    }
    assert |next| == j + 1 by {
      KeysExtend(allocation, order[..j], idx, given);
    }
    assert forall k :: k in next ==> next[k] >= 1;
    assert AllIn(next, order[..j + 1]) && TrucksOn(next, order[..j + 1]) + (remaining - given) == fleet by {
      PrefixSnoc(order, j);
      TrucksOnUpdateElsewhere(allocation, order[..j], idx, given);
      TrucksOnSnoc(next, order[..j], idx);
    }
  }

  /** The first `j + 1` entries are the first `j` and then entry `j`. */
  lemma PrefixSnoc(s: seq<int>, j: nat)
    requires j < |s|
    ensures s[..j + 1] == s[..j] + [s[j]]
  {
  }

  /** Giving a count to one more, new, listed leg extends the keys by that leg. */
  lemma KeysExtend(allocation: map<int, int>, prefix: seq<int>, idx: int, given: int)
    requires forall k :: k in allocation <==> k in prefix
    requires idx !in prefix
    ensures forall k :: k in allocation[idx := given] <==> k in prefix + [idx]
    ensures |allocation[idx := given]| == |allocation| + 1
  {
    assert idx !in allocation;
  }

  /**
   * With at least one truck per open leg, a step gives at least one truck and keeps at
   * least one for each leg still open after it, handing out the rest on the last leg.
   */
  lemma AllocationStepBounds(numLegs: nat, share: int, placed: nat, remaining: int)
    requires placed < numLegs && remaining >= numLegs - placed
    ensures AllocationStep(numLegs, share, placed, remaining) >= 1
    ensures placed + 1 < numLegs ==> remaining - AllocationStep(numLegs, share, placed, remaining) >= numLegs - placed - 1
    ensures placed + 1 == numLegs ==> remaining - AllocationStep(numLegs, share, placed, remaining) == 0
  {
  }

  /** Every leg of `order` holds a count, every count is at least one, and they sum to `fleet`. */
  predicate HandsOutFleet(allocation: map<int, int>, order: seq<int>, fleet: int)
  {
    && AllIn(allocation, order)
    && (forall k :: k in allocation ==> allocation[k] >= 1)
    && TrucksOn(allocation, order) == fleet
  }

  /**
   * From any state satisfying FleetInvariant, the rest of the loop ends with every
   * visited leg holding at least one truck and the whole fleet handed out.
   */
  lemma {:induction false} AllocateFromCounts(shares: seq<int>, fleet: int, order: seq<int>, j: nat, allocation: map<int, int>, remaining: int)
    requires FleetInvariant(shares, fleet, order, j, allocation, remaining)
    ensures HandsOutFleet(AllocateFrom(shares, order, j, allocation, remaining), order, fleet)
    decreases |order| - j
  {
    if j == |order| {
      InvariantAtEnd(shares, fleet, order, allocation, remaining);
    } else {
      var idx := order[j];
      var given := AllocationStep(|shares|, shares[idx], |allocation|, remaining);
      AllocationStepKeeps(shares, fleet, order, j, allocation, remaining);
      AllocateFromCounts(shares, fleet, order, j + 1, allocation[idx := given], remaining - given);
      AllocateFromUnfold(shares, order, j, allocation, remaining);
    }
  }

  /** After one pass of the loop, the rest of the loop ends where the whole loop would have. */
  lemma AllocateFromStep(shares: seq<int>, order: seq<int>, j: nat, allocation: map<int, int>, remaining: int, given: int)
    requires j < |order| && IndicesOf(|shares|, order)
    requires given == AllocationStep(|shares|, shares[order[j]], |allocation|, remaining)
    ensures AllocateFrom(shares, order, j + 1, allocation[order[j] := given], remaining - given)
      == AllocateFrom(shares, order, j, allocation, remaining)
  {
    AllocateFromUnfold(shares, order, j, allocation, remaining);
  }

  /** One pass of the loop, then the rest. */
  lemma AllocateFromUnfold(shares: seq<int>, order: seq<int>, j: nat, allocation: map<int, int>, remaining: int)
    requires j < |order| && IndicesOf(|shares|, order)
    ensures var given := AllocationStep(|shares|, shares[order[j]], |allocation|, remaining);
      AllocateFrom(shares, order, j, allocation, remaining)
        == AllocateFrom(shares, order, j + 1, allocation[order[j] := given], remaining - given)
  {
  }

  /** Once every leg is visited, FleetInvariant says the whole fleet is handed out. */
  lemma InvariantAtEnd(shares: seq<int>, fleet: int, order: seq<int>, allocation: map<int, int>, remaining: int)
    requires FleetInvariant(shares, fleet, order, |order|, allocation, remaining)
    ensures HandsOutFleet(allocation, order, fleet)
  {
    assert order[..|order|] == order;
  }

  /**
   * With at least one leg and at least as many trucks as legs, every leg gets at least
   * one truck and the counts add up to the fleet.
   */
  lemma FleetAllocationCounts(legs: seq<Leg>, fleet: int)
    requires ProportionsDefined(legs)
    requires fleet >= |legs| >= 1
    ensures Covers(FleetAllocation(legs, fleet), |legs|)
    ensures forall i :: 0 <= i < |legs| ==> FleetAllocation(legs, fleet)[i] >= 1
    ensures AllocatedTrucks(FleetAllocation(legs, fleet), |legs|) == fleet
  {
    var shares, order := Shares(legs, fleet), Priorities(legs);
    var allocation := FleetAllocation(legs, fleet);
    PrioritiesDistinct(legs);
    assert order[..0] == [];
    assert FleetInvariant(shares, fleet, order, 0, map[], fleet);
    AllocateFromCounts(shares, fleet, order, 0, map[], fleet);
    FleetAllocationKeys(legs, fleet);
    TrucksOnPermutation(allocation, order, Ranking.Range(|legs|));
  }

  /**
   * Every leg breakdown the optimiser builds passes validation: those of the even split
   * and those of the greedy split.
   */
  predicate FleetCostsValid(legs: seq<Leg>, fleet: int, params: CostParams)
    requires |legs| >= 1 ==> params.avgSpeedKmh != 0.0
    requires ProportionsDefined(legs)
  {
    FleetAllocationKeys(legs, fleet);
    && Cost.AllCostsValid(AllocatedLegCosts(legs, EvenAllocation(|legs|, BaselineTrucks(fleet, |legs|)), params))
    && Cost.AllCostsValid(AllocatedLegCosts(legs, FleetAllocation(legs, fleet), params))
  }

  /**
   * With sound prices, legs of non-negative length and at least as many trucks as legs,
   * every leg of both splits runs at least one truck, so no breakdown is rejected.
   */
  lemma FleetCostsValidWithEnoughTrucks(legs: seq<Leg>, fleet: int, params: CostParams)
    requires params.Sound() && ProportionsDefined(legs)
    requires forall i :: 0 <= i < |legs| ==> legs[i].distanceKm >= 0.0
    requires fleet >= |legs|
    ensures FleetCostsValid(legs, fleet, params)
  {
    if |legs| >= 1 {
      FleetAllocationCounts(legs, fleet);
      FleetAllocationKeys(legs, fleet);
    }
  }

  /**
   * With no trucks at all, the greedy split gives the 600 km leg -1 trucks; its fuel
   * cost is negative and the breakdown is rejected.
   */
  lemma EmptyFleetRejected()
    ensures ProportionsDefined(ShortAndLongLeg())
    ensures FleetAllocation(ShortAndLongLeg(), 0) == map[0 := 1, 1 := -1]
    ensures !FleetCostsValid(ShortAndLongLeg(), 0, DefaultCostParams)
  {
    var legs := ShortAndLongLeg();
    ShortAndLongLegPriorities();
    assert Shares(legs, 0)[1] == 0;
    var first := map[1 := -1];
    assert AllocationStep(2, 0, 0, 0) == -1;
    assert |first| == 1;
    assert AllocationStep(2, Shares(legs, 0)[0], |first|, 1) == 1;
    assert first[0 := 1] == map[0 := 1, 1 := -1];
    assert Cost.RawFuelCost(600.0, -1, DefaultCostParams) == -270.0;
    assert !AllocatedLegCosts(legs, map[0 := 1, 1 := -1], DefaultCostParams)[1].Valid();
  }

  /** The summed leg totals under the even split. */
  function BaselineTotal(legs: seq<Leg>, fleet: int, params: CostParams): real
    requires |legs| >= 1 ==> params.avgSpeedKmh != 0.0
  {
    FleetCost(legs, EvenAllocation(|legs|, BaselineTrucks(fleet, |legs|)), params)
  }

  /** The summed leg totals under the greedy split. */
  function OptimizedTotal(legs: seq<Leg>, fleet: int, params: CostParams): real
    requires |legs| >= 1 ==> params.avgSpeedKmh != 0.0
    requires ProportionsDefined(legs)
  {
    FleetAllocationKeys(legs, fleet);
    FleetCost(legs, FleetAllocation(legs, fleet), params)
  }

  /**
   * The report on two totals: both totals, the saving and the saving as a percentage of
   * a positive baseline (0 otherwise), each rounded to cents.
   */
  function SavingsReport(baseline: real, optimized: real, fleet: int, allocation: map<int, int>): (r: OptimizationResult)
    ensures r.IsImproved() <==> baseline - optimized >= 0.005
  {
    var savings := baseline - optimized;
    Round2Positive(savings);
    var savingsPercent := if baseline > 0.0 then savings / baseline * 100.0 else 0.0;
    OptimizationResult(
      originalCostEur := Round2(baseline),
      optimizedCostEur := Round2(optimized),
      savingsEur := Round2(savings),
      savingsPercent := Round2(savingsPercent),
      methodName := GreedyFleetMethodName,
      parameters := FleetParameters(fleet, allocation))
  }

  /** The optimiser's report on the even and the greedy split of `fleet`. */
  function FleetResult(legs: seq<Leg>, fleet: int, params: CostParams): OptimizationResult
    requires |legs| >= 1 ==> params.avgSpeedKmh != 0.0
    requires ProportionsDefined(legs)
  {
    SavingsReport(BaselineTotal(legs, fleet, params), OptimizedTotal(legs, fleet, params), fleet, FleetAllocation(legs, fleet))
  }

  /** The allocation: legs visited longest first, each given its AllocationStep. */
  method AllocateFleet(legs: seq<Leg>, totalFleetSize: int) returns (allocation: map<int, int>)
    requires ProportionsDefined(legs)
    ensures allocation == FleetAllocation(legs, totalFleetSize)
  {
    var priorities := Priorities(legs);
    ghost var shares := Shares(legs, totalFleetSize);
    allocation := map[];
    var remainingFleet := totalFleetSize;
    for j := 0 to |priorities|
      invariant AllocateFrom(shares, priorities, j, allocation, remainingFleet)
        == AllocateFrom(shares, priorities, 0, map[], totalFleetSize)
    {
      var idx := priorities[j];
      var given := TrucksForLeg(legs, totalFleetSize, idx, |allocation|, remainingFleet);
      AllocateFromStep(shares, priorities, j, allocation, remainingFleet, given);
      allocation := allocation[idx := given];
      remainingFleet := remainingFleet - given;
    }
  }

  /** The body of the allocation loop: the trucks the leg at `idx` receives. */
  method TrucksForLeg(legs: seq<Leg>, totalFleetSize: int, idx: int, placed: nat, remainingFleet: int) returns (given: int)
    requires 0 <= idx < |legs| && ProportionsDefined(legs)
    ensures given == AllocationStep(|legs|, Shares(legs, totalFleetSize)[idx], placed, remainingFleet)
  {
    if placed < |legs| - 1 {
      given := IntMax(1, ProportionalShare(legs, idx, totalFleetSize));
      given := IntMin(given, remainingFleet - (|legs| - placed - 1));
    } else {
      given := IntMax(1, remainingFleet);
    }
  }

  /**
   * Splits `totalFleetSize` trucks over the legs, longest first, and reports the
   * saving against an even split.
   */
  method OptimizeFleetAllocation(legs: seq<Leg>, totalFleetSize: int, params: CostParams)
    returns (result: Option<OptimizationResult>)
    requires |legs| >= 1 ==> params.avgSpeedKmh != 0.0
    requires ProportionsDefined(legs)
    ensures result.Some? <==> FleetCostsValid(legs, totalFleetSize, params)
    ensures result.Some? ==> result.value == FleetResult(legs, totalFleetSize, params)
  {
    var trucksPerLeg := BaselineTrucks(totalFleetSize, |legs|);
    var evenSplit := EvenAllocation(|legs|, trucksPerLeg);
    // Building a leg's breakdown with a negative component is rejected.
    if !Cost.AllCostsValid(AllocatedLegCosts(legs, evenSplit, params)) {
      return None;
    }
    var baselineTotal := FleetCost(legs, evenSplit, params);
    var allocation := AllocateFleet(legs, totalFleetSize);
    FleetAllocationKeys(legs, totalFleetSize);
    if !Cost.AllCostsValid(AllocatedLegCosts(legs, allocation, params)) {
      return None;
    }
    var optimizedTotal := FleetCost(legs, allocation, params);
    result := Some(SavingsReport(baselineTotal, optimizedTotal, totalFleetSize, allocation));
  }

  /** The linear-programming entry point: the greedy optimiser on `numTrucks` trucks with the default parameters. */
  method SimpleLpOptimization(legs: seq<Leg>, numTrucks: int) returns (result: Option<OptimizationResult>)
    requires ProportionsDefined(legs)
    ensures result.Some? <==> FleetCostsValid(legs, numTrucks, DefaultCostParams)
    ensures result.Some? ==> result.value == FleetResult(legs, numTrucks, DefaultCostParams)
    ensures result.Some? ==> result.value.methodName == GreedyFleetMethodName
    ensures result.Some? ==> result.value.parameters == FleetParameters(numTrucks, FleetAllocation(legs, numTrucks))
  {
    result := OptimizeFleetAllocation(legs, numTrucks, DefaultCostParams);
  }

  /** A leg's total is a whole number of cents, being the sum of four rounded components. */
  lemma LegTotalIsCents(leg: Leg, numTrucks: int, params: CostParams)
    requires params.avgSpeedKmh != 0.0
    ensures IsCents(Cost.LegCost(leg, numTrucks, params).TotalCostEur())
  {
    var c := Cost.LegCost(leg, numTrucks, params);
    CentsAdd(c.fuelCostEur, c.laborCostEur);
    CentsAdd(c.fuelCostEur + c.laborCostEur, c.tollCostEur);
    CentsAdd(c.fuelCostEur + c.laborCostEur + c.tollCostEur, c.fixedCostEur);
  }

  lemma FleetCostIsCents(legs: seq<Leg>, allocation: map<int, int>, params: CostParams)
    requires |legs| >= 1 ==> params.avgSpeedKmh != 0.0
    requires Covers(allocation, |legs|)
    ensures IsCents(FleetCost(legs, allocation, params))
  {
    var totals := seq(|legs|, i requires 0 <= i < |legs| => Cost.LegCost(legs[i], allocation[i], params).TotalCostEur());
    forall i | 0 <= i < |legs|
      ensures IsCents(totals[i])
    {
      LegTotalIsCents(legs[i], allocation[i], params);
    }
    SumOfCents(totals);
  }

  /**
   * On whole-cent totals the report is exact: it repeats both totals unchanged and its
   * saving is exactly their difference.
   */
  lemma SavingsReportOfCents(baseline: real, optimized: real, fleet: int, allocation: map<int, int>)
    requires IsCents(baseline) && IsCents(optimized)
    ensures SavingsReport(baseline, optimized, fleet, allocation).originalCostEur == baseline
    ensures SavingsReport(baseline, optimized, fleet, allocation).optimizedCostEur == optimized
    ensures SavingsReport(baseline, optimized, fleet, allocation).savingsEur == baseline - optimized
  {
    CentsSub(baseline, optimized);
    Round2OfCents(baseline);
    Round2OfCents(optimized);
    Round2OfCents(baseline - optimized);
  }

  /** A saving on a positive baseline that does not go below zero is between 0 and 100 percent. */
  lemma SavingsPercentInRange(baseline: real, optimized: real, fleet: int, allocation: map<int, int>)
    requires baseline > 0.0 && 0.0 <= optimized <= baseline
    ensures 0.0 <= SavingsReport(baseline, optimized, fleet, allocation).savingsPercent <= 100.0
  {
    var pct := (baseline - optimized) / baseline * 100.0;
    assert 0.0 <= (baseline - optimized) / baseline <= 1.0;
    Round2Monotone(0.0, pct);
    Round2Monotone(pct, 100.0);
    Round2Zero();
    Round2OfCents(100.0);
  }

  /**
   * The reported totals are the exact baseline and greedy totals (they are whole cents,
   * so rounding changes nothing), and the reported saving is exactly their difference.
   */
  lemma FleetResultIsExact(legs: seq<Leg>, fleet: int, params: CostParams)
    requires |legs| >= 1 ==> params.avgSpeedKmh != 0.0
    requires ProportionsDefined(legs)
    ensures FleetResult(legs, fleet, params).originalCostEur == BaselineTotal(legs, fleet, params)
    ensures FleetResult(legs, fleet, params).optimizedCostEur == OptimizedTotal(legs, fleet, params)
    ensures FleetResult(legs, fleet, params).savingsEur
      == FleetResult(legs, fleet, params).originalCostEur - FleetResult(legs, fleet, params).optimizedCostEur
  {
    FleetAllocationKeys(legs, fleet);
    FleetCostIsCents(legs, EvenAllocation(|legs|, BaselineTrucks(fleet, |legs|)), params);
    FleetCostIsCents(legs, FleetAllocation(legs, fleet), params);
    SavingsReportOfCents(BaselineTotal(legs, fleet, params), OptimizedTotal(legs, fleet, params), fleet, FleetAllocation(legs, fleet));
  }

  /** The optimiser reports an improvement exactly when the greedy split is cheaper than the even one. */
  lemma FleetResultImprovedIffCheaper(legs: seq<Leg>, fleet: int, params: CostParams)
    requires |legs| >= 1 ==> params.avgSpeedKmh != 0.0
    requires ProportionsDefined(legs)
    ensures FleetResult(legs, fleet, params).IsImproved() <==>
      OptimizedTotal(legs, fleet, params) < BaselineTotal(legs, fleet, params)
  {
    FleetResultIsExact(legs, fleet, params);
  }

  /**
   * When the greedy split saves money on a positive baseline and its own total is not
   * negative, the reported percentage lies between 0 and 100.
   */
  lemma FleetResultPercentInRange(legs: seq<Leg>, fleet: int, params: CostParams)
    requires |legs| >= 1 ==> params.avgSpeedKmh != 0.0
    requires ProportionsDefined(legs)
    requires BaselineTotal(legs, fleet, params) > 0.0
    requires 0.0 <= OptimizedTotal(legs, fleet, params) <= BaselineTotal(legs, fleet, params)
    ensures 0.0 <= FleetResult(legs, fleet, params).savingsPercent <= 100.0
  {
    SavingsPercentInRange(BaselineTotal(legs, fleet, params), OptimizedTotal(legs, fleet, params), fleet, FleetAllocation(legs, fleet));
  }

  /** With no legs, every reported figure is zero and nothing is allocated. */
  lemma NoLegsNoCost(fleet: int, params: CostParams)
    ensures FleetResult([], fleet, params).originalCostEur == 0.0
    ensures FleetResult([], fleet, params).optimizedCostEur == 0.0
    ensures FleetResult([], fleet, params).savingsEur == 0.0
    ensures FleetResult([], fleet, params).savingsPercent == 0.0
    ensures FleetResult([], fleet, params).parameters == FleetParameters(fleet, map[])
  {
    Round2Zero();
    assert Priorities([]) == [];
    assert BaselineTotal([], fleet, params) == 0.0;
    assert OptimizedTotal([], fleet, params) == 0.0;
  }

  /**
   * With at least one leg and at least as many trucks as legs, the report's allocation
   * gives every leg at least one truck and hands out exactly the fleet.
   */
  lemma FleetResultAllocatesWholeFleet(legs: seq<Leg>, fleet: int, params: CostParams)
    requires |legs| >= 1 ==> params.avgSpeedKmh != 0.0
    requires ProportionsDefined(legs)
    requires fleet >= |legs| >= 1
    ensures FleetResult(legs, fleet, params).parameters.FleetParameters?
    ensures FleetResult(legs, fleet, params).parameters.totalFleetSize == fleet
    ensures Covers(FleetResult(legs, fleet, params).parameters.allocation, |legs|)
    ensures forall i :: 0 <= i < |legs| ==> FleetResult(legs, fleet, params).parameters.allocation[i] >= 1
    ensures AllocatedTrucks(FleetResult(legs, fleet, params).parameters.allocation, |legs|) == fleet
  {
    FleetAllocationCounts(legs, fleet);
  }

  // Worked examples on two legs of 300 km and 600 km.

  const ExampleCircuit: Circuit := Circuit("Example", "Example", "Example", 0.0, 0.0)

  function ShortAndLongLeg(): seq<Leg>
  {
    [Leg(ExampleCircuit, ExampleCircuit, 300.0, Haversine), Leg(ExampleCircuit, ExampleCircuit, 600.0, Haversine)]
  }

  /** The 600 km leg is visited first, the 300 km leg second. */
  lemma ShortAndLongLegPriorities()
    ensures TotalDistance(ShortAndLongLeg()) == 900.0
    ensures Priorities(ShortAndLongLeg()) == [1, 0]
  {
    var legs := ShortAndLongLeg();
    var keys := Distances(legs);
    assert keys == [300.0, 600.0];
    assert TotalDistance(legs) == 900.0 by {
      assert keys[..1] == [300.0];
      assert [300.0][..0] == [];
    }
    assert Ranking.RankedBy(keys, [1, 0]) by {
      assert Ranking.Precedes(keys, 1, 0);
    }
    assert multiset(Priorities(legs)) == multiset([1, 0]) by {
      assert Ranking.Range(2) == [0, 1];
    }
    Ranking.RankingUnique(keys, Priorities(legs), [1, 0]);
  }

  /** A fleet of 12 is split in proportion to distance: 8 trucks on the 600 km leg, 4 on the 300 km leg. */
  lemma ProportionalSplitExample()
    ensures ProportionsDefined(ShortAndLongLeg())
    ensures FleetAllocation(ShortAndLongLeg(), 12) == map[0 := 4, 1 := 8]
  {
    var legs := ShortAndLongLeg();
    ShortAndLongLegPriorities();
    assert ProportionalShare(legs, 1, 12) == 8 by {
      assert 600.0 / 900.0 * 12.0 == 8.0;
    }
    assert Shares(legs, 12)[1] == 8;
    var first := map[1 := 8];
    assert AllocationStep(2, 8, 0, 12) == 8;
    assert |first| == 1;
    assert AllocationStep(2, Shares(legs, 12)[0], |first|, 4) == 4;
    assert first[0 := 4] == map[0 := 4, 1 := 8];
  }

  /**
   * A fleet smaller than the number of legs is not spread one truck per leg: with a
   * single truck the 600 km leg is given none.
   */
  lemma SingleTruckLeavesLongLegEmpty()
    ensures ProportionsDefined(ShortAndLongLeg())
    ensures FleetAllocation(ShortAndLongLeg(), 1) == map[0 := 1, 1 := 0]
  {
    var legs := ShortAndLongLeg();
    ShortAndLongLegPriorities();
    assert ProportionalShare(legs, 1, 1) == 0 by {
      assert 0.0 <= 600.0 / 900.0 * 1.0 < 1.0;
    }
    assert Shares(legs, 1)[1] == 0;
    var first := map[1 := 0];
    assert AllocationStep(2, 0, 0, 1) == 0;
    assert |first| == 1;
    assert AllocationStep(2, Shares(legs, 1)[0], |first|, 1) == 1;
    assert first[0 := 1] == map[0 := 1, 1 := 0];
  }

  // ---------------------------------------------------------------------------
  // Driver hours and multi-day legs

  /** The daily driving limit: the one given, or the configured default. */
  function DailyLimit(maxDailyHours: Option<real>): (limit: real)
    ensures maxDailyHours.None? ==> limit == MaxDriverHoursPerDay
    ensures maxDailyHours.Some? ==> limit == maxDailyHours.value
  {
    maxDailyHours.GetOr(MaxDriverHoursPerDay)
  }

  /** For each analysed leg, whether its travel time fits within one day's driving limit. */
  method CheckDriverHoursCompliance(legs: seq<LegAnalysis>, maxDailyHours: Option<real>)
    returns (compliance: map<int, bool>)
    ensures forall i :: i in compliance <==> 0 <= i < |legs|
    ensures forall i :: 0 <= i < |legs| ==> (compliance[i] <==> legs[i].travelHours <= DailyLimit(maxDailyHours))
  {
    var limit := DailyLimit(maxDailyHours);
    compliance := map[];
    for idx := 0 to |legs|
      invariant forall i :: i in compliance <==> 0 <= i < idx
      invariant forall i :: 0 <= i < idx ==> (compliance[i] <==> legs[i].travelHours <= limit)
    {
      var isCompliant := legs[idx].travelHours <= limit;
      compliance := compliance[idx := isCompliant];
    }
  }

  /** The recommendation for one leg: days of driving, whether to split, and stops needed. */
  datatype SplitSuggestion = SplitSuggestion(
    legName: string,
    distanceKm: real,
    travelHours: real,
    daysNeeded: int,
    requiresSplitting: bool,
    recommendedStops: int)

  /** Days of driving for `hours`: whole days of `limit` hours, plus one for any remainder. */
  function DaysNeeded(hours: real, limit: real): int
    requires limit != 0.0
  {
    FloorDiv(hours, limit) + (if FloorMod(hours, limit) > 0.0 then 1 else 0)
  }

  /**
   * For a positive limit the days needed are the hours over the limit rounded up, so
   * the last day is not empty and no day exceeds the limit.
   */
  lemma DaysNeededIsCeiling(hours: real, limit: real)
    requires limit > 0.0
    ensures DaysNeeded(hours, limit) == Ceil(hours / limit)
    ensures (DaysNeeded(hours, limit) - 1) as real * limit < hours <= DaysNeeded(hours, limit) as real * limit
  {
    var q := FloorDiv(hours, limit);
    var m := FloorMod(hours, limit);
    var d := DaysNeeded(hours, limit);
    if m > 0.0 {
      assert hours / limit == q as real + m / limit;
      assert 0.0 < m / limit < 1.0;
    } else {
      assert hours / limit == q as real;
    }
    assert (d as real - 1.0) < hours / limit <= d as real;
    var c := Ceil(hours / limit);
    assert hours / limit <= c as real < hours / limit + 1.0;
    assert (d - 1) as real * limit < (hours / limit) * limit;
    assert (hours / limit) * limit <= d as real * limit;
  }

  /** More than one day is needed exactly when the hours exceed one day's limit. */
  lemma MoreThanOneDayIffOverLimit(hours: real, limit: real)
    requires limit > 0.0
    ensures DaysNeeded(hours, limit) > 1 <==> hours > limit
  {
    DaysNeededIsCeiling(hours, limit);
    var d := DaysNeeded(hours, limit);
    DaysBounds(hours, limit, d);
  }

  /** The arithmetic of MoreThanOneDayIffOverLimit, on a count `d` bracketing the hours. */
  lemma DaysBounds(hours: real, limit: real, d: int)
    requires limit > 0.0
    requires (d - 1) as real * limit < hours <= d as real * limit
    ensures d > 1 <==> hours > limit
  {
    if d > 1 {
      assert (d - 1) as real * limit >= 1.0 * limit;
    } else {
      assert d as real * limit <= 1.0 * limit;
    }
  }

  /** Suggests whether `leg` must be driven over several days at `avgSpeedKmh`. */
  function SuggestRouteSplitting(leg: Leg, maxDailyHours: Option<real>, avgSpeedKmh: real): (r: SplitSuggestion)
    requires avgSpeedKmh != 0.0 && DailyLimit(maxDailyHours) != 0.0
    ensures r.legName == leg.LegName() && r.distanceKm == leg.distanceKm
    ensures r.travelHours == Round2(Cost.EstimateTravelHours(leg.distanceKm, avgSpeedKmh))
    ensures r.daysNeeded >= 1
    ensures r.requiresSplitting <==> r.daysNeeded > 1
    ensures r.recommendedStops == r.daysNeeded - 1
  {
    var travelHours := leg.distanceKm / avgSpeedKmh;
    var daysNeeded := DaysNeeded(travelHours, DailyLimit(maxDailyHours));
    SplitSuggestion(
      legName := leg.LegName(),
      distanceKm := leg.distanceKm,
      travelHours := Round2(travelHours),
      daysNeeded := IntMax(1, daysNeeded),
      requiresSplitting := daysNeeded > 1,
      recommendedStops := IntMax(0, daysNeeded - 1))
  }

  /**
   * With a positive limit and a positive drive, the suggestion asks for the drive time
   * over the limit rounded up, and a split exactly when the drive exceeds one day's limit.
   */
  lemma SplittingIffOverLimit(leg: Leg, maxDailyHours: Option<real>, avgSpeedKmh: real)
    requires avgSpeedKmh != 0.0 && DailyLimit(maxDailyHours) > 0.0
    ensures var hours := Cost.EstimateTravelHours(leg.distanceKm, avgSpeedKmh);
      hours > 0.0 ==> SuggestRouteSplitting(leg, maxDailyHours, avgSpeedKmh).daysNeeded == Ceil(hours / DailyLimit(maxDailyHours))
    ensures SuggestRouteSplitting(leg, maxDailyHours, avgSpeedKmh).requiresSplitting
      <==> Cost.EstimateTravelHours(leg.distanceKm, avgSpeedKmh) > DailyLimit(maxDailyHours)
  {
    var hours := leg.distanceKm / avgSpeedKmh;
    var limit := DailyLimit(maxDailyHours);
    DaysNeededIsCeiling(hours, limit);
    MoreThanOneDayIffOverLimit(hours, limit);
    assert hours == Cost.EstimateTravelHours(leg.distanceKm, avgSpeedKmh);
  }

  /**
   * A leg whose analysed travel time is its drive at `avgSpeedKmh` is compliant exactly
   * when the splitting suggestion does not ask for a split.
   */
  lemma CompliantIffNoSplit(analysis: LegAnalysis, maxDailyHours: Option<real>, avgSpeedKmh: real)
    requires avgSpeedKmh != 0.0 && DailyLimit(maxDailyHours) > 0.0
    requires analysis.travelHours == Cost.EstimateTravelHours(analysis.leg.distanceKm, avgSpeedKmh)
    ensures analysis.travelHours <= DailyLimit(maxDailyHours)
      <==> !SuggestRouteSplitting(analysis.leg, maxDailyHours, avgSpeedKmh).requiresSplitting
  {
    SplittingIffOverLimit(analysis.leg, maxDailyHours, avgSpeedKmh);
  }

  // ---------------------------------------------------------------------------
  // Fleet-size scenarios

  /** The optimiser's report for each fleet size to try; a repeated size keeps one entry. */
  method CalculateOptimizationScenarios(legs: seq<Leg>, fleetSizes: seq<int>, params: CostParams)
    returns (scenarios: Option<map<int, OptimizationResult>>)
    requires |fleetSizes| > 0 ==> (|legs| >= 1 ==> params.avgSpeedKmh != 0.0) && ProportionsDefined(legs)
    ensures scenarios.Some? <==> forall size :: size in fleetSizes ==> FleetCostsValid(legs, size, params)
    ensures scenarios.Some? ==> forall size :: size in scenarios.value <==> size in fleetSizes
    ensures scenarios.Some? ==> forall size :: size in scenarios.value ==> scenarios.value[size] == FleetResult(legs, size, params)
  {
    var found: map<int, OptimizationResult> := map[];
    for k := 0 to |fleetSizes|
      invariant forall size :: size in found <==> size in fleetSizes[..k]
      invariant forall size :: size in fleetSizes[..k] ==> FleetCostsValid(legs, size, params)
      invariant forall size :: size in found ==> found[size] == FleetResult(legs, size, params)
    {
      var size := fleetSizes[k];
      assert fleetSizes[..k + 1] == fleetSizes[..k] + [size];
      var result := OptimizeFleetAllocation(legs, size, params);
      if result.None? {
        return None;
      }
      found := found[size := result.value];
    }
    assert fleetSizes[..|fleetSizes|] == fleetSizes;
    scenarios := Some(found);
  }
}
