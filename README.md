# f1ops logistics core in Dafny

f1ops estimates what it costs, and how much CO2e it emits, to move a Formula 1 team's
freight by truck from one race to the next across a season. This project models its
core and proves properties of the model:

- **data models**: circuits, race events, legs, cost and emissions breakdowns, leg and
  season analyses, optimisation results. Each has its field bounds and derived values.
- **cost**: the per-leg cost formula (fuel, driver wages, tolls, a fixed fee), season
  totals, travel time, cost per km, the minimum truck count, and truck-count scenarios.
- **emissions**: road and air CO2e per leg, season totals, emissions per km, the three
  transport-mode scenarios, and the carbon-offset price.
- **geo**: leg distances. The road-routing (OSRM) answer is used when routing is
  enabled and the answer is usable; otherwise the analytic distance is used. Also the
  chain of legs joining consecutive races, and the bounding box and centre of a set of
  circuits.
- **optimisation**: the per-leg sweep over truck counts; the greedy split of a fixed
  fleet across legs, longest first, with its saving against an even split; driver-hour
  compliance; multi-day route splitting; and fleet-size scenarios.

Python floats are exact `real`s. `round(x, 2)` is `Numeric.Round2`, which rounds halves
up. `int(x)` truncates toward zero (`Numeric.Trunc`). Float `//` and `%` are
`Numeric.FloorDiv` and `Numeric.FloorMod`. Pydantic validation is a `New…` function
that answers `None` where construction raises. An operation that builds cost or
emissions breakdowns answers an `Option` as well: `None` exactly when one of the
breakdowns it builds has a negative component, which is where the Python raises a
validation error. Divisions that can raise
`ZeroDivisionError` carry a precondition saying the divisor is non-zero. The routing
service and the analytic (geodesic) distance are function-typed parameters. Callers
pass the configuration defaults (`Config.DefaultCostParams` and so on) where the Python
functions substitute them for a missing `params`.

Modules, leaf first: `Wrappers` (Option), `Numeric`, `Config`, `DataModels`, `Cost`,
`Emissions`, `Geo`, `Ranking` (Python's stable `sorted(..., reverse=True)` over leg
indices) and `Optimize`.

The greedy fleet split follows the code as written. With at least one leg and at least
as many trucks as legs, every leg gets at least one truck and the counts add up to the
fleet (`Optimize.FleetAllocationCounts`). With fewer trucks than legs, the cap at
src/f1ops/optimize.py:94 can give a leg 0 trucks or a negative count, although the
comment on line 91 says every leg gets at least one. That behaviour is kept here, and
`Optimize.SingleTruckLeavesLongLegEmpty` shows one truck over two legs leaving the 600 km
leg with none. A negative count gives that leg a negative fuel cost, so building its
cost breakdown raises. `Optimize.EmptyFleetRejected` shows this for a fleet of 0, where
`Optimize.OptimizeFleetAllocation` answers `None`.

## Model

| member | source | states |
|---|---|---|
| Numeric.Round2 | src/f1ops/cost.py:47-50 | `round(x, 2)`: the result is a whole number of cents within half a cent of x, and is not negative when x is not |
| Numeric.Round2Unique | src/f1ops/cost.py:47-50 | any whole-cent value within half a cent of x (below inclusive) is the rounding of x |
| Numeric.Round2Monotone | src/f1ops/optimize.py:113-116 | rounding never reverses the order of two amounts |
| Numeric.Round2OfCents | src/f1ops/cost.py:83-88 | rounding an amount that is already whole cents leaves it unchanged |
| Numeric.Round2Positive | src/f1ops/data_models.py:145-148 | a rounded amount is positive exactly when the raw amount is at least half a cent |
| Numeric.CentsAdd | src/f1ops/cost.py:78-81 | the sum of two whole-cent amounts is whole cents |
| Numeric.CentsSub | src/f1ops/optimize.py:109 | the difference of two whole-cent amounts is whole cents |
| Numeric.SumOfCents | src/f1ops/optimize.py:107 | a sum of whole-cent amounts is whole cents |
| Numeric.Trunc | src/f1ops/optimize.py:93 | `int(x)` on a float: the integer part, toward zero, from either side |
| Numeric.FloorDiv | src/f1ops/optimize.py:165 | float `//`: the greatest integer not above the quotient |
| Numeric.FloorMod | src/f1ops/optimize.py:166 | float `%`: x equals divisor times `x // y` plus the remainder; the remainder lies in [0, y) for positive y and in (y, 0] for negative y |
| Numeric.IntMax | src/f1ops/optimize.py:74 | integer `max`: no smaller than either argument and equal to one of them |
| Numeric.IntMin | src/f1ops/optimize.py:94 | integer `min`: no greater than either argument and equal to one of them |
| Numeric.Mean | src/f1ops/geo.py:175 | the mean times the count is the sum |
| Numeric.MeanWithinExtremes | src/f1ops/geo.py:172-175 | the mean of a non-empty list lies between its minimum and maximum |
| Numeric.Min | src/f1ops/geo.py:156 | `min`: an element of the list, no greater than any element |
| Numeric.Max | src/f1ops/geo.py:156 | `max`: an element of the list, no smaller than any element |
| Numeric.SumBounds | src/f1ops/data_models.py:118-121 | each element between lo and hi puts the sum between n*lo and n*hi |
| Numeric.SumNonNegative | src/f1ops/cost.py:78-81 | a sum of non-negative amounts is non-negative |
| Config.DefaultsAreSound | src/f1ops/config.py:36-60 | the default cost and emissions parameters are non-negative, with a positive speed and an air share in [0, 1]; the default daily limit of 9 h is positive |
| DataModels.NewCircuit | src/f1ops/data_models.py:9-23 | a circuit is built exactly when latitude is in [-90, 90] and longitude in [-180, 180], keeping every field |
| DataModels.LatitudeOutOfRangeRejected | src/f1ops/data_models.py:15 | latitude 100 is rejected, latitude 45 accepted |
| DataModels.NewRaceEvent | src/f1ops/data_models.py:26-40 | a race event is built exactly when the season is in 1950..2100 and the round is at least 1 |
| DataModels.Leg.LegName | src/f1ops/data_models.py:51-54 | the origin city, then the five characters " \u00e2\u2020\u2019 " (`DataModels.LegNameSeparator`), then the destination city. Those five characters are how the right arrow is stored in the source file: its UTF-8 bytes, each read as a Windows-1252 character |
| DataModels.NewLeg | src/f1ops/data_models.py:43-49 | a leg is built exactly when its distance is not negative, keeping every field |
| DataModels.CostBreakdown.TotalCostEur | src/f1ops/data_models.py:65-73 | a valid breakdown's total is non-negative and no smaller than any component |
| DataModels.NewCostBreakdown | src/f1ops/data_models.py:57-63 | a breakdown is built exactly when all four components are non-negative |
| DataModels.CostTotalRoundTrip | src/f1ops/data_models.py:65-73 | the total of a built breakdown is the sum of the four amounts it was built from |
| DataModels.EmissionsBreakdown.TotalCo2eKg | src/f1ops/data_models.py:82-85 | a valid total is no smaller than either part; with no air part it is the road part |
| DataModels.EmissionsBreakdown.TotalCo2eTonnes | src/f1ops/data_models.py:87-90 | tonnes times 1000 is the total in kg |
| DataModels.NewEmissionsBreakdown | src/f1ops/data_models.py:76-80 | built exactly when both parts are non-negative |
| DataModels.EmissionsTotalRoundTrip | src/f1ops/data_models.py:82-90 | the totals of a built breakdown are road + air in kg, and that over 1000 in tonnes |
| DataModels.NewLegAnalysis | src/f1ops/data_models.py:93-100 | built exactly when travel hours are non-negative and at least one truck is used |
| DataModels.LegSource.LegOf | src/f1ops/cost.py:75 | a leg analysis contributes its leg; a plain leg contributes itself |
| DataModels.SeasonAnalysis.NumLegs | src/f1ops/data_models.py:113-116 | the number of leg analyses |
| DataModels.SeasonAnalysis.AvgLegDistanceKm | src/f1ops/data_models.py:118-121 | with legs, the average times the count is the total distance; with none, the total itself |
| DataModels.AvgLegDistanceBetweenExtremes | src/f1ops/data_models.py:118-121 | when the total is the sum of the leg distances, the average lies between the shortest and the longest leg |
| DataModels.OptimizationResult.IsImproved | src/f1ops/data_models.py:145-148 | a result is improved when its rounded saving is positive |
| Cost.LegCost | src/f1ops/cost.py:26-51 | the breakdown the formula builds, before validation: every component is whole cents; with sound parameters, a non-negative distance and truck count, the breakdown is valid |
| Cost.RawFuelCost | src/f1ops/cost.py:29-31 | fuel before rounding: distance over 100 times litres per 100 km, trucks and the fuel price |
| Cost.RawLaborCost | src/f1ops/cost.py:34-38 | wages before rounding: drive hours times trucks, two drivers per truck and the hourly wage |
| Cost.RawTollCost | src/f1ops/cost.py:41 | tolls before rounding: distance times the per-km toll and trucks |
| Cost.CalculateLegCost | src/f1ops/cost.py:46-51 | `None` exactly when the formula's breakdown has a negative component; otherwise that breakdown; never `None` with sound parameters, a non-negative distance and truck count |
| Cost.NegativeTruckCountRejected | src/f1ops/cost.py:29-31 | a truck count of -1 on a 600 km leg gives fuel cost -270 and the breakdown is rejected |
| Cost.RawCostsNonNegative | src/f1ops/cost.py:29-41 | the unrounded fuel, labour and toll costs are non-negative under sound parameters |
| Cost.FixedCostIndependentOfLegAndTrucks | src/f1ops/cost.py:44 | the fixed fee is the same for every leg and truck count |
| Cost.ZeroDistanceCostsOnlyFixed | src/f1ops/cost.py:26-51 | a zero-length leg costs only the fixed fee |
| Cost.RawFuelMonotone | src/f1ops/cost.py:29-31 | fuel cost grows with distance and truck count |
| Cost.RawLaborMonotone | src/f1ops/cost.py:34-38 | labour cost grows with distance and truck count |
| Cost.RawTollMonotone | src/f1ops/cost.py:41 | toll cost grows with distance and truck count |
| Cost.LegCostMonotone | src/f1ops/cost.py:26-51 | a longer leg or more trucks never costs less, component by component and in total |
| Cost.AddCostTotal | src/f1ops/cost.py:78-81 | adding two breakdowns adds their totals and keeps them valid |
| Cost.AddCostAssociative | src/f1ops/cost.py:78-81 | the running totals may be grouped either way |
| Cost.RoundCost | src/f1ops/cost.py:83-88 | rounding each season total gives whole cents and keeps a valid breakdown valid |
| Cost.LegCosts | src/f1ops/cost.py:73-76 | one leg cost per item, each the cost of the item's leg |
| Cost.SeasonCost | src/f1ops/cost.py:54-88 | `None` exactly when some leg's breakdown is rejected; otherwise the loop's four running totals, rounded, equal the rounded sum of the per-leg costs |
| Cost.SumCostsAppend | src/f1ops/cost.py:73-81 | the sum over two lists of legs joined is the sum over each, added |
| Cost.SumCostsOfCents | src/f1ops/cost.py:78-81 | summing whole-cent breakdowns gives whole cents, and valid ones give a valid sum |
| Cost.SumCostsTotal | src/f1ops/cost.py:78-81 | the total of the summed breakdown is the sum of the leg totals |
| Cost.SeasonCostIsSumOfLegs | src/f1ops/cost.py:68-88 | the season rounding changes nothing, its total is the sum of the leg totals, and no legs give zero cost |
| Cost.SeasonCostValid | src/f1ops/cost.py:83-88 | with sound parameters and non-negative distances and truck count, the season breakdown is valid |
| Cost.RoundCostOfCents | src/f1ops/cost.py:83-88 | rounding a whole-cent breakdown leaves it unchanged |
| Cost.EstimateTravelHours | src/f1ops/cost.py:91-102 | hours times speed is the distance; non-negative for a non-negative distance at positive speed |
| Cost.EightHundredKmAtEightyTakeTenHours | src/f1ops/cost.py:91-102 | 800 km at 80 km/h take 10 h |
| Cost.CostPerKm | src/f1ops/cost.py:105-118 | zero for a zero distance; otherwise per-km cost times distance is the total |
| Cost.OptimizeTruckCount | src/f1ops/cost.py:121-137 | at least one truck; with positive capacity, enough trucks for the freight and no more than needed |
| Cost.CompareScenarios | src/f1ops/cost.py:140-157 | `None` exactly when the leg's breakdown at some requested truck count is rejected; otherwise one entry per requested count, each the leg cost at that count |
| Emissions.LegEmissions | src/f1ops/emissions.py:26-49 | the breakdown the formula builds, before validation: both parts are whole hundredths of a kg; with sound parameters and non-negative inputs, the breakdown is valid |
| Emissions.RawRoadCo2eKg | src/f1ops/emissions.py:30-32 | road emissions before rounding: grams per km times distance and trucks, in kg |
| Emissions.RemainingRoadCo2eKg | src/f1ops/emissions.py:44-45 | road emissions scaled by the share of freight that is not flown |
| Emissions.RawAirCo2eKg | src/f1ops/emissions.py:38-42 | air emissions before rounding: grams per tonne-km times distance and the flown tonnes, in kg |
| Emissions.CalculateLegEmissions | src/f1ops/emissions.py:47-49 | `None` exactly when the formula's breakdown has a negative part; otherwise that breakdown; never `None` with sound parameters and non-negative inputs |
| Emissions.AirShareAboveOneRejected | src/f1ops/emissions.py:38-45 | an air share of 2 leaves road emissions of -85 kg on a 100 km leg, and the breakdown is rejected |
| Emissions.RawEmissionsNonNegative | src/f1ops/emissions.py:29-45 | unrounded road, reduced road and air emissions are non-negative under sound parameters |
| Emissions.NoAirShareMeansAllRoad | src/f1ops/emissions.py:35-48 | with no air share there are no air emissions and the total is the rounded road figure |
| Emissions.AirShareSplitsFreight | src/f1ops/emissions.py:38-45 | with an air share, air emissions cover that share of the freight and road emissions shrink by it |
| Emissions.AllAirLeavesNoRoad | src/f1ops/emissions.py:38-45 | flying all the freight leaves no road emissions |
| Emissions.AddEmissionsTotal | src/f1ops/emissions.py:77-78 | adding two breakdowns adds their totals and keeps them valid |
| Emissions.AddEmissionsAssociative | src/f1ops/emissions.py:77-78 | the running totals may be grouped either way |
| Emissions.RoundEmissions | src/f1ops/emissions.py:80 | rounding gives whole hundredths and keeps a valid breakdown valid |
| Emissions.LegEmissionsList | src/f1ops/emissions.py:70-75 | one leg's emissions per item, each for the item's leg |
| Emissions.SeasonEmissions | src/f1ops/emissions.py:52-80 | `None` exactly when some leg's breakdown is rejected; otherwise the loop's two running totals, rounded, equal the rounded sum of the per-leg emissions |
| Emissions.SumEmissionsAppend | src/f1ops/emissions.py:70-78 | the sum over two lists joined is the sum over each, added |
| Emissions.SumEmissionsOfCents | src/f1ops/emissions.py:77-78 | summing whole-hundredth breakdowns gives whole hundredths, and valid ones a valid sum |
| Emissions.SumEmissionsTotal | src/f1ops/emissions.py:77-78 | the total of the summed breakdown is the sum of the leg totals |
| Emissions.RoundEmissionsOfCents | src/f1ops/emissions.py:80 | rounding a whole-hundredth breakdown leaves it unchanged |
| Emissions.SeasonEmissionsIsSumOfLegs | src/f1ops/emissions.py:67-80 | the season rounding changes nothing, its total is the sum of the leg totals, and no legs give zero |
| Emissions.SeasonEmissionsValid | src/f1ops/emissions.py:80 | with sound parameters and non-negative inputs, the season breakdown is valid |
| Emissions.EmissionsPerKm | src/f1ops/emissions.py:83-96 | zero for a zero distance; otherwise per-km emissions times distance is the total |
| Emissions.WithAirShare | src/f1ops/emissions.py:129-144 | a copy of the default parameters with only the air share replaced |
| Emissions.ModeEmissions | src/f1ops/emissions.py:113-147 | the emissions of a leg between two placeholder circuits at the given distance, with only the air share changed |
| Emissions.CompareTransportModes | src/f1ops/emissions.py:99-149 | `None` exactly when the distance is negative or one of the three breakdowns is rejected, and never for non-negative distance, freight and truck count; otherwise keys all_road, all_air, mixed_50, each the leg emissions at that air share; all-road has no air part and all-air no road part |
| Emissions.CarbonOffsetCost | src/f1ops/emissions.py:152-166 | cost times 1000 is kg times the price per tonne; non-negative for non-negative inputs |
| Geo.OsrmDistance | src/f1ops/geo.py:51-59 | a distance comes back exactly for an "Ok" answer whose first route has a distance, and then km times 1000 is that route's metres |
| Geo.ResolveDistance | src/f1ops/geo.py:79-92 | the routed distance and method when routing is on and the answer is usable; the analytic distance otherwise |
| Geo.LegBetween | src/f1ops/geo.py:94-99 | the leg between the circuits at the resolved distance, rounded, built through leg validation |
| Geo.CalculateLegDistance | src/f1ops/geo.py:62-99 | the leg joins the two given circuits, with the distance and method chosen by the routing-or-fallback rule, rounded |
| Geo.NoRoutingUsesAnalyticDistance | src/f1ops/geo.py:79-92 | with routing off, the service is never consulted and the leg uses the rounded analytic distance; a non-negative analytic distance always yields a leg |
| Geo.RoutingAnswerOrFallback | src/f1ops/geo.py:82-92 | with routing on, a usable answer gives a routed leg with that distance, and an unusable answer gives the same leg as routing off |
| Geo.BuildSeasonLegs | src/f1ops/geo.py:102-124 | fewer than two races give no legs; otherwise one leg per consecutive pair of races, in order, each joining race i to race i+1, consecutive legs chained; the build fails exactly when some pair's leg cannot be made |
| Geo.BoundingBox | src/f1ops/geo.py:140-156 | all zeros for no circuits; otherwise the corners are ordered, every circuit lies inside, and each bound is some circuit's coordinate |
| Geo.CenterPoint | src/f1ops/geo.py:159-175 | (0, 0) for no circuits; otherwise each coordinate times the count is the sum of that coordinate |
| Geo.CenterInsideBoundingBox | src/f1ops/geo.py:140-175 | the centre point lies inside the bounding box |
| Ranking.Range | src/f1ops/optimize.py:81-82 | the indices 0..n-1 in order |
| Ranking.InsertContents | src/f1ops/optimize.py:81-83 | insertion adds exactly the new index |
| Ranking.InsertRanked | src/f1ops/optimize.py:81-83 | inserting into a ranked order keeps it ranked |
| Ranking.RankPrefixFacts | src/f1ops/optimize.py:81-83 | ranking the first n indices yields a permutation of them in ranked order |
| Ranking.RankDescending | src/f1ops/optimize.py:81-83 | a permutation of the indices, each placed before every later one: longer first, equal lengths in original order (stable sort, reversed key) |
| Ranking.RankingUnique | src/f1ops/optimize.py:81-83 | two ranked permutations of the same indices are equal, so the ranking is the only such order |
| Optimize.BestCount | src/f1ops/optimize.py:37-47 | `None` exactly when the breakdown at some count of the range is rejected; otherwise, for a non-empty range, the chosen count has the least cost per truck and every smaller count costs strictly more per truck (first minimiser); an empty range gives the lower bound |
| Optimize.SweepValidForNonNegativeCounts | src/f1ops/optimize.py:40-41 | with sound parameters, a non-negative distance and a range of non-negative counts, no breakdown of the sweep is rejected |
| Optimize.NegativeSweepRejected | src/f1ops/optimize.py:40-41 | a sweep over the count -1 alone is rejected |
| Optimize.GreedyTruckAllocation | src/f1ops/optimize.py:10-51 | `None` exactly when some leg's sweep is rejected; otherwise keys are exactly the leg indices, each value that leg's best count in the range, or the minimum when the range is empty |
| Optimize.Distances | src/f1ops/optimize.py:82 | the legs' distances, in calendar order |
| Optimize.BaselineTrucks | src/f1ops/optimize.py:74 | at least one truck per leg; with at least as many trucks as legs, the even split fits the fleet and uses all but fewer than n trucks |
| Optimize.EvenAllocation | src/f1ops/optimize.py:74-77 | every leg index, and nothing else, gets the baseline count |
| Optimize.FleetCost | src/f1ops/optimize.py:75-78 | the summed leg totals when each leg runs its allocated trucks |
| Optimize.AllocatedLegCosts | src/f1ops/optimize.py:103-106 | one breakdown per leg, in leg order, each the leg cost at that leg's allocated count |
| Optimize.ProportionalShare | src/f1ops/optimize.py:92-93 | a leg's share of the fleet in proportion to its distance, truncated toward zero |
| Optimize.AllocationStep | src/f1ops/optimize.py:90-97 | while more than one leg is open, the share (at least one) capped so later legs can get one each; the last leg takes what is left, at least one |
| Optimize.FleetAllocation | src/f1ops/optimize.py:85-100 | the allocation the loop builds, legs visited longest first |
| Optimize.Priorities | src/f1ops/optimize.py:81-83 | the legs' visiting order is a permutation of the leg indices ranked by descending distance |
| Optimize.PrioritiesDistinct | src/f1ops/optimize.py:89 | no leg is visited twice |
| Optimize.PrioritiesAreLegIndices | src/f1ops/optimize.py:89 | the loop visits exactly the leg indices |
| Optimize.AllocateFromKeys | src/f1ops/optimize.py:89-100 | the rest of the loop adds exactly the legs still to visit |
| Optimize.FleetAllocationKeys | src/f1ops/optimize.py:85-100 | every leg index gets a count, and nothing else does |
| Optimize.TrucksOnPermutation | src/f1ops/optimize.py:89-100 | the trucks handed out do not depend on the order the legs are listed in |
| Optimize.TrucksForLeg | src/f1ops/optimize.py:90-97 | the trucks one pass gives a leg: while other legs are open, its proportional share, at least one and capped so every later leg can still get one; on the last open leg, everything left but at least one |
| Optimize.AllocationStepBounds | src/f1ops/optimize.py:90-97 | with at least one truck left per open leg, a pass gives at least one truck, keeps one for every leg still open after it, and on the last leg hands out all that is left |
| Optimize.GiveKeeps | src/f1ops/optimize.py:99-100 | recording a count of at least one for the next leg and taking it off the remaining trucks keeps the loop invariant |
| Optimize.AllocationStepKeeps | src/f1ops/optimize.py:90-100 | one pass keeps at least one truck per open leg, at least one per visited leg, and handed-out plus remaining equal to the fleet |
| Optimize.AllocateFromCounts | src/f1ops/optimize.py:86-100 | from any state with that invariant, the loop ends with every visited leg holding a count, every count at least one, and the counts summing to the fleet |
| Optimize.FleetAllocationCounts | src/f1ops/optimize.py:86-100 | with at least one leg and at least as many trucks as legs, every leg gets at least one truck and the counts sum to the fleet |
| Optimize.AllocateFleet | src/f1ops/optimize.py:85-100 | the loop's allocation is the specified fold over the legs, longest first |
| Optimize.FleetCostsValidWithEnoughTrucks | src/f1ops/optimize.py:73-106 | with sound parameters, non-negative distances and at least as many trucks as legs, no breakdown of either split is rejected |
| Optimize.EmptyFleetRejected | src/f1ops/optimize.py:94 | with no trucks, 300 km and 600 km legs get 1 and -1 trucks, and the greedy split's breakdowns are rejected |
| Optimize.SavingsReport | src/f1ops/optimize.py:109-116 | the report on two totals; it counts as improved exactly when the saving is at least half a cent |
| Optimize.FleetResult | src/f1ops/optimize.py:102-119 | the report on the even and the greedy split of the fleet |
| Optimize.OptimizeFleetAllocation | src/f1ops/optimize.py:54-119 | `None` exactly when a leg breakdown of the even or the greedy split is rejected; otherwise the report on the two splits: both totals, their difference and the percentage, rounded, with the fleet size and allocation |
| Optimize.LegTotalIsCents | src/f1ops/cost.py:46-51 | a leg's total is whole cents |
| Optimize.FleetCostIsCents | src/f1ops/optimize.py:75-78 | the summed leg totals of any allocation are whole cents |
| Optimize.SavingsReportOfCents | src/f1ops/optimize.py:109-115 | on whole-cent totals the report repeats both totals exactly and its saving is exactly their difference |
| Optimize.SavingsPercentInRange | src/f1ops/optimize.py:110-116 | a saving on a positive baseline that leaves a non-negative cost is between 0 and 100 percent |
| Optimize.FleetResultIsExact | src/f1ops/optimize.py:102-119 | the reported original and optimised costs are the exact baseline and greedy totals, and the saving is exactly their difference |
| Optimize.FleetResultImprovedIffCheaper | src/f1ops/optimize.py:109-115 | the report counts as improved exactly when the greedy split is cheaper than the even one |
| Optimize.FleetResultPercentInRange | src/f1ops/optimize.py:110-116 | with a positive baseline and a greedy total between 0 and the baseline, the percentage is in [0, 100] |
| Optimize.NoLegsNoCost | src/f1ops/optimize.py:74-119 | no legs give zero costs, zero saving, zero percent and an empty allocation |
| Optimize.FleetResultAllocatesWholeFleet | src/f1ops/optimize.py:112-119 | the recorded allocation, with at least as many trucks as legs, gives every leg at least one truck and sums to the recorded fleet size |
| Optimize.ShortAndLongLegPriorities | src/f1ops/optimize.py:81-83 | for legs of 300 km and 600 km, the 600 km leg comes first |
| Optimize.ProportionalSplitExample | src/f1ops/optimize.py:89-100 | 300 km and 600 km legs with a fleet of 12 get 4 and 8 trucks |
| Optimize.SingleTruckLeavesLongLegEmpty | src/f1ops/optimize.py:94 | with one truck over those two legs, the cap leaves the 600 km leg with 0 trucks and the other with 1 |
| Optimize.DailyLimit | src/f1ops/optimize.py:135-136 | the given limit, or 9 h when none is given |
| Optimize.CheckDriverHoursCompliance | src/f1ops/optimize.py:122-144 | keys are exactly the leg indices; each is true exactly when that leg's hours are within the limit |
| Optimize.DaysNeeded | src/f1ops/optimize.py:165-167 | whole days of the limit in the hours, plus one for any remainder |
| Optimize.DaysNeededIsCeiling | src/f1ops/optimize.py:165-167 | for a positive limit, days needed is hours over the limit rounded up, so the hours fit in that many days and not in one fewer |
| Optimize.MoreThanOneDayIffOverLimit | src/f1ops/optimize.py:165-174 | more than one day is needed exactly when the hours exceed the limit |
| Optimize.DaysBounds | src/f1ops/optimize.py:165-174 | a day count bracketing the hours exceeds one exactly when the hours exceed one limit |
| Optimize.SuggestRouteSplitting | src/f1ops/optimize.py:147-176 | keeps the leg's name and distance; the travel time is the drive time rounded to cents; at least one day; splitting exactly when more than one day; stops are days minus one |
| Optimize.SplittingIffOverLimit | src/f1ops/optimize.py:164-176 | for a positive drive, days needed is the drive over the limit rounded up; a split is asked for exactly when the drive exceeds the limit |
| Optimize.CompliantIffNoSplit | src/f1ops/optimize.py:141 | a leg whose recorded hours are its drive time is compliant exactly when no split is suggested |
| Optimize.SimpleLpOptimization | src/f1ops/optimize.py:201-217 | the greedy fleet report for the given number of trucks with the default cost parameters, named greedy_fleet_allocation and recording its allocation; `None` exactly when that report is rejected |
| Optimize.CalculateOptimizationScenarios | src/f1ops/optimize.py:179-198 | `None` exactly when the report for some requested fleet size is rejected; otherwise one entry per requested size, each the optimiser's report at that size |

## Left out

- src/f1ops/app.py, src/f1ops/viz.py: dashboard and plotting, UI only.
- src/f1ops/forecast.py: time-series fitting over a foreign library, with random noise and file writes.
- src/f1ops/data_loader.py: CSV reading and file-system access. Its output, a validated calendar of race events, is the input of `Geo.BuildSeasonLegs`.
- scripts/: network fetches, CSV writing and notebook execution.
- src/f1ops/config.py: directory creation and environment lookups are I/O. Only the default numbers are transcribed. The unused cost keys `num_trucks` and `load_weight_kg` and the unused driver-hour limits other than the daily one are not modelled.
- `haversine_distance` (src/f1ops/geo.py:12-23) calls the geodesy library's ellipsoidal distance. It is a parameter (`Geo.DistanceFn`), and nothing is assumed about its symmetry or exact values.
- `osrm_distance` request building, HTTP call and logging (src/f1ops/geo.py:40-50, 57-59): any failure is the `NoAnswer` response. Only the accept/reject rule on the decoded payload is modelled.
- `Circuit`'s `isinstance` check (src/f1ops/data_models.py:18-23): the types already guarantee numbers.
- `TeamProfile` (src/f1ops/data_models.py:124-132): no modelled operation uses it.
- The `params=None` branches: callers pass `Config.DefaultCostParams` or `Config.DefaultEmissionsParams` explicitly.
- Default argument values: callers pass every argument. The Python defaults are 8 trucks per leg (leg and season cost and emissions, the transport-mode comparison, `simple_lp_optimization`), 120 t of freight, a 20 t truck, 80 km/h for travel time and route splitting, 4..12 trucks for the sweep, a fleet of 12, and an offset price of 20 EUR per tonne.
- Numeric.Round2: rounds halves up on exact reals. Python rounds the nearest binary float half-to-even, so results can differ by one cent on exact ties.
- IEEE floating point (overflow, NaN, inexact sums): all arithmetic is exact.
- Division by zero: where Python raises `ZeroDivisionError` (zero speed, zero capacity, zero total distance with two or more legs, a truck-count range containing 0, a zero daily limit) the model requires a non-zero divisor instead of modelling the exception.
- Optimize.OptimizeFleetAllocation: the proportional share is computed by `Optimize.ProportionalShare`, the same expression as src/f1ops/optimize.py:92-93.
- Geo.CalculateLegDistance: a leg whose rounded distance is negative, which raises a validation error in Python, is `None`, and `Geo.BuildSeasonLegs` then returns `None` for the whole calendar.
