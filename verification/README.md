# Verification of the electric-vehicle routing solver

This project models the algorithmic core of an iterated-local-search and set-partitioning solver for electric vehicle
routing with nonlinear charging, and proves what that core promises. Almost every component of the solver is a fast
form of something simple: a charging kernel over station legs that must agree with the kernel over all nodes, move
scorers that stitch views of one shared array, pruned searches that must return the exhaustive answer, caches that must
not change a choice, and state machines with indexes, budgets and protected entries. The proofs connect each fast form
to its simple one, for every input.

`dafny verify dfyconfig.toml` checks everything (Dafny 4.11).

## How the model is laid out

* **Charging and evaluation.** `Curves` and `CurveOrder` are the piecewise-linear charging curves. `Charging` defines
  one greedy purchase (`Fill`), one leg (`Reach`) and a whole walk (`Run`) over `real`, with the termination measure of
  the greedy loop. `ChargingSplit` shows that splitting a purchase never changes the station the greedy choice picks,
  `ChargingCollapse` that customers between stations can be folded away, `ChargingLaws` that a walk conserves energy
  and stays inside the battery. `Kernels` and `Evaluation` hold both imperative kernels over `arrival` and `departure`
  arrays, `Labels`, `Canonical` and `RouteCosts` the route labels, and `Replay` and `RouteEvaluators` the schedules.
  `RouteCosts.KernelsAgree` is the main result: over concave curves both kernels cost every route alike;
  `ConvexCurves` shows that they do so for concave curves only.
* **Scoring edits.** `LabelTrees` is the segment tree of labels, `PhysicalScorer` the prefix and suffix views over one
  shared, overwritten array, `RouteEdits` the five edit scorers, `InsertionSlots` the slots that share a score.
* **Bounds and fixed-route paths.** `LowerBound` is the analytic bound of a customer order and its certificates.
  `PathDistances`, `PathDominance`, `PathTrees`, `PathEnumeration` and `PathSearch` are the reverse shortest paths, the
  dominance set and the pruned depth-first search of the fixed-route model, `RouteFilters` its feasibility filters.
  `Walks` collects what any walk of a schedule costs at least.
* **The path catalogue.** `CatalogOrder`, `CatalogShelves`, `Catalog`, `StationMasks`, `CatalogBuilder`,
  `CatalogRanking`, `CompleteCatalog` and `PackedPaths` build the catalogue of one anchor pair; `CatalogHorizon`
  says which paths of feasible routes pass its horizon test. `ToleranceDrift` shows, for the catalogue and for the
  fixed-route model, what a dominance tolerance does to three stations in the plane.
* **Search.** `Insertion` (best-first greedy and two-regret selection), `PlanNodes`, `ReplacementBounds`,
  `ReplacementBand` and `Replacement` (pruned path replacement), `JointMoves`, `JointRepair`, `JointRepairRun` and
  `JointDestroy` (destroy and repair of customers and station visits), `GapSelector` and `Descent` (the neighbourhood
  loop with its proposal budget), `Partitions` (the final check of a solution).
* **The pool.** `PoolRanks` and `Pool` are the two-tier route pool with its coverage index.

Doubles are exact reals. Energy, time and rate tolerances are zero; the tolerances that take part in a decision keep
their place: the cost tolerance, the safety margin of linked bounds, the pool's tolerance, and the tolerances of
dominance and of the path enumeration, which are parameters. Curves are strictly increasing in time and energy and
distances form a metric where the source relies on it. Randomness becomes an arbitrary choice.

## Where the code and its promises part

* Dominance with a positive tolerance is not transitive. `ToleranceDrift.ToleranceDrifts` is a gap of the plane, for
  every positive tolerance, whose search makes the filter lose a path without a representative;
  `ToleranceDrift.NumberingMatters` is an anchor pair whose catalogue holds one station path or two, depending on how
  the same stations are numbered. The exact conditions are on the paths: every choice and order of offers stays
  represented exactly when no three of the paths drift (`PathDominance.CoverageExactly`), and the order of proposals
  never matters exactly when beating is transitive on them (`CatalogOrder.OrderIndependenceExactly`). Both hold
  without a tolerance, and with one as long as no two first legs, last legs or travels differ by more than zero and at
  most the tolerance (`PathDominance.SpacedNoDrift`, `CatalogOrder.SpacedTransitive`).
* `protect_partition` records its keys before it converts the plans. A plan the conversion rejects interrupts it:
  `Pool.InterruptionKeeps` states exactly when all protected keys are in main all the same: when the plans from the
  refused one on had their keys there before. A pool keyed by customer sequences never meets that
  (`Pool.InterruptionLosesAKey`), one keyed by customer sets may (`Pool.InterruptionSparesCoverage`).
  `Pool.InterruptionOverfills` leaves main above its capacity. `Pool.RoutePool.ProtectPartition` states exactly when
  protection completes.
* `charging_curve_no_slower` compares durations between neighbouring breakpoints. It never rejects a curve that is no
  slower, but between curves of one capacity it can accept one that is: `CurveOrder.WaitingDefeatsTheCheck` is a curve
  with a pause. `CurveOrder.CheckDecides` states exactly when it is right to accept: when at every breakpoint the
  pause is no longer and up to the next one the pace no slower. On curves that gain energy on every segment it always
  is (`CurveOrder.StrictCurvesAreDecided`).
* The horizon test of the catalogue adds the service time of both anchors, and the evaluators count customers only.
  `CatalogHorizon.DepotServiceMisleads` is a depot with a service time, and a feasible route to its one customer whose
  path between the two is lost. On feasible routes that guard is the only test that can reject a path
  (`CatalogHorizon.HorizonDecides`), and it rejects none when the anchors' service times are counted ones
  (`CatalogHorizon.FeasibleIsEligible`).
* The kernels agree for concave curves (`RouteCosts.KernelsAgree`): the greedy choice is stable under splitting
  because charging never speeds up. The curve class accepts others, and for each of those the kernels part:
  `ConvexCurves.KernelsDisagree` builds, for any curve that speeds up somewhere, an instance and a route that the
  station-only kernel charges more for. So agreement on all routes means concave curves
  (`ConvexCurves.ConcaveExactly`).

## Model

| member | source | states |
|---|---|---|
| Curves.TimeAtMonotone | src/core.cpp:31-52 | The inverse charging function never falls, on every accepted curve, including ones with flat segments. |
| Curves.SegmentDuration | src/core.cpp:54-60 | Up to the next breakpoint, charging takes the energy over the marginal rate the kernel reads. |
| Curves.RateFalls | src/core.cpp:62-79 | On a concave curve the marginal rate never grows with the energy. |
| Curves.BreakCrossed | src/core.cpp:81-88 | Charging to the next breakpoint leaves fewer breakpoints ahead: the progress behind termination. |
| CurveOrder.NoSlowerExactly | src/core.cpp:31-60 | Charging takes no longer on any interval exactly when at every breakpoint the pause is no longer and up to the next one the pace no slower, on all accepted curves. |
| CurveOrder.ChargingCurveNoSlower | src/core.cpp:90-117 | The check on sorted, merged breakpoints rejects exactly when it meets a slower breakpoint interval within both curves, and otherwise accepts curves of one capacity and leaves the range of the shorter one. |
| CurveOrder.CheckDecides | src/core.cpp:90-117 | The check never rejects a curve that is no slower, and is right to accept exactly when pauses and paces are in order one by one. |
| CurveOrder.StrictCurvesAreDecided | src/core.cpp:90-117 | On curves that gain energy on every segment the check passes exactly when charging takes no longer on every interval. |
| CurveOrder.WaitingDefeatsTheCheck | src/core.cpp:90-117 | The check accepts a curve with a pause that is slower on part of an interval. |
| Partitions.ValidatePartition | src/core.cpp:250-274 | Accepts exactly the solutions whose plans are consistent expansions and serve every customer exactly once. |
| PlanNodes.ExpandRoute | src/core.cpp:276-293 | The expansion interleaves gaps and customers, and is refused exactly when the gaps do not fit. |
| PlanNodes.SplicedLabel | src/search.cpp:3345-3372 | Replacing one gap's path changes the route label to prefix, edge label and suffix, joined. |
| Charging.Fill | src/evaluator.cpp:793-868 | The greedy purchase ends, and stays inside the battery with nonnegative shift and shortfall. |
| Charging.SaleProgress | src/evaluator.cpp:793-868 | Every sale lowers the measure of breakpoints ahead, positions not full and shift left. |
| Kernels.SlackTable | src/evaluator.cpp:804-811 | The backward sweep leaves, for every position, the least room of any later one. |
| Kernels.BestStation | src/evaluator.cpp:813-845 | The scan over the preceding stations finds the same station and amount as the definition over all positions. |
| ChargingSplit.PickIsBest | src/evaluator.cpp:813-845 | The chosen station has the best rate of all that can sell, the latest among equals; none is chosen only if none can sell. |
| Kernels.Sell | src/evaluator.cpp:856-867 | Raising the arrays behind the station is exactly one sale in the walk; later positions keep their relation. |
| Kernels.Settle | src/evaluator.cpp:792-874 | The inner loop on the arrays is one leg of the walk: same energies, shift and shortfall. |
| ChargingSplit.Sticky | src/evaluator.cpp:816-845 | After a part of a sale the same station is still the greedy choice, with the rest still available, on concave curves. |
| ChargingSplit.FillSplit | src/evaluator.cpp:793-868 | Buying a need in two parts is buying it at once: same energies, shift and total shortfall. |
| ChargingCollapse.FillWithout | src/evaluator.cpp:793-868 | A position that sells nothing and limits nothing can be dropped without changing any purchase. |
| ChargingCollapse.MergeTwo | src/evaluator.cpp:404-522 | A customer and the stop behind it walk as one stop with both energies. |
| ChargingCollapse.CollapseKeepsBill | src/evaluator.cpp:404-531 | Folding all customers into the next station keeps shift, shortfall and charging time. |
| ChargingLaws.FillLaws | src/evaluator.cpp:793-868 | A purchase charges exactly what it covers and only at stations, arrivals never exceed departures, no leg changes. |
| ChargingLaws.WalkLaws | src/evaluator.cpp:790-874 | For every walk: 0 <= arrival <= departure <= capacity, energy is conserved up to the shortfall, and without shortfall the trace is physical. |
| Evaluation.EvaluateNodes | src/evaluator.cpp:755-916 | The full-node kernel computes the walk of its stops and its summary. |
| Evaluation.EvaluateData | src/evaluator.cpp:313-547 | The station-only kernel is exact when unbounded; bounded, it returns the exact summary or a true lower bound that meets a limit. |
| Evaluation.PartialShortfallBounds | src/evaluator.cpp:417-429 | The shortfall of any prefix of the walk bounds the final generalized cost from below. |
| Evaluation.CollapseKeepsCost | src/evaluator.cpp:313-547 | Over concave curves the collapsed stops cost what all stops cost, in every field. |
| Labels.ConcatAssociative | src/evaluator.cpp:128-153 | Joining labels is associative, although not commutative. |
| Labels.Accumulator.Append | src/evaluator.cpp:128-153 | Appending in place joins contiguous labels and refuses exactly the others, leaving the left label alone. |
| Labels.EdgeLabel | src/evaluator.cpp:84-126 | The edge label over stations is the label of the stretch, refused exactly when an inner node is no station. |
| Labels.BuildRouteLabel | src/evaluator.cpp:161-171 | Appending edge by edge yields the label of the whole walk from depot to depot. |
| Canonical.MergeLegs | src/evaluator.cpp:324-336 | The two-phase loop drops exactly the repeated legs of supported stations. |
| Canonical.CanonIsClean | src/evaluator.cpp:324-336 | No two neighbouring legs of the result can be merged. |
| Canonical.CanonAgrees | src/evaluator.cpp:716-732 | Dropping repeated legs of a label and dropping repeated visits of a route give the same label. |
| RouteCosts.KernelsAgree | src/evaluator.cpp:161-171 | For concave curves and every route, the station-only kernel on the route label and the full-node kernel agree on every cost field. |
| ConvexCurves.KernelsDisagree | src/evaluator.cpp:411-517 | For every curve that speeds up somewhere there is an instance and a route that the station-only kernel on the route label charges more for than the full-node kernel. |
| ConvexCurves.ConcaveExactly | src/evaluator.cpp:411-517 | A curve is concave exactly when the kernels agree on every route of every instance that offers it and straight curves. |
| Replay.ReplayedIsPhysical | src/evaluator.cpp:644-678 | Whatever schedule is accepted describes a physical trace. |
| Replay.TraceReplays | src/evaluator.cpp:644-678 | Every physical trace, read as a schedule, replays to itself. |
| Replay.EvaluateSchedule | src/evaluator.cpp:613-705 | Accepts exactly the possible schedules and returns their energies and summary. |
| Replay.FeasibleReplays | src/evaluator.cpp:613-705 | Whatever the greedy kernel calls feasible replays to the same energies at the same cost. |
| RouteEvaluators.EvaluateUncached | src/evaluator.cpp:707-916 | The route evaluation, through the quotient by repeated stations; a feasible result's energies are a schedule of the raw route at that cost. |
| RouteEvaluators.LiftedReplays | src/evaluator.cpp:736-753 | Lifting the energies of the compact route to the raw route keeps the schedule and its cost. |
| RouteEvaluators.EvaluateLabel | src/evaluator.cpp:173-180 | A label's evaluation is its station-only cost. |
| RouteEvaluators.EvaluateBounded | src/evaluator.cpp:182-201 | A bounded evaluation returns the exact cost or a lower bound on it that meets a limit. |
| LabelTrees.LabelTree.constructor | src/evaluator.cpp:1443-1455 | The tree holds the leaves and, in every inner node, the join of its children. |
| LabelTrees.LabelTree.Cover | src/evaluator.cpp:1464-1475 | The two-ended climb finds nodes whose left-to-right join is the join of the range, at most 67 on either side, within the 128 slots there. |
| LabelTrees.LabelTree.AppendRange | src/evaluator.cpp:1457-1483 | Appending a range appends the left-to-right fold of its leaves; invalid ranges are refused unchanged. |
| PhysicalScorer.BuildPrefixes | src/evaluator.cpp:1134-1161 | Every prefix view reads as the label of its prefix, although all share one growing array. |
| PhysicalScorer.BuildSuffixes | src/evaluator.cpp:1162-1193 | Every suffix view reads as the label of its suffix, although building later views overwrites the leg they start from. |
| RouteEdits.Stitch | src/evaluator.cpp:256-311 | Copying components into one leg list yields the fold of their labels. |
| RouteEdits.PhysicalRouteScorer.EvaluateInsertion | src/evaluator.cpp:1373-1398 | The score of an insertion is the cost of the route with the customer inserted; refused exactly on bad slots or customers. |
| RouteEdits.PhysicalRouteScorer.EvaluateRemoval | src/evaluator.cpp:1400-1426 | The score of a removal is the cost of the shorter route, and zero for the last customer. |
| RouteEdits.PhysicalRouteScorer.EvaluateReplacement | src/evaluator.cpp:1261-1283 | The score of a replacement is the cost of the route with the customer replaced. |
| RouteEdits.PhysicalRouteScorer.EvaluateSwap | src/evaluator.cpp:1284-1323 | The score of a swap of distant positions is the cost of the swapped route. |
| RouteEdits.PhysicalRouteScorer.EvaluateRelocate | src/evaluator.cpp:1324-1366 | The score of a relocation, in either direction or in place, is the cost of the relocated route. |
| InsertionSlots.CutsAgree | src/evaluator.cpp:1194-1234 | Inside a run of one supported station, inserting before or behind a call costs the same. |
| InsertionSlots.Representatives | src/evaluator.cpp:1235-1246 | The scan over maximal runs marks exactly the slots inside a run of three, each with the representative of the slot before. |
| InsertionSlots.ScorersCertify | src/evaluator.cpp:1194-1246 | Every slot's insertion costs what its representative's costs, whichever comparisons were declined. |
| LowerBound.RateBoundsDuration | src/copt_models.cpp:312-325 | No interval on any curve charges faster than the maximum rate. |
| LowerBound.DirectIsShortest | src/copt_models.cpp:633-656 | Visiting stations in between shortens neither travel nor energy. |
| LowerBound.BoundHolds | src/copt_models.cpp:633-672 | Every accepted schedule of every route with these customers costs at least the bound and serves for its time; an infinite bound leaves none. |
| LowerBound.FeasibleDirectIsOptimal | src/copt_models.cpp:1323-1350 | A feasible all-direct plan costs no more than any accepted schedule of its customers. |
| LowerBound.BoundProvesInfeasible | src/copt_models.cpp:1352-1374 | An infinite bound, or bound plus service above the limit, leaves no feasible schedule. |
| LowerBound.MeetingTheBoundIsOptimal | src/copt_models.cpp:1890-1900 | A replayed plan within the tolerance of the bound is optimal within that tolerance. |
| LowerBound.GreedyMeetsBound | src/copt_models.cpp:1890-1900 | Whatever replays with its own summary, greedy results included, costs at least the bound of its customers. |
| PathDistances.ReverseDistances | src/copt_models.cpp:439-475 | The reverse shortest paths are admissible up to one tolerance per leg, and attained. |
| PathDominance.AddPath | src/copt_models.cpp:392-415 | Adding a path merges duplicates, drops dominated ones and erases what it dominates, required ones excepted. |
| PathDominance.FilterKeeps | src/copt_models.cpp:392-415 | The kept paths are distinct, none not required is dominated by another, and each was offered. |
| PathDominance.RequiredStays | src/copt_models.cpp:392-415 | A required path is never lost. |
| PathDominance.FilterCovers | src/copt_models.cpp:392-415 | Unless offers drift, every offered path is kept or dominated by a kept one, whatever the tolerance. |
| PathDominance.CoverageExactly | src/copt_models.cpp:298-308 | Every sequence of offers drawn from some paths stays represented exactly when no three of the paths drift. |
| PathDominance.SpacedNoDrift | src/copt_models.cpp:298-308 | Paths do not drift without a tolerance, nor with one when no two of their metrics differ by more than zero and at most the tolerance. |
| PathEnumeration.MakePath | src/copt_models.cpp:359-390 | The description of a path: travel, first and last leg, fastest and slowest rank. |
| PathEnumeration.Successors | src/copt_models.cpp:477-502 | The successor list holds exactly the reachable next stations, once each, by completion bound and then by number. |
| PathEnumeration.LegalIsAccepted | src/copt_models.cpp:507-535 | The pruned search accepts every path within the cutoff, with one tolerance per leg to spare. |
| PathEnumeration.AcceptsExactly | src/copt_models.cpp:507-535 | Without tolerance it accepts exactly the duplicate-free paths whose legs fit the battery and whose travel is within the cutoff. |
| PathSearch.PathSearcher.Extend | src/copt_models.cpp:507-541 | The search offers every accepted extension of its path exactly once, depth first by completion bound, and restores path and marks. |
| PathSearch.EnumerateGap | src/copt_models.cpp:417-542 | A gap's paths are the filtered offers: direct, incumbent, and the enumerated ones in the order of the search; an incumbent with an oversized leg is refused. |
| PathSearch.EnumeratedExactly | src/copt_models.cpp:439-542 | The enumerated paths are exactly the legal ones. |
| PathSearch.SurvivorsRepresent | src/copt_models.cpp:392-542 | Unless offers drift, everything found is dominated by a survivor; the incumbent survives in any case, and survivors are distinct and undominated. |
| PathSearch.SpacedRepresent | src/copt_models.cpp:392-542 | Without a tolerance, or with spaced offers, every legal path with one tolerance per leg to spare is dominated by a survivor. |
| ToleranceDrift.FixedSearch | src/copt_models.cpp:439-541 | On three stations of the plane the search finds exactly the three one-station paths, in one order. |
| ToleranceDrift.ToleranceDrifts | src/copt_models.cpp:298-308 | Of those three the filter loses the first without a representative, for every positive tolerance. |
| RouteFilters.EraseUncoupled | src/copt_models.cpp:560-576 | Erases exactly the paths, required ones excepted, that leave too little for the nearest charge before or behind the gap. |
| RouteFilters.PathIsCoupled | src/copt_models.cpp:555-575 | On a physical trace the legs around a path leave enough for the nearest charges on both sides. |
| RouteFilters.EraseLate | src/copt_models.cpp:578-617 | Erases exactly the paths that exceed the route limit while every other gap takes its least travel and energy. |
| RouteFilters.FilterPaths | src/copt_models.cpp:558-618 | The coupling filter on every gap, then the route limit unless some gap has no path left. |
| RouteFilters.FeasibleChoiceSurvives | src/copt_models.cpp:555-618 | Paths that together make a route with a feasible schedule all survive both filters. |
| CatalogOrder.OnlineIsTop | src/search.cpp:2306-2347 | Where beating is transitive the online filter ends with exactly the unbeaten proposals, and one of them above every other proposal. |
| CatalogOrder.OrderDoesNotMatter | src/search.cpp:2306-2347 | And the same proposals in another order leave the same paths. |
| CatalogOrder.OrderIndependenceExactly | src/search.cpp:2306-2347 | For any choice of some paths the order never matters exactly when beating is transitive on them. |
| CatalogOrder.SpacedTransitive | src/search.cpp:2150-2156 | Beating is transitive without a tolerance, and with one when no two metrics differ by more than zero and at most the tolerance. |
| CatalogOrder.KeptAreIncomparable | src/search.cpp:2306-2347 | No kept path dominates another, whatever the tolerance and the order. |
| ToleranceDrift.NumberingMatters | src/search.cpp:2237-2347 | The same pair of points in the plane keeps one station path or two, depending on the numbers of its stations, for every positive tolerance. |
| Catalog.LongerIsLater | src/search.cpp:2229-2236 | The horizon bound grows with the length. |
| Catalog.ProposesExactly | src/search.cpp:2237-2295 | The search with pruned prefixes proposes exactly the elementary paths that fit the battery and the horizon. |
| CatalogHorizon.HorizonDecides | src/search.cpp:2229-2285 | A path on a route with a feasible schedule is proposed exactly when its time bound is within the horizon: no other test rejects it. |
| CatalogHorizon.FeasibleIsEligible | src/search.cpp:2229-2285 | A path on a route with a feasible schedule passes the battery and horizon tests, when the anchors' service times count. |
| CatalogHorizon.FeasibleIsRepresented | src/search.cpp:2280-2347 | Hence the catalogue holds every path of a feasible route or one that beats it. |
| CatalogHorizon.DepotServiceMisleads | src/search.cpp:2227-2236 | With service time at the depot the test rejects, for the depot and the one customer, the path of a feasible route between them. |
| CatalogShelves.Rejected | src/search.cpp:2306-2325 | Looking through the matching buckets finds a beating path exactly when any kept path beats the proposal. |
| CatalogShelves.EraseDominated | src/search.cpp:2326-2339 | Erasing in the matching buckets erases exactly the dominated paths everywhere. |
| CatalogBuilder.Builder.Propose | src/search.cpp:2299-2347 | One proposal to the buckets is one step of the online filter. |
| CatalogBuilder.Builder.Extend | src/search.cpp:2242-2364 | The search proposes exactly the eligible paths below its prefix, each once, depth first by station number, by flags or by mask. |
| CatalogRanking.RankedFilter | src/search.cpp:2418-2474 | The indexed filter, with or without the first-leg suffix, is the plain filter over all ranked paths. |
| CatalogRanking.NothingFiltered | src/search.cpp:2418-2481 | The second filter keeps every path that survived the first. |
| CompleteCatalog.BuildCatalog | src/search.cpp:2209-2543 | The catalogue is the direct path and what the online filter leaves of the eligible paths, once each; without a tolerance, with spaced candidates, or wherever beating is transitive, that is exactly the eligible paths no eligible path beats, and every other one is beaten by one of them. |
| StationMasks.NextByMask | src/search.cpp:56-63 | Taking the lowest bit yields the next unused station and the mask of the ones behind it. |
| StationMasks.NextByFlags | src/search.cpp:2251-2263 | The cursor over the flags yields the same next station. |
| PackedPaths.EncodePath | src/search.cpp:1666-1688 | Encodes every path of at most 15 known stations; refuses exactly longer ones and unknown stations. |
| PackedPaths.DecodePath | src/search.cpp:1698-1711 | Decoding an encoded path returns the path. |
| PackedPaths.PackedZeros | src/search.cpp:1690-1696 | The trailing zero digits of a packed word tell its length. |
| PackedPaths.PackOrder | src/search.cpp:1713-1723 | Comparing words is comparing code sequences lexicographically. |
| PackedPaths.WordsFaithful | src/search.cpp:1666-1723 | Words tell length, order and identity of the paths they encode. |
| Insertion.BoundQueue.Pop | src/search.cpp:699-745 | Takes the one waiting move that comes before all others by bound, place and index; the others wait on. |
| Insertion.ConsiderRanks | src/search.cpp:752-761 | Considering one more move keeps the best two of the considered. |
| Insertion.ChooseLinkedGreedy | src/search.cpp:788-846 | With honest bounds the best-first selection returns a move no other beats; the bound violation is reported only when there is one. |
| Insertion.PruneIsSafe | src/search.cpp:906-942 | A customer dropped by the regret bound could not have replaced the incumbent. |
| Insertion.RankLinkedCustomer | src/search.cpp:856-959 | With honest bounds a customer gets its true ranking, or is dropped and could not have won. |
| Insertion.ChooseLinkedTwoRegret | src/search.cpp:971-1056 | With honest bounds the pruned two-regret selection returns the move of completing every candidate. |
| ReplacementBounds.LabelTravelBound | src/search.cpp:205-221 | The travel bound of a label is at most its generalized cost. |
| ReplacementBounds.LabelEnergyBound | src/search.cpp:1481-1505 | With no shift left, the energy bound of a label is at most its generalized cost. |
| ReplacementBounds.KernelEnergy | src/search.cpp:1491-1502 | The station-only kernel sees exactly the energy of the label, after dropping repeated stops. |
| ReplacementBand.Score | src/search.cpp:3608-3621 | Scoring a candidate keeps the band: the exact minimum and all good candidates within tolerance of it. |
| ReplacementBand.Skip | src/search.cpp:3514-3524 | Skipping a candidate with a sufficient lower bound keeps the band. |
| Replacement.PrepareLabels | src/search.cpp:3345-3372 | The prefix and suffix labels of all gaps. |
| Replacement.TailHolds | src/search.cpp:3494-3525 | In catalogue order the tail bound of an option bounds the cost of every later option. |
| Replacement.ScanOption | src/search.cpp:3491-3622 | One option, with any of the prunings on, keeps the band. |
| Replacement.ScanGap | src/search.cpp:3440-3626 | One gap, cut off at the tail bound, keeps the band of all its options. |
| Replacement.BestReplacement | src/search.cpp:3440-3656 | With any prunings on, the result is the lexicographically least visit sequence among the improving options within tolerance of the exact minimum, and nothing exactly when no option improves. |
| JointMoves.TopOfFew | src/search.cpp:4594-4649 | The best two of the best two of every route are the best two of all moves. |
| JointMoves.FreshChoiceIs | src/search.cpp:4576-4687 | The choice is a move of its token; none is made only when every token is blocked. |
| JointRepair.Workspace.RankRoute | src/search.cpp:4594-4649 | The cached ranks of a route are the best two moves into it as it is now. |
| JointRepair.Workspace.Rescore | src/search.cpp:4597-4642 | Scoring with shared scores finds the best two of all open slots. |
| JointRepair.Workspace.RankToken | src/search.cpp:4581-4684 | A token's rank from the cache is its rank from rescoring everything. |
| JointRepair.Workspace.ChooseToken | src/search.cpp:4576-4687 | Greedy and two-regret choose the token and move of rescoring every slot of every route. |
| JointRepair.Workspace.Apply | src/search.cpp:4696-4697 | Changing or opening a route raises its version and no other, so that exactly its ranks are outdated. |
| JointRepair.SubsequenceMatched | src/search.cpp:4726-4731 | The greedy match of the check reaches the end exactly on subsequences. |
| JointRepairRun.MoveKeeps | src/search.cpp:4689-4706 | Applying a listed move keeps every occurrence, the retained visits, customers in routes and no adjacent stations. |
| JointRepairRun.BlockedIsStuck | src/search.cpp:4664-4687 | No choice means that every token has no open slot. |
| JointRepairRun.InsertNext | src/search.cpp:4576-4714 | One step is the step of rescoring everything: the chosen token takes its best move and stops waiting; it fails only by being blocked. |
| JointRepairRun.Completed | src/search.cpp:4715-4732 | None of the final checks can fail. |
| JointRepairRun.Repair | src/search.cpp:4511-4741 | A repair returns the routes of the run that rescores everything, which conserves every occurrence, and rolls back exactly when that run gets stuck with all tokens blocked. |
| JointDestroy.NoNewAdjacency | src/search.cpp:4478-4505 | Destruction never makes two calls at one station adjacent. |
| JointDestroy.CustomerStays | src/search.cpp:4501-4506 | A route that keeps any visit keeps a customer. |
| JointDestroy.Destroy | src/search.cpp:4465-4509 | Destruction leaves the non-empty retained parts of the routes in order, canonical, extracts the other stations in order, conserves every occurrence, and its error is unreachable. |
| JointDestroy.LeftoverOfRoute | src/search.cpp:4478-4506 | Every remaining route is the retained part of one of the routes, a subsequence of it. |
| JointDestroy.DestroyAndRepair | src/search.cpp:4465-4741 | The leftovers of this solution are refilled by the run that rescores everything: its end is the result, canonical and extending the leftovers, or, exactly when that run is stuck on blocked stations, the solution comes back. |
| GapSelector.RouteOpeningReserve.Initialize | src/route_opening_rp_reserve.hpp:9-9 | A token is held exactly when there is a budget. |
| GapSelector.RouteOpeningReserve.OrdinaryAllowance | src/route_opening_rp_reserve.hpp:10-12 | While the token is held, ordinary proposals may not use up what remains. |
| GapSelector.RouteOpeningReserve.Release | src/route_opening_rp_reserve.hpp:13-13 | The token is given up once. |
| GapSelector.RouteOpeningReserve.ReleaseOnOpening | src/route_opening_rp_reserve.hpp:14-16 | The token is given up exactly when a route opens while it is held. |
| GapSelector.SwapKeeps | src/search.cpp:5361-5370 | Swapping two gaps keeps the deficit lists mutual inverses. |
| GapSelector.RemoveKeeps | src/search.cpp:5369-5376 | Removing the visited gap by swap with the last keeps them mutual inverses over the unvisited gaps. |
| GapSelector.Selector.Build | src/search.cpp:5276-5297 | The selector lists every gap once and indexes the deficient ones. |
| GapSelector.Selector.Draw | src/search.cpp:5356-5383 | A draw visits the selected gap and keeps the deficit lists mutual inverses over the rest. |
| Descent.BudgetIsLeast | src/search.cpp:5192-5203 | The two allowances together are the smaller of the gaps and twice the removal count. |
| Descent.ImprovementLowersLevel | src/search.cpp:5208-5230 | An accepted candidate lowers the cost by a whole tolerance step: the measure of the loop. |
| Descent.VariableNeighborhoodDescent.Accept | src/search.cpp:5208-5230 | A candidate is taken exactly when it is cheaper by more than the tolerance; the selector is then rebuilt. |
| Descent.VariableNeighborhoodDescent.CooperativeNeighbor | src/search.cpp:5265-5438 | Spends at most the allowance and returns an improving one-route change, or uses up allowance or gaps. |
| Descent.VariableNeighborhoodDescent.Visit | src/search.cpp:5471-5504 | A visit improves the solution or closes a neighbourhood; the reserved token is given up exactly when the number of routes grows. |
| Descent.VariableNeighborhoodDescent.Improve | src/search.cpp:5440-5508 | The loop ends for every start, never makes the solution dearer, and keeps the budget. |
| Descent.Descend | src/search.cpp:5151-5508 | A whole descent proposes at most the smaller of the gaps at entry and twice the removal count. |
| PoolRanks.RankNegativelyTransitive | src/pool.cpp:10-23 | The column rank is a strict weak order. |
| PoolRanks.ReplacementLowersPotential | src/pool.cpp:25-31 | A column that is not dominated by the incumbent has no larger potential. |
| PoolRanks.FromPlan | src/pool.cpp:45-58 | Makes a column of exactly the feasible plans with distinct customers. |
| Pool.ImprovedMeansBeats | src/pool.cpp:96-100 | The reported improvement means that no main column of the coverage was as cheap up to the tolerance. |
| Pool.RoutePool.constructor | src/pool.cpp:60-68 | An empty pool satisfies the invariant. |
| Pool.RoutePool.BestCoverageCost | src/pool.cpp:87-94 | The indexed cost is the least of all main columns with the coverage. |
| Pool.RoutePool.EraseMain | src/pool.cpp:119-122 | Erasing a column erases its cost from the index and nothing else. |
| Pool.RoutePool.PutMain | src/pool.cpp:76-85 | Storing replaces the column of the key in main, index included, and frees the key in backup. |
| Pool.RoutePool.PutBackup | src/pool.cpp:132-142 | Backup keeps the cheaper column, and an exact one among near-equals. |
| Pool.RoutePool.WorstMain | src/pool.cpp:150-167 | Finds an unprotected column that no unprotected one ranks behind; there is always one. |
| Pool.RoutePool.DemoteMain | src/pool.cpp:124-130 | Demotion moves one column out of main, to backup when evicted columns are kept. |
| Pool.RoutePool.PutEvicting | src/pool.cpp:223-242 | Storing into a full pool evicts one worst column, protected keys excepted. |
| Pool.RoutePool.Admit | src/pool.cpp:169-243 | Admission in all its branches, on both tiers, with its report; the pool invariant is kept. |
| Pool.AdmitKeepsProtected | src/pool.cpp:169-243 | Admission keeps every protected key in main with no larger potential. |
| Pool.RoutePool.RankedCandidates | src/pool.cpp:247-256 | Exactly the backup columns that price out, by rank. |
| Pool.RoutePool.Reoffer | src/pool.cpp:259-266 | Offering a backup column again stores it, evicting one worst column of a full pool. |
| Pool.ReofferKeepsBest | src/pool.cpp:245-269 | Each reoffer leaves main with the best columns of main and the offers so far. |
| Pool.ReofferMoves | src/pool.cpp:245-269 | Each reoffer only moves columns between the tiers, when evicted ones are kept. |
| Pool.RoutePool.RepriceBackup | src/pool.cpp:245-269 | Repricing leaves main as the best columns of old main and candidates, loses no column when evicted ones are kept, and does not touch protected ones. |
| Pool.RoutePool.StorePlans | src/pool.cpp:294-306 | Stores the plans up to the first one that is no column. |
| Pool.RoutePool.ProtectPartition | src/pool.cpp:276-310 | Refused exactly on infeasible, oversized or repeating solutions and then without effect; complete exactly when every plan is a column, with every protected key in main at no more than its plan and the tolerance. |
| Pool.InterruptionKeeps | src/pool.cpp:292-306 | An interrupted protection leaves every protected key in main exactly when the plans from the refused one on had theirs there before. |
| Pool.InterruptionLosesAKey | src/pool.cpp:292-306 | Keyed by customer sequences, an interrupted protection always leaves a protected key outside main. |
| Pool.InterruptionSparesCoverage | src/pool.cpp:276-306 | Keyed by customer sets, an interrupted protection can leave every protected key in main. |
| Pool.InterruptionOverfills | src/pool.cpp:292-309 | An interrupted protection can leave main above its capacity. |
| Pool.RoutePool.Run | src/pool.cpp:169-274 | Over any run of admissions, repricings and dual updates the invariant holds and no protected column's potential grows. |
| Pool.RoutePool.ProtectedRun | src/pool.cpp:169-310 | After a completed protection and any such run, every protected key is in main at no more than its plan and twice the tolerance. |

## Left out

- Floating point: rounding, `nextafter`, bit comparisons and the checks of the floating-point environment. Certified bounds are exact inequalities here; the caps on station counts and magnitudes that go with them are not modelled.
- Deadlines, clocks, statistics counters, random draws and typed errors. A throw becomes an empty result or a failure value; a deadline never fires.
- Caches that only remember results: the route, catalogue, option and completion caches, the disk cache, the decision memo. The versioned rank cache of joint repair and the shared insertion scores are modelled.
- Node and curve lookups are total functions; unknown ids are not modelled.
- Model building, callbacks and decoding for the foreign solvers, and the legacy copy in src/gurobi_models.cpp.
- Stations of an anchor pair are numbered by their position; the dominance filter and the catalogue are stated over those numbers.
- The order of the finished lists: the final sorts of catalogue and gap paths by distance, size and ids, and the lexical index.
- The compressed projection of the catalogue (shortest station paths per end pair), station sampling, granular neighbourhoods, the initial construction, the customer neighbourhoods and the adaptive profile of the descent.
- The bounded proxy that may guide a gap draw: any unvisited gap may be drawn. The typed deletion entry, which the build contract disables.
- True optimality of dominance-pruned models, and any claim that greedy charging avoids duration excess: both are false of the code.
- Descent.VariableNeighborhoodDescent.Visit: which active neighbourhood is tried, and which neighbour it finds, are left open, because the selection is random and the neighbourhoods themselves are not modelled.
- CompleteCatalog.BuildCatalog: that exactly the unbeaten paths are kept is claimed where beating is transitive on the candidates, because `ToleranceDrift.NumberingMatters` shows it false without.
- PathSearch.SurvivorsRepresent: representation is claimed where the offers do not drift, because `ToleranceDrift.ToleranceDrifts` shows it false without.
- Insertion.ChooseLinkedGreedy: the completed cost of a move is a parameter and each bound is assumed to hold up to the safety margin, which the source checks on every evaluated move; candidate generation and the linked bound's formula are left out.
- InsertionSlots.Representatives: the scorer's bitwise comparison of two cuts is an arbitrary answer, because equality of the scores does not depend on it.
- Replacement.BestReplacement: the catalogue is given, in the order of its sort, and the plan's own path and excluded paths are skipped as in the source; eager and on-demand labels are one.
- PathDistances.ReverseDistances: the priority queue is a multiset of entries from which a least one is taken; entries with equal distance may come in any order.
