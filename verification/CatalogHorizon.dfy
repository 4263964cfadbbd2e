/** What the horizon test of the path catalogue promises (src/search.cpp, `time_lower_bound` in `path_catalog`):
    no feasible route contains a path that the catalogue leaves out untested. */
module CatalogHorizon {
  import opened Common
  import opened Curves
  import opened Sequences
  import opened Network
  import opened Labels
  import opened Charging
  import opened ChargingCollapse
  import opened ChargingLaws
  import opened Replay
  import opened RouteCosts
  import opened LowerBound
  import opened Walks
  import opened PathDistances
  import opened PathDominance
  import opened PathEnumeration
  import opened CatalogOrder
  import opened Catalog
  import opened CompleteCatalog

  // ----- an anchor pair of an instance -----

  /** The node a number of the pair stands for. */
  function NodeOf(pr: Pair, ids: seq<int>, origin: int, target: int, v: int): int {
    if 0 <= v < |ids| then ids[v] else if v == pr.gap.origin then origin else target
  }

  /** The nodes on a path of the pair. */
  function PathNodes(ids: seq<int>, p: seq<int>): (r: seq<int>)
    requires forall k | 0 <= k < |p| :: 0 <= p[k] < |ids|
    ensures |r| == |p| && forall k | 0 <= k < |p| :: r[k] == ids[p[k]]
  {
    seq(|p|, k requires 0 <= k < |p| => ids[p[k]])
  }

  /** The pair measures legs as the instance does. */
  ghost predicate Measures(net: Instance, pr: Pair, ids: seq<int>, origin: int, target: int) {
    && pr.gap.count == |ids|
    && !(0 <= pr.gap.origin < |ids|) && !(0 <= pr.gap.target < |ids|)
    && NodeOf(pr, ids, origin, target, pr.gap.target) == target
    && forall a, b ::
         var x, y := NodeOf(pr, ids, origin, target, a), NodeOf(pr, ids, origin, target, b);
         pr.gap.travel(a, b) == net.distance(x, y) && pr.gap.energy(a, b) == Energy(net, x, y)
  }

  /** The pair of two anchors, as `path_catalog` sets it up. */
  ghost predicate Describes(net: Instance, pr: Pair, ids: seq<int>, origin: int, target: int) {
    && Measures(net, pr, ids, origin, target)
    && pr.gap.battery == net.capacity && pr.gap.cutoff == net.horizon && 0.0 <= pr.gap.tolerance
    && pr.rest == net.distance(net.depot, origin) + net.distance(target, net.depot)
    && pr.service == net.serviceTime(origin) + (if origin == target then 0.0 else net.serviceTime(target))
    && pr.speed == net.speed && pr.consumption == net.consumption
    && HasCurves(net) && MaximumChargingRate(net).Finite? && MaximumChargingRate(net).value <= pr.rate
  }

  lemma {:induction false} WalkFront(net: Instance, x: int, rest: seq<int>)
    requires 0.0 < net.speed && rest != []
    ensures PathTravel(net, [x] + rest) == net.distance(x, rest[0]) / net.speed + PathTravel(net, rest)
    ensures PathEnergy(net, [x] + rest) == net.distance(x, rest[0]) * net.consumption + PathEnergy(net, rest)
  {
    assert ([x] + rest)[1..] == rest;
  }

  lemma {:induction false} WalkOne(net: Instance, x: int)
    requires 0.0 < net.speed
    ensures PathTravel(net, [x]) == 0.0 && PathEnergy(net, [x]) == 0.0
  {
  }

  /** Time and energy of a length. */
  lemma {:induction false} LengthIsWalk(net: Instance, pr: Pair, ids: seq<int>, origin: int, target: int, v: int, p: seq<int>)
    requires 0.0 < net.speed && Measures(net, pr, ids, origin, target) && InRange(pr.gap, p)
    ensures var nodes := [NodeOf(pr, ids, origin, target, v)] + PathNodes(ids, p) + [target];
      && PathTravel(net, nodes) == Length(pr.gap, v, p) / net.speed
      && PathEnergy(net, nodes) == Length(pr.gap, v, p) * net.consumption
    decreases |p|
  {
    hide NodeOf, PathTravel, PathEnergy;
    var x := NodeOf(pr, ids, origin, target, v);
    var rest := PathNodes(ids, p) + [target];
    assert [x] + PathNodes(ids, p) + [target] == [x] + rest;
    WalkFront(net, x, rest);
    if p == [] {
      assert rest == [target];
      WalkOne(net, target);
      assert pr.gap.travel(v, pr.gap.target) == net.distance(x, NodeOf(pr, ids, origin, target, pr.gap.target));
    } else {
      var y := NodeOf(pr, ids, origin, target, p[0]);
      InRangeNode(pr, ids, origin, target, p[0]);
      LengthIsWalk(net, pr, ids, origin, target, p[0], p[1..]);
      assert rest == [y] + PathNodes(ids, p[1..]) + [target];
      assert pr.gap.travel(v, p[0]) == net.distance(x, y);
      Spread(net.distance(x, y), Length(pr.gap, p[0], p[1..]), net.speed, net.consumption);
    }
  }

  lemma InRangeNode(pr: Pair, ids: seq<int>, origin: int, target: int, v: int)
    requires 0 <= v < |ids|
    ensures NodeOf(pr, ids, origin, target, v) == ids[v]
  {
  }

  lemma Spread(x: real, y: real, d: real, m: real)
    requires 0.0 < d
    ensures (x + y) / d == x / d + y / d && (x + y) * m == x * m + y * m
  {
  }

  // ----- a route through the pair -----

  /** A route through the pair drives at least the way to the origin, the path and the way home. */
  lemma {:induction false} PassingTakes(net: Instance, pr: Pair, ids: seq<int>, origin: int, target: int,
                                        nodes: seq<int>, i: nat, p: seq<int>)
    requires Network.Regular(net) && 0.0 < net.speed && Measures(net, pr, ids, origin, target) && InRange(pr.gap, p)
    requires |nodes| >= 2 && nodes[0] == net.depot && nodes[|nodes| - 1] == net.depot
    requires Passes(nodes, i, origin, PathNodes(ids, p), target)
    ensures var d := Length(pr.gap, pr.gap.origin, p) + (net.distance(net.depot, origin) + net.distance(target, net.depot));
      d / net.speed <= PathTravel(net, nodes) && d * net.consumption <= PathEnergy(net, nodes)
    ensures Service(net, origin) + (if origin == target then 0.0 else Service(net, target)) <= PathService(net, nodes)
  {
    hide Length, PathTravel, PathEnergy, PathService, NodeOf, Measures, Metric, Strict;
    var j := |p| + 1;
    var rest := nodes[i..];
    assert rest[..j + 1] == nodes[i..i + j + 1] && rest[j..] == nodes[i + j..];
    WalkSplit(net, nodes, i);
    WalkSplit(net, rest, j);
    assert nodes[i] == nodes[i..i + j + 1][0] && nodes[i + j] == nodes[i..i + j + 1][j];
    Shortcut(net, nodes[..i + 1]);
    Shortcut(net, rest[j..]);
    OriginOf(net, pr, ids, origin, target);
    LengthIsWalk(net, pr, ids, origin, target, pr.gap.origin, p);
    var middle, out, home := Length(pr.gap, pr.gap.origin, p), net.distance(net.depot, origin), net.distance(target, net.depot);
    Spread(middle, out + home, net.speed, net.consumption);
    Spread(out, home, net.speed, net.consumption);
    ServiceAtEnd(net, nodes[..i + 1]);
    ServiceAtEnd(net, rest[..j + 1]);
    ServiceAtEnd(net, rest[j..]);
  }

  lemma OriginOf(net: Instance, pr: Pair, ids: seq<int>, origin: int, target: int)
    requires Measures(net, pr, ids, origin, target)
    ensures NodeOf(pr, ids, origin, target, pr.gap.origin) == origin
  {
  }

  /** Within the battery leg by leg, and so is the path. */
  lemma {:induction false} PathFits(net: Instance, pr: Pair, ids: seq<int>, origin: int, target: int,
                                    nodes: seq<int>, i: nat, v: int, p: seq<int>)
    requires Measures(net, pr, ids, origin, target) && pr.gap.battery == net.capacity && InRange(pr.gap, p)
    requires Passes(nodes, i, NodeOf(pr, ids, origin, target, v), PathNodes(ids, p), target)
    requires forall k: nat | k + 1 < |nodes| :: LegWithin(net, nodes, k)
    ensures PathDistances.AllFit(pr.gap, v, p)
    decreases |p|
  {
    hide NodeOf, Energy;
    var x := NodeOf(pr, ids, origin, target, v);
    var part := nodes[i..i + |p| + 2];
    assert part[0] == x == nodes[i] && part[1] == nodes[i + 1] && LegWithin(net, nodes, i);
    if p == [] {
      assert part == [x, target];
      assert pr.gap.energy(v, pr.gap.target) == Energy(net, x, NodeOf(pr, ids, origin, target, pr.gap.target));
    } else {
      var y := NodeOf(pr, ids, origin, target, p[0]);
      assert y == ids[p[0]] by { InRangeNode(pr, ids, origin, target, p[0]); }
      assert pr.gap.energy(v, p[0]) == Energy(net, x, y);
      assert nodes[i + 1..i + 1 + |p| + 1] == part[1..] == [y] + PathNodes(ids, p[1..]) + [target];
      PathFits(net, pr, ids, origin, target, nodes, i + 1, p[0], p[1..]);
    }
  }

  lemma {:induction false} LegEnergy(net: Instance, nodes: seq<int>, k: nat)
    requires k + 1 < |nodes|
    ensures PathEnergy(net, nodes[k..k + 2]) == Energy(net, nodes[k], nodes[k + 1])
  {
    assert nodes[k..k + 2][1..] == [nodes[k + 1]];
  }

  ghost predicate LegWithin(net: Instance, nodes: seq<int>, k: nat)
    requires k + 1 < |nodes|
  {
    Energy(net, nodes[k], nodes[k + 1]) <= net.capacity
  }

  /** The path `p` of the pair, without repetition, lies on a route with a feasible schedule. */
  ghost predicate OnFeasibleRoute(net: Instance, pr: Pair, ids: seq<int>, origin: int, target: int,
                                  visits: seq<int>, ps: seq<Soc>, i: nat, p: seq<int>) {
    && Listed(net) && Catalog.Positive(pr) && Describes(net, pr, ids, origin, target)
    && Schedule(net, Direct(net, visits), visits, ps) && SummaryOf(net, Direct(net, visits), visits, ps).feasible
    && p != [] && InRange(pr.gap, p) && Distinct(p)
    && Passes(Nodes(net, visits), i, origin, PathNodes(ids, p), target)
  }

  /** Of a path on a feasible route the horizon guard is the only test that can reject it. */
  lemma {:induction false} HorizonDecides(net: Instance, pr: Pair, ids: seq<int>, origin: int, target: int,
                                          visits: seq<int>, ps: seq<Soc>, i: nat, p: seq<int>)
    requires OnFeasibleRoute(net, pr, ids, origin, target, visits, ps, i, p)
    ensures Catalog.Positive(pr)
    ensures Eligible(pr, p) <==> TimeBound(pr, Length(pr.gap, pr.gap.origin, p)) <= net.horizon + pr.gap.tolerance
  {
    hide Strict, Metric, Replayed, NodeStops, Length, PathDistances.AllFit, Measures, Bounded, Chained, Passes,
      MaximumChargingRate, HasCurves, Direct, Walked, TimeBound, SummaryOf;
    ListedCurves(net);
    var nodes := Nodes(net, visits);
    ScheduleFacts(net, Direct(net, visits), visits, ps);
    forall k: nat | k + 1 < |nodes| ensures LegWithin(net, nodes, k) {
      StretchDrains(net, nodes, ps, k, k + 1);
      LegEnergy(net, nodes, k);
    }
    OriginOf(net, pr, ids, origin, target);
    PathFits(net, pr, ids, origin, target, nodes, i, pr.gap.origin, p);
  }

  /** And it accepts the path as long as the service times of the anchors are ones a route is charged for: the test
      adds both, whatever the anchors are. */
  lemma {:induction false} FeasibleIsEligible(net: Instance, pr: Pair, ids: seq<int>, origin: int, target: int,
                                              visits: seq<int>, ps: seq<Soc>, i: nat, p: seq<int>)
    requires OnFeasibleRoute(net, pr, ids, origin, target, visits, ps, i, p)
    requires net.serviceTime(origin) == Service(net, origin) && net.serviceTime(target) == Service(net, target)
    ensures Catalog.Positive(pr) && Eligible(pr, p)
  {
    hide Strict, Metric, Replayed, NodeStops, ChargingTime, Charging.Fits, PathTravel, PathEnergy, PathService,
      Charged, Bought, Length, PathDistances.AllFit, Measures, Service, Bounded, Chained, Stretch, Passes,
      MaximumChargingRate, HasCurves, Direct, Walked, Eligible;
    ListedCurves(net);
    HorizonDecides(net, pr, ids, origin, target, visits, ps, i, p);
    var nodes := Nodes(net, visits);
    ScheduleFacts(net, Direct(net, visits), visits, ps);
    PassingTakes(net, pr, ids, origin, target, nodes, i, p);
    var d := Length(pr.gap, pr.gap.origin, p) + pr.rest;
    RechargeTakes(net, visits, ps, pr.rate, d * pr.consumption);
    StretchTotals(net, nodes);
  }

  /** Hence the catalogue of the pair holds every such path, or one that beats it. */
  lemma {:induction false} FeasibleIsRepresented(net: Instance, pr: Pair, ids: seq<int>, origin: int, target: int,
                                                 visits: seq<int>, ps: seq<Soc>, i: nat, p: seq<int>, paths: seq<PathSpec>, t: real)
    requires OnFeasibleRoute(net, pr, ids, origin, target, visits, ps, i, p)
    requires net.serviceTime(origin) == Service(net, origin) && net.serviceTime(target) == Service(net, target)
    requires Catalog.Positive(pr) && Represents(pr, paths, t)
    ensures var described := Described(pr.gap, p, false);
      described in paths || exists k :: k in paths && Beats(k, described, t)
  {
    hide Describes, Schedule, SummaryOf, Listed, Eligible, Described, Beats;
    FeasibleIsEligible(net, pr, ids, origin, target, visits, ps, i, p);
    DescribedStations(pr.gap, p, false);
    assert Candidate(pr, Described(pr.gap, p, false));
  }

  // ----- why only customers may take service time -----

  const HOURLY: Curve := [Point(0.0, 0.0), Point(1.0, 1.0)]

  /** A depot where service takes `s` hours, a station and one customer, all at one place; routes may take one
      hour. */
  function SlowDepot(s: real): Instance {
    Instance(id => if id == 1 then Station else if id == 2 then Customer else Depot, id => if id == 0 then s else 0.0,
             id => HOURLY, (a, b) => 0.0, 0, [1], 1.0, 1.0, 1.0, 1.0)
  }

  /** The pair of the depot and the customer. */
  function SlowPair(s: real): Pair {
    Pair(Gap(1, -1, -2, (a, b) => 0.0, (a, b) => 0.0, a => 0, 1.0, 1.0, 0.0), 0.0, s, 1.0, 1.0, 1.0, 1)
  }

  /** By way of the station to the customer and home, without charging. */
  function Standing(): seq<Soc> {
    [Soc(0.0, 1.0, None), Soc(1.0, 1.0, Some(HOURLY)), Soc(1.0, 1.0, None), Soc(1.0, 1.0, None)]
  }

  lemma {:induction false} SlowDepotFacts(s: real)
    requires 0.0 <= s
    ensures var net := SlowDepot(s);
      Listed(net) && HasCurves(net) && MaximumChargingRate(net) == Finite(1.0)
      && Describes(net, SlowPair(s), [1], 0, 2)
  {
    var net := SlowDepot(s);
    assert Strict(HOURLY) && Capacity(HOURLY) == 1.0;
    assert net.stations[0] == 1;
    assert LowerBound.Fastest(net, 1.0, 1) == Finite(1.0);
    assert FastestOn(HOURLY, 0.0, 1) == FastestOn(HOURLY, 1.0, 2) == Finite(1.0);
  }

  lemma {:induction false} StandingIsScheduled(s: real)
    requires 0.0 <= s
    ensures Listed(SlowDepot(s)) && Direct(SlowDepot(s), [1, 2]) == [2] && Schedule(SlowDepot(s), [2], [1, 2], Standing())
  {
    hide Metric, MaximumChargingRate, Describes, Replayed;
    SlowDepotFacts(s);
    var net, ps := SlowDepot(s), Standing();
    var stops := NodeStops(net, Nodes(net, [1, 2]));
    assert Nodes(net, [1, 2]) == [0, 1, 2, 0];
    assert stops == [Stop(0.0, Some(HOURLY)), Stop(0.0, None), Stop(0.0, None)];
    assert Strict(HOURLY) && Capacity(HOURLY) == 1.0;
    assert Bounded(1.0, ps);
    assert Linked(ps, stops, 1) && Linked(ps, stops, 2) && Linked(ps, stops, 3);
    TraceReplays(1.0, ps, stops);
    assert [1, 2][1..] == [2] && [2][1..] == [];
  }

  lemma {:induction false} StandingIsFeasible(s: real)
    requires 0.0 <= s && Listed(SlowDepot(s)) && Schedule(SlowDepot(s), [2], [1, 2], Standing())
    ensures SummaryOf(SlowDepot(s), [2], [1, 2], Standing()).feasible
  {
    hide Network.Regular, Schedule, Standing, ChargingTime, SummaryOf, RouteLabel, ChargingCollapse.AllFit;
    StandingTakesNoTime();
    StandingTotals(s);
    FeasibleWithin(SlowDepot(s), [2], [1, 2], Standing());
  }

  lemma {:induction false} StandingTotals(s: real)
    ensures var route := RouteLabel(SlowDepot(s), [1, 2]); route.Label? && route.travel == 0.0 && route.service == 0.0
  {
    var net := SlowDepot(s);
    var nodes := [0, 1, 2, 0];
    assert Nodes(net, [1, 2]) == nodes && nodes[1..] == [1, 2, 0] && [1, 2, 0][1..] == [2, 0] && [2, 0][1..] == [0];
    assert PathTravel(net, [2, 0]) == 0.0 && PathService(net, [2, 0]) == 0.0;
    assert PathTravel(net, [1, 2, 0]) == 0.0 && PathService(net, [1, 2, 0]) == 0.0;
    assert PathTravel(net, nodes) == 0.0 && PathService(net, nodes) == 0.0;
    StretchTotals(net, Nodes(net, [1, 2]));
  }

  lemma {:induction false} StandingTakesNoTime()
    ensures ChargingCollapse.AllFit(1.0, Standing()) && ChargingTime(1.0, Standing()) == 0.0
  {
    hide Duration;
    var ps := Standing();
    assert Strict(HOURLY) && Capacity(HOURLY) == 1.0;
    assert ChargingTimeAt(1.0, ps[1]) == Duration(HOURLY, 1.0, 1.0) == 0.0 by { NoTime(HOURLY, 1.0); }
    assert ps[..3] == [ps[0], ps[1], ps[2]] && ps[..3][..2] == [ps[0], ps[1]] && [ps[0], ps[1]][..1] == [ps[0]] && [ps[0]][..0] == [];
    assert ChargingTime(1.0, [ps[0]]) == 0.0;
    assert ChargingTime(1.0, [ps[0], ps[1]]) == 0.0;
    assert ChargingTime(1.0, ps[..3]) == 0.0;
  }

  lemma NoTime(c: Curve, e: real)
    requires |c| >= 2 && e <= Capacity(c)
    ensures Duration(c, e, e) == 0.0
  {
  }

  lemma {:induction false} StandingPasses(s: real)
    ensures Passes(Nodes(SlowDepot(s), [1, 2]), 0, 0, PathNodes([1], [0]), 2)
  {
    assert Nodes(SlowDepot(s), [1, 2]) == [0, 1, 2, 0];
    assert [0, 1, 2, 0][0..3] == [0, 1, 2] == [0] + PathNodes([1], [0]) + [2];
  }

  lemma {:induction false} TooLate(s: real)
    requires 1.0 < s
    ensures Catalog.Positive(SlowPair(s)) && InRange(SlowPair(s).gap, [0]) && Distinct([0]) && !Eligible(SlowPair(s), [0])
  {
    var pr := SlowPair(s);
    assert Length(pr.gap, -1, [0]) == 0.0 by { assert [0][1..] == []; }
    assert TimeBound(pr, 0.0) >= s;
  }

  /** Where service at the depot takes longer than a route may, the pair of the depot and a customer loses the path
      a feasible route takes to that customer. */
  lemma {:induction false} DepotServiceMisleads(s: real)
    requires 1.0 < s
    ensures OnFeasibleRoute(SlowDepot(s), SlowPair(s), [1], 0, 2, [1, 2], Standing(), 0, [0])
    ensures Catalog.Positive(SlowPair(s)) && !Eligible(SlowPair(s), [0])
    ensures SlowDepot(s).kind(2).Customer? && forall id :: SlowDepot(s).kind(id).Customer? ==> id == 2
  {
    OneCustomer(s);
    hide Listed, Catalog.Positive, Describes, Schedule, SummaryOf, InRange, Distinct, Passes, PathNodes, Nodes, Direct, Standing, Eligible, SlowDepot, SlowPair;
    SlowDepotFacts(s);
    StandingIsScheduled(s);
    StandingIsFeasible(s);
    StandingPasses(s);
    TooLate(s);
  }

  lemma OneCustomer(s: real)
    ensures SlowDepot(s).kind(2).Customer? && forall id :: SlowDepot(s).kind(id).Customer? ==> id == 2
  {
  }
}
