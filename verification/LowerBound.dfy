/** The analytic bound of a fixed customer order and the certificates drawn from it
    (src/copt_models.cpp, `maximum_charging_rate`, `frvcp_route_lower_bound`, `optimize_impl`). */
module LowerBound {
  import opened Common
  import opened Curves
  import opened Network
  import opened Labels
  import opened Canonical
  import opened Charging
  import opened ChargingSplit
  import opened ChargingCollapse
  import opened ChargingLaws
  import opened Kernels
  import opened Evaluation
  import opened Replay
  import opened RouteCosts
  import opened RouteEvaluators

  datatype Extended = Finite(value: real) | Infinite

  // ----- the fastest charging rate anywhere -----

  /** Fold one curve into the running maximum; an instantaneous segment makes the rate infinite. */
  function FastestOn(c: Curve, best: real, i: nat): Extended
    requires 1 <= i <= |c|
    decreases |c| - i
  {
    if i == |c| then Finite(best)
    else
      var energy := c[i].energy - c[i - 1].energy;
      var time := c[i].time - c[i - 1].time;
      if energy <= 0.0 then FastestOn(c, best, i + 1)
      else if time <= 0.0 then Infinite
      else FastestOn(c, Max(best, energy / time), i + 1)
  }

  function Fastest(net: Instance, best: real, i: nat): Extended
    requires i <= |net.stations| && forall k | 0 <= k < |net.stations| :: |net.curve(net.stations[k])| >= 2
    decreases |net.stations| - i
  {
    if i == |net.stations| then Finite(best)
    else
      match FastestOn(net.curve(net.stations[i]), best, 1)
      case Infinite => Infinite
      case Finite(r) => Fastest(net, r, i + 1)
  }

  ghost predicate HasCurves(net: Instance) {
    forall k | 0 <= k < |net.stations| :: |net.curve(net.stations[k])| >= 2
  }

  function MaximumChargingRate(net: Instance): Extended
    requires HasCurves(net)
  {
    Fastest(net, 0.0, 0)
  }

  /** `rate` bounds the energy per hour of every segment from `i` on. */
  ghost predicate BoundsFrom(c: Curve, rate: real, i: nat)
    requires 1 <= i
  {
    forall k | i <= k < |c| :: SegmentBounded(c, rate, k)
  }

  ghost predicate SegmentBounded(c: Curve, rate: real, k: nat)
    requires 1 <= k < |c|
  {
    c[k].energy - c[k - 1].energy <= Bought(c[k].time - c[k - 1].time, rate)
  }

  lemma SegmentBoundedBy(c: Curve, rate: real, k: nat)
    requires Valid(c) && 1 <= k < |c| && c[k - 1].time < c[k].time
    requires (c[k].energy - c[k - 1].energy) / (c[k].time - c[k - 1].time) <= rate
    ensures SegmentBounded(c, rate, k)
  {
    var e, t := c[k].energy - c[k - 1].energy, c[k].time - c[k - 1].time;
    var q := e / t;
    assert q * t == e;
    assert (rate - q) * t >= 0.0;
  }

  lemma SegmentBoundedMore(c: Curve, rate: real, more: real, k: nat)
    requires Valid(c) && 1 <= k < |c| && SegmentBounded(c, rate, k) && rate <= more
    ensures SegmentBounded(c, more, k)
  {
    assert (more - rate) * (c[k].time - c[k - 1].time) >= 0.0;
  }

  lemma FlatSegment(c: Curve, rate: real, k: nat)
    requires Valid(c) && 1 <= k < |c| && c[k].energy <= c[k - 1].energy && 0.0 <= rate
    ensures SegmentBounded(c, rate, k)
  {
    assert 0.0 <= (c[k].time - c[k - 1].time) * rate;
  }

  lemma {:induction false} FastestOnBounds(c: Curve, best: real, i: nat)
    requires Valid(c) && 1 <= i <= |c| && 0.0 <= best
    ensures var r := FastestOn(c, best, i);
      r.Finite? ==> best <= r.value && BoundsFrom(c, r.value, i)
    decreases |c| - i
  {
    hide SegmentBounded, Valid;
    if i < |c| {
      var energy, time := c[i].energy - c[i - 1].energy, c[i].time - c[i - 1].time;
      var r := FastestOn(c, best, i);
      if energy <= 0.0 {
        FastestOnBounds(c, best, i + 1);
        if r.Finite? { FlatSegment(c, r.value, i); }
      } else if time > 0.0 {
        FastestOnBounds(c, Max(best, energy / time), i + 1);
        if r.Finite? { SegmentBoundedBy(c, r.value, i); }
      }
    }
  }

  lemma {:induction false} FastestBounds(net: Instance, best: real, i: nat, k: nat)
    requires HasCurves(net) && i <= |net.stations| && 0.0 <= best && k < |net.stations|
    requires forall s | 0 <= s < |net.stations| :: Valid(net.curve(net.stations[s]))
    ensures var r := Fastest(net, best, i);
      r.Finite? ==> best <= r.value && (i <= k ==> BoundsFrom(net.curve(net.stations[k]), r.value, 1))
    decreases |net.stations| - i
  {
    hide FastestOn, Valid, SegmentBounded;
    if i < |net.stations| {
      var c := net.curve(net.stations[i]);
      FastestOnBounds(c, best, 1);
      var here := FastestOn(c, best, 1);
      if here.Finite? {
        FastestBounds(net, here.value, i + 1, k);
        var r := Fastest(net, best, i);
        if r.Finite? && k == i {
          forall s | 1 <= s < |c| ensures SegmentBounded(c, r.value, s) {
            SegmentBoundedMore(c, here.value, r.value, s);
          }
        }
      }
    }
  }

  // ----- charging takes at least energy over rate -----

  /** What `rate` could have delivered by the `k`-th breakpoint beyond what the curve has. */
  lemma {:induction false} BreakpointLead(c: Curve, rate: real, i: nat, j: nat)
    requires Valid(c) && BoundsFrom(c, rate, 1) && i <= j < |c|
    ensures Bought(c[i].time, rate) - c[i].energy <= Bought(c[j].time, rate) - c[j].energy
    decreases j - i
  {
    hide Bought;
    if i < j {
      BreakpointLead(c, rate, i, j - 1);
      assert SegmentBounded(c, rate, j);
      BoughtDifference(c[j - 1].time, c[j].time, rate);
    }
  }

  lemma BoughtDifference(a: real, b: real, rate: real)
    ensures Bought(b - a, rate) == Bought(b, rate) - Bought(a, rate)
  {
  }

  lemma PartOfSegment(x: real, d: real, t: real, rate: real)
    requires 0.0 <= x && 0.0 < d && d <= Bought(t, rate)
    ensures x <= Bought(x / d * t, rate)
  {
    var q := x / d;
    assert q * d == x && 0.0 <= q;
    assert q * (t * rate - d) >= 0.0;
    assert q * t * rate == q * (t * rate);
  }

  lemma PartsDiffer(x: real, y: real, d: real, t: real)
    requires 0.0 < d
    ensures y / d * t - x / d * t == (y - x) / d * t
  {
    var p, q := x / d, y / d;
    assert (y - x) / d == q - p;
    assert q * t - p * t == (q - p) * t;
  }

  /** Within one segment of positive energy, `y - x` takes at least `(y - x) / rate`. */
  lemma SegmentLead(c: Curve, rate: real, k: nat, x: real, y: real)
    requires Valid(c) && 1 <= k < |c| && SegmentBounded(c, rate, k)
    requires c[k - 1].energy < c[k].energy && x <= y
    ensures Bought(OnSegment(c, k, x), rate) - x <= Bought(OnSegment(c, k, y), rate) - y
  {
    var b, d, t := c[k - 1].energy, c[k].energy - c[k - 1].energy, c[k].time - c[k - 1].time;
    PartOfSegment(y - x, d, t, rate);
    PartsDiffer(x - b, y - b, d, t);
    assert (y - b) - (x - b) == y - x;
    BoughtDifference(OnSegment(c, k, x), OnSegment(c, k, y), rate);
  }

  lemma OnSegmentLeft(c: Curve, k: nat)
    requires Valid(c) && 1 <= k < |c|
    ensures OnSegment(c, k, c[k - 1].energy) == c[k - 1].time
  {
  }

  lemma OnSegmentRight(c: Curve, k: nat)
    requires Valid(c) && 1 <= k < |c| && c[k - 1].energy < c[k].energy
    ensures OnSegment(c, k, c[k].energy) == c[k].time
  {
    var d := c[k].energy - c[k - 1].energy;
    assert d / d == 1.0;
  }

  /** No interval charges faster than the fastest segment, flat and vertical pieces included. */
  lemma RateBoundsDuration(c: Curve, rate: real, a: real, b: real)
    requires Valid(c) && BoundsFrom(c, rate, 1) && 0.0 <= rate && 0.0 <= a <= b <= Capacity(c)
    ensures b - a <= Bought(Duration(c, a, b), rate)
  {
    hide Bought, OnSegment, SegmentBounded;
    var i, j := SegmentFrom(c, a, 1), SegmentFrom(c, b, 1);
    assert c[i - 1].energy <= a by { if i > 1 { assert c[i - 1].energy < a; } }
    assert c[j - 1].energy <= b by { if j > 1 { assert c[j - 1].energy < b; } }
    assert i <= j;
    BoughtDifference(TimeAt(c, a), TimeAt(c, b), rate);
    if a < b {
      if i == j {
        SegmentLead(c, rate, i, a, b);
      } else {
        assert c[i].energy < b;
        LeadToRight(c, rate, i, a);
        BreakpointLead(c, rate, i, j - 1);
        assert c[j - 1].energy < b;
        OnSegmentLeft(c, j);
        SegmentLead(c, rate, j, c[j - 1].energy, b);
      }
    } else {
      BoughtNothing(rate);
    }
  }

  lemma BoughtNothing(rate: real)
    ensures Bought(0.0, rate) == 0.0
  {
  }

  lemma LeadToRight(c: Curve, rate: real, k: nat, x: real)
    requires Valid(c) && 1 <= k < |c| && SegmentBounded(c, rate, k) && 0.0 <= rate
    requires c[k - 1].energy <= x <= c[k].energy
    ensures Bought(OnSegment(c, k, x), rate) - x <= Bought(c[k].time, rate) - c[k].energy
  {
    hide Bought, OnSegment, SegmentBounded;
    if c[k - 1].energy < c[k].energy {
      OnSegmentRight(c, k);
      SegmentLead(c, rate, k, x, c[k].energy);
    } else {
      OnSegmentLeft(c, k);
      BoughtMonotone(c[k - 1].time, c[k].time, rate);
    }
  }

  // ----- a detour costs at least the direct leg -----

  function PathTravel(net: Instance, nodes: seq<int>): real
    requires 0.0 < net.speed
  {
    if |nodes| < 2 then 0.0 else Travel(net, nodes[0], nodes[1]) + PathTravel(net, nodes[1..])
  }

  function PathEnergy(net: Instance, nodes: seq<int>): real {
    if |nodes| < 2 then 0.0 else Energy(net, nodes[0], nodes[1]) + PathEnergy(net, nodes[1..])
  }

  function PathService(net: Instance, nodes: seq<int>): real {
    if |nodes| < 2 then 0.0 else Service(net, nodes[1]) + PathService(net, nodes[1..])
  }

  /** The visits that are no stations. */
  function Direct(net: Instance, visits: seq<int>): seq<int> {
    if visits == [] then []
    else if IsStation(net, visits[0]) then Direct(net, visits[1..])
    else [visits[0]] + Direct(net, visits[1..])
  }

  lemma {:induction false} DirectIsShortest(net: Instance, a: int, visits: seq<int>, end: int)
    requires Positive(net) && Metric(net)
    ensures PathTravel(net, [a] + Direct(net, visits) + [end]) <= PathTravel(net, [a] + visits + [end])
    ensures PathEnergy(net, [a] + Direct(net, visits) + [end]) <= PathEnergy(net, [a] + visits + [end])
    decreases |visits|
  {
    hide Travel, Energy, Metric;
    if visits != [] {
      var b, rest := visits[0], visits[1..];
      var path := [a] + visits + [end];
      assert path[1..] == [b] + rest + [end];
      DirectIsShortest(net, b, rest, end);
      var after := [b] + Direct(net, rest) + [end];
      var direct := [a] + Direct(net, visits) + [end];
      if IsStation(net, b) {
        assert direct[1..] == after[1..] && after[1..] != [];
        Triangle(net, a, b, after[1]);
      } else {
        assert direct[1..] == after;
      }
    }
  }

  lemma {:induction false} DirectService(net: Instance, a: int, visits: seq<int>, end: int)
    ensures PathService(net, [a] + Direct(net, visits) + [end]) == PathService(net, [a] + visits + [end])
    decreases |visits|
  {
    if visits == [] {
      assert [a] + visits + [end] == [a] + Direct(net, visits) + [end];
    } else {
      var b, rest := visits[0], visits[1..];
      assert ([a] + visits + [end])[1..] == [b] + rest + [end];
      DirectService(net, b, rest, end);
      var direct := [a] + Direct(net, visits) + [end];
      var after := [b] + Direct(net, rest) + [end];
      if IsStation(net, b) {
        assert direct[1..] == after[1..];
        assert direct[1] == after[1];
      } else {
        assert direct[1..] == after;
      }
    }
  }

  lemma {:induction false} StretchTotals(net: Instance, nodes: seq<int>)
    requires 0.0 < net.speed && |nodes| >= 2
    ensures Stretch(net, nodes).Label?
    ensures Stretch(net, nodes).travel == PathTravel(net, nodes)
    ensures Stretch(net, nodes).service == PathService(net, nodes)
    decreases |nodes|
  {
    hide Travel, Energy, Stretch;
    StretchFront(net, nodes);
    StretchEnds(net, nodes);
    if |nodes| > 2 {
      StretchTotals(net, nodes[1..]);
    } else {
      assert nodes[1..] == [nodes[1]];
      StretchOne(net, nodes[1]);
      ConcatBlank(Hop(net, nodes[0], nodes[1]));
    }
  }

  lemma {:induction false} StopEnergy(net: Instance, nodes: seq<int>)
    requires nodes != []
    ensures EnergyOf(NodeStops(net, nodes)) == PathEnergy(net, nodes)
    decreases |nodes|
  {
    hide Energy, Charger;
    if |nodes| >= 2 {
      var stops := NodeStops(net, nodes);
      StopEnergy(net, nodes[1..]);
      assert stops[1..] == NodeStops(net, nodes[1..]);
      EnergyFront(stops);
    }
  }

  lemma {:induction false} EnergyFront(stops: seq<Stop>)
    requires stops != []
    ensures EnergyOf(stops) == stops[0].energy + EnergyOf(stops[1..])
  {
    var n := |stops| - 1;
    if n > 0 {
      EnergyFront(stops[..n]);
      assert stops[..n][1..] == stops[1..][..n - 1];
    } else {
      assert stops[..0] == [] && stops[1..] == [];
    }
  }

  // ----- a physical trace -----

  lemma {:induction false} TraceBalance(cap: real, ps: seq<Soc>, stops: seq<Stop>)
    requires Bounded(cap, ps) && Chained(ps, stops)
    ensures Last(ps).departure + EnergyOf(stops) == cap + Charged(ps)
    decreases |stops|
  {
    hide Strict;
    if stops != [] {
      TracePrefix(cap, ps, stops);
      TraceBalance(cap, ps[..|stops|], stops[..|stops| - 1]);
      assert Linked(ps, stops, |stops|);
    }
  }

  /** Every charger on the trace is one of the instance's stations. */
  ghost predicate KnownChargers(net: Instance, ps: seq<Soc>) {
    forall j | 0 <= j < |ps| && ps[j].charger.Some? ::
      exists k :: 0 <= k < |net.stations| && ps[j].charger == Some(net.curve(net.stations[k]))
  }

  lemma {:induction false} ChargedTakesTime(net: Instance, ps: seq<Soc>, rate: real)
    requires Bounded(net.capacity, ps) && KnownChargers(net, ps) && HasCurves(net)
    requires forall s | 0 <= s < |net.stations| :: Valid(net.curve(net.stations[s]))
    requires MaximumChargingRate(net) == Finite(rate)
    ensures AllFit(net.capacity, ps) && 0.0 <= net.capacity
    ensures Charged(ps) <= Bought(ChargingTime(net.capacity, ps), rate)
    decreases |ps|
  {
    hide Bought, TimeAt, EnergyStrict, TimeStrict, Valid;
    var n := |ps| - 1;
    if n == 0 {
      assert ps[..0] == [];
      BoughtNothing(rate);
    } else {
      BoundedPrefix(net.capacity, ps);
      ChargedTakesTime(net, ps[..n], rate);
      var p := ps[n];
      BoughtSum(ChargingTime(net.capacity, ps[..n]), ChargingTimeAt(net.capacity, p), rate);
      if p.charger.Some? {
        var k :| 0 <= k < |net.stations| && p.charger == Some(net.curve(net.stations[k]));
        FastestBounds(net, 0.0, 0, k);
        RateBoundsDuration(p.charger.value, rate, p.arrival, p.departure);
      } else {
        BoughtNothing(rate);
      }
    }
  }

  lemma BoundedPrefix(cap: real, ps: seq<Soc>)
    requires Bounded(cap, ps) && |ps| > 1
    ensures Bounded(cap, ps[..|ps| - 1])
  {
  }

  lemma BoughtSum(a: real, b: real, rate: real)
    ensures Bought(a + b, rate) == Bought(a, rate) + Bought(b, rate)
  {
  }

  // ----- the bound -----

  datatype RouteLowerBound = RouteLowerBound(objective: Extended, service: real)

  /** `frvcp_route_lower_bound`: direct travel, plus the energy beyond one battery at the fastest rate. */
  function FrvcpRouteLowerBound(net: Instance, customers: seq<int>): RouteLowerBound
    requires 0.0 < net.speed && HasCurves(net)
  {
    var anchors := Nodes(net, customers);
    var travel := PathTravel(net, anchors);
    var service := PathService(net, anchors);
    var required := Max(0.0, PathEnergy(net, anchors) - net.capacity);
    if required <= 0.0 then RouteLowerBound(Finite(travel), service)
    else
      match MaximumChargingRate(net)
      case Infinite => RouteLowerBound(Finite(travel), service)
      case Finite(rate) =>
        RouteLowerBound(if rate > 0.0 then Finite(travel + required / rate) else Infinite, service)
  }

  /** The stations the instance lists are all its stations, with strict curves. */
  ghost predicate Listed(net: Instance) {
    && Regular(net)
    && (forall k | 0 <= k < |net.stations| :: IsStation(net, net.stations[k]))
    && (forall id | IsStation(net, id) :: exists k :: 0 <= k < |net.stations| && net.stations[k] == id)
  }

  /** `ps` is an accepted charging schedule of a route through `customers` in this order. */
  ghost predicate Schedule(net: Instance, customers: seq<int>, visits: seq<int>, ps: seq<Soc>)
    requires Regular(net)
  {
    var stops := NodeStops(net, Nodes(net, visits));
    && Direct(net, visits) == customers
    && |ps| == |stops| + 1
    && Replayed(net.capacity, stops, PlanOf(ps, stops)) == Some(ps)
  }

  /** The summary `evaluate_schedule` returns for it. */
  ghost function SummaryOf(net: Instance, customers: seq<int>, visits: seq<int>, ps: seq<Soc>): Summary
    requires Regular(net) && Schedule(net, customers, visits, ps)
  {
    ScheduleFacts(net, customers, visits, ps);
    RouteLabelSound(net, visits);
    RegularSpeed(net);
    var route := RouteLabel(net, visits);
    ScheduleCost(VehicleOf(net), route.travel, route.service, ps)
  }

  lemma ScheduleFacts(net: Instance, customers: seq<int>, visits: seq<int>, ps: seq<Soc>)
    requires Regular(net) && Schedule(net, customers, visits, ps)
    ensures Bounded(net.capacity, ps) && Chained(ps, NodeStops(net, Nodes(net, visits)))
    ensures AllFit(net.capacity, ps)
  {
    hide Strict, Metric, Replayed, NodeStops, Fits;
    RegularSpeed(net);
    var stops := NodeStops(net, Nodes(net, visits));
    NodeStopsSound(net, Nodes(net, visits));
    ReplayedIsPhysical(net.capacity, stops, PlanOf(ps, stops));
  }

  lemma ScheduleChargers(net: Instance, visits: seq<int>, ps: seq<Soc>)
    requires Listed(net) && Bounded(net.capacity, ps) && Chained(ps, NodeStops(net, Nodes(net, visits)))
    ensures KnownChargers(net, ps)
  {
    hide Strict, Metric, Energy, Walked;
    var stops := NodeStops(net, Nodes(net, visits));
    forall j | 0 <= j < |ps| && ps[j].charger.Some?
      ensures exists k :: 0 <= k < |net.stations| && ps[j].charger == Some(net.curve(net.stations[k]))
    {
      if j > 0 {
        assert Linked(ps, stops, j);
        var id := Nodes(net, visits)[j];
        assert IsStation(net, id);
        var k :| 0 <= k < |net.stations| && net.stations[k] == id;
        assert ps[j].charger == Some(net.curve(net.stations[k]));
      }
    }
  }

  lemma ListedCurves(net: Instance)
    requires Listed(net)
    ensures HasCurves(net) && 0.0 < net.speed && 0.0 < net.capacity
    ensures forall s | 0 <= s < |net.stations| :: Valid(net.curve(net.stations[s]))
  {
    hide EnergyStrict, TimeStrict, Metric;
  }

  lemma QuotientBound(required: real, time: real, rate: real)
    requires 0.0 < rate && required <= Bought(time, rate)
    ensures required / rate <= time
  {
    var q := required / rate;
    assert q * rate == required;
    assert (time - q) * rate >= 0.0;
  }

  /** Every accepted schedule of every route with these customers costs at least the bound, serves
      for the bound's time, and does not exist at all when the bound is infinite. */
  lemma BoundHolds(net: Instance, customers: seq<int>, visits: seq<int>, ps: seq<Soc>)
    requires Listed(net) && HasCurves(net) && Schedule(net, customers, visits, ps)
    ensures var bound := FrvcpRouteLowerBound(net, customers);
      var s := SummaryOf(net, customers, visits, ps);
      && bound.objective.Finite?
      && bound.objective.value <= s.raw
      && bound.service == s.service
  {
    hide Strict, Metric, Bought, Replayed, NodeStops, Stretch, ChargingTime, Fits, PathTravel, PathEnergy, PathService, MaximumChargingRate, Charged;
    ListedCurves(net);
    var nodes := Nodes(net, visits);
    var stops := NodeStops(net, nodes);
    ScheduleFacts(net, customers, visits, ps);
    ScheduleChargers(net, visits, ps);
    DirectIsShortest(net, net.depot, visits, net.depot);
    DirectService(net, net.depot, visits, net.depot);
    StretchTotals(net, nodes);
    StopEnergy(net, nodes);
    TraceBalance(net.capacity, ps, stops);
    ChargingTimeNonNegative(net.capacity, ps);
    var required := Max(0.0, PathEnergy(net, Nodes(net, customers)) - net.capacity);
    assert required <= Max(0.0, Charged(ps)) by { LastNonNegative(net.capacity, ps); }
    var rate := MaximumChargingRate(net);
    if rate.Finite? {
      ChargedTakesTime(net, ps, rate.value);
      if rate.value > 0.0 {
        QuotientBound(Charged(ps), ChargingTime(net.capacity, ps), rate.value);
        if required > 0.0 { QuotientBound(required, ChargingTime(net.capacity, ps), rate.value); }
      } else {
        FastestNonNegative(net);
        assert Bought(ChargingTime(net.capacity, ps), 0.0) == 0.0 by { BoughtAtZero(ChargingTime(net.capacity, ps)); }
      }
    }
  }

  lemma LastNonNegative(cap: real, ps: seq<Soc>)
    requires Bounded(cap, ps)
    ensures 0.0 <= Last(ps).departure
  {
  }

  lemma BoughtAtZero(time: real)
    ensures Bought(time, 0.0) == 0.0
  {
  }

  lemma FastestNonNegative(net: Instance)
    requires HasCurves(net) && MaximumChargingRate(net).Finite?
    requires forall s | 0 <= s < |net.stations| :: Valid(net.curve(net.stations[s]))
    ensures 0.0 <= MaximumChargingRate(net).value
  {
    if |net.stations| > 0 { FastestBounds(net, 0.0, 0, 0); }
  }

  // ----- certificates -----

  lemma {:induction false} NoStationsNoRuns(net: Instance, customers: seq<int>)
    requires 0.0 < net.speed && forall i | 0 <= i < |customers| :: !IsStation(net, customers[i])
    ensures CanonVisits(net, customers) == customers
  {
    hide CanonVisits;
    NothingRepeats(net, customers, |customers|);
    assert customers[..|customers|] == customers;
  }

  lemma {:induction false} NoStationsNoCharge(cap: real, ps: seq<Soc>)
    requires 0.0 <= cap && AllFit(cap, ps) && forall j | 0 <= j < |ps| :: ps[j].charger.None?
    ensures ChargingTime(cap, ps) == 0.0
  {
    if ps != [] { NoStationsNoCharge(cap, ps[..|ps| - 1]); }
  }

  lemma {:induction false} RunChargers(cap: real, st: State, stops: seq<Stop>)
    requires Ready(cap, st) && AllSound(cap, stops)
    requires forall j | 0 <= j < |stops| :: stops[j].charger.None?
    requires forall j | 0 <= j < |st.walked| :: st.walked[j].charger.None?
    ensures forall j | 0 <= j < |Run(cap, st, stops).walked| :: Run(cap, st, stops).walked[j].charger.None?
    decreases |stops|
  {
    hide Fill, Strict;
    if stops != [] {
      var left := Last(st.walked).departure - stops[0].energy;
      if left < 0.0 { FillChargers(cap, st.walked, st.shift, -left); }
      RunChargers(cap, Reach(cap, st, stops[0]), stops[1..]);
    }
  }

  /** The all-direct plan spends its raw cost on travel alone. */
  lemma {:induction false} DirectCost(net: Instance, customers: seq<int>)
    requires Regular(net) && forall i | 0 <= i < |customers| :: !IsStation(net, customers[i])
    ensures NodeCost(net, customers).raw == PathTravel(net, Nodes(net, customers))
    ensures NodeCost(net, customers).charging == 0.0
  {
    hide Strict, Metric, Run, ChargingTime, Stretch, PathTravel;
    RegularSpeed(net);
    NoStationsNoRuns(net, customers);
    var nodes := Nodes(net, customers);
    StretchTotals(net, nodes);
    NodeStopsSound(net, nodes);
    var stops := NodeStops(net, nodes);
    var l := RouteLabel(net, customers);
    var shift := ShiftLeft(VehicleOf(net), l.travel, l.service);
    DepartingReady(net.capacity, shift);
    RunChargers(net.capacity, Departing(net.capacity, shift), stops);
    NoStationsNoCharge(net.capacity, Run(net.capacity, Departing(net.capacity, shift), stops).walked);
  }

  /** A feasible all-direct plan is optimal: no schedule with stations is cheaper. */
  lemma FeasibleDirectIsOptimal(net: Instance, customers: seq<int>, visits: seq<int>, ps: seq<Soc>)
    requires Listed(net) && HasCurves(net) && Schedule(net, customers, visits, ps)
    requires forall i | 0 <= i < |customers| :: !IsStation(net, customers[i])
    requires NodeCost(net, customers).feasible
    ensures NodeCost(net, customers).raw <= SummaryOf(net, customers, visits, ps).raw
  {
    hide NodeCost, SummaryOf, Schedule, Strict, Metric;
    ListedCurves(net);
    RegularSpeed(net);
    BoundHolds(net, customers, visits, ps);
    DirectCost(net, customers);
    BoundAtLeastTravel(net, customers);
  }

  lemma {:induction false} BoundAtLeastTravel(net: Instance, customers: seq<int>)
    requires Listed(net) && HasCurves(net) && 0.0 < net.speed
    ensures var bound := FrvcpRouteLowerBound(net, customers).objective;
      bound.Finite? ==> PathTravel(net, Nodes(net, customers)) <= bound.value
  {
    hide Strict, Metric, PathTravel, PathEnergy, PathService, MaximumChargingRate;
    var rate := MaximumChargingRate(net);
    var required := Max(0.0, PathEnergy(net, Nodes(net, customers)) - net.capacity);
    if rate.Finite? && rate.value > 0.0 { assert 0.0 <= required / rate.value; }
  }

  /** When the bound is infinite or bound and service exceed the horizon, no schedule is feasible. */
  lemma BoundProvesInfeasible(net: Instance, customers: seq<int>, visits: seq<int>, ps: seq<Soc>)
    requires Listed(net) && HasCurves(net) && 0.0 < net.speed
    requires var bound := FrvcpRouteLowerBound(net, customers);
      bound.objective.Infinite? || bound.objective.value + bound.service > net.horizon
    requires Schedule(net, customers, visits, ps)
    ensures !SummaryOf(net, customers, visits, ps).feasible
  {
    hide Schedule, Strict, Metric, FrvcpRouteLowerBound, Stretch, ChargingTime;
    BoundHolds(net, customers, visits, ps);
  }

  /** A replayed schedule that meets the bound within the tolerance is optimal within it. */
  lemma MeetingTheBoundIsOptimal(net: Instance, customers: seq<int>, tolerance: real,
                                 visits: seq<int>, ps: seq<Soc>, others: seq<int>, qs: seq<Soc>)
    requires Listed(net) && HasCurves(net) && 0.0 < net.speed
    requires Schedule(net, customers, visits, ps) && Schedule(net, customers, others, qs)
    requires var bound := FrvcpRouteLowerBound(net, customers).objective;
      bound.Finite? && SummaryOf(net, customers, visits, ps).raw <= bound.value + tolerance
    ensures SummaryOf(net, customers, visits, ps).raw <= SummaryOf(net, customers, others, qs).raw + tolerance
  {
    hide Schedule, Strict, Metric, FrvcpRouteLowerBound, SummaryOf;
    BoundHolds(net, customers, others, qs);
  }

  /** The greedy evaluation of any route, once feasible, costs at least the bound of its customers. */
  lemma {:induction false} GreedyMeetsBound(net: Instance, visits: seq<int>, s: Summary, ps: seq<Soc>)
    requires Listed(net) && HasCurves(net) && ReplaysAs(net, visits, s, ps)
    ensures var bound := FrvcpRouteLowerBound(net, Direct(net, visits)).objective;
      bound.Finite? && bound.value <= s.raw
  {
    hide Strict, Metric, FrvcpRouteLowerBound, Replayed, Stretch, ScheduleCost;
    RegularSpeed(net);
    BoundHolds(net, Direct(net, visits), visits, ps);
  }
}
