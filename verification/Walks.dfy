/** What a walk costs at least, and what a schedule can drive without charging. */
module Walks {
  import opened Common
  import opened Curves
  import opened Network
  import opened Labels
  import opened Charging
  import opened ChargingCollapse
  import opened ChargingLaws
  import opened Evaluation
  import opened Replay
  import opened RouteCosts
  import opened LowerBound

  // ----- sums along a walk -----

  lemma {:induction false} WalkSplit(net: Instance, nodes: seq<int>, k: nat)
    requires 0.0 < net.speed && k < |nodes|
    ensures PathTravel(net, nodes) == PathTravel(net, nodes[..k + 1]) + PathTravel(net, nodes[k..])
    ensures PathEnergy(net, nodes) == PathEnergy(net, nodes[..k + 1]) + PathEnergy(net, nodes[k..])
    ensures PathService(net, nodes) == PathService(net, nodes[..k + 1]) + PathService(net, nodes[k..])
  {
    hide Travel, Energy, Service;
    if k > 0 {
      WalkSplit(net, nodes[1..], k - 1);
      assert nodes[..k + 1][1..] == nodes[1..][..k] && nodes[1..][k - 1..] == nodes[k..];
    } else {
      assert nodes[0..] == nodes;
    }
  }

  lemma {:induction false} WalkJoin(net: Instance, xs: seq<int>, ys: seq<int>)
    requires 0.0 < net.speed && xs != [] && ys != [] && xs[|xs| - 1] == ys[0]
    ensures PathTravel(net, xs + ys[1..]) == PathTravel(net, xs) + PathTravel(net, ys)
    ensures PathEnergy(net, xs + ys[1..]) == PathEnergy(net, xs) + PathEnergy(net, ys)
  {
    hide PathTravel, PathEnergy, PathService;
    var whole := xs + ys[1..];
    WalkSplit(net, whole, |xs| - 1);
    assert whole[..|xs|] == xs && whole[|xs| - 1..] == ys;
  }

  /** A walk is at least as long as the leg between its ends. */
  lemma {:induction false} Shortcut(net: Instance, nodes: seq<int>)
    requires Positive(net) && Metric(net) && nodes != []
    ensures Travel(net, nodes[0], nodes[|nodes| - 1]) <= PathTravel(net, nodes)
    ensures Energy(net, nodes[0], nodes[|nodes| - 1]) <= PathEnergy(net, nodes)
    decreases |nodes|
  {
    hide Travel, Energy, Metric, Positive;
    if |nodes| == 1 {
      TravelFacts(net, nodes[0], nodes[0]);
    } else {
      Shortcut(net, nodes[1..]);
      Triangle(net, nodes[0], nodes[1], nodes[|nodes| - 1]);
    }
  }

  lemma {:induction false} ServiceAtEnd(net: Instance, nodes: seq<int>)
    requires forall id :: 0.0 <= Service(net, id)
    ensures 0.0 <= PathService(net, nodes)
    ensures |nodes| >= 2 ==> Service(net, nodes[|nodes| - 1]) <= PathService(net, nodes)
    decreases |nodes|
  {
    hide Service;
    if |nodes| >= 2 {
      assert 0.0 <= Service(net, nodes[1]);
      ServiceAtEnd(net, nodes[1..]);
    }
  }

  // ----- a path on a walk -----

  /** The route goes from the origin along the path to the target. */
  ghost predicate Passes(nodes: seq<int>, i: nat, origin: int, middle: seq<int>, target: int) {
    i + |middle| + 1 < |nodes| && nodes[i..i + |middle| + 2] == [origin] + middle + [target]
  }

  // ----- between two charges -----

  lemma {:induction false} StretchGrows(net: Instance, nodes: seq<int>, i: nat, j: nat)
    requires 0.0 < net.speed && i < j < |nodes|
    ensures PathEnergy(net, nodes[i..j + 1])
      == (if j == i + 1 then 0.0 else PathEnergy(net, nodes[i..j])) + Energy(net, nodes[j - 1], nodes[j])
  {
    hide Energy, PathTravel, PathService;
    var part, last := nodes[i..j + 1], [nodes[j - 1], nodes[j]];
    assert PathEnergy(net, last) == Energy(net, nodes[j - 1], nodes[j]) by { assert last[1..] == [nodes[j]]; }
    if j == i + 1 {
      assert part == last;
    } else {
      WalkSplit(net, part, j - 1 - i);
      assert part[..j - i] == nodes[i..j] && part[j - 1 - i..] == last;
    }
  }

  /** One leg of a physical trace. */
  lemma LegDrains(net: Instance, nodes: seq<int>, ps: seq<Soc>, j: nat)
    requires nodes != [] && Bounded(net.capacity, ps) && Chained(ps, NodeStops(net, nodes)) && 1 <= j < |nodes|
    ensures |ps| == |nodes| && 0.0 <= ps[j].arrival && ps[j - 1].departure <= net.capacity
    ensures ps[j].arrival == ps[j - 1].departure - Energy(net, nodes[j - 1], nodes[j])
    ensures !IsStation(net, nodes[j]) ==> ps[j].departure == ps[j].arrival
  {
    hide Energy, Strict;
    var stops := NodeStops(net, nodes);
    assert Linked(ps, stops, j);
    assert stops[j - 1] == Stop(Energy(net, nodes[j - 1], nodes[j]), Charger(net, nodes[j]));
  }

  /** Between two positions without a station in between, a schedule drives on what it left with. */
  lemma {:induction false} StretchDrains(net: Instance, nodes: seq<int>, ps: seq<Soc>, i: nat, j: nat)
    requires 0.0 < net.speed && nodes != [] && Bounded(net.capacity, ps) && Chained(ps, NodeStops(net, nodes))
    requires i < j < |nodes| && forall k | i < k < j :: !IsStation(net, nodes[k])
    ensures |ps| == |nodes| && ps[j].arrival == ps[i].departure - PathEnergy(net, nodes[i..j + 1])
    ensures PathEnergy(net, nodes[i..j + 1]) <= net.capacity
    decreases j - i
  {
    hide Energy, PathEnergy, Bounded, Chained, NodeStops, IsStation;
    LegDrains(net, nodes, ps, j);
    LegDrains(net, nodes, ps, i + 1);
    StretchGrows(net, nodes, i, j);
    if j > i + 1 {
      StretchDrains(net, nodes, ps, i, j - 1);
      LegDrains(net, nodes, ps, j - 1);
    }
  }

  // ----- charging and time -----

  /** Charging beyond one battery takes at least the time it takes at the fastest rate. */
  lemma {:induction false} RechargeTakes(net: Instance, visits: seq<int>, ps: seq<Soc>, rate: real, energy: real)
    requires Listed(net) && HasCurves(net) && Schedule(net, Direct(net, visits), visits, ps)
    requires MaximumChargingRate(net).Finite? && MaximumChargingRate(net).value <= rate && 0.0 < rate
    requires energy <= PathEnergy(net, Nodes(net, visits))
    ensures AllFit(net.capacity, ps) && 0.0 <= net.capacity
    ensures Max(0.0, energy - net.capacity) / rate <= ChargingTime(net.capacity, ps)
  {
    hide Strict, Metric, Replayed, NodeStops, ChargingTime, Fits, PathEnergy, MaximumChargingRate, Charged, Bought;
    ListedCurves(net);
    var nodes := Nodes(net, visits);
    var stops := NodeStops(net, nodes);
    ScheduleFacts(net, Direct(net, visits), visits, ps);
    ScheduleChargers(net, visits, ps);
    StopEnergy(net, nodes);
    TraceBalance(net.capacity, ps, stops);
    ChargingTimeNonNegative(net.capacity, ps);
    LastNonNegative(net.capacity, ps);
    var time := ChargingTime(net.capacity, ps);
    ChargedTakesTime(net, ps, MaximumChargingRate(net).value);
    Faster(time, MaximumChargingRate(net).value, rate);
    QuotientBound(Max(0.0, energy - net.capacity), time, rate);
  }

  /** Without any charging rate, a schedule drives on one battery. */
  lemma {:induction false} NoRateNoRecharge(net: Instance, visits: seq<int>, ps: seq<Soc>)
    requires Listed(net) && HasCurves(net) && Schedule(net, Direct(net, visits), visits, ps)
    requires MaximumChargingRate(net).Finite? && MaximumChargingRate(net).value <= 0.0
    ensures PathEnergy(net, Nodes(net, visits)) <= net.capacity
  {
    hide Strict, Metric, Replayed, NodeStops, ChargingTime, Fits, PathEnergy, MaximumChargingRate, Charged, Bought;
    ListedCurves(net);
    var nodes := Nodes(net, visits);
    ScheduleFacts(net, Direct(net, visits), visits, ps);
    ScheduleChargers(net, visits, ps);
    StopEnergy(net, nodes);
    TraceBalance(net.capacity, ps, NodeStops(net, nodes));
    LastNonNegative(net.capacity, ps);
    ChargedTakesTime(net, ps, MaximumChargingRate(net).value);
    FastestNonNegative(net);
    BoughtAtZero(ChargingTime(net.capacity, ps));
  }

  lemma Faster(time: real, slow: real, fast: real)
    requires 0.0 <= time && slow <= fast && 0.0 <= fast
    ensures Bought(time, slow) <= Bought(time, fast) && 0.0 <= Bought(time, fast)
  {
    assert (fast - slow) * time >= 0.0 && fast * time >= 0.0;
  }

  /** A schedule is feasible when it ends in time. */
  lemma {:induction false} FeasibleWithin(net: Instance, customers: seq<int>, visits: seq<int>, ps: seq<Soc>)
    requires Regular(net) && Schedule(net, customers, visits, ps)
    requires 0.0 <= net.capacity && 0.0 < net.speed && AllFit(net.capacity, ps)
    requires RouteLabel(net, visits).Label?
    ensures var route := RouteLabel(net, visits);
      SummaryOf(net, customers, visits, ps).feasible <==>
      route.travel + ChargingTime(net.capacity, ps) + route.service <= net.horizon
  {
    hide Strict, Metric, Schedule, ChargingTime, RouteLabel, SoundLabel, Fits;
  }
}
