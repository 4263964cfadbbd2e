/** Lower bounds on the cost of a route that never look at its charging decisions (src/search.cpp,
    `nonlinear_travel_bound`, `zero_shift_energy_cost_bound`). */
module ReplacementBounds {
  import opened Common
  import opened Curves
  import opened Network
  import opened Labels
  import opened Canonical
  import opened Charging
  import opened ChargingSplit
  import opened ChargingCollapse
  import opened ChargingLaws
  import opened Kernels
  import opened Evaluation
  import opened RouteCosts

  /** Travel with the unavoidable excess; charging and shortfall only add to it. */
  function TravelBound(v: Vehicle, travel: real, service: real, lambda: real): real {
    travel + lambda * Max(0.0, travel + service - v.horizon)
  }

  lemma TravelBoundHolds(v: Vehicle, travel: real, service: real, stops: seq<Stop>, lambda: real)
    requires 0.0 < v.capacity && 0.0 < v.consumption && AllSound(v.capacity, stops) && 0.0 <= lambda
    ensures TravelBound(v, travel, service, lambda) <= GeneralizedCost(Cost(v, travel, service, stops), v, lambda)
  {
    hide Cost, GeneralizedCost, Run, Sound;
    PartialShortfallBounds(v, travel, service, stops, 0, lambda);
    var depot := Departing(v.capacity, ShiftLeft(v, travel, service));
    assert stops[..0] == [];
    RunNothing(v.capacity, depot);
    assert BoundCost(travel, 0.0, Max(0.0, travel + service - v.horizon), v, lambda)
           == TravelBound(v, travel, service, lambda);
  }

  lemma TravelBoundGrows(v: Vehicle, x: real, y: real, service: real, lambda: real)
    requires x <= y && 0.0 <= lambda
    ensures TravelBound(v, x, service, lambda) <= TravelBound(v, y, service, lambda)
  {
    Weighted(lambda, Max(0.0, x + service - v.horizon), Max(0.0, y + service - v.horizon));
  }

  lemma Weighted(w: real, x: real, y: real)
    requires 0.0 <= w && x <= y
    ensures w * x <= w * y
  {
    assert w * (y - x) >= 0.0;
  }

  // ----- no time left to charge -----

  /** With no shift left nothing is ever bought. */
  lemma {:induction false} NoShiftNoFill(cap: real, ps: seq<Soc>, need: real)
    requires Walked(cap, ps) && 0.0 <= need
    ensures Fill(cap, ps, 0.0, need).walked == ps && Fill(cap, ps, 0.0, need).shift == 0.0
  {
    hide Fill, Walked;
    if Pick(cap, ps, 0.0, |ps|).Some? {
      PickIsBest(cap, ps, 0.0);
      NothingToSell(cap, ps, Pick(cap, ps, 0.0, |ps|).value);
    } else {
      FillNothing(cap, ps, 0.0, need);
    }
  }

  lemma NothingToSell(cap: real, ps: seq<Soc>, i: nat)
    requires Walked(cap, ps)
    ensures !IsBest(cap, ps, 0.0, i)
  {
  }

  ghost predicate Idle(st: State) {
    st.shift == 0.0 && Charged(st.walked) == 0.0
  }

  lemma ReachIdle(cap: real, st: State, stop: Stop)
    requires Ready(cap, st) && Sound(cap, stop) && Idle(st)
    ensures Idle(Reach(cap, st, stop))
  {
    hide Fill;
    var left := Last(st.walked).departure - stop.energy;
    if left < 0.0 { NoShiftNoFill(cap, st.walked, -left); }
    var p := Soc(Max(0.0, left), Max(0.0, left), stop.charger);
    assert (st.walked + [p])[..|st.walked|] == st.walked;
  }

  lemma {:induction false} RunIdle(cap: real, st: State, stops: seq<Stop>)
    requires Ready(cap, st) && AllSound(cap, stops) && Idle(st)
    ensures Idle(Run(cap, st, stops))
    decreases |stops|
  {
    hide Reach, Idle, Ready, Sound;
    if stops != [] {
      ReachIdle(cap, st, stops[0]);
      RunIdle(cap, Reach(cap, st, stops[0]), stops[1..]);
    }
  }

  /** A route that drives and serves for the whole horizon charges nothing, so all energy beyond the
      battery is missing. */
  lemma {:induction false} NoShiftShortfall(v: Vehicle, travel: real, service: real, stops: seq<Stop>)
    requires 0.0 < v.capacity && AllSound(v.capacity, stops) && v.horizon <= travel + service
    ensures Max(0.0, EnergyOf(stops) - v.capacity) <= Cost(v, travel, service, stops).shortfall
  {
    hide Run, Charged, Bounded, Chained, Walked, EnergyOf;
    var depot := Departing(v.capacity, 0.0);
    WalkLaws(v.capacity, 0.0, stops);
    assert Charged(depot.walked) == 0.0 by { NothingCharged(v.capacity); }
    RunIdle(v.capacity, depot, stops);
    var r := Run(v.capacity, depot, stops);
    LastInBounds(v.capacity, r);
  }

  lemma NothingCharged(cap: real)
    ensures Charged([Soc(0.0, cap, None)]) == 0.0
  {
  }

  lemma LastInBounds(cap: real, st: State)
    requires Ready(cap, st)
    ensures 0.0 <= Last(st.walked).departure
  {
  }

  /** The bound is only used when there is no time left to charge. */
  function EnergyBound(v: Vehicle, travel: real, service: real, energy: real, lambda: real): real
    requires 0.0 < v.consumption
  {
    BoundCost(travel, Max(0.0, energy - v.capacity), Max(0.0, travel + service - v.horizon), v, lambda)
  }

  lemma {:induction false} EnergyBoundHolds(v: Vehicle, travel: real, service: real, stops: seq<Stop>, lambda: real)
    requires 0.0 < v.capacity && 0.0 < v.consumption && AllSound(v.capacity, stops) && 0.0 <= lambda
    requires v.horizon <= travel + service
    ensures EnergyBound(v, travel, service, EnergyOf(stops), lambda)
         <= GeneralizedCost(Cost(v, travel, service, stops), v, lambda)
  {
    hide EnergyOf;
    NoShiftShortfall(v, travel, service, stops);
    CostParts(v, travel, service, stops);
    var s := Cost(v, travel, service, stops);
    hide Cost;
    PenaltyMonotone(Max(0.0, EnergyOf(stops) - v.capacity), s.shortfall, v.consumption, lambda,
                    Max(0.0, travel + service - v.horizon), s.excess);
  }

  lemma CostParts(v: Vehicle, travel: real, service: real, stops: seq<Stop>)
    requires 0.0 < v.capacity && AllSound(v.capacity, stops)
    ensures var s := Cost(v, travel, service, stops);
      travel <= s.raw && Max(0.0, travel + service - v.horizon) <= s.excess
  {
    hide Run, ChargingTime;
    ChargingTimeNonNegative(v.capacity, Run(v.capacity, Departing(v.capacity, ShiftLeft(v, travel, service)), stops).walked);
  }

  lemma EnergyBoundGrows(v: Vehicle, x: real, y: real, service: real, e: real, f: real, lambda: real)
    requires 0.0 < v.consumption && 0.0 <= lambda && x <= y && e <= f
    ensures EnergyBound(v, x, service, e, lambda) <= EnergyBound(v, y, service, f, lambda)
  {
    PenaltyMonotone(Max(0.0, e - v.capacity), Max(0.0, f - v.capacity), v.consumption, lambda,
                    Max(0.0, x + service - v.horizon), Max(0.0, y + service - v.horizon));
  }

  // ----- the energy of a label -----

  function LegEnergy(legs: seq<Leg>): real {
    if legs == [] then 0.0 else LegEnergy(legs[..|legs| - 1]) + legs[|legs| - 1].energy
  }

  function LabelEnergy(l: Label): real {
    if l.Blank? then 0.0 else LegEnergy(l.legs) + l.tail
  }

  lemma {:induction false} LegEnergyAppend(a: seq<Leg>, b: seq<Leg>)
    ensures LegEnergy(a + b) == LegEnergy(a) + LegEnergy(b)
    decreases |b|
  {
    if b == [] {
      assert a + b == a;
    } else {
      LegEnergyAppend(a, b[..|b| - 1]);
      assert (a + b)[..|a + b| - 1] == a + b[..|b| - 1];
    }
  }

  lemma ConcatEnergy(a: Label, b: Label)
    ensures LabelEnergy(Concat(a, b)) == LabelEnergy(a) + LabelEnergy(b)
  {
    hide LegEnergy;
    if a.Label? && b.Label? {
      if b.legs != [] {
        LegEnergyAppend(a.legs, Carried(a.tail, b.legs));
        CarriedEnergy(a.tail, b.legs);
      }
      NoLegs();
    }
  }

  lemma NoLegs()
    ensures LegEnergy([]) == 0.0
  {
  }

  lemma {:induction false} CarriedEnergy(tail: real, legs: seq<Leg>)
    requires legs != []
    ensures LegEnergy(Carried(tail, legs)) == LegEnergy(legs) + tail
  {
    var first := legs[0].(energy := legs[0].energy + tail);
    LegEnergyAppend([first], legs[1..]);
    LegEnergyAppend([legs[0]], legs[1..]);
    assert [legs[0]] + legs[1..] == legs;
    assert [first][..0] == [] && [legs[0]][..0] == [];
  }

  /** Energy is travel times speed times consumption. */
  ghost predicate Proportional(net: Instance, l: Label) {
    l.Label? ==> LabelEnergy(l) == TravelEnergy(net, l.travel)
  }

  /** What driving for this long consumes. */
  function TravelEnergy(net: Instance, travel: real): real {
    travel * net.speed * net.consumption
  }

  lemma TravelEnergySum(net: Instance, x: real, y: real)
    ensures TravelEnergy(net, x + y) == TravelEnergy(net, x) + TravelEnergy(net, y)
  {
  }

  lemma TravelEnergyGrows(net: Instance, x: real, y: real)
    requires 0.0 < net.speed && 0.0 < net.consumption && x <= y
    ensures TravelEnergy(net, x) <= TravelEnergy(net, y)
  {
    Weighted(net.speed, x, y);
    Weighted(net.consumption, x * net.speed, y * net.speed);
  }

  lemma Undivided(x: real, d: real)
    requires 0.0 < d
    ensures x / d * d == x
  {
  }

  lemma HopProportional(net: Instance, a: int, b: int)
    requires 0.0 < net.speed
    ensures Proportional(net, Hop(net, a, b))
  {
    var d, h := net.distance(a, b), Hop(net, a, b);
    Undivided(d, net.speed);
    NoLegs();
    if h.legs != [] { assert h.legs[..0] == []; }
    assert LabelEnergy(h) == d * net.consumption;
    assert TravelEnergy(net, h.travel) == d * net.consumption;
  }

  lemma {:induction false} StretchProportional(net: Instance, nodes: seq<int>)
    requires 0.0 < net.speed && nodes != []
    ensures Proportional(net, Stretch(net, nodes))
    decreases |nodes|
  {
    hide Concat, Hop, Stretch, TravelEnergy, LabelEnergy;
    var n := |nodes| - 1;
    if n == 0 {
      StretchOne(net, nodes[0]);
      assert nodes == [nodes[0]];
    } else {
      StretchProportional(net, nodes[..n]);
      assert nodes[..n] + [nodes[n]] == nodes;
      StretchNext(net, nodes[..n], nodes[n]);
      HopProportional(net, nodes[n - 1], nodes[n]);
      ConcatProportional(net, Stretch(net, nodes[..n]), Hop(net, nodes[n - 1], nodes[n]));
    }
  }

  lemma ConcatProportional(net: Instance, a: Label, b: Label)
    requires Proportional(net, a) && Proportional(net, b)
    ensures Proportional(net, Concat(a, b))
  {
    hide TravelEnergy, LabelEnergy;
    ConcatEnergy(a, b);
    if a.Label? && b.Label? { TravelEnergySum(net, a.travel, b.travel); }
    BlankEnergy();
  }

  lemma BlankEnergy()
    ensures LabelEnergy(Blank) == 0.0
  {
  }

  /** Merged legs carry no energy. */
  lemma {:induction false} CanonEnergy(net: Instance, legs: seq<Leg>)
    requires 0.0 < net.speed
    ensures LegEnergy(CanonLegs(net, legs)) == LegEnergy(legs)
  {
    hide Supported;
    if |legs| > 1 {
      var n := |legs| - 1;
      CanonEnergy(net, legs[..n]);
      var kept := CanonLegs(net, legs[..n]);
      assert (kept + [legs[n]])[..|kept|] == kept;
    }
  }

  lemma {:induction false} StopsEnergy(net: Instance, legs: seq<Leg>)
    ensures EnergyOf(LegStops(net, legs)) == LegEnergy(legs)
  {
    if legs != [] {
      var n := |legs| - 1;
      StopsEnergy(net, legs[..n]);
      assert LegStops(net, legs)[..n] == LegStops(net, legs[..n]);
    }
  }

  /** The stops the station-only kernel walks need the energy of the label. */
  lemma {:induction false} KernelEnergy(net: Instance, l: Label)
    requires 0.0 < net.speed && l.Label?
    ensures EnergyOf(StationStops(LegStops(net, CanonLegs(net, l.legs)), l.tail)) == LabelEnergy(l)
  {
    hide CanonLegs, LegEnergy;
    var stops := LegStops(net, CanonLegs(net, l.legs));
    assert StationStops(stops, l.tail)[..|stops|] == stops;
    StopsEnergy(net, CanonLegs(net, l.legs));
    CanonEnergy(net, l.legs);
  }

  // ----- bounds on labels -----

  lemma LabelTravelBound(net: Instance, l: Label, lambda: real)
    requires Regular(net) && l.Label? && SoundLabel(net, l) && 0.0 <= lambda
    ensures TravelBound(VehicleOf(net), l.travel, l.service, lambda)
         <= GeneralizedCost(LabelCost(net, l), VehicleOf(net), lambda)
  {
    hide Cost, GeneralizedCost, CanonLegs, TravelBound, Strict;
    LegStopsSound(net, l.legs);
    TravelBoundHolds(VehicleOf(net), l.travel, l.service, StationStops(LegStops(net, CanonLegs(net, l.legs)), l.tail), lambda);
  }

  lemma LabelEnergyBound(net: Instance, l: Label, lambda: real)
    requires Regular(net) && l.Label? && SoundLabel(net, l) && Proportional(net, l) && 0.0 <= lambda
    requires net.horizon <= l.travel + l.service
    ensures EnergyBound(VehicleOf(net), l.travel, l.service, TravelEnergy(net, l.travel), lambda)
         <= GeneralizedCost(LabelCost(net, l), VehicleOf(net), lambda)
  {
    hide Cost, GeneralizedCost, CanonLegs, EnergyBound, Strict, TravelEnergy, LabelEnergy, EnergyOf;
    LegStopsSound(net, l.legs);
    KernelEnergy(net, l);
    EnergyBoundHolds(VehicleOf(net), l.travel, l.service, StationStops(LegStops(net, CanonLegs(net, l.legs)), l.tail), lambda);
  }
}
