/** Two ways to cost a route: node by node (`evaluate_uncached`) and station legs only
    (`evaluate` on `route_label`). */
module RouteCosts {
  import opened Common
  import opened Curves
  import opened Network
  import opened Labels
  import opened Canonical
  import opened Charging
  import opened ChargingCollapse
  import opened Kernels
  import opened Evaluation

  function VehicleOf(net: Instance): Vehicle {
    Vehicle(net.capacity, net.horizon, net.consumption)
  }

  // ----- stops -----

  /** Every node of a stretch as a stop. */
  function NodeStops(net: Instance, nodes: seq<int>): (r: seq<Stop>)
    requires nodes != []
    ensures |r| == |nodes| - 1
    ensures forall i | 0 <= i < |r| ::
      r[i] == Stop(Energy(net, nodes[i], nodes[i + 1]), Charger(net, nodes[i + 1]))
  {
    seq(|nodes| - 1, i requires 0 <= i < |nodes| - 1 =>
      Stop(Energy(net, nodes[i], nodes[i + 1]), Charger(net, nodes[i + 1])))
  }

  /** Station legs as stops. */
  function LegStops(net: Instance, legs: seq<Leg>): (r: seq<Stop>)
    ensures |r| == |legs|
    ensures forall i | 0 <= i < |r| :: r[i] == Stop(legs[i].energy, Some(net.curve(legs[i].station)))
  {
    seq(|legs|, i requires 0 <= i < |legs| => Stop(legs[i].energy, Some(net.curve(legs[i].station))))
  }

  function LabelStops(net: Instance, l: Label): seq<Stop>
    requires l.Label?
  {
    StationStops(LegStops(net, l.legs), l.tail)
  }

  function MoreEnergy(stops: seq<Stop>, extra: real): seq<Stop>
    requires stops != []
  {
    [stops[0].(energy := stops[0].energy + extra)] + stops[1..]
  }

  /** A label without stations that carries `extra` energy up to `node`. */
  function Carrier(node: int, extra: real): Label {
    Label(node, node, [], extra, 0.0, 0.0)
  }

  lemma StretchFront(net: Instance, nodes: seq<int>)
    requires 0.0 < net.speed && |nodes| >= 2
    ensures Stretch(net, nodes) == Concat(Hop(net, nodes[0], nodes[1]), Stretch(net, nodes[1..]))
  {
    FoldFront(Hops(net, nodes));
    assert Hops(net, nodes)[1..] == Hops(net, nodes[1..]);
  }

  ghost predicate SameStops(a: Label, b: Label) {
    a.Label? && b.Label? && a.legs == b.legs && a.tail == b.tail
  }

  /** What a hop to a customer does to the rest of the label: its energy moves on. */
  lemma CustomerHop(net: Instance, a: int, b: int, extra: real, rest: Label)
    requires 0.0 < net.speed && !IsStation(net, b) && rest.Label?
    ensures SameStops(Concat(Carrier(a, extra), Concat(Hop(net, a, b), rest)),
                      Concat(Carrier(b, Energy(net, a, b) + extra), rest))
  {
    hide Energy, Travel;
    ConcatAssociative(Carrier(a, extra), Hop(net, a, b), rest);
  }

  lemma StationHop(net: Instance, a: int, b: int, extra: real, rest: Label)
    requires 0.0 < net.speed && IsStation(net, b) && rest.Label?
    ensures var l := Concat(Carrier(a, extra), Concat(Hop(net, a, b), rest));
      var r := Concat(Carrier(b, 0.0), rest);
      && l.Label? && r.Label?
      && l.legs == [Leg(b, extra + Energy(net, a, b), a == b)] + r.legs
      && l.tail == r.tail
  {
    hide Energy, Travel, Concat, Hop;
    ConcatAssociative(Carrier(a, extra), Hop(net, a, b), rest);
    ConcatHop(net, Carrier(a, extra), a, b);
    var leg := Leg(b, extra + Energy(net, a, b), a == b);
    assert [] + [leg] == [leg];
    LegThenRest(Concat(Carrier(a, extra), Hop(net, a, b)), b, leg, rest);
  }

  lemma LegThenRest(left: Label, b: int, leg: Leg, rest: Label)
    requires left.Label? && left.legs == [leg] && left.tail == 0.0 && rest.Label?
    ensures var l, r := Concat(left, rest), Concat(Carrier(b, 0.0), rest);
      l.Label? && r.Label? && l.legs == [leg] + r.legs && l.tail == r.tail
  {
    hide Carried;
    if rest.legs != [] { assert [] + Carried(0.0, rest.legs) == Carried(0.0, rest.legs); }
  }

  lemma LegStopsFront(net: Instance, leg: Leg, legs: seq<Leg>, tail: real)
    ensures StationStops(LegStops(net, [leg] + legs), tail)
            == [Stop(leg.energy, Some(net.curve(leg.station)))] + StationStops(LegStops(net, legs), tail)
  {
    assert LegStops(net, [leg] + legs)
           == [Stop(leg.energy, Some(net.curve(leg.station)))] + LegStops(net, legs);
  }

  /** The claim below, for one stretch and one amount of energy carried into it. */
  ghost predicate FoldsTo(net: Instance, nodes: seq<int>, extra: real)
    requires 0.0 < net.speed && |nodes| >= 2
  {
    && Stretch(net, nodes).Label?
    && Collapse(MoreEnergy(NodeStops(net, nodes), extra))
       == LabelStops(net, Concat(Carrier(nodes[0], extra), Stretch(net, nodes)))
  }

  lemma FoldsBase(net: Instance, a: int, b: int, extra: real)
    requires 0.0 < net.speed && !IsStation(net, b)
    ensures FoldsTo(net, [a, b], extra)
  {
    hide Energy, Travel, Concat, Hop, Stretch;
    StretchFront(net, [a, b]);
    assert [a, b][1..] == [b];
    StretchOne(net, b);
    ConcatBlank(Hop(net, a, b));
    HopEnds(net, a, b);
    ConcatHop(net, Carrier(a, extra), a, b);
    assert LegStops(net, []) == [];
    assert MoreEnergy(NodeStops(net, [a, b]), extra) == [Stop(Energy(net, a, b) + extra, None)];
  }

  lemma MergedFront(net: Instance, nodes: seq<int>, extra: real)
    requires |nodes| >= 3 && !IsStation(net, nodes[1])
    ensures var more := MoreEnergy(NodeStops(net, nodes), extra);
      && |more| >= 2 && more[0].charger.None?
      && Collapse(more) == Collapse(MoreEnergy(NodeStops(net, nodes[1..]), Energy(net, nodes[0], nodes[1]) + extra))
  {
    hide Energy;
    var more := MoreEnergy(NodeStops(net, nodes), extra);
    assert [Merged(more[0], more[1])] + more[2..]
           == MoreEnergy(NodeStops(net, nodes[1..]), Energy(net, nodes[0], nodes[1]) + extra);
  }

  lemma FoldsCustomer(net: Instance, nodes: seq<int>, extra: real)
    requires 0.0 < net.speed && |nodes| >= 3 && !IsStation(net, nodes[1])
    requires FoldsTo(net, nodes[1..], Energy(net, nodes[0], nodes[1]) + extra)
    ensures FoldsTo(net, nodes, extra)
  {
    hide Energy, Travel, Concat, Hop, Stretch, LegStops, Collapse, NodeStops, MoreEnergy;
    var a, b := nodes[0], nodes[1];
    var rest := nodes[1..];
    StretchFront(net, nodes);
    StretchEnds(net, nodes);
    MergedFront(net, nodes, extra);
    CustomerHop(net, a, b, extra, Stretch(net, rest));
  }

  lemma KeptFront(net: Instance, nodes: seq<int>, extra: real)
    requires |nodes| >= 3 && IsStation(net, nodes[1])
    ensures Collapse(MoreEnergy(NodeStops(net, nodes), extra))
      == [Stop(Energy(net, nodes[0], nodes[1]) + extra, Some(net.curve(nodes[1])))]
         + Collapse(MoreEnergy(NodeStops(net, nodes[1..]), 0.0))
  {
    hide Energy;
    var more, rest := MoreEnergy(NodeStops(net, nodes), extra), NodeStops(net, nodes[1..]);
    assert MoreEnergy(rest, 0.0) == rest;
    assert more[1..] == rest;
  }

  lemma FoldsStation(net: Instance, nodes: seq<int>, extra: real)
    requires 0.0 < net.speed && |nodes| >= 3 && IsStation(net, nodes[1])
    requires FoldsTo(net, nodes[1..], 0.0)
    ensures FoldsTo(net, nodes, extra)
  {
    hide Energy, Travel, Concat, Hop, Stretch, LegStops, Collapse, NodeStops, MoreEnergy;
    var a, b := nodes[0], nodes[1];
    var rest := nodes[1..];
    StretchFront(net, nodes);
    StretchEnds(net, nodes);
    KeptFront(net, nodes, extra);
    StationHop(net, a, b, extra, Stretch(net, rest));
    var tail := Concat(Carrier(b, 0.0), Stretch(net, rest));
    LegStopsFront(net, Leg(b, extra + Energy(net, a, b), a == b), tail.legs, tail.tail);
  }

  /** Folding customers away turns the node stops of a stretch into the stops of its label. */
  lemma {:induction false} CollapseStretch(net: Instance, nodes: seq<int>, extra: real)
    requires 0.0 < net.speed && |nodes| >= 2 && !IsStation(net, nodes[|nodes| - 1])
    ensures FoldsTo(net, nodes, extra)
    decreases |nodes|
  {
    hide Energy, FoldsTo;
    if |nodes| == 2 {
      FoldsBase(net, nodes[0], nodes[1], extra);
      assert nodes == [nodes[0], nodes[1]];
    } else if IsStation(net, nodes[1]) {
      CollapseStretch(net, nodes[1..], 0.0);
      FoldsStation(net, nodes, extra);
    } else {
      CollapseStretch(net, nodes[1..], Energy(net, nodes[0], nodes[1]) + extra);
      FoldsCustomer(net, nodes, extra);
    }
  }

  lemma CarrierIsNeutral(node: int, l: Label)
    requires l.Label?
    ensures SameStops(Concat(Carrier(node, 0.0), l), l)
  {
    if l.legs != [] { assert Carried(0.0, l.legs) == l.legs; }
  }

  /** The stops of `route_label(route)` are the route's node stops with the customers folded away. */
  lemma RouteLabelStops(net: Instance, visits: seq<int>)
    requires 0.0 < net.speed && !IsStation(net, net.depot)
    ensures RouteLabel(net, visits).Label?
    ensures LabelStops(net, RouteLabel(net, visits)) == Collapse(NodeStops(net, Nodes(net, visits)))
  {
    hide Energy, Travel, Concat, Hop, Stretch, Collapse;
    var nodes := Nodes(net, visits);
    var stops := NodeStops(net, nodes);
    CollapseStretch(net, nodes, 0.0);
    CarrierIsNeutral(net.depot, RouteLabel(net, visits));
    assert MoreEnergy(stops, 0.0) == stops;
  }

  lemma NodeStopsSound(net: Instance, nodes: seq<int>)
    requires Regular(net) && nodes != []
    ensures AllSound(net.capacity, NodeStops(net, nodes))
    ensures ConcaveCharging(net) ==> ConcaveStops(NodeStops(net, nodes))
  {
    hide Strict, Concave;
    forall i | 0 <= i < |nodes| - 1 ensures Sound(net.capacity, NodeStops(net, nodes)[i]) {
      TravelFacts(net, nodes[i], nodes[i + 1]);
    }
  }

  /** Leg energies of a stretch are never negative. */
  ghost predicate SoundLabel(net: Instance, l: Label) {
    l.Label? ==>
      && 0.0 <= l.tail
      && forall i | 0 <= i < |l.legs| :: 0.0 <= l.legs[i].energy && IsStation(net, l.legs[i].station)
  }

  lemma ConcatSound(net: Instance, a: Label, b: Label)
    requires SoundLabel(net, a) && SoundLabel(net, b)
    ensures SoundLabel(net, Concat(a, b))
  {
  }

  lemma HopSound(net: Instance, a: int, b: int)
    requires Regular(net)
    ensures SoundLabel(net, Hop(net, a, b))
  {
    hide Strict, Energy, Travel;
    TravelFacts(net, a, b);
  }

  lemma {:induction false} StretchSound(net: Instance, nodes: seq<int>)
    requires Regular(net) && nodes != []
    ensures SoundLabel(net, Stretch(net, nodes))
    decreases |nodes|
  {
    hide Concat, Hop, Regular, SoundLabel, Stretch;
    assert 0.0 < net.speed by { RegularSpeed(net); }
    var n := |nodes| - 1;
    if n == 0 {
      StretchOne(net, nodes[0]);
      assert nodes == [nodes[0]];
      BlankSound(net);
    } else {
      StretchSound(net, nodes[..n]);
      assert nodes[..n] + [nodes[n]] == nodes;
      StretchNext(net, nodes[..n], nodes[n]);
      HopSound(net, nodes[n - 1], nodes[n]);
      ConcatSound(net, Stretch(net, nodes[..n]), Hop(net, nodes[n - 1], nodes[n]));
    }
  }

  lemma BlankSound(net: Instance)
    ensures SoundLabel(net, Blank)
  {
  }

  lemma RegularSpeed(net: Instance)
    requires Regular(net)
    ensures 0.0 < net.speed && 0.0 < net.capacity && 0.0 < net.consumption && !IsStation(net, net.depot)
  {
  }

  lemma {:induction false} CanonLegsSound(net: Instance, legs: seq<Leg>)
    requires 0.0 < net.speed
    ensures forall x | x in CanonLegs(net, legs) :: x in legs
  {
    hide Mergeable;
    if |legs| > 1 { CanonLegsSound(net, legs[..|legs| - 1]); }
  }

  lemma {:induction false} LegStopsSound(net: Instance, legs: seq<Leg>)
    requires Regular(net)
    requires forall i | 0 <= i < |legs| :: 0.0 <= legs[i].energy && IsStation(net, legs[i].station)
    ensures AllSound(net.capacity, LegStops(net, CanonLegs(net, legs)))
  {
    hide Strict, CanonLegs;
    CanonLegsSound(net, legs);
    var kept := CanonLegs(net, legs);
    forall i | 0 <= i < |kept| ensures Sound(net.capacity, LegStops(net, kept)[i]) {
      assert kept[i] in legs;
    }
  }

  // ----- costs -----

  /** What the station-only kernel charges for a label. */
  function LabelCost(net: Instance, l: Label): Summary
    requires Regular(net) && l.Label? && SoundLabel(net, l)
  {
    LegStopsSound(net, l.legs);
    Cost(VehicleOf(net), l.travel, l.service, StationStops(LegStops(net, CanonLegs(net, l.legs)), l.tail))
  }

  /** What the full-node kernel charges for a route. */
  function NodeCost(net: Instance, visits: seq<int>): Summary
    requires Regular(net)
  {
    RegularSpeed(net);
    var kept := CanonVisits(net, visits);
    NodeStopsSound(net, Nodes(net, kept));
    StretchEnds(net, Nodes(net, kept));
    var route := RouteLabel(net, kept);
    Cost(VehicleOf(net), route.travel, route.service, NodeStops(net, Nodes(net, kept)))
  }

  lemma RouteLabelSound(net: Instance, visits: seq<int>)
    requires Regular(net)
    ensures RouteLabel(net, visits).Label? && SoundLabel(net, RouteLabel(net, visits))
  {
    hide Stretch, SoundLabel, Strict;
    StretchEnds(net, Nodes(net, visits));
    StretchSound(net, Nodes(net, visits));
  }

  /** The cost of the route with the given visits, evaluated from scratch. */
  ghost function RouteCost(net: Instance, visits: seq<int>): Summary
    requires Regular(net)
  {
    RouteLabelSound(net, visits);
    LabelCost(net, RouteLabel(net, visits))
  }

  /** The station-only kernel runs over the stops of the canonical route with the customers folded away. */
  lemma {:induction false} LabelCostFolds(net: Instance, visits: seq<int>)
    requires Regular(net)
    ensures RouteLabel(net, visits).Label? && SoundLabel(net, RouteLabel(net, visits))
    ensures var route := RouteLabel(net, CanonVisits(net, visits));
      var folded := Collapse(NodeStops(net, Nodes(net, CanonVisits(net, visits))));
      && route.Label? && AllSound(net.capacity, folded)
      && LabelCost(net, RouteLabel(net, visits)) == Cost(VehicleOf(net), route.travel, route.service, folded)
  {
    hide Cost, Collapse, CanonLegs, CanonVisits, Stretch, Strict, NodeStops, LegStops;
    var kept := CanonVisits(net, visits);
    RouteLabelSound(net, visits);
    RouteLabelSound(net, kept);
    CanonAgrees(net, visits);
    RouteLabelStops(net, kept);
    LegStopsSound(net, RouteLabel(net, visits).legs);
  }

  /** The station-only kernel on `route_label(route)` and the full-node kernel on `route` agree on
      raw cost, charging time, shortfall, excess and feasibility, for every route. */
  lemma KernelsAgree(net: Instance, visits: seq<int>)
    requires Regular(net) && ConcaveCharging(net)
    ensures RouteLabel(net, visits).Label? && SoundLabel(net, RouteLabel(net, visits))
    ensures LabelCost(net, RouteLabel(net, visits)) == NodeCost(net, visits)
  {
    hide Cost, Collapse, CanonLegs, CanonVisits, Stretch, SoundLabel, Strict, Concave, NodeStops, LegStops, LabelCost;
    var kept := CanonVisits(net, visits);
    LabelCostFolds(net, visits);
    NodeStopsSound(net, Nodes(net, kept));
    var route := RouteLabel(net, kept);
    CollapseKeepsCost(VehicleOf(net), route.travel, route.service, NodeStops(net, Nodes(net, kept)));
  }
}
