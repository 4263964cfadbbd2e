/** The route evaluators as they run (src/evaluator.cpp): `evaluate` and `evaluate_bounded` on
    labels, and `evaluate_uncached` on routes, which drops repeated stations, evaluates what is
    left and lifts the energies back to the raw visits. */
module RouteEvaluators {
  import opened Common
  import opened Curves
  import opened Network
  import opened Labels
  import opened Canonical
  import opened Charging
  import opened ChargingCollapse
  import opened ChargingLaws
  import opened Kernels
  import opened Evaluation
  import opened Replay
  import opened RouteCosts

  method EvaluateLabel(net: Instance, l: Label) returns (s: Summary)
    requires Regular(net) && l.Label? && SoundLabel(net, l)
    ensures s == LabelCost(net, l)
  {
    hide Cost, CanonLegs, Strict, Metric;
    var legs := MergeLegs(net, l.legs);
    LegStopsSound(net, l.legs);
    var o := EvaluateData(VehicleOf(net), l.travel, l.service, LegStops(net, legs), l.tail, None);
    s := o.summary;
  }

  /** With a positive penalty the evaluation may stop early; the bound it then returns is below the
      cost of the complete route and already too dear. */
  method EvaluateBounded(net: Instance, l: Label, limits: Limits) returns (o: Outcome)
    requires Regular(net) && l.Label? && SoundLabel(net, l) && 0.0 <= limits.lambda
    ensures o.Exact? ==> o.summary == LabelCost(net, l)
    ensures o.LowerBound? ==>
      var v := VehicleOf(net);
      var bound := BoundCost(o.travel, o.shortfall, o.excess, v, limits.lambda);
      bound <= GeneralizedCost(LabelCost(net, l), v, limits.lambda) && Prunes(bound, limits)
  {
    hide Cost, CanonLegs, Strict, Metric, GeneralizedCost, BoundCost;
    if limits.lambda == 0.0 {
      var s := EvaluateLabel(net, l);
      return Exact(s);
    }
    var legs := MergeLegs(net, l.legs);
    LegStopsSound(net, l.legs);
    o := EvaluateData(VehicleOf(net), l.travel, l.service, LegStops(net, legs), l.tail, Some(limits));
  }

  // ----- repeated stations -----

  /** Visit `i` repeats the station before it and is dropped. */
  predicate Repeats(net: Instance, visits: seq<int>, i: nat)
    requires 0.0 < net.speed && i < |visits|
  {
    i > 0 && visits[i] == visits[i - 1] && Supported(net, visits[i])
  }

  /** The canonical visit that raw visit `i` belongs to. */
  function Group(net: Instance, visits: seq<int>, i: nat): nat
    requires 0.0 < net.speed && i < |visits|
  {
    |CanonVisits(net, visits[..i + 1])| - 1
  }

  /** Raw visit `i` is the last of its run. */
  predicate Ends(net: Instance, visits: seq<int>, i: nat)
    requires 0.0 < net.speed && i < |visits|
  {
    i == |visits| - 1 || !Repeats(net, visits, i + 1)
  }

  lemma {:induction false} CanonStep(net: Instance, visits: seq<int>, i: nat)
    requires 0.0 < net.speed && i < |visits|
    ensures CanonVisits(net, visits[..i + 1])
            == if Repeats(net, visits, i) then CanonVisits(net, visits[..i])
               else CanonVisits(net, visits[..i]) + [visits[i]]
  {
    hide Supported;
    assert visits[..i + 1][..i] == visits[..i];
    if i == 0 { assert visits[..1] == [visits[0]] && visits[..0] == []; }
  }

  lemma {:induction false} CanonPrefix(net: Instance, visits: seq<int>, i: nat)
    requires 0.0 < net.speed && i <= |visits|
    ensures CanonVisits(net, visits[..i]) <= CanonVisits(net, visits)
    decreases |visits| - i
  {
    hide CanonVisits;
    if i == |visits| {
      assert visits[..i] == visits;
    } else {
      CanonStep(net, visits, i);
      CanonPrefix(net, visits, i + 1);
    }
  }

  lemma {:induction false} GroupFacts(net: Instance, visits: seq<int>, i: nat)
    requires 0.0 < net.speed && i < |visits|
    ensures Group(net, visits, i) < |CanonVisits(net, visits)|
    ensures CanonVisits(net, visits)[Group(net, visits, i)] == visits[i]
    ensures i == 0 ==> Group(net, visits, i) == 0
    ensures i > 0 ==> Group(net, visits, i)
                      == Group(net, visits, i - 1) + (if Repeats(net, visits, i) then 0 else 1)
    ensures i == |visits| - 1 ==> Group(net, visits, i) == |CanonVisits(net, visits)| - 1
  {
    hide CanonVisits, Repeats;
    var upTo := CanonVisits(net, visits[..i + 1]);
    CanonStep(net, visits, i);
    CanonPrefix(net, visits, i + 1);
    assert upTo[|upTo| - 1] == visits[..i + 1][i] == visits[i];
    if i == |visits| - 1 { assert visits[..i + 1] == visits; }
    if i == 0 {
      StepEnds(net, visits, 0);
      assert visits[..0] == [];
    }
  }

  ghost predicate NoRepeats(net: Instance, visits: seq<int>, n: nat)
    requires 0.0 < net.speed
  {
    forall i | 0 <= i < n && i < |visits| :: !Repeats(net, visits, i)
  }

  lemma {:induction false} NothingRepeats(net: Instance, visits: seq<int>, n: nat)
    requires 0.0 < net.speed && n <= |visits| && NoRepeats(net, visits, n)
    ensures CanonVisits(net, visits[..n]) == visits[..n]
  {
    hide CanonVisits, Repeats;
    if n > 0 {
      NothingRepeats(net, visits, n - 1);
      CanonStep(net, visits, n - 1);
      assert visits[..n - 1] + [visits[n - 1]] == visits[..n];
    } else {
      assert visits[..0] == [];
    }
  }

  /** Drop repeated stations; remember each visit's group and each group's last raw visit. */
  method Compact(net: Instance, visits: seq<int>)
    returns (kept: seq<int>, group: seq<nat>, lastRaw: seq<nat>)
    requires 0.0 < net.speed
    ensures kept == CanonVisits(net, visits)
    ensures |group| == |visits| && |lastRaw| == |kept|
    ensures forall i | 0 <= i < |visits| :: group[i] == Group(net, visits, i) && group[i] < |kept|
    ensures forall i | 0 <= i < |visits| :: lastRaw[group[i]] == i <==> Ends(net, visits, i)
  {
    hide Supported, CanonVisits, Repeats;
    kept, group, lastRaw := [], [], [];
    assert visits[..0] == [];
    for i := 0 to |visits|
      invariant kept == CanonVisits(net, visits[..i]) && |group| == i && |lastRaw| == |kept|
      invariant i > 0 ==> kept != [] && group[i - 1] == |kept| - 1 && lastRaw[|kept| - 1] == i - 1
      invariant forall j | 0 <= j < i :: group[j] == Group(net, visits, j) && group[j] < |kept|
      invariant forall j | 0 <= j < i - 1 :: lastRaw[group[j]] == j <==> Ends(net, visits, j)
    {
      CanonStep(net, visits, i);
      GroupFacts(net, visits, i);
      StepEnds(net, visits, i);
      if Repeats(net, visits, i) {
        lastRaw := lastRaw[|kept| - 1 := i];
      } else {
        kept := kept + [visits[i]];
        lastRaw := lastRaw + [i];
      }
      group := group + [|kept| - 1];
    }
    assert visits[..|visits|] == visits;
  }

  lemma StepEnds(net: Instance, visits: seq<int>, i: nat)
    requires 0.0 < net.speed && i < |visits|
    ensures i > 0 ==> (Ends(net, visits, i - 1) <==> !Repeats(net, visits, i))
    ensures i == 0 ==> !Repeats(net, visits, i)
  {
    hide Supported;
  }

  /** The walk of the canonical route, spread over the raw visits: a run arrives once, charges once,
      and every visit but its last only passes through. */
  ghost function Lifted(net: Instance, visits: seq<int>, ps: seq<Soc>): (r: seq<Soc>)
    requires 0.0 < net.speed && |ps| == |CanonVisits(net, visits)| + 2
    ensures |r| == |visits| + 2
  {
    seq(|visits| + 2, j requires 0 <= j < |visits| + 2 => LiftedAt(net, visits, ps, j))
  }

  ghost function LiftedAt(net: Instance, visits: seq<int>, ps: seq<Soc>, j: nat): Soc
    requires 0.0 < net.speed && |ps| == |CanonVisits(net, visits)| + 2 && j < |visits| + 2
  {
    if j == 0 then ps[0]
    else if j == |visits| + 1 then ps[|ps| - 1]
    else
      GroupFacts(net, visits, j - 1);
      var p := ps[Group(net, visits, j - 1) + 1];
      Soc(p.arrival, if Ends(net, visits, j - 1) then p.departure else p.arrival, p.charger)
  }

  lemma LinkedIn(ps: seq<Soc>, stops: seq<Stop>, j: nat)
    requires Chained(ps, stops) && 1 <= j < |ps|
    ensures Linked(ps, stops, j)
  {
  }

  lemma NodeStopAt(net: Instance, nodes: seq<int>, i: nat)
    requires i + 1 < |nodes|
    ensures |NodeStops(net, nodes)| == |nodes| - 1
    ensures NodeStops(net, nodes)[i] == Stop(Energy(net, nodes[i], nodes[i + 1]), Charger(net, nodes[i + 1]))
  {
  }

  /** A visit: either it repeats its predecessor for free or the canonical walk drove its leg. */
  lemma {:induction false} LiftedVisitLinked(net: Instance, visits: seq<int>, ps: seq<Soc>, i: nat)
    requires 0.0 < net.speed && |ps| == |CanonVisits(net, visits)| + 2 && i < |visits|
    requires Chained(ps, NodeStops(net, Nodes(net, CanonVisits(net, visits))))
    ensures var a := if i == 0 then net.depot else visits[i - 1];
      && LiftedAt(net, visits, ps, i + 1).arrival
         == LiftedAt(net, visits, ps, i).departure - Energy(net, a, visits[i])
      && LiftedAt(net, visits, ps, i + 1).charger == Charger(net, visits[i])
  {
    hide Supported, CanonVisits, Group, Ends, Energy, Charger, NodeStops, Chained, Repeats;
    var kept := CanonVisits(net, visits);
    var fewer := Nodes(net, kept);
    GroupFacts(net, visits, i);
    var g := Group(net, visits, i);
    NodeStopAt(net, fewer, g);
    LinkedIn(ps, NodeStops(net, fewer), g + 1);
    assert fewer[g + 1] == visits[i];
    if i == 0 {
      assert fewer[0] == net.depot;
    } else {
      GroupFacts(net, visits, i - 1);
      StepEnds(net, visits, i);
      if Repeats(net, visits, i) {
        RepeatIsFree(net, visits, i);
      } else {
        assert fewer[g] == visits[i - 1];
      }
    }
  }

  lemma {:induction false} LiftedReturnLinked(net: Instance, visits: seq<int>, ps: seq<Soc>)
    requires 0.0 < net.speed && |ps| == |CanonVisits(net, visits)| + 2
    requires Chained(ps, NodeStops(net, Nodes(net, CanonVisits(net, visits))))
    ensures var n := |visits|;
      && LiftedAt(net, visits, ps, n + 1).arrival
         == LiftedAt(net, visits, ps, n).departure - Energy(net, Nodes(net, visits)[n], net.depot)
      && LiftedAt(net, visits, ps, n + 1).charger == Charger(net, net.depot)
  {
    hide Supported, CanonVisits, Group, Energy, Charger, NodeStops, Chained, Repeats;
    var fewer := Nodes(net, CanonVisits(net, visits));
    NodeStopAt(net, fewer, |fewer| - 2);
    LinkedIn(ps, NodeStops(net, fewer), |ps| - 1);
    if visits != [] { GroupFacts(net, visits, |visits| - 1); }
  }

  /** The trace facts of one position of the lifted walk. */
  lemma {:induction false} LiftedLinked(net: Instance, visits: seq<int>, ps: seq<Soc>, j: nat)
    requires 0.0 < net.speed && |ps| == |CanonVisits(net, visits)| + 2
    requires Chained(ps, NodeStops(net, Nodes(net, CanonVisits(net, visits))))
    requires 1 <= j < |visits| + 2
    ensures |NodeStops(net, Nodes(net, visits))| == |visits| + 1
    ensures Linked(Lifted(net, visits, ps), NodeStops(net, Nodes(net, visits)), j)
  {
    hide CanonVisits, LiftedAt, Energy, Charger, NodeStops, Chained;
    NodeStopAt(net, Nodes(net, visits), j - 1);
    if j == |visits| + 1 {
      LiftedReturnLinked(net, visits, ps);
    } else {
      LiftedVisitLinked(net, visits, ps, j - 1);
    }
  }

  lemma RepeatIsFree(net: Instance, visits: seq<int>, i: nat)
    requires 0.0 < net.speed && i < |visits| && Repeats(net, visits, i)
    ensures Energy(net, visits[i - 1], visits[i]) == 0.0 && IsStation(net, visits[i])
  {
  }

  lemma {:induction false} LiftedPhysical(net: Instance, visits: seq<int>, ps: seq<Soc>)
    requires 0.0 < net.speed && |ps| == |CanonVisits(net, visits)| + 2
    requires Bounded(net.capacity, ps) && Chained(ps, NodeStops(net, Nodes(net, CanonVisits(net, visits))))
    ensures Bounded(net.capacity, Lifted(net, visits, ps))
    ensures Chained(Lifted(net, visits, ps), NodeStops(net, Nodes(net, visits)))
  {
    hide Supported, CanonVisits, Strict, Linked, Group, NodeStops, Ends;
    var qs, stops := Lifted(net, visits, ps), NodeStops(net, Nodes(net, visits));
    LiftedLinked(net, visits, ps, 1);
    forall j | 1 <= j < |qs| ensures Linked(qs, stops, j) {
      LiftedLinked(net, visits, ps, j);
    }
    forall j | 0 <= j < |qs|
      ensures 0.0 <= qs[j].departure <= net.capacity && Fits(net.capacity, qs[j].charger)
      ensures 1 <= j ==> 0.0 <= qs[j].arrival <= qs[j].departure && (qs[j].charger.None? ==> qs[j].arrival == qs[j].departure)
    {
      if 1 <= j < |visits| + 1 { GroupFacts(net, visits, j - 1); }
    }
  }

  /** Charging time of a trace, summed over its first `n` positions. */
  lemma {:induction false} ChargingNext(cap: real, ps: seq<Soc>, n: nat)
    requires 0.0 <= cap && AllFit(cap, ps) && n < |ps|
    ensures AllFit(cap, ps[..n]) && AllFit(cap, ps[..n + 1])
    ensures ChargingTime(cap, ps[..n + 1]) == ChargingTime(cap, ps[..n]) + ChargingTimeAt(cap, ps[n])
  {
    hide Fits, ChargingTimeAt;
    assert ps[..n + 1][..n] == ps[..n];
  }

  /** Over every prefix the lifted walk has charged what the groups completed so far have. */
  lemma {:induction false} LiftedCharging(net: Instance, visits: seq<int>, ps: seq<Soc>, i: nat)
    requires 0.0 < net.speed && 0.0 <= net.capacity && |ps| == |CanonVisits(net, visits)| + 2
    requires AllFit(net.capacity, ps) && AllFit(net.capacity, Lifted(net, visits, ps)) && i < |visits|
    ensures var g := Group(net, visits, i) + (if Ends(net, visits, i) then 2 else 1);
      && g <= |ps| && AllFit(net.capacity, ps[..g]) && AllFit(net.capacity, Lifted(net, visits, ps)[..i + 2])
      && ChargingTime(net.capacity, Lifted(net, visits, ps)[..i + 2]) == ChargingTime(net.capacity, ps[..g])
  {
    hide Supported, CanonVisits, Fits, ChargingTime, Group, ChargingTimeAt, Repeats;
    var cap, qs := net.capacity, Lifted(net, visits, ps);
    GroupFacts(net, visits, i);
    var g := Group(net, visits, i);
    if i == 0 {
      assert qs[..1] == ps[..1];
      StepEnds(net, visits, 0);
    } else {
      LiftedCharging(net, visits, ps, i - 1);
      GroupFacts(net, visits, i - 1);
      StepEnds(net, visits, i);
    }
    assert ChargingTime(cap, qs[..i + 1]) == ChargingTime(cap, ps[..g + 1]);
    ChargingNext(cap, qs, i + 1);
    ChargingNext(cap, ps, g + 1);
    var p := ps[g + 1];
    if Ends(net, visits, i) {
      assert qs[i + 1] == p;
    } else {
      assert qs[i + 1] == Soc(p.arrival, p.arrival, p.charger);
      PassingThrough(cap, qs[i + 1]);
    }
  }

  lemma PassingThrough(cap: real, p: Soc)
    requires 0.0 <= cap && Fits(cap, p.charger) && p.arrival == p.departure
    ensures ChargingTimeAt(cap, p) == 0.0
  {
    hide Strict, TimeAt;
  }

  lemma {:induction false} LiftedChargesTheSame(net: Instance, visits: seq<int>, ps: seq<Soc>)
    requires 0.0 < net.speed && 0.0 <= net.capacity && |ps| == |CanonVisits(net, visits)| + 2
    requires AllFit(net.capacity, ps) && AllFit(net.capacity, Lifted(net, visits, ps))
    ensures ChargingTime(net.capacity, Lifted(net, visits, ps)) == ChargingTime(net.capacity, ps)
  {
    hide Supported, CanonVisits, Fits, ChargingTime, Group, ChargingTimeAt;
    var qs := Lifted(net, visits, ps);
    var n := |visits|;
    if n == 0 {
      assert qs == ps by { assert CanonVisits(net, visits) == []; }
    } else {
      GroupFacts(net, visits, n - 1);
      LiftedCharging(net, visits, ps, n - 1);
      ChargingNext(net.capacity, qs, n + 1);
      ChargingNext(net.capacity, ps, |ps| - 1);
      assert qs[..n + 2] == qs && ps[..|ps|] == ps;
    }
  }

  /** The route's own trace is accepted by `evaluate_schedule` at the same cost. */
  ghost predicate ReplaysAs(net: Instance, visits: seq<int>, s: Summary, ps: seq<Soc>)
    requires Regular(net)
  {
    RegularSpeed(net);
    RouteLabelSound(net, visits);
    var stops := NodeStops(net, Nodes(net, visits));
    var route := RouteLabel(net, visits);
    && |ps| == |stops| + 1 && AllFit(net.capacity, ps)
    && Replayed(net.capacity, stops, PlanOf(ps, stops)) == Some(ps)
    && ScheduleCost(VehicleOf(net), route.travel, route.service, ps) == s
  }

  /** A feasible canonical walk, lifted, replays on the raw route. */
  lemma {:induction false} LiftedReplays(net: Instance, visits: seq<int>, s: Summary, ps: seq<Soc>)
    requires Regular(net) && ReplaysAs(net, CanonVisits(net, visits), s, ps)
    ensures ReplaysAs(net, visits, s, Lifted(net, visits, ps))
  {
    hide Supported, CanonVisits, Strict, Metric, ChargingTime, Replayed, Stretch, SoundLabel, CanonLegs, Lifted, NodeStops;
    var kept := CanonVisits(net, visits);
    var stops := NodeStops(net, Nodes(net, kept));
    NodeStopsSound(net, Nodes(net, kept));
    NodeStopsCount(net, Nodes(net, kept));
    NodeStopsCount(net, Nodes(net, visits));
    ReplayedIsPhysical(net.capacity, stops, PlanOf(ps, stops));
    LiftedPhysical(net, visits, ps);
    var qs := Lifted(net, visits, ps);
    LiftedFits(net, visits, ps);
    LiftedChargesTheSame(net, visits, ps);
    RouteLabelSound(net, visits);
    RouteLabelSound(net, kept);
    CanonAgrees(net, visits);
    TraceReplays(net.capacity, qs, NodeStops(net, Nodes(net, visits)));
  }

  lemma NodeStopsCount(net: Instance, nodes: seq<int>)
    requires nodes != []
    ensures |NodeStops(net, nodes)| == |nodes| - 1
  {
  }

  lemma {:induction false} LiftedFits(net: Instance, visits: seq<int>, ps: seq<Soc>)
    requires 0.0 < net.speed && |ps| == |CanonVisits(net, visits)| + 2
    requires AllFit(net.capacity, ps)
    ensures AllFit(net.capacity, Lifted(net, visits, ps))
  {
    hide Supported, CanonVisits, Fits, Group, Ends;
    forall j | 0 <= j < |visits| + 2 ensures Fits(net.capacity, LiftedAt(net, visits, ps, j).charger) {
      if 1 <= j < |visits| + 1 { GroupFacts(net, visits, j - 1); }
    }
  }

  lemma {:induction false} CanonHasNoRepeats(net: Instance, visits: seq<int>)
    requires 0.0 < net.speed
    ensures NoRepeats(net, CanonVisits(net, visits), |CanonVisits(net, visits)|)
  {
    hide Supported;
    if |visits| > 1 {
      var n := |visits| - 1;
      CanonHasNoRepeats(net, visits[..n]);
      var before, kept := CanonVisits(net, visits[..n]), CanonVisits(net, visits);
      forall i | 0 <= i < |kept| ensures !Repeats(net, kept, i) {
        if i < |before| { assert !Repeats(net, before, i); }
      }
    }
  }

  lemma {:induction false} CanonIdempotent(net: Instance, visits: seq<int>)
    requires 0.0 < net.speed
    ensures CanonVisits(net, CanonVisits(net, visits)) == CanonVisits(net, visits)
  {
    hide CanonVisits, Repeats;
    var kept := CanonVisits(net, visits);
    CanonHasNoRepeats(net, visits);
    NothingRepeats(net, kept, |kept|);
    assert kept[..|kept|] == kept;
  }

  lemma {:induction false} NodeCostOfCanon(net: Instance, visits: seq<int>)
    requires Regular(net)
    ensures NodeCost(net, CanonVisits(net, visits)) == NodeCost(net, visits)
  {
    hide Cost, CanonVisits, Strict, Metric, Stretch;
    RegularSpeed(net);
    CanonIdempotent(net, visits);
  }

  /** Travel and service of a route, summed the way the full-node kernel does. */
  method RouteTotals(net: Instance, visits: seq<int>) returns (travel: real, service: real)
    requires 0.0 < net.speed && net.kind(net.depot).Depot?
    ensures RouteLabel(net, visits).Label?
    ensures travel == RouteLabel(net, visits).travel && service == RouteLabel(net, visits).service
  {
    hide Concat, Hop, Travel, Stretch;
    var path := Nodes(net, visits);
    travel, service := 0.0, 0.0;
    StretchOne(net, net.depot);
    assert path[..1] == [net.depot];
    for position := 1 to |path|
      invariant var l := Stretch(net, path[..position]);
        if position == 1 then l.Blank? && travel == 0.0 else l.Label? && l.travel == travel
    {
      travel := travel + Travel(net, path[position - 1], path[position]);
      StretchNext(net, path[..position], path[position]);
      assert path[..position] + [path[position]] == path[..position + 1];
      ConcatHop(net, Stretch(net, path[..position]), path[position - 1], path[position]);
    }
    assert path[..|path|] == path;
    for i := 0 to |visits|
      invariant var l := Stretch(net, path[..i + 1]);
        if i == 0 then l.Blank? && service == 0.0 else l.Label? && l.service == service
    {
      if net.kind(visits[i]).Customer? { service := service + net.serviceTime(visits[i]); }
      StretchNext(net, path[..i + 1], visits[i]);
      assert path[..i + 1] + [visits[i]] == path[..i + 2];
      ConcatHop(net, Stretch(net, path[..i + 1]), path[i], visits[i]);
    }
    var n := |visits|;
    StretchNext(net, path[..n + 1], net.depot);
    assert path[..n + 1] + [net.depot] == path;
    ConcatHop(net, Stretch(net, path[..n + 1]), path[n], net.depot);
  }

  /** A route without repeated stations goes straight to the kernel. */
  method EvaluateClean(net: Instance, visits: seq<int>)
    returns (s: Summary, arrivals: seq<real>, departures: seq<real>)
    requires Regular(net) && CanonVisits(net, visits) == visits
    ensures s == NodeCost(net, visits)
    ensures |arrivals| == |departures| == |visits| + 2
    ensures s.feasible ==>
      ReplaysAs(net, visits, s, Walk(NodeStops(net, Nodes(net, visits)), arrivals, departures, |visits| + 2))
  {
    hide Strict, Metric, CanonVisits, ChargingTime, Replayed, Stretch, SoundLabel, NodeStops, Cost, ScheduleCost;
    RegularSpeed(net);
    RouteLabelSound(net, visits);
    NodeStopsSound(net, Nodes(net, visits));
    NodeStopsCount(net, Nodes(net, visits));
    var stops := NodeStops(net, Nodes(net, visits));
    var travel, service := RouteTotals(net, visits);
    s, arrivals, departures := EvaluateNodes(VehicleOf(net), travel, service, stops);
    if s.feasible { FeasibleReplays(VehicleOf(net), travel, service, stops); }
  }

  lemma {:induction false} LiftedIsWalk(net: Instance, visits: seq<int>, keptArrivals: seq<real>, keptDepartures: seq<real>,
                     arrivals: seq<real>, departures: seq<real>)
    requires Regular(net)
    requires var kept := CanonVisits(net, visits); |keptArrivals| == |keptDepartures| == |kept| + 2
    requires |arrivals| == |departures| == |visits| + 2
    requires LiftsUpTo(net, visits, keptArrivals, keptDepartures, arrivals, departures, |visits| + 2)
    ensures var kept := CanonVisits(net, visits);
      Walk(NodeStops(net, Nodes(net, visits)), arrivals, departures, |visits| + 2)
      == Lifted(net, visits, Walk(NodeStops(net, Nodes(net, kept)), keptArrivals, keptDepartures, |kept| + 2))
  {
    hide CanonVisits, Strict, Metric, LiftsAt, LiftedAt, NodeStops, Walk;
    var kept := CanonVisits(net, visits);
    RegularSpeed(net);
    NodeStopsCount(net, Nodes(net, kept));
    NodeStopsCount(net, Nodes(net, visits));
    var ps := Walk(NodeStops(net, Nodes(net, kept)), keptArrivals, keptDepartures, |kept| + 2);
    var qs := Walk(NodeStops(net, Nodes(net, visits)), arrivals, departures, |visits| + 2);
    forall j | 0 <= j < |visits| + 2 ensures qs[j] == LiftedAt(net, visits, ps, j) {
      assert LiftsAt(net, visits, keptArrivals, keptDepartures, arrivals, departures, j);
      LiftedWalkAt(net, visits, keptArrivals, keptDepartures, arrivals, departures, j);
    }
  }

  lemma {:induction false} LiftedWalkAt(net: Instance, visits: seq<int>, keptArrivals: seq<real>, keptDepartures: seq<real>,
                     arrivals: seq<real>, departures: seq<real>, j: nat)
    requires 0.0 < net.speed && !IsStation(net, net.depot) && j < |visits| + 2
    requires |keptArrivals| == |keptDepartures| == |CanonVisits(net, visits)| + 2
    requires |arrivals| == |departures| == |visits| + 2
    requires |NodeStops(net, Nodes(net, visits))| == |visits| + 1
    requires |NodeStops(net, Nodes(net, CanonVisits(net, visits)))| == |CanonVisits(net, visits)| + 1
    requires LiftsAt(net, visits, keptArrivals, keptDepartures, arrivals, departures, j)
    ensures var kept := CanonVisits(net, visits);
      Walk(NodeStops(net, Nodes(net, visits)), arrivals, departures, |visits| + 2)[j]
      == LiftedAt(net, visits, Walk(NodeStops(net, Nodes(net, kept)), keptArrivals, keptDepartures, |kept| + 2), j)
  {
    hide Supported, CanonVisits, Group, Ends, Energy, NodeStops;
    var kept := CanonVisits(net, visits);
    if 1 <= j {
      NodeStopAt(net, Nodes(net, visits), j - 1);
      if j == |visits| + 1 {
        NodeStopAt(net, Nodes(net, kept), |kept|);
      } else {
        GroupFacts(net, visits, j - 1);
        NodeStopAt(net, Nodes(net, kept), Group(net, visits, j - 1));
      }
    }
  }

  ghost predicate LiftsAt(net: Instance, visits: seq<int>, keptArrivals: seq<real>, keptDepartures: seq<real>,
                          arrivals: seq<real>, departures: seq<real>, j: nat)
    requires 0.0 < net.speed && j < |visits| + 2
    requires |keptArrivals| == |keptDepartures| == |CanonVisits(net, visits)| + 2
    requires |arrivals| > j && |departures| > j
  {
    if j == 0 then arrivals[0] == keptArrivals[0] && departures[0] == keptDepartures[0]
    else if j == |visits| + 1 then
      arrivals[j] == keptArrivals[|keptArrivals| - 1] && departures[j] == keptDepartures[|keptDepartures| - 1]
    else
      GroupFacts(net, visits, j - 1);
      var g := Group(net, visits, j - 1) + 1;
      && arrivals[j] == keptArrivals[g]
      && departures[j] == if Ends(net, visits, j - 1) then keptDepartures[g] else keptArrivals[g]
  }

  /** Spread the canonical energies over the raw visits. */
  method Lift(net: Instance, visits: seq<int>, group: seq<nat>, lastRaw: seq<nat>,
              keptArrivals: seq<real>, keptDepartures: seq<real>)
    returns (arrivals: seq<real>, departures: seq<real>)
    requires Regular(net)
    requires |keptArrivals| == |keptDepartures| == |CanonVisits(net, visits)| + 2
    requires |group| == |visits| && |lastRaw| == |CanonVisits(net, visits)|
    requires forall i | 0 <= i < |visits| :: group[i] == Group(net, visits, i) && group[i] < |lastRaw|
    requires forall i | 0 <= i < |visits| :: lastRaw[group[i]] == i <==> Ends(net, visits, i)
    ensures |arrivals| == |departures| == |visits| + 2
    ensures var kept := CanonVisits(net, visits);
      && |NodeStops(net, Nodes(net, visits))| == |visits| + 1
      && |NodeStops(net, Nodes(net, kept))| == |kept| + 1
      && Walk(NodeStops(net, Nodes(net, visits)), arrivals, departures, |visits| + 2)
         == Lifted(net, visits, Walk(NodeStops(net, Nodes(net, kept)), keptArrivals, keptDepartures, |kept| + 2))
  {
    hide CanonVisits, Strict, Metric, Group, Ends, LiftsAt, NodeStops, Lifted, Walk;
    RegularSpeed(net);
    arrivals, departures := [keptArrivals[0]], [keptDepartures[0]];
    LiftsFirst(net, visits, keptArrivals, keptDepartures, arrivals, departures);
    for j := 0 to |visits|
      invariant |arrivals| == |departures| == j + 1
      invariant LiftsUpTo(net, visits, keptArrivals, keptDepartures, arrivals, departures, j + 1)
    {
      ghost var before, since := arrivals, departures;
      var arrival := keptArrivals[group[j] + 1];
      var departure := if j == lastRaw[group[j]] then keptDepartures[group[j] + 1] else arrival;
      arrivals, departures := arrivals + [arrival], departures + [departure];
      LiftsNext(net, visits, keptArrivals, keptDepartures, before, since, j + 1, arrival, departure);
    }
    ghost var before, since := arrivals, departures;
    var n := |keptArrivals| - 1;
    arrivals, departures := arrivals + [keptArrivals[n]], departures + [keptDepartures[n]];
    LiftsNext(net, visits, keptArrivals, keptDepartures, before, since, |visits| + 1, keptArrivals[n], keptDepartures[n]);
    NodeStopsCount(net, Nodes(net, visits));
    NodeStopsCount(net, Nodes(net, CanonVisits(net, visits)));
    LiftedIsWalk(net, visits, keptArrivals, keptDepartures, arrivals, departures);
  }

  ghost predicate LiftsUpTo(net: Instance, visits: seq<int>, keptArrivals: seq<real>, keptDepartures: seq<real>,
                            arrivals: seq<real>, departures: seq<real>, n: nat)
    requires 0.0 < net.speed && n <= |visits| + 2
    requires |keptArrivals| == |keptDepartures| == |CanonVisits(net, visits)| + 2
    requires |arrivals| >= n && |departures| >= n
  {
    forall j | 0 <= j < n :: LiftsAt(net, visits, keptArrivals, keptDepartures, arrivals, departures, j)
  }

  lemma {:induction false} LiftsFirst(net: Instance, visits: seq<int>, keptArrivals: seq<real>, keptDepartures: seq<real>,
                   arrivals: seq<real>, departures: seq<real>)
    requires 0.0 < net.speed
    requires |keptArrivals| == |keptDepartures| == |CanonVisits(net, visits)| + 2
    requires |arrivals| >= 1 && |departures| >= 1
    requires arrivals[0] == keptArrivals[0] && departures[0] == keptDepartures[0]
    ensures LiftsUpTo(net, visits, keptArrivals, keptDepartures, arrivals, departures, 1)
  {
    hide CanonVisits, Group, Ends;
  }

  lemma {:induction false} LiftsNext(net: Instance, visits: seq<int>, keptArrivals: seq<real>, keptDepartures: seq<real>,
                  arrivals: seq<real>, departures: seq<real>, n: nat, arrival: real, departure: real)
    requires 0.0 < net.speed && 1 <= n < |visits| + 2
    requires |keptArrivals| == |keptDepartures| == |CanonVisits(net, visits)| + 2
    requires |arrivals| == |departures| == n
    requires LiftsUpTo(net, visits, keptArrivals, keptDepartures, arrivals, departures, n)
    requires
      if n == |visits| + 1 then
        arrival == keptArrivals[|keptArrivals| - 1] && departure == keptDepartures[|keptDepartures| - 1]
      else
        var g := Group(net, visits, n - 1) + 1;
        && g < |keptArrivals|
        && arrival == keptArrivals[g]
        && departure == if Ends(net, visits, n - 1) then keptDepartures[g] else keptArrivals[g]
    ensures LiftsUpTo(net, visits, keptArrivals, keptDepartures, arrivals + [arrival], departures + [departure], n + 1)
  {
    hide CanonVisits, Group, Ends;
    forall j | 0 <= j < n + 1
      ensures LiftsAt(net, visits, keptArrivals, keptDepartures, arrivals + [arrival], departures + [departure], j)
    {
      if j < n {
        assert LiftsAt(net, visits, keptArrivals, keptDepartures, arrivals, departures, j);
      }
    }
  }

  /** `evaluate_uncached`. Whatever it calls feasible replays through `evaluate_schedule` with the
      same energies and the same summary. */
  method EvaluateUncached(net: Instance, visits: seq<int>)
    returns (s: Summary, arrivals: seq<real>, departures: seq<real>)
    requires Regular(net)
    ensures s == NodeCost(net, visits)
    ensures |arrivals| == |departures| == |visits| + 2
    ensures s.feasible ==>
      ReplaysAs(net, visits, s, Walk(NodeStops(net, Nodes(net, visits)), arrivals, departures, |visits| + 2))
  {
    hide Supported, CanonVisits, Strict, Metric, ChargingTime, Replayed, Stretch, SoundLabel, Lifted, ReplaysAs, Cost, Repeats, NodeCost;
    RegularSpeed(net);
    var hasRun := false;
    var i := 1;
    if visits != [] { StepEnds(net, visits, 0); }
    while i < |visits| && !hasRun
      invariant 1 <= i
      invariant !hasRun ==> NoRepeats(net, visits, i)
    {
      if Repeats(net, visits, i) { hasRun := true; }
      i := i + 1;
    }
    if !hasRun {
      NothingRepeats(net, visits, |visits|);
      assert visits[..|visits|] == visits;
      s, arrivals, departures := EvaluateClean(net, visits);
      return;
    }
    var kept, group, lastRaw := Compact(net, visits);
    CanonIdempotent(net, visits);
    var keptArrivals, keptDepartures;
    s, keptArrivals, keptDepartures := EvaluateClean(net, kept);
    NodeCostOfCanon(net, visits);
    arrivals, departures := Lift(net, visits, group, lastRaw, keptArrivals, keptDepartures);
    if s.feasible {
      LiftedReplays(net, visits, s, Walk(NodeStops(net, Nodes(net, kept)), keptArrivals, keptDepartures, |kept| + 2));
    }
  }
}
