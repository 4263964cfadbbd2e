/** Replacing one station path of a route by the best catalogued one, with certified bounds in front of the
    exact scores (src/search.cpp, `best_replacement_in_gaps`). */
module Replacement {
  import opened Common
  import opened Sequences
  import opened Network
  import opened Labels
  import opened Evaluation
  import opened RouteCosts
  import opened RouteEvaluators
  import opened PlanNodes
  import opened ReplacementBounds
  import opened ReplacementBand

  /** A catalogued path with its total distance. */
  datatype PathOption = PathOption(stations: seq<int>, distance: real)

  /** Which bounds are switched on. */
  datatype Pruning = Pruning(tail: bool, zeroShift: bool, candidate: bool, bounded: bool)

  datatype Request = Request(
    net: Instance,
    lambda: real,
    customers: seq<int>,
    gaps: seq<seq<int>>,
    incumbent: real,
    eligible: seq<nat>,
    catalog: seq<seq<PathOption>>,
    excluded: set<(nat, seq<int>)>)

  ghost predicate Stations(net: Instance, path: seq<int>) {
    forall i | 0 <= i < |path| :: IsStation(net, path[i])
  }

  function Distance(net: Instance, nodes: seq<int>): real {
    if |nodes| <= 1 then 0.0
    else Distance(net, nodes[..|nodes| - 1]) + net.distance(nodes[|nodes| - 2], nodes[|nodes| - 1])
  }

  /** Catalogued paths know their distance and come in its order. */
  ghost predicate Catalogued(r: Request, gap: nat)
    requires gap < |r.catalog| && gap <= |r.customers|
  {
    && (forall k | 0 <= k < |r.catalog[gap]| ::
          Stations(r.net, r.catalog[gap][k].stations)
          && r.catalog[gap][k].distance == Distance(r.net, Edge(r.net, r.customers, gap, r.catalog[gap][k].stations)))
    && (forall j, k | 0 <= j < k < |r.catalog[gap]| :: r.catalog[gap][j].distance <= r.catalog[gap][k].distance)
  }

  ghost predicate Proper(r: Request) {
    && Regular(r.net) && 0.0 <= r.lambda
    && |r.gaps| == |r.customers| + 1 == |r.catalog|
    && (forall i | 0 <= i < |r.eligible| :: r.eligible[i] < |r.gaps|)
    && (forall g | 0 <= g < |r.gaps| :: Stations(r.net, r.gaps[g]) && Catalogued(r, g))
  }

  // ----- exact scores -----

  predicate InCatalog(r: Request, k: Key)
    requires |r.gaps| == |r.customers| + 1 == |r.catalog| && forall i | 0 <= i < |r.eligible| :: r.eligible[i] < |r.gaps|
  {
    k.0 < |r.eligible| && k.1 < |r.catalog[r.eligible[k.0]]|
  }

  function PathAt(r: Request, k: Key): seq<int>
    requires |r.gaps| == |r.customers| + 1 == |r.catalog| && forall i | 0 <= i < |r.eligible| :: r.eligible[i] < |r.gaps|
    requires InCatalog(r, k)
  {
    r.catalog[r.eligible[k.0]][k.1].stations
  }

  /** The visits of the route with the option in its gap. */
  ghost function VisitsAt(r: Request, k: Key): seq<int>
    requires Proper(r)
  {
    if InCatalog(r, k) then Expand(r.customers, r.gaps[r.eligible[k.0] := PathAt(r, k)]) else []
  }

  ghost function CostAt(r: Request, k: Key): real
    requires Proper(r)
  {
    GeneralizedCost(RouteCost(r.net, VisitsAt(r, k)), VehicleOf(r.net), r.lambda)
  }

  /** The current path and excluded ones are no options. */
  ghost predicate Allowed(r: Request, k: Key)
    requires Proper(r)
  {
    InCatalog(r, k) && PathAt(r, k) != r.gaps[r.eligible[k.0]] && (r.eligible[k.0], PathAt(r, k)) !in r.excluded
  }

  ghost function TermsOf(r: Request): Terms
    requires Proper(r)
  {
    Terms(k => CostAt(r, k), k => Allowed(r, k), r.incumbent)
  }

  // ----- labels -----

  ghost predicate Prefixes(r: Request, prefixes: seq<Label>)
    requires Proper(r)
  {
    |prefixes| == |r.gaps| && forall g | 0 <= g < |r.gaps| :: prefixes[g] == Stretch(r.net, Head(r.net, r.customers, r.gaps, g))
  }

  ghost predicate Suffixes(r: Request, suffixes: seq<Label>)
    requires Proper(r)
  {
    && |suffixes| == |r.gaps| + 1
    && forall g | 0 <= g <= |r.gaps| :: suffixes[g] == Stretch(r.net, Tail(r.net, r.customers, r.gaps, g))
  }

  method GapLabel(r: Request, gap: nat, path: seq<int>) returns (l: Label)
    requires Proper(r) && gap < |r.gaps| && Stations(r.net, path)
    ensures l == Stretch(r.net, Edge(r.net, r.customers, gap, path))
  {
    hide Regular;
    RegularSpeed(r.net);
    var built := EdgeLabel(r.net, Anchor(r.net, r.customers, gap), path, Anchor(r.net, r.customers, gap + 1));
    l := built.value;
  }

  /** Prefix labels from the left and suffix labels from the right. */
  method PrepareLabels(r: Request) returns (prefixes: seq<Label>, suffixes: seq<Label>)
    requires Proper(r)
    ensures Prefixes(r, prefixes) && Suffixes(r, suffixes)
  {
    hide Concat, Stretch, Head, Tail, Edge, Regular, Catalogued;
    RegularSpeed(r.net);
    var n := |r.customers|;
    var edges: seq<Label> := [];
    for gap := 0 to n + 1
      invariant |edges| == gap
      invariant forall g | 0 <= g < gap :: edges[g] == Stretch(r.net, Edge(r.net, r.customers, g, r.gaps[g]))
    {
      var edge := GapLabel(r, gap, r.gaps[gap]);
      edges := edges + [edge];
    }
    prefixes := [Blank];
    FirstHead(r.net, r.customers, r.gaps);
    for gap := 0 to n
      invariant |prefixes| == gap + 1
      invariant forall g | 0 <= g <= gap :: prefixes[g] == Stretch(r.net, Head(r.net, r.customers, r.gaps, g))
    {
      HeadNext(r.net, r.customers, r.gaps, gap);
      StretchJoin(r.net, Head(r.net, r.customers, r.gaps, gap), Edge(r.net, r.customers, gap, r.gaps[gap]));
      prefixes := prefixes + [Concat(prefixes[gap], edges[gap])];
    }
    suffixes := [Blank];
    LastTail(r.net, r.customers, r.gaps);
    var gap: nat := n + 1;
    while gap > 0
      invariant gap <= n + 1 && |suffixes| == n + 2 - gap
      invariant forall g: nat | gap <= g <= n + 1 :: suffixes[g - gap] == Stretch(r.net, Tail(r.net, r.customers, r.gaps, g))
    {
      gap := gap - 1;
      TailNext(r.net, r.customers, r.gaps, gap);
      StretchJoin(r.net, Edge(r.net, r.customers, gap, r.gaps[gap]), Tail(r.net, r.customers, r.gaps, gap + 1));
      suffixes := [Concat(edges[gap], suffixes[0])] + suffixes;
    }
    forall g: nat | g <= n + 1 ensures suffixes[g] == Stretch(r.net, Tail(r.net, r.customers, r.gaps, g)) {
      assert suffixes[g - gap] == suffixes[g];
    }
  }

  lemma FirstHead(net: Instance, customers: seq<int>, gaps: seq<seq<int>>)
    requires 0.0 < net.speed && |gaps| == |customers| + 1
    ensures Stretch(net, Head(net, customers, gaps, 0)) == Blank
  {
    assert Head(net, customers, gaps, 0) == [net.depot];
    StretchOne(net, net.depot);
  }

  lemma LastTail(net: Instance, customers: seq<int>, gaps: seq<seq<int>>)
    requires 0.0 < net.speed && |gaps| == |customers| + 1
    ensures Stretch(net, Tail(net, customers, gaps, |customers| + 1)) == Blank
  {
    StretchOne(net, net.depot);
  }

  /** The label of the route with the option in its gap. */
  ghost function LabelAt(r: Request, k: Key): Label
    requires Proper(r)
  {
    RegularSpeed(r.net);
    RouteLabel(r.net, VisitsAt(r, k))
  }

  lemma LabelFacts(r: Request, k: Key)
    requires Proper(r)
    ensures LabelAt(r, k).Label? && SoundLabel(r.net, LabelAt(r, k)) && Proportional(r.net, LabelAt(r, k))
    ensures RouteCost(r.net, VisitsAt(r, k)) == LabelCost(r.net, LabelAt(r, k))
  {
    hide Stretch, SoundLabel, Proportional, Regular, LabelCost;
    RegularSpeed(r.net);
    RouteLabelSound(r.net, VisitsAt(r, k));
    StretchProportional(r.net, Nodes(r.net, VisitsAt(r, k)));
  }

  function TravelOf(l: Label): real {
    if l.Blank? then 0.0 else l.travel
  }

  function ServiceOf(l: Label): real {
    if l.Blank? then 0.0 else l.service
  }

  lemma ConcatTimes(a: Label, b: Label)
    ensures TravelOf(Concat(a, b)) == TravelOf(a) + TravelOf(b) && ServiceOf(Concat(a, b)) == ServiceOf(a) + ServiceOf(b)
  {
  }

  /** The option's label is prefix, edge and suffix. */
  lemma LabelParts(r: Request, k: Key, prefixes: seq<Label>, suffixes: seq<Label>)
    requires Proper(r) && Prefixes(r, prefixes) && Suffixes(r, suffixes) && InCatalog(r, k)
    ensures var gap := r.eligible[k.0];
      var edge := Stretch(r.net, Edge(r.net, r.customers, gap, PathAt(r, k)));
      && LabelAt(r, k) == Concat(Concat(prefixes[gap], edge), suffixes[gap + 1])
      && LabelAt(r, k).travel == TravelOf(prefixes[gap]) + TravelOf(edge) + TravelOf(suffixes[gap + 1])
      && LabelAt(r, k).service == ServiceOf(prefixes[gap]) + ServiceOf(edge) + ServiceOf(suffixes[gap + 1])
      && LabelAt(r, k).Label?
  {
    hide Concat, Stretch, Edge, Head, Tail, Regular, Catalogued, TravelOf, ServiceOf;
    RegularSpeed(r.net);
    var gap := r.eligible[k.0];
    var edge := Stretch(r.net, Edge(r.net, r.customers, gap, PathAt(r, k)));
    SplicedLabel(r.net, r.customers, r.gaps, gap, PathAt(r, k));
    LabelFacts(r, k);
    ConcatTimes(prefixes[gap], edge);
    ConcatTimes(Concat(prefixes[gap], edge), suffixes[gap + 1]);
    LabelTimes(LabelAt(r, k));
  }

  lemma LabelTimes(l: Label)
    requires l.Label?
    ensures TravelOf(l) == l.travel && ServiceOf(l) == l.service
  {
  }

  /** Travel of a stretch is its distance at the vehicle's speed. */
  lemma {:induction false} StretchTravel(net: Instance, nodes: seq<int>)
    requires 0.0 < net.speed && nodes != []
    ensures TravelOf(Stretch(net, nodes)) == Distance(net, nodes) / net.speed
    decreases |nodes|
  {
    hide Concat, Hop, Stretch, TravelOf;
    var n := |nodes| - 1;
    if n == 0 {
      StretchOne(net, nodes[0]);
      assert nodes == [nodes[0]];
      BlankTimes(net.speed);
    } else {
      StretchTravel(net, nodes[..n]);
      assert nodes[..n] + [nodes[n]] == nodes;
      StretchNext(net, nodes[..n], nodes[n]);
      ConcatTimes(Stretch(net, nodes[..n]), Hop(net, nodes[n - 1], nodes[n]));
      HopTravel(net, nodes[n - 1], nodes[n]);
      Quotients(Distance(net, nodes[..n]), net.distance(nodes[n - 1], nodes[n]), net.speed);
    }
  }

  lemma BlankTimes(d: real)
    requires 0.0 < d
    ensures TravelOf(Blank) == 0.0 == 0.0 / d
  {
  }

  lemma HopTravel(net: Instance, a: int, b: int)
    requires 0.0 < net.speed
    ensures TravelOf(Hop(net, a, b)) == net.distance(a, b) / net.speed
  {
  }

  lemma Quotients(x: real, y: real, d: real)
    requires 0.0 < d
    ensures (x + y) / d == x / d + y / d
  {
  }

  /** Paths of stations add no service: only the anchor behind the gap counts. */
  lemma {:induction false} StationService(net: Instance, start: int, path: seq<int>)
    requires 0.0 < net.speed && Stations(net, path)
    ensures ServiceOf(Stretch(net, [start] + path)) == 0.0
  {
    hide Concat, Hop, Stretch, ServiceOf;
    if path == [] {
      StretchOne(net, start);
      assert [start] + path == [start];
      BlankService();
    } else {
      var n := |path| - 1;
      StationService(net, start, path[..n]);
      var nodes := [start] + path[..n];
      assert nodes + [path[n]] == [start] + path;
      StretchNext(net, nodes, path[n]);
      ConcatTimes(Stretch(net, nodes), Hop(net, nodes[|nodes| - 1], path[n]));
      HopService(net, nodes[|nodes| - 1], path[n]);
    }
  }

  lemma BlankService()
    ensures ServiceOf(Blank) == 0.0
  {
  }

  lemma HopService(net: Instance, a: int, b: int)
    requires 0.0 < net.speed
    ensures ServiceOf(Hop(net, a, b)) == Service(net, b)
    ensures IsStation(net, b) ==> Service(net, b) == 0.0
  {
  }

  lemma EdgeService(r: Request, gap: nat, path: seq<int>)
    requires Proper(r) && gap < |r.gaps| && Stations(r.net, path)
    ensures ServiceOf(Stretch(r.net, Edge(r.net, r.customers, gap, path)))
         == Service(r.net, Anchor(r.net, r.customers, gap + 1))
  {
    hide Concat, Hop, Stretch, ServiceOf, Regular, Catalogued;
    RegularSpeed(r.net);
    var start, finish := Anchor(r.net, r.customers, gap), Anchor(r.net, r.customers, gap + 1);
    StationService(r.net, start, path);
    var nodes := [start] + path;
    StretchNext(r.net, nodes, finish);
    ConcatTimes(Stretch(r.net, nodes), Hop(r.net, nodes[|nodes| - 1], finish));
    HopService(r.net, nodes[|nodes| - 1], finish);
  }

  // ----- bounds for a whole tail of the catalogue -----

  /** Travel bound, and the energy bound once there is no time left to charge. */
  function TailLower(net: Instance, lambda: real, zeroShift: bool, travel: real, service: real): real
    requires 0.0 < net.consumption
  {
    var v := VehicleOf(net);
    var lower := TravelBound(v, travel, service, lambda);
    if zeroShift && v.horizon <= travel + service
    then Max(lower, EnergyBound(v, travel, service, TravelEnergy(net, travel), lambda)) else lower
  }

  lemma TailLowerGrows(net: Instance, lambda: real, zeroShift: bool, x: real, y: real, service: real)
    requires Regular(net) && 0.0 <= lambda && x <= y
    ensures TailLower(net, lambda, zeroShift, x, service) <= TailLower(net, lambda, zeroShift, y, service)
  {
    hide TravelBound, EnergyBound, TravelEnergy;
    var v := VehicleOf(net);
    TravelBoundGrows(v, x, y, service, lambda);
    TravelEnergyGrows(net, x, y);
    EnergyBoundGrows(v, x, y, service, TravelEnergy(net, x), TravelEnergy(net, y), lambda);
  }

  lemma TailLowerHolds(r: Request, k: Key, zeroShift: bool)
    requires Proper(r)
    ensures LabelAt(r, k).Label?
    ensures TailLower(r.net, r.lambda, zeroShift, LabelAt(r, k).travel, LabelAt(r, k).service) <= CostAt(r, k)
  {
    hide TravelBound, EnergyBound, TravelEnergy, GeneralizedCost, LabelAt, LabelCost, Catalogued, RouteCost;
    LabelFacts(r, k);
    LabelTravelBound(r.net, LabelAt(r, k), r.lambda);
    if zeroShift && r.net.horizon <= LabelAt(r, k).travel + LabelAt(r, k).service {
      LabelEnergyBound(r.net, LabelAt(r, k), r.lambda);
    }
  }

  /** The travel the tail test sees for an option, and the service that all options of the gap share. */
  ghost predicate Seen(r: Request, k: Key, travel: real, service: real)
    requires Proper(r)
  {
    LabelAt(r, k).Label? && LabelAt(r, k).travel == travel && LabelAt(r, k).service == service
  }

  lemma OptionTimes(r: Request, k: Key, prefixes: seq<Label>, suffixes: seq<Label>)
    requires Proper(r) && Prefixes(r, prefixes) && Suffixes(r, suffixes) && InCatalog(r, k)
    ensures var gap := r.eligible[k.0];
      && 0.0 < r.net.speed
      && Seen(r, k, TravelOf(prefixes[gap]) + r.catalog[gap][k.1].distance / r.net.speed + TravelOf(suffixes[gap + 1]),
              ServiceOf(prefixes[gap]) + Service(r.net, Anchor(r.net, r.customers, gap + 1)) + ServiceOf(suffixes[gap + 1]))
  {
    hide Stretch, Edge, Head, Tail, Regular, TravelOf, ServiceOf, LabelAt, Prefixes, Suffixes, Service, Anchor;
    RegularSpeed(r.net);
    var gap := r.eligible[k.0];
    assert Catalogued(r, gap) && Stations(r.net, r.catalog[gap][k.1].stations);
    LabelParts(r, k, prefixes, suffixes);
    StretchTravel(r.net, Edge(r.net, r.customers, gap, PathAt(r, k)));
    EdgeService(r, gap, PathAt(r, k));
  }

  /** A tail bound for one option holds for every later option of the gap. */
  lemma TailHolds(r: Request, e: nat, j: nat, k: nat, prefixes: seq<Label>, suffixes: seq<Label>, zeroShift: bool,
                  travel: real, service: real)
    requires Proper(r) && Prefixes(r, prefixes) && Suffixes(r, suffixes)
    requires InCatalog(r, (e, j)) && InCatalog(r, (e, k)) && j <= k && Seen(r, (e, j), travel, service)
    ensures TailLower(r.net, r.lambda, zeroShift, travel, service) <= CostAt(r, (e, k))
  {
    hide Stretch, Edge, Head, Tail, TravelOf, ServiceOf, LabelAt, Prefixes, Suffixes, Service, Anchor, TailLower, CostAt;
    var gap := r.eligible[e];
    OptionTimes(r, (e, j), prefixes, suffixes);
    OptionTimes(r, (e, k), prefixes, suffixes);
    assert Catalogued(r, gap) && r.catalog[gap][j].distance <= r.catalog[gap][k].distance;
    Divides(r.catalog[gap][j].distance, r.catalog[gap][k].distance, r.net.speed);
    TailLowerHolds(r, (e, k), zeroShift);
    TailLowerGrows(r.net, r.lambda, zeroShift, travel, LabelAt(r, (e, k)).travel, service);
  }

  lemma Divides(x: real, y: real, d: real)
    requires x <= y && 0.0 < d
    ensures x / d <= y / d
  {
    Quotients(x, y - x, d);
    assert (y - x) / d >= 0.0;
  }

  // ----- scanning -----

  /** Options `k` up to `n` of one eligible gap. */
  ghost function Row(e: nat, k: nat, n: nat): (r: set<Key>)
    ensures forall j: Key :: j in r <==> j.0 == e && k <= j.1 < n
    decreases n - k
  {
    if n <= k then {} else {(e, k)} + Row(e, k + 1, n)
  }

  ghost predicate Dearer(r: Request, e: nat, j: nat, lower: real)
    requires Proper(r)
  {
    lower <= CostAt(r, (e, j))
  }

  lemma {:induction false} SkipRest(r: Request, seen: set<Key>, b: Band, e: nat, k: nat, n: nat, lower: real)
    requires Proper(r) && Tracks(TermsOf(r), seen, b) && k <= n && RulesOut(TermsOf(r), b, lower)
    requires forall j: nat | k <= j < n :: Dearer(r, e, j, lower)
    ensures Tracks(TermsOf(r), seen + Row(e, k, n), b)
    decreases n - k
  {
    hide Tracks, RulesOut, CostAt, Proper;
    if k < n {
      assert Dearer(r, e, k, lower);
      Skip(TermsOf(r), seen, b, (e, k), lower);
      SkipRest(r, seen + {(e, k)}, b, e, k + 1, n, lower);
      assert seen + {(e, k)} + Row(e, k + 1, n) == seen + Row(e, k, n);
    } else {
      assert seen + Row(e, k, n) == seen;
    }
  }

  predicate Beyond(incumbent: real, b: Band, lower: real) {
    lower >= incumbent - COST_TOLERANCE || (b.minimum.Some? && lower > b.minimum.value + COST_TOLERANCE)
  }

  /** Enter an exact score. */
  method Enter(ghost t: Terms, b: Band, k: Key, cost: real, incumbent: real) returns (after: Band)
    requires cost == t.cost(k) && incumbent == t.incumbent
    ensures after == Scored(t, b, k)
  {
    if cost >= incumbent - COST_TOLERANCE { return b; }
    var minimum, entries := b.minimum, b.entries;
    if minimum.None? || cost < minimum.value {
      minimum := Some(cost);
      entries := Kept(entries, cost + COST_TOLERANCE);
    }
    if cost <= minimum.value + COST_TOLERANCE { entries := entries + [Entry(k, cost)]; }
    return Band(minimum, entries);
  }

  /** One option whose place was reached: skipped, ruled out by a bound, or scored. */
  method ScanOption(r: Request, e: nat, k: nat, prefixes: seq<Label>, suffixes: seq<Label>, pruning: Pruning,
                    start: Band, ghost seen: set<Key>) returns (b: Band)
    requires Proper(r) && Prefixes(r, prefixes) && Suffixes(r, suffixes) && InCatalog(r, (e, k))
    requires Tracks(TermsOf(r), seen, start)
    ensures Tracks(TermsOf(r), seen + {(e, k)}, b)
  {
    hide Tracks, Stretch, Edge, Head, Tail, Regular, Catalogued, LabelAt, Prefixes, Suffixes, GeneralizedCost, TravelBound,
      BoundCost, SoundLabel, Proportional, Concat, LabelCost, RouteCost, VisitsAt, Scored;
    RegularSpeed(r.net);
    ghost var t := TermsOf(r);
    var key := (e, k);
    b := start;
    var gap, path := r.eligible[e], r.catalog[r.eligible[e]][k].stations;
    var v := VehicleOf(r.net);
    if path == r.gaps[gap] || (gap, path) in r.excluded {
      Skip(t, seen, b, key, 0.0);
      return;
    }
    LabelParts(r, key, prefixes, suffixes);
    LabelFacts(r, key);
    OptionStations(r, gap, k);
    PartsSized(r, prefixes, suffixes);
    var edge := GapLabel(r, gap, path);
    var whole := Concat(Concat(prefixes[gap], edge), suffixes[gap + 1]);
    if pruning.candidate {
      var lower := TravelBound(v, whole.travel, whole.service, r.lambda);
      LabelTravelBound(r.net, whole, r.lambda);
      if Beyond(r.incumbent, b, lower) {
        Skip(t, seen, b, key, lower);
        return;
      }
    }
    var cost: real;
    if pruning.candidate && pruning.bounded {
      var limits := Limits(r.lambda, r.incumbent - COST_TOLERANCE,
                           if b.minimum.Some? then Some(b.minimum.value + COST_TOLERANCE) else None, true);
      var o := EvaluateBounded(r.net, whole, limits);
      if o.LowerBound? {
        Skip(t, seen, b, key, BoundCost(o.travel, o.shortfall, o.excess, v, r.lambda));
        return;
      }
      cost := GeneralizedCost(o.summary, v, r.lambda);
    } else {
      var s := EvaluateLabel(r.net, whole);
      cost := GeneralizedCost(s, v, r.lambda);
    }
    Score(t, seen, b, key);
    b := Enter(t, b, key, cost, r.incumbent);
  }

  lemma OptionStations(r: Request, gap: nat, k: nat)
    requires Proper(r) && gap < |r.gaps| && k < |r.catalog[gap]|
    ensures Stations(r.net, r.catalog[gap][k].stations)
  {
    assert Catalogued(r, gap);
  }

  lemma PartsSized(r: Request, prefixes: seq<Label>, suffixes: seq<Label>)
    requires Proper(r) && Prefixes(r, prefixes) && Suffixes(r, suffixes)
    ensures |prefixes| == |r.gaps| && |suffixes| == |r.gaps| + 1
  {
  }

  /** The options of one gap, nearest first, until the tail bound rules the rest out. */
  method ScanGap(r: Request, e: nat, prefixes: seq<Label>, suffixes: seq<Label>, pruning: Pruning,
                 start: Band, ghost seen: set<Key>) returns (b: Band)
    requires Proper(r) && Prefixes(r, prefixes) && Suffixes(r, suffixes) && e < |r.eligible|
    requires Tracks(TermsOf(r), seen, start)
    ensures Tracks(TermsOf(r), seen + Row(e, 0, |r.catalog[r.eligible[e]]|), b)
  {
    hide Tracks, Stretch, Edge, Head, Tail, Regular, Catalogued, LabelAt, Prefixes, Suffixes, TravelOf, ServiceOf,
      TailLower, Service, CostAt, Allowed;
    RegularSpeed(r.net);
    PartsSized(r, prefixes, suffixes);
    b := start;
    var gap := r.eligible[e];
    var n := |r.catalog[gap]|;
    var service := ServiceOf(prefixes[gap]) + Service(r.net, Anchor(r.net, r.customers, gap + 1)) + ServiceOf(suffixes[gap + 1]);
    assert seen + Row(e, 0, 0) == seen;
    for k := 0 to n
      invariant Tracks(TermsOf(r), seen + Row(e, 0, k), b)
    {
      if pruning.tail {
        var travel := TravelOf(prefixes[gap]) + r.catalog[gap][k].distance / r.net.speed + TravelOf(suffixes[gap + 1]);
        var lower := TailLower(r.net, r.lambda, pruning.zeroShift, travel, service);
        if Beyond(r.incumbent, b, lower) {
          OptionTimes(r, (e, k), prefixes, suffixes);
          forall j: nat | k <= j < n ensures Dearer(r, e, j, lower) {
            TailHolds(r, e, k, j, prefixes, suffixes, pruning.zeroShift, travel, service);
          }
          SkipRest(r, seen + Row(e, 0, k), b, e, k, n, lower);
          assert seen + Row(e, 0, k) + Row(e, k, n) == seen + Row(e, 0, n);
          return;
        }
      }
      ghost var before := seen + Row(e, 0, k);
      b := ScanOption(r, e, k, prefixes, suffixes, pruning, b, before);
      assert before + {(e, k)} == seen + Row(e, 0, k + 1);
    }
  }

  /** The cheapest good option sets the standard, the tolerance admits its rivals, and the least visit
      sequence among them wins. */
  ghost predicate IsBest(r: Request, key: Key)
    requires Proper(r)
  {
    var t := TermsOf(r);
    && Good(t, key)
    && exists m: Key :: Good(t, m) && (forall k: Key | Good(t, k) :: t.cost(m) <= t.cost(k))
         && t.cost(key) <= t.cost(m) + COST_TOLERANCE
         && forall k: Key | Good(t, k) && t.cost(k) <= t.cost(m) + COST_TOLERANCE ::
              !LexLess(VisitsAt(r, k), VisitsAt(r, key))
  }

  /** Replace one path of the route by its best alternative. Whatever bounds are switched on, the result is
      the one that scoring every option gives. */
  method BestReplacement(r: Request, pruning: Pruning) returns (best: Option<Key>, visits: seq<int>)
    requires Proper(r)
    ensures best.None? <==> forall k: Key :: !Good(TermsOf(r), k)
    ensures best.Some? ==> IsBest(r, best.value) && visits == VisitsAt(r, best.value)
  {
    hide Tracks, Regular, Catalogued, Prefixes, Suffixes, CostAt, Good;
    var prefixes, suffixes := PrepareLabels(r);
    var b := EMPTY_BAND;
    ghost var seen: set<Key> := {};
    NothingSeen(TermsOf(r));
    for e := 0 to |r.eligible|
      invariant Tracks(TermsOf(r), seen, b)
      invariant forall k: Key | InCatalog(r, k) && k.0 < e :: k in seen
    {
      b := ScanGap(r, e, prefixes, suffixes, pruning, b, seen);
      seen := seen + Row(e, 0, |r.catalog[r.eligible[e]]|);
    }
    AllSeen(r, seen);
    best, visits := LeastVisits(r, b, seen);
  }

  lemma AllSeen(r: Request, seen: set<Key>)
    requires Proper(r) && forall k: Key | InCatalog(r, k) && k.0 < |r.eligible| :: k in seen
    ensures forall k: Key | Good(TermsOf(r), k) :: k in seen
  {
  }

  /** Only the band is expanded to visits. */
  method LeastVisits(r: Request, b: Band, ghost seen: set<Key>) returns (best: Option<Key>, visits: seq<int>)
    requires Proper(r) && Tracks(TermsOf(r), seen, b) && forall k: Key | Good(TermsOf(r), k) :: k in seen
    ensures best.None? <==> forall k: Key :: !Good(TermsOf(r), k)
    ensures best.Some? ==> IsBest(r, best.value) && visits == VisitsAt(r, best.value)
  {
    hide Regular, Catalogued, CostAt, LexLess, VisitsAt;
    best, visits := None, [];
    for i := 0 to |b.entries|
      invariant best.None? <==> i == 0
      invariant best.Some? ==> (exists j :: 0 <= j < i && b.entries[j].key == best.value) && visits == VisitsAt(r, best.value)
      invariant best.Some? ==> forall j | 0 <= j < i :: !LexLess(VisitsAt(r, b.entries[j].key), visits)
    {
      var key := b.entries[i].key;
      EntryInCatalog(r, seen, b, i);
      var gaps := r.gaps[r.eligible[key.0] := PathAt(r, key)];
      var candidate := ExpandRoute(r.customers, gaps);
      VisitsOf(r, key);
      if best.None? || LexLess(candidate.value, visits) {
        LexTotal(candidate.value, candidate.value);
        if best.Some? {
          forall j | 0 <= j < i ensures !LexLess(VisitsAt(r, b.entries[j].key), candidate.value) {
            StillLeast(VisitsAt(r, b.entries[j].key), candidate.value, visits);
          }
        }
        best, visits := Some(key), candidate.value;
      }
    }
    BandDecides(r, seen, b, best, visits);
  }

  lemma {:induction false} StillLeast(x: seq<int>, least: seq<int>, previous: seq<int>)
    requires !LexLess(x, previous) && LexLess(least, previous)
    ensures !LexLess(x, least)
  {
    hide LexLess;
    if LexLess(x, least) { LexTransitive(x, least, previous); }
  }

  lemma EntryInCatalog(r: Request, seen: set<Key>, b: Band, i: nat)
    requires Proper(r) && Tracks(TermsOf(r), seen, b) && i < |b.entries|
    ensures InCatalog(r, b.entries[i].key)
  {
    hide Regular, Catalogued, CostAt;
    assert b.entries[i] in b.entries && Good(TermsOf(r), b.entries[i].key);
  }

  lemma VisitsOf(r: Request, k: Key)
    requires Proper(r) && InCatalog(r, k)
    ensures VisitsAt(r, k) == Expand(r.customers, r.gaps[r.eligible[k.0] := PathAt(r, k)])
  {
  }

  /** The least visits of the band are the least visits of all good options near the minimum. */
  lemma BandDecides(r: Request, seen: set<Key>, b: Band, best: Option<Key>, visits: seq<int>)
    requires Proper(r) && Tracks(TermsOf(r), seen, b) && forall k: Key | Good(TermsOf(r), k) :: k in seen
    requires best.None? <==> b.entries == []
    requires best.Some? ==> (exists j :: 0 <= j < |b.entries| && b.entries[j].key == best.value) && visits == VisitsAt(r, best.value)
    requires best.Some? ==> forall j | 0 <= j < |b.entries| :: !LexLess(VisitsAt(r, b.entries[j].key), visits)
    ensures best.None? <==> forall k: Key :: !Good(TermsOf(r), k)
    ensures best.Some? ==> IsBest(r, best.value)
  {
    hide Regular, Catalogued, LexLess, VisitsAt, Good, CostAt, Proper;
    var t := TermsOf(r);
    if b.minimum.Some? {
      var m: Key :| m in seen && Good(t, m) && t.cost(m) == b.minimum.value;
      assert Entry(m, t.cost(m)) in b.entries;
    }
    if best.Some? {
      var j :| 0 <= j < |b.entries| && b.entries[j].key == best.value;
      assert b.entries[j] in b.entries;
      var m: Key :| m in seen && Good(t, m) && t.cost(m) == b.minimum.value;
      forall k: Key | Good(t, k) && t.cost(k) <= t.cost(m) + COST_TOLERANCE
        ensures !LexLess(VisitsAt(r, k), VisitsAt(r, best.value))
      {
        assert Entry(k, t.cost(k)) in b.entries;
        var i :| 0 <= i < |b.entries| && b.entries[i] == Entry(k, t.cost(k));
      }
    }
  }
}
