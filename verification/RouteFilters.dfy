/** The filters behind the dominance rule of the fixed-route path enumeration (src/copt_models.cpp,
    `enumerate_frvcp_paths`): paths that no feasible route through the customers can use. */
module RouteFilters {
  import opened Common
  import opened Curves
  import opened Network
  import opened Labels
  import opened Charging
  import opened ChargingCollapse
  import opened ChargingLaws
  import opened Evaluation
  import opened Replay
  import opened RouteCosts
  import opened LowerBound
  import opened PlanNodes
  import opened Walks

  datatype Choice = Choice(stations: seq<int>, required: bool)

  // ----- coupling with the neighbouring gaps -----

  /** The least energy from the depot or a station to a node. */
  function LeastInto(net: Instance, node: int, n: nat): real
    requires n <= |net.stations|
  {
    if n == 0 then Energy(net, net.depot, node)
    else Min(LeastInto(net, node, n - 1), Energy(net, net.stations[n - 1], node))
  }

  /** The least energy from a node to the depot or a station. */
  function LeastOut(net: Instance, node: int, n: nat): real
    requires n <= |net.stations|
  {
    if n == 0 then Energy(net, node, net.depot)
    else Min(LeastOut(net, node, n - 1), Energy(net, node, net.stations[n - 1]))
  }

  lemma {:induction false} LeastBounds(net: Instance, node: int, n: nat)
    requires n <= |net.stations|
    ensures LeastInto(net, node, n) <= Energy(net, net.depot, node)
    ensures LeastOut(net, node, n) <= Energy(net, node, net.depot)
    ensures forall k | 0 <= k < n ::
      LeastInto(net, node, n) <= Energy(net, net.stations[k], node) && LeastOut(net, node, n) <= Energy(net, node, net.stations[k])
  {
    hide Energy;
    if n > 0 { LeastBounds(net, node, n - 1); }
  }

  /** What the legs around a gap's path leave for the nearest charges before and behind. */
  predicate Coupled(net: Instance, into: real, out: real, origin: int, path: seq<int>, target: int) {
    if path == [] then into + Energy(net, origin, target) + out <= net.capacity
    else into + Energy(net, origin, path[0]) <= net.capacity && Energy(net, path[|path| - 1], target) + out <= net.capacity
  }

  function CoupledIn(net: Instance, customers: seq<int>, gap: nat): seq<int> -> bool
    requires gap <= |customers|
  {
    var origin, target := Anchor(net, customers, gap), Anchor(net, customers, gap + 1);
    var into, out := LeastInto(net, origin, |net.stations|), LeastOut(net, target, |net.stations|);
    path => Coupled(net, into, out, origin, path, target)
  }

  /** `std::erase_if`, sparing the required paths. */
  function Spared(list: seq<Choice>, fits: seq<int> -> bool): (r: seq<Choice>)
    ensures forall p :: p in r <==> p in list && (p.required || fits(p.stations))
  {
    if list == [] then []
    else
      var n := |list| - 1;
      Spared(list[..n], fits) + if list[n].required || fits(list[n].stations) then [list[n]] else []
  }

  method EraseUncoupled(net: Instance, customers: seq<int>, gap: nat, list: seq<Choice>) returns (kept: seq<Choice>)
    requires gap <= |customers|
    ensures kept == Spared(list, CoupledIn(net, customers, gap))
  {
    hide Energy;
    var origin, target := Anchor(net, customers, gap), Anchor(net, customers, gap + 1);
    var into, out := Energy(net, net.depot, origin), Energy(net, target, net.depot);
    for k := 0 to |net.stations|
      invariant into == LeastInto(net, origin, k) && out == LeastOut(net, target, k)
    {
      into := Min(into, Energy(net, net.stations[k], origin));
      out := Min(out, Energy(net, target, net.stations[k]));
    }
    ghost var fits := CoupledIn(net, customers, gap);
    kept := [];
    for i := 0 to |list|
      invariant kept == Spared(list[..i], fits)
    {
      assert list[..i + 1][..i] == list[..i] && list[..i + 1][i] == list[i];
      assert fits(list[i].stations) == Coupled(net, into, out, origin, list[i].stations, target);
      if list[i].required || Coupled(net, into, out, origin, list[i].stations, target) { kept := kept + [list[i]]; }
    }
    assert list[..|list|] == list;
  }

  /** The last charge at or before a node, and what it takes from there. */
  lemma {:induction false} Back(net: Instance, nodes: seq<int>, a: nat) returns (k: nat)
    requires Listed(net) && 0.0 < net.speed && a < |nodes| && nodes[0] == net.depot && !IsStation(net, nodes[a])
    ensures k <= a && forall i | k < i <= a :: !IsStation(net, nodes[i])
    ensures LeastInto(net, nodes[a], |net.stations|) <= PathEnergy(net, nodes[k..a + 1])
  {
    hide Energy, Strict, Metric, LeastInto, PathEnergy, PathTravel, PathService;
    LeastBounds(net, nodes[a], |net.stations|);
    k := a;
    while k > 0 && !IsStation(net, nodes[k])
      invariant k <= a && forall i | k < i <= a :: !IsStation(net, nodes[i])
    {
      k := k - 1;
    }
    var part := nodes[k..a + 1];
    assert part[0] == nodes[k] && part[|part| - 1] == nodes[a];
    Shortcut(net, part);
    if IsStation(net, nodes[k]) {
      var s :| 0 <= s < |net.stations| && net.stations[s] == nodes[k];
    }
  }

  /** The next charge at or behind a node, and what it takes to get there. */
  lemma {:induction false} Forth(net: Instance, nodes: seq<int>, b: nat) returns (m: nat)
    requires Listed(net) && 0.0 < net.speed && b < |nodes| && nodes[|nodes| - 1] == net.depot && !IsStation(net, nodes[b])
    ensures b <= m < |nodes| && forall i | b <= i < m :: !IsStation(net, nodes[i])
    ensures LeastOut(net, nodes[b], |net.stations|) <= PathEnergy(net, nodes[b..m + 1])
  {
    hide Energy, Strict, Metric, LeastOut, PathEnergy, PathTravel, PathService;
    LeastBounds(net, nodes[b], |net.stations|);
    m := b;
    while m < |nodes| - 1 && !IsStation(net, nodes[m])
      invariant b <= m < |nodes| && forall i | b <= i < m :: !IsStation(net, nodes[i])
    {
      m := m + 1;
    }
    var part := nodes[b..m + 1];
    assert part[0] == nodes[b] && part[|part| - 1] == nodes[m];
    Shortcut(net, part);
    if IsStation(net, nodes[m]) {
      var s :| 0 <= s < |net.stations| && net.stations[s] == nodes[m];
    }
  }

  /** On a physical trace every path between two anchors is coupled. */
  lemma {:induction false} PathIsCoupled(net: Instance, nodes: seq<int>, ps: seq<Soc>, a: nat, origin: int, path: seq<int>, target: int)
    requires Listed(net) && 0.0 < net.speed && Bounded(net.capacity, ps) && nodes != [] && Chained(ps, NodeStops(net, nodes))
    requires nodes[0] == net.depot == nodes[|nodes| - 1] && Passes(nodes, a, origin, path, target)
    requires !IsStation(net, origin) && !IsStation(net, target)
    ensures Coupled(net, LeastInto(net, origin, |net.stations|), LeastOut(net, target, |net.stations|), origin, path, target)
  {
    hide Energy, Listed, LeastInto, LeastOut, PathEnergy, PathTravel, PathService, Bounded, Chained, NodeStops, IsStation;
    var b := a + |path| + 1;
    var part := nodes[a..b + 1];
    assert part[0] == nodes[a] && part[|path| + 1] == nodes[b];
    var k := Back(net, nodes, a);
    var m := Forth(net, nodes, b);
    if path == [] {
      StretchDrains(net, nodes, ps, k, m);
      SplitAt(net, nodes, k, a, m);
      SplitAt(net, nodes, a, b, m);
      StretchGrows(net, nodes, a, b);
    } else {
      assert part[1] == nodes[a + 1] == path[0] && part[|path|] == nodes[b - 1] == path[|path| - 1];
      StretchDrains(net, nodes, ps, k, a + 1);
      SplitAt(net, nodes, k, a, a + 1);
      StretchGrows(net, nodes, a, a + 1);
      StretchDrains(net, nodes, ps, b - 1, m);
      SplitAt(net, nodes, b - 1, b, m);
      StretchGrows(net, nodes, b - 1, b);
    }
  }

  lemma {:induction false} SplitAt(net: Instance, nodes: seq<int>, i: nat, j: nat, k: nat)
    requires 0.0 < net.speed && i <= j <= k < |nodes|
    ensures PathEnergy(net, nodes[i..k + 1]) == PathEnergy(net, nodes[i..j + 1]) + PathEnergy(net, nodes[j..k + 1])
    ensures PathTravel(net, nodes[i..k + 1]) == PathTravel(net, nodes[i..j + 1]) + PathTravel(net, nodes[j..k + 1])
  {
    hide PathEnergy, PathTravel, PathService;
    var part := nodes[i..k + 1];
    WalkSplit(net, part, j - i);
    assert part[..j - i + 1] == nodes[i..j + 1] && part[j - i..] == nodes[j..k + 1];
  }

  // ----- the route limit -----

  /** Travel time and energy of the edge through a gap. */
  function TravelIn(net: Instance, customers: seq<int>, gap: nat): seq<int> -> real
    requires 0.0 < net.speed && gap <= |customers|
  {
    path => PathTravel(net, Edge(net, customers, gap, path))
  }

  function EnergyIn(net: Instance, customers: seq<int>, gap: nat): seq<int> -> real
    requires gap <= |customers|
  {
    path => PathEnergy(net, Edge(net, customers, gap, path))
  }

  /** The least value over a list. */
  function Least(list: seq<Choice>, value: seq<int> -> real): (r: real)
    requires list != []
    ensures forall p | p in list :: r <= value(p.stations)
    ensures exists p :: p in list && r == value(p.stations)
  {
    var last := list[|list| - 1];
    if |list| == 1 then value(last.stations) else Min(Least(list[..|list| - 1], value), value(last.stations))
  }

  ghost predicate AllNonempty(lists: seq<seq<Choice>>) {
    forall i | 0 <= i < |lists| :: lists[i] != []
  }

  /** The least travel of every gap up to `n`, together; likewise the energy. */
  function LeastTravel(net: Instance, customers: seq<int>, lists: seq<seq<Choice>>, n: nat): real
    requires 0.0 < net.speed && n <= |lists| == |customers| + 1 && AllNonempty(lists)
  {
    if n == 0 then 0.0
    else LeastTravel(net, customers, lists, n - 1) + Least(lists[n - 1], TravelIn(net, customers, n - 1))
  }

  function LeastEnergy(net: Instance, customers: seq<int>, lists: seq<seq<Choice>>, n: nat): real
    requires n <= |lists| == |customers| + 1 && AllNonempty(lists)
  {
    if n == 0 then 0.0
    else LeastEnergy(net, customers, lists, n - 1) + Least(lists[n - 1], EnergyIn(net, customers, n - 1))
  }

  /** The least charging time for an energy, if there is one. */
  function ChargingBound(net: Instance, energy: real): Extended
    requires HasCurves(net)
  {
    var required := Max(0.0, energy - net.capacity);
    if required <= 0.0 then Finite(0.0)
    else
      match MaximumChargingRate(net)
      case Infinite => Finite(0.0)
      case Finite(rate) => if rate > 0.0 then Finite(required / rate) else Infinite
  }

  /** The limit test for a total travel, energy and service. */
  predicate WithinLimit(net: Instance, travel: real, energy: real, service: real)
    requires HasCurves(net)
  {
    var charging := ChargingBound(net, energy);
    charging.Finite? && travel + charging.value + service <= net.horizon
  }

  /** The test of one path, for the sums over the other gaps. */
  function LimitTest(net: Instance, customers: seq<int>, gap: nat, travel: real, energy: real, service: real): seq<int> -> bool
    requires 0.0 < net.speed && HasCurves(net) && gap <= |customers|
  {
    path => WithinLimit(net, travel + TravelIn(net, customers, gap)(path), energy + EnergyIn(net, customers, gap)(path), service)
  }

  /** The test of one path while every other gap takes its least. */
  function FitsIn(net: Instance, customers: seq<int>, lists: seq<seq<Choice>>, gap: nat): seq<int> -> bool
    requires 0.0 < net.speed && HasCurves(net) && gap < |lists| == |customers| + 1 && AllNonempty(lists)
  {
    LimitTest(net, customers, gap,
              LeastTravel(net, customers, lists, |lists|) - Least(lists[gap], TravelIn(net, customers, gap)),
              LeastEnergy(net, customers, lists, |lists|) - Least(lists[gap], EnergyIn(net, customers, gap)),
              ServiceSum(net, customers))
  }

  function ServiceSum(net: Instance, customers: seq<int>): real {
    if customers == [] then 0.0 else ServiceSum(net, customers[..|customers| - 1]) + net.serviceTime(customers[|customers| - 1])
  }

  method LeastOf(list: seq<Choice>, value: seq<int> -> real) returns (least: real)
    requires list != []
    ensures least == Least(list, value)
  {
    least := value(list[0].stations);
    for i := 1 to |list|
      invariant least == Least(list[..i], value)
    {
      assert list[..i + 1][..i] == list[..i] && list[..i + 1][i] == list[i];
      least := Min(least, value(list[i].stations));
    }
    assert list[..|list|] == list;
  }

  method TotalService(net: Instance, customers: seq<int>) returns (service: real)
    ensures service == ServiceSum(net, customers)
  {
    service := 0.0;
    for i := 0 to |customers|
      invariant service == ServiceSum(net, customers[..i])
    {
      assert customers[..i + 1][..i] == customers[..i];
      service := service + net.serviceTime(customers[i]);
    }
    assert customers[..|customers|] == customers;
  }

  method LeastTotals(net: Instance, customers: seq<int>, lists: seq<seq<Choice>>)
      returns (travels: seq<real>, energies: seq<real>, travel: real, energy: real)
    requires 0.0 < net.speed && |lists| == |customers| + 1 && AllNonempty(lists)
    ensures |travels| == |energies| == |lists|
    ensures forall i | 0 <= i < |lists| ::
      travels[i] == Least(lists[i], TravelIn(net, customers, i)) && energies[i] == Least(lists[i], EnergyIn(net, customers, i))
    ensures travel == LeastTravel(net, customers, lists, |lists|) && energy == LeastEnergy(net, customers, lists, |lists|)
  {
    hide TravelIn, EnergyIn, Least, LeastTravel, LeastEnergy;
    travels, energies, travel, energy := [], [], 0.0, 0.0;
    LeastNothing(net, customers, lists);
    for gap := 0 to |lists|
      invariant |travels| == |energies| == gap
      invariant forall i | 0 <= i < gap ::
        travels[i] == Least(lists[i], TravelIn(net, customers, i)) && energies[i] == Least(lists[i], EnergyIn(net, customers, i))
      invariant travel == LeastTravel(net, customers, lists, gap) && energy == LeastEnergy(net, customers, lists, gap)
    {
      var t := LeastOf(lists[gap], TravelIn(net, customers, gap));
      var e := LeastOf(lists[gap], EnergyIn(net, customers, gap));
      LeastNext(net, customers, lists, gap);
      travels, energies := travels + [t], energies + [e];
      travel, energy := travel + t, energy + e;
    }
  }

  lemma {:induction false} LeastNothing(net: Instance, customers: seq<int>, lists: seq<seq<Choice>>)
    requires 0.0 < net.speed && |lists| == |customers| + 1 && AllNonempty(lists)
    ensures LeastTravel(net, customers, lists, 0) == 0.0 == LeastEnergy(net, customers, lists, 0)
  {
  }

  lemma {:induction false} LeastNext(net: Instance, customers: seq<int>, lists: seq<seq<Choice>>, n: nat)
    requires 0.0 < net.speed && n < |lists| == |customers| + 1 && AllNonempty(lists)
    ensures LeastTravel(net, customers, lists, n + 1)
      == LeastTravel(net, customers, lists, n) + Least(lists[n], TravelIn(net, customers, n))
    ensures LeastEnergy(net, customers, lists, n + 1)
      == LeastEnergy(net, customers, lists, n) + Least(lists[n], EnergyIn(net, customers, n))
  {
  }

  method EraseLate(net: Instance, customers: seq<int>, lists: seq<seq<Choice>>) returns (kept: seq<seq<Choice>>)
    requires 0.0 < net.speed && HasCurves(net) && |lists| == |customers| + 1 && AllNonempty(lists)
    ensures |kept| == |lists| && forall gap | 0 <= gap < |lists| ::
      kept[gap] == Spared(lists[gap], FitsIn(net, customers, lists, gap))
  {
    hide TravelIn, EnergyIn, LimitTest, Least, Spared, LeastTravel, LeastEnergy, ServiceSum;
    var service := TotalService(net, customers);
    var travels, energies, travel, energy := LeastTotals(net, customers, lists);
    kept := [];
    for gap := 0 to |lists|
      invariant |kept| == gap
      invariant forall i | 0 <= i < gap :: kept[i] == Spared(lists[i], FitsIn(net, customers, lists, i))
    {
      var list := EraseOver(net, customers, gap, lists[gap], travel - travels[gap], energy - energies[gap], service);
      kept := kept + [list];
    }
  }

  method EraseOver(net: Instance, customers: seq<int>, gap: nat, list: seq<Choice>, travel: real, energy: real, service: real)
      returns (kept: seq<Choice>)
    requires 0.0 < net.speed && HasCurves(net) && gap <= |customers|
    ensures kept == Spared(list, LimitTest(net, customers, gap, travel, energy, service))
  {
    hide TravelIn, EnergyIn, WithinLimit;
    ghost var fits := LimitTest(net, customers, gap, travel, energy, service);
    kept := [];
    for i := 0 to |list|
      invariant kept == Spared(list[..i], fits)
    {
      assert list[..i + 1][..i] == list[..i] && list[..i + 1][i] == list[i];
      var t, e := travel + TravelIn(net, customers, gap)(list[i].stations), energy + EnergyIn(net, customers, gap)(list[i].stations);
      assert fits(list[i].stations) == WithinLimit(net, t, e, service);
      if list[i].required || WithinLimit(net, t, e, service) { kept := kept + [list[i]]; }
    }
    assert list[..|list|] == list;
  }

  /** Both filters: coupling first, then, unless a gap has run out of paths, the route limit. */
  method FilterPaths(net: Instance, customers: seq<int>, lists: seq<seq<Choice>>) returns (kept: seq<seq<Choice>>)
    requires 0.0 < net.speed && HasCurves(net) && |lists| == |customers| + 1
    ensures |kept| == |lists| && Filtered(net, customers, lists, kept)
  {
    hide Spared, CoupledIn, FitsIn;
    var coupled: seq<seq<Choice>> := [];
    for gap := 0 to |lists|
      invariant |coupled| == gap
      invariant forall i | 0 <= i < gap :: coupled[i] == Spared(lists[i], CoupledIn(net, customers, i))
    {
      var list := EraseUncoupled(net, customers, gap, lists[gap]);
      coupled := coupled + [list];
    }
    var nonempty := true;
    for gap := 0 to |lists|
      invariant nonempty <==> forall i | 0 <= i < gap :: coupled[i] != []
    {
      if coupled[gap] == [] { nonempty := false; }
    }
    if !nonempty {
      kept := coupled;
    } else {
      kept := EraseLate(net, customers, coupled);
    }
    assert IsCoupled(net, customers, lists, coupled);
  }

  ghost predicate IsCoupled(net: Instance, customers: seq<int>, lists: seq<seq<Choice>>, coupled: seq<seq<Choice>>) {
    |coupled| == |lists| == |customers| + 1
    && forall gap | 0 <= gap < |lists| :: coupled[gap] == Spared(lists[gap], CoupledIn(net, customers, gap))
  }

  ghost predicate Filtered(net: Instance, customers: seq<int>, lists: seq<seq<Choice>>, kept: seq<seq<Choice>>)
    requires 0.0 < net.speed && HasCurves(net) && |kept| == |lists| == |customers| + 1
  {
    exists coupled :: IsCoupled(net, customers, lists, coupled)
      && if !AllNonempty(coupled) then kept == coupled
         else forall gap | 0 <= gap < |lists| :: kept[gap] == Spared(coupled[gap], FitsIn(net, customers, coupled, gap))
  }

  // ----- what the filters never erase -----

  lemma {:induction false} LeastSums(net: Instance, customers: seq<int>, lists: seq<seq<Choice>>, choice: seq<seq<int>>, n: nat)
    requires 0.0 < net.speed && n <= |lists| == |choice| == |customers| + 1 && AllNonempty(lists) && Chosen(lists, choice)
    ensures LeastTravel(net, customers, lists, n) <= SumOf(net, customers, choice, n).0
    ensures LeastEnergy(net, customers, lists, n) <= SumOf(net, customers, choice, n).1
  {
    hide TravelIn, EnergyIn, Least;
    if n > 0 {
      LeastSums(net, customers, lists, choice, n - 1);
      LeastAtMost(lists, choice, n - 1, TravelIn(net, customers, n - 1));
      LeastAtMost(lists, choice, n - 1, EnergyIn(net, customers, n - 1));
    }
  }

  /** With one gap taking its chosen path and the others their least, the sums stay below the chosen ones. */
  lemma {:induction false} LeastElsewhere(net: Instance, customers: seq<int>, lists: seq<seq<Choice>>, choice: seq<seq<int>>,
                                          gap: nat, n: nat)
    requires 0.0 < net.speed && gap < n <= |lists| == |choice| == |customers| + 1 && AllNonempty(lists) && Chosen(lists, choice)
    ensures LeastTravel(net, customers, lists, n) - Least(lists[gap], TravelIn(net, customers, gap))
              + TravelIn(net, customers, gap)(choice[gap]) <= SumOf(net, customers, choice, n).0
    ensures LeastEnergy(net, customers, lists, n) - Least(lists[gap], EnergyIn(net, customers, gap))
              + EnergyIn(net, customers, gap)(choice[gap]) <= SumOf(net, customers, choice, n).1
    decreases n
  {
    hide TravelIn, EnergyIn, Least;
    if gap == n - 1 {
      LeastSums(net, customers, lists, choice, n - 1);
    } else {
      LeastElsewhere(net, customers, lists, choice, gap, n - 1);
      LeastAtMost(lists, choice, n - 1, TravelIn(net, customers, n - 1));
      LeastAtMost(lists, choice, n - 1, EnergyIn(net, customers, n - 1));
    }
  }

  lemma LeastAtMost(lists: seq<seq<Choice>>, choice: seq<seq<int>>, gap: nat, value: seq<int> -> real)
    requires gap < |lists| && Chosen(lists, choice)
    ensures lists[gap] != [] && Least(lists[gap], value) <= value(choice[gap])
  {
    assert Offers(lists[gap], choice[gap]);
    var p :| p in lists[gap] && p.stations == choice[gap];
    assert Least(lists[gap], value) <= value(p.stations);
  }

  ghost predicate Offers(list: seq<Choice>, path: seq<int>) {
    exists p :: p in list && p.stations == path
  }

  /** One listed path per gap. */
  ghost predicate Chosen(lists: seq<seq<Choice>>, choice: seq<seq<int>>) {
    |choice| == |lists| && forall gap | 0 <= gap < |lists| :: Offers(lists[gap], choice[gap])
  }

  function SumOf(net: Instance, customers: seq<int>, choice: seq<seq<int>>, n: nat): (real, real)
    requires 0.0 < net.speed && n <= |choice| == |customers| + 1
  {
    if n == 0 then (0.0, 0.0)
    else
      var before := SumOf(net, customers, choice, n - 1);
      (before.0 + TravelIn(net, customers, n - 1)(choice[n - 1]), before.1 + EnergyIn(net, customers, n - 1)(choice[n - 1]))
  }

  /** The edges of a route add up to its walk. */
  lemma {:induction false} EdgesAddUp(net: Instance, customers: seq<int>, choice: seq<seq<int>>, n: nat)
    requires 0.0 < net.speed && n <= |choice| == |customers| + 1
    ensures var rest := Tail(net, customers, choice, n);
      var nodes := Nodes(net, Expand(customers, choice));
      && PathTravel(net, nodes) == SumOf(net, customers, choice, n).0 + PathTravel(net, rest)
      && PathEnergy(net, nodes) == SumOf(net, customers, choice, n).1 + PathEnergy(net, rest)
  {
    hide PathTravel, PathEnergy, PathService, Tail, Edge, Nodes, Expand, TravelIn, EnergyIn;
    if n == 0 {
      WholeTail(net, customers, choice);
    } else {
      EdgesAddUp(net, customers, choice, n - 1);
      EdgeSums(net, customers, n - 1, choice[n - 1]);
      TailNext(net, customers, choice, n - 1);
      WalkJoin(net, Edge(net, customers, n - 1, choice[n - 1]), Tail(net, customers, choice, n));
    }
  }

  lemma {:induction false} EdgeSums(net: Instance, customers: seq<int>, gap: nat, path: seq<int>)
    requires 0.0 < net.speed && gap <= |customers|
    ensures TravelIn(net, customers, gap)(path) == PathTravel(net, Edge(net, customers, gap, path))
    ensures EnergyIn(net, customers, gap)(path) == PathEnergy(net, Edge(net, customers, gap, path))
  {
  }

  lemma WholeTail(net: Instance, customers: seq<int>, choice: seq<seq<int>>)
    requires |choice| == |customers| + 1
    ensures Tail(net, customers, choice, 0) == Nodes(net, Expand(customers, choice))
  {
  }

  /** Where a gap's path lies on the route. */
  lemma {:induction false} GapPasses(net: Instance, customers: seq<int>, choice: seq<seq<int>>, gap: nat) returns (a: nat)
    requires 0.0 < net.speed && gap < |choice| == |customers| + 1
    ensures Passes(Nodes(net, Expand(customers, choice)), a, Anchor(net, customers, gap), choice[gap], Anchor(net, customers, gap + 1))
  {
    hide Head, Tail, Edge, Nodes, Expand;
    Spliced(net, customers, choice, gap, choice[gap]);
    assert choice[gap := choice[gap]] == choice;
    var head, edge, rest := Head(net, customers, choice, gap), Edge(net, customers, gap, choice[gap]), Tail(net, customers, choice, gap + 1)[1..];
    a := |head| - 1;
    var nodes := head + edge[1..] + rest;
    assert nodes[a..a + |edge|] == edge;
    EdgeIs(net, customers, gap, choice[gap]);
  }

  lemma EdgeIs(net: Instance, customers: seq<int>, gap: nat, path: seq<int>)
    requires gap <= |customers|
    ensures Edge(net, customers, gap, path) == [Anchor(net, customers, gap)] + path + [Anchor(net, customers, gap + 1)]
  {
  }

  /** Every path of a physical route passes the coupling filter. */
  lemma {:induction false} PhysicalIsCoupled(net: Instance, customers: seq<int>, choice: seq<seq<int>>, ps: seq<Soc>, gap: nat)
    requires Listed(net) && 0.0 < net.speed && gap < |choice| == |customers| + 1
    requires forall i | 0 <= i < |customers| :: !IsStation(net, customers[i])
    requires Bounded(net.capacity, ps) && Chained(ps, NodeStops(net, Nodes(net, Expand(customers, choice))))
    ensures CoupledIn(net, customers, gap)(choice[gap])
  {
    hide Bounded, Chained, NodeStops, Expand, Passes, Coupled, Metric, Strict, LeastInto, LeastOut;
    var nodes := Nodes(net, Expand(customers, choice));
    var a := GapPasses(net, customers, choice, gap);
    PathIsCoupled(net, nodes, ps, a, Anchor(net, customers, gap), choice[gap], Anchor(net, customers, gap + 1));
  }

  lemma {:induction false} ServiceOfPrefix(net: Instance, customers: seq<int>, n: nat)
    requires 0.0 < net.speed && n <= |customers| && forall i | 0 <= i < |customers| :: net.kind(customers[i]).Customer?
    ensures PathService(net, [net.depot] + customers[..n]) == ServiceSum(net, customers[..n])
  {
    hide PathService, PathTravel, PathEnergy;
    if n == 0 {
      ServiceOfOne(net, net.depot);
      assert [net.depot] + customers[..0] == [net.depot];
    } else {
      ServiceOfPrefix(net, customers, n - 1);
      var nodes := [net.depot] + customers[..n];
      WalkSplit(net, nodes, n - 1);
      assert nodes[..n] == [net.depot] + customers[..n - 1] && nodes[n - 1..] == [nodes[n - 1], customers[n - 1]];
      ServiceOfPair(net, nodes[n - 1], customers[n - 1]);
      assert customers[..n][..n - 1] == customers[..n - 1];
    }
  }

  lemma {:induction false} ServiceOfOne(net: Instance, a: int)
    ensures PathService(net, [a]) == 0.0
  {
  }

  lemma {:induction false} ServiceOfPair(net: Instance, a: int, b: int)
    ensures PathService(net, [a, b]) == Service(net, b)
  {
    assert [a, b][1..] == [b];
  }

  /** The service of a route is that of its customers. */
  lemma {:induction false} ServiceOfRoute(net: Instance, customers: seq<int>, visits: seq<int>)
    requires Regular(net) && 0.0 < net.speed && Direct(net, visits) == customers
    requires forall i | 0 <= i < |customers| :: net.kind(customers[i]).Customer?
    ensures PathService(net, Nodes(net, visits)) == ServiceSum(net, customers)
  {
    hide PathService, PathTravel, PathEnergy, Direct, Metric, Strict;
    DirectService(net, net.depot, visits, net.depot);
    var n := |customers|;
    var nodes := [net.depot] + customers + [net.depot];
    ServiceOfPrefix(net, customers, n);
    WalkSplit(net, nodes, n);
    assert customers[..n] == customers && nodes[..n + 1] == [net.depot] + customers && nodes[n..] == [nodes[n], net.depot];
    ServiceOfPair(net, nodes[n], net.depot);
  }

  /** Totals below those of a feasible schedule pass the limit test. */
  lemma {:induction false} FeasibleIsWithinLimit(net: Instance, visits: seq<int>, ps: seq<Soc>, travel: real, energy: real, service: real)
    requires Listed(net) && HasCurves(net) && 0.0 < net.speed && Schedule(net, Direct(net, visits), visits, ps)
    requires SummaryOf(net, Direct(net, visits), visits, ps).feasible
    requires travel <= PathTravel(net, Nodes(net, visits)) && energy <= PathEnergy(net, Nodes(net, visits))
    requires service == PathService(net, Nodes(net, visits))
    ensures WithinLimit(net, travel, energy, service)
  {
    hide Strict, Metric, Schedule, SummaryOf, ChargingTime, PathTravel, PathEnergy, PathService, MaximumChargingRate, Direct, Stretch,
      HasCurves, AllFit, Fits;
    var customers := Direct(net, visits);
    ListedCurves(net);
    ScheduleFacts(net, customers, visits, ps);
    StretchTotals(net, Nodes(net, visits));
    FeasibleWithin(net, customers, visits, ps);
    ChargingTimeNonNegative(net.capacity, ps);
    var rate := MaximumChargingRate(net);
    if rate.Finite? {
      if rate.value > 0.0 { RechargeTakes(net, visits, ps, rate.value, energy); } else { NoRateNoRecharge(net, visits, ps); }
    }
  }

  /** Whatever one listed path per gap adds up to a route with a feasible schedule, all of them survive both filters. */
  lemma {:induction false} FeasibleChoiceSurvives(net: Instance, customers: seq<int>, lists: seq<seq<Choice>>, kept: seq<seq<Choice>>,
                                                  choice: seq<seq<int>>, ps: seq<Soc>)
    requires Listed(net) && HasCurves(net) && 0.0 < net.speed && |kept| == |lists| == |customers| + 1
    requires (forall i | 0 <= i < |customers| :: net.kind(customers[i]).Customer?) && Chosen(lists, choice)
    requires Schedule(net, customers, Expand(customers, choice), ps)
    requires SummaryOf(net, customers, Expand(customers, choice), ps).feasible
    requires Filtered(net, customers, lists, kept)
    ensures Chosen(kept, choice)
  {
    hide Schedule, SummaryOf, Expand, Strict, Metric, Spared, AllNonempty, CoupledIn, FitsIn, Direct, HasCurves;
    var visits := Expand(customers, choice);
    assert Direct(net, visits) == customers by { ScheduleOrder(net, customers, visits, ps); }
    ScheduleFacts(net, customers, visits, ps);
    var coupled :| IsCoupled(net, customers, lists, coupled)
      && if !AllNonempty(coupled) then kept == coupled
         else forall gap | 0 <= gap < |lists| :: kept[gap] == Spared(coupled[gap], FitsIn(net, customers, coupled, gap));
    forall gap | 0 <= gap < |lists| ensures Offers(coupled[gap], choice[gap]) {
      PhysicalIsCoupled(net, customers, choice, ps, gap);
      SparedOffers(lists[gap], CoupledIn(net, customers, gap), choice[gap]);
    }
    if AllNonempty(coupled) {
      forall gap | 0 <= gap < |lists| ensures Offers(kept[gap], choice[gap]) {
        ChoiceFits(net, customers, coupled, choice, ps, gap);
        SparedOffers(coupled[gap], FitsIn(net, customers, coupled, gap), choice[gap]);
      }
    }
  }

  lemma {:induction false} ScheduleOrder(net: Instance, customers: seq<int>, visits: seq<int>, ps: seq<Soc>)
    requires Regular(net) && Schedule(net, customers, visits, ps)
    ensures Direct(net, visits) == customers
  {
  }

  lemma {:induction false} SparedOffers(list: seq<Choice>, fits: seq<int> -> bool, path: seq<int>)
    requires Offers(list, path) && fits(path)
    ensures Offers(Spared(list, fits), path)
  {
    var p :| p in list && p.stations == path;
    assert p in Spared(list, fits);
  }

  lemma {:induction false} ChoiceFits(net: Instance, customers: seq<int>, lists: seq<seq<Choice>>, choice: seq<seq<int>>, ps: seq<Soc>, gap: nat)
    requires Listed(net) && HasCurves(net) && 0.0 < net.speed && gap < |lists| == |customers| + 1 && AllNonempty(lists)
    requires (forall i | 0 <= i < |customers| :: net.kind(customers[i]).Customer?) && Chosen(lists, choice)
    requires var visits := Expand(customers, choice);
      Direct(net, visits) == customers && Schedule(net, customers, visits, ps) && SummaryOf(net, customers, visits, ps).feasible
    ensures FitsIn(net, customers, lists, gap)(choice[gap])
  {
    hide Schedule, SummaryOf, Expand, Strict, Metric, Direct, HasCurves, WithinLimit, TravelIn, EnergyIn, Least, LeastTravel, LeastEnergy,
      PathTravel, PathEnergy, PathService, Offers, AllNonempty, ServiceSum, Tail;
    var visits, n := Expand(customers, choice), |lists|;
    LeastElsewhere(net, customers, lists, choice, gap, n);
    EdgesAddUp(net, customers, choice, n);
    TailIsDepot(net, customers, choice);
    ServiceOfRoute(net, customers, visits);
    FeasibleIsWithinLimit(net, visits, ps,
      LeastTravel(net, customers, lists, n) - Least(lists[gap], TravelIn(net, customers, gap)) + TravelIn(net, customers, gap)(choice[gap]),
      LeastEnergy(net, customers, lists, n) - Least(lists[gap], EnergyIn(net, customers, gap)) + EnergyIn(net, customers, gap)(choice[gap]),
      ServiceSum(net, customers));
  }

  lemma {:induction false} TailIsDepot(net: Instance, customers: seq<int>, choice: seq<seq<int>>)
    requires 0.0 < net.speed && |choice| == |customers| + 1
    ensures PathTravel(net, Tail(net, customers, choice, |choice|)) == 0.0
    ensures PathEnergy(net, Tail(net, customers, choice, |choice|)) == 0.0
  {
  }
}
