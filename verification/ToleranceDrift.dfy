/** What a positive dominance tolerance does to the paths through three stations in the plane
    (src/copt_models.cpp, `add_path`; src/search.cpp, `path_catalog`). Seven units of length make the tolerance. */
module ToleranceDrift {
  import opened Common
  import opened Sequences
  import opened PathTrees
  import opened PathDistances
  import opened PathDominance
  import opened PathEnumeration
  import opened PathSearch
  import opened CatalogOrder
  import opened Catalog
  import opened CatalogBuilder
  import opened CompleteCatalog

  // ----- five points of the plane -----

  /** The origin at -9, the target at -5, stations 0, 1 and 2 at -16 and 5 on the axis and at 12 beside it. */
  function Where(u: real, v: int): (real, real) {
    if v == 0 then (-16.0 * u, 0.0) else if v == 1 then (5.0 * u, 0.0) else if v == 2 then (0.0, 12.0 * u)
    else if v == -1 then (-9.0 * u, 0.0) else (-5.0 * u, 0.0)
  }

  predicate IsStation(v: int) {
    0 <= v < 3
  }

  function Out(u: real, v: int): real {
    if v == 0 then 7.0 * u else if v == 1 then 14.0 * u else 15.0 * u
  }

  function Home(u: real, v: int): real {
    if v == 0 then 11.0 * u else if v == 1 then 10.0 * u else 13.0 * u
  }

  function Across(u: real, a: int, b: int): real {
    if a == b then 0.0 else if a != 2 && b != 2 then 21.0 * u else if a == 0 || b == 0 then 20.0 * u else 13.0 * u
  }

  function Between(u: real, a: int, b: int): real {
    if IsStation(a) && IsStation(b) then Across(u, a, b)
    else if IsStation(a) then if b == -1 then Out(u, a) else Home(u, a)
    else if IsStation(b) then if a == -1 then Out(u, b) else Home(u, b)
    else if (a == -1) == (b == -1) then 0.0 else 4.0 * u
  }

  /** Stations 1 and 2 may be numbered the other way round. */
  function Place(swapped: bool, v: int): int {
    if swapped && v == 1 then 2 else if swapped && v == 2 then 1 else v
  }

  function Way(u: real, swapped: bool, a: int, b: int): real {
    Between(u, Place(swapped, a), Place(swapped, b))
  }

  function DriftRank(swapped: bool, v: int): nat {
    if IsStation(v) then 2 - Place(swapped, v) else 0
  }

  function Triangle(u: real, swapped: bool, battery: real, cutoff: real, tolerance: real): Gap {
    Gap(3, -1, -2, (a, b) => Way(u, swapped, a, b), (a, b) => Way(u, swapped, a, b), v => DriftRank(swapped, v),
        battery, cutoff, tolerance)
  }

  ghost function Points(u: real, swapped: bool): int -> (real, real) {
    v => Where(u, Place(swapped, v))
  }

  function Square(x: real): real {
    x * x
  }

  /** Distances of points of the plane. */
  ghost predicate Planar(travel: (int, int) -> real, at: int -> (real, real)) {
    forall a, b :: 0.0 <= travel(a, b) && Square(travel(a, b)) == Square(at(a).0 - at(b).0) + Square(at(a).1 - at(b).1)
  }

  ghost predicate Metric(travel: (int, int) -> real) {
    && (forall a, b :: 0.0 <= travel(a, b) == travel(b, a))
    && (forall a, b, c :: travel(a, c) <= travel(a, b) + travel(b, c))
  }

  lemma BetweenIsMetric(u: real, a: int, b: int, c: int)
    requires 0.0 < u
    ensures 0.0 <= Between(u, a, b) == Between(u, b, a)
    ensures Between(u, a, c) <= Between(u, a, b) + Between(u, b, c)
  {
  }

  lemma BetweenIsPlanar(u: real, a: int, b: int)
    ensures Square(Between(u, a, b)) == Square(Where(u, a).0 - Where(u, b).0) + Square(Where(u, a).1 - Where(u, b).1)
  {
  }

  lemma TriangleIsPlanar(u: real, swapped: bool, battery: real, cutoff: real, tolerance: real)
    requires 0.0 < u
    ensures Planar(Triangle(u, swapped, battery, cutoff, tolerance).travel, Points(u, swapped))
    ensures Metric(Triangle(u, swapped, battery, cutoff, tolerance).travel)
  {
    hide Between, Square, Where;
    forall a, b ensures 0.0 <= Way(u, swapped, a, b) == Way(u, swapped, b, a) {
      BetweenIsMetric(u, Place(swapped, a), Place(swapped, b), 0);
    }
    forall a, b, c ensures Way(u, swapped, a, c) <= Way(u, swapped, a, b) + Way(u, swapped, b, c) {
      BetweenIsMetric(u, Place(swapped, a), Place(swapped, b), Place(swapped, c));
    }
    forall a, b {
      BetweenIsPlanar(u, Place(swapped, a), Place(swapped, b));
    }
  }

  // ----- the paths of such a gap -----

  lemma {:induction false} DetoursAreLonger(g: Gap, v: int, p: seq<int>)
    requires Metric(g.travel)
    ensures g.travel(v, g.target) <= Length(g, v, p)
    decreases |p|
  {
    if p != [] {
      DetoursAreLonger(g, p[0], p[1..]);
      assert g.travel(v, g.target) <= g.travel(v, p[0]) + g.travel(p[0], g.target);
    }
  }

  lemma Steps(u: real, swapped: bool, a: int, b: int)
    requires 0.0 < u
    ensures Way(u, swapped, a, b) <= 21.0 * u
    ensures IsStation(a) ==> Way(u, swapped, -1, a) + Way(u, swapped, a, -2) <= 28.0 * u
    ensures IsStation(a) && IsStation(b) && a != b ==>
      Way(u, swapped, -1, a) + Way(u, swapped, a, b) + Way(u, swapped, b, -2) >= 38.0 * u
  {
  }

  /** Through one station it is at most twenty-eight units, through more at least thirty-eight. */
  lemma {:induction false} TriangleLengths(u: real, swapped: bool, battery: real, cutoff: real, tolerance: real, p: seq<int>)
    requires 0.0 < u && p != []
    ensures var g := Triangle(u, swapped, battery, cutoff, tolerance);
      InRange(g, p) && Distinct(p) ==> if |p| == 1 then Length(g, -1, p) <= 28.0 * u else Length(g, -1, p) >= 38.0 * u
  {
    hide Way, Planar;
    var g := Triangle(u, swapped, battery, cutoff, tolerance);
    if InRange(g, p) && Distinct(p) {
      assert IsStation(p[0]);
      Steps(u, swapped, p[0], -2);
      if |p| == 1 {
        assert p[1..] == [];
      } else {
        assert p[0] != p[1] && p[1..][0] == p[1] && IsStation(p[1]);
        TriangleIsPlanar(u, swapped, battery, cutoff, tolerance);
        DetoursAreLonger(g, p[1], p[1..][1..]);
        Steps(u, swapped, p[0], p[1]);
      }
    }
  }

  /** Every leg fits a battery for twenty-one units. */
  lemma {:induction false} LegsAreShort(u: real, swapped: bool, battery: real, cutoff: real, tolerance: real, v: int, p: seq<int>)
    requires 0.0 < u && 21.0 * u <= battery
    ensures AllFit(Triangle(u, swapped, battery, cutoff, tolerance), v, p)
    decreases |p|
  {
    if p == [] {
      Steps(u, swapped, v, -2);
    } else {
      Steps(u, swapped, v, p[0]);
      LegsAreShort(u, swapped, battery, cutoff, tolerance, p[0], p[1..]);
    }
  }

  /** Paths through one station each, by increasing number. */
  ghost predicate Rising(sub: seq<seq<int>>) {
    && (forall i | 0 <= i < |sub| :: |sub[i]| == 1 && IsStation(sub[i][0]))
    && (forall i, j | 0 <= i < j < |sub| :: sub[i][0] < sub[j][0])
  }

  lemma {:induction false} OrderRises(order: Order, sub: seq<seq<int>>)
    requires forall p | p in sub :: |p| == 1 && IsStation(p[0])
    requires InOrder(order, sub) && forall x, y | IsStation(x) && IsStation(y) && order([], x, y) :: x < y
    ensures Rising(sub)
  {
    forall i | 0 <= i < |sub| ensures |sub[i]| == 1 && IsStation(sub[i][0]) {
      assert sub[i] in sub;
    }
    forall i, j | 0 <= i < j < |sub| ensures sub[i][0] < sub[j][0] {
      ComesRises(order, sub[i][0], sub[j][0]);
      assert sub[i] == [sub[i][0]] && sub[j] == [sub[j][0]];
    }
  }

  lemma {:induction false} ComesRises(order: Order, x: int, y: int)
    ensures Comes(order, [x], [y]) ==> order([], x, y)
  {
    if Comes(order, [x], [y]) {
      var n :| ComesAt(order, [x], [y], n);
      assert [x][..0] == [] && [y][..0] == [];
    }
  }

  /** The three one-station paths in increasing order are found in just that order. */
  lemma {:induction false} ThreeInOrder(order: Order, sub: seq<seq<int>>)
    requires forall p: seq<int> :: p in sub <==> |p| == 1 && IsStation(p[0])
    requires InOrder(order, sub) && forall x, y | IsStation(x) && IsStation(y) && order([], x, y) :: x < y
    ensures sub == [[0], [1], [2]]
  {
    OrderRises(order, sub);
    assert [0][0] == 0 && [1][0] == 1 && [2][0] == 2;
    var a :| 0 <= a < |sub| && sub[a] == [0];
    var b :| 0 <= b < |sub| && sub[b] == [1];
    var c :| 0 <= c < |sub| && sub[c] == [2];
    assert a < b < c;
    Climbs(sub, |sub| - 1);
  }

  lemma {:induction false} Climbs(sub: seq<seq<int>>, i: nat)
    requires i < |sub| && Rising(sub)
    ensures i <= sub[i][0]
  {
    if i > 0 { Climbs(sub, i - 1); }
  }

  /** The description of the path through one station. */
  function Via(u: real, swapped: bool, v: int): PathSpec {
    var out, home := Out(u, Place(swapped, v)), Home(u, Place(swapped, v));
    PathSpec([v], false, DriftRank(swapped, v), DriftRank(swapped, v), out, home, out + home)
  }

  lemma {:induction false} DescribedVia(u: real, swapped: bool, battery: real, cutoff: real, tolerance: real, v: int)
    requires IsStation(v)
    ensures Described(Triangle(u, swapped, battery, cutoff, tolerance), [v], false) == Via(u, swapped, v)
  {
    assert [v][1..] == [];
    assert Length(Triangle(u, swapped, battery, cutoff, tolerance), v, []) == Way(u, swapped, v, -2);
  }

  lemma {:induction false} SpecsVia(u: real, swapped: bool, battery: real, cutoff: real, tolerance: real)
    ensures Specs(Triangle(u, swapped, battery, cutoff, tolerance), [[0], [1], [2]])
      == [Via(u, swapped, 0), Via(u, swapped, 1), Via(u, swapped, 2)]
  {
    hide Described, Via, Triangle;
    DescribedVia(u, swapped, battery, cutoff, tolerance, 0);
    DescribedVia(u, swapped, battery, cutoff, tolerance, 1);
    DescribedVia(u, swapped, battery, cutoff, tolerance, 2);
  }

  /** With a tolerance of seven units the second path stands above the first and the third above the second, but the
      third not above the first. */
  lemma ViaDrifts(u: real)
    requires 0.0 < u
    ensures var a, b, c := Via(u, false, 0), Via(u, false, 1), Via(u, false, 2);
      && Dominates(b, a, 7.0 * u) && Dominates(c, b, 7.0 * u)
      && !Dominates(a, b, 7.0 * u) && !Dominates(b, c, 7.0 * u) && !Dominates(a, c, 7.0 * u) && !Dominates(c, a, 7.0 * u)
  {
  }

  // ----- in the fixed-route model -----

  function FixedGap(u: real): Gap {
    Triangle(u, false, 21.0 * u, 21.0 * u, 7.0 * u)
  }

  lemma {:induction false} FixedLegal(u: real, p: seq<int>)
    requires 0.0 < u
    ensures p != [] && Legal(FixedGap(u), p, 7.0 * u) <==> |p| == 1 && IsStation(p[0])
    ensures p != [] && Legal(FixedGap(u), p, 7.0 * u - Slack(FixedGap(u), |p| - 1)) <==> |p| == 1 && IsStation(p[0])
  {
    hide AllFit, Length;
    var g := FixedGap(u);
    if p != [] {
      TriangleLengths(u, false, 21.0 * u, 21.0 * u, 7.0 * u, p);
      LegsAreShort(u, false, 21.0 * u, 21.0 * u, 7.0 * u, -1, p);
      SlackGrows(g, 0, |p| - 1);
      NoLegs(g);
    }
  }

  /** The search orders the stations by distances that can only be the direct ones. */
  lemma {:induction false} FixedDistances(u: real, dist: Distances)
    requires 0.0 < u && Admissible(FixedGap(u), dist) && Attained(FixedGap(u), dist)
    ensures dist == [Some(11.0 * u), Some(10.0 * u), Some(13.0 * u)]
  {
    hide Length, Way, Admissible, Attained, Metric;
    TriangleIsPlanar(u, false, 21.0 * u, 21.0 * u, 7.0 * u);
    AdmissibleSize(FixedGap(u), dist);
    forall v | 0 <= v < 3 ensures dist[v] == Some(Way(u, false, v, -2)) {
      Steps(u, false, v, -2);
      DirectDistance(FixedGap(u), dist, v);
    }
    WaysHome(u);
  }

  lemma WaysHome(u: real)
    ensures Way(u, false, 0, -2) == 11.0 * u && Way(u, false, 1, -2) == 10.0 * u && Way(u, false, 2, -2) == 13.0 * u
    ensures Way(u, false, -1, 0) == 7.0 * u && Way(u, false, -1, 1) == 14.0 * u && Way(u, false, -1, 2) == 15.0 * u
  {
  }

  /** On a metric the distance from a station that reaches the target is the direct one. */
  lemma {:induction false} DirectDistance(g: Gap, dist: Distances, v: int)
    requires Metric(g.travel) && Admissible(g, dist) && Attained(g, dist)
    requires 0 <= v < g.count && Fits(g, v, g.target)
    ensures |dist| == g.count && dist[v] == Some(g.travel(v, g.target))
  {
    hide Metric, Fits;
    assert AllFit(g, v, []) && Length(g, v, []) == g.travel(v, g.target);
    AdmissibleAt(g, dist, v, []);
    NoLegs(g);
    assert Achieved(g, v, dist[v].value);
    var p :| InRange(g, p) && AllFit(g, v, p) && Length(g, v, p) == dist[v].value;
    DetoursAreLonger(g, v, p);
  }

  lemma {:induction false} DirectDistances(u: real)
    requires 0.0 < u
    ensures Admissible(FixedGap(u), [Some(11.0 * u), Some(10.0 * u), Some(13.0 * u)])
    ensures Attained(FixedGap(u), [Some(11.0 * u), Some(10.0 * u), Some(13.0 * u)])
  {
    hide Length, AllFit, Way, Slack;
    var g, dist := FixedGap(u), [Some(11.0 * u), Some(10.0 * u), Some(13.0 * u)];
    WaysHome(u);
    TriangleIsPlanar(u, false, 21.0 * u, 21.0 * u, 7.0 * u);
    NoLegs(g);
    forall v, p | 0 <= v < 3 && InRange(g, p) && AllFit(g, v, p) ensures AtMost(dist[v], Length(g, v, p) + Slack(g, |p|)) {
      DetoursAreLonger(g, v, p);
      SlackGrows(g, 0, |p|);
    }
    forall v | 0 <= v < 3 ensures Achieved(g, v, dist[v].value) {
      Steps(u, false, v, -2);
      AchievedDirect(g, v);
    }
  }

  /** With those distances the completion through the lower number is the nearer one. */
  lemma {:induction false} FixedOrder(u: real, x: int, y: int)
    requires 0.0 < u && IsStation(x) && IsStation(y)
    ensures ByCompletion(FixedGap(u), [Some(11.0 * u), Some(10.0 * u), Some(13.0 * u)])([], x, y) <==> x < y
  {
    hide Way;
    var g, dist := FixedGap(u), [Some(11.0 * u), Some(10.0 * u), Some(13.0 * u)];
    WaysHome(u);
    assert [x, y][0] == x && [x, y][1] == y;
    assert Reachable(g, dist, [x, y]);
    assert CompletionBound(g, dist, -1, x) == (if x == 0 then 18.0 * u else if x == 1 then 24.0 * u else 28.0 * u);
    assert CompletionBound(g, dist, -1, y) == (if y == 0 then 18.0 * u else if y == 1 then 24.0 * u else 28.0 * u);
    assert Precedes(g, dist, Before(g, [], 0), x, y) <==> x < y;
  }

  lemma {:induction false} OneStationComes(order: Order, x: int, y: int)
    requires order([], x, y)
    ensures Comes(order, [x], [y])
  {
    assert [x][..0] == [] && [y][..0] == [];
    assert ComesAt(order, [x], [y], 0);
  }

  /** The search finds exactly the three paths, in this order. */
  lemma {:induction false} FixedSearch(u: real, sub: seq<seq<int>>)
    requires 0.0 < u
    ensures Enumerated(FixedGap(u), sub) && Searched(FixedGap(u), sub) <==> sub == [[0], [1], [2]]
  {
    hide Legal, Admissible, Attained, ByCompletion, Comes, FixedGap, Slack;
    var g, direct := FixedGap(u), [Some(11.0 * u), Some(10.0 * u), Some(13.0 * u)];
    forall x, y | IsStation(x) && IsStation(y) ensures ByCompletion(g, direct)([], x, y) <==> x < y {
      FixedOrder(u, x, y);
    }
    forall p: seq<int> ensures p != [] && Legal(g, p, 7.0 * u) <==> |p| == 1 && IsStation(p[0]) {
      FixedLegal(u, p);
    }
    forall p: seq<int> ensures p != [] && Legal(g, p, 7.0 * u - Slack(g, |p| - 1)) <==> |p| == 1 && IsStation(p[0]) {
      FixedLegal(u, p);
    }
    assert g.tolerance == 7.0 * u by { FixedTolerance(u); }
    if Enumerated(g, sub) && Searched(g, sub) {
      var dist :| Finds(g, dist, sub);
      FixedDistances(u, dist);
      forall p: seq<int> ensures p in sub <==> |p| == 1 && IsStation(p[0]) {
        if p in sub { LegalHasStations(g, p, 7.0 * u); }
      }
      ThreeInOrder(ByCompletion(g, dist), sub);
    }
    if sub == [[0], [1], [2]] {
      DirectDistances(u);
      OneStationComes(ByCompletion(g, direct), 0, 1);
      OneStationComes(ByCompletion(g, direct), 0, 2);
      OneStationComes(ByCompletion(g, direct), 1, 2);
      assert Finds(g, direct, sub);
      forall p: seq<int> | |p| == 1 && IsStation(p[0]) ensures p in sub {
        assert p == [p[0]];
      }
    }
  }

  lemma FixedTolerance(u: real)
    ensures FixedGap(u).tolerance == 7.0 * u
  {
  }

  lemma LegalHasStations(g: Gap, p: seq<int>, extra: real)
    requires Legal(g, p, extra)
    ensures p != []
  {
  }

  /** The nodes are points of the plane and the search offers the three paths as it finds them; the first one is lost: the
      second pushes it out, the third pushes out the second and does not dominate the first. */
  lemma {:induction false} ToleranceDrifts(u: real, sub: seq<seq<int>>)
    requires 0.0 < u
    ensures var g := FixedGap(u);
      var offered := Initial(g, None) + Specs(g, sub);
      && Planar(g.travel, Points(u, false)) && (Enumerated(g, sub) && Searched(g, sub) <==> sub == [[0], [1], [2]])
      && (sub == [[0], [1], [2]] ==>
            && Filter(offered, g.tolerance) == [Described(g, [], false), Described(g, [2], false)]
            && !Covered(Filter(offered, g.tolerance), Described(g, [0], false), g.tolerance))
  {
    hide Metric, Planar, Points, Enumerated, Searched, Filter, Specs, Via, Described, Initial, Triangle;
    TriangleIsPlanar(u, false, 21.0 * u, 21.0 * u, 7.0 * u);
    FixedSearch(u, sub);
    if sub == [[0], [1], [2]] {
      FixedTolerance(u);
      SpecsVia(u, false, 21.0 * u, 21.0 * u, 7.0 * u);
      DescribedVia(u, false, 21.0 * u, 21.0 * u, 7.0 * u, 0);
      DescribedVia(u, false, 21.0 * u, 21.0 * u, 7.0 * u, 2);
      FixedInitial(u);
      DescribedStations(FixedGap(u), [], false);
      ViaStations(u);
      ViaDrifts(u);
      DriftFilter(Described(FixedGap(u), [], false), Via(u, false, 0), Via(u, false, 1), Via(u, false, 2), 7.0 * u);
    }
  }

  lemma FixedInitial(u: real)
    requires 0.0 < u
    ensures Initial(FixedGap(u), None) == [Described(FixedGap(u), [], false)]
  {
    hide Described;
  }

  lemma ViaStations(u: real)
    ensures forall v :: var p := Via(u, false, v); p.stations == [v] && !p.required
  {
  }

  lemma {:induction false} DriftFilter(d: PathSpec, a: PathSpec, b: PathSpec, c: PathSpec, t: real)
    requires d.stations == [] && a.stations == [0] && b.stations == [1] && c.stations == [2]
    requires !d.required && !a.required && !b.required && !c.required
    requires Dominates(b, a, t) && Dominates(c, b, t) && !Dominates(a, b, t) && !Dominates(b, c, t) && !Dominates(c, a, t)
    ensures Filter([d] + [a, b, c], t) == [d, c] && !Covered([d, c], a, t)
  {
    hide Dominates, Added, Filter;
    FilterNext([], d, t);
    FilterNext([d], a, t);
    FilterNext([d, a], b, t);
    FilterNext([d, a, b], c, t);
    assert [] + [d] == [d] && [d] + [a] == [d, a] && [d, a] + [b] == [d, a, b] && [d, a, b] + [c] == [d, a, b, c] == [d] + [a, b, c];
    AddFirst(d, t);
    DirectAside(d, a, t);
    DirectAside(d, b, t);
    DirectAside(d, c, t);
    AddBeside(d, a, t);
    PushOutBeside(d, a, b, t);
    PushOutBeside(d, b, c, t);
  }

  lemma DirectAside(d: PathSpec, p: PathSpec, t: real)
    requires d.stations == []
    ensures !Dominates(d, p, t) && !Dominates(p, d, t)
  {
  }

  lemma AddBeside(d: PathSpec, p: PathSpec, t: real)
    requires d.stations != p.stations && !Dominates(d, p, t) && !Dominates(p, d, t)
    ensures Added([d], p, t) == [d, p]
  {
    hide Dominates;
    assert [d][..0] == [] && Undominated([], p, t) == [] && Undominated([d], p, t) == [d];
  }

  lemma PushOutBeside(d: PathSpec, k: PathSpec, p: PathSpec, t: real)
    requires d.stations != p.stations && k.stations != p.stations && !d.required && !k.required
    requires !Dominates(d, p, t) && !Dominates(p, d, t) && !Dominates(k, p, t) && Dominates(p, k, t)
    ensures Added([d, k], p, t) == [d, p]
  {
    hide Dominates;
    assert [d, k][..1] == [d] && [d][..0] == [] && Undominated([], p, t) == [] && Undominated([d], p, t) == [d];
    assert Undominated([d, k], p, t) == [d];
  }

  // ----- in the catalogue -----

  /** The pair of the depot, where the gap begins, and a customer: thirty-four units of time, a battery that lasts. */
  function DepotPair(u: real, swapped: bool): Pair {
    Pair(Triangle(u, swapped, 100.0 * u, 34.0 * u, 0.0), 4.0 * u, 0.0, 1.0, 1.0, 1.0, 3)
  }

  lemma DepotPairRegular(u: real, swapped: bool)
    requires 0.0 < u
    ensures Catalog.Regular(DepotPair(u, swapped))
  {
    hide Way;
    TriangleIsPlanar(u, swapped, 100.0 * u, 34.0 * u, 0.0);
    forall i ensures RankBelow(DepotPair(u, swapped).gap, i, 3) {
      assert DriftRank(swapped, i) < 3;
    }
  }

  lemma DepotTimes(u: real, swapped: bool)
    requires 0.0 < u
    ensures Positive(DepotPair(u, swapped)) && InTime(DepotPair(u, swapped), 28.0 * u)
    ensures forall d :: d >= 38.0 * u ==> !InTime(DepotPair(u, swapped), d)
  {
    var pr := DepotPair(u, swapped);
    assert Missing(pr, 32.0 * u) == 0.0 && Recharging(pr, 32.0 * u) == 0.0;
    assert 28.0 * u + pr.rest == 32.0 * u;
    forall d | d >= 38.0 * u ensures !InTime(pr, d) {
      assert Driving(pr, d + pr.rest) == d + pr.rest && Recharging(pr, d + pr.rest) >= 0.0;
    }
  }

  lemma {:induction false} DepotEligible(u: real, swapped: bool, p: seq<int>)
    requires 0.0 < u && Positive(DepotPair(u, swapped))
    ensures Eligible(DepotPair(u, swapped), p) <==> |p| == 1 && IsStation(p[0])
  {
    hide AllFit, Length, TimeBound, InTime;
    if p != [] {
      DepotTimes(u, swapped);
      TriangleLengths(u, swapped, 100.0 * u, 34.0 * u, 0.0, p);
      LegsAreShort(u, swapped, 100.0 * u, 34.0 * u, 0.0, -1, p);
      DepotPairRegular(u, swapped);
      if |p| == 1 && IsStation(p[0]) {
        assert InRange(DepotPair(u, swapped).gap, p) && Distinct(p);
        LongerIsLater(DepotPair(u, swapped), Length(DepotPair(u, swapped).gap, -1, p), 28.0 * u);
      }
    }
  }

  lemma {:induction false} DepotSearch(u: real, swapped: bool, sub: seq<seq<int>>)
    requires 0.0 < u && Positive(DepotPair(u, swapped)) && Catalog.Regular(DepotPair(u, swapped))
    ensures Generates(DepotPair(u, swapped), sub) <==> sub == [[0], [1], [2]]
  {
    hide Eligible, Proposes, Comes, DepotPair, Catalog.Regular;
    var pr := DepotPair(u, swapped);
    forall p: seq<int> ensures Under(Proposed(pr), [], p) <==> |p| == 1 && IsStation(p[0]) {
      DepotEligible(u, swapped, p);
      ProposesExactly(pr, p);
    }
    if Generates(pr, sub) { ThreeInOrder(Ascending(), sub); }
    if sub == [[0], [1], [2]] {
      OneStationComes(Ascending(), 0, 1);
      OneStationComes(Ascending(), 0, 2);
      OneStationComes(Ascending(), 1, 2);
      forall p: seq<int> | |p| == 1 && IsStation(p[0]) ensures p in sub {
        assert p == [p[0]];
      }
    }
  }

  /** Two numberings of the same stations. */
  ghost predicate Renumbered(pr: Pair, qr: Pair) {
    && (forall a, b :: qr.gap.travel(a, b) == pr.gap.travel(Place(true, a), Place(true, b)))
    && (forall a, b :: qr.gap.energy(a, b) == pr.gap.energy(Place(true, a), Place(true, b)))
    && (forall a :: qr.gap.rank(a) == pr.gap.rank(Place(true, a)))
    && qr == pr.(gap := pr.gap.(travel := qr.gap.travel, energy := qr.gap.energy, rank := qr.gap.rank))
  }

  /** The same pair keeps one station path under one numbering and two under another, and under the first one a
      candidate has no representative. */
  lemma {:induction false} NumberingMatters(u: real, sub: seq<seq<int>>)
    requires 0.0 < u && sub == [[0], [1], [2]]
    ensures var pr, qr := DepotPair(u, false), DepotPair(u, true);
      && Catalog.Regular(pr) && Catalog.Regular(qr) && Planar(pr.gap.travel, Points(u, false)) && Renumbered(pr, qr)
      && (forall s :: Generates(pr, s) <==> s == sub) && (forall s :: Generates(qr, s) <==> s == sub)
      && Online(Specs(pr.gap, sub), 7.0 * u) == {Described(pr.gap, [2], false)}
      && Online(Specs(qr.gap, sub), 7.0 * u) == {Described(qr.gap, [0], false), Described(qr.gap, [1], false)}
      && Candidate(pr, Described(pr.gap, [0], false)) && !Represents(pr, [Described(pr.gap, [2], false)], 7.0 * u)
  {
    hide Catalog.Regular, Metric, Planar, Points, Generates, Specs, Via, Described, Triangle, Online, Renumbered, Eligible;
    var pr, qr := DepotPair(u, false), DepotPair(u, true);
    DepotPairRegular(u, false);
    DepotPairRegular(u, true);
    TriangleIsPlanar(u, false, 100.0 * u, 34.0 * u, 0.0);
    TriangleIsPlanar(u, true, 100.0 * u, 34.0 * u, 0.0);
    PairsRenumbered(u);
    forall s ensures Generates(pr, s) <==> s == sub { DepotSearch(u, false, s); }
    forall s ensures Generates(qr, s) <==> s == sub { DepotSearch(u, true, s); }
    DepotKeeps(u);
    DepotEligible(u, false, [0]);
    DescribedStations(pr.gap, [0], false);
    DescribedVia(u, false, 100.0 * u, 34.0 * u, 0.0, 0);
    DescribedVia(u, false, 100.0 * u, 34.0 * u, 0.0, 2);
    ViaDrifts(u);
    ViaStations(u);
    assert Candidate(pr, Described(pr.gap, [0], false));
  }

  lemma PairsRenumbered(u: real)
    ensures Renumbered(DepotPair(u, false), DepotPair(u, true))
  {
  }

  lemma {:induction false} DepotKeeps(u: real)
    requires 0.0 < u
    ensures var pr, qr, sub := DepotPair(u, false), DepotPair(u, true), [[0], [1], [2]];
      && Online(Specs(pr.gap, sub), 7.0 * u) == {Described(pr.gap, [2], false)}
      && Online(Specs(qr.gap, sub), 7.0 * u) == {Described(qr.gap, [0], false), Described(qr.gap, [1], false)}
  {
    hide Specs, Via, Described, Triangle, Online, OnlineStep, Dominates;
    SpecsVia(u, false, 100.0 * u, 34.0 * u, 0.0);
    SpecsVia(u, true, 100.0 * u, 34.0 * u, 0.0);
    DescribedVia(u, false, 100.0 * u, 34.0 * u, 0.0, 2);
    DescribedVia(u, true, 100.0 * u, 34.0 * u, 0.0, 0);
    DescribedVia(u, true, 100.0 * u, 34.0 * u, 0.0, 1);
    StepsForward(u);
    StepsSwapped(u);
    OnlineThree(Via(u, false, 0), Via(u, false, 1), Via(u, false, 2), 7.0 * u);
    OnlineThree(Via(u, true, 0), Via(u, true, 1), Via(u, true, 2), 7.0 * u);
  }

  lemma StepsForward(u: real)
    requires 0.0 < u
    ensures var a, b, c := Via(u, false, 0), Via(u, false, 1), Via(u, false, 2);
      OnlineStep(OnlineStep({a}, b, 7.0 * u), c, 7.0 * u) == {c}
  {
    hide Via, Dominates;
    var a, b, c := Via(u, false, 0), Via(u, false, 1), Via(u, false, 2);
    ViaDrifts(u);
    OnlineStepTo({a}, a, b, 7.0 * u);
    OnlineStepTo({b}, b, c, 7.0 * u);
  }

  lemma StepsSwapped(u: real)
    requires 0.0 < u
    ensures var a, c, b := Via(u, true, 0), Via(u, true, 1), Via(u, true, 2);
      OnlineStep(OnlineStep({a}, c, 7.0 * u), b, 7.0 * u) == {a, c}
  {
    hide Via, Dominates;
    var a, c, b := Via(u, true, 0), Via(u, true, 1), Via(u, true, 2);
    SwappedDrifts(u);
    assert !Beats(a, c, 7.0 * u);
    assert OnlineStep({a}, c, 7.0 * u) == {a, c};
    assert Beats(c, b, 7.0 * u);
  }

  lemma SwappedDrifts(u: real)
    requires 0.0 < u
    ensures var a, c, b := Via(u, true, 0), Via(u, true, 1), Via(u, true, 2);
      !Dominates(a, c, 7.0 * u) && !Dominates(c, a, 7.0 * u) && Dominates(c, b, 7.0 * u) && !Dominates(b, c, 7.0 * u)
  {
  }
}
