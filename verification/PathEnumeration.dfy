/** The pruned enumeration of station paths for one gap
    (src/copt_models.cpp, `enumerate_frvcp_paths`). Stations are numbered by their position. */
module PathEnumeration {
  import opened Common
  import opened Sequences
  import opened PathTrees
  import opened PathDistances
  import opened PathDominance

  // ----- paths -----

  /** The node before position `j`. */
  function Before(g: Gap, p: seq<int>, j: nat): int
    requires j <= |p|
  {
    if j == 0 then g.origin else p[j - 1]
  }

  /** Travel from the origin to the last station. */
  function Reach(g: Gap, p: seq<int>): real {
    if p == [] then 0.0
    else Reach(g, p[..|p| - 1]) + g.travel(Before(g, p, |p| - 1), p[|p| - 1])
  }

  /** Non-empty, without repetition, every leg within the battery, total travel within the cutoff plus `extra`. */
  ghost predicate Legal(g: Gap, p: seq<int>, extra: real) {
    && p != [] && InRange(g, p) && Distinct(p)
    && AllFit(g, g.origin, p) && Length(g, g.origin, p) <= g.cutoff + extra
  }

  lemma {:induction false} ReachThenLength(g: Gap, p: seq<int>, j: nat)
    requires j <= |p|
    ensures Length(g, g.origin, p) == Reach(g, p[..j]) + Length(g, Before(g, p, j), p[j..])
  {
    if j == 0 {
      assert p[0..] == p;
    } else {
      ReachThenLength(g, p, j - 1);
      assert p[..j][..j - 1] == p[..j - 1];
      assert p[j - 1..][1..] == p[j..] && p[j - 1..][0] == p[j - 1];
    }
  }

  lemma {:induction false} FitThenFit(g: Gap, p: seq<int>, j: nat)
    requires j <= |p|
    ensures AllFit(g, g.origin, p) <==>
      (forall i: nat | i < j :: Fits(g, Before(g, p, i), p[i])) && AllFit(g, Before(g, p, j), p[j..])
  {
    if j == 0 {
      assert p[0..] == p;
    } else {
      FitThenFit(g, p, j - 1);
      assert p[j - 1..][1..] == p[j..] && p[j - 1..][0] == p[j - 1];
    }
  }

  // ----- what the search accepts -----

  /** The search goes on at position `j`. */
  ghost predicate Step(g: Gap, dist: Distances, p: seq<int>, j: nat)
    requires |dist| == g.count && j < |p|
  {
    && 0 <= p[j] < g.count && p[j] !in p[..j] && dist[p[j]].Some?
    && Fits(g, Before(g, p, j), p[j])
    && Reach(g, p[..j + 1]) + dist[p[j]].value <= g.cutoff + g.tolerance
  }

  ghost predicate Open(g: Gap, dist: Distances, p: seq<int>)
    requires |dist| == g.count
  {
    forall j: nat | j < |p| :: Step(g, dist, p, j)
  }

  /** Reached by the search and offered. */
  ghost predicate Accepts(g: Gap, dist: Distances, p: seq<int>)
    requires |dist| == g.count
  {
    && p != [] && Open(g, dist, p)
    && Fits(g, p[|p| - 1], g.target)
    && Reach(g, p) + g.travel(p[|p| - 1], g.target) <= g.cutoff + g.tolerance
  }

  lemma OpenPrefix(g: Gap, dist: Distances, p: seq<int>, k: nat)
    requires |dist| == g.count && k <= |p| && Open(g, dist, p)
    ensures Open(g, dist, p[..k])
  {
    forall j: nat | j < k ensures Step(g, dist, p[..k], j) {
      assert Step(g, dist, p, j);
      assert p[..k][..j] == p[..j] && p[..k][..j + 1] == p[..j + 1];
    }
  }

  lemma OpenNext(g: Gap, dist: Distances, p: seq<int>, x: int)
    requires |dist| == g.count
    ensures Open(g, dist, p + [x]) <==> Open(g, dist, p) && Step(g, dist, p + [x], |p|)
  {
    var q := p + [x];
    if Open(g, dist, q) {
      OpenPrefix(g, dist, q, |p|);
      assert q[..|p|] == p;
    }
    if Open(g, dist, p) && Step(g, dist, q, |p|) {
      forall j: nat | j < |q| ensures Step(g, dist, q, j) {
        if j < |p| {
          assert Step(g, dist, p, j);
          assert q[..j] == p[..j] && q[..j + 1] == p[..j + 1];
        }
      }
    }
  }

  // ----- the pruning is exact -----

  lemma {:induction false} SlackGrows(g: Gap, a: nat, b: nat)
    requires 0.0 <= g.tolerance && a <= b
    ensures Slack(g, a) <= Slack(g, b)
    decreases b - a
  {
    if a < b { SlackGrows(g, a + 1, b); }
  }

  lemma {:induction false} NoSlack(g: Gap, n: nat)
    requires g.tolerance == 0.0
    ensures Slack(g, n) == 0.0
  {
    if n > 0 { NoSlack(g, n - 1); }
  }

  lemma AcceptedIsLegal(g: Gap, dist: Distances, p: seq<int>)
    requires |dist| == g.count && Accepts(g, dist, p)
    ensures Legal(g, p, g.tolerance)
  {
    hide AllFit;
    var n := |p| - 1;
    forall i, j | 0 <= i < j < |p| ensures p[i] != p[j] {
      assert Step(g, dist, p, j);
      assert p[i] == p[..j][i];
    }
    forall j: nat | j < |p| ensures 0 <= p[j] < g.count && Fits(g, Before(g, p, j), p[j]) {
      assert Step(g, dist, p, j);
    }
    FitThenFit(g, p, |p|);
    LastLeg(g, p);
    ReachThenLength(g, p, |p|);
    assert p[..|p|] == p;
  }

  lemma {:induction false} LastLeg(g: Gap, p: seq<int>)
    requires p != []
    ensures var last := p[|p| - 1];
      && Before(g, p, |p|) == last
      && (AllFit(g, last, p[|p|..]) <==> Fits(g, last, g.target))
      && Length(g, last, p[|p|..]) == g.travel(last, g.target)
  {
  }

  /** A path that stays within the cutoff by one tolerance per leg after the first is never pruned. */
  lemma {:induction false} LegalIsAccepted(g: Gap, dist: Distances, p: seq<int>)
    requires Sensible(g) && Admissible(g, dist)
    requires |dist| == g.count && p != [] && Legal(g, p, g.tolerance - Slack(g, |p| - 1))
    ensures Accepts(g, dist, p)
  {
    hide AllFit, Length, Reach, Admissible, Slack, InRange, Distinct, Step, Fits;
    forall j: nat | j < |p| ensures Step(g, dist, p, j) {
      LegalStep(g, dist, p, j);
    }
    FitThenFit(g, p, |p|);
    ReachThenLength(g, p, |p|);
    LastLeg(g, p);
    SlackGrows(g, 0, |p| - 1);
    NoLegs(g);
    assert p[..|p|] == p;
  }

  lemma {:induction false} NoLegs(g: Gap)
    ensures Slack(g, 0) == 0.0
  {
  }

  lemma {:induction false} LegalStep(g: Gap, dist: Distances, p: seq<int>, j: nat)
    requires Sensible(g) && Admissible(g, dist)
    requires |dist| == g.count && p != [] && Legal(g, p, g.tolerance - Slack(g, |p| - 1)) && j < |p|
    ensures Step(g, dist, p, j)
  {
    hide AllFit, Length, Reach, Admissible, Slack;
    var v, rest := p[j], p[j + 1..];
    FitThenFit(g, p, j + 1);
    ReachThenLength(g, p, j + 1);
    assert InRange(g, rest);
    AdmissibleAt(g, dist, v, rest);
    SlackGrows(g, |rest|, |p| - 1);
    forall i | 0 <= i < j ensures p[..j][i] != p[j] {
      assert p[..j][i] == p[i];
    }
  }

  lemma {:induction false} AdmissibleAt(g: Gap, dist: Distances, v: int, rest: seq<int>)
    requires Admissible(g, dist) && 0 <= v < g.count && InRange(g, rest) && AllFit(g, v, rest)
    ensures AtMost(dist[v], Length(g, v, rest) + Slack(g, |rest|))
  {
  }

  /** Without a tolerance the search offers exactly the legal paths. */
  lemma AcceptsExactly(g: Gap, dist: Distances, p: seq<int>)
    requires Sensible(g) && Admissible(g, dist) && g.tolerance == 0.0
    ensures Accepts(g, dist, p) <==> Legal(g, p, 0.0)
  {
    hide Accepts, Legal;
    if Accepts(g, dist, p) { AcceptedIsLegal(g, dist, p); }
    if Legal(g, p, 0.0) {
      LegalIsNonempty(g, p);
      NoSlack(g, |p| - 1);
      LegalIsAccepted(g, dist, p);
    }
  }

  lemma LegalIsNonempty(g: Gap, p: seq<int>)
    requires Legal(g, p, 0.0)
    ensures p != []
  {
  }

  // ----- path descriptions -----

  function Fastest(g: Gap, p: seq<int>): nat {
    if p == [] then 0
    else if |p| == 1 then g.rank(p[0])
    else
      var rest := Fastest(g, p[..|p| - 1]);
      if g.rank(p[|p| - 1]) < rest then g.rank(p[|p| - 1]) else rest
  }

  function Slowest(g: Gap, p: seq<int>): nat {
    if p == [] then 0
    else if |p| == 1 then g.rank(p[0])
    else
      var rest := Slowest(g, p[..|p| - 1]);
      if g.rank(p[|p| - 1]) > rest then g.rank(p[|p| - 1]) else rest
  }

  /** The description of a path: its total travel, its outer legs and its range of curve ranks. */
  function Described(g: Gap, p: seq<int>, required: bool): PathSpec {
    PathSpec(p, required, Fastest(g, p), Slowest(g, p),
             if p == [] then g.travel(g.origin, g.target) else g.travel(g.origin, p[0]),
             g.travel(Before(g, p, |p|), g.target),
             Length(g, g.origin, p))
  }

  lemma DescribedStations(g: Gap, p: seq<int>, required: bool)
    ensures Described(g, p, required).stations == p && Described(g, p, required).required == required
  {
  }

  /** The descriptions of paths that are not required. */
  ghost function Specs(g: Gap, sub: seq<seq<int>>): (r: seq<PathSpec>)
    ensures |r| == |sub| && forall i | 0 <= i < |sub| :: r[i] == Described(g, sub[i], false)
  {
    seq(|sub|, i requires 0 <= i < |sub| => Described(g, sub[i], false))
  }

  lemma SpecsAppend(g: Gap, a: seq<seq<int>>, b: seq<seq<int>>)
    ensures Specs(g, a + b) == Specs(g, a) + Specs(g, b)
  {
    hide Described;
  }

  lemma StationLimit(g: Gap, p: seq<int>)
    requires InRange(g, p) && Distinct(p)
    ensures |p| <= g.count
  {
    var all := Positions(g.count);
    DistinctSet(p);
    var seen := set v | v in p;
    assert seen <= all;
    assert all == seen + (all - seen);
  }

  lemma {:induction false} RanksOrdered(g: Gap, p: seq<int>)
    ensures Fastest(g, p) <= Slowest(g, p)
  {
    if |p| > 1 { RanksOrdered(g, p[..|p| - 1]); }
  }

  method MakePath(g: Gap, p: seq<int>, required: bool) returns (spec: PathSpec)
    ensures spec == Described(g, p, required)
  {
    var previous, travel, first := g.origin, 0.0, 0.0;
    var fastest: nat, slowest: nat := 0, 0;
    for i := 0 to |p|
      invariant previous == Before(g, p, i) && travel == Reach(g, p[..i])
      invariant fastest == Fastest(g, p[..i]) && slowest == Slowest(g, p[..i])
      invariant i > 0 ==> first == g.travel(g.origin, p[0])
    {
      assert p[..i + 1][..i] == p[..i];
      travel := travel + g.travel(previous, p[i]);
      if i == 0 {
        fastest, slowest, first := g.rank(p[i]), g.rank(p[i]), g.travel(previous, p[i]);
      } else {
        if g.rank(p[i]) < fastest { fastest := g.rank(p[i]); }
        if g.rank(p[i]) > slowest { slowest := g.rank(p[i]); }
      }
      previous := p[i];
    }
    ReachThenLength(g, p, |p|);
    assert p[..|p|] == p && p[|p|..] == [];
    var last := g.travel(previous, g.target);
    travel := travel + last;
    if p == [] { first := last; }
    return PathSpec(p, required, fastest, slowest, first, last, travel);
  }

  // ----- successors -----

  function CompletionBound(g: Gap, dist: Distances, previous: int, x: int): real
    requires |dist| == g.count && 0 <= x < g.count && dist[x].Some?
  {
    g.travel(previous, x) + dist[x].value
  }

  predicate Reachable(g: Gap, dist: Distances, s: seq<int>)
    requires |dist| == g.count
  {
    forall i | 0 <= i < |s| :: 0 <= s[i] < g.count && dist[s[i]].Some?
  }

  predicate SoonerBound(g: Gap, dist: Distances, previous: int, x: int, y: int)
    requires |dist| == g.count && Reachable(g, dist, [x, y])
  {
    assert [x, y][0] == x && [x, y][1] == y;
    var l, r := CompletionBound(g, dist, previous, x), CompletionBound(g, dist, previous, y);
    l < r || (l == r && x < y)
  }

  /** Insert into a list ordered by completion bound, then by station. */
  function Insert(g: Gap, dist: Distances, previous: int, s: seq<int>, x: int): (r: seq<int>)
    requires |dist| == g.count && Reachable(g, dist, s) && Reachable(g, dist, [x])
    ensures |r| == |s| + 1 && Reachable(g, dist, r)
    ensures forall y :: y in r <==> y in s || y == x
  {
    if s == [] then [x]
    else
      assert [x][0] == x && s == [s[0]] + s[1..];
      if SoonerBound(g, dist, previous, x, s[0]) then [x] + s
      else [s[0]] + Insert(g, dist, previous, s[1..], x)
  }

  ghost predicate Precedes(g: Gap, dist: Distances, previous: int, x: int, y: int) {
    |dist| == g.count && Reachable(g, dist, [x, y]) && SoonerBound(g, dist, previous, x, y)
  }

  ghost predicate ByBound(g: Gap, dist: Distances, previous: int, s: seq<int>) {
    forall i, j | 0 <= i < j < |s| :: Precedes(g, dist, previous, s[i], s[j])
  }

  lemma {:induction false} InsertKeepsOrder(g: Gap, dist: Distances, previous: int, s: seq<int>, x: int)
    requires |dist| == g.count && Reachable(g, dist, s) && Reachable(g, dist, [x])
    requires ByBound(g, dist, previous, s) && x !in s
    ensures ByBound(g, dist, previous, Insert(g, dist, previous, s, x))
  {
    hide CompletionBound;
    assert [x][0] == x;
    if s != [] {
      var r, first := Insert(g, dist, previous, s, x), s[0];
      assert s == [first] + s[1..];
      if SoonerBound(g, dist, previous, x, first) {
        forall j | 0 <= j < |s| ensures Precedes(g, dist, previous, x, s[j]) {
          assert s[j] == first || Precedes(g, dist, previous, first, s[j]);
        }
      } else {
        InsertKeepsOrder(g, dist, previous, s[1..], x);
        var rest := Insert(g, dist, previous, s[1..], x);
        forall j | 0 <= j < |rest| ensures Precedes(g, dist, previous, first, rest[j]) {
          assert rest[j] in rest;
          if rest[j] != x {
            var k :| 0 <= k < |s[1..]| && s[1..][k] == rest[j];
            assert Precedes(g, dist, previous, s[0], s[k + 1]);
          }
        }
      }
    }
  }

  lemma {:induction false} InsertOnce(g: Gap, dist: Distances, previous: int, s: seq<int>, x: int)
    requires |dist| == g.count && Reachable(g, dist, s) && Reachable(g, dist, [x]) && Distinct(s) && x !in s
    ensures Distinct(Insert(g, dist, previous, s, x))
  {
    hide SoonerBound;
    assert [x][0] == x;
    if s != [] && !SoonerBound(g, dist, previous, x, s[0]) {
      InsertOnce(g, dist, previous, s[1..], x);
      var rest := Insert(g, dist, previous, s[1..], x);
      forall j | 0 <= j < |rest| ensures rest[j] != s[0] {
        assert rest[j] in rest;
        assert rest[j] in s[1..] || rest[j] == x;
      }
    }
  }

  ghost predicate Follows(g: Gap, dist: Distances, path: seq<int>, x: int)
    requires |dist| == g.count
  {
    && 0 <= x < g.count && dist[x].Some? && (path != [] ==> x != path[|path| - 1])
    && Fits(g, Before(g, path, |path|), x)
  }

  /** The stations that may follow a path, nearest completion first. */
  method Successors(g: Gap, dist: Distances, path: seq<int>) returns (s: seq<int>)
    requires |dist| == g.count
    ensures Distinct(s) && forall x :: x in s <==> Follows(g, dist, path, x)
    ensures Reachable(g, dist, s) && ByBound(g, dist, Before(g, path, |path|), s)
  {
    hide Insert, Distinct, ByBound;
    s := [];
    var previous := Before(g, path, |path|);
    EmptyOrder(g, dist, previous);
    for x := 0 to g.count
      invariant Distinct(s) && Reachable(g, dist, s) && ByBound(g, dist, previous, s)
      invariant forall y :: y in s <==> y < x && Follows(g, dist, path, y)
    {
      if (path == [] || x != path[|path| - 1]) && dist[x].Some? && Fits(g, previous, x) {
        InsertKeepsOrder(g, dist, previous, s, x);
        InsertOnce(g, dist, previous, s, x);
        s := Insert(g, dist, previous, s, x);
      }
    }
  }

  lemma EmptyOrder(g: Gap, dist: Distances, previous: int)
    requires |dist| == g.count
    ensures Distinct<int>([]) && Reachable(g, dist, []) && ByBound(g, dist, previous, [])
  {
  }
}
