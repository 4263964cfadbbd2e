/** The depth-first enumeration that feeds the dominance set
    (src/copt_models.cpp, `enumerate_frvcp_paths`). */
module PathSearch {
  import opened Common
  import opened Sequences
  import opened PathTrees
  import opened PathDistances
  import opened PathDominance
  import opened PathEnumeration

  ghost function Accepted(g: Gap, dist: Distances): seq<int> -> bool {
    q => |dist| == g.count && Accepts(g, dist, q)
  }

  /** The order of the successors. */
  ghost function ByCompletion(g: Gap, dist: Distances): Order {
    (path, x, y) => Precedes(g, dist, Before(g, path, |path|), x, y)
  }

  lemma AcceptedOpen(g: Gap, dist: Distances, path: seq<int>, x: int)
    requires |dist| == g.count && !Open(g, dist, path + [x])
    ensures forall q | path + [x] <= q :: !Accepted(g, dist)(q)
  {
    hide Open;
    forall q | path + [x] <= q ensures !Accepts(g, dist, q) {
      OpenBelow(g, dist, path + [x], q);
    }
  }

  lemma OpenBelow(g: Gap, dist: Distances, p: seq<int>, q: seq<int>)
    requires |dist| == g.count && p <= q
    ensures Open(g, dist, q) ==> Open(g, dist, p)
  {
    hide Open;
    if Open(g, dist, q) {
      OpenPrefix(g, dist, q, |p|);
      assert q[..|p|] == p;
    }
  }

  lemma AcceptedFollows(g: Gap, dist: Distances, path: seq<int>, q: seq<int>)
    requires |dist| == g.count && Under(Accepted(g, dist), path, q)
    ensures Follows(g, dist, path, q[|path|])
  {
    hide Fits, Reach;
    assert Step(g, dist, q, |path|);
    assert Before(g, q, |path|) == Before(g, path, |path|);
    assert path != [] ==> path[|path| - 1] in q[..|path|];
  }

  lemma OpenIsLimited(g: Gap, dist: Distances, p: seq<int>)
    requires |dist| == g.count && Open(g, dist, p)
    ensures InRange(g, p) && Distinct(p) && |p| <= g.count
  {
    hide Reach, Fits;
    forall i, j | 0 <= i < j < |p| ensures p[i] != p[j] {
      assert Step(g, dist, p, j) && p[i] == p[..j][i];
    }
    forall j | 0 <= j < |p| ensures 0 <= p[j] < g.count {
      assert Step(g, dist, p, j);
    }
    StationLimit(g, p);
  }

  // ----- the search -----

  ghost predicate FromGap(g: Gap, offered: seq<PathSpec>) {
    forall o | o in offered :: o == Described(g, o.stations, o.required)
  }

  lemma FromGapFacts(g: Gap, offered: seq<PathSpec>)
    requires FromGap(g, offered)
    ensures Functional(offered) && Ordered(offered)
  {
    forall o | o in offered ensures o.fastest <= o.slowest {
      RanksOrdered(g, o.stations);
    }
  }

  class PathSearcher {
    const g: Gap
    const dist: Distances
    const used: array<bool>
    var path: seq<int>
    var kept: seq<PathSpec>
    ghost var offered: seq<PathSpec>

    ghost predicate Valid()
      reads this
    {
      && |dist| == g.count && used.Length == g.count
      && FromGap(g, offered) && kept == Filter(offered, g.tolerance)
    }

    /** The flags say exactly which stations are on the path. */
    ghost predicate Marked()
      reads this, used
    {
      used.Length == g.count && forall v | 0 <= v < g.count :: used[v] <==> v in path
    }

    constructor (g: Gap, dist: Distances)
      requires |dist| == g.count
      ensures this.g == g && this.dist == dist && fresh(used)
      ensures Valid() && Marked() && path == [] && offered == []
    {
      this.g, this.dist := g, dist;
      this.used := new bool[g.count](_ => false);
      path, kept, offered := [], [], [];
    }

    /** Offer a path to the dominance set. */
    method Offer(p: seq<int>, required: bool)
      requires Valid()
      modifies `kept, `offered
      ensures Valid() && offered == old(offered) + [Described(g, p, required)]
    {
      hide Described, Filter, DistinctStations, Irredundant, Functional, Ordered;
      FromGapFacts(g, offered);
      FilterKeeps(offered, g.tolerance);
      var spec := MakePath(g, p, required);
      kept := AddPath(kept, spec, g.tolerance);
      FilterNext(offered, spec, g.tolerance);
      DescribedStations(g, p, required);
      offered := offered + [spec];
    }

    /** Try every successor of the path, depth first; `sub` lists the paths offered, in order. */
    method Extend(prefix: real) returns (ghost sub: seq<seq<int>>)
      requires Valid() && Marked() && Open(g, dist, path) && prefix == Reach(g, path)
      modifies `path, `kept, `offered, used
      ensures Valid() && Marked() && path == old(path)
      ensures offered == old(offered) + Specs(g, sub) && Swept(ByCompletion(g, dist), Accepted(g, dist), path, sub)
      decreases g.count + 1 - |path|, 2
    {
      hide FromGap, Filter, Open, Reach, Swept, Tried, Accepted, ByCompletion, AllBefore, Described, Follows, ByBound, Distinct, Specs;
      ghost var trunk, wanted, order := path, Accepted(g, dist), ByCompletion(g, dist);
      var next := Successors(g, dist, path);
      var previous := Before(g, path, |path|);
      sub := [];
      TriedNone(order, wanted, trunk);
      assert Specs(g, sub) == [];
      for i := 0 to |next|
        invariant Valid() && Marked() && path == trunk
        invariant offered == old(offered) + Specs(g, sub) && Tried(order, wanted, trunk, next[..i], sub)
      {
        assert next[..i + 1] == next[..i] + [next[i]];
        DistinctAt(next, i);
        EarlierFirst(g, dist, trunk, next, i);
        ghost var more := Visit(next[..i], next[i], previous, prefix, sub);
        SpecsAppend(g, sub, more);
        sub := sub + more;
      }
      assert next[..|next|] == next;
      forall q | Under(wanted, trunk, q) ensures q[|trunk|] in next {
        AcceptedFollows(g, dist, trunk, q);
      }
      TriedAll(order, wanted, trunk, next, sub);
    }

    /** One successor: skip it, or offer the longer path and go deeper. */
    method Visit(ghost tried: seq<int>, x: int, previous: int, prefix: real, ghost sub: seq<seq<int>>)
        returns (ghost more: seq<seq<int>>)
      requires Valid() && Marked() && Open(g, dist, path) && prefix == Reach(g, path)
      requires previous == Before(g, path, |path|) && Follows(g, dist, path, x)
      requires x !in tried && AllBefore(ByCompletion(g, dist), path, tried, x)
      requires Tried(ByCompletion(g, dist), Accepted(g, dist), path, tried, sub)
      modifies `path, `kept, `offered, used
      ensures Valid() && Marked() && path == old(path)
      ensures offered == old(offered) + Specs(g, more) && Tried(ByCompletion(g, dist), Accepted(g, dist), path, tried + [x], sub + more)
      decreases g.count + 1 - |path|, 1
    {
      hide FromGap, Filter, Open, Reach, Swept, Tried, Accepted, ByCompletion, AllBefore, Described, Specs, Distinct, Before;
      OpenIsLimited(g, dist, path);
      NextStep(g, dist, path, x);
      ghost var trunk, wanted, order := path, Accepted(g, dist), ByCompletion(g, dist);
      more := [];
      var longer := prefix + g.travel(previous, x);
      if used[x] || longer + dist[x].value > g.cutoff + g.tolerance {
        AcceptedOpen(g, dist, path, x);
        TriedSkip(order, wanted, path, tried, x, sub);
        assert sub + more == sub && offered == old(offered) + Specs(g, more);
        return;
      }
      ghost var own, deeper := Descend(x, longer);
      TriedNext(order, wanted, path, tried, x, sub, own, deeper);
      more := own + deeper;
      assert sub + more == sub + own + deeper;
    }

    /** Offer the path longer by one station when it can end there, and everything below it. */
    method Descend(x: int, longer: real) returns (ghost own: seq<seq<int>>, ghost deeper: seq<seq<int>>)
      requires Valid() && Marked() && Open(g, dist, path + [x]) && longer == Reach(g, path + [x])
      requires 0 <= x < g.count && x !in path
      modifies `path, `kept, `offered, used
      ensures Valid() && Marked() && path == old(path)
      ensures offered == old(offered) + Specs(g, own + deeper)
      ensures own == if Accepted(g, dist)(path + [x]) then [path + [x]] else []
      ensures Swept(ByCompletion(g, dist), Accepted(g, dist), path + [x], deeper)
      decreases g.count + 1 - |path|, 0
    {
      hide FromGap, Filter, Open, Reach, Swept, Accepted, ByCompletion, Described, Specs, Distinct;
      OpenIsLimited(g, dist, path + [x]);
      NextAccepted(g, dist, path, x);
      used[x] := true;
      path := path + [x];
      own := [];
      assert Specs(g, own) == [];
      if g.energy(x, g.target) <= g.battery {
        var total := longer + g.travel(x, g.target);
        if total <= g.cutoff + g.tolerance {
          Offer(path, false);
          own := [path];
          assert Specs(g, own) == [Described(g, path, false)];
        }
      }
      deeper := Extend(longer);
      SpecsAppend(g, own, deeper);
      assert path[..|path| - 1] == old(path);
      path := path[..|path| - 1];
      used[x] := false;
    }
  }

  lemma EarlierFirst(g: Gap, dist: Distances, path: seq<int>, next: seq<int>, i: nat)
    requires ByBound(g, dist, Before(g, path, |path|), next) && i < |next|
    ensures AllBefore(ByCompletion(g, dist), path, next[..i], next[i])
  {
    hide Precedes;
    forall y | y in next[..i] ensures Precedes(g, dist, Before(g, path, |path|), y, next[i]) {
      var k :| 0 <= k < i && next[k] == y;
    }
  }

  /** What the tests on a successor decide. */
  lemma {:induction false} NextStep(g: Gap, dist: Distances, path: seq<int>, x: int)
    requires |dist| == g.count && Open(g, dist, path) && Follows(g, dist, path, x)
    ensures Reach(g, path + [x]) == Reach(g, path) + g.travel(Before(g, path, |path|), x)
    ensures Open(g, dist, path + [x]) <==> x !in path && Reach(g, path + [x]) + dist[x].value <= g.cutoff + g.tolerance
  {
    hide Reach, Open;
    var q := path + [x];
    assert q[..|path|] == path && q[..|path| + 1] == q;
    ReachNext(g, path, x);
    OpenNext(g, dist, path, x);
  }

  lemma {:induction false} ReachNext(g: Gap, path: seq<int>, x: int)
    ensures Reach(g, path + [x]) == Reach(g, path) + g.travel(Before(g, path, |path|), x)
    ensures Before(g, path + [x], |path|) == Before(g, path, |path|)
  {
    assert (path + [x])[..|path|] == path;
  }

  lemma {:induction false} NextAccepted(g: Gap, dist: Distances, path: seq<int>, x: int)
    requires |dist| == g.count && Open(g, dist, path + [x])
    ensures Accepted(g, dist)(path + [x]) <==>
      Fits(g, x, g.target) && Reach(g, path + [x]) + g.travel(x, g.target) <= g.cutoff + g.tolerance
  {
  }

  // ----- one gap -----

  /** The direct path when it fits, and the incumbent's path as a required one. */
  function Initial(g: Gap, incumbent: Option<seq<int>>): seq<PathSpec> {
    (if Fits(g, g.origin, g.target) && g.travel(g.origin, g.target) <= g.cutoff
     then [Described(g, [], incumbent == Some([]))] else [])
    + (if incumbent.Some? && incumbent.value != [] then [Described(g, incumbent.value, true)] else [])
  }

  /** Enumerate the paths of a gap; nothing when the incumbent has a leg beyond the battery. */
  method EnumerateGap(g: Gap, incumbent: Option<seq<int>>) returns (kept: Option<seq<PathSpec>>, ghost sub: seq<seq<int>>)
    requires Sensible(g)
    ensures kept.None? <==> incumbent.Some? && incumbent.value != [] && !AllFit(g, g.origin, incumbent.value)
    ensures kept.Some? ==> kept.value == Filter(Initial(g, incumbent) + Specs(g, sub), g.tolerance) && Enumerated(g, sub)
    ensures kept.Some? ==> Searched(g, sub)
  {
    hide Described, Filter, Swept, AllFit, Accepted, Admissible, Attained, ByCompletion, InOrder, Specs;
    if incumbent.Some? && incumbent.value != [] {
      var fits := LegsFit(g, incumbent.value);
      if !fits { return None, []; }
    }
    var dist := ReverseDistances(g);
    AdmissibleSize(g, dist);
    var search := new PathSearcher(g, dist);
    if Fits(g, g.origin, g.target) && g.travel(g.origin, g.target) <= g.cutoff {
      search.Offer([], incumbent == Some([]));
    }
    if incumbent.Some? && incumbent.value != [] { search.Offer(incumbent.value, true); }
    ghost var initial := search.offered;
    assert initial == Initial(g, incumbent);
    sub := search.Extend(0.0);
    SweptIsEnumerated(g, dist, sub);
    assert Finds(g, dist, sub);
    kept := Some(search.kept);
  }

  method LegsFit(g: Gap, p: seq<int>) returns (fits: bool)
    ensures fits <==> AllFit(g, g.origin, p)
  {
    hide AllFit;
    fits := true;
    for i := 0 to |p|
      invariant fits <==> forall j: nat | j < i :: Fits(g, Before(g, p, j), p[j])
    {
      if !Fits(g, Before(g, p, i), p[i]) { fits := false; }
    }
    FitThenFit(g, p, |p|);
    LastFits(g, Before(g, p, |p|), p[|p|..]);
    if !Fits(g, Before(g, p, |p|), g.target) { fits := false; }
  }

  lemma {:induction false} LastFits(g: Gap, start: int, p: seq<int>)
    requires p == []
    ensures AllFit(g, start, p) <==> Fits(g, start, g.target)
  {
  }

  lemma AdmissibleSize(g: Gap, dist: Distances)
    requires Admissible(g, dist)
    ensures |dist| == g.count
  {
  }

  /** Every path is offered at most once; only legal ones are, and all that stay within the cutoff by one
      tolerance per leg after the first. */
  ghost predicate Enumerated(g: Gap, sub: seq<seq<int>>) {
    && Distinct(sub)
    && (forall p | p in sub :: Legal(g, p, g.tolerance))
    && (forall p | p != [] && Legal(g, p, g.tolerance - Slack(g, |p| - 1)) :: p in sub)
  }

  /** Depth first, the nearer completion first, by distances that bound completion from below and are attained. */
  ghost predicate Finds(g: Gap, dist: Distances, sub: seq<seq<int>>) {
    Admissible(g, dist) && Attained(g, dist) && InOrder(ByCompletion(g, dist), sub)
  }

  ghost predicate Searched(g: Gap, sub: seq<seq<int>>) {
    exists dist :: Finds(g, dist, sub)
  }

  lemma SweptIsEnumerated(g: Gap, dist: Distances, sub: seq<seq<int>>)
    requires Sensible(g) && Admissible(g, dist) && |dist| == g.count && Swept(ByCompletion(g, dist), Accepted(g, dist), [], sub)
    ensures Enumerated(g, sub) && InOrder(ByCompletion(g, dist), sub)
  {
    hide Admissible, Accepts, Legal, Distinct, InOrder, ByCompletion;
    forall p | p in sub ensures Legal(g, p, g.tolerance) {
      assert Under(Accepted(g, dist), [], p);
      AcceptedIsLegal(g, dist, p);
    }
    forall p | p != [] && Legal(g, p, g.tolerance - Slack(g, |p| - 1)) ensures p in sub {
      LegalIsAccepted(g, dist, p);
      assert Under(Accepted(g, dist), [], p);
    }
  }

  /** Without a tolerance the paths offered by the search are exactly the legal ones, each once. */
  lemma EnumeratedExactly(g: Gap, sub: seq<seq<int>>, p: seq<int>)
    requires g.tolerance == 0.0 && Enumerated(g, sub)
    ensures p in sub <==> Legal(g, p, 0.0)
  {
    hide Distinct, Legal, Slack;
    if Legal(g, p, 0.0) {
      LegalIsNonempty(g, p);
      NoSlack(g, |p| - 1);
    }
  }

  /** What survives dominance: the incumbent's path, only offered paths, and, unless offers drift, a path with the
      same stations or a dominating one for everything the search found. */
  lemma SurvivorsRepresent(g: Gap, incumbent: Option<seq<int>>, sub: seq<seq<int>>, p: seq<int>)
    ensures var offered := Initial(g, incumbent) + Specs(g, sub);
      var kept := Filter(offered, g.tolerance);
      && (NoDrift(offered, g.tolerance) && p in sub ==> Covered(kept, Described(g, p, false), g.tolerance))
      && (incumbent == Some(p) && p != [] ==> Requires(kept, p))
      && DistinctStations(kept) && Irredundant(kept, g.tolerance)
  {
    hide Described, DistinctStations, Filter, Covered, Requires, Irredundant, Functional, Ordered, NoDrift;
    var offered := Initial(g, incumbent) + Specs(g, sub);
    OfferedFromGap(g, incumbent, sub);
    FromGapFacts(g, offered);
    FilterKeeps(offered, g.tolerance);
    if NoDrift(offered, g.tolerance) && p in sub {
      FilterCovers(offered, g.tolerance);
      var i :| 0 <= i < |sub| && sub[i] == p;
      assert Specs(g, sub)[i] in offered;
    }
    if incumbent == Some(p) && p != [] {
      DescribedStations(g, p, true);
      assert Described(g, p, true) in offered;
      RequiredStays(offered, g.tolerance, Described(g, p, true));
    }
  }

  /** Without a tolerance that is every legal path, and with one it is as long as no two first legs, last legs or
      travels of the offers differ by more than zero and at most the tolerance. */
  lemma {:induction false} SpacedRepresent(g: Gap, incumbent: Option<seq<int>>, sub: seq<seq<int>>, p: seq<int>)
    requires Sensible(g) && Enumerated(g, sub)
    requires g.tolerance == 0.0 || Spaced(Initial(g, incumbent) + Specs(g, sub), g.tolerance)
    requires p != [] && Legal(g, p, g.tolerance - Slack(g, |p| - 1))
    ensures Covered(Filter(Initial(g, incumbent) + Specs(g, sub), g.tolerance), Described(g, p, false), g.tolerance)
  {
    hide Described, DistinctStations, Legal, Filter, Covered, Requires, Irredundant, Functional, Ordered, Spaced, NoDrift, Distinct;
    var offered := Initial(g, incumbent) + Specs(g, sub);
    OfferedFromGap(g, incumbent, sub);
    FromGapFacts(g, offered);
    SpacedNoDrift(offered, g.tolerance);
    SurvivorsRepresent(g, incumbent, sub, p);
  }

  lemma OfferedFromGap(g: Gap, incumbent: Option<seq<int>>, sub: seq<seq<int>>)
    ensures FromGap(g, Initial(g, incumbent) + Specs(g, sub))
  {
    hide Described;
    forall o | o in Initial(g, incumbent) + Specs(g, sub) ensures o == Described(g, o.stations, o.required) {
      if o in Specs(g, sub) {
        var i :| 0 <= i < |sub| && Specs(g, sub)[i] == o;
        DescribedStations(g, sub[i], false);
      } else {
        DescribedStations(g, [], incumbent == Some([]));
        if incumbent.Some? { DescribedStations(g, incumbent.value, true); }
      }
    }
  }
}
