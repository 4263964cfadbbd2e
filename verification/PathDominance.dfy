/** The dominance set of the fixed-route path enumeration
    (src/copt_models.cpp, `frvcp_path_dominates` and `add_path`). */
module PathDominance {
  datatype PathSpec = PathSpec(
    stations: seq<int>,
    required: bool,
    fastest: nat,
    slowest: nat,
    firstLeg: real,
    lastLeg: real,
    travel: real)

  /** Lower ranks are faster curves: even the slowest charger of `l` is no slower than the fastest of `r`. */
  predicate Dominates(l: PathSpec, r: PathSpec, tolerance: real) {
    && l.stations != [] && r.stations != []
    && l.slowest <= r.fastest
    && l.firstLeg <= r.firstLeg + tolerance
    && l.lastLeg <= r.lastLeg + tolerance
    && l.travel <= r.travel + tolerance
  }

  // ----- adding a path -----

  predicate Holds(kept: seq<PathSpec>, stations: seq<int>) {
    exists k | 0 <= k < |kept| :: kept[k].stations == stations
  }

  predicate DominatedBy(kept: seq<PathSpec>, c: PathSpec, tolerance: real) {
    exists k | 0 <= k < |kept| :: Dominates(kept[k], c, tolerance)
  }

  function Flagged(kept: seq<PathSpec>, c: PathSpec): (r: seq<PathSpec>)
    ensures |r| == |kept|
    ensures forall k | 0 <= k < |kept| ::
      r[k] == if kept[k].stations == c.stations then kept[k].(required := kept[k].required || c.required) else kept[k]
  {
    seq(|kept|, k requires 0 <= k < |kept| =>
      if kept[k].stations == c.stations then kept[k].(required := kept[k].required || c.required) else kept[k])
  }

  /** What the candidate does not push out. */
  function Undominated(kept: seq<PathSpec>, c: PathSpec, tolerance: real): (r: seq<PathSpec>)
    ensures forall p :: p in r <==> p in kept && (p.required || !Dominates(c, p, tolerance))
  {
    if kept == [] then []
    else
      var n := |kept| - 1;
      assert kept == kept[..n] + [kept[n]];
      Undominated(kept[..n], c, tolerance)
      + if kept[n].required || !Dominates(c, kept[n], tolerance) then [kept[n]] else []
  }

  function Added(kept: seq<PathSpec>, c: PathSpec, tolerance: real): seq<PathSpec> {
    if Holds(kept, c.stations) then Flagged(kept, c)
    else if DominatedBy(kept, c, tolerance) && !c.required then kept
    else Undominated(kept, c, tolerance) + [c]
  }

  function Filter(offered: seq<PathSpec>, tolerance: real): seq<PathSpec> {
    if offered == [] then []
    else Added(Filter(offered[..|offered| - 1], tolerance), offered[|offered| - 1], tolerance)
  }

  /** `add_path`: at most one path per station sequence, so at most one flag is raised. */
  method AddPath(kept: seq<PathSpec>, c: PathSpec, tolerance: real) returns (r: seq<PathSpec>)
    requires DistinctStations(kept)
    ensures r == Added(kept, c, tolerance)
  {
    hide Dominates;
    for i := 0 to |kept|
      invariant forall k | 0 <= k < i :: kept[k].stations != c.stations
    {
      if kept[i].stations == c.stations {
        r := kept[i := kept[i].(required := kept[i].required || c.required)];
        assert r == Flagged(kept, c);
        return;
      }
    }
    var dominated := false;
    for i := 0 to |kept|
      invariant dominated <==> exists k | 0 <= k < i :: Dominates(kept[k], c, tolerance)
    {
      if Dominates(kept[i], c, tolerance) { dominated := true; }
    }
    if dominated && !c.required { return kept; }
    r := [];
    for i := 0 to |kept|
      invariant r == Undominated(kept[..i], c, tolerance)
    {
      assert kept[..i + 1][..i] == kept[..i];
      if kept[i].required || !Dominates(c, kept[i], tolerance) { r := r + [kept[i]]; }
    }
    assert kept[..|kept|] == kept;
    r := r + [c];
  }

  // ----- what the set promises -----

  ghost predicate DistinctStations(kept: seq<PathSpec>) {
    forall i, j | 0 <= i < j < |kept| :: kept[i].stations != kept[j].stations
  }

  /** Only required paths may be dominated by another kept one. */
  ghost predicate Irredundant(kept: seq<PathSpec>, tolerance: real) {
    forall i, j | 0 <= i < |kept| && 0 <= j < |kept| && i != j ::
      kept[j].required || !Dominates(kept[i], kept[j], tolerance)
  }

  /** A kept path has the same stations, or dominates. */
  ghost predicate Covered(kept: seq<PathSpec>, p: PathSpec, tolerance: real) {
    exists k | 0 <= k < |kept| :: kept[k].stations == p.stations || Dominates(kept[k], p, tolerance)
  }

  ghost predicate CoversAll(kept: seq<PathSpec>, offered: seq<PathSpec>, tolerance: real) {
    forall p | p in offered :: Covered(kept, p, tolerance)
  }

  ghost predicate Requires(kept: seq<PathSpec>, stations: seq<int>) {
    exists k | 0 <= k < |kept| :: kept[k].stations == stations && kept[k].required
  }

  /** The metrics of a path depend on its stations only. */
  ghost predicate SameMetrics(p: PathSpec, q: PathSpec) {
    p == q.(required := p.required)
  }

  ghost predicate Functional(offered: seq<PathSpec>) {
    forall p, q | p in offered && q in offered && p.stations == q.stations :: SameMetrics(p, q)
  }

  lemma {:induction false} UndominatedDistinct(kept: seq<PathSpec>, c: PathSpec, tolerance: real)
    requires DistinctStations(kept)
    ensures DistinctStations(Undominated(kept, c, tolerance))
  {
    hide Dominates;
    if kept != [] {
      var n := |kept| - 1;
      UndominatedDistinct(kept[..n], c, tolerance);
      var r := Undominated(kept[..n], c, tolerance);
      forall i | 0 <= i < |r| ensures r[i].stations != kept[n].stations {
        assert r[i] in kept[..n];
      }
    }
  }

  lemma AddedDistinct(kept: seq<PathSpec>, c: PathSpec, tolerance: real)
    requires DistinctStations(kept)
    ensures DistinctStations(Added(kept, c, tolerance))
  {
    hide Dominates;
    if !Holds(kept, c.stations) {
      UndominatedDistinct(kept, c, tolerance);
      var r := Undominated(kept, c, tolerance);
      forall i | 0 <= i < |r| ensures r[i].stations != c.stations {
        assert r[i] in kept;
      }
    }
  }

  lemma AddedIrredundant(kept: seq<PathSpec>, c: PathSpec, tolerance: real)
    requires DistinctStations(kept) && Irredundant(kept, tolerance)
    requires forall p | p in kept && p.stations == c.stations :: SameMetrics(p, c)
    ensures Irredundant(Added(kept, c, tolerance), tolerance)
  {
    hide Dominates;
    var r := Added(kept, c, tolerance);
    if Holds(kept, c.stations) {
      forall i, j | 0 <= i < |r| && 0 <= j < |r| && i != j ensures r[j].required || !Dominates(r[i], r[j], tolerance) {
        FlagKeepsDominance(kept[i], r[i], kept[j], r[j], tolerance);
      }
    } else if !DominatedBy(kept, c, tolerance) || c.required {
      UndominatedIrredundant(kept, c, tolerance);
      var u := Undominated(kept, c, tolerance);
      forall i, j | 0 <= i < |r| && 0 <= j < |r| && i != j ensures r[j].required || !Dominates(r[i], r[j], tolerance) {
        if i < |u| { assert r[i] in u; assert r[i] in kept; }
        if j < |u| { assert r[j] in u; assert r[j] in kept; }
      }
    }
  }

  lemma FlagKeepsDominance(a: PathSpec, a': PathSpec, b: PathSpec, b': PathSpec, tolerance: real)
    requires SameMetrics(a, a') && SameMetrics(b, b')
    ensures Dominates(a, b, tolerance) <==> Dominates(a', b', tolerance)
  {
  }

  lemma {:induction false} UndominatedIrredundant(kept: seq<PathSpec>, c: PathSpec, tolerance: real)
    requires Irredundant(kept, tolerance)
    ensures Irredundant(Undominated(kept, c, tolerance), tolerance)
  {
    hide Dominates;
    if kept != [] {
      var n := |kept| - 1;
      UndominatedIrredundant(kept[..n], c, tolerance);
      var r := Undominated(kept[..n], c, tolerance);
      forall i | 0 <= i < |r|
        ensures (r[i].required || !Dominates(kept[n], r[i], tolerance)) && (kept[n].required || !Dominates(r[i], kept[n], tolerance))
      {
        assert r[i] in kept[..n];
        var k :| 0 <= k < n && kept[k] == r[i];
      }
    }
  }

  /** Whatever was offered, the kept paths are offered ones without repetition, the required ones among
      them, and only required ones are dominated. */
  lemma {:induction false} FilterKeeps(offered: seq<PathSpec>, tolerance: real)
    requires Functional(offered)
    ensures var kept := Filter(offered, tolerance);
      && DistinctStations(kept) && Irredundant(kept, tolerance)
      && (forall k | k in kept :: exists o | o in offered :: o.stations == k.stations && SameMetrics(k, o))
  {
    hide Dominates, Added, DistinctStations, Irredundant, SameMetrics;
    if offered == [] {
      EmptySet(tolerance);
    } else {
      var n := |offered| - 1;
      var c, before := offered[n], Filter(offered[..n], tolerance);
      FunctionalPrefix(offered, n);
      FilterKeeps(offered[..n], tolerance);
      forall p | p in before && p.stations == c.stations ensures SameMetrics(p, c) {
        var o :| o in offered[..n] && o.stations == p.stations && SameMetrics(p, o);
        SameAcross(p, o, c, offered);
      }
      AddedDistinct(before, c, tolerance);
      AddedIrredundant(before, c, tolerance);
      forall k | k in Added(before, c, tolerance) ensures exists o | o in offered :: o.stations == k.stations && SameMetrics(k, o) {
        AddedFrom(before, c, tolerance, k);
        if k.stations == c.stations {
        } else {
          var p :| p in before && SameMetrics(k, p) && p.stations == k.stations;
          var o :| o in offered[..n] && o.stations == p.stations && SameMetrics(p, o);
          SameChain(k, p, o);
        }
      }
    }
  }

  lemma EmptySet(tolerance: real)
    ensures DistinctStations([]) && Irredundant([], tolerance)
  {
  }

  lemma FunctionalPrefix(offered: seq<PathSpec>, n: nat)
    requires n <= |offered| && Functional(offered)
    ensures Functional(offered[..n])
  {
  }

  lemma SameAcross(p: PathSpec, o: PathSpec, c: PathSpec, offered: seq<PathSpec>)
    requires SameMetrics(p, o) && o in offered && c in offered && o.stations == c.stations && Functional(offered)
    ensures SameMetrics(p, c)
  {
    assert SameMetrics(o, c);
  }

  lemma SameChain(k: PathSpec, p: PathSpec, o: PathSpec)
    requires SameMetrics(k, p) && SameMetrics(p, o)
    ensures SameMetrics(k, o)
  {
  }

  lemma AddedFrom(kept: seq<PathSpec>, c: PathSpec, tolerance: real, k: PathSpec)
    requires k in Added(kept, c, tolerance)
    requires forall p | p in kept && p.stations == c.stations :: SameMetrics(p, c)
    ensures if k.stations == c.stations then SameMetrics(k, c)
            else exists p | p in kept :: SameMetrics(k, p) && p.stations == k.stations
  {
    hide Dominates;
    if Holds(kept, c.stations) {
      var i :| 0 <= i < |kept| && Flagged(kept, c)[i] == k;
      assert kept[i] in kept && SameMetrics(k, kept[i]);
    } else {
      assert k == c || k in kept;
      assert SameMetrics(k, k);
    }
  }

  // ----- required paths -----

  lemma AddedRequired(kept: seq<PathSpec>, c: PathSpec, tolerance: real, stations: seq<int>)
    requires Requires(kept, stations) || (c.required && c.stations == stations)
    ensures Requires(Added(kept, c, tolerance), stations)
  {
    hide Dominates;
    var r := Added(kept, c, tolerance);
    if Holds(kept, c.stations) {
      var k :| 0 <= k < |kept| && kept[k].stations == (if c.required && c.stations == stations then c.stations else stations)
        && (kept[k].required || (c.required && c.stations == stations));
      assert r[k].stations == stations && r[k].required;
    } else if Requires(kept, stations) {
      var k :| 0 <= k < |kept| && kept[k].stations == stations && kept[k].required;
      assert kept[k] in kept && kept[k] in r;
    } else {
      assert c in r;
    }
  }

  lemma {:induction false} RequiredStays(offered: seq<PathSpec>, tolerance: real, p: PathSpec)
    requires p in offered && p.required
    ensures Requires(Filter(offered, tolerance), p.stations)
  {
    hide Dominates, Added, Requires;
    var n := |offered| - 1;
    assert offered == offered[..n] + [offered[n]];
    if p != offered[n] { RequiredStays(offered[..n], tolerance, p); }
    AddedRequired(Filter(offered[..n], tolerance), offered[n], tolerance, p.stations);
  }

  // ----- coverage -----

  lemma DominatesTransitive(a: PathSpec, b: PathSpec, c: PathSpec)
    requires a.fastest <= a.slowest && b.fastest <= b.slowest && c.fastest <= c.slowest
    requires Dominates(a, b, 0.0) && Dominates(b, c, 0.0)
    ensures Dominates(a, c, 0.0)
  {
  }

  ghost predicate Ordered(offered: seq<PathSpec>) {
    forall p | p in offered :: p.fastest <= p.slowest
  }

  /** `l` pushes out `k`, which had kept `p` out, without dominating `p`. */
  ghost predicate Drifts(p: PathSpec, k: PathSpec, l: PathSpec, t: real) {
    && !p.required && !k.required && p.stations != l.stations
    && Dominates(k, p, t) && Dominates(l, k, t) && (l.required || !Dominates(k, l, t))
    && !Dominates(l, p, t)
  }

  ghost predicate NoDrift(paths: seq<PathSpec>, t: real) {
    forall p, k, l | p in paths && k in paths && l in paths :: !Drifts(p, k, l, t)
  }

  /** A kept path is never required without an offered required one. */
  lemma {:induction false} KeptUnflagged(offered: seq<PathSpec>, t: real)
    ensures forall k | k in Filter(offered, t) && !k.required :: k in offered
  {
    hide Dominates;
    if offered != [] {
      var n := |offered| - 1;
      var c, before := offered[n], Filter(offered[..n], t);
      KeptUnflagged(offered[..n], t);
      assert offered == offered[..n] + [c];
      forall k | k in Added(before, c, t) && !k.required ensures k in offered {
        if Holds(before, c.stations) {
          var i :| 0 <= i < |before| && Flagged(before, c)[i] == k;
          assert before[i] in before && k == before[i];
        }
      }
    }
  }

  /** One offer keeps a path represented that is not required, unless the drift condition fails. */
  lemma AddedCovers(kept: seq<PathSpec>, c: PathSpec, p: PathSpec, t: real)
    requires !p.required && (Covered(kept, p, t) || p == c)
    requires forall k | k in kept && k.stations == p.stations :: SameMetrics(k, p)
    requires c.stations == p.stations ==> SameMetrics(c, p)
    requires forall k | k in kept && !k.required :: !Drifts(p, k, c, t)
    ensures Covered(Added(kept, c, t), p, t)
  {
    hide Dominates;
    var r := Added(kept, c, t);
    if Holds(kept, c.stations) {
      var k :| 0 <= k < |kept| && (kept[k].stations == p.stations || Dominates(kept[k], p, t));
      FlagKeepsDominance(kept[k], r[k], p, p, t);
      assert r[k].stations == p.stations || Dominates(r[k], p, t);
    } else if DominatedBy(kept, c, t) && !c.required {
      if p == c {
        var k :| 0 <= k < |kept| && Dominates(kept[k], c, t);
        assert Dominates(kept[k], p, t);
      }
    } else {
      assert r[|r| - 1] == c;
      if p.stations != c.stations {
        var k :| 0 <= k < |kept| && (kept[k].stations == p.stations || Dominates(kept[k], p, t));
        assert kept[k] in kept;
        if kept[k].required || !Dominates(c, kept[k], t) {
          var u := Undominated(kept, c, t);
          assert kept[k] in u;
          var i :| 0 <= i < |u| && u[i] == kept[k];
          assert r[i] == kept[k];
        } else {
          if kept[k].stations == p.stations { FlagKeepsDominance(c, c, kept[k], p, t); }
          assert !Drifts(p, kept[k], c, t);
          assert Dominates(r[|r| - 1], p, t);
        }
      }
    }
  }

  /** Without drift among the offers every one of them stays represented, by itself or by a kept path that
      dominates it. */
  lemma {:induction false} FilterCovers(offered: seq<PathSpec>, t: real)
    requires Functional(offered) && NoDrift(offered, t)
    ensures CoversAll(Filter(offered, t), offered, t)
  {
    hide Dominates, Filter, Covered, SameMetrics, Requires;
    forall p | p in offered ensures Covered(Filter(offered, t), p, t) {
      if p.required {
        RequiredStays(offered, t, p);
        RequiredCovers(Filter(offered, t), p, t);
      } else {
        OfferCovered(offered, offered, p, t);
      }
    }
  }

  lemma RequiredCovers(kept: seq<PathSpec>, p: PathSpec, t: real)
    requires Requires(kept, p.stations)
    ensures Covered(kept, p, t)
  {
    hide Dominates;
  }

  lemma {:induction false} OfferCovered(some: seq<PathSpec>, offered: seq<PathSpec>, p: PathSpec, t: real)
    requires Functional(offered) && NoDrift(offered, t) && (forall o | o in some :: o in offered)
    requires p in some && !p.required
    ensures Covered(Filter(some, t), p, t)
    decreases |some|
  {
    hide Dominates, Added, Covered, SameMetrics, DistinctStations, Irredundant, Drifts;
    var n := |some| - 1;
    var c, before := some[n], Filter(some[..n], t);
    assert some == some[..n] + [c];
    if p in some[..n] { OfferCovered(some[..n], offered, p, t); }
    assert Functional(some[..n]);
    FilterKeeps(some[..n], t);
    KeptMatches(some[..n], offered, before, p);
    KeptUnflagged(some[..n], t);
    AddedCovers(before, c, p, t);
  }

  lemma KeptMatches(some: seq<PathSpec>, offered: seq<PathSpec>, kept: seq<PathSpec>, p: PathSpec)
    requires Functional(offered) && p in offered && (forall o | o in some :: o in offered)
    requires forall k | k in kept :: exists o | o in some :: o.stations == k.stations && SameMetrics(k, o)
    ensures forall k | k in kept && k.stations == p.stations :: SameMetrics(k, p)
  {
    forall k | k in kept && k.stations == p.stations ensures SameMetrics(k, p) {
      var o :| o in some && o.stations == k.stations && SameMetrics(k, o);
      SameAcross(k, o, p, offered);
    }
  }

  // ----- how far the condition is needed -----

  ghost predicate Drawn(offered: seq<PathSpec>, paths: seq<PathSpec>) {
    forall o | o in offered :: o in paths
  }

  /** Coverage holds for every sequence of offers drawn from some paths exactly when none of them drift. */
  lemma {:induction false} CoverageExactly(paths: seq<PathSpec>, t: real)
    requires Functional(paths)
    ensures NoDrift(paths, t) <==> forall offered | Drawn(offered, paths) :: CoversAll(Filter(offered, t), offered, t)
  {
    hide Dominates, Filter, Covered, SameMetrics, Drifts, CoversAll;
    if NoDrift(paths, t) {
      forall offered | Drawn(offered, paths) ensures CoversAll(Filter(offered, t), offered, t) {
        assert Functional(offered) && NoDrift(offered, t);
        FilterCovers(offered, t);
      }
    } else {
      var p, k, l :| p in paths && k in paths && l in paths && Drifts(p, k, l, t);
      assert SameMetrics(p, k) <== p.stations == k.stations;
      assert SameMetrics(l, k) <== l.stations == k.stations;
      DriftLoses(p, k, l, t);
      assert Drawn([k, p, l], paths);
    }
  }

  /** The path kept out by one that is pushed out later is lost. */
  lemma {:induction false} DriftLoses(p: PathSpec, k: PathSpec, l: PathSpec, t: real)
    requires Drifts(p, k, l, t)
    requires (p.stations == k.stations ==> SameMetrics(p, k)) && (l.stations == k.stations ==> SameMetrics(l, k))
    ensures Filter([k, p, l], t) == [l] && !CoversAll(Filter([k, p, l], t), [k, p, l], t)
  {
    hide Dominates, Added, Filter, Covered;
    DriftApart(p, k, l, t);
    FilterNext([], k, t);
    FilterNext([k], p, t);
    FilterNext([k, p], l, t);
    assert [] + [k] == [k] && [k] + [p] == [k, p] && [k, p] + [l] == [k, p, l];
    AddFirst(k, t);
    KeepOut(k, p, t);
    PushOut(k, l, t);
    NotCovered(p, l, t);
    assert p in [k, p, l];
  }

  lemma DriftApart(p: PathSpec, k: PathSpec, l: PathSpec, t: real)
    requires Drifts(p, k, l, t)
    requires (p.stations == k.stations ==> SameMetrics(p, k)) && (l.stations == k.stations ==> SameMetrics(l, k))
    ensures p.stations != k.stations && l.stations != k.stations
  {
  }

  lemma {:induction false} FilterNext(offered: seq<PathSpec>, c: PathSpec, t: real)
    ensures Filter([], t) == []
    ensures Filter(offered + [c], t) == Added(Filter(offered, t), c, t)
  {
    assert (offered + [c])[..|offered|] == offered;
  }

  lemma AddFirst(k: PathSpec, t: real)
    ensures Added([], k, t) == [k]
  {
  }

  lemma KeepOut(k: PathSpec, p: PathSpec, t: real)
    requires p.stations != k.stations && !p.required && Dominates(k, p, t)
    ensures Added([k], p, t) == [k]
  {
    hide Dominates;
    assert [k][0] == k;
  }

  lemma PushOut(k: PathSpec, l: PathSpec, t: real)
    requires l.stations != k.stations && !k.required && Dominates(l, k, t) && (l.required || !Dominates(k, l, t))
    ensures Added([k], l, t) == [l]
  {
    hide Dominates;
    assert Undominated([k], l, t) == [] by { assert [k][..0] == [] && Undominated([], l, t) == []; }
  }

  lemma NotCovered(p: PathSpec, l: PathSpec, t: real)
    requires p.stations != l.stations && !Dominates(l, p, t)
    ensures !Covered([l], p, t)
  {
  }

  // ----- when the tolerance changes nothing -----

  predicate NotWithin(x: real, y: real, t: real) {
    x <= y + t ==> x <= y
  }

  predicate Apart(p: PathSpec, q: PathSpec, t: real) {
    NotWithin(p.firstLeg, q.firstLeg, t) && NotWithin(p.lastLeg, q.lastLeg, t) && NotWithin(p.travel, q.travel, t)
  }

  /** No two first legs, last legs or travels differ by more than zero and at most the tolerance. */
  ghost predicate Spaced(paths: seq<PathSpec>, t: real) {
    forall p, q | p in paths && q in paths :: Apart(p, q, t)
  }

  lemma ApartDominates(p: PathSpec, q: PathSpec, t: real)
    requires 0.0 <= t && Apart(p, q, t)
    ensures Dominates(p, q, t) <==> Dominates(p, q, 0.0)
  {
  }

  /** Spaced paths do not drift, whatever the tolerance; no paths do without one. */
  lemma SpacedNoDrift(paths: seq<PathSpec>, t: real)
    requires 0.0 <= t && Ordered(paths) && Functional(paths) && (t == 0.0 || Spaced(paths, t))
    ensures NoDrift(paths, t)
  {
    hide Dominates;
    forall p, k, l | p in paths && k in paths && l in paths ensures !Drifts(p, k, l, t) {
      if Dominates(k, p, t) && Dominates(l, k, t) {
        if t > 0.0 {
          ApartDominates(k, p, t);
          ApartDominates(l, k, t);
          ApartDominates(l, p, t);
        }
        DominatesTransitive(l, k, p);
      }
    }
  }
}
