/** The complete path catalogue of an anchor pair (src/search.cpp, `path_catalog`). Distances are the gap's
    travel, the gap's cutoff is the horizon. */
module Catalog {
  import opened Common
  import opened Sequences
  import opened StationMasks
  import opened PathTrees
  import opened PathDistances
  import opened PathDominance
  import opened PathEnumeration
  import opened CatalogOrder
  import opened CatalogShelves

  datatype Pair = Pair(
    gap: Gap,
    rest: real,
    service: real,
    speed: real,
    consumption: real,
    rate: real,
    types: nat)

  predicate Positive(pr: Pair) {
    0.0 < pr.speed && 0.0 <= pr.consumption && 0.0 < pr.rate
  }

  predicate RankBelow(g: Gap, i: int, types: nat) {
    g.rank(i) < types
  }

  ghost predicate Regular(pr: Pair) {
    && Sensible(pr.gap) && Positive(pr)
    && (forall i :: RankBelow(pr.gap, i, pr.types))
    && (forall a, b, c :: pr.gap.travel(a, c) <= pr.gap.travel(a, b) + pr.gap.travel(b, c))
  }

  /** Least duration of a depot route that contains a path of this length. */
  function TimeBound(pr: Pair, distance: real): real
    requires Positive(pr)
  {
    pr.service + Driving(pr, distance + pr.rest) + Recharging(pr, distance + pr.rest)
  }

  function Driving(pr: Pair, total: real): real
    requires Positive(pr)
  {
    total / pr.speed
  }

  function Consumed(pr: Pair, total: real): real {
    total * pr.consumption
  }

  /** What the battery cannot cover. */
  function Missing(pr: Pair, total: real): real {
    Max(0.0, Consumed(pr, total) - pr.gap.battery)
  }

  /** The time it takes at the fastest rate anywhere. */
  function Recharging(pr: Pair, total: real): real
    requires Positive(pr)
  {
    Missing(pr, total) / pr.rate
  }

  predicate InTime(pr: Pair, distance: real)
    requires Positive(pr)
  {
    TimeBound(pr, distance) <= pr.gap.cutoff + pr.gap.tolerance
  }

  lemma LongerIsLater(pr: Pair, x: real, y: real)
    requires Regular(pr) && x <= y
    ensures InTime(pr, y) ==> InTime(pr, x)
  {
    hide Driving, Recharging;
    DrivingGrows(pr, x + pr.rest, y + pr.rest);
    RechargingGrows(pr, x + pr.rest, y + pr.rest);
  }

  lemma DrivingGrows(pr: Pair, a: real, b: real)
    requires Positive(pr) && a <= b
    ensures Driving(pr, a) <= Driving(pr, b)
  {
    Quotient(a, b, pr.speed);
  }

  lemma ConsumedGrows(pr: Pair, a: real, b: real)
    requires Positive(pr) && a <= b
    ensures Consumed(pr, a) <= Consumed(pr, b)
  {
    assert (b - a) * pr.consumption >= 0.0;
  }

  lemma MissingGrows(pr: Pair, a: real, b: real)
    requires Positive(pr) && a <= b
    ensures Missing(pr, a) <= Missing(pr, b)
  {
    hide Consumed;
    ConsumedGrows(pr, a, b);
  }

  lemma RechargingGrows(pr: Pair, a: real, b: real)
    requires Positive(pr) && a <= b
    ensures Recharging(pr, a) <= Recharging(pr, b)
  {
    hide Missing;
    MissingGrows(pr, a, b);
    Quotient(Missing(pr, a), Missing(pr, b), pr.rate);
  }

  lemma Quotient(x: real, y: real, d: real)
    requires x <= y && 0.0 < d
    ensures x / d <= y / d
  {
    assert (y - x) / d >= 0.0 && y / d - x / d == (y - x) / d;
  }

  // ----- which paths are proposed -----

  /** Elementary, every leg within the battery, within the horizon bound. */
  ghost predicate Eligible(pr: Pair, p: seq<int>)
    requires Positive(pr)
  {
    && p != [] && InRange(pr.gap, p) && Distinct(p)
    && AllFit(pr.gap, pr.gap.origin, p) && InTime(pr, Length(pr.gap, pr.gap.origin, p))
  }

  ghost predicate Goes(pr: Pair, p: seq<int>, j: nat)
    requires Positive(pr) && j < |p|
  {
    var g := pr.gap;
    && 0 <= p[j] < g.count && p[j] !in p[..j]
    && Fits(g, Before(g, p, j), p[j])
    && InTime(pr, Reach(g, p[..j + 1]) + g.travel(p[j], g.target))
  }

  ghost predicate Opens(pr: Pair, p: seq<int>)
    requires Positive(pr)
  {
    forall j: nat | j < |p| :: Goes(pr, p, j)
  }

  ghost predicate Proposes(pr: Pair, p: seq<int>)
    requires Positive(pr)
  {
    p != [] && Opens(pr, p) && Fits(pr.gap, p[|p| - 1], pr.gap.target)
  }

  lemma {:induction false} DirectIsShortest(pr: Pair, v: int, p: seq<int>)
    requires Regular(pr)
    ensures pr.gap.travel(v, pr.gap.target) <= Length(pr.gap, v, p)
    decreases |p|
  {
    var g := pr.gap;
    if p != [] {
      DirectIsShortest(pr, p[0], p[1..]);
      assert g.travel(v, g.target) <= g.travel(v, p[0]) + g.travel(p[0], g.target);
    }
  }

  /** Cutting prefixes by the triangle inequality loses nothing: exactly the eligible paths are proposed. */
  lemma ProposesExactly(pr: Pair, p: seq<int>)
    requires Regular(pr)
    ensures Proposes(pr, p) <==> Eligible(pr, p)
  {
    hide Proposes, Eligible;
    if Proposes(pr, p) { ProposedIsEligible(pr, p); }
    if Eligible(pr, p) { EligibleIsProposed(pr, p); }
  }

  lemma ProposedIsEligible(pr: Pair, p: seq<int>)
    requires Positive(pr) && Proposes(pr, p)
    ensures Eligible(pr, p)
  {
    hide AllFit, TimeBound, Reach, Length, InTime, Fits;
    var g, n := pr.gap, |p| - 1;
    forall i, j | 0 <= i < j < |p| ensures p[i] != p[j] {
      assert Goes(pr, p, j) && p[i] == p[..j][i];
    }
    forall j: nat | j < |p| ensures 0 <= p[j] < g.count && Fits(g, Before(g, p, j), p[j]) {
      assert Goes(pr, p, j);
    }
    FitThenFit(g, p, |p|);
    LastLeg(g, p);
    ReachThenLength(g, p, |p|);
    assert p[..|p|] == p && Goes(pr, p, n) && p[..n + 1] == p;
  }

  lemma EligibleIsProposed(pr: Pair, p: seq<int>)
    requires Regular(pr) && Eligible(pr, p)
    ensures Proposes(pr, p)
  {
    hide AllFit, TimeBound, Reach, Length, InTime, Goes, Distinct, InRange;
    forall j: nat | j < |p| ensures Goes(pr, p, j) {
      EligibleGoes(pr, p, j);
    }
    FitThenFit(pr.gap, p, |p|);
    LastLeg(pr.gap, p);
  }

  lemma EligibleGoes(pr: Pair, p: seq<int>, j: nat)
    requires Regular(pr) && Positive(pr) && Eligible(pr, p) && j < |p|
    ensures Goes(pr, p, j)
  {
    hide AllFit, TimeBound, Reach, Length, InTime, Regular, Fits;
    var g := pr.gap;
    FitThenFit(g, p, j + 1);
    ReachThenLength(g, p, j + 1);
    DirectIsShortest(pr, p[j], p[j + 1..]);
    LongerIsLater(pr, Reach(g, p[..j + 1]) + g.travel(p[j], g.target), Length(g, g.origin, p));
    forall i | 0 <= i < j ensures p[..j][i] != p[j] {
      assert p[..j][i] == p[i];
    }
  }

  lemma OpensPrefix(pr: Pair, p: seq<int>, k: nat)
    requires Positive(pr) && k <= |p| && Opens(pr, p)
    ensures Opens(pr, p[..k])
  {
    hide InTime, Reach;
    forall j: nat | j < k ensures Goes(pr, p[..k], j) {
      assert Goes(pr, p, j);
      assert p[..k][..j] == p[..j] && p[..k][..j + 1] == p[..j + 1];
    }
  }

  lemma OpensNext(pr: Pair, p: seq<int>, x: int)
    requires Positive(pr)
    ensures Opens(pr, p + [x]) <==> Opens(pr, p) && Goes(pr, p + [x], |p|)
  {
    hide InTime, Reach;
    var q := p + [x];
    if Opens(pr, q) {
      OpensPrefix(pr, q, |p|);
      assert q[..|p|] == p;
    }
    if Opens(pr, p) && Goes(pr, q, |p|) {
      forall j: nat | j < |q| ensures Goes(pr, q, j) {
        if j < |p| {
          assert Goes(pr, p, j);
          assert q[..j] == p[..j] && q[..j + 1] == p[..j + 1];
        }
      }
    }
  }

  ghost function Proposed(pr: Pair): seq<int> -> bool {
    q => Positive(pr) && Proposes(pr, q)
  }
}
