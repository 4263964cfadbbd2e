/** Piecewise-linear charging curves (src/core.cpp, class ChargingCurve).
    A curve is its list of breakpoints; `TimeAt` is the inverse charging function. */
module Curves {
  import opened Common

  datatype Point = Point(time: real, energy: real)

  type Curve = seq<Point>

  /** What the constructor accepts, with its tolerances at zero. */
  ghost predicate Valid(c: Curve) {
    && |c| >= 2
    && c[0] == Point(0.0, 0.0)
    && forall i | 1 <= i < |c| :: c[i - 1].time <= c[i].time && c[i - 1].energy <= c[i].energy
  }

  /** No time passes without energy. */
  ghost predicate EnergyStrict(c: Curve) {
    forall i | 1 <= i < |c| :: c[i - 1].energy < c[i].energy
  }

  /** No energy arrives in zero time. */
  ghost predicate TimeStrict(c: Curve) {
    forall i | 1 <= i < |c| :: c[i - 1].time < c[i].time
  }

  ghost predicate Strict(c: Curve) {
    Valid(c) && EnergyStrict(c) && TimeStrict(c)
  }

  function Capacity(c: Curve): real
    requires |c| >= 1
  {
    c[|c| - 1].energy
  }

  /** The first segment, from `i` on, whose right end reaches `e`. */
  function SegmentFrom(c: Curve, e: real, i: nat): (k: nat)
    requires 1 <= i < |c| && e <= Capacity(c)
    ensures i <= k < |c| && e <= c[k].energy
    ensures forall j | i <= j < k :: c[j].energy < e
    decreases |c| - i
  {
    if e <= c[i].energy then i else SegmentFrom(c, e, i + 1)
  }

  /** Linear interpolation on segment `k`; a segment without energy yields its left time. */
  function OnSegment(c: Curve, k: nat, e: real): real
    requires 1 <= k < |c|
  {
    var delta := c[k].energy - c[k - 1].energy;
    if delta == 0.0 then c[k - 1].time
    else c[k - 1].time + (e - c[k - 1].energy) / delta * (c[k].time - c[k - 1].time)
  }

  function TimeAt(c: Curve, e: real): real
    requires |c| >= 2 && e <= Capacity(c)
  {
    OnSegment(c, SegmentFrom(c, e, 1), e)
  }

  function Duration(c: Curve, from: real, to: real): real
    requires |c| >= 2 && from <= Capacity(c) && to <= Capacity(c)
  {
    TimeAt(c, to) - TimeAt(c, from)
  }

  /** The first segment, from `i` on, whose right end lies strictly above `e`. */
  function NextFrom(c: Curve, e: real, i: nat): (k: nat)
    requires 1 <= i < |c| && e < Capacity(c)
    ensures i <= k < |c| && e < c[k].energy
    ensures forall j | i <= j < k :: c[j].energy <= e
    decreases |c| - i
  {
    if e < c[i].energy then i else NextFrom(c, e, i + 1)
  }

  function NextBreakpoint(c: Curve, e: real): real
    requires |c| >= 2
  {
    if e < Capacity(c) then c[NextFrom(c, e, 1)].energy else Capacity(c)
  }

  function SegmentRate(c: Curve, k: nat): real
    requires 1 <= k < |c| && c[k - 1].time < c[k].time
  {
    (c[k].energy - c[k - 1].energy) / (c[k].time - c[k - 1].time)
  }

  function Rate(c: Curve, e: real): real
    requires Strict(c)
  {
    if e < Capacity(c) then SegmentRate(c, NextFrom(c, e, 1)) else 0.0
  }

  /** Charging never speeds up. */
  ghost predicate Concave(c: Curve)
    requires Strict(c)
  {
    forall j, k | 1 <= j <= k < |c| :: SegmentRate(c, k) <= SegmentRate(c, j)
  }

  /** How many breakpoints lie strictly above `e`. */
  function BreaksAbove(c: Curve, e: real): nat {
    if c == [] then 0
    else BreaksAbove(c[..|c| - 1], e) + (if e < c[|c| - 1].energy then 1 else 0)
  }

  // ----- order facts -----

  lemma {:induction false} EnergiesSorted(c: Curve, i: nat, j: nat)
    requires Valid(c) && i <= j < |c|
    ensures c[i].energy <= c[j].energy && c[i].time <= c[j].time
    decreases j - i
  {
    if i < j { EnergiesSorted(c, i, j - 1); }
  }

  lemma {:induction false} EnergiesStrictlySorted(c: Curve, i: nat, j: nat)
    requires Valid(c) && EnergyStrict(c) && i < j < |c|
    ensures c[i].energy < c[j].energy
    decreases j - i
  {
    if i + 1 < j { EnergiesStrictlySorted(c, i, j - 1); }
  }

  lemma RatioBounds(x: real, d: real, t: real)
    requires 0.0 <= x <= d && 0.0 < d && 0.0 <= t
    ensures 0.0 <= x / d * t <= t
  {
    assert 0.0 <= x / d <= 1.0;
    var r := x / d;
    assert 0.0 <= r * t;
    assert r * t <= 1.0 * t by { assert (1.0 - r) * t >= 0.0; }
  }

  lemma OnSegmentBounds(c: Curve, k: nat, e: real)
    requires Valid(c) && 1 <= k < |c| && c[k - 1].energy <= e <= c[k].energy
    ensures c[k - 1].time <= OnSegment(c, k, e) <= c[k].time
  {
    var d := c[k].energy - c[k - 1].energy;
    if d != 0.0 { RatioBounds(e - c[k - 1].energy, d, c[k].time - c[k - 1].time); }
  }

  lemma RatioMonotone(x: real, y: real, d: real, t: real)
    requires x <= y && 0.0 < d && 0.0 <= t
    ensures x / d * t <= y / d * t
  {
    assert x / d <= y / d;
    assert (y / d - x / d) * t >= 0.0;
  }

  /** The inverse charging function never decreases, flat or vertical pieces included. */
  lemma TimeAtMonotone(c: Curve, a: real, b: real)
    requires Valid(c) && 0.0 <= a <= b <= Capacity(c)
    ensures 0.0 <= TimeAt(c, a) <= TimeAt(c, b)
  {
    var i, j := SegmentFrom(c, a, 1), SegmentFrom(c, b, 1);
    assert c[i - 1].energy <= a by { if i > 1 { assert c[i - 1].energy < a; } }
    assert c[j - 1].energy <= b by { if j > 1 { assert c[j - 1].energy < b; } }
    assert i <= j;
    OnSegmentBounds(c, i, a);
    OnSegmentBounds(c, j, b);
    EnergiesSorted(c, 0, i - 1);
    if i == j {
      var d := c[i].energy - c[i - 1].energy;
      if d != 0.0 {
        RatioMonotone(a - c[i - 1].energy, b - c[i - 1].energy, d, c[i].time - c[i - 1].time);
      }
    } else {
      EnergiesSorted(c, i, j - 1);
    }
  }

  /** On an energy-strict curve any segment that contains `e` computes `TimeAt`. */
  lemma TimeOnSegment(c: Curve, k: nat, e: real)
    requires Valid(c) && EnergyStrict(c) && 1 <= k < |c|
    requires c[k - 1].energy <= e <= c[k].energy
    ensures e <= Capacity(c) && TimeAt(c, e) == OnSegment(c, k, e)
  {
    EnergiesSorted(c, k, |c| - 1);
    var i := SegmentFrom(c, e, 1);
    if i < k {
      if i < k - 1 { EnergiesStrictlySorted(c, i, k - 1); }
      assert i == k - 1 && e == c[k - 1].energy;
      SegmentEnds(c, i);
      SegmentEnds(c, k);
    }
  }

  lemma SegmentEnds(c: Curve, k: nat)
    requires Valid(c) && EnergyStrict(c) && 1 <= k < |c|
    ensures OnSegment(c, k, c[k - 1].energy) == c[k - 1].time
    ensures OnSegment(c, k, c[k].energy) == c[k].time
  {
    var d := c[k].energy - c[k - 1].energy;
    assert d / d == 1.0;
    assert 0.0 / d == 0.0;
  }

  // ----- what the greedy charger needs to know about one curve -----

  lemma DivisionSteps(x: real, y: real, d: real, t: real)
    requires 0.0 < d && 0.0 < t
    ensures (x + y) / d * t - x / d * t == y / (d / t)
  {
    var k := y / d;
    assert y == k * d;
    assert (x + y) / d == x / d + k;
    assert (x / d + k) * t == x / d * t + k * t;
    var q := d / t;
    assert q * t == d && q > 0.0;
    assert y == k * t * q;
    assert (k * t * q) / q == k * t;
  }

  lemma SegmentStep(c: Curve, k: nat, e: real, x: real)
    requires Strict(c) && 1 <= k < |c|
    ensures 0.0 < SegmentRate(c, k)
    ensures OnSegment(c, k, e + x) - OnSegment(c, k, e) == x / SegmentRate(c, k)
  {
    var b, d, t := e - c[k - 1].energy, c[k].energy - c[k - 1].energy, c[k].time - c[k - 1].time;
    DivisionSteps(b, x, d, t);
    assert e + x - c[k - 1].energy == b + x;
  }

  /** Up to the next breakpoint, charging `x` takes exactly `x / Rate`. */
  lemma SegmentDuration(c: Curve, e: real, x: real)
    requires Strict(c) && 0.0 <= e < Capacity(c) && 0.0 <= x <= NextBreakpoint(c, e) - e
    ensures e < NextBreakpoint(c, e) <= Capacity(c) && 0.0 < Rate(c, e)
    ensures Duration(c, e, e + x) == x / Rate(c, e)
  {
    var k := NextFrom(c, e, 1);
    EnergiesSorted(c, k, |c| - 1);
    assert c[k - 1].energy <= e by { if k > 1 { assert c[k - 1].energy <= e; } }
    TimeOnSegment(c, k, e);
    TimeOnSegment(c, k, e + x);
    SegmentStep(c, k, e, x);
  }

  lemma SameSegment(c: Curve, e: real, f: real)
    requires Strict(c) && e <= f < NextBreakpoint(c, e) && e < Capacity(c)
    ensures f < Capacity(c)
    ensures NextBreakpoint(c, f) == NextBreakpoint(c, e) && Rate(c, f) == Rate(c, e)
  {
    var k := NextFrom(c, e, 1);
    EnergiesSorted(c, k, |c| - 1);
    var m := NextFrom(c, f, 1);
  }

  lemma SegmentRatePositive(c: Curve, k: nat)
    requires Strict(c) && 1 <= k < |c|
    ensures 0.0 < SegmentRate(c, k)
  {
  }

  lemma RateFalls(c: Curve, e: real, f: real)
    requires Strict(c) && Concave(c) && e <= f <= Capacity(c)
    ensures Rate(c, f) <= Rate(c, e)
  {
    hide SegmentRate;
    if f < Capacity(c) {
      assert NextFrom(c, e, 1) <= NextFrom(c, f, 1);
    } else if e < Capacity(c) {
      SegmentRatePositive(c, NextFrom(c, e, 1));
    }
  }

  lemma {:induction false} BreaksFall(c: Curve, e: real, f: real)
    requires e <= f
    ensures BreaksAbove(c, f) <= BreaksAbove(c, e)
    ensures (exists i | 0 <= i < |c| :: e < c[i].energy <= f) ==> BreaksAbove(c, f) < BreaksAbove(c, e)
  {
    if c != [] {
      var d := c[..|c| - 1];
      BreaksFall(d, e, f);
      if i :| 0 <= i < |c| && e < c[i].energy <= f {
        if i < |d| { assert e < d[i].energy <= f; }
      }
    }
  }

  lemma {:induction false} BreakCrossed(c: Curve, e: real)
    requires Strict(c) && e < Capacity(c)
    ensures BreaksAbove(c, NextBreakpoint(c, e)) < BreaksAbove(c, e)
  {
    var k := NextFrom(c, e, 1);
    BreaksFall(c, e, c[k].energy);
  }
}
