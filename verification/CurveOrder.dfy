/** Comparing two charging curves (src/core.cpp, `charging_curve_no_slower`): what the check between
    breakpoints decides, on every two curves. */
module CurveOrder {
  import opened Common
  import opened Curves

  ghost predicate NoSlower(left: Curve, right: Curve)
    requires |left| >= 2 && |right| >= 2
  {
    forall a, b | 0.0 <= a <= b <= Capacity(left) && b <= Capacity(right) ::
      Duration(left, a, b) <= Duration(right, a, b)
  }

  // ----- sorted breakpoints -----

  ghost predicate Increasing(xs: seq<real>) {
    forall i | 0 <= i < |xs| - 1 :: xs[i] < xs[i + 1]
  }

  lemma {:induction false} IncreasingFar(xs: seq<real>, i: nat, j: nat)
    requires Increasing(xs) && i <= j < |xs|
    ensures xs[i] <= xs[j] && (i < j ==> xs[i] < xs[j])
    decreases j - i
  {
    if i < j { IncreasingFar(xs, i, j - 1); }
  }

  /** Increasing sequences of the same values are the same. */
  lemma {:induction false} SameMarks(a: seq<real>, b: seq<real>)
    requires Increasing(a) && Increasing(b) && forall y :: y in a <==> y in b
    ensures a == b
  {
    forall i | 0 <= i < |a| ensures i < |b| && a[i] == b[i] {
      SameMark(a, b, i);
    }
    if |a| > 0 { SameMark(a, b, |a| - 1); }
    if |b| > 0 { SameMark(b, a, |b| - 1); }
  }

  lemma {:induction false} SameMark(a: seq<real>, b: seq<real>, i: nat)
    requires Increasing(a) && Increasing(b) && (forall y :: y in a <==> y in b) && i < |a|
    ensures i < |b| && a[i] == b[i]
  {
    forall j: nat | j < i ensures j < |b| && a[j] == b[j] && a[j] < a[i] {
      SameMark(a, b, j);
      IncreasingFar(a, j, i);
    }
    assert a[i] in a && a[i] in b;
    var k :| 0 <= k < |b| && b[k] == a[i];
    if k < i {
      assert false;
    } else if i < k {
      IncreasingFar(b, i, k);
      assert b[i] in b && b[i] in a;
      var m :| 0 <= m < |a| && a[m] == b[i];
      if m >= i { IncreasingFar(a, i, m); } else { IncreasingFar(b, m, i); }
      assert false;
    }
  }

  /** Put one value where it belongs, unless it is there already. */
  method Place(xs: seq<real>, x: real) returns (r: seq<real>)
    requires Increasing(xs)
    ensures Increasing(r)
    ensures forall y :: y in r <==> y in xs || y == x
  {
    var i := 0;
    while i < |xs| && xs[i] < x
      invariant i <= |xs| && forall k | 0 <= k < i :: xs[k] < x
    {
      i := i + 1;
    }
    if i < |xs| && xs[i] == x { return xs; }
    r := xs[..i] + [x] + xs[i..];
    forall y ensures y in r <==> y in xs || y == x {
      assert xs == xs[..i] + xs[i..];
    }
  }

  /** `std::sort` followed by `std::unique`. */
  method SortUnique(values: seq<real>) returns (r: seq<real>)
    ensures Increasing(r)
    ensures forall y :: y in r <==> y in values
  {
    r := [];
    for i := 0 to |values|
      invariant Increasing(r)
      invariant forall y :: y in r <==> y in values[..i]
    {
      r := Place(r, values[i]);
    }
  }

  function Energies(c: Curve): (r: seq<real>)
    ensures |r| == |c| && forall i | 0 <= i < |c| :: r[i] == c[i].energy
  {
    seq(|c|, i requires 0 <= i < |c| => c[i].energy)
  }

  // ----- pauses and paces -----

  ghost predicate NoneInside(c: Curve, s: real, f: real) {
    forall i | 0 <= i < |c| :: c[i].energy <= s || f <= c[i].energy
  }

  /** Hours per unit of energy just above `s`. */
  function Pace(c: Curve, s: real): real
    requires Valid(c) && 0.0 <= s < Capacity(c)
  {
    var k := NextFrom(c, s, 1);
    NextRises(c, s);
    (c[k].time - c[k - 1].time) / (c[k].energy - c[k - 1].energy)
  }

  /** Time that passes at `s` without energy. */
  function Pause(c: Curve, s: real): real
    requires Valid(c) && 0.0 <= s < Capacity(c)
  {
    OnSegment(c, NextFrom(c, s, 1), s) - TimeAt(c, s)
  }

  lemma {:induction false} NextRises(c: Curve, s: real)
    requires Valid(c) && 0.0 <= s < Capacity(c)
    ensures var k := NextFrom(c, s, 1); 1 <= k < |c| && c[k - 1].energy <= s < c[k].energy
  {
    if NextFrom(c, s, 1) == 1 { assert c[0].energy == 0.0; }
  }

  lemma Reorder(x: real, y: real, d: real, t: real)
    requires d != 0.0
    ensures y / d * t - x / d * t == (y - x) * (t / d)
  {
    assert y / d * t - x / d * t == (y / d - x / d) * t;
    assert y / d - x / d == (y - x) / d;
  }

  /** The time `amount` takes at a pace. */
  function AtPace(amount: real, pace: real): real {
    amount * pace
  }

  lemma PaceOnSegment(c: Curve, k: nat, x: real, y: real)
    requires Valid(c) && 1 <= k < |c| && c[k - 1].energy < c[k].energy
    ensures OnSegment(c, k, y) - OnSegment(c, k, x)
            == AtPace(y - x, (c[k].time - c[k - 1].time) / (c[k].energy - c[k - 1].energy))
  {
    var b, d, t := c[k - 1].energy, c[k].energy - c[k - 1].energy, c[k].time - c[k - 1].time;
    Reorder(x - b, y - b, d, t);
    assert (y - b) - (x - b) == y - x;
  }

  /** Up to the next breakpoint all energies above `s` lie on one segment. */
  lemma {:induction false} SegmentAbove(c: Curve, s: real, f: real, z: real)
    requires Valid(c) && 0.0 <= s < z <= f <= Capacity(c) && NoneInside(c, s, f)
    ensures SegmentFrom(c, z, 1) == NextFrom(c, s, 1)
  {
    var k, n := SegmentFrom(c, z, 1), NextFrom(c, s, 1);
    assert s < c[k].energy && f <= c[n].energy;
  }

  /** Between neighbouring breakpoints: a pause at the lower one, then one pace. */
  lemma PauseThenPace(c: Curve, s: real, f: real, x: real, y: real)
    requires Valid(c) && 0.0 <= s < f <= Capacity(c) && NoneInside(c, s, f) && s <= x <= y <= f
    ensures Duration(c, x, y) == (if x == s < y then Pause(c, s) else 0.0) + AtPace(y - x, Pace(c, s))
  {
    hide OnSegment, AtPace, NoneInside;
    var k := NextFrom(c, s, 1);
    NextRises(c, s);
    if x == y {
      NoTime(Pace(c, s));
    } else {
      SegmentAbove(c, s, f, y);
      if s < x { SegmentAbove(c, s, f, x); }
      PaceOnSegment(c, k, x, y);
    }
  }

  lemma NoTime(pace: real)
    ensures AtPace(0.0, pace) == 0.0
  {
  }

  lemma ScaleUp(m: real, n: real, w: real)
    requires m <= n && 0.0 <= w
    ensures AtPace(w, m) <= AtPace(w, n)
  {
    assert w * (n - m) >= 0.0;
  }

  lemma ScaleDown(m: real, n: real, w: real)
    requires 0.0 < w && AtPace(w, m) <= AtPace(w, n)
    ensures m <= n
  {
    assert w * (n - m) >= 0.0;
  }

  // ----- the breakpoints -----

  /** The range both curves cover. */
  function Shared(left: Curve, right: Curve): real
    requires |left| >= 1 && |right| >= 1
  {
    Min(Capacity(left), Capacity(right))
  }

  /** What the check compares on one interval. */
  ghost predicate Checked(left: Curve, right: Curve, marks: seq<real>, i: nat)
    requires Valid(left) && Valid(right) && 1 <= i < |marks|
  {
    marks[i - 1] < marks[i] <= Shared(left, right)
    && Duration(left, marks[i - 1], marks[i]) <= Duration(right, marks[i - 1], marks[i])
  }

  /** What decides every interval inside it. */
  ghost predicate Steadier(left: Curve, right: Curve, marks: seq<real>, i: nat)
    requires Valid(left) && Valid(right) && 1 <= i < |marks|
  {
    0.0 <= marks[i - 1] < marks[i] <= Shared(left, right)
    && Pause(left, marks[i - 1]) <= Pause(right, marks[i - 1])
    && Pace(left, marks[i - 1]) <= Pace(right, marks[i - 1])
  }

  /** `marks` are the breakpoints of both curves. */
  ghost predicate Breakpoints(left: Curve, right: Curve, marks: seq<real>) {
    && Increasing(marks)
    && forall y :: y in marks <==> y in Energies(left) || y in Energies(right)
  }

  lemma BreakpointRange(c: Curve, e: real)
    requires Valid(c) && e in Energies(c)
    ensures 0.0 <= e <= Capacity(c)
  {
    var k :| 0 <= k < |c| && Energies(c)[k] == e;
    EnergiesSorted(c, 0, k);
    EnergiesSorted(c, k, |c| - 1);
  }

  /** The marks run from zero to the larger capacity, through the common one. */
  lemma MarksSpan(left: Curve, right: Curve, marks: seq<real>) returns (last: nat)
    requires Valid(left) && Valid(right) && Breakpoints(left, right, marks)
    ensures last < |marks| && marks[0] == 0.0 && marks[last] == Shared(left, right)
    ensures forall i | 0 <= i < |marks| :: 0.0 <= marks[i] && (marks[i] <= Shared(left, right) <==> i <= last)
    ensures Capacity(left) == Capacity(right) <==> last == |marks| - 1
  {
    assert Energies(left)[0] == 0.0 by { StartsAtZero(left); }
    assert 0.0 in Energies(left);
    assert Energies(left)[|left| - 1] in Energies(left) && Energies(right)[|right| - 1] in Energies(right);
    var z :| 0 <= z < |marks| && marks[z] == 0.0;
    last :| last < |marks| && marks[last] == Shared(left, right);
    forall i | 0 <= i < |marks|
      ensures 0.0 <= marks[i] && (marks[i] <= Shared(left, right) <==> i <= last)
    {
      assert marks[i] in marks;
      if marks[i] in Energies(left) { BreakpointRange(left, marks[i]); } else { BreakpointRange(right, marks[i]); }
      if i <= last { IncreasingFar(marks, i, last); } else { IncreasingFar(marks, last, i); }
    }
    IncreasingFar(marks, 0, z);
    if last == |marks| - 1 {
      var l, r := Capacity(left), Capacity(right);
      assert l in marks && r in marks;
      var i :| 0 <= i < |marks| && marks[i] == l;
      var j :| 0 <= j < |marks| && marks[j] == r;
      assert l <= Shared(left, right) && r <= Shared(left, right);
    } else {
      assert !(marks[last + 1] <= Shared(left, right)) && marks[last + 1] in marks;
      if marks[last + 1] in Energies(left) { BreakpointRange(left, marks[last + 1]); } else { BreakpointRange(right, marks[last + 1]); }
    }
  }

  lemma StartsAtZero(c: Curve)
    requires Valid(c)
    ensures c[0].energy == 0.0
  {
  }

  lemma MarksSeparate(left: Curve, right: Curve, marks: seq<real>, i: nat, c: Curve)
    requires Breakpoints(left, right, marks) && 1 <= i < |marks| && (c == left || c == right)
    ensures NoneInside(c, marks[i - 1], marks[i])
  {
    forall k | 0 <= k < |c| ensures c[k].energy <= marks[i - 1] || marks[i] <= c[k].energy {
      assert Energies(c)[k] in Energies(c);
      var m :| 0 <= m < |marks| && marks[m] == c[k].energy;
      if m < i { IncreasingFar(marks, m, i - 1); } else { IncreasingFar(marks, i, m); }
    }
  }

  /** One interval of the marks in the range of both curves. */
  ghost predicate Interval(left: Curve, right: Curve, marks: seq<real>, i: nat) {
    Valid(left) && Valid(right) && Breakpoints(left, right, marks) && 1 <= i < |marks| && marks[i] <= Shared(left, right)
  }

  lemma IntervalFacts(left: Curve, right: Curve, marks: seq<real>, i: nat)
    requires Interval(left, right, marks, i)
    ensures 0.0 <= marks[i - 1] < marks[i] <= Shared(left, right)
    ensures NoneInside(left, marks[i - 1], marks[i]) && NoneInside(right, marks[i - 1], marks[i])
  {
    hide NoneInside;
    var last := MarksSpan(left, right, marks);
    MarksSeparate(left, right, marks, i, left);
    MarksSeparate(left, right, marks, i, right);
  }

  // ----- the exact condition -----

  /** Steadier on an interval means not slower anywhere inside. */
  lemma SteadierInside(left: Curve, right: Curve, marks: seq<real>, i: nat, x: real, y: real)
    requires Interval(left, right, marks, i) && Steadier(left, right, marks, i) && marks[i - 1] <= x <= y <= marks[i]
    ensures Duration(left, x, y) <= Duration(right, x, y)
  {
    hide Duration, NoneInside, AtPace, Breakpoints, Pause, Pace;
    IntervalFacts(left, right, marks, i);
    PauseThenPace(left, marks[i - 1], marks[i], x, y);
    PauseThenPace(right, marks[i - 1], marks[i], x, y);
    ScaleUp(Pace(left, marks[i - 1]), Pace(right, marks[i - 1]), y - x);
  }

  /** Not slower anywhere inside means steadier: near the lower mark only the pauses count, above it only the
      paces. */
  lemma NoSlowerIsSteadier(left: Curve, right: Curve, marks: seq<real>, i: nat)
    requires Interval(left, right, marks, i) && NoSlower(left, right)
    ensures Steadier(left, right, marks, i)
  {
    hide Duration, NoneInside, AtPace, Breakpoints, Pause, Pace;
    IntervalFacts(left, right, marks, i);
    var s, f := marks[i - 1], marks[i];
    var middle := (s + f) / 2.0;
    PauseThenPace(left, s, f, middle, f);
    PauseThenPace(right, s, f, middle, f);
    assert Duration(left, middle, f) <= Duration(right, middle, f);
    ScaleDown(Pace(left, s), Pace(right, s), f - middle);
    var ahead, gain := Pause(left, s) - Pause(right, s), Pace(right, s) - Pace(left, s);
    if ahead > 0.0 {
      var w := Early(ahead, gain, f - s);
      PauseThenPace(left, s, f, s, s + w);
      PauseThenPace(right, s, f, s, s + w);
      assert Duration(left, s, s + w) <= Duration(right, s, s + w);
      PaceGain(Pace(left, s), Pace(right, s), w);
    }
  }

  lemma PaceGain(m: real, n: real, w: real)
    ensures AtPace(w, n) - AtPace(w, m) == AtPace(w, n - m)
  {
  }

  /** So early that the gain has not made up for the head start. */
  lemma Early(ahead: real, gain: real, width: real) returns (w: real)
    requires 0.0 < ahead && 0.0 <= gain && 0.0 < width
    ensures 0.0 < w <= width && AtPace(w, gain) < ahead
  {
    if width * gain < ahead {
      w := width;
    } else {
      assert gain > 0.0;
      w := ahead / gain / 2.0;
      assert w * gain == ahead / 2.0;
      assert (width - w) * gain > 0.0;
    }
  }

  /** Climb from `a` to `b`, one breakpoint at a time. */
  lemma {:induction false} Climb(left: Curve, right: Curve, marks: seq<real>, last: nat, i: nat, a: real, b: real)
    requires Valid(left) && Valid(right) && Breakpoints(left, right, marks) && last < |marks|
    requires forall k | 1 <= k <= last :: Interval(left, right, marks, k) && Steadier(left, right, marks, k)
    requires 1 <= i <= last && marks[i - 1] <= a <= marks[i] && a <= b <= marks[last] <= Shared(left, right)
    ensures Duration(left, a, b) <= Duration(right, a, b)
    decreases last - i
  {
    hide TimeAt, Breakpoints, Pause, Pace, Steadier;
    assert Interval(left, right, marks, i);
    IntervalFacts(left, right, marks, i);
    if b <= marks[i] {
      SteadierInside(left, right, marks, i, a, b);
    } else {
      SteadierInside(left, right, marks, i, a, marks[i]);
      assert Interval(left, right, marks, i + 1);
      IntervalFacts(left, right, marks, i + 1);
      Climb(left, right, marks, last, i + 1, marks[i], b);
    }
  }

  lemma {:induction false} FindInterval(marks: seq<real>, last: nat, i: nat, a: real) returns (k: nat)
    requires 1 <= i <= last < |marks| && marks[i - 1] <= a <= marks[last]
    ensures i <= k <= last && marks[k - 1] <= a <= marks[k]
    decreases last - i
  {
    if a <= marks[i] { k := i; } else { k := FindInterval(marks, last, i + 1, a); }
  }

  /** Charging on `left` takes no longer on any interval exactly when, at every breakpoint in the range of both
      curves, it pauses no longer, and up to the next one keeps a pace no slower. */
  lemma NoSlowerExactly(left: Curve, right: Curve, marks: seq<real>)
    requires Valid(left) && Valid(right) && Breakpoints(left, right, marks)
    ensures NoSlower(left, right)
      <==> forall k | 1 <= k < |marks| && marks[k] <= Shared(left, right) :: Steadier(left, right, marks, k)
  {
    hide Duration, Breakpoints, Steadier;
    var last := MarksSpan(left, right, marks);
    if NoSlower(left, right) {
      forall k | 1 <= k < |marks| && marks[k] <= Shared(left, right) ensures Steadier(left, right, marks, k) {
        NoSlowerIsSteadier(left, right, marks, k);
      }
    }
    if forall k | 1 <= k < |marks| && marks[k] <= Shared(left, right) :: Steadier(left, right, marks, k) {
      forall a, b | 0.0 <= a <= b <= Capacity(left) && b <= Capacity(right)
        ensures Duration(left, a, b) <= Duration(right, a, b)
      {
        if last == 0 {
          assert a == b == 0.0;
          Standstill(left, right);
        } else {
          var k := FindInterval(marks, last, 1, a);
          Climb(left, right, marks, last, k, a, b);
        }
      }
    }
  }

  lemma Standstill(left: Curve, right: Curve)
    requires Valid(left) && Valid(right)
    ensures 0.0 <= Capacity(left) && 0.0 <= Capacity(right) && Duration(left, 0.0, 0.0) == Duration(right, 0.0, 0.0)
  {
    EnergiesSorted(left, 0, |left| - 1);
    EnergiesSorted(right, 0, |right| - 1);
  }

  // ----- the check -----

  /** The check passes on every interval in the range of both curves. */
  ghost predicate Passes(left: Curve, right: Curve, marks: seq<real>)
    requires Valid(left) && Valid(right)
  {
    forall k | 1 <= k < |marks| && marks[k] <= Shared(left, right) :: Checked(left, right, marks, k)
  }

  /** `charging_curve_no_slower`: compares the durations between neighbouring breakpoints; nothing when it leaves
      the range of one curve before it finds a slower interval. */
  method ChargingCurveNoSlower(left: Curve, right: Curve) returns (r: Option<bool>)
    requires Valid(left) && Valid(right)
    ensures exists marks :: Breakpoints(left, right, marks)
    ensures forall marks | Breakpoints(left, right, marks) ::
      r == if !Passes(left, right, marks) then Some(false)
           else if Capacity(left) == Capacity(right) then Some(true)
           else None
  {
    hide Duration, Increasing;
    var sorted := SortUnique(Energies(left) + Energies(right));
    assert Breakpoints(left, right, sorted);
    ghost var last := MarksSpan(left, right, sorted);
    forall marks | Breakpoints(left, right, marks) ensures marks == sorted {
      SameMarks(marks, sorted);
    }
    for index := 1 to |sorted|
      invariant forall k | 1 <= k < index :: Checked(left, right, sorted, k)
      invariant index <= last + 1
    {
      var start, finish := sorted[index - 1], sorted[index];
      if finish > Capacity(left) || finish > Capacity(right) { return None; }
      if Duration(left, start, finish) > Duration(right, start, finish) {
        assert !Checked(left, right, sorted, index);
        return Some(false);
      }
    }
    r := Some(true);
  }

  /** The check never rejects a curve that is no slower. It is right to accept exactly when, interval by interval, the
      left pause is no longer and the left pace no slower: the sums of the two that it compares may hide one behind
      the other. */
  lemma CheckDecides(left: Curve, right: Curve, marks: seq<real>)
    requires Valid(left) && Valid(right) && Breakpoints(left, right, marks)
    ensures NoSlower(left, right) ==> Passes(left, right, marks)
    ensures Passes(left, right, marks) ==>
      (NoSlower(left, right)
       <==> forall k | 1 <= k < |marks| && marks[k] <= Shared(left, right) :: Steadier(left, right, marks, k))
  {
    hide Duration, Breakpoints, Steadier;
    NoSlowerExactly(left, right, marks);
    if NoSlower(left, right) {
      forall k | 1 <= k < |marks| && marks[k] <= Shared(left, right) ensures Checked(left, right, marks, k) {
        IntervalFacts(left, right, marks, k);
      }
    }
  }

  /** Curves that gain energy on every segment never pause, so the check decides them. */
  lemma StrictCurvesAreDecided(left: Curve, right: Curve, marks: seq<real>)
    requires Valid(left) && Valid(right) && EnergyStrict(left) && EnergyStrict(right) && Breakpoints(left, right, marks)
    ensures Passes(left, right, marks) <==> NoSlower(left, right)
  {
    hide Duration, Breakpoints, EnergyStrict, Pause, Pace, NoneInside;
    CheckDecides(left, right, marks);
    if Passes(left, right, marks) {
      forall k | 1 <= k < |marks| && marks[k] <= Shared(left, right) ensures Steadier(left, right, marks, k) {
        IntervalFacts(left, right, marks, k);
        var s, f := marks[k - 1], marks[k];
        assert Checked(left, right, marks, k);
        PauseThenPace(left, s, f, s, f);
        PauseThenPace(right, s, f, s, f);
        NoPause(left, s);
        NoPause(right, s);
        ScaleDown(Pace(left, s), Pace(right, s), f - s);
      }
    }
  }

  lemma NoPause(c: Curve, s: real)
    requires Valid(c) && EnergyStrict(c) && 0.0 <= s < Capacity(c)
    ensures Pause(c, s) == 0.0
  {
    hide OnSegment, TimeAt;
    NextRises(c, s);
    TimeOnSegment(c, NextFrom(c, s, 1), s);
  }

  /** An hour's pause at energy zero made up for on the way: the check accepts the curve, although it is slower over
      its first half. */
  lemma WaitingDefeatsTheCheck()
    ensures var left, right := [Point(0.0, 0.0), Point(1.0, 0.0), Point(2.0, 10.0)], [Point(0.0, 0.0), Point(2.0, 10.0)];
      && Valid(left) && Valid(right) && Capacity(left) == Capacity(right)
      && Breakpoints(left, right, [0.0, 10.0]) && Passes(left, right, [0.0, 10.0])
      && !NoSlower(left, right)
  {
    var left, right := [Point(0.0, 0.0), Point(1.0, 0.0), Point(2.0, 10.0)], [Point(0.0, 0.0), Point(2.0, 10.0)];
    assert Energies(left) == [0.0, 0.0, 10.0] && Energies(right) == [0.0, 10.0];
    assert SegmentFrom(left, 0.0, 1) == 1 && SegmentFrom(left, 10.0, 1) == 2 && SegmentFrom(left, 5.0, 1) == 2;
    assert SegmentFrom(right, 0.0, 1) == 1 && SegmentFrom(right, 10.0, 1) == 1 && SegmentFrom(right, 5.0, 1) == 1;
    assert Duration(left, 0.0, 5.0) > Duration(right, 0.0, 5.0);
  }
}
