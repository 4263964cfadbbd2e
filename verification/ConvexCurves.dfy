/** Why the two charging kernels need concave curves: where a curve speeds up, a customer between two stations and
    the end of the route changes where the greedy rule charges. */
module ConvexCurves {
  import opened Common
  import opened Curves
  import opened Network
  import opened Labels
  import opened Canonical
  import opened Charging
  import opened ChargingSplit
  import opened ChargingCollapse
  import opened Evaluation
  import opened RouteCosts
  import opened LowerBound

  // ----- where a curve speeds up -----

  ghost predicate SpeedsUp(c: Curve, k: nat)
    requires Strict(c)
  {
    1 <= k && k + 1 < |c| && SegmentRate(c, k) < SegmentRate(c, k + 1)
  }

  /** A curve is concave exactly when no segment is slower than the next one. */
  lemma {:induction false} ConcaveSteps(c: Curve)
    requires Strict(c)
    ensures Concave(c) <==> forall k :: !SpeedsUp(c, k)
  {
    hide SegmentRate;
    if forall k :: !SpeedsUp(c, k) {
      forall j, k | 1 <= j <= k < |c| ensures SegmentRate(c, k) <= SegmentRate(c, j) {
        RatesFall(c, j, k);
      }
    }
  }

  lemma {:induction false} RatesFall(c: Curve, j: nat, k: nat)
    requires Strict(c) && 1 <= j <= k < |c| && forall i :: !SpeedsUp(c, i)
    ensures SegmentRate(c, k) <= SegmentRate(c, j)
    decreases k - j
  {
    hide SegmentRate;
    if j < k {
      RatesFall(c, j, k - 1);
      assert !SpeedsUp(c, k - 1);
    }
  }

  lemma NextIs(c: Curve, k: nat, e: real)
    requires Strict(c) && 1 <= k < |c| && c[k - 1].energy <= e < c[k].energy
    ensures e < Capacity(c) && NextBreakpoint(c, e) == c[k].energy && Rate(c, e) == SegmentRate(c, k)
  {
    hide SegmentRate;
    EnergiesSorted(c, k, |c| - 1);
    var i := NextFrom(c, e, 1);
    if i < k { EnergiesSorted(c, i, k - 1); }
  }

  /** A place on a curve from which `amount` is charged below the rate `middle` and the next `amount` above it. */
  datatype Bend = Bend(curve: Curve, cap: real, start: real, amount: real, middle: real)

  ghost predicate Bends(b: Bend) {
    && Strict(b.curve) && Capacity(b.curve) == b.cap
    && 0.0 < b.amount && 2.0 * b.amount < b.start && b.start + 2.0 * b.amount < b.cap
    && 0.0 < Rate(b.curve, b.start) < b.middle < Rate(b.curve, b.start + b.amount)
    && b.start + 2.0 * b.amount <= NextBreakpoint(b.curve, b.start + b.amount)
  }

  ghost function BendAt(c: Curve, k: nat): Bend
    requires Strict(c) && SpeedsUp(c, k)
  {
    var amount := Min(c[k].energy - c[k - 1].energy, c[k + 1].energy - c[k].energy) / 4.0;
    Bend(c, Capacity(c), c[k].energy - amount / 2.0, amount, (SegmentRate(c, k) + SegmentRate(c, k + 1)) / 2.0)
  }

  lemma BendFacts(c: Curve, k: nat)
    requires Strict(c) && SpeedsUp(c, k)
    ensures Bends(BendAt(c, k)) && BendAt(c, k).curve == c
  {
    hide SegmentRate, NextBreakpoint, Rate;
    var b := BendAt(c, k);
    EnergiesSorted(c, 0, k - 1);
    EnergiesSorted(c, k + 1, |c| - 1);
    SegmentRatePositive(c, k);
    NextIs(c, k, b.start);
    NextIs(c, k + 1, b.start + b.amount);
  }

  // ----- a straight curve -----

  /** Energy and time in proportion. */
  function Straight(cap: real, rate: real): Curve
    requires 0.0 < rate
  {
    [Point(0.0, 0.0), Point(TimeFor(cap, rate), cap)]
  }

  lemma StraightFacts(cap: real, rate: real, e: real)
    requires 0.0 < cap && 0.0 < rate && 0.0 <= e < cap
    ensures Strict(Straight(cap, rate)) && Capacity(Straight(cap, rate)) == cap
    ensures Rate(Straight(cap, rate), e) == rate && NextBreakpoint(Straight(cap, rate), e) == cap
  {
    hide TimeFor;
    TimeForPositive(cap, rate);
    NextIs(Straight(cap, rate), 1, e);
  }

  lemma TimeForPositive(energy: real, rate: real)
    requires 0.0 < energy && 0.0 < rate
    ensures 0.0 < TimeFor(energy, rate) && energy / TimeFor(energy, rate) == rate
  {
    assert TimeFor(energy, rate) * rate == energy;
  }

  /** Slower is longer, and what time was spent buys back. */
  lemma TimesCompare(energy: real, slow: real, fast: real)
    requires 0.0 < energy && 0.0 < slow < fast
    ensures 0.0 < TimeFor(energy, fast) < TimeFor(energy, slow)
    ensures TimeFor(2.0 * energy, slow) == 2.0 * TimeFor(energy, slow)
  {
    var t := TimeFor(energy, slow);
    assert t * slow == energy;
    assert TimeFor(energy, fast) * fast == energy;
    assert t * fast > energy;
  }

  lemma EnoughTime(energy: real, rate: real, shift: real)
    requires 0.0 < rate && TimeFor(energy, rate) <= shift
    ensures energy <= Bought(shift, rate)
  {
    assert TimeFor(energy, rate) * rate == energy;
    assert (shift - TimeFor(energy, rate)) * rate >= 0.0;
  }

  // ----- two stations on the way -----

  /** A straight station and one at the bend, at the same place, after `x` was bought at the first and `y` in all;
      nothing before them and behind them charges. */
  function Passed(b: Bend, front: seq<Soc>, x: real, y: real, tail: seq<Soc>): seq<Soc>
    requires 0.0 < b.middle
  {
    front + [Soc(b.start, b.start + x, Some(Straight(b.cap, b.middle))), Soc(b.start + x, b.start + y, Some(b.curve))] + tail
  }

  ghost predicate Quiet(ps: seq<Soc>, top: real) {
    forall i | 0 <= i < |ps| :: ps[i].charger.None? && 0.0 <= ps[i].departure <= top
  }

  ghost predicate Around(b: Bend, front: seq<Soc>, x: real, y: real, tail: seq<Soc>) {
    && Bends(b) && Quiet(front, b.cap) && Quiet(tail, b.start + y) && 0.0 <= x <= y <= 2.0 * b.amount
  }

  lemma PassedWalked(b: Bend, front: seq<Soc>, x: real, y: real, tail: seq<Soc>)
    requires Around(b, front, x, y, tail)
    ensures Walked(b.cap, Passed(b, front, x, y, tail)) && AllFit(b.cap, Passed(b, front, x, y, tail))
  {
    hide Rate, NextBreakpoint, Straight;
    StraightFacts(b.cap, b.middle, 0.0);
  }

  lemma {:induction false} PassedSlack(b: Bend, front: seq<Soc>, x: real, y: real, tail: seq<Soc>, i: nat)
    requires Around(b, front, x, y, tail) && |front| <= i <= |front| + 1
    ensures Slack(b.cap, Passed(b, front, x, y, tail), i) == b.cap - (b.start + y)
  {
    hide Rate, NextBreakpoint, Straight, Slack;
    var ps := Passed(b, front, x, y, tail);
    SlackIsLeast(b.cap, ps, i);
    assert ps[|front|].departure == b.start + x && ps[|front| + 1].departure == b.start + y;
    forall j | i <= j < |ps| ensures ps[j].departure <= b.start + y {
      if j >= |front| + 2 { assert ps[j] == tail[j - |front| - 2]; }
    }
  }

  /** Only the two stations can sell. */
  lemma QuietSellsNothing(b: Bend, front: seq<Soc>, x: real, y: real, tail: seq<Soc>, shift: real, j: nat)
    requires Around(b, front, x, y, tail) && Walked(b.cap, Passed(b, front, x, y, tail))
    requires j < |front| + 2 + |tail| && j != |front| && j != |front| + 1
    ensures Available(b.cap, Passed(b, front, x, y, tail), shift, j) == 0.0
  {
    hide Slack, NextBreakpoint, Bought, Rate;
    var ps := Passed(b, front, x, y, tail);
    if j < |front| { assert ps[j] == front[j]; } else { assert ps[j] == tail[j - |front| - 2]; }
  }

  /** At the bend's start the straight station is the faster one, for all that is wanted. */
  lemma {:induction false} StraightIsBest(b: Bend, front: seq<Soc>, tail: seq<Soc>, shift: real)
    requires Around(b, front, 0.0, 0.0, tail) && TimeFor(2.0 * b.amount, b.middle) <= shift
    ensures var ps := Passed(b, front, 0.0, 0.0, tail);
      && Walked(b.cap, ps) && IsBest(b.cap, ps, shift, |front|)
      && Available(b.cap, ps, shift, |front|) >= 2.0 * b.amount && RateOf(b.cap, ps[|front|]) == b.middle
  {
    hide Slack, NextBreakpoint, Bought, Rate, TimeFor, Straight;
    var ps := Passed(b, front, 0.0, 0.0, tail);
    PassedWalked(b, front, 0.0, 0.0, tail);
    PassedSlack(b, front, 0.0, 0.0, tail, |front|);
    StraightFacts(b.cap, b.middle, b.start);
    EnoughTime(2.0 * b.amount, b.middle, shift);
    assert ps[|front|] == Soc(b.start, b.start, Some(Straight(b.cap, b.middle)));
    assert ps[|front| + 1] == Soc(b.start, b.start, Some(b.curve));
    forall j | 0 <= j < |ps| && j != |front| && j != |front| + 1 ensures Available(b.cap, ps, shift, j) == 0.0 {
      QuietSellsNothing(b, front, 0.0, 0.0, tail, shift, j);
    }
  }

  /** Beyond the bend the curve is. */
  lemma {:induction false} CurveIsBest(b: Bend, front: seq<Soc>, tail: seq<Soc>, shift: real)
    requires Around(b, front, b.amount, b.amount, tail) && TimeFor(b.amount, Rate(b.curve, b.start + b.amount)) <= shift
    ensures var ps := Passed(b, front, b.amount, b.amount, tail);
      && Walked(b.cap, ps) && IsBest(b.cap, ps, shift, |front| + 1)
      && Available(b.cap, ps, shift, |front| + 1) >= b.amount
  {
    hide Slack, NextBreakpoint, Bought, Rate, TimeFor, Straight;
    var ps := Passed(b, front, b.amount, b.amount, tail);
    PassedWalked(b, front, b.amount, b.amount, tail);
    PassedSlack(b, front, b.amount, b.amount, tail, |front| + 1);
    StraightFacts(b.cap, b.middle, b.start + b.amount);
    EnoughTime(b.amount, Rate(b.curve, b.start + b.amount), shift);
    assert ps[|front|] == Soc(b.start, b.start + b.amount, Some(Straight(b.cap, b.middle)));
    assert ps[|front| + 1] == Soc(b.start + b.amount, b.start + b.amount, Some(b.curve));
    forall j | 0 <= j < |ps| && j != |front| && j != |front| + 1 ensures Available(b.cap, ps, shift, j) == 0.0 {
      QuietSellsNothing(b, front, b.amount, b.amount, tail, shift, j);
    }
  }

  function Raised(ps: seq<Soc>, x: real): (r: seq<Soc>)
    ensures |r| == |ps| && forall i | 0 <= i < |ps| :: r[i] == Soc(ps[i].arrival + x, ps[i].departure + x, ps[i].charger)
  {
    seq(|ps|, i requires 0 <= i < |ps| => Soc(ps[i].arrival + x, ps[i].departure + x, ps[i].charger))
  }

  lemma PassedCharge(b: Bend, front: seq<Soc>, x: real, y: real, tail: seq<Soc>, v: real)
    requires 0.0 < b.middle
    ensures Charge(Passed(b, front, x, y, tail), |front|, v) == Passed(b, front, x + v, y + v, Raised(tail, v))
    ensures Charge(Passed(b, front, x, y, tail), |front| + 1, v) == Passed(b, front, x, y + v, Raised(tail, v))
  {
    hide Straight;
    var a, c := Charge(Passed(b, front, x, y, tail), |front|, v), Charge(Passed(b, front, x, y, tail), |front| + 1, v);
    assert b.start + x + v == b.start + (x + v) && b.start + y + v == b.start + (y + v);
    forall j | 0 <= j < |a| ensures a[j] == Passed(b, front, x + v, y + v, Raised(tail, v))[j] {}
    forall j | 0 <= j < |c| ensures c[j] == Passed(b, front, x, y + v, Raised(tail, v))[j] {}
  }

  lemma {:induction false} BuyStraight(b: Bend, front: seq<Soc>, tail: seq<Soc>, shift: real, need: real)
    requires Around(b, front, 0.0, 0.0, tail) && TimeFor(2.0 * b.amount, b.middle) <= shift && 0.0 <= shift
    requires 0.0 < need <= 2.0 * b.amount
    ensures Walked(b.cap, Passed(b, front, 0.0, 0.0, tail))
    ensures Fill(b.cap, Passed(b, front, 0.0, 0.0, tail), shift, need)
      == State(Passed(b, front, need, need, Raised(tail, need)), shift - TimeFor(need, b.middle), 0.0)
  {
    hide Available, RateOf, Spent, Walked, Fill, TimeFor, Passed, Around, Raised;
    BendPositive(b, front, 0.0, 0.0, tail);
    var ps := Passed(b, front, 0.0, 0.0, tail);
    StraightIsBest(b, front, tail, shift);
    FillStep(b.cap, ps, shift, need, |front|);
    SaleDuration(b.cap, ps, shift, |front|, need);
    PassedCharge(b, front, 0.0, 0.0, tail, need);
  }

  lemma BendPositive(b: Bend, front: seq<Soc>, x: real, y: real, tail: seq<Soc>)
    requires Around(b, front, x, y, tail)
    ensures 0.0 < b.amount && 0.0 < b.middle
  {
  }

  lemma {:induction false} BuyCurve(b: Bend, front: seq<Soc>, tail: seq<Soc>, shift: real)
    requires Around(b, front, b.amount, b.amount, tail)
    requires TimeFor(b.amount, Rate(b.curve, b.start + b.amount)) <= shift && 0.0 <= shift
    ensures Walked(b.cap, Passed(b, front, b.amount, b.amount, tail))
    ensures var f := Fill(b.cap, Passed(b, front, b.amount, b.amount, tail), shift, b.amount);
      f.walked == Passed(b, front, b.amount, 2.0 * b.amount, Raised(tail, b.amount))
  {
    hide Available, RateOf, Spent, Walked, Fill, TimeFor, Passed, Around, Raised;
    BendPositive(b, front, b.amount, b.amount, tail);
    var ps := Passed(b, front, b.amount, b.amount, tail);
    CurveIsBest(b, front, tail, shift);
    FillStep(b.cap, ps, shift, b.amount, |front| + 1);
    PassedCharge(b, front, b.amount, b.amount, tail, b.amount);
  }

  // ----- charging time -----

  lemma {:induction false} QuietTime(cap: real, ps: seq<Soc>, qs: seq<Soc>)
    requires 0.0 <= cap && AllFit(cap, ps) && forall i | 0 <= i < |qs| :: qs[i].charger.None?
    ensures AllFit(cap, ps + qs) && ChargingTime(cap, ps + qs) == ChargingTime(cap, ps)
    decreases |qs|
  {
    if qs == [] {
      assert ps + qs == ps;
    } else {
      var n := |qs| - 1;
      QuietTime(cap, ps, qs[..n]);
      assert (ps + qs)[..|ps| + n] == ps + qs[..n];
    }
  }

  lemma {:induction false} TimeNext(cap: real, ps: seq<Soc>, p: Soc)
    requires 0.0 <= cap && AllFit(cap, ps) && Charging.Fits(cap, p.charger)
    ensures AllFit(cap, ps + [p]) && ChargingTime(cap, ps + [p]) == ChargingTime(cap, ps) + ChargingTimeAt(cap, p)
  {
    assert (ps + [p])[..|ps|] == ps;
  }

  lemma {:induction false} PassedTime(b: Bend, front: seq<Soc>, x: real, y: real, tail: seq<Soc>)
    requires Around(b, front, x, y, []) && forall i | 0 <= i < |tail| :: tail[i].charger.None?
    ensures AllFit(b.cap, Passed(b, front, x, y, tail))
    ensures var time := ChargingTime(b.cap, Passed(b, front, x, y, tail));
      && (x == y ==> time == TimeFor(x, b.middle))
      && (x == b.amount && y == 2.0 * b.amount ==>
            time == TimeFor(b.amount, b.middle) + TimeFor(b.amount, Rate(b.curve, b.start + b.amount)))
  {
    hide ChargingTimeAt, ChargingTime, Duration, Straight, Rate, NextBreakpoint, TimeFor;
    var straight := Straight(b.cap, b.middle);
    var first, second := Soc(b.start, b.start + x, Some(straight)), Soc(b.start + x, b.start + y, Some(b.curve));
    StraightFacts(b.cap, b.middle, b.start);
    NothingTime(b.cap);
    assert [] + front == front;
    QuietTime(b.cap, [], front);
    TimeNext(b.cap, front, first);
    TimeNext(b.cap, front + [first], second);
    assert front + [first] + [second] + tail == Passed(b, front, x, y, tail);
    QuietTime(b.cap, front + [first] + [second], tail);
    StationTime(b.cap, straight, b.start, x, b.middle);
    if x == y {
      StationRests(b.cap, b.curve, b.start + x);
    } else if x == b.amount && y == 2.0 * b.amount {
      assert b.start + y == (b.start + b.amount) + b.amount;
      StationTime(b.cap, b.curve, b.start + b.amount, b.amount, Rate(b.curve, b.start + b.amount));
    }
  }

  lemma {:induction false} NothingTime(cap: real)
    requires 0.0 <= cap
    ensures AllFit(cap, []) && ChargingTime(cap, []) == 0.0
  {
  }

  lemma StationTime(cap: real, c: Curve, e: real, x: real, rate: real)
    requires Strict(c) && Capacity(c) == cap && 0.0 <= e < cap && 0.0 <= x <= NextBreakpoint(c, e) - e && rate == Rate(c, e)
    ensures 0.0 < rate && ChargingTimeAt(cap, Soc(e, e + x, Some(c))) == TimeFor(x, rate)
  {
    hide Duration, Rate, NextBreakpoint;
    SegmentDuration(c, e, x);
  }

  lemma StationRests(cap: real, c: Curve, e: real)
    requires Strict(c) && Capacity(c) == cap && 0.0 <= e <= cap
    ensures ChargingTimeAt(cap, Soc(e, e, Some(c))) == 0.0
  {
  }

  // ----- an instance on a line -----

  /** Depot 0 and stations 1 and 2 at one place, customers 3, 4 and 5 down the line. */
  function Mark(b: Bend, id: int): real {
    if id == 3 then (b.cap - b.start) / 2.0 else if id == 4 then b.start / 2.0 + b.amount
    else if id == 5 then b.amount else 0.0
  }

  function Apart(x: real, y: real): real {
    if x < y then y - x else x - y
  }

  function LineKind(id: int): Kind {
    if id == 0 then Depot else if id == 1 || id == 2 then Station else Customer
  }

  /** Unit speed and consumption, and an hour more than the route needs. */
  function OnLine(b: Bend): Instance
    requires 0.0 < b.middle
  {
    Instance(id => LineKind(id), id => 0.0, id => if id == 1 then Straight(b.cap, b.middle) else b.curve,
             (x, y) => Apart(Mark(b, x), Mark(b, y)), 0, [1, 2], 1.0, 1.0, b.cap,
             b.cap + 2.0 * b.amount + TimeFor(2.0 * b.amount, b.middle) + 1.0)
  }

  /** Out to a customer, back to both stations, out to two customers and home. */
  const TRIP: seq<int> := [3, 1, 2, 4, 5]

  lemma OnLineRegular(b: Bend)
    requires Bends(b)
    ensures Regular(OnLine(b))
  {
    hide Straight, Rate, NextBreakpoint, Mark, Strict;
    StraightFacts(b.cap, b.middle, 0.0);
    TimeForPositive(2.0 * b.amount, b.middle);
    var net := OnLine(b);
    assert Metric(net) by { LineMetric(b); }
    assert Network.Positive(net);
  }

  lemma LineMetric(b: Bend)
    requires 0.0 < b.middle
    ensures Metric(OnLine(b))
  {
    hide Mark;
  }

  // ----- the two walks -----

  function Halfway(b: Bend): real {
    (b.cap - b.start) / 2.0
  }

  /** Every node of the trip as a stop. */
  function TripStops(b: Bend): seq<Stop>
    requires 0.0 < b.middle
  {
    [Stop(Halfway(b), None), Stop(Halfway(b), Some(Straight(b.cap, b.middle))), Stop(0.0, Some(b.curve)),
     Stop(b.start / 2.0 + b.amount, None), Stop(b.start / 2.0, None), Stop(b.amount, None)]
  }

  /** The customers folded into the stop behind them. */
  function FoldedStops(b: Bend): seq<Stop>
    requires 0.0 < b.middle
  {
    [Stop(b.cap - b.start, Some(Straight(b.cap, b.middle))), Stop(0.0, Some(b.curve)), Stop(b.start + 2.0 * b.amount, None)]
  }

  lemma {:induction false} TripFolds(b: Bend)
    requires 0.0 < b.middle
    ensures Collapse(TripStops(b)) == FoldedStops(b)
  {
    hide Straight;
    var s := TripStops(b);
    var home := Stop(b.start / 2.0 + b.amount, None);
    assert s[2..] == [s[2], s[3], s[4], s[5]] && [s[2], s[3], s[4], s[5]][1..] == [s[3], s[4], s[5]];
    assert Collapse(s) == Collapse([Merged(s[0], s[1])] + s[2..]);
    var one := [Merged(s[0], s[1])] + s[2..];
    assert one[1..] == [s[2], s[3], s[4], s[5]];
    assert Collapse(one) == [one[0]] + Collapse([s[2], s[3], s[4], s[5]]);
    assert Collapse([s[2], s[3], s[4], s[5]]) == [s[2]] + Collapse([s[3], s[4], s[5]]);
    FoldTwo(s[3], s[4], [s[5]]);
    FoldTwo(Merged(s[3], s[4]), s[5], []);
    assert Merged(Merged(s[3], s[4]), s[5]) == Stop(b.start + 2.0 * b.amount, None);
  }

  lemma {:induction false} FoldTwo(a: Stop, b: Stop, rest: seq<Stop>)
    requires a.charger.None?
    ensures Collapse([a, b] + rest) == Collapse([Merged(a, b)] + rest)
  {
    assert ([a, b] + rest)[2..] == rest;
  }

  lemma StopsSound(b: Bend)
    requires Bends(b)
    ensures AllSound(b.cap, TripStops(b)) && AllSound(b.cap, FoldedStops(b))
  {
    hide Straight, Rate, NextBreakpoint;
    StraightFacts(b.cap, b.middle, 0.0);
  }

  lemma {:induction false} RunOne(cap: real, st: State, stops: seq<Stop>)
    requires Ready(cap, st) && AllSound(cap, stops) && stops != []
    ensures Sound(cap, stops[0]) && AllSound(cap, stops[1..])
    ensures Run(cap, st, stops) == Run(cap, Reach(cap, st, stops[0]), stops[1..])
  {
    assert Sound(cap, stops[0]);
    assert forall i | 0 <= i < |stops[1..]| :: stops[1..][i] == stops[i + 1];
  }

  /** Enough energy on board: the stop is reached without charging. */
  lemma {:induction false} DriveOn(cap: real, st: State, stops: seq<Stop>)
    requires Ready(cap, st) && AllSound(cap, stops) && stops != [] && stops[0].energy <= Last(st.walked).departure
    ensures AllSound(cap, stops[1..])
    ensures var left := Last(st.walked).departure - stops[0].energy;
      var next := State(st.walked + [Soc(left, left, stops[0].charger)], st.shift, st.shortfall);
      Ready(cap, next) && Run(cap, st, stops) == Run(cap, next, stops[1..])
  {
    hide Reach, Run, Fill;
    RunOne(cap, st, stops);
    ReachIs(cap, st, stops[0]);
  }

  /** Too little: what is missing is bought first. */
  lemma {:induction false} BuyFirst(cap: real, st: State, stops: seq<Stop>, need: real)
    requires Ready(cap, st) && AllSound(cap, stops) && stops != []
    requires need == stops[0].energy - Last(st.walked).departure && 0.0 < need
    ensures AllSound(cap, stops[1..])
    ensures var f := Fill(cap, st.walked, st.shift, need);
      var next := State(f.walked + [Soc(0.0, 0.0, stops[0].charger)], f.shift, st.shortfall + f.shortfall);
      Ready(cap, next) && Run(cap, st, stops) == Run(cap, next, stops[1..])
  {
    hide Reach, Run, Fill;
    RunOne(cap, st, stops);
    ReachIs(cap, st, stops[0]);
  }

  /** At the last stop the walk is over. */
  lemma {:induction false} BuyLast(cap: real, st: State, stop: Stop, need: real)
    requires Ready(cap, st) && AllSound(cap, [stop])
    requires need == stop.energy - Last(st.walked).departure && 0.0 < need
    ensures Run(cap, st, [stop]).walked == Fill(cap, st.walked, st.shift, need).walked + [Soc(0.0, 0.0, stop.charger)]
  {
    hide Run, Fill;
    BuyFirst(cap, st, [stop], need);
    var f := Fill(cap, st.walked, st.shift, need);
    assert [stop][1..] == [];
    RunNothing(cap, State(f.walked + [Soc(0.0, 0.0, stop.charger)], f.shift, st.shortfall + f.shortfall));
  }

  function Leaving(b: Bend): seq<Soc> {
    [Soc(0.0, b.cap, None)]
  }

  function Outward(b: Bend): seq<Soc> {
    [Soc(0.0, b.cap, None), Soc(b.cap - Halfway(b), b.cap - Halfway(b), None)]
  }

  /** Node by node the vehicle passes both stations at the bend's start. */
  lemma {:induction false} TripToStations(b: Bend, shift: real)
    requires Bends(b) && 0.0 <= shift
    ensures AllSound(b.cap, TripStops(b)) && AllSound(b.cap, TripStops(b)[3..])
    ensures var st := State(Passed(b, Outward(b), 0.0, 0.0, []), shift, 0.0);
      Ready(b.cap, st) && Run(b.cap, Departing(b.cap, shift), TripStops(b)) == Run(b.cap, st, TripStops(b)[3..])
  {
    hide Run, Straight, Rate, NextBreakpoint, Fill;
    StopsSound(b);
    var s := TripStops(b);
    assert s[1..][1..] == s[2..] && s[2..][1..] == s[3..];
    DriveOn(b.cap, Departing(b.cap, shift), s);
    var one := State(Outward(b), shift, 0.0);
    assert Departing(b.cap, shift).walked + [Soc(b.cap - Halfway(b), b.cap - Halfway(b), None)] == Outward(b);
    DriveOn(b.cap, one, s[1..]);
    var two := State(Outward(b) + [Soc(b.start, b.start, Some(Straight(b.cap, b.middle)))], shift, 0.0);
    DriveOn(b.cap, two, s[2..]);
    assert two.walked + [Soc(b.start, b.start, Some(b.curve))] == Passed(b, Outward(b), 0.0, 0.0, []);
  }

  /** With the customers folded it does so as well. */
  lemma {:induction false} FoldedToStations(b: Bend, shift: real)
    requires Bends(b) && 0.0 <= shift
    ensures AllSound(b.cap, FoldedStops(b)) && AllSound(b.cap, FoldedStops(b)[2..])
    ensures var st := State(Passed(b, Leaving(b), 0.0, 0.0, []), shift, 0.0);
      Ready(b.cap, st) && Run(b.cap, Departing(b.cap, shift), FoldedStops(b)) == Run(b.cap, st, FoldedStops(b)[2..])
  {
    hide Run, Straight, Rate, NextBreakpoint, Fill;
    StopsSound(b);
    var s := FoldedStops(b);
    assert s[1..][1..] == s[2..];
    DriveOn(b.cap, Departing(b.cap, shift), s);
    var one := State(Leaving(b) + [Soc(b.start, b.start, Some(Straight(b.cap, b.middle)))], shift, 0.0);
    DriveOn(b.cap, one, s[1..]);
    assert one.walked + [Soc(b.start, b.start, Some(b.curve))] == Passed(b, Leaving(b), 0.0, 0.0, []);
  }

  /** Behind the first customer of the way home `x` was bought, all at the straight station. */
  function Homeward(b: Bend, shift: real, x: real, tail: seq<Soc>): State
    requires 0.0 < b.middle
  {
    var left := b.start / 2.0 - b.amount + x;
    State(Passed(b, Outward(b), x, x, [Soc(left, left, None)] + tail), shift, 0.0)
  }

  lemma BendNumbers(b: Bend)
    requires Bends(b)
    ensures Strict(b.curve) && 0.0 < b.amount && 0.0 < b.middle < Rate(b.curve, b.start + b.amount)
    ensures b.amount < b.start / 2.0 && b.start + 2.0 * b.amount < b.cap && 0.0 < b.start
  {
    hide Rate, NextBreakpoint;
  }

  lemma {:induction false} TripToCustomer(b: Bend, shift: real)
    requires Bends(b) && 0.0 <= shift
    ensures AllSound(b.cap, TripStops(b)) && AllSound(b.cap, TripStops(b)[4..])
    ensures Ready(b.cap, Homeward(b, shift, 0.0, []))
    ensures Run(b.cap, Departing(b.cap, shift), TripStops(b)) == Run(b.cap, Homeward(b, shift, 0.0, []), TripStops(b)[4..])
  {
    hide Run, Straight, Rate, NextBreakpoint, Fill, Passed, Bends, Outward;
    BendNumbers(b);
    TripToStations(b, shift);
    var s, left := TripStops(b), b.start / 2.0 - b.amount;
    assert s[3..][1..] == s[4..];
    PassedLast(b, Outward(b), 0.0, 0.0);
    DriveOn(b.cap, State(Passed(b, Outward(b), 0.0, 0.0, []), shift, 0.0), s[3..]);
    PassedTail(b, Outward(b), 0.0, 0.0, [], [Soc(left, left, None)]);
    assert b.start + 0.0 - (b.start / 2.0 + b.amount) == left;
    assert [Soc(left, left, None)] + [] == [Soc(left, left, None)];
  }

  lemma TripTail(b: Bend)
    requires 0.0 < b.middle
    ensures |TripStops(b)| == 6
    ensures TripStops(b)[4..][0] == Stop(b.start / 2.0, None) && TripStops(b)[4..][1..] == TripStops(b)[5..]
  {
  }

  lemma {:induction false} TripBuys(b: Bend, shift: real)
    requires Bends(b) && TimeFor(2.0 * b.amount, b.middle) <= shift && 0.0 <= shift
    ensures AllSound(b.cap, TripStops(b)) && AllSound(b.cap, TripStops(b)[5..])
    ensures var st := Homeward(b, shift - TimeFor(b.amount, b.middle), b.amount, [Soc(0.0, 0.0, None)]);
      Ready(b.cap, st) && Run(b.cap, Departing(b.cap, shift), TripStops(b)) == Run(b.cap, st, TripStops(b)[5..])
  {
    hide Run, Straight, Rate, NextBreakpoint, Fill, TimeFor, Passed, Bends, Outward, TripStops, Sound, Around;
    BendNumbers(b);
    TripToCustomer(b, shift);
    TripTail(b);
    var s, left := TripStops(b), b.start / 2.0 - b.amount;
    var t0, t1, t2 := [Soc(left, left, None)], [Soc(left + b.amount, left + b.amount, None)], [Soc(0.0, 0.0, None)];
    assert t0 + [] == t0 && [] + t0 == t0;
    PassedTailLast(b, Outward(b), 0.0, 0.0, [], t0[0]);
    AroundTrip(b, 0.0, t0);
    BuyStraight(b, Outward(b), t0, shift, b.amount);
    BuyFirst(b.cap, Homeward(b, shift, 0.0, []), s[4..], b.amount);
    assert Raised(t0, b.amount) == t1;
    PassedTail(b, Outward(b), b.amount, b.amount, t1, t2);
  }

  lemma AroundTrip(b: Bend, x: real, tail: seq<Soc>)
    requires Bends(b) && 0.0 <= x <= 2.0 * b.amount && Quiet(tail, b.start + x)
    ensures Around(b, Outward(b), x, x, tail)
  {
    hide Rate, NextBreakpoint;
  }

  /** Node by node: half of the energy at the straight station, half beyond the bend. */
  lemma {:induction false} TripEnds(b: Bend, shift: real) returns (tail: seq<Soc>)
    requires Bends(b) && TimeFor(2.0 * b.amount, b.middle) <= shift && 0.0 <= shift
    ensures AllSound(b.cap, TripStops(b)) && forall i | 0 <= i < |tail| :: tail[i].charger.None?
    ensures Run(b.cap, Departing(b.cap, shift), TripStops(b)).walked == Passed(b, Outward(b), b.amount, 2.0 * b.amount, tail)
  {
    hide Run, Straight, Rate, NextBreakpoint, Fill, TimeFor, Passed, Bends, Outward;
    BendNumbers(b);
    TripBuys(b, shift);
    TimesCompare(b.amount, b.middle, Rate(b.curve, b.start + b.amount));
    var s, half := TripStops(b), b.start / 2.0;
    var t1, t2 := [Soc(half, half, None)], [Soc(0.0, 0.0, None)];
    var st := Homeward(b, shift - TimeFor(b.amount, b.middle), b.amount, t2);
    assert s[5..] == [s[5]];
    PassedTailLast(b, Outward(b), b.amount, b.amount, t1, t2[0]);
    AroundTrip(b, b.amount, t1 + t2);
    BuyCurve(b, Outward(b), t1 + t2, st.shift);
    BuyLast(b.cap, st, s[5], b.amount);
    tail := Raised(t1 + t2, b.amount) + t2;
    PassedTail(b, Outward(b), b.amount, 2.0 * b.amount, Raised(t1 + t2, b.amount), t2);
  }

  lemma PassedLast(b: Bend, front: seq<Soc>, x: real, y: real)
    requires 0.0 < b.middle
    ensures Passed(b, front, x, y, []) != [] && Last(Passed(b, front, x, y, [])).departure == b.start + y
  {
  }

  lemma PassedTail(b: Bend, front: seq<Soc>, x: real, y: real, tail: seq<Soc>, more: seq<Soc>)
    requires 0.0 < b.middle
    ensures Passed(b, front, x, y, tail) + more == Passed(b, front, x, y, tail + more)
    ensures [] + more == more
  {
    hide Straight;
  }

  lemma PassedTailLast(b: Bend, front: seq<Soc>, x: real, y: real, tail: seq<Soc>, p: Soc)
    requires 0.0 < b.middle
    ensures Passed(b, front, x, y, tail + [p]) != [] && Last(Passed(b, front, x, y, tail + [p])) == p
  {
  }

  /** With the customers folded: all of it at the straight station. */
  lemma {:induction false} FoldedEnds(b: Bend, shift: real)
    requires Bends(b) && TimeFor(2.0 * b.amount, b.middle) <= shift && 0.0 <= shift
    ensures AllSound(b.cap, FoldedStops(b))
    ensures Run(b.cap, Departing(b.cap, shift), FoldedStops(b)).walked
      == Passed(b, Leaving(b), 2.0 * b.amount, 2.0 * b.amount, [Soc(0.0, 0.0, None)])
  {
    hide Run, Straight, Rate, NextBreakpoint, Fill, TimeFor, Passed;
    BendNumbers(b);
    FoldedToStations(b, shift);
    var s := FoldedStops(b);
    assert s[2..] == [s[2]];
    var one := State(Passed(b, Leaving(b), 0.0, 0.0, []), shift, 0.0);
    PassedLast(b, Leaving(b), 0.0, 0.0);
    BuyStraight(b, Leaving(b), [], shift, 2.0 * b.amount);
    BuyLast(b.cap, one, s[2], 2.0 * b.amount);
    assert Raised([], 2.0 * b.amount) == [];
    PassedTail(b, Leaving(b), 2.0 * b.amount, 2.0 * b.amount, [], [Soc(0.0, 0.0, None)]);
  }

  // ----- the two costs -----

  /** Without repeated neighbours nothing is dropped. */
  lemma {:induction false} CanonKeeps(net: Instance, visits: seq<int>)
    requires 0.0 < net.speed && forall i | 1 <= i < |visits| :: visits[i - 1] != visits[i]
    ensures CanonVisits(net, visits) == visits
  {
    if |visits| > 1 {
      var n := |visits| - 1;
      CanonKeeps(net, visits[..n]);
      assert visits[..n] + [visits[n]] == visits;
    }
  }

  lemma LineEnergies(b: Bend)
    requires Bends(b)
    ensures var net := OnLine(b);
      && Energy(net, 0, 3) == Energy(net, 3, 1) == Halfway(b) && Energy(net, 1, 2) == 0.0
      && Energy(net, 2, 4) == b.start / 2.0 + b.amount && Energy(net, 4, 5) == b.start / 2.0 && Energy(net, 5, 0) == b.amount
      && forall x, y :: Travel(net, x, y) == Energy(net, x, y)
  {
    hide Rate, NextBreakpoint, Straight;
  }

  lemma LineChargers(b: Bend)
    requires 0.0 < b.middle
    ensures var net := OnLine(b);
      && Charger(net, 0) == Charger(net, 3) == Charger(net, 4) == Charger(net, 5) == None
      && Charger(net, 1) == Some(Straight(b.cap, b.middle)) && Charger(net, 2) == Some(b.curve)
  {
  }

  lemma TripNodes(b: Bend)
    requires 0.0 < b.middle
    ensures Nodes(OnLine(b), TRIP) == [0, 3, 1, 2, 4, 5, 0]
  {
    hide Straight;
    assert OnLine(b).depot == 0;
    assert [0] + TRIP + [0] == [0, 3, 1, 2, 4, 5, 0];
  }

  lemma {:induction false} TripIs(b: Bend)
    requires Bends(b)
    ensures NodeStops(OnLine(b), Nodes(OnLine(b), TRIP)) == TripStops(b) && CanonVisits(OnLine(b), TRIP) == TRIP
  {
    hide Energy, Charger, Straight, Bends, Nodes, OnLine;
    BendNumbers(b);
    LineEnergies(b);
    LineChargers(b);
    TripNodes(b);
    LineSpeed(b);
    var net, nodes := OnLine(b), [0, 3, 1, 2, 4, 5, 0];
    CanonKeeps(net, TRIP);
    var s := NodeStops(net, nodes);
    assert s == [s[0], s[1], s[2], s[3], s[4], s[5]];
  }

  lemma LineSpeed(b: Bend)
    requires 0.0 < b.middle
    ensures OnLine(b).speed == 1.0 && OnLine(b).capacity == b.cap && forall id :: OnLine(b).serviceTime(id) == 0.0
  {
  }

  lemma {:induction false} TripTotals(b: Bend)
    requires Bends(b)
    ensures 0.0 < OnLine(b).speed
    ensures var route := RouteLabel(OnLine(b), TRIP);
      route.Label? && route.travel == b.cap + 2.0 * b.amount && route.service == 0.0
  {
    hide Energy, Straight, Bends, Travel, Service, Stretch, OnLine, Nodes, TRIP;
    BendNumbers(b);
    LineEnergies(b);
    LineSpeed(b);
    TripNodes(b);
    var net := OnLine(b);
    StretchTotals(net, Nodes(net, TRIP));
    FreeService(net, Nodes(net, TRIP));
    SixHops(net, 0, 3, 1, 2, 4, 5, 0);
  }

  lemma {:induction false} SixHops(net: Instance, a: int, b: int, c: int, d: int, e: int, f: int, g: int)
    requires 0.0 < net.speed
    ensures PathTravel(net, [a, b, c, d, e, f, g]) == Travel(net, a, b) + Travel(net, b, c) + Travel(net, c, d)
      + Travel(net, d, e) + Travel(net, e, f) + Travel(net, f, g)
  {
    hide Travel, PathTravel;
    TravelFront(net, f, [g]);
    TravelFront(net, e, [f, g]);
    TravelFront(net, d, [e, f, g]);
    TravelFront(net, c, [d, e, f, g]);
    TravelFront(net, b, [c, d, e, f, g]);
    TravelFront(net, a, [b, c, d, e, f, g]);
    assert [f] + [g] == [f, g] && [e] + [f, g] == [e, f, g] && [d] + [e, f, g] == [d, e, f, g];
    assert [c] + [d, e, f, g] == [c, d, e, f, g] && [b] + [c, d, e, f, g] == [b, c, d, e, f, g];
    assert [a] + [b, c, d, e, f, g] == [a, b, c, d, e, f, g];
    TravelNone(net, g);
  }

  lemma {:induction false} TravelFront(net: Instance, x: int, rest: seq<int>)
    requires 0.0 < net.speed && rest != []
    ensures PathTravel(net, [x] + rest) == Travel(net, x, rest[0]) + PathTravel(net, rest)
  {
    assert ([x] + rest)[1..] == rest;
  }

  lemma {:induction false} TravelNone(net: Instance, x: int)
    requires 0.0 < net.speed
    ensures PathTravel(net, [x]) == 0.0
  {
  }

  lemma {:induction false} FreeService(net: Instance, nodes: seq<int>)
    requires forall id :: net.serviceTime(id) == 0.0
    ensures PathService(net, nodes) == 0.0
    decreases |nodes|
  {
    if |nodes| >= 2 { FreeService(net, nodes[1..]); }
  }

  lemma TripShift(b: Bend)
    requires Bends(b)
    ensures var shift := ShiftLeft(VehicleOf(OnLine(b)), b.cap + 2.0 * b.amount, 0.0);
      0.0 <= shift && TimeFor(2.0 * b.amount, b.middle) <= shift
  {
    hide Rate, NextBreakpoint, Straight, TimeFor;
    TimeForPositive(2.0 * b.amount, b.middle);
  }

  lemma {:induction false} TripCosts(b: Bend)
    requires Bends(b) && Regular(OnLine(b))
    ensures NodeCost(OnLine(b), TRIP).raw
      == b.cap + 2.0 * b.amount + (TimeFor(b.amount, b.middle) + TimeFor(b.amount, Rate(b.curve, b.start + b.amount)))
  {
    hide Bends, Rate, Straight, Run, TimeFor, ChargingTime, Passed, Stretch, Regular, TRIP, Outward;
    BendNumbers(b);
    TripIs(b);
    TripTotals(b);
    TripShift(b);
    var net := OnLine(b);
    var shift := ShiftLeft(VehicleOf(net), b.cap + 2.0 * b.amount, 0.0);
    var tail := TripEnds(b, shift);
    AroundEnd(b, b.amount);
    PassedTime(b, Outward(b), b.amount, 2.0 * b.amount, tail);
  }

  lemma AroundEnd(b: Bend, x: real)
    requires Bends(b) && 0.0 <= x <= 2.0 * b.amount
    ensures Around(b, Outward(b), x, 2.0 * b.amount, []) && Around(b, Leaving(b), x, 2.0 * b.amount, [])
  {
    hide Rate, NextBreakpoint;
  }

  lemma {:induction false} FoldedCosts(b: Bend)
    requires Bends(b) && Regular(OnLine(b))
    ensures RouteLabel(OnLine(b), TRIP).Label? && SoundLabel(OnLine(b), RouteLabel(OnLine(b), TRIP))
    ensures LabelCost(OnLine(b), RouteLabel(OnLine(b), TRIP)).raw == b.cap + 2.0 * b.amount + TimeFor(2.0 * b.amount, b.middle)
  {
    hide Bends, Rate, Straight, Run, TimeFor, ChargingTime, Passed, Stretch, Regular, TRIP, Leaving, LabelCost, SoundLabel;
    BendNumbers(b);
    TripIs(b);
    TripTotals(b);
    TripFolds(b);
    TripShift(b);
    var net := OnLine(b);
    LabelCostFolds(net, TRIP);
    var shift := ShiftLeft(VehicleOf(net), b.cap + 2.0 * b.amount, 0.0);
    FoldedEnds(b, shift);
    AroundEnd(b, 2.0 * b.amount);
    PassedTime(b, Leaving(b), 2.0 * b.amount, 2.0 * b.amount, [Soc(0.0, 0.0, None)]);
  }

  /** Where a curve speeds up, there is a route that the station-only kernel charges more for. */
  lemma {:induction false} KernelsDisagree(c: Curve, k: nat)
    requires Strict(c) && SpeedsUp(c, k)
    ensures var b := BendAt(c, k);
      && Bends(b) && Regular(OnLine(b)) && OffersOnly(OnLine(b), c)
      && RouteLabel(OnLine(b), TRIP).Label? && SoundLabel(OnLine(b), RouteLabel(OnLine(b), TRIP))
      && NodeCost(OnLine(b), TRIP).raw < LabelCost(OnLine(b), RouteLabel(OnLine(b), TRIP)).raw
  {
    hide Bends, Rate, Straight, TimeFor, BendAt, OnLine, NodeCost, LabelCost, SoundLabel, Regular, SpeedsUp, Strict, OffersOnly;
    BendFacts(c, k);
    var b := BendAt(c, k);
    BendNumbers(b);
    OnLineRegular(b);
    OnLineOffers(b);
    TripCosts(b);
    FoldedCosts(b);
    TimesCompare(b.amount, b.middle, Rate(b.curve, b.start + b.amount));
  }

  /** Every station offers this curve or a straight one. */
  ghost predicate OffersOnly(net: Instance, c: Curve) {
    forall id | IsStation(net, id) :: net.curve(id) == c || |net.curve(id)| == 2
  }

  lemma OnLineOffers(b: Bend)
    requires 0.0 < b.middle
    ensures OffersOnly(OnLine(b), b.curve)
  {
    var net := OnLine(b);
    forall id ensures net.curve(id) == b.curve || |net.curve(id)| == 2 {
      assert net.curve(id) == if id == 1 then Straight(b.cap, b.middle) else b.curve;
    }
  }

  ghost predicate Agree(net: Instance, visits: seq<int>)
    requires Regular(net)
  {
    RouteLabelSound(net, visits);
    LabelCost(net, RouteLabel(net, visits)) == NodeCost(net, visits)
  }

  /** So a curve is concave exactly when the kernels agree on every route of every instance that offers this curve and
      straight ones. */
  lemma {:induction false} ConcaveExactly(c: Curve)
    requires Strict(c)
    ensures Concave(c) <==> forall net, visits | Regular(net) && OffersOnly(net, c) :: Agree(net, visits)
  {
    hide Regular, LabelCost, NodeCost, SoundLabel, Strict, SpeedsUp, SegmentRate, OnLine, BendAt, TRIP;
    ConcaveSteps(c);
    if Concave(c) {
      forall net, visits | Regular(net) && OffersOnly(net, c) ensures Agree(net, visits) {
        OfferedConcave(net, c);
        KernelsAgree(net, visits);
      }
    } else {
      var k :| SpeedsUp(c, k);
      KernelsDisagree(c, k);
      BendNumbers(BendAt(c, k));
      assert !Agree(OnLine(BendAt(c, k)), TRIP);
    }
  }

  lemma OfferedConcave(net: Instance, c: Curve)
    requires Regular(net) && OffersOnly(net, c) && Strict(c) && Concave(c)
    ensures ConcaveCharging(net)
  {
  }
}
