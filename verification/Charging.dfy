/** The greedy charging rule of src/evaluator.cpp as a function.
    Both kernels walk a list of stops; a stop costs energy to reach and may offer a charger. When
    the battery would run dry, energy is bought at the best station already passed. `Fill` is that
    purchase, `Reach` is one stop and `Run` a whole walk. */
module Charging {
  import opened Common
  import opened Curves

  datatype Stop = Stop(energy: real, charger: Option<Curve>)

  datatype Soc = Soc(arrival: real, departure: real, charger: Option<Curve>)

  datatype State = State(walked: seq<Soc>, shift: real, shortfall: real)

  ghost predicate Fits(cap: real, charger: Option<Curve>) {
    charger.Some? ==> Strict(charger.value) && Capacity(charger.value) == cap
  }

  ghost predicate Walked(cap: real, ps: seq<Soc>) {
    && |ps| >= 1 && 0.0 <= cap
    && forall i | 0 <= i < |ps| :: 0.0 <= ps[i].departure <= cap && Fits(cap, ps[i].charger)
  }

  /** How much every position from `i` on can still take. */
  function Slack(cap: real, ps: seq<Soc>, i: nat): real
    requires i < |ps|
    decreases |ps| - i
  {
    if i == |ps| - 1 then cap - ps[i].departure
    else Min(cap - ps[i].departure, Slack(cap, ps, i + 1))
  }

  lemma {:induction false} SlackIsLeast(cap: real, ps: seq<Soc>, i: nat)
    requires i < |ps|
    ensures forall j | i <= j < |ps| :: Slack(cap, ps, i) <= cap - ps[j].departure
    ensures exists j | i <= j < |ps| :: Slack(cap, ps, i) == cap - ps[j].departure
    decreases |ps| - i
  {
    if i == |ps| - 1 {
      assert Slack(cap, ps, i) == cap - ps[i].departure;
    } else {
      SlackIsLeast(cap, ps, i + 1);
      var j :| i + 1 <= j < |ps| && Slack(cap, ps, i + 1) == cap - ps[j].departure;
      var k := if Slack(cap, ps, i) == Slack(cap, ps, i + 1) then j else i;
      assert Slack(cap, ps, i) == cap - ps[k].departure;
    }
  }

  function RateOf(cap: real, p: Soc): real
    requires Fits(cap, p.charger)
  {
    if p.charger.Some? then Rate(p.charger.value, p.departure) else 0.0
  }

  /** The energy a time buys at a rate, and the time an energy takes. */
  function Bought(time: real, rate: real): real {
    time * rate
  }

  function TimeFor(energy: real, rate: real): real
    requires 0.0 < rate
  {
    energy / rate
  }

  /** What station `i` can sell now: battery room, the current curve segment, the shift left. */
  function Available(cap: real, ps: seq<Soc>, shift: real, i: nat): real
    requires Walked(cap, ps) && i < |ps|
  {
    var p := ps[i];
    if p.charger.None? then 0.0
    else
      Min(Min(Slack(cap, ps, i), NextBreakpoint(p.charger.value, p.departure) - p.departure),
          Bought(shift, RateOf(cap, p)))
  }

  /** The fastest station among the first `n` positions that can sell; ties go to the later one. */
  function Pick(cap: real, ps: seq<Soc>, shift: real, n: nat): (best: Option<nat>)
    requires Walked(cap, ps) && n <= |ps|
    ensures best.Some? ==> best.value < n && Available(cap, ps, shift, best.value) > 0.0
  {
    if n == 0 then None
    else
      var best := Pick(cap, ps, shift, n - 1);
      if Available(cap, ps, shift, n - 1) > 0.0
         && (best.None? || RateOf(cap, ps[best.value]) <= RateOf(cap, ps[n - 1]))
      then Some(n - 1)
      else best
  }

  ghost predicate IsBest(cap: real, ps: seq<Soc>, shift: real, i: nat)
    requires Walked(cap, ps)
  {
    && i < |ps|
    && Available(cap, ps, shift, i) > 0.0
    && (forall j | 0 <= j < i && Available(cap, ps, shift, j) > 0.0 ::
          RateOf(cap, ps[j]) <= RateOf(cap, ps[i]))
    && (forall j | i < j < |ps| && Available(cap, ps, shift, j) > 0.0 ::
          RateOf(cap, ps[j]) < RateOf(cap, ps[i]))
  }

  /** What position `j` becomes when `x` is sold at position `i`. */
  function Sold(p: Soc, i: nat, x: real, j: int): Soc {
    Soc(if i < j then p.arrival + x else p.arrival,
        if i <= j then p.departure + x else p.departure,
        p.charger)
  }

  /** Sell `x` at position `i`: later positions all arrive and leave with `x` more. */
  function Charge(ps: seq<Soc>, i: nat, x: real): (qs: seq<Soc>)
    requires i < |ps|
    ensures |qs| == |ps|
    ensures forall j | 0 <= j < |ps| :: qs[j] == Sold(ps[j], i, x, j)
  {
    seq(|ps|, j requires 0 <= j < |ps| => Sold(ps[j], i, x, j))
  }

  /** The shift left after selling `x` at position `i`. */
  function Spent(cap: real, ps: seq<Soc>, shift: real, i: nat, x: real): real
    requires Walked(cap, ps) && i < |ps| && ps[i].charger.Some? && ps[i].departure + x <= cap
  {
    shift - Duration(ps[i].charger.value, ps[i].departure, ps[i].departure + x)
  }

  // ----- termination -----

  function LoadOf(cap: real, p: Soc): nat {
    (if p.departure < cap then 1 else 0)
    + (if p.charger.Some? then BreaksAbove(p.charger.value, p.departure) else 0)
  }

  function Load(cap: real, ps: seq<Soc>): nat {
    if ps == [] then 0 else Load(cap, ps[..|ps| - 1]) + LoadOf(cap, ps[|ps| - 1])
  }

  /** Breakpoints left, positions not full, and whether any shift remains. */
  function Measure(cap: real, ps: seq<Soc>, shift: real): nat {
    Load(cap, ps) + (if shift > 0.0 then 1 else 0)
  }

  lemma {:induction false} LoadFalls(cap: real, ps: seq<Soc>, qs: seq<Soc>)
    requires |ps| == |qs|
    requires forall j | 0 <= j < |ps| :: LoadOf(cap, qs[j]) <= LoadOf(cap, ps[j])
    ensures Load(cap, qs) <= Load(cap, ps)
  {
    if ps != [] { LoadFalls(cap, ps[..|ps| - 1], qs[..|ps| - 1]); }
  }

  lemma {:induction false} LoadFallsAt(cap: real, ps: seq<Soc>, qs: seq<Soc>, i: nat)
    requires |ps| == |qs| && i < |ps|
    requires forall j | 0 <= j < |ps| :: LoadOf(cap, qs[j]) <= LoadOf(cap, ps[j])
    requires LoadOf(cap, qs[i]) < LoadOf(cap, ps[i])
    ensures Load(cap, qs) < Load(cap, ps)
  {
    var n := |ps| - 1;
    if i < n {
      LoadFallsAt(cap, ps[..n], qs[..n], i);
    } else {
      LoadFalls(cap, ps[..n], qs[..n]);
    }
  }

  lemma SoldLoad(cap: real, p: Soc, i: nat, x: real, j: int)
    requires 0.0 < x
    ensures LoadOf(cap, Sold(p, i, x, j)) <= LoadOf(cap, p)
    ensures i <= j && p.departure < cap <= p.departure + x ==> LoadOf(cap, Sold(p, i, x, j)) < LoadOf(cap, p)
  {
    if p.charger.Some? { BreaksFall(p.charger.value, p.departure, Sold(p, i, x, j).departure); }
  }

  lemma {:induction false} ChargeLoad(cap: real, ps: seq<Soc>, i: nat, x: real)
    requires i < |ps| && 0.0 < x
    ensures forall j | 0 <= j < |ps| :: LoadOf(cap, Charge(ps, i, x)[j]) <= LoadOf(cap, ps[j])
    ensures Load(cap, Charge(ps, i, x)) <= Load(cap, ps)
  {
    forall j | 0 <= j < |ps| ensures LoadOf(cap, Charge(ps, i, x)[j]) <= LoadOf(cap, ps[j]) {
      SoldLoad(cap, ps[j], i, x, j);
    }
    LoadFalls(cap, ps, Charge(ps, i, x));
  }

  lemma BoughtMonotone(a: real, b: real, rate: real)
    requires a <= b && 0.0 <= rate
    ensures Bought(a, rate) <= Bought(b, rate)
  {
    assert (b - a) * rate >= 0.0;
  }

  lemma BoughtPositive(time: real, rate: real)
    requires 0.0 <= time && 0.0 <= rate
    ensures 0.0 <= Bought(time, rate)
    ensures 0.0 < Bought(time, rate) <==> 0.0 < time && 0.0 < rate
  {
  }

  /** Spending the time for `x` leaves time for exactly `x` less. */
  lemma TimeForFits(shift: real, rate: real, x: real)
    requires 0.0 < rate && 0.0 <= x <= Bought(shift, rate)
    ensures 0.0 <= TimeFor(x, rate) <= shift
    ensures x == Bought(shift, rate) ==> TimeFor(x, rate) == shift
    ensures Bought(shift - TimeFor(x, rate), rate) == Bought(shift, rate) - x
  {
    var q := x / rate;
    assert q * rate == x;
    assert (shift - q) * rate >= 0.0;
  }

  lemma {:induction false} AvailableParts(cap: real, ps: seq<Soc>, shift: real, i: nat)
    requires Walked(cap, ps) && 0.0 <= shift
    requires i < |ps| && 0.0 < Available(cap, ps, shift, i)
    ensures ps[i].charger.Some? && ps[i].departure < cap && 0.0 < shift
    ensures 0.0 < RateOf(cap, ps[i])
    ensures var v := Available(cap, ps, shift, i);
      && v <= Bought(shift, RateOf(cap, ps[i]))
      && v <= Slack(cap, ps, i) <= cap - ps[i].departure
      && v <= NextBreakpoint(ps[i].charger.value, ps[i].departure) - ps[i].departure
      && (v == Bought(shift, RateOf(cap, ps[i])) || v == Slack(cap, ps, i)
          || v == NextBreakpoint(ps[i].charger.value, ps[i].departure) - ps[i].departure)
  {
    hide Bought, Slack, NextBreakpoint, Rate;
    SlackIsLeast(cap, ps, i);
    RateNonNegative(cap, ps[i]);
    BoughtPositive(shift, RateOf(cap, ps[i]));
  }

  lemma RateNonNegative(cap: real, p: Soc)
    requires Fits(cap, p.charger) && 0.0 <= p.departure <= cap
    ensures 0.0 <= RateOf(cap, p)
    ensures p.charger.Some? && p.departure < cap ==>
      0.0 < RateOf(cap, p) && p.departure < NextBreakpoint(p.charger.value, p.departure) <= cap
  {
    if p.charger.Some? && p.departure < cap { SegmentDuration(p.charger.value, p.departure, 0.0); }
  }

  /** A sale takes `x / rate` of the shift. */
  lemma SaleDuration(cap: real, ps: seq<Soc>, shift: real, i: nat, x: real)
    requires Walked(cap, ps) && 0.0 <= shift
    requires i < |ps| && 0.0 < Available(cap, ps, shift, i) && 0.0 <= x <= Available(cap, ps, shift, i)
    ensures ps[i].charger.Some? && 0.0 < RateOf(cap, ps[i]) && ps[i].departure + x <= cap
    ensures Spent(cap, ps, shift, i, x) == shift - TimeFor(x, RateOf(cap, ps[i]))
  {
    hide Bought, Slack, NextBreakpoint, Duration, Available, Rate;
    AvailableParts(cap, ps, shift, i);
    SegmentDuration(ps[i].charger.value, ps[i].departure, x);
  }

  /** One sale keeps the battery within bounds and the shift nonnegative. */
  lemma ChargeKeeps(cap: real, ps: seq<Soc>, shift: real, i: nat, x: real)
    requires Walked(cap, ps) && 0.0 <= shift
    requires i < |ps| && 0.0 < Available(cap, ps, shift, i) && 0.0 <= x <= Available(cap, ps, shift, i)
    ensures ps[i].charger.Some? && ps[i].departure < cap && ps[i].departure + x <= cap
    ensures Walked(cap, Charge(ps, i, x))
    ensures 0.0 <= Spent(cap, ps, shift, i, x) <= shift
  {
    hide Bought, TimeFor, Slack, NextBreakpoint, Spent, Available, RateOf;
    AvailableParts(cap, ps, shift, i);
    SlackIsLeast(cap, ps, i);
    SaleDuration(cap, ps, shift, i, x);
    TimeForFits(shift, RateOf(cap, ps[i]), x);
  }

  lemma {:induction false} LoadProgress(cap: real, ps: seq<Soc>, i: nat, x: real)
    requires Walked(cap, ps) && i < |ps| && ps[i].charger.Some? && 0.0 < x
    requires ps[i].departure < cap
    requires x == Slack(cap, ps, i) || x == NextBreakpoint(ps[i].charger.value, ps[i].departure) - ps[i].departure
    ensures Load(cap, Charge(ps, i, x)) < Load(cap, ps)
  {
    var c, e := ps[i].charger.value, ps[i].departure;
    ChargeLoad(cap, ps, i, x);
    if x == Slack(cap, ps, i) {
      SlackIsLeast(cap, ps, i);
      var j :| i <= j < |ps| && x == cap - ps[j].departure;
      SoldLoad(cap, ps[j], i, x, j);
      LoadFallsAt(cap, ps, Charge(ps, i, x), j);
    } else {
      BreakCrossed(c, e);
      LoadFallsAt(cap, ps, Charge(ps, i, x), i);
    }
  }

  lemma {:induction false} MeasureFalls(cap: real, ps: seq<Soc>, qs: seq<Soc>, shift: real, left: real)
    requires Load(cap, qs) <= Load(cap, ps) && left <= shift
    requires Load(cap, qs) < Load(cap, ps) || left <= 0.0 < shift
    ensures Measure(cap, qs, left) < Measure(cap, ps, shift)
  {
  }

  lemma ShiftProgress(cap: real, ps: seq<Soc>, shift: real, i: nat, v: real)
    requires Walked(cap, ps) && 0.0 <= shift
    requires i < |ps| && 0.0 < Available(cap, ps, shift, i) == v == Bought(shift, RateOf(cap, ps[i]))
    ensures ps[i].charger.Some? && ps[i].departure + v <= cap
    ensures Measure(cap, Charge(ps, i, v), Spent(cap, ps, shift, i, v)) < Measure(cap, ps, shift)
  {
    hide Available, Spent, Measure, RateOf, Load, Charge, Bought, TimeFor;
    AvailableParts(cap, ps, shift, i);
    SaleDuration(cap, ps, shift, i, v);
    TimeForFits(shift, RateOf(cap, ps[i]), v);
    ChargeLoad(cap, ps, i, v);
    MeasureFalls(cap, ps, Charge(ps, i, v), shift, Spent(cap, ps, shift, i, v));
  }

  lemma {:induction false} BatteryProgress(cap: real, ps: seq<Soc>, shift: real, i: nat, v: real)
    requires Walked(cap, ps) && 0.0 <= shift
    requires i < |ps| && 0.0 < Available(cap, ps, shift, i) == v
    requires ps[i].charger.Some?
    requires v == Slack(cap, ps, i) || v == NextBreakpoint(ps[i].charger.value, ps[i].departure) - ps[i].departure
    ensures ps[i].departure + v <= cap
    ensures Measure(cap, Charge(ps, i, v), Spent(cap, ps, shift, i, v)) < Measure(cap, ps, shift)
  {
    hide Available, Spent, Measure, Load, Charge;
    ChargeKeeps(cap, ps, shift, i, v);
    LoadProgress(cap, ps, i, v);
    MeasureFalls(cap, ps, Charge(ps, i, v), shift, Spent(cap, ps, shift, i, v));
  }

  /** Selling all a station has uses up a breakpoint, a free position or the whole shift. */
  lemma SaleProgress(cap: real, ps: seq<Soc>, shift: real, i: nat, v: real)
    requires Walked(cap, ps) && 0.0 <= shift
    requires i < |ps| && 0.0 < Available(cap, ps, shift, i) == v
    ensures ps[i].charger.Some? && ps[i].departure + v <= cap
    ensures Measure(cap, Charge(ps, i, v), Spent(cap, ps, shift, i, v)) < Measure(cap, ps, shift)
  {
    hide Available, Spent, Measure, RateOf, Load, Charge, Bought;
    AvailableParts(cap, ps, shift, i);
    if v == Bought(shift, RateOf(cap, ps[i])) {
      ShiftProgress(cap, ps, shift, i, v);
    } else {
      BatteryProgress(cap, ps, shift, i, v);
    }
  }

  // ----- the greedy rule -----

  /** Buy `need`, one sale after another; what no station can sell stays in the shortfall. */
  function Fill(cap: real, ps: seq<Soc>, shift: real, need: real): (r: State)
    requires Walked(cap, ps) && 0.0 <= shift && 0.0 <= need
    ensures Walked(cap, r.walked) && |r.walked| == |ps|
    ensures 0.0 <= r.shift && 0.0 <= r.shortfall
    decreases Measure(cap, ps, shift)
  {
    if need == 0.0 then State(ps, shift, 0.0)
    else
      var best := Pick(cap, ps, shift, |ps|);
      if best.None? then State(ps, shift, need)
      else
        var i := best.value;
        var v := Available(cap, ps, shift, i);
        if need <= v then
          ChargeKeeps(cap, ps, shift, i, need);
          State(Charge(ps, i, need), Spent(cap, ps, shift, i, need), 0.0)
        else
          ChargeKeeps(cap, ps, shift, i, v);
          SaleProgress(cap, ps, shift, i, v);
          Fill(cap, Charge(ps, i, v), Spent(cap, ps, shift, i, v), need - v)
  }

  ghost predicate Ready(cap: real, st: State) {
    Walked(cap, st.walked) && 0.0 <= st.shift && 0.0 <= st.shortfall
  }

  ghost predicate Sound(cap: real, stop: Stop) {
    0.0 <= stop.energy && Fits(cap, stop.charger)
  }

  function Last(ps: seq<Soc>): Soc
    requires ps != []
  {
    ps[|ps| - 1]
  }

  function Reach(cap: real, st: State, stop: Stop): (r: State)
    requires Ready(cap, st) && Sound(cap, stop)
    ensures Ready(cap, r) && |r.walked| == |st.walked| + 1
  {
    var left := Last(st.walked).departure - stop.energy;
    if left >= 0.0 then
      State(st.walked + [Soc(left, left, stop.charger)], st.shift, st.shortfall)
    else
      var f := Fill(cap, st.walked, st.shift, -left);
      State(f.walked + [Soc(0.0, 0.0, stop.charger)], f.shift, st.shortfall + f.shortfall)
  }

  ghost predicate AllSound(cap: real, stops: seq<Stop>) {
    forall i | 0 <= i < |stops| :: Sound(cap, stops[i])
  }

  function Run(cap: real, st: State, stops: seq<Stop>): (r: State)
    requires Ready(cap, st) && AllSound(cap, stops)
    ensures Ready(cap, r) && |r.walked| == |st.walked| + |stops|
    decreases |stops|
  {
    if stops == [] then st
    else
      Run(cap, Reach(cap, st, stops[0]), stops[1..])
  }

  function Departing(cap: real, shift: real): State {
    State([Soc(0.0, cap, None)], shift, 0.0)
  }

  lemma {:induction false} RunAppend(cap: real, st: State, xs: seq<Stop>, ys: seq<Stop>)
    requires Ready(cap, st) && AllSound(cap, xs) && AllSound(cap, ys)
    ensures AllSound(cap, xs + ys)
    ensures Run(cap, st, xs + ys) == Run(cap, Run(cap, st, xs), ys)
    decreases |xs|
  {
    if xs == [] {
      assert xs + ys == ys;
    } else {
      assert (xs + ys)[1..] == xs[1..] + ys;
      RunAppend(cap, Reach(cap, st, xs[0]), xs[1..], ys);
    }
  }
}
