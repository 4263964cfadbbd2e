/** What every greedy walk keeps: battery bounds, energy up to the shortfall, and a trace that can
    be replayed once nothing is missing. */
module ChargingLaws {
  import opened Common
  import opened Curves
  import opened Charging
  import opened ChargingSplit
  import opened ChargingCollapse

  /** Position 0 leaves the depot full; elsewhere energy is only bought, and only at chargers. */
  ghost predicate Bounded(cap: real, ps: seq<Soc>) {
    && Walked(cap, ps)
    && ps[0] == Soc(0.0, cap, None)
    && forall j | 1 <= j < |ps| ::
         0.0 <= ps[j].arrival <= ps[j].departure && (ps[j].charger.None? ==> ps[j].arrival == ps[j].departure)
  }

  function Charged(ps: seq<Soc>): real {
    if |ps| <= 1 then 0.0
    else Charged(ps[..|ps| - 1]) + (ps[|ps| - 1].departure - ps[|ps| - 1].arrival)
  }

  /** Without any shortfall, every arrival is the previous departure less the leg. */
  ghost predicate Chained(ps: seq<Soc>, stops: seq<Stop>) {
    && |ps| == |stops| + 1
    && forall j | 1 <= j < |ps| :: Linked(ps, stops, j)
  }

  ghost predicate Linked(ps: seq<Soc>, stops: seq<Stop>, j: nat)
    requires 1 <= j < |ps| == |stops| + 1
  {
    ps[j].arrival == ps[j - 1].departure - stops[j - 1].energy && ps[j].charger == stops[j - 1].charger
  }

  lemma {:induction false} ChargedAfter(ps: seq<Soc>, i: nat, x: real)
    requires 1 <= i < |ps|
    ensures Charged(Charge(ps, i, x)) == Charged(ps) + x
  {
    var n := |ps| - 1;
    var qs := Charge(ps, i, x);
    if i < n {
      ChargedAfter(ps[..n], i, x);
      assert qs[..n] == Charge(ps[..n], i, x);
    } else {
      assert qs[..n] == ps[..n];
    }
  }

  lemma BoundedAfter(cap: real, ps: seq<Soc>, i: nat, x: real)
    requires Bounded(cap, ps) && i < |ps| && ps[i].charger.Some? && 0.0 <= x && Walked(cap, Charge(ps, i, x))
    ensures 1 <= i && Bounded(cap, Charge(ps, i, x))
  {
    hide Walked;
  }

  lemma ChainedAfter(ps: seq<Soc>, stops: seq<Stop>, i: nat, x: real)
    requires Chained(ps, stops) && i < |ps|
    ensures Chained(Charge(ps, i, x), stops)
  {
    forall j | 1 <= j < |ps| ensures Linked(Charge(ps, i, x), stops, j) {
      assert Linked(ps, stops, j);
    }
  }

  /** A purchase: bounds and chaining survive, and all that was needed was bought or is missing. */
  lemma {:induction false} FillLaws(cap: real, ps: seq<Soc>, shift: real, need: real, stops: seq<Stop>)
    requires Bounded(cap, ps) && 0.0 <= shift && 0.0 <= need
    ensures var f := Fill(cap, ps, shift, need);
      && Bounded(cap, f.walked)
      && f.shortfall <= need
      && Charged(f.walked) == Charged(ps) + (need - f.shortfall)
      && Last(f.walked).departure == Last(ps).departure + (need - f.shortfall)
      && (Chained(ps, stops) ==> Chained(f.walked, stops))
    decreases Measure(cap, ps, shift)
  {
    hide Available, RateOf, Spent, Measure, Slack, Charged, Bounded, Chained, Charge, Walked, IsBest;
    assert Walked(cap, ps) by { WalkedOf(cap, ps); }
    PickIsBest(cap, ps, shift);
    if need == 0.0 || Pick(cap, ps, shift, |ps|).None? {
      FillNothing(cap, ps, shift, need);
    } else {
      hide Fill;
      var i := Pick(cap, ps, shift, |ps|).value;
      FillStep(cap, ps, shift, need, i);
      var x := Min(need, Available(cap, ps, shift, i));
      ChargedNonNegative(cap, ps, shift, i);
      BoundedAfter(cap, ps, i, x);
      ChargedAfter(ps, i, x);
      LastAfter(ps, i, x);
      if Chained(ps, stops) { ChainedAfter(ps, stops, i, x); }
      if need > x {
        SaleProgress(cap, ps, shift, i, x);
        FillLaws(cap, Charge(ps, i, x), Spent(cap, ps, shift, i, x), need - x, stops);
      }
    }
  }

  lemma WalkedOf(cap: real, ps: seq<Soc>)
    requires Bounded(cap, ps)
    ensures Walked(cap, ps)
  {
  }

  lemma ChargedNonNegative(cap: real, ps: seq<Soc>, shift: real, i: nat)
    requires Walked(cap, ps) && IsBest(cap, ps, shift, i)
    ensures i < |ps| && Available(cap, ps, shift, i) > 0.0
  {
  }

  lemma LastAfter(ps: seq<Soc>, i: nat, x: real)
    requires i < |ps|
    ensures Last(Charge(ps, i, x)).departure == Last(ps).departure + x
  {
  }

  function EnergyOf(stops: seq<Stop>): real {
    if stops == [] then 0.0 else EnergyOf(stops[..|stops| - 1]) + stops[|stops| - 1].energy
  }

  /** The energy balance after the stops walked so far. */
  ghost predicate Balanced(cap: real, st: State, stops: seq<Stop>) {
    && Ready(cap, st)
    && Bounded(cap, st.walked)
    && Last(st.walked).departure + EnergyOf(stops) == cap + Charged(st.walked) + st.shortfall
    && (st.shortfall == 0.0 ==> Chained(st.walked, stops))
  }

  lemma ChainedNext(ps: seq<Soc>, stops: seq<Stop>, stop: Stop, p: Soc)
    requires Chained(ps, stops) && p.charger == stop.charger
    requires p.arrival == Last(ps).departure - stop.energy
    ensures Chained(ps + [p], stops + [stop])
  {
    forall j | 1 <= j < |ps + [p]| ensures Linked(ps + [p], stops + [stop], j) {
      if j < |ps| { assert Linked(ps, stops, j); }
    }
  }

  lemma {:induction false} BoundedNext(cap: real, ps: seq<Soc>, stop: Stop, left: real)
    requires Bounded(cap, ps) && 0.0 <= left <= cap && Fits(cap, stop.charger)
    ensures Bounded(cap, ps + [Soc(left, left, stop.charger)])
    ensures Charged(ps + [Soc(left, left, stop.charger)]) == Charged(ps)
  {
    assert (ps + [Soc(left, left, stop.charger)])[..|ps|] == ps;
  }

  lemma ReachBalanced(cap: real, st: State, stops: seq<Stop>, stop: Stop)
    requires Balanced(cap, st, stops) && Sound(cap, stop)
    ensures Balanced(cap, Reach(cap, st, stop), stops + [stop])
    ensures st.shortfall <= Reach(cap, st, stop).shortfall
  {
    hide Fill, Bounded, Chained, Charged;
    var left := Last(st.walked).departure - stop.energy;
    assert (stops + [stop])[..|stops|] == stops;
    var ps, short := st.walked, st.shortfall;
    if left < 0.0 {
      FillLaws(cap, st.walked, st.shift, -left, stops);
      var f := Fill(cap, st.walked, st.shift, -left);
      ps, short := f.walked, short + f.shortfall;
    }
    var p := Soc(Max(0.0, left), Max(0.0, left), stop.charger);
    BoundedNext(cap, ps, stop, Max(0.0, left));
    if short == 0.0 { ChainedNext(ps, stops, stop, p); }
  }

  lemma {:induction false} RunBalanced(cap: real, st: State, before: seq<Stop>, stops: seq<Stop>)
    requires Balanced(cap, st, before) && AllSound(cap, stops)
    ensures Balanced(cap, Run(cap, st, stops), before + stops)
    ensures st.shortfall <= Run(cap, st, stops).shortfall
    decreases |stops|
  {
    hide Reach, Balanced;
    if stops == [] {
      assert before + stops == before;
    } else {
      ReachBalanced(cap, st, before, stops[0]);
      BalancedIsReady(cap, st, before);
      assert before + [stops[0]] + stops[1..] == before + stops;
      RunBalanced(cap, Reach(cap, st, stops[0]), before + [stops[0]], stops[1..]);
    }
  }

  lemma BalancedIsReady(cap: real, st: State, stops: seq<Stop>)
    requires Balanced(cap, st, stops)
    ensures Ready(cap, st)
  {
  }

  lemma DepartingBalanced(cap: real, shift: real)
    requires 0.0 <= cap && 0.0 <= shift
    ensures Balanced(cap, Departing(cap, shift), [])
  {
  }

  /** Every walk from the depot keeps the battery bounds and conserves energy up to the shortfall. */
  lemma {:induction false} WalkLaws(cap: real, shift: real, stops: seq<Stop>)
    requires 0.0 <= cap && 0.0 <= shift && AllSound(cap, stops)
    ensures Ready(cap, Departing(cap, shift))
    ensures var r := Run(cap, Departing(cap, shift), stops);
      && Bounded(cap, r.walked)
      && Last(r.walked).departure + EnergyOf(stops) == cap + Charged(r.walked) + r.shortfall
      && (r.shortfall == 0.0 ==> Chained(r.walked, stops))
  {
    DepartingBalanced(cap, shift);
    RunBalanced(cap, Departing(cap, shift), [], stops);
    assert [] + stops == stops;
  }

  lemma {:induction false} ChargingTimeNonNegative(cap: real, ps: seq<Soc>)
    requires 0.0 <= cap && AllFit(cap, ps)
    ensures 0.0 <= ChargingTime(cap, ps)
  {
    if ps != [] {
      var p := ps[|ps| - 1];
      ChargingTimeNonNegative(cap, ps[..|ps| - 1]);
      if p.charger.Some? {
        var start := Clamp(p.arrival, 0.0, cap);
        TimeAtMonotone(p.charger.value, start, Clamp(p.departure, start, cap));
      }
    }
  }
}
