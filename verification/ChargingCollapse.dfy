/** Visiting a customer between two charging opportunities is the same as adding its leg to the
    next one: the full-node walk and the station-only walk sell the same energy at the same place. */
module ChargingCollapse {
  import opened Common
  import opened Curves
  import opened Charging
  import opened ChargingSplit

  // ----- forgetting one position -----

  function Without<T>(s: seq<T>, m: nat): (r: seq<T>)
    requires m < |s|
    ensures |r| == |s| - 1
    ensures forall i | 0 <= i < m :: r[i] == s[i]
    ensures forall i | m <= i < |r| :: r[i] == s[i + 1]
  {
    s[..m] + s[m + 1..]
  }

  /** Position `m` cannot charge and is never fuller than its predecessor. */
  ghost predicate Idle(ps: seq<Soc>, m: nat) {
    1 <= m < |ps| && ps[m].charger.None? && ps[m].departure <= ps[m - 1].departure
  }

  function Renumbered(i: nat, m: nat): nat
    requires i != m
  {
    if i < m then i else i - 1
  }

  lemma SlackStep(cap: real, ps: seq<Soc>, i: nat)
    requires i < |ps|
    ensures Slack(cap, ps, i)
            == if i == |ps| - 1 then cap - ps[i].departure else Min(cap - ps[i].departure, Slack(cap, ps, i + 1))
  {
  }

  lemma {:induction false} SlackWithout(cap: real, ps: seq<Soc>, m: nat, i: nat)
    requires Idle(ps, m) && i < |ps| && i != m
    ensures Slack(cap, Without(ps, m), Renumbered(i, m)) == Slack(cap, ps, i)
    decreases |ps| - i
  {
    hide Without, Slack;
    var qs, k := Without(ps, m), Renumbered(i, m);
    SlackStep(cap, ps, i);
    SlackStep(cap, qs, k);
    if i + 1 == m {
      SlackStep(cap, ps, m);
      if m + 1 < |ps| { SlackWithout(cap, ps, m, m + 1); }
    } else if i < |ps| - 1 {
      SlackWithout(cap, ps, m, i + 1);
    }
  }

  lemma WalkedWithout(cap: real, ps: seq<Soc>, m: nat)
    requires Walked(cap, ps) && Idle(ps, m)
    ensures Walked(cap, Without(ps, m))
  {
  }

  lemma AvailableWithout(cap: real, ps: seq<Soc>, shift: real, m: nat, i: nat)
    requires Walked(cap, ps) && Idle(ps, m) && i < |ps| && i != m
    ensures Walked(cap, Without(ps, m)) && Without(ps, m)[Renumbered(i, m)] == ps[i]
    ensures Available(cap, Without(ps, m), shift, Renumbered(i, m)) == Available(cap, ps, shift, i)
  {
    hide RateOf, NextBreakpoint, Bought, Slack;
    WalkedWithout(cap, ps, m);
    SlackWithout(cap, ps, m, i);
  }

  lemma RivalWithout(cap: real, ps: seq<Soc>, shift: real, m: nat, i: nat, j: nat)
    requires Walked(cap, ps) && Idle(ps, m) && IsBest(cap, ps, shift, i) && i != m
    requires Walked(cap, Without(ps, m)) && j < |ps| - 1
    requires Available(cap, Without(ps, m), shift, j) > 0.0
    ensures var qs, k := Without(ps, m), Renumbered(i, m);
      && (j < k ==> RateOf(cap, qs[j]) <= RateOf(cap, ps[i]))
      && (j > k ==> RateOf(cap, qs[j]) < RateOf(cap, ps[i]))
  {
    hide RateOf, Available, Slack, Without;
    AvailableWithout(cap, ps, shift, m, if j < m then j else j + 1);
  }

  lemma BestWithout(cap: real, ps: seq<Soc>, shift: real, m: nat, i: nat)
    requires Walked(cap, ps) && Idle(ps, m) && IsBest(cap, ps, shift, i)
    ensures i != m && Walked(cap, Without(ps, m))
    ensures IsBest(cap, Without(ps, m), shift, Renumbered(i, m))
  {
    SellerHasCharger(cap, ps, shift, i);
    hide RateOf, Available, Slack, Without;
    var qs := Without(ps, m);
    AvailableWithout(cap, ps, shift, m, i);
    var k := Renumbered(i, m);
    forall j | 0 <= j < |qs| && Available(cap, qs, shift, j) > 0.0
      ensures j < k ==> RateOf(cap, qs[j]) <= RateOf(cap, qs[k])
      ensures j > k ==> RateOf(cap, qs[j]) < RateOf(cap, qs[k])
    {
      RivalWithout(cap, ps, shift, m, i, j);
    }
  }

  lemma {:induction false} NoneWithout(cap: real, ps: seq<Soc>, shift: real, m: nat)
    requires Walked(cap, ps) && Idle(ps, m) && Pick(cap, ps, shift, |ps|).None?
    ensures Walked(cap, Without(ps, m)) && Pick(cap, Without(ps, m), shift, |ps| - 1).None?
  {
    hide RateOf, Available, Slack;
    WalkedWithout(cap, ps, m);
    var qs := Without(ps, m);
    PickIsBest(cap, ps, shift);
    PickIsBest(cap, qs, shift);
    var best := Pick(cap, qs, shift, |qs|);
    if best.Some? {
      AvailableWithout(cap, ps, shift, m, if best.value < m then best.value else best.value + 1);
    }
  }

  lemma ChargeWithout(ps: seq<Soc>, m: nat, i: nat, x: real)
    requires Idle(ps, m) && i < |ps| && i != m && 0.0 <= x
    ensures Idle(Charge(ps, i, x), m)
    ensures Without(Charge(ps, i, x), m) == Charge(Without(ps, m), Renumbered(i, m), x)
  {
  }

  /** A position that cannot charge never influences a purchase. */
  lemma {:induction false} FillWithout(cap: real, ps: seq<Soc>, shift: real, need: real, m: nat)
    requires Walked(cap, ps) && Idle(ps, m) && 0.0 <= shift && 0.0 <= need
    ensures Walked(cap, Without(ps, m))
    ensures var f := Fill(cap, ps, shift, need);
      && Idle(f.walked, m)
      && Fill(cap, Without(ps, m), shift, need) == State(Without(f.walked, m), f.shift, f.shortfall)
    decreases Measure(cap, ps, shift)
  {
    hide *;
    WalkedWithout(cap, ps, m);
    PickIsBest(cap, ps, shift);
    IdleRange(ps, m);
    if need == 0.0 {
      FillNothing(cap, ps, shift, need);
      FillNothing(cap, Without(ps, m), shift, need);
    } else if Pick(cap, ps, shift, |ps|).None? {
      NoneWithout(cap, ps, shift, m);
      WithoutLength(ps, m);
      FillNothing(cap, ps, shift, need);
      FillNothing(cap, Without(ps, m), shift, need);
    } else {
      FillWithoutAt(cap, ps, shift, need, m, Pick(cap, ps, shift, |ps|).value);
    }
  }

  lemma IdleRange(ps: seq<Soc>, m: nat)
    requires Idle(ps, m)
    ensures m < |ps|
  {
  }

  lemma WithoutLength<T>(s: seq<T>, m: nat)
    requires m < |s|
    ensures |Without(s, m)| == |s| - 1
  {
  }

  lemma {:induction false} FillWithoutAt(cap: real, ps: seq<Soc>, shift: real, need: real, m: nat, i: nat)
    requires Walked(cap, ps) && Idle(ps, m) && 0.0 <= shift && 0.0 < need && IsBest(cap, ps, shift, i)
    ensures Walked(cap, Without(ps, m))
    ensures var f := Fill(cap, ps, shift, need);
      && Idle(f.walked, m)
      && Fill(cap, Without(ps, m), shift, need) == State(Without(f.walked, m), f.shift, f.shortfall)
    decreases Measure(cap, ps, shift), 0
  {
    hide Available, RateOf, Spent, Charge, Walked, Measure, Fill, Slack;
    BestWithout(cap, ps, shift, m, i);
    var k := Renumbered(i, m);
    AvailableWithout(cap, ps, shift, m, i);
    FillStep(cap, ps, shift, need, i);
    FillStep(cap, Without(ps, m), shift, need, k);
    var x := Min(need, Available(cap, ps, shift, i));
    ChargeWithout(ps, m, i, x);
    assert Spent(cap, Without(ps, m), shift, k, x) == Spent(cap, ps, shift, i, x) by { SpentSame(cap, ps, Without(ps, m), shift, i, k, x); }
    if need > x {
      SaleProgress(cap, ps, shift, i, x);
      FillWithout(cap, Charge(ps, i, x), Spent(cap, ps, shift, i, x), need - x, m);
    }
  }

  lemma SpentSame(cap: real, ps: seq<Soc>, qs: seq<Soc>, shift: real, i: nat, k: nat, x: real)
    requires Walked(cap, ps) && Walked(cap, qs) && i < |ps| && k < |qs| && qs[k] == ps[i]
    requires ps[i].charger.Some? && ps[i].departure + x <= cap
    ensures Spent(cap, qs, shift, k, x) == Spent(cap, ps, shift, i, x)
  {
  }

  // ----- whole walks -----

  function WithoutState(st: State, m: nat): State
    requires m < |st.walked|
  {
    State(Without(st.walked, m), st.shift, st.shortfall)
  }

  lemma ReachWithout(cap: real, st: State, stop: Stop, m: nat)
    requires Ready(cap, st) && Sound(cap, stop) && Idle(st.walked, m) && m < |st.walked| - 1
    ensures Ready(cap, WithoutState(st, m))
    ensures var r := Reach(cap, st, stop);
      && Idle(r.walked, m)
      && Reach(cap, WithoutState(st, m), stop) == WithoutState(r, m)
  {
    hide Fill, Slack;
    WalkedWithout(cap, st.walked, m);
    var left := Last(st.walked).departure - stop.energy;
    assert Last(Without(st.walked, m)) == Last(st.walked);
    if left >= 0.0 {
      assert Without(st.walked, m) + [Soc(left, left, stop.charger)]
             == Without(st.walked + [Soc(left, left, stop.charger)], m);
    } else {
      FillWithout(cap, st.walked, st.shift, -left, m);
      var f := Fill(cap, st.walked, st.shift, -left);
      assert Without(f.walked, m) + [Soc(0.0, 0.0, stop.charger)]
             == Without(f.walked + [Soc(0.0, 0.0, stop.charger)], m);
    }
  }

  lemma {:induction false} RunWithout(cap: real, st: State, stops: seq<Stop>, m: nat)
    requires Ready(cap, st) && AllSound(cap, stops) && Idle(st.walked, m) && m < |st.walked| - 1
    ensures Ready(cap, WithoutState(st, m))
    ensures var r := Run(cap, st, stops);
      && Idle(r.walked, m)
      && Run(cap, WithoutState(st, m), stops) == WithoutState(r, m)
    decreases |stops|
  {
    hide Reach, Walked;
    WalkedWithout(cap, st.walked, m);
    if stops != [] {
      ReachWithout(cap, st, stops[0], m);
      RunWithout(cap, Reach(cap, st, stops[0]), stops[1..], m);
    }
  }

  ghost predicate ConcaveStops(stops: seq<Stop>) {
    forall i | 0 <= i < |stops| && stops[i].charger.Some? ::
      Strict(stops[i].charger.value) && Concave(stops[i].charger.value)
  }

  lemma {:induction false} FillChargers(cap: real, ps: seq<Soc>, shift: real, need: real)
    requires Walked(cap, ps) && 0.0 <= shift && 0.0 <= need
    ensures forall j | 0 <= j < |ps| :: Fill(cap, ps, shift, need).walked[j].charger == ps[j].charger
    decreases Measure(cap, ps, shift)
  {
    hide Available, RateOf, Spent, Walked, Measure, Slack;
    PickIsBest(cap, ps, shift);
    if need == 0.0 || Pick(cap, ps, shift, |ps|).None? {
      FillNothing(cap, ps, shift, need);
    } else {
      hide Fill;
      var i := Pick(cap, ps, shift, |ps|).value;
      FillStep(cap, ps, shift, need, i);
      var x := Min(need, Available(cap, ps, shift, i));
      if need > x {
        SaleProgress(cap, ps, shift, i, x);
        FillChargers(cap, Charge(ps, i, x), Spent(cap, ps, shift, i, x), need - x);
      }
    }
  }

  lemma ReachConcave(cap: real, st: State, stop: Stop)
    requires Ready(cap, st) && Sound(cap, stop) && AllConcave(st.walked) && ConcaveStops([stop])
    ensures AllConcave(Reach(cap, st, stop).walked)
  {
    hide Fill, Slack, Concave, Strict;
    assert [stop][0] == stop;
    var left := Last(st.walked).departure - stop.energy;
    if left < 0.0 { FillChargers(cap, st.walked, st.shift, -left); }
  }

  function Merged(first: Stop, second: Stop): Stop {
    Stop(first.energy + second.energy, second.charger)
  }

  /** After one customer: buying for the next leg is buying for both legs at once. */
  lemma {:induction false} BuyForBoth(cap: real, st: State, customer: Stop, leg: real)
    requires Ready(cap, st) && AllConcave(st.walked)
    requires Sound(cap, customer) && customer.charger.None? && 0.0 <= leg
    ensures var one := Reach(cap, st, customer);
      var need := leg - Last(one.walked).departure;
      var both := customer.energy + leg - Last(st.walked).departure;
      && Idle(one.walked, |st.walked|)
      && (need > 0.0 <==> both > 0.0 && (both > leg ==> leg > 0.0))
      && (need > 0.0 ==>
            var f := Fill(cap, one.walked[..|st.walked|], one.shift, need);
            Fill(cap, st.walked, st.shift, both) == State(f.walked, f.shift, f.shortfall + one.shortfall - st.shortfall))
      && (both <= 0.0 ==>
            need == both && one == State(st.walked + [Last(one.walked)], st.shift, st.shortfall))
      && (need <= 0.0 < both ==>
            leg == 0.0 && Last(one.walked).departure == 0.0
            && Fill(cap, st.walked, st.shift, both) == State(one.walked[..|st.walked|], one.shift, one.shortfall - st.shortfall))
  {
    hide Fill, Slack;
    var left := Last(st.walked).departure - customer.energy;
    if left < 0.0 { FillSplit(cap, st.walked, st.shift, -left, leg); }
  }

  /** A customer followed by a stop, against the stop alone with both legs. */
  lemma MergeTwo(cap: real, st: State, customer: Stop, stop: Stop)
    requires Ready(cap, st) && AllConcave(st.walked)
    requires Sound(cap, customer) && customer.charger.None? && Sound(cap, stop)
    ensures Sound(cap, Merged(customer, stop))
    ensures var a := Reach(cap, Reach(cap, st, customer), stop);
      && Idle(a.walked, |st.walked|)
      && Reach(cap, st, Merged(customer, stop)) == WithoutState(a, |st.walked|)
  {
    hide Fill, Slack, Reach;
    var n := |st.walked|;
    var one := Reach(cap, st, customer);
    BuyForBoth(cap, st, customer, stop.energy);
    var rest := Last(one.walked).departure - stop.energy;
    assert Without(one.walked, n) == one.walked[..n];
    var g := one.walked;
    if rest < 0.0 {
      FillWithout(cap, one.walked, one.shift, -rest, n);
      g := Fill(cap, one.walked, one.shift, -rest).walked;
    }
    AppendWithout(g, n, Soc(Max(0.0, rest), Max(0.0, rest), stop.charger));
    ReachIs(cap, one, stop);
    ReachIs(cap, st, Merged(customer, stop));
  }

  lemma {:induction false} ReachIs(cap: real, st: State, stop: Stop)
    requires Ready(cap, st) && Sound(cap, stop)
    ensures var left := Last(st.walked).departure - stop.energy;
      Reach(cap, st, stop) ==
        if left >= 0.0 then State(st.walked + [Soc(left, left, stop.charger)], st.shift, st.shortfall)
        else (var f := Fill(cap, st.walked, st.shift, -left);
              State(f.walked + [Soc(0.0, 0.0, stop.charger)], f.shift, st.shortfall + f.shortfall))
  {
  }

  lemma AppendWithout(ps: seq<Soc>, m: nat, p: Soc)
    requires Idle(ps, m)
    ensures Without(ps + [p], m) == Without(ps, m) + [p] && Idle(ps + [p], m)
  {
  }

  /** Fold every stop without a charger into the stop that follows it. */
  function Collapse(stops: seq<Stop>): (r: seq<Stop>)
    decreases |stops|
  {
    if |stops| <= 1 then stops
    else if stops[0].charger.None? then Collapse([Merged(stops[0], stops[1])] + stops[2..])
    else [stops[0]] + Collapse(stops[1..])
  }

  // ----- what the summary reads off the final state -----

  /** `std::clamp`. */
  function Clamp(x: real, low: real, high: real): real {
    if x < low then low else if high < x then high else x
  }

  function ChargingTimeAt(cap: real, p: Soc): real
    requires Fits(cap, p.charger) && 0.0 <= cap
  {
    if p.charger.None? then 0.0
    else
      var start := Clamp(p.arrival, 0.0, cap);
      Duration(p.charger.value, start, Clamp(p.departure, start, cap))
  }

  ghost predicate AllFit(cap: real, ps: seq<Soc>) {
    forall i | 0 <= i < |ps| :: Fits(cap, ps[i].charger)
  }

  function ChargingTime(cap: real, ps: seq<Soc>): real
    requires 0.0 <= cap && AllFit(cap, ps)
  {
    if ps == [] then 0.0
    else ChargingTime(cap, ps[..|ps| - 1]) + ChargingTimeAt(cap, ps[|ps| - 1])
  }

  lemma {:induction false} ChargingTimeWithout(cap: real, ps: seq<Soc>, m: nat)
    requires 0.0 <= cap && AllFit(cap, ps)
    requires m < |ps| && ps[m].charger.None?
    ensures ChargingTime(cap, Without(ps, m)) == ChargingTime(cap, ps)
  {
    hide ChargingTimeAt, Fits;
    var n := |ps| - 1;
    if m < n {
      ChargingTimeWithout(cap, ps[..n], m);
      assert Without(ps, m)[..n - 1] == Without(ps[..n], m);
    } else {
      assert Without(ps, m) == ps[..n];
      assert ChargingTimeAt(cap, ps[n]) == 0.0 by { NothingToCharge(cap, ps[n]); }
    }
  }

  lemma NothingToCharge(cap: real, p: Soc)
    requires Fits(cap, p.charger) && 0.0 <= cap && p.charger.None?
    ensures ChargingTimeAt(cap, p) == 0.0
  {
  }

  ghost predicate SameBill(cap: real, a: State, b: State)
    requires Ready(cap, a) && Ready(cap, b)
  {
    && a.shift == b.shift
    && a.shortfall == b.shortfall
    && ChargingTime(cap, a.walked) == ChargingTime(cap, b.walked)
  }

  /** Station-only and full-node walks of the same stops run up the same bill. */
  lemma {:induction false} CollapseKeepsBill(cap: real, st: State, stops: seq<Stop>)
    requires Ready(cap, st) && AllSound(cap, stops)
    requires AllConcave(st.walked) && ConcaveStops(stops)
    ensures AllSound(cap, Collapse(stops))
    ensures SameBill(cap, Run(cap, st, stops), Run(cap, st, Collapse(stops)))
    decreases |stops|
  {
    hide Reach, AllConcave, Slack, Concave, Strict, ChargingTime;
    if |stops| > 1 {
      if stops[0].charger.None? {
        var fewer := [Merged(stops[0], stops[1])] + stops[2..];
        MergeTwo(cap, st, stops[0], stops[1]);
        var n := |st.walked|;
        assert stops[1..][1..] == stops[2..];
        var two := Reach(cap, Reach(cap, st, stops[0]), stops[1]);
        assert Run(cap, st, stops) == Run(cap, two, stops[2..]) by {
          assert Run(cap, st, stops) == Run(cap, Reach(cap, st, stops[0]), stops[1..]);
        }
        assert fewer[1..] == stops[2..];
        RunWithout(cap, two, stops[2..], n);
        assert Run(cap, st, fewer) == WithoutState(Run(cap, st, stops), n);
        ChargingTimeWithout(cap, Run(cap, st, stops).walked, n);
        CollapseKeepsBill(cap, st, fewer);
      } else {
        assert [stops[0]][0] == stops[0];
        ReachConcave(cap, st, stops[0]);
        CollapseKeepsBill(cap, Reach(cap, st, stops[0]), stops[1..]);
        assert ([stops[0]] + Collapse(stops[1..]))[1..] == Collapse(stops[1..]);
      }
    }
  }
}
