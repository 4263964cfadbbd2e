/** Stopping a purchase halfway and resuming it changes nothing: on concave curves the greedy rule
    stays with the station it has chosen until that station is used up. */
module ChargingSplit {
  import opened Common
  import opened Curves
  import opened Charging

  // ----- what Pick returns -----

  ghost predicate BestBelow(cap: real, ps: seq<Soc>, shift: real, n: nat, best: Option<nat>)
    requires Walked(cap, ps) && n <= |ps|
  {
    match best
    case None => forall j | 0 <= j < n :: Available(cap, ps, shift, j) <= 0.0
    case Some(i) =>
      && i < n
      && Available(cap, ps, shift, i) > 0.0
      && (forall j | 0 <= j < i && Available(cap, ps, shift, j) > 0.0 ::
            RateOf(cap, ps[j]) <= RateOf(cap, ps[i]))
      && (forall j | i < j < n && Available(cap, ps, shift, j) > 0.0 ::
            RateOf(cap, ps[j]) < RateOf(cap, ps[i]))
  }

  lemma {:induction false} PickBelow(cap: real, ps: seq<Soc>, shift: real, n: nat)
    requires Walked(cap, ps) && n <= |ps|
    ensures BestBelow(cap, ps, shift, n, Pick(cap, ps, shift, n))
  {
    hide Available, RateOf;
    if n > 0 { PickBelow(cap, ps, shift, n - 1); }
  }

  /** `Pick` finds a best station exactly when some station can sell. */
  lemma {:induction false} PickIsBest(cap: real, ps: seq<Soc>, shift: real)
    requires Walked(cap, ps)
    ensures var best := Pick(cap, ps, shift, |ps|);
      if best.Some? then IsBest(cap, ps, shift, best.value)
      else forall j | 0 <= j < |ps| :: Available(cap, ps, shift, j) <= 0.0
  {
    PickBelow(cap, ps, shift, |ps|);
  }

  /** There is only one best station. */
  lemma {:induction false} BestIsPicked(cap: real, ps: seq<Soc>, shift: real, i: nat)
    requires Walked(cap, ps) && IsBest(cap, ps, shift, i)
    ensures Pick(cap, ps, shift, |ps|) == Some(i)
  {
    PickIsBest(cap, ps, shift);
  }

  // ----- the chosen station stays chosen -----

  ghost predicate AllConcave(ps: seq<Soc>) {
    forall i | 0 <= i < |ps| && ps[i].charger.Some? ::
      Strict(ps[i].charger.value) && Concave(ps[i].charger.value)
  }

  lemma {:induction false} SlackAfter(cap: real, ps: seq<Soc>, i: nat, x: real, j: nat)
    requires i < |ps| && j < |ps| && 0.0 <= x
    ensures i <= j ==> Slack(cap, Charge(ps, i, x), j) == Slack(cap, ps, j) - x
    ensures Slack(cap, Charge(ps, i, x), j) <= Slack(cap, ps, j)
    decreases |ps| - j
  {
    if j < |ps| - 1 { SlackAfter(cap, ps, i, x, j + 1); }
  }

  lemma {:induction false} SlackGrows(cap: real, ps: seq<Soc>, i: nat, j: nat)
    requires i <= j < |ps|
    ensures Slack(cap, ps, i) <= Slack(cap, ps, j)
    decreases j - i
  {
    if i < j { SlackGrows(cap, ps, i + 1, j); }
  }

  /** The chosen station: same segment, same rate, `x` less to sell. */
  lemma StickyHere(cap: real, ps: seq<Soc>, shift: real, i: nat, x: real, left: real)
    requires Walked(cap, ps) && 0.0 <= shift && i < |ps|
    requires 0.0 < x < Available(cap, ps, shift, i)
    requires Walked(cap, Charge(ps, i, x))
    requires 0.0 < RateOf(cap, ps[i]) && left == shift - TimeFor(x, RateOf(cap, ps[i]))
    ensures RateOf(cap, Charge(ps, i, x)[i]) == RateOf(cap, ps[i])
    ensures Available(cap, Charge(ps, i, x), left, i) == Available(cap, ps, shift, i) - x
  {
    hide Slack, NextBreakpoint, Bought, TimeFor, Rate;
    AvailableParts(cap, ps, shift, i);
    SameSegment(ps[i].charger.value, ps[i].departure, ps[i].departure + x);
    SlackAfter(cap, ps, i, x, i);
    TimeForFits(shift, RateOf(cap, ps[i]), x);
  }

  /** No earlier station becomes able to sell, and none changes its rate. */
  lemma StickyEarlier(cap: real, ps: seq<Soc>, shift: real, i: nat, x: real, left: real, j: nat)
    requires Walked(cap, ps) && j < i < |ps| && Walked(cap, Charge(ps, i, x))
    requires 0.0 <= x && left <= shift
    ensures RateOf(cap, Charge(ps, i, x)[j]) == RateOf(cap, ps[j])
    ensures Available(cap, Charge(ps, i, x), left, j) <= Available(cap, ps, shift, j)
  {
    hide Slack, NextBreakpoint, Bought, RateOf;
    assert Charge(ps, i, x)[j] == ps[j];
    SlackAfter(cap, ps, i, x, j);
    RateNonNegative(cap, ps[j]);
    BoughtMonotone(left, shift, RateOf(cap, ps[j]));
  }

  /** Every later station could sell all along, and charging has only slowed it down. */
  lemma StickyLater(cap: real, ps: seq<Soc>, shift: real, i: nat, x: real, j: nat)
    requires Walked(cap, ps) && AllConcave(ps) && 0.0 <= shift && i < j < |ps|
    requires IsBest(cap, ps, shift, i) && ps[j].charger.Some?
    requires 0.0 <= x && Walked(cap, Charge(ps, i, x))
    ensures RateOf(cap, Charge(ps, i, x)[j]) < RateOf(cap, ps[i])
  {
    assert Available(cap, ps, shift, j) > 0.0 by {
      hide Slack, NextBreakpoint, Bought, RateOf;
      AvailableParts(cap, ps, shift, i);
      SlackGrows(cap, ps, i, j);
      SlackIsLeast(cap, ps, j);
      RateNonNegative(cap, ps[j]);
      BoughtPositive(shift, RateOf(cap, ps[j]));
    }
    assert Charge(ps, i, x)[j].departure <= cap;
    RateFalls(ps[j].charger.value, ps[j].departure, ps[j].departure + x);
  }

  lemma Sticky(cap: real, ps: seq<Soc>, shift: real, i: nat, x: real, left: real)
    requires Walked(cap, ps) && AllConcave(ps) && 0.0 <= shift
    requires IsBest(cap, ps, shift, i) && 0.0 < x < Available(cap, ps, shift, i)
    requires Walked(cap, Charge(ps, i, x))
    requires 0.0 < RateOf(cap, ps[i]) && left == shift - TimeFor(x, RateOf(cap, ps[i])) && left <= shift
    ensures IsBest(cap, Charge(ps, i, x), left, i)
    ensures Available(cap, Charge(ps, i, x), left, i) == Available(cap, ps, shift, i) - x
  {
    hide Available, RateOf, TimeFor;
    var qs := Charge(ps, i, x);
    StickyHere(cap, ps, shift, i, x, left);
    forall j | 0 <= j < i && Available(cap, qs, left, j) > 0.0
      ensures RateOf(cap, qs[j]) <= RateOf(cap, qs[i])
    {
      StickyEarlier(cap, ps, shift, i, x, left, j);
    }
    forall j | i < j < |qs| && Available(cap, qs, left, j) > 0.0
      ensures RateOf(cap, qs[j]) < RateOf(cap, qs[i])
    {
      SellerHasCharger(cap, qs, left, j);
      StickyLater(cap, ps, shift, i, x, j);
    }
  }

  lemma SellerHasCharger(cap: real, ps: seq<Soc>, shift: real, j: nat)
    requires Walked(cap, ps) && j < |ps| && Available(cap, ps, shift, j) > 0.0
    ensures ps[j].charger.Some?
  {
  }

  // ----- splitting a purchase -----

  lemma ConcaveAfter(ps: seq<Soc>, i: nat, x: real)
    requires AllConcave(ps) && i < |ps|
    ensures AllConcave(Charge(ps, i, x))
  {
  }

  lemma ChargeTwice(cap: real, ps: seq<Soc>, shift: real, i: nat, a: real, b: real)
    requires Walked(cap, ps) && i < |ps| && ps[i].charger.Some?
    requires 0.0 <= a && 0.0 <= b && ps[i].departure + (a + b) <= cap
    requires Walked(cap, Charge(ps, i, a))
    ensures Charge(Charge(ps, i, a), i, b) == Charge(ps, i, a + b)
    ensures Spent(cap, Charge(ps, i, a), Spent(cap, ps, shift, i, a), i, b) == Spent(cap, ps, shift, i, a + b)
  {
    hide TimeAt;
    assert Charge(ps, i, a)[i].departure + b == ps[i].departure + (a + b);
    assert forall j | 0 <= j < |ps| :: Charge(Charge(ps, i, a), i, b)[j] == Charge(ps, i, a + b)[j];
  }

  /** One step of `Fill` when a best station is known. */
  lemma FillStep(cap: real, ps: seq<Soc>, shift: real, need: real, i: nat)
    requires Walked(cap, ps) && 0.0 <= shift && 0.0 < need && IsBest(cap, ps, shift, i)
    ensures ps[i].charger.Some?
    ensures var x := Min(need, Available(cap, ps, shift, i));
      && ps[i].departure + x <= cap && Walked(cap, Charge(ps, i, x)) && 0.0 <= Spent(cap, ps, shift, i, x) <= shift
      && Fill(cap, ps, shift, need)
         == if need <= x then State(Charge(ps, i, x), Spent(cap, ps, shift, i, x), 0.0)
            else Fill(cap, Charge(ps, i, x), Spent(cap, ps, shift, i, x), need - x)
  {
    hide Available, RateOf, Spent, Charge, Walked;
    BestIsPicked(cap, ps, shift, i);
    ChargeKeeps(cap, ps, shift, i, Min(need, Available(cap, ps, shift, i)));
  }

  /** A purchase `b` that follows one of `a < v` at the same station. */
  lemma {:induction false} FillResumed(cap: real, ps: seq<Soc>, shift: real, i: nat, a: real, b: real)
    requires Walked(cap, ps) && AllConcave(ps) && 0.0 <= shift && IsBest(cap, ps, shift, i)
    requires 0.0 < a < Available(cap, ps, shift, i) && 0.0 < b
    ensures ps[i].charger.Some? && ps[i].departure + a <= cap && Walked(cap, Charge(ps, i, a))
    ensures 0.0 <= Spent(cap, ps, shift, i, a)
    ensures Fill(cap, ps, shift, a + b)
         == Fill(cap, Charge(ps, i, a), Spent(cap, ps, shift, i, a), b)
  {
    hide Available, RateOf, Spent, Charge, Walked, Fill, TimeFor;
    var v := Available(cap, ps, shift, i);
    ChargeKeeps(cap, ps, shift, i, a);
    SaleDuration(cap, ps, shift, i, a);
    var qs, left := Charge(ps, i, a), Spent(cap, ps, shift, i, a);
    Sticky(cap, ps, shift, i, a, left);
    FillStep(cap, ps, shift, a + b, i);
    FillStep(cap, qs, left, b, i);
    var x := Min(b, v - a);
    assert Min(a + b, v) == a + x;
    ChargeTwice(cap, ps, shift, i, a, x);
    assert a + b - (a + x) == b - x;
  }

  lemma {:induction false} FillNothing(cap: real, ps: seq<Soc>, shift: real, need: real)
    requires Walked(cap, ps) && 0.0 <= shift && 0.0 <= need
    requires need == 0.0 || Pick(cap, ps, shift, |ps|).None?
    ensures Fill(cap, ps, shift, need) == State(ps, shift, need)
  {
    hide Available, RateOf, Spent, Charge, Walked;
  }

  /** Buying `a` and then `b` is buying `a + b`. */
  lemma {:induction false} FillSplit(cap: real, ps: seq<Soc>, shift: real, a: real, b: real)
    requires Walked(cap, ps) && AllConcave(ps) && 0.0 <= shift && 0.0 <= a && 0.0 <= b
    ensures var f := Fill(cap, ps, shift, a);
            var g := Fill(cap, f.walked, f.shift, b);
            Fill(cap, ps, shift, a + b) == State(g.walked, g.shift, f.shortfall + g.shortfall)
    decreases Measure(cap, ps, shift), 1
  {
    hide *;
    PickIsBest(cap, ps, shift);
    if a == 0.0 {
      FillNothing(cap, ps, shift, a);
    } else if b == 0.0 {
      var f := Fill(cap, ps, shift, a);
      FillNothing(cap, f.walked, f.shift, b);
    } else if Pick(cap, ps, shift, |ps|).None? {
      FillNothing(cap, ps, shift, a);
      FillNothing(cap, ps, shift, b);
      FillNothing(cap, ps, shift, a + b);
    } else {
      var i := Pick(cap, ps, shift, |ps|).value;
      FillSplitAt(cap, ps, shift, a, b, i);
    }
  }

  lemma {:induction false} FillSplitAt(cap: real, ps: seq<Soc>, shift: real, a: real, b: real, i: nat)
    requires Walked(cap, ps) && AllConcave(ps) && 0.0 <= shift && 0.0 < a && 0.0 < b
    requires IsBest(cap, ps, shift, i)
    ensures var f := Fill(cap, ps, shift, a);
            var g := Fill(cap, f.walked, f.shift, b);
            Fill(cap, ps, shift, a + b) == State(g.walked, g.shift, f.shortfall + g.shortfall)
    decreases Measure(cap, ps, shift), 0
  {
    hide Available, RateOf, Spent, Charge, Walked, AllConcave, Measure, Fill;
    var v := Available(cap, ps, shift, i);
    FillStep(cap, ps, shift, a, i);
    FillStep(cap, ps, shift, a + b, i);
    if a < v {
      FillResumed(cap, ps, shift, i, a, b);
    } else if a > v {
      SaleProgress(cap, ps, shift, i, v);
      ConcaveAfter(ps, i, v);
      FillSplit(cap, Charge(ps, i, v), Spent(cap, ps, shift, i, v), a - v, b);
      assert a - v + b == a + b - v;
    }
  }
}
