/** The two charging kernels as they run: arrays of arrival and departure energy, updated in place.
    `ChargeNodes` fills the arrays for the whole route first and shifts every later position;
    `ChargeStations` works position by position and shifts only what it has reached. */
module Kernels {
  import opened Common
  import opened Curves
  import opened Charging
  import opened ChargingSplit

  /** The walk that the first `n` entries of the two arrays describe. */
  ghost function Walk(stops: seq<Stop>, arrival: seq<real>, departure: seq<real>, n: nat): (ps: seq<Soc>)
    requires n <= |arrival| && n <= |departure| && n <= |stops| + 1
    ensures |ps| == n
    ensures forall j | 0 <= j < n ::
      ps[j] == Soc(arrival[j], departure[j], if j == 0 then None else stops[j - 1].charger)
  {
    seq(n, j requires 0 <= j < n =>
      Soc(arrival[j], departure[j], if j == 0 then None else stops[j - 1].charger))
  }

  /** The charging positions below `n`, in order. */
  function StationPositions(stops: seq<Stop>, n: nat): (r: seq<nat>)
    requires n <= |stops| + 1
    ensures forall i | 0 <= i < |r| :: 1 <= r[i] < n && stops[r[i] - 1].charger.Some?
    ensures forall k | 1 <= k < n && stops[k - 1].charger.Some? :: k in r
    ensures forall i, j | 0 <= i < j < |r| :: r[i] < r[j]
  {
    if n <= 1 then []
    else StationPositions(stops, n - 1) + (if stops[n - 2].charger.Some? then [n - 1] else [])
  }

  lemma {:induction false} PickSkips(cap: real, ps: seq<Soc>, shift: real, m: nat, n: nat)
    requires Walked(cap, ps) && m <= n <= |ps|
    requires forall k | m <= k < n :: ps[k].charger.None?
    ensures Pick(cap, ps, shift, n) == Pick(cap, ps, shift, m)
    decreases n
  {
    hide Slack, Bought, NextBreakpoint, RateOf;
    if m < n { PickSkips(cap, ps, shift, m, n - 1); }
  }

  /** Where the gap before the `i`-th charging position starts and ends. */
  function GapStart(preceding: seq<nat>, i: nat): nat
    requires i <= |preceding|
  {
    if i == 0 then 0 else preceding[i - 1] + 1
  }

  function GapEnd(preceding: seq<nat>, n: nat, i: nat): nat
    requires i <= |preceding|
  {
    if i < |preceding| then preceding[i] else n
  }

  lemma NotListed(preceding: seq<nat>, n: nat, i: nat, k: nat)
    requires i <= |preceding| && forall a, b | 0 <= a < b < |preceding| :: preceding[a] < preceding[b]
    requires GapStart(preceding, i) <= k < GapEnd(preceding, n, i)
    ensures k !in preceding
  {
    forall m | 0 <= m < |preceding| ensures preceding[m] != k {
      if m < i { assert preceding[m] <= preceding[i - 1]; } else { assert preceding[i] <= preceding[m]; }
    }
  }

  /** Between two neighbouring charging positions no station is picked. */
  lemma {:induction false} PickAcrossGap(cap: real, stops: seq<Stop>, ps: seq<Soc>, shift: real, i: nat)
    requires Walked(cap, ps) && 1 <= |ps| <= |stops| + 1 && i <= |StationPositions(stops, |ps|)|
    requires forall j | 0 <= j < |ps| :: ps[j].charger == if j == 0 then None else stops[j - 1].charger
    ensures var preceding := StationPositions(stops, |ps|);
      && GapStart(preceding, i) <= GapEnd(preceding, |ps|, i) <= |ps|
      && Pick(cap, ps, shift, GapEnd(preceding, |ps|, i)) == Pick(cap, ps, shift, GapStart(preceding, i))
  {
    hide Walked, Pick, Available;
    var preceding := StationPositions(stops, |ps|);
    var low, high := GapStart(preceding, i), GapEnd(preceding, |ps|, i);
    forall k | low <= k < high ensures ps[k].charger.None? {
      NotListed(preceding, |ps|, i, k);
    }
    PickSkips(cap, ps, shift, low, high);
  }

  /** One step of the scan. */
  lemma PickNext(cap: real, ps: seq<Soc>, shift: real, k: nat)
    requires Walked(cap, ps) && k < |ps|
    ensures Pick(cap, ps, shift, k + 1)
            == var best := Pick(cap, ps, shift, k);
               if Available(cap, ps, shift, k) > 0.0
                  && (best.None? || RateOf(cap, ps[best.value]) <= RateOf(cap, ps[k]))
               then Some(k) else best
  {
    hide Walked, Available, RateOf;
  }

  /** The room left from each position on, from `position - 1` down to `earliest`. */
  method SlackTable(cap: real, ghost ps: seq<Soc>, departure: array<real>, position: nat, earliest: nat)
    returns (slack: array<real>)
    requires earliest < position == |ps| <= departure.Length
    requires forall j | 0 <= j < position :: departure[j] == ps[j].departure
    ensures fresh(slack) && slack.Length == position
    ensures forall k | earliest <= k < position :: slack[k] == Slack(cap, ps, k)
  {
    slack := new real[position];
    var suffix := cap - departure[position - 1];
    var reverse := position;
    while reverse > earliest
      invariant earliest <= reverse <= position
      invariant suffix == if reverse == position then cap - departure[position - 1] else Slack(cap, ps, reverse)
      invariant forall k | reverse <= k < position :: slack[k] == Slack(cap, ps, k)
    {
      reverse := reverse - 1;
      suffix := Min(cap - departure[reverse], suffix);
      slack[reverse] := suffix;
    }
  }

  /** Scan the stations passed so far for the one to charge at. */
  method BestStation(cap: real, stops: seq<Stop>, arrival: array<real>, departure: array<real>,
                     position: nat, preceding: seq<nat>, shift: real)
    returns (best: Option<nat>, available: real)
    requires 1 <= position <= |stops| && arrival.Length == departure.Length == |stops| + 1
    requires Walked(cap, Walk(stops, arrival[..], departure[..], position))
    requires preceding == StationPositions(stops, position) && preceding != []
    ensures var ps := Walk(stops, arrival[..], departure[..], position);
      && best == Pick(cap, ps, shift, position)
      && (best.Some? ==> available == Available(cap, ps, shift, best.value))
  {
    hide Pick, Slack, Bought, NextBreakpoint, Rate, StationPositions, Walked;
    ghost var ps := Walk(stops, arrival[..], departure[..], position);
    var slack := SlackTable(cap, ps, departure, position, preceding[0]);
    best, available := None, 0.0;
    var bestRate := -1.0;
    PickAcrossGap(cap, stops, ps, shift, 0);
    assert Pick(cap, ps, shift, 0) == None by { PickNone(cap, ps, shift); }
    for index := 0 to |preceding|
      invariant best == Pick(cap, ps, shift, GapEnd(preceding, position, index))
      invariant best.Some? ==>
        && best.value < position && Fits(cap, ps[best.value].charger)
        && bestRate == RateOf(cap, ps[best.value])
        && available == Available(cap, ps, shift, best.value)
      invariant best.None? ==> bestRate == -1.0
      invariant forall k | preceding[0] <= k < position :: slack[k] == Slack(cap, ps, k)
    {
      var station := preceding[index];
      assert preceding[0] <= station;
      var curve, energy := stops[station - 1].charger.value, departure[station];
      assert ps[station] == Soc(arrival[station], energy, Some(curve));
      WalkedAt(cap, ps, station);
      RateNonNegative(cap, ps[station]);
      var rate := Rate(curve, energy);
      var sale := Min(Min(slack[station], NextBreakpoint(curve, energy) - energy), Bought(shift, rate));
      assert rate == RateOf(cap, ps[station]);
      assert sale == Available(cap, ps, shift, station);
      PickNext(cap, ps, shift, station);
      PickAcrossGap(cap, stops, ps, shift, index + 1);
      if sale > 0.0 && rate >= bestRate {
        best, bestRate, available := Some(station), rate, sale;
      }
    }
  }

  lemma WalkedAt(cap: real, ps: seq<Soc>, i: nat)
    requires Walked(cap, ps) && i < |ps|
    ensures 0.0 <= ps[i].departure <= cap && Fits(cap, ps[i].charger)
  {
  }

  lemma {:induction false} PickNone(cap: real, ps: seq<Soc>, shift: real)
    requires Walked(cap, ps)
    ensures Pick(cap, ps, shift, 0) == None
  {
  }

  /** Add `x` to both energies of every position in `from..to`. */
  method Raise(arrival: array<real>, departure: array<real>, from: nat, to: nat, x: real)
    requires arrival != departure && arrival.Length == departure.Length && from <= to <= arrival.Length
    modifies arrival, departure
    ensures forall j | 0 <= j < arrival.Length ::
      && arrival[j] == (if from <= j < to then old(arrival[j]) + x else old(arrival[j]))
      && departure[j] == (if from <= j < to then old(departure[j]) + x else old(departure[j]))
  {
    for suffix := from to to
      invariant forall j | 0 <= j < arrival.Length ::
        && arrival[j] == (if from <= j < suffix then old(arrival[j]) + x else old(arrival[j]))
        && departure[j] == (if from <= j < suffix then old(departure[j]) + x else old(departure[j]))
    {
      arrival[suffix] := arrival[suffix] + x;
      departure[suffix] := departure[suffix] + x;
    }
  }

  /** Positions `from..to` are not settled yet: nothing charged, each a leg below its predecessor. */
  ghost predicate Pending(stops: seq<Stop>, arrival: seq<real>, departure: seq<real>, from: nat, to: nat)
    requires 1 <= from && to <= |arrival| == |departure| == |stops| + 1
  {
    forall j | from <= j < to :: Unsettled(stops, arrival, departure, j)
  }

  ghost predicate Unsettled(stops: seq<Stop>, arrival: seq<real>, departure: seq<real>, j: nat)
    requires 1 <= j < |arrival| == |departure| == |stops| + 1
  {
    departure[j] == arrival[j] == departure[j - 1] - stops[j - 1].energy
  }

  lemma WalkNext(stops: seq<Stop>, arrival: seq<real>, departure: seq<real>, n: nat)
    requires n < |arrival| && n < |departure| && 1 <= n <= |stops|
    ensures Walk(stops, arrival, departure, n + 1)
            == Walk(stops, arrival, departure, n) + [Soc(arrival[n], departure[n], stops[n - 1].charger)]
  {
  }

  lemma {:induction false} NothingPassed(cap: real, stops: seq<Stop>, ps: seq<Soc>, shift: real)
    requires Walked(cap, ps) && 1 <= |ps| <= |stops| + 1 && StationPositions(stops, |ps|) == []
    requires forall j | 0 <= j < |ps| :: ps[j].charger == if j == 0 then None else stops[j - 1].charger
    ensures Pick(cap, ps, shift, |ps|) == None
  {
    hide Walked, StationPositions;
    PickAcrossGap(cap, stops, ps, shift, 0);
    PickNone(cap, ps, shift);
  }

  lemma {:induction false} NoShiftNoSale(cap: real, ps: seq<Soc>)
    requires Walked(cap, ps)
    ensures Pick(cap, ps, 0.0, |ps|) == None
  {
    hide Slack, NextBreakpoint, Rate;
    PickIsBest(cap, ps, 0.0);
  }

  /** The station choice of one purchase: none when no station has been passed, and none to scan
      for when `skipSpent` is set and the shift is used up. */
  method ChooseStation(cap: real, stops: seq<Stop>, arrival: array<real>, departure: array<real>,
                       position: nat, preceding: seq<nat>, shift: real, skipSpent: bool)
    returns (best: Option<nat>, available: real)
    requires 1 <= position <= |stops| && arrival.Length == departure.Length == |stops| + 1
    requires Walked(cap, Walk(stops, arrival[..], departure[..], position)) && 0.0 <= shift
    requires preceding == StationPositions(stops, position)
    ensures var ps := Walk(stops, arrival[..], departure[..], position);
      if best.None? then Pick(cap, ps, shift, |ps|).None?
      else IsBest(cap, ps, shift, best.value) && available == Available(cap, ps, shift, best.value)
  {
    hide Walked, StationPositions, Available, IsBest;
    ghost var ps := Walk(stops, arrival[..], departure[..], position);
    PickIsBest(cap, ps, shift);
    if preceding == [] {
      NothingPassed(cap, stops, ps, shift);
      best, available := None, 0.0;
    } else if skipSpent && shift == 0.0 {
      NoShiftNoSale(cap, ps);
      best, available := None, 0.0;
    } else {
      best, available := BestStation(cap, stops, arrival, departure, position, preceding, shift);
    }
  }

  /** Sell `x` at `station`: its own departure, then both energies of every later position. */
  method Sell(stops: seq<Stop>, arrival: array<real>, departure: array<real>,
              station: nat, position: nat, end: nat, x: real)
    requires arrival != departure && arrival.Length == departure.Length == |stops| + 1
    requires 1 <= station < position < end <= |stops| + 1
    requires Pending(stops, arrival[..], departure[..], position + 1, end)
    requires arrival[position] == departure[position]
    modifies arrival, departure
    ensures Walk(stops, arrival[..], departure[..], position)
            == Charge(Walk(stops, old(arrival[..]), old(departure[..]), position), station, x)
    ensures arrival[position] == departure[position] == old(arrival[position]) + x
    ensures Pending(stops, arrival[..], departure[..], position + 1, end)
  {
    ghost var before := departure[..];
    departure[station] := departure[station] + x;
    Raise(arrival, departure, station + 1, end, x);
    forall j | position + 1 <= j < end ensures Unsettled(stops, arrival[..], departure[..], j) {
      assert Unsettled(stops, old(arrival[..]), before, j);
    }
  }

  /** Give up on `x`: the position and everything after it arrive with `x` more. */
  method Forgive(stops: seq<Stop>, arrival: array<real>, departure: array<real>, position: nat, end: nat, x: real)
    requires arrival != departure && arrival.Length == departure.Length == |stops| + 1
    requires 1 <= position < end <= |stops| + 1
    requires Pending(stops, arrival[..], departure[..], position + 1, end)
    requires arrival[position] == departure[position]
    modifies arrival, departure
    ensures Walk(stops, arrival[..], departure[..], position)
            == Walk(stops, old(arrival[..]), old(departure[..]), position)
    ensures arrival[position] == departure[position] == old(arrival[position]) + x
    ensures Pending(stops, arrival[..], departure[..], position + 1, end)
  {
    Raise(arrival, departure, position, end, x);
    forall j | position + 1 <= j < end ensures Unsettled(stops, arrival[..], departure[..], j) {
      assert Unsettled(stops, old(arrival[..]), old(departure[..]), j);
    }
  }

  /** The purchase loop of one position: afterwards the arrays describe `Reach`. */
  method Settle(cap: real, stops: seq<Stop>, arrival: array<real>, departure: array<real>,
                position: nat, end: nat, preceding: seq<nat>, shift0: real, shortfall0: real,
                skipSpent: bool)
    returns (shift: real, shortfall: real)
    requires arrival != departure && arrival.Length == departure.Length == |stops| + 1
    requires 1 <= position < end <= |stops| + 1 && AllSound(cap, stops)
    requires Ready(cap, State(Walk(stops, arrival[..], departure[..], position), shift0, shortfall0))
    requires Unsettled(stops, arrival[..], departure[..], position)
    requires Pending(stops, arrival[..], departure[..], position + 1, end)
    requires preceding == StationPositions(stops, position)
    modifies arrival, departure
    ensures State(Walk(stops, arrival[..], departure[..], position + 1), shift, shortfall)
            == Reach(cap, State(Walk(stops, old(arrival[..]), old(departure[..]), position), shift0, shortfall0),
                     stops[position - 1])
    ensures Pending(stops, arrival[..], departure[..], position + 1, end)
  {
    hide Walked, StationPositions, Available, IsBest, Fill, Measure, Pending, RateOf, Spent;
    shift, shortfall := shift0, shortfall0;
    ghost var start := Walk(stops, arrival[..], departure[..], position);
    ghost var need := -arrival[position];
    ghost var goal := if need > 0.0 then Fill(cap, start, shift0, need) else State(start, shift0, 0.0);
    assert arrival[position] == Last(start).departure - stops[position - 1].energy;
    while arrival[position] < 0.0
      invariant Walked(cap, Walk(stops, arrival[..], departure[..], position)) && 0.0 <= shift
      invariant arrival[position] == departure[position]
      invariant Pending(stops, arrival[..], departure[..], position + 1, end)
      invariant arrival[position] < 0.0 ==>
        && shortfall == shortfall0
        && Fill(cap, Walk(stops, arrival[..], departure[..], position), shift, -arrival[position]) == goal
      invariant 0.0 <= arrival[position] ==>
        && State(Walk(stops, arrival[..], departure[..], position), shift, shortfall - shortfall0) == goal
        && arrival[position] == Max(0.0, -need)
      invariant need <= 0.0 ==> 0.0 <= arrival[position]
      decreases if arrival[position] < 0.0 then 1 else 0,
                Measure(cap, Walk(stops, arrival[..], departure[..], position), shift)
    {
      ghost var ps := Walk(stops, arrival[..], departure[..], position);
      var required := -arrival[position];
      var best, available := ChooseStation(cap, stops, arrival, departure, position, preceding, shift, skipSpent);
      if best.None? {
        FillNothing(cap, ps, shift, required);
        shortfall := shortfall + required;
        Forgive(stops, arrival, departure, position, end, required);
      } else {
        var station := best.value;
        BestHasCharger(cap, ps, shift, station);
        FillStep(cap, ps, shift, required, station);
        if required > available { SaleProgress(cap, ps, shift, station, available); }
        var charged := Min(required, available);
        var spent := SpendShift(cap, ps, stops[station - 1].charger.value, departure[station], shift, station, charged);
        Sell(stops, arrival, departure, station, position, end, charged);
        shift := spent;
      }
    }
    WalkNext(stops, arrival[..], departure[..], position);
  }

  lemma BestHasCharger(cap: real, ps: seq<Soc>, shift: real, i: nat)
    requires Walked(cap, ps) && IsBest(cap, ps, shift, i)
    ensures i < |ps| && ps[i].charger.Some? && 0.0 < Available(cap, ps, shift, i)
  {
    hide Slack, RateOf;
  }

  /** The shift left after a sale, never below zero. */
  method SpendShift(cap: real, ghost ps: seq<Soc>, curve: Curve, energy: real, shift: real, ghost station: nat, x: real)
    returns (left: real)
    requires Walked(cap, ps) && station < |ps| && ps[station].charger == Some(curve) && ps[station].departure == energy
    requires energy + x <= cap && 0.0 <= Spent(cap, ps, shift, station, x)
    ensures left == Spent(cap, ps, shift, station, x)
  {
    hide TimeAt;
    left := Max(0.0, shift - Duration(curve, energy, energy + x));
  }
}
