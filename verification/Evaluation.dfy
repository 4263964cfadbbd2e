/** Route costs: the summary of a greedy walk, and the kernels that compute it. */
module Evaluation {
  import opened Common
  import opened Curves
  import opened Charging
  import opened ChargingSplit
  import opened ChargingCollapse
  import opened ChargingLaws
  import opened Kernels

  datatype Vehicle = Vehicle(capacity: real, horizon: real, consumption: real)

  datatype Summary = Summary(feasible: bool, raw: real, travel: real, charging: real, service: real,
                             duration: real, shortfall: real, excess: real)

  function Summarize(v: Vehicle, travel: real, service: real, st: State): Summary
    requires Ready(v.capacity, st)
  {
    var charging := ChargingTime(v.capacity, st.walked);
    var duration := travel + charging + service;
    var excess := Max(Max(travel + service - v.horizon, duration - v.horizon), 0.0);
    Summary(st.shortfall <= 0.0 && excess <= 0.0, travel + charging, travel, charging, service,
            duration, st.shortfall, excess)
  }

  function ShiftLeft(v: Vehicle, travel: real, service: real): real {
    Max(0.0, v.horizon - (travel + service))
  }

  /** The cost of a route, as the greedy walk over its stops defines it. */
  function Cost(v: Vehicle, travel: real, service: real, stops: seq<Stop>): Summary
    requires 0.0 < v.capacity && AllSound(v.capacity, stops)
  {
    Summarize(v, travel, service, Run(v.capacity, Departing(v.capacity, ShiftLeft(v, travel, service)), stops))
  }

  function GeneralizedCost(s: Summary, v: Vehicle, lambda: real): real
    requires 0.0 < v.consumption
  {
    s.raw + lambda * (s.shortfall / v.consumption + s.excess)
  }

  /** The station-only form of a route costs what its full-node form costs. */
  lemma {:induction false} CollapseKeepsCost(v: Vehicle, travel: real, service: real, stops: seq<Stop>)
    requires 0.0 < v.capacity && AllSound(v.capacity, stops) && ConcaveStops(stops)
    ensures AllSound(v.capacity, Collapse(stops))
    ensures Cost(v, travel, service, Collapse(stops)) == Cost(v, travel, service, stops)
  {
    hide Run, Collapse, ChargingTime, ConcaveStops;
    CollapseKeepsBill(v.capacity, Departing(v.capacity, ShiftLeft(v, travel, service)), stops);
  }

  // ----- kernels -----

  lemma {:induction false} RunNext(cap: real, st: State, stops: seq<Stop>, n: nat)
    requires Ready(cap, st) && AllSound(cap, stops) && n < |stops|
    ensures AllSound(cap, stops[..n]) && AllSound(cap, stops[..n + 1])
    ensures Run(cap, st, stops[..n + 1]) == Reach(cap, Run(cap, st, stops[..n]), stops[n])
  {
    hide Reach, Sound;
    var one := [stops[n]];
    assert stops[..n + 1] == stops[..n] + one;
    RunAppend(cap, st, stops[..n], one);
    var mid := Run(cap, st, stops[..n]);
    assert Run(cap, mid, one) == Reach(cap, mid, stops[n]) by {
      assert one[1..] == [];
      assert Run(cap, Reach(cap, mid, one[0]), []) == Reach(cap, mid, one[0]);
    }
  }

  /** Charging time of the arrays, with the source's clamps. */
  method SumCharging(cap: real, stops: seq<Stop>, arrival: array<real>, departure: array<real>)
    returns (time: real)
    requires 0.0 <= cap && AllSound(cap, stops)
    requires arrival.Length == departure.Length == |stops| + 1
    ensures AllFit(cap, Walk(stops, arrival[..], departure[..], |stops| + 1))
    ensures time == ChargingTime(cap, Walk(stops, arrival[..], departure[..], |stops| + 1))
  {
    hide Duration, EnergyStrict, TimeStrict;
    ghost var ps := Walk(stops, arrival[..], departure[..], |stops| + 1);
    forall i | 0 <= i < |ps| ensures Fits(cap, ps[i].charger) {
      if i > 0 { assert Sound(cap, stops[i - 1]); }
    }
    assert ps[..1] == [Soc(arrival[0], departure[0], None)];
    assert ps[..1][..0] == [];
    time := 0.0;
    for position := 1 to |stops| + 1
      invariant time == ChargingTime(cap, ps[..position])
    {
      assert ps[..position + 1][..position] == ps[..position];
      assert ps[..position + 1][position] == ps[position];
      match stops[position - 1].charger
      case None =>
      case Some(curve) =>
        var start := Clamp(arrival[position], 0.0, cap);
        var finish := Clamp(departure[position], start, cap);
        time := time + Duration(curve, start, finish);
    }
    assert ps[..|stops| + 1] == ps;
  }

  /** Sum up a finished walk. */
  method Total(v: Vehicle, travel: real, service: real, stops: seq<Stop>,
               arrival: array<real>, departure: array<real>, ghost shift: real, shortfall: real)
    returns (s: Summary)
    requires 0.0 <= v.capacity && AllSound(v.capacity, stops)
    requires arrival.Length == departure.Length == |stops| + 1
    requires Ready(v.capacity, State(Walk(stops, arrival[..], departure[..], |stops| + 1), shift, shortfall))
    ensures s == Summarize(v, travel, service,
                           State(Walk(stops, arrival[..], departure[..], |stops| + 1), shift, shortfall))
  {
    hide ChargingTime, Walked;
    var time := SumCharging(v.capacity, stops, arrival, departure);
    var duration := travel + time + service;
    var excess := Max(Max(travel + service - v.horizon, duration - v.horizon), 0.0);
    s := Summary(shortfall <= 0.0 && excess <= 0.0, travel + time, travel, time, service,
                 duration, shortfall, excess);
  }

  lemma StartWalk(cap: real, stops: seq<Stop>, arrival: seq<real>, departure: seq<real>, shift: real)
    requires 1 <= |arrival| == |departure| && arrival[0] == 0.0 && departure[0] == cap
    ensures Walk(stops, arrival, departure, 1) == Departing(cap, shift).walked
  {
  }

  lemma PositionsNext(stops: seq<Stop>, position: nat)
    requires 1 <= position <= |stops|
    ensures StationPositions(stops, position + 1)
            == StationPositions(stops, position) + (if stops[position - 1].charger.Some? then [position] else [])
  {
  }

  /** The full-node kernel: fill both arrays for the whole route, then repair from the front. */
  method EvaluateNodes(v: Vehicle, travel: real, service: real, stops: seq<Stop>)
    returns (s: Summary, arrivals: seq<real>, departures: seq<real>)
    requires 0.0 < v.capacity && AllSound(v.capacity, stops)
    ensures s == Cost(v, travel, service, stops)
    ensures |arrivals| == |departures| == |stops| + 1
    ensures Walk(stops, arrivals, departures, |stops| + 1)
            == Run(v.capacity, Departing(v.capacity, ShiftLeft(v, travel, service)), stops).walked
  {
    hide Run, Reach, Walked, StationPositions, Sound, ChargingTime;
    var cap, n := v.capacity, |stops| + 1;
    var arrival, departure := new real[n], new real[n];
    arrival[0], departure[0] := 0.0, cap;
    for position := 1 to n
      invariant arrival[0] == 0.0 && departure[0] == cap
      invariant Pending(stops, arrival[..], departure[..], 1, position)
    {
      ghost var before, since := arrival[..], departure[..];
      arrival[position] := departure[position - 1] - stops[position - 1].energy;
      departure[position] := arrival[position];
      forall j | 1 <= j < position + 1 ensures Unsettled(stops, arrival[..], departure[..], j) {
        if j < position { assert Unsettled(stops, before, since, j); }
      }
    }
    var shift, shortfall := ShiftLeft(v, travel, service), 0.0;
    var preceding: seq<nat> := [];
    ghost var depot := Departing(cap, shift);
    StartWalk(cap, stops, arrival[..], departure[..], shift);
    assert Ready(cap, depot) by { DepartingReady(cap, shift); }
    RunNothing(cap, depot);
    assert stops[..0] == [];
    PositionsNone(stops);
    for position := 1 to n
      invariant AllSound(cap, stops[..position - 1])
      invariant State(Walk(stops, arrival[..], departure[..], position), shift, shortfall)
                == Run(cap, depot, stops[..position - 1])
      invariant Pending(stops, arrival[..], departure[..], position, n)
      invariant preceding == StationPositions(stops, position)
    {
      assert Unsettled(stops, arrival[..], departure[..], position);
      RunNext(cap, depot, stops, position - 1);
      shift, shortfall :=
        Settle(cap, stops, arrival, departure, position, n, preceding, shift, shortfall, false);
      PositionsNext(stops, position);
      if stops[position - 1].charger.Some? { preceding := preceding + [position]; }
    }
    assert stops[..n - 1] == stops;
    s := Total(v, travel, service, stops, arrival, departure, shift, shortfall);
    arrivals, departures := arrival[..], departure[..];
  }

  lemma DepartingReady(cap: real, shift: real)
    requires 0.0 <= cap && 0.0 <= shift
    ensures Ready(cap, Departing(cap, shift))
  {
  }

  lemma {:induction false} RunNothing(cap: real, st: State)
    requires Ready(cap, st)
    ensures Run(cap, st, []) == st
  {
  }

  lemma {:induction false} PositionsNone(stops: seq<Stop>)
    ensures StationPositions(stops, 1) == []
  {
  }

  // ----- the station-only kernel -----

  /** What lets a bounded evaluation stop early; no minimum means nothing was accepted yet. */
  datatype Limits = Limits(lambda: real, incumbent: real, minimum: Option<real>, ratesFinite: bool)

  datatype Outcome = Exact(summary: Summary) | LowerBound(travel: real, shortfall: real, excess: real)

  function BoundCost(travel: real, shortfall: real, excess: real, v: Vehicle, lambda: real): real
    requires 0.0 < v.consumption
  {
    travel + lambda * (shortfall / v.consumption + excess)
  }

  /** The bound is dear enough for the candidate to be skipped. */
  predicate Prunes(cost: real, limits: Limits) {
    cost >= limits.incumbent || (limits.minimum.Some? && cost > limits.minimum.value)
  }

  lemma PenaltyMonotone(x: real, y: real, d: real, lambda: real, e: real, f: real)
    requires x <= y && 0.0 < d && 0.0 <= lambda && e <= f
    ensures lambda * (x / d + e) <= lambda * (y / d + f)
  {
    assert x / d <= y / d;
    assert lambda * ((y / d + f) - (x / d + e)) >= 0.0;
  }

  lemma {:induction false} ShortfallGrows(cap: real, st: State, stops: seq<Stop>)
    requires Ready(cap, st) && AllSound(cap, stops)
    ensures st.shortfall <= Run(cap, st, stops).shortfall
    decreases |stops|
  {
    hide Fill;
    if stops != [] { ShortfallGrows(cap, Reach(cap, st, stops[0]), stops[1..]); }
  }

  /** What is missing halfway, with the unavoidable excess, never exceeds the cost of the whole route. */
  lemma PartialShortfallBounds(v: Vehicle, travel: real, service: real, stops: seq<Stop>, n: nat, lambda: real)
    requires 0.0 < v.capacity && 0.0 < v.consumption && AllSound(v.capacity, stops) && n <= |stops|
    requires 0.0 <= lambda
    ensures AllSound(v.capacity, stops[..n])
    ensures Ready(v.capacity, Departing(v.capacity, ShiftLeft(v, travel, service)))
    ensures var partial := Run(v.capacity, Departing(v.capacity, ShiftLeft(v, travel, service)), stops[..n]);
      BoundCost(travel, partial.shortfall, Max(0.0, travel + service - v.horizon), v, lambda)
      <= GeneralizedCost(Cost(v, travel, service, stops), v, lambda)
  {
    hide Run, ChargingTime, Sound;
    var cap := v.capacity;
    var depot := Departing(cap, ShiftLeft(v, travel, service));
    DepartingReady(cap, ShiftLeft(v, travel, service));
    var partial, whole := Run(cap, depot, stops[..n]), Run(cap, depot, stops);
    assert stops == stops[..n] + stops[n..];
    RunAppend(cap, depot, stops[..n], stops[n..]);
    ShortfallGrows(cap, partial, stops[n..]);
    ChargingTimeNonNegative(cap, whole.walked);
    var s := Cost(v, travel, service, stops);
    assert travel <= s.raw;
    PenaltyMonotone(partial.shortfall, s.shortfall, v.consumption, lambda,
                    Max(0.0, travel + service - v.horizon), s.excess);
  }

  function StationStops(legs: seq<Stop>, tail: real): seq<Stop> {
    legs + [Stop(tail, None)]
  }

  /** A route without stations only has its tail to drive. */
  lemma NoStations(v: Vehicle, travel: real, service: real, tail: real)
    requires 0.0 < v.capacity && 0.0 <= tail
    ensures AllSound(v.capacity, StationStops([], tail))
    ensures var excess := Max(0.0, travel + service - v.horizon);
      var shortfall := if tail - v.capacity > 0.0 then tail - v.capacity else 0.0;
      Cost(v, travel, service, StationStops([], tail))
      == Summary(shortfall <= 0.0 && excess <= 0.0, travel, travel, 0.0, service, travel + service, shortfall, excess)
  {
    hide Fill;
    var cap := v.capacity;
    var depot := Departing(cap, ShiftLeft(v, travel, service));
    var stops := StationStops([], tail);
    assert stops == [Stop(tail, None)] && stops[..0] == [] && stops[..1] == stops;
    RunNext(cap, depot, stops, 0);
    RunNothing(cap, depot);
    var r := Reach(cap, depot, stops[0]);
    if cap - tail < 0.0 {
      assert Pick(cap, depot.walked, depot.shift, 0).None?;
      assert Available(cap, depot.walked, depot.shift, 0) == 0.0;
      assert Pick(cap, depot.walked, depot.shift, |depot.walked|).None?;
      FillNothing(cap, depot.walked, depot.shift, tail - cap);
    }
    NoChargers(cap, r.walked);
  }

  lemma {:induction false} NoChargers(cap: real, ps: seq<Soc>)
    requires 0.0 <= cap && forall i | 0 <= i < |ps| :: ps[i].charger.None?
    ensures AllFit(cap, ps) && ChargingTime(cap, ps) == 0.0
  {
    if ps != [] { NoChargers(cap, ps[..|ps| - 1]); }
  }

  /** The station-only kernel. With limits it may stop at a shortfall and return a certified bound. */
  method EvaluateData(v: Vehicle, travel: real, service: real, legs: seq<Stop>, tail: real, limits: Option<Limits>)
    returns (o: Outcome)
    requires 0.0 < v.capacity && 0.0 < v.consumption && AllSound(v.capacity, legs) && 0.0 <= tail
    requires limits.Some? ==> 0.0 <= limits.value.lambda
    ensures AllSound(v.capacity, StationStops(legs, tail))
    ensures o.Exact? ==> o.summary == Cost(v, travel, service, StationStops(legs, tail))
    ensures limits.None? ==> o.Exact?
    ensures o.LowerBound? ==>
      var bound := BoundCost(o.travel, o.shortfall, o.excess, v, limits.value.lambda);
      && bound <= GeneralizedCost(Cost(v, travel, service, StationStops(legs, tail)), v, limits.value.lambda)
      && Prunes(bound, limits.value)
  {
    hide Run, Reach, Walked, StationPositions, ChargingTime, GeneralizedCost;
    var cap, stops := v.capacity, StationStops(legs, tail);
    if |legs| == 0 {
      NoStations(v, travel, service, tail);
      assert legs == [];
      var deficit := tail - cap;
      var missing := if deficit > 0.0 then deficit else 0.0;
      var over := Max(0.0, travel + service - v.horizon);
      return Exact(Summary(missing <= 0.0 && over <= 0.0, travel, travel, 0.0, service,
                           travel + service, missing, over));
    }
    var n := |stops| + 1;
    var arrival, departure := new real[n](_ => 0.0), new real[n](_ => 0.0);
    departure[0] := cap;
    var shift, shortfall := ShiftLeft(v, travel, service), 0.0;
    var preceding: seq<nat> := [];
    ghost var depot := Departing(cap, shift);
    StartWalk(cap, stops, arrival[..], departure[..], shift);
    assert Ready(cap, depot) by { DepartingReady(cap, shift); }
    RunNothing(cap, depot);
    assert stops[..0] == [];
    PositionsNone(stops);
    for position := 1 to n
      invariant AllSound(cap, stops[..position - 1])
      invariant State(Walk(stops, arrival[..], departure[..], position), shift, shortfall)
                == Run(cap, depot, stops[..position - 1])
      invariant preceding == StationPositions(stops, position)
    {
      ghost var walked := Walk(stops, arrival[..], departure[..], position);
      arrival[position] := departure[position - 1] - stops[position - 1].energy;
      departure[position] := arrival[position];
      assert Walk(stops, arrival[..], departure[..], position) == walked;
      RunNext(cap, depot, stops, position - 1);
      var missing := shortfall;
      shift, shortfall :=
        Settle(cap, stops, arrival, departure, position, position + 1, preceding, shift, shortfall,
               limits.Some? && limits.value.ratesFinite);
      if limits.Some? && shortfall != missing {
        var over := Max(0.0, travel + service - v.horizon);
        PartialShortfallBounds(v, travel, service, stops, position, limits.value.lambda);
        if Prunes(BoundCost(travel, shortfall, over, v, limits.value.lambda), limits.value) {
          return LowerBound(travel, shortfall, over);
        }
      }
      PositionsNext(stops, position);
      if stops[position - 1].charger.Some? { preceding := preceding + [position]; }
    }
    assert stops[..n - 1] == stops;
    var s := Total(v, travel, service, stops, arrival, departure, shift, shortfall);
    o := Exact(s);
  }
}
