/** Replaying a charging schedule (src/evaluator.cpp, `RouteEvaluator::evaluate_schedule`): energies
    are recomputed from the scheduled departures, and anything physically impossible is refused. */
module Replay {
  import opened Common
  import opened Curves
  import opened Charging
  import opened ChargingCollapse
  import opened ChargingLaws
  import opened Kernels
  import opened Evaluation

  /** One leg of a replay; nothing when the leg or the scheduled departure is impossible. */
  function ReplayNext(cap: real, ps: seq<Soc>, stop: Stop, planned: Option<real>): Option<seq<Soc>>
    requires ps != []
  {
    var energy := Last(ps).departure - stop.energy;
    if stop.charger.Some? != planned.Some? || energy < 0.0 then None
    else if stop.charger.None? then Some(ps + [Soc(energy, energy, None)])
    else if planned.value < energy || cap < planned.value then None
    else Some(ps + [Soc(energy, Clamp(planned.value, energy, cap), stop.charger)])
  }

  function Replayed(cap: real, stops: seq<Stop>, plan: seq<Option<real>>): (r: Option<seq<Soc>>)
    requires |plan| == |stops|
    ensures r.Some? ==> |r.value| == |stops| + 1
  {
    if stops == [] then Some([Soc(0.0, cap, None)])
    else
      var n := |stops| - 1;
      match Replayed(cap, stops[..n], plan[..n])
      case None => None
      case Some(ps) => ReplayNext(cap, ps, stops[n], plan[n])
  }

  /** An accepted replay is a physical trace: bounded battery, every leg paid for. */
  lemma {:induction false} ReplayedIsPhysical(cap: real, stops: seq<Stop>, plan: seq<Option<real>>)
    requires |plan| == |stops| && 0.0 <= cap && AllSound(cap, stops)
    ensures var r := Replayed(cap, stops, plan);
      r.Some? ==> Bounded(cap, r.value) && Chained(r.value, stops)
  {
    hide Strict;
    if stops != [] {
      var n := |stops| - 1;
      ReplayedIsPhysical(cap, stops[..n], plan[..n]);
      var r := Replayed(cap, stops, plan);
      if r.Some? {
        var ps := Replayed(cap, stops[..n], plan[..n]).value;
        assert Sound(cap, stops[n]);
        assert stops[..n] + [stops[n]] == stops;
        hide Bounded, Chained;
        PhysicalNext(cap, ps, stops[..n], stops[n], plan[n]);
      }
    }
  }

  lemma PhysicalNext(cap: real, ps: seq<Soc>, stops: seq<Stop>, stop: Stop, planned: Option<real>)
    requires Bounded(cap, ps) && Chained(ps, stops) && Sound(cap, stop)
    ensures var r := ReplayNext(cap, ps, stop, planned);
      r.Some? ==> Bounded(cap, r.value) && Chained(r.value, stops + [stop])
  {
    hide Strict;
    var r := ReplayNext(cap, ps, stop, planned);
    if r.Some? { ChainedNext(ps, stops, stop, Last(r.value)); }
  }

  /** The schedule a trace stands for: what each charging stop leaves with. */
  function PlanOf(ps: seq<Soc>, stops: seq<Stop>): (plan: seq<Option<real>>)
    requires |ps| == |stops| + 1
    ensures |plan| == |stops|
    ensures forall j | 0 <= j < |stops| ::
      plan[j] == if stops[j].charger.Some? then Some(ps[j + 1].departure) else None
  {
    seq(|stops|, j requires 0 <= j < |stops| =>
      if stops[j].charger.Some? then Some(ps[j + 1].departure) else None)
  }

  /** A bounded trace without shortfall replays to itself. */
  lemma {:induction false} TraceReplays(cap: real, ps: seq<Soc>, stops: seq<Stop>)
    requires Bounded(cap, ps) && Chained(ps, stops)
    ensures Replayed(cap, stops, PlanOf(ps, stops)) == Some(ps)
    decreases |stops|
  {
    hide Strict;
    if stops == [] {
      assert ps == [Soc(0.0, cap, None)];
    } else {
      var n := |stops| - 1;
      TracePrefix(cap, ps, stops);
      TraceReplays(cap, ps[..n + 1], stops[..n]);
      assert PlanOf(ps, stops)[..n] == PlanOf(ps[..n + 1], stops[..n]);
      assert ps[..n + 1] + [ps[n + 1]] == ps;
      hide Bounded, Chained, Replayed;
      ReplayStep(cap, stops, PlanOf(ps, stops), n);
      assert stops[..n + 1] == stops && PlanOf(ps, stops)[..n + 1] == PlanOf(ps, stops);
      LastStepReplays(cap, ps, stops);
    }
  }

  lemma TracePrefix(cap: real, ps: seq<Soc>, stops: seq<Stop>)
    requires Bounded(cap, ps) && Chained(ps, stops) && stops != []
    ensures Bounded(cap, ps[..|stops|]) && Chained(ps[..|stops|], stops[..|stops| - 1])
  {
    hide Strict;
    var qs, fewer := ps[..|stops|], stops[..|stops| - 1];
    forall j | 1 <= j < |qs| ensures Linked(qs, fewer, j) {
      assert Linked(ps, stops, j);
    }
  }

  lemma LastStepReplays(cap: real, ps: seq<Soc>, stops: seq<Stop>)
    requires Bounded(cap, ps) && Chained(ps, stops) && stops != []
    ensures var n := |stops| - 1;
      ReplayNext(cap, ps[..n + 1], stops[n], PlanOf(ps, stops)[n]) == Some(ps[..n + 1] + [ps[n + 1]])
  {
    hide Strict;
    assert Linked(ps, stops, |stops|);
  }

  /** The summary of a replay; the shortfall of an accepted schedule is zero by construction. */
  function ScheduleCost(v: Vehicle, travel: real, service: real, ps: seq<Soc>): Summary
    requires 0.0 <= v.capacity && AllFit(v.capacity, ps)
  {
    var charging := ChargingTime(v.capacity, ps);
    var duration := travel + charging + service;
    var excess := Max(0.0, duration - v.horizon);
    Summary(excess <= 0.0, travel + charging, travel, charging, service, duration, 0.0, excess)
  }

  /** Once nothing is missing, the greedy summary is the summary of its own schedule. */
  lemma SummaryIsScheduleCost(v: Vehicle, travel: real, service: real, st: State)
    requires Ready(v.capacity, st) && st.shortfall == 0.0
    ensures AllFit(v.capacity, st.walked)
    ensures ScheduleCost(v, travel, service, st.walked) == Summarize(v, travel, service, st)
  {
    hide ChargingTime;
    ChargingTimeNonNegative(v.capacity, st.walked);
  }

  /** Whatever the greedy kernel calls feasible replays to the same energies at the same cost. */
  lemma {:induction false} FeasibleReplays(v: Vehicle, travel: real, service: real, stops: seq<Stop>)
    requires 0.0 < v.capacity && AllSound(v.capacity, stops)
    requires Cost(v, travel, service, stops).feasible
    ensures Ready(v.capacity, Departing(v.capacity, ShiftLeft(v, travel, service)))
    ensures var ps := Run(v.capacity, Departing(v.capacity, ShiftLeft(v, travel, service)), stops).walked;
      && |ps| == |stops| + 1 && AllFit(v.capacity, ps)
      && Replayed(v.capacity, stops, PlanOf(ps, stops)) == Some(ps)
      && ScheduleCost(v, travel, service, ps) == Cost(v, travel, service, stops)
  {
    hide Run, ChargingTime, Bounded, Sound, Replayed;
    WalkLaws(v.capacity, ShiftLeft(v, travel, service), stops);
    var st := Run(v.capacity, Departing(v.capacity, ShiftLeft(v, travel, service)), stops);
    TraceReplays(v.capacity, st.walked, stops);
    SummaryIsScheduleCost(v, travel, service, st);
  }

  /** `evaluate_schedule` as it runs. */
  method EvaluateSchedule(v: Vehicle, travel: real, service: real, stops: seq<Stop>, plan: seq<Option<real>>)
    returns (result: Option<(Summary, seq<real>, seq<real>)>)
    requires 0.0 < v.capacity && AllSound(v.capacity, stops) && |plan| == |stops|
    ensures var r := Replayed(v.capacity, stops, plan);
      && (result.Some? <==> r.Some?)
      && (r.Some? ==>
            && AllFit(v.capacity, r.value)
            && result.value.0 == ScheduleCost(v, travel, service, r.value)
            && |result.value.1| == |result.value.2| == |stops| + 1
            && Walk(stops, result.value.1, result.value.2, |stops| + 1) == r.value)
  {
    hide ChargingTime, Replayed, Strict;
    var cap := v.capacity;
    var n := |stops| + 1;
    var arrival, departure := new real[n](_ => 0.0), new real[n](_ => 0.0);
    departure[0] := cap;
    ReplayStart(cap);
    StartWalk(cap, stops, arrival[..], departure[..], 0.0);
    for position := 1 to n
      invariant Replayed(cap, stops[..position - 1], plan[..position - 1])
                == Some(Walk(stops, arrival[..], departure[..], position))
    {
      var stop := stops[position - 1];
      ReplayStep(cap, stops, plan, position - 1);
      ghost var ps := Walk(stops, arrival[..], departure[..], position);
      var energy := departure[position - 1] - stop.energy;
      if stop.charger.Some? != plan[position - 1].Some? || energy < 0.0 {
        ReplayFails(cap, stops, plan, position);
        return None;
      }
      arrival[position] := Max(0.0, energy);
      departure[position] := arrival[position];
      if stop.charger.Some? {
        if plan[position - 1].value < energy || cap < plan[position - 1].value {
          ReplayFails(cap, stops, plan, position);
          return None;
        }
        departure[position] := Clamp(plan[position - 1].value, arrival[position], cap);
      }
      assert Walk(stops, arrival[..], departure[..], position) == ps;
      WalkNext(stops, arrival[..], departure[..], position);
    }
    assert stops[..n - 1] == stops && plan[..n - 1] == plan;
    var time := SumCharging(cap, stops, arrival, departure);
    var duration := travel + time + service;
    var excess := Max(0.0, duration - v.horizon);
    return Some((Summary(excess <= 0.0, travel + time, travel, time, service, duration, 0.0, excess),
                 arrival[..], departure[..]));
  }

  lemma {:induction false} ReplayStart(cap: real)
    ensures Replayed(cap, [], []) == Some([Soc(0.0, cap, None)])
  {
  }

  lemma {:induction false} ReplayStep(cap: real, stops: seq<Stop>, plan: seq<Option<real>>, n: nat)
    requires |plan| == |stops| && n < |stops|
    ensures Replayed(cap, stops[..n + 1], plan[..n + 1])
            == match Replayed(cap, stops[..n], plan[..n])
               case None => None
               case Some(ps) => ReplayNext(cap, ps, stops[n], plan[n])
  {
    assert stops[..n + 1][..n] == stops[..n] && plan[..n + 1][..n] == plan[..n];
  }

  /** A refused prefix refuses the whole schedule. */
  lemma {:induction false} ReplayFails(cap: real, stops: seq<Stop>, plan: seq<Option<real>>, n: nat)
    requires |plan| == |stops| && n <= |stops| && Replayed(cap, stops[..n], plan[..n]).None?
    ensures Replayed(cap, stops, plan).None?
    decreases |stops| - n
  {
    if n < |stops| {
      ReplayStep(cap, stops, plan, n);
      ReplayFails(cap, stops, plan, n + 1);
    } else {
      assert stops[..n] == stops && plan[..n] == plan;
    }
  }
}
