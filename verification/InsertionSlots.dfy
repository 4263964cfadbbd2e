/** Slots of a route that share their insertion score (src/evaluator.cpp, `insertion_score_representatives_` of
    `PhysicalRouteScorer`): inside a run of one station it does not matter where the run is cut. */
module InsertionSlots {
  import opened Common
  import opened Network
  import opened Labels
  import opened Canonical
  import opened Evaluation
  import opened RouteCosts
  import opened JointMoves
  import opened JointRepair

  // ----- cutting a run -----

  lemma {:induction false} CanonAppend(net: Instance, visits: seq<int>, last: int)
    requires 0.0 < net.speed && visits != []
    ensures CanonVisits(net, visits + [last])
      == CanonVisits(net, visits) + if last == visits[|visits| - 1] && Supported(net, last) then [] else [last]
  {
    assert (visits + [last])[..|visits|] == visits;
  }

  /** A repeated supported station may be dropped anywhere. */
  lemma {:induction false} DropRepeat(net: Instance, before: seq<int>, id: int, after: seq<int>)
    requires 0.0 < net.speed && Supported(net, id)
    ensures CanonVisits(net, before + [id, id] + after) == CanonVisits(net, before + [id] + after)
    decreases |after|
  {
    hide CanonVisits, Supported;
    var long, short := before + [id, id], before + [id];
    if after == [] {
      CanonAppend(net, short, id);
      assert long + after == short + [id] && short + after == short;
    } else {
      var n := |after| - 1;
      var some, last := after[..n], after[n];
      DropRepeat(net, before, id, some);
      assert after == some + [last];
      assert long + after == long + some + [last] && short + after == short + some + [last];
      CanonAppend(net, long + some, last);
      CanonAppend(net, short + some, last);
    }
  }

  /** Routes with the same canonical visits cost the same. */
  lemma {:induction false} SameCanonSameCost(net: Instance, a: seq<int>, b: seq<int>)
    requires Regular(net) && 0.0 < net.speed && CanonVisits(net, a) == CanonVisits(net, b)
    ensures RouteCost(net, a) == RouteCost(net, b)
  {
    hide CanonVisits, CanonLegs, Stretch, SoundLabel, Cost, Metric, LegStops, StationStops;
    RegularSpeed(net);
    CanonAgrees(net, a);
    CanonAgrees(net, b);
    RouteLabelSound(net, a);
    RouteLabelSound(net, b);
  }

  /** Between three calls at one station the later cut costs what the earlier one costs. */
  lemma {:induction false} CutsAgree(net: Instance, visits: seq<int>, slot: nat, id: int)
    requires Regular(net) && 0.0 < net.speed && Interior(net, visits, slot)
    ensures RouteCost(net, Inserted(visits, slot, id)) == RouteCost(net, Inserted(visits, slot - 1, id))
  {
    hide CanonVisits, RouteCost, Supported, Regular;
    var s, before, after := visits[slot], visits[..slot - 2], visits[slot + 1..];
    DropRepeat(net, before, s, [id, s] + after);
    DropRepeat(net, before + [s, id], s, after);
    assert Inserted(visits, slot, id) == before + [s, s] + ([id, s] + after);
    assert Inserted(visits, slot - 1, id) == before + [s, id] + [s, s] + after;
    assert before + [s] + ([id, s] + after) == before + [s, id] + [s] + after;
    SameCanonSameCost(net, Inserted(visits, slot, id), Inserted(visits, slot - 1, id));
  }

  // ----- representatives -----

  /** The slot lies inside a run of three calls at one station, behind the second of them. */
  predicate Interior(net: Instance, visits: seq<int>, slot: nat)
    requires 0.0 < net.speed
  {
    2 <= slot < |visits| && visits[slot - 2] == visits[slot - 1] == visits[slot] && Supported(net, visits[slot])
  }

  /** The first slot that the given one stands back to. `certified` is the scorer's own comparison of the two
      cuts; what it declines keeps its own score. */
  function RepresentativeOf(net: Instance, visits: seq<int>, certified: int -> bool, slot: nat): (r: nat)
    requires 0.0 < net.speed
    ensures r <= slot
  {
    if Interior(net, visits, slot) && certified(slot) then RepresentativeOf(net, visits, certified, slot - 1) else slot
  }

  /** Inserting anything at a slot costs what it costs at the slot's representative. */
  lemma {:induction false} RepresentativeAgrees(net: Instance, visits: seq<int>, certified: int -> bool, slot: nat, id: int)
    requires Regular(net) && 0.0 < net.speed && slot <= |visits|
    ensures RouteCost(net, Inserted(visits, slot, id))
      == RouteCost(net, Inserted(visits, RepresentativeOf(net, visits, certified, slot), id))
  {
    hide RouteCost, Inserted, Regular, Interior;
    if Interior(net, visits, slot) && certified(slot) {
      CutsAgree(net, visits, slot, id);
      InteriorSlot(net, visits, slot);
      RepresentativeAgrees(net, visits, certified, slot - 1, id);
    }
  }

  lemma InteriorSlot(net: Instance, visits: seq<int>, slot: nat)
    requires 0.0 < net.speed && Interior(net, visits, slot)
    ensures 2 <= slot < |visits|
  {
  }

  /** The representatives of all slots. */
  function AllRepresentatives(net: Instance, visits: seq<int>, certified: int -> bool): (reps: seq<nat>)
    requires 0.0 < net.speed
    ensures |reps| == |visits| + 1
    ensures forall slot | 0 <= slot <= |visits| :: reps[slot] == RepresentativeOf(net, visits, certified, slot)
  {
    seq(|visits| + 1, slot requires 0 <= slot <= |visits| => RepresentativeOf(net, visits, certified, slot))
  }

  /** So the scores that scorers share are equal, under every penalty. */
  lemma {:induction false} ScorersCertify(net: Instance, lambda: real, certify: seq<int> -> (int -> bool))
    requires Regular(net) && 0.0 < net.speed && 0.0 < net.consumption
    ensures Certifies(visits => GeneralizedCost(RouteCost(net, visits), VehicleOf(net), lambda),
                      visits => AllRepresentatives(net, visits, certify(visits)))
  {
    hide RouteCost, Regular, Inserted, GeneralizedCost, RepresentativeOf;
    var cost := visits => GeneralizedCost(RouteCost(net, visits), VehicleOf(net), lambda);
    forall visits: seq<int> ensures SharesScores(cost, visits, AllRepresentatives(net, visits, certify(visits))) {
      forall slot: nat, id: int | slot <= |visits|
        ensures SharesScore(cost, visits, slot, AllRepresentatives(net, visits, certify(visits))[slot], id)
      {
        RepresentativeAgrees(net, visits, certify(visits), slot, id);
      }
    }
  }

  /** Run by run, as the scorer's constructor finds the representatives. */
  method Representatives(net: Instance, visits: seq<int>, certified: int -> bool) returns (reps: seq<nat>)
    requires 0.0 < net.speed
    ensures reps == AllRepresentatives(net, visits, certified)
  {
    reps := seq(|visits| + 1, slot => slot);
    var begin := 1;
    while begin < |visits| + 1
      invariant 1 <= begin <= |visits| + 1 && |reps| == |visits| + 1
      invariant 1 < begin <= |visits| ==> visits[begin - 2] != visits[begin - 1]
      invariant forall slot | 0 <= slot < begin - 1 :: reps[slot] == RepresentativeOf(net, visits, certified, slot)
      invariant forall slot | begin - 1 <= slot <= |visits| :: reps[slot] == slot
    {
      var end := begin + 1;
      while end < |visits| + 1 && visits[end - 1] == visits[begin - 1]
        invariant begin < end <= |visits| + 1
        invariant forall i | begin - 1 <= i < end - 1 :: visits[i] == visits[begin - 1]
      {
        end := end + 1;
      }
      reps := MarkRun(net, visits, certified, begin, end, reps);
      begin := end;
    }
  }

  /** One maximal run, from position `begin` up to `end` of the nodes. */
  method MarkRun(net: Instance, visits: seq<int>, certified: int -> bool, begin: nat, end: nat, start: seq<nat>)
      returns (reps: seq<nat>)
    requires 0.0 < net.speed && 1 <= begin < end <= |visits| + 1 == |start|
    requires forall i | begin - 1 <= i < end - 1 :: visits[i] == visits[begin - 1]
    requires begin > 1 ==> visits[begin - 2] != visits[begin - 1]
    requires end <= |visits| ==> visits[end - 1] != visits[begin - 1]
    requires forall slot | 0 <= slot < begin - 1 :: start[slot] == RepresentativeOf(net, visits, certified, slot)
    requires forall slot | begin - 1 <= slot <= |visits| :: start[slot] == slot
    ensures |reps| == |start|
    ensures forall slot | 0 <= slot < end - 1 :: reps[slot] == RepresentativeOf(net, visits, certified, slot)
    ensures forall slot | end - 1 <= slot <= |visits| :: reps[slot] == slot
  {
    hide RepresentativeOf, Supported;
    reps := start;
    forall slot | begin - 1 <= slot < end - 1 && !(begin + 1 <= slot && Supported(net, visits[begin - 1]))
      ensures RepresentativeOf(net, visits, certified, slot) == slot
    {
      StandsAlone(net, visits, certified, slot);
    }
    if end - begin < 3 || !Supported(net, visits[begin - 1]) { return; }
    for slot := begin + 1 to end - 1
      invariant |reps| == |start|
      invariant forall q | 0 <= q < slot :: reps[q] == RepresentativeOf(net, visits, certified, q)
      invariant forall q | slot <= q <= |visits| :: reps[q] == q
    {
      StandsBack(net, visits, certified, slot);
      if certified(slot) { reps := reps[slot := reps[slot - 1]]; }
    }
  }

  lemma {:induction false} StandsAlone(net: Instance, visits: seq<int>, certified: int -> bool, slot: nat)
    requires 0.0 < net.speed && !Interior(net, visits, slot)
    ensures RepresentativeOf(net, visits, certified, slot) == slot
  {
  }

  lemma {:induction false} StandsBack(net: Instance, visits: seq<int>, certified: int -> bool, slot: nat)
    requires 0.0 < net.speed && Interior(net, visits, slot)
    ensures slot > 0 && RepresentativeOf(net, visits, certified, slot)
      == if certified(slot) then RepresentativeOf(net, visits, certified, slot - 1) else slot
  {
  }
}
