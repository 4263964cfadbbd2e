/** Runs of one station without anything in between (src/evaluator.cpp): the station-only kernel
    drops the repeated legs, the full-node kernel drops the repeated visits, and both leave the
    same charging opportunities. */
module Canonical {
  import opened Common
  import opened Curves
  import opened Network
  import opened Labels

  /** A repeated stop at `id` may be dropped: it takes no time, no energy and no service. */
  predicate Supported(net: Instance, id: int)
    requires 0.0 < net.speed
  {
    && IsStation(net, id)
    && net.serviceTime(id) == 0.0
    && Travel(net, id, id) == 0.0
    && Energy(net, id, id) == 0.0
  }

  predicate Mergeable(net: Instance, prior: Leg, leg: Leg)
    requires 0.0 < net.speed
  {
    leg.adjacent && prior.station == leg.station && leg.energy == 0.0 && Supported(net, leg.station)
  }

  function CanonLegs(net: Instance, legs: seq<Leg>): (r: seq<Leg>)
    requires 0.0 < net.speed
    ensures legs != [] ==> r != [] && r[|r| - 1].station == legs[|legs| - 1].station
    ensures legs == [] ==> r == []
  {
    if |legs| <= 1 then legs
    else
      var kept := CanonLegs(net, legs[..|legs| - 1]);
      if Mergeable(net, kept[|kept| - 1], legs[|legs| - 1]) then kept else kept + [legs[|legs| - 1]]
  }

  function CanonVisits(net: Instance, visits: seq<int>): (r: seq<int>)
    requires 0.0 < net.speed
    ensures visits != [] ==> r != [] && r[|r| - 1] == visits[|visits| - 1]
    ensures visits == [] ==> r == []
  {
    if |visits| <= 1 then visits
    else
      var n := |visits| - 1;
      var kept := CanonVisits(net, visits[..n]);
      if visits[n] == visits[n - 1] && Supported(net, visits[n]) then kept else kept + [visits[n]]
  }

  ghost predicate Clean(net: Instance, legs: seq<Leg>)
    requires 0.0 < net.speed
  {
    forall i | 0 <= i < |legs| - 1 :: !Mergeable(net, legs[i], legs[i + 1])
  }

  lemma CleanNext(net: Instance, legs: seq<Leg>, leg: Leg)
    requires 0.0 < net.speed && Clean(net, legs) && (legs == [] || !Mergeable(net, legs[|legs| - 1], leg))
    ensures Clean(net, legs + [leg])
  {
    hide Mergeable;
  }

  /** Nothing is left to merge. */
  lemma {:induction false} CanonIsClean(net: Instance, legs: seq<Leg>)
    requires 0.0 < net.speed
    ensures Clean(net, CanonLegs(net, legs))
  {
    hide Mergeable;
    if |legs| > 1 {
      var n := |legs| - 1;
      var kept := CanonLegs(net, legs[..n]);
      CanonIsClean(net, legs[..n]);
      if !Mergeable(net, kept[|kept| - 1], legs[n]) { CleanNext(net, kept, legs[n]); }
    }
  }

  lemma {:induction false} CanonKeepsClean(net: Instance, legs: seq<Leg>)
    requires 0.0 < net.speed && Clean(net, legs)
    ensures CanonLegs(net, legs) == legs
  {
    hide Mergeable;
    if |legs| > 1 {
      CanonKeepsClean(net, legs[..|legs| - 1]);
      assert legs[..|legs| - 1] + [legs[|legs| - 1]] == legs;
      assert !Mergeable(net, legs[|legs| - 2], legs[|legs| - 1]);
    }
  }

  lemma {:induction false} CanonNext(net: Instance, legs: seq<Leg>, leg: Leg)
    requires 0.0 < net.speed && legs != []
    ensures var kept := CanonLegs(net, legs);
      CanonLegs(net, legs + [leg])
      == if Mergeable(net, kept[|kept| - 1], leg) then kept else kept + [leg]
  {
    assert (legs + [leg])[..|legs|] == legs;
  }

  /** `evaluate_data`'s own way: copy up to the first mergeable leg, then filter the rest. */
  method MergeLegs(net: Instance, legs: seq<Leg>) returns (canonical: seq<Leg>)
    requires 0.0 < net.speed
    ensures canonical == CanonLegs(net, legs)
  {
    hide Mergeable, Clean, CanonLegs;
    CleanShort(net, legs);
    var i := 1;
    while i < |legs|
      invariant 1 <= i && (i <= |legs| ==> Clean(net, legs[..i]))
      invariant |legs| <= i ==> Clean(net, legs)
    {
      if Mergeable(net, legs[i - 1], legs[i]) {
        canonical := FilterRest(net, legs, i);
        return;
      }
      CleanNext(net, legs[..i], legs[i]);
      assert legs[..i] + [legs[i]] == legs[..i + 1];
      assert legs[..|legs|] == legs;
      i := i + 1;
    }
    CanonKeepsClean(net, legs);
    return legs;
  }

  lemma CleanShort(net: Instance, legs: seq<Leg>)
    requires 0.0 < net.speed
    ensures |legs| <= 1 ==> Clean(net, legs)
    ensures 1 <= |legs| ==> Clean(net, legs[..1])
  {
  }

  method FilterRest(net: Instance, legs: seq<Leg>, i: nat) returns (canonical: seq<Leg>)
    requires 0.0 < net.speed && 1 <= i < |legs| && Clean(net, legs[..i])
    ensures canonical == CanonLegs(net, legs)
  {
    hide Mergeable, Clean, CanonLegs;
    canonical := legs[..i];
    CanonKeepsClean(net, legs[..i]);
    for j := i to |legs|
      invariant canonical == CanonLegs(net, legs[..j]) && canonical != []
    {
      CanonNext(net, legs[..j], legs[j]);
      assert legs[..j] + [legs[j]] == legs[..j + 1];
      if !Mergeable(net, canonical[|canonical| - 1], legs[j]) { canonical := canonical + [legs[j]]; }
    }
    assert legs[..|legs|] == legs;
  }

  // ----- both kernels drop the same stops -----

  ghost predicate SameAfterCanon(net: Instance, raw: Label, canonical: Label)
    requires 0.0 < net.speed
  {
    if raw.Blank? then canonical.Blank?
    else
      && canonical.Label?
      && raw.target == canonical.target
      && canonical.legs == CanonLegs(net, raw.legs)
      && canonical.tail == raw.tail && canonical.travel == raw.travel && canonical.service == raw.service
  }

  /** After a station the label ends in that station's leg. */
  ghost predicate EndsAt(net: Instance, l: Label, node: int) {
    l.Label? && IsStation(net, node) ==>
      l.legs != [] && l.legs[|l.legs| - 1].station == node && l.tail == 0.0
  }

  lemma EndsAtNext(net: Instance, l: Label, a: int, b: int)
    requires 0.0 < net.speed
    ensures EndsAt(net, Concat(l, Hop(net, a, b)), b)
  {
    hide Energy, Travel, Concat, Hop;
    ConcatHop(net, l, a, b);
  }

  /** A repeated supported station adds one mergeable leg and nothing else. */
  lemma RepeatedStop(net: Instance, raw: Label, canonical: Label, node: int)
    requires 0.0 < net.speed && SameAfterCanon(net, raw, canonical) && raw.Label?
    requires EndsAt(net, raw, node) && Supported(net, node)
    ensures SameAfterCanon(net, Concat(raw, Hop(net, node, node)), canonical) || raw.target != node
  {
    hide CanonLegs;
    var leg := Leg(node, 0.0, true);
    ConcatHop(net, raw, node, node);
    CanonNext(net, raw.legs, leg);
  }

  /** Any other node extends both labels alike. */
  lemma FreshStop(net: Instance, raw: Label, canonical: Label, a: int, b: int)
    requires 0.0 < net.speed && SameAfterCanon(net, raw, canonical)
    requires !(a == b && Supported(net, b))
    ensures SameAfterCanon(net, Concat(raw, Hop(net, a, b)), Concat(canonical, Hop(net, a, b)))
  {
    hide CanonLegs, Energy, Travel, Concat, Hop;
    ConcatHop(net, raw, a, b);
    ConcatHop(net, canonical, a, b);
    if IsStation(net, b) {
      var leg := Leg(b, (if raw.Blank? then 0.0 else raw.tail) + Energy(net, a, b), a == b);
      if raw.Blank? || raw.legs == [] {
        CanonKeepsClean(net, [leg]);
        assert [] + [leg] == [leg];
      } else {
        CanonNext(net, raw.legs, leg);
      }
    } else {
      CanonKeepsClean(net, []);
    }
  }

  lemma {:induction false} CanonStretch(net: Instance, visits: seq<int>)
    requires 0.0 < net.speed && !IsStation(net, net.depot)
    ensures SameAfterCanon(net, Stretch(net, [net.depot] + visits), Stretch(net, [net.depot] + CanonVisits(net, visits)))
    ensures visits != [] ==> EndsAt(net, Stretch(net, [net.depot] + visits), visits[|visits| - 1])
    decreases |visits|
  {
    hide Concat, Hop, Supported, CanonLegs, EndsAt;
    var d := [net.depot];
    if visits == [] {
      StretchOne(net, net.depot);
      assert d + visits == d;
    } else {
      var n := |visits| - 1;
      var init, last := visits[..n], visits[n];
      var previous := (d + init)[n];
      CanonStretch(net, init);
      assert d + init + [last] == d + visits;
      StretchNext(net, d + init, last);
      EndsAtNext(net, Stretch(net, d + init), previous, last);
      if n > 0 && last == visits[n - 1] && Supported(net, last) {
        StretchEnds(net, d + init);
        RepeatedStop(net, Stretch(net, d + init), Stretch(net, d + CanonVisits(net, init)), last);
      } else {
        if n == 0 { DepotIsNoRun(net, last); }
        FreshStop(net, Stretch(net, d + init), Stretch(net, d + CanonVisits(net, init)), previous, last);
        assert d + CanonVisits(net, init) + [last] == d + CanonVisits(net, visits);
        StretchNext(net, d + CanonVisits(net, init), last);
      }
    }
  }

  lemma DepotIsNoRun(net: Instance, last: int)
    requires 0.0 < net.speed && !IsStation(net, net.depot)
    ensures !(net.depot == last && Supported(net, last))
  {
  }

  /** The canonical legs of a route are the legs of its canonical visits. */
  lemma {:induction false} CanonAgrees(net: Instance, visits: seq<int>)
    requires 0.0 < net.speed && !IsStation(net, net.depot)
    ensures SameAfterCanon(net, RouteLabel(net, visits), RouteLabel(net, CanonVisits(net, visits)))
  {
    hide Concat, Hop, Supported, CanonLegs, SameAfterCanon, Stretch, CanonVisits, EndsAt;
    CanonStretch(net, visits);
    var kept := CanonVisits(net, visits);
    var nodes, fewer := [net.depot] + visits, [net.depot] + kept;
    var last := nodes[|nodes| - 1];
    assert last == fewer[|fewer| - 1] by {
      if visits != [] { assert kept[|kept| - 1] == visits[|visits| - 1]; }
    }
    StretchNext(net, nodes, net.depot);
    StretchNext(net, fewer, net.depot);
    DepotIsNoRun(net, net.depot);
    FreshStop(net, Stretch(net, nodes), Stretch(net, fewer), last, net.depot);
  }
}
