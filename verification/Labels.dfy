/** Charging-sequence labels (include/ils_sp/evaluator.hpp, src/evaluator.cpp): a stretch of a route
    reduced to its charging opportunities. Appending labels is associative but not commutative. */
module Labels {
  import opened Common
  import opened Curves
  import opened Network

  datatype Leg = Leg(station: int, energy: real, adjacent: bool)

  /** `Blank` is the label that was never initialised. */
  datatype Label =
    | Blank
    | Label(origin: int, target: int, legs: seq<Leg>, tail: real, travel: real, service: real)

  /** Energy carried over from the left is added to the first leg on the right. */
  function Carried(tail: real, legs: seq<Leg>): (r: seq<Leg>)
    requires legs != []
    ensures |r| == |legs| && r[1..] == legs[1..]
  {
    [legs[0].(energy := legs[0].energy + tail)] + legs[1..]
  }

  function JoinLegs(left: seq<Leg>, tail: real, right: seq<Leg>): seq<Leg> {
    if right == [] then left else left + Carried(tail, right)
  }

  function Concat(left: Label, right: Label): Label {
    if right.Blank? then left
    else if left.Blank? then right
    else
      Label(left.origin, right.target, JoinLegs(left.legs, left.tail, right.legs),
            if right.legs == [] then left.tail + right.tail else right.tail,
            left.travel + right.travel, left.service + right.service)
  }

  /** The guard that makes `append` throw. */
  predicate Apart(left: Label, right: Label) {
    left.Label? && right.Label? && left.target != right.origin
  }

  lemma ConcatBlank(x: Label)
    ensures Concat(Blank, x) == x && Concat(x, Blank) == x
  {
  }

  lemma JoinLegsAssociative(a: seq<Leg>, aTail: real, b: seq<Leg>, bTail: real, c: seq<Leg>)
    ensures JoinLegs(JoinLegs(a, aTail, b), if b == [] then aTail + bTail else bTail, c)
            == JoinLegs(a, aTail, JoinLegs(b, bTail, c))
  {
    if c != [] {
      var carried := Carried(bTail, c);
      if b == [] {
        assert JoinLegs(b, bTail, c) == carried;
        assert Carried(aTail, carried) == Carried(aTail + bTail, c);
      } else {
        assert Carried(aTail, b + carried) == Carried(aTail, b) + carried;
        assert a + (Carried(aTail, b) + carried) == (a + Carried(aTail, b)) + carried;
      }
    }
  }

  lemma ConcatAssociative(a: Label, b: Label, c: Label)
    ensures Concat(Concat(a, b), c) == Concat(a, Concat(b, c))
  {
    if a.Label? && b.Label? && c.Label? {
      JoinLegsAssociative(a.legs, a.tail, b.legs, b.tail, c.legs);
      hide Carried;
    }
  }

  function Fold(labels: seq<Label>): Label {
    if labels == [] then Blank else Concat(Fold(labels[..|labels| - 1]), labels[|labels| - 1])
  }

  lemma {:induction false} FoldAppend(xs: seq<Label>, ys: seq<Label>)
    ensures Fold(xs + ys) == Concat(Fold(xs), Fold(ys))
    decreases |ys|
  {
    hide Concat;
    if ys == [] {
      assert xs + ys == xs;
      ConcatBlank(Fold(xs));
    } else {
      var n := |ys| - 1;
      assert (xs + ys)[..|xs + ys| - 1] == xs + ys[..n];
      FoldAppend(xs, ys[..n]);
      ConcatAssociative(Fold(xs), Fold(ys[..n]), ys[n]);
    }
  }

  lemma FoldOne(x: Label)
    ensures Fold([x]) == x
  {
    ConcatBlank(x);
    assert [x][..0] == [];
  }

  lemma {:induction false} FoldFront(labels: seq<Label>)
    requires labels != []
    ensures Fold(labels) == Concat(labels[0], Fold(labels[1..]))
  {
    FoldAppend([labels[0]], labels[1..]);
    FoldOne(labels[0]);
    assert [labels[0]] + labels[1..] == labels;
  }

  // ----- labels in place -----

  /** A label that `append` grows in place. */
  class Accumulator {
    var current: Label

    constructor ()
      ensures current == Blank
    {
      current := Blank;
    }

    /** `append`: refuses a right label that does not start where this one ends. */
    method Append(right: Label) returns (ok: bool)
      modifies this
      ensures ok == !Apart(old(current), right)
      ensures current == if ok then Concat(old(current), right) else old(current)
    {
      if right.Blank? { return true; }
      if current.Blank? {
        current := right;
        return true;
      }
      if current.target != right.origin { return false; }
      current := current.(target := right.target);
      current := current.(travel := current.travel + right.travel);
      current := current.(service := current.service + right.service);
      if right.legs == [] {
        current := current.(tail := current.tail + right.tail);
        return true;
      }
      var first := right.legs[0];
      first := first.(energy := first.energy + current.tail);
      current := current.(legs := current.legs + [first]);
      current := current.(legs := current.legs + right.legs[1..]);
      current := current.(tail := right.tail);
      assert [first] + right.legs[1..] == Carried(old(current).tail, right.legs);
      return true;
    }
  }

  // ----- physical edges -----

  /** One physical edge. */
  function Hop(net: Instance, a: int, b: int): Label
    requires 0.0 < net.speed
  {
    var energy := Energy(net, a, b);
    Label(a, b,
          if IsStation(net, b) then [Leg(b, energy, a == b)] else [],
          if IsStation(net, b) then 0.0 else energy,
          Travel(net, a, b), Service(net, b))
  }

  function Hops(net: Instance, nodes: seq<int>): (r: seq<Label>)
    requires 0.0 < net.speed && nodes != []
    ensures |r| == |nodes| - 1
    ensures forall i | 0 <= i < |r| :: r[i] == Hop(net, nodes[i], nodes[i + 1])
  {
    seq(|nodes| - 1, i requires 0 <= i < |nodes| - 1 => Hop(net, nodes[i], nodes[i + 1]))
  }

  lemma HopsJoin(net: Instance, xs: seq<int>, ys: seq<int>)
    requires 0.0 < net.speed && xs != [] && ys != [] && xs[|xs| - 1] == ys[0]
    ensures Hops(net, xs + ys[1..]) == Hops(net, xs) + Hops(net, ys)
  {
    var nodes := xs + ys[1..];
    forall i | 0 <= i < |nodes| - 1
      ensures Hops(net, nodes)[i] == (Hops(net, xs) + Hops(net, ys))[i]
    {
    }
  }

  /** A stretch of a route, node by node. */
  function Stretch(net: Instance, nodes: seq<int>): Label
    requires 0.0 < net.speed && nodes != []
  {
    Fold(Hops(net, nodes))
  }

  lemma StretchJoin(net: Instance, xs: seq<int>, ys: seq<int>)
    requires 0.0 < net.speed && xs != [] && ys != [] && xs[|xs| - 1] == ys[0]
    ensures Stretch(net, xs + ys[1..]) == Concat(Stretch(net, xs), Stretch(net, ys))
  {
    HopsJoin(net, xs, ys);
    FoldAppend(Hops(net, xs), Hops(net, ys));
  }

  lemma {:induction false} StretchEnds(net: Instance, nodes: seq<int>)
    requires 0.0 < net.speed && |nodes| >= 2
    ensures var s := Stretch(net, nodes);
      s.Label? && s.origin == nodes[0] && s.target == nodes[|nodes| - 1]
    decreases |nodes|
  {
    hide Hop;
    var n := |nodes| - 1;
    StretchNext(net, nodes[..n], nodes[n]);
    assert nodes[..n] + [nodes[n]] == nodes;
    HopEnds(net, nodes[n - 1], nodes[n]);
    if n > 1 {
      StretchEnds(net, nodes[..n]);
    } else {
      StretchOne(net, nodes[0]);
      assert nodes[..n] == [nodes[0]];
    }
  }

  lemma HopEnds(net: Instance, a: int, b: int)
    requires 0.0 < net.speed
    ensures var h := Hop(net, a, b); h.Label? && h.origin == a && h.target == b
  {
  }

  lemma StretchOne(net: Instance, node: int)
    requires 0.0 < net.speed
    ensures Stretch(net, [node]) == Blank
  {
    assert Hops(net, [node]) == [];
  }

  lemma StretchNext(net: Instance, nodes: seq<int>, node: int)
    requires 0.0 < net.speed && nodes != []
    ensures Stretch(net, nodes + [node]) == Concat(Stretch(net, nodes), Hop(net, nodes[|nodes| - 1], node))
  {
    var last := nodes[|nodes| - 1];
    StretchJoin(net, nodes, [last, node]);
    assert [last, node][1..] == [node];
    assert Hops(net, [last, node]) == [Hop(net, last, node)];
    FoldOne(Hop(net, last, node));
  }

  /** The physical nodes of a route: the depot is implicit at both ends. */
  function Nodes(net: Instance, visits: seq<int>): seq<int> {
    [net.depot] + visits + [net.depot]
  }

  function RouteLabel(net: Instance, visits: seq<int>): Label
    requires 0.0 < net.speed
  {
    Stretch(net, Nodes(net, visits))
  }

  /** `route_label`: one edge label per visit and one back to the depot; `append` never refuses. */
  method BuildRouteLabel(net: Instance, visits: seq<int>) returns (r: Label)
    requires 0.0 < net.speed
    ensures r == RouteLabel(net, visits)
  {
    hide Concat, Hop;
    var result := new Accumulator();
    var previous := net.depot;
    StretchOne(net, net.depot);
    for i := 0 to |visits|
      invariant previous == ([net.depot] + visits[..i])[i]
      invariant result.current == Stretch(net, [net.depot] + visits[..i])
    {
      ghost var nodes := [net.depot] + visits[..i];
      if i > 0 { StretchEnds(net, nodes); }
      HopEnds(net, previous, visits[i]);
      StretchNext(net, nodes, visits[i]);
      assert nodes + [visits[i]] == [net.depot] + visits[..i + 1];
      var ok := result.Append(Hop(net, previous, visits[i]));
      previous := visits[i];
    }
    ghost var nodes := [net.depot] + visits;
    assert visits[..|visits|] == visits;
    if visits != [] { StretchEnds(net, nodes); }
    HopEnds(net, previous, net.depot);
    StretchNext(net, nodes, net.depot);
    assert nodes + [net.depot] == Nodes(net, visits);
    var ok := result.Append(Hop(net, previous, net.depot));
    assert ok;
    r := result.current;
  }

  /** `edge_label`: the label of a station path between two anchors, or none for a non-station. */
  method EdgeLabel(net: Instance, origin: int, path: seq<int>, target: int) returns (r: Option<Label>)
    requires 0.0 < net.speed
    ensures r.Some? <==> forall i | 0 <= i < |path| :: IsStation(net, path[i])
    ensures r.Some? ==> r.value == Stretch(net, [origin] + path + [target])
  {
    hide Concat, Fold, Energy, Travel;
    var legs: seq<Leg> := [];
    var previous, energy, travel := origin, 0.0, 0.0;
    StretchOne(net, origin);
    for i := 0 to |path|
      invariant forall k | 0 <= k < i :: IsStation(net, path[k])
      invariant previous == ([origin] + path[..i])[i] && energy == 0.0
      invariant Stretch(net, [origin] + path[..i])
                == if i == 0 then Blank else Label(origin, previous, legs, energy, travel, 0.0)
      invariant i == 0 ==> legs == [] && travel == 0.0
    {
      if !IsStation(net, path[i]) { return None; }
      travel := travel + Travel(net, previous, path[i]);
      energy := energy + Energy(net, previous, path[i]);
      StretchNext(net, [origin] + path[..i], path[i]);
      assert [origin] + path[..i] + [path[i]] == [origin] + path[..i + 1];
      ConcatStation(net, Stretch(net, [origin] + path[..i]), previous, path[i]);
      legs := legs + [Leg(path[i], energy, previous == path[i])];
      energy := 0.0;
      previous := path[i];
    }
    assert path[..|path|] == path;
    travel := travel + Travel(net, previous, target);
    energy := energy + Energy(net, previous, target);
    StretchNext(net, [origin] + path, target);
    ConcatHop(net, Stretch(net, [origin] + path), previous, target);
    if IsStation(net, target) {
      legs := legs + [Leg(target, energy, previous == target)];
      energy := 0.0;
    }
    var service := if net.kind(target).Customer? then net.serviceTime(target) else 0.0;
    r := Some(Label(origin, target, legs, energy, travel, service));
  }

  lemma ConcatHop(net: Instance, left: Label, a: int, b: int)
    requires 0.0 < net.speed
    ensures var r := Concat(left, Hop(net, a, b));
      && r.Label? && r.target == b
      && r.origin == (if left.Blank? then a else left.origin)
      && (var before := if left.Blank? then [] else left.legs;
          var tail := if left.Blank? then 0.0 else left.tail;
          if IsStation(net, b)
          then r.legs == before + [Leg(b, tail + Energy(net, a, b), a == b)] && r.tail == 0.0
          else r.legs == before && r.tail == tail + Energy(net, a, b))
      && r.travel == (if left.Blank? then 0.0 else left.travel) + Travel(net, a, b)
      && r.service == (if left.Blank? then 0.0 else left.service) + Service(net, b)
  {
    hide Energy, Travel;
  }

  lemma ConcatStation(net: Instance, left: Label, a: int, b: int)
    requires 0.0 < net.speed && IsStation(net, b)
    ensures var r := Concat(left, Hop(net, a, b));
      && r.Label? && r.target == b && r.tail == 0.0
      && r.origin == (if left.Blank? then a else left.origin)
      && r.legs == (if left.Blank? then [] else left.legs)
                   + [Leg(b, (if left.Blank? then 0.0 else left.tail) + Energy(net, a, b), a == b)]
      && r.travel == (if left.Blank? then 0.0 else left.travel) + Travel(net, a, b)
      && r.service == (if left.Blank? then 0.0 else left.service)
  {
    hide Energy, Travel, Concat, Hop;
    ConcatHop(net, left, a, b);
  }
}
