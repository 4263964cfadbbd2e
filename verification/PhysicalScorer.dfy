/** Scoring edits of one physical route (src/evaluator.cpp, `PhysicalRouteScorer`). Prefix and
    suffix labels are views into two shared leg arrays; the suffix array is overwritten while it is
    built, and each view overrides the energy of its first leg. Every score equals evaluating the
    edited route from scratch. */
module PhysicalScorer {
  import opened Common
  import opened Network
  import opened Labels
  import opened LabelTrees
  import opened Evaluation
  import opened RouteCosts
  import opened RouteEvaluators

  // ----- views -----

  /** A label whose legs live in a backing array; `first` replaces the energy of its first leg. */
  datatype View =
    | Unset
    | View(origin: int, target: int, begin: nat, count: nat, first: real, tail: real, travel: real, service: real)

  predicate Inside(v: View, size: nat) {
    v.View? ==> v.begin + v.count <= size
  }

  function Override(legs: seq<Leg>, first: real): seq<Leg> {
    if legs == [] then [] else [legs[0].(energy := first)] + legs[1..]
  }

  function Read(backing: seq<Leg>, v: View): Label
    requires Inside(v, |backing|)
  {
    if v.Unset? then Blank
    else Label(v.origin, v.target, Override(backing[v.begin..v.begin + v.count], v.first), v.tail, v.travel, v.service)
  }

  /** A view only depends on its own legs, and not on the energy of the first. */
  lemma ReadStable(before: seq<Leg>, after: seq<Leg>, v: View)
    requires |before| == |after| && Inside(v, |before|)
    requires v.View? && v.count > 0 ==>
      && after[v.begin].station == before[v.begin].station && after[v.begin].adjacent == before[v.begin].adjacent
      && forall k | v.begin < k < v.begin + v.count :: after[k] == before[k]
    ensures Read(after, v) == Read(before, v)
  {
    if v.View? && v.count > 0 {
      var x, y := before[v.begin..v.begin + v.count], after[v.begin..v.begin + v.count];
      assert x[1..] == y[1..];
    }
  }

  function StationsUpTo(net: Instance, nodes: seq<int>, k: nat): nat
    requires k < |nodes|
  {
    if k == 0 then 0 else StationsUpTo(net, nodes, k - 1) + (if IsStation(net, nodes[k]) then 1 else 0)
  }

  lemma {:induction false} StationsMonotone(net: Instance, nodes: seq<int>, j: nat, k: nat)
    requires j <= k < |nodes|
    ensures StationsUpTo(net, nodes, j) <= StationsUpTo(net, nodes, k) <= StationsUpTo(net, nodes, j) + (k - j)
    decreases k - j
  {
    if j < k { StationsMonotone(net, nodes, j, k - 1); }
  }

  ghost predicate PrefixView(net: Instance, nodes: seq<int>, backing: seq<Leg>, v: View, i: nat)
    requires 0.0 < net.speed && i < |nodes|
  {
    && (v.Unset? <==> i == 0)
    && Inside(v, |backing|)
    && (v.View? ==> v.begin == 0 && v.count == StationsUpTo(net, nodes, i))
    && (v.View? && v.count > 0 ==> v.first == backing[0].energy)
    && Read(backing, v) == Stretch(net, nodes[..i + 1])
  }

  lemma {:induction false} PrefixViewStable(net: Instance, nodes: seq<int>, before: seq<Leg>, after: seq<Leg>, v: View, i: nat, used: nat)
    requires 0.0 < net.speed && i < |nodes| && |before| == |after| && used <= |before|
    requires PrefixView(net, nodes, before, v, i) && StationsUpTo(net, nodes, i) <= used
    requires forall k | 0 <= k < used :: after[k] == before[k]
    ensures PrefixView(net, nodes, after, v, i)
  {
    ReadStable(before, after, v);
  }

  /** The prefix views, front to back; the leg array only grows at its end. */
  method BuildPrefixes(net: Instance, nodes: seq<int>, legs: array<Leg>) returns (views: seq<View>)
    requires 0.0 < net.speed && nodes != [] && legs.Length == StationsUpTo(net, nodes, |nodes| - 1)
    modifies legs
    ensures |views| == |nodes|
    ensures forall i | 0 <= i < |nodes| :: PrefixView(net, nodes, legs[..], views[i], i)
  {
    hide Stretch, Hop, Concat, PrefixView;
    views := [Unset];
    var used := 0;
    FirstPrefix(net, nodes, legs[..]);
    for index := 0 to |nodes| - 1
      invariant |views| == index + 1 && used == StationsUpTo(net, nodes, index)
      invariant forall i | 0 <= i <= index :: PrefixView(net, nodes, legs[..], views[i], i)
    {
      ghost var before := legs[..];
      var edge := Hop(net, nodes[index], nodes[index + 1]);
      var prior := views[index];
      PrefixViewFacts(net, nodes, before, prior, index);
      StationsMonotone(net, nodes, index + 1, |nodes| - 1);
      HopShape(net, nodes[index], nodes[index + 1]);
      var origin := if prior.View? then prior.origin else edge.origin;
      var travel := if prior.View? then prior.travel + edge.travel else edge.travel;
      var service := if prior.View? then prior.service + edge.service else edge.service;
      var tail := if prior.View? then prior.tail + edge.tail else edge.tail;
      if edge.legs != [] {
        var leg := edge.legs[0];
        if prior.View? { leg := leg.(energy := leg.energy + prior.tail); }
        legs[used] := leg;
        used := used + 1;
        tail := edge.tail;
      }
      forall i | 0 <= i <= index ensures PrefixView(net, nodes, legs[..], views[i], i) {
        StationsMonotone(net, nodes, i, index);
        PrefixViewStable(net, nodes, before, legs[..], views[i], i, StationsUpTo(net, nodes, index));
      }
      var next := View(origin, edge.target, 0, used, if used > 0 then legs[0].energy else 0.0, tail, travel, service);
      NextPrefix(net, nodes, legs[..], prior, index, next);
      views := views + [next];
    }
  }

  lemma FirstPrefix(net: Instance, nodes: seq<int>, backing: seq<Leg>)
    requires 0.0 < net.speed && nodes != []
    ensures PrefixView(net, nodes, backing, Unset, 0)
  {
    StretchOne(net, nodes[0]);
    assert nodes[..1] == [nodes[0]];
  }

  lemma {:induction false} PrefixViewFacts(net: Instance, nodes: seq<int>, backing: seq<Leg>, v: View, i: nat)
    requires 0.0 < net.speed && i < |nodes| && PrefixView(net, nodes, backing, v, i)
    ensures v.Unset? <==> i == 0
    ensures v.View? ==> v.begin == 0 && v.count == StationsUpTo(net, nodes, i)
  {
    hide Stretch;
  }

  lemma HopShape(net: Instance, a: int, b: int)
    requires 0.0 < net.speed
    ensures var h := Hop(net, a, b);
      && h.Label? && h.origin == a && h.target == b
      && h.legs == (if IsStation(net, b) then [Leg(b, Energy(net, a, b), a == b)] else [])
      && h.tail == (if IsStation(net, b) then 0.0 else Energy(net, a, b))
  {
    hide Energy, Travel;
  }

  /** The new view reads as the previous one followed by the edge. */
  lemma NextPrefix(net: Instance, nodes: seq<int>, backing: seq<Leg>, prior: View, index: nat, next: View)
    requires 0.0 < net.speed && index + 1 < |nodes| && PrefixView(net, nodes, backing, prior, index)
    requires next.View? && next.begin == 0 && next.count == StationsUpTo(net, nodes, index + 1) <= |backing|
    requires next.count > 0 ==> next.first == backing[0].energy
    requires var edge := Hop(net, nodes[index], nodes[index + 1]);
      && next.origin == (if prior.View? then prior.origin else edge.origin) && next.target == edge.target
      && next.travel == (if prior.View? then prior.travel + edge.travel else edge.travel)
      && next.service == (if prior.View? then prior.service + edge.service else edge.service)
      && (if edge.legs == [] then next.tail == (if prior.View? then prior.tail + edge.tail else edge.tail)
          else next.tail == edge.tail
               && backing[next.count - 1]
                  == edge.legs[0].(energy := edge.legs[0].energy + (if prior.View? then prior.tail else 0.0)))
    ensures PrefixView(net, nodes, backing, next, index + 1)
  {
    hide Stretch, Energy, Travel, Concat, Service, Override;
    var a, b := nodes[index], nodes[index + 1];
    StretchNext(net, nodes[..index + 1], b);
    assert nodes[..index + 1] + [b] == nodes[..index + 2];
    ConcatHop(net, Read(backing, prior), a, b);
    WholeSpan(backing, next.count, next.first);
    if prior.View? { WholeSpan(backing, prior.count, prior.first); }
    if IsStation(net, b) {
      var before := if prior.View? then prior.count else 0;
      assert backing[..before + 1] == backing[..before] + [backing[before]];
    }
  }

  lemma WholeSpan(backing: seq<Leg>, count: nat, first: real)
    requires count <= |backing| && (count > 0 ==> first == backing[0].energy)
    ensures Override(backing[0..count], first) == backing[..count]
  {
  }

  // ----- suffixes -----

  ghost predicate SuffixView(net: Instance, nodes: seq<int>, backing: seq<Leg>, v: View, i: nat)
    requires 0.0 < net.speed && i < |nodes|
  {
    && (v.Unset? <==> i == |nodes| - 1)
    && Inside(v, |backing|)
    && (v.View? ==> v.begin == StationsUpTo(net, nodes, i) && v.begin + v.count == |backing|)
    && Read(backing, v) == Stretch(net, nodes[i..])
  }

  lemma {:induction false} SuffixViewStable(net: Instance, nodes: seq<int>, before: seq<Leg>, after: seq<Leg>, v: View, i: nat, slot: nat)
    requires 0.0 < net.speed && i < |nodes| && |before| == |after|
    requires SuffixView(net, nodes, before, v, i) && slot <= StationsUpTo(net, nodes, i)
    requires slot < |before| ==> after[slot].station == before[slot].station && after[slot].adjacent == before[slot].adjacent
    requires forall k | slot < k < |before| :: after[k] == before[k]
    ensures SuffixView(net, nodes, after, v, i)
  {
    hide Stretch;
    ReadStable(before, after, v);
  }

  /** The suffix views, back to front: the energy at `first` is overwritten until a station is
      crossed, and the views built so far do not notice. */
  method BuildSuffixes(net: Instance, nodes: seq<int>, legs: array<Leg>) returns (views: seq<View>)
    requires 0.0 < net.speed && nodes != [] && legs.Length == StationsUpTo(net, nodes, |nodes| - 1)
    modifies legs
    ensures |views| == |nodes|
    ensures forall i | 0 <= i < |nodes| :: SuffixView(net, nodes, legs[..], views[i], i)
  {
    hide Stretch, Hop, Concat, SuffixView;
    var n := |nodes| - 1;
    views := seq(|nodes|, i => Unset);
    var first := legs.Length;
    FirstSuffix(net, nodes, legs[..]);
    for index := n downto 0
      invariant |views| == |nodes| && first == StationsUpTo(net, nodes, index) <= legs.Length
      invariant forall i | index <= i <= n :: SuffixView(net, nodes, legs[..], views[i], i)
    {
      ghost var start := legs[..];
      var edge := Hop(net, nodes[index], nodes[index + 1]);
      var after := views[index + 1];
      SuffixViewFacts(net, nodes, start, after, index + 1);
      HopShape(net, nodes[index], nodes[index + 1]);
      var target := if after.View? then after.target else edge.target;
      var travel := if after.View? then edge.travel + after.travel else edge.travel;
      var service := if after.View? then edge.service + after.service else edge.service;
      var tail := if after.View? then edge.tail + after.tail else edge.tail;
      if after.View? && after.count > 0 {
        legs[first] := legs[first].(energy := after.first + edge.tail);
        tail := after.tail;
      }
      ghost var middle := legs[..];
      forall i | index + 1 <= i <= n ensures SuffixView(net, nodes, middle, views[i], i) {
        StationsMonotone(net, nodes, index + 1, i);
        SuffixViewStable(net, nodes, start, middle, views[i], i, first);
      }
      if edge.legs != [] {
        first := first - 1;
        legs[first] := edge.legs[0];
      }
      forall i | index + 1 <= i <= n ensures SuffixView(net, nodes, legs[..], views[i], i) {
        StationsMonotone(net, nodes, index + 1, i);
        if edge.legs != [] {
          SuffixViewUntouched(net, nodes, middle, legs[..], views[i], i);
        }
      }
      StationsMonotone(net, nodes, index, n);
      var count := legs.Length - first;
      var next := View(edge.origin, target, first, count, if count > 0 then legs[first].energy else 0.0, tail, travel, service);
      NextSuffix(net, nodes, start, legs[..], after, index, next);
      views := views[index := next];
    }
  }

  lemma {:induction false} SuffixViewUntouched(net: Instance, nodes: seq<int>, before: seq<Leg>, after: seq<Leg>, v: View, i: nat)
    requires 0.0 < net.speed && i < |nodes| && |before| == |after|
    requires SuffixView(net, nodes, before, v, i)
    requires forall k | StationsUpTo(net, nodes, i) <= k < |before| :: after[k] == before[k]
    ensures SuffixView(net, nodes, after, v, i)
  {
    hide Stretch;
    ReadStable(before, after, v);
  }

  lemma FirstSuffix(net: Instance, nodes: seq<int>, backing: seq<Leg>)
    requires 0.0 < net.speed && nodes != []
    ensures SuffixView(net, nodes, backing, Unset, |nodes| - 1)
  {
    var last := nodes[|nodes| - 1];
    StretchOne(net, last);
    assert nodes[|nodes| - 1..] == [last];
  }

  lemma {:induction false} SuffixViewFacts(net: Instance, nodes: seq<int>, backing: seq<Leg>, v: View, i: nat)
    requires 0.0 < net.speed && i < |nodes| && SuffixView(net, nodes, backing, v, i)
    ensures v.Unset? <==> i == |nodes| - 1
    ensures v.View? ==> v.begin == StationsUpTo(net, nodes, i) && v.begin + v.count == |backing|
  {
    hide Stretch;
  }

  /** The new view reads as the edge followed by the later view. */
  lemma NextSuffix(net: Instance, nodes: seq<int>, start: seq<Leg>, backing: seq<Leg>, after: View, index: nat, next: View)
    requires 0.0 < net.speed && index + 1 < |nodes| && |start| == |backing|
    requires StationsUpTo(net, nodes, |nodes| - 1) == |backing|
    requires SuffixView(net, nodes, start, after, index + 1)
    requires next.View? && next.begin == StationsUpTo(net, nodes, index) && next.begin + next.count == |backing|
    requires next.count > 0 ==> next.first == backing[next.begin].energy
    requires var edge := Hop(net, nodes[index], nodes[index + 1]);
      var slot := StationsUpTo(net, nodes, index + 1);
      && next.origin == edge.origin && next.target == (if after.View? then after.target else edge.target)
      && next.travel == (if after.View? then edge.travel + after.travel else edge.travel)
      && next.service == (if after.View? then edge.service + after.service else edge.service)
      && next.tail == (if after.Unset? then edge.tail else if after.count > 0 then after.tail else edge.tail + after.tail)
      && (edge.legs != [] ==> next.count > 0 && backing[next.begin] == edge.legs[0])
      && (after.View? && after.count > 0 ==>
            && backing[slot] == start[slot].(energy := after.first + edge.tail)
            && forall k | slot < k < |backing| :: backing[k] == start[k])
    ensures SuffixView(net, nodes, backing, next, index)
  {
    hide Stretch, Energy, Travel, Concat, Service, Override, Hop, Carried;
    var edge := Hop(net, nodes[index], nodes[index + 1]);
    HopShape(net, nodes[index], nodes[index + 1]);
    StretchFront(net, nodes[index..]);
    assert nodes[index..][1..] == nodes[index + 1..];
    var slot := StationsUpTo(net, nodes, index + 1);
    ConcatParts(edge, Read(start, after));
    SpanIsTail(backing, next.begin, next.first);
    SuffixLegs(start, backing, after, slot, edge.tail, edge.legs, next.begin);
  }

  /** The legs of the new view: the edge's own, then the later view's with the edge's energy added. */
  lemma SuffixLegs(start: seq<Leg>, backing: seq<Leg>, after: View, slot: nat, tail: real, own: seq<Leg>, begin: nat)
    requires |start| == |backing| && slot <= |backing| && Inside(after, |start|)
    requires if after.View? then after.begin == slot && slot + after.count == |backing| else slot == |backing|
    requires begin <= slot && slot - begin == |own| <= 1 && (own != [] ==> backing[begin] == own[0])
    requires after.View? && after.count > 0 ==>
      && backing[slot] == start[slot].(energy := after.first + tail)
      && forall k | slot < k < |backing| :: backing[k] == start[k]
    ensures var later := Read(start, after);
      backing[begin..] == own + (if later.Blank? || later.legs == [] then [] else Carried(tail, later.legs))
  {
    hide Override, Carried;
    assert backing[begin..] == own + backing[slot..];
    if after.View? { SuffixCarried(start, backing, after, slot, tail); }
  }

  lemma ConcatParts(left: Label, right: Label)
    requires left.Label?
    ensures var r := Concat(left, right);
      if right.Blank? then r == left
      else r == Label(left.origin, right.target,
                      left.legs + (if right.legs == [] then [] else Carried(left.tail, right.legs)),
                      if right.legs == [] then left.tail + right.tail else right.tail,
                      left.travel + right.travel, left.service + right.service)
  {
    hide Carried;
    if right.Label? && right.legs == [] { assert left.legs + [] == left.legs; }
  }

  /** The overwritten tail of the array is the later view's legs with the edge's energy added. */
  lemma SuffixCarried(start: seq<Leg>, backing: seq<Leg>, after: View, slot: nat, tail: real)
    requires |start| == |backing| && after.View? && after.begin == slot && slot + after.count == |backing|
    requires after.count > 0 ==>
      && backing[slot] == start[slot].(energy := after.first + tail)
      && forall k | slot < k < |backing| :: backing[k] == start[k]
    ensures (Override(start[slot..slot + after.count], after.first) == []) == (after.count == 0)
    ensures backing[slot..] == if after.count == 0 then []
                               else Carried(tail, Override(start[slot..slot + after.count], after.first))
  {
    if after.count > 0 {
      assert start[slot..slot + after.count] == start[slot..];
      assert backing[slot + 1..] == start[slot + 1..];
    }
  }

  lemma SpanIsTail(backing: seq<Leg>, begin: nat, first: real)
    requires begin <= |backing| && (begin < |backing| ==> first == backing[begin].energy)
    ensures Override(backing[begin..begin + (|backing| - begin)], first) == backing[begin..]
  {
  }
}
