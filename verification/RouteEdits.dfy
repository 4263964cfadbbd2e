/** Scoring one edit of a physical route from shared views (src/evaluator.cpp, the `evaluate_*`
    members of `PhysicalRouteScorer` and `evaluate` on a span of views). */
module RouteEdits {
  import opened Common
  import opened Network
  import opened Labels
  import opened LabelTrees
  import opened Evaluation
  import opened RouteCosts
  import opened RouteEvaluators
  import opened PhysicalScorer

  // ----- stitching -----

  /** One component of a scored route: a span of legs and the energy of its first leg. */
  datatype Piece = Piece(origin: int, target: int, span: seq<Leg>, first: real, tail: real, travel: real, service: real)

  function LabelOf(p: Piece): Label {
    Label(p.origin, p.target, Override(p.span, p.first), p.tail, p.travel, p.service)
  }

  function LabelsOf(pieces: seq<Piece>): (r: seq<Label>)
    ensures |r| == |pieces| && forall i | 0 <= i < |r| :: r[i] == LabelOf(pieces[i])
  {
    seq(|pieces|, i requires 0 <= i < |pieces| => LabelOf(pieces[i]))
  }

  /** The converting constructor of a view from a whole label. */
  function Whole(l: Label): (p: Piece)
    requires l.Label?
    ensures LabelOf(p) == l
  {
    Piece(l.origin, l.target, l.legs, if l.legs == [] then 0.0 else l.legs[0].energy, l.tail, l.travel, l.service)
  }

  lemma FoldNext(pieces: seq<Piece>, k: nat)
    requires k < |pieces|
    ensures Fold(LabelsOf(pieces[..k + 1])) == Concat(Fold(LabelsOf(pieces[..k])), LabelOf(pieces[k]))
  {
    assert LabelsOf(pieces[..k + 1])[..k] == LabelsOf(pieces[..k]);
  }

  /** The label assembled so far. */
  ghost function Partial(pieces: seq<Piece>, i: nat): Label
    requires i <= |pieces|
  {
    Fold(LabelsOf(pieces[..i]))
  }

  lemma PartialNext(pieces: seq<Piece>, i: nat)
    requires i < |pieces|
    ensures Partial(pieces, i + 1) == Concat(Partial(pieces, i), LabelOf(pieces[i]))
    ensures i == 0 ==> Partial(pieces, i).Blank?
  {
    hide Concat;
    FoldNext(pieces, i);
    if i == 0 { assert LabelsOf(pieces[..0]) == []; }
  }

  /** First pass: contiguity, travel and service. */
  method SumPieces(pieces: seq<Piece>) returns (ok: bool, travel: real, service: real)
    requires pieces != []
    ensures Smooth(LabelsOf(pieces)) ==> ok
    ensures ok ==>
      var l := Partial(pieces, |pieces|);
      && l.Label? && l.origin == pieces[0].origin && l.target == pieces[|pieces| - 1].target
      && l.travel == travel && l.service == service
  {
    hide Override, Smooth, Partial, Concat;
    travel, service := 0.0, 0.0;
    for i := 0 to |pieces|
      invariant i == 0 ==> travel == 0.0 && service == 0.0
      invariant i > 0 ==>
        var l := Partial(pieces, i);
        && l.Label? && l.origin == pieces[0].origin && l.target == pieces[i - 1].target
        && l.travel == travel && l.service == service
    {
      PartialNext(pieces, i);
      ConcatTotals(Partial(pieces, i), LabelOf(pieces[i]));
      if i > 0 && pieces[i - 1].target != pieces[i].origin {
        if Smooth(LabelsOf(pieces)) { SmoothAt(pieces, i); }
        return false, travel, service;
      }
      travel := travel + pieces[i].travel;
      service := service + pieces[i].service;
    }
    ok := true;
  }

  /** Second pass: copy every leg; the first leg of a component takes the energy carried so far. */
  method CopyLegs(pieces: seq<Piece>) returns (legs: seq<Leg>, tail: real)
    requires pieces != []
    ensures Partial(pieces, |pieces|).Label?
    ensures Partial(pieces, |pieces|).legs == legs && Partial(pieces, |pieces|).tail == tail
  {
    hide Partial, Concat, Override, Carried;
    legs, tail := [], 0.0;
    for i := 0 to |pieces|
      invariant i == 0 ==> legs == [] && tail == 0.0
      invariant i > 0 ==> Partial(pieces, i).Label? && Partial(pieces, i).legs == legs && Partial(pieces, i).tail == tail
    {
      PartialNext(pieces, i);
      var p := pieces[i];
      ConcatPiece(Partial(pieces, i), p);
      if p.span == [] {
        assert legs + [] == legs;
        tail := tail + p.tail;
      } else {
        var head := p.span[0].(energy := p.first);
        head := head.(energy := head.energy + tail);
        ghost var before := legs;
        legs := legs + [head];
        legs := legs + p.span[1..];
        assert legs == before + ([head] + p.span[1..]);
        tail := p.tail;
      }
    }
  }

  lemma ConcatPiece(left: Label, p: Piece)
    ensures var r := Concat(left, LabelOf(p));
      var legs, tail := if left.Blank? then [] else left.legs, if left.Blank? then 0.0 else left.tail;
      && r.Label?
      && r.legs == legs + (if p.span == [] then [] else [p.span[0].(energy := p.first + tail)] + p.span[1..])
      && r.tail == (if p.span == [] then tail + p.tail else p.tail)
  {
    OverrideShape(p.span, p.first);
    if p.span == [] && left.Label? { assert left.legs + [] == left.legs; }
  }

  /** Assemble the components into one label: check contiguity first, then copy every leg. */
  method Stitch(pieces: seq<Piece>) returns (r: Option<Label>)
    ensures pieces != [] && Smooth(LabelsOf(pieces)) ==> r.Some?
    ensures r.Some? ==> pieces != [] && r.value == Fold(LabelsOf(pieces))
  {
    if pieces == [] { return None; }
    var ok, travel, service := SumPieces(pieces);
    if !ok { return None; }
    var legs, tail := CopyLegs(pieces);
    assert pieces[..|pieces|] == pieces;
    r := Some(Label(pieces[0].origin, pieces[|pieces| - 1].target, legs, tail, travel, service));
  }

  lemma OverrideShape(span: seq<Leg>, first: real)
    ensures Override(span, first) == [] <==> span == []
    ensures span != [] ==> Override(span, first) == [span[0].(energy := first)] + span[1..]
  {
  }

  lemma FoldEmpty()
    ensures Fold([]) == Blank
  {
  }

  lemma ConcatTotals(a: Label, b: Label)
    requires b.Label?
    ensures var r := Concat(a, b);
      && r.Label? && r.target == b.target && r.origin == (if a.Blank? then b.origin else a.origin)
      && r.travel == (if a.Blank? then 0.0 else a.travel) + b.travel
      && r.service == (if a.Blank? then 0.0 else a.service) + b.service
  {
  }

  lemma SmoothAt(pieces: seq<Piece>, i: nat)
    requires Smooth(LabelsOf(pieces)) && i < |pieces|
    ensures !Apart(Partial(pieces, i), LabelOf(pieces[i]))
  {
    hide Fold;
    assert LabelsOf(pieces)[..i] == LabelsOf(pieces[..i]);
  }

  // ----- what a list of components spells -----

  /** The components, one after another, drive `nodes`. */
  ghost predicate Spells(net: Instance, pieces: seq<Piece>, nodes: seq<int>)
    requires 0.0 < net.speed
  {
    && nodes != []
    && Fold(LabelsOf(pieces)) == Stretch(net, nodes)
    && Smooth(LabelsOf(pieces))
    && (pieces == [] ==> |nodes| == 1)
  }

  lemma SpellsNothing(net: Instance, node: int)
    requires 0.0 < net.speed
    ensures Spells(net, [], [node])
  {
    StretchOne(net, node);
  }

  lemma SpellsNext(net: Instance, pieces: seq<Piece>, xs: seq<int>, p: Piece, ys: seq<int>)
    requires 0.0 < net.speed && Spells(net, pieces, xs)
    requires |ys| >= 2 && xs[|xs| - 1] == ys[0] && LabelOf(p) == Stretch(net, ys)
    ensures Spells(net, pieces + [p], xs + ys[1..])
  {
    hide Fold, Stretch, Smooth;
    var labels := LabelsOf(pieces);
    assert LabelsOf(pieces + [p]) == labels + [LabelOf(p)];
    FoldAppend(labels, [LabelOf(p)]);
    FoldOne(LabelOf(p));
    StretchJoin(net, xs, ys);
    SmoothSplit(labels, LabelOf(p));
    StretchMeets(net, xs, ys);
  }

  /** Two stretches that share a node leave no gap. */
  lemma StretchMeets(net: Instance, xs: seq<int>, ys: seq<int>)
    requires 0.0 < net.speed && xs != [] && ys != [] && xs[|xs| - 1] == ys[0]
    ensures !Apart(Stretch(net, xs), Stretch(net, ys))
  {
    hide Stretch;
    if |xs| >= 2 { StretchEnds(net, xs); }
    if |ys| >= 2 { StretchEnds(net, ys); }
    if |xs| == 1 {
      StretchOne(net, xs[0]);
      assert xs == [xs[0]];
    }
    if |ys| == 1 {
      StretchOne(net, ys[0]);
      assert ys == [ys[0]];
    }
  }

  /** Hops that continue a smooth chain keep it smooth. */
  lemma {:induction false} SmoothHops(net: Instance, labels: seq<Label>, xs: seq<int>, ys: seq<int>)
    requires 0.0 < net.speed && xs != [] && ys != [] && xs[|xs| - 1] == ys[0]
    requires Smooth(labels) && Fold(labels) == Stretch(net, xs)
    ensures Smooth(labels + Hops(net, ys))
    decreases |ys|
  {
    hide Fold, Stretch, Smooth, Hop;
    var n := |ys| - 1;
    if n == 0 {
      assert labels + Hops(net, ys) == labels;
    } else {
      SmoothHops(net, labels, xs, ys[..n]);
      var before := labels + Hops(net, ys[..n]);
      assert labels + Hops(net, ys) == before + [Hop(net, ys[n - 1], ys[n])];
      FoldAppend(labels, Hops(net, ys[..n]));
      StretchJoin(net, xs, ys[..n]);
      assert Fold(Hops(net, ys[..n])) == Stretch(net, ys[..n]) by { StretchIs(net, ys[..n]); }
      var joined := xs + ys[..n][1..];
      assert joined[|joined| - 1] == ys[n - 1];
      StretchMeets(net, joined, [ys[n - 1], ys[n]]);
      StretchPair(net, ys[n - 1], ys[n]);
      SmoothSplit(before, Hop(net, ys[n - 1], ys[n]));
    }
  }

  lemma StretchIs(net: Instance, nodes: seq<int>)
    requires 0.0 < net.speed && nodes != []
    ensures Stretch(net, nodes) == Fold(Hops(net, nodes))
  {
  }

  lemma StretchPair(net: Instance, a: int, b: int)
    requires 0.0 < net.speed
    ensures Stretch(net, [a, b]) == Hop(net, a, b)
  {
    assert Hops(net, [a, b]) == [Hop(net, a, b)];
    FoldOne(Hop(net, a, b));
  }

  /** A finished list of components costs what its route costs. */
  method EvaluatePieces(net: Instance, pieces: seq<Piece>, ghost nodes: seq<int>) returns (s: Summary)
    requires Regular(net) && |nodes| >= 2 && Spells(net, pieces, nodes)
    ensures Stretch(net, nodes).Label? && SoundLabel(net, Stretch(net, nodes))
    ensures s == LabelCost(net, Stretch(net, nodes))
  {
    hide Stretch, SoundLabel, Regular, LabelCost, Fold, Smooth;
    assert 0.0 < net.speed by { RegularSpeed(net); }
    StretchEnds(net, nodes);
    StretchSound(net, nodes);
    var stitched := Stitch(pieces);
    s := EvaluateLabel(net, stitched.value);
  }

  // ----- the scorer -----

  ghost predicate ScorableRoute(net: Instance, visits: seq<int>) {
    && (forall i | 0 <= i < |visits| :: !net.kind(visits[i]).Depot?)
    && (forall i, j | 0 <= i < j < |visits| && net.kind(visits[i]).Customer? :: visits[i] != visits[j])
    && (exists i :: 0 <= i < |visits| && net.kind(visits[i]).Customer?)
  }

  class PhysicalRouteScorer {
    const net: Instance
    const visits: seq<int>
    const nodes: seq<int>
    const customers: set<int>
    const prefixLegs: array<Leg>
    const suffixLegs: array<Leg>
    var prefixes: seq<View>
    var suffixes: seq<View>
    const ranges: LabelTree?

    ghost predicate Valid()
      reads this, prefixLegs, suffixLegs, if ranges == null then {} else {ranges.nodes}
    {
      && Regular(net) && ScorableRoute(net, visits)
      && nodes == Nodes(net, visits)
      && customers == (set id | id in visits && net.kind(id).Customer?)
      && |prefixes| == |suffixes| == |nodes|
      && (forall i | 0 <= i < |nodes| :: PrefixView(net, nodes, prefixLegs[..], prefixes[i], i))
      && (forall i | 0 <= i < |nodes| :: SuffixView(net, nodes, suffixLegs[..], suffixes[i], i))
      && (ranges != null ==> ranges.Valid() && ranges.Leaves() == Hops(net, nodes))
    }

    constructor (net: Instance, visits: seq<int>, supportSwaps: bool)
      requires Regular(net) && ScorableRoute(net, visits) && |visits| < SIZE_LIMIT - 1
      ensures Valid() && fresh(prefixLegs) && fresh(suffixLegs)
      ensures this.net == net && this.visits == visits && (ranges != null <==> supportSwaps)
    {
      hide Regular, Stretch, PrefixView, SuffixView, Hop;
      assert 0.0 < net.speed by { RegularSpeed(net); }
      var path := Nodes(net, visits);
      var size := StationsUpTo(net, path, |path| - 1);
      var front := new Leg[size](_ => Leg(0, 0.0, false));
      var back := new Leg[size](_ => Leg(0, 0.0, false));
      var forwards := BuildPrefixes(net, path, front);
      var backwards := BuildSuffixes(net, path, back);
      this.net, this.visits, nodes := net, visits, path;
      customers := set id | id in visits && net.kind(id).Customer?;
      prefixLegs, suffixLegs, prefixes, suffixes := front, back, forwards, backwards;
      if supportSwaps {
        var tree := new LabelTree(Hops(net, path));
        ranges := tree;
      } else {
        ranges := null;
      }
    }

    lemma ValidFacts()
      requires Valid()
      ensures Regular(net) && 0.0 < net.speed && |nodes| == |visits| + 2 && nodes == Nodes(net, visits)
      ensures forall i | 0 <= i < |visits| :: nodes[i + 1] == visits[i]
      ensures forall id :: id in customers <==> id in visits && net.kind(id).Customer?
    {
      hide PrefixView, SuffixView, Metric;
    }

    /** The components spell the edited route; cost it. */
    method EvaluateRoute(pieces: seq<Piece>, ghost edited: seq<int>) returns (s: Summary)
      requires Regular(net) && 0.0 < net.speed && Spells(net, pieces, Nodes(net, edited))
      ensures s == RouteCost(net, edited)
    {
      hide Stretch, Spells, LabelCost, SoundLabel, Regular;
      s := EvaluatePieces(net, pieces, Nodes(net, edited));
    }

    /** Append the prefix that ends at node `i`. */
    method AddPrefix(pieces: seq<Piece>, i: nat) returns (r: seq<Piece>)
      requires Valid() && i < |nodes| && pieces == []
      ensures 0.0 < net.speed && Spells(net, r, nodes[..i + 1])
    {
      hide Regular, Stretch;
      assert 0.0 < net.speed by { RegularSpeed(net); }
      SpellsNothing(net, nodes[0]);
      assert PrefixView(net, nodes, prefixLegs[..], prefixes[i], i);
      var v := prefixes[i];
      if v.Unset? {
        assert nodes[..1] == [nodes[0]];
        return [];
      }
      var p := Piece(v.origin, v.target, prefixLegs[v.begin..v.begin + v.count], v.first, v.tail, v.travel, v.service);
      SpellsNext(net, [], [nodes[0]], p, nodes[..i + 1]);
      assert [nodes[0]] + nodes[..i + 1][1..] == nodes[..i + 1];
      return [p];
    }

    /** Append the suffix that starts at node `i`, unless it is the depot alone. */
    method AddSuffix(pieces: seq<Piece>, ghost xs: seq<int>, i: nat) returns (r: seq<Piece>)
      requires Valid() && i < |nodes| && 0.0 < net.speed
      requires Spells(net, pieces, xs) && xs[|xs| - 1] == nodes[i]
      ensures Spells(net, r, xs + nodes[i + 1..])
    {
      hide Regular, Stretch, Spells;
      assert SuffixView(net, nodes, suffixLegs[..], suffixes[i], i);
      var v := suffixes[i];
      if v.Unset? {
        assert xs + nodes[i + 1..] == xs;
        return pieces;
      }
      var p := Piece(v.origin, v.target, suffixLegs[v.begin..v.begin + v.count], v.first, v.tail, v.travel, v.service);
      assert nodes[i..][1..] == nodes[i + 1..];
      SpellsNext(net, pieces, xs, p, nodes[i..]);
      return pieces + [p];
    }

    /** Append one direct edge. */
    method AddEdge(pieces: seq<Piece>, ghost xs: seq<int>, a: int, b: int) returns (r: seq<Piece>)
      requires 0.0 < net.speed && Spells(net, pieces, xs) && xs[|xs| - 1] == a
      ensures Spells(net, r, xs + [b])
    {
      hide Stretch, Spells, Hop;
      var edge := EdgeLabel(net, a, [], b);
      assert [a] + [] + [b] == [a, b];
      StretchEnds(net, [a, b]);
      SpellsNext(net, pieces, xs, Whole(edge.value), [a, b]);
      assert [a, b][1..] == [b];
      return pieces + [Whole(edge.value)];
    }

    /** Append the initialised range labels of a cover. */
    method AddCover(pieces: seq<Piece>, cover: seq<nat>, ghost parts: seq<Label>) returns (r: seq<Piece>)
      requires ranges != null && |parts| == |cover|
      requires forall k | 0 <= k < |cover| :: cover[k] < ranges.nodes.Length && ranges.nodes[cover[k]] == parts[k]
      requires Smooth(LabelsOf(pieces)) && Smooth(LabelsOf(pieces) + parts)
      ensures Fold(LabelsOf(r)) == Fold(LabelsOf(pieces) + parts) && Smooth(LabelsOf(r))
      ensures |pieces| <= |r| <= |pieces| + |cover|
    {
      hide Smooth, Fold, LabelOf;
      r := pieces;
      assert LabelsOf(pieces) + parts[..0] == LabelsOf(pieces);
      for k := 0 to |cover|
        invariant Fold(LabelsOf(r)) == Fold(LabelsOf(pieces) + parts[..k]) && Smooth(LabelsOf(r))
        invariant |pieces| <= |r| <= |pieces| + k
      {
        var l := ranges.nodes[cover[k]];
        RangeStep(LabelsOf(r), LabelsOf(pieces), parts, k);
        if l.Label? {
          assert LabelsOf(r + [Whole(l)]) == LabelsOf(r) + [l];
          r := r + [Whole(l)];
        }
      }
      assert parts[..|cover|] == parts;
    }

    /** Append the unchanged stretch from node `begin` to node `end`, range label by range label. */
    method AddRange(pieces: seq<Piece>, ghost xs: seq<int>, begin: nat, end: nat) returns (r: seq<Piece>)
      requires Valid() && ranges != null && begin <= end < |nodes| && 0.0 < net.speed
      requires Spells(net, pieces, xs) && xs[|xs| - 1] == nodes[begin]
      ensures Spells(net, r, xs + nodes[begin + 1..end + 1])
      ensures |r| <= |pieces| + 136
    {
      hide Regular, Stretch, PrefixView, SuffixView, Smooth, Fold, At, ScorableRoute, Hop, LabelsOf;
      ghost var ys := nodes[begin..end + 1];
      RangeHops(net, nodes, begin, end);
      var leftNodes, rightNodes := ranges.Cover(begin, end);
      var cover := leftNodes + Reversed(rightNodes);
      ghost var parts := At(ranges.nodes[..], cover);
      SmoothHops(net, LabelsOf(pieces), xs, ys);
      AtIs(ranges.nodes[..], cover);
      r := AddCover(pieces, cover, parts);
      StretchIs(net, ys);
      RangeSpells(net, r, pieces, xs, ys, parts);
      assert ys[1..] == nodes[begin + 1..end + 1];
    }

    /** Insert a customer into the gap before physical position `slot`. */
    method EvaluateInsertion(slot: nat, customer: int) returns (s: Option<Summary>)
      requires Valid()
      ensures s.Some? <==> slot <= |visits| && net.kind(customer).Customer? && customer !in visits
      ensures s.Some? ==> s.value == RouteCost(net, visits[..slot] + [customer] + visits[slot..])
    {
      hide Valid, Stretch, Spells, RouteCost, LabelCost, SoundLabel, Regular, Relocated, Nodes, IsStation;
      ValidFacts();
      if slot >= |nodes| - 1 || !net.kind(customer).Customer? || customer in customers { return None; }
      var pieces := AddPrefix([], slot);
      ghost var xs := nodes[..slot + 1];
      pieces := AddEdge(pieces, xs, nodes[slot], customer);
      pieces := AddEdge(pieces, xs + [customer], customer, nodes[slot + 1]);
      pieces := AddSuffix(pieces, xs + [customer] + [nodes[slot + 1]], slot + 1);
      ghost var edited := visits[..slot] + [customer] + visits[slot..];
      InsertedNodes(net, visits, slot, customer);
      var cost := EvaluateRoute(pieces, edited);
      s := Some(cost);
    }

    /** Remove the customer at a physical position; a route without customers costs nothing. */
    method EvaluateRemoval(position: nat) returns (s: Option<Summary>)
      requires Valid()
      ensures s.Some? <==> position < |visits| && net.kind(visits[position]).Customer?
      ensures s.Some? ==>
        s.value == if |customers| == 1 then Summary(true, 0.0, 0.0, 0.0, 0.0, 0.0, 0.0, 0.0)
                   else RouteCost(net, visits[..position] + visits[position + 1..])
    {
      hide Valid, Stretch, Spells, RouteCost, LabelCost, SoundLabel, Regular, Relocated, Nodes, IsStation;
      ValidFacts();
      if position >= |nodes| - 2 { return None; }
      var index := position + 1;
      if !net.kind(nodes[index]).Customer? { return None; }
      if |customers| == 1 { return Some(Summary(true, 0.0, 0.0, 0.0, 0.0, 0.0, 0.0, 0.0)); }
      var pieces := AddPrefix([], index - 1);
      ghost var xs := nodes[..index];
      pieces := AddEdge(pieces, xs, nodes[index - 1], nodes[index + 1]);
      pieces := AddSuffix(pieces, xs + [nodes[index + 1]], index + 1);
      ghost var edited := visits[..position] + visits[position + 1..];
      RemovedNodes(net, visits, position);
      var cost := EvaluateRoute(pieces, edited);
      s := Some(cost);
    }

    /** Replace the customer at a physical position by an unvisited one. */
    method EvaluateReplacement(position: nat, customer: int) returns (s: Option<Summary>)
      requires Valid()
      ensures s.Some? <==> position < |visits| && net.kind(visits[position]).Customer?
                           && net.kind(customer).Customer? && customer !in visits
      ensures s.Some? ==> s.value == RouteCost(net, visits[position := customer])
    {
      hide Valid, Stretch, Spells, RouteCost, LabelCost, SoundLabel, Regular, Relocated, Nodes, IsStation;
      ValidFacts();
      if position >= |nodes| - 2 { return None; }
      var index := position + 1;
      if !net.kind(nodes[index]).Customer? || !net.kind(customer).Customer? || customer in customers { return None; }
      var pieces := AddPrefix([], index - 1);
      ghost var xs := nodes[..index];
      pieces := AddEdge(pieces, xs, nodes[index - 1], customer);
      pieces := AddEdge(pieces, xs + [customer], customer, nodes[index + 1]);
      pieces := AddSuffix(pieces, xs + [customer] + [nodes[index + 1]], index + 1);
      ghost var edited := visits[position := customer];
      ReplacedNodes(net, visits, position, customer);
      var cost := EvaluateRoute(pieces, edited);
      s := Some(cost);
    }

    /** Swap two customers that are not neighbours. */
    method EvaluateSwap(first: nat, second: nat) returns (s: Option<Summary>)
      requires Valid()
      ensures s.Some? <==> first + 1 < second < |visits| && ranges != null
                           && net.kind(visits[first]).Customer? && net.kind(visits[second]).Customer?
      ensures s.Some? ==> s.value == RouteCost(net, visits[first := visits[second]][second := visits[first]])
    {
      hide Valid, Stretch, Spells, RouteCost, LabelCost, SoundLabel, Regular, Relocated, Nodes, IsStation;
      ValidFacts();
      if first >= second || second >= |nodes| - 2 { return None; }
      var a, b := first + 1, second + 1;
      if b <= a + 1 || ranges == null || !net.kind(nodes[a]).Customer? || !net.kind(nodes[b]).Customer? { return None; }
      var pieces := AddPrefix([], a - 1);
      ghost var xs := nodes[..a];
      pieces := AddEdge(pieces, xs, nodes[a - 1], nodes[b]);
      xs := xs + [nodes[b]];
      pieces := AddEdge(pieces, xs, nodes[b], nodes[a + 1]);
      xs := xs + [nodes[a + 1]];
      pieces := AddRange(pieces, xs, a + 1, b - 1);
      xs := xs + nodes[a + 2..b];
      pieces := AddEdge(pieces, xs, nodes[b - 1], nodes[a]);
      xs := xs + [nodes[a]];
      pieces := AddEdge(pieces, xs, nodes[a], nodes[b + 1]);
      xs := xs + [nodes[b + 1]];
      pieces := AddSuffix(pieces, xs, b + 1);
      xs := xs + nodes[b + 2..];
      SwappedNodes(net, visits, first, second);
      var cost := EvaluateRoute(pieces, visits[first := visits[second]][second := visits[first]]);
      s := Some(cost);
    }

    /** Move the customer at a physical position to a slot of the original route. */
    method EvaluateRelocate(position: nat, slot: nat) returns (s: Option<Summary>)
      requires Valid()
      ensures s.Some? <==> position < |visits| && slot <= |visits| && ranges != null
                           && net.kind(visits[position]).Customer?
      ensures s.Some? ==> s.value == RouteCost(net, Relocated(visits, position, slot))
    {
      hide Valid, Stretch, Spells, RouteCost, LabelCost, SoundLabel, Regular, Relocated, Nodes, IsStation;
      ValidFacts();
      if position >= |nodes| - 2 || slot >= |nodes| - 1 { return None; }
      var a, q := position + 1, slot;
      if !net.kind(nodes[a]).Customer? || ranges == null { return None; }
      var pieces: seq<Piece>;
      ghost var xs: seq<int>;
      if q == a - 1 || q == a {
        pieces := AddPrefix([], |nodes| - 1);
        xs := nodes[..|nodes| - 1 + 1];
        RelocatedNearby(net, visits, position, slot);
      } else if q < a - 1 {
        pieces := AddPrefix([], q);
        xs := nodes[..q + 1];
        pieces := AddEdge(pieces, xs, nodes[q], nodes[a]);
        xs := xs + [nodes[a]];
        pieces := AddEdge(pieces, xs, nodes[a], nodes[q + 1]);
        xs := xs + [nodes[q + 1]];
        pieces := AddRange(pieces, xs, q + 1, a - 1);
        xs := xs + nodes[q + 2..a];
        pieces := AddEdge(pieces, xs, nodes[a - 1], nodes[a + 1]);
        xs := xs + [nodes[a + 1]];
        pieces := AddSuffix(pieces, xs, a + 1);
        xs := xs + nodes[a + 2..];
        RelocatedForward(net, visits, position, slot);
      } else {
        pieces := AddPrefix([], a - 1);
        xs := nodes[..a];
        pieces := AddEdge(pieces, xs, nodes[a - 1], nodes[a + 1]);
        xs := xs + [nodes[a + 1]];
        pieces := AddRange(pieces, xs, a + 1, q);
        xs := xs + nodes[a + 2..q + 1];
        pieces := AddEdge(pieces, xs, nodes[q], nodes[a]);
        xs := xs + [nodes[a]];
        pieces := AddEdge(pieces, xs, nodes[a], nodes[q + 1]);
        xs := xs + [nodes[q + 1]];
        pieces := AddSuffix(pieces, xs, q + 1);
        xs := xs + nodes[q + 2..];
        RelocatedBackward(net, visits, position, slot);
      }
      var cost := EvaluateRoute(pieces, Relocated(visits, position, slot));
      s := Some(cost);
    }
  }

  /** Take the visit at `position` out and put it back in front of the original position `slot`. */
  function Relocated(visits: seq<int>, position: nat, slot: nat): seq<int>
    requires position < |visits| && slot <= |visits|
  {
    if slot <= position then visits[..slot] + [visits[position]] + visits[slot..position] + visits[position + 1..]
    else visits[..position] + visits[position + 1..slot] + [visits[position]] + visits[slot..]
  }

  // ----- edited node lists -----

  lemma InsertedNodes(net: Instance, visits: seq<int>, slot: nat, customer: int)
    requires slot <= |visits|
    ensures var nodes := Nodes(net, visits);
      nodes[..slot + 1] + [customer] + [nodes[slot + 1]] + nodes[slot + 2..]
      == Nodes(net, visits[..slot] + [customer] + visits[slot..])
  {
  }

  lemma RemovedNodes(net: Instance, visits: seq<int>, position: nat)
    requires position < |visits|
    ensures var nodes := Nodes(net, visits);
      nodes[..position + 1] + [nodes[position + 2]] + nodes[position + 3..]
      == Nodes(net, visits[..position] + visits[position + 1..])
  {
  }

  lemma ReplacedNodes(net: Instance, visits: seq<int>, position: nat, customer: int)
    requires position < |visits|
    ensures var nodes := Nodes(net, visits);
      nodes[..position + 1] + [customer] + [nodes[position + 2]] + nodes[position + 3..]
      == Nodes(net, visits[position := customer])
  {
  }

  lemma SwappedNodes(net: Instance, visits: seq<int>, first: nat, second: nat)
    requires first + 1 < second < |visits|
    ensures var nodes, a, b := Nodes(net, visits), first + 1, second + 1;
      nodes[..a] + [nodes[b]] + [nodes[a + 1]] + nodes[a + 2..b] + [nodes[a]] + [nodes[b + 1]] + nodes[b + 2..]
      == Nodes(net, visits[first := visits[second]][second := visits[first]])
  {
  }

  lemma RelocatedNearby(net: Instance, visits: seq<int>, position: nat, slot: nat)
    requires position < |visits| && (slot == position || slot == position + 1)
    ensures Nodes(net, Relocated(visits, position, slot)) == Nodes(net, visits)[..|visits| + 2]
  {
    var rest := visits[position + 1..];
    assert visits == visits[..position] + [visits[position]] + rest;
    if slot == position {
      assert visits[slot..position] == [];
    } else {
      assert visits[position + 1..slot] == [] && visits[slot..] == rest;
    }
    assert Relocated(visits, position, slot) == visits;
    assert |Nodes(net, visits)| == |visits| + 2;
  }

  lemma RelocatedForward(net: Instance, visits: seq<int>, position: nat, slot: nat)
    requires slot < position < |visits|
    ensures var nodes, a, q := Nodes(net, visits), position + 1, slot;
      nodes[..q + 1] + [nodes[a]] + [nodes[q + 1]] + nodes[q + 2..a] + [nodes[a + 1]] + nodes[a + 2..]
      == Nodes(net, Relocated(visits, position, slot))
  {
    var nodes, a, q := Nodes(net, visits), position + 1, slot;
    var front, back := [net.depot] + visits[..slot], visits[position + 1..] + [net.depot];
    assert nodes[..q + 1] == front;
    assert [nodes[q + 1]] + nodes[q + 2..a] == visits[slot..position];
    assert [nodes[a + 1]] + nodes[a + 2..] == back;
    Regroup(front, [nodes[a]], [nodes[q + 1]], nodes[q + 2..a], [nodes[a + 1]], nodes[a + 2..]);
    assert front + [nodes[a]] + visits[slot..position] + back == Nodes(net, Relocated(visits, position, slot));
  }

  lemma Regroup(a: seq<int>, b: seq<int>, c: seq<int>, d: seq<int>, e: seq<int>, f: seq<int>)
    ensures a + b + c + d + e + f == a + b + (c + d) + (e + f)
    ensures a + b + c + d + e + f == a + (b + c) + d + (e + f)
  {
    assert a + b + c + d == a + b + (c + d) == a + (b + c) + d;
  }

  lemma RelocatedBackward(net: Instance, visits: seq<int>, position: nat, slot: nat)
    requires position + 1 < slot <= |visits|
    ensures var nodes, a, q := Nodes(net, visits), position + 1, slot;
      nodes[..a] + [nodes[a + 1]] + nodes[a + 2..q + 1] + [nodes[a]] + [nodes[q + 1]] + nodes[q + 2..]
      == Nodes(net, Relocated(visits, position, slot))
  {
    var nodes, a, q := Nodes(net, visits), position + 1, slot;
    var front, back := [net.depot] + visits[..position], visits[slot..] + [net.depot];
    assert nodes[..a] == front;
    assert [nodes[a + 1]] + nodes[a + 2..q + 1] == visits[position + 1..slot];
    assert [nodes[q + 1]] + nodes[q + 2..] == back;
    Regroup(front, [nodes[a + 1]], nodes[a + 2..q + 1], [nodes[a]], [nodes[q + 1]], nodes[q + 2..]);
    assert front + visits[position + 1..slot] + [nodes[a]] + back == Nodes(net, Relocated(visits, position, slot));
  }

  /** One more range label, or none when it is blank. */
  lemma {:induction false} RangeStep(current: seq<Label>, start: seq<Label>, parts: seq<Label>, k: nat)
    requires k < |parts| && Smooth(start + parts)
    requires Fold(current) == Fold(start + parts[..k]) && Smooth(current)
    ensures Fold(current + [parts[k]]) == Fold(start + parts[..k + 1])
    ensures Smooth(current + [parts[k]])
    ensures parts[k].Blank? ==> Fold(current) == Fold(start + parts[..k + 1])
  {
    hide Fold, Smooth;
    assert start + parts[..k + 1] == start + parts[..k] + [parts[k]];
    assert start + parts == start + parts[..k + 1] + parts[k + 1..];
    SmoothPrefix(start + parts[..k + 1], parts[k + 1..]);
    SmoothSplit(start + parts[..k], parts[k]);
    SmoothSplit(current, parts[k]);
    FoldAppend(current, [parts[k]]);
    FoldAppend(start + parts[..k], [parts[k]]);
    FoldOne(parts[k]);
    ConcatBlank(Fold(current));
  }

  lemma RangeHops(net: Instance, nodes: seq<int>, begin: nat, end: nat)
    requires 0.0 < net.speed && begin <= end < |nodes|
    ensures Hops(net, nodes)[begin..end] == Hops(net, nodes[begin..end + 1])
  {
    hide Hop;
  }

  lemma AtIs(nodes: seq<Label>, indices: seq<nat>)
    requires forall i | 0 <= i < |indices| :: indices[i] < |nodes|
    ensures forall k | 0 <= k < |indices| :: nodes[indices[k]] == At(nodes, indices)[k]
  {
  }

  lemma {:induction false} RangeSpells(net: Instance, r: seq<Piece>, pieces: seq<Piece>, xs: seq<int>, ys: seq<int>, parts: seq<Label>)
    requires 0.0 < net.speed && Spells(net, pieces, xs) && ys != [] && xs[|xs| - 1] == ys[0]
    requires Fold(LabelsOf(r)) == Fold(LabelsOf(pieces) + parts) && Smooth(LabelsOf(r))
    requires Fold(parts) == Fold(Hops(net, ys)) && |r| >= |pieces|
    ensures Spells(net, r, xs + ys[1..])
  {
    hide Fold, Smooth, Stretch;
    FoldAppend(LabelsOf(pieces), parts);
    StretchJoin(net, xs, ys);
    StretchIs(net, ys);
    if r == [] {
      assert LabelsOf(r) == [];
      FoldEmpty();
      if |xs + ys[1..]| >= 2 { StretchEnds(net, xs + ys[1..]); }
    }
  }
}
