/** A route as customers with station paths in the gaps between them (src/core.cpp, `expand_route`), cut at a
    gap (src/search.cpp, `prepare_labels` in `best_replacement_in_gaps`). */
module PlanNodes {
  import opened Common
  import opened Network
  import opened Labels

  // ----- expansion -----

  /** The visits after anchor `i`, up to the last gap. */
  function VisitsFrom(customers: seq<int>, gaps: seq<seq<int>>, i: nat): seq<int>
    requires |gaps| == |customers| + 1 && i <= |customers|
    decreases |customers| - i
  {
    gaps[i] + (if i < |customers| then [customers[i]] + VisitsFrom(customers, gaps, i + 1) else [])
  }

  /** The visits up to and including anchor `i`. */
  function VisitsBefore(customers: seq<int>, gaps: seq<seq<int>>, i: nat): seq<int>
    requires |gaps| == |customers| + 1 && i <= |customers|
  {
    if i == 0 then [] else VisitsBefore(customers, gaps, i - 1) + gaps[i - 1] + [customers[i - 1]]
  }

  function Expand(customers: seq<int>, gaps: seq<seq<int>>): seq<int>
    requires |gaps| == |customers| + 1
  {
    VisitsFrom(customers, gaps, 0)
  }

  lemma {:induction false} CutAt(customers: seq<int>, gaps: seq<seq<int>>, i: nat)
    requires |gaps| == |customers| + 1 && i <= |customers|
    ensures Expand(customers, gaps) == VisitsBefore(customers, gaps, i) + VisitsFrom(customers, gaps, i)
  {
    if i > 0 { CutAt(customers, gaps, i - 1); }
  }

  /** `expand_route`; nothing when the gaps do not fit the customers. */
  method ExpandRoute(customers: seq<int>, gaps: seq<seq<int>>) returns (visits: Option<seq<int>>)
    ensures visits == if |gaps| == |customers| + 1 then Some(Expand(customers, gaps)) else None
  {
    if |gaps| != |customers| + 1 { return None; }
    var buffer: seq<int> := [];
    for i := 0 to |customers|
      invariant buffer == VisitsBefore(customers, gaps, i)
    {
      buffer := buffer + gaps[i];
      buffer := buffer + [customers[i]];
    }
    CutAt(customers, gaps, |customers|);
    assert VisitsFrom(customers, gaps, |customers|) == gaps[|customers|];
    return Some(buffer + gaps[|customers|]);
  }

  lemma {:induction false} BeforeIgnoresLater(customers: seq<int>, gaps: seq<seq<int>>, i: nat, gap: nat, path: seq<int>)
    requires |gaps| == |customers| + 1 && i <= gap <= |customers|
    ensures VisitsBefore(customers, gaps[gap := path], i) == VisitsBefore(customers, gaps, i)
  {
    if i > 0 { BeforeIgnoresLater(customers, gaps, i - 1, gap, path); }
  }

  lemma {:induction false} FromIgnoresEarlier(customers: seq<int>, gaps: seq<seq<int>>, i: nat, gap: nat, path: seq<int>)
    requires |gaps| == |customers| + 1 && gap < i <= |customers|
    ensures VisitsFrom(customers, gaps[gap := path], i) == VisitsFrom(customers, gaps, i)
    decreases |customers| - i
  {
    if i < |customers| { FromIgnoresEarlier(customers, gaps, i + 1, gap, path); }
  }

  // ----- nodes -----

  function Anchor(net: Instance, customers: seq<int>, i: nat): int
    requires i <= |customers| + 1
  {
    if i == 0 || i == |customers| + 1 then net.depot else customers[i - 1]
  }

  /** From the depot to anchor `i`. */
  function Head(net: Instance, customers: seq<int>, gaps: seq<seq<int>>, i: nat): (r: seq<int>)
    requires |gaps| == |customers| + 1 && i <= |customers|
    ensures r != [] && r[|r| - 1] == Anchor(net, customers, i)
  {
    [net.depot] + VisitsBefore(customers, gaps, i)
  }

  /** From anchor `i` back to the depot. */
  function Tail(net: Instance, customers: seq<int>, gaps: seq<seq<int>>, i: nat): (r: seq<int>)
    requires |gaps| == |customers| + 1 && i <= |customers| + 1
    ensures r != [] && r[0] == Anchor(net, customers, i)
  {
    if i == |customers| + 1 then [net.depot]
    else [Anchor(net, customers, i)] + VisitsFrom(customers, gaps, i) + [net.depot]
  }

  /** The edge through a gap. */
  function Edge(net: Instance, customers: seq<int>, gap: nat, path: seq<int>): (r: seq<int>)
    requires gap <= |customers|
    ensures |r| == |path| + 2 && r[0] == Anchor(net, customers, gap) && r[|r| - 1] == Anchor(net, customers, gap + 1)
  {
    [Anchor(net, customers, gap)] + path + [Anchor(net, customers, gap + 1)]
  }

  lemma HeadNext(net: Instance, customers: seq<int>, gaps: seq<seq<int>>, i: nat)
    requires |gaps| == |customers| + 1 && i < |customers|
    ensures Head(net, customers, gaps, i + 1) == Head(net, customers, gaps, i) + Edge(net, customers, i, gaps[i])[1..]
  {
    var before, path, anchor := VisitsBefore(customers, gaps, i), gaps[i], [customers[i]];
    assert Edge(net, customers, i, path)[1..] == path + anchor;
    Regroup([net.depot], before, path, anchor);
  }

  lemma Regroup(a: seq<int>, b: seq<int>, c: seq<int>, d: seq<int>)
    ensures a + (b + c + d) == a + b + (c + d)
  {
  }

  lemma TailNext(net: Instance, customers: seq<int>, gaps: seq<seq<int>>, i: nat)
    requires |gaps| == |customers| + 1 && i <= |customers|
    ensures Tail(net, customers, gaps, i) == Edge(net, customers, i, gaps[i]) + Tail(net, customers, gaps, i + 1)[1..]
  {
  }

  /** A route whose gap takes another path is the head, the new edge and the tail. */
  lemma Spliced(net: Instance, customers: seq<int>, gaps: seq<seq<int>>, gap: nat, path: seq<int>)
    requires |gaps| == |customers| + 1 && gap <= |customers|
    ensures Nodes(net, Expand(customers, gaps[gap := path]))
         == Head(net, customers, gaps, gap) + Edge(net, customers, gap, path)[1..] + Tail(net, customers, gaps, gap + 1)[1..]
  {
    var other := gaps[gap := path];
    CutAt(customers, other, gap);
    BeforeIgnoresLater(customers, gaps, gap, gap, path);
    if gap < |customers| {
      FromIgnoresEarlier(customers, gaps, gap + 1, gap, path);
      assert Edge(net, customers, gap, path)[1..] == path + [customers[gap]];
      assert Tail(net, customers, gaps, gap + 1)[1..] == VisitsFrom(customers, gaps, gap + 1) + [net.depot];
    } else {
      assert Edge(net, customers, gap, path)[1..] == path + [net.depot];
      assert Tail(net, customers, gaps, gap + 1)[1..] == [];
    }
  }

  /** The label of the route with another path in a gap. */
  lemma SplicedLabel(net: Instance, customers: seq<int>, gaps: seq<seq<int>>, gap: nat, path: seq<int>)
    requires 0.0 < net.speed && |gaps| == |customers| + 1 && gap <= |customers|
    ensures RouteLabel(net, Expand(customers, gaps[gap := path]))
         == Concat(Concat(Stretch(net, Head(net, customers, gaps, gap)), Stretch(net, Edge(net, customers, gap, path))),
                   Stretch(net, Tail(net, customers, gaps, gap + 1)))
  {
    hide Stretch, Concat, Expand, Head, Tail, Edge;
    var head, edge, tail := Head(net, customers, gaps, gap), Edge(net, customers, gap, path), Tail(net, customers, gaps, gap + 1);
    Spliced(net, customers, gaps, gap, path);
    StretchJoin(net, head, edge);
    var front := head + edge[1..];
    assert front[|front| - 1] == edge[|edge| - 1];
    StretchJoin(net, front, tail);
  }
}
