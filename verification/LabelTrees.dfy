/** Segment trees of labels (src/evaluator.cpp, `LabelTree` and the swap ranges of
    `PhysicalRouteScorer`): any range of leaves is assembled from a logarithmic number of nodes,
    in order, although appending labels is not commutative. */
module LabelTrees {
  import opened Common
  import opened Network
  import opened Labels

  // ----- chains that append never refuses -----

  /** Appending the labels one after another meets no gap. */
  ghost predicate Smooth(xs: seq<Label>) {
    forall k | 0 <= k < |xs| :: !Apart(Fold(xs[..k]), xs[k])
  }

  lemma {:induction false} SmoothSplit(xs: seq<Label>, x: Label)
    ensures Smooth(xs + [x]) <==> Smooth(xs) && !Apart(Fold(xs), x)
  {
    hide Fold;
    var ys := xs + [x];
    assert forall k | 0 <= k < |xs| :: ys[..k] == xs[..k] && ys[k] == xs[k];
    assert ys[..|xs|] == xs && ys[|xs|] == x;
  }

  lemma {:induction false} SmoothPrefix(xs: seq<Label>, ys: seq<Label>)
    requires Smooth(xs + ys)
    ensures Smooth(xs)
    decreases |ys|
  {
    if ys == [] {
      assert xs + ys == xs;
    } else {
      var n := |ys| - 1;
      assert xs + ys == xs + ys[..n] + [ys[n]];
      SmoothSplit(xs + ys[..n], ys[n]);
      SmoothPrefix(xs, ys[..n]);
    }
  }

  lemma {:induction false} FoldPair(xs: seq<Label>, a: Label, b: Label)
    ensures Fold(xs + [a, b]) == Fold(xs + [Concat(a, b)])
  {
    hide Fold, Concat;
    FoldAppend(xs, [a, b]);
    FoldAppend(xs, [Concat(a, b)]);
    FoldAppend([a], [b]);
    assert [a] + [b] == [a, b];
    FoldOne(a);
    FoldOne(b);
    FoldOne(Concat(a, b));
  }

  /** Joining two neighbours first neither changes the result nor opens a gap. */
  lemma {:induction false} JoinPair(xs: seq<Label>, a: Label, b: Label, ys: seq<Label>)
    ensures Fold(xs + [a, b] + ys) == Fold(xs + [Concat(a, b)] + ys)
    ensures Smooth(xs + [a, b] + ys) ==> Smooth(xs + [Concat(a, b)] + ys)
    decreases |ys|
  {
    hide Fold, Smooth;
    if ys == [] {
      assert xs + [a, b] + ys == xs + [a] + [b] && xs + [Concat(a, b)] + ys == xs + [Concat(a, b)];
      assert xs + [a] + [b] == xs + [a, b];
      FoldPair(xs, a, b);
      SmoothSplit(xs + [a], b);
      SmoothSplit(xs, a);
      SmoothSplit(xs, Concat(a, b));
      assert Fold(xs + [a]) == Concat(Fold(xs), a) by {
        FoldAppend(xs, [a]);
        FoldOne(a);
      }
    } else {
      var n := |ys| - 1;
      JoinPair(xs, a, b, ys[..n]);
      var long, short := xs + [a, b] + ys[..n], xs + [Concat(a, b)] + ys[..n];
      assert xs + [a, b] + ys == long + [ys[n]] && xs + [Concat(a, b)] + ys == short + [ys[n]];
      SmoothSplit(long, ys[n]);
      SmoothSplit(short, ys[n]);
      FoldAppend(long, [ys[n]]);
      FoldAppend(short, [ys[n]]);
    }
  }

  // ----- tree shape -----

  const SIZE_LIMIT: nat := 0x1_0000_0000_0000_0000

  /** Halvings until zero. */
  function Levels(n: nat): nat {
    if n == 0 then 0 else 1 + Levels(n / 2)
  }

  lemma {:induction false} LevelsMonotone(m: nat, n: nat)
    requires m <= n
    ensures Levels(m) <= Levels(n)
  {
    if m > 0 { LevelsMonotone(m / 2, n / 2); }
  }

  lemma {:induction false} LevelsOfSizes(n: nat)
    requires n < 8 * SIZE_LIMIT
    ensures Levels(n) <= 67
  {
    hide Pow2;
    Pow2Zero();
    Pow2Byte(0);
    Pow2Byte(8);
    Pow2Byte(16);
    Pow2Byte(24);
    Pow2Byte(32);
    Pow2Byte(40);
    Pow2Byte(48);
    Pow2Byte(56);
    Pow2Three(64);
    LevelsBound(n, 67);
  }

  function Pow2(k: nat): nat {
    if k == 0 then 1 else 2 * Pow2(k - 1)
  }

  lemma Pow2Byte(k: nat)
    ensures Pow2(k + 8) == 256 * Pow2(k)
  {
    assert Pow2(k + 8) == 4 * Pow2(k + 6) && Pow2(k + 6) == 4 * Pow2(k + 4);
    assert Pow2(k + 4) == 4 * Pow2(k + 2) && Pow2(k + 2) == 4 * Pow2(k);
  }

  lemma Pow2Three(k: nat)
    ensures Pow2(k + 3) == 8 * Pow2(k)
  {
    assert Pow2(k + 3) == 2 * Pow2(k + 2);
  }

  lemma Pow2Zero()
    ensures Pow2(0) == 1
  {
  }

  lemma {:induction false} LevelsBound(n: nat, k: nat)
    requires n < Pow2(k)
    ensures Levels(n) <= k
  {
    if n > 0 { LevelsBound(n / 2, k - 1); }
  }

  ghost predicate Tree(base: nat, nodes: seq<Label>) {
    && 1 <= base && |nodes| == 2 * base
    && forall k | 1 <= k < base :: Joined(nodes, k)
  }

  ghost predicate Joined(nodes: seq<Label>, k: nat)
    requires 1 <= k && 2 * k + 1 < |nodes|
  {
    nodes[k] == Concat(nodes[2 * k], nodes[2 * k + 1])
  }

  /** One level up: `nodes[2 l..2 r]` may be replaced by `nodes[l..r]` inside any chain. */
  lemma {:induction false} LevelUp(base: nat, nodes: seq<Label>, xs: seq<Label>, l: nat, r: nat, ys: seq<Label>)
    requires Tree(base, nodes) && 1 <= l <= r && 2 * r <= 2 * base
    ensures Fold(xs + nodes[2 * l..2 * r] + ys) == Fold(xs + nodes[l..r] + ys)
    ensures Smooth(xs + nodes[2 * l..2 * r] + ys) ==> Smooth(xs + nodes[l..r] + ys)
    decreases r - l
  {
    hide Fold, Smooth, Concat;
    if l < r {
      assert Joined(nodes, l);
      var a, b := nodes[2 * l], nodes[2 * l + 1];
      var rest := nodes[2 * (l + 1)..2 * r];
      assert nodes[2 * l..2 * r] == [a, b] + rest;
      assert xs + nodes[2 * l..2 * r] + ys == xs + [a, b] + (rest + ys);
      JoinPair(xs, a, b, rest + ys);
      LevelUp(base, nodes, xs + [nodes[l]], l + 1, r, ys);
      assert xs + [Concat(a, b)] + (rest + ys) == xs + [nodes[l]] + rest + ys;
      assert nodes[l..r] == [nodes[l]] + nodes[l + 1..r];
      assert xs + nodes[l..r] + ys == xs + [nodes[l]] + nodes[l + 1..r] + ys;
    } else {
      assert nodes[2 * l..2 * r] == [] && nodes[l..r] == [];
    }
  }

  /** The labels at the given node indices. */
  function At(nodes: seq<Label>, indices: seq<nat>): (r: seq<Label>)
    requires forall i | 0 <= i < |indices| :: indices[i] < |nodes|
    ensures |r| == |indices|
  {
    seq(|indices|, i requires 0 <= i < |indices| => nodes[indices[i]])
  }

  /** `xs` followed by the buffered right nodes, last pushed first. */
  function Reversed(s: seq<nat>): (r: seq<nat>)
    ensures |r| == |s| && forall i | 0 <= i < |s| :: r[i] == s[|s| - 1 - i]
  {
    seq(|s|, i requires 0 <= i < |s| => s[|s| - 1 - i])
  }

  class LabelTree {
    const base: nat
    const edgeCount: nat
    const nodes: array<Label>

    ghost predicate Valid()
      reads nodes
    {
      edgeCount <= base < 2 * SIZE_LIMIT && Tree(base, nodes[..])
    }

    ghost function Leaves(): seq<Label>
      requires Valid()
      reads nodes
    {
      nodes[base..base + edgeCount]
    }

    constructor (leaves: seq<Label>)
      requires |leaves| < SIZE_LIMIT
      ensures Valid() && fresh(nodes) && Leaves() == leaves
    {
      edgeCount := |leaves|;
      var width := 1;
      while width < |leaves|
        invariant 1 <= width && (width == 1 || width < 2 * |leaves|)
      {
        width := width * 2;
      }
      base := width;
      nodes := new Label[width * 2](_ => Blank);
      new;
      for index := 0 to |leaves|
        invariant forall i | 0 <= i < index :: nodes[base + i] == leaves[i]
      {
        nodes[base + index] := leaves[index];
      }
      JoinUp(nodes, base);
      assert nodes[base..base + |leaves|] == leaves;
    }

    /** Fill the inner nodes, from the last one up. */
    static method JoinUp(nodes: array<Label>, base: nat)
      requires 1 <= base && nodes.Length == 2 * base
      modifies nodes
      ensures Tree(base, nodes[..]) && nodes[base..] == old(nodes[base..])
    {
      hide Concat;
      var index := base;
      while index > 1
        invariant 1 <= index <= base && nodes[base..] == old(nodes[base..])
        invariant forall k | index <= k < base :: Joined(nodes[..], k)
      {
        ghost var before := nodes[..];
        index := index - 1;
        nodes[index] := Concat(nodes[index * 2], nodes[index * 2 + 1]);
        forall k | index <= k < base ensures Joined(nodes[..], k) {
          if k > index { assert Joined(before, k); }
        }
      }
    }

    /** The nodes that make up leaves `begin..end`, the right ones from the end; neither side outgrows its
        128 slots. */
    method Cover(begin: nat, end: nat) returns (leftNodes: seq<nat>, rightNodes: seq<nat>)
      requires Valid() && begin <= end <= edgeCount
      ensures |leftNodes| <= 67 && |rightNodes| <= 67
      ensures var cover := leftNodes + Reversed(rightNodes);
        && (forall i | 0 <= i < |cover| :: 1 <= cover[i] < nodes.Length)
        && Fold(At(nodes[..], cover)) == Fold(Leaves()[begin..end])
        && (forall xs | Smooth(xs + Leaves()[begin..end]) :: Smooth(xs + At(nodes[..], cover)))
    {
      hide Fold, Smooth, Joined, Concat, Covers, At, Tree, Levels, Halfway;
      ghost var all := nodes[..];
      TreeSize(base, all);
      ghost var goal := Leaves()[begin..end];
      leftNodes, rightNodes := [], [];
      var left: nat, right: nat := begin + base, end + base;
      LevelsMonotone(right, 2 * base);
      LevelsOfSizes(2 * base);
      assert all[left..right] == goal by { SliceOfSlice(all, base, base + edgeCount, begin, end); }
      CoverStart(base, all, goal, left, right);
      while left < right
        invariant Halfway(base, all, goal, leftNodes, left, right, rightNodes)
        invariant |leftNodes| + Levels(right) <= 67 && |rightNodes| + Levels(right) <= 67
        decreases right - left
      {
        HalfwayBounds(base, all, goal, leftNodes, left, right, rightNodes);
        HalfLevel(right);
        if left % 2 == 1 {
          PushLeft(base, all, goal, leftNodes, left, right, rightNodes);
          leftNodes := leftNodes + [left];
          left := left + 1;
        }
        if right % 2 == 1 {
          PushRight(base, all, goal, leftNodes, left, right - 1, rightNodes);
          right := right - 1;
          rightNodes := rightNodes + [right];
        }
        GoUp(base, all, goal, leftNodes, left, right, rightNodes);
        left, right := left / 2, right / 2;
      }
      HalfwayBounds(base, all, goal, leftNodes, left, right, rightNodes);
      CoverEnd(base, all, goal, leftNodes, left, rightNodes);
    }

    /** `append_range`: the running label grows by the leaves `begin..end`, left to right. Without
        gaps between the running label and those leaves it never refuses. */
    method AppendRange(begin: nat, end: nat, result: Accumulator) returns (ok: bool)
      requires Valid()
      modifies result
      ensures ok ==> begin <= end <= edgeCount && result.current == Concat(old(result.current), Fold(Leaves()[begin..end]))
      ensures !(begin <= end <= edgeCount) ==> !ok && result.current == old(result.current)
      ensures begin <= end <= edgeCount && Smooth([old(result.current)] + Leaves()[begin..end]) ==> ok
    {
      hide Fold, Smooth, Joined, Concat;
      if begin > end || end > edgeCount { return false; }
      var leftNodes, rightNodes := Cover(begin, end);
      var cover := leftNodes + Reversed(rightNodes);
      ghost var start := result.current;
      ghost var parts := At(nodes[..], cover);
      FoldOne(start);
      assert [start] + parts[..0] == [start];
      for i := 0 to |cover|
        invariant result.current == Fold([start] + parts[..i])
      {
        ghost var before := [start] + parts[..i];
        assert before + [parts[i]] == [start] + parts[..i + 1];
        FoldAppend(before, [parts[i]]);
        FoldOne(parts[i]);
        var appended := result.Append(nodes[cover[i]]);
        if !appended {
          if Smooth([start] + parts) {
            assert [start] + parts == [start] + parts[..i + 1] + parts[i + 1..];
            SmoothPrefix([start] + parts[..i + 1], parts[i + 1..]);
            SmoothSplit(before, parts[i]);
          }
          return false;
        }
      }
      assert parts[..|cover|] == parts;
      FoldAppend([start], parts);
      return true;
    }
  }

  /** Inside any longer chain the three parts stand for `goal`. */
  ghost predicate Covers(nodes: seq<Label>, goal: seq<Label>, left: seq<Label>, middle: seq<Label>, right: seq<Label>) {
    && Fold(left + middle + right) == Fold(goal)
    && forall xs | Smooth(xs + goal) :: Smooth(xs + (left + middle + right))
  }

  ghost predicate Indices(nodes: seq<Label>, indices: seq<nat>) {
    forall i | 0 <= i < |indices| :: 1 <= indices[i] < |nodes|
  }

  lemma SliceOfSlice<T>(s: seq<T>, low: nat, high: nat, begin: nat, end: nat)
    requires low <= high <= |s| && begin <= end <= high - low
    ensures s[low..high][begin..end] == s[low + begin..low + end]
  {
    var x, y := s[low..high][begin..end], s[low + begin..low + end];
    assert |x| == |y|;
    assert forall i | 0 <= i < |x| :: x[i] == s[low + (begin + i)] && y[i] == s[low + begin + i];
  }

  /** The query halfway up: buffered left nodes, the open range, buffered right nodes. */
  ghost predicate Halfway(base: nat, nodes: seq<Label>, goal: seq<Label>,
                          leftNodes: seq<nat>, left: nat, right: nat, rightNodes: seq<nat>)
  {
    && 1 <= left <= right <= 2 * base == |nodes|
    && Indices(nodes, leftNodes) && Indices(nodes, rightNodes)
    && Covers(nodes, goal, At(nodes, leftNodes), nodes[left..right], At(nodes, Reversed(rightNodes)))
  }

  lemma HalfwayBounds(base: nat, nodes: seq<Label>, goal: seq<Label>,
                      leftNodes: seq<nat>, left: nat, right: nat, rightNodes: seq<nat>)
    requires Halfway(base, nodes, goal, leftNodes, left, right, rightNodes)
    ensures 1 <= left <= right <= 2 * base == |nodes|
    ensures Indices(nodes, leftNodes) && Indices(nodes, rightNodes)
  {
  }

  lemma CoverStart(base: nat, nodes: seq<Label>, goal: seq<Label>, left: nat, right: nat)
    requires 1 <= left <= right <= 2 * base == |nodes| && nodes[left..right] == goal
    ensures Halfway(base, nodes, goal, [], left, right, [])
  {
    hide Fold, Smooth;
    assert At(nodes, []) == [] && Reversed([]) == [];
    assert [] + goal + [] == goal;
  }

  /** An odd `right` loses its last bit; going up loses one level. */
  lemma {:induction false} HalfLevel(n: nat)
    requires n > 0
    ensures Levels(n / 2) == Levels(n) - 1
    ensures n % 2 == 1 ==> (n - 1) / 2 == n / 2
  {
  }

  lemma PushLeft(base: nat, nodes: seq<Label>, goal: seq<Label>,
                 leftNodes: seq<nat>, left: nat, right: nat, rightNodes: seq<nat>)
    requires Halfway(base, nodes, goal, leftNodes, left, right, rightNodes) && left < right
    ensures Halfway(base, nodes, goal, leftNodes + [left], left + 1, right, rightNodes)
  {
    hide Fold, Smooth;
    assert At(nodes, leftNodes + [left]) == At(nodes, leftNodes) + [nodes[left]];
    assert nodes[left..right] == [nodes[left]] + nodes[left + 1..right];
    assert At(nodes, leftNodes) + ([nodes[left]] + nodes[left + 1..right]) + At(nodes, Reversed(rightNodes))
           == At(nodes, leftNodes) + [nodes[left]] + nodes[left + 1..right] + At(nodes, Reversed(rightNodes));
  }

  lemma PushRight(base: nat, nodes: seq<Label>, goal: seq<Label>,
                  leftNodes: seq<nat>, left: nat, right: nat, rightNodes: seq<nat>)
    requires Halfway(base, nodes, goal, leftNodes, left, right + 1, rightNodes) && left <= right
    ensures Halfway(base, nodes, goal, leftNodes, left, right, rightNodes + [right])
  {
    hide Fold, Smooth;
    assert Reversed(rightNodes + [right]) == [right] + Reversed(rightNodes);
    assert At(nodes, [right] + Reversed(rightNodes)) == [nodes[right]] + At(nodes, Reversed(rightNodes));
    assert nodes[left..right + 1] == nodes[left..right] + [nodes[right]];
    assert At(nodes, leftNodes) + (nodes[left..right] + [nodes[right]]) + At(nodes, Reversed(rightNodes))
           == At(nodes, leftNodes) + nodes[left..right] + ([nodes[right]] + At(nodes, Reversed(rightNodes)));
  }

  /** The open range moves one level up. */
  lemma GoUp(base: nat, nodes: seq<Label>, goal: seq<Label>,
             leftNodes: seq<nat>, left: nat, right: nat, rightNodes: seq<nat>)
    requires Tree(base, nodes) && Halfway(base, nodes, goal, leftNodes, left, right, rightNodes)
    requires left % 2 == 0 && right % 2 == 0
    ensures Halfway(base, nodes, goal, leftNodes, left / 2, right / 2, rightNodes)
  {
    hide Fold, Smooth, Tree;
    var l, r := left / 2, right / 2;
    assert left == 2 * l && right == 2 * r;
    var before, after := At(nodes, leftNodes), At(nodes, Reversed(rightNodes));
    LevelUp(base, nodes, before, l, r, after);
    forall xs | Smooth(xs + goal) ensures Smooth(xs + (before + nodes[l..r] + after)) {
      assert Smooth(xs + (before + nodes[2 * l..2 * r] + after));
      assert xs + (before + nodes[2 * l..2 * r] + after) == xs + before + nodes[2 * l..2 * r] + after;
      LevelUp(base, nodes, xs + before, l, r, after);
      assert xs + (before + nodes[l..r] + after) == xs + before + nodes[l..r] + after;
    }
  }

  lemma {:induction false} CoverEnd(base: nat, nodes: seq<Label>, goal: seq<Label>, leftNodes: seq<nat>, left: nat, rightNodes: seq<nat>)
    requires Halfway(base, nodes, goal, leftNodes, left, left, rightNodes)
    ensures var cover := leftNodes + Reversed(rightNodes);
      && Indices(nodes, cover)
      && Fold(At(nodes, cover)) == Fold(goal)
      && forall xs | Smooth(xs + goal) :: Smooth(xs + At(nodes, cover))
  {
    hide Fold, Smooth;
    var cover := leftNodes + Reversed(rightNodes);
    assert nodes[left..left] == [];
    assert At(nodes, leftNodes) + [] + At(nodes, Reversed(rightNodes)) == At(nodes, cover);
  }

  lemma TreeSize(base: nat, nodes: seq<Label>)
    requires Tree(base, nodes)
    ensures 1 <= base && |nodes| == 2 * base
  {
  }
}
