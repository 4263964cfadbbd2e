/** The depth-first construction of a complete catalogue (src/search.cpp, `path_catalog`). */
module CatalogBuilder {
  import opened Common
  import opened Sequences
  import opened StationMasks
  import opened PathTrees
  import opened PathDistances
  import opened PathDominance
  import opened PathEnumeration
  import opened CatalogOrder
  import opened CatalogShelves
  import opened Catalog

  /** Stations are tried in increasing order. */
  ghost function Ascending(): Order {
    (path, x, y) => x < y
  }

  lemma OpensBelow(pr: Pair, p: seq<int>, q: seq<int>)
    requires Positive(pr) && p <= q
    ensures Opens(pr, q) ==> Opens(pr, p)
  {
    hide Opens;
    if Opens(pr, q) {
      OpensPrefix(pr, q, |p|);
      assert q[..|p|] == p;
    }
  }

  lemma NothingBelow(pr: Pair, path: seq<int>, x: int)
    requires Positive(pr) && !Opens(pr, path + [x])
    ensures forall q | path + [x] <= q :: !Proposed(pr)(q)
  {
    hide Opens;
    forall q | path + [x] <= q ensures !Proposes(pr, q) {
      OpensBelow(pr, path + [x], q);
    }
  }

  lemma ProposedGoes(pr: Pair, path: seq<int>, q: seq<int>)
    requires Positive(pr) && Under(Proposed(pr), path, q)
    ensures 0 <= q[|path|] < pr.gap.count && q[|path|] !in path
  {
    hide InTime, Reach, Fits;
    assert Goes(pr, q, |path|);
  }

  lemma OpensIsLimited(pr: Pair, p: seq<int>)
    requires Positive(pr) && Opens(pr, p)
    ensures InRange(pr.gap, p) && Distinct(p) && |p| <= pr.gap.count
  {
    hide InTime, Reach, Fits;
    forall i, j | 0 <= i < j < |p| ensures p[i] != p[j] {
      assert Goes(pr, p, j) && p[i] == p[..j][i];
    }
    forall j | 0 <= j < |p| ensures 0 <= p[j] < pr.gap.count {
      assert Goes(pr, p, j);
    }
    StationLimit(pr.gap, p);
  }

  /** What the tests on an unused station decide. */
  lemma {:induction false} NextGoes(pr: Pair, path: seq<int>, x: int)
    requires Positive(pr) && Opens(pr, path) && 0 <= x < pr.gap.count && x !in path
    ensures var g := pr.gap;
      && Reach(g, path + [x]) == Reach(g, path) + g.travel(Before(g, path, |path|), x)
      && (Opens(pr, path + [x]) <==>
            Fits(g, Before(g, path, |path|), x) && InTime(pr, Reach(g, path + [x]) + g.travel(x, g.target)))
      && (Proposed(pr)(path + [x]) <==> Opens(pr, path + [x]) && Fits(g, x, g.target))
  {
    hide Reach, Opens, InTime, Fits;
    var q := path + [x];
    assert q[..|path|] == path && q[..|path| + 1] == q;
    ReachBy(pr.gap, path, x);
    OpensNext(pr, path, x);
  }

  lemma {:induction false} ReachBy(g: Gap, path: seq<int>, x: int)
    ensures Reach(g, path + [x]) == Reach(g, path) + g.travel(Before(g, path, |path|), x)
    ensures Before(g, path + [x], |path|) == Before(g, path, |path|)
  {
    assert (path + [x])[..|path|] == path;
  }

  // ----- descriptions carried along -----

  /** First leg and rank range of the current path. */
  ghost predicate Carried(g: Gap, path: seq<int>, first: real, fastest: nat, slowest: nat) {
    path != [] ==> first == g.travel(g.origin, path[0]) && fastest == Fastest(g, path) && slowest == Slowest(g, path)
  }

  lemma CarriedNext(g: Gap, path: seq<int>, x: int, first: real, fastest: nat, slowest: nat, types: nat)
    requires Carried(g, path, first, fastest, slowest)
    ensures var rank := g.rank(x);
      Carried(g, path + [x],
              if path == [] then g.travel(g.origin, x) else first,
              if path == [] then rank else if rank < fastest then rank else fastest,
              if path == [] then rank else if rank > slowest then rank else slowest)
  {
    assert (path + [x])[..|path|] == path;
  }

  lemma {:induction false} DescribedBy(g: Gap, p: seq<int>, first: real, fastest: nat, slowest: nat)
    requires p != [] && Carried(g, p, first, fastest, slowest)
    ensures var last := g.travel(p[|p| - 1], g.target);
      Described(g, p, false) == PathSpec(p, false, fastest, slowest, first, last, Reach(g, p) + last)
  {
    ReachThenLength(g, p, |p|);
    LastLeg(g, p);
    assert p[..|p|] == p;
  }

  lemma {:induction false} SlowestBelow(g: Gap, p: seq<int>, types: nat)
    requires p != [] && forall i :: RankBelow(g, i, types)
    ensures Slowest(g, p) < types
  {
    assert RankBelow(g, p[0], types) && RankBelow(g, p[|p| - 1], types);
    if |p| > 1 { SlowestBelow(g, p[..|p| - 1], types); }
  }

  lemma DescribedBelongs(pr: Pair, p: seq<int>)
    requires Catalog.Regular(pr) && p != [] && InRange(pr.gap, p)
    ensures var k := Described(pr.gap, p, false);
      Belongs(pr.gap, pr.types, k, k.fastest, k.slowest, k.stations[0])
  {
    SlowestBelow(pr.gap, p, pr.types);
    RanksOrdered(pr.gap, p);
  }

  /** No proposal so far goes on from `path`. */
  ghost predicate Fresh(proposed: seq<PathSpec>, path: seq<int>) {
    forall o | o in proposed :: !(path < o.stations)
  }

  ghost predicate FreshAt(proposed: seq<PathSpec>, path: seq<int>) {
    forall o | o in proposed :: !(path <= o.stations)
  }

  lemma FreshNext(pr: Pair, proposed: seq<PathSpec>, path: seq<int>, tried: seq<int>, x: int, sub: seq<seq<int>>)
    requires Fresh(proposed, path) && Tried(Ascending(), Proposed(pr), path, tried, sub) && x !in tried
    ensures FreshAt(proposed + Specs(pr.gap, sub), path + [x])
  {
    hide Described, Proposed, Distinct;
    var longer := path + [x];
    forall o | o in proposed + Specs(pr.gap, sub) ensures !(longer <= o.stations) {
      if o in proposed {
        assert path <= longer && |path| < |longer|;
      } else {
        var i :| 0 <= i < |sub| && Specs(pr.gap, sub)[i] == o;
        DescribedStations(pr.gap, sub[i], false);
        assert Branch(Proposed(pr), path, tried, sub[i]);
        assert longer[|path|] == x;
      }
    }
  }

  lemma FreshDeeper(proposed: seq<PathSpec>, p: seq<int>, o: PathSpec)
    requires FreshAt(proposed, p) && o.stations == p
    ensures Fresh(proposed, p) && Fresh(proposed + [o], p) && o !in proposed
  {
  }

  // ----- the builder -----

  class Builder {
    const pr: Pair
    const tolerance: real
    const masked: bool
    const used: array<bool>
    var path: seq<int>
    var buckets: Shelves
    ghost var proposed: seq<PathSpec>

    ghost predicate Valid()
      reads this
    {
      && Catalog.Regular(pr) && used.Length == pr.gap.count
      && Shelved(pr.gap, pr.types, buckets, Online(proposed, tolerance))
    }

    ghost predicate Marked()
      reads this, used
    {
      used.Length == pr.gap.count && forall v | 0 <= v < pr.gap.count :: used[v] <==> v in path
    }

    constructor (pr: Pair, tolerance: real, masked: bool)
      requires Catalog.Regular(pr)
      ensures this.pr == pr && this.tolerance == tolerance && this.masked == masked && fresh(used)
      ensures Valid() && Marked() && path == [] && proposed == []
    {
      this.pr, this.tolerance, this.masked := pr, tolerance, masked;
      this.used := new bool[pr.gap.count](_ => false);
      path, buckets, proposed := [], map[], [];
    }

    /** Drop the proposal, or shelve it and erase what it dominates. */
    method Propose(p: PathSpec)
      requires Valid() && path != [] && InRange(pr.gap, path) && p == Described(pr.gap, path, false)
      requires FreshAt(proposed, path)
      modifies `buckets, `proposed
      ensures Valid() && proposed == old(proposed) + [p]
    {
      hide Described, Shelved, Belongs, Beats, Dominates, Online, FreshAt;
      DescribedStations(pr.gap, path, false);
      DescribedBelongs(pr, path);
      FreshDeeper(proposed, path, p);
      OnlineFrom(proposed, tolerance);
      OnlineNext(proposed, p, tolerance);
      ghost var kept := Online(proposed, tolerance);
      var rejected := Rejected(pr.gap, pr.types, buckets, kept, p, tolerance);
      if !rejected {
        ShelvedTidy(pr.gap, pr.types, buckets, kept);
        var fewer := EraseDominated(pr.gap, pr.types, buckets, p, tolerance);
        ErasedShelves(pr.gap, pr.types, buckets, fewer, kept, p, tolerance);
        ghost var left := set k | k in kept && !Dominates(p, k, tolerance);
        buckets := Shelve(pr.gap, pr.types, fewer, left, p);
      }
      proposed := proposed + [p];
    }

    /** Try every unused station after the path, in increasing order. */
    method Extend(prefix: real, first: real, fastest: nat, slowest: nat, mask: nat) returns (ghost sub: seq<seq<int>>)
      requires Valid() && Marked() && Opens(pr, path) && prefix == Reach(pr.gap, path)
      requires Carried(pr.gap, path, first, fastest, slowest) && Fresh(proposed, path)
      requires masked ==> Masks(mask, used[..], 0)
      modifies `path, `buckets, `proposed, used
      ensures Valid() && Marked() && path == old(path)
      ensures proposed == old(proposed) + Specs(pr.gap, sub) && Swept(Ascending(), Proposed(pr), path, sub)
      decreases pr.gap.count + 1 - |path|, 2
    {
      hide Opens, Reach, Swept, Tried, Proposed, Ascending, AllBefore, Shelved, Online, Specs, Carried, Fresh, FreshAt, Masks, Catalog.Regular;
      RegularPositive(pr);
      ghost var trunk, flags, wanted, order := path, used[..], Proposed(pr), Ascending();
      var cursor, choices := 0, mask;
      ghost var tried: seq<int> := [];
      sub := [];
      TriedNone(order, wanted, trunk);
      assert Specs(pr.gap, sub) == [];
      while cursor < pr.gap.count
        invariant Valid() && Marked() && path == trunk && used[..] == flags
        invariant cursor <= pr.gap.count && (masked ==> Masks(choices, flags, cursor))
        invariant forall x :: x in tried <==> 0 <= x < cursor && x !in trunk
        invariant proposed == old(proposed) + Specs(pr.gap, sub) && Tried(order, wanted, trunk, tried, sub)
        decreases pr.gap.count - cursor
      {
        var index: nat;
        if masked {
          index, choices := NextByMask(choices, pr.gap.count, flags, cursor);
        } else {
          index := NextByFlags(used[..], cursor);
        }
        if index < pr.gap.count {
          FreshNext(pr, old(proposed), trunk, tried, index, sub);
          SmallerFirst(trunk, tried, index);
          ghost var more := Visit(tried, index, prefix, first, fastest, slowest, mask, sub);
          SpecsAppend(pr.gap, sub, more);
          sub, tried, cursor := sub + more, tried + [index], index + 1;
        } else {
          cursor := index;
        }
      }
      forall q | Under(wanted, trunk, q) ensures q[|trunk|] in tried {
        ProposedGoes(pr, trunk, q);
      }
      TriedAll(order, wanted, trunk, tried, sub);
    }

    method Visit(ghost tried: seq<int>, x: nat, prefix: real, first: real, fastest: nat, slowest: nat, mask: nat,
                 ghost sub: seq<seq<int>>) returns (ghost more: seq<seq<int>>)
      requires Valid() && Marked() && Opens(pr, path) && prefix == Reach(pr.gap, path)
      requires Carried(pr.gap, path, first, fastest, slowest) && FreshAt(proposed, path + [x])
      requires masked ==> Masks(mask, used[..], 0)
      requires x < pr.gap.count && x !in path && x !in tried && AllBefore(Ascending(), path, tried, x)
      requires Tried(Ascending(), Proposed(pr), path, tried, sub)
      modifies `path, `buckets, `proposed, used
      ensures Valid() && Marked() && path == old(path) && used[..] == old(used[..])
      ensures proposed == old(proposed) + Specs(pr.gap, more) && Tried(Ascending(), Proposed(pr), path, tried + [x], sub + more)
      decreases pr.gap.count + 1 - |path|, 1
    {
      hide Opens, Reach, Swept, Tried, Proposed, Ascending, AllBefore, Shelved, Online, Specs, Carried, FreshAt, Masks, Catalog.Regular, Before, InTime;
      RegularPositive(pr);
      OpensIsLimited(pr, path);
      NextGoes(pr, path, x);
      var g, previous := pr.gap, Before(pr.gap, path, |path|);
      more := [];
      assert Specs(g, more) == [];
      var distance := prefix + g.travel(previous, x);
      var last := g.travel(x, g.target);
      if g.energy(previous, x) > g.battery || !InTime(pr, distance + last) {
        NothingBelow(pr, path, x);
        TriedSkip(Ascending(), Proposed(pr), path, tried, x, sub);
        assert sub + more == sub;
        return;
      }
      ghost var own, deeper := Descend(x, distance, last, first, fastest, slowest, mask);
      TriedNext(Ascending(), Proposed(pr), path, tried, x, sub, own, deeper);
      more := own + deeper;
      assert sub + more == sub + own + deeper;
    }

    /** Propose the current path when its last leg fits. */
    method ProposeHere(distance: real, last: real, first: real, fastest: nat, slowest: nat)
        returns (ghost own: seq<seq<int>>)
      requires Valid() && path != [] && Opens(pr, path) && Carried(pr.gap, path, first, fastest, slowest)
      requires distance == Reach(pr.gap, path) && last == pr.gap.travel(path[|path| - 1], pr.gap.target)
      requires FreshAt(proposed, path)
      modifies `buckets, `proposed
      ensures Valid() && proposed == old(proposed) + Specs(pr.gap, own) && Fresh(proposed, path)
      ensures own == if Proposed(pr)(path) then [path] else []
    {
      hide Opens, Reach, Shelved, Online, Specs, Carried, Fresh, FreshAt, Catalog.Regular, Described;
      RegularPositive(pr);
      OpensIsLimited(pr, path);
      DescribedBy(pr.gap, path, first, fastest, slowest);
      DescribedStations(pr.gap, path, false);
      FreshDeeper(proposed, path, Described(pr.gap, path, false));
      own := [];
      assert Specs(pr.gap, own) == [];
      if pr.gap.energy(path[|path| - 1], pr.gap.target) <= pr.gap.battery {
        Propose(PathSpec(path, false, fastest, slowest, first, last, distance + last));
        own := [path];
        assert Specs(pr.gap, own) == [Described(pr.gap, path, false)];
      }
    }

    method Descend(x: nat, distance: real, last: real, first: real, fastest: nat, slowest: nat, mask: nat)
        returns (ghost own: seq<seq<int>>, ghost deeper: seq<seq<int>>)
      requires Valid() && Marked() && x < pr.gap.count && x !in path
      requires Opens(pr, path + [x]) && distance == Reach(pr.gap, path + [x]) && last == pr.gap.travel(x, pr.gap.target)
      requires Carried(pr.gap, path, first, fastest, slowest) && FreshAt(proposed, path + [x])
      requires masked ==> Masks(mask, used[..], 0)
      modifies `path, `buckets, `proposed, used
      ensures Valid() && Marked() && path == old(path) && used[..] == old(used[..])
      ensures proposed == old(proposed) + Specs(pr.gap, own + deeper)
      ensures own == if Proposed(pr)(path + [x]) then [path + [x]] else []
      ensures Swept(Ascending(), Proposed(pr), path + [x], deeper)
      decreases pr.gap.count + 1 - |path|, 0
    {
      hide Opens, Reach, Swept, Proposed, Ascending, Shelved, Online, Specs, Carried, Fresh, FreshAt, Masks, Catalog.Regular, Described, Distinct;
      var g, rank := pr.gap, pr.gap.rank(x);
      RegularPositive(pr);
      OpensIsLimited(pr, path + [x]);
      CarriedNext(g, path, x, first, fastest, slowest, pr.types);
      MasksAfter(masked, mask, used[..], x);
      var nextFirst := if path == [] then g.travel(g.origin, x) else first;
      var nextFastest := if path == [] then rank else if rank < fastest then rank else fastest;
      var nextSlowest := if path == [] then rank else if rank > slowest then rank else slowest;
      used[x] := true;
      path := path + [x];
      assert path[..|path| - 1] == old(path);
      own := ProposeHere(distance, last, nextFirst, nextFastest, nextSlowest);
      deeper := Extend(distance, nextFirst, nextFastest, nextSlowest, ClearBit(mask, x));
      SpecsAppend(g, own, deeper);
      path := path[..|path| - 1];
      used[x] := false;
      assert used[..] == old(used[..]);
    }
  }

  lemma {:induction false} MasksAfter(masked: bool, mask: nat, used: seq<bool>, x: nat)
    requires x < |used| && (masked ==> Masks(mask, used, 0))
    ensures masked ==> Masks(ClearBit(mask, x), used[x := true], 0)
  {
    if masked { MasksTake(mask, used, x); }
  }

  lemma SmallerFirst(path: seq<int>, tried: seq<int>, x: int)
    requires forall y | y in tried :: y < x
    ensures AllBefore(Ascending(), path, tried, x)
  {
  }

  lemma RegularPositive(pr: Pair)
    requires Catalog.Regular(pr)
    ensures Positive(pr)
  {
  }

  lemma ShelvedTidy(g: Gap, types: nat, b: Shelves, kept: set<PathSpec>)
    requires Shelved(g, types, b, kept)
    ensures Tidy(g, types, b)
  {
  }
}
