/** The ranked dominance filter over the sorted candidates (src/search.cpp, `path_catalog`, `ranked`,
    `by_fastest`, `by_slowest` and the first-leg suffix). */
module CatalogRanking {
  import opened Sequences
  import opened PathDominance
  import opened CatalogOrder

  /** Candidates accepted so far, each with its active flag. */
  datatype Ranking = Ranking(ranked: seq<PathSpec>, active: seq<bool>)

  ghost predicate Sized(r: Ranking) {
    |r.ranked| == |r.active|
  }

  ghost predicate ActiveDominates(r: Ranking, c: PathSpec, tolerance: real)
    requires Sized(r)
  {
    exists i | 0 <= i < |r.ranked| :: r.active[i] && Dominates(r.ranked[i], c, tolerance)
  }

  ghost function Deactivated(r: Ranking, c: PathSpec, tolerance: real): (flags: seq<bool>)
    requires Sized(r)
    ensures |flags| == |r.ranked|
    ensures forall i | 0 <= i < |flags| :: flags[i] == (r.active[i] && !Dominates(c, r.ranked[i], tolerance))
  {
    seq(|r.ranked|, i requires 0 <= i < |r.ranked| => r.active[i] && !Dominates(c, r.ranked[i], tolerance))
  }

  /** One candidate without any index. */
  ghost function Step(r: Ranking, c: PathSpec, tolerance: real): (next: Ranking)
    requires Sized(r)
    ensures Sized(next)
  {
    if ActiveDominates(r, c, tolerance) then r
    else Ranking(r.ranked + [c], Deactivated(r, c, tolerance) + [true])
  }

  ghost function Plain(candidates: seq<PathSpec>, tolerance: real): (r: Ranking)
    ensures Sized(r)
  {
    if candidates == [] then Ranking([], [])
    else Step(Plain(candidates[..|candidates| - 1], tolerance), candidates[|candidates| - 1], tolerance)
  }

  // ----- indexes -----

  /** `list` holds, in increasing order, exactly the positions whose key is `key`. */
  ghost predicate Lists(list: seq<nat>, keys: seq<nat>, key: nat) {
    && (forall a, b | 0 <= a < b < |list| :: list[a] < list[b])
    && (forall a | 0 <= a < |list| :: list[a] < |keys| && keys[list[a]] == key)
    && (forall i | 0 <= i < |keys| && keys[i] == key :: i in list)
  }

  ghost predicate Index(lists: seq<seq<nat>>, keys: seq<nat>) {
    forall key | 0 <= key < |lists| :: Lists(lists[key], keys, key)
  }

  function Fastests(ranked: seq<PathSpec>): (r: seq<nat>)
    ensures |r| == |ranked| && forall i | 0 <= i < |r| :: r[i] == ranked[i].fastest
  {
    seq(|ranked|, i requires 0 <= i < |ranked| => ranked[i].fastest)
  }

  function Slowests(ranked: seq<PathSpec>): (r: seq<nat>)
    ensures |r| == |ranked| && forall i | 0 <= i < |r| :: r[i] == ranked[i].slowest
  {
    seq(|ranked|, i requires 0 <= i < |ranked| => ranked[i].slowest)
  }

  lemma IndexAppend(lists: seq<seq<nat>>, keys: seq<nat>, key: nat)
    requires Index(lists, keys) && key < |lists|
    ensures Index(lists[key := lists[key] + [|keys|]], keys + [key])
  {
    var more := lists[key := lists[key] + [|keys|]];
    forall k | 0 <= k < |more| ensures Lists(more[k], keys + [key], k) {
      assert Lists(lists[k], keys, k);
    }
  }

  // ----- the filter -----

  ghost predicate ByFirstLeg(cs: seq<PathSpec>) {
    forall i, j | 0 <= i < j < |cs| :: cs[i].firstLeg <= cs[j].firstLeg
  }

  /** Only lists of ranks that can dominate are scanned. */
  method Dominated(r: Ranking, bySlowest: seq<seq<nat>>, c: PathSpec, tolerance: real) returns (d: bool)
    requires Sized(r) && Index(bySlowest, Slowests(r.ranked)) && c.fastest < |bySlowest|
    ensures d <==> ActiveDominates(r, c, tolerance)
  {
    hide Dominates;
    for slowest := 0 to c.fastest + 1
      invariant forall i | 0 <= i < |r.ranked| && r.ranked[i].slowest < slowest :: !(r.active[i] && Dominates(r.ranked[i], c, tolerance))
    {
      var list := bySlowest[slowest];
      assert Lists(list, Slowests(r.ranked), slowest);
      for a := 0 to |list|
        invariant forall b | 0 <= b < a :: !(r.active[list[b]] && Dominates(r.ranked[list[b]], c, tolerance))
      {
        if r.active[list[a]] && Dominates(r.ranked[list[a]], c, tolerance) { return true; }
      }
      forall i | 0 <= i < |r.ranked| && r.ranked[i].slowest < slowest + 1
        ensures !(r.active[i] && Dominates(r.ranked[i], c, tolerance))
      {
        if r.ranked[i].slowest == slowest { assert Slowests(r.ranked)[i] == slowest && i in list; }
      }
    }
    forall i | 0 <= i < |r.ranked| ensures Dominates(r.ranked[i], c, tolerance) ==> r.ranked[i].slowest < c.fastest + 1 {
      DominatesRanks(r.ranked[i], c, tolerance);
    }
    return false;
  }

  lemma DominatesRanks(l: PathSpec, r: PathSpec, tolerance: real)
    ensures Dominates(l, r, tolerance) ==> l.slowest <= r.fastest && l.firstLeg <= r.firstLeg + tolerance
  {
  }

  /** First position of the list whose first leg can be dominated (`std::partition_point`). */
  method SuffixStart(r: Ranking, list: seq<nat>, c: PathSpec, tolerance: real) returns (start: nat)
    requires ByFirstLeg(r.ranked) && forall a | 0 <= a < |list| :: list[a] < |r.ranked|
    requires forall a, b | 0 <= a < b < |list| :: list[a] < list[b]
    ensures start <= |list|
    ensures forall a | 0 <= a < start :: !(c.firstLeg <= r.ranked[list[a]].firstLeg + tolerance)
    ensures forall a | start <= a < |list| :: c.firstLeg <= r.ranked[list[a]].firstLeg + tolerance
  {
    var low, high := 0, |list|;
    while low < high
      invariant 0 <= low <= high <= |list|
      invariant forall a | 0 <= a < low :: !(c.firstLeg <= r.ranked[list[a]].firstLeg + tolerance)
      invariant forall a | high <= a < |list| :: c.firstLeg <= r.ranked[list[a]].firstLeg + tolerance
    {
      var mid := (low + high) / 2;
      if !(c.firstLeg <= r.ranked[list[mid]].firstLeg + tolerance) { low := mid + 1; } else { high := mid; }
    }
    start := low;
  }

  /** Deactivate what the candidate dominates; with `suffix` the prefix of each list is skipped. */
  method Deactivate(r: Ranking, byFastest: seq<seq<nat>>, c: PathSpec, tolerance: real, suffix: bool)
      returns (active: seq<bool>)
    requires Sized(r) && Index(byFastest, Fastests(r.ranked)) && ByFirstLeg(r.ranked)
    requires forall i | 0 <= i < |r.ranked| :: r.ranked[i].fastest < |byFastest|
    ensures active == Deactivated(r, c, tolerance)
  {
    hide Dominates;
    active := r.active;
    var fastest := c.slowest;
    while fastest < |byFastest|
      invariant |active| == |r.active|
      invariant forall i | 0 <= i < |active| ::
        active[i] == (r.active[i] && !(c.slowest <= r.ranked[i].fastest < fastest && Dominates(c, r.ranked[i], tolerance)))
    {
      var list := byFastest[fastest];
      assert Lists(list, Fastests(r.ranked), fastest);
      var start := 0;
      if suffix { start := SuffixStart(r, list, c, tolerance); }
      forall a | 0 <= a < start ensures !Dominates(c, r.ranked[list[a]], tolerance) {
        DominatesRanks(c, r.ranked[list[a]], tolerance);
      }
      active := DeactivateList(r, active, list, start, c, tolerance);
      forall i | 0 <= i < |active| ensures
        active[i] == (r.active[i] && !(c.slowest <= r.ranked[i].fastest < fastest + 1 && Dominates(c, r.ranked[i], tolerance)))
      {
        DominatesRanks(c, r.ranked[i], tolerance);
        if r.ranked[i].fastest == fastest { assert Fastests(r.ranked)[i] == fastest && i in list; }
      }
      fastest := fastest + 1;
    }
    forall i | 0 <= i < |active| ensures active[i] == (r.active[i] && !Dominates(c, r.ranked[i], tolerance)) {
      DominatesRanks(c, r.ranked[i], tolerance);
    }
  }

  method DeactivateList(r: Ranking, flags: seq<bool>, list: seq<nat>, start: nat, c: PathSpec, tolerance: real)
      returns (active: seq<bool>)
    requires |flags| == |r.ranked| && start <= |list|
    requires forall a | 0 <= a < |list| :: list[a] < |r.ranked|
    requires forall a, b | 0 <= a < b < |list| :: list[a] < list[b]
    requires forall a | 0 <= a < start :: !Dominates(c, r.ranked[list[a]], tolerance)
    ensures |active| == |flags|
    ensures forall i | 0 <= i < |active| :: active[i] == (flags[i] && !(i in list && Dominates(c, r.ranked[i], tolerance)))
  {
    hide Dominates;
    active := flags;
    for a := start to |list|
      invariant |active| == |flags|
      invariant forall i | 0 <= i < |active| :: active[i] == (flags[i] && !(i in list[..a] && Dominates(c, r.ranked[i], tolerance)))
    {
      assert list[..a + 1] == list[..a] + [list[a]];
      if active[list[a]] && Dominates(c, r.ranked[list[a]], tolerance) { active := active[list[a] := false]; }
    }
    assert list[..|list|] == list;
  }

  /** Candidates sorted by first leg run through the indexed filter exactly as through the plain one. */
  method RankedFilter(candidates: seq<PathSpec>, curves: nat, tolerance: real, suffix: bool) returns (r: Ranking)
    requires ByFirstLeg(candidates)
    requires forall i | 0 <= i < |candidates| :: candidates[i].fastest < curves && candidates[i].slowest < curves
    ensures r == Plain(candidates, tolerance)
  {
    hide Dominates, ActiveDominates, Index, Deactivated;
    r := Ranking([], []);
    var byFastest: seq<seq<nat>> := seq(curves, _ => []);
    var bySlowest: seq<seq<nat>> := seq(curves, _ => []);
    NoEntries(byFastest);
    assert Fastests([]) == [] && Slowests([]) == [];
    for n := 0 to |candidates|
      invariant Sized(r) && r == Plain(candidates[..n], tolerance)
      invariant |byFastest| == curves && Index(byFastest, Fastests(r.ranked))
      invariant |bySlowest| == curves && Index(bySlowest, Slowests(r.ranked))
      invariant ByFirstLeg(r.ranked) && forall i | 0 <= i < |r.ranked| :: r.ranked[i] in candidates[..n]
    {
      var c := candidates[n];
      assert candidates[..n + 1][..n] == candidates[..n];
      ghost var before := r;
      var dominated := Dominated(r, bySlowest, c, tolerance);
      if !dominated {
        var active := Deactivate(r, byFastest, c, tolerance, suffix);
        IndexAppend(byFastest, Fastests(r.ranked), c.fastest);
        IndexAppend(bySlowest, Slowests(r.ranked), c.slowest);
        assert Fastests(r.ranked + [c]) == Fastests(r.ranked) + [c.fastest];
        assert Slowests(r.ranked + [c]) == Slowests(r.ranked) + [c.slowest];
        byFastest := byFastest[c.fastest := byFastest[c.fastest] + [|r.ranked|]];
        bySlowest := bySlowest[c.slowest := bySlowest[c.slowest] + [|r.ranked|]];
        r := Ranking(r.ranked + [c], active + [true]);
      }
      assert r == Step(before, c, tolerance);
    }
    assert candidates[..|candidates|] == candidates;
  }

  lemma NoEntries(lists: seq<seq<nat>>)
    requires forall k | 0 <= k < |lists| :: lists[k] == []
    ensures Index(lists, [])
  {
  }

  // ----- on incomparable candidates -----

  ghost predicate Incomparable(cs: seq<PathSpec>, tolerance: real) {
    forall i, j | 0 <= i < |cs| && 0 <= j < |cs| && i != j :: !Dominates(cs[i], cs[j], tolerance)
  }

  ghost predicate AllActive(r: Ranking) {
    Sized(r) && forall i | 0 <= i < |r.active| :: r.active[i]
  }

  /** Where no candidate dominates another, the filter keeps them all. */
  lemma {:induction false} NothingFiltered(cs: seq<PathSpec>, tolerance: real)
    requires Incomparable(cs, tolerance)
    ensures Plain(cs, tolerance).ranked == cs && AllActive(Plain(cs, tolerance))
  {
    hide Dominates, Step, AllActive;
    if cs == [] {
      NoneInactive();
    } else {
      var n := |cs| - 1;
      IncomparablePrefix(cs, n, tolerance);
      NothingFiltered(cs[..n], tolerance);
      assert cs == cs[..n] + [cs[n]];
      StepKeeps(Plain(cs[..n], tolerance), cs[..n], cs[n], tolerance);
    }
  }

  lemma NoneInactive()
    ensures AllActive(Ranking([], []))
  {
  }

  lemma IncomparablePrefix(cs: seq<PathSpec>, n: nat, tolerance: real)
    requires n < |cs| && Incomparable(cs, tolerance)
    ensures Incomparable(cs[..n], tolerance)
    ensures forall i | 0 <= i < n :: !Dominates(cs[..n][i], cs[n], tolerance) && !Dominates(cs[n], cs[..n][i], tolerance)
  {
    hide Dominates;
  }

  lemma StepKeeps(r: Ranking, cs: seq<PathSpec>, c: PathSpec, tolerance: real)
    requires AllActive(r) && r.ranked == cs
    requires forall i | 0 <= i < |cs| :: !Dominates(cs[i], c, tolerance) && !Dominates(c, cs[i], tolerance)
    ensures Step(r, c, tolerance).ranked == cs + [c] && AllActive(Step(r, c, tolerance))
  {
    hide Dominates;
  }
}
