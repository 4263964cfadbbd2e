/** The finished catalogue of an anchor pair (src/search.cpp, `path_catalog`). */
module CompleteCatalog {
  import opened Common
  import opened Sequences
  import opened StationMasks
  import opened PathTrees
  import opened PathDistances
  import opened PathDominance
  import opened PathEnumeration
  import opened CatalogOrder
  import opened CatalogShelves
  import opened Catalog
  import opened CatalogBuilder
  import opened CatalogRanking

  // ----- collecting and sorting -----

  /** Candidates are sorted by their metrics, then by their stations. */
  predicate CandidateLess(a: PathSpec, b: PathSpec) {
    if a.firstLeg != b.firstLeg then a.firstLeg < b.firstLeg
    else if a.lastLeg != b.lastLeg then a.lastLeg < b.lastLeg
    else if a.travel != b.travel then a.travel < b.travel
    else if a.fastest != b.fastest then a.fastest < b.fastest
    else if a.slowest != b.slowest then a.slowest < b.slowest
    else LexLess(a.stations, b.stations)
  }

  function InsertCandidate(cs: seq<PathSpec>, c: PathSpec): (r: seq<PathSpec>)
    ensures |r| == |cs| + 1 && forall d :: d in r <==> d in cs || d == c
  {
    if cs == [] then [c]
    else
      assert cs == [cs[0]] + cs[1..];
      if CandidateLess(c, cs[0]) then [c] + cs else [cs[0]] + InsertCandidate(cs[1..], c)
  }

  lemma {:induction false} InsertCandidateOrder(cs: seq<PathSpec>, c: PathSpec)
    requires ByFirstLeg(cs)
    ensures ByFirstLeg(InsertCandidate(cs, c))
  {
    hide LexLess;
    if cs != [] && !CandidateLess(c, cs[0]) {
      InsertCandidateOrder(cs[1..], c);
      var rest := InsertCandidate(cs[1..], c);
      forall j | 0 <= j < |rest| ensures cs[0].firstLeg <= rest[j].firstLeg {
        assert rest[j] in rest;
        assert rest[j] in cs[1..] || rest[j] == c;
      }
    }
  }

  lemma {:induction false} InsertCandidateOnce(cs: seq<PathSpec>, c: PathSpec)
    requires Distinct(cs) && c !in cs
    ensures Distinct(InsertCandidate(cs, c))
  {
    hide CandidateLess;
    if cs != [] && !CandidateLess(c, cs[0]) {
      InsertCandidateOnce(cs[1..], c);
      var rest := InsertCandidate(cs[1..], c);
      forall j | 0 <= j < |rest| ensures rest[j] != cs[0] {
        assert rest[j] in rest;
        assert rest[j] in cs[1..] || rest[j] == c;
      }
    }
  }

  method AddBucket(cs: seq<PathSpec>, bucket: seq<PathSpec>) returns (r: seq<PathSpec>)
    requires ByFirstLeg(cs) && Distinct(cs) && Distinct(bucket) && forall c | c in bucket :: c !in cs
    ensures ByFirstLeg(r) && Distinct(r) && forall d :: d in r <==> d in cs || d in bucket
  {
    hide InsertCandidate, Distinct, ByFirstLeg;
    r := cs;
    for i := 0 to |bucket|
      invariant ByFirstLeg(r) && Distinct(r) && forall d :: d in r <==> d in cs || d in bucket[..i]
    {
      DistinctAt(bucket, i);
      assert bucket[..i + 1] == bucket[..i] + [bucket[i]];
      InsertCandidateOrder(r, bucket[i]);
      InsertCandidateOnce(r, bucket[i]);
      r := InsertCandidate(r, bucket[i]);
    }
    assert bucket[..|bucket|] == bucket;
  }

  /** The kept paths of every bucket, sorted. */
  method Collect(g: Gap, types: nat, b: Shelves, ghost kept: set<PathSpec>) returns (cs: seq<PathSpec>)
    requires Shelved(g, types, b, kept)
    ensures ByFirstLeg(cs) && Distinct(cs) && forall c :: c in cs <==> c in kept
  {
    hide Shelved, ByFirstLeg, Distinct, Belongs;
    cs := [];
    NoCandidates();
    for fast := 0 to types
      invariant ByFirstLeg(cs) && Distinct(cs)
      invariant forall c :: c in cs <==> c in kept && c.fastest < fast
    {
      for slow := 0 to types
        invariant ByFirstLeg(cs) && Distinct(cs)
        invariant forall c :: c in cs <==> c in kept && (c.fastest < fast || (c.fastest == fast && c.slowest < slow))
      {
        cs := CollectRow(g, types, b, kept, cs, fast, slow);
      }
      forall c | c in kept ensures c.slowest < types {
        KeptBelongs(g, types, b, kept, c);
      }
    }
    forall c | c in kept ensures c.fastest < types {
      KeptBelongs(g, types, b, kept, c);
    }
  }

  lemma KeptBelongs(g: Gap, types: nat, b: Shelves, kept: set<PathSpec>, c: PathSpec)
    requires Shelved(g, types, b, kept) && c in kept
    ensures c.fastest < types && c.slowest < types && c.stations != [] && 0 <= c.stations[0] < g.count
    ensures c in At(b, c.fastest, c.slowest, c.stations[0])
  {
    OwnBucket(g, types, b, kept, c);
  }

  lemma BucketFacts(g: Gap, types: nat, b: Shelves, kept: set<PathSpec>, fast: nat, slow: nat, group: nat)
    requires Shelved(g, types, b, kept)
    ensures Distinct(At(b, fast, slow, group))
    ensures forall c | c in At(b, fast, slow, group) ::
      c in kept && c.fastest == fast && c.slowest == slow && c.stations != [] && c.stations[0] == group
  {
    forall c | c in At(b, fast, slow, group)
      ensures c in kept && c.fastest == fast && c.slowest == slow && c.stations != [] && c.stations[0] == group
    {
      InBucket(g, types, b, kept, c, fast, slow, group);
    }
  }

  lemma NoCandidates()
    ensures ByFirstLeg([]) && Distinct<PathSpec>([])
  {
  }

  /** Kept paths of one pair of ranks whose first station comes before `group`. */
  ghost predicate InRow(kept: set<PathSpec>, c: PathSpec, fast: nat, slow: nat, group: nat) {
    c in kept && c.fastest == fast && c.slowest == slow && c.stations != [] && 0 <= c.stations[0] < group
  }

  method CollectRow(g: Gap, types: nat, b: Shelves, ghost kept: set<PathSpec>, start: seq<PathSpec>, fast: nat, slow: nat)
      returns (cs: seq<PathSpec>)
    requires Shelved(g, types, b, kept) && ByFirstLeg(start) && Distinct(start)
    requires forall c :: c in start <==> c in kept && (c.fastest < fast || (c.fastest == fast && c.slowest < slow))
    ensures ByFirstLeg(cs) && Distinct(cs)
    ensures forall c :: c in cs <==> c in kept && (c.fastest < fast || (c.fastest == fast && c.slowest < slow + 1))
  {
    hide Shelved, ByFirstLeg, Distinct, Belongs;
    cs := start;
    for group := 0 to g.count
      invariant ByFirstLeg(cs) && Distinct(cs)
      invariant forall c :: c in cs <==> c in start || InRow(kept, c, fast, slow, group)
    {
      var bucket := At(b, fast, slow, group);
      BucketFacts(g, types, b, kept, fast, slow, group);
      ghost var before := cs;
      cs := AddBucket(cs, bucket);
      forall c ensures c in cs <==> c in start || InRow(kept, c, fast, slow, group + 1) {
        if c in kept && c.fastest == fast && c.slowest == slow { KeptBelongs(g, types, b, kept, c); }
        assert c in cs <==> c in before || c in bucket;
      }
    }
    forall c | c in kept ensures c.stations != [] && 0 <= c.stations[0] < g.count {
      KeptBelongs(g, types, b, kept, c);
    }
  }

  /** The active candidates in ranked order. */
  method Survivors(r: Ranking) returns (s: seq<PathSpec>)
    requires Sized(r)
    ensures forall p :: p in s <==> exists i | 0 <= i < |r.ranked| :: r.active[i] && r.ranked[i] == p
    ensures AllActive(r) ==> s == r.ranked
  {
    s := [];
    for i := 0 to |r.ranked|
      invariant forall p :: p in s <==> exists k | 0 <= k < i :: r.active[k] && r.ranked[k] == p
      invariant AllActive(r) ==> s == r.ranked[..i]
    {
      if r.active[i] { s := s + [r.ranked[i]]; }
    }
  }

  // ----- the catalogue -----

  /** An eligible path with its description. */
  ghost predicate Candidate(pr: Pair, p: PathSpec)
    requires Positive(pr)
  {
    Eligible(pr, p.stations) && p == Described(pr.gap, p.stations, false)
  }

  /** A candidate that no other candidate beats. */
  ghost predicate Best(pr: Pair, p: PathSpec, t: real)
    requires Positive(pr)
  {
    Candidate(pr, p) && forall q | Candidate(pr, q) :: !Beats(q, p, t)
  }

  /** Every candidate is listed or beaten by a listed one. */
  ghost predicate Represents(pr: Pair, paths: seq<PathSpec>, t: real)
    requires Positive(pr)
  {
    forall p | Candidate(pr, p) :: p in paths || exists k :: k in paths && Beats(k, p, t)
  }

  /** The paths the search proposes, in its order. */
  ghost predicate Generates(pr: Pair, sub: seq<seq<int>>)
    requires Positive(pr)
  {
    Swept(Ascending(), Proposed(pr), [], sub)
  }

  /** The direct path, then exactly what the online filter leaves of the proposals, each once: neither the mask, nor
      the buckets, nor the second filter with its first-leg suffix has a part in this. Where beating is transitive on
      the candidates, as it is without a tolerance and on spaced candidates, that is exactly the candidates no
      candidate beats, and the search order has no part either. */
  method BuildCatalog(pr: Pair, t: real, masked: bool, suffix: bool) returns (paths: seq<PathSpec>, ghost sub: seq<seq<int>>)
    requires Catalog.Regular(pr)
    ensures paths != [] && paths[0] == Described(pr.gap, [], false) && Distinct(paths)
    ensures Positive(pr) && Generates(pr, sub) && (forall p :: p in Specs(pr.gap, sub) <==> Candidate(pr, p))
    ensures forall p :: p in paths[1..] <==> p in Online(Specs(pr.gap, sub), t)
    ensures 0.0 <= t && (t == 0.0 || Spaced(Specs(pr.gap, sub), t)) ==> Transitive(Specs(pr.gap, sub), t)
    ensures Transitive(Specs(pr.gap, sub), t) ==> (forall p :: p in paths[1..] <==> Best(pr, p, t)) && Represents(pr, paths[1..], t)
  {
    hide Described, Swept, Online, Shelved, Opens, Carried, Masks, Fresh, ByFirstLeg, Distinct, Plain, Best, Incomparable, AllActive,
      Represents, Transitive, Spaced, Proper, Top, Candidate;
    RegularPositive(pr);
    var builder := new Builder(pr, t, masked);
    StartFacts(pr, builder.proposed, builder.used[..]);
    sub := builder.Extend(0.0, 0.0, 0, 0, Full(pr.gap.count));
    ghost var proposed := Specs(pr.gap, sub);
    assert [] + proposed == proposed;
    SweptIsProper(pr, sub);
    SpecsAreCandidates(pr, sub);
    var candidates := Collect(pr.gap, pr.types, builder.buckets, Online(proposed, t));
    KeptIncomparable(proposed, t, candidates);
    RanksInRange(pr, builder.buckets, Online(proposed, t), candidates);
    var ranking := RankedFilter(candidates, pr.types, t, suffix);
    NothingFiltered(candidates, t);
    var survivors := Survivors(ranking);
    paths := [Described(pr.gap, [], false)] + survivors;
    assert paths[1..] == candidates;
    if 0.0 <= t && (t == 0.0 || Spaced(proposed, t)) {
      ProperOrdered(proposed);
      SpacedTransitive(proposed, t);
    }
    if Transitive(proposed, t) {
      OnlineIsTop(proposed, t);
      TopIsBest(pr, sub, Online(proposed, t), t);
      TopRepresents(pr, sub, Online(proposed, t), candidates, t);
    }
    DirectIsNew(pr, candidates);
  }

  lemma ProperOrdered(all: seq<PathSpec>)
    requires Proper(all)
    ensures Ordered(all)
  {
  }

  lemma StartFacts(pr: Pair, proposed: seq<PathSpec>, used: seq<bool>)
    requires Positive(pr) && proposed == [] && |used| == pr.gap.count && forall i | 0 <= i < |used| :: !used[i]
    ensures Opens(pr, []) && Reach(pr.gap, []) == 0.0 && Carried(pr.gap, [], 0.0, 0, 0) && Fresh(proposed, [])
    ensures Masks(Full(pr.gap.count), used, 0)
  {
    MasksStart(pr.gap.count, used);
  }

  lemma SweptIsProper(pr: Pair, sub: seq<seq<int>>)
    requires Catalog.Regular(pr) && Positive(pr) && Generates(pr, sub)
    ensures Proper(Specs(pr.gap, sub)) && Distinct(Specs(pr.gap, sub))
    ensures forall p: seq<int> :: p in sub <==> Eligible(pr, p)
  {
    hide Described, Eligible, Proposes, InOrder;
    var specs := Specs(pr.gap, sub);
    forall i | 0 <= i < |sub| ensures specs[i].stations == sub[i] && sub[i] != [] && specs[i].fastest <= specs[i].slowest {
      DescribedStations(pr.gap, sub[i], false);
      DescribedOrdered(pr.gap, sub[i]);
      assert Under(Proposed(pr), [], sub[i]);
    }
    forall p ensures p in sub <==> Eligible(pr, p) {
      ProposesExactly(pr, p);
      EligibleIsNonempty(pr, p);
      assert p in sub <==> Under(Proposed(pr), [], p);
    }
  }

  lemma DescribedOrdered(g: Gap, p: seq<int>)
    ensures Described(g, p, false).fastest <= Described(g, p, false).slowest
  {
    RanksOrdered(g, p);
  }

  lemma EligibleIsNonempty(pr: Pair, p: seq<int>)
    requires Positive(pr)
    ensures Eligible(pr, p) ==> p != []
  {
  }

  lemma SpecsAreCandidates(pr: Pair, sub: seq<seq<int>>)
    requires Positive(pr) && (forall p: seq<int> :: p in sub <==> Eligible(pr, p))
    ensures forall p :: p in Specs(pr.gap, sub) <==> Candidate(pr, p)
  {
    hide Described, Eligible;
    var specs := Specs(pr.gap, sub);
    forall p ensures p in specs <==> Candidate(pr, p) {
      if p in specs {
        var i :| 0 <= i < |sub| && specs[i] == p;
        DescribedStations(pr.gap, sub[i], false);
        assert sub[i] in sub;
      }
      if Candidate(pr, p) {
        assert p.stations in sub;
        var i :| 0 <= i < |sub| && sub[i] == p.stations;
        assert specs[i] == p;
      }
    }
  }

  lemma TopRepresents(pr: Pair, sub: seq<seq<int>>, kept: set<PathSpec>, cs: seq<PathSpec>, t: real)
    requires Positive(pr) && (forall p: seq<int> :: p in sub <==> Eligible(pr, p)) && Top(Specs(pr.gap, sub), kept, t)
    requires forall c :: c in cs <==> c in kept
    ensures Represents(pr, cs, t)
  {
    hide Candidate, Beats, Unbeaten, Eligible;
    SpecsAreCandidates(pr, sub);
  }

  lemma TopIsBest(pr: Pair, sub: seq<seq<int>>, kept: set<PathSpec>, t: real)
    requires Positive(pr) && (forall p: seq<int> :: p in sub <==> Eligible(pr, p)) && Top(Specs(pr.gap, sub), kept, t)
    ensures forall p :: p in kept <==> Best(pr, p, t)
  {
    hide Candidate, Eligible, Beats;
    var specs := Specs(pr.gap, sub);
    SpecsAreCandidates(pr, sub);
    forall p ensures p in kept <==> Best(pr, p, t) {
      assert p in kept <==> p in specs && Unbeaten(specs, p, t);
    }
  }

  lemma {:induction false} KeptIncomparable(proposed: seq<PathSpec>, t: real, cs: seq<PathSpec>)
    requires Proper(proposed) && Distinct(proposed) && Distinct(cs) && forall c :: c in cs <==> c in Online(proposed, t)
    ensures Incomparable(cs, t)
  {
    hide Dominates, Online, Proper;
    forall i, j | 0 <= i < |cs| && 0 <= j < |cs| && i != j ensures !Dominates(cs[i], cs[j], t) {
      assert cs[i] in cs && cs[j] in cs;
      KeptAreIncomparable(proposed, t, cs[i], cs[j]);
    }
  }

  lemma RanksInRange(pr: Pair, b: Shelves, kept: set<PathSpec>, cs: seq<PathSpec>)
    requires Shelved(pr.gap, pr.types, b, kept) && forall c :: c in cs <==> c in kept
    ensures forall i | 0 <= i < |cs| :: cs[i].fastest < pr.types && cs[i].slowest < pr.types
    ensures forall i | 0 <= i < |cs| :: cs[i].stations != []
  {
    hide Shelved;
    forall i | 0 <= i < |cs| ensures cs[i].fastest < pr.types && cs[i].slowest < pr.types && cs[i].stations != [] {
      assert cs[i] in cs;
      KeptBelongs(pr.gap, pr.types, b, kept, cs[i]);
    }
  }

  lemma DirectIsNew(pr: Pair, cs: seq<PathSpec>)
    requires Distinct(cs) && forall i | 0 <= i < |cs| :: cs[i].stations != []
    ensures Distinct([Described(pr.gap, [], false)] + cs)
  {
    DescribedStations(pr.gap, [], false);
  }
}
