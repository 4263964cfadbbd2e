/** Buckets of catalogue paths by curve ranks and first station (src/search.cpp, `path_catalog`). */
module CatalogShelves {
  import opened Sequences
  import opened PathDistances
  import opened PathDominance
  import opened CatalogOrder

  /** Fastest rank, slowest rank, first station. */
  type Shelves = map<(nat, nat, nat), seq<PathSpec>>

  function At(b: Shelves, fast: nat, slow: nat, group: nat): seq<PathSpec> {
    if (fast, slow, group) in b then b[(fast, slow, group)] else []
  }

  /** A path stands in the bucket of its ranks and first station. */
  ghost predicate Belongs(g: Gap, types: nat, k: PathSpec, fast: nat, slow: nat, group: nat) {
    && !k.required && k.fastest == fast && k.slowest == slow && fast <= slow < types
    && k.stations != [] && k.stations[0] == group && group < g.count
    && k.firstLeg == g.travel(g.origin, group)
  }

  ghost predicate Tidy(g: Gap, types: nat, b: Shelves) {
    forall fast, slow, group ::
      Distinct(At(b, fast, slow, group)) &&
      forall k | k in At(b, fast, slow, group) :: Belongs(g, types, k, fast, slow, group)
  }

  ghost predicate OnShelf(b: Shelves, k: PathSpec) {
    k.stations != [] && k.stations[0] >= 0 && k in At(b, k.fastest, k.slowest, k.stations[0])
  }

  /** The buckets hold exactly the kept paths. */
  ghost predicate Shelved(g: Gap, types: nat, b: Shelves, kept: set<PathSpec>) {
    Tidy(g, types, b) && forall k :: k in kept <==> OnShelf(b, k)
  }

  lemma InBucket(g: Gap, types: nat, b: Shelves, kept: set<PathSpec>, k: PathSpec, fast: nat, slow: nat, group: nat)
    requires Shelved(g, types, b, kept) && k in At(b, fast, slow, group)
    ensures k in kept && Belongs(g, types, k, fast, slow, group)
  {
  }

  lemma OwnBucket(g: Gap, types: nat, b: Shelves, kept: set<PathSpec>, k: PathSpec)
    requires Shelved(g, types, b, kept) && k in kept
    ensures k.stations != [] && k.stations[0] >= 0
    ensures k in At(b, k.fastest, k.slowest, k.stations[0])
    ensures Belongs(g, types, k, k.fastest, k.slowest, k.stations[0])
  {
    assert OnShelf(b, k);
  }

  // ----- scanning -----

  ghost predicate BeatenFrom(kept: set<PathSpec>, p: PathSpec, tolerance: real, fast: nat, slow: nat) {
    exists k :: k in kept && k.fastest == fast && k.slowest == slow && Beats(k, p, tolerance)
  }

  method BucketBeats(bucket: seq<PathSpec>, p: PathSpec, tolerance: real) returns (r: bool)
    ensures r <==> exists k :: k in bucket && Beats(k, p, tolerance)
  {
    hide Beats;
    for i := 0 to |bucket|
      invariant forall j | 0 <= j < i :: !Beats(bucket[j], p, tolerance)
    {
      if Beats(bucket[i], p, tolerance) { return true; }
    }
    return false;
  }

  /** One pair of ranks; groups whose first leg is too long for dominance are not opened. */
  method RowBeats(g: Gap, types: nat, b: Shelves, ghost kept: set<PathSpec>, p: PathSpec, tolerance: real,
                  fast: nat, slow: nat) returns (r: bool)
    requires Shelved(g, types, b, kept)
    ensures r <==> BeatenFrom(kept, p, tolerance, fast, slow)
  {
    hide Shelved, Dominates;
    for group := 0 to g.count
      invariant forall k | k in kept && k.fastest == fast && k.slowest == slow && Beats(k, p, tolerance) ::
        k.stations == [] || k.stations[0] < 0 || k.stations[0] >= group
    {
      if g.travel(g.origin, group) <= p.firstLeg + tolerance {
        var beaten := BucketBeats(At(b, fast, slow, group), p, tolerance);
        if beaten {
          var k :| k in At(b, fast, slow, group) && Beats(k, p, tolerance);
          InBucket(g, types, b, kept, k, fast, slow, group);
          return true;
        }
      }
      forall k | k in kept && k.fastest == fast && k.slowest == slow && Beats(k, p, tolerance)
        ensures k.stations == [] || k.stations[0] < 0 || k.stations[0] >= group + 1
      {
        OwnBucket(g, types, b, kept, k);
        FirstLegTest(k, p, tolerance);
      }
    }
    forall k | k in kept && k.fastest == fast && k.slowest == slow ensures !Beats(k, p, tolerance) {
      OwnBucket(g, types, b, kept, k);
    }
    return false;
  }

  lemma FirstLegTest(k: PathSpec, p: PathSpec, tolerance: real)
    requires Beats(k, p, tolerance)
    ensures k.firstLeg <= p.firstLeg + tolerance && k.slowest <= p.fastest
  {
  }

  /** Only buckets whose slowest rank is no slower than the proposal's fastest are scanned. */
  method Rejected(g: Gap, types: nat, b: Shelves, ghost kept: set<PathSpec>, p: PathSpec, tolerance: real)
      returns (r: bool)
    requires Shelved(g, types, b, kept)
    ensures r <==> exists k :: k in kept && Beats(k, p, tolerance)
  {
    hide Shelved, Beats;
    for slow := 0 to p.fastest + 1
      invariant forall k | k in kept && Beats(k, p, tolerance) :: k.slowest >= slow
    {
      for fast := 0 to slow + 1
        invariant forall k | k in kept && Beats(k, p, tolerance) :: k.slowest > slow || (k.slowest == slow && k.fastest >= fast)
      {
        var beaten := RowBeats(g, types, b, kept, p, tolerance, fast, slow);
        if beaten { return true; }
        forall k | k in kept && Beats(k, p, tolerance)
          ensures k.slowest > slow || (k.slowest == slow && k.fastest >= fast + 1)
        {
          assert !BeatenFrom(kept, p, tolerance, fast, slow);
        }
      }
      forall k | k in kept && Beats(k, p, tolerance) ensures k.slowest >= slow + 1 {
        OwnBucket(g, types, b, kept, k);
      }
    }
    forall k | k in kept ensures !Beats(k, p, tolerance) {
      if Beats(k, p, tolerance) { FirstLegTest(k, p, tolerance); }
    }
    return false;
  }

  // ----- erasing -----

  lemma {:induction false} NothingDominated(bucket: seq<PathSpec>, p: PathSpec, tolerance: real)
    requires forall k | k in bucket :: !Dominates(p, k, tolerance)
    ensures Undominated(bucket, p, tolerance) == bucket
  {
    hide Dominates;
    if bucket != [] {
      NothingDominated(bucket[..|bucket| - 1], p, tolerance);
      assert bucket == bucket[..|bucket| - 1] + [bucket[|bucket| - 1]];
    }
  }

  /** Every bucket of `b` is the one of `a` without what `p` dominates. */
  ghost predicate ErasedAt(a: Shelves, b: Shelves, p: PathSpec, tolerance: real, fast: nat, slow: nat, group: nat) {
    At(b, fast, slow, group) == Undominated(At(a, fast, slow, group), p, tolerance)
  }

  ghost predicate Same(a: Shelves, b: Shelves, fast: nat, slow: nat, group: nat) {
    At(b, fast, slow, group) == At(a, fast, slow, group)
  }

  lemma SkippedBucket(g: Gap, types: nat, a: Shelves, b: Shelves, p: PathSpec, tolerance: real, fast: nat, slow: nat, group: nat)
    requires Tidy(g, types, a) && Same(a, b, fast, slow, group)
    requires group >= g.count || !(p.firstLeg <= g.travel(g.origin, group) + tolerance) || fast < p.slowest
             || slow < fast || types <= slow
    ensures ErasedAt(a, b, p, tolerance, fast, slow, group)
  {
    forall k | k in At(a, fast, slow, group) ensures !Dominates(p, k, tolerance) {
      assert Belongs(g, types, k, fast, slow, group);
    }
    NothingDominated(At(a, fast, slow, group), p, tolerance);
  }

  ghost predicate RowErased(a: Shelves, b: Shelves, p: PathSpec, tolerance: real, fast: nat, slow: nat) {
    forall group: nat :: ErasedAt(a, b, p, tolerance, fast, slow, group)
  }

  ghost predicate RowSame(a: Shelves, b: Shelves, fast: nat, slow: nat) {
    forall group: nat :: Same(a, b, fast, slow, group)
  }

  /** One pair of ranks; groups whose first leg is too short to be dominated are not opened. */
  method EraseRow(g: Gap, types: nat, a: Shelves, p: PathSpec, tolerance: real, fast: nat, slow: nat) returns (b: Shelves)
    requires Tidy(g, types, a)
    ensures RowErased(a, b, p, tolerance, fast, slow)
    ensures forall f: nat, s: nat | f != fast || s != slow :: RowSame(a, b, f, s)
  {
    hide Tidy, Undominated;
    b := a;
    for group := 0 to g.count
      invariant forall h: nat | h < group :: ErasedAt(a, b, p, tolerance, fast, slow, h)
      invariant forall h: nat | group <= h :: Same(a, b, fast, slow, h)
      invariant forall f: nat, s: nat, h: nat | f != fast || s != slow :: Same(a, b, f, s, h)
    {
      if p.firstLeg <= g.travel(g.origin, group) + tolerance {
        ghost var c := b;
        b := b[(fast, slow, group) := Undominated(At(b, fast, slow, group), p, tolerance)];
        forall f: nat, s: nat, h: nat ensures
          if f == fast && s == slow && h == group then At(b, f, s, h) == Undominated(At(c, f, s, h), p, tolerance)
          else Same(c, b, f, s, h)
        {
          OneBucket(c, b, p, tolerance, fast, slow, group, f, s, h);
        }
        forall h: nat | h < group + 1 ensures ErasedAt(a, b, p, tolerance, fast, slow, h) {
          if h < group { assert ErasedAt(a, c, p, tolerance, fast, slow, h) && Same(c, b, fast, slow, h); }
          else { assert Same(a, c, fast, slow, h); }
        }
        forall h: nat | group + 1 <= h ensures Same(a, b, fast, slow, h) {
          assert Same(a, c, fast, slow, h) && Same(c, b, fast, slow, h);
        }
        forall f: nat, s: nat, h: nat | f != fast || s != slow ensures Same(a, b, f, s, h) {
          assert Same(a, c, f, s, h) && Same(c, b, f, s, h);
        }
      } else {
        SkippedBucket(g, types, a, b, p, tolerance, fast, slow, group);
      }
    }
    forall h: nat | g.count <= h ensures ErasedAt(a, b, p, tolerance, fast, slow, h) {
      assert Same(a, b, fast, slow, h);
      SkippedBucket(g, types, a, b, p, tolerance, fast, slow, h);
    }
  }

  lemma {:induction false} OneBucket(c: Shelves, b: Shelves, p: PathSpec, tolerance: real,
                  fast: nat, slow: nat, group: nat, f: nat, s: nat, h: nat)
    requires b == c[(fast, slow, group) := Undominated(At(c, fast, slow, group), p, tolerance)]
    ensures if f == fast && s == slow && h == group then At(b, f, s, h) == Undominated(At(c, f, s, h), p, tolerance)
            else Same(c, b, f, s, h)
  {
  }

  lemma SkippedRow(g: Gap, types: nat, a: Shelves, b: Shelves, p: PathSpec, tolerance: real, fast: nat, slow: nat)
    requires Tidy(g, types, a) && RowSame(a, b, fast, slow)
    requires fast < p.slowest || slow < fast || types <= slow
    ensures RowErased(a, b, p, tolerance, fast, slow)
  {
    hide Tidy;
    forall group: nat ensures ErasedAt(a, b, p, tolerance, fast, slow, group) {
      assert Same(a, b, fast, slow, group);
      SkippedBucket(g, types, a, b, p, tolerance, fast, slow, group);
    }
  }

  lemma RowErasedThen(a: Shelves, b: Shelves, c: Shelves, p: PathSpec, tolerance: real, fast: nat, slow: nat)
    requires (RowErased(a, b, p, tolerance, fast, slow) && RowSame(b, c, fast, slow))
          || (RowSame(a, b, fast, slow) && RowErased(b, c, p, tolerance, fast, slow))
    ensures RowErased(a, c, p, tolerance, fast, slow)
  {
    forall group: nat ensures ErasedAt(a, c, p, tolerance, fast, slow, group) {
      assert (ErasedAt(a, b, p, tolerance, fast, slow, group) && Same(b, c, fast, slow, group))
          || (Same(a, b, fast, slow, group) && ErasedAt(b, c, p, tolerance, fast, slow, group));
    }
  }

  /** Only buckets whose fastest rank is no faster than the proposal's slowest are opened. */
  method EraseDominated(g: Gap, types: nat, a: Shelves, p: PathSpec, tolerance: real) returns (b: Shelves)
    requires Tidy(g, types, a)
    ensures forall f: nat, s: nat :: RowErased(a, b, p, tolerance, f, s)
  {
    hide Tidy, RowErased, RowSame;
    b := a;
    NothingErased(a);
    for fast := p.slowest to Larger(p.slowest, types)
      invariant Tidy(g, types, b)
      invariant forall f: nat, s: nat | p.slowest <= f < fast :: RowErased(a, b, p, tolerance, f, s)
      invariant forall f: nat, s: nat | f < p.slowest || fast <= f :: RowSame(a, b, f, s)
    {
      b := EraseColumn(g, types, a, b, p, tolerance, fast);
    }
    forall f: nat, s: nat ensures RowErased(a, b, p, tolerance, f, s) {
      if f < p.slowest || types <= f { SkippedRow(g, types, a, b, p, tolerance, f, s); }
    }
  }

  function Larger(a: nat, b: nat): nat {
    if a < b then b else a
  }

  method EraseColumn(g: Gap, types: nat, ghost a: Shelves, start: Shelves, p: PathSpec, tolerance: real, fast: nat)
      returns (b: Shelves)
    requires Tidy(g, types, a) && Tidy(g, types, start) && p.slowest <= fast < types
    requires forall f: nat, s: nat | p.slowest <= f < fast :: RowErased(a, start, p, tolerance, f, s)
    requires forall f: nat, s: nat | f < p.slowest || fast <= f :: RowSame(a, start, f, s)
    ensures Tidy(g, types, b)
    ensures forall f: nat, s: nat | p.slowest <= f < fast + 1 :: RowErased(a, b, p, tolerance, f, s)
    ensures forall f: nat, s: nat | f < p.slowest || fast + 1 <= f :: RowSame(a, b, f, s)
  {
    hide Tidy, RowErased, RowSame;
    b := start;
    for slow := fast to types
      invariant Tidy(g, types, b)
      invariant forall f: nat, s: nat | p.slowest <= f && (f < fast || (f == fast && fast <= s < slow)) :: RowErased(a, b, p, tolerance, f, s)
      invariant forall f: nat, s: nat | f < p.slowest || fast < f || (f == fast && (s < fast || slow <= s)) :: RowSame(a, b, f, s)
    {
      ghost var c := b;
      b := EraseRow(g, types, b, p, tolerance, fast, slow);
      ErasedTidy(g, types, c, b, p, tolerance, fast, slow);
      forall f: nat, s: nat | p.slowest <= f && (f < fast || (f == fast && fast <= s < slow + 1))
        ensures RowErased(a, b, p, tolerance, f, s)
      {
        RowErasedThen(a, c, b, p, tolerance, f, s);
      }
      forall f: nat, s: nat | f < p.slowest || fast < f || (f == fast && (s < fast || slow + 1 <= s))
        ensures RowSame(a, b, f, s)
      {
        RowSameThen(a, c, b, f, s);
      }
    }
    forall s: nat ensures RowErased(a, b, p, tolerance, fast, s) {
      if s < fast || types <= s { SkippedRow(g, types, a, b, p, tolerance, fast, s); }
    }
  }

  lemma NothingErased(a: Shelves)
    ensures forall f: nat, s: nat :: RowSame(a, a, f, s)
  {
  }

  lemma RowSameThen(a: Shelves, b: Shelves, c: Shelves, fast: nat, slow: nat)
    requires RowSame(a, b, fast, slow) && RowSame(b, c, fast, slow)
    ensures RowSame(a, c, fast, slow)
  {
    forall group: nat ensures Same(a, c, fast, slow, group) {
      assert Same(a, b, fast, slow, group) && Same(b, c, fast, slow, group);
    }
  }

  lemma {:induction false} UndominatedOnce(bucket: seq<PathSpec>, p: PathSpec, tolerance: real)
    requires Distinct(bucket)
    ensures Distinct(Undominated(bucket, p, tolerance))
  {
    hide Dominates;
    if bucket != [] {
      var n := |bucket| - 1;
      UndominatedOnce(bucket[..n], p, tolerance);
      assert bucket == bucket[..n] + [bucket[n]];
      DistinctNext(bucket[..n], bucket[n]);
      DistinctNext(Undominated(bucket[..n], p, tolerance), bucket[n]);
      assert Undominated(bucket[..n], p, tolerance) + [] == Undominated(bucket[..n], p, tolerance);
    }
  }

  lemma ErasedTidy(g: Gap, types: nat, a: Shelves, b: Shelves, p: PathSpec, tolerance: real, fast: nat, slow: nat)
    requires Tidy(g, types, a) && RowErased(a, b, p, tolerance, fast, slow)
    requires forall f: nat, s: nat | f != fast || s != slow :: RowSame(a, b, f, s)
    ensures Tidy(g, types, b)
  {
    hide Belongs, Undominated;
    forall f: nat, s: nat, h: nat
      ensures Distinct(At(b, f, s, h)) && forall k | k in At(b, f, s, h) :: Belongs(g, types, k, f, s, h)
    {
      if f == fast && s == slow {
        assert ErasedAt(a, b, p, tolerance, f, s, h);
        UndominatedOnce(At(a, f, s, h), p, tolerance);
      } else {
        assert RowSame(a, b, f, s) && Same(a, b, f, s, h);
      }
    }
  }

  /** Erasing every row leaves exactly the kept paths that are not dominated. */
  lemma ErasedShelves(g: Gap, types: nat, a: Shelves, b: Shelves, kept: set<PathSpec>, p: PathSpec, tolerance: real)
    requires Shelved(g, types, a, kept)
    requires forall f: nat, s: nat :: RowErased(a, b, p, tolerance, f, s)
    ensures Shelved(g, types, b, set k | k in kept && !Dominates(p, k, tolerance))
  {
    hide Undominated, Dominates, Distinct;
    forall f: nat, s: nat, h: nat
      ensures Distinct(At(b, f, s, h)) && forall k | k in At(b, f, s, h) :: Belongs(g, types, k, f, s, h)
    {
      assert RowErased(a, b, p, tolerance, f, s) && ErasedAt(a, b, p, tolerance, f, s, h);
      UndominatedOnce(At(a, f, s, h), p, tolerance);
    }
    forall k ensures OnShelf(b, k) <==> k in kept && !Dominates(p, k, tolerance) {
      if k.stations != [] && k.stations[0] >= 0 {
        assert RowErased(a, b, p, tolerance, k.fastest, k.slowest);
        assert ErasedAt(a, b, p, tolerance, k.fastest, k.slowest, k.stations[0]);
      }
    }
  }

  /** Put a path that is not yet kept in its bucket. */
  method Shelve(g: Gap, types: nat, a: Shelves, ghost kept: set<PathSpec>, p: PathSpec) returns (b: Shelves)
    requires Shelved(g, types, a, kept) && p !in kept
    requires p.stations != [] && p.stations[0] >= 0 && Belongs(g, types, p, p.fastest, p.slowest, p.stations[0])
    ensures Shelved(g, types, b, kept + {p})
  {
    var group := p.stations[0];
    var bucket := At(a, p.fastest, p.slowest, group);
    b := a[(p.fastest, p.slowest, group) := bucket + [p]];
    ShelvedOne(g, types, a, b, kept, p);
  }

  lemma ShelvedOne(g: Gap, types: nat, a: Shelves, b: Shelves, kept: set<PathSpec>, p: PathSpec)
    requires Shelved(g, types, a, kept) && p !in kept
    requires p.stations != [] && p.stations[0] >= 0 && Belongs(g, types, p, p.fastest, p.slowest, p.stations[0])
    requires b == a[(p.fastest, p.slowest, p.stations[0]) := At(a, p.fastest, p.slowest, p.stations[0]) + [p]]
    ensures Shelved(g, types, b, kept + {p})
  {
    hide Belongs;
    assert !OnShelf(a, p);
    DistinctNext(At(a, p.fastest, p.slowest, p.stations[0]), p);
    forall f: nat, s: nat, h: nat
      ensures Distinct(At(b, f, s, h)) && forall k | k in At(b, f, s, h) :: Belongs(g, types, k, f, s, h)
    {
      assert Distinct(At(a, f, s, h)) && forall k | k in At(a, f, s, h) :: Belongs(g, types, k, f, s, h);
    }
    forall k ensures OnShelf(b, k) <==> k in kept || k == p {
      assert k in kept <==> OnShelf(a, k);
    }
  }
}
