/** The online dominance filter of the path catalogue (src/search.cpp, `path_catalog`). */
module CatalogOrder {
  import opened Sequences
  import opened PathDominance

  /** Dominance with a lexical tie-break between paths that dominate each other. */
  predicate Beats(a: PathSpec, b: PathSpec, tolerance: real) {
    Dominates(a, b, tolerance) && (!Dominates(b, a, tolerance) || LexLess(a.stations, b.stations))
  }

  /** A proposal is dropped when a kept path beats it; otherwise it pushes out everything it dominates. */
  function OnlineStep(kept: set<PathSpec>, p: PathSpec, tolerance: real): set<PathSpec> {
    if exists k :: k in kept && Beats(k, p, tolerance) then kept
    else (set k | k in kept && !Dominates(p, k, tolerance)) + {p}
  }

  function Online(proposed: seq<PathSpec>, tolerance: real): set<PathSpec> {
    if proposed == [] then {}
    else OnlineStep(Online(proposed[..|proposed| - 1], tolerance), proposed[|proposed| - 1], tolerance)
  }

  // ----- maximal elements -----

  ghost predicate Unbeaten(all: seq<PathSpec>, p: PathSpec, t: real) {
    forall q | q in all :: !Beats(q, p, t)
  }

  /** Station paths with ordered ranks, none of them twice. */
  ghost predicate Proper(all: seq<PathSpec>) {
    && (forall p | p in all :: p.stations != [] && p.fastest <= p.slowest)
    && (forall p, q | p in all && q in all && p.stations == q.stations :: p == q)
  }

  /** No path beats one that beats a third without beating the third. */
  ghost predicate Transitive(all: seq<PathSpec>, t: real) {
    forall a, b, c | a in all && b in all && c in all && Beats(a, b, t) && Beats(b, c, t) :: Beats(a, c, t)
  }

  lemma BeatsTransitive(a: PathSpec, b: PathSpec, c: PathSpec)
    requires a.fastest <= a.slowest && b.fastest <= b.slowest && c.fastest <= c.slowest
    requires Beats(a, b, 0.0) && Beats(b, c, 0.0)
    ensures Beats(a, c, 0.0)
  {
    hide Dominates, LexLess;
    DominatesTransitive(a, b, c);
    if Dominates(c, a, 0.0) {
      DominatesTransitive(b, c, a);
      DominatesTransitive(c, a, b);
      LexTransitive(a.stations, b.stations, c.stations);
    }
  }

  /** Without a tolerance beating is transitive, and with one it is on spaced paths. */
  lemma SpacedTransitive(all: seq<PathSpec>, t: real)
    requires 0.0 <= t && Ordered(all) && (t == 0.0 || Spaced(all, t))
    ensures Transitive(all, t)
  {
    hide Dominates, LexLess, Apart;
    forall a, b, c | a in all && b in all && c in all && Beats(a, b, t) && Beats(b, c, t) ensures Beats(a, c, t) {
      if t > 0.0 {
        ApartBeats(a, b, t);
        ApartBeats(b, c, t);
        ApartBeats(a, c, t);
      }
      BeatsTransitive(a, b, c);
    }
  }

  lemma ApartBeats(p: PathSpec, q: PathSpec, t: real)
    requires 0.0 <= t && Apart(p, q, t) && Apart(q, p, t)
    ensures Beats(p, q, t) <==> Beats(p, q, 0.0)
  {
    hide Dominates, Apart;
    ApartDominates(p, q, t);
    ApartDominates(q, p, t);
  }

  lemma BeatsAsymmetric(a: PathSpec, b: PathSpec, t: real)
    ensures !(Beats(a, b, t) && Beats(b, a, t))
  {
    hide Dominates;
    LexTotal(a.stations, b.stations);
  }

  /** Of two different paths of which one dominates the other one beats the other. */
  lemma DominatesBeats(a: PathSpec, b: PathSpec, t: real)
    requires Dominates(a, b, t) && a.stations != b.stations
    ensures Beats(a, b, t) || Beats(b, a, t)
  {
    hide Dominates;
    LexTotal(a.stations, b.stations);
  }

  lemma BeatsDominates(a: PathSpec, b: PathSpec, t: real)
    ensures Beats(a, b, t) ==> Dominates(a, b, t)
  {
  }

  /** `kept` holds exactly the unbeaten paths, and one of them stands above every other path. */
  ghost predicate Top(all: seq<PathSpec>, kept: set<PathSpec>, t: real) {
    && (forall p :: p in kept <==> p in all && Unbeaten(all, p, t))
    && (forall p | p in all && p !in kept :: exists k :: k in kept && Beats(k, p, t))
  }

  lemma TopStep(all: seq<PathSpec>, kept: set<PathSpec>, p: PathSpec, t: real)
    requires Top(all, kept, t) && Proper(all + [p]) && Transitive(all + [p], t) && p !in all
    ensures Top(all + [p], OnlineStep(kept, p, t), t)
  {
    hide Beats, Dominates;
    if exists k :: k in kept && Beats(k, p, t) {
      TopRejected(all, kept, p, t);
    } else {
      TopAccepted(all, kept, p, t);
    }
  }

  lemma TopRejected(all: seq<PathSpec>, kept: set<PathSpec>, p: PathSpec, t: real)
    requires Top(all, kept, t) && Transitive(all + [p], t) && p !in all
    requires exists k :: k in kept && Beats(k, p, t)
    ensures Top(all + [p], kept, t)
  {
    hide Beats, Dominates;
    var more := all + [p];
    var k :| k in kept && Beats(k, p, t);
    assert k in more && p in more;
    forall x | x in kept ensures Unbeaten(more, x, t) {
      assert Unbeaten(all, x, t);
      assert x in more;
      assert Beats(p, x, t) ==> Beats(k, x, t);
    }
    forall x | x in more && Unbeaten(more, x, t) ensures x in kept {
      assert Unbeaten(all, x, t);
    }
  }

  lemma TopAccepted(all: seq<PathSpec>, kept: set<PathSpec>, p: PathSpec, t: real)
    requires Top(all, kept, t) && Proper(all + [p]) && Transitive(all + [p], t) && p !in all
    requires forall k | k in kept :: !Beats(k, p, t)
    ensures Top(all + [p], (set k | k in kept && !Dominates(p, k, t)) + {p}, t)
  {
    hide Beats, Dominates, Proper, Transitive;
    var more := all + [p];
    var next := (set k | k in kept && !Dominates(p, k, t)) + {p};
    assert p in more;
    forall x | x in more ensures !Beats(x, p, t) {
      if x == p { BeatsAsymmetric(p, p, t); } else { NotBeatenBelow(all, kept, p, x, t); }
    }
    forall x | x in kept ensures x in next <==> !Beats(p, x, t) {
      BeatsDominates(p, x, t);
      if Dominates(p, x, t) {
        assert x in more;
        ProperStations(more, p, x);
        DominatesBeats(p, x, t);
      }
    }
    forall x ensures x in next <==> x in more && Unbeaten(more, x, t) {
      if x in more && x != p {
        assert Unbeaten(more, x, t) <==> Unbeaten(all, x, t) && !Beats(p, x, t);
      }
    }
    forall x | x in more && x !in next ensures exists k :: k in next && Beats(k, x, t) {
      if x in kept {
        assert p in next && Beats(p, x, t);
      } else {
        var k :| k in kept && Beats(k, x, t);
        if k !in next {
          BeatsOn(more, p, k, x, t);
          assert p in next;
        }
      }
    }
  }

  lemma ProperStations(all: seq<PathSpec>, p: PathSpec, q: PathSpec)
    requires Proper(all) && p in all && q in all && p != q
    ensures p.stations != q.stations
  {
  }

  lemma BeatsOn(all: seq<PathSpec>, a: PathSpec, b: PathSpec, c: PathSpec, t: real)
    requires Transitive(all, t) && a in all && b in all && c in all && Beats(a, b, t) && Beats(b, c, t)
    ensures Beats(a, c, t)
  {
    hide Beats;
  }

  /** What no kept path beats, no path at all beats. */
  lemma NotBeatenBelow(all: seq<PathSpec>, kept: set<PathSpec>, p: PathSpec, x: PathSpec, t: real)
    requires Top(all, kept, t) && Transitive(all + [p], t) && x in all
    requires forall k | k in kept :: !Beats(k, p, t)
    ensures !Beats(x, p, t)
  {
    hide Beats, Transitive;
    if x !in kept && Beats(x, p, t) {
      var k :| k in kept && Beats(k, x, t);
      BeatsOn(all + [p], k, x, p, t);
    }
  }

  /** Where beating is transitive the online filter ends with exactly the unbeaten proposals. */
  lemma {:induction false} OnlineIsTop(proposed: seq<PathSpec>, t: real)
    requires Proper(proposed) && Distinct(proposed) && Transitive(proposed, t)
    ensures Top(proposed, Online(proposed, t), t)
  {
    hide Beats, Dominates, OnlineStep;
    if proposed != [] {
      var n := |proposed| - 1;
      assert proposed == proposed[..n] + [proposed[n]];
      DistinctNext(proposed[..n], proposed[n]);
      ProperPrefix(proposed, n, t);
      OnlineIsTop(proposed[..n], t);
      TopStep(proposed[..n], Online(proposed[..n], t), proposed[n], t);
    }
  }

  lemma ProperPrefix(all: seq<PathSpec>, n: nat, t: real)
    requires n <= |all| && Proper(all) && Transitive(all, t)
    ensures Proper(all[..n]) && Transitive(all[..n], t)
  {
    hide Beats;
  }

  /** And whatever the order of the proposals, the same paths are kept. */
  lemma {:induction false} OrderDoesNotMatter(a: seq<PathSpec>, b: seq<PathSpec>, t: real)
    requires Proper(a) && Transitive(a, t) && Distinct(a) && Distinct(b) && (forall p :: p in a <==> p in b)
    ensures Online(a, t) == Online(b, t)
  {
    hide Beats, Dominates, Online;
    OnlineIsTop(a, t);
    OnlineIsTop(b, t);
    forall p ensures p in Online(a, t) <==> p in Online(b, t) {
      assert Unbeaten(a, p, t) <==> Unbeaten(b, p, t);
    }
  }

  // ----- in any case -----

  lemma {:induction false} OnlineNext(proposed: seq<PathSpec>, p: PathSpec, t: real)
    ensures Online([], t) == {}
    ensures Online(proposed + [p], t) == OnlineStep(Online(proposed, t), p, t)
  {
    assert (proposed + [p])[..|proposed|] == proposed;
  }

  /** No kept path dominates another one, whatever the tolerance and the order. */
  lemma {:induction false} KeptAreIncomparable(proposed: seq<PathSpec>, t: real, a: PathSpec, b: PathSpec)
    requires Proper(proposed) && Distinct(proposed)
    requires a in Online(proposed, t) && b in Online(proposed, t) && a != b
    ensures a in proposed && b in proposed && !Dominates(a, b, t)
  {
    hide Beats, Dominates, Online;
    if proposed == [] {
      OnlineNext([], a, t);
    } else {
      var n := |proposed| - 1;
      var before, p := proposed[..n], proposed[n];
      assert proposed == before + [p];
      OnlineNext(before, p, t);
      DistinctNext(before, p);
      assert Proper(before);
      var kept := Online(before, t);
      if a in kept && b in kept {
        KeptAreIncomparable(before, t, a, b);
      } else {
        var k := if a == p then b else a;
        OnlineFrom(before, t);
        assert k in proposed && p in proposed;
        ProperStations(proposed, k, p);
        if Dominates(k, p, t) { DominatesBeats(k, p, t); BeatsDominates(p, k, t); }
      }
    }
  }

  lemma {:induction false} OnlineFrom(proposed: seq<PathSpec>, t: real)
    ensures forall k | k in Online(proposed, t) :: k in proposed
  {
    hide Beats, Dominates;
    if proposed != [] { OnlineFrom(proposed[..|proposed| - 1], t); }
  }

  // ----- how far transitivity is needed -----

  ghost predicate SamePaths(a: seq<PathSpec>, b: seq<PathSpec>) {
    forall p :: p in a <==> p in b
  }

  /** The order of the proposals never matters, for any choice of some paths, exactly when beating is transitive on
      them. */
  lemma {:induction false} OrderIndependenceExactly(paths: seq<PathSpec>, t: real)
    requires Proper(paths)
    ensures Transitive(paths, t) <==>
      forall a, b | Drawn(a, paths) && Distinct(a) && Distinct(b) && SamePaths(a, b) :: Online(a, t) == Online(b, t)
  {
    hide Beats, Dominates, Online, Distinct;
    if Transitive(paths, t) {
      forall a, b | Drawn(a, paths) && Distinct(a) && Distinct(b) && SamePaths(a, b) ensures Online(a, t) == Online(b, t) {
        assert Proper(a) && Transitive(a, t);
        OrderDoesNotMatter(a, b, t);
      }
    } else {
      var a, b, c :| a in paths && b in paths && c in paths && Beats(a, b, t) && Beats(b, c, t) && !Beats(a, c, t);
      TwoOrders(a, b, c, paths, t);
      assert Drawn([c, b, a], paths) && SamePaths([c, b, a], [c, a, b]);
    }
  }

  /** One order ends with the first path alone, the other one does not. */
  lemma {:induction false} TwoOrders(a: PathSpec, b: PathSpec, c: PathSpec, paths: seq<PathSpec>, t: real)
    requires Proper(paths) && a in paths && b in paths && c in paths
    requires Beats(a, b, t) && Beats(b, c, t) && !Beats(a, c, t)
    ensures Distinct([c, b, a]) && Distinct([c, a, b])
    ensures Online([c, b, a], t) == {a} && Online([c, a, b], t) != {a}
  {
    hide Beats, Dominates, Online;
    BeatsAsymmetric(a, a, t);
    BeatsAsymmetric(b, b, t);
    BeatsAsymmetric(a, b, t);
    BeatsAsymmetric(b, c, t);
    BeatsDominates(a, b, t);
    BeatsDominates(b, c, t);
    ProperStations(paths, a, c);
    OnlineThree(c, b, a, t);
    OnlineThree(c, a, b, t);
    OnlineStepTo({c}, c, b, t);
    OnlineStepTo({b}, b, a, t);
    if Beats(c, a, t) {
      OnlineStepTo({c}, c, b, t);
    } else {
      if Dominates(a, c, t) { DominatesBeats(a, c, t); }
      var two := OnlineStep({c}, a, t);
      assert c in two && a in two;
      assert OnlineStep(two, b, t) == two;
    }
  }

  lemma {:induction false} OnlineThree(x: PathSpec, y: PathSpec, z: PathSpec, t: real)
    ensures Online([x, y, z], t) == OnlineStep(OnlineStep({x}, y, t), z, t)
  {
    hide Beats, Dominates, Online;
    OnlineNext([], x, t);
    OnlineNext([x], y, t);
    OnlineNext([x, y], z, t);
    assert [] + [x] == [x] && [x] + [y] == [x, y] && [x, y] + [z] == [x, y, z];
  }

  /** A proposal that dominates the one kept path, unbeaten, replaces it. */
  lemma OnlineStepTo(kept: set<PathSpec>, k: PathSpec, p: PathSpec, t: real)
    requires kept == {k} && !Beats(k, p, t) && Dominates(p, k, t)
    ensures OnlineStep(kept, p, t) == {p}
  {
    hide Beats, Dominates;
  }
}
