/** What a depth-first enumeration of sequences has collected so far. */
module PathTrees {
  import opened Sequences

  /** A wanted sequence that goes on from `path`. */
  ghost predicate Under(wanted: seq<int> -> bool, path: seq<int>, q: seq<int>) {
    |path| < |q| && q[..|path|] == path && wanted(q)
  }

  /** A wanted sequence that goes on from `path` with one of the elements tried so far. */
  ghost predicate Branch(wanted: seq<int> -> bool, path: seq<int>, tried: seq<int>, q: seq<int>) {
    Under(wanted, path, q) && q[|path|] in tried
  }

  /** Says, for a sequence and two elements that may follow it, that the first is tried before the second. */
  type Order = (seq<int>, int, int) -> bool

  /** A depth-first search meets `p` before `q`: they part after `n` elements, where `p` ends or goes on first. */
  ghost predicate ComesAt(order: Order, p: seq<int>, q: seq<int>, n: nat) {
    n <= |p| && n < |q| && p[..n] == q[..n] && (n == |p| || order(p[..n], p[n], q[n]))
  }

  ghost predicate Comes(order: Order, p: seq<int>, q: seq<int>) {
    exists n: nat :: ComesAt(order, p, q, n)
  }

  ghost predicate InOrder(order: Order, sub: seq<seq<int>>) {
    forall i, j | 0 <= i < j < |sub| :: Comes(order, sub[i], sub[j])
  }

  ghost predicate AllBefore(order: Order, path: seq<int>, tried: seq<int>, x: int) {
    forall y | y in tried :: order(path, y, x)
  }

  /** `sub` lists every wanted sequence below `path` once, depth first, and nothing else. */
  ghost predicate Swept(order: Order, wanted: seq<int> -> bool, path: seq<int>, sub: seq<seq<int>>) {
    Distinct(sub) && InOrder(order, sub) && forall q :: q in sub <==> Under(wanted, path, q)
  }

  ghost predicate Tried(order: Order, wanted: seq<int> -> bool, path: seq<int>, tried: seq<int>, sub: seq<seq<int>>) {
    Distinct(sub) && InOrder(order, sub) && forall q :: q in sub <==> Branch(wanted, path, tried, q)
  }

  lemma TriedNone(order: Order, wanted: seq<int> -> bool, path: seq<int>)
    ensures Tried(order, wanted, path, [], [])
  {
  }

  /** An element after which nothing is wanted leaves nothing below it. */
  lemma TriedSkip(order: Order, wanted: seq<int> -> bool, path: seq<int>, tried: seq<int>, x: int, sub: seq<seq<int>>)
    requires Tried(order, wanted, path, tried, sub)
    requires forall q | path + [x] <= q :: !wanted(q)
    ensures Tried(order, wanted, path, tried + [x], sub)
  {
    hide InOrder;
    forall q ensures Branch(wanted, path, tried + [x], q) <==> Branch(wanted, path, tried, q) {
      GoesOn(path, q);
    }
  }

  lemma GoesOn(path: seq<int>, q: seq<int>)
    ensures |path| < |q| && q[..|path|] == path ==> path + [q[|path|]] <= q
  {
  }

  /** Below `path + [x]`: the sequence itself if it is wanted, and everything the deeper call sweeps. */
  lemma TriedNext(order: Order, wanted: seq<int> -> bool, path: seq<int>, tried: seq<int>, x: int,
                  sub: seq<seq<int>>, own: seq<seq<int>>, deeper: seq<seq<int>>)
    requires Tried(order, wanted, path, tried, sub) && x !in tried && AllBefore(order, path, tried, x)
    requires own == if wanted(path + [x]) then [path + [x]] else []
    requires Swept(order, wanted, path + [x], deeper)
    ensures Tried(order, wanted, path, tried + [x], sub + own + deeper)
  {
    hide InOrder;
    var all, longer := sub + own + deeper, path + [x];
    forall q ensures q in all <==> Branch(wanted, path, tried + [x], q) {
      NextBranch(wanted, path, tried, x, q);
      assert q in all <==> q in sub || q in own || q in deeper;
    }
    forall i | 0 <= i < |sub| ensures |sub[i]| > |path| && sub[i][|path|] in tried && sub[i][..|path|] == path {
      assert sub[i] in sub && Branch(wanted, path, tried, sub[i]);
    }
    forall i | 0 <= i < |deeper| ensures |deeper[i]| > |longer| && deeper[i][..|longer|] == longer {
      assert deeper[i] in deeper && Under(wanted, longer, deeper[i]);
    }
    OrderNext(order, path, tried, x, sub, own, deeper);
    forall i | 0 <= i < |deeper| ensures deeper[i][|path|] == x {
      assert deeper[i][|path|] == deeper[i][..|longer|][|path|];
    }
  }

  /** What went on earlier comes first, then the sequence itself, then everything below it. */
  lemma OrderNext(order: Order, path: seq<int>, tried: seq<int>, x: int,
                  sub: seq<seq<int>>, own: seq<seq<int>>, deeper: seq<seq<int>>)
    requires InOrder(order, sub) && InOrder(order, deeper) && AllBefore(order, path, tried, x)
    requires own == [path + [x]] || own == []
    requires forall i | 0 <= i < |sub| :: |sub[i]| > |path| && sub[i][|path|] in tried && sub[i][..|path|] == path
    requires forall i | 0 <= i < |deeper| :: |deeper[i]| > |path| + 1 && deeper[i][..|path| + 1] == path + [x]
    ensures InOrder(order, sub + own + deeper)
  {
    hide Comes;
    var all, longer := sub + own + deeper, path + [x];
    forall i, j | 0 <= i < j < |all| ensures Comes(order, all[i], all[j]) {
      if i < |sub| <= j {
        assert all[j][..|path| + 1] == longer;
        ComesAside(order, path, tried, x, all[i], all[j]);
      } else if |sub| <= i < |sub| + |own| {
        ComesBelow(order, longer, all[j]);
      } else if |sub| + |own| <= i {
        assert all[i] == deeper[i - |sub| - |own|] && all[j] == deeper[j - |sub| - |own|];
      }
    }
  }

  lemma ComesAside(order: Order, path: seq<int>, tried: seq<int>, x: int, p: seq<int>, q: seq<int>)
    requires |p| > |path| && p[|path|] in tried && p[..|path|] == path && AllBefore(order, path, tried, x)
    requires |q| > |path| && q[..|path| + 1] == path + [x]
    ensures Comes(order, p, q)
  {
    assert q[..|path|] == q[..|path| + 1][..|path|] == path;
    assert q[|path|] == q[..|path| + 1][|path|] == x;
    var y := p[|path|];
    assert y in tried;
    assert order(path, y, x);
    assert ComesAt(order, p, q, |path|);
  }

  lemma ComesBelow(order: Order, p: seq<int>, q: seq<int>)
    requires |q| > |p| && q[..|p|] == p
    ensures Comes(order, p, q)
  {
    assert p[..|p|] == p;
    assert ComesAt(order, p, q, |p|);
  }

  lemma NextBranch(wanted: seq<int> -> bool, path: seq<int>, tried: seq<int>, x: int, q: seq<int>)
    requires x !in tried
    ensures Branch(wanted, path, tried + [x], q) <==>
      Branch(wanted, path, tried, q) || (q == path + [x] && wanted(q)) || Under(wanted, path + [x], q)
  {
    var longer := path + [x];
    if Branch(wanted, path, tried + [x], q) && q[|path|] == x {
      assert q[..|path| + 1] == longer;
      assert |q| == |longer| ==> q == longer;
    }
    if Under(wanted, longer, q) {
      assert q[..|path|] == q[..|longer|][..|path|];
      assert q[|path|] == q[..|longer|][|path|];
    }
  }

  /** Once every element that may follow was tried, everything below `path` is swept. */
  lemma TriedAll(order: Order, wanted: seq<int> -> bool, path: seq<int>, tried: seq<int>, sub: seq<seq<int>>)
    requires Tried(order, wanted, path, tried, sub)
    requires forall q | Under(wanted, path, q) :: q[|path|] in tried
    ensures Swept(order, wanted, path, sub)
  {
    hide InOrder;
    forall q ensures q in sub <==> Under(wanted, path, q) {
      assert Branch(wanted, path, tried, q) <==> Under(wanted, path, q);
    }
  }

  lemma {:induction false} DistinctSet(p: seq<int>)
    requires Distinct(p)
    ensures |set v | v in p| == |p|
  {
    if p != [] {
      var n := |p| - 1;
      DistinctSet(p[..n]);
      assert p == p[..n] + [p[n]];
      assert (set v | v in p) == (set v | v in p[..n]) + {p[n]};
    }
  }
}
