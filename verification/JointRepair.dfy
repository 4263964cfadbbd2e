/** Reinserting customers and station visits one token at a time (src/search.cpp,
    `repair_joint_occurrences`). */
module JointRepair {
  import opened Common
  import opened Sequences
  import opened Insertion
  import opened JointMoves

  // ----- what a repair conserves -----

  function Flat(routes: seq<seq<int>>): seq<int> {
    if routes == [] then [] else Flat(routes[..|routes| - 1]) + routes[|routes| - 1]
  }

  function Ids(tokens: seq<Token>): (r: seq<int>)
    ensures |r| == |tokens| && forall i | 0 <= i < |r| :: r[i] == tokens[i].id
  {
    seq(|tokens|, i requires 0 <= i < |tokens| => tokens[i].id)
  }

  lemma {:induction false} FlatNext(routes: seq<seq<int>>, visits: seq<int>)
    ensures multiset(Flat(routes + [visits])) == multiset(Flat(routes)) + multiset(visits)
  {
    assert (routes + [visits])[..|routes|] == routes;
  }

  lemma {:induction false} FlatReplaced(routes: seq<seq<int>>, r: nat, visits: seq<int>)
    requires r < |routes|
    ensures multiset(Flat(routes[r := visits])) + multiset(routes[r]) == multiset(Flat(routes)) + multiset(visits)
  {
    hide Flat;
    var n, other := |routes| - 1, routes[r := visits];
    FlatNext(routes[..n], routes[n]);
    FlatNext(other[..n], other[n]);
    assert routes[..n] + [routes[n]] == routes && other[..n] + [other[n]] == other;
    if r < n {
      FlatReplaced(routes[..n], r, visits);
      assert other[..n] == routes[..n][r := visits] && routes[..n][r] == routes[r] && other[n] == routes[n];
      SumsBeside(multiset(Flat(other[..n])), multiset(routes[r]), multiset(Flat(routes[..n])), multiset(visits), multiset(routes[n]));
    } else {
      assert other[..n] == routes[..n];
      SumsSwapped(multiset(Flat(routes[..n])), multiset(visits), multiset(routes[n]));
    }
  }

  lemma SumsSwapped<T>(p: multiset<T>, a: multiset<T>, b: multiset<T>)
    ensures p + a + b == p + b + a
  {
  }

  lemma SumsBeside<T>(p: multiset<T>, a: multiset<T>, q: multiset<T>, b: multiset<T>, z: multiset<T>)
    requires p + a == q + b
    ensures p + z + a == q + z + b
  {
    SumsSwapped(p, z, a);
    SumsSwapped(q, z, b);
  }

  /** `plan_visits` accepts these: at least one customer, no station next to itself. */
  predicate HasCustomer(customer: int -> bool, visits: seq<int>) {
    exists i | 0 <= i < |visits| :: customer(visits[i])
  }

  predicate AdjacentStations(customer: int -> bool, visits: seq<int>) {
    exists i | 1 <= i < |visits| :: visits[i] == visits[i - 1] && !customer(visits[i])
  }

  ghost predicate Canonical(customer: int -> bool, routes: seq<seq<int>>) {
    forall r | 0 <= r < |routes| :: HasCustomer(customer, routes[r]) && !AdjacentStations(customer, routes[r])
  }

  /** `a` with other elements in between. */
  ghost predicate Subsequence(a: seq<int>, b: seq<int>)
    decreases |b|
  {
    if a == [] then true
    else if b == [] then false
    else if a[|a| - 1] == b[|b| - 1] && Subsequence(a[..|a| - 1], b[..|b| - 1]) then true
    else Subsequence(a, b[..|b| - 1])
  }

  lemma {:induction false} SubsequenceSelf(a: seq<int>)
    ensures Subsequence(a, a)
  {
    if a != [] { SubsequenceSelf(a[..|a| - 1]); }
  }

  lemma {:induction false} SubsequenceInserted(a: seq<int>, b: seq<int>, slot: nat, id: int)
    requires Subsequence(a, b) && slot <= |b|
    ensures Subsequence(a, Inserted(b, slot, id))
    decreases |b|
  {
    var c := Inserted(b, slot, id);
    if a != [] {
      if slot == |b| {
        assert c[..|c| - 1] == b;
      } else {
        var n := |b| - 1;
        assert c[..|c| - 1] == Inserted(b[..n], slot, id);
        if a[|a| - 1] == b[n] && Subsequence(a[..|a| - 1], b[..n]) {
          SubsequenceInserted(a[..|a| - 1], b[..n], slot, id);
        } else {
          SubsequenceInserted(a, b[..n], slot, id);
        }
      }
    }
  }

  /** How far a left-to-right scan of `b` matches `a`. */
  function Matched(a: seq<int>, b: seq<int>): (i: nat)
    ensures i <= |a|
  {
    if b == [] then 0
    else
      var i := Matched(a, b[..|b| - 1]);
      if i < |a| && b[|b| - 1] == a[i] then i + 1 else i
  }

  lemma {:induction false} MatchedPrefix(a: seq<int>, k: nat, b: seq<int>)
    requires k <= |a| && Subsequence(a[..k], b)
    ensures Matched(a, b) >= k
    decreases |b|
  {
    if k > 0 {
      var n := |b| - 1;
      if a[k - 1] == b[n] && Subsequence(a[..k][..k - 1], b[..n]) {
        assert a[..k][..k - 1] == a[..k - 1];
        MatchedPrefix(a, k - 1, b[..n]);
      } else {
        MatchedPrefix(a, k, b[..n]);
      }
    }
  }

  lemma {:induction false} MatchIsSubsequence(a: seq<int>, b: seq<int>)
    ensures Subsequence(a[..Matched(a, b)], b)
    decreases |b|
  {
    if b != [] {
      var n := |b| - 1;
      var i := Matched(a, b[..n]);
      MatchIsSubsequence(a, b[..n]);
      if i < |a| && b[n] == a[i] { assert a[..i + 1][..i] == a[..i]; }
    }
  }

  /** The scan reaches the end exactly on subsequences. */
  lemma {:induction false} SubsequenceMatched(a: seq<int>, b: seq<int>)
    ensures Subsequence(a, b) <==> Matched(a, b) == |a|
  {
    assert a[..|a|] == a;
    if Subsequence(a, b) { MatchedPrefix(a, |a|, b); }
    MatchIsSubsequence(a, b);
  }

  // ----- one insertion -----

  lemma InsertedVisits(visits: seq<int>, slot: nat, id: int)
    requires slot <= |visits|
    ensures multiset(Inserted(visits, slot, id)) == multiset(visits) + multiset{id}
  {
    assert visits == visits[..slot] + visits[slot..];
  }

  /** An open slot keeps identical stations apart. */
  lemma InsertedCanonical(customer: int -> bool, visits: seq<int>, slot: nat, token: Token)
    requires slot <= |visits| && Open(visits, token, slot) && token.station == !customer(token.id)
    requires !AdjacentStations(customer, visits)
    ensures !AdjacentStations(customer, Inserted(visits, slot, token.id))
  {
    var c := Inserted(visits, slot, token.id);
    forall i | 1 <= i < |c| ensures !(c[i] == c[i - 1] && !customer(c[i])) {
      if i < slot {
        assert c[i] == visits[i] && c[i - 1] == visits[i - 1];
      } else if i > slot + 1 {
        assert c[i] == visits[i - 1] && c[i - 1] == visits[i - 2];
      }
    }
  }

  lemma InsertedHasCustomer(customer: int -> bool, visits: seq<int>, slot: nat, id: int)
    requires slot <= |visits| && (HasCustomer(customer, visits) || customer(id))
    ensures HasCustomer(customer, Inserted(visits, slot, id))
  {
    var c := Inserted(visits, slot, id);
    if customer(id) {
      assert c[slot] == id;
    } else {
      var i :| 0 <= i < |visits| && customer(visits[i]);
      assert c[if i < slot then i else i + 1] == visits[i];
    }
  }

  // ----- the workspace -----

  /** For every slot of a route an earlier one, or itself, whose insertion score it shares. */
  type Representatives = seq<int> -> seq<nat>

  ghost predicate SharesScore(cost: VisitCosts, visits: seq<int>, slot: nat, rep: nat, id: int)
    requires slot <= |visits|
  {
    rep <= slot && cost(Inserted(visits, slot, id)) == cost(Inserted(visits, rep, id))
  }

  ghost predicate SharesScores(cost: VisitCosts, visits: seq<int>, reps: seq<nat>) {
    && |reps| == |visits| + 1
    && forall slot: nat, id: int | slot <= |visits| :: SharesScore(cost, visits, slot, reps[slot], id)
  }

  ghost predicate Certifies(cost: VisitCosts, represent: Representatives) {
    forall visits :: SharesScores(cost, visits, represent(visits))
  }

  /** A route's best two moves for a token, as of one version of the route. */
  datatype RouteRanks = RouteRanks(version: nat, best: seq<Move>)

  /** The ranks of a token and a route are those of the route's version. */
  predicate UpToDate(ranks: map<(nat, nat), RouteRanks>, versions: seq<nat>, k: (nat, nat)) {
    k in ranks && k.1 < |versions| && ranks[k].version == versions[k.1]
  }

  class Workspace {
    const cost: VisitCosts
    const represent: Representatives
    const tokens: seq<Token>
    const capacity: nat
    var routes: seq<seq<int>>
    var versions: seq<nat>
    var ranks: map<(nat, nat), RouteRanks>

    /** Existing routes have a positive version; ranks never run ahead of it, and ranks of the current
        version are the best two of the route as it is. */
    ghost predicate Valid()
      reads this
    {
      && Certifies(cost, represent)
      && |routes| <= capacity == |versions|
      && (forall r | 0 <= r < |routes| :: versions[r] > 0)
      && (forall r | |routes| <= r < capacity :: versions[r] == 0)
      && (forall k | k in ranks :: k.0 < |tokens| && k.1 < |routes| && Current(k))
    }

    ghost predicate Current(k: (nat, nat))
      requires k in ranks && k.0 < |tokens| && k.1 < |routes| <= |versions|
      reads this
    {
      && ranks[k].version <= versions[k.1]
      && (ranks[k].version == versions[k.1] ==> ranks[k].best == TopTwo(RouteMoves(cost, routes[k.1], k.1, tokens[k.0])))
    }

    constructor (cost: VisitCosts, represent: Representatives, tokens: seq<Token>, routes: seq<seq<int>>, spare: nat)
      requires Certifies(cost, represent)
      ensures Valid() && this.cost == cost && this.tokens == tokens && this.routes == routes
      ensures capacity == |routes| + spare
    {
      this.cost, this.represent, this.tokens, this.capacity := cost, represent, tokens, |routes| + spare;
      this.routes, this.ranks := routes, map[];
      this.versions := seq(|routes| + spare, r => if r < |routes| then 1 else 0);
    }

    /** The best two moves of a token into a route; rescored only when the route has changed. */
    method RankRoute(ordinal: nat, r: nat) returns (best: seq<Move>)
      requires Valid() && ordinal < |tokens| && r < |routes|
      modifies `ranks
      ensures Valid() && best == TopTwo(RouteMoves(cost, routes[r], r, tokens[ordinal]))
    {
      hide TopTwo, SlotMoves, Push;
      if (ordinal, r) in ranks && ranks[(ordinal, r)].version == versions[r] {
        assert Current((ordinal, r));
        return ranks[(ordinal, r)].best;
      }
      best := Rescore(ordinal, r);
      ghost var before := ranks;
      ranks := ranks[(ordinal, r) := RouteRanks(versions[r], best)];
    }

    /** Score every open slot of a route; customers reuse the score of a slot's representative. */
    method Rescore(ordinal: nat, r: nat) returns (best: seq<Move>)
      requires Valid() && ordinal < |tokens| && r < |routes|
      ensures best == TopTwo(RouteMoves(cost, routes[r], r, tokens[ordinal]))
    {
      hide Push, Inserted, TopTwo;
      best := [];
      NoneScored();
      var visits, token := routes[r], tokens[ordinal];
      var reps := represent(visits);
      assert SharesScores(cost, visits, reps);
      var summary: Option<real> := None;
      var representative: nat := |visits| + 1;
      for slot := 0 to |visits| + 1
        invariant best == TopTwo(SlotMoves(cost, visits, r, token, slot))
        invariant summary.Some? ==>
          representative <= |visits| && summary.value == cost(Inserted(visits, representative, token.id))
      {
        ghost var scored := SlotMoves(cost, visits, r, token, slot);
        assert SlotMoves(cost, visits, r, token, slot + 1)
               == scored + if Open(visits, token, slot) then [MoveAt(cost, visits, r, token, slot)] else [];
        assert scored + [] == scored;
        if token.station {
          if (slot > 0 && visits[slot - 1] == token.id) || (slot < |visits| && visits[slot] == token.id) { continue; }
          var delta := cost(Inserted(visits, slot, token.id)) - cost(visits);
          best := Push(best, Move(token.id, r, slot, delta, delta));
        } else {
          if summary.None? || reps[slot] != representative {
            summary := Some(cost(Inserted(visits, slot, token.id)));
            representative := reps[slot];
          }
          assert SharesScore(cost, visits, slot, reps[slot], token.id);
          var delta := summary.value - cost(visits);
          best := Push(best, Move(token.id, r, slot, delta, delta));
        }
        TopTwoNext(scored, MoveAt(cost, visits, r, token, slot));
      }
    }

    /** The token's best two moves anywhere, from the ranks of every route and a new route. */
    method RankToken(ordinal: nat) returns (r: Option<Ranking>)
      requires Valid() && ordinal < |tokens|
      modifies `ranks
      ensures Valid() && r == RankOf(TopTwo(AllMoves(cost, routes, tokens[ordinal])))
    {
      hide TopTwo, RouteMoves, MovesInto, StandsFor;
      var token := tokens[ordinal];
      var moves: seq<Move> := [];
      NothingStands(cost, routes, token);
      for k := 0 to |routes|
        invariant Valid() && StandsFor(moves, MovesInto(cost, routes, token, k))
      {
        var best := RankRoute(ordinal, k);
        StandsNext(cost, routes, token, k, moves);
        moves := moves + best;
      }
      if !token.station {
        var singleton := cost([token.id]) - 0.0;
        StandsOpening(cost, routes, token, moves);
        moves := moves + [Move(token.id, |routes|, 0, singleton, singleton)];
      } else {
        assert AllMoves(cost, routes, token) == MovesInto(cost, routes, token, |routes|);
      }
      AllMovesApart(cost, routes, token);
      TopOfFew(AllMoves(cost, routes, token), moves);
      r := RankOf(TopTwo(moves));
    }

    /** The token and move to insert next: the same as rescoring every slot of every route. */
    method ChooseToken(op: Operator, pending: seq<nat>) returns (c: Option<TokenChoice>)
      requires Valid() && forall i | 0 <= i < |pending| :: pending[i] < |tokens|
      modifies `ranks
      ensures Valid() && c == FreshChoice(op, cost, routes, Waiting(tokens, pending), |pending|)
    {
      hide TopTwo, AllMoves, Overtakes, RankOf;
      c := None;
      for k := 0 to |pending|
        invariant Valid() && c == FreshChoice(op, cost, routes, Waiting(tokens, pending), k)
      {
        var r := RankToken(pending[k]);
        c := Considered(op, c, k, r);
      }
    }

    /** `apply_insertion`: the changed or opened route gets a new version, so that exactly its ranks are outdated. */
    method Apply(r: nat, visits: seq<int>)
      requires Valid() && r <= |routes| && r < capacity
      modifies `routes, `versions
      ensures Valid() && versions == old(versions)[r := old(versions)[r] + 1]
      ensures forall k | k in ranks :: UpToDate(ranks, versions, k) <==> UpToDate(ranks, old(versions), k) && k.1 != r
      ensures routes == if r < |old(routes)| then old(routes)[r := visits] else old(routes) + [visits]
    {
      hide TopTwo, RouteMoves;
      assert forall k | k in ranks :: Current(k);
      if r == |routes| { routes := routes + [visits]; } else { routes := routes[r := visits]; }
      versions := versions[r := versions[r] + 1];
    }
  }

  function Waiting(tokens: seq<Token>, pending: seq<nat>): (w: seq<Token>)
    requires forall i | 0 <= i < |pending| :: pending[i] < |tokens|
    ensures |w| == |pending| && forall i | 0 <= i < |w| :: w[i] == tokens[pending[i]]
  {
    seq(|pending|, i requires 0 <= i < |pending| => tokens[pending[i]])
  }

  lemma NoneScored()
    ensures TopTwo([]) == []
  {
  }

  lemma {:induction false} TopTwoNext(ms: seq<Move>, m: Move)
    ensures TopTwo(ms + [m]) == Push(TopTwo(ms), m)
  {
    assert (ms + [m])[..|ms|] == ms;
  }

  lemma {:induction false} NothingStands(cost: VisitCosts, routes: seq<seq<int>>, token: Token)
    ensures StandsFor([], MovesInto(cost, routes, token, 0))
  {
  }

  lemma StandsNext(cost: VisitCosts, routes: seq<seq<int>>, token: Token, k: nat, few: seq<Move>)
    requires k < |routes| && StandsFor(few, MovesInto(cost, routes, token, k))
    ensures StandsFor(few + TopTwo(RouteMoves(cost, routes[k], k, token)), MovesInto(cost, routes, token, k + 1))
  {
    hide TopTwo, SlotMoves, StandsFor, SlotMove;
    RouteMovesDistinct(cost, routes[k], k, token);
    TopStandsFor(RouteMoves(cost, routes[k], k, token));
    MovesIntoAre(cost, routes, token, k);
    SlotMovesAre(cost, routes[k], k, token, |routes[k]| + 1);
    forall m | m in MovesInto(cost, routes, token, k) ensures m !in RouteMoves(cost, routes[k], k, token) {
      assert IntoMove(cost, routes, token, k, m);
      RouteOf(cost, routes[k], k, token, m);
    }
    StandsForBoth(few, MovesInto(cost, routes, token, k), TopTwo(RouteMoves(cost, routes[k], k, token)),
                  RouteMoves(cost, routes[k], k, token));
  }

  lemma RouteOf(cost: VisitCosts, visits: seq<int>, route: nat, token: Token, m: Move)
    ensures SlotMove(cost, visits, route, token, m) ==> m.route == route
  {
  }

  lemma {:induction false} StandsOpening(cost: VisitCosts, routes: seq<seq<int>>, token: Token, few: seq<Move>)
    requires !token.station && StandsFor(few, MovesInto(cost, routes, token, |routes|))
    ensures StandsFor(few + [Move(token.id, |routes|, 0, cost([token.id]) - 0.0, cost([token.id]) - 0.0)],
                      AllMoves(cost, routes, token))
  {
    hide MovesInto, StandsFor, SlotMove;
    MovesIntoAre(cost, routes, token, |routes|);
    var opening := Opening(cost, routes, token)[0];
    forall m | m in MovesInto(cost, routes, token, |routes|) ensures m != opening {
      assert IntoMove(cost, routes, token, |routes|, m);
    }
    StandsForOne(few, MovesInto(cost, routes, token, |routes|), opening);
  }
}
