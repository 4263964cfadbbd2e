/** Insertion moves of pending tokens and their best two (src/search.cpp, `repair_joint_occurrences`). */
module JointMoves {
  import opened Common
  import opened Sequences
  import opened Insertion

  // ----- the best two of a list -----

  /** Keep the best two of what was seen and one more move. */
  function Push(top: seq<Move>, m: Move): seq<Move> {
    if top == [] then [m]
    else if Better(m, top[0], Direct) then [m, top[0]]
    else if |top| == 1 || Better(m, top[1], Direct) then [top[0], m]
    else top
  }

  function TopTwo(ms: seq<Move>): (top: seq<Move>)
    ensures |top| <= 2 && (ms != [] <==> top != [])
  {
    if ms == [] then [] else Push(TopTwo(ms[..|ms| - 1]), ms[|ms| - 1])
  }

  /** Nothing in the list is better than the first, and nothing but the first is better than the second. */
  ghost predicate IsTop(ms: seq<Move>, top: seq<Move>) {
    && |top| == (if |ms| >= 2 then 2 else |ms|)
    && (|top| >= 1 ==> top[0] in ms && forall m | m in ms :: !Better(m, top[0], Direct))
    && (|top| == 2 ==> top[1] in ms && top[1] != top[0] && forall m | m in ms && m != top[0] :: !Better(m, top[1], Direct))
  }

  /** Different moves have different places. */
  ghost predicate Apart(ms: seq<Move>) {
    forall a, b | a in ms && b in ms && a != b :: PlaceLess(a, b) || PlaceLess(b, a)
  }

  lemma PushTop(ms: seq<Move>, top: seq<Move>, m: Move)
    requires IsTop(ms, top) && m !in ms
    ensures IsTop(ms + [m], Push(top, m))
  {
    hide Better;
    BetterOrder(m, m, m, Direct);
    if top != [] {
      if Better(m, top[0], Direct) {
        forall x | x in ms ensures !Better(x, m, Direct) {
          BetterOrder(x, m, top[0], Direct);
        }
      } else if |top| == 2 && Better(m, top[1], Direct) {
        forall x | x in ms && x != top[0] ensures !Better(x, m, Direct) {
          BetterOrder(x, m, top[1], Direct);
        }
      } else if |top| == 1 {
        OnlyElement(ms, top[0]);
      }
    }
  }

  lemma OnlyElement(ms: seq<Move>, x: Move)
    requires |ms| == 1 && x in ms
    ensures forall y | y in ms :: y == x
  {
  }

  lemma {:induction false} TopTwoIsTop(ms: seq<Move>)
    requires Distinct(ms)
    ensures IsTop(ms, TopTwo(ms))
  {
    hide Better, Push, IsTop;
    if ms == [] {
      NoTop();
    } else {
      var n := |ms| - 1;
      assert ms == ms[..n] + [ms[n]];
      DistinctNext(ms[..n], ms[n]);
      TopTwoIsTop(ms[..n]);
      PushTop(ms[..n], TopTwo(ms[..n]), ms[n]);
    }
  }

  lemma NoTop()
    ensures IsTop([], [])
  {
  }

  lemma TopUnique(ms: seq<Move>, a: seq<Move>, b: seq<Move>)
    requires Apart(ms) && IsTop(ms, a) && IsTop(ms, b)
    ensures a == b
  {
    if |a| >= 1 {
      assert a[0] == b[0];
      if |a| == 2 {
        assert a[1] == b[1];
      }
    }
  }

  // ----- lists that stand for longer ones -----

  /** Two listed moves that a move does not beat. */
  ghost predicate Outdone(few: seq<Move>, m: Move) {
    exists a, b :: a in few && b in few && a != b && !Better(m, a, Direct) && !Better(m, b, Direct)
  }

  /** `few` holds moves of `all` only, and two that are no worse in place of every move left out. */
  ghost predicate StandsFor(few: seq<Move>, all: seq<Move>) {
    && Distinct(few)
    && (forall m | m in few :: m in all)
    && (forall m | m in all && m !in few :: Outdone(few, m))
  }

  lemma {:induction false} TopStandsFor(ms: seq<Move>)
    requires Distinct(ms)
    ensures StandsFor(TopTwo(ms), ms)
  {
    hide Better;
    TopTwoIsTop(ms);
    var top := TopTwo(ms);
    if |ms| == 1 { OnlyElement(ms, top[0]); }
    forall m | m in ms && m !in top ensures Outdone(top, m) {
      assert top[0] in top && top[1] in top;
    }
  }

  lemma StandsForBoth(few: seq<Move>, all: seq<Move>, fewer: seq<Move>, more: seq<Move>)
    requires StandsFor(few, all) && StandsFor(fewer, more)
    requires forall m | m in all :: m !in more
    ensures StandsFor(few + fewer, all + more)
  {
    hide Better;
    var joined := few + fewer;
    forall m | m in all + more && m !in joined ensures Outdone(joined, m) {
      if m in all {
        var a, b :| a in few && b in few && a != b && !Better(m, a, Direct) && !Better(m, b, Direct);
        assert a in joined && b in joined;
      } else {
        var a, b :| a in fewer && b in fewer && a != b && !Better(m, a, Direct) && !Better(m, b, Direct);
        assert a in joined && b in joined;
      }
    }
    forall i, j | 0 <= i < j < |joined| ensures joined[i] != joined[j] {
      if i < |few| && j >= |few| {
        assert joined[i] in few && joined[j] in fewer;
      }
    }
  }

  lemma StandsForOne(few: seq<Move>, all: seq<Move>, m: Move)
    requires StandsFor(few, all) && m !in all
    ensures StandsFor(few + [m], all + [m])
  {
    StandsForSelf(m);
    StandsForBoth(few, all, [m], [m]);
  }

  lemma StandsForSelf(m: Move)
    ensures StandsFor([m], [m])
  {
  }

  lemma TwoIndices(all: seq<Move>, few: seq<Move>)
    requires StandsFor(few, all) && Distinct(all)
    ensures |few| >= 2 <==> |all| >= 2
    ensures |all| < 2 ==> |few| == |all|
  {
    hide Better;
    if |few| >= 2 {
      assert few[0] in all && few[1] in all && few[0] != few[1];
      if |all| == 1 { OnlyElement(all, few[0]); }
    }
    if |all| >= 2 {
      assert all[0] in all && all[1] in all;
      if all[0] in few && all[1] in few && |few| == 1 { OnlyElement(few, all[0]); }
    }
    if |all| == 1 { assert all[0] in all; }
    if |few| == 1 { assert few[0] in few; }
  }

  /** The best two of the short list are the best two of the long one. */
  lemma {:induction false} TopOfFew(all: seq<Move>, few: seq<Move>)
    requires StandsFor(few, all) && Distinct(all) && Apart(all)
    ensures TopTwo(few) == TopTwo(all)
  {
    hide Better, PlaceLess, TopTwo;
    TopTwoIsTop(few);
    TopTwoIsTop(all);
    TwoIndices(all, few);
    var top := TopTwo(few);
    TopCarries(all, few, top);
    TopUnique(all, top, TopTwo(all));
  }

  lemma TopCarries(all: seq<Move>, few: seq<Move>, top: seq<Move>)
    requires StandsFor(few, all) && IsTop(few, top) && Distinct(all)
    ensures IsTop(all, top)
  {
    hide Better;
    TwoIndices(all, few);
    if |top| >= 1 {
      forall m | m in all ensures !Better(m, top[0], Direct) {
        if m !in few {
          var a, b :| a in few && b in few && a != b && !Better(m, a, Direct) && !Better(m, b, Direct);
          BetterOrder(m, a, top[0], Direct);
        }
      }
    }
    if |top| == 2 {
      forall m | m in all && m != top[0] ensures !Better(m, top[1], Direct) {
        if m !in few {
          var a, b :| a in few && b in few && a != b && !Better(m, a, Direct) && !Better(m, b, Direct);
          BetterOrder(m, a, top[1], Direct);
          BetterOrder(m, b, top[1], Direct);
        }
      }
    }
  }

  // ----- slots -----

  datatype Token = Token(id: int, station: bool)

  /** What a sequence of visits costs. */
  type VisitCosts = seq<int> -> real

  function Inserted(visits: seq<int>, slot: nat, id: int): seq<int>
    requires slot <= |visits|
  {
    visits[..slot] + [id] + visits[slot..]
  }

  /** A station may not go next to itself. */
  predicate Open(visits: seq<int>, token: Token, slot: nat)
    requires slot <= |visits|
  {
    !token.station || ((slot == 0 || visits[slot - 1] != token.id) && (slot == |visits| || visits[slot] != token.id))
  }

  function MoveAt(cost: VisitCosts, visits: seq<int>, route: nat, token: Token, slot: nat): Move
    requires slot <= |visits|
  {
    var delta := cost(Inserted(visits, slot, token.id)) - cost(visits);
    Move(token.id, route, slot, delta, delta)
  }

  /** The moves of a token into the first `n` slots of a route. */
  function SlotMoves(cost: VisitCosts, visits: seq<int>, route: nat, token: Token, n: nat): seq<Move>
    requires n <= |visits| + 1
  {
    if n == 0 then []
    else SlotMoves(cost, visits, route, token, n - 1)
         + if Open(visits, token, n - 1) then [MoveAt(cost, visits, route, token, n - 1)] else []
  }

  function RouteMoves(cost: VisitCosts, visits: seq<int>, route: nat, token: Token): seq<Move> {
    SlotMoves(cost, visits, route, token, |visits| + 1)
  }

  /** The moves of a token into the first `k` routes. */
  function MovesInto(cost: VisitCosts, routes: seq<seq<int>>, token: Token, k: nat): seq<Move>
    requires k <= |routes|
  {
    if k == 0 then [] else MovesInto(cost, routes, token, k - 1) + RouteMoves(cost, routes[k - 1], k - 1, token)
  }

  /** A customer may also open a route. */
  function Opening(cost: VisitCosts, routes: seq<seq<int>>, token: Token): seq<Move> {
    if token.station then []
    else [Move(token.id, |routes|, 0, cost([token.id]) - 0.0, cost([token.id]) - 0.0)]
  }

  function AllMoves(cost: VisitCosts, routes: seq<seq<int>>, token: Token): seq<Move> {
    MovesInto(cost, routes, token, |routes|) + Opening(cost, routes, token)
  }

  ghost predicate SlotMove(cost: VisitCosts, visits: seq<int>, route: nat, token: Token, m: Move) {
    && 0 <= m.position <= |visits| && Open(visits, token, m.position)
    && m == MoveAt(cost, visits, route, token, m.position)
  }

  lemma {:induction false} SlotMovesAre(cost: VisitCosts, visits: seq<int>, route: nat, token: Token, n: nat)
    requires n <= |visits| + 1
    ensures var ms := SlotMoves(cost, visits, route, token, n);
      Distinct(ms) && forall m :: m in ms <==> SlotMove(cost, visits, route, token, m) && m.position < n
  {
    hide Inserted;
    if n > 0 {
      SlotMovesAre(cost, visits, route, token, n - 1);
      var before := SlotMoves(cost, visits, route, token, n - 1);
      if Open(visits, token, n - 1) { DistinctNext(before, MoveAt(cost, visits, route, token, n - 1)); }
    }
  }

  /** A move of the token into one of the first `k` routes. */
  ghost predicate IntoMove(cost: VisitCosts, routes: seq<seq<int>>, token: Token, k: nat, m: Move)
    requires k <= |routes|
  {
    0 <= m.route < k && SlotMove(cost, routes[m.route], m.route, token, m)
  }

  lemma {:induction false} MovesIntoAre(cost: VisitCosts, routes: seq<seq<int>>, token: Token, k: nat)
    requires k <= |routes|
    ensures var ms := MovesInto(cost, routes, token, k);
      Distinct(ms) && forall m :: m in ms <==> IntoMove(cost, routes, token, k, m)
  {
    hide SlotMoves;
    if k > 0 {
      MovesIntoAre(cost, routes, token, k - 1);
      SlotMovesAre(cost, routes[k - 1], k - 1, token, |routes[k - 1]| + 1);
      var before, more := MovesInto(cost, routes, token, k - 1), RouteMoves(cost, routes[k - 1], k - 1, token);
      forall m | m in more ensures m.route == k - 1 {
        assert SlotMove(cost, routes[k - 1], k - 1, token, m);
      }
      forall m | m in before ensures m !in more {
        assert IntoMove(cost, routes, token, k - 1, m);
      }
      DistinctJoin(before, more);
    }
  }

  lemma DistinctJoin<T>(a: seq<T>, b: seq<T>)
    requires Distinct(a) && Distinct(b) && forall x | x in a :: x !in b
    ensures Distinct(a + b)
  {
    var c := a + b;
    forall i, j | 0 <= i < j < |c| ensures c[i] != c[j] {
      if i < |a| && j >= |a| { assert c[i] in a && c[j] in b; }
    }
  }

  /** A token's moves are all different and have different places. */
  lemma AllMovesApart(cost: VisitCosts, routes: seq<seq<int>>, token: Token)
    ensures Distinct(AllMoves(cost, routes, token)) && Apart(AllMoves(cost, routes, token))
  {
    hide MovesInto, SlotMove;
    MovesIntoAre(cost, routes, token, |routes|);
    var into, opening := MovesInto(cost, routes, token, |routes|), Opening(cost, routes, token);
    forall m | m in into ensures m !in opening {
      assert IntoMove(cost, routes, token, |routes|, m);
    }
    DistinctJoin(into, opening);
    forall a, b | a in into + opening && b in into + opening && a != b ensures PlaceLess(a, b) || PlaceLess(b, a) {
      MovePlace(cost, routes, token, a);
      MovePlace(cost, routes, token, b);
    }
  }

  /** A move is determined by its route and position. */
  lemma MovePlace(cost: VisitCosts, routes: seq<seq<int>>, token: Token, m: Move)
    requires m in AllMoves(cost, routes, token)
    ensures m.customer == token.id && 0 <= m.route <= |routes|
    ensures if m.route < |routes| then 0 <= m.position <= |routes[m.route]| && Open(routes[m.route], token, m.position)
              && m == MoveAt(cost, routes[m.route], m.route, token, m.position)
            else !token.station && m == Opening(cost, routes, token)[0] && m.position == 0
  {
    hide MovesInto;
    MovesIntoAre(cost, routes, token, |routes|);
    if m in MovesInto(cost, routes, token, |routes|) {
      assert IntoMove(cost, routes, token, |routes|, m);
    }
  }

  lemma RouteMovesDistinct(cost: VisitCosts, visits: seq<int>, route: nat, token: Token)
    ensures Distinct(RouteMoves(cost, visits, route, token))
  {
    SlotMovesAre(cost, visits, route, token, |visits| + 1);
  }

  // ----- choosing a token -----

  datatype Operator = Greedy | TwoRegret

  /** A token's best move and how much its second best costs more; none when every slot is closed. */
  function RankOf(top: seq<Move>): Option<Ranking> {
    if top == [] then None
    else Some(Ranking(top[0], if |top| == 1 then None else Some(top[1].direct - top[0].direct)))
  }

  predicate Overtakes(op: Operator, r: Ranking, incumbent: Ranking) {
    if op.Greedy? then Better(r.best, incumbent.best, Direct) else RegretBetter(r, incumbent, Direct)
  }

  datatype TokenChoice = TokenChoice(token: nat, ranking: Ranking)

  function Considered(op: Operator, chosen: Option<TokenChoice>, token: nat, r: Option<Ranking>): Option<TokenChoice> {
    if r.None? then chosen
    else if chosen.None? || Overtakes(op, r.value, chosen.value.ranking) then Some(TokenChoice(token, r.value))
    else chosen
  }

  /** Rescore every slot of every route for each of the first `k` pending tokens. */
  function FreshChoice(op: Operator, cost: VisitCosts, routes: seq<seq<int>>, pending: seq<Token>, k: nat): Option<TokenChoice>
    requires k <= |pending|
  {
    if k == 0 then None
    else Considered(op, FreshChoice(op, cost, routes, pending, k - 1), k - 1,
                    RankOf(TopTwo(AllMoves(cost, routes, pending[k - 1]))))
  }

  /** The choice is a pending token with one of its own moves; without a choice no token has a move. */
  lemma {:induction false} FreshChoiceIs(op: Operator, cost: VisitCosts, routes: seq<seq<int>>, pending: seq<Token>, k: nat)
    requires k <= |pending|
    ensures var c := FreshChoice(op, cost, routes, pending, k);
      && (c.Some? ==> c.value.token < k && c.value.ranking.best in AllMoves(cost, routes, pending[c.value.token]))
      && (c.None? ==> forall j | 0 <= j < k :: AllMoves(cost, routes, pending[j]) == [])
  {
    hide AllMoves, TopTwo, Overtakes;
    if k > 0 {
      FreshChoiceIs(op, cost, routes, pending, k - 1);
      TopIsListed(cost, routes, pending[k - 1]);
    }
  }

  lemma TopIsListed(cost: VisitCosts, routes: seq<seq<int>>, token: Token)
    ensures var top := TopTwo(AllMoves(cost, routes, token));
      && (top == [] <==> AllMoves(cost, routes, token) == [])
      && (top != [] ==> top[0] in AllMoves(cost, routes, token))
  {
    hide AllMoves, TopTwo;
    AllMovesApart(cost, routes, token);
    TopTwoIsTop(AllMoves(cost, routes, token));
  }
}
