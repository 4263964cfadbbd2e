/** Best-first insertion with completion bounds (src/search.cpp, `InsertionBoundQueue`,
    `choose_linked_greedy`, `rank_linked_customer`, `choose_linked_two_regret`). */
module Insertion {
  import opened Common

  const BOUND_SAFETY := 100.0 * COST_TOLERANCE

  /** An insertion with its uncompleted cost change and its completion bound. */
  datatype Move = Move(customer: int, route: int, position: int, direct: real, lower: real)

  /** The cost change once the paths around the insertion are completed. */
  type Completion = Move -> real

  // ----- orders -----

  predicate PlaceLess(a: Move, b: Move) {
    if a.customer != b.customer then a.customer < b.customer
    else if a.route != b.route then a.route < b.route
    else a.position < b.position
  }

  predicate Better(a: Move, b: Move, cost: Completion) {
    cost(a) < cost(b) || (cost(a) == cost(b) && PlaceLess(a, b))
  }

  /** The uncompleted cost change, as a completion. */
  function Direct(m: Move): real {
    m.direct
  }

  /** Queue order: bound, place, then index. */
  predicate BoundBetter(moves: seq<Move>, i: nat, j: nat)
    requires i < |moves| && j < |moves|
  {
    var a, b := moves[i], moves[j];
    if a.lower != b.lower then a.lower < b.lower
    else if PlaceLess(a, b) || PlaceLess(b, a) then PlaceLess(a, b)
    else i < j
  }

  /** No place twice. */
  ghost predicate DistinctPlaces(moves: seq<Move>) {
    forall i, j | 0 <= i < j < |moves| :: PlaceLess(moves[i], moves[j]) || PlaceLess(moves[j], moves[i])
  }

  /** The condition checked whenever a move is completed. */
  predicate Honest(m: Move, cost: Completion) {
    m.lower <= cost(m) + BOUND_SAFETY
  }

  ghost predicate AllHonest(moves: seq<Move>, cost: Completion) {
    forall i | 0 <= i < |moves| :: Honest(moves[i], cost)
  }

  // ----- the queue -----

  /** The indices not yet popped; the least one is popped next. */
  class BoundQueue {
    const moves: seq<Move>
    var waiting: seq<nat>

    ghost predicate Valid()
      reads this
    {
      && (forall i | 0 <= i < |waiting| :: waiting[i] < |moves|)
      && forall i, j | 0 <= i < j < |waiting| :: waiting[i] != waiting[j]
    }

    constructor (moves: seq<Move>)
      ensures this.moves == moves && Valid()
      ensures forall i: nat :: i in waiting <==> i < |moves|
    {
      this.moves := moves;
      this.waiting := seq(|moves|, i => i);
      new;
      forall i: nat ensures i in waiting <==> i < |moves| {
        if i < |moves| { assert waiting[i] == i; }
      }
    }

    method Pop() returns (index: nat)
      requires Valid() && waiting != []
      modifies this
      ensures Valid() && index < |moves| && |waiting| == |old(waiting)| - 1
      ensures forall i :: i in old(waiting) <==> i in waiting || i == index
      ensures index !in waiting && forall i | i in waiting :: BoundBetter(moves, index, i)
    {
      hide BoundBetter;
      var best := 0;
      for k := 1 to |waiting|
        invariant 0 <= best < k <= |waiting|
        invariant forall j | 0 <= j < k && j != best :: BoundBetter(moves, waiting[best], waiting[j])
      {
        ghost var previous := best;
        if BoundBetter(moves, waiting[k], waiting[best]) { best := k; }
        forall j | 0 <= j < k + 1 && j != best ensures BoundBetter(moves, waiting[best], waiting[j]) {
          BoundOrder(moves, waiting[k], waiting[previous], waiting[j]);
        }
      }
      index := waiting[best];
      ghost var before := waiting;
      waiting := waiting[..best] + waiting[best + 1..];
      assert before == before[..best] + [index] + before[best + 1..];
    }
  }

  lemma BoundOrder(moves: seq<Move>, i: nat, j: nat, k: nat)
    requires i < |moves| && j < |moves| && k < |moves|
    ensures BoundBetter(moves, i, j) && BoundBetter(moves, j, k) ==> BoundBetter(moves, i, k)
    ensures i != j ==> BoundBetter(moves, i, j) || BoundBetter(moves, j, i)
  {
  }

  // ----- best two -----

  datatype BestTwo = BestTwo(best: Option<nat>, second: Option<nat>)

  const NO_MOVES := BestTwo(None, None)

  predicate InBounds(moves: seq<Move>, t: BestTwo) {
    && (t.best.Some? ==> t.best.value < |moves|) && (t.second.Some? ==> t.second.value < |moves|)
    && (t.second.Some? ==> t.best.Some?)
  }

  function Consider(moves: seq<Move>, cost: Completion, t: BestTwo, i: nat): (r: BestTwo)
    requires InBounds(moves, t) && i < |moves|
    ensures InBounds(moves, r)
  {
    if t.best.None? || Better(moves[i], moves[t.best.value], cost) then BestTwo(Some(i), t.best)
    else if t.second.None? || Better(moves[i], moves[t.second.value], cost) then BestTwo(t.best, Some(i))
    else t
  }

  /** `t` names the best and second best of the completed moves `done`. */
  ghost predicate Ranks(moves: seq<Move>, cost: Completion, done: set<nat>, t: BestTwo) {
    && InBounds(moves, t) && (forall i | i in done :: i < |moves|)
    && (t.best.None? ==> done == {})
    && (t.best.Some? ==> t.best.value in done && forall i | i in done :: !Better(moves[i], moves[t.best.value], cost))
    && (t.second.None? ==> forall i | i in done :: Some(i) == t.best)
    && (t.second.Some? ==> t.second.value in done && t.second != t.best)
    && (t.second.Some? ==> forall i | i in done && Some(i) != t.best :: !Better(moves[i], moves[t.second.value], cost))
  }

  lemma ConsiderRanks(moves: seq<Move>, cost: Completion, done: set<nat>, t: BestTwo, i: nat)
    requires Ranks(moves, cost, done, t) && i < |moves| && i !in done
    ensures Ranks(moves, cost, done + {i}, Consider(moves, cost, t, i))
  {
    hide Better;
    BetterOrder(moves[i], moves[i], moves[i], cost);
    if t.best.Some? {
      var best := moves[t.best.value];
      if Better(moves[i], best, cost) {
        forall j | j in done ensures !Better(moves[j], moves[i], cost) {
          BetterOrder(moves[j], moves[i], best, cost);
        }
      } else if t.second.Some? {
        var second := moves[t.second.value];
        if Better(moves[i], second, cost) {
          forall j | j in done && Some(j) != t.best ensures !Better(moves[j], moves[i], cost) {
            BetterOrder(moves[j], moves[i], second, cost);
          }
        }
      }
    }
  }

  lemma BetterOrder(a: Move, b: Move, c: Move, cost: Completion)
    ensures !Better(a, a, cost)
    ensures Better(a, b, cost) && Better(b, c, cost) ==> Better(a, c, cost)
    ensures !Better(a, b, cost) && !Better(b, c, cost) ==> !Better(a, c, cost)
    ensures Better(a, b, cost) ==> !Better(b, a, cost)
  {
  }

  // ----- greedy -----

  /** `BoundViolated` is the failed check of a completed move against its bound. */
  datatype Choice = NoMove | BoundViolated | Chosen(index: nat)

  /** A bound beyond the incumbent by more than the safety margin rules a move out. */
  lemma BoundRulesOut(m: Move, best: Move, cost: Completion)
    requires Honest(m, cost) && m.lower > cost(best) + BOUND_SAFETY
    ensures !Better(m, best, cost)
  {
  }

  /** First of the moves with the least uncompleted cost change. */
  method DirectBest(moves: seq<Move>) returns (best: nat)
    requires moves != []
    ensures best < |moves| && forall i | 0 <= i < |moves| :: !Better(moves[i], moves[best], Direct)
  {
    best := 0;
    for k := 1 to |moves|
      invariant 0 <= best < |moves| && forall i | 0 <= i < k :: !Better(moves[i], moves[best], Direct)
    {
      if Better(moves[k], moves[best], Direct) { best := k; }
    }
  }

  /** Complete moves in the order of their bounds until no bound can beat the incumbent. */
  method ChooseLinkedGreedy(moves: seq<Move>, cost: Completion) returns (r: Choice)
    ensures r.NoMove? <==> moves == []
    ensures r.BoundViolated? ==> !AllHonest(moves, cost)
    ensures r.Chosen? ==> r.index < |moves|
    ensures moves != [] && AllHonest(moves, cost) ==>
      r.Chosen? && forall i | 0 <= i < |moves| :: !Better(moves[i], moves[r.index], cost)
  {
    hide Better, Honest;
    if moves == [] { return NoMove; }
    var best := DirectBest(moves);
    if !Honest(moves[best], cost) { return BoundViolated; }
    var evaluated := seq(|moves|, i => false)[best := true];
    BetterOrder(moves[best], moves[best], moves[best], cost);
    var queue := new BoundQueue(moves);
    while queue.waiting != []
      invariant queue.Valid() && queue.moves == moves && fresh(queue)
      invariant best < |moves| && |evaluated| == |moves|
      invariant forall i | 0 <= i < |moves| :: evaluated[i] || i in queue.waiting
      invariant forall i | 0 <= i < |moves| && evaluated[i] :: !Better(moves[i], moves[best], cost)
      decreases |queue.waiting|
    {
      var index := queue.Pop();
      if !evaluated[index] {
        if moves[index].lower > cost(moves[best]) + BOUND_SAFETY {
          if AllHonest(moves, cost) {
            forall i | 0 <= i < |moves| && !evaluated[i] ensures !Better(moves[i], moves[best], cost) {
              BoundRulesOut(moves[i], moves[best], cost);
            }
          }
          return Chosen(best);
        }
        if !Honest(moves[index], cost) { return BoundViolated; }
        evaluated := evaluated[index := true];
        BetterOrder(moves[index], moves[index], moves[index], cost);
        if Better(moves[index], moves[best], cost) {
          forall i | 0 <= i < |moves| && evaluated[i] ensures !Better(moves[i], moves[index], cost) {
            BetterOrder(moves[i], moves[index], moves[best], cost);
          }
          best := index;
        }
      }
    }
    return Chosen(best);
  }

  // ----- regret -----

  /** `None` is infinity: the customer has a single move. */
  type Regret = Option<real>

  /** A completed customer: its best move and how much the second best costs more. */
  datatype Ranking = Ranking(best: Move, regret: Regret)

  predicate RegretBetter(a: Ranking, b: Ranking, cost: Completion) {
    match (a.regret, b.regret)
    case (None, None) => Better(a.best, b.best, cost)
    case (None, Some(_)) => true
    case (Some(_), None) => false
    case (Some(x), Some(y)) =>
      x > y + COST_TOLERANCE || (-COST_TOLERANCE <= x - y <= COST_TOLERANCE && Better(a.best, b.best, cost))
  }

  /** Completing every move in the given order. */
  function BestTwoOf(moves: seq<Move>, cost: Completion, n: nat): (t: BestTwo)
    requires n <= |moves|
    ensures InBounds(moves, t)
  {
    if n == 0 then NO_MOVES else Consider(moves, cost, BestTwoOf(moves, cost, n - 1), n - 1)
  }

  function RankingOf(moves: seq<Move>, cost: Completion, t: BestTwo): Ranking
    requires InBounds(moves, t) && t.best.Some?
  {
    Ranking(moves[t.best.value],
            if t.second.None? then None else Some(cost(moves[t.second.value]) - cost(moves[t.best.value])))
  }

  function Indices(n: nat): (r: set<nat>)
    ensures forall i: nat :: i in r <==> i < n
  {
    if n == 0 then {} else Indices(n - 1) + {n - 1}
  }

  lemma {:induction false} BestTwoOfRanks(moves: seq<Move>, cost: Completion, n: nat)
    requires n <= |moves|
    ensures Ranks(moves, cost, Indices(n), BestTwoOf(moves, cost, n))
  {
    hide Better;
    if n > 0 {
      BestTwoOfRanks(moves, cost, n - 1);
      ConsiderRanks(moves, cost, Indices(n - 1), BestTwoOf(moves, cost, n - 1), n - 1);
    }
  }

  /** With distinct places the best two are unique. */
  lemma RanksUnique(moves: seq<Move>, cost: Completion, done: set<nat>, a: BestTwo, b: BestTwo)
    requires DistinctPlaces(moves) && Ranks(moves, cost, done, a) && Ranks(moves, cost, done, b)
    ensures a == b
  {
    hide PlaceLess;
    if a.best.Some? && b.best.Some? {
      OneBest(moves, cost, a.best.value, b.best.value);
      if a.second.Some? && b.second.Some? { OneBest(moves, cost, a.second.value, b.second.value); }
    }
  }

  lemma OneBest(moves: seq<Move>, cost: Completion, i: nat, j: nat)
    requires DistinctPlaces(moves) && i < |moves| && j < |moves|
    requires !Better(moves[i], moves[j], cost) && !Better(moves[j], moves[i], cost)
    ensures i == j
  {
  }

  /** What a customer's completion promises: its true ranking, or the knowledge that it cannot win. */
  datatype Outcome = Violated | Pruned | Ranked(ranking: Ranking)

  ghost function TrueRanking(moves: seq<Move>, cost: Completion): Ranking
    requires moves != []
  {
    BestTwoOfRanks(moves, cost, |moves|);
    RankingOf(moves, cost, BestTwoOf(moves, cost, |moves|))
  }

  /** The best regret the unfinished customer can still have. */
  function RegretBound(best: real, second: real, nextLower: real): real {
    Max(0.0, second - Min(best, nextLower - BOUND_SAFETY))
  }

  ghost predicate Done(moves: seq<Move>, evaluated: seq<bool>, done: set<nat>) {
    |evaluated| == |moves| && forall i | 0 <= i < |moves| :: evaluated[i] <==> i in done
  }

  /** Everything not completed yet is beyond the second best. */
  lemma {:induction false} RestRanks(moves: seq<Move>, cost: Completion, done: set<nat>, t: BestTwo)
    requires Ranks(moves, cost, done, t) && t.second.Some?
    requires forall i | 0 <= i < |moves| && i !in done :: !Better(moves[i], moves[t.second.value], cost)
    ensures Ranks(moves, cost, Indices(|moves|), t)
  {
    hide Better;
    var best, second := moves[t.best.value], moves[t.second.value];
    forall i: nat | i < |moves| ensures !Better(moves[i], best, cost) {
      BetterOrder(moves[i], second, best, cost);
    }
  }

  lemma {:induction false} AllRanks(moves: seq<Move>, cost: Completion, done: set<nat>, t: BestTwo)
    requires Ranks(moves, cost, done, t) && forall i: nat | i < |moves| :: i in done
    ensures Ranks(moves, cost, Indices(|moves|), t)
  {
    hide Better;
    assert done == Indices(|moves|);
  }

  lemma {:induction false} RanksAreTrue(moves: seq<Move>, cost: Completion, t: BestTwo)
    requires moves != [] && DistinctPlaces(moves) && Ranks(moves, cost, Indices(|moves|), t)
    ensures t.best.Some? && RankingOf(moves, cost, t) == TrueRanking(moves, cost)
  {
    hide Better, DistinctPlaces;
    BestTwoOfRanks(moves, cost, |moves|);
    RanksUnique(moves, cost, Indices(|moves|), t, BestTwoOf(moves, cost, |moves|));
    assert 0 in Indices(|moves|);
  }

  lemma NotBetterCost(a: Move, b: Move, cost: Completion)
    requires !Better(a, b, cost)
    ensures cost(b) <= cost(a)
  {
  }

  /** The true regret is within the bound taken from the next waiting move. */
  lemma {:induction false} RegretBounded(moves: seq<Move>, cost: Completion, done: set<nat>, t: BestTwo, all: BestTwo, next: real)
    requires Ranks(moves, cost, done, t) && t.second.Some? && Ranks(moves, cost, Indices(|moves|), all)
    requires forall i | 0 <= i < |moves| && i !in done :: next - BOUND_SAFETY <= cost(moves[i])
    ensures all.second.Some?
    ensures cost(moves[all.second.value]) - cost(moves[all.best.value])
         <= RegretBound(cost(moves[t.best.value]), cost(moves[t.second.value]), next)
  {
    hide Better;
    assert t.best.value in Indices(|moves|) && t.second.value in Indices(|moves|);
    var best, second := all.best.value, all.second.value;
    if best in done { NotBetterCost(moves[best], moves[t.best.value], cost); }
    NotBetterCost(moves[t.second.value], moves[t.best.value], cost);
    if t.second.value != best {
      NotBetterCost(moves[t.second.value], moves[second], cost);
    } else {
      NotBetterCost(moves[t.best.value], moves[second], cost);
    }
  }

  /** A customer whose regret stays below the incumbent's by more than the tolerance cannot replace it. */
  lemma CannotReplace(r: Ranking, bound: real, incumbent: Ranking, cost: Completion)
    requires r.regret.Some? && r.regret.value <= bound
    requires incumbent.regret.Some? && incumbent.regret.value - bound > COST_TOLERANCE
    ensures !RegretBetter(r, incumbent, cost)
  {
  }

  ghost predicate CannotWin(r: Ranking, incumbent: Option<Regret>, cost: Completion) {
    incumbent.Some? && forall best: Move :: !RegretBetter(r, Ranking(best, incumbent.value), cost)
  }

  lemma PruneIsSafe(moves: seq<Move>, cost: Completion, done: set<nat>, t: BestTwo, next: real, incumbent: real)
    requires moves != [] && DistinctPlaces(moves) && Ranks(moves, cost, done, t) && t.second.Some?
    requires forall i | 0 <= i < |moves| && i !in done :: next - BOUND_SAFETY <= cost(moves[i])
    requires incumbent - RegretBound(cost(moves[t.best.value]), cost(moves[t.second.value]), next) > COST_TOLERANCE
    ensures CannotWin(TrueRanking(moves, cost), Some(Some(incumbent)), cost)
  {
    hide Better, DistinctPlaces, RegretBound;
    BestTwoOfRanks(moves, cost, |moves|);
    var all := BestTwoOf(moves, cost, |moves|);
    RegretBounded(moves, cost, done, t, all, next);
    forall best: Move ensures !RegretBetter(TrueRanking(moves, cost), Ranking(best, Some(incumbent)), cost) {
      CannotReplace(TrueRanking(moves, cost), RegretBound(cost(moves[t.best.value]), cost(moves[t.second.value]), next),
                    Ranking(best, Some(incumbent)), cost);
    }
  }

  /** Best two of the uncompleted cost changes. */
  method DirectBestTwo(moves: seq<Move>) returns (t: BestTwo)
    requires moves != []
    ensures Ranks(moves, Direct, Indices(|moves|), t) && t.best.Some?
  {
    hide Better;
    t := NO_MOVES;
    for i := 0 to |moves|
      invariant Ranks(moves, Direct, Indices(i), t)
    {
      ConsiderRanks(moves, Direct, Indices(i), t, i);
      t := Consider(moves, Direct, t, i);
    }
    assert 0 in Indices(|moves|);
  }

  /** Complete a customer's moves best bound first. With honest bounds the result is the ranking that
      completing every move would give, unless the customer cannot replace the incumbent. */
  method RankLinkedCustomer(moves: seq<Move>, cost: Completion, direct: BestTwo, incumbent: Option<Regret>, complete: bool)
      returns (o: Outcome)
    requires moves != [] && DistinctPlaces(moves)
    requires Ranks(moves, Direct, Indices(|moves|), direct) && direct.best.Some?
    ensures o.Violated? ==> !AllHonest(moves, cost)
    ensures o.Pruned? ==> !complete && incumbent.Some?
    ensures AllHonest(moves, cost) && o.Ranked? ==> o.ranking == TrueRanking(moves, cost)
    ensures AllHonest(moves, cost) && o.Pruned? ==> CannotWin(TrueRanking(moves, cost), incumbent, cost)
  {
    hide Better, Ranks, DistinctPlaces, Honest, TrueRanking, CannotWin, RegretBound, Consider;
    DirectInBounds(moves, direct);
    var evaluated := seq(|moves|, i => false);
    ghost var done: set<nat> := {};
    NothingRanked(moves, cost);
    var exact := NO_MOVES;
    if !Honest(moves[direct.best.value], cost) { return Violated; }
    ConsiderRanks(moves, cost, done, exact, direct.best.value);
    exact := Consider(moves, cost, exact, direct.best.value);
    evaluated, done := evaluated[direct.best.value := true], done + {direct.best.value};
    if direct.second.Some? {
      if !Honest(moves[direct.second.value], cost) { return Violated; }
      ConsiderRanks(moves, cost, done, exact, direct.second.value);
      exact := Consider(moves, cost, exact, direct.second.value);
      evaluated, done := evaluated[direct.second.value := true], done + {direct.second.value};
    }
    var queue := new BoundQueue(moves);
    while queue.waiting != []
      invariant queue.Valid() && queue.moves == moves && fresh(queue)
      invariant Ranks(moves, cost, done, exact) && InBounds(moves, exact) && Done(moves, evaluated, done)
      invariant forall i | 0 <= i < |moves| :: evaluated[i] || i in queue.waiting
      decreases |queue.waiting|
    {
      var index := queue.Pop();
      if !evaluated[index] {
        if exact.second.Some? && moves[index].lower > cost(moves[exact.second.value]) + BOUND_SAFETY {
          if AllHonest(moves, cost) {
            forall i | 0 <= i < |moves| && i !in done ensures !Better(moves[i], moves[exact.second.value], cost) {
              assert Honest(moves[i], cost);
              BoundRulesOut(moves[i], moves[exact.second.value], cost);
            }
            RestRanks(moves, cost, done, exact);
            RanksAreTrue(moves, cost, exact);
          }
          return Ranked(RankingOf(moves, cost, exact));
        }
        if !complete && incumbent.Some? && incumbent.value.Some? && exact.second.Some? {
          var bound := RegretBound(cost(moves[exact.best.value]), cost(moves[exact.second.value]), moves[index].lower);
          if incumbent.value.value - bound > COST_TOLERANCE {
            if AllHonest(moves, cost) {
              forall i | 0 <= i < |moves| && i !in done ensures moves[index].lower - BOUND_SAFETY <= cost(moves[i]) {
                assert Honest(moves[i], cost);
                HonestBound(moves[i], cost);
              }
              PruneIsSafe(moves, cost, done, exact, moves[index].lower, incumbent.value.value);
            }
            return Pruned;
          }
        }
        if !Honest(moves[index], cost) { return Violated; }
        ConsiderRanks(moves, cost, done, exact, index);
        exact := Consider(moves, cost, exact, index);
        evaluated, done := evaluated[index := true], done + {index};
      }
    }
    AllRanks(moves, cost, done, exact);
    RanksAreTrue(moves, cost, exact);
    return Ranked(RankingOf(moves, cost, exact));
  }

  lemma {:induction false} DirectInBounds(moves: seq<Move>, direct: BestTwo)
    requires Ranks(moves, Direct, Indices(|moves|), direct)
    ensures InBounds(moves, direct) && (direct.second.Some? ==> direct.second != direct.best)
  {
  }

  lemma NothingRanked(moves: seq<Move>, cost: Completion)
    ensures Ranks(moves, cost, {}, NO_MOVES)
  {
  }

  lemma HonestBound(m: Move, cost: Completion)
    requires Honest(m, cost)
    ensures m.lower - BOUND_SAFETY <= cost(m)
  {
  }

  // ----- two-regret -----

  /** The customers' moves as they are generated: none empty, no place twice. */
  ghost predicate Prepared(groups: seq<seq<Move>>) {
    forall k | 0 <= k < |groups| :: groups[k] != [] && DistinctPlaces(groups[k])
  }

  /** Complete every move of the first `k` customers, then keep the customer with the larger regret. */
  ghost function FullWinner(groups: seq<seq<Move>>, cost: Completion, k: nat): Option<Ranking>
    requires Prepared(groups) && k <= |groups|
  {
    if k == 0 then None
    else Replaced(FullWinner(groups, cost, k - 1), TrueRanking(groups[k - 1], cost), cost)
  }

  function Replaced(incumbent: Option<Ranking>, r: Ranking, cost: Completion): Option<Ranking> {
    if incumbent.None? || RegretBetter(r, incumbent.value, cost) then Some(r) else incumbent
  }

  datatype TwoRegret = NoCustomer | CustomerWithoutMove | BoundsViolated | Winner(move: Move)

  /** The customer with the larger uncompleted regret; its ranking is completed without pruning. */
  method DirectWinner(groups: seq<seq<Move>>) returns (directs: seq<BestTwo>, winner: nat)
    requires groups != [] && Prepared(groups)
    ensures |directs| == |groups| && winner < |groups|
    ensures forall k | 0 <= k < |groups| ::
      Ranks(groups[k], Direct, Indices(|groups[k]|), directs[k]) && directs[k].best.Some?
  {
    hide Ranks, RegretBetter, DistinctPlaces;
    directs := [];
    for k := 0 to |groups|
      invariant |directs| == k
      invariant forall j | 0 <= j < k ::
        Ranks(groups[j], Direct, Indices(|groups[j]|), directs[j]) && directs[j].best.Some?
    {
      var t := DirectBestTwo(groups[k]);
      directs := directs + [t];
    }
    winner := 0;
    for k := 1 to |groups|
      invariant winner < |groups|
    {
      DirectInBounds(groups[k], directs[k]);
      DirectInBounds(groups[winner], directs[winner]);
      if RegretBetter(RankingOf(groups[k], Direct, directs[k]), RankingOf(groups[winner], Direct, directs[winner]), Direct) {
        winner := k;
      }
    }
  }

  /** With honest bounds the move chosen is the one that completing every move of every customer gives. */
  method ChooseLinkedTwoRegret(groups: seq<seq<Move>>, cost: Completion) returns (r: TwoRegret)
    requires forall k | 0 <= k < |groups| :: DistinctPlaces(groups[k])
    ensures r.CustomerWithoutMove? <==> [] in groups
    ensures r.NoCustomer? <==> groups == []
    ensures r.BoundsViolated? ==> exists k | 0 <= k < |groups| :: !AllHonest(groups[k], cost)
    ensures groups != [] && [] !in groups && (forall k | 0 <= k < |groups| :: AllHonest(groups[k], cost)) ==>
      var full := FullWinner(groups, cost, |groups|);
      full.Some? && r == Winner(full.value.best)
  {
    hide Ranks, RegretBetter, DistinctPlaces, AllHonest, TrueRanking, CannotWin;
    if [] in groups { return CustomerWithoutMove; }
    if groups == [] { return NoCustomer; }
    var directs, first := DirectWinner(groups);
    var winner: Option<Ranking> := None;
    for k := 0 to |groups|
      invariant (forall j | 0 <= j < |groups| :: AllHonest(groups[j], cost)) ==> winner == FullWinner(groups, cost, k)
      invariant k > 0 ==> winner.Some?
    {
      var o := RankLinkedCustomer(groups[k], cost, directs[k],
                                  if winner.Some? then Some(winner.value.regret) else None, k == first);
      if o.Violated? { return BoundsViolated; }
      ghost var before := winner;
      if o.Ranked? { winner := Replaced(winner, o.ranking, cost); }
      if forall j | 0 <= j < |groups| :: AllHonest(groups[j], cost) {
        if o.Pruned? { PrunedKeeps(TrueRanking(groups[k], cost), before, cost); }
      }
    }
    return Winner(winner.value.best);
  }

  lemma PrunedKeeps(r: Ranking, winner: Option<Ranking>, cost: Completion)
    requires CannotWin(r, if winner.Some? then Some(winner.value.regret) else None, cost)
    ensures Replaced(winner, r, cost) == winner
  {
    hide RegretBetter;
    assert winner.value == Ranking(winner.value.best, winner.value.regret);
  }
}
