/** A whole joint repair: insert until nothing waits, then check what must have been conserved
    (src/search.cpp, `repair_joint_occurrences`). */
module JointRepairRun {
  import opened Common
  import opened Sequences
  import opened Insertion
  import opened JointMoves
  import opened JointRepair

  type Kinds = int -> bool

  datatype Outcome = Repaired(routes: seq<seq<int>>) | RolledBack(reason: string)

  const ALL_BLOCKED := "all_pending_tokens_blocked"

  /** Only stations wait, and every slot of every route is next to the same station. */
  ghost predicate Stuck(routes: seq<seq<int>>, waiting: seq<Token>) {
    && waiting != []
    && forall i | 0 <= i < |waiting| :: waiting[i].station &&
         forall r: nat, slot: nat | r < |routes| && slot <= |routes[r]| :: !JointMoves.Open(routes[r], waiting[i], slot)
  }

  function Tokens(customers: seq<int>, stations: seq<int>): (t: seq<Token>)
    ensures |t| == |customers| + |stations|
    ensures forall i | 0 <= i < |customers| :: t[i] == Token(customers[i], false)
    ensures forall i | 0 <= i < |stations| :: t[|customers| + i] == Token(stations[i], true)
  {
    seq(|customers| + |stations|, i requires 0 <= i < |customers| + |stations| =>
      if i < |customers| then Token(customers[i], false) else Token(stations[i - |customers|], true))
  }

  lemma TokenIds(customers: seq<int>, stations: seq<int>)
    ensures Ids(Tokens(customers, stations)) == customers + stations
  {
  }

  /** Customers among the waiting tokens. */
  function WaitingCustomers(waiting: seq<Token>): nat {
    if waiting == [] then 0
    else WaitingCustomers(waiting[..|waiting| - 1]) + (if waiting[|waiting| - 1].station then 0 else 1)
  }

  lemma {:induction false} WaitingAppend(a: seq<Token>, b: seq<Token>)
    ensures WaitingCustomers(a + b) == WaitingCustomers(a) + WaitingCustomers(b)
    decreases |b|
  {
    if b == [] {
      assert a + b == a;
    } else {
      WaitingAppend(a, b[..|b| - 1]);
      assert (a + b)[..|a + b| - 1] == a + b[..|b| - 1];
    }
  }

  function Without<T>(s: seq<T>, i: nat): seq<T>
    requires i < |s|
  {
    s[..i] + s[i + 1..]
  }

  lemma {:induction false} WithoutOne(waiting: seq<Token>, i: nat)
    requires i < |waiting|
    ensures WaitingCustomers(waiting) == WaitingCustomers(Without(waiting, i)) + (if waiting[i].station then 0 else 1)
    ensures multiset(Ids(waiting)) == multiset(Ids(Without(waiting, i))) + multiset{waiting[i].id}
  {
    hide WaitingCustomers, Ids;
    WithoutCounts(waiting, i);
    IdsWithout(waiting, i);
    WithoutBag(Ids(waiting), i);
  }

  lemma {:induction false} WithoutCounts(waiting: seq<Token>, i: nat)
    requires i < |waiting|
    ensures WaitingCustomers(waiting) == WaitingCustomers(Without(waiting, i)) + (if waiting[i].station then 0 else 1)
  {
    var one := [waiting[i]];
    WaitingOne(waiting[i]);
    hide WaitingCustomers;
    WaitingAppend(waiting[..i], waiting[i + 1..]);
    WaitingAppend(waiting[..i] + one, waiting[i + 1..]);
    WaitingAppend(waiting[..i], one);
    assert waiting == waiting[..i] + one + waiting[i + 1..];
  }

  lemma WaitingOne(t: Token)
    ensures WaitingCustomers([t]) == if t.station then 0 else 1
  {
    assert [t][..0] == [];
  }

  lemma IdsWithout(waiting: seq<Token>, i: nat)
    requires i < |waiting|
    ensures |Ids(waiting)| == |waiting| && Ids(waiting)[i] == waiting[i].id
    ensures Ids(Without(waiting, i)) == Without(Ids(waiting), i)
  {
  }

  lemma WithoutBag(s: seq<int>, i: nat)
    requires i < |s|
    ensures multiset(s) == multiset(Without(s, i)) + multiset{s[i]}
  {
    assert s == s[..i] + [s[i]] + s[i + 1..];
  }

  lemma {:induction false} FirstCustomers(customers: seq<int>, stations: seq<int>, n: nat)
    requires n <= |customers| + |stations|
    ensures WaitingCustomers(Tokens(customers, stations)[..n]) == if n <= |customers| then n else |customers|
  {
    var t := Tokens(customers, stations);
    if n > 0 {
      FirstCustomers(customers, stations, n - 1);
      assert t[..n][..n - 1] == t[..n - 1];
      if n > |customers| { assert t[n - 1] == t[|customers| + (n - 1 - |customers|)]; }
    }
  }

  // ----- what every insertion keeps -----

  /** The visits on the routes and the waiting tokens together are the original visits; routes stay canonical
      and contain what was retained; every waiting customer may still open a route. */
  ghost predicate Kept(customer: Kinds, total: multiset<int>, retained: seq<seq<int>>, capacity: nat,
                       routes: seq<seq<int>>, waiting: seq<Token>) {
    && multiset(Flat(routes)) + multiset(Ids(waiting)) == total
    && Canonical(customer, routes)
    && (forall i | 0 <= i < |waiting| :: waiting[i].station == !customer(waiting[i].id))
    && |retained| <= |routes|
    && (forall r | 0 <= r < |retained| :: Subsequence(retained[r], routes[r]))
    && |routes| + WaitingCustomers(waiting) <= capacity
  }

  /** The routes after a move. */
  function Moved(routes: seq<seq<int>>, m: Move, id: int): seq<seq<int>>
    requires 0 <= m.route <= |routes|
    requires 0 <= m.position <= |if m.route < |routes| then routes[m.route] else []|
  {
    var visits := if m.route < |routes| then routes[m.route] else [];
    if m.route < |routes| then routes[m.route := Inserted(visits, m.position, id)]
    else routes + [Inserted(visits, m.position, id)]
  }

  lemma MoveKeeps(customer: Kinds, total: multiset<int>, retained: seq<seq<int>>, capacity: nat,
                  cost: VisitCosts, routes: seq<seq<int>>, waiting: seq<Token>, i: nat, m: Move)
    requires Kept(customer, total, retained, capacity, routes, waiting) && i < |waiting|
    requires m in AllMoves(cost, routes, waiting[i])
    ensures 0 <= m.route <= |routes| && m.route < capacity && (m.route == |routes| ==> !waiting[i].station)
    ensures 0 <= m.position <= |if m.route < |routes| then routes[m.route] else []|
    ensures Kept(customer, total, retained, capacity, Moved(routes, m, waiting[i].id), Without(waiting, i))
    ensures !AdjacentStations(customer, Moved(routes, m, waiting[i].id)[m.route])
  {
    hide AllMoves, AdjacentStations, HasCustomer, Subsequence, WaitingCustomers, Flat, Inserted, Ids;
    MovePlace(cost, routes, waiting[i], m);
    WithoutOne(waiting, i);
    var id := waiting[i].id;
    var visits := if m.route < |routes| then routes[m.route] else [];
    var after := Inserted(visits, m.position, id);
    InsertedVisits(visits, m.position, id);
    EmptyRoute(customer);
    InsertedCanonical(customer, visits, m.position, waiting[i]);
    InsertedHasCustomer(customer, visits, m.position, id);
    var left := Without(waiting, i);
    if m.route < |routes| {
      FlatReplaced(routes, m.route, after);
      MoveSum(multiset(Flat(routes)), multiset(visits), multiset{id}, multiset(Flat(routes[m.route := after])), multiset(Ids(left)));
      if m.route < |retained| { SubsequenceInserted(retained[m.route], visits, m.position, id); }
    } else {
      FlatNext(routes, after);
      NoVisits();
      OpenSum(multiset(Flat(routes)), multiset{id}, multiset(Ids(left)));
    }
    forall j | 0 <= j < |left| ensures left[j].station == !customer(left[j].id) {
      assert left[j] == waiting[if j < i then j else j + 1];
    }
  }

  lemma EmptyRoute(customer: Kinds)
    ensures !AdjacentStations(customer, [])
  {
  }

  lemma NoVisits()
    ensures var none: seq<int> := []; multiset(none) == multiset{}
  {
  }

  lemma MoveSum(flat: multiset<int>, visits: multiset<int>, one: multiset<int>, moved: multiset<int>, ids: multiset<int>)
    requires moved + visits == flat + (visits + one)
    ensures flat + (ids + one) == moved + ids
  {
    forall x ensures (flat + (ids + one))[x] == (moved + ids)[x] {
      assert (moved + visits)[x] == (flat + (visits + one))[x];
    }
  }

  lemma OpenSum(flat: multiset<int>, one: multiset<int>, ids: multiset<int>)
    ensures flat + (ids + one) == flat + (multiset{} + one) + ids
  {
  }

  lemma {:induction false} StartKept(customer: Kinds, remaining: seq<seq<int>>, customers: seq<int>, stations: seq<int>)
    requires Canonical(customer, remaining)
    requires (forall i | 0 <= i < |customers| :: customer(customers[i])) && forall i | 0 <= i < |stations| :: !customer(stations[i])
    ensures Kept(customer, multiset(Flat(remaining)) + multiset(customers) + multiset(stations), remaining,
                 |remaining| + |customers|, remaining, Tokens(customers, stations))
  {
    hide AdjacentStations, HasCustomer, Subsequence, WaitingCustomers, Flat;
    var tokens := Tokens(customers, stations);
    TokenIds(customers, stations);
    FirstCustomers(customers, stations, |tokens|);
    assert tokens[..|tokens|] == tokens;
    assert multiset(customers + stations) == multiset(customers) + multiset(stations);
    JoinedSum(multiset(Flat(remaining)), multiset(customers), multiset(stations));
    forall r | 0 <= r < |remaining| ensures Subsequence(remaining[r], remaining[r]) {
      SubsequenceSelf(remaining[r]);
    }
    forall i | 0 <= i < |tokens| ensures tokens[i].station == !customer(tokens[i].id) {
      if i >= |customers| { assert tokens[i] == tokens[|customers| + (i - |customers|)]; }
    }
  }

  lemma JoinedSum(a: multiset<int>, b: multiset<int>, c: multiset<int>)
    ensures a + b + c == a + (b + c)
  {
  }

  /** Customers always have a move, so only stations without an open slot can block the repair. */
  lemma {:induction false} BlockedIsStuck(op: Operator, cost: VisitCosts, routes: seq<seq<int>>, waiting: seq<Token>)
    requires waiting != [] && FreshChoice(op, cost, routes, waiting, |waiting|).None?
    ensures Stuck(routes, waiting)
  {
    hide FreshChoice, MovesInto;
    FreshChoiceIs(op, cost, routes, waiting, |waiting|);
    forall i | 0 <= i < |waiting|
      ensures waiting[i].station
        && forall r: nat, slot: nat | r < |routes| && slot <= |routes[r]| :: !JointMoves.Open(routes[r], waiting[i], slot)
    {
      assert AllMoves(cost, routes, waiting[i]) == [];
      MovesIntoAre(cost, routes, waiting[i], |routes|);
      forall r: nat, slot: nat | r < |routes| && slot <= |routes[r]| ensures !JointMoves.Open(routes[r], waiting[i], slot) {
        assert !IntoMove(cost, routes, waiting[i], |routes|, MoveAt(cost, routes[r], r, waiting[i], slot));
      }
    }
  }

  // ----- the run -----

  /** Routes and waiting tokens after inserting the token of the fresh choice by its best move; nothing when every
      token is blocked. */
  function FreshStep(op: Operator, cost: VisitCosts, routes: seq<seq<int>>, waiting: seq<Token>): (r: Option<State>)
    ensures r.Some? ==> |r.value.waiting| == |waiting| - 1
  {
    var c := FreshChoice(op, cost, routes, waiting, |waiting|);
    FreshChoiceIs(op, cost, routes, waiting, |waiting|);
    match c
    case None => None
    case Some(choice) =>
      var token, m := waiting[choice.token], choice.ranking.best;
      MovePlace(cost, routes, token, m);
      Some(State(Moved(routes, m, token.id), Without(waiting, choice.token)))
  }

  datatype State = State(routes: seq<seq<int>>, waiting: seq<Token>)

  /** Where the run ends that rescores every slot of every route before every insertion. */
  function FreshRun(op: Operator, cost: VisitCosts, routes: seq<seq<int>>, waiting: seq<Token>): State
    decreases |waiting|
  {
    if waiting == [] then State(routes, waiting)
    else
      match FreshStep(op, cost, routes, waiting)
      case None => State(routes, waiting)
      case Some(next) => FreshRun(op, cost, next.routes, next.waiting)
  }

  /** Insert the chosen token: the step of rescoring everything. Without a choice the routes stay as they are. */
  method InsertNext(customer: Kinds, ghost total: multiset<int>, ghost retained: seq<seq<int>>,
                    workspace: Workspace, op: Operator, pending: seq<nat>) returns (failure: Option<string>, rest: seq<nat>)
    requires workspace.Valid() && pending != [] && forall i | 0 <= i < |pending| :: pending[i] < |workspace.tokens|
    requires Kept(customer, total, retained, workspace.capacity, workspace.routes, Waiting(workspace.tokens, pending))
    modifies workspace
    ensures workspace.Valid() && forall i | 0 <= i < |rest| :: rest[i] < |workspace.tokens|
    ensures Kept(customer, total, retained, workspace.capacity, workspace.routes, Waiting(workspace.tokens, rest))
    ensures failure.Some? ==>
      failure.value == ALL_BLOCKED && Stuck(workspace.routes, Waiting(workspace.tokens, pending)) && rest == pending
      && workspace.routes == old(workspace.routes)
    ensures FreshStep(op, workspace.cost, old(workspace.routes), Waiting(workspace.tokens, pending))
      == if failure.Some? then None else Some(State(workspace.routes, Waiting(workspace.tokens, rest)))
    // and the chosen token, not one with the same id, stops waiting
    ensures failure.None? ==>
      var c := FreshChoice(op, workspace.cost, old(workspace.routes), Waiting(workspace.tokens, pending), |pending|);
      c.Some? && c.value.token < |pending| && rest == Without(pending, c.value.token)
  {
    hide Kept, FreshChoice, AllMoves, Inserted, Stuck, AdjacentStations;
    ghost var waiting, routes := Waiting(workspace.tokens, pending), workspace.routes;
    var c := workspace.ChooseToken(op, pending);
    if c.None? {
      BlockedIsStuck(op, workspace.cost, routes, waiting);
      return Some(ALL_BLOCKED), pending;
    }
    FreshChoiceIs(op, workspace.cost, routes, waiting, |waiting|);
    var index, m := c.value.token, c.value.ranking.best;
    var token := workspace.tokens[pending[index]];
    MoveKeeps(customer, total, retained, workspace.capacity, workspace.cost, routes, waiting, index, m);
    var visits: seq<int> := [];
    if m.route < |workspace.routes| {
      visits := workspace.routes[m.route];
    } else if token.station {
      return Some("station_singleton_forbidden"), pending;
    }
    visits := Inserted(visits, m.position, token.id);
    if AdjacentStations(customer, visits) { return Some("adjacent_station_candidate"), pending; }
    workspace.Apply(m.route, visits);
    rest := Without(pending, index);
    assert Waiting(workspace.tokens, rest) == Without(waiting, index);
    failure := None;
  }

  /** The checks on a completed repair; none of them can fail. */
  method Completed(customer: Kinds, original: seq<seq<int>>, remaining: seq<seq<int>>, routes: seq<seq<int>>,
                   ghost capacity: nat) returns (failure: string)
    requires Kept(customer, multiset(Flat(original)), remaining, capacity, routes, [])
    ensures failure == ""
  {
    hide Kept, Flat, AdjacentStations, HasCustomer;
    FinalFacts(customer, multiset(Flat(original)), remaining, capacity, routes);
    if multiset(Flat(original)) != multiset(Flat(routes)) { return "occurrence_conservation"; }
    for r := 0 to |routes| {
      if !HasCustomer(customer, routes[r]) || AdjacentStations(customer, routes[r]) {
        return "invalid_completed_route";
      }
      if r < |remaining| {
        var matched := MatchAll(remaining[r], routes[r]);
        if matched != |remaining[r]| { return "retained_subsequence_changed"; }
      }
    }
    failure := "";
  }

  /** Insert the waiting tokens one by one. Of all the reasons to give up only the blocked one can occur. */
  method Repair(customer: Kinds, original: seq<seq<int>>, remaining: seq<seq<int>>, customers: seq<int>,
                stations: seq<int>, op: Operator, cost: VisitCosts, represent: Representatives)
      returns (o: Outcome)
    requires Canonical(customer, remaining) && Certifies(cost, represent)
    requires (forall i | 0 <= i < |customers| :: customer(customers[i])) && forall i | 0 <= i < |stations| :: !customer(stations[i])
    requires multiset(Flat(remaining)) + multiset(customers) + multiset(stations) == multiset(Flat(original))
    ensures var end := FreshRun(op, cost, remaining, Tokens(customers, stations));
      && o == (if end.waiting == [] then Repaired(end.routes) else RolledBack(ALL_BLOCKED))
      && (o.RolledBack? ==> Stuck(end.routes, end.waiting))
      && Kept(customer, multiset(Flat(original)), remaining, |remaining| + |customers|, end.routes, end.waiting)
  {
    hide Kept, Canonical, Flat, Stuck, FreshStep;
    var tokens := Tokens(customers, stations);
    var pending: seq<nat> := seq(|tokens|, i => i);
    var workspace := new Workspace(cost, represent, tokens, remaining, |customers|);
    ghost var total := multiset(Flat(original));
    StartKept(customer, remaining, customers, stations);
    assert Waiting(tokens, pending) == tokens;
    while pending != []
      invariant fresh(workspace) && workspace.Valid() && workspace.tokens == tokens && workspace.cost == cost
      invariant workspace.capacity == |remaining| + |customers|
      invariant forall i | 0 <= i < |pending| :: pending[i] < |tokens|
      invariant FreshRun(op, cost, workspace.routes, Waiting(tokens, pending)) == FreshRun(op, cost, remaining, tokens)
      invariant Kept(customer, total, remaining, workspace.capacity, workspace.routes, Waiting(tokens, pending))
      decreases |pending|
    {
      var failure, rest := InsertNext(customer, total, remaining, workspace, op, pending);
      if failure.Some? {
        StuckWaits(workspace.routes, Waiting(tokens, pending));
        return RolledBack(failure.value);
      }
      pending := rest;
    }
    assert Waiting(tokens, pending) == [];
    o := Repaired(workspace.routes);
    var failure := Completed(customer, original, remaining, workspace.routes, workspace.capacity);
    if failure != "" { o := RolledBack(failure); }
  }

  lemma StuckWaits(routes: seq<seq<int>>, waiting: seq<Token>)
    requires Stuck(routes, waiting)
    ensures waiting != []
  {
  }

  method MatchAll(a: seq<int>, b: seq<int>) returns (i: nat)
    ensures i == Matched(a, b)
  {
    i := 0;
    for k := 0 to |b|
      invariant i == Matched(a, b[..k])
    {
      assert b[..k + 1][..k] == b[..k];
      if i < |a| && b[k] == a[i] { i := i + 1; }
    }
    assert b[..|b|] == b;
  }

  lemma {:induction false} FinalFacts(customer: Kinds, total: multiset<int>, retained: seq<seq<int>>, capacity: nat, routes: seq<seq<int>>)
    requires Kept(customer, total, retained, capacity, routes, [])
    ensures multiset(Flat(routes)) == total
    ensures forall r | 0 <= r < |routes| :: HasCustomer(customer, routes[r]) && !AdjacentStations(customer, routes[r])
    ensures |retained| <= |routes| && forall r | 0 <= r < |retained| :: Matched(retained[r], routes[r]) == |retained[r]|
  {
    hide AdjacentStations, HasCustomer, Subsequence, Matched, Flat;
    assert Ids([]) == [];
    forall r | 0 <= r < |retained| ensures Matched(retained[r], routes[r]) == |retained[r]| {
      SubsequenceMatched(retained[r], routes[r]);
    }
  }
}
