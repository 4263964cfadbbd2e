/** Taking customers and the stations next to them out of a solution (src/search.cpp,
    `destroy_joint_occurrences`). */
module JointDestroy {
  import opened Common
  import opened Sequences
  import opened Insertion
  import opened JointMoves
  import opened JointRepair
  import opened JointRepairRun

  function Customers(customer: Kinds, visits: seq<int>): seq<int> {
    if visits == [] then []
    else Customers(customer, visits[..|visits| - 1]) + if customer(visits[|visits| - 1]) then [visits[|visits| - 1]] else []
  }

  /** A removed customer, or a station in a gap next to one. */
  predicate Extracted(customer: Kinds, removed: set<int>, visits: seq<int>, i: nat)
    requires i < |visits|
  {
    if customer(visits[i]) then visits[i] in removed
    else
      var customers, gap := Customers(customer, visits), |Customers(customer, visits[..i])|;
      (0 < gap <= |customers| && customers[gap - 1] in removed) || (gap < |customers| && customers[gap] in removed)
  }

  /** What stays of the first `n` visits. */
  function Retained(customer: Kinds, removed: set<int>, visits: seq<int>, n: nat): seq<int>
    requires n <= |visits|
  {
    if n == 0 then []
    else Retained(customer, removed, visits, n - 1)
         + if Extracted(customer, removed, visits, n - 1) then [] else [visits[n - 1]]
  }

  /** The stations extracted from the first `n` visits. */
  function Stations(customer: Kinds, removed: set<int>, visits: seq<int>, n: nat): seq<int>
    requires n <= |visits|
  {
    if n == 0 then []
    else Stations(customer, removed, visits, n - 1)
         + if Extracted(customer, removed, visits, n - 1) && !customer(visits[n - 1]) then [visits[n - 1]] else []
  }

  /** The removed customers among some visits. */
  function Taken(customer: Kinds, removed: set<int>, visits: seq<int>): seq<int> {
    if visits == [] then []
    else Taken(customer, removed, visits[..|visits| - 1])
         + if customer(visits[|visits| - 1]) && visits[|visits| - 1] in removed then [visits[|visits| - 1]] else []
  }

  // ----- gaps -----

  lemma {:induction false} CustomersAt(customer: Kinds, visits: seq<int>, i: nat)
    requires i <= |visits|
    ensures Customers(customer, visits[..i]) <= Customers(customer, visits)
    decreases |visits|
  {
    if i == |visits| {
      assert visits[..i] == visits;
    } else {
      CustomersAt(customer, visits[..|visits| - 1], i);
      assert visits[..|visits| - 1][..i] == visits[..i];
    }
  }

  /** The customer at `i` is the one that closes the gap before it. */
  lemma {:induction false} CustomerClosesGap(customer: Kinds, visits: seq<int>, i: nat)
    requires i < |visits| && customer(visits[i])
    ensures var gap := |Customers(customer, visits[..i])|;
      gap < |Customers(customer, visits)| && Customers(customer, visits)[gap] == visits[i]
  {
    assert visits[..i + 1][..i] == visits[..i];
    CustomersAt(customer, visits, i + 1);
  }

  lemma StationKeepsGap(customer: Kinds, visits: seq<int>, i: nat)
    requires i < |visits| && !customer(visits[i])
    ensures Customers(customer, visits[..i + 1]) == Customers(customer, visits[..i])
  {
    assert visits[..i + 1][..i] == visits[..i];
  }

  /** Behind a station that stays everything up to the next customer stays. */
  lemma NextStays(customer: Kinds, removed: set<int>, visits: seq<int>, i: nat)
    requires i + 1 < |visits| && !customer(visits[i]) && !Extracted(customer, removed, visits, i)
    ensures !Extracted(customer, removed, visits, i + 1)
  {
    hide Customers;
    StationKeepsGap(customer, visits, i);
    CustomersAt(customer, visits, i);
    if customer(visits[i + 1]) { CustomerClosesGap(customer, visits, i + 1); }
  }

  /** A station that ends what stays was the visit just before. */
  lemma {:induction false} LastStays(customer: Kinds, removed: set<int>, visits: seq<int>, n: nat)
    requires n <= |visits|
    ensures var kept := Retained(customer, removed, visits, n);
      kept != [] && !customer(kept[|kept| - 1]) ==>
        n > 0 && kept[|kept| - 1] == visits[n - 1] && !Extracted(customer, removed, visits, n - 1)
  {
    hide Extracted;
    if n > 1 {
      LastStays(customer, removed, visits, n - 1);
      var kept := Retained(customer, removed, visits, n - 1);
      if kept != [] && !customer(kept[|kept| - 1]) { NextStays(customer, removed, visits, n - 2); }
    }
  }

  /** Destruction creates no adjacent identical stations. */
  lemma {:induction false} NoNewAdjacency(customer: Kinds, removed: set<int>, visits: seq<int>, n: nat)
    requires n <= |visits| && !AdjacentStations(customer, visits)
    ensures !AdjacentStations(customer, Retained(customer, removed, visits, n))
  {
    hide Extracted;
    if n > 0 {
      NoNewAdjacency(customer, removed, visits, n - 1);
      LastStays(customer, removed, visits, n - 1);
      var kept := Retained(customer, removed, visits, n - 1);
      var more := Retained(customer, removed, visits, n);
      forall i | 1 <= i < |more| ensures !(more[i] == more[i - 1] && !customer(more[i])) {
        if i < |kept| {
          assert more[i] == kept[i] && more[i - 1] == kept[i - 1];
        } else {
          assert more[i] == visits[n - 1] && more[i - 1] == kept[|kept| - 1];
        }
      }
    }
  }

  // ----- customers that stay -----

  lemma {:induction false} RetainedHas(customer: Kinds, removed: set<int>, visits: seq<int>, n: nat, i: nat)
    requires i < n <= |visits| && !Extracted(customer, removed, visits, i)
    ensures visits[i] in Retained(customer, removed, visits, n)
  {
    hide Extracted;
    if i < n - 1 { RetainedHas(customer, removed, visits, n - 1, i); }
  }

  lemma {:induction false} RetainedFrom(customer: Kinds, removed: set<int>, visits: seq<int>, n: nat, x: int)
    requires n <= |visits| && x in Retained(customer, removed, visits, n)
    ensures exists i: nat :: i < n && visits[i] == x && !Extracted(customer, removed, visits, i)
  {
    hide Extracted;
    if x in Retained(customer, removed, visits, n - 1) {
      RetainedFrom(customer, removed, visits, n - 1, x);
    } else {
      assert visits[n - 1] == x;
    }
  }

  lemma {:induction false} CustomersFrom(customer: Kinds, visits: seq<int>, x: int)
    requires x in Customers(customer, visits)
    ensures customer(x) && exists i: nat :: i < |visits| && visits[i] == x
  {
    var n := |visits| - 1;
    if x in Customers(customer, visits[..n]) {
      CustomersFrom(customer, visits[..n], x);
      var i: nat :| i < n && visits[..n][i] == x;
      assert visits[i] == x;
    }
  }

  lemma {:induction false} SomeCustomer(customer: Kinds, visits: seq<int>)
    requires HasCustomer(customer, visits)
    ensures Customers(customer, visits) != []
  {
    var n := |visits| - 1;
    if !customer(visits[n]) {
      var i :| 0 <= i < |visits| && customer(visits[i]);
      assert visits[..n][i] == visits[i];
      SomeCustomer(customer, visits[..n]);
    }
  }

  /** If anything stays of a route with customers, a customer stays. */
  lemma {:induction false} CustomerStays(customer: Kinds, removed: set<int>, visits: seq<int>)
    requires HasCustomer(customer, visits) && Retained(customer, removed, visits, |visits|) != []
    ensures HasCustomer(customer, Retained(customer, removed, visits, |visits|))
  {
    hide Retained, Customers;
    var kept := Retained(customer, removed, visits, |visits|);
    RetainedFrom(customer, removed, visits, |visits|, kept[0]);
    var i: nat :| i < |visits| && visits[i] == kept[0] && !Extracted(customer, removed, visits, i);
    if customer(kept[0]) {
    } else {
      SomeCustomer(customer, visits);
      CustomersAt(customer, visits, i);
      var gap := |Customers(customer, visits[..i])|;
      var c := Customers(customer, visits)[if gap > 0 then gap - 1 else 0];
      CustomersFrom(customer, visits, c);
      var j: nat :| j < |visits| && visits[j] == c;
      RetainedHas(customer, removed, visits, |visits|, j);
      var k :| 0 <= k < |kept| && kept[k] == c;
    }
  }

  // ----- conservation -----

  function Count(s: seq<int>, x: int): nat {
    multiset(s)[x]
  }

  lemma {:induction false} RouteSplitCount(customer: Kinds, removed: set<int>, visits: seq<int>, n: nat, x: int)
    requires n <= |visits|
    ensures Count(Retained(customer, removed, visits, n), x) + Count(Stations(customer, removed, visits, n), x)
            + Count(Taken(customer, removed, visits[..n]), x) == Count(visits[..n], x)
  {
    hide Customers, Extracted, Taken, Count;
    if n > 0 {
      var v, extracted := visits[n - 1], Extracted(customer, removed, visits, n - 1);
      RouteSplitCount(customer, removed, visits, n - 1, x);
      TakenNext(customer, removed, visits, n - 1);
      if customer(v) { ExtractedCustomer(customer, removed, visits, n - 1); }
      hide Retained, Stations;
      SplitStep(customer, removed, visits, n - 1);
      CountAppend(Retained(customer, removed, visits, n - 1), if extracted then [] else [v], x);
      CountAppend(Stations(customer, removed, visits, n - 1), if extracted && !customer(v) then [v] else [], x);
      CountAppend(Taken(customer, removed, visits[..n - 1]), if customer(v) && v in removed then [v] else [], x);
      CountAppend(visits[..n - 1], [v], x);
      assert visits[..n] == visits[..n - 1] + [v];
    } else {
      NothingTaken(customer, removed);
      CountNothing(x);
      assert visits[..0] == [];
    }
  }

  lemma SplitStep(customer: Kinds, removed: set<int>, visits: seq<int>, n: nat)
    requires n < |visits|
    ensures var v, extracted := visits[n], Extracted(customer, removed, visits, n);
      && Retained(customer, removed, visits, n + 1) == Retained(customer, removed, visits, n) + (if extracted then [] else [v])
      && Stations(customer, removed, visits, n + 1)
         == Stations(customer, removed, visits, n) + (if extracted && !customer(v) then [v] else [])
  {
    hide Extracted;
  }

  lemma CountAppend(s: seq<int>, t: seq<int>, x: int)
    requires |t| <= 1
    ensures Count(s + t, x) == Count(s, x) + (if t != [] && t[0] == x then 1 else 0)
  {
  }

  lemma CountNothing(x: int)
    ensures Count([], x) == 0
  {
  }

  lemma {:induction false} NothingTaken(customer: Kinds, removed: set<int>)
    ensures Taken(customer, removed, []) == []
  {
  }

  lemma {:induction false} TakenNext(customer: Kinds, removed: set<int>, visits: seq<int>, n: nat)
    requires n < |visits|
    ensures Taken(customer, removed, visits[..n + 1])
         == Taken(customer, removed, visits[..n]) + if customer(visits[n]) && visits[n] in removed then [visits[n]] else []
  {
    assert visits[..n + 1][..n] == visits[..n];
  }

  lemma ExtractedCustomer(customer: Kinds, removed: set<int>, visits: seq<int>, i: nat)
    requires i < |visits| && customer(visits[i])
    ensures Extracted(customer, removed, visits, i) <==> visits[i] in removed
  {
  }

  /** What stays, the extracted stations and the removed customers are all the visits. */
  lemma {:induction false} RouteSplit(customer: Kinds, removed: set<int>, visits: seq<int>)
    ensures multiset(Retained(customer, removed, visits, |visits|)) + multiset(Stations(customer, removed, visits, |visits|))
            + multiset(Taken(customer, removed, visits)) == multiset(visits)
  {
    hide Retained, Stations, Taken;
    var kept, stations, taken := Retained(customer, removed, visits, |visits|),
      Stations(customer, removed, visits, |visits|), Taken(customer, removed, visits);
    forall x ensures (multiset(kept) + multiset(stations) + multiset(taken))[x] == multiset(visits)[x] {
      RouteSplitCount(customer, removed, visits, |visits|, x);
      assert Count(kept, x) == multiset(kept)[x] && Count(stations, x) == multiset(stations)[x];
      assert visits[..|visits|] == visits;
    }
  }

  lemma {:induction false} TakenAppend(customer: Kinds, removed: set<int>, a: seq<int>, b: seq<int>)
    ensures Taken(customer, removed, a + b) == Taken(customer, removed, a) + Taken(customer, removed, b)
    decreases |b|
  {
    if b == [] {
      assert a + b == a;
    } else {
      TakenAppend(customer, removed, a, b[..|b| - 1]);
      assert (a + b)[..|a + b| - 1] == a + b[..|b| - 1];
    }
  }

  lemma {:induction false} TakenCount(customer: Kinds, removed: set<int>, visits: seq<int>, x: int)
    ensures multiset(Taken(customer, removed, visits))[x]
         == if customer(x) && x in removed then multiset(visits)[x] else 0
  {
    if visits != [] {
      TakenCount(customer, removed, visits[..|visits| - 1], x);
      assert visits == visits[..|visits| - 1] + [visits[|visits| - 1]];
    }
  }

  /** Different customers of the solution, each visited once. */
  ghost predicate Removable(customer: Kinds, routes: seq<seq<int>>, customers: seq<int>) {
    && Distinct(customers)
    && forall i | 0 <= i < |customers| :: customer(customers[i]) && multiset(Flat(routes))[customers[i]] == 1
  }

  function Elements(s: seq<int>): (r: set<int>)
    ensures forall x :: x in r <==> x in s
  {
    set x | x in s
  }

  lemma {:induction false} TakenIsRemoved(customer: Kinds, routes: seq<seq<int>>, customers: seq<int>)
    requires Removable(customer, routes, customers)
    ensures multiset(Taken(customer, Elements(customers), Flat(routes))) == multiset(customers)
  {
    hide Flat, Taken;
    var removed := Elements(customers);
    forall x ensures multiset(Taken(customer, removed, Flat(routes)))[x] == multiset(customers)[x] {
      TakenCount(customer, removed, Flat(routes), x);
      DistinctCount(customers, x);
    }
  }

  // ----- the operation -----

  /** The stations extracted from the first routes, and the conservation so far. */
  ghost predicate Split(customer: Kinds, removed: set<int>, routes: seq<seq<int>>, remaining: seq<seq<int>>, stations: seq<int>) {
    && multiset(Flat(remaining)) + multiset(stations) + multiset(Taken(customer, removed, Flat(routes))) == multiset(Flat(routes))
    && Canonical(customer, remaining)
    && forall i | 0 <= i < |stations| :: !customer(stations[i])
  }

  method DestroyRoute(customer: Kinds, removed: set<int>, visits: seq<int>) returns (kept: seq<int>, stations: seq<int>)
    ensures kept == Retained(customer, removed, visits, |visits|)
    ensures stations == Stations(customer, removed, visits, |visits|)
  {
    var customers := Customers(customer, visits);
    var gap := 0;
    kept, stations := [], [];
    for i := 0 to |visits|
      invariant gap == |Customers(customer, visits[..i])|
      invariant kept == Retained(customer, removed, visits, i) && stations == Stations(customer, removed, visits, i)
    {
      assert visits[..i + 1][..i] == visits[..i];
      CustomersAt(customer, visits, i);
      var id := visits[i];
      if customer(id) {
        if id !in removed { kept := kept + [id]; }
        gap := gap + 1;
      } else {
        var left := gap != 0 && customers[gap - 1] in removed;
        var right := gap < |customers| && customers[gap] in removed;
        if left || right { stations := stations + [id]; } else { kept := kept + [id]; }
      }
    }
  }

  /** A route that keeps all its customers keeps everything. */
  lemma {:induction false} Untouched(customer: Kinds, removed: set<int>, visits: seq<int>, n: nat)
    requires n <= |visits| && forall i | 0 <= i < |visits| && customer(visits[i]) :: visits[i] !in removed
    ensures Retained(customer, removed, visits, n) == visits[..n] && Stations(customer, removed, visits, n) == []
  {
    if n > 0 {
      Untouched(customer, removed, visits, n - 1);
      if Extracted(customer, removed, visits, n - 1) {
        var customers, gap := Customers(customer, visits), |Customers(customer, visits[..n - 1])|;
        if 0 < gap <= |customers| { CustomersFrom(customer, visits, customers[gap - 1]); }
        if gap < |customers| { CustomersFrom(customer, visits, customers[gap]); }
      }
      assert visits[..n] == visits[..n - 1] + [visits[n - 1]];
    }
  }

  lemma {:induction false} StationsAreStations(customer: Kinds, removed: set<int>, visits: seq<int>, n: nat)
    requires n <= |visits|
    ensures forall i | 0 <= i < |Stations(customer, removed, visits, n)| :: !customer(Stations(customer, removed, visits, n)[i])
  {
    hide Extracted;
    if n > 0 { StationsAreStations(customer, removed, visits, n - 1); }
  }

  lemma {:induction false} SplitNext(customer: Kinds, removed: set<int>, routes: seq<seq<int>>, remaining: seq<seq<int>>, stations: seq<int>,
                  visits: seq<int>)
    requires Split(customer, removed, routes, remaining, stations)
    requires HasCustomer(customer, visits) && !AdjacentStations(customer, visits)
    ensures var kept, more := Retained(customer, removed, visits, |visits|), Stations(customer, removed, visits, |visits|);
      && !AdjacentStations(customer, kept)
      && Split(customer, removed, routes + [visits], if kept == [] then remaining else remaining + [kept], stations + more)
  {
    hide Retained, Stations, Taken, AdjacentStations, HasCustomer, Flat;
    var kept, more := Retained(customer, removed, visits, |visits|), Stations(customer, removed, visits, |visits|);
    var after := if kept == [] then remaining else remaining + [kept];
    NoNewAdjacency(customer, removed, visits, |visits|);
    if kept != [] { CustomerStays(customer, removed, visits); }
    StationsAreStations(customer, removed, visits, |visits|);
    RouteSplit(customer, removed, visits);
    FlatNext(routes, visits);
    FlatNext(remaining, kept);
    FlatJoined(customer, removed, routes, visits);
    assert kept == [] ==> multiset(kept) == multiset{};
    SplitSum(multiset(Flat(remaining)), multiset(stations), multiset(Taken(customer, removed, Flat(routes))), multiset(Flat(routes)),
             multiset(kept), multiset(more), multiset(Taken(customer, removed, visits)), multiset(visits));
    assert multiset(stations + more) == multiset(stations) + multiset(more);
    forall i | 0 <= i < |stations + more| ensures !customer((stations + more)[i]) {
      if i >= |stations| { assert (stations + more)[i] == more[i - |stations|]; }
    }
  }

  lemma {:induction false} FlatJoined(customer: Kinds, removed: set<int>, routes: seq<seq<int>>, visits: seq<int>)
    ensures multiset(Taken(customer, removed, Flat(routes + [visits])))
         == multiset(Taken(customer, removed, Flat(routes))) + multiset(Taken(customer, removed, visits))
  {
    hide Taken;
    assert (routes + [visits])[..|routes|] == routes;
    TakenAppend(customer, removed, Flat(routes), visits);
  }

  lemma SplitSum(a: multiset<int>, b: multiset<int>, c: multiset<int>, d: multiset<int>,
                 k: multiset<int>, m: multiset<int>, t: multiset<int>, v: multiset<int>)
    requires a + b + c == d && k + m + t == v
    ensures (a + k) + (b + m) + (c + t) == d + v
  {
    forall x ensures ((a + k) + (b + m) + (c + t))[x] == (d + v)[x] {
      assert (a + b + c)[x] == d[x] && (k + m + t)[x] == v[x];
    }
  }

  /** What stays of the routes, in their order; routes left empty disappear. */
  function Leftovers(customer: Kinds, removed: set<int>, routes: seq<seq<int>>): seq<seq<int>> {
    if routes == [] then []
    else
      var n := |routes| - 1;
      var kept := Retained(customer, removed, routes[n], |routes[n]|);
      Leftovers(customer, removed, routes[..n]) + if kept == [] then [] else [kept]
  }

  /** The stations extracted from the routes, in their order. */
  function AllStations(customer: Kinds, removed: set<int>, routes: seq<seq<int>>): seq<int> {
    if routes == [] then []
    else
      var n := |routes| - 1;
      AllStations(customer, removed, routes[..n]) + Stations(customer, removed, routes[n], |routes[n]|)
  }

  lemma {:induction false} RetainedSubsequence(customer: Kinds, removed: set<int>, visits: seq<int>, n: nat)
    requires n <= |visits|
    ensures Subsequence(Retained(customer, removed, visits, n), visits[..n])
  {
    hide Extracted;
    if n > 0 {
      RetainedSubsequence(customer, removed, visits, n - 1);
      assert visits[..n][..n - 1] == visits[..n - 1];
      if !Extracted(customer, removed, visits, n - 1) {
        var kept := Retained(customer, removed, visits, n);
        assert kept[..|kept| - 1] == Retained(customer, removed, visits, n - 1);
      } else {
        assert Retained(customer, removed, visits, n) == Retained(customer, removed, visits, n - 1);
      }
    }
  }

  /** Every leftover is the retained part of one of the routes, in the order of its visits. */
  lemma {:induction false} LeftoverOfRoute(customer: Kinds, removed: set<int>, routes: seq<seq<int>>, i: nat) returns (r: nat)
    requires i < |Leftovers(customer, removed, routes)|
    ensures r < |routes|
    ensures Leftovers(customer, removed, routes)[i] == Retained(customer, removed, routes[r], |routes[r]|) != []
    ensures Subsequence(Leftovers(customer, removed, routes)[i], routes[r])
  {
    hide Retained, Subsequence;
    var n := |routes| - 1;
    if i < |Leftovers(customer, removed, routes[..n])| {
      r := LeftoverOfRoute(customer, removed, routes[..n], i);
    } else {
      r := n;
      RetainedSubsequence(customer, removed, routes[n], |routes[n]|);
      assert routes[n][..|routes[n]|] == routes[n];
    }
  }

  /** Remove customers together with the stations of their gaps; routes left empty disappear. The check that
      no adjacent stations were created cannot fail. */
  method Destroy(customer: Kinds, routes: seq<seq<int>>, customers: seq<int>)
      returns (remaining: seq<seq<int>>, stations: seq<int>, failed: bool)
    requires Canonical(customer, routes) && Removable(customer, routes, customers)
    ensures !failed && Canonical(customer, remaining) && forall i | 0 <= i < |stations| :: !customer(stations[i])
    ensures remaining == Leftovers(customer, Elements(customers), routes)
    ensures stations == AllStations(customer, Elements(customers), routes)
    ensures multiset(Flat(remaining)) + multiset(customers) + multiset(stations) == multiset(Flat(routes))
  {
    hide Flat, AdjacentStations, HasCustomer, Retained, Stations, Taken, Split, Removable;
    var removed := Elements(customers);
    remaining, stations, failed := [], [], false;
    StartSplit(customer, removed);
    for r := 0 to |routes|
      invariant !failed && Split(customer, removed, routes[..r], remaining, stations)
      invariant remaining == Leftovers(customer, removed, routes[..r])
      invariant stations == AllStations(customer, removed, routes[..r])
    {
      var visits := routes[r];
      assert routes[..r + 1] == routes[..r] + [visits] && routes[..r + 1][..r] == routes[..r];
      SplitNext(customer, removed, routes[..r], remaining, stations, visits);
      if exists i :: 0 <= i < |visits| && customer(visits[i]) && visits[i] in removed {
        var kept, more := DestroyRoute(customer, removed, visits);
        stations := stations + more;
        if kept != [] {
          if AdjacentStations(customer, kept) { failed := true; return; }
          remaining := remaining + [kept];
        }
      } else {
        Untouched(customer, removed, visits, |visits|);
        NotEmpty(customer, visits);
        assert visits[..|visits|] == visits && stations + [] == stations;
        remaining := remaining + [visits];
      }
    }
    assert routes[..|routes|] == routes;
    TakenIsRemoved(customer, routes, customers);
    SplitDone(customer, removed, routes, remaining, stations, multiset(customers));
  }

  lemma NotEmpty(customer: Kinds, visits: seq<int>)
    requires HasCustomer(customer, visits)
    ensures visits != []
  {
  }

  lemma StartSplit(customer: Kinds, removed: set<int>)
    ensures Split(customer, removed, [], [], [])
  {
  }

  lemma {:induction false} SplitDone(customer: Kinds, removed: set<int>, routes: seq<seq<int>>, remaining: seq<seq<int>>, stations: seq<int>,
                  customers: multiset<int>)
    requires Split(customer, removed, routes, remaining, stations)
    requires multiset(Taken(customer, removed, Flat(routes))) == customers
    ensures Canonical(customer, remaining) && forall i | 0 <= i < |stations| :: !customer(stations[i])
    ensures multiset(Flat(remaining)) + customers + multiset(stations) == multiset(Flat(routes))
  {
    hide Flat, Taken;
    SumsSwapped(multiset(Flat(remaining)), customers, multiset(stations));
  }

  /** Destroy and repair a solution. The leftovers of its routes are refilled by the run that rescores everything,
      a partial repair of this solution up to its end. When that run inserts every token its routes are the
      result; when it gets stuck, on stations without an open slot, the solution comes back as it was. */
  method DestroyAndRepair(customer: Kinds, solution: seq<seq<int>>, customers: seq<int>, op: Operator,
                          cost: VisitCosts, represent: Representatives)
      returns (result: seq<seq<int>>, blocked: bool)
    requires Canonical(customer, solution) && Removable(customer, solution, customers) && Certifies(cost, represent)
    ensures var removed := Elements(customers);
      var remaining := Leftovers(customer, removed, solution);
      var end := FreshRun(op, cost, remaining, Tokens(customers, AllStations(customer, removed, solution)));
      && Kept(customer, multiset(Flat(solution)), remaining, |remaining| + |customers|, end.routes, end.waiting)
      && (blocked <==> end.waiting != [])
      && (blocked ==> result == solution && Stuck(end.routes, end.waiting))
      && (!blocked ==> result == end.routes && |remaining| <= |result|
                       && forall r | 0 <= r < |remaining| :: Subsequence(remaining[r], result[r]))
    ensures multiset(Flat(result)) == multiset(Flat(solution)) && Canonical(customer, result)
  {
    hide Flat, AdjacentStations, HasCustomer, Subsequence, Removable, Ids, Leftovers, AllStations, FreshRun, WaitingCustomers;
    var kept, stations, failed := Destroy(customer, solution, customers);
    RemovableCustomers(customer, solution, customers);
    var o := Repair(customer, solution, kept, customers, stations, op, cost, represent);
    match o
    case RolledBack(_) =>
      result, blocked := solution, true;
    case Repaired(repaired) =>
      result, blocked := repaired, false;
      NothingWaits(multiset(Flat(result)));
  }

  lemma RemovableCustomers(customer: Kinds, routes: seq<seq<int>>, customers: seq<int>)
    requires Removable(customer, routes, customers)
    ensures forall i | 0 <= i < |customers| :: customer(customers[i])
  {
  }

  lemma NothingWaits(flat: multiset<int>)
    ensures flat + multiset(Ids([])) == flat
  {
  }
}
