/** Route columns and their order (src/pool.cpp, include/ils_sp/pool.hpp). */
module PoolRanks {
  import opened Common
  import opened Sequences

  datatype Plan = Plan(customers: seq<int>, visits: seq<int>, cost: real, feasible: bool, exact: bool)

  datatype Column = Column(plan: Plan, coverage: seq<int>, cost: real, signature: seq<int>)

  /** Cost less the duals of the covered customers; a customer without a dual counts zero. */
  function ReducedCost(c: Column, duals: map<int, real>): real {
    c.cost - DualSum(c.coverage, duals)
  }

  function DualSum(ids: seq<int>, duals: map<int, real>): real {
    if ids == [] then 0.0
    else DualSum(ids[..|ids| - 1], duals)
         + (if ids[|ids| - 1] in duals then duals[ids[|ids| - 1]] else 0.0)
  }

  // ----- order -----

  predicate RankLess(left: Column, right: Column, duals: map<int, real>) {
    var l, r := ReducedCost(left, duals), ReducedCost(right, duals);
    if l != r then l < r
    else if left.cost != right.cost then left.cost < right.cost
    else if left.coverage != right.coverage then LexLess(left.coverage, right.coverage)
    else LexLess(left.signature, right.signature)
  }

  /** Ranks are a strict weak order: what is not before `b` while `b` is not before `c` is not before `c`. */
  lemma RankNegativelyTransitive(a: Column, b: Column, c: Column, duals: map<int, real>)
    requires !RankLess(b, a, duals) && !RankLess(c, b, duals)
    ensures !RankLess(c, a, duals)
  {
    hide LexLess, ReducedCost;
    LexTotal(a.coverage, b.coverage);
    LexTotal(b.coverage, c.coverage);
    LexTotal(a.coverage, c.coverage);
    LexTotal(a.signature, b.signature);
    LexTotal(b.signature, c.signature);
    LexTotal(a.signature, c.signature);
    if LexLess(c.coverage, a.coverage) && LexLess(a.coverage, b.coverage) { LexTransitive(c.coverage, a.coverage, b.coverage); }
    if LexLess(b.coverage, c.coverage) && LexLess(c.coverage, a.coverage) { LexTransitive(b.coverage, c.coverage, a.coverage); }
    if LexLess(c.signature, a.signature) && LexLess(a.signature, b.signature) { LexTransitive(c.signature, a.signature, b.signature); }
    if LexLess(b.signature, c.signature) && LexLess(c.signature, a.signature) { LexTransitive(b.signature, c.signature, a.signature); }
  }

  lemma RankIrreflexive(a: Column, duals: map<int, real>)
    ensures !RankLess(a, a, duals)
  {
    LexTotal(a.signature, a.signature);
  }

  lemma RankAsymmetric(a: Column, b: Column, duals: map<int, real>)
    requires RankLess(a, b, duals)
    ensures !RankLess(b, a, duals)
  {
    LexTotal(a.coverage, b.coverage);
    LexTotal(a.signature, b.signature);
  }

  /** No column ranks before an earlier one. */
  ghost predicate Ranked(cs: seq<Column>, duals: map<int, real>) {
    forall i, j | 0 <= i < j < |cs| :: !RankLess(cs[j], cs[i], duals)
  }

  function InsertRanked(cs: seq<Column>, c: Column, duals: map<int, real>): (r: seq<Column>)
    ensures |r| == |cs| + 1 && forall d :: d in r <==> d in cs || d == c
  {
    if cs == [] || RankLess(c, cs[0], duals) then [c] + cs
    else
      assert cs == [cs[0]] + cs[1..];
      [cs[0]] + InsertRanked(cs[1..], c, duals)
  }

  lemma {:induction false} InsertRankedOrder(cs: seq<Column>, c: Column, duals: map<int, real>)
    requires Ranked(cs, duals)
    ensures Ranked(InsertRanked(cs, c, duals), duals)
  {
    hide RankLess;
    var r := InsertRanked(cs, c, duals);
    if cs != [] && RankLess(c, cs[0], duals) {
      RankAsymmetric(c, cs[0], duals);
      forall i, j | 0 <= i < j < |r| ensures !RankLess(r[j], r[i], duals) {
        if i == 0 && j > 1 { RankNegativelyTransitive(c, cs[0], cs[j - 1], duals); }
      }
    } else if cs != [] {
      InsertRankedOrder(cs[1..], c, duals);
      var rest := InsertRanked(cs[1..], c, duals);
      forall j | 0 <= j < |rest| ensures !RankLess(rest[j], cs[0], duals) {
        assert rest[j] in rest;
        assert rest[j] == c || rest[j] in cs[1..];
      }
    }
  }

  lemma {:induction false} InsertRankedOnce(cs: seq<Column>, c: Column, duals: map<int, real>)
    requires Distinct(cs) && c !in cs
    ensures Distinct(InsertRanked(cs, c, duals))
  {
    hide RankLess;
    if cs != [] && !RankLess(c, cs[0], duals) {
      InsertRankedOnce(cs[1..], c, duals);
      var rest := InsertRanked(cs[1..], c, duals);
      forall j | 0 <= j < |rest| ensures rest[j] != cs[0] {
        assert rest[j] in rest;
        assert rest[j] == c || rest[j] in cs[1..];
      }
    }
  }

  /** An incumbent keeps its place against a candidate that is not clearly better. */
  predicate Dominates(incumbent: Column, candidate: Column, tolerance: real) {
    if incumbent.cost < candidate.cost - tolerance then true
    else if incumbent.cost - candidate.cost > tolerance || candidate.cost - incumbent.cost > tolerance then false
    else incumbent.plan.exact || !candidate.plan.exact
  }

  /** What replacing a column may never raise: its cost, with an allowance once it is exact. */
  function Potential(c: Column, tolerance: real): real {
    c.cost - (if c.plan.exact then tolerance else 0.0)
  }

  lemma ReplacementLowersPotential(incumbent: Column, candidate: Column, tolerance: real)
    requires 0.0 <= tolerance && !Dominates(incumbent, candidate, tolerance)
    ensures Potential(candidate, tolerance) <= Potential(incumbent, tolerance)
  {
  }

  // ----- columns from plans -----

  /** Insert into a strictly increasing list. */
  function InsertSorted(xs: seq<int>, x: int): (r: seq<int>)
    requires Increasing(xs)
    ensures Increasing(r)
    ensures forall y :: y in r <==> y in xs || y == x
    ensures |r| == |xs| + (if x in xs then 0 else 1)
  {
    if xs == [] || x < xs[0] then
      assert forall y :: y in [x] + xs <==> y in xs || y == x;
      [x] + xs
    else if x == xs[0] then xs
    else
      assert xs == [xs[0]] + xs[1..];
      var rest := InsertSorted(xs[1..], x);
      assert forall k | 0 <= k < |rest| :: rest[k] in xs[1..] || rest[k] == x;
      assert forall k | 0 <= k < |rest| :: xs[0] < rest[k];
      [xs[0]] + rest
  }

  predicate Increasing(xs: seq<int>) {
    forall i, j | 0 <= i < j < |xs| :: xs[i] < xs[j]
  }

  /** `sorted_customer_set`. */
  function SortedSet(ids: seq<int>): (r: seq<int>)
    ensures Increasing(r)
    ensures forall y :: y in r <==> y in ids
    ensures |r| <= |ids|
  {
    if ids == [] then []
    else
      assert ids == ids[..|ids| - 1] + [ids[|ids| - 1]];
      InsertSorted(SortedSet(ids[..|ids| - 1]), ids[|ids| - 1])
  }

  lemma {:induction false} SortedSetSize(ids: seq<int>)
    ensures |SortedSet(ids)| == |ids| <==> Distinct(ids)
  {
    hide InsertSorted, Distinct, Increasing;
    if ids != [] {
      var n := |ids| - 1;
      SortedSetSize(ids[..n]);
      DistinctNext(ids[..n], ids[n]);
      assert ids[..n] + [ids[n]] == ids;
    } else {
      NoCustomers();
    }
  }

  lemma NoCustomers()
    ensures Distinct<int>([])
  {
  }

  /** Plans that can become columns: feasible, with customers, none of them repeated. */
  ghost predicate Poolable(p: Plan) {
    p.feasible && p.customers != [] && Distinct(p.customers)
  }

  /** `RouteColumn::from_plan`; nothing for a plan it refuses. */
  method FromPlan(p: Plan) returns (c: Option<Column>)
    ensures c.Some? <==> Poolable(p)
    ensures c.Some? ==> c.value == Column(p, SortedSet(p.customers), p.cost, p.visits)
  {
    SortedSetSize(p.customers);
    if !p.feasible || p.customers == [] { return None; }
    var coverage := SortedSet(p.customers);
    if |coverage| != |p.customers| { return None; }
    return Some(Column(p, coverage, p.cost, p.visits));
  }
}
