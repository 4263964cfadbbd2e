/** The check that a solution serves every customer exactly once (src/core.cpp, `validate_partition`). */
module Partitions {
  import opened Network
  import opened Sequences
  import opened PlanNodes

  datatype Plan = Plan(customers: seq<int>, gaps: seq<seq<int>>, visits: seq<int>)

  /** The stored visits are the expansion of the stored gaps, around at least one customer. */
  predicate Consistent(p: Plan) {
    p.customers != [] && |p.gaps| == |p.customers| + 1 && p.visits == Expand(p.customers, p.gaps)
  }

  /** The customers of all plans, in order. */
  function Served(plans: seq<Plan>): seq<int> {
    if plans == [] then [] else Served(plans[..|plans| - 1]) + plans[|plans| - 1].customers
  }

  /** `all` lists the customers of the instance once each. */
  ghost predicate ListsCustomers(net: Instance, all: seq<int>) {
    Distinct(all) && forall id :: id in all <==> net.kind(id).Customer?
  }

  ghost predicate Partition(all: seq<int>, plans: seq<Plan>) {
    (forall p | p in plans :: Consistent(p)) && multiset(Served(plans)) == multiset(all)
  }

  /** What has been seen so far: customers only, none twice. */
  ghost predicate Seen(net: Instance, served: seq<int>, seen: set<int>) {
    && Distinct(served)
    && (forall id :: id in seen <==> id in served)
    && forall id | id in served :: net.kind(id).Customer?
  }

  lemma {:induction false} ServedNext(plans: seq<Plan>, i: nat)
    requires i < |plans|
    ensures Served(plans[..i + 1]) == Served(plans[..i]) + plans[i].customers
  {
    assert plans[..i + 1][..i] == plans[..i];
  }

  lemma {:induction false} ServedPrefix(plans: seq<Plan>, i: nat)
    requires i <= |plans|
    ensures Served(plans[..i]) <= Served(plans)
    decreases |plans| - i
  {
    if i < |plans| {
      ServedNext(plans, i);
      ServedPrefix(plans, i + 1);
    } else {
      assert plans[..i] == plans;
    }
  }

  /** A repeated visit cannot be undone by later ones. */
  lemma RepeatRefutes(s: seq<int>, k: nat)
    requires k < |s| && s[k] in s[..k]
    ensures multiset(s)[s[k]] > 1
  {
    assert s == s[..k] + [s[k]] + s[k + 1..];
    assert multiset(s) == multiset(s[..k]) + multiset{s[k]} + multiset(s[k + 1..]);
    assert multiset(s[..k])[s[k]] > 0;
  }

  lemma {:induction false} OnceEach(all: seq<int>, served: seq<int>)
    requires Distinct(all) && Distinct(served)
    ensures multiset(served) == multiset(all) <==> forall id :: id in served <==> id in all
  {
    forall id ensures multiset(served)[id] == multiset(all)[id] <==> (id in served <==> id in all) {
      DistinctCount(served, id);
      DistinctCount(all, id);
    }
    if multiset(served) == multiset(all) {
      forall id ensures id in served <==> id in all {
        assert multiset(served)[id] == multiset(all)[id];
      }
    }
  }

  /** A customer that is misplaced or served before refutes the partition. */
  lemma {:induction false} Refuted(net: Instance, all: seq<int>, plans: seq<Plan>, k: nat)
    requires ListsCustomers(net, all) && k < |Served(plans)|
    requires !net.kind(Served(plans)[k]).Customer? || Served(plans)[k] in Served(plans)[..k]
    ensures !Partition(all, plans)
  {
    var served := Served(plans);
    DistinctCount(all, served[k]);
    if net.kind(served[k]).Customer? { RepeatRefutes(served, k); }
    assert multiset(served)[served[k]] > 0;
  }

  /** Add the customers of one plan to the seen ones; `at` is the first that is repeated or no customer. */
  method SeePlan(net: Instance, customers: seq<int>, start: set<int>, ghost served: seq<int>)
    returns (ok: bool, seen: set<int>, ghost at: nat)
    requires Seen(net, served, start)
    ensures ok ==> Seen(net, served + customers, seen)
    ensures !ok ==>
      at < |customers| && (!net.kind(customers[at]).Customer? || customers[at] in served + customers[..at])
  {
    seen, at := start, 0;
    assert served + customers[..0] == served;
    for i := 0 to |customers|
      invariant Seen(net, served + customers[..i], seen)
    {
      var id := customers[i];
      if !net.kind(id).Customer? || id in seen {
        assert id in seen ==> id in served + customers[..i];
        return false, seen, i;
      }
      DistinctNext(served + customers[..i], customers[i]);
      assert served + customers[..i + 1] == served + customers[..i] + [customers[i]];
      seen := seen + {customers[i]};
    }
    assert customers[..|customers|] == customers;
    return true, seen, at;
  }

  /** Read every plan; the ones read are consistent and disjoint, unless no partition is possible. */
  method SeePlans(net: Instance, all: seq<int>, plans: seq<Plan>) returns (ok: bool, seen: set<int>)
    requires ListsCustomers(net, all)
    ensures ok ==> Seen(net, Served(plans), seen) && forall p | p in plans :: Consistent(p)
    ensures !ok ==> !Partition(all, plans)
  {
    hide Consistent;
    seen := {};
    for i := 0 to |plans|
      invariant Seen(net, Served(plans[..i]), seen) && forall p | p in plans[..i] :: Consistent(p)
    {
      if !Consistent(plans[i]) {
        assert plans[i] in plans;
        return false, seen;
      }
      ghost var before, customers := Served(plans[..i]), plans[i].customers;
      ServedNext(plans, i);
      assert plans[..i + 1] == plans[..i] + [plans[i]];
      var good, more;
      ghost var at;
      good, more, at := SeePlan(net, plans[i].customers, seen, before);
      if !good {
        ServedPrefix(plans, i + 1);
        FirstFault(net, all, plans, before, customers, at);
        return false, seen;
      }
      seen := more;
    }
    assert plans[..|plans|] == plans;
    return true, seen;
  }

  lemma {:induction false} FirstFault(net: Instance, all: seq<int>, plans: seq<Plan>, before: seq<int>, customers: seq<int>, at: nat)
    requires ListsCustomers(net, all) && before + customers <= Served(plans) && at < |customers|
    requires !net.kind(customers[at]).Customer? || customers[at] in before + customers[..at]
    ensures !Partition(all, plans)
  {
    assert Served(plans)[..|before| + at] == before + customers[..at];
    Refuted(net, all, plans, |before| + at);
  }

  /** `validate_partition` accepts exactly the consistent plans that serve every customer exactly once. The size
      check before the membership checks changes nothing. */
  method ValidatePartition(net: Instance, all: seq<int>, plans: seq<Plan>) returns (valid: bool)
    requires ListsCustomers(net, all)
    ensures valid <==> Partition(all, plans)
  {
    hide Served, Consistent;
    var ok, seen := SeePlans(net, all, plans);
    if !ok { return false; }
    OnceEach(all, Served(plans));
    SizeOf(Served(plans), seen);
    if |seen| != |all| {
      SizesDiffer(Served(plans), all);
      return false;
    }
    for i := 0 to |all|
      invariant forall j | 0 <= j < i :: all[j] in seen
    {
      var id := all[i];
      if id !in seen {
        assert id in all && id !in Served(plans);
        return false;
      }
    }
    return true;
  }

  lemma {:induction false} SizeOf(served: seq<int>, seen: set<int>)
    requires Distinct(served) && forall id :: id in seen <==> id in served
    ensures |seen| == |served|
  {
    if served == [] {
      assert forall id :: id !in seen;
    } else {
      var n := |served| - 1;
      assert served == served[..n] + [served[n]];
      DistinctNext(served[..n], served[n]);
      SizeOf(served[..n], seen - {served[n]});
    }
  }

  lemma SizesDiffer(a: seq<int>, b: seq<int>)
    requires |a| != |b|
    ensures multiset(a) != multiset(b)
  {
    assert |multiset(a)| == |a| && |multiset(b)| == |b|;
  }
}
