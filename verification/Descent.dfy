/** The neighbourhood loop (src/search.cpp, `VariableNeighborhoodDescent::improve`). Which neighbours are found
    is left open: any neighbour with nonnegative costs may turn up. */
module Descent {
  import opened Common
  import opened GapSelector

  /** What the loop looks at in a plan. */
  datatype Route = Route(cost: real, gaps: nat, deficient: bool)

  type Solution = seq<Route>

  function Total(s: Solution): real {
    if s == [] then 0.0 else Total(s[..|s| - 1]) + s[|s| - 1].cost
  }

  function GapCount(s: Solution): nat {
    if s == [] then 0 else GapCount(s[..|s| - 1]) + s[|s| - 1].gaps
  }

  predicate NonNegative(s: Solution) {
    forall r | 0 <= r < |s| :: 0.0 <= s[r].cost
  }

  lemma {:induction false} TotalNonNegative(s: Solution)
    requires NonNegative(s)
    ensures 0.0 <= Total(s)
  {
    if s != [] { TotalNonNegative(s[..|s| - 1]); }
  }

  predicate Improves(candidate: Solution, s: Solution) {
    Total(candidate) < Total(s) - COST_TOLERANCE
  }

  /** How many tolerances the cost is worth: every improvement lowers it. */
  function Level(s: Solution): int {
    (Total(s) / COST_TOLERANCE).Floor
  }

  lemma ImprovementLowersLevel(candidate: Solution, s: Solution)
    requires NonNegative(candidate) && Improves(candidate, s)
    ensures 0 <= Level(candidate) < Level(s)
  {
    hide Total;
    TotalNonNegative(candidate);
    var x, y := Total(candidate) / COST_TOLERANCE, Total(s) / COST_TOLERANCE;
    assert x + 1.0 < y;
    assert x.Floor as real <= x && y < y.Floor as real + 1.0;
  }

  function Deficient(s: Solution): nat -> bool {
    (r: nat) => r < |s| && s[r].deficient
  }

  function Counts(s: Solution): (c: seq<nat>)
    ensures |c| == |s| && forall r | 0 <= r < |s| :: c[r] == s[r].gaps
  {
    seq(|s|, r requires 0 <= r < |s| => s[r].gaps)
  }

  // ----- the proposal budget -----

  function Least(a: nat, b: nat): nat {
    if a < b then a else b
  }

  /** The allowance of the entry plus a second allowance from the gaps that are left. */
  function Budget(removal: nat, gaps: nat): nat {
    var allowance := Least(removal, gaps);
    allowance + Least(removal, gaps - allowance)
  }

  lemma BudgetIsLeast(removal: nat, gaps: nat)
    ensures Budget(removal, gaps) == Least(gaps, 2 * removal)
  {
  }

  // ----- the loop -----

  class VariableNeighborhoodDescent {
    const cooperative: bool
    const budget: nat
    const reserve: RouteOpeningReserve
    const selector: Selector
    var solution: Solution
    var remaining: nat
    var proposals: nat

    /** No token is created or lost, the reserved one is never among the spent, and the selector knows the
        current layout. */
    ghost predicate Valid()
      reads this, reserve, selector
    {
      && NonNegative(solution)
      && proposals + remaining == budget
      && (!cooperative ==> budget == 0)
      && (reserve.held ==> remaining > 0)
      && selector.Sound(Deficient(solution))
      && (selector.valid ==> forall g | g in selector.gaps :: g.0 < |solution|)
      && (!selector.valid ==>
            selector.gaps == [] && selector.positions == [] && selector.index == [] && selector.next == 0)
    }

    constructor (start: Solution, removal: Option<nat>)
      requires NonNegative(start)
      ensures Valid() && fresh(reserve) && fresh(selector)
      ensures solution == start && cooperative == removal.Some? && proposals == 0
      ensures reserve.held <==> remaining > 0
      ensures budget == if removal.Some? then Least(GapCount(start), 2 * removal.value) else 0
    {
      cooperative := removal.Some?;
      budget := if removal.Some? then Budget(removal.value, GapCount(start)) else 0;
      solution, proposals := start, 0;
      remaining := if removal.Some? then Budget(removal.value, GapCount(start)) else 0;
      reserve := new RouteOpeningReserve();
      selector := new Selector();
      new;
      selector.Invalidate();
      reserve.Initialize(remaining);
      if removal.Some? { BudgetIsLeast(removal.value, GapCount(start)); }
    }

    /** Take a candidate that is cheaper by more than the tolerance. */
    method Accept(candidate: Option<Solution>) returns (accepted: bool)
      requires Valid() && (candidate.Some? ==> NonNegative(candidate.value))
      modifies `solution, selector
      ensures Valid()
      ensures accepted <==> candidate.Some? && Improves(candidate.value, old(solution))
      ensures solution == if accepted then candidate.value else old(solution)
    {
      if candidate.None? || Total(candidate.value) >= Total(solution) - COST_TOLERANCE { return false; }
      solution := candidate.value;
      selector.Invalidate();
      return true;
    }

    /** Spend one token an unvisited gap until a proposal improves the solution. Without one, the allowance or
        the gaps are used up; with one, a single route has changed. */
    method CooperativeNeighbor(allowance: nat) returns (candidate: Option<Solution>)
      requires Valid() && (reserve.held ==> allowance < remaining)
      modifies `remaining, `proposals, selector
      ensures Valid()
      ensures remaining <= old(remaining) <= remaining + allowance
      ensures candidate.Some? ==>
        NonNegative(candidate.value) && Improves(candidate.value, solution) && OneRouteChanged(solution, candidate.value)
      ensures candidate.None? ==>
        old(remaining) - remaining == Least(allowance, old(remaining))
        || (selector.valid && selector.next == |selector.gaps|)
    {
      hide Total;
      if remaining == 0 || allowance == 0 { return None; }
      if !selector.valid {
        selector.Build(Counts(solution), Deficient(solution));
      }
      var attempts := Least(allowance, remaining);
      for attempt := 0 to attempts
        invariant Valid() && selector.valid && remaining == old(remaining) - attempt
        invariant forall g | g in selector.gaps :: g.0 < |solution|
      {
        if selector.next == |selector.gaps| { break; }
        var selected: nat :| selector.next <= selected < |selector.gaps|;
        var gap := Propose(selected);
        var sampled: Option<Route> :| sampled.Some? ==> 0.0 <= sampled.value.cost;
        if sampled.Some? {
          var proposed := solution[gap.0 := sampled.value];
          if Total(proposed) < Total(solution) - COST_TOLERANCE {
            assert proposed == solution[gap.0 := proposed[gap.0]];
            return Some(proposed);
          }
        }
      }
      return None;
    }

    /** Draw a gap for one token. */
    method Propose(selected: nat) returns (gap: Gap)
      requires Valid() && remaining > 0 && (reserve.held ==> remaining > 1)
      requires selector.valid && selector.next <= selected < |selector.gaps|
      modifies `remaining, `proposals, selector
      ensures Valid() && selector.valid && remaining == old(remaining) - 1 && gap.0 < |solution|
    {
      assert selector.gaps[selected] in selector.gaps && selector.gaps[selector.next] in selector.gaps;
      ghost var before := selector.gaps;
      gap := selector.Draw(selected, Deficient(solution));
      forall g | g in selector.gaps ensures g.0 < |solution| {
        assert g in before;
      }
      remaining := remaining - 1;
      proposals := proposals + 1;
    }

    /** Path replacement stays out while only the reserved token is left. */
    method ActiveNeighborhoods() returns (active: set<nat>)
      ensures active <= {0, 1, 2, 3}
    {
      active := {0, 1, 2, 3};
      if cooperative && reserve.OrdinaryAllowance(remaining) == 0 { active := active - {3}; }
    }

    /** One neighbour of a customer neighbourhood, if any. */
    method BestNeighbor() returns (candidate: Option<Solution>)
      ensures candidate.Some? ==> NonNegative(candidate.value)
    {
      candidate :| candidate.Some? ==> NonNegative(candidate.value);
    }

    /** Try one active neighbourhood. Success reopens all of them, and a route opening by a customer move
        releases the reserved token for one proposal; failure closes the neighbourhood. */
    method Visit(active: set<nat>) returns (next: set<nat>)
      requires Valid() && active != {} && active <= {0, 1, 2, 3}
      modifies `solution, `remaining, `proposals, selector, reserve
      ensures Valid() && next <= {0, 1, 2, 3}
      ensures reserve.held <==> old(reserve.held) && |solution| <= |old(solution)|
      ensures solution == old(solution) ==> next < active
      ensures solution != old(solution) ==> Improves(solution, old(solution))
    {
      hide Total;
      var index: nat :| index in active;
      var routes := |solution|;
      var best: Option<Solution>;
      if cooperative && index == 3 {
        best := CooperativeNeighbor(reserve.OrdinaryAllowance(remaining));
      } else {
        best := BestNeighbor();
      }
      var accepted := Accept(best);
      if !accepted { return active - {index}; }
      ghost var first := solution;
      if cooperative && index != 3 {
        var released := reserve.ReleaseOnOpening(routes, |solution|);
        if released {
          var opening := CooperativeNeighbor(1);
          var again := Accept(opening);
        }
      }
      next := ActiveNeighborhoods();
      StillImproves(solution, first, old(solution));
    }

    /** The entry proposals: one attempt per allowance, never the reserved token. */
    method Enter(removal: nat)
      requires Valid() && (reserve.held <==> remaining > 0)
      modifies `solution, `remaining, `proposals, selector
      ensures Valid() && AtMost(solution, old(solution))
    {
      var allowance := Least(Least(removal, GapCount(solution)), reserve.OrdinaryAllowance(remaining));
      var entry := CooperativeNeighbor(allowance);
      var accepted := Accept(entry);
    }

    /** Search until no neighbourhood is active and the reserved token is gone. The solution never gets dearer,
        and the proposals stay within the budget set at the entry. */
    method Improve(removal: Option<nat>)
      requires Valid() && cooperative == removal.Some? && (reserve.held <==> remaining > 0)
      modifies `solution, `remaining, `proposals, selector, reserve
      ensures Valid() && !reserve.held
      ensures AtMost(solution, old(solution)) && proposals <= budget
    {
      hide Level, Improves, Total;
      if removal.Some? { Enter(removal.value); } else { SameIsAtMost(solution); }
      var active := ActiveNeighborhoods();
      while active != {} || reserve.held
        invariant Valid() && AtMost(solution, old(solution)) && active <= {0, 1, 2, 3}
        decreases Level(solution), active
      {
        ghost var before := solution;
        if active == {} {
          var was := reserve.Release();
          var tail := CooperativeNeighbor(1);
          var accepted := Accept(tail);
          if !accepted { break; }
          Lower(solution, before, old(solution));
          active := ActiveNeighborhoods();
        } else {
          active := Visit(active);
          if solution != before { Lower(solution, before, old(solution)); }
        }
      }
    }
  }

  ghost predicate OneRouteChanged(s: Solution, t: Solution) {
    |t| == |s| && exists r | 0 <= r < |s| :: t == s[r := t[r]]
  }

  /** Unchanged, or cheaper by more than the tolerance. */
  ghost predicate AtMost(s: Solution, start: Solution) {
    s == start || Improves(s, start)
  }

  lemma StillImproves(s: Solution, first: Solution, start: Solution)
    requires (s == first || Improves(s, first)) && Improves(first, start)
    ensures Improves(s, start) && s != start
  {
  }

  lemma SameIsAtMost(s: Solution)
    ensures AtMost(s, s)
  {
  }

  lemma Lower(s: Solution, before: Solution, start: Solution)
    requires NonNegative(s) && Improves(s, before) && AtMost(before, start)
    ensures AtMost(s, start) && 0 <= Level(s) < Level(before)
  {
    hide Level;
    ImprovementLowersLevel(s, before);
  }

  /** A whole descent ends, never makes the solution dearer, and proposes at most one path per gap of the start
      and two per removed customer. */
  method Descend(start: Solution, removal: Option<nat>) returns (s: Solution, proposals: nat)
    requires NonNegative(start)
    ensures NonNegative(s) && AtMost(s, start)
    ensures proposals <= if removal.Some? then Least(GapCount(start), 2 * removal.value) else 0
  {
    var descent := new VariableNeighborhoodDescent(start, removal);
    descent.Improve(removal);
    return descent.solution, descent.proposals;
  }
}
