/** Drawing unvisited gaps by swap-and-remove (src/search.cpp, the `DEFICIT_GAP_DRAW` section of
    `VariableNeighborhoodDescent::improve`), and the reserved proposal token
    (src/route_opening_rp_reserve.hpp). */
module GapSelector {
  import opened Common

  /** Owns at most one of the proposal tokens. */
  class RouteOpeningReserve {
    var held: bool

    constructor ()
      ensures !held
    {
      held := false;
    }

    method Initialize(total: nat)
      modifies this
      ensures held <==> total > 0
    {
      held := total != 0;
    }

    /** Tokens that may be spent without touching the reserved one. */
    function OrdinaryAllowance(remaining: nat): (r: nat)
      reads this
      ensures r <= remaining && (held && remaining > 0 ==> r < remaining)
    {
      remaining - (if held && remaining != 0 then 1 else 0)
    }

    method Release() returns (was: bool)
      modifies this
      ensures was == old(held) && !held
    {
      was := held;
      held := false;
    }

    method ReleaseOnOpening(before: nat, after: nat) returns (released: bool)
      modifies this
      ensures released == (after > before && old(held)) && held == (old(held) && after <= before)
    {
      released := false;
      if after > before { released := Release(); }
    }
  }

  type Gap = (nat, nat)

  /** Unvisited gaps from `next` on. The listed positions of deficient gaps and the index of every gap in
      that list are inverse to each other. */
  ghost predicate Inverse(gaps: seq<Gap>, next: nat, positions: seq<nat>, index: seq<Option<nat>>) {
    && next <= |gaps| == |index|
    && (forall j | 0 <= j < |positions| :: next <= positions[j] < |gaps| && index[positions[j]] == Some(j))
    && (forall p | next <= p < |gaps| && index[p].Some? :: index[p].value < |positions| && positions[index[p].value] == p)
  }

  /** An unvisited gap is listed exactly when its route lacks energy. */
  ghost predicate Deficits(gaps: seq<Gap>, next: nat, index: seq<Option<nat>>, deficient: nat -> bool) {
    |gaps| == |index| && forall p | next <= p < |gaps| :: index[p].Some? <==> deficient(gaps[p].0)
  }

  /** Two unvisited gaps change places, and the list follows them. */
  lemma SwapKeeps(gaps: seq<Gap>, first: nat, selected: nat, positions: seq<nat>, index: seq<Option<nat>>)
    requires first <= selected < |gaps| && Inverse(gaps, first, positions, index)
    ensures var swapped := gaps[first := gaps[selected]][selected := gaps[first]];
      var other := index[first := index[selected]][selected := index[first]];
      var one := if index[first].Some? then positions[index[first].value := selected] else positions;
      var two := if index[selected].Some? then one[index[selected].value := first] else one;
      Inverse(swapped, first, two, other)
  {
  }

  /** The first unvisited gap leaves the list; the last listed gap takes its place there. */
  lemma RemoveKeeps(gaps: seq<Gap>, first: nat, positions: seq<nat>, index: seq<Option<nat>>)
    requires first < |gaps| && Inverse(gaps, first, positions, index) && index[first].Some?
    ensures positions != []
    ensures var d, last := index[first].value, positions[|positions| - 1];
      && last < |index|
      && Inverse(gaps, first + 1, positions[d := last][..|positions| - 1], index[last := Some(d)][first := None])
      && forall p | first < p < |gaps| :: index[last := Some(d)][first := None][p].Some? <==> index[p].Some?
  {
  }

  lemma SkipKeeps(gaps: seq<Gap>, first: nat, positions: seq<nat>, index: seq<Option<nat>>)
    requires first < |gaps| && Inverse(gaps, first, positions, index) && index[first].None?
    ensures Inverse(gaps, first + 1, positions, index[first := None])
  {
  }

  lemma SwapDeficits(gaps: seq<Gap>, first: nat, selected: nat, index: seq<Option<nat>>, deficient: nat -> bool)
    requires first <= selected < |gaps| && Deficits(gaps, first, index, deficient)
    ensures Deficits(gaps[first := gaps[selected]][selected := gaps[first]], first,
                     index[first := index[selected]][selected := index[first]], deficient)
  {
  }

  lemma NextDeficits(gaps: seq<Gap>, first: nat, index: seq<Option<nat>>, after: seq<Option<nat>>, deficient: nat -> bool)
    requires first < |gaps| && Deficits(gaps, first, index, deficient) && |after| == |index|
    requires forall p | first < p < |gaps| :: after[p].Some? <==> index[p].Some?
    ensures Deficits(gaps, first + 1, after, deficient)
  {
  }

  lemma Listed(gaps: seq<Gap>, first: nat, positions: seq<nat>, index: seq<Option<nat>>, p: nat)
    requires first <= p < |gaps| && Inverse(gaps, first, positions, index)
    ensures |index| == |gaps| && (index[p].Some? ==> index[p].value < |positions|)
  {
  }

  class Selector {
    var gaps: seq<Gap>
    var next: nat
    var positions: seq<nat>
    var index: seq<Option<nat>>
    var valid: bool

    ghost predicate Sound(deficient: nat -> bool)
      reads this
    {
      valid ==> Inverse(gaps, next, positions, index) && Deficits(gaps, next, index, deficient)
    }

    constructor ()
      ensures !valid
    {
      gaps, next, positions, index, valid := [], 0, [], [], false;
    }

    /** An accepted move forgets the selector; the next draw builds a new one. */
    method Invalidate()
      modifies this
      ensures !valid && gaps == [] && positions == [] && index == [] && next == 0
    {
      gaps, positions, index, next, valid := [], [], [], 0, false;
    }

    /** List every gap of every route. */
    method Build(counts: seq<nat>, deficient: nat -> bool)
      requires !valid && gaps == [] && positions == [] && index == [] && next == 0
      modifies this
      ensures valid && next == 0 && Sound(deficient)
      ensures forall g: Gap :: g in gaps <==> g.0 < |counts| && g.1 < counts[g.0]
    {
      for route := 0 to |counts|
        invariant next == 0 && Inverse(gaps, 0, positions, index) && Deficits(gaps, 0, index, deficient)
        invariant forall g: Gap :: g in gaps <==> g.0 < route && g.1 < counts[g.0]
      {
        var energyDeficient := deficient(route);
        for gap := 0 to counts[route]
          invariant next == 0 && Inverse(gaps, 0, positions, index) && Deficits(gaps, 0, index, deficient)
          invariant forall g: Gap :: g in gaps <==> (g.0 < route && g.1 < counts[g.0]) || (g.0 == route && g.1 < gap)
        {
          var position := |gaps|;
          gaps := gaps + [(route, gap)];
          index := index + [if energyDeficient then Some(|positions|) else None];
          if energyDeficient { positions := positions + [position]; }
        }
      }
      valid := true;
    }

    /** Visit the gap at a drawn position: it moves to the front and leaves the list of deficient gaps. */
    method Draw(selected: nat, ghost deficient: nat -> bool) returns (gap: Gap)
      requires valid && Sound(deficient) && next <= selected < |gaps|
      modifies this
      ensures valid && Sound(deficient) && next == old(next) + 1
      ensures gap == old(gaps)[selected]
      ensures gaps == old(gaps)[old(next) := old(gaps)[selected]][selected := old(gaps)[old(next)]]
    {
      hide Inverse, Deficits;
      var first := next;
      Listed(gaps, first, positions, index, first);
      Listed(gaps, first, positions, index, selected);
      SwapKeeps(gaps, first, selected, positions, index);
      SwapDeficits(gaps, first, selected, index, deficient);
      var firstDeficit, selectedDeficit := index[first], index[selected];
      gaps := gaps[first := gaps[selected]][selected := gaps[first]];
      index := index[first := selectedDeficit][selected := firstDeficit];
      if firstDeficit.Some? { positions := positions[firstDeficit.value := selected]; }
      ghost var before := index;
      assert index[first] == selectedDeficit;
      if selectedDeficit.Some? {
        var d := selectedDeficit.value;
        positions := positions[d := first];
        RemoveKeeps(gaps, first, positions, index);
        var last := positions[|positions| - 1];
        positions := positions[d := last];
        index := index[last := Some(d)];
        positions := positions[..|positions| - 1];
      } else {
        SkipKeeps(gaps, first, positions, index);
      }
      index := index[first := None];
      NextDeficits(gaps, first, before, index, deficient);
      gap := gaps[first];
      next := next + 1;
    }
  }
}
