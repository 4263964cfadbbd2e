/** The bit mask of unused stations in the packed catalogue search (src/search.cpp, lines 56-63, 2251-2263).
    Masks are naturals; bit operations are stated digit by digit. */
module StationMasks {
  predicate Bit(mask: nat, i: nat)
    decreases i
  {
    if i == 0 then mask % 2 == 1 else Bit(mask / 2, i - 1)
  }

  /** `countr_zero`. */
  function LowestBit(mask: nat): nat
    requires mask > 0
  {
    if mask % 2 == 1 then 0 else 1 + LowestBit(mask / 2)
  }

  /** `mask & (mask - 1)`. */
  function ClearLowest(mask: nat): nat
    requires mask > 0
  {
    if mask % 2 == 1 then mask - 1 else 2 * ClearLowest(mask / 2)
  }

  /** `mask & ~(1 << index)`. */
  function ClearBit(mask: nat, index: nat): nat
    decreases index
  {
    if index == 0 then mask - mask % 2 else 2 * ClearBit(mask / 2, index - 1) + mask % 2
  }

  /** `(1 << n) - 1`. */
  function Full(n: nat): nat {
    if n == 0 then 0 else 2 * Full(n - 1) + 1
  }

  lemma {:induction false} NoBits(i: nat)
    ensures !Bit(0, i)
  {
    if i > 0 { NoBits(i - 1); }
  }

  lemma {:induction false} FullBits(n: nat, i: nat)
    ensures Bit(Full(n), i) <==> i < n
    decreases n
  {
    if n == 0 { NoBits(i); } else if i > 0 { FullBits(n - 1, i - 1); }
  }

  lemma {:induction false} ClearBitBits(mask: nat, index: nat, i: nat)
    ensures Bit(ClearBit(mask, index), i) <==> Bit(mask, i) && i != index
    decreases index
  {
    var cleared := ClearBit(mask, index);
    if index == 0 {
      assert cleared % 2 == 0 && cleared / 2 == mask / 2;
    } else {
      assert cleared % 2 == mask % 2 && cleared / 2 == ClearBit(mask / 2, index - 1);
      if i > 0 { ClearBitBits(mask / 2, index - 1, i - 1); }
    }
  }

  /** The lowest set bit is the least one, and clearing it leaves the others. */
  lemma {:induction false} LowestBits(mask: nat, i: nat)
    requires mask > 0
    ensures Bit(mask, LowestBit(mask))
    ensures i < LowestBit(mask) ==> !Bit(mask, i)
    ensures Bit(ClearLowest(mask), i) <==> Bit(mask, i) && i != LowestBit(mask)
  {
    var cleared := ClearLowest(mask);
    if mask % 2 == 1 {
      assert cleared % 2 == 0 && cleared / 2 == mask / 2;
    } else {
      assert cleared % 2 == 0 && cleared / 2 == ClearLowest(mask / 2);
      LowestBits(mask / 2, if i > 0 then i - 1 else 0);
    }
  }

  /** The next station to try: the least unused one at or after `cursor`, or the number of stations. */
  ghost predicate IsNext(used: seq<bool>, cursor: nat, next: nat) {
    && cursor <= next <= |used|
    && (forall i | cursor <= i < next :: used[i])
    && (next < |used| ==> !used[next])
  }

  /** A mask holds exactly the unused stations at or after `cursor`. */
  ghost predicate Masks(mask: nat, used: seq<bool>, cursor: nat) {
    forall i: nat :: Bit(mask, i) <==> cursor <= i < |used| && !used[i]
  }

  method NextByFlags(used: seq<bool>, cursor: nat) returns (next: nat)
    requires cursor <= |used|
    ensures IsNext(used, cursor, next)
  {
    next := cursor;
    while next < |used| && used[next]
      invariant cursor <= next <= |used| && forall i | cursor <= i < next :: used[i]
    {
      next := next + 1;
    }
  }

  /** The mask finds the same station as the flags and then holds the ones after it. */
  method NextByMask(mask: nat, limit: nat, ghost used: seq<bool>, ghost cursor: nat) returns (next: nat, rest: nat)
    requires cursor <= |used| == limit && Masks(mask, used, cursor)
    ensures IsNext(used, cursor, next)
    ensures Masks(rest, used, if next < |used| then next + 1 else next)
  {
    if mask == 0 {
      forall i | cursor <= i < |used| ensures used[i] {
        NoBits(i);
        assert !Bit(mask, i);
      }
      forall i: nat ensures !Bit(mask, i) { NoBits(i); }
      return limit, mask;
    }
    next, rest := LowestBit(mask), ClearLowest(mask);
    forall i: nat ensures (i < next ==> !Bit(mask, i)) && (Bit(rest, i) <==> Bit(mask, i) && i != next) && Bit(mask, next) {
      LowestBits(mask, i);
    }
    assert Bit(mask, next);
    forall i | cursor <= i < next ensures used[i] {
      assert !Bit(mask, i);
    }
    forall i: nat ensures Bit(rest, i) <==> next + 1 <= i < |used| && !used[i] {
      assert Bit(rest, i) <==> Bit(mask, i) && i != next;
      assert i < next ==> !Bit(mask, i);
    }
  }

  lemma {:induction false} MasksStart(n: nat, used: seq<bool>)
    requires |used| == n && forall i | 0 <= i < n :: !used[i]
    ensures Masks(Full(n), used, 0)
  {
    forall i: nat ensures Bit(Full(n), i) <==> i < n {
      FullBits(n, i);
    }
  }

  lemma {:induction false} MasksTake(mask: nat, used: seq<bool>, x: nat)
    requires x < |used| && Masks(mask, used, 0)
    ensures Masks(ClearBit(mask, x), used[x := true], 0)
  {
    forall i: nat ensures Bit(ClearBit(mask, x), i) <==> i < |used| && !used[x := true][i] {
      ClearBitBits(mask, x, i);
    }
  }
}
