/** The band of candidates within a tolerance of the cheapest one (src/search.cpp,
    `best_replacement_in_gaps`, `minimum_cost` and `tolerance_band`). */
module ReplacementBand {
  import opened Common
  import opened Sequences

  /** An option: its place among the eligible gaps and its place in the catalogue. */
  type Key = (nat, nat)

  /** What an option costs, and whether it may be chosen at all. */
  datatype Terms = Terms(cost: Key -> real, allowed: Key -> bool, incumbent: real)

  predicate Good(t: Terms, k: Key) {
    t.allowed(k) && t.cost(k) < t.incumbent - COST_TOLERANCE
  }

  datatype Entry = Entry(key: Key, cost: real)

  /** `None` is infinity. */
  datatype Band = Band(minimum: Option<real>, entries: seq<Entry>)

  const EMPTY_BAND := Band(None, [])

  predicate WithinBand(b: Band, cost: real) {
    b.minimum.Some? && cost <= b.minimum.value + COST_TOLERANCE
  }

  /** The least cost of the good options seen, and exactly those of them within the tolerance of it. */
  ghost predicate Tracks(t: Terms, seen: set<Key>, b: Band) {
    && (forall k | k in seen && Good(t, k) :: b.minimum.Some? && b.minimum.value <= t.cost(k))
    && (b.minimum.Some? ==> exists k :: k in seen && Good(t, k) && t.cost(k) == b.minimum.value)
    && (forall e | e in b.entries :: e.key in seen && Good(t, e.key) && e.cost == t.cost(e.key) && WithinBand(b, e.cost))
    && (forall k | k in seen && Good(t, k) && WithinBand(b, t.cost(k)) :: Entry(k, t.cost(k)) in b.entries)
  }

  lemma NothingSeen(t: Terms)
    ensures Tracks(t, {}, EMPTY_BAND)
  {
  }

  /** A lower bound this high rules an option out. */
  predicate RulesOut(t: Terms, b: Band, lower: real) {
    lower >= t.incumbent - COST_TOLERANCE || (b.minimum.Some? && lower > b.minimum.value + COST_TOLERANCE)
  }

  /** An option that may not be chosen, or that a lower bound rules out, changes nothing. */
  lemma Skip(t: Terms, seen: set<Key>, b: Band, k: Key, lower: real)
    requires Tracks(t, seen, b)
    requires !t.allowed(k) || (lower <= t.cost(k) && RulesOut(t, b, lower))
    ensures Tracks(t, seen + {k}, b)
  {
  }

  function Kept(entries: seq<Entry>, limit: real): (r: seq<Entry>)
    ensures forall e :: e in r <==> e in entries && e.cost <= limit
  {
    if entries == [] then []
    else
      assert entries == entries[..|entries| - 1] + [entries[|entries| - 1]];
      Kept(entries[..|entries| - 1], limit)
      + if entries[|entries| - 1].cost <= limit then [entries[|entries| - 1]] else []
  }

  /** An exact score enters the band, and a new minimum drops what is no longer within the tolerance. */
  function Scored(t: Terms, b: Band, k: Key): Band {
    if t.cost(k) >= t.incumbent - COST_TOLERANCE then b
    else
      var lowered :=
        if b.minimum.None? || t.cost(k) < b.minimum.value
        then Band(Some(t.cost(k)), Kept(b.entries, t.cost(k) + COST_TOLERANCE)) else b;
      if t.cost(k) <= lowered.minimum.value + COST_TOLERANCE
      then lowered.(entries := lowered.entries + [Entry(k, t.cost(k))]) else lowered
  }

  lemma Score(t: Terms, seen: set<Key>, b: Band, k: Key)
    requires Tracks(t, seen, b) && t.allowed(k)
    ensures Tracks(t, seen + {k}, Scored(t, b, k))
  {
    if Good(t, k) {
      var lowered :=
        if b.minimum.None? || t.cost(k) < b.minimum.value
        then Band(Some(t.cost(k)), Kept(b.entries, t.cost(k) + COST_TOLERANCE)) else b;
      assert lowered.minimum.Some? && lowered.minimum.value <= t.cost(k);
      forall j | j in seen && Good(t, j) ensures lowered.minimum.value <= t.cost(j) {
      }
      forall j | j in seen && Good(t, j) && WithinBand(lowered, t.cost(j)) ensures Entry(j, t.cost(j)) in lowered.entries {
        assert WithinBand(b, t.cost(j));
      }
      var after := Scored(t, b, k);
      if t.cost(k) == lowered.minimum.value { assert k in seen + {k} && Good(t, k); }
      forall e | e in after.entries ensures e.key in seen + {k} && Good(t, e.key) && e.cost == t.cost(e.key) && WithinBand(after, e.cost) {
        if e !in lowered.entries { assert e == Entry(k, t.cost(k)); }
      }
    }
  }
}
