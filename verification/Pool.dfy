/** The bounded two-tier route pool (src/pool.cpp, class RoutePool). */
module Pool {
  import opened Common
  import opened Sequences
  import opened PoolRanks

  type Key = seq<int>

  type Columns = map<Key, Column>

  /** `customerCoverage` identifies columns by their customer set, otherwise by their sequence. */
  function KeyOf(c: Column, customerCoverage: bool): Key {
    if customerCoverage then c.coverage else c.plan.customers
  }

  // ----- the coverage index -----

  ghost function Matching(main: Columns, coverage: seq<int>, cost: real): set<Key> {
    set k | k in main && main[k].coverage == coverage && main[k].cost == cost
  }

  /** For every customer set the index holds exactly the multiset of main costs. */
  ghost predicate Indexed(main: Columns, index: map<seq<int>, multiset<real>>) {
    && (forall c | c in index :: index[c] != multiset{})
    && (forall c, x :: Entries(index, c)[x] == |Matching(main, c, x)|)
  }

  function Entries(index: map<seq<int>, multiset<real>>, coverage: seq<int>): multiset<real> {
    if coverage in index then index[coverage] else multiset{}
  }

  lemma MatchingInsert(main: Columns, k: Key, column: Column, c: seq<int>, x: real)
    requires k !in main
    ensures |Matching(main[k := column], c, x)|
            == |Matching(main, c, x)| + (if column.coverage == c && column.cost == x then 1 else 0)
  {
    var more := main[k := column];
    if column.coverage == c && column.cost == x {
      assert Matching(more, c, x) == Matching(main, c, x) + {k};
    } else {
      assert Matching(more, c, x) == Matching(main, c, x);
    }
  }

  lemma MatchingErase(main: Columns, k: Key, c: seq<int>, x: real)
    requires k in main
    ensures |Matching(main, c, x)|
            == |Matching(main - {k}, c, x)| + (if main[k].coverage == c && main[k].cost == x then 1 else 0)
  {
    var fewer := main - {k};
    assert k !in fewer;
    MatchingInsert(fewer, k, main[k], c, x);
    assert fewer[k := main[k]] == main;
  }

  function IndexAdd(index: map<seq<int>, multiset<real>>, column: Column): map<seq<int>, multiset<real>> {
    index[column.coverage := Entries(index, column.coverage) + multiset{column.cost}]
  }

  function IndexDrop(index: map<seq<int>, multiset<real>>, column: Column): map<seq<int>, multiset<real>> {
    var left := Entries(index, column.coverage) - multiset{column.cost};
    if left == multiset{} then index - {column.coverage} else index[column.coverage := left]
  }

  lemma IndexedInsert(main: Columns, index: map<seq<int>, multiset<real>>, key: Key, column: Column)
    requires key !in main && Indexed(main, index)
    ensures Indexed(main[key := column], IndexAdd(index, column))
  {
    var more := IndexAdd(index, column);
    forall c, x ensures Entries(more, c)[x] == |Matching(main[key := column], c, x)| {
      hide Matching;
      assert Entries(index, c)[x] == |Matching(main, c, x)|;
      MatchingInsert(main, key, column, c, x);
    }
  }

  lemma IndexedErase(main: Columns, index: map<seq<int>, multiset<real>>, key: Key)
    requires key in main && Indexed(main, index)
    ensures main[key].coverage in index && main[key].cost in index[main[key].coverage]
    ensures Indexed(main - {key}, IndexDrop(index, main[key]))
  {
    var column := main[key];
    var fewer := IndexDrop(index, column);
    assert Entries(index, column.coverage)[column.cost] == |Matching(main, column.coverage, column.cost)|;
    assert key in Matching(main, column.coverage, column.cost);
    forall c, x ensures Entries(fewer, c)[x] == |Matching(main - {key}, c, x)| {
      hide Matching;
      assert Entries(index, c)[x] == |Matching(main, c, x)|;
      MatchingErase(main, key, c, x);
    }
  }

  lemma MultisetMinimum(m: multiset<real>) returns (x: real)
    requires m != multiset{}
    ensures x in m && forall y | y in m :: x <= y
    decreases |m|
  {
    x :| x in m;
    var rest := m - multiset{x};
    if rest != multiset{} {
      var y := MultisetMinimum(rest);
      forall z | z in m ensures Min(x, y) <= z {
        if z != x { assert z in rest; }
      }
      x := Min(x, y);
    } else {
      forall z | z in m ensures x <= z {
        assert z == x || z in rest;
      }
    }
  }

  /** `best` is the cheapest main cost for a customer set, if it is covered at all. */
  ghost predicate IsBestCost(main: Columns, coverage: seq<int>, best: Option<real>) {
    match best
    case None => forall k | k in main :: main[k].coverage != coverage
    case Some(x) =>
      && (exists k :: k in main && main[k].coverage == coverage && main[k].cost == x)
      && (forall k | k in main && main[k].coverage == coverage :: x <= main[k].cost)
  }

  /** Cheaper by more than the tolerance than every main column with the same customers. */
  ghost predicate BeatsCoverage(main: Columns, column: Column, tolerance: real) {
    forall k | k in main && main[k].coverage == column.coverage :: column.cost < main[k].cost - tolerance
  }

  function Improved(before: Option<real>, after: Option<real>, tolerance: real): bool {
    after.Some? && (before.None? || after.value < before.value - tolerance)
  }

  /** Comparing the best costs before and after an admission tells whether the new column beats its
      coverage, whatever other column was replaced or evicted. */
  lemma ImprovedMeansBeats(before: Columns, after: Columns, key: Key, column: Column, tolerance: real,
                           previous: Option<real>, now: Option<real>)
    requires 0.0 <= tolerance && key in after && after[key] == column
    requires forall k | k in after && k != key :: k in before && before[k] == after[k]
    requires IsBestCost(before, column.coverage, previous) && IsBestCost(after, column.coverage, now)
    ensures Improved(previous, now, tolerance) <==> BeatsCoverage(before, column, tolerance)
  {
    if now.Some? {
      var w :| w in after && after[w].coverage == column.coverage && after[w].cost == now.value;
      if previous.Some? {
        var v :| v in before && before[v].coverage == column.coverage && before[v].cost == previous.value;
      }
    }
  }

  // ----- backup -----

  predicate BackupTakes(backup: Columns, column: Column, key: Key, tolerance: real) {
    key !in backup
    || column.cost < backup[key].cost - tolerance
    || (column.cost - backup[key].cost <= tolerance && backup[key].cost - column.cost <= tolerance
        && column.plan.exact && !backup[key].plan.exact)
  }

  /** `put_backup`. */
  function Backed(backup: Columns, column: Column, key: Key, tolerance: real): Columns {
    if BackupTakes(backup, column, key, tolerance) then backup[key := column] else backup
  }

  /** Every column is stored under its own key, and no key is in both tiers. */
  ghost predicate Filed(main: Columns, backup: Columns, customerCoverage: bool) {
    && (forall k | k in main :: KeyOf(main[k], customerCoverage) == k)
    && (forall k | k in backup :: KeyOf(backup[k], customerCoverage) == k)
    && (forall k | k in main :: k !in backup)
  }

  lemma FiledPut(main: Columns, backup: Columns, customerCoverage: bool, column: Column)
    requires Filed(main, backup, customerCoverage)
    ensures var key := KeyOf(column, customerCoverage);
      Filed(main[key := column], backup - {key}, customerCoverage)
  {
  }

  lemma FiledBacked(main: Columns, backup: Columns, customerCoverage: bool, column: Column, tolerance: real)
    requires Filed(main, backup, customerCoverage)
    ensures var key := KeyOf(column, customerCoverage);
      key !in main ==> Filed(main, Backed(backup, column, key, tolerance), customerCoverage)
  {
  }

  lemma FiledTaken(main: Columns, backup: Columns, customerCoverage: bool, key: Key)
    requires Filed(main, backup, customerCoverage)
    ensures Filed(main, backup - {key}, customerCoverage)
  {
  }

  lemma FiledDemoted(main: Columns, backup: Columns, customerCoverage: bool, key: Key, tolerance: real)
    requires Filed(main, backup, customerCoverage) && key in main
    ensures Filed(main - {key}, backup, customerCoverage)
    ensures Filed(main - {key}, Backed(backup, main[key], key, tolerance), customerCoverage)
  {
  }

  lemma NeverBacked(main: Columns, backup: Columns, customerCoverage: bool, key: Key)
    requires Filed(main, backup, customerCoverage) && key in main
    ensures backup - {key} == backup
  {
  }

  lemma SizeAfterPut(main: Columns, key: Key, column: Column)
    ensures |main[key := column]| == |main| + (if key in main then 0 else 1)
  {
    assert main[key := column].Keys == main.Keys + {key};
  }

  /** Every protected key is in main. */
  ghost predicate Covers(main: Columns, keys: set<Key>) {
    forall k | k in keys :: k in main
  }

  lemma CoversPut(main: Columns, keys: set<Key>, key: Key, column: Column)
    requires Covers(main, keys)
    ensures Covers(main[key := column], keys)
  {
  }

  lemma CoversDrop(main: Columns, keys: set<Key>, key: Key)
    requires Covers(main, keys) && key !in keys
    ensures Covers(main - {key}, keys)
  {
  }

  lemma SizeAfterDrop(main: Columns, key: Key)
    requires key in main
    ensures |main - {key}| == |main| - 1
  {
    assert (main - {key}).Keys == main.Keys - {key};
  }

  // ----- eviction -----

  /** No unprotected column ranks after `worst`. */
  ghost predicate IsWorst(main: Columns, protectedKeys: set<Key>, duals: map<int, real>, worst: Key) {
    && worst in main && worst !in protectedKeys
    && forall k | k in main && k !in protectedKeys :: !RankLess(main[worst], main[k], duals)
  }

  lemma WorstIsOpen(main: Columns, protectedKeys: set<Key>, duals: map<int, real>, worst: Key)
    requires IsWorst(main, protectedKeys, duals, worst)
    ensures worst in main && worst !in protectedKeys
  {
  }

  datatype Update = Update(main: bool, backup: bool, replaced: bool, effective: bool, evicted: Option<seq<int>>)

  const NOTHING := Update(false, false, false, false, None)

  /** What rejects a candidate outright. */
  ghost predicate Rejects(main: Columns, backup: Columns, column: Column, key: Key, tolerance: real) {
    if key in main then Dominates(main[key], column, tolerance)
    else key in backup && Dominates(backup[key], column, tolerance)
  }

  /** `full` lost its worst unprotected column, which went to backup when evicted columns are kept;
      `survived` says that it was not the one stored under `key`. */
  ghost predicate Evicted(full: Columns, rest: Columns, key: Key, protectedKeys: set<Key>, duals: map<int, real>,
                          keepEvicted: bool, tolerance: real, main: Columns, backup: Columns, survived: bool) {
    exists worst :: IsWorst(full, protectedKeys, duals, worst)
      && main == full - {worst} && survived == (worst != key)
      && backup == if keepEvicted then Backed(rest, full[worst], worst, tolerance) else rest
  }

  datatype Settings = Settings(capacity: nat, tolerance: real, keepEvicted: bool,
                               protectedKeys: set<Key>, duals: map<int, real>, dualsValid: bool)

  /** What offering a column under `key` does to the two tiers. */
  ghost predicate Admitted(main: Columns, backup: Columns, column: Column, key: Key, s: Settings,
                           newMain: Columns, newBackup: Columns, u: Update) {
    if Rejects(main, backup, column, key, s.tolerance) then
      u == NOTHING && newMain == main && newBackup == backup
    else if key in main then
      newMain == main[key := column] && newBackup == backup && u.main && u.replaced
    else if |main| < s.capacity then
      newMain == main[key := column] && newBackup == backup - {key} && u.main && !u.replaced
    else if s.dualsValid && ReducedCost(column, s.duals) >= -s.tolerance then
      newMain == main && newBackup == Backed(backup, column, key, s.tolerance) && !u.main && u.backup
    else
      Evicted(main[key := column], backup - {key}, key, s.protectedKeys, s.duals, s.keepEvicted, s.tolerance,
              newMain, newBackup, u.main)
  }

  lemma RejectsWhen(main: Columns, backup: Columns, column: Column, key: Key, tolerance: real)
    ensures Rejects(main, backup, column, key, tolerance) <==>
      if key in main then Dominates(main[key], column, tolerance)
      else key in backup && Dominates(backup[key], column, tolerance)
  {
  }

  lemma AdmittedRejected(main: Columns, backup: Columns, column: Column, key: Key, s: Settings)
    requires Rejects(main, backup, column, key, s.tolerance)
    ensures Admitted(main, backup, column, key, s, main, backup, NOTHING)
  {
  }

  lemma AdmittedStored(main: Columns, backup: Columns, column: Column, key: Key, s: Settings, u: Update)
    requires !Rejects(main, backup, column, key, s.tolerance) && u.main && u.replaced == (key in main)
    requires if key in main then backup - {key} == backup else |main| < s.capacity
    ensures Admitted(main, backup, column, key, s, main[key := column], backup - {key}, u)
  {
  }

  lemma AdmittedBacked(main: Columns, backup: Columns, column: Column, key: Key, s: Settings, u: Update)
    requires !Rejects(main, backup, column, key, s.tolerance) && key !in main && |main| >= s.capacity
    requires s.dualsValid && ReducedCost(column, s.duals) >= -s.tolerance && !u.main && u.backup
    ensures Admitted(main, backup, column, key, s, main, Backed(backup, column, key, s.tolerance), u)
  {
  }

  lemma AdmittedEvicted(main: Columns, backup: Columns, column: Column, key: Key, s: Settings,
                        newMain: Columns, newBackup: Columns, u: Update)
    requires !Rejects(main, backup, column, key, s.tolerance) && key !in main && |main| >= s.capacity
    requires !(s.dualsValid && ReducedCost(column, s.duals) >= -s.tolerance)
    requires Evicted(main[key := column], backup - {key}, key, s.protectedKeys, s.duals, s.keepEvicted, s.tolerance,
                     newMain, newBackup, u.main)
    ensures Admitted(main, backup, column, key, s, newMain, newBackup, u)
  {
  }

  /** The kept and dropped columns of `all`: nothing dropped ranks before a kept unprotected column,
      and columns are only dropped from a full pool. */
  ghost predicate KeepsBest(all: Columns, main: Columns, protectedKeys: set<Key>, duals: map<int, real>, capacity: nat) {
    && main.Keys <= all.Keys && (forall k | k in main :: main[k] == all[k])
    && (forall k, j | k in main && k !in protectedKeys && j in all && j !in main ::
          !RankLess(all[j], all[k], duals))
    && (main != all ==> |main| >= capacity)
  }

  class RoutePool {
    const capacity: nat
    const tolerance: real
    const customerCoverage: bool
    const keepEvicted: bool
    var main: Columns
    var backup: Columns
    var coverageCosts: map<seq<int>, multiset<real>>
    var protectedKeys: set<Key>
    var duals: map<int, real>
    var dualsValid: bool
    var generation: nat

    /** What survives even an interrupted protection. */
    ghost predicate Sound()
      reads this
    {
      && 0 < capacity && 0.0 <= tolerance
      && Filed(main, backup, customerCoverage)
      && Indexed(main, coverageCosts)
      && |protectedKeys| <= capacity
    }

    ghost predicate Valid()
      reads this
    {
      Sound() && |main| <= capacity && Covers(main, protectedKeys)
    }

    constructor (capacity: nat, tolerance: real, customerCoverage: bool, keepEvicted: bool)
      requires 0 < capacity && 0.0 <= tolerance
      ensures Valid() && main == map[] && backup == map[] && protectedKeys == {} && !dualsValid
      ensures this.capacity == capacity && this.tolerance == tolerance
      ensures this.customerCoverage == customerCoverage && this.keepEvicted == keepEvicted
    {
      this.capacity, this.tolerance := capacity, tolerance;
      this.customerCoverage, this.keepEvicted := customerCoverage, keepEvicted;
      main, backup, coverageCosts, protectedKeys := map[], map[], map[], {};
      duals, dualsValid, generation := map[], false, 0;
      new;
      forall c, x ensures Entries(coverageCosts, c)[x] == |Matching(main, c, x)| {
        assert Matching(main, c, x) == {};
      }
    }

    method BestCoverageCost(coverage: seq<int>) returns (best: Option<real>)
      requires Indexed(main, coverageCosts)
      ensures IsBestCost(main, coverage, best)
    {
      if coverage !in coverageCosts {
        forall k | k in main ensures main[k].coverage != coverage {
          assert Entries(coverageCosts, coverage)[main[k].cost] == |Matching(main, coverage, main[k].cost)|;
          assert main[k].coverage == coverage <==> k in Matching(main, coverage, main[k].cost);
        }
        return None;
      }
      ghost var least := MultisetMinimum(coverageCosts[coverage]);
      var x :| x in coverageCosts[coverage] && forall y | y in coverageCosts[coverage] :: x <= y;
      assert Entries(coverageCosts, coverage)[x] == |Matching(main, coverage, x)|;
      assert Matching(main, coverage, x) != {};
      ghost var w :| w in Matching(main, coverage, x);
      forall k | k in main && main[k].coverage == coverage ensures x <= main[k].cost {
        assert Entries(coverageCosts, coverage)[main[k].cost] == |Matching(main, coverage, main[k].cost)|;
        assert k in Matching(main, coverage, main[k].cost);
        assert main[k].cost in coverageCosts[coverage];
      }
      return Some(x);
    }

    method IndexInsert(column: Column)
      modifies `coverageCosts
      ensures coverageCosts == IndexAdd(old(coverageCosts), column)
    {
      coverageCosts := coverageCosts[column.coverage := Entries(coverageCosts, column.coverage) + multiset{column.cost}];
    }

    /** Both `logic_error` branches of the original are excluded by the precondition. */
    method IndexErase(column: Column)
      requires column.coverage in coverageCosts && column.cost in coverageCosts[column.coverage]
      modifies `coverageCosts
      ensures coverageCosts == IndexDrop(old(coverageCosts), column)
    {
      var left := coverageCosts[column.coverage] - multiset{column.cost};
      coverageCosts := coverageCosts[column.coverage := left];
      if left == multiset{} { coverageCosts := coverageCosts - {column.coverage}; }
    }

    /** Drop a main column together with its index entry. */
    method EraseMain(key: Key)
      requires key in main && Indexed(main, coverageCosts)
      modifies `main, `coverageCosts
      ensures main == old(main) - {key} && Indexed(main, coverageCosts)
    {
      hide Indexed, IndexDrop;
      IndexedErase(main, coverageCosts, key);
      IndexErase(main[key]);
      main := main - {key};
    }

    /** Store a column in main under its key; whatever main or backup held there is gone. */
    method PutMain(column: Column)
      requires Indexed(main, coverageCosts)
      modifies `main, `backup, `coverageCosts
      ensures var key := KeyOf(column, customerCoverage);
        main == old(main)[key := column] && backup == old(backup) - {key}
      ensures Indexed(main, coverageCosts)
    {
      hide Indexed, IndexAdd;
      var key := KeyOf(column, customerCoverage);
      backup := backup - {key};
      if key in main { EraseMain(key); }
      IndexedInsert(main, coverageCosts, key, column);
      IndexInsert(column);
      main := main[key := column];
      assert main == old(main)[key := column];
    }

    method PutBackup(column: Column)
      modifies `backup
      ensures backup == Backed(old(backup), column, KeyOf(column, customerCoverage), tolerance)
    {
      var key := KeyOf(column, customerCoverage);
      if BackupTakes(backup, column, key, tolerance) { backup := backup[key := column]; }
    }

    /** The unprotected column that ranks last. More columns than protected keys guarantee one. */
    method WorstMain() returns (worst: Key)
      requires |main| > |protectedKeys|
      ensures IsWorst(main, protectedKeys, duals, worst)
    {
      var open := main.Keys - protectedKeys;
      if open == {} {
        assert main.Keys <= protectedKeys by {
          forall k | k in main.Keys ensures k in protectedKeys { assert k !in open; }
        }
        SubsetSize(main.Keys, protectedKeys);
        assert false;
      }
      worst :| worst in open;
      var rest := open - {worst};
      RankIrreflexive(main[worst], duals);
      while rest != {}
        invariant worst in open && rest <= open
        invariant forall k | k in open && k !in rest :: !RankLess(main[worst], main[k], duals)
        decreases rest
      {
        var current :| current in rest;
        if RankLess(main[worst], main[current], duals) {
          RankAsymmetric(main[worst], main[current], duals);
          forall k | k in open && (k !in rest || k == current) ensures !RankLess(main[current], main[k], duals) {
            RankIrreflexive(main[current], duals);
            if k != current { RankNegativelyTransitive(main[k], main[worst], main[current], duals); }
          }
          worst := current;
        }
        rest := rest - {current};
      }
    }

    /** Move a main column to backup, or forget it when evicted columns are not kept. */
    method DemoteMain(key: Key)
      requires key in main && Indexed(main, coverageCosts) && Filed(main, backup, customerCoverage)
      modifies `main, `backup, `coverageCosts
      ensures main == old(main) - {key} && Indexed(main, coverageCosts) && Filed(main, backup, customerCoverage)
      ensures backup == if keepEvicted then Backed(old(backup), old(main)[key], key, tolerance) else old(backup)
    {
      hide Indexed, Backed;
      FiledDemoted(main, backup, customerCoverage, key, tolerance);
      var demoted := main[key];
      EraseMain(key);
      if keepEvicted { PutBackup(demoted); }
    }

    method RecordImprovement(improved: bool)
      modifies `generation
      ensures generation == old(generation) + (if improved then 1 else 0)
    {
      if improved { generation := generation + 1; }
    }

    /** Store a column in main and count it when it beats its coverage. */
    method PutCounted(column: Column) returns (effective: bool)
      requires Indexed(main, coverageCosts) && 0.0 <= tolerance
      modifies `main, `backup, `coverageCosts, `generation
      ensures var key := KeyOf(column, customerCoverage);
        main == old(main)[key := column] && backup == old(backup) - {key}
      ensures Indexed(main, coverageCosts)
      ensures effective <==> BeatsCoverage(old(main), column, tolerance)
      ensures generation == old(generation) + (if effective then 1 else 0)
    {
      hide Indexed, IsBestCost, BeatsCoverage;
      var oldCost := BestCoverageCost(column.coverage);
      PutMain(column);
      var newCost := BestCoverageCost(column.coverage);
      ImprovedMeansBeats(old(main), main, KeyOf(column, customerCoverage), column, tolerance, oldCost, newCost);
      effective := Improved(oldCost, newCost, tolerance);
      RecordImprovement(effective);
    }

    /** Store a column in a full pool and let the worst unprotected column go, possibly the new one. */
    method PutEvicting(column: Column) returns (u: Update)
      requires Sound() && |main| >= capacity
      requires KeyOf(column, customerCoverage) !in main
      modifies `main, `backup, `coverageCosts, `generation
      ensures Sound() && |main| == |old(main)|
      ensures Covers(old(main), protectedKeys) ==> Covers(main, protectedKeys)
      ensures var key := KeyOf(column, customerCoverage);
        Evicted(old(main)[key := column], old(backup) - {key}, key, protectedKeys, duals, keepEvicted, tolerance,
                main, backup, u.main)
      ensures u.effective <==> u.main && BeatsCoverage(old(main), column, tolerance)
      ensures generation == old(generation) + (if u.effective then 1 else 0)
      ensures u.backup == (!u.main && keepEvicted) && !u.replaced
    {
      hide Indexed, IsBestCost, BeatsCoverage, Filed, Backed, IsWorst, KeyOf, Covers;
      var key := KeyOf(column, customerCoverage);
      FiledPut(main, backup, customerCoverage, column);
      SizeAfterPut(main, key, column);
      var oldCost := BestCoverageCost(column.coverage);
      PutMain(column);
      ghost var full := main;
      var worst := WorstMain();
      WorstIsOpen(full, protectedKeys, duals, worst);
      SizeAfterDrop(full, worst);
      if Covers(old(main), protectedKeys) {
        CoversPut(old(main), protectedKeys, key, column);
        CoversDrop(full, protectedKeys, worst);
      }
      var evicted := main[worst].plan.customers;
      DemoteMain(worst);
      var survived := worst != key;
      var newCost := BestCoverageCost(column.coverage);
      if survived { ImprovedMeansBeats(old(main), main, key, column, tolerance, oldCost, newCost); }
      var effective := survived && Improved(oldCost, newCost, tolerance);
      RecordImprovement(effective);
      return Update(survived, !survived && keepEvicted, false, effective, Some(evicted));
    }

    /** Store a column whose key is in main already, or that still has room. */
    method AdmitStored(column: Column) returns (u: Update)
      requires Sound() && !Rejects(main, backup, column, KeyOf(column, customerCoverage), tolerance)
      requires KeyOf(column, customerCoverage) in main || |main| < capacity
      modifies `main, `backup, `coverageCosts, `generation
      ensures Sound() && (old(Valid()) ==> Valid())
      ensures Admitted(old(main), old(backup), column, KeyOf(column, customerCoverage),
                       Settings(capacity, tolerance, keepEvicted, protectedKeys, duals, dualsValid), main, backup, u)
      ensures u.effective <==> u.main && BeatsCoverage(old(main), column, tolerance)
      ensures generation == old(generation) + (if u.effective then 1 else 0)
    {
      hide Indexed, IsBestCost, BeatsCoverage, Backed, ReducedCost, Dominates, Evicted, Filed, KeyOf, Admitted, Covers, Rejects;
      var key := KeyOf(column, customerCoverage);
      ghost var s := Settings(capacity, tolerance, keepEvicted, protectedKeys, duals, dualsValid);
      FiledPut(main, backup, customerCoverage, column);
      SizeAfterPut(main, key, column);
      if Covers(main, protectedKeys) { CoversPut(main, protectedKeys, key, column); }
      var replaced, evicted := key in main, None;
      if replaced {
        NeverBacked(main, backup, customerCoverage, key);
        evicted := Some(main[key].plan.customers);
      }
      var effective := PutCounted(column);
      u := Update(true, false, replaced, effective, evicted);
      AdmittedStored(old(main), old(backup), column, key, s, u);
    }

    /** Offer a column to the pool. */
    method Admit(column: Column) returns (u: Update)
      requires Sound()
      modifies `main, `backup, `coverageCosts, `generation
      ensures Sound() && (old(Valid()) ==> Valid())
      ensures Admitted(old(main), old(backup), column, KeyOf(column, customerCoverage),
                       Settings(capacity, tolerance, keepEvicted, protectedKeys, duals, dualsValid), main, backup, u)
      ensures u.effective <==> u.main && BeatsCoverage(old(main), column, tolerance)
      ensures generation == old(generation) + (if u.effective then 1 else 0)
    {
      hide Indexed, IsBestCost, BeatsCoverage, Backed, ReducedCost, Dominates, Evicted, Filed, KeyOf, Admitted, Covers, Rejects;
      var key := KeyOf(column, customerCoverage);
      ghost var s := Settings(capacity, tolerance, keepEvicted, protectedKeys, duals, dualsValid);
      RejectsWhen(main, backup, column, key, tolerance);
      if (key in main && Dominates(main[key], column, tolerance))
         || (key !in main && key in backup && Dominates(backup[key], column, tolerance)) {
        AdmittedRejected(main, backup, column, key, s);
        return NOTHING;
      }
      if key in main || |main| < capacity {
        u := AdmitStored(column);
        return;
      }
      if dualsValid && ReducedCost(column, duals) >= -tolerance {
        FiledBacked(main, backup, customerCoverage, column, tolerance);
        PutBackup(column);
        u := Update(false, true, false, false, None);
        AdmittedBacked(old(main), old(backup), column, key, s, u);
        return;
      }
      u := PutEvicting(column);
      AdmittedEvicted(old(main), old(backup), column, key, s, main, backup, u);
    }

    method UpdateDuals(values: map<int, real>)
      requires Sound()
      modifies `duals, `dualsValid
      ensures Sound() && (old(Valid()) ==> Valid())
      ensures duals == values && dualsValid
    {
      duals := values;
      dualsValid := true;
    }

    /** The backup columns that price out below the tolerance, best rank first. */
    method RankedCandidates() returns (cs: seq<Column>)
      requires Filed(main, backup, customerCoverage)
      ensures Ranked(cs, duals)
      ensures Candidates(cs, backup, customerCoverage, duals, tolerance)
    {
      hide RankLess, ReducedCost, KeyOf, InsertRanked, Ranked, Distinct;
      cs := [];
      assert Ranked(cs, duals) && Distinct(cs) by { EmptyIsRanked(duals); }
      var rest := backup.Keys;
      while rest != {}
        invariant rest <= backup.Keys
        invariant Ranked(cs, duals) && Distinct(cs)
        invariant forall c | c in cs :: PricesOut(c, backup, customerCoverage, duals, tolerance)
                                        && KeyOf(c, customerCoverage) !in rest
        invariant forall k | k in backup && k !in rest && ReducedCost(backup[k], duals) < -tolerance :: backup[k] in cs
        decreases rest
      {
        var k :| k in rest;
        if ReducedCost(backup[k], duals) < -tolerance {
          KeyInBackup(main, backup, customerCoverage, k);
          InsertRankedOrder(cs, backup[k], duals);
          InsertRankedOnce(cs, backup[k], duals);
          cs := InsertRanked(cs, backup[k], duals);
        }
        rest := rest - {k};
      }
    }

    /** Take a clearly negative column out of backup and offer it to main. */
    method Reoffer(candidate: Column) returns (u: Update)
      requires Valid() && dualsValid && PricesOut(candidate, backup, customerCoverage, duals, tolerance)
      modifies `main, `backup, `coverageCosts, `generation
      ensures Valid()
      ensures var key := KeyOf(candidate, customerCoverage);
        key !in old(main) &&
        if |old(main)| < capacity then
          main == old(main)[key := candidate] && backup == old(backup) - {key} && u.main
        else
          Evicted(old(main)[key := candidate], old(backup) - {key}, key, protectedKeys, duals, keepEvicted, tolerance,
                  main, backup, u.main)
    {
      hide Indexed, RankLess, ReducedCost, KeyOf, Backed, Dominates, Evicted, BeatsCoverage, Filed;
      ghost var key := KeyOf(candidate, customerCoverage);
      ghost var spare := backup - {key};
      KeyFree(main, backup, customerCoverage, key);
      FiledTaken(main, backup, customerCoverage, key);
      backup := backup - {KeyOf(candidate, customerCoverage)};
      u := Admit(candidate);
      assert spare - {key} == spare;
    }

    /** Offer every backup column with a clearly negative reduced cost to main again. */
    method RepriceBackup() returns (candidates: seq<Column>, promoted: nat)
      requires Valid()
      modifies `main, `backup, `coverageCosts, `generation
      ensures Valid()
      ensures !dualsValid ==> candidates == [] && main == old(main) && backup == old(backup)
      ensures dualsValid ==> Candidates(candidates, old(backup), customerCoverage, duals, tolerance)
      ensures promoted <= |candidates|
      // main is left with the best columns of its old ones and the candidates
      ensures KeepsBest(Offered(old(main), candidates, customerCoverage), main, protectedKeys, duals, capacity)
      // and when evicted columns are kept, columns only move between the tiers
      ensures keepEvicted ==> main + backup == old(main) + old(backup)
      ensures forall k | k in protectedKeys :: main[k] == old(main)[k]
    {
      hide Indexed, RankLess, ReducedCost, KeyOf, Filed, Evicted, KeepsBest, PricesOut, Offered, Ranked, Distinct, Repriced,
        Candidates, Pending;
      ghost var s := Settings(capacity, tolerance, keepEvicted, protectedKeys, duals, dualsValid);
      candidates, promoted := [], 0;
      if dualsValid {
        candidates := RankedCandidates();
        CandidatesPend(candidates, backup, customerCoverage, duals, tolerance);
      }
      RepricedNone(main, backup, candidates, customerCoverage, s);
      for i := 0 to |candidates|
        invariant Valid() && promoted <= i
        invariant Repriced(old(main), old(backup), candidates, i, main, backup, customerCoverage, s)
      {
        ghost var before, spare := main, backup;
        RepricedHead(old(main), old(backup), candidates, i, before, spare, customerCoverage, s);
        var u := Reoffer(candidates[i]);
        RepricedNext(old(main), old(backup), candidates, i, before, spare, customerCoverage, s, main, backup, u.main);
        if u.main { promoted := promoted + 1; }
      }
      RepricedAll(old(main), old(backup), candidates, main, backup, customerCoverage, s);
    }

    /** Store one protected plan unless its incumbent dominates it; false when it cannot become a column. */
    method StorePlan(p: Plan) returns (ok: bool)
      requires Sound()
      modifies `main, `backup, `coverageCosts, `generation
      ensures Sound() && (ok <==> Poolable(p))
      ensures !ok ==> main == old(main)
      ensures ok ==> StoredPlan(old(main), main, p, customerCoverage, tolerance)
    {
      hide Indexed, Filed, BeatsCoverage, SortedSet, Poolable, Dominates;
      var column := FromPlan(p);
      if column.None? { return false; }
      var key := KeyOf(column.value, customerCoverage);
      FiledPut(main, backup, customerCoverage, column.value);
      if key !in main || !Dominates(main[key], column.value, tolerance) {
        var effective := PutCounted(column.value);
      }
      return true;
    }

    /** Store every protected plan, up to the first one that cannot become a column. */
    method StorePlans(plans: seq<Plan>) returns (stored: nat)
      requires Sound()
      modifies `main, `backup, `coverageCosts, `generation
      ensures Sound()
      ensures stored <= |plans| && StoredUpTo(old(main), main, plans, stored, customerCoverage, tolerance)
      ensures stored < |plans| ==> !Poolable(plans[stored])
    {
      hide Indexed, Filed, Poolable, StoredPlan, StoredUpTo;
      stored := 0;
      StoredNone(main, plans, customerCoverage, tolerance);
      while stored < |plans|
        invariant Sound() && stored <= |plans|
        invariant StoredUpTo(old(main), main, plans, stored, customerCoverage, tolerance)
      {
        ghost var before := main;
        var ok := StorePlan(plans[stored]);
        if !ok { return; }
        StoredNext(old(main), before, main, plans, stored, customerCoverage, tolerance);
        stored := stored + 1;
      }
    }

    /** Make the plans of a solution permanent members of main. */
    method ProtectPartition(plans: seq<Plan>) returns (r: Protection)
      requires Valid()
      modifies `main, `backup, `coverageCosts, `generation, `protectedKeys
      ensures Sound()
      ensures r.Refused? <==> !Protectable(plans, customerCoverage, capacity)
      ensures r.Refused? ==> unchanged(this)
      ensures r.Protected? <==> Protectable(plans, customerCoverage, capacity) && forall p | p in plans :: Poolable(p)
      ensures r.Protected? ==>
        Valid() && forall p | p in plans :: Holds(main, p, customerCoverage, tolerance)
      ensures !r.Refused? ==> protectedKeys == PlanKeys(plans, customerCoverage)
      ensures r.Interrupted? ==> Partial(old(main), main, plans, customerCoverage)
    {
      hide Indexed, Filed, Poolable, Potential, PlanKeys, PlanKey;
      var refused := Unprotectable(plans, customerCoverage, capacity);
      if refused { return Refused; }
      protectedKeys := PlanKeys(plans, customerCoverage);
      var stored := StorePlans(plans);
      if stored < |plans| {
        assert PartialAt(old(main), main, plans, customerCoverage, stored);
        return Interrupted;
      }
      assert plans[..stored] == plans;
      while |main| > capacity
        invariant Sound() && protectedKeys == PlanKeys(plans, customerCoverage)
        invariant Covers(main, protectedKeys)
        invariant forall i | 0 <= i < |plans| :: Holds(main, plans[i], customerCoverage, tolerance)
        decreases |main|
      {
        var worst := WorstMain();
        WorstIsOpen(main, protectedKeys, duals, worst);
        SizeAfterDrop(main, worst);
        DemoteMain(worst);
      }
      return Protected;
    }

    /** Any run of the public operations. */
    method Run(ops: seq<Op>)
      requires Valid()
      modifies `main, `backup, `coverageCosts, `generation, `duals, `dualsValid
      ensures Valid()
      ensures forall k | k in protectedKeys ::
        k in old(main) && Potential(main[k], tolerance) <= Potential(old(main)[k], tolerance)
    {
      hide Indexed, Filed, Potential;
      for i := 0 to |ops|
        invariant Valid()
        invariant forall k | k in protectedKeys ::
          k in old(main) && Potential(main[k], tolerance) <= Potential(old(main)[k], tolerance)
      {
        match ops[i]
        case Offer(column) =>
          ghost var before, spare := main, backup;
          var u := Admit(column);
          AdmitKeepsProtected(before, spare, column, KeyOf(column, customerCoverage),
                              Settings(capacity, tolerance, keepEvicted, protectedKeys, duals, dualsValid), main, backup, u);
        case Reprice =>
          var cs, n := RepriceBackup();
        case SetDuals(values) =>
          UpdateDuals(values);
      }
    }

    /** Protect a solution, then run any operations: its plans stay in main at most two tolerances dearer. */
    method ProtectedRun(plans: seq<Plan>, ops: seq<Op>) returns (r: Protection)
      requires Valid()
      modifies `main, `backup, `coverageCosts, `generation, `protectedKeys, `duals, `dualsValid
      ensures r.Protected? <==> Protectable(plans, customerCoverage, capacity) && forall p | p in plans :: Poolable(p)
      ensures r.Protected? ==> Valid() && forall p | p in plans ::
        PlanKey(p, customerCoverage) in main && main[PlanKey(p, customerCoverage)].cost <= p.cost + 2.0 * tolerance
    {
      hide Indexed, Filed, Poolable, PlanKey, PlanKeys;
      r := ProtectPartition(plans);
      if r.Protected? { Run(ops); }
    }
  }

  ghost predicate Distinguished(plans: seq<Plan>, customerCoverage: bool) {
    forall i, j | 0 <= i < j < |plans| :: PlanKey(plans[i], customerCoverage) != PlanKey(plans[j], customerCoverage)
  }

  method Unprotectable(plans: seq<Plan>, customerCoverage: bool, capacity: nat) returns (refused: bool)
    ensures refused <==> !Protectable(plans, customerCoverage, capacity)
  {
    hide PlanKey;
    if |plans| > capacity { return true; }
    var seen: set<Key> := {};
    for i := 0 to |plans|
      invariant forall j | 0 <= j < i :: plans[j].feasible
      invariant forall k :: k in seen <==> exists j :: 0 <= j < i && PlanKey(plans[j], customerCoverage) == k
      invariant Distinguished(plans[..i], customerCoverage)
    {
      if !plans[i].feasible { return true; }
      var key := PlanKey(plans[i], customerCoverage);
      if key in seen { return true; }
      seen := seen + {key};
    }
    return false;
  }

  /** The plan's column replaced an incumbent that does not dominate it. */
  ghost predicate StoredPlan(before: Columns, after: Columns, p: Plan, customerCoverage: bool, tolerance: real) {
    var column := Column(p, SortedSet(p.customers), p.cost, p.visits);
    var key := PlanKey(p, customerCoverage);
    after == if key in before && Dominates(before[key], column, tolerance) then before else before[key := column]
  }

  lemma {:induction false} PlanKeysNext(plans: seq<Plan>, i: nat, customerCoverage: bool)
    requires i < |plans|
    ensures PlanKeys(plans[..i + 1], customerCoverage)
         == PlanKeys(plans[..i], customerCoverage) + {PlanKey(plans[i], customerCoverage)}
  {
    assert plans[..i + 1][..i] == plans[..i];
  }

  /** The first `n` plans can become columns and are stored: main grew by their keys, and with distinct
      keys every one of them is held. */
  ghost predicate StoredUpTo(before: Columns, main: Columns, plans: seq<Plan>, n: nat, customerCoverage: bool, tolerance: real)
    requires n <= |plans|
  {
    && main.Keys == before.Keys + PlanKeys(plans[..n], customerCoverage)
    && (forall i | 0 <= i < n :: Poolable(plans[i]))
    && (Distinguished(plans, customerCoverage) ==>
          forall j | 0 <= j < n :: Holds(main, plans[j], customerCoverage, tolerance))
  }

  lemma StoredNone(main: Columns, plans: seq<Plan>, customerCoverage: bool, tolerance: real)
    ensures StoredUpTo(main, main, plans, 0, customerCoverage, tolerance)
  {
  }

  lemma StoredNext(start: Columns, before: Columns, after: Columns, plans: seq<Plan>, i: nat,
                   customerCoverage: bool, tolerance: real)
    requires i < |plans| && 0.0 <= tolerance && Poolable(plans[i])
    requires StoredUpTo(start, before, plans, i, customerCoverage, tolerance)
    requires StoredPlan(before, after, plans[i], customerCoverage, tolerance)
    ensures StoredUpTo(start, after, plans, i + 1, customerCoverage, tolerance)
  {
    hide PlanKey, PlanKeys, Poolable, StoredPlan, Holds;
    PlanKeysNext(plans, i, customerCoverage);
    StoredPlanHolds(before, after, plans[i], customerCoverage, tolerance);
    UnionNext(start.Keys, PlanKeys(plans[..i], customerCoverage), PlanKey(plans[i], customerCoverage));
    if Distinguished(plans, customerCoverage) {
      forall j | 0 <= j < i + 1 ensures Holds(after, plans[j], customerCoverage, tolerance) {
        if j < i {
          assert Holds(before, plans[j], customerCoverage, tolerance);
          StoredPlanSpares(before, after, plans[i], plans[j], customerCoverage, tolerance);
        }
      }
    }
  }

  lemma UnionNext<T>(a: set<T>, b: set<T>, x: T)
    ensures a + b + {x} == a + (b + {x})
  {
  }

  lemma StoredPlanHolds(before: Columns, after: Columns, p: Plan, customerCoverage: bool, tolerance: real)
    requires 0.0 <= tolerance && StoredPlan(before, after, p, customerCoverage, tolerance)
    ensures after.Keys == before.Keys + {PlanKey(p, customerCoverage)}
    ensures Holds(after, p, customerCoverage, tolerance)
  {
    hide PlanKey, SortedSet;
  }

  lemma StoredPlanSpares(before: Columns, after: Columns, p: Plan, q: Plan, customerCoverage: bool, tolerance: real)
    requires StoredPlan(before, after, p, customerCoverage, tolerance)
    requires PlanKey(p, customerCoverage) != PlanKey(q, customerCoverage)
    requires Holds(before, q, customerCoverage, tolerance)
    ensures Holds(after, q, customerCoverage, tolerance)
  {
    hide PlanKey, SortedSet, Dominates, Potential;
  }

  lemma {:induction false} KeyOfNone(plans: seq<Plan>, n: nat, customerCoverage: bool, key: Key)
    requires n <= |plans| && forall j | 0 <= j < n :: PlanKey(plans[j], customerCoverage) != key
    ensures key !in PlanKeys(plans[..n], customerCoverage)
  {
    hide PlanKey;
    if n > 0 {
      KeyOfNone(plans, n - 1, customerCoverage, key);
      assert plans[..n][..n - 1] == plans[..n - 1];
    }
  }

  /** After an interrupted protection every protected key is in main exactly when the plans from the refused one on
      had their keys in main before. */
  lemma {:induction false} InterruptionKeeps(before: Columns, main: Columns, plans: seq<Plan>, customerCoverage: bool, capacity: nat,
                                             stored: nat)
    requires Protectable(plans, customerCoverage, capacity) && PartialAt(before, main, plans, customerCoverage, stored)
    ensures PlanKeys(plans, customerCoverage) <= main.Keys
      <==> forall j | stored <= j < |plans| :: PlanKey(plans[j], customerCoverage) in before
  {
    hide PlanKeys, PlanKey, Poolable;
    forall j | stored <= j < |plans| ensures PlanKey(plans[j], customerCoverage) !in PlanKeys(plans[..stored], customerCoverage) {
      KeyOfNone(plans, stored, customerCoverage, PlanKey(plans[j], customerCoverage));
    }
    if PlanKeys(plans, customerCoverage) <= main.Keys {
      forall j | stored <= j < |plans| ensures PlanKey(plans[j], customerCoverage) in before {
        assert plans[j] in plans;
      }
    }
    if forall j | stored <= j < |plans| :: PlanKey(plans[j], customerCoverage) in before {
      forall k | k in PlanKeys(plans, customerCoverage) ensures k in main {
        var j := KeyOwner(plans, customerCoverage, k);
        if j < stored { assert plans[j] in plans[..stored] by { assert plans[..stored][j] == plans[j]; } }
      }
    }
  }

  lemma {:induction false} KeyOwner(plans: seq<Plan>, customerCoverage: bool, key: Key) returns (j: nat)
    requires key in PlanKeys(plans, customerCoverage)
    ensures j < |plans| && PlanKey(plans[j], customerCoverage) == key
  {
    hide PlanKey;
    var n := |plans| - 1;
    if key == PlanKey(plans[n], customerCoverage) { j := n; } else { j := KeyOwner(plans[..n], customerCoverage, key); }
  }

  /** Keyed by customer sequences, a pool of proper columns always loses the guarantee: the refused plan cannot
      have had its key in main. */
  lemma {:induction false} InterruptionLosesAKey(before: Columns, main: Columns, plans: seq<Plan>, capacity: nat)
    requires Protectable(plans, false, capacity) && Partial(before, main, plans, false)
    requires forall k | k in before :: KeyOf(before[k], false) == k && Poolable(before[k].plan)
    ensures !(PlanKeys(plans, false) <= main.Keys)
  {
    hide PlanKeys;
    var stored: nat :| stored < |plans| && PartialAt(before, main, plans, false, stored);
    InterruptionKeeps(before, main, plans, false, capacity, stored);
    var key := PlanKey(plans[stored], false);
    forall k | k in before ensures k != key {
      assert Poolable(before[k].plan);
    }
  }

  /** Keyed by customer sets it may keep it: the refused plan repeats a customer whose column main holds. */
  method InterruptionSparesCoverage() returns (pool: RoutePool, r: Protection)
    ensures r.Interrupted? && pool.customerCoverage && pool.Valid() && pool.protectedKeys == {[1]}
  {
    hide Indexed, Filed, BeatsCoverage;
    pool := new RoutePool(1, 0.0, true, true);
    var u := pool.Admit(Proper([1], 1.0));
    var plans := [Plan([1, 1], [1, 1], 1.0, true, true)];
    assert !Distinct(plans[0].customers) && plans[0] in plans && !Poolable(plans[0]);
    assert plans[..0] == [] && PlanKeys([], true) == {};
    assert PlanKey(plans[0], true) == [1];
    PlanKeysNext(plans, 0, true);
    assert plans[..1] == plans;
    r := pool.ProtectPartition(plans);
  }

  function Proper(customers: seq<int>, cost: real): Column {
    Column(Plan(customers, customers, cost, true, true), customers, cost, customers)
  }

  method FullPool() returns (pool: RoutePool)
    ensures fresh(pool) && pool.Valid() && pool.capacity == 2 && !pool.customerCoverage
    ensures pool.main.Keys == {[1], [2]}
  {
    hide Indexed, Filed, BeatsCoverage;
    pool := new RoutePool(2, 0.0, false, true);
    var u := pool.Admit(Proper([1], 1.0));
    u := pool.Admit(Proper([2], 1.0));
  }

  /** A full pool of two columns, asked to protect a new route and an empty one, is left with three. */
  method InterruptionOverfills() returns (pool: RoutePool, r: Protection)
    ensures r.Interrupted? && |pool.main| == 3 && pool.capacity == 2 && !pool.Valid()
  {
    hide Indexed, Filed, PlanKeys;
    pool := FullPool();
    var plans := [Plan([3], [3], 1.0, true, true), Plan([], [], 1.0, true, true)];
    assert plans[1] in plans && !Poolable(plans[1]);
    assert PlanKeys(plans[..1], false) == {[3]} by {
      PlanKeysNext(plans, 0, false);
      assert PlanKeys([], false) == {} by { NoKeys(false); }
    }
    r := pool.ProtectPartition(plans);
    assert pool.main.Keys == {[1], [2]} + {[3]};
    SizeOfThree([1], [2], [3]);
    assert |pool.main| == |pool.main.Keys|;
  }

  lemma {:induction false} NoKeys(customerCoverage: bool)
    ensures PlanKeys([], customerCoverage) == {}
  {
  }

  lemma SizeOfThree<T>(a: T, b: T, c: T)
    requires a != b && b != c && a != c
    ensures |{a, b} + {c}| == 3
  {
  }

  /** An offer leaves every protected column in main and never raises its potential. */
  lemma AdmitKeepsProtected(main: Columns, backup: Columns, column: Column, key: Key, s: Settings,
                            newMain: Columns, newBackup: Columns, u: Update)
    requires 0.0 <= s.tolerance && Admitted(main, backup, column, key, s, newMain, newBackup, u)
    ensures forall k | k in s.protectedKeys && k in main ::
      k in newMain && Potential(newMain[k], s.tolerance) <= Potential(main[k], s.tolerance)
  {
    hide Potential, Dominates, RankLess, ReducedCost, Backed;
    if key in main && !Dominates(main[key], column, s.tolerance) {
      ReplacementLowersPotential(main[key], column, s.tolerance);
    }
  }

  /** The key a plan would be stored under. */
  function PlanKey(p: Plan, customerCoverage: bool): Key {
    if customerCoverage then SortedSet(p.customers) else p.customers
  }

  function PlanKeys(plans: seq<Plan>, customerCoverage: bool): (r: set<Key>)
    ensures forall p | p in plans :: PlanKey(p, customerCoverage) in r
    ensures |r| <= |plans|
  {
    if plans == [] then {}
    else PlanKeys(plans[..|plans| - 1], customerCoverage) + {PlanKey(plans[|plans| - 1], customerCoverage)}
  }

  /** The checks made before anything changes. */
  ghost predicate Protectable(plans: seq<Plan>, customerCoverage: bool, capacity: nat) {
    && (forall p | p in plans :: p.feasible) && |plans| <= capacity
    && forall i, j | 0 <= i < j < |plans| :: PlanKey(plans[i], customerCoverage) != PlanKey(plans[j], customerCoverage)
  }

  /** The column of a protected plan never costs much more than the plan. */
  ghost predicate Holds(main: Columns, p: Plan, customerCoverage: bool, tolerance: real) {
    var key := PlanKey(p, customerCoverage);
    key in main && Potential(main[key], tolerance) <= p.cost + tolerance
  }

  /** Only the plans before the first one that cannot become a column were stored, on top of what main held. */
  ghost predicate Partial(before: Columns, main: Columns, plans: seq<Plan>, customerCoverage: bool) {
    exists stored: nat :: stored < |plans| && PartialAt(before, main, plans, customerCoverage, stored)
  }

  ghost predicate PartialAt(before: Columns, main: Columns, plans: seq<Plan>, customerCoverage: bool, stored: nat) {
    && stored < |plans| && !Poolable(plans[stored])
    && (forall i | 0 <= i < stored :: Poolable(plans[i]))
    && main.Keys == before.Keys + PlanKeys(plans[..stored], customerCoverage)
  }

  /** Refused calls change nothing; interrupted ones throw after part of the work is done. */
  datatype Protection = Refused | Interrupted | Protected

  datatype Op = Offer(column: Column) | Reprice | SetDuals(values: map<int, real>)

  /** Exactly the backup columns that price out below the tolerance, each once. */
  ghost predicate Candidates(cs: seq<Column>, backup: Columns, customerCoverage: bool, duals: map<int, real>, tolerance: real) {
    && Pending(cs, backup, customerCoverage, duals, tolerance)
    && forall k | k in backup && ReducedCost(backup[k], duals) < -tolerance :: backup[k] in cs
  }

  /** A backup column whose reduced cost is negative by more than the tolerance. */
  ghost predicate PricesOut(c: Column, backup: Columns, customerCoverage: bool, duals: map<int, real>, tolerance: real) {
    && KeyOf(c, customerCoverage) in backup && backup[KeyOf(c, customerCoverage)] == c
    && ReducedCost(c, duals) < -tolerance
  }

  /** Distinct backup columns that price out below the tolerance. */
  ghost predicate Pending(cs: seq<Column>, backup: Columns, customerCoverage: bool, duals: map<int, real>, tolerance: real) {
    Distinct(cs) && forall c | c in cs :: PricesOut(c, backup, customerCoverage, duals, tolerance)
  }

  lemma CandidatesPend(cs: seq<Column>, backup: Columns, customerCoverage: bool, duals: map<int, real>, tolerance: real)
    requires Candidates(cs, backup, customerCoverage, duals, tolerance)
    ensures Pending(cs, backup, customerCoverage, duals, tolerance)
  {
  }

  lemma EmptyIsRanked(duals: map<int, real>)
    ensures Ranked([], duals) && Distinct<Column>([])
  {
  }

  lemma KeyInBackup(main: Columns, backup: Columns, customerCoverage: bool, k: Key)
    requires Filed(main, backup, customerCoverage) && k in backup
    ensures KeyOf(backup[k], customerCoverage) == k
  {
  }

  /** Main with every candidate stored under its key. */
  ghost function Offered(main: Columns, cs: seq<Column>, customerCoverage: bool): Columns {
    if cs == [] then main
    else Offered(main, cs[..|cs| - 1], customerCoverage)[KeyOf(cs[|cs| - 1], customerCoverage) := cs[|cs| - 1]]
  }

  lemma KeepsAll(main: Columns, protectedKeys: set<Key>, duals: map<int, real>, capacity: nat)
    ensures KeepsBest(main, main, protectedKeys, duals, capacity)
  {
  }

  lemma {:induction false} OfferedNext(main: Columns, cs: seq<Column>, customerCoverage: bool)
    ensures cs == [] ==> Offered(main, cs, customerCoverage) == main
    ensures cs != [] ==>
      var n := |cs| - 1;
      Offered(main, cs, customerCoverage) == Offered(main, cs[..n], customerCoverage)[KeyOf(cs[n], customerCoverage) := cs[n]]
  {
  }

  /** Storing into a pool with room, or storing and evicting the worst, keeps the best of what was offered. */
  lemma ReofferKeepsBest(all: Columns, main: Columns, rest: Columns, key: Key, c: Column,
                         s: Settings, newMain: Columns, newBackup: Columns, survived: bool)
    requires KeepsBest(all, main, s.protectedKeys, s.duals, s.capacity)
    requires if |main| < s.capacity then newMain == main[key := c]
             else Evicted(main[key := c], rest, key, s.protectedKeys, s.duals, s.keepEvicted, s.tolerance,
                          newMain, newBackup, survived)
    requires key !in main
    ensures KeepsBest(all[key := c], newMain, s.protectedKeys, s.duals, s.capacity)
  {
    hide RankLess, Backed;
    var full, more := main[key := c], all[key := c];
    if |main| >= s.capacity {
      var worst :| IsWorst(full, s.protectedKeys, s.duals, worst) && newMain == full - {worst};
      SizeAfterPut(main, key, c);
      SizeAfterDrop(full, worst);
      forall k, j | k in newMain && k !in s.protectedKeys && j in more && j !in newMain
        ensures !RankLess(more[j], more[k], s.duals)
      {
        if j != worst && k == key {
          assert !RankLess(all[j], all[worst], s.duals);
          RankNegativelyTransitive(c, full[worst], all[j], s.duals);
        }
      }
    }
  }

  /** After `i` re-offers: the rest still price out, main holds the best offered so far, columns only moved. */
  ghost predicate Repriced(oldMain: Columns, oldBackup: Columns, cs: seq<Column>, i: nat,
                           main: Columns, backup: Columns, customerCoverage: bool, s: Settings)
    requires i <= |cs|
  {
    && Pending(cs[i..], backup, customerCoverage, s.duals, s.tolerance)
    && KeepsBest(Offered(oldMain, cs[..i], customerCoverage), main, s.protectedKeys, s.duals, s.capacity)
    && (s.keepEvicted ==> main + backup == oldMain + oldBackup)
    && (forall k | k in s.protectedKeys :: k in oldMain && k in main && main[k] == oldMain[k])
    && (i == 0 ==> main == oldMain && backup == oldBackup)
  }

  lemma RepricedNone(main: Columns, backup: Columns, cs: seq<Column>, customerCoverage: bool, s: Settings)
    requires Covers(main, s.protectedKeys)
    requires cs == [] || Pending(cs, backup, customerCoverage, s.duals, s.tolerance)
    ensures Repriced(main, backup, cs, 0, main, backup, customerCoverage, s)
  {
    KeepsAll(main, s.protectedKeys, s.duals, s.capacity);
    OfferedNext(main, cs[..0], customerCoverage);
    assert cs[0..] == cs;
  }

  lemma RepricedHead(oldMain: Columns, oldBackup: Columns, cs: seq<Column>, i: nat,
                     main: Columns, backup: Columns, customerCoverage: bool, s: Settings)
    requires i < |cs| && Repriced(oldMain, oldBackup, cs, i, main, backup, customerCoverage, s)
    ensures PricesOut(cs[i], backup, customerCoverage, s.duals, s.tolerance)
  {
    assert cs[i] == cs[i..][0];
  }

  lemma RepricedNext(oldMain: Columns, oldBackup: Columns, cs: seq<Column>, i: nat,
                     main: Columns, backup: Columns, customerCoverage: bool, s: Settings,
                     newMain: Columns, newBackup: Columns, survived: bool)
    requires i < |cs| && Repriced(oldMain, oldBackup, cs, i, main, backup, customerCoverage, s)
    requires Filed(main, backup, customerCoverage) && Covers(main, s.protectedKeys)
    requires var key := KeyOf(cs[i], customerCoverage);
      key !in main &&
      if |main| < s.capacity then newMain == main[key := cs[i]] && newBackup == backup - {key}
      else Evicted(main[key := cs[i]], backup - {key}, key, s.protectedKeys, s.duals, s.keepEvicted, s.tolerance,
                   newMain, newBackup, survived)
    ensures Repriced(oldMain, oldBackup, cs, i + 1, newMain, newBackup, customerCoverage, s)
  {
    hide KeyOf, Filed, Evicted, KeepsBest, Offered, Pending;
    var key := KeyOf(cs[i], customerCoverage);
    ReofferKeepsBest(Offered(oldMain, cs[..i], customerCoverage), main, backup - {key}, key, cs[i], s,
                     newMain, newBackup, survived);
    ReofferMoves(cs[i..], main, backup, customerCoverage, s, newMain, newBackup, survived);
    OfferedNext(oldMain, cs[..i + 1], customerCoverage);
    assert cs[..i + 1][..i] == cs[..i] && cs[i..][1..] == cs[i + 1..];
  }

  lemma {:induction false} RepricedAll(oldMain: Columns, oldBackup: Columns, cs: seq<Column>,
                    main: Columns, backup: Columns, customerCoverage: bool, s: Settings)
    requires Repriced(oldMain, oldBackup, cs, |cs|, main, backup, customerCoverage, s)
    ensures KeepsBest(Offered(oldMain, cs, customerCoverage), main, s.protectedKeys, s.duals, s.capacity)
    ensures s.keepEvicted ==> main + backup == oldMain + oldBackup
    ensures forall k | k in s.protectedKeys :: k in oldMain && k in main && main[k] == oldMain[k]
    ensures cs == [] ==> main == oldMain && backup == oldBackup
  {
    assert cs[..|cs|] == cs;
  }

  /** What a re-offer does to the other candidates, the protected columns and the two tiers together. */
  lemma ReofferMoves(cs: seq<Column>, main: Columns, backup: Columns, customerCoverage: bool,
                     s: Settings, newMain: Columns, newBackup: Columns, survived: bool)
    requires cs != [] && Filed(main, backup, customerCoverage)
    requires Pending(cs, backup, customerCoverage, s.duals, s.tolerance)
    requires Covers(main, s.protectedKeys)
    requires var key := KeyOf(cs[0], customerCoverage);
      if |main| < s.capacity then newMain == main[key := cs[0]] && newBackup == backup - {key}
      else Evicted(main[key := cs[0]], backup - {key}, key, s.protectedKeys, s.duals, s.keepEvicted, s.tolerance,
                   newMain, newBackup, survived)
    ensures Pending(cs[1..], newBackup, customerCoverage, s.duals, s.tolerance)
    ensures s.keepEvicted ==> newMain + newBackup == main + backup
    ensures forall k | k in s.protectedKeys :: k in newMain && newMain[k] == main[k]
  {
    hide RankLess, ReducedCost, KeyOf, Backed, Filed;
    var key := KeyOf(cs[0], customerCoverage);
    var full, rest := main[key := cs[0]], backup - {key};
    assert cs[0] in cs;
    KeyFree(main, backup, customerCoverage, key);
    if |main| >= s.capacity {
      var worst :| IsWorst(full, s.protectedKeys, s.duals, worst) && newMain == full - {worst}
        && newBackup == if s.keepEvicted then Backed(rest, full[worst], worst, s.tolerance) else rest;
      KeyFree(main, backup, customerCoverage, worst);
      BackedFresh(rest, full[worst], worst, s.tolerance);
      DropMoves(full, rest, worst);
    }
    PutMoves(main, backup, key);
    PendingNext(cs, backup, newBackup, customerCoverage, s.duals, s.tolerance);
  }

  lemma KeyFree(main: Columns, backup: Columns, customerCoverage: bool, key: Key)
    requires Filed(main, backup, customerCoverage)
    ensures key in main ==> key !in backup
  {
  }

  lemma BackedFresh(backup: Columns, column: Column, key: Key, tolerance: real)
    requires key !in backup
    ensures Backed(backup, column, key, tolerance) == backup[key := column]
  {
  }

  lemma PutMoves(main: Columns, backup: Columns, key: Key)
    requires key !in main && key in backup
    ensures main[key := backup[key]] + (backup - {key}) == main + backup
  {
  }

  lemma DropMoves(full: Columns, rest: Columns, worst: Key)
    requires worst in full && worst !in rest
    ensures (full - {worst}) + rest[worst := full[worst]] == full + rest
  {
  }

  lemma PendingNext(cs: seq<Column>, backup: Columns, newBackup: Columns, customerCoverage: bool,
                    duals: map<int, real>, tolerance: real)
    requires cs != [] && Pending(cs, backup, customerCoverage, duals, tolerance)
    requires forall k | k in backup && k != KeyOf(cs[0], customerCoverage) :: k in newBackup && newBackup[k] == backup[k]
    ensures Pending(cs[1..], newBackup, customerCoverage, duals, tolerance)
  {
    hide ReducedCost, KeyOf;
    assert PricesOut(cs[0], backup, customerCoverage, duals, tolerance);
    forall c | c in cs[1..] ensures PricesOut(c, newBackup, customerCoverage, duals, tolerance) {
      assert c in cs && c != cs[0];
      assert PricesOut(c, backup, customerCoverage, duals, tolerance);
    }
  }

  lemma SubsetSize<T>(a: set<T>, b: set<T>)
    requires a <= b
    ensures |a| <= |b|
  {
    assert b == a + (b - a);
  }
}
