/** The reverse shortest-path relaxation of the fixed-route path enumeration
    (src/copt_models.cpp, `enumerate_frvcp_paths`). Stations are numbered by their position. */
module PathDistances {
  import opened Common

  datatype Gap = Gap(
    count: nat,
    origin: int,
    target: int,
    travel: (int, int) -> real,
    energy: (int, int) -> real,
    rank: int -> nat,
    battery: real,
    cutoff: real,
    tolerance: real)

  predicate Fits(g: Gap, a: int, b: int) {
    g.energy(a, b) <= g.battery
  }

  ghost predicate Sensible(g: Gap) {
    0.0 <= g.tolerance && forall a, b :: 0.0 <= g.travel(a, b)
  }

  /** Travel from a node through stations to the target. */
  function Length(g: Gap, start: int, p: seq<int>): real
    decreases |p|
  {
    if p == [] then g.travel(start, g.target) else g.travel(start, p[0]) + Length(g, p[0], p[1..])
  }

  /** Every leg from a node through stations to the target fits the battery. */
  predicate AllFit(g: Gap, start: int, p: seq<int>)
    decreases |p|
  {
    if p == [] then Fits(g, start, g.target) else Fits(g, start, p[0]) && AllFit(g, p[0], p[1..])
  }

  predicate InRange(g: Gap, p: seq<int>) {
    forall i | 0 <= i < |p| :: 0 <= p[i] < g.count
  }

  /** One tolerance per relaxed leg. */
  function Slack(g: Gap, legs: nat): real {
    if legs == 0 then 0.0 else Slack(g, legs - 1) + g.tolerance
  }

  // ----- what the distances promise -----

  /** `None` is infinity. */
  type Distances = seq<Option<real>>

  predicate AtMost(d: Option<real>, bound: real) {
    d.Some? && d.value <= bound
  }

  /** No way through stations to the target beats the distance by more than one tolerance per leg. */
  ghost predicate Admissible(g: Gap, dist: Distances) {
    && |dist| == g.count
    && forall v, p | 0 <= v < g.count && InRange(g, p) && AllFit(g, v, p) ::
         AtMost(dist[v], Length(g, v, p) + Slack(g, |p|))
  }

  /** Some way through stations has exactly this length. */
  ghost predicate Achieved(g: Gap, v: int, d: real) {
    exists p :: InRange(g, p) && AllFit(g, v, p) && Length(g, v, p) == d
  }

  ghost predicate Attained(g: Gap, dist: Distances) {
    |dist| == g.count && forall v | 0 <= v < g.count && dist[v].Some? :: Achieved(g, v, dist[v].value)
  }

  lemma AchievedDirect(g: Gap, v: int)
    requires Fits(g, v, g.target)
    ensures Achieved(g, v, g.travel(v, g.target))
  {
    assert InRange(g, []) && AllFit(g, v, []) && Length(g, v, []) == g.travel(v, g.target);
  }

  lemma AchievedThrough(g: Gap, v: int, next: int, d: real)
    requires Achieved(g, next, d) && Fits(g, v, next) && 0 <= next < g.count
    ensures Achieved(g, v, g.travel(v, next) + d)
  {
    var p :| InRange(g, p) && AllFit(g, next, p) && Length(g, next, p) == d;
    var q := [next] + p;
    assert q[0] == next && q[1..] == p;
    assert InRange(g, q) && AllFit(g, v, q) && Length(g, v, q) == g.travel(v, next) + d;
  }

  // ----- relaxation -----

  /** The leg from `u` to `w` is relaxed up to the tolerance. */
  ghost predicate Relaxed(g: Gap, dist: Distances, u: int, w: int)
    requires |dist| == g.count && 0 <= u < g.count && 0 <= w < g.count
  {
    dist[w].Some? && u != w && Fits(g, u, w) ==>
      AtMost(dist[u], g.travel(u, w) + dist[w].value + g.tolerance)
  }

  ghost predicate Closed(g: Gap, dist: Distances) {
    && |dist| == g.count
    && (forall u | 0 <= u < g.count && Fits(g, u, g.target) :: AtMost(dist[u], g.travel(u, g.target)))
    && (forall u, w | 0 <= u < g.count && 0 <= w < g.count :: Relaxed(g, dist, u, w))
  }

  lemma {:induction false} ClosedBound(g: Gap, dist: Distances, v: int, p: seq<int>)
    requires Sensible(g) && Closed(g, dist)
    requires 0 <= v < g.count && InRange(g, p) && AllFit(g, v, p)
    ensures AtMost(dist[v], Length(g, v, p) + Slack(g, |p|))
    decreases |p|
  {
    if p != [] {
      var w := p[0];
      assert InRange(g, p[1..]);
      ClosedBound(g, dist, w, p[1..]);
      assert Relaxed(g, dist, v, w);
      assert 0.0 <= g.travel(v, w);
    }
  }

  lemma ClosedIsAdmissible(g: Gap, dist: Distances)
    requires Sensible(g) && Closed(g, dist)
    ensures Admissible(g, dist)
  {
    forall v, p | 0 <= v < g.count && InRange(g, p) && AllFit(g, v, p)
      ensures AtMost(dist[v], Length(g, v, p) + Slack(g, |p|))
    {
      ClosedBound(g, dist, v, p);
    }
  }

  // ----- the queue -----

  type Queue = multiset<(real, int)>

  /** Queue entries never lie below the distance they were pushed for, and the current distance of a node
      is queued exactly while the node is unsettled. */
  ghost predicate Queued(g: Gap, dist: Distances, queue: Queue, settled: set<int>) {
    && |dist| == g.count
    && (forall e | e in queue :: 0 <= e.1 < g.count && AtMost(dist[e.1], e.0))
    && (forall v | v in settled :: 0 <= v < g.count && dist[v].Some?)
    && (forall v | 0 <= v < g.count && dist[v].Some? :: queue[(dist[v].value, v)] == if v in settled then 0 else 1)
  }

  /** Settled distances are below `floor`, and everything queued is above it. */
  ghost predicate Separated(g: Gap, dist: Distances, queue: Queue, settled: set<int>, floor: real) {
    && |dist| == g.count
    && (forall v | v in settled && 0 <= v < g.count :: AtMost(dist[v], floor))
    && (forall e | e in queue :: floor <= e.0)
  }

  ghost predicate SettledRelaxed(g: Gap, dist: Distances, settled: set<int>)
    requires |dist| == g.count
  {
    forall u, w | 0 <= u < g.count && 0 <= w < g.count && w in settled :: Relaxed(g, dist, u, w)
  }

  ghost predicate DirectDone(g: Gap, dist: Distances)
    requires |dist| == g.count
  {
    forall u | 0 <= u < g.count && Fits(g, u, g.target) :: AtMost(dist[u], g.travel(u, g.target))
  }

  lemma LeastEntry(queue: Queue) returns (e: (real, int))
    requires queue != multiset{}
    ensures e in queue && forall f | f in queue :: e.0 <= f.0
    decreases |queue|
  {
    e :| e in queue;
    var rest := queue - multiset{e};
    if rest != multiset{} {
      var f := LeastEntry(rest);
      forall x | x in queue ensures Min(e.0, f.0) <= x.0 {
        assert x == e || x in rest;
      }
      if f.0 < e.0 { e := f; }
    } else {
      forall x | x in queue ensures e.0 <= x.0 {
        assert x == e || x in rest;
      }
    }
  }

  /** Start from the stations that reach the target directly. */
  method DirectDistances(g: Gap) returns (dist: Distances, queue: Queue)
    requires Sensible(g)
    ensures Queued(g, dist, queue, {}) && DirectDone(g, dist) && Attained(g, dist)
  {
    dist, queue := [], multiset{};
    for i := 0 to g.count
      invariant |dist| == i
      invariant forall e | e in queue :: 0 <= e.1 < i && AtMost(dist[e.1], e.0)
      invariant forall v | 0 <= v < i && dist[v].Some? :: queue[(dist[v].value, v)] == 1
      invariant forall u | 0 <= u < i && Fits(g, u, g.target) :: AtMost(dist[u], g.travel(u, g.target))
      invariant forall v | 0 <= v < i && dist[v].Some? :: Achieved(g, v, dist[v].value)
    {
      if Fits(g, i, g.target) {
        AchievedDirect(g, i);
        dist := dist + [Some(g.travel(i, g.target))];
        queue := queue + multiset{(g.travel(i, g.target), i)};
      } else {
        dist := dist + [None];
      }
    }
  }

  /** A shorter way to an unsettled station. */
  lemma ImproveKeeps(g: Gap, dist: Distances, queue: Queue, settled: set<int>, u: int, c: real, floor: real)
    requires Queued(g, dist, queue, settled) && Separated(g, dist, queue, settled, floor)
    requires 0 <= u < g.count && floor <= c && (dist[u].Some? ==> c < dist[u].value)
    ensures u !in settled
    ensures var better := dist[u := Some(c)];
      var more := queue + multiset{(c, u)};
      Queued(g, better, more, settled) && Separated(g, better, more, settled, floor)
  {
    var better, more := dist[u := Some(c)], queue + multiset{(c, u)};
    assert queue[(c, u)] == 0;
    forall v | 0 <= v < g.count && better[v].Some?
      ensures more[(better[v].value, v)] == if v in settled then 0 else 1
    {
    }
  }

  lemma ImproveRelaxes(g: Gap, dist: Distances, settled: set<int>, u: int, c: real)
    requires |dist| == g.count && 0 <= u < g.count && (dist[u].Some? ==> c <= dist[u].value)
    requires u !in settled && SettledRelaxed(g, dist, settled) && DirectDone(g, dist)
    ensures SettledRelaxed(g, dist[u := Some(c)], settled) && DirectDone(g, dist[u := Some(c)])
  {
    var better := dist[u := Some(c)];
    forall v, w | 0 <= v < g.count && 0 <= w < g.count && w in settled ensures Relaxed(g, better, v, w) {
      assert Relaxed(g, dist, v, w);
    }
  }

  /** Relax every leg into the station just settled. */
  method RelaxInto(g: Gap, start: Distances, bag: Queue, ghost before: set<int>, next: int)
      returns (dist: Distances, queue: Queue)
    requires Sensible(g) && |start| == g.count && 0 <= next < g.count && start[next].Some?
    requires Queued(g, start, bag, before + {next}) && Separated(g, start, bag, before + {next}, start[next].value)
    requires SettledRelaxed(g, start, before) && DirectDone(g, start) && Attained(g, start)
    ensures Queued(g, dist, queue, before + {next})
    ensures Separated(g, dist, queue, before + {next}, start[next].value)
    ensures SettledRelaxed(g, dist, before + {next}) && DirectDone(g, dist) && Attained(g, dist)
  {
    hide Queued, Separated, DirectDone, Achieved;
    var distance := start[next].value;
    dist, queue := start, bag;
    for i := 0 to g.count
      invariant |dist| == g.count && dist[next] == start[next]
      invariant Queued(g, dist, queue, before + {next}) && Separated(g, dist, queue, before + {next}, distance)
      invariant SettledRelaxed(g, dist, before) && DirectDone(g, dist) && Attained(g, dist)
      invariant forall u | 0 <= u < i :: Relaxed(g, dist, u, next)
    {
      if i != next && Fits(g, i, next) {
        var candidate := g.travel(i, next) + distance;
        assert 0.0 <= g.travel(i, next);
        if dist[i].None? || candidate + g.tolerance < dist[i].value {
          AchievedThrough(g, i, next, distance);
          ImproveKeeps(g, dist, queue, before + {next}, i, candidate, distance);
          ImproveRelaxes(g, dist, before, i, candidate);
          ghost var previous := dist;
          dist := dist[i := Some(candidate)];
          queue := queue + multiset{(candidate, i)};
          assert forall u | 0 <= u < i :: Relaxed(g, previous, u, next) ==> Relaxed(g, dist, u, next);
        }
      }
    }
  }

  /** Popping the least entry: either a stale one, or the distance of a station that is now settled. */
  lemma PopKeeps(g: Gap, dist: Distances, queue: Queue, settled: set<int>, floor: real, e: (real, int))
    requires Queued(g, dist, queue, settled) && Separated(g, dist, queue, settled, floor)
    requires e in queue && forall f | f in queue :: e.0 <= f.0
    ensures 0 <= e.1 < g.count && dist[e.1].Some?
    ensures var rest := queue - multiset{e};
      if dist[e.1] == Some(e.0) then
        e.1 !in settled && Queued(g, dist, rest, settled + {e.1}) && Separated(g, dist, rest, settled + {e.1}, e.0)
      else
        Queued(g, dist, rest, settled) && Separated(g, dist, rest, settled, floor)
  {
    var rest := queue - multiset{e};
    assert forall f | f in rest :: f in queue;
    if dist[e.1] == Some(e.0) {
      assert queue[(dist[e.1].value, e.1)] > 0;
    }
  }

  lemma SettledBounded(g: Gap, dist: Distances, queue: Queue, settled: set<int>)
    requires Queued(g, dist, queue, settled)
    ensures |dist| == g.count && |settled| <= g.count
  {
    var all := Positions(g.count);
    assert settled <= all;
    assert all == settled + (all - settled);
  }

  function Positions(n: nat): (r: set<int>)
    ensures |r| == n && forall v :: v in r <==> 0 <= v < n
  {
    if n == 0 then {} else Positions(n - 1) + {n - 1}
  }

  lemma EmptyQueueCloses(g: Gap, dist: Distances, settled: set<int>)
    requires Queued(g, dist, multiset{}, settled) && SettledRelaxed(g, dist, settled) && DirectDone(g, dist)
    ensures Closed(g, dist)
  {
    forall u, w | 0 <= u < g.count && 0 <= w < g.count ensures Relaxed(g, dist, u, w) {
      if dist[w].Some? { assert multiset{}[(dist[w].value, w)] == 0; }
    }
  }

  /** Shortest travel times to the target, with no early stop: every pop either settles a new station
      or shortens the queue. */
  method ReverseDistances(g: Gap) returns (dist: Distances)
    requires Sensible(g)
    ensures Admissible(g, dist) && Attained(g, dist)
  {
    hide Queued, Separated, DirectDone, SettledRelaxed, Attained, Closed, Admissible;
    var queue: Queue;
    dist, queue := DirectDistances(g);
    ghost var settled: set<int> := {};
    ghost var floor := 0.0;
    NothingSettled(g, dist, queue);
    if queue != multiset{} {
      ghost var first := LeastEntry(queue);
      floor := first.0;
      SeparatedStart(g, dist, queue, first);
    }
    while queue != multiset{}
      invariant Queued(g, dist, queue, settled) && |dist| == g.count && |settled| <= g.count
      invariant queue != multiset{} ==> Separated(g, dist, queue, settled, floor)
      invariant SettledRelaxed(g, dist, settled) && DirectDone(g, dist) && Attained(g, dist)
      decreases g.count - |settled|, |queue|
    {
      ghost var least := LeastEntry(queue);
      var e :| e in queue && forall f | f in queue :: e.0 <= f.0;
      PopKeeps(g, dist, queue, settled, floor, e);
      queue := queue - multiset{e};
      if dist[e.1] == Some(e.0) {
        dist, queue := RelaxInto(g, dist, queue, settled, e.1);
        settled, floor := settled + {e.1}, e.0;
        SettledBounded(g, dist, queue, settled);
      }
    }
    EmptyQueueCloses(g, dist, settled);
    ClosedIsAdmissible(g, dist);
  }

  lemma NothingSettled(g: Gap, dist: Distances, queue: Queue)
    requires Queued(g, dist, queue, {})
    ensures |dist| == g.count && SettledRelaxed(g, dist, {})
  {
  }

  lemma SeparatedStart(g: Gap, dist: Distances, queue: Queue, first: (real, int))
    requires Queued(g, dist, queue, {}) && forall f | f in queue :: first.0 <= f.0
    ensures Separated(g, dist, queue, {}, first.0)
  {
  }
}
