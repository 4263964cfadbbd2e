/** The routing instance (include/ils_sp/core.hpp, class Instance). Node lookups are total here. */
module Network {
  import opened Common
  import opened Curves

  datatype Kind = Depot | Customer | Station

  datatype Instance = Instance(
    kind: int -> Kind,
    serviceTime: int -> real,
    curve: int -> Curve,
    distance: (int, int) -> real,
    depot: int,
    stations: seq<int>,
    speed: real,
    consumption: real,
    capacity: real,
    horizon: real)

  function Travel(net: Instance, a: int, b: int): real
    requires 0.0 < net.speed
  {
    net.distance(a, b) / net.speed
  }

  function Energy(net: Instance, a: int, b: int): real {
    net.distance(a, b) * net.consumption
  }

  predicate IsStation(net: Instance, id: int) {
    net.kind(id).Station?
  }

  /** The charging opportunity a node offers. */
  function Charger(net: Instance, id: int): Option<Curve> {
    if IsStation(net, id) then Some(net.curve(id)) else None
  }

  /** Service counts for customers only. */
  function Service(net: Instance, id: int): real {
    if net.kind(id).Customer? then net.serviceTime(id) else 0.0
  }

  ghost predicate Metric(net: Instance) {
    && (forall a, b :: 0.0 <= net.distance(a, b))
    && (forall a :: net.distance(a, a) == 0.0)
    && (forall a, b, c :: net.distance(a, c) <= net.distance(a, b) + net.distance(b, c))
  }

  ghost predicate Positive(net: Instance) {
    0.0 < net.speed && 0.0 < net.consumption && 0.0 < net.capacity && 0.0 < net.horizon
  }

  /** What the constructor checks, with strict curves and distances that form a metric. */
  ghost predicate Regular(net: Instance) {
    && Positive(net)
    && Metric(net)
    && net.kind(net.depot).Depot?
    && (forall id :: 0.0 <= net.serviceTime(id))
    && (forall id | IsStation(net, id) ::
          Strict(net.curve(id)) && Capacity(net.curve(id)) == net.capacity)
  }

  ghost predicate ConcaveCharging(net: Instance) {
    forall id | IsStation(net, id) :: Strict(net.curve(id)) && Concave(net.curve(id))
  }

  lemma TravelFacts(net: Instance, a: int, b: int)
    requires Positive(net) && Metric(net)
    ensures 0.0 <= Travel(net, a, b) && 0.0 <= Energy(net, a, b)
    ensures a == b ==> Travel(net, a, b) == 0.0 && Energy(net, a, b) == 0.0
  {
    assert 0.0 <= net.distance(a, b);
  }

  lemma Triangle(net: Instance, a: int, b: int, c: int)
    requires Positive(net) && Metric(net)
    ensures Travel(net, a, c) <= Travel(net, a, b) + Travel(net, b, c)
    ensures Energy(net, a, c) <= Energy(net, a, b) + Energy(net, b, c)
  {
    var x, y, z := net.distance(a, c), net.distance(a, b), net.distance(b, c);
    assert x <= y + z;
    Scaled(x, y, z, net.speed, net.consumption);
  }

  lemma Scaled(x: real, y: real, z: real, d: real, m: real)
    requires x <= y + z && 0.0 < d && 0.0 < m
    ensures x / d <= y / d + z / d
    ensures x * m <= y * m + z * m
  {
    assert (y + z) / d == y / d + z / d;
    assert (y + z - x) * m >= 0.0;
  }
}
