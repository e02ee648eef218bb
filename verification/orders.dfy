/** Delivery orders: the priority -> wait-budget rule, the derived deadline, the
    deadline-feasibility predicate and the per-step candidate filter. */
module Orders {
  import opened Seqs

  /** A coordinate pair; only ever handed to the travel-time function. */
  datatype Location = Location(lat: real, lon: real)

  const Depot := Location(12.9716, 77.5946)

  /** Travel time in whole minutes between two locations (abstract, non-negative). */
  type Travel = (Location, Location) -> nat

  const UrgentPriority := 1
  const UrgentWait := 30
  const StandardWait := 60

  /** An order record; `id` is the number i of the id string "O{i}". */
  datatype Order = Order(
    id: nat,
    location: Location,
    volume: int,
    weight: int,
    priority: int,
    waitTime: nat,
    arrival: int)

  /** The random draws and the clock reading that go into one new order. */
  datatype OrderDraw = OrderDraw(
    location: Location,
    volume: int,
    weight: int,
    priority: int,
    arrival: int)

  /** Minutes an order may wait: priority 1 is urgent, every other priority is standard. */
  function WaitTime(priority: int): (w: nat)
    ensures w == UrgentWait <==> priority == UrgentPriority
    ensures w == StandardWait <==> priority != UrgentPriority
    ensures 0 < w
  {
    if priority == UrgentPriority then UrgentWait else StandardWait
  }

  /** The latest acceptable delivery time of an order. */
  function Deadline(o: Order): int
  {
    o.arrival + o.waitTime
  }

  /** The order with number `i` built from one set of draws. */
  function GenerateOrder(i: nat, d: OrderDraw): (o: Order)
    ensures o.id == i && o.location == d.location && o.priority == d.priority
    ensures o.volume == d.volume && o.weight == d.weight && o.arrival == d.arrival
    ensures o.waitTime == WaitTime(d.priority)
    ensures o.arrival < Deadline(o)
    ensures d.priority == UrgentPriority ==> Deadline(o) == d.arrival + UrgentWait
    ensures d.priority != UrgentPriority ==> Deadline(o) == d.arrival + StandardWait
  {
    Order(i, d.location, d.volume, d.weight, d.priority, WaitTime(d.priority), d.arrival)
  }

  /** Whether a vehicle free at `availableAt` reaches the order from `depot` by its deadline. */
  function CanReachInTime(o: Order, depot: Location, availableAt: int, travel: Travel): (b: bool)
    ensures b <==> availableAt + travel(depot, o.location) <= Deadline(o)
    ensures b ==> availableAt <= Deadline(o)
  {
    var travelMinutes := travel(depot, o.location);
    var latestDelivery := o.arrival + o.waitTime;
    var expectedDelivery := availableAt + travelMinutes;
    expectedDelivery <= latestDelivery
  }

  /** Reachability only gets easier the earlier the vehicle is free. */
  lemma FeasibilityAntitone(o: Order, depot: Location, t: int, t': int, travel: Travel)
    requires CanReachInTime(o, depot, t, travel)
    requires t' <= t
    ensures CanReachInTime(o, depot, t', travel)
  {
  }

  /** Positions in `orders` of the orders reachable by a vehicle leaving the depot at `now`. */
  function CandidatePositions(orders: seq<Order>, now: int, travel: Travel): (r: seq<nat>)
    ensures forall j :: 0 <= j < |r| ==> r[j] < |orders|
    ensures forall j, k :: 0 <= j < k < |r| ==> r[j] < r[k]
    ensures forall i :: 0 <= i < |orders| ==>
      (i in r <==> CanReachInTime(orders[i], Depot, now, travel))
  {
    Positions(orders, o => CanReachInTime(o, Depot, now, travel))
  }

  /** The candidate orders of one step, in `orders` order; `orders` itself is not changed. */
  function ValidOrders(orders: seq<Order>, now: int, travel: Travel): (r: seq<Order>)
    ensures var idx := CandidatePositions(orders, now, travel);
      |r| == |idx| && forall j :: 0 <= j < |r| ==> r[j] == orders[idx[j]]
    ensures forall o :: o in r <==> o in orders && CanReachInTime(o, Depot, now, travel)
  {
    Filter(orders, o => CanReachInTime(o, Depot, now, travel))
  }

  /** An order whose deadline has passed is never a candidate, yet it stays in the list. */
  lemma ExpiredNeverCandidate(orders: seq<Order>, i: nat, now: int, travel: Travel)
    requires i < |orders|
    requires Deadline(orders[i]) < now
    ensures orders[i] !in ValidOrders(orders, now, travel)
    ensures i !in CandidatePositions(orders, now, travel)
  {
  }
}
