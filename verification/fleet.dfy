/** The vehicle pool: its initial contents, the per-step availability filter and the
    update applied to a vehicle that is sent out. */
module Fleet {
  import opened Seqs
  import opened Orders

  const MaxTrips := 3
  const MaxVolume := 100
  const MaxWeight := 200

  /** A vehicle record; `id` is the number i of the id string "V{i}". */
  datatype Vehicle = Vehicle(
    id: nat,
    maxVol: int,
    maxWeight: int,
    availableAt: int,
    tripCount: nat)

  /** The pool created once per session: V1 .. Vn, all free at `t0`, none used yet. */
  function InitialPool(n: nat, t0: int): (pool: seq<Vehicle>)
    ensures |pool| == n
    ensures forall i :: 0 <= i < n ==> pool[i].id == i + 1
    ensures forall i :: 0 <= i < n ==>
      pool[i].maxVol == MaxVolume && pool[i].maxWeight == MaxWeight
    ensures forall i :: 0 <= i < n ==> pool[i].tripCount == 0 && pool[i].availableAt == t0
  {
    seq(n, i requires 0 <= i < n => Vehicle(i + 1, MaxVolume, MaxWeight, t0, 0))
  }

  /** A vehicle may take a trip once it is back and has trips left. */
  predicate Dispatchable(v: Vehicle, now: int)
  {
    v.availableAt <= now && v.tripCount < MaxTrips
  }

  /** The available vehicles of one step, as positions in the pool (Python keeps
      references to the same records), in pool order. */
  function AvailableVehicles(pool: seq<Vehicle>, now: int): (r: seq<nat>)
    ensures forall j :: 0 <= j < |r| ==> r[j] < |pool|
    ensures forall j, k :: 0 <= j < k < |r| ==> r[j] < r[k]
    ensures forall i :: 0 <= i < |pool| ==>
      (i in r <==> pool[i].availableAt <= now && pool[i].tripCount < MaxTrips)
  {
    Positions(pool, v => Dispatchable(v, now))
  }

  /** Every vehicle of a fresh pool is available at the time the pool was made. */
  lemma InitialPoolAvailable(n: nat, t0: int)
    ensures AvailableVehicles(InitialPool(n, t0), t0) == seq(n, i => i)
  {
    var pool := InitialPool(n, t0);
    PositionsOfAll(pool, v => Dispatchable(v, t0));
  }

  /** Minutes a trip keeps the vehicle busy: the depot-to-stop travel time summed over
      the stops, each stop counted on its own (not as consecutive legs). */
  function RouteMinutes(route: seq<Order>, travel: Travel): nat
    decreases |route|
  {
    if |route| == 0 then 0
    else travel(Depot, route[0].location) + RouteMinutes(route[1..], travel)
  }

  /** The busy time covers the travel time to each stop of the route. */
  lemma {:induction false} RouteMinutesCoversStops(route: seq<Order>, travel: Travel, o: Order)
    requires o in route
    ensures travel(Depot, o.location) <= RouteMinutes(route, travel)
    decreases |route|
  {
    if route[0] != o {
      assert o in route[1..];
      RouteMinutesCoversStops(route[1..], travel, o);
    }
  }

  /** A vehicle sent out at `now` on `route`: one more trip, busy until the route is done. */
  function Dispatch(v: Vehicle, route: seq<Order>, now: int, travel: Travel): (r: Vehicle)
    ensures r.id == v.id && r.maxVol == v.maxVol && r.maxWeight == v.maxWeight
    ensures r.tripCount == v.tripCount + 1
    ensures now <= r.availableAt
    ensures r.availableAt - now == RouteMinutes(route, travel)
    ensures forall o :: o in route ==> now + travel(Depot, o.location) <= r.availableAt
  {
    var total := RouteMinutes(route, travel);
    forall o | o in route
      ensures travel(Depot, o.location) <= total
    {
      RouteMinutesCoversStops(route, travel, o);
    }
    v.(availableAt := now + total, tripCount := v.tripCount + 1)
  }
}
