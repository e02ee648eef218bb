/** Decoding of a routing-solver result into (vehicle, orders) assignments. Node 0 is
    the depot; node k (1 <= k <= number of orders) stands for the k-th order. */
module Routing {
  import opened Wrappers
  import opened Seqs
  import opened Orders

  /** What the routing model and its solution expose: the start index of each vehicle,
      the successor chosen for each index, which indices are route ends, the node each
      index stands for, and how many indices there are. */
  datatype Solution = Solution(
    start: nat -> nat,
    next: nat -> nat,
    isEnd: nat -> bool,
    node: nat -> nat,
    size: nat)

  /** The index-to-node map only yields nodes of the matrix: the depot and `n` orders. */
  ghost predicate NodesWithin(sol: Solution, n: nat)
  {
    forall i: nat :: sol.node(i) <= n
  }

  /** One pair of the result: a vehicle and the orders it delivers, in visiting order. */
  datatype Assignment<V> = Assignment(vehicle: V, route: seq<Order>)

  /** The nodes of the indices visited from `index` up to (not including) a route end.
      A solved route visits each index at most once, so `fuel` = number of indices is
      never exhausted on a real solution. */
  function Walk(sol: Solution, index: nat, fuel: nat): (nodes: seq<nat>)
    ensures |nodes| <= fuel
    decreases fuel
  {
    if fuel == 0 || sol.isEnd(index) then []
    else [sol.node(index)] + Walk(sol, sol.next(index), fuel - 1)
  }

  lemma {:induction false} WalkWithin(sol: Solution, index: nat, fuel: nat, n: nat)
    requires NodesWithin(sol, n)
    ensures forall k :: 0 <= k < |Walk(sol, index, fuel)| ==> Walk(sol, index, fuel)[k] <= n
    decreases fuel
  {
    if fuel > 0 && !sol.isEnd(index) {
      WalkWithin(sol, sol.next(index), fuel - 1, n);
    }
  }

  /** The "OrderCount" dimension: every order node weighs one, the depot nothing. */
  function Demand(node: nat): (d: nat)
    ensures d <= 1
    ensures d == 0 <==> node == 0
  {
    if node == 0 then 0 else 1
  }

  /** The OrderCount load of a sequence of nodes. */
  function Load(nodes: seq<nat>): (l: nat)
    ensures l <= |nodes|
    decreases |nodes|
  {
    if |nodes| == 0 then 0 else Demand(nodes[0]) + Load(nodes[1..])
  }

  lemma {:induction false} LoadAppend(a: seq<nat>, b: seq<nat>)
    ensures Load(a + b) == Load(a) + Load(b)
    decreases |a|
  {
    if |a| == 0 {
      assert a + b == b;
    } else {
      assert (a + b)[0] == a[0];
      assert (a + b)[1..] == a[1..] + b;
      LoadAppend(a[1..], b);
    }
  }

  /** The orders a walk stands for: depot nodes are dropped, node k becomes orders[k-1]. */
  function DecodeRoute(orders: seq<Order>, nodes: seq<nat>): (route: seq<Order>)
    requires forall k :: 0 <= k < |nodes| ==> nodes[k] <= |orders|
    ensures |route| == Load(nodes)
    ensures forall o :: o in route ==> o in orders
    decreases |nodes|
  {
    if |nodes| == 0 then []
    else
      var rest := DecodeRoute(orders, nodes[1..]);
      if nodes[0] != 0 then [orders[nodes[0] - 1]] + rest else rest
  }

  /** Decoding works stop by stop: decoding a concatenation concatenates the decodings. */
  lemma {:induction false} DecodeAppend(orders: seq<Order>, a: seq<nat>, b: seq<nat>)
    requires forall k :: 0 <= k < |a| ==> a[k] <= |orders|
    requires forall k :: 0 <= k < |b| ==> b[k] <= |orders|
    ensures DecodeRoute(orders, a + b) == DecodeRoute(orders, a) + DecodeRoute(orders, b)
    decreases |a|
  {
    if |a| == 0 {
      assert a + b == b;
    } else {
      assert (a + b)[0] == a[0];
      assert (a + b)[1..] == a[1..] + b;
      DecodeAppend(orders, a[1..], b);
    }
  }

  /** The order node at position k of a walk lands in the route right after the orders of
      the nodes before it, and it is orders[node - 1]. */
  lemma DecodeAt(orders: seq<Order>, nodes: seq<nat>, k: nat)
    requires forall m :: 0 <= m < |nodes| ==> nodes[m] <= |orders|
    requires k < |nodes| && nodes[k] != 0
    ensures Load(nodes[..k]) < |DecodeRoute(orders, nodes)|
    ensures DecodeRoute(orders, nodes)[Load(nodes[..k])] == orders[nodes[k] - 1]
  {
    assert nodes == nodes[..k] + nodes[k..];
    DecodeAppend(orders, nodes[..k], nodes[k..]);
    assert DecodeRoute(orders, nodes[k..])[0] == orders[nodes[k] - 1];
  }

  /** A walk that visits only the depot decodes to no orders. */
  lemma {:induction false} DepotOnlyDecodesEmpty(orders: seq<Order>, nodes: seq<nat>)
    requires forall k :: 0 <= k < |nodes| ==> nodes[k] == 0
    ensures DecodeRoute(orders, nodes) == []
  {
    if |nodes| > 0 {
      DepotOnlyDecodesEmpty(orders, nodes[1..]);
    }
  }

  /** The orders the solution routes vehicle number `v` through. */
  function RouteOf(orders: seq<Order>, sol: Solution, v: nat): (route: seq<Order>)
    requires NodesWithin(sol, |orders|)
    ensures |route| == Load(Walk(sol, sol.start(v), sol.size))
    ensures forall o :: o in route ==> o in orders
  {
    var nodes := Walk(sol, sol.start(v), sol.size);
    WalkWithin(sol, sol.start(v), sol.size, |orders|);
    DecodeRoute(orders, nodes)
  }

  /** The vehicle numbers that receive an assignment: those whose decoded route is not
      empty, in increasing order; none when there are no orders, no vehicles or no solution. */
  function ServedVehicles(orders: seq<Order>, nVehicles: nat, solution: Option<Solution>): (r: seq<nat>)
    requires solution.Some? ==> NodesWithin(solution.value, |orders|)
    ensures forall j :: 0 <= j < |r| ==> r[j] < nVehicles
    ensures forall j, k :: 0 <= j < k < |r| ==> r[j] < r[k]
    ensures forall j :: 0 <= j < |r| ==>
      solution.Some? && |RouteOf(orders, solution.value, r[j])| > 0
    ensures |orders| == 0 || nVehicles == 0 || solution.None? ==> r == []
    ensures |orders| > 0 && solution.Some? ==> forall v :: 0 <= v < nVehicles ==>
      (v in r <==> |RouteOf(orders, solution.value, v)| > 0)
  {
    if |orders| == 0 || nVehicles == 0 || solution.None? then []
    else
      var sol := solution.value;
      var routes := seq(nVehicles, v requires 0 <= v < nVehicles => RouteOf(orders, sol, v));
      Positions(routes, (route: seq<Order>) => |route| > 0)
  }

  /** The solver result decoded into assignments, one per served vehicle, in vehicle order. */
  function AssignOrders<V>(orders: seq<Order>, vehicles: seq<V>, solution: Option<Solution>): (r: seq<Assignment<V>>)
    requires solution.Some? ==> NodesWithin(solution.value, |orders|)
    ensures |orders| == 0 || |vehicles| == 0 || solution.None? ==> r == []
    ensures var served := ServedVehicles(orders, |vehicles|, solution);
      |r| == |served| &&
      forall j :: 0 <= j < |r| ==>
        solution.Some? && served[j] < |vehicles| &&
        r[j].vehicle == vehicles[served[j]] &&
        r[j].route == RouteOf(orders, solution.value, served[j])
    ensures forall j :: 0 <= j < |r| ==> 0 < |r[j].route| && r[j].vehicle in vehicles
    ensures forall j, o :: 0 <= j < |r| && o in r[j].route ==> o in orders
  {
    if |orders| == 0 || |vehicles| == 0 then []
    else match solution
      case None => []
      case Some(sol) =>
        var served := ServedVehicles(orders, |vehicles|, solution);
        seq(|served|, j requires 0 <= j < |served| =>
          Assignment(vehicles[served[j]], RouteOf(orders, sol, served[j])))
  }

  /** If the solver respected the OrderCount capacity of every vehicle, no route has more
      stops than that capacity. */
  lemma RouteWithinCapacity<V>(orders: seq<Order>, vehicles: seq<V>, sol: Solution, maxOrders: nat)
    requires NodesWithin(sol, |orders|)
    requires forall v :: 0 <= v < |vehicles| ==> Load(Walk(sol, sol.start(v), sol.size)) <= maxOrders
    ensures forall a :: a in AssignOrders(orders, vehicles, Some(sol)) ==> |a.route| <= maxOrders
  {
  }
}
