# Dispatch bookkeeping of the VRP simulation demo

This project models the dispatch core of `vrp_streamlit.py`, a Streamlit demo of
last-mile delivery. Orders arrive over time. Each order has a priority that fixes how
long it may wait. A pool of vehicles leaves from one depot. The program runs ten steps.
Each step first adds one new order, with probability 0.5. It then picks the vehicles
that are back and have trips left. It picks the orders that a vehicle leaving now could
still reach in time. It hands both to a routing solver. Last, it sends each vehicle
that got a non-empty route out on that route.

Time is whole minutes (`int`). The wall clock becomes an explicit `now` per step. Each
new order carries its own clock reading. Travel time is an abstract function
`Travel = (Location, Location) -> nat`. The routing solver is an abstract
`Solver = (orders, vehicle count) -> Option<Solution>`. A `Solution` exposes the
routing model's start index per vehicle, the chosen successor of each index, the end
test, the index-to-node map, and the number of indices.

Modules, one per part of the program:

- `Seqs` (seqs.dfy): order-preserving filtering, the model of the list comprehensions.
- `Orders` (orders.dfy): the order record, the wait-budget rule, the deadline,
  `can_reach_in_time` and the candidate filter.
- `Fleet` (fleet.dfy): the vehicle record, the initial pool, the availability filter
  and the update of a vehicle that is sent out.
- `Routing` (routing.dfy): the route walk, the order-count demand, route decoding and
  `assign_orders`.
- `Simulation` (simulation.dfy): the commit loop, one step, the ten-step run, and one
  click of "Start Simulation" on a session that persists between clicks.

Where the program differs from an idealised dispatcher, the model follows the program:

- A trip keeps a vehicle busy for the SUM OF DEPOT-TO-STOP travel times. It is not the
  sum of consecutive legs (`RouteMinutes`).
- There is no Returning state. A vehicle is available again as soon as
  `available_at <= now`.
- No order is ever removed from the order list. This holds when an order is assigned
  and when its deadline has passed. So an order that went out on a trip is a candidate
  again on a later step if it is still reachable.
- Feasibility is checked against `now`, never against a vehicle's own `available_at`.
- Nothing checks volume or weight. The solver is constrained only by an order-count
  dimension, with capacity `max_orders_per_vehicle`.
- The order counter restarts at `initial_orders` on every click, while the order list
  persists. So ids repeat from the second click on (`RestartRepeatsIds`).

## Model

| member | source | states |
|---|---|---|
| Orders.WaitTime | vrp_streamlit.py:41-42 | the wait budget is 30 exactly when the priority is 1 and 60 exactly when it is not; it is always positive |
| Orders.GenerateOrder | vrp_streamlit.py:38-51 | the order gets number i, the drawn fields and the priority's wait budget; its deadline is strictly after its arrival: arrival + 30 for priority 1, arrival + 60 otherwise |
| Orders.CanReachInTime | vrp_streamlit.py:53-57 | holds iff availability plus depot-to-order travel time is at most the deadline; a reachable order has not expired at that availability |
| Orders.FeasibilityAntitone | vrp_streamlit.py:53-57 | if an order is reachable by a vehicle free at t, it is reachable by one free at any t' <= t |
| Orders.CandidatePositions | vrp_streamlit.py:125 | the candidate positions are strictly increasing, in range, and contain position i iff order i is reachable with availability now |
| Orders.ValidOrders | vrp_streamlit.py:125 | the candidates are the orders at the candidate positions, in list order; an order is a candidate iff it is in the list and reachable at now |
| Orders.ExpiredNeverCandidate | vrp_streamlit.py:125 | an order whose deadline is before now is not a candidate, although it is still in the list |
| Fleet.InitialPool | vrp_streamlit.py:27-31 | the pool has n vehicles with ids 1..n, capacities 100 and 200, free at the creation time, with zero trips |
| Fleet.InitialPoolAvailable | vrp_streamlit.py:29 | at its creation time every vehicle of a fresh pool is available, and the list of available vehicles is exactly 0..n-1 |
| Fleet.AvailableVehicles | vrp_streamlit.py:124 | the available vehicles, as pool positions, are strictly increasing (pool order, a subsequence) and contain position i iff that vehicle's availability is at most now and its trip count is below 3 |
| Fleet.RouteMinutesCoversStops | vrp_streamlit.py:129 | the trip's busy time is at least the travel time to each of its stops |
| Fleet.Dispatch | vrp_streamlit.py:129-131 | a dispatched vehicle keeps its id and capacities, has exactly one more trip, and is busy from now for the route's busy time, so until no earlier than now plus each stop's travel time |
| Routing.Walk | vrp_streamlit.py:96-102 | the walk from a start index visits no more indices than the routing model has |
| Routing.WalkWithin | vrp_streamlit.py:99 | every node on a walk is a node of the matrix, given that the index-to-node map only yields such nodes |
| Routing.Demand | vrp_streamlit.py:80-82 | the demand is at most 1 and is 0 exactly at the depot node |
| Routing.Load | vrp_streamlit.py:84-90 | the order-count load of a walk is at most its length |
| Routing.LoadAppend | vrp_streamlit.py:84-90 | the load of a concatenation is the sum of the loads |
| Routing.DecodeRoute | vrp_streamlit.py:98-103 | a decoded route has one order per non-depot node (its length is the walk's order-count load) and holds only orders from the input |
| Routing.DecodeAppend | vrp_streamlit.py:98-102 | decoding a concatenation of walks is the concatenation of their decodings |
| Routing.DecodeAt | vrp_streamlit.py:100-101 | a non-depot node k at position p of the walk decodes to orders[k-1], placed right after the orders of the nodes before p |
| Routing.DepotOnlyDecodesEmpty | vrp_streamlit.py:100-103 | a walk through depot nodes only yields an empty route, so no assignment |
| Routing.RouteOf | vrp_streamlit.py:95-102 | a vehicle's route has as many orders as its walk's load and holds only input orders |
| Routing.ServedVehicles | vrp_streamlit.py:93-104 | the served vehicle numbers are in range and strictly increasing, each has a non-empty route, and a vehicle is served iff its route is non-empty; there are none with no orders, no vehicles or no solution |
| Routing.AssignOrders | vrp_streamlit.py:60-105 | empty result on empty orders, empty vehicles or no solution; otherwise one assignment per served vehicle, in increasing vehicle number, pairing vehicles[v] with v's decoded route; every route is non-empty, every vehicle comes from the input, every order from the input orders |
| Routing.RouteWithinCapacity | vrp_streamlit.py:84-90 | when the solver kept each vehicle's order-count load within the capacity, no assigned route has more stops than the capacity |
| Simulation.Commit | vrp_streamlit.py:128-131 | the pool keeps its size and every vehicle's id and capacities; vehicles without an assignment are unchanged; trip counts never drop; an assigned vehicle is busy until no earlier than now |
| Simulation.CommitDistinct | vrp_streamlit.py:128-131 | when the assigned vehicles are distinct, each is dispatched exactly once on its own route from its old record |
| Simulation.StepAssignments | vrp_streamlit.py:124-126 | each assignment names a pool vehicle that was available at now; vehicles are strictly increasing, so at most one assignment per vehicle; every route is non-empty; every dispatched order is in the order list and reachable at now |
| Simulation.Step | vrp_streamlit.py:116-131 | the pool keeps its size; without a new order the list and counter are unchanged; with one, the order numbered by the counter is appended and the counter goes up by one |
| Simulation.StepPool | vrp_streamlit.py:124-131 | per vehicle: the id is kept; the trip count rises by at most one; a vehicle that was not available is unchanged; a vehicle whose count rose was available and is busy until no earlier than now; a vehicle whose count did not rise is unchanged |
| Simulation.StepKeepsTripBound | vrp_streamlit.py:124-131 | if no vehicle has more than 3 trips before a step, none has after it |
| Simulation.RetiredVehicleFrozen | vrp_streamlit.py:124 | a vehicle with 3 trips is never changed by a step again |
| Simulation.StepKeepsOrders | vrp_streamlit.py:116-121 | the order list before a step is a prefix of the one after it (nothing is removed), and ids equal to list positions stay so |
| Simulation.DispatchedOrdersFeasible | vrp_streamlit.py:125-126 | every order sent out in a step is in the order list, reachable at now, and not past its deadline |
| Simulation.Run | vrp_streamlit.py:114 | a run keeps the pool size and only appends to the order list |
| Simulation.RunKeepsInvariants | vrp_streamlit.py:114-131 | the trip-count bound and the id numbering are invariants of the step loop |
| Simulation.Seed | vrp_streamlit.py:110-111 | the initial orders are appended after the existing ones, with numbers first, first+1, ... in draw order |
| Simulation.NewSession | vrp_streamlit.py:19-31 | a new session has no orders and a pool of the configured size within the trip bound |
| Simulation.StartSimulation | vrp_streamlit.py:108-134 | a click of at most ten complete steps keeps the pool size and only appends to the persistent order list |
| Simulation.StartKeepsTripBound | vrp_streamlit.py:108-134 | after any number of clicks no vehicle has more than 3 trips |
| Simulation.FirstClickIdsSequential | vrp_streamlit.py:110-121 | after the first click of a session, each order's number equals its position in the list |
| Simulation.RestartRepeatsIds | vrp_streamlit.py:110-113 | on a later click, the first new initial order gets number 0 again, the same number as the first order of the earlier click |

## Left out

- Streamlit widgets, session-state plumbing, `st.write` and `time.sleep` are left out.
  They are I/O and presentation. The parameters they set become arguments.
- `geopy` distances and the float arithmetic of `travel_time_km` are left out. Travel
  time is an abstract function into whole minutes. So float minutes and microsecond
  `timedelta` rounding are not modelled.
- The OR-Tools distance matrix, the routing model setup and `SolveWithParameters` are
  left out. They form an external solver. Its output is the abstract `Solution`, or
  `None` when no solution is found.
- Simulation.SolverContract: it is an assumption, not a proved fact. It says the
  index-to-node map yields only the depot and the orders it was given. Without it,
  `orders[node-1]` would raise an IndexError, and that path is not modelled.
- Simulation.StartSimulation: only clicks made of complete steps are modelled, at most
  ten of them. Streamlit can stop the script at any `st.write` (lines 115, 120, 132).
  A stop on line 120 leaves a step after its new order but before dispatch. A stop on
  line 132 leaves a commit loop that has dispatched only some of its vehicles. Both
  partial states persist in the session and are not modelled.
- Routing.Walk: the walk stops after as many steps as the routing model has indices.
  A solved route visits each index at most once, so a real solution never reaches this
  bound. A cyclic successor function, on which the Python loop would not end, is not
  modelled.
- Routing.RouteWithinCapacity: route length within `max_orders_per_vehicle` is stated
  under the assumption that the solver respected the order-count capacity. It is not
  proved of the solver.
- Random draws are not modelled. Location, volume, weight, priority and the
  new-order coin flip are inputs. Their value ranges are not constrained. The only
  rule kept is priority 1 -> 30 minutes, else 60.
- `datetime.now()` is left out. One step reads the clock several times, on lines 124,
  125 and 130. The model uses a single `now` per step.
- Return trips, order expiry and removal, and volume/weight capacity checks at commit
  are left out. None of these exists in the code.
- The `volumes` and `weights` lists built in `assign_orders` are left out. They are
  never used.
