/** The simulation loop run by one click of "Start Simulation": initial orders, then ten
    steps of (maybe one new order, availability filter, candidate filter, solve, commit). */
module Simulation {
  import opened Wrappers
  import opened Seqs
  import opened Orders
  import opened Fleet
  import opened Routing

  const Steps := 10

  /** What survives between clicks: all orders ever generated and the vehicle pool. */
  datatype Session = Session(orders: seq<Order>, pool: seq<Vehicle>)

  /** The state of one run: the session plus the running order number `nextId`. */
  datatype State = State(orders: seq<Order>, pool: seq<Vehicle>, nextId: nat)

  /** The outside world seen by one step: the optional new order and the clock. */
  datatype StepInput = StepInput(arrival: Option<OrderDraw>, now: int)

  /** The routing solver, given the candidate orders and the number of vehicles. */
  type Solver = (seq<Order>, nat) -> Option<Solution>

  /** The solver's index-to-node map ranges over the depot and the orders it was given. */
  ghost predicate SolverContract(solve: Solver)
  {
    forall os: seq<Order>, m: nat :: solve(os, m).Some? ==> NodesWithin(solve(os, m).value, |os|)
  }

  function Assigned(asg: seq<Assignment<nat>>): set<nat>
  {
    set j | 0 <= j < |asg| :: asg[j].vehicle
  }

  /** The commit loop: each assignment, in order, dispatches the pool vehicle it names. */
  function Commit(pool: seq<Vehicle>, asg: seq<Assignment<nat>>, now: int, travel: Travel): (r: seq<Vehicle>)
    requires forall j :: 0 <= j < |asg| ==> asg[j].vehicle < |pool|
    ensures |r| == |pool|
    ensures forall i :: 0 <= i < |pool| && i !in Assigned(asg) ==> r[i] == pool[i]
    ensures forall i :: 0 <= i < |pool| ==>
      r[i].id == pool[i].id && r[i].maxVol == pool[i].maxVol && r[i].maxWeight == pool[i].maxWeight
    ensures forall i :: 0 <= i < |pool| ==> pool[i].tripCount <= r[i].tripCount
    ensures forall i :: 0 <= i < |pool| && i in Assigned(asg) ==> now <= r[i].availableAt
    decreases |asg|
  {
    if |asg| == 0 then pool
    else
      var last := asg[|asg| - 1];
      var init := asg[..|asg| - 1];
      assert Assigned(asg) == Assigned(init) + {last.vehicle} by {
        assert forall j :: 0 <= j < |init| ==> init[j] == asg[j];
      }
      var before := Commit(pool, init, now, travel);
      before[last.vehicle := Dispatch(before[last.vehicle], last.route, now, travel)]
  }

  /** With distinct vehicles, each assigned vehicle is dispatched exactly once on its route. */
  lemma {:induction false} CommitDistinct(pool: seq<Vehicle>, asg: seq<Assignment<nat>>, now: int, travel: Travel)
    requires forall j :: 0 <= j < |asg| ==> asg[j].vehicle < |pool|
    requires forall j, k :: 0 <= j < k < |asg| ==> asg[j].vehicle < asg[k].vehicle
    ensures forall j :: 0 <= j < |asg| ==>
      Commit(pool, asg, now, travel)[asg[j].vehicle] == Dispatch(pool[asg[j].vehicle], asg[j].route, now, travel)
    decreases |asg|
  {
    if |asg| > 0 {
      var last := asg[|asg| - 1];
      var init := asg[..|asg| - 1];
      var before := Commit(pool, init, now, travel);
      CommitDistinct(pool, init, now, travel);
      assert forall j :: 0 <= j < |init| ==> init[j].vehicle < last.vehicle by {
        forall j | 0 <= j < |init|
          ensures init[j].vehicle < last.vehicle
        {
          assert init[j] == asg[j];
        }
      }
      assert last.vehicle !in Assigned(init);
      forall j | 0 <= j < |asg|
        ensures Commit(pool, asg, now, travel)[asg[j].vehicle] == Dispatch(pool[asg[j].vehicle], asg[j].route, now, travel)
      {
        if j < |asg| - 1 {
          assert init[j] == asg[j];
          assert asg[j].vehicle < last.vehicle;
        }
      }
    }
  }

  /** The available vehicles and the assignments decoded in one step. */
  function StepAssignments(orders: seq<Order>, pool: seq<Vehicle>, now: int, solve: Solver, travel: Travel): (r: seq<Assignment<nat>>)
    requires SolverContract(solve)
    ensures forall j :: 0 <= j < |r| ==> r[j].vehicle < |pool|
    ensures forall j :: 0 <= j < |r| ==> Dispatchable(pool[r[j].vehicle], now)
    ensures forall j, k :: 0 <= j < k < |r| ==> r[j].vehicle < r[k].vehicle
    ensures forall j, o :: 0 <= j < |r| && o in r[j].route ==>
      o in orders && CanReachInTime(o, Depot, now, travel)
    ensures forall j :: 0 <= j < |r| ==> 0 < |r[j].route|
  {
    var available := AvailableVehicles(pool, now);
    var valid := ValidOrders(orders, now, travel);
    var solution := solve(valid, |available|);
    var r := AssignOrders(valid, available, solution);
    var served := ServedVehicles(valid, |available|, solution);
    forall j, k | 0 <= j < k < |r|
      ensures r[j].vehicle < r[k].vehicle
    {
      assert served[j] < served[k];
    }
    forall j | 0 <= j < |r|
      ensures r[j].vehicle < |pool| && Dispatchable(pool[r[j].vehicle], now)
    {
      assert r[j].vehicle == available[served[j]];
    }
    forall j, o | 0 <= j < |r| && o in r[j].route
      ensures o in orders && CanReachInTime(o, Depot, now, travel)
    {
      assert o in valid;
    }
    r
  }

  /** One step of the loop. */
  function Step(s: State, input: StepInput, solve: Solver, travel: Travel): (t: State)
    requires SolverContract(solve)
    ensures |t.pool| == |s.pool|
    ensures input.arrival.None? ==> t.orders == s.orders && t.nextId == s.nextId
    ensures input.arrival.Some? ==>
      t.orders == s.orders + [GenerateOrder(s.nextId, input.arrival.value)] && t.nextId == s.nextId + 1
  {
    var (orders, nextId) := match input.arrival
      case None => (s.orders, s.nextId)
      case Some(d) => (s.orders + [GenerateOrder(s.nextId, d)], s.nextId + 1);
    var asg := StepAssignments(orders, s.pool, input.now, solve, travel);
    State(orders, Commit(s.pool, asg, input.now, travel), nextId)
  }

  /** No vehicle is ever used for more than `MaxTrips` trips. */
  ghost predicate TripBound(pool: seq<Vehicle>)
  {
    forall i :: 0 <= i < |pool| ==> pool[i].tripCount <= MaxTrips
  }

  /** Order numbers are the positions in the order list, and the next number is its length. */
  ghost predicate IdsSequential(orders: seq<Order>, nextId: nat)
  {
    nextId == |orders| && forall j :: 0 <= j < |orders| ==> orders[j].id == j
  }

  /** What committing the assignments of one step does to each vehicle, given that the
      assigned vehicles are distinct and were available. */
  lemma {:induction false} CommitEffect(pool: seq<Vehicle>, asg: seq<Assignment<nat>>, now: int, travel: Travel)
    requires forall j :: 0 <= j < |asg| ==> asg[j].vehicle < |pool|
    requires forall j :: 0 <= j < |asg| ==> Dispatchable(pool[asg[j].vehicle], now)
    requires forall j, k :: 0 <= j < k < |asg| ==> asg[j].vehicle < asg[k].vehicle
    ensures var r := Commit(pool, asg, now, travel);
      forall i :: 0 <= i < |pool| ==>
        && r[i].id == pool[i].id
        && pool[i].tripCount <= r[i].tripCount <= pool[i].tripCount + 1
        && (!Dispatchable(pool[i], now) ==> r[i] == pool[i])
        && (r[i].tripCount == pool[i].tripCount + 1 ==> Dispatchable(pool[i], now) && now <= r[i].availableAt)
        && (r[i].tripCount == pool[i].tripCount ==> r[i] == pool[i])
  {
    var r := Commit(pool, asg, now, travel);
    CommitDistinct(pool, asg, now, travel);
    forall i | 0 <= i < |pool|
      ensures pool[i].tripCount <= r[i].tripCount <= pool[i].tripCount + 1
      ensures i in Assigned(asg) ==> Dispatchable(pool[i], now) && r[i].tripCount == pool[i].tripCount + 1
    {
      if i in Assigned(asg) {
        var j :| 0 <= j < |asg| && asg[j].vehicle == i;
        assert r[i] == Dispatch(pool[i], asg[j].route, now, travel);
      }
    }
  }

  /** What one step does to the pool: vehicles that were not dispatchable are unchanged,
      every vehicle keeps its identity and gains at most one trip, a vehicle that gains a
      trip was dispatchable and is then busy until at least `now`. */
  lemma StepPool(s: State, input: StepInput, solve: Solver, travel: Travel)
    requires SolverContract(solve)
    ensures var t := Step(s, input, solve, travel);
      forall i :: 0 <= i < |s.pool| ==>
        && t.pool[i].id == s.pool[i].id
        && s.pool[i].tripCount <= t.pool[i].tripCount <= s.pool[i].tripCount + 1
        && (!Dispatchable(s.pool[i], input.now) ==> t.pool[i] == s.pool[i])
        && (t.pool[i].tripCount == s.pool[i].tripCount + 1 ==>
              Dispatchable(s.pool[i], input.now) && input.now <= t.pool[i].availableAt)
        && (t.pool[i].tripCount == s.pool[i].tripCount ==> t.pool[i] == s.pool[i])
  {
    var t := Step(s, input, solve, travel);
    var asg := StepAssignments(t.orders, s.pool, input.now, solve, travel);
    assert t.pool == Commit(s.pool, asg, input.now, travel);
    CommitEffect(s.pool, asg, input.now, travel);
  }

  /** The trip-count bound is an invariant of the step. */
  lemma StepKeepsTripBound(s: State, input: StepInput, solve: Solver, travel: Travel)
    requires SolverContract(solve)
    requires TripBound(s.pool)
    ensures TripBound(Step(s, input, solve, travel).pool)
  {
    StepPool(s, input, solve, travel);
  }

  /** A vehicle that has used up its trips is never touched again. */
  lemma RetiredVehicleFrozen(s: State, input: StepInput, solve: Solver, travel: Travel, i: nat)
    requires SolverContract(solve)
    requires i < |s.pool| && MaxTrips <= s.pool[i].tripCount
    ensures Step(s, input, solve, travel).pool[i] == s.pool[i]
  {
    StepPool(s, input, solve, travel);
  }

  /** Orders are never removed, and the numbering scheme O0, O1, ... is kept. */
  lemma StepKeepsOrders(s: State, input: StepInput, solve: Solver, travel: Travel)
    requires SolverContract(solve)
    ensures s.orders <= Step(s, input, solve, travel).orders
    ensures IdsSequential(s.orders, s.nextId) ==>
      var t := Step(s, input, solve, travel); IdsSequential(t.orders, t.nextId)
  {
  }

  /** Every order that goes out on a trip is one of the orders and was reachable at `now`. */
  lemma DispatchedOrdersFeasible(s: State, input: StepInput, solve: Solver, travel: Travel)
    requires SolverContract(solve)
    ensures var t := Step(s, input, solve, travel);
      forall a, o :: a in StepAssignments(t.orders, s.pool, input.now, solve, travel) && o in a.route ==>
        o in t.orders && CanReachInTime(o, Depot, input.now, travel) && input.now <= Deadline(o)
  {
  }

  /** The steps of a run, one input after the other. */
  function Run(s: State, inputs: seq<StepInput>, solve: Solver, travel: Travel): (t: State)
    requires SolverContract(solve)
    ensures |t.pool| == |s.pool|
    ensures s.orders <= t.orders
    decreases |inputs|
  {
    if |inputs| == 0 then s
    else
      StepKeepsOrders(s, inputs[0], solve, travel);
      Run(Step(s, inputs[0], solve, travel), inputs[1..], solve, travel)
  }

  lemma {:induction false} RunKeepsInvariants(s: State, inputs: seq<StepInput>, solve: Solver, travel: Travel)
    requires SolverContract(solve)
    requires TripBound(s.pool)
    ensures TripBound(Run(s, inputs, solve, travel).pool)
    ensures IdsSequential(s.orders, s.nextId) ==>
      var t := Run(s, inputs, solve, travel); IdsSequential(t.orders, t.nextId)
    decreases |inputs|
  {
    if |inputs| > 0 {
      StepKeepsTripBound(s, inputs[0], solve, travel);
      StepKeepsOrders(s, inputs[0], solve, travel);
      RunKeepsInvariants(Step(s, inputs[0], solve, travel), inputs[1..], solve, travel);
    }
  }

  /** The initial orders of a click: numbers `first`, `first` + 1, ... appended in order. */
  function Seed(orders: seq<Order>, draws: seq<OrderDraw>, first: nat): (r: seq<Order>)
    ensures |r| == |orders| + |draws|
    ensures r[..|orders|] == orders
    ensures forall k :: 0 <= k < |draws| ==> r[|orders| + k] == GenerateOrder(first + k, draws[k])
    decreases |draws|
  {
    if |draws| == 0 then orders
    else Seed(orders + [GenerateOrder(first, draws[0])], draws[1..], first + 1)
  }

  /** The session state before the first click. */
  function NewSession(numVehicles: nat, t0: int): (s: Session)
    ensures s.orders == []
    ensures |s.pool| == numVehicles && TripBound(s.pool)
  {
    Session([], InitialPool(numVehicles, t0))
  }

  /** One click of "Start Simulation": the initial orders get numbers 0 .. n-1 (n =
      |draws|), the order counter restarts at n, and the steps run. A click runs ten
      steps unless Streamlit stops the script early, so at most ten complete steps. */
  function StartSimulation(session: Session, draws: seq<OrderDraw>, inputs: seq<StepInput>,
                           solve: Solver, travel: Travel): (r: Session)
    requires SolverContract(solve)
    requires |inputs| <= Steps
    ensures |r.pool| == |session.pool|
    ensures session.orders <= r.orders
  {
    var seeded := Seed(session.orders, draws, 0);
    var t := Run(State(seeded, session.pool, |draws|), inputs, solve, travel);
    Session(t.orders, t.pool)
  }

  /** Across any number of clicks no vehicle exceeds `MaxTrips` trips. */
  lemma StartKeepsTripBound(session: Session, draws: seq<OrderDraw>, inputs: seq<StepInput>,
                            solve: Solver, travel: Travel)
    requires SolverContract(solve)
    requires |inputs| <= Steps
    requires TripBound(session.pool)
    ensures TripBound(StartSimulation(session, draws, inputs, solve, travel).pool)
  {
    var seeded := Seed(session.orders, draws, 0);
    RunKeepsInvariants(State(seeded, session.pool, |draws|), inputs, solve, travel);
  }

  /** On the first click of a session every order's number is its position in the list. */
  lemma FirstClickIdsSequential(numVehicles: nat, t0: int, draws: seq<OrderDraw>,
                                inputs: seq<StepInput>, solve: Solver, travel: Travel)
    requires SolverContract(solve)
    requires |inputs| <= Steps
    ensures var r := StartSimulation(NewSession(numVehicles, t0), draws, inputs, solve, travel);
      forall j :: 0 <= j < |r.orders| ==> r.orders[j].id == j
  {
    var seeded := Seed([], draws, 0);
    assert IdsSequential(seeded, |draws|) by {
      forall j | 0 <= j < |seeded|
        ensures seeded[j].id == j
      {
        assert seeded[0 + j] == GenerateOrder(0 + j, draws[j]);
      }
    }
    RunKeepsInvariants(State(seeded, InitialPool(numVehicles, t0), |draws|), inputs, solve, travel);
  }

  /** A later click numbers its initial orders from 0 again while the earlier orders stay,
      so the number 0 then belongs to two different list entries. */
  lemma RestartRepeatsIds(session: Session, draws: seq<OrderDraw>, inputs: seq<StepInput>,
                          solve: Solver, travel: Travel)
    requires SolverContract(solve)
    requires |inputs| <= Steps
    requires 0 < |session.orders| && session.orders[0].id == 0
    requires 0 < |draws|
    ensures var r := StartSimulation(session, draws, inputs, solve, travel);
      |session.orders| < |r.orders| && r.orders[0].id == 0 && r.orders[|session.orders|].id == 0
  {
    var seeded := Seed(session.orders, draws, 0);
    assert seeded[|session.orders| + 0] == GenerateOrder(0 + 0, draws[0]);
    assert seeded[0] == seeded[..|session.orders|][0];
    var t := Run(State(seeded, session.pool, |draws|), inputs, solve, travel);
    assert seeded <= t.orders;
    assert t.orders[|session.orders|] == seeded[|session.orders|];
  }
}
