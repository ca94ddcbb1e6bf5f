/** A depot: the customers clustered to it, its vehicles, and the fitness
    cached under the `updated` flag. */
module Depots {
  import opened Customers
  import opened Problem
  import opened Routes
  import opened Vehicles
  import opened DepotSpec
  import opened Wrappers

  class Depot {
    const id: nat
    /** The customers clustered to this depot, in the order scheduleRoutes
        lays them out. */
    const customers: seq<Customer>
    const vehicles: seq<Vehicle>
    const maxLoad: real
    const maxVehicles: nat
    const problem: Table
    var updated: bool
    var fitness: real
    /** The vehicles' routes, in vehicle order. */
    ghost var routes: seq<seq<Customer>>
    ghost const Repr: set<object>

    /** A vehicle of this depot: valid, and sharing its table, id and capacity. */
    ghost predicate VehicleOk(v: Vehicle)
      reads v
    {
      v.Valid() && v.problem == problem && v.depotId == id && v.maxLoad == maxLoad
    }

    /** Every vehicle is one of this depot's and no vehicle appears twice. */
    ghost predicate Shape()
      reads this, Repr
    {
      && Repr == {this} + (set v: object | v in vehicles)
      && VehiclesOk()
      && |vehicles| == maxVehicles
      && InTable(problem, customers)
      && (forall j, k :: 0 <= j < k < |vehicles| ==> vehicles[j] != vehicles[k])
      && |routes| == |vehicles|
      && (forall k :: 0 <= k < |vehicles| ==> routes[k] == vehicles[k].customers)
      && AllInTable(problem, routes)
    }

    /** There is a vehicle, and every vehicle is one of this depot's. */
    ghost predicate VehiclesOk()
      reads vehicles
    {
      && problem.Valid() && id < problem.numDepots && |vehicles| >= 1
      && (forall k :: 0 <= k < |vehicles| ==> VehicleOk(vehicles[k]))
    }

    /** The shape holds and a clear flag means the cached fitness is that of
        the routes as they stand. */
    ghost predicate Valid()
      reads this, Repr
    {
      && Shape()
      && (!updated ==> fitness == RoutesFitness(problem, id, maxLoad, routes))
    }

    /** The constructor together with initVehicles: maxVehicles empty vehicles. */
    constructor (id: nat, customers: seq<Customer>, maxLoad: real, maxVehicles: nat, problem: Table)
      requires problem.Valid() && id < problem.numDepots && maxVehicles >= 1 && InTable(problem, customers)
      ensures Valid() && fresh(Repr) && updated
      ensures this.id == id && this.customers == customers && this.maxLoad == maxLoad
      ensures this.maxVehicles == maxVehicles && this.problem == problem
      ensures routes == EmptyRoutes(maxVehicles)
    {
      this.id := id;
      this.customers := customers;
      this.maxLoad := maxLoad;
      this.maxVehicles := maxVehicles;
      this.problem := problem;
      this.updated := true;
      var vs: seq<Vehicle> := [];
      var i := 0;
      while i < maxVehicles
        invariant i == |vs| <= maxVehicles
        invariant forall k :: 0 <= k < i ==>
          fresh(vs[k]) && vs[k].Valid() && vs[k].problem == problem && vs[k].depotId == id
          && vs[k].maxLoad == maxLoad && vs[k].customers == []
        invariant forall j, k :: 0 <= j < k < i ==> vs[j] != vs[k]
      {
        var v := new Vehicle(maxLoad, problem, id);
        vs := vs + [v];
        i := i + 1;
      }
      this.vehicles := vs;
      this.routes := EmptyRoutes(maxVehicles);
      this.Repr := {this} + (set v: object | v in vs);
    }

    /** A deep copy, as SerializationUtils.clone makes one: new vehicles
        with the same routes, and the same list, cache and flag. */
    constructor Copy(other: Depot)
      requires other.Valid()
      ensures Valid() && fresh(Repr)
      ensures id == other.id && customers == other.customers && maxLoad == other.maxLoad
      ensures maxVehicles == other.maxVehicles && problem == other.problem
      ensures routes == other.routes && updated == other.updated && fitness == other.fitness
    {
      id := other.id;
      customers := other.customers;
      maxLoad := other.maxLoad;
      maxVehicles := other.maxVehicles;
      problem := other.problem;
      updated := other.updated;
      fitness := other.fitness;
      var vs: seq<Vehicle> := [];
      var i := 0;
      while i < |other.vehicles|
        invariant i == |vs| <= |other.vehicles|
        invariant forall k :: 0 <= k < i ==>
          fresh(vs[k]) && vs[k].Valid() && vs[k].problem == other.problem && vs[k].depotId == other.id
          && vs[k].maxLoad == other.maxLoad && vs[k].customers == other.routes[k]
        invariant forall j, k :: 0 <= j < k < i ==> vs[j] != vs[k]
      {
        assert other.VehicleOk(other.vehicles[i]);
        var v := new Vehicle.Copy(other.vehicles[i]);
        vs := vs + [v];
        i := i + 1;
      }
      vehicles := vs;
      routes := other.routes;
      Repr := {this} + (set v: object | v in vs);
    }

    /** getNumCustomers: the number of customers on the routes. */
    method GetNumCustomers() returns (n: nat)
      requires Valid()
      ensures n == |Flatten(routes)| == |AllIds(routes)|
    {
      n := 0;
      var k := 0;
      while k < |vehicles|
        invariant 0 <= k <= |vehicles|
        invariant n == |Flatten(routes[..k])|
      {
        FlattenStep(routes, k);
        n := n + vehicles[k].GetNumCustomers();
        k := k + 1;
      }
      assert routes[..k] == routes;
      assert |AllIds(routes)| == |Ids(Flatten(routes))|;
    }

    /** getFitness: recomputed from the vehicles only when the flag is set,
        which also refreshes their own caches; the routes stay as they are. */
    method GetFitness() returns (f: real)
      requires Valid()
      modifies Repr
      ensures Valid() && !updated && routes == old(routes)
      ensures f == RoutesFitness(problem, id, maxLoad, routes)
    {
      if updated {
        var sum := SumFitness();
        fitness := sum;
        updated := false;
      }
      f := fitness;
    }

    /** The loop of getFitness: the vehicles' fitnesses summed in order. */
    method SumFitness() returns (sum: real)
      requires Valid() && updated
      modifies Repr
      ensures Valid() && updated && routes == old(routes)
      ensures sum == RoutesFitness(problem, id, maxLoad, routes)
    {
      ghost var rs := routes;
      sum := 0.0;
      var k := 0;
      while k < |vehicles|
        invariant 0 <= k <= |vehicles|
        invariant Valid() && updated && routes == rs
        invariant sum == RoutesFitness(problem, id, maxLoad, rs[..k])
      {
        var fv := VehicleFitness(k);
        RoutesFitnessStep(problem, id, maxLoad, rs, k);
        sum := sum + fv;
        k := k + 1;
      }
      assert rs[..|vehicles|] == rs;
    }

    /** Vehicle k's getFitness, which refreshes its cached route cost only. */
    method VehicleFitness(k: nat) returns (fv: real)
      requires Valid() && k < |vehicles|
      modifies vehicles[k]
      ensures Valid() && routes == old(routes)
      ensures fv == RouteCost(problem, id, routes[k]) + Penalty(SumDemand(routes[k]), maxLoad)
    {
      fv := vehicles[k].GetFitness();
    }

    method SetUpdated()
      requires Valid()
      modifies this`updated
      ensures Valid() && updated
    {
      updated := true;
    }

    /** getCustomerById: the first vehicle holding the id answers. */
    method GetCustomerById(customerId: nat) returns (r: Option<Customer>)
      requires Valid()
      ensures r == FindById(routes, customerId, 0)
    {
      var k := 0;
      while k < |vehicles|
        invariant 0 <= k <= |vehicles|
        invariant FindById(routes, customerId, k) == FindById(routes, customerId, 0)
      {
        var found := vehicles[k].GetCustomerById(customerId);
        if found.Some? {
          return found;
        }
        k := k + 1;
      }
      return None;
    }

    // Each vehicle update below changes one route and sets the flag.

    method InsertAt(v: nat, i: nat, c: Customer)
      requires Valid() && v < |vehicles| && i <= |routes[v]| && c.id < problem.numCustomers
      modifies Repr
      ensures Valid() && updated
      ensures routes == old(routes)[v := Insert(old(routes)[v], i, c)]
    {
      vehicles[v].InsertCustomerByIndex(i, c);
      updated := true;
      routes := routes[v := vehicles[v].customers];
    }

    method Append(v: nat, c: Customer)
      requires Valid() && v < |vehicles| && c.id < problem.numCustomers
      modifies Repr
      ensures Valid() && updated
      ensures routes == old(routes)[v := old(routes)[v] + [c]]
    {
      vehicles[v].ForceInsertCustomer(c);
      updated := true;
      routes := routes[v := vehicles[v].customers];
    }

    method AppendIfFeasible(v: nat, c: Customer) returns (inserted: bool)
      requires Valid() && v < |vehicles| && c.id < problem.numCustomers
      modifies Repr
      ensures Valid() && updated
      ensures inserted == (SumDemand(old(routes)[v]) + c.demand < maxLoad)
      ensures routes == if inserted then old(routes)[v := old(routes)[v] + [c]] else old(routes)
    {
      inserted := vehicles[v].InsertCustomerIfFeasible(c);
      updated := true;
      routes := routes[v := vehicles[v].customers];
    }

    method Clear(v: nat)
      requires Valid() && v < |vehicles|
      modifies Repr
      ensures Valid() && updated
      ensures routes == old(routes)[v := []]
    {
      vehicles[v].ClearRoute();
      updated := true;
      routes := routes[v := vehicles[v].customers];
    }

    method RemoveFrom(v: nat, c: Customer) returns (removed: bool)
      requires Valid() && v < |vehicles|
      modifies Repr
      ensures Valid() && updated
      ensures removed == HasId(old(routes)[v], c.id)
      ensures removed ==> routes == old(routes)[v := RemoveAt(old(routes)[v], FirstIndexOf(old(routes)[v], c.id))]
      ensures !removed ==> routes == old(routes)
    {
      removed := vehicles[v].RemoveCustomer(c);
      updated := true;
      routes := routes[v := vehicles[v].customers];
    }

    method DropLast(v: nat)
      requires Valid() && v < |vehicles| && |routes[v]| >= 1
      modifies Repr
      ensures Valid() && updated
      ensures routes == old(routes)[v := old(routes)[v][..|old(routes)[v]| - 1]]
    {
      vehicles[v].RemoveLastCustomer();
      updated := true;
      routes := routes[v := vehicles[v].customers];
    }

    method PushFront(v: nat, c: Customer)
      requires Valid() && v < |vehicles| && c.id < problem.numCustomers
      modifies Repr
      ensures Valid() && updated
      ensures routes == old(routes)[v := [c] + old(routes)[v]]
    {
      vehicles[v].InsertFirstCustomer(c);
      updated := true;
      routes := routes[v := vehicles[v].customers];
    }

    /** removeLastCustomer on vehicle i, then insertFirstCustomer on vehicle i + 1. */
    method MoveLastForward(i: nat)
      requires Valid() && i + 1 < |vehicles| && |routes[i]| >= 1
      modifies Repr
      ensures Valid() && updated
      ensures routes == MoveLast(old(routes), i)
    {
      ghost var r0 := routes;
      var lastCustomer := vehicles[i].GetLastCustomer();
      assert lastCustomer == r0[i][|r0[i]| - 1] && lastCustomer.id < problem.numCustomers;
      DropLast(i);
      ghost var r1 := routes;
      assert r1 == r0[i := r0[i][..|r0[i]| - 1]];
      PushFront(i + 1, lastCustomer);
      assert routes == r1[i + 1 := [lastCustomer] + r0[i + 1]];
    }

    /** removeCustomer: the first vehicle holding c's id loses its first entry
        with that id. The flag is set so that the cached fitness is
        recomputed (see the findings). */
    method RemoveCustomer(c: Customer) returns (removed: bool)
      requires Valid()
      modifies Repr
      ensures Valid()
      ensures removed == exists k :: 0 <= k < |vehicles| && HasId(old(routes)[k], c.id)
      ensures routes == RemoveFirst(old(routes), c.id, 0)
      ensures removed ==> updated
    {
      var k := 0;
      while k < |vehicles|
        invariant 0 <= k <= |vehicles|
        invariant Valid() && routes == old(routes)
        invariant forall j :: 0 <= j < k ==> !HasId(routes[j], c.id)
        invariant RemoveFirst(routes, c.id, k) == RemoveFirst(routes, c.id, 0)
      {
        var done := RemoveFrom(k, c);
        if done {
          return true;
        }
        k := k + 1;
      }
      return false;
    }

    /** bestInsertCustomer: vehicle i's bestInsertion for c. */
    method BestInsertCustomer(i: nat, c: Customer) returns (p: Placement)
      requires i < |vehicles| && VehicleOk(vehicles[i]) && c.id < problem.numCustomers
      ensures p == PlacementOf(problem, id, maxLoad, vehicles[i].customers, c)
    {
      p := vehicles[i].BestInsertion(c);
    }

    /** bestCostInsertions: each customer in turn goes to the option its coin
        chooses; `greedy` holds the coins (Math.random() <= INSERT_BEST) and
        `picks` the random indices into the options. */
    method BestCostInsertions(cs: seq<Customer>, greedy: seq<bool>, picks: seq<nat>)
      requires Valid() && InTable(problem, cs)
      requires |greedy| == |picks| == |cs| && forall k :: 0 <= k < |picks| ==> picks[k] < |vehicles|
      modifies Repr
      ensures Valid()
      ensures routes == InsertAll(problem, id, maxLoad, old(routes), cs, greedy, picks)
      ensures AllIds(routes) == AllIds(old(routes)) + multiset(Ids(cs))
    {
      InsertAllIds(problem, id, maxLoad, routes, cs, greedy, picks);
      var k := 0;
      while k < |cs|
        invariant 0 <= k <= |cs|
        invariant Valid()
        invariant InsertAll(problem, id, maxLoad, routes, cs[k..], greedy[k..], picks[k..])
                  == InsertAll(problem, id, maxLoad, old(routes), cs, greedy, picks)
      {
        InsertCustomer(cs[k], greedy[k], picks[k]);
        assert cs[k..][1..] == cs[k + 1..] && greedy[k..][1..] == greedy[k + 1..] && picks[k..][1..] == picks[k + 1..];
        k := k + 1;
      }
    }

    /** One pass of the loop of bestCostInsertions: collect every vehicle's
        option and the feasible ones, then insert c where the coin says. The
        sort of the options by delta followed by taking the first is the
        earliest option of least delta (the sort is stable). */
    method InsertCustomer(c: Customer, greedy: bool, pick: nat)
      requires Valid() && c.id < problem.numCustomers && pick < |vehicles|
      modifies Repr
      ensures Valid() && updated
      ensures routes == InsertOne(problem, id, maxLoad, old(routes), c, greedy, pick)
    {
      ghost var ps := PlacementsFor(problem, id, maxLoad, routes, c);
      var feasibleInsertion, allInsertions := CollectOptions(c, ps);
      var insertion: Option3;
      if greedy {
        if |feasibleInsertion| == 0 {
          insertion := allInsertions[FirstMin(allInsertions)];
        } else {
          insertion := feasibleInsertion[FirstMin(feasibleInsertion)];
        }
      } else {
        insertion := allInsertions[pick];
      }
      assert insertion == InsertChoice(ps, greedy, pick);
      InsertChoiceIsOption(ps, greedy, pick);
      PlaceExact(problem, id, maxLoad, routes, c, insertion.vehicle);
      InsertAt(insertion.vehicle, insertion.index, c);
    }

    /** The collecting loop of bestCostInsertions: every vehicle's option,
        and the feasible ones, in vehicle order. */
    method CollectOptions(c: Customer, ghost ps: seq<Placement>) returns (feasibleInsertion: seq<Option3>, allInsertions: seq<Option3>)
      requires VehiclesOk() && c.id < problem.numCustomers && |ps| == |vehicles|
      requires forall k {:trigger PlacementOf(problem, id, maxLoad, vehicles[k].customers, c)} :: 0 <= k < |ps| ==>
        ps[k] == PlacementOf(problem, id, maxLoad, vehicles[k].customers, c)
      ensures feasibleInsertion == Options(ps, |ps|, true) && allInsertions == Options(ps, |ps|, false)
    {
      feasibleInsertion, allInsertions := [], [];
      var i := 0;
      while i < |vehicles|
        invariant 0 <= i <= |vehicles|
        invariant feasibleInsertion == Options(ps, i, true)
        invariant allInsertions == Options(ps, i, false)
      {
        var p := BestInsertCustomer(i, c);
        assert p == ps[i] && Option3(p.index, i, p.delta) == OptionOf(ps, i);
        assert Options(ps, i + 1, false) == allInsertions + [OptionOf(ps, i)];
        if p.feasible {
          feasibleInsertion := feasibleInsertion + [Option3(p.index, i, p.delta)];
        }
        allInsertions := allInsertions + [Option3(p.index, i, p.delta)];
        i := i + 1;
      }
    }

    /** customerReroute: a random vehicle (`vehiclePick`) loses a random
        customer (`customerPick`), which is put back at the best insertion of
        the vehicle the reroute comparison settles on. */
    method CustomerReroute(vehiclePick: nat, customerPick: nat)
      requires Valid() && vehiclePick < |vehicles|
      requires |routes[vehiclePick]| == 0 || customerPick < |routes[vehiclePick]|
      modifies Repr
      ensures Valid()
      ensures routes == Reroute(problem, id, maxLoad, old(routes), vehiclePick, customerPick)
      ensures AllIds(routes) == AllIds(old(routes))
    {
      RerouteIds(problem, id, maxLoad, routes, vehiclePick, customerPick);
      if vehicles[vehiclePick].GetNumCustomers() == 0 {
        return;
      }
      var c := vehicles[vehiclePick].GetCustomer(customerPick);
      assert HasId(routes[vehiclePick], c.id);
      var _ := RemoveFrom(vehiclePick, c);
      ghost var ps := PlacementsFor(problem, id, maxLoad, routes, c);
      var bestVehicle, bestInsert := RerouteTarget(c, ps);
      PlaceExact(problem, id, maxLoad, routes, c, bestVehicle);
      InsertAt(bestVehicle, bestInsert.index, c);
    }

    /** The comparison loop of customerReroute over vehicles 0..|vehicles|-1,
        against the vehicles' placements `ps`; its nested tests are the
        predicate Better. */
    method RerouteTarget(c: Customer, ghost ps: seq<Placement>) returns (bestVehicle: nat, bestInsert: Placement)
      requires VehiclesOk() && c.id < problem.numCustomers && |ps| == |vehicles|
      requires forall k {:trigger PlacementOf(problem, id, maxLoad, vehicles[k].customers, c)} :: 0 <= k < |ps| ==>
        ps[k] == PlacementOf(problem, id, maxLoad, vehicles[k].customers, c)
      ensures bestVehicle == RerouteScan(ps, |vehicles|) && bestInsert == ps[bestVehicle]
    {
      bestVehicle := 0;
      bestInsert := BestInsertCustomer(0, c);
      var i := 1;
      while i < |vehicles|
        invariant 1 <= i <= |vehicles|
        invariant bestVehicle == RerouteScan(ps, i) && bestInsert == ps[bestVehicle]
      {
        var currInsert := BestInsertCustomer(i, c);
        RerouteStep(ps, i, bestVehicle, currInsert, bestInsert);
        if Better(currInsert, bestInsert) {
          bestInsert := currInsert;
          bestVehicle := i;
        }
        i := i + 1;
      }
    }

    /** isFeasible: every vehicle is within capacity. */
    method IsFeasible() returns (ok: bool)
      requires Valid()
      ensures ok <==> forall k :: 0 <= k < |vehicles| ==> SumDemand(routes[k]) <= maxLoad
    {
      var k := 0;
      while k < |vehicles|
        invariant 0 <= k <= |vehicles|
        invariant forall j :: 0 <= j < k ==> SumDemand(routes[j]) <= maxLoad
      {
        assert routes[k] == vehicles[k].customers;
        if !vehicles[k].GetFeasibility() {
          return false;
        }
        k := k + 1;
      }
      return true;
    }

    /** scheduleRoutes: clear the vehicles, lay the customers out with the
        fill phase, then make one rebalance pass. The concatenated routes are
        the customer list, and the pass never raises the total cost. */
    method ScheduleRoutes(lengthOk: (nat, seq<Customer>, Customer) -> bool)
      requires Valid()
      modifies Repr
      ensures Valid() && updated
      ensures AllInTable(problem, FillFrom(EmptyRoutes(maxVehicles), 0, customers, maxLoad))
      ensures routes == Rebalance(problem, id, maxLoad, lengthOk, FillFrom(EmptyRoutes(maxVehicles), 0, customers, maxLoad), 0)
      ensures Flatten(routes) == customers
      ensures TotalCost(problem, id, routes) <= TotalCost(problem, id, FillFrom(EmptyRoutes(maxVehicles), 0, customers, maxLoad))
    {
      ghost var filled := FillFrom(EmptyRoutes(maxVehicles), 0, customers, maxLoad);
      FillFromInTable(problem, EmptyRoutes(maxVehicles), 0, customers, maxLoad);
      FillFromFlatten(EmptyRoutes(maxVehicles), 0, customers, maxLoad);
      FlattenEmpty(maxVehicles);
      RebalanceFlatten(problem, id, maxLoad, lengthOk, filled, 0);
      RebalanceCost(problem, id, maxLoad, lengthOk, filled, 0);
      ClearRoutes();
      FillRoutes();
      assert routes == filled;
      RebalanceRoutes(lengthOk);
    }

    /** The first loop of scheduleRoutes. */
    method ClearRoutes()
      requires Valid()
      modifies Repr
      ensures Valid() && updated && routes == EmptyRoutes(maxVehicles)
    {
      updated := true;
      var k := 0;
      while k < |vehicles|
        invariant 0 <= k <= |vehicles|
        invariant Valid() && updated
        invariant forall j :: 0 <= j < k ==> routes[j] == []
      {
        Clear(k);
        k := k + 1;
      }
    }

    /** The fill phase of scheduleRoutes. */
    method FillRoutes()
      requires Valid() && routes == EmptyRoutes(maxVehicles)
      modifies Repr
      ensures Valid() && updated
      ensures AllInTable(problem, FillFrom(EmptyRoutes(maxVehicles), 0, customers, maxLoad))
      ensures routes == FillFrom(EmptyRoutes(maxVehicles), 0, customers, maxLoad)
    {
      FillFromInTable(problem, EmptyRoutes(maxVehicles), 0, customers, maxLoad);
      updated := true;
      var vehicleNum := 0;
      var i := 0;
      while i < |customers|
        invariant 0 <= i <= |customers| && vehicleNum < |vehicles|
        invariant Valid() && updated
        invariant FillFrom(routes, vehicleNum, customers[i..], maxLoad)
                  == FillFrom(EmptyRoutes(maxVehicles), 0, customers, maxLoad)
      {
        var customer := customers[i];
        assert customers[i..][0] == customer && customers[i..][1..] == customers[i + 1..];
        var inserted := AppendIfFeasible(vehicleNum, customer);
        if !inserted {
          if !(vehicleNum >= |vehicles| - 1) {
            vehicleNum := vehicleNum + 1;
          }
          Append(vehicleNum, customer);
        }
        i := i + 1;
      }
    }

    /** The rebalance pass of scheduleRoutes, with the guarded delta: a
        one-customer route is charged its exact change in cost instead of
        reading a second-last customer it does not have. */
    method RebalanceRoutes(lengthOk: (nat, seq<Customer>, Customer) -> bool)
      requires Valid() && updated
      modifies Repr
      ensures Valid() && updated
      ensures routes == Rebalance(problem, id, maxLoad, lengthOk, old(routes), 0)
    {
      var i := 0;
      while i < |vehicles| - 1
        invariant 0 <= i <= |vehicles| - 1
        invariant Valid() && updated
        invariant Rebalance(problem, id, maxLoad, lengthOk, routes, i)
                  == Rebalance(problem, id, maxLoad, lengthOk, old(routes), 0)
      {
        ghost var r0 := routes;
        RebalanceStep(lengthOk, i);
        assert Rebalance(problem, id, maxLoad, lengthOk, r0, i) == Rebalance(problem, id, maxLoad, lengthOk, routes, i + 1);
        i := i + 1;
      }
    }

    /** One pass of the rebalance loop, on vehicle i and vehicle i + 1. */
    method RebalanceStep(lengthOk: (nat, seq<Customer>, Customer) -> bool, i: nat)
      requires Valid() && updated && i + 1 < |vehicles|
      modifies Repr
      ensures Valid() && updated
      ensures Moves(problem, id, maxLoad, lengthOk, old(routes), i) ==> routes == MoveLast(old(routes), i)
      ensures !Moves(problem, id, maxLoad, lengthOk, old(routes), i) ==> routes == old(routes)
    {
      var currentVehicle := vehicles[i];
      if currentVehicle.GetNumCustomers() < 1 {
        return;
      }
      var nextVehicle := vehicles[i + 1];
      var lastCustomer := currentVehicle.GetLastCustomer();
      var lastDemand := lastCustomer.demand;
      if nextVehicle.TestDemandIncrement(lastDemand) && nextVehicle.GetNumCustomers() > 0 {
        if lengthOk(id, nextVehicle.customers, lastCustomer) {
          var deltaCost := MoveCost(i);
          if deltaCost < 0.0 {
            MoveLastForward(i);
          }
        }
      }
    }

    /** The delta scheduleRoutes computes for moving the last customer of
        vehicle i to the front of vehicle i + 1, guarded for a one-customer
        route. */
    method MoveCost(i: nat) returns (deltaCost: real)
      requires Valid() && i + 1 < |vehicles| && |routes[i]| >= 1 && |routes[i + 1]| >= 1
      ensures deltaCost == MoveDelta(problem, id, routes[i], routes[i + 1])
    {
      var currentVehicle, nextVehicle := vehicles[i], vehicles[i + 1];
      deltaCost := 0.0;
      var lastCustomerId := currentVehicle.GetLastCustomer().id;
      var firstCustomerId := nextVehicle.GetFirstCustomer().id;
      if currentVehicle.GetNumCustomers() >= 2 {
        var secondLastCustomerId := currentVehicle.GetSecondLastCustomer().id;
        deltaCost := deltaCost - problem.C2C(secondLastCustomerId, lastCustomerId);
        deltaCost := deltaCost + problem.D2C(id, secondLastCustomerId);
        deltaCost := deltaCost - problem.D2C(id, firstCustomerId);
        deltaCost := deltaCost + problem.C2C(lastCustomerId, firstCustomerId);
      } else {
        deltaCost := deltaCost - problem.D2C(id, lastCustomerId);
        deltaCost := deltaCost + problem.C2C(lastCustomerId, firstCustomerId);
        deltaCost := deltaCost - problem.D2C(id, firstCustomerId);
      }
    }
  }
}
