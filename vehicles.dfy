/** A vehicle of a depot: its route, the running load, and the route cost
    cached under the `updated` flag. */
module Vehicles {
  import opened Customers
  import opened Problem
  import opened Routes
  import opened Wrappers

  /** bestInsertion's answer: the position, the change in route cost, and
      whether the load stays within capacity. */
  datatype Placement = Placement(index: nat, delta: real, feasible: bool)

  class Vehicle {
    const maxLoad: real
    /** The distance table of the instance and the id of the owning depot. */
    const problem: Table
    const depotId: nat
    var customers: seq<Customer>
    var currentLoad: real
    var routeCost: real
    var updated: bool

    /** The load is the sum of the demands, and a clear flag means the cached
        cost is the cost of the route as it stands. */
    ghost predicate Valid()
      reads this
    {
      && problem.Valid() && depotId < problem.numDepots
      && InTable(problem, customers)
      && currentLoad == SumDemand(customers)
      && (!updated ==> routeCost == RouteCost(problem, depotId, customers))
    }

    /** The route cost computed from scratch. */
    function Cost(): real
      requires Valid()
      reads this
    {
      RouteCost(problem, depotId, customers)
    }

    /** getFitness: route cost plus demand penalty. */
    function Fitness(): real
      requires Valid()
      reads this
    {
      Cost() + Penalty(currentLoad, maxLoad)
    }

    constructor (maxLoad: real, problem: Table, depotId: nat)
      requires problem.Valid() && depotId < problem.numDepots
      ensures Valid() && this.maxLoad == maxLoad && this.problem == problem && this.depotId == depotId
      ensures customers == [] && currentLoad == 0.0 && updated
    {
      this.maxLoad := maxLoad;
      this.problem := problem;
      this.depotId := depotId;
      this.updated := true;
      this.customers := [];
      this.currentLoad := 0.0;
    }

    /** A deep copy, as SerializationUtils.clone makes one: a new vehicle
        with the same route, load, cached cost and flag. */
    constructor Copy(other: Vehicle)
      requires other.Valid()
      ensures Valid() && maxLoad == other.maxLoad && problem == other.problem && depotId == other.depotId
      ensures customers == other.customers && currentLoad == other.currentLoad
      ensures routeCost == other.routeCost && updated == other.updated
    {
      maxLoad := other.maxLoad;
      problem := other.problem;
      depotId := other.depotId;
      customers := other.customers;
      currentLoad := other.currentLoad;
      routeCost := other.routeCost;
      updated := other.updated;
    }

    function GetNumCustomers(): nat
      reads this
    {
      |customers|
    }

    function GetCustomer(i: nat): (c: Customer)
      requires i < |customers|
      reads this
      ensures c in customers && c == customers[i]
    {
      customers[i]
    }

    function GetFirstCustomer(): (c: Customer)
      requires |customers| >= 1
      reads this
      ensures c in customers && c == customers[0]
    {
      customers[0]
    }

    function GetLastCustomer(): (c: Customer)
      requires |customers| >= 1
      reads this
      ensures c in customers && c == customers[|customers| - 1]
    {
      customers[|customers| - 1]
    }

    /** Indexes size - 2: out of bounds on a one-customer route, hence the requires. */
    function GetSecondLastCustomer(): (c: Customer)
      requires |customers| >= 2
      reads this
      ensures c in customers && c == customers[|customers| - 2]
    {
      customers[|customers| - 2]
    }

    /** The load is within capacity, and then the penalty is 0. */
    function GetFeasibility(): (ok: bool)
      requires Valid()
      reads this
      ensures ok ==> GetPenalty() == 0.0
      ensures ok <==> SumDemand(customers) <= maxLoad
    {
      currentLoad <= maxLoad
    }

    /** Adding demand keeps the load within capacity (non-strict). */
    function TestDemandIncrement(demand: real): (ok: bool)
      requires Valid()
      reads this
      ensures ok <==> SumDemand(customers) + demand <= maxLoad
    {
      currentLoad + demand <= maxLoad
    }

    function GetPenalty(): (p: real)
      requires Valid()
      reads this
      ensures p >= 0.0
      ensures p == 0.0 <==> SumDemand(customers) <= maxLoad
    {
      Penalty(currentLoad, maxLoad)
    }

    /** Appends c only if the load stays strictly below capacity. */
    method InsertCustomerIfFeasible(c: Customer) returns (inserted: bool)
      requires Valid() && c.id < problem.numCustomers
      modifies this
      ensures Valid()
      ensures inserted == (old(currentLoad) + c.demand < maxLoad)
      ensures inserted ==> customers == old(customers) + [c] && updated
      ensures !inserted ==> unchanged(this)
    {
      var demand := c.demand;
      if currentLoad + demand < maxLoad {
        InsertCustomer(|customers|, c);
        assert Insert(old(customers), |old(customers)|, c) == old(customers) + [c];
        return true;
      }
      return false;
    }

    method BestInsertion(c: Customer) returns (p: Placement)
      requires Valid() && c.id < problem.numCustomers
      ensures p.index == Routes.BestInsertion(problem, depotId, customers, c).index
      ensures p.delta == Routes.BestInsertion(problem, depotId, customers, c).delta
      ensures p.feasible == TestDemandIncrement(c.demand)
    {
      var feasible := TestDemandIncrement(c.demand);
      if |customers| == 0 {
        var cost := 2.0 * problem.D2C(depotId, c.id);
        return Placement(0, cost, feasible);
      }
      var bestIndex := 0;
      var bestDeltaCost := problem.D2C(depotId, c.id);
      bestDeltaCost := bestDeltaCost + problem.C2C(c.id, customers[0].id);
      bestDeltaCost := bestDeltaCost - problem.D2C(depotId, customers[0].id);
      if |customers| > 1 {
        var i := 1;
        while i < |customers|
          invariant 1 <= i <= |customers|
          invariant Candidate(bestIndex, bestDeltaCost) == ScanPositions(problem, depotId, customers, c, i)
        {
          var currDeltaCost := problem.C2C(customers[i - 1].id, c.id);
          currDeltaCost := currDeltaCost + problem.C2C(c.id, customers[i].id);
          currDeltaCost := currDeltaCost - problem.C2C(customers[i - 1].id, customers[i].id);
          if currDeltaCost < bestDeltaCost {
            bestDeltaCost := currDeltaCost;
            bestIndex := i;
          }
          i := i + 1;
        }
        var lastDeltaCost := problem.C2C(customers[|customers| - 1].id, c.id);
        lastDeltaCost := lastDeltaCost + problem.D2C(depotId, c.id);
        lastDeltaCost := lastDeltaCost - problem.D2C(depotId, customers[|customers| - 1].id);
        if lastDeltaCost < bestDeltaCost {
          bestDeltaCost := lastDeltaCost;
          bestIndex := |customers|;
        }
      }
      return Placement(bestIndex, bestDeltaCost, feasible);
    }

    method ForceInsertCustomer(c: Customer)
      requires Valid() && c.id < problem.numCustomers
      modifies this
      ensures Valid() && customers == old(customers) + [c] && updated
    {
      InsertCustomer(|customers|, c);
      assert Insert(old(customers), |old(customers)|, c) == old(customers) + [c];
    }

    method InsertCustomerByIndex(i: nat, c: Customer)
      requires Valid() && c.id < problem.numCustomers && i <= |customers|
      modifies this
      ensures Valid() && customers == Insert(old(customers), i, c) && updated
    {
      InsertCustomer(i, c);
    }

    method InsertFirstCustomer(c: Customer)
      requires Valid() && c.id < problem.numCustomers
      modifies this
      ensures Valid() && customers == [c] + old(customers) && updated
    {
      InsertCustomer(0, c);
      assert Insert(old(customers), 0, c) == [c] + old(customers);
    }

    method RemoveLastCustomer()
      requires Valid() && |customers| >= 1
      modifies this
      ensures Valid() && customers == old(customers)[..|old(customers)| - 1] && updated
    {
      RemoveCustomerAt(|customers| - 1);
    }

    /** removeCustomer(c): removes the first entry with c's id, if any. */
    method RemoveCustomer(c: Customer) returns (removed: bool)
      requires Valid()
      modifies this
      ensures Valid()
      ensures removed == HasId(old(customers), c.id)
      ensures removed ==> customers == RemoveAt(old(customers), FirstIndexOf(old(customers), c.id)) && updated
      ensures !removed ==> unchanged(this)
    {
      var i := 0;
      while i < |customers|
        invariant 0 <= i <= |customers|
        invariant forall j :: 0 <= j < i ==> customers[j].id != c.id
      {
        if customers[i].id == c.id {
          RemoveCustomerAt(i);
          return true;
        }
        i := i + 1;
      }
      return false;
    }

    /** The private insertCustomer(i, c): places c at index i. Its scan for a
        duplicate id only prints a diagnostic, so it is not modelled. */
    method InsertCustomer(i: nat, c: Customer)
      requires Valid() && c.id < problem.numCustomers && i <= |customers|
      modifies this
      ensures Valid() && customers == Insert(old(customers), i, c) && updated
      ensures currentLoad == old(currentLoad) + c.demand
    {
      SumDemandInsert(customers, i, c);
      currentLoad := currentLoad + c.demand;
      SetUpdated();
      customers := Insert(customers, i, c);
    }

    /** The private removeCustomer(i). */
    method RemoveCustomerAt(i: nat)
      requires Valid() && i < |customers|
      modifies this
      ensures Valid() && customers == RemoveAt(old(customers), i) && updated
      ensures currentLoad == old(currentLoad) - old(customers)[i].demand
    {
      SumDemandRemove(customers, i);
      var c := customers[i];
      customers := RemoveAt(customers, i);
      currentLoad := currentLoad - c.demand;
      SetUpdated();
    }

    method ClearRoute()
      requires Valid()
      modifies this
      ensures Valid() && customers == [] && currentLoad == 0.0 && updated
    {
      customers := [];
      currentLoad := 0.0;
      SetUpdated();
    }

    method GetFitness() returns (f: real)
      requires Valid()
      modifies this`routeCost, this`updated
      ensures Valid() && f == Fitness() && !updated
    {
      var cost := GetRouteCost();
      f := cost + GetPenalty();
    }

    /** getRouteCost: recomputes only when the flag is set, and then clears it. */
    method GetRouteCost() returns (cost: real)
      requires Valid()
      modifies this`routeCost, this`updated
      ensures Valid() && cost == Cost() && !updated
      ensures !old(updated) ==> routeCost == old(routeCost)
    {
      if updated {
        UpdateRouteCost();
        updated := false;
      }
      return routeCost;
    }

    method UpdateRouteCost()
      requires Valid()
      modifies this`routeCost
      ensures Valid() && routeCost == Cost()
    {
      routeCost := 0.0;
      if |customers| == 0 {
        return;
      }
      var depotDistance := problem.D2C(depotId, customers[0].id);
      if |customers| == 1 {
        routeCost := routeCost + 2.0 * depotDistance;
        return;
      } else {
        routeCost := routeCost + depotDistance;
      }
      var i := 0;
      while i < |customers| - 1
        invariant 0 <= i <= |customers| - 1
        invariant routeCost == depotDistance + PathCost(problem, customers[..i + 1])
      {
        assert customers[..i + 2][..i + 1] == customers[..i + 1];
        routeCost := routeCost + problem.C2C(customers[i].id, customers[i + 1].id);
        i := i + 1;
      }
      assert customers[..|customers|] == customers;
      routeCost := routeCost + problem.D2C(depotId, customers[|customers| - 1].id);
    }

    method SetUpdated()
      modifies this`updated
      ensures updated
    {
      updated := true;
    }

    /** The first customer of the route with the given id, if there is one.
        (Depot.getCustomerById calls this on each vehicle.) */
    method GetCustomerById(id: nat) returns (r: Option<Customer>)
      ensures r.Some? <==> HasId(customers, id)
      ensures r.Some? ==> r.value == customers[FirstIndexOf(customers, id)]
    {
      var i := 0;
      while i < |customers|
        invariant 0 <= i <= |customers|
        invariant forall j :: 0 <= j < i ==> customers[j].id != id
      {
        if customers[i].id == id {
          return Some(customers[i]);
        }
        i := i + 1;
      }
      return None;
    }
  }
}
