/** The problem instance: sites, the (depots + customers)-square distance
    table built once at construction, the closest-depot queries, and the list
    of customers that may migrate to a second depot. */
module Problem {
  import opened Parameters

  /** A depot row of the instance: its coordinates. */
  datatype Site = Site(x: real, y: real)

  /** A customer row of the instance: coordinates and demand. */
  datatype CustomerRow = CustomerRow(x: real, y: real, demand: real)

  /** A customer that may move between its closest depot and a second one. */
  datatype Swap = Swap(customerId: nat, closest: nat, second: nat)

  /** The distance table as a value, as routes and depots read it. Row and
      column d < numDepots stand for depot d, numDepots + c for customer c. */
  datatype Table = Table(numDepots: nat, numCustomers: nat, cell: seq<seq<real>>) {
    predicate Valid() {
      && |cell| == numDepots + numCustomers
      && forall i :: 0 <= i < |cell| ==> |cell[i]| == numDepots + numCustomers
    }

    /** Distance between customers c1 and c2. */
    function C2C(c1: nat, c2: nat): real
      requires Valid() && c1 < numCustomers && c2 < numCustomers
    {
      cell[c1 + numDepots][c2 + numDepots]
    }

    /** Distance between depot d and customer c. */
    function D2C(d: nat, c: nat): real
      requires Valid() && d < numDepots && c < numCustomers
    {
      cell[d][c + numDepots]
    }
  }

  class MDVRP {
    const depots: seq<Site>
    const customers: seq<CustomerRow>
    const numDepots: nat
    const numCustomers: nat
    const maxVehicles: nat
    const maxLoad: real
    const maxLength: real
    /** The Euclidean distance of two points (x1, y1, x2, y2); not modelled further. */
    const euclid: (real, real, real, real) -> real
    const distances: array2<real>
    var swappable: seq<Swap>
    var isCalculated: bool

    /** The sizes the constructor relies on. */
    ghost predicate Shape() {
      && |depots| == numDepots
      && |customers| == numCustomers
      && distances.Length0 == numDepots + numCustomers
      && distances.Length1 == numDepots + numCustomers
    }

    function DepotDist(a: nat, b: nat): real
      requires a < |depots| && b < |depots|
    {
      euclid(depots[a].x, depots[a].y, depots[b].x, depots[b].y)
    }

    function DepotCustomerDist(d: nat, c: nat): real
      requires d < |depots| && c < |customers|
    {
      euclid(depots[d].x, depots[d].y, customers[c].x, customers[c].y)
    }

    function CustomerDist(a: nat, b: nat): real
      requires a < |customers| && b < |customers|
    {
      euclid(customers[a].x, customers[a].y, customers[b].x, customers[b].y)
    }

    /** The value the distance table holds at row i, column j: for two depots
        or two customers the larger index is the first point, between a depot
        and a customer the depot is, and a depot's own entry is 0. */
    function Entry(i: nat, j: nat): real
      requires Shape() && i < numDepots + numCustomers && j < numDepots + numCustomers
    {
      var D := numDepots;
      if i < D && j < D then
        (if i == j then 0.0 else if j < i then DepotDist(i, j) else DepotDist(j, i))
      else if i < D then DepotCustomerDist(i, j - D)
      else if j < D then DepotCustomerDist(j, i - D)
      else if j <= i then CustomerDist(i - D, j - D)
      else CustomerDist(j - D, i - D)
    }

    ghost predicate Valid()
      reads distances
    {
      && Shape()
      && forall i, j :: 0 <= i < numDepots + numCustomers && 0 <= j < numDepots + numCustomers
           ==> distances[i, j] == Entry(i, j)
    }

    constructor (depots: seq<Site>, customers: seq<CustomerRow>, numDepots: nat, numCustomers: nat,
                 maxVehicles: nat, maxLoad: real, maxLength: real, euclid: (real, real, real, real) -> real)
      requires |depots| == numDepots && |customers| == numCustomers
      ensures Valid() && fresh(distances)
      ensures this.depots == depots && this.customers == customers && this.euclid == euclid
      ensures this.numDepots == numDepots && this.numCustomers == numCustomers
      ensures this.maxVehicles == maxVehicles && this.maxLoad == maxLoad && this.maxLength == maxLength
      ensures swappable == [] && !isCalculated
    {
      this.depots := depots;
      this.customers := customers;
      this.numDepots := numDepots;
      this.numCustomers := numCustomers;
      this.maxVehicles := maxVehicles;
      this.maxLoad := maxLoad;
      this.maxLength := maxLength;
      this.euclid := euclid;
      this.distances := new real[numDepots + numCustomers, numDepots + numCustomers];
      this.swappable := [];
      this.isCalculated := false;
      new;
      InitDistances();
    }

    /** Cells written once depots 0..k-1 have been processed: depot pairs
        below k and every pair of a depot below k with a customer. */
    ghost predicate DepotsDone(k: nat, i: nat, j: nat) {
      var D := numDepots;
      (i < k && j < k) || (i < k && D <= j) || (D <= i && j < k)
    }

    /** Cells written once customers 0..p-1 have been processed (after all depots). */
    ghost predicate CustomersDone(p: nat, i: nat, j: nat) {
      var D := numDepots;
      i < D || j < D || (i < D + p && j < D + p)
    }

    /** initDistances: the depot rows first, then the customer rows. */
    method InitDistances()
      requires Shape()
      modifies distances
      ensures Valid()
    {
      var depot1 := 0;
      while depot1 < numDepots
        invariant 0 <= depot1 <= numDepots
        invariant forall i, j :: 0 <= i < numDepots + numCustomers && 0 <= j < numDepots + numCustomers && DepotsDone(depot1, i, j)
                    ==> distances[i, j] == Entry(i, j)
      {
        DepotRow(depot1);
        depot1 := depot1 + 1;
      }
      var customer1 := 0;
      while customer1 < numCustomers
        invariant 0 <= customer1 <= numCustomers
        invariant forall i, j :: 0 <= i < numDepots + numCustomers && 0 <= j < numDepots + numCustomers && CustomersDone(customer1, i, j)
                    ==> distances[i, j] == Entry(i, j)
      {
        CustomerRow(customer1);
        customer1 := customer1 + 1;
      }
    }

    /** One pass of the depot loop: depot1 against the depots up to itself,
        then against every customer, each distance written both ways. */
    method DepotRow(depot1: nat)
      requires Shape() && depot1 < numDepots
      requires forall i, j :: 0 <= i < numDepots + numCustomers && 0 <= j < numDepots + numCustomers && DepotsDone(depot1, i, j)
                 ==> distances[i, j] == Entry(i, j)
      modifies distances
      ensures forall i, j :: 0 <= i < numDepots + numCustomers && 0 <= j < numDepots + numCustomers && DepotsDone(depot1 + 1, i, j)
                ==> distances[i, j] == Entry(i, j)
    {
      var D, C := numDepots, numCustomers;
      var n := D + C;
      var depot2 := 0;
      while depot2 <= depot1
        invariant 0 <= depot2 <= depot1 + 1
        invariant forall i, j :: 0 <= i < n && 0 <= j < n && (DepotsDone(depot1, i, j) || (i == depot1 && j < depot2) || (j == depot1 && i < depot2))
                    ==> distances[i, j] == Entry(i, j)
      {
        if depot1 == depot2 {
          distances[depot1, depot2] := 0.0;
        } else {
          var dist := euclid(depots[depot1].x, depots[depot1].y, depots[depot2].x, depots[depot2].y);
          distances[depot1, depot2] := dist;
          distances[depot2, depot1] := dist;
        }
        depot2 := depot2 + 1;
      }
      var customer := 0;
      while customer < C
        invariant 0 <= customer <= C
        invariant forall i, j :: 0 <= i < n && 0 <= j < n && (DepotsDone(depot1, i, j) || (i == depot1 && j <= depot1) || (j == depot1 && i <= depot1)
                                                             || (i == depot1 && D <= j < D + customer) || (j == depot1 && D <= i < D + customer))
                    ==> distances[i, j] == Entry(i, j)
      {
        var dist := euclid(depots[depot1].x, depots[depot1].y, customers[customer].x, customers[customer].y);
        distances[depot1, customer + D] := dist;
        distances[customer + D, depot1] := dist;
        customer := customer + 1;
      }
    }

    /** One pass of the customer loop: customer1 against the customers up to
        itself, each distance written both ways. */
    method CustomerRow(customer1: nat)
      requires Shape() && customer1 < numCustomers
      requires forall i, j :: 0 <= i < numDepots + numCustomers && 0 <= j < numDepots + numCustomers && CustomersDone(customer1, i, j)
                 ==> distances[i, j] == Entry(i, j)
      modifies distances
      ensures forall i, j :: 0 <= i < numDepots + numCustomers && 0 <= j < numDepots + numCustomers && CustomersDone(customer1 + 1, i, j)
                ==> distances[i, j] == Entry(i, j)
    {
      var D := numDepots;
      var n := numDepots + numCustomers;
      var customer2 := 0;
      while customer2 <= customer1
        invariant 0 <= customer2 <= customer1 + 1
        invariant forall i, j :: 0 <= i < n && 0 <= j < n && (CustomersDone(customer1, i, j) || (i == D + customer1 && D <= j < D + customer2) || (j == D + customer1 && D <= i < D + customer2))
                    ==> distances[i, j] == Entry(i, j)
      {
        var dist := euclid(customers[customer1].x, customers[customer1].y, customers[customer2].x, customers[customer2].y);
        distances[customer1 + D, customer2 + D] := dist;
        distances[customer2 + D, customer1 + D] := dist;
        customer2 := customer2 + 1;
      }
    }
  
    /** Distance between customers c1 and c2: row and column c + numDepots. */
    function C2CDistance(c1: nat, c2: nat): (r: real)
      requires Valid() && c1 < numCustomers && c2 < numCustomers
      reads distances
      ensures r == CustomerDist(if c1 >= c2 then c1 else c2, if c1 >= c2 then c2 else c1)
    {
      distances[c1 + numDepots, c2 + numDepots]
    }

    /** Distance between depot d and customer c: row d, column c + numDepots. */
    function D2CDistance(d: nat, c: nat): (r: real)
      requires Valid() && d < numDepots && c < numCustomers
      reads distances
      ensures r == DepotCustomerDist(d, c)
      ensures r == distances[c + numDepots, d]
    {
      distances[d, c + numDepots]
    }

    /** The table as a value, for the routes and depots that read it. */
    function Snapshot(): (t: Table)
      requires Valid()
      reads distances
      ensures t.Valid() && t.numDepots == numDepots && t.numCustomers == numCustomers
      ensures forall c1: nat, c2: nat :: c1 < numCustomers && c2 < numCustomers ==> t.C2C(c1, c2) == C2CDistance(c1, c2)
      ensures forall d: nat, c: nat :: d < numDepots && c < numCustomers ==> t.D2C(d, c) == D2CDistance(d, c)
    {
      var n := numDepots + numCustomers;
      Table(numDepots, numCustomers,
            seq(n, i requires 0 <= i < n reads distances => seq(n, j requires 0 <= j < n reads distances => distances[i, j])))
    }

    /** d is the depot getClosestDepot picks for customer c: no depot is
        nearer, and every lower-numbered depot is strictly farther. */
    ghost predicate IsClosestDepot(c: nat, d: nat)
      requires Shape() && c < numCustomers
    {
      && d < numDepots
      && (forall e :: 0 <= e < numDepots ==> DepotCustomerDist(d, c) <= DepotCustomerDist(e, c))
      && (forall e :: 0 <= e < d ==> DepotCustomerDist(d, c) < DepotCustomerDist(e, c))
    }

    /** A customer has at most one closest depot in this sense. */
    lemma ClosestUnique(c: nat, d1: nat, d2: nat)
      requires Shape() && c < numCustomers && IsClosestDepot(c, d1) && IsClosestDepot(c, d2)
      ensures d1 == d2
    {
      assert DepotCustomerDist(d1, c) <= DepotCustomerDist(d2, c) && DepotCustomerDist(d2, c) <= DepotCustomerDist(d1, c);
    }

    method GetClosestDepot(customerId: nat) returns (closestDepot: nat)
      requires Valid() && customerId < numCustomers
      ensures numDepots >= 1 ==> IsClosestDepot(customerId, closestDepot)
      ensures numDepots == 0 ==> closestDepot == 0
    {
      // minDistance starts at +infinity: modelled by `found` being false
      var found := false;
      var minDistance := 0.0;
      closestDepot := 0;
      var depotId := 0;
      while depotId < numDepots
        invariant 0 <= depotId <= numDepots
        invariant found <==> depotId > 0
        invariant found ==> closestDepot < depotId && minDistance == DepotCustomerDist(closestDepot, customerId)
        invariant !found ==> closestDepot == 0
        invariant forall e :: 0 <= e < depotId ==> minDistance <= DepotCustomerDist(e, customerId)
        invariant forall e :: 0 <= e < closestDepot ==> minDistance < DepotCustomerDist(e, customerId)
      {
        var currentDistance := D2CDistance(depotId, customerId);
        if !found || currentDistance < minDistance {
          minDistance := currentDistance;
          closestDepot := depotId;
          found := true;
        }
        depotId := depotId + 1;
      }
    }

    /** Depot e may take customer c in place of its closest depot: its
        distance exceeds the closest one's by at most SWAP_BOUND, relatively.
        When the closest distance is 0 the quotient is +Infinity or NaN in
        double arithmetic, the comparison fails and no depot qualifies. */
    ghost predicate Qualifies(c: nat, closest: nat, e: nat)
      requires Shape() && c < numCustomers && closest < numDepots && e < numDepots
    {
      && e != closest && DepotCustomerDist(closest, c) != 0.0
      && (DepotCustomerDist(e, c) - DepotCustomerDist(closest, c)) / DepotCustomerDist(closest, c) <= SWAP_BOUND
    }

    method GetSecondClosestDepot(customerId: nat, closestDepot: nat)
      requires Valid() && customerId < numCustomers && closestDepot < numDepots
      modifies this`swappable
      ensures |old(swappable)| <= |swappable| <= |old(swappable)| + 1 && swappable[..|old(swappable)|] == old(swappable)
      ensures (|swappable| == |old(swappable)|) ==
              forall e :: 0 <= e < numDepots ==> !Qualifies(customerId, closestDepot, e)
      ensures |swappable| == |old(swappable)| + 1 ==>
              var t := swappable[|swappable| - 1];
              && t.customerId == customerId && t.closest == closestDepot && t.second < numDepots
              && Qualifies(customerId, closestDepot, t.second)
              && (forall e :: 0 <= e < numDepots && Qualifies(customerId, closestDepot, e) ==>
                    DepotCustomerDist(t.second, customerId) <= DepotCustomerDist(e, customerId))
              && (forall e :: 0 <= e < t.second && Qualifies(customerId, closestDepot, e) ==>
                    DepotCustomerDist(t.second, customerId) < DepotCustomerDist(e, customerId))
    {
      // minDistance starts at +infinity and secondClosest at -1: both modelled by `found`
      var found := false;
      var minDistance := 0.0;
      var secondClosest := 0;
      var closestDistance := D2CDistance(closestDepot, customerId);
      var depotId := 0;
      while depotId < numDepots
        invariant 0 <= depotId <= numDepots
        invariant found ==> secondClosest < depotId && Qualifies(customerId, closestDepot, secondClosest)
                            && minDistance == DepotCustomerDist(secondClosest, customerId)
        invariant !found ==> forall e :: 0 <= e < depotId ==> !Qualifies(customerId, closestDepot, e)
        invariant found ==> forall e :: 0 <= e < depotId && Qualifies(customerId, closestDepot, e) ==>
                              minDistance <= DepotCustomerDist(e, customerId)
        invariant found ==> forall e :: 0 <= e < secondClosest && Qualifies(customerId, closestDepot, e) ==>
                              minDistance < DepotCustomerDist(e, customerId)
      {
        if depotId != closestDepot {
          var currentDistance := D2CDistance(depotId, customerId);
          // a zero divisor makes swapCriteria +Infinity or NaN, which fails the bound
          var withinBound := closestDistance != 0.0 && (currentDistance - closestDistance) / closestDistance <= SWAP_BOUND;
          if (!found || currentDistance < minDistance) && withinBound {
            minDistance := currentDistance;
            secondClosest := depotId;
            found := true;
          }
        }
        depotId := depotId + 1;
      }
      if found {
        swappable := swappable + [Swap(customerId, closestDepot, secondClosest)];
        assert Qualifies(customerId, closestDepot, secondClosest);
      }
    }

    /** An entry getSecondClosestDepot records: the customer, its closest
        depot and a qualifying other depot. */
    ghost predicate SwapOk(t: Swap)
      requires Shape()
    {
      && t.customerId < numCustomers && IsClosestDepot(t.customerId, t.closest) && t.second < numDepots
      && Qualifies(t.customerId, t.closest, t.second)
    }

    method SetCalculated()
      modifies this`isCalculated
      ensures isCalculated
    {
      isCalculated := true;
    }

    /** getRandomSwappable; k is the drawn number, which nextInt(size)
        reduces into [0, |swappable|). */
    function RandomSwappable(k: nat): (t: Swap)
      requires |swappable| > 0
      reads this
      ensures t in swappable && t == swappable[k % |swappable|]
    {
      swappable[k % |swappable|]
    }

    /** The table is symmetric: every off-diagonal write is mirrored. */
    lemma EntrySymmetric(i: nat, j: nat)
      requires Shape() && i < numDepots + numCustomers && j < numDepots + numCustomers
      ensures Entry(i, j) == Entry(j, i)
    {
    }

    lemma TableSymmetric()
      requires Valid()
      ensures forall i, j :: 0 <= i < numDepots + numCustomers && 0 <= j < numDepots + numCustomers
                ==> distances[i, j] == distances[j, i]
    {
      forall i, j | 0 <= i < numDepots + numCustomers && 0 <= j < numDepots + numCustomers
        ensures distances[i, j] == distances[j, i]
      {
        EntrySymmetric(i, j);
      }
    }

    lemma DepotDiagonalZero(d: nat)
      requires Valid() && d < numDepots
      ensures distances[d, d] == 0.0
    {
    }
}
}
