/** A solution of the genetic algorithm: one depot object per depot of the
    instance, in depot id order, each holding its vehicles' routes. */
module Chromosomes {
  import opened Customers
  import opened Problem
  import opened Routes
  import opened DepotSpec
  import opened ChromosomeSpec
  import opened Depots
  import opened Wrappers

  /** The customers 0..n-1 whose closest depot is d, in id order, each with
      its demand: what clusterCustomers gives depot d. */
  ghost function Members(p: MDVRP, d: nat, n: nat): seq<Customer>
    requires p.Shape() && n <= p.numCustomers
  {
    if n == 0 then []
    else Members(p, d, n - 1)
         + (if p.IsClosestDepot(n - 1, d) then [Customer(n - 1, p.customers[n - 1].demand)] else [])
  }

  /** Every member of depot d's cluster is a customer below n closest to d. */
  lemma {:induction false} MembersWithin(p: MDVRP, d: nat, n: nat)
    requires p.Shape() && n <= p.numCustomers
    ensures forall x :: x in Members(p, d, n) ==> x.id < n && p.IsClosestDepot(x.id, d)
  {
    if n > 0 {
      MembersWithin(p, d, n - 1);
    }
  }

  /** Every customer below n closest to d is in depot d's cluster. */
  lemma {:induction false} MembersHas(p: MDVRP, d: nat, n: nat, c: nat)
    requires p.Shape() && n <= p.numCustomers && c < n && p.IsClosestDepot(c, d)
    ensures Customer(c, p.customers[c].demand) in Members(p, d, n)
  {
    var front := Members(p, d, n - 1);
    var x := Customer(c, p.customers[c].demand);
    if c < n - 1 {
      MembersHas(p, d, n - 1, c);
      assert x in front;
    } else {
      assert Members(p, d, n) == front + [x];
    }
  }

  /** A list with the same elements as one within the table is within it. */
  lemma InTablePermutation(t: Table, a: seq<Customer>, b: seq<Customer>)
    requires multiset(a) == multiset(b) && InTable(t, b)
    ensures InTable(t, a)
  {
    forall k | 0 <= k < |a|
      ensures a[k].id < t.numCustomers
    {
      assert a[k] in multiset(b);
    }
  }

  /** Some customer has d as its closest depot. */
  ghost predicate Served(p: MDVRP, d: nat)
    requires p.Shape()
  {
    exists c :: 0 <= c < p.numCustomers && p.IsClosestDepot(c, d)
  }

  /** The swap list only grows, and what it gains are entries
      getSecondClosestDepot may record. */
  ghost predicate SwapsAdded(p: MDVRP, before: seq<Swap>, after: seq<Swap>)
    requires p.Shape()
  {
    && |before| <= |after| && after[..|before|] == before
    && forall i :: |before| <= i < |after| ==> p.SwapOk(after[i])
  }

  /** What one call of getSecondClosestDepot appends meets SwapsAdded. */
  lemma SwapsAddedOne(p: MDVRP, s1: seq<Swap>, s2: seq<Swap>, c: nat, closest: nat)
    requires p.Shape() && c < p.numCustomers && p.IsClosestDepot(c, closest)
    requires |s1| <= |s2| <= |s1| + 1 && s2[..|s1|] == s1
    requires |s2| == |s1| + 1 ==>
      && s2[|s1|].customerId == c && s2[|s1|].closest == closest
      && s2[|s1|].second < p.numDepots && p.Qualifies(c, closest, s2[|s1|].second)
    ensures SwapsAdded(p, s1, s2)
  {
  }

  lemma SwapsAddedNone(p: MDVRP, s: seq<Swap>)
    requires p.Shape()
    ensures SwapsAdded(p, s, s)
  {
    assert s[..|s|] == s;
  }

  /** Growth of the swap list composes. */
  lemma SwapsAddedTrans(p: MDVRP, s0: seq<Swap>, s1: seq<Swap>, s2: seq<Swap>)
    requires p.Shape() && SwapsAdded(p, s0, s1) && SwapsAdded(p, s1, s2)
    ensures SwapsAdded(p, s0, s2)
  {
    assert s2[..|s0|] == s1[..|s0|];
  }

  /** The depot getClosestDepot settles on among depots 0..k-1: the first
      one at the least distance. */
  ghost function NearestAmong(p: MDVRP, c: nat, k: nat): (r: nat)
    requires p.Shape() && c < p.numCustomers && 1 <= k <= p.numDepots
    ensures r < k
    ensures forall e :: 0 <= e < k ==> p.DepotCustomerDist(r, c) <= p.DepotCustomerDist(e, c)
    ensures forall e :: 0 <= e < r ==> p.DepotCustomerDist(r, c) < p.DepotCustomerDist(e, c)
  {
    if k == 1 then 0
    else
      var b := NearestAmong(p, c, k - 1);
      if p.DepotCustomerDist(k - 1, c) < p.DepotCustomerDist(b, c) then k - 1 else b
  }

  /** The closest depot of customer c. */
  ghost function Nearest(p: MDVRP, c: nat): (r: nat)
    requires p.Shape() && c < p.numCustomers && p.numDepots >= 1
    ensures p.IsClosestDepot(c, r)
  {
    NearestAmong(p, c, p.numDepots)
  }

  /** The lists the first loop of clusterCustomers has built after
      customers 0..n-1: each added, in turn, to its closest depot's list. */
  ghost function ClusterMap(p: MDVRP, n: nat): map<nat, seq<Customer>>
    requires p.Shape() && p.numDepots >= 1 && n <= p.numCustomers
  {
    if n == 0 then map[]
    else AddToCluster(ClusterMap(p, n - 1), Nearest(p, n - 1), Customer(n - 1, p.customers[n - 1].demand))
  }

  /** Customer n-1 joins the members of its closest depot and no other. */
  lemma MembersStep(p: MDVRP, d: nat, n: nat, best: nat)
    requires p.Shape() && 1 <= n <= p.numCustomers && p.IsClosestDepot(n - 1, best)
    ensures Members(p, d, n) == Members(p, d, n - 1) + (if d == best then [Customer(n - 1, p.customers[n - 1].demand)] else [])
  {
    if d != best && d < p.numDepots && p.IsClosestDepot(n - 1, d) {
      p.ClosestUnique(n - 1, best, d);
    }
  }

  /** Depot d's list after customers 0..n-1 is exactly its members; a
      depot without a list has none. */
  lemma {:induction false} ClusterMapAt(p: MDVRP, n: nat, d: nat)
    requires p.Shape() && p.numDepots >= 1 && n <= p.numCustomers
    ensures d in ClusterMap(p, n) ==> d < p.numDepots && ClusterMap(p, n)[d] == Members(p, d, n)
    ensures d !in ClusterMap(p, n) ==> Members(p, d, n) == []
  {
    if n > 0 {
      var x := Customer(n - 1, p.customers[n - 1].demand);
      var best := Nearest(p, n - 1);
      ClusterMapAt(p, n - 1, d);
      MembersStep(p, d, n, best);
      assert ClusterMap(p, n) == AddToCluster(ClusterMap(p, n - 1), best, x);
    }
  }

  /** The lists after customers 0..n-1 hold each of them exactly once. */
  lemma {:induction false} ClusterMapGathered(p: MDVRP, n: nat)
    requires p.Shape() && p.numDepots >= 1 && n <= p.numCustomers
    ensures Gathered(ClusterMap(p, n), p.numDepots) == Everyone(n)
  {
    if n == 0 {
      GatheredEmpty(p.numDepots);
    } else {
      var best := Nearest(p, n - 1);
      assert best < p.numDepots;
      ClusterMapGathered(p, n - 1);
      GatheredGrow(ClusterMap(p, n - 1), p.numDepots, best, Customer(n - 1, p.customers[n - 1].demand), n - 1, n);
    }
  }

  /** When every depot is some customer's closest, the first loop of
      clusterCustomers leaves every depot a list, of exactly its members,
      and every customer in one of them. */
  lemma ClusterMapFull(p: MDVRP, t: Table)
    requires p.Shape() && p.numDepots >= 1 && t.numCustomers == p.numCustomers
    requires forall d :: 0 <= d < p.numDepots ==> Served(p, d)
    ensures forall d :: 0 <= d < p.numDepots ==>
      && d in ClusterMap(p, p.numCustomers) && ClusterMap(p, p.numCustomers)[d] == Members(p, d, p.numCustomers)
      && InTable(t, Members(p, d, p.numCustomers))
    ensures Gathered(ClusterMap(p, p.numCustomers), p.numDepots) == Everyone(p.numCustomers)
  {
    ClusterMapGathered(p, p.numCustomers);
    forall d | 0 <= d < p.numDepots
      ensures d in ClusterMap(p, p.numCustomers) && ClusterMap(p, p.numCustomers)[d] == Members(p, d, p.numCustomers)
      ensures InTable(t, Members(p, d, p.numCustomers))
    {
      ClusterMapAt(p, p.numCustomers, d);
      assert Served(p, d);
      var c :| 0 <= c < p.numCustomers && p.IsClosestDepot(c, d);
      MembersHas(p, d, p.numCustomers, c);
      MembersWithin(p, d, p.numCustomers);
    }
  }

  /** A depot as the constructor leaves it: valid, with its id, the table
      and limits of the instance, the given customers and empty vehicles. */
  ghost predicate FreshDepot(d: Depot, k: nat, t: Table, maxLoad: real, maxVehicles: nat)
    reads d, d.Repr
  {
    && d.Valid() && d.id == k && d.problem == t && d.maxLoad == maxLoad
    && d.maxVehicles == maxVehicles && d.routes == EmptyRoutes(maxVehicles)
  }

  /** A depot as a copy leaves it: valid, with its id, the table and
      limits of the instance, and the routes `rs`. */
  ghost predicate DepotWith(d: Depot, k: nat, t: Table, maxLoad: real, maxVehicles: nat, rs: seq<seq<Customer>>)
    reads d, d.Repr
  {
    && d.Valid() && d.id == k && d.problem == t && d.maxLoad == maxLoad
    && d.maxVehicles == maxVehicles && d.routes == rs
  }

  /** The customer list of each depot, in depot order. */
  function CustomerLists(ds: seq<Depot>): (r: seq<seq<Customer>>)
    ensures |r| == |ds| && forall k :: 0 <= k < |ds| ==> r[k] == ds[k].customers
  {
    seq(|ds|, k requires 0 <= k < |ds| => ds[k].customers)
  }

  /** n depots of m empty routes each. */
  function EmptyPlan(n: nat, m: nat): (r: Plan)
    ensures |r| == n && forall k :: 0 <= k < n ==> r[k] == EmptyRoutes(m)
  {
    seq(n, k => EmptyRoutes(m))
  }

  class Chromosome {
    const depots: seq<Depot>
    const numDepots: nat
    const numCustomers: nat
    const maxLoad: real
    const maxVehicles: nat
    /** The distance table of the instance. */
    const problem: Table
    /** The routes of every depot, in depot order. */
    ghost var plan: Plan
    ghost const Repr: set<object>

    /** Depot k is valid, has id k and shares the chromosome's table,
        capacity and fleet size. */
    ghost predicate DepotOk(k: nat)
      requires k < |depots|
      reads depots[k], depots[k].Repr
    {
      var d := depots[k];
      && d.Valid() && d.id == k && d.problem == problem
      && d.maxLoad == maxLoad && d.maxVehicles == maxVehicles
    }

    /** The depots own disjoint parts of the heap and `plan` is their routes. */
    ghost predicate Valid()
      reads this, Repr
      ensures Valid() ==> PlanInTable(problem, plan)
    {
      && this in Repr
      && problem.Valid() && numDepots == problem.numDepots && numCustomers == problem.numCustomers
      && maxVehicles >= 1 && |depots| == numDepots
      && (forall k :: 0 <= k < |depots| ==> depots[k] in Repr && depots[k].Repr <= Repr && this !in depots[k].Repr)
      && (forall j, k :: 0 <= j < |depots| && 0 <= k < |depots| && j != k ==> depots[j].Repr !! depots[k].Repr)
      && (forall k :: 0 <= k < |depots| ==> DepotOk(k))
      && |plan| == |depots|
      && (forall k :: 0 <= k < |depots| ==> plan[k] == depots[k].routes)
      && Shaped(problem, maxVehicles, plan)
    }

    /** The fitness getFitness sums up. */
    ghost function Fitness(): real
      reads this
      requires PlanInTable(problem, plan)
    {
      PlanFitness(problem, maxLoad, plan)
    }

    /** The customer lists clusterCustomers handed to the depots. */
    function Lists(): seq<seq<Customer>> {
      CustomerLists(depots)
    }

    /** Every customer of the instance was handed to exactly one depot. */
    ghost predicate Clustered() {
      ClusterIds(Lists()) == Everyone(numCustomers)
    }

    /** The depots' lists are p's clusters, each in the order `shuffle`
        gives it: customer c is on depot k's list exactly when k is its
        closest depot. */
    ghost predicate Dealt(p: MDVRP, shuffle: seq<Customer> -> seq<Customer>) {
      && p.Shape() && numCustomers == p.numCustomers
      && forall k :: 0 <= k < |depots| ==> depots[k].customers == shuffle(Members(p, k, numCustomers))
    }

    /** Every depot's routes in `pl` are the layout scheduleRoutes gives
        its list. */
    ghost predicate LaidOut(lengthOk: (nat, seq<Customer>, Customer) -> bool, pl: Plan) {
      && problem.Valid() && maxVehicles >= 1 && |pl| == |depots| && |depots| <= problem.numDepots
      && forall k :: 0 <= k < |depots| ==>
           && InTable(problem, depots[k].customers)
           && pl[k] == Schedule(problem, k, maxLoad, maxVehicles, lengthOk, depots[k].customers)
    }

    /** The routes are the layout scheduleRoutes gives the depots' lists. */
    ghost predicate Scheduled(lengthOk: (nat, seq<Customer>, Customer) -> bool)
      reads this
    {
      LaidOut(lengthOk, plan)
    }

    // -------------------------------------------------------------------
    // Construction

    /** The constructor with clusterCustomers: every customer goes to the
        list of its closest depot (and, the first time round, its second
        closest depot is recorded), then each depot is built from its list
        in the order `shuffle` gives it. A depot no customer is closest to
        would receive no list at all, so each has one. */
    constructor (p: MDVRP, shuffle: seq<Customer> -> seq<Customer>)
      requires p.Valid() && p.numDepots >= 1 && p.maxVehicles >= 1
      requires forall d :: 0 <= d < p.numDepots ==> Served(p, d)
      requires forall s :: multiset(shuffle(s)) == multiset(s)
      modifies p`swappable, p`isCalculated
      ensures Valid() && fresh(Repr)
      ensures problem == p.Snapshot() && numDepots == p.numDepots && numCustomers == p.numCustomers
      ensures maxLoad == p.maxLoad && maxVehicles == p.maxVehicles
      ensures forall k :: 0 <= k < |depots| ==> depots[k].customers == shuffle(Members(p, k, numCustomers))
      ensures Dealt(p, shuffle) && Clustered()
      ensures forall k :: 0 <= k < |plan| ==> plan[k] == EmptyRoutes(maxVehicles)
      ensures p.isCalculated && SwapsAdded(p, old(p.swappable), p.swappable)
      ensures old(p.isCalculated) ==> p.swappable == old(p.swappable)
    {
      var t := p.Snapshot();
      var ds, all := Build(p, t, shuffle);
      numDepots := p.numDepots;
      numCustomers := p.numCustomers;
      maxLoad := p.maxLoad;
      maxVehicles := p.maxVehicles;
      problem := t;
      depots := ds;
      plan := EmptyPlan(|ds|, p.maxVehicles);
      Repr := {this} + all;
      new;
      Assembled(all);
    }

    /** The body of clusterCustomers: the lists, then one depot per list. */
    static method Build(p: MDVRP, t: Table, shuffle: seq<Customer> -> seq<Customer>)
      returns (ds: seq<Depot>, ghost all: set<object>)
      requires p.Valid() && p.numDepots >= 1 && p.maxVehicles >= 1 && t == p.Snapshot()
      requires forall d :: 0 <= d < p.numDepots ==> Served(p, d)
      requires forall s :: multiset(shuffle(s)) == multiset(s)
      modifies p`swappable, p`isCalculated
      ensures |ds| == p.numDepots && fresh(all)
      ensures forall k :: 0 <= k < |ds| ==> ds[k] in all && ds[k].Repr <= all
      ensures forall j, k :: 0 <= j < |ds| && 0 <= k < |ds| && j != k ==> ds[j].Repr !! ds[k].Repr
      ensures forall k :: 0 <= k < |ds| ==> FreshDepot(ds[k], k, t, p.maxLoad, p.maxVehicles)
      ensures forall k :: 0 <= k < |ds| ==> ds[k].customers == shuffle(Members(p, k, p.numCustomers))
      ensures ClusterIds(CustomerLists(ds)) == Everyone(p.numCustomers)
      ensures p.isCalculated && SwapsAdded(p, old(p.swappable), p.swappable)
      ensures old(p.isCalculated) ==> p.swappable == old(p.swappable)
    {
      var lists := ClusterCustomers(p);
      ds, all := BuildFrom(p, t, lists, shuffle);
    }

    /** One depot per list of the clustering. */
    static method BuildFrom(p: MDVRP, t: Table, lists: map<nat, seq<Customer>>, shuffle: seq<Customer> -> seq<Customer>)
      returns (ds: seq<Depot>, ghost all: set<object>)
      requires p.Valid() && p.numDepots >= 1 && p.maxVehicles >= 1 && t == p.Snapshot()
      requires forall d :: 0 <= d < p.numDepots ==> Served(p, d)
      requires forall s :: multiset(shuffle(s)) == multiset(s)
      requires lists == ClusterMap(p, p.numCustomers)
      ensures |ds| == p.numDepots && fresh(all)
      ensures forall k :: 0 <= k < |ds| ==> ds[k] in all && ds[k].Repr <= all
      ensures forall j, k :: 0 <= j < |ds| && 0 <= k < |ds| && j != k ==> ds[j].Repr !! ds[k].Repr
      ensures forall k :: 0 <= k < |ds| ==> FreshDepot(ds[k], k, t, p.maxLoad, p.maxVehicles)
      ensures forall k :: 0 <= k < |ds| ==> ds[k].customers == shuffle(Members(p, k, p.numCustomers))
      ensures ClusterIds(CustomerLists(ds)) == Everyone(p.numCustomers)
    {
      ClusterMapFull(p, t);
      ds, all := MakeDepots(t, lists, p.maxLoad, p.maxVehicles, shuffle);
      GatheredLists(lists, CustomerLists(ds));
    }

    /** The fields the constructor sets up make a valid chromosome. */
    lemma Assembled(all: set<object>)
      requires Repr == {this} + all && this !in all
      requires problem.Valid() && numDepots == problem.numDepots && numCustomers == problem.numCustomers
      requires maxVehicles >= 1 && |depots| == numDepots && plan == EmptyPlan(|depots|, maxVehicles)
      requires forall k :: 0 <= k < |depots| ==> depots[k] in all && depots[k].Repr <= all
      requires forall j, k :: 0 <= j < |depots| && 0 <= k < |depots| && j != k ==> depots[j].Repr !! depots[k].Repr
      requires forall k :: 0 <= k < |depots| ==> FreshDepot(depots[k], k, problem, maxLoad, maxVehicles)
      ensures Valid()
    {
    }

    /** A deep copy, as SerializationUtils.clone makes one for
        tournamentSelection: new depots and vehicles holding the same
        customer lists and routes. */
    constructor Copy(other: Chromosome)
      requires other.Valid()
      ensures Valid() && fresh(Repr)
      ensures problem == other.problem && numDepots == other.numDepots && numCustomers == other.numCustomers
      ensures maxLoad == other.maxLoad && maxVehicles == other.maxVehicles
      ensures plan == other.plan && Lists() == other.Lists()
    {
      var ds, all := CopyDepots(other);
      numDepots := other.numDepots;
      numCustomers := other.numCustomers;
      maxLoad := other.maxLoad;
      maxVehicles := other.maxVehicles;
      problem := other.problem;
      depots := ds;
      plan := other.plan;
      Repr := {this} + all;
      new;
      Copied(all);
    }

    /** The depots of a copy, one new depot per depot of `other`. */
    static method CopyDepots(other: Chromosome) returns (ds: seq<Depot>, ghost all: set<object>)
      requires other.Valid()
      ensures |ds| == |other.depots| && fresh(all)
      ensures forall k :: 0 <= k < |ds| ==> ds[k] in all && ds[k].Repr <= all
      ensures forall j, k :: 0 <= j < |ds| && 0 <= k < |ds| && j != k ==> ds[j].Repr !! ds[k].Repr
      ensures forall k :: 0 <= k < |ds| ==>
        DepotWith(ds[k], k, other.problem, other.maxLoad, other.maxVehicles, other.plan[k])
      ensures CustomerLists(ds) == other.Lists()
    {
      ds := [];
      all := {};
      while |ds| < |other.depots|
        invariant |ds| <= |other.depots| && fresh(all)
        invariant forall j :: 0 <= j < |ds| ==> ds[j] in all && ds[j].Repr <= all
        invariant forall i, j :: 0 <= i < |ds| && 0 <= j < |ds| && i != j ==> ds[i].Repr !! ds[j].Repr
        invariant forall j :: 0 <= j < |ds| ==>
          DepotWith(ds[j], j, other.problem, other.maxLoad, other.maxVehicles, other.plan[j])
        invariant forall j :: 0 <= j < |ds| ==> ds[j].customers == other.depots[j].customers
        decreases |other.depots| - |ds|
      {
        ds, all := CopyNext(other, ds, all);
      }
    }

    /** One step of CopyDepots: a copy of the next depot. */
    static method CopyNext(other: Chromosome, ds: seq<Depot>, ghost all: set<object>)
      returns (ds': seq<Depot>, ghost all': set<object>)
      requires other.Valid() && |ds| < |other.depots|
      requires forall j :: 0 <= j < |ds| ==> ds[j] in all && ds[j].Repr <= all
      requires forall i, j :: 0 <= i < |ds| && 0 <= j < |ds| && i != j ==> ds[i].Repr !! ds[j].Repr
      requires forall j :: 0 <= j < |ds| ==>
        DepotWith(ds[j], j, other.problem, other.maxLoad, other.maxVehicles, other.plan[j])
      requires forall j :: 0 <= j < |ds| ==> ds[j].customers == other.depots[j].customers
      ensures |ds'| == |ds| + 1 && ds'[..|ds|] == ds && fresh(all' - all) && all <= all'
      ensures forall j :: 0 <= j < |ds'| ==> ds'[j] in all' && ds'[j].Repr <= all'
      ensures forall i, j :: 0 <= i < |ds'| && 0 <= j < |ds'| && i != j ==> ds'[i].Repr !! ds'[j].Repr
      ensures forall j :: 0 <= j < |ds'| ==>
        DepotWith(ds'[j], j, other.problem, other.maxLoad, other.maxVehicles, other.plan[j])
      ensures forall j :: 0 <= j < |ds'| ==> ds'[j].customers == other.depots[j].customers
    {
      var k := |ds|;
      assert other.DepotOk(k);
      var depot := new Depot.Copy(other.depots[k]);
      assert depot.Repr !! all;
      ds' := ds + [depot];
      all' := all + depot.Repr;
    }

    /** The fields the copy constructor sets up make a valid chromosome. */
    lemma Copied(all: set<object>)
      requires Repr == {this} + all && this !in all
      requires problem.Valid() && numDepots == problem.numDepots && numCustomers == problem.numCustomers
      requires maxVehicles >= 1 && |depots| == numDepots && |plan| == numDepots
      requires Shaped(problem, maxVehicles, plan)
      requires forall k :: 0 <= k < |depots| ==> depots[k] in all && depots[k].Repr <= all
      requires forall j, k :: 0 <= j < |depots| && 0 <= k < |depots| && j != k ==> depots[j].Repr !! depots[k].Repr
      requires forall k :: 0 <= k < |depots| ==> DepotWith(depots[k], k, problem, maxLoad, maxVehicles, plan[k])
      ensures Valid()
    {
    }

    /** The first loop of clusterCustomers and its setCalculated. */
    static method ClusterCustomers(p: MDVRP) returns (lists: map<nat, seq<Customer>>)
      requires p.Valid() && p.numDepots >= 1
      modifies p`swappable, p`isCalculated
      ensures p.isCalculated && SwapsAdded(p, old(p.swappable), p.swappable)
      ensures old(p.isCalculated) ==> p.swappable == old(p.swappable)
      ensures lists == ClusterMap(p, p.numCustomers)
    {
      ghost var s0 := p.swappable;
      ghost var calculated := p.isCalculated;
      lists := map[];
      var customerId := 0;
      while customerId < p.numCustomers
        invariant 0 <= customerId <= p.numCustomers
        invariant p.isCalculated == calculated
        invariant SwapsAdded(p, s0, p.swappable)
        invariant calculated ==> p.swappable == s0
        invariant lists == ClusterMap(p, customerId)
      {
        ghost var before := p.swappable;
        lists := ClusterCustomer(p, lists, customerId);
        SwapsAddedTrans(p, s0, before, p.swappable);
        customerId := customerId + 1;
      }
      p.SetCalculated();
    }

    /** One pass of the first loop of clusterCustomers: the customer's
        closest depot, its second closest the first time round, and the
        customer added to the closest depot's list. */
    static method ClusterCustomer(p: MDVRP, lists: map<nat, seq<Customer>>, customerId: nat)
      returns (lists': map<nat, seq<Customer>>)
      requires p.Valid() && p.numDepots >= 1 && customerId < p.numCustomers
      requires lists == ClusterMap(p, customerId)
      modifies p`swappable
      ensures SwapsAdded(p, old(p.swappable), p.swappable)
      ensures p.isCalculated ==> p.swappable == old(p.swappable)
      ensures lists' == ClusterMap(p, customerId + 1)
    {
      var customerDemand := p.customers[customerId].demand;
      var closestDepot := p.GetClosestDepot(customerId);
      p.ClosestUnique(customerId, closestDepot, Nearest(p, customerId));
      if !p.isCalculated {
        p.GetSecondClosestDepot(customerId, closestDepot);
        SwapsAddedOne(p, old(p.swappable), p.swappable, customerId, closestDepot);
      } else {
        SwapsAddedNone(p, p.swappable);
      }
      lists' := AddToCluster(lists, closestDepot, Customer(customerId, customerDemand));
    }

    /** The second loop of clusterCustomers: depot d gets its list,
        shuffled, and empty vehicles. */
    static method MakeDepots(t: Table, lists: map<nat, seq<Customer>>, maxLoad: real, maxVehicles: nat,
                             shuffle: seq<Customer> -> seq<Customer>)
      returns (ds: seq<Depot>, ghost all: set<object>)
      requires t.Valid() && maxVehicles >= 1
      requires forall d :: 0 <= d < t.numDepots ==> d in lists && InTable(t, lists[d])
      requires forall s :: multiset(shuffle(s)) == multiset(s)
      ensures |ds| == t.numDepots && fresh(all)
      ensures forall k :: 0 <= k < |ds| ==> ds[k] in all && ds[k].Repr <= all
      ensures forall j, k :: 0 <= j < |ds| && 0 <= k < |ds| && j != k ==> ds[j].Repr !! ds[k].Repr
      ensures forall k :: 0 <= k < |ds| ==> FreshDepot(ds[k], k, t, maxLoad, maxVehicles)
      ensures forall k :: 0 <= k < |ds| ==> ds[k].customers == shuffle(lists[k])
    {
      ds := [];
      all := {};
      var depotId := 0;
      while depotId < t.numDepots
        invariant 0 <= depotId <= t.numDepots && |ds| == depotId && fresh(all)
        invariant forall k :: 0 <= k < |ds| ==> ds[k] in all && ds[k].Repr <= all
        invariant forall j, k :: 0 <= j < |ds| && 0 <= k < |ds| && j != k ==> ds[j].Repr !! ds[k].Repr
        invariant forall k :: 0 <= k < |ds| ==> FreshDepot(ds[k], k, t, maxLoad, maxVehicles)
        invariant forall k :: 0 <= k < |ds| ==> ds[k].customers == shuffle(lists[k])
      {
        var depotCustomers := shuffle(lists[depotId]);
        InTablePermutation(t, depotCustomers, lists[depotId]);
        var depot := new Depot(depotId, depotCustomers, maxLoad, maxVehicles, t);
        ds := ds + [depot];
        all := all + depot.Repr;
        depotId := depotId + 1;
      }
    }

    // -------------------------------------------------------------------
    // One depot at a time; each call brings `plan` up to date.

    /** When only depot k's footprint changed, depot k kept its own
        invariant and `plan` took its new routes, the chromosome is valid
        again. */
    twostate lemma Refreshed(k: nat)
      requires old(Valid()) && k < |depots| && DepotOk(k)
      requires forall o :: o in Repr && o !in depots[k].Repr && o != this ==> unchanged(o)
      requires plan == old(plan)[k := depots[k].routes]
      ensures Valid()
    {
      forall j | 0 <= j < |depots| && j != k
        ensures DepotOk(j) && plan[j] == depots[j].routes
      {
        assert depots[j].Repr !! depots[k].Repr;
        assert forall o :: o in depots[j].Repr ==> unchanged(o);
        assert old(DepotOk(j));
      }
      ShapedUpdate(problem, maxVehicles, old(plan), k, depots[k].routes);
    }

    method RemoveFromDepot(k: nat, c: Customer) returns (removed: bool)
      requires Valid() && k < |depots|
      modifies this, depots[k].Repr
      ensures Valid()
      ensures removed <==> Holds(old(plan)[k], c.id)
      ensures plan == TakeOut(old(plan), c.id, k)
      ensures !removed ==> plan == old(plan)
    {
      ghost var rs := plan[k];
      assert DepotOk(k) && |depots[k].vehicles| == |rs|;
      removed := depots[k].RemoveCustomer(c);
      assert removed <==> Holds(rs, c.id);
      if !removed {
        RemoveFirstMissing(rs, c.id, 0);
      }
      plan := plan[k := depots[k].routes];
      Refreshed(k);
    }

    method InsertIntoDepot(k: nat, cs: seq<Customer>, greedy: seq<bool>, picks: seq<nat>)
      requires Valid() && k < |depots| && InTable(problem, cs)
      requires |greedy| == |picks| == |cs| && forall j :: 0 <= j < |picks| ==> picks[j] < maxVehicles
      modifies this, depots[k].Repr
      ensures Valid()
      ensures plan == old(plan)[k := InsertAll(problem, k, maxLoad, old(plan)[k], cs, greedy, picks)]
    {
      assert DepotOk(k);
      depots[k].BestCostInsertions(cs, greedy, picks);
      plan := plan[k := depots[k].routes];
      Refreshed(k);
    }

    method RerouteInDepot(k: nat, vehiclePick: nat, customerPick: nat)
      requires Valid() && k < |depots| && vehiclePick < maxVehicles
      requires |plan[k][vehiclePick]| == 0 || customerPick < |plan[k][vehiclePick]|
      modifies this, depots[k].Repr
      ensures Valid()
      ensures plan == old(plan)[k := Reroute(problem, k, maxLoad, old(plan)[k], vehiclePick, customerPick)]
    {
      assert DepotOk(k);
      depots[k].CustomerReroute(vehiclePick, customerPick);
      plan := plan[k := depots[k].routes];
      Refreshed(k);
    }

    method FitnessOfDepot(k: nat) returns (f: real)
      requires Valid() && k < |depots|
      modifies depots[k].Repr
      ensures Valid() && plan == old(plan)
      ensures f == RoutesFitness(problem, k, maxLoad, plan[k])
    {
      assert DepotOk(k);
      f := depots[k].GetFitness();
    }

    method ScheduleDepot(k: nat, lengthOk: (nat, seq<Customer>, Customer) -> bool)
      requires Valid() && k < |depots|
      modifies this, depots[k].Repr
      ensures Valid()
      ensures AllInTable(problem, FillFrom(EmptyRoutes(maxVehicles), 0, depots[k].customers, maxLoad))
      ensures plan == old(plan)[k := Rebalance(problem, k, maxLoad, lengthOk,
                                               FillFrom(EmptyRoutes(maxVehicles), 0, depots[k].customers, maxLoad), 0)]
      ensures Flatten(plan[k]) == depots[k].customers
      ensures InTable(problem, depots[k].customers)
      ensures plan[k] == Schedule(problem, k, maxLoad, maxVehicles, lengthOk, depots[k].customers)
    {
      assert DepotOk(k);
      depots[k].ScheduleRoutes(lengthOk);
      plan := plan[k := depots[k].routes];
      Refreshed(k);
    }

    // -------------------------------------------------------------------
    // The operations of Chromosome

    /** getDepotById: depot ids are their positions, so the search finds
        depot `id` exactly when there is one. */
    method GetDepotById(id: nat) returns (r: Option<Depot>)
      requires Valid()
      ensures r.Some? <==> id < |depots|
      ensures r.Some? ==> r.value == depots[id] && r.value.id == id
    {
      var k := 0;
      while k < |depots|
        invariant 0 <= k <= |depots|
        invariant k <= id
      {
        assert DepotOk(k);
        if depots[k].id == id {
          return Some(depots[k]);
        }
        k := k + 1;
      }
      return None;
    }

    /** getDepot(k).getVehicle(v).getCustomers(): the route of vehicle v
        of depot k. */
    method RouteOf(k: nat, v: nat) returns (r: seq<Customer>)
      requires Valid() && k < |depots| && v < maxVehicles
      ensures r == plan[k][v]
    {
      assert DepotOk(k);
      r := depots[k].vehicles[v].customers;
    }

    /** removeCustomers: each listed customer, in order, leaves the first
        depot that holds its id. */
    method RemoveCustomers(cs: seq<Customer>)
      requires Valid()
      modifies Repr
      ensures Valid()
      ensures plan == RemoveAllFromPlan(old(plan), cs)
      ensures Holdings(plan) == Holdings(old(plan)) - multiset(Ids(cs))
    {
      RemoveAllIds(problem, maxVehicles, plan, cs);
      var i := 0;
      while i < |cs|
        invariant 0 <= i <= |cs|
        invariant Valid()
        invariant RemoveAllFromPlan(plan, cs[i..]) == RemoveAllFromPlan(old(plan), cs)
      {
        RemoveOne(cs[i]);
        assert cs[i..][1..] == cs[i + 1..];
        i := i + 1;
      }
    }

    /** The inner loop of removeCustomers: the depots in order until one
        reports the removal. */
    method RemoveOne(c: Customer)
      requires Valid()
      modifies Repr
      ensures Valid()
      ensures plan == RemoveFromPlan(old(plan), c.id)
    {
      var k := 0;
      while k < |depots|
        invariant 0 <= k <= |depots|
        invariant Valid() && plan == old(plan)
        invariant Holder(plan, c.id, k) == Holder(plan, c.id, 0)
      {
        var removed := RemoveFromDepot(k, c);
        if removed {
          return;
        }
        k := k + 1;
      }
    }

    /** interDepot on the swap entry `s` drawn by getRandomSwappable: the
        customer leaves the closest depot when that depot holds it and goes
        to the second, and otherwise goes the other way. The coin and the
        random vehicle of the insertion are `greedy` and `pick`. */
    method InterDepot(s: Swap, greedy: bool, pick: nat)
      requires Valid() && s.closest < |depots| && s.second < |depots| && pick < maxVehicles
      requires Holds(plan[s.closest], s.customerId) || Holds(plan[s.second], s.customerId)
      modifies Repr
      ensures Valid()
      ensures plan == InterDepotPlan(problem, maxVehicles, maxLoad, old(plan), s, greedy, pick)
      ensures Holdings(plan) == Holdings(old(plan))
    {
      InterDepotIds(problem, maxVehicles, maxLoad, plan, s, greedy, pick);
      assert DepotOk(s.closest);
      HoldsFound(plan[s.closest], s.customerId);
      var customer := depots[s.closest].GetCustomerById(s.customerId);
      if customer.Some? {
        Move(s.customerId, customer.value, s.closest, s.second, greedy, pick);
      } else {
        MoveBack(s.customerId, s.second, s.closest, greedy, pick);
      }
    }

    /** The else branch of interDepot: the customer is looked up in depot
        `from` and moves to depot `to`. */
    method MoveBack(id: nat, from: nat, to: nat, greedy: bool, pick: nat)
      requires Valid() && from < |depots| && to < |depots| && pick < maxVehicles && Holds(plan[from], id)
      modifies Repr
      ensures Valid()
      ensures plan == Migrate(problem, maxVehicles, maxLoad, old(plan), id, from, to, greedy, pick)
    {
      assert DepotOk(from);
      HoldsFound(plan[from], id);
      var customer := depots[from].GetCustomerById(id);
      Move(id, customer.value, from, to, greedy, pick);
    }

    /** One branch of interDepot: c, found in depot `from`, is removed there
        and inserted into depot `to`. */
    method Move(id: nat, c: Customer, from: nat, to: nat, greedy: bool, pick: nat)
      requires Valid() && from < |depots| && to < |depots| && pick < maxVehicles && Holds(plan[from], id)
      requires FindById(plan[from], id, 0) == Some(c)
      modifies Repr
      ensures Valid()
      ensures plan == Migrate(problem, maxVehicles, maxLoad, old(plan), id, from, to, greedy, pick)
    {
      FoundInTable(problem, plan[from], id);
      var _ := RemoveFromDepot(from, c);
      InsertIntoDepot(to, [c], [greedy], [pick]);
    }

    /** getFitness: the depots' fitness summed in depot order. */
    method GetFitness() returns (f: real)
      requires Valid()
      modifies Repr
      ensures Valid() && plan == old(plan)
      ensures f == Fitness()
    {
      f := 0.0;
      var k := 0;
      while k < |depots|
        invariant 0 <= k <= |depots|
        invariant Valid() && plan == old(plan)
        invariant f == PlanFitness(problem, maxLoad, plan[..k])
      {
        var fk := FitnessOfDepot(k);
        PlanFitnessStep(problem, maxLoad, plan, k);
        f := f + fk;
        k := k + 1;
      }
      assert plan[..k] == plan;
    }

    /** isFeasible: no route of any depot exceeds the capacity. */
    method IsFeasible() returns (ok: bool)
      requires Valid()
      ensures ok <==> PlanFeasible(maxLoad, plan)
    {
      var k := 0;
      while k < |depots|
        invariant 0 <= k <= |depots|
        invariant forall j, v :: 0 <= j < k && 0 <= v < |plan[j]| ==> SumDemand(plan[j][v]) <= maxLoad
      {
        assert DepotOk(k);
        var fine := depots[k].IsFeasible();
        if !fine {
          assert !PlanFeasible(maxLoad, plan) by {
            var v :| 0 <= v < |plan[k]| && SumDemand(plan[k][v]) > maxLoad;
          }
          return false;
        }
        k := k + 1;
      }
      return true;
    }

    /** checkNumCustomers: the customers on all routes number exactly the
        instance's customers; a conserved plan always passes. */
    method CheckNumCustomers() returns (ok: bool)
      requires Valid()
      ensures ok <==> Count(plan) == numCustomers
      ensures Conserved(plan, numCustomers) ==> ok
    {
      var custCount := 0;
      var k := 0;
      while k < |depots|
        invariant 0 <= k <= |depots|
        invariant custCount == Count(plan[..k])
      {
        assert DepotOk(k);
        var n := depots[k].GetNumCustomers();
        CountStep(plan, k);
        custCount := custCount + n;
        k := k + 1;
      }
      assert plan[..k] == plan;
      if Conserved(plan, numCustomers) {
        ConservedMeans(plan, numCustomers);
      }
      ok := custCount == numCustomers;
    }

    /** scheduleRoutes: every depot lays out its own customer list, the
        greedy fill then one rebalance pass, so a clustered chromosome ends
        with every customer on exactly one route. */
    method ScheduleRoutes(lengthOk: (nat, seq<Customer>, Customer) -> bool)
      requires Valid()
      modifies Repr
      ensures Valid() && Scheduled(lengthOk)
      ensures forall k :: 0 <= k < |depots| ==> Flatten(plan[k]) == depots[k].customers
      ensures Clustered() ==> Conserved(plan, numCustomers)
    {
      var k := 0;
      while k < |depots|
        invariant 0 <= k <= |depots|
        invariant Valid()
        invariant forall j :: 0 <= j < k ==> Flatten(plan[j]) == depots[j].customers
        invariant forall j :: 0 <= j < k ==>
                    && InTable(problem, depots[j].customers)
                    && plan[j] == Schedule(problem, j, maxLoad, maxVehicles, lengthOk, depots[j].customers)
      {
        ScheduleDepot(k, lengthOk);
        k := k + 1;
      }
      ScheduledHoldings(plan, Lists());
    }

    /** compare: the two fitness values under Compare. */
    static method Compare(c1: Chromosome, c2: Chromosome) returns (r: int)
      requires c1.Valid() && c2.Valid() && (c1 == c2 || c1.Repr !! c2.Repr)
      modifies c1.Repr, c2.Repr
      ensures c1.Valid() && c2.Valid() && c1.plan == old(c1.plan) && c2.plan == old(c2.plan)
      ensures r == ChromosomeSpec.Compare(c1.Fitness(), c2.Fitness())
    {
      var f1 := c1.GetFitness();
      var f2 := c2.GetFitness();
      r := if f1 == f2 then 0 else if f1 > f2 then -1 else 1;
    }
  }
}
