/** Pure functions over the routes of one depot (a sequence of routes, one
    per vehicle, in vehicle order): their concatenation and ids, the two
    phases of scheduleRoutes, and the two selection rules the depot uses to
    place a customer. */
module DepotSpec {
  import opened Customers
  import opened Problem
  import opened Routes
  import opened Vehicles
  import opened Wrappers

  /** The routes one after another, in vehicle order. */
  function Flatten(rs: seq<seq<Customer>>): seq<Customer> {
    if rs == [] then [] else Flatten(rs[..|rs| - 1]) + rs[|rs| - 1]
  }

  /** One more route of a prefix. */
  lemma FlattenStep(rs: seq<seq<Customer>>, k: nat)
    requires k < |rs|
    ensures Flatten(rs[..k + 1]) == Flatten(rs[..k]) + rs[k]
  {
    assert rs[..k + 1][..k] == rs[..k];
  }

  /** All customer ids held by the routes, with multiplicity. */
  function AllIds(rs: seq<seq<Customer>>): multiset<nat> {
    multiset(Ids(Flatten(rs)))
  }

  predicate AllInTable(t: Table, rs: seq<seq<Customer>>) {
    forall k :: 0 <= k < |rs| ==> InTable(t, rs[k])
  }

  /** k empty routes. */
  function EmptyRoutes(k: nat): (rs: seq<seq<Customer>>)
    ensures |rs| == k && forall j :: 0 <= j < k ==> rs[j] == []
  {
    seq(k, j => [])
  }

  lemma {:induction false} FlattenConcat(a: seq<seq<Customer>>, b: seq<seq<Customer>>)
    ensures Flatten(a + b) == Flatten(a) + Flatten(b)
  {
    if b == [] {
      assert a + b == a;
    } else {
      assert (a + b)[..|a + b| - 1] == a + b[..|b| - 1];
      FlattenConcat(a, b[..|b| - 1]);
    }
  }

  /** Replacing route j changes the concatenation at that route only. */
  lemma FlattenUpdate(rs: seq<seq<Customer>>, j: nat, r: seq<Customer>)
    requires j < |rs|
    ensures Flatten(rs[j := r]) == Flatten(rs[..j]) + r + Flatten(rs[j + 1..])
    ensures Flatten(rs) == Flatten(rs[..j]) + rs[j] + Flatten(rs[j + 1..])
  {
    FlattenConcat(rs[..j] + [r], rs[j + 1..]);
    FlattenConcat(rs[..j], [r]);
    assert rs[j := r] == rs[..j] + [r] + rs[j + 1..];
    assert Flatten([r]) == r by { assert [r][..0] == []; }
    FlattenConcat(rs[..j] + [rs[j]], rs[j + 1..]);
    FlattenConcat(rs[..j], [rs[j]]);
    assert rs == rs[..j] + [rs[j]] + rs[j + 1..];
    assert Flatten([rs[j]]) == rs[j] by { assert [rs[j]][..0] == []; }
  }

  lemma IdsConcat(a: seq<Customer>, b: seq<Customer>)
    ensures Ids(a + b) == Ids(a) + Ids(b)
  {
  }

  /** Replacing route j changes the id multiset by that route's ids only. */
  lemma AllIdsUpdate(rs: seq<seq<Customer>>, j: nat, r: seq<Customer>)
    requires j < |rs|
    ensures AllIds(rs[j := r]) == AllIds(rs) - multiset(Ids(rs[j])) + multiset(Ids(r))
  {
    FlattenUpdate(rs, j, r);
    var a, b := Flatten(rs[..j]), Flatten(rs[j + 1..]);
    IdsConcat(a + r, b);
    IdsConcat(a, r);
    IdsConcat(a + rs[j], b);
    IdsConcat(a, rs[j]);
  }

  /** The ids of one route are among the ids of all routes. */
  lemma RouteIdsWithin(rs: seq<seq<Customer>>, v: nat)
    requires v < |rs|
    ensures multiset(Ids(rs[v])) <= AllIds(rs)
  {
    FlattenUpdate(rs, v, rs[v]);
    IdsConcat(Flatten(rs[..v]) + rs[v], Flatten(rs[v + 1..]));
    IdsConcat(Flatten(rs[..v]), rs[v]);
  }

  lemma FlattenLength(rs: seq<seq<Customer>>, j: nat, r: seq<Customer>)
    requires j < |rs|
    ensures |Flatten(rs[j := r])| == |Flatten(rs)| - |rs[j]| + |r|
  {
    FlattenUpdate(rs, j, r);
  }

  lemma FlattenEmpty(k: nat)
    ensures Flatten(EmptyRoutes(k)) == []
  {
    if k > 0 {
      assert EmptyRoutes(k)[..k - 1] == EmptyRoutes(k - 1);
      FlattenEmpty(k - 1);
    }
  }

  // ---------------------------------------------------------------------
  // Fill phase of scheduleRoutes

  /** The fill phase from vehicle `cursor` on: a customer is appended to the
      current vehicle when its load stays strictly below capacity; otherwise
      the cursor moves on (unless it is at the last vehicle) and the customer
      is appended to that vehicle without any test. */
  function FillFrom(rs: seq<seq<Customer>>, cursor: nat, cs: seq<Customer>, maxLoad: real): seq<seq<Customer>>
    requires cursor < |rs|
    decreases |cs|
  {
    if cs == [] then rs
    else
      var c := cs[0];
      if SumDemand(rs[cursor]) + c.demand < maxLoad then
        FillFrom(rs[cursor := rs[cursor] + [c]], cursor, cs[1..], maxLoad)
      else
        var next := if cursor >= |rs| - 1 then cursor else cursor + 1;
        FillFrom(rs[next := rs[next] + [c]], next, cs[1..], maxLoad)
  }

  /** Appending to a route none of whose successors holds anything appends
      to the concatenation. */
  lemma FlattenAppendLast(rs: seq<seq<Customer>>, j: nat, c: Customer)
    requires j < |rs| && forall k :: j < k < |rs| ==> rs[k] == []
    ensures Flatten(rs[j := rs[j] + [c]]) == Flatten(rs) + [c]
  {
    FlattenUpdate(rs, j, rs[j] + [c]);
    FlattenEmptySuffix(rs[j + 1..]);
  }

  lemma FlattenEmptySuffix(rs: seq<seq<Customer>>)
    requires forall k :: 0 <= k < |rs| ==> rs[k] == []
    ensures Flatten(rs) == []
  {
    if rs != [] {
      FlattenEmptySuffix(rs[..|rs| - 1]);
    }
  }

  /** The fill phase lays the customers out in order: concatenating the
      routes afterwards gives what they held before followed by the list. */
  lemma {:induction false} FillFromFlatten(rs: seq<seq<Customer>>, cursor: nat, cs: seq<Customer>, maxLoad: real)
    requires cursor < |rs| && forall k :: cursor < k < |rs| ==> rs[k] == []
    ensures |FillFrom(rs, cursor, cs, maxLoad)| == |rs|
    ensures Flatten(FillFrom(rs, cursor, cs, maxLoad)) == Flatten(rs) + cs
    decreases |cs|
  {
    if cs == [] {
      assert Flatten(rs) + cs == Flatten(rs);
    } else {
      var c := cs[0];
      var next := if SumDemand(rs[cursor]) + c.demand < maxLoad then cursor
                  else if cursor >= |rs| - 1 then cursor else cursor + 1;
      var rs' := rs[next := rs[next] + [c]];
      assert FillFrom(rs, cursor, cs, maxLoad) == FillFrom(rs', next, cs[1..], maxLoad);
      FlattenAppendLast(rs, next, c);
      FillFromFlatten(rs', next, cs[1..], maxLoad);
      assert Flatten(rs) + cs == (Flatten(rs) + [c]) + cs[1..];
    }
  }

  lemma FillFromInTable(t: Table, rs: seq<seq<Customer>>, cursor: nat, cs: seq<Customer>, maxLoad: real)
    requires cursor < |rs| && AllInTable(t, rs) && InTable(t, cs)
    ensures AllInTable(t, FillFrom(rs, cursor, cs, maxLoad))
    decreases |cs|
  {
    if cs != [] {
      var c := cs[0];
      var next := if SumDemand(rs[cursor]) + c.demand < maxLoad then cursor
                  else if cursor >= |rs| - 1 then cursor else cursor + 1;
      assert InTable(t, rs[next] + [c]);
      FillFromInTable(t, rs[next := rs[next] + [c]], next, cs[1..], maxLoad);
    }
  }

  // ---------------------------------------------------------------------
  // Rebalance pass of scheduleRoutes

  /** The delta scheduleRoutes computes for moving the last customer of
      `cur` to the front of `next`: minus the leg second-last to last, plus
      second-last to depot, minus depot to the first of `next`, plus last to
      that first customer. It reads the second-last customer of `cur`. */
  function MoveDeltaAsWritten(t: Table, d: nat, cur: seq<Customer>, next: seq<Customer>): real
    requires t.Valid() && d < t.numDepots && InTable(t, cur) && InTable(t, next)
    requires |cur| >= 2 && |next| >= 1
  {
    var secondLast, last, first := cur[|cur| - 2].id, cur[|cur| - 1].id, next[0].id;
    0.0 - t.C2C(secondLast, last) + t.D2C(d, secondLast) - t.D2C(d, first) + t.C2C(last, first)
  }

  /** The same move when `cur` holds its last customer only: its two depot
      legs go, the customer joins `next` at the front. */
  function MoveDelta(t: Table, d: nat, cur: seq<Customer>, next: seq<Customer>): real
    requires t.Valid() && d < t.numDepots && InTable(t, cur) && InTable(t, next)
    requires |cur| >= 1 && |next| >= 1
  {
    if |cur| >= 2 then MoveDeltaAsWritten(t, d, cur, next)
    else
      var last, first := cur[0].id, next[0].id;
      0.0 - t.D2C(d, last) + t.C2C(last, first) - t.D2C(d, first)
  }

  /** The move delta is exact: it is the change in the summed cost of the
      two routes. For two customers or more this is the delta as written. */
  lemma MoveDeltaExact(t: Table, d: nat, cur: seq<Customer>, next: seq<Customer>)
    requires t.Valid() && d < t.numDepots && InTable(t, cur) && InTable(t, next)
    requires |cur| >= 1 && |next| >= 1
    ensures InTable(t, cur[..|cur| - 1]) && InTable(t, [cur[|cur| - 1]] + next)
    ensures RouteCost(t, d, cur[..|cur| - 1]) + RouteCost(t, d, [cur[|cur| - 1]] + next)
            == RouteCost(t, d, cur) + RouteCost(t, d, next) + MoveDelta(t, d, cur, next)
  {
    var last := cur[|cur| - 1];
    var rest := cur[..|cur| - 1];
    InsertFrontExact(t, d, next, last);
    if |cur| >= 2 {
      assert rest + [last] == cur;
      InsertBackExact(t, d, rest, last);
    } else {
      assert rest == [];
    }
  }

  /** Moving the last customer of route i to the front of route i + 1. */
  function MoveLast(rs: seq<seq<Customer>>, i: nat): (s: seq<seq<Customer>>)
    requires i + 1 < |rs| && |rs[i]| >= 1
    ensures |s| == |rs|
  {
    var cur := rs[i];
    rs[i := cur[..|cur| - 1]][i + 1 := [cur[|cur| - 1]] + rs[i + 1]]
  }

  /** Whether the pass moves the last customer of route i into route i + 1:
      route i is non-empty, route i + 1 is non-empty, the demand fits (<=),
      the length test passes and the move lowers the cost. */
  predicate Moves(t: Table, d: nat, maxLoad: real, lengthOk: (nat, seq<Customer>, Customer) -> bool,
                  rs: seq<seq<Customer>>, i: nat)
    requires t.Valid() && d < t.numDepots && AllInTable(t, rs) && i + 1 < |rs|
  {
    var cur, next := rs[i], rs[i + 1];
    && |cur| >= 1 && |next| > 0
    && SumDemand(next) + cur[|cur| - 1].demand <= maxLoad
    && lengthOk(d, next, cur[|cur| - 1])
    && MoveDelta(t, d, cur, next) < 0.0
  }

  lemma MoveLastInTable(t: Table, rs: seq<seq<Customer>>, i: nat)
    requires AllInTable(t, rs) && i + 1 < |rs| && |rs[i]| >= 1
    ensures AllInTable(t, MoveLast(rs, i))
  {
    var cur := rs[i];
    assert InTable(t, [cur[|cur| - 1]] + rs[i + 1]);
  }

  /** The rebalance pass from pair (i, i + 1) on, left to right, once. */
  function Rebalance(t: Table, d: nat, maxLoad: real, lengthOk: (nat, seq<Customer>, Customer) -> bool,
                     rs: seq<seq<Customer>>, i: nat): seq<seq<Customer>>
    requires t.Valid() && d < t.numDepots && AllInTable(t, rs)
    decreases |rs| - i
  {
    if i + 1 >= |rs| then rs
    else if Moves(t, d, maxLoad, lengthOk, rs, i) then
      MoveLastInTable(t, rs, i);
      Rebalance(t, d, maxLoad, lengthOk, MoveLast(rs, i), i + 1)
    else Rebalance(t, d, maxLoad, lengthOk, rs, i + 1)
  }

  /** What the pass as written ends in: the rebalanced routes, or the index
      error of getSecondLastCustomer on a one-customer route, with the
      routes as they were when it was thrown. */
  datatype Outcome = Done(routes: seq<seq<Customer>>) | IndexError(routes: seq<seq<Customer>>)

  /** The pass as written: it reads the second-last customer of route i as
      soon as the demand and length tests pass, so a one-customer route there
      throws. */
  function RebalanceAsWritten(t: Table, d: nat, maxLoad: real, lengthOk: (nat, seq<Customer>, Customer) -> bool,
                              rs: seq<seq<Customer>>, i: nat): Outcome
    requires t.Valid() && d < t.numDepots && AllInTable(t, rs)
    decreases |rs| - i
  {
    if i + 1 >= |rs| then Done(rs)
    else
      var cur, next := rs[i], rs[i + 1];
      if |cur| < 1 then RebalanceAsWritten(t, d, maxLoad, lengthOk, rs, i + 1)
      else if SumDemand(next) + cur[|cur| - 1].demand <= maxLoad && |next| > 0 && lengthOk(d, next, cur[|cur| - 1]) then
        if |cur| < 2 then IndexError(rs)
        else if MoveDeltaAsWritten(t, d, cur, next) < 0.0 then
          MoveLastInTable(t, rs, i);
          RebalanceAsWritten(t, d, maxLoad, lengthOk, MoveLast(rs, i), i + 1)
        else RebalanceAsWritten(t, d, maxLoad, lengthOk, rs, i + 1)
      else RebalanceAsWritten(t, d, maxLoad, lengthOk, rs, i + 1)
  }

  lemma FlattenCons(x: seq<Customer>, b: seq<seq<Customer>>)
    ensures Flatten([x] + b) == x + Flatten(b)
  {
    FlattenConcat([x], b);
    assert [x][..0] == [];
  }

  /** Flatten of a sequence of routes written as a prefix, two routes and a suffix. */
  lemma FlattenPair(a: seq<seq<Customer>>, x: seq<Customer>, y: seq<Customer>, b: seq<seq<Customer>>)
    ensures Flatten(a + [x, y] + b) == Flatten(a) + (x + y) + Flatten(b)
  {
    assert a + [x, y] + b == a + ([x] + ([y] + b));
    FlattenConcat(a, [x] + ([y] + b));
    FlattenCons(x, [y] + b);
    FlattenCons(y, b);
  }

  /** Replacing two neighbouring routes: the concatenation changes there only. */
  lemma FlattenTwo(rs: seq<seq<Customer>>, i: nat, x: seq<Customer>, y: seq<Customer>)
    requires i + 1 < |rs|
    ensures Flatten(rs[i := x][i + 1 := y]) == Flatten(rs[..i]) + (x + y) + Flatten(rs[i + 2..])
  {
    var m := rs[i := x][i + 1 := y];
    var w := rs[..i] + [x, y] + rs[i + 2..];
    assert |m| == |w|;
    assert forall k :: 0 <= k < |m| ==> m[k] == w[k];
    assert m == w;
    FlattenPair(rs[..i], x, y, rs[i + 2..]);
  }

  /** A move keeps the customers, in the same order across the routes. */
  lemma MoveLastFlatten(rs: seq<seq<Customer>>, i: nat)
    requires i + 1 < |rs| && |rs[i]| >= 1
    ensures Flatten(MoveLast(rs, i)) == Flatten(rs)
  {
    var cur, next := rs[i], rs[i + 1];
    var last := cur[|cur| - 1];
    var r1 := cur[..|cur| - 1];
    FlattenTwo(rs, i, r1, [last] + next);
    FlattenTwo(rs, i, cur, next);
    assert rs[i := cur][i + 1 := next] == rs;
    assert cur == r1 + [last];
    assert r1 + ([last] + next) == cur + next;
  }

  /** The pass keeps the customers and their concatenated order. */
  lemma {:induction false} RebalanceFlatten(t: Table, d: nat, maxLoad: real, lengthOk: (nat, seq<Customer>, Customer) -> bool,
                                           rs: seq<seq<Customer>>, i: nat)
    requires t.Valid() && d < t.numDepots && AllInTable(t, rs)
    ensures |Rebalance(t, d, maxLoad, lengthOk, rs, i)| == |rs|
    ensures Flatten(Rebalance(t, d, maxLoad, lengthOk, rs, i)) == Flatten(rs)
    ensures AllInTable(t, Rebalance(t, d, maxLoad, lengthOk, rs, i))
    decreases |rs| - i
  {
    if i + 1 < |rs| {
      if Moves(t, d, maxLoad, lengthOk, rs, i) {
        MoveLastInTable(t, rs, i);
        MoveLastFlatten(rs, i);
        RebalanceFlatten(t, d, maxLoad, lengthOk, MoveLast(rs, i), i + 1);
      } else {
        RebalanceFlatten(t, d, maxLoad, lengthOk, rs, i + 1);
      }
    }
  }

  /** Summed cost of the routes. */
  function TotalCost(t: Table, d: nat, rs: seq<seq<Customer>>): real
    requires t.Valid() && d < t.numDepots && AllInTable(t, rs)
  {
    if rs == [] then 0.0 else TotalCost(t, d, rs[..|rs| - 1]) + RouteCost(t, d, rs[|rs| - 1])
  }

  lemma {:induction false} TotalCostUpdate(t: Table, d: nat, rs: seq<seq<Customer>>, j: nat, r: seq<Customer>)
    requires t.Valid() && d < t.numDepots && AllInTable(t, rs) && j < |rs| && InTable(t, r)
    ensures AllInTable(t, rs[j := r])
    ensures TotalCost(t, d, rs[j := r]) == TotalCost(t, d, rs) - RouteCost(t, d, rs[j]) + RouteCost(t, d, r)
  {
    var n := |rs|;
    assert AllInTable(t, rs[j := r]);
    if j == n - 1 {
      assert rs[j := r][..n - 1] == rs[..n - 1];
    } else {
      assert rs[j := r][..n - 1] == rs[..n - 1][j := r];
      TotalCostUpdate(t, d, rs[..n - 1], j, r);
    }
  }

  /** Every move changes the total cost by its (negative) delta. */
  lemma MoveLastCost(t: Table, d: nat, rs: seq<seq<Customer>>, i: nat)
    requires t.Valid() && d < t.numDepots && AllInTable(t, rs) && i + 1 < |rs| && |rs[i]| >= 1 && |rs[i + 1]| >= 1
    ensures AllInTable(t, MoveLast(rs, i))
    ensures TotalCost(t, d, MoveLast(rs, i)) == TotalCost(t, d, rs) + MoveDelta(t, d, rs[i], rs[i + 1])
  {
    var cur := rs[i];
    MoveDeltaExact(t, d, cur, rs[i + 1]);
    var rs1 := rs[i := cur[..|cur| - 1]];
    TotalCostUpdate(t, d, rs, i, cur[..|cur| - 1]);
    TotalCostUpdate(t, d, rs1, i + 1, [cur[|cur| - 1]] + rs[i + 1]);
  }

  /** The pass never raises the depot's total route cost. */
  lemma {:induction false} RebalanceCost(t: Table, d: nat, maxLoad: real, lengthOk: (nat, seq<Customer>, Customer) -> bool,
                                        rs: seq<seq<Customer>>, i: nat)
    requires t.Valid() && d < t.numDepots && AllInTable(t, rs)
    ensures AllInTable(t, Rebalance(t, d, maxLoad, lengthOk, rs, i))
    ensures TotalCost(t, d, Rebalance(t, d, maxLoad, lengthOk, rs, i)) <= TotalCost(t, d, rs)
    decreases |rs| - i
  {
    RebalanceFlatten(t, d, maxLoad, lengthOk, rs, i);
    if i + 1 < |rs| {
      if Moves(t, d, maxLoad, lengthOk, rs, i) {
        MoveLastCost(t, d, rs, i);
        RebalanceCost(t, d, maxLoad, lengthOk, MoveLast(rs, i), i + 1);
      } else {
        RebalanceCost(t, d, maxLoad, lengthOk, rs, i + 1);
      }
    }
  }

  /** The routes scheduleRoutes lays out for the customer list cs: the
      greedy fill from the first of maxVehicles empty vehicles, then one
      rebalance pass. Every customer of cs is on them, in order, and they
      cost no more than the fill alone. */
  function Schedule(t: Table, d: nat, maxLoad: real, maxVehicles: nat, lengthOk: (nat, seq<Customer>, Customer) -> bool,
                    cs: seq<Customer>): (rs: seq<seq<Customer>>)
    requires t.Valid() && d < t.numDepots && maxVehicles >= 1 && InTable(t, cs)
    ensures |rs| == maxVehicles && AllInTable(t, rs) && Flatten(rs) == cs
    ensures AllInTable(t, FillFrom(EmptyRoutes(maxVehicles), 0, cs, maxLoad))
    ensures TotalCost(t, d, rs) <= TotalCost(t, d, FillFrom(EmptyRoutes(maxVehicles), 0, cs, maxLoad))
  {
    var filled := FillFrom(EmptyRoutes(maxVehicles), 0, cs, maxLoad);
    FillFromInTable(t, EmptyRoutes(maxVehicles), 0, cs, maxLoad);
    FillFromFlatten(EmptyRoutes(maxVehicles), 0, cs, maxLoad);
    FlattenEmpty(maxVehicles);
    RebalanceFlatten(t, d, maxLoad, lengthOk, filled, 0);
    RebalanceCost(t, d, maxLoad, lengthOk, filled, 0);
    Rebalance(t, d, maxLoad, lengthOk, filled, 0)
  }

  /** Wherever the pass as written does not throw, it agrees with the pass. */
  lemma {:induction false} RebalanceAsWrittenAgrees(t: Table, d: nat, maxLoad: real, lengthOk: (nat, seq<Customer>, Customer) -> bool,
                                                   rs: seq<seq<Customer>>, i: nat)
    requires t.Valid() && d < t.numDepots && AllInTable(t, rs)
    ensures RebalanceAsWritten(t, d, maxLoad, lengthOk, rs, i).Done? ==>
            RebalanceAsWritten(t, d, maxLoad, lengthOk, rs, i).routes == Rebalance(t, d, maxLoad, lengthOk, rs, i)
    decreases |rs| - i
  {
    if i + 1 < |rs| {
      var cur, next := rs[i], rs[i + 1];
      if |cur| >= 1 && SumDemand(next) + cur[|cur| - 1].demand <= maxLoad && |next| > 0 && lengthOk(d, next, cur[|cur| - 1]) && |cur| >= 2
         && MoveDeltaAsWritten(t, d, cur, next) < 0.0 {
        MoveLastInTable(t, rs, i);
        RebalanceAsWrittenAgrees(t, d, maxLoad, lengthOk, MoveLast(rs, i), i + 1);
      } else {
        RebalanceAsWrittenAgrees(t, d, maxLoad, lengthOk, rs, i + 1);
      }
    }
  }

  /** One depot, two customers of demand 5 one unit apart and from the
      depot, capacity 10, two vehicles, any length test that passes. */
  function SmallInstance(): (t: Table)
    ensures t.Valid() && t.numDepots == 1 && t.numCustomers == 2
  {
    Table(1, 2, [[0.0, 1.0, 1.0], [1.0, 0.0, 1.0], [1.0, 1.0, 0.0]])
  }

  /** The fill phase puts each customer in its own vehicle (5 + 5 is not
      below 10), and the pass as written then asks the first vehicle, which
      holds one customer, for its second-last customer. The corrected pass
      merges the two routes instead, saving one unit of distance. */
  lemma OneCustomerRouteCrashes()
    ensures var c0, c1 := Customer(0, 5.0), Customer(1, 5.0);
      var ok := (k: nat, r: seq<Customer>, c: Customer) => true;
      var filled := FillFrom(EmptyRoutes(2), 0, [c0, c1], 10.0);
      && filled == [[c0], [c1]]
      && RebalanceAsWritten(SmallInstance(), 0, 10.0, ok, filled, 0) == IndexError(filled)
      && Rebalance(SmallInstance(), 0, 10.0, ok, filled, 0) == [[], [c0, c1]]
  {
    var c0, c1 := Customer(0, 5.0), Customer(1, 5.0);
    var ok := (k: nat, r: seq<Customer>, c: Customer) => true;
    var e := EmptyRoutes(2);
    assert e == [[], []];
    assert SumDemand([c0]) == 5.0 by { SumDemandSingle(c0); }
    var s1 := e[0 := [c0]];
    assert FillFrom(e, 0, [c0, c1], 10.0) == FillFrom(s1, 0, [c1], 10.0) by {
      assert SumDemand(e[0]) == 0.0;
      assert e[0] + [c0] == [c0];
      assert [c0, c1][1..] == [c1];
    }
    assert FillFrom(s1, 0, [c1], 10.0) == FillFrom(s1[1 := [c1]], 1, [], 10.0) by {
      assert s1[0] == [c0] && s1[1] + [c1] == [c1];
      assert [c1][1..] == [];
    }
    assert s1[1 := [c1]] == [[c0], [c1]];
    var filled := [[c0], [c1]];
    var t := SmallInstance();
    assert SumDemand([c1]) == 5.0 by { SumDemandSingle(c1); }
    assert Moves(t, 0, 10.0, ok, filled, 0);
    assert [c0][..0] == [] && [c0][0] == c0;
    assert [c0] + [c1] == [c0, c1];
    assert MoveLast(filled, 0) == [[], [c0, c1]];
  }

  // ---------------------------------------------------------------------
  // Selection rules

  /** An insertion option of bestCostInsertions: position, vehicle, delta. */
  datatype Option3 = Option3(index: nat, vehicle: nat, delta: real)

  /** The first element of the list after a stable sort by delta: the
      earliest element of least delta. */
  function FirstMin(os: seq<Option3>): (k: nat)
    requires |os| >= 1
    ensures k < |os|
    ensures forall j :: 0 <= j < |os| ==> os[k].delta <= os[j].delta
    ensures forall j :: 0 <= j < k ==> os[k].delta < os[j].delta
  {
    if |os| == 1 then 0
    else
      var k := FirstMin(os[..|os| - 1]);
      if os[|os| - 1].delta < os[k].delta then |os| - 1 else k
  }

  /** The reroute comparison: a feasible candidate beats an infeasible best,
      and otherwise a candidate wins only with the same feasibility and a
      strictly lower delta. */
  predicate Better(curr: Placement, best: Placement) {
    if curr.feasible then (best.feasible && curr.delta < best.delta) || !best.feasible
    else !best.feasible && curr.delta < best.delta
  }

  /** The vehicle customerReroute settles on after looking at vehicles 0..n-1. */
  function RerouteScan(ps: seq<Placement>, n: nat): (b: nat)
    requires 1 <= n <= |ps|
    ensures b < n
  {
    if n == 1 then 0
    else
      var b := RerouteScan(ps, n - 1);
      if Better(ps[n - 1], ps[b]) then n - 1 else b
  }

  /** One step of the reroute comparison. */
  lemma RerouteStep(ps: seq<Placement>, i: nat, b: nat, curr: Placement, best: Placement)
    requires 1 <= i < |ps| && b == RerouteScan(ps, i) && best == ps[b] && curr == ps[i]
    ensures Better(curr, best) ==> RerouteScan(ps, i + 1) == i && curr == ps[i]
    ensures !Better(curr, best) ==> RerouteScan(ps, i + 1) == b && best == ps[b]
  {
  }

  /** The reroute choice is feasible whenever some candidate is, has the
      least delta among the candidates of its feasibility, and is the
      earliest such one. */
  lemma {:induction false} RerouteScanIsBest(ps: seq<Placement>, n: nat)
    requires 1 <= n <= |ps|
    ensures var b := RerouteScan(ps, n);
      && ((exists j :: 0 <= j < n && ps[j].feasible) ==> ps[b].feasible)
      && (forall j :: 0 <= j < n && ps[j].feasible == ps[b].feasible ==> ps[b].delta <= ps[j].delta)
      && (forall j :: 0 <= j < b && ps[j].feasible == ps[b].feasible ==> ps[b].delta < ps[j].delta)
  {
    if n > 1 {
      RerouteScanIsBest(ps, n - 1);
    }
  }

  /** The option of vehicle v as bestCostInsertions records it. */
  function OptionOf(ps: seq<Placement>, v: nat): Option3
    requires v < |ps|
  {
    Option3(ps[v].index, v, ps[v].delta)
  }

  /** The options of vehicles 0..n-1 in vehicle order: all of them, or the
      feasible ones only. */
  function Options(ps: seq<Placement>, n: nat, onlyFeasible: bool): (os: seq<Option3>)
    requires n <= |ps|
    ensures |os| <= n && (!onlyFeasible ==> |os| == n)
  {
    if n == 0 then []
    else
      var os := Options(ps, n - 1, onlyFeasible);
      if !onlyFeasible || ps[n - 1].feasible then
        os + [OptionOf(ps, n - 1)]
      else os
  }

  /** Each option is its vehicle's own, for a vehicle below n, and feasible
      when only feasible ones are kept. */
  lemma {:induction false} OptionsOwn(ps: seq<Placement>, n: nat, onlyFeasible: bool)
    requires n <= |ps|
    ensures forall m :: 0 <= m < |Options(ps, n, onlyFeasible)| ==>
      && Options(ps, n, onlyFeasible)[m].vehicle < n
      && Options(ps, n, onlyFeasible)[m] == OptionOf(ps, Options(ps, n, onlyFeasible)[m].vehicle)
      && (onlyFeasible ==> ps[Options(ps, n, onlyFeasible)[m].vehicle].feasible)
  {
    if n > 0 {
      OptionsOwn(ps, n - 1, onlyFeasible);
    }
  }

  /** The options are in strictly increasing vehicle order. */
  lemma {:induction false} OptionsIncreasing(ps: seq<Placement>, n: nat, onlyFeasible: bool)
    requires n <= |ps|
    ensures forall m1, m2 :: 0 <= m1 < m2 < |Options(ps, n, onlyFeasible)| ==>
      Options(ps, n, onlyFeasible)[m1].vehicle < Options(ps, n, onlyFeasible)[m2].vehicle
  {
    if n > 0 {
      OptionsIncreasing(ps, n - 1, onlyFeasible);
      OptionsOwn(ps, n - 1, onlyFeasible);
    }
  }

  /** Every eligible vehicle below n has its option in the list. */
  lemma {:induction false} OptionsComplete(ps: seq<Placement>, n: nat, onlyFeasible: bool)
    requires n <= |ps|
    ensures forall v :: 0 <= v < n && (!onlyFeasible || ps[v].feasible) ==> OptionOf(ps, v) in Options(ps, n, onlyFeasible)
  {
    if n > 0 {
      OptionsComplete(ps, n - 1, onlyFeasible);
    }
  }

  /** The list of all options is indexed by vehicle. */
  lemma {:induction false} OptionsAll(ps: seq<Placement>, n: nat)
    requires n <= |ps|
    ensures forall m :: 0 <= m < n ==> Options(ps, n, false)[m] == OptionOf(ps, m)
  {
    if n > 0 {
      OptionsAll(ps, n - 1);
    }
  }

  /** The option bestCostInsertions takes: with the greedy coin, the first
      feasible option after the sort by delta, or the first of all options
      when none is feasible; otherwise the option at the random index. */
  function InsertChoice(ps: seq<Placement>, greedy: bool, pick: nat): Option3
    requires pick < |ps|
  {
    var all := Options(ps, |ps|, false);
    if greedy then
      var feasible := Options(ps, |ps|, true);
      if |feasible| == 0 then all[FirstMin(all)] else feasible[FirstMin(feasible)]
    else all[pick]
  }

  /** The greedy choice is some vehicle's own option; it is feasible when
      any option is; its delta is the least among the options of its
      feasibility; and every earlier such option is strictly worse. */
  lemma InsertChoiceIsBest(ps: seq<Placement>, pick: nat)
    requires pick < |ps|
    ensures var o := InsertChoice(ps, true, pick);
      && o.vehicle < |ps| && o == OptionOf(ps, o.vehicle)
      && ((exists v :: 0 <= v < |ps| && ps[v].feasible) ==> ps[o.vehicle].feasible)
      && (forall v :: 0 <= v < |ps| && ps[v].feasible == ps[o.vehicle].feasible ==> o.delta <= ps[v].delta)
      && (forall v :: 0 <= v < o.vehicle && ps[v].feasible == ps[o.vehicle].feasible ==> o.delta < ps[v].delta)
  {
    if |Options(ps, |ps|, true)| == 0 {
      NoFeasibleChoice(ps, pick);
    } else {
      FeasibleChoice(ps, pick);
    }
  }

  lemma NoFeasibleChoice(ps: seq<Placement>, pick: nat)
    requires pick < |ps| && |Options(ps, |ps|, true)| == 0
    ensures forall v :: 0 <= v < |ps| ==> !ps[v].feasible
    ensures var o := InsertChoice(ps, true, pick);
      && o.vehicle < |ps| && o == OptionOf(ps, o.vehicle)
      && (forall v :: 0 <= v < |ps| ==> o.delta <= ps[v].delta)
      && (forall v :: 0 <= v < o.vehicle ==> o.delta < ps[v].delta)
  {
    OptionsComplete(ps, |ps|, true);
    OptionsAll(ps, |ps|);
    var all := Options(ps, |ps|, false);
    var k := FirstMin(all);
    assert InsertChoice(ps, true, pick) == all[k] == OptionOf(ps, k);
    assert forall v :: 0 <= v < |ps| ==> all[v].delta == ps[v].delta;
  }

  lemma FeasibleChoice(ps: seq<Placement>, pick: nat)
    requires pick < |ps| && |Options(ps, |ps|, true)| > 0
    ensures var o := InsertChoice(ps, true, pick);
      && o.vehicle < |ps| && o == OptionOf(ps, o.vehicle) && ps[o.vehicle].feasible
      && (forall v :: 0 <= v < |ps| && ps[v].feasible ==> o.delta <= ps[v].delta)
      && (forall v :: 0 <= v < o.vehicle && ps[v].feasible ==> o.delta < ps[v].delta)
  {
    OptionsOwn(ps, |ps|, true);
    OptionsIncreasing(ps, |ps|, true);
    OptionsComplete(ps, |ps|, true);
    var feasible := Options(ps, |ps|, true);
    var k := FirstMin(feasible);
    var o := feasible[k];
    assert InsertChoice(ps, true, pick) == o;
    forall v | 0 <= v < |ps| && ps[v].feasible
      ensures o.delta <= ps[v].delta
      ensures v < o.vehicle ==> o.delta < ps[v].delta
    {
      assert OptionOf(ps, v) in feasible;
      var m :| 0 <= m < |feasible| && feasible[m] == OptionOf(ps, v);
      if v < o.vehicle {
        assert m < k;
      }
    }
  }

  /** bestCostInsertions' greedy sort-and-take-first and customerReroute's
      pairwise comparison settle on the same vehicle. */
  lemma GreedyChoiceIsRerouteChoice(ps: seq<Placement>, pick: nat)
    requires pick < |ps|
    ensures InsertChoice(ps, true, pick).vehicle == RerouteScan(ps, |ps|)
  {
    InsertChoiceIsBest(ps, pick);
    RerouteScanIsBest(ps, |ps|);
  }

  /** What bestInsertion answers for each vehicle holding route rs[k]: the
      position, the delta and whether the demand fits (<=). */
  function PlacementsFor(t: Table, d: nat, maxLoad: real, rs: seq<seq<Customer>>, c: Customer): (ps: seq<Placement>)
    requires t.Valid() && d < t.numDepots && AllInTable(t, rs) && c.id < t.numCustomers
    ensures |ps| == |rs|
  {
    seq(|rs|, k requires 0 <= k < |rs| => PlacementOf(t, d, maxLoad, rs[k], c))
  }

  /** bestInsertion's answer for a vehicle holding route r. */
  function PlacementOf(t: Table, d: nat, maxLoad: real, r: seq<Customer>, c: Customer): Placement
    requires t.Valid() && d < t.numDepots && InTable(t, r) && c.id < t.numCustomers
  {
    var b := BestInsertion(t, d, r, c);
    Placement(b.index, b.delta, SumDemand(r) + c.demand <= maxLoad)
  }

  /** Placing c where the placement of vehicle v says keeps every route in
      the table, adds c's id once and changes the total cost by the delta. */
  lemma PlaceExact(t: Table, d: nat, maxLoad: real, rs: seq<seq<Customer>>, c: Customer, v: nat)
    requires t.Valid() && d < t.numDepots && AllInTable(t, rs) && c.id < t.numCustomers && v < |rs|
    ensures PlacementsFor(t, d, maxLoad, rs, c)[v].index <= |rs[v]|
    ensures var r := Insert(rs[v], PlacementsFor(t, d, maxLoad, rs, c)[v].index, c);
      && AllInTable(t, rs[v := r])
      && AllIds(rs[v := r]) == AllIds(rs) + multiset{c.id}
      && TotalCost(t, d, rs[v := r]) == TotalCost(t, d, rs) + PlacementsFor(t, d, maxLoad, rs, c)[v].delta
  {
    var b := BestInsertion(t, d, rs[v], c);
    assert PlacementsFor(t, d, maxLoad, rs, c)[v].index == b.index;
    assert PlacementsFor(t, d, maxLoad, rs, c)[v].delta == b.delta;
    var i := b.index;
    BestInsertionExact(t, d, rs[v], c);
    var r := Insert(rs[v], i, c);
    AllIdsUpdate(rs, v, r);
    IdsInsert(rs[v], i, c);
    RouteIdsWithin(rs, v);
    TotalCostUpdate(t, d, rs, v, r);
  }

  /** Removing the entry at position i of route v takes its id out once. */
  lemma UnplaceIds(t: Table, rs: seq<seq<Customer>>, v: nat, i: nat)
    requires AllInTable(t, rs) && v < |rs| && i < |rs[v]|
    ensures AllInTable(t, rs[v := RemoveAt(rs[v], i)])
    ensures AllIds(rs[v := RemoveAt(rs[v], i)]) == AllIds(rs) - multiset{rs[v][i].id}
    ensures rs[v][i].id in AllIds(rs)
  {
    AllIdsUpdate(rs, v, RemoveAt(rs[v], i));
    IdsRemove(rs[v], i);
    RouteIdsWithin(rs, v);
    assert rs[v][i].id == Ids(rs[v])[i];
  }

  /** getFitness of a depot: route costs plus demand penalties. */
  function RoutesFitness(t: Table, d: nat, maxLoad: real, rs: seq<seq<Customer>>): real
    requires t.Valid() && d < t.numDepots && AllInTable(t, rs)
  {
    if rs == [] then 0.0
    else
      var r := rs[|rs| - 1];
      RoutesFitness(t, d, maxLoad, rs[..|rs| - 1]) + RouteCost(t, d, r) + Penalty(SumDemand(r), maxLoad)
  }

  /** The fitness of one more route of a prefix. */
  lemma RoutesFitnessStep(t: Table, d: nat, maxLoad: real, rs: seq<seq<Customer>>, k: nat)
    requires t.Valid() && d < t.numDepots && AllInTable(t, rs) && k < |rs|
    ensures RoutesFitness(t, d, maxLoad, rs[..k + 1])
            == RoutesFitness(t, d, maxLoad, rs[..k]) + RouteCost(t, d, rs[k]) + Penalty(SumDemand(rs[k]), maxLoad)
  {
    assert rs[..k + 1][..k] == rs[..k];
  }

  /** The fitness is never below the total cost, and equals it exactly when
      every route is within capacity. */
  lemma {:induction false} FitnessAndCost(t: Table, d: nat, maxLoad: real, rs: seq<seq<Customer>>)
    requires t.Valid() && d < t.numDepots && AllInTable(t, rs)
    ensures RoutesFitness(t, d, maxLoad, rs) >= TotalCost(t, d, rs)
    ensures RoutesFitness(t, d, maxLoad, rs) == TotalCost(t, d, rs)
            <==> forall k :: 0 <= k < |rs| ==> SumDemand(rs[k]) <= maxLoad
  {
    if rs != [] {
      var front := rs[..|rs| - 1];
      FitnessAndCost(t, d, maxLoad, front);
      assert forall k :: 0 <= k < |front| ==> front[k] == rs[k];
    }
  }

  // ---------------------------------------------------------------------
  // Depot operations on routes

  /** getCustomerById from vehicle k on: the first entry with the id in the
      first vehicle that has one. */
  function FindById(rs: seq<seq<Customer>>, id: nat, k: nat): Option<Customer>
    decreases |rs| - k
  {
    if k >= |rs| then None
    else if HasId(rs[k], id) then Some(rs[k][FirstIndexOf(rs[k], id)])
    else FindById(rs, id, k + 1)
  }

  /** The lookup finds something exactly when some route from k on holds
      the id, and what it finds carries that id and sits on such a route. */
  lemma {:induction false} FindByIdSpec(rs: seq<seq<Customer>>, id: nat, k: nat)
    ensures FindById(rs, id, k).Some? <==> exists j :: k <= j < |rs| && HasId(rs[j], id)
    ensures FindById(rs, id, k).Some? ==>
      FindById(rs, id, k).value.id == id && exists j :: k <= j < |rs| && FindById(rs, id, k).value in rs[j]
    decreases |rs| - k
  {
    if k < |rs| && !HasId(rs[k], id) {
      FindByIdSpec(rs, id, k + 1);
    }
  }

  /** Depot.removeCustomer from vehicle k on: the first vehicle holding the
      id loses its first entry with that id. */
  function RemoveFirst(rs: seq<seq<Customer>>, id: nat, k: nat): seq<seq<Customer>>
    decreases |rs| - k
  {
    if k >= |rs| then rs
    else if HasId(rs[k], id) then rs[k := RemoveAt(rs[k], FirstIndexOf(rs[k], id))]
    else RemoveFirst(rs, id, k + 1)
  }

  /** Removal takes exactly one copy of the id out when some route from k on
      holds it, and changes nothing otherwise. */
  lemma {:induction false} RemoveFirstIds(t: Table, rs: seq<seq<Customer>>, id: nat, k: nat)
    requires AllInTable(t, rs)
    ensures |RemoveFirst(rs, id, k)| == |rs| && AllInTable(t, RemoveFirst(rs, id, k))
    ensures (exists j :: k <= j < |rs| && HasId(rs[j], id)) ==>
      id in AllIds(rs) && AllIds(RemoveFirst(rs, id, k)) == AllIds(rs) - multiset{id}
    decreases |rs| - k
  {
    if k < |rs| {
      if HasId(rs[k], id) {
        UnplaceIds(t, rs, k, FirstIndexOf(rs[k], id));
      } else {
        RemoveFirstIds(t, rs, id, k + 1);
      }
    }
  }

  /** When no route from k on holds the id, removal changes nothing. */
  lemma {:induction false} RemoveFirstMissing(rs: seq<seq<Customer>>, id: nat, k: nat)
    requires forall j :: k <= j < |rs| ==> !HasId(rs[j], id)
    ensures RemoveFirst(rs, id, k) == rs
    decreases |rs| - k
  {
    if k < |rs| {
      RemoveFirstMissing(rs, id, k + 1);
    }
  }

  /** bestCostInsertions for one customer: c goes where the chosen option says. */
  function InsertOne(t: Table, d: nat, maxLoad: real, rs: seq<seq<Customer>>, c: Customer, greedy: bool, pick: nat): seq<seq<Customer>>
    requires t.Valid() && d < t.numDepots && AllInTable(t, rs) && c.id < t.numCustomers && pick < |rs|
  {
    var ps := PlacementsFor(t, d, maxLoad, rs, c);
    var o := InsertChoice(ps, greedy, pick);
    InsertChoiceIsOption(ps, greedy, pick);
    PlaceExact(t, d, maxLoad, rs, c, o.vehicle);
    rs[o.vehicle := Insert(rs[o.vehicle], o.index, c)]
  }

  lemma InsertChoiceIsOption(ps: seq<Placement>, greedy: bool, pick: nat)
    requires pick < |ps|
    ensures var o := InsertChoice(ps, greedy, pick); o.vehicle < |ps| && o == OptionOf(ps, o.vehicle)
    ensures !greedy ==> InsertChoice(ps, greedy, pick) == OptionOf(ps, pick)
  {
    if greedy {
      InsertChoiceIsBest(ps, pick);
    } else {
      OptionsAll(ps, |ps|);
    }
  }

  /** One insertion keeps the routes in the table and adds c's id once. */
  lemma InsertOneIds(t: Table, d: nat, maxLoad: real, rs: seq<seq<Customer>>, c: Customer, greedy: bool, pick: nat)
    requires t.Valid() && d < t.numDepots && AllInTable(t, rs) && c.id < t.numCustomers && pick < |rs|
    ensures |InsertOne(t, d, maxLoad, rs, c, greedy, pick)| == |rs|
    ensures AllInTable(t, InsertOne(t, d, maxLoad, rs, c, greedy, pick))
    ensures AllIds(InsertOne(t, d, maxLoad, rs, c, greedy, pick)) == AllIds(rs) + multiset{c.id}
  {
    var ps := PlacementsFor(t, d, maxLoad, rs, c);
    InsertChoiceIsOption(ps, greedy, pick);
    PlaceExact(t, d, maxLoad, rs, c, InsertChoice(ps, greedy, pick).vehicle);
  }

  /** bestCostInsertions: the customers one after another, each with its own
      coin and random index. */
  function InsertAll(t: Table, d: nat, maxLoad: real, rs: seq<seq<Customer>>, cs: seq<Customer>,
                     greedy: seq<bool>, picks: seq<nat>): seq<seq<Customer>>
    requires t.Valid() && d < t.numDepots && AllInTable(t, rs) && InTable(t, cs)
    requires |greedy| == |picks| == |cs| && forall k :: 0 <= k < |picks| ==> picks[k] < |rs|
    decreases |cs|
  {
    if cs == [] then rs
    else
      var rs1 := InsertOne(t, d, maxLoad, rs, cs[0], greedy[0], picks[0]);
      InsertOneIds(t, d, maxLoad, rs, cs[0], greedy[0], picks[0]);
      InsertAll(t, d, maxLoad, rs1, cs[1..], greedy[1..], picks[1..])
  }

  /** Inserting a list adds exactly its ids. */
  lemma {:induction false} InsertAllIds(t: Table, d: nat, maxLoad: real, rs: seq<seq<Customer>>, cs: seq<Customer>,
                                       greedy: seq<bool>, picks: seq<nat>)
    requires t.Valid() && d < t.numDepots && AllInTable(t, rs) && InTable(t, cs)
    requires |greedy| == |picks| == |cs| && forall k :: 0 <= k < |picks| ==> picks[k] < |rs|
    ensures |InsertAll(t, d, maxLoad, rs, cs, greedy, picks)| == |rs|
    ensures AllInTable(t, InsertAll(t, d, maxLoad, rs, cs, greedy, picks))
    ensures AllIds(InsertAll(t, d, maxLoad, rs, cs, greedy, picks)) == AllIds(rs) + multiset(Ids(cs))
    decreases |cs|
  {
    if cs != [] {
      InsertOneIds(t, d, maxLoad, rs, cs[0], greedy[0], picks[0]);
      var rs1 := InsertOne(t, d, maxLoad, rs, cs[0], greedy[0], picks[0]);
      assert forall k :: 0 <= k < |picks[1..]| ==> picks[1..][k] < |rs1|;
      assert InsertAll(t, d, maxLoad, rs, cs, greedy, picks) == InsertAll(t, d, maxLoad, rs1, cs[1..], greedy[1..], picks[1..]);
      InsertAllIds(t, d, maxLoad, rs1, cs[1..], greedy[1..], picks[1..]);
      IdsCons(cs);
    }
  }

  lemma IdsCons(cs: seq<Customer>)
    requires cs != []
    ensures multiset(Ids(cs)) == multiset{cs[0].id} + multiset(Ids(cs[1..]))
  {
    assert Ids(cs) == [cs[0].id] + Ids(cs[1..]);
  }

  /** customerReroute: the customer at position ci of route v comes out (by
      id: the first entry with its id) and goes back in at the best
      insertion of the vehicle the pairwise comparison settles on. */
  function Reroute(t: Table, d: nat, maxLoad: real, rs: seq<seq<Customer>>, v: nat, ci: nat): seq<seq<Customer>>
    requires t.Valid() && d < t.numDepots && AllInTable(t, rs) && 1 <= |rs| && v < |rs|
    requires |rs[v]| == 0 || ci < |rs[v]|
  {
    if |rs[v]| == 0 then rs
    else
      var c := rs[v][ci];
      assert HasId(rs[v], c.id);
      var rs1 := rs[v := RemoveAt(rs[v], FirstIndexOf(rs[v], c.id))];
      UnplaceIds(t, rs, v, FirstIndexOf(rs[v], c.id));
      var ps := PlacementsFor(t, d, maxLoad, rs1, c);
      var b := RerouteScan(ps, |ps|);
      PlaceExact(t, d, maxLoad, rs1, c, b);
      rs1[b := Insert(rs1[b], ps[b].index, c)]
  }

  /** A reroute moves one customer: the ids, and so their number, stay the
      same. */
  lemma RerouteIds(t: Table, d: nat, maxLoad: real, rs: seq<seq<Customer>>, v: nat, ci: nat)
    requires t.Valid() && d < t.numDepots && AllInTable(t, rs) && 1 <= |rs| && v < |rs|
    requires |rs[v]| == 0 || ci < |rs[v]|
    ensures |Reroute(t, d, maxLoad, rs, v, ci)| == |rs|
    ensures AllInTable(t, Reroute(t, d, maxLoad, rs, v, ci))
    ensures AllIds(Reroute(t, d, maxLoad, rs, v, ci)) == AllIds(rs)
  {
    if |rs[v]| > 0 {
      var c := rs[v][ci];
      assert HasId(rs[v], c.id);
      var i := FirstIndexOf(rs[v], c.id);
      var rs1 := rs[v := RemoveAt(rs[v], i)];
      UnplaceIds(t, rs, v, i);
      var ps := PlacementsFor(t, d, maxLoad, rs1, c);
      PlaceExact(t, d, maxLoad, rs1, c, RerouteScan(ps, |ps|));
    }
  }

  // ---------------------------------------------------------------------
  // The depot fitness cache as written

  /** A depot's routes together with its fitness cache. */
  datatype Cache = Cache(routes: seq<seq<Customer>>, updated: bool, fitness: real)

  /** getFitness as written: the answer, and the depot after the call. The
      cache is refreshed only while the flag is set. */
  function CachedFitness(t: Table, d: nat, maxLoad: real, c: Cache): (r: (real, Cache))
    requires t.Valid() && d < t.numDepots && AllInTable(t, c.routes)
    ensures r.1.routes == c.routes && !r.1.updated
    ensures c.updated ==> r.0 == RoutesFitness(t, d, maxLoad, c.routes)
    ensures !c.updated ==> r.0 == c.fitness
  {
    if c.updated then
      var f := RoutesFitness(t, d, maxLoad, c.routes);
      (f, Cache(c.routes, false, f))
    else (c.fitness, c)
  }

  /** removeCustomer as written: the routes lose the customer and the flag
      keeps its value, since no operation of the depot calls setUpdated. */
  function CachedRemove(c: Cache, id: nat): (r: Cache)
    ensures r.updated == c.updated && r.fitness == c.fitness
  {
    c.(routes := RemoveFirst(c.routes, id, 0))
  }

  /** On the small instance one route [c0, c1] costs 3 and fits the
      capacity 10. After getFitness, removing c1 leaves a route of cost 2,
      yet getFitness as written still answers 3. */
  lemma StaleDepotFitness()
    ensures var c0, c1 := Customer(0, 5.0), Customer(1, 5.0);
      var t := SmallInstance();
      && CachedFitness(t, 0, 10.0, Cache([[c0, c1]], true, 0.0)) == (3.0, Cache([[c0, c1]], false, 3.0))
      && CachedRemove(Cache([[c0, c1]], false, 3.0), 1) == Cache([[c0]], false, 3.0)
      && CachedFitness(t, 0, 10.0, Cache([[c0]], false, 3.0)).0 == 3.0
      && RoutesFitness(t, 0, 10.0, [[c0]]) == 2.0
  {
    var c0, c1 := Customer(0, 5.0), Customer(1, 5.0);
    var t := SmallInstance();
    assert SumDemand([c0, c1]) == 10.0 by {
      assert [c0, c1][1..] == [c1];
      SumDemandSingle(c1);
    }
    assert SumDemand([c0]) == 5.0 by { SumDemandSingle(c0); }
    assert PathCost(t, [c0, c1]) == 1.0 by { assert [c0, c1][..1] == [c0]; }
    assert [[c0, c1]][..0] == [] && [[c0]][..0] == [];
    assert HasId([c0, c1], 1) by { assert [c0, c1][1].id == 1; }
    assert FirstIndexOf([c0, c1], 1) == 1;
    assert RemoveAt([c0, c1], 1) == [c0];
    assert RouteCost(t, 0, [c0, c1]) == 3.0;
    assert RoutesFitness(t, 0, 10.0, [[c0, c1]]) == 3.0;
    assert RemoveFirst([[c0, c1]], 1, 0) == [[c0]];
    assert RoutesFitness(t, 0, 10.0, [[c0]]) == 2.0;
  }
}
