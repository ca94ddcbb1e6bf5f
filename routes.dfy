/** Pure functions over one route (the ordered customers of a vehicle of
    depot d): load, cost, the marginal cost of inserting a customer at a
    position, and the best-position scan that Vehicle.bestInsertion runs. */
module Routes {
  import opened Customers
  import opened Problem
  import opened Parameters

  /** Every customer of the route is a customer of the table. */
  predicate InTable(t: Table, r: seq<Customer>) {
    forall k :: 0 <= k < |r| ==> r[k].id < t.numCustomers
  }

  /** r with c placed at index i and the tail shifted right. */
  function Insert(r: seq<Customer>, i: nat, c: Customer): (s: seq<Customer>)
    requires i <= |r|
    ensures |s| == |r| + 1 && s[i] == c
    ensures forall k :: 0 <= k < i ==> s[k] == r[k]
    ensures forall k :: i < k <= |r| ==> s[k] == r[k - 1]
  {
    r[..i] + [c] + r[i..]
  }

  /** r without its entry at index i. */
  function RemoveAt(r: seq<Customer>, i: nat): (s: seq<Customer>)
    requires i < |r|
    ensures |s| == |r| - 1
    ensures forall k :: 0 <= k < i ==> s[k] == r[k]
    ensures forall k :: i <= k < |s| ==> s[k] == r[k + 1]
  {
    r[..i] + r[i + 1..]
  }

  /** The index of the first customer of r with the given id. */
  function FirstIndexOf(r: seq<Customer>, id: nat): (k: nat)
    requires HasId(r, id)
    ensures k < |r| && r[k].id == id
    ensures forall j :: 0 <= j < k ==> r[j].id != id
  {
    if r[0].id == id then 0
    else
      assert HasId(r[1..], id) by {
        var k :| 0 <= k < |r| && r[k].id == id;
        assert r[1..][k - 1].id == id;
      }
      1 + FirstIndexOf(r[1..], id)
  }

  /** Sum of the demands of the route. */
  function SumDemand(r: seq<Customer>): real {
    if r == [] then 0.0 else r[0].demand + SumDemand(r[1..])
  }

  lemma {:induction false} SumDemandConcat(a: seq<Customer>, b: seq<Customer>)
    ensures SumDemand(a + b) == SumDemand(a) + SumDemand(b)
  {
    if a != [] {
      assert (a + b)[0] == a[0];
      assert (a + b)[1..] == a[1..] + b;
      SumDemandConcat(a[1..], b);
    } else {
      assert a + b == b;
    }
  }

  lemma SumDemandSingle(c: Customer)
    ensures SumDemand([c]) == c.demand
  {
    assert [c][1..] == [];
  }

  lemma {:induction false} SumDemandInsert(r: seq<Customer>, i: nat, c: Customer)
    requires i <= |r|
    ensures SumDemand(Insert(r, i, c)) == SumDemand(r) + c.demand
  {
    var s := Insert(r, i, c);
    if i == 0 {
      assert s[1..] == r;
    } else {
      assert s[1..] == Insert(r[1..], i - 1, c);
      SumDemandInsert(r[1..], i - 1, c);
    }
  }

  lemma {:induction false} SumDemandRemove(r: seq<Customer>, i: nat)
    requires i < |r|
    ensures SumDemand(RemoveAt(r, i)) == SumDemand(r) - r[i].demand
  {
    var s := RemoveAt(r, i);
    if i == 0 {
      assert s == r[1..];
    } else {
      assert s[1..] == RemoveAt(r[1..], i - 1);
      SumDemandRemove(r[1..], i - 1);
    }
  }

  lemma IdsInsert(r: seq<Customer>, i: nat, c: Customer)
    requires i <= |r|
    ensures multiset(Ids(Insert(r, i, c))) == multiset(Ids(r)) + multiset{c.id}
  {
    assert Ids(Insert(r, i, c)) == Ids(r[..i]) + [c.id] + Ids(r[i..]);
    assert Ids(r) == Ids(r[..i]) + Ids(r[i..]);
  }

  lemma IdsRemove(r: seq<Customer>, i: nat)
    requires i < |r|
    ensures multiset(Ids(RemoveAt(r, i))) == multiset(Ids(r)) - multiset{r[i].id}
  {
    assert Ids(RemoveAt(r, i)) == Ids(r[..i]) + Ids(r[i + 1..]);
    assert Ids(r) == Ids(r[..i]) + [r[i].id] + Ids(r[i + 1..]);
  }

  /** Sum of the customer-to-customer legs of the route, first to last. */
  function PathCost(t: Table, r: seq<Customer>): real
    requires t.Valid() && InTable(t, r)
  {
    if |r| <= 1 then 0.0 else PathCost(t, r[..|r| - 1]) + t.C2C(r[|r| - 2].id, r[|r| - 1].id)
  }

  /** updateRouteCost: 0 for an empty route, twice the depot distance for a
      single customer, otherwise depot to first, the legs, and last to depot. */
  function RouteCost(t: Table, d: nat, r: seq<Customer>): real
    requires t.Valid() && d < t.numDepots && InTable(t, r)
  {
    if |r| == 0 then 0.0
    else if |r| == 1 then 2.0 * t.D2C(d, r[0].id)
    else t.D2C(d, r[0].id) + PathCost(t, r) + t.D2C(d, r[|r| - 1].id)
  }

  lemma InTableConcat(t: Table, a: seq<Customer>, b: seq<Customer>)
    requires InTable(t, a) && InTable(t, b)
    ensures InTable(t, a + b)
  {
    assert forall k :: 0 <= k < |a + b| ==> (a + b)[k] == if k < |a| then a[k] else b[k - |a|];
  }

  /** Joining two non-empty routes adds exactly the leg between them. */
  lemma {:induction false} PathConcat(t: Table, a: seq<Customer>, b: seq<Customer>)
    requires t.Valid() && InTable(t, a) && InTable(t, b) && a != [] && b != []
    ensures InTable(t, a + b)
    ensures PathCost(t, a + b) == PathCost(t, a) + t.C2C(a[|a| - 1].id, b[0].id) + PathCost(t, b)
  {
    InTableConcat(t, a, b);
    var ab := a + b;
    if |b| == 1 {
      assert ab[..|ab| - 1] == a;
      assert ab[|ab| - 2] == a[|a| - 1] && ab[|ab| - 1] == b[0];
    } else {
      var b' := b[..|b| - 1];
      assert ab[..|ab| - 1] == a + b';
      PathConcat(t, a, b');
      var join := t.C2C(a[|a| - 1].id, b[0].id);
      var leg := t.C2C(b[|b| - 2].id, b[|b| - 1].id);
      assert b'[0] == b[0];
      assert ab[|ab| - 2] == b[|b| - 2] && ab[|ab| - 1] == b[|b| - 1];
      assert PathCost(t, a + b') == PathCost(t, a) + join + PathCost(t, b');
      assert PathCost(t, ab) == PathCost(t, a + b') + leg;
      assert PathCost(t, b) == PathCost(t, b') + leg;
    }
  }

  /** Every non-empty route costs depot to first, plus its legs, plus last to depot. */
  lemma RouteCostNonEmpty(t: Table, d: nat, r: seq<Customer>)
    requires t.Valid() && d < t.numDepots && InTable(t, r) && r != []
    ensures RouteCost(t, d, r) == t.D2C(d, r[0].id) + PathCost(t, r) + t.D2C(d, r[|r| - 1].id)
  {
  }

  /** The change in route cost bestInsertion computes for placing c at
      index i of the non-empty route r. */
  function InsertionDelta(t: Table, d: nat, r: seq<Customer>, c: Customer, i: nat): real
    requires t.Valid() && d < t.numDepots && InTable(t, r) && c.id < t.numCustomers
    requires 1 <= |r| && i <= |r|
  {
    if i == 0 then
      t.D2C(d, c.id) + t.C2C(c.id, r[0].id) - t.D2C(d, r[0].id)
    else if i < |r| then
      t.C2C(r[i - 1].id, c.id) + t.C2C(c.id, r[i].id) - t.C2C(r[i - 1].id, r[i].id)
    else
      t.C2C(r[|r| - 1].id, c.id) + t.D2C(d, c.id) - t.D2C(d, r[|r| - 1].id)
  }

  lemma InsertFrontExact(t: Table, d: nat, r: seq<Customer>, c: Customer)
    requires t.Valid() && d < t.numDepots && InTable(t, r) && c.id < t.numCustomers && 1 <= |r|
    ensures InTable(t, [c] + r)
    ensures RouteCost(t, d, [c] + r) == RouteCost(t, d, r) + InsertionDelta(t, d, r, c, 0)
  {
    PathConcat(t, [c], r);
    RouteCostNonEmpty(t, d, r);
    RouteCostNonEmpty(t, d, [c] + r);
  }

  lemma InsertMiddleExact(t: Table, d: nat, r: seq<Customer>, c: Customer, i: nat)
    requires t.Valid() && d < t.numDepots && InTable(t, r) && c.id < t.numCustomers && 0 < i < |r|
    ensures InTable(t, (r[..i] + [c]) + r[i..])
    ensures RouteCost(t, d, (r[..i] + [c]) + r[i..]) == RouteCost(t, d, r) + InsertionDelta(t, d, r, c, i)
  {
    var a, b := r[..i], r[i..];
    assert r == a + b;
    PathConcat(t, a, [c]);
    PathConcat(t, a + [c], b);
    PathConcat(t, a, b);
    var s := (a + [c]) + b;
    RouteCostNonEmpty(t, d, r);
    RouteCostNonEmpty(t, d, s);
    assert s[0] == r[0] && s[|s| - 1] == r[|r| - 1];
  }

  lemma InsertBackExact(t: Table, d: nat, r: seq<Customer>, c: Customer)
    requires t.Valid() && d < t.numDepots && InTable(t, r) && c.id < t.numCustomers && 1 <= |r|
    ensures InTable(t, r + [c])
    ensures RouteCost(t, d, r + [c]) == RouteCost(t, d, r) + InsertionDelta(t, d, r, c, |r|)
  {
    PathConcat(t, r, [c]);
    RouteCostNonEmpty(t, d, r);
    RouteCostNonEmpty(t, d, r + [c]);
  }

  /** The delta of every position is exact: it is the difference between the
      cost of the route with c inserted there and the cost of the route. */
  lemma InsertionDeltaExact(t: Table, d: nat, r: seq<Customer>, c: Customer, i: nat)
    requires t.Valid() && d < t.numDepots && InTable(t, r) && c.id < t.numCustomers
    requires 1 <= |r| && i <= |r|
    ensures InTable(t, Insert(r, i, c))
    ensures RouteCost(t, d, Insert(r, i, c)) == RouteCost(t, d, r) + InsertionDelta(t, d, r, c, i)
  {
    if i == 0 {
      assert Insert(r, i, c) == [c] + r;
      InsertFrontExact(t, d, r, c);
    } else if i < |r| {
      assert Insert(r, i, c) == (r[..i] + [c]) + r[i..];
      InsertMiddleExact(t, d, r, c, i);
    } else {
      assert Insert(r, i, c) == r + [c];
      InsertBackExact(t, d, r, c);
    }
  }

  /** A position considered for insertion and the change in cost it brings. */
  datatype Candidate = Candidate(index: nat, delta: real)

  /** The scan of bestInsertion over positions 0..n-1: the earliest position
      of least delta, a later one winning only when strictly lower. */
  function ScanPositions(t: Table, d: nat, r: seq<Customer>, c: Customer, n: nat): Candidate
    requires t.Valid() && d < t.numDepots && InTable(t, r) && c.id < t.numCustomers
    requires 1 <= n <= |r|
  {
    if n == 1 then Candidate(0, InsertionDelta(t, d, r, c, 0))
    else
      var best := ScanPositions(t, d, r, c, n - 1);
      var curr := InsertionDelta(t, d, r, c, n - 1);
      if curr < best.delta then Candidate(n - 1, curr) else best
  }

  /** bestInsertion's choice. On an empty route: index 0 at twice the depot
      distance. Otherwise the scan over 0..|r|-1, then the append position,
      which is only looked at when the route has two customers or more. */
  function BestInsertion(t: Table, d: nat, r: seq<Customer>, c: Customer): Candidate
    requires t.Valid() && d < t.numDepots && InTable(t, r) && c.id < t.numCustomers
  {
    if |r| == 0 then Candidate(0, 2.0 * t.D2C(d, c.id))
    else
      var best := ScanPositions(t, d, r, c, |r|);
      if |r| > 1 && InsertionDelta(t, d, r, c, |r|) < best.delta then Candidate(|r|, InsertionDelta(t, d, r, c, |r|))
      else best
  }

  /** The positions bestInsertion examines on a non-empty route. */
  predicate Examined(r: seq<Customer>, j: nat) {
    if |r| == 1 then j == 0 else j <= |r|
  }

  lemma {:induction false} ScanPositionsIsMin(t: Table, d: nat, r: seq<Customer>, c: Customer, n: nat)
    requires t.Valid() && d < t.numDepots && InTable(t, r) && c.id < t.numCustomers
    requires 1 <= n <= |r|
    ensures var b := ScanPositions(t, d, r, c, n);
      && b.index < n && b.delta == InsertionDelta(t, d, r, c, b.index)
      && (forall j :: 0 <= j < n ==> b.delta <= InsertionDelta(t, d, r, c, j))
      && (forall j :: 0 <= j < b.index ==> b.delta < InsertionDelta(t, d, r, c, j))
  {
    if n > 1 {
      ScanPositionsIsMin(t, d, r, c, n - 1);
    }
  }

  /** On a non-empty route bestInsertion returns an examined index whose
      delta is that index's delta, is no more than every examined position's,
      and is strictly less than every earlier examined position's. */
  lemma BestInsertionIsMin(t: Table, d: nat, r: seq<Customer>, c: Customer)
    requires t.Valid() && d < t.numDepots && InTable(t, r) && c.id < t.numCustomers
    requires |r| >= 1
    ensures var b := BestInsertion(t, d, r, c);
      && Examined(r, b.index) && b.delta == InsertionDelta(t, d, r, c, b.index)
      && (forall j :: 0 <= j <= |r| && Examined(r, j) ==> b.delta <= InsertionDelta(t, d, r, c, j))
      && (forall j :: 0 <= j < b.index ==> b.delta < InsertionDelta(t, d, r, c, j))
  {
    ScanPositionsIsMin(t, d, r, c, |r|);
  }

  /** Inserting at the chosen index changes the route cost by exactly the
      returned delta, on an empty route too. */
  lemma BestInsertionExact(t: Table, d: nat, r: seq<Customer>, c: Customer)
    requires t.Valid() && d < t.numDepots && InTable(t, r) && c.id < t.numCustomers
    ensures BestInsertion(t, d, r, c).index <= |r|
    ensures InTable(t, Insert(r, BestInsertion(t, d, r, c).index, c))
    ensures RouteCost(t, d, Insert(r, BestInsertion(t, d, r, c).index, c))
            == RouteCost(t, d, r) + BestInsertion(t, d, r, c).delta
  {
    if |r| == 0 {
      assert Insert(r, 0, c) == [c];
    } else {
      BestInsertionIsMin(t, d, r, c);
      InsertionDeltaExact(t, d, r, c, BestInsertion(t, d, r, c).index);
    }
  }

  /** getPenalty: PENALTY_DEMAND times the excess load, never below 0. */
  function Penalty(load: real, maxLoad: real): (p: real)
    ensures p >= 0.0
    ensures p == 0.0 <==> load <= maxLoad
  {
    if PENALTY_DEMAND * (load - maxLoad) > 0.0 then PENALTY_DEMAND * (load - maxLoad) else 0.0
  }
}
