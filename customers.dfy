/** A customer: its id (0-based, also its index in the instance) and its demand. */
module Customers {
  datatype Customer = Customer(id: nat, demand: real)

  /** The ids of a list of customers, in order. */
  function Ids(cs: seq<Customer>): (r: seq<nat>)
    ensures |r| == |cs|
    ensures forall k :: 0 <= k < |cs| ==> r[k] == cs[k].id
  {
    seq(|cs|, k requires 0 <= k < |cs| => cs[k].id)
  }

  /** Whether some customer of the list has the given id. */
  predicate HasId(cs: seq<Customer>, id: nat) {
    exists k :: 0 <= k < |cs| && cs[k].id == id
  }

  /** No id occurs twice in the list. */
  predicate DistinctIds(cs: seq<Customer>) {
    forall i, j :: 0 <= i < j < |cs| ==> cs[i].id != cs[j].id
  }
}
