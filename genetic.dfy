/** The genetic algorithm (GeneticAlgorithm.java): a population of
    chromosomes and the parents of the next generation, the operators of
    one generation (reset, elitism, tournament selection, crossover and
    mutation), and the invariant they keep: every chromosome holds every
    customer of the instance exactly once. Every random draw of the source
    is a parameter; `random.nextInt(n)` becomes an arbitrary draw taken
    modulo n. */
module Genetic {
  import opened Customers
  import opened Problem
  import opened Routes
  import opened DepotSpec
  import opened ChromosomeSpec
  import opened Chromosomes
  import opened GeneticSpec
  import opened Parameters
  import opened Wrappers

  /** The draws of one crossover: the depot, a vehicle of each parent, and
      for each child the INSERT_BEST coin and the random vehicle that
      bestCostInsertions draws for its j-th customer. */
  datatype Crossing = Crossing(depot: nat, vehicle1: nat, vehicle2: nat,
                               coins1: nat -> bool, picks1: nat -> nat,
                               coins2: nat -> bool, picks2: nat -> nat)

  /** The draws of one mutation: the MUTATION_PROB coin, then the depot,
      the vehicle and the customer position of customerReroute. */
  datatype Mutating = Mutating(happens: bool, depot: nat, vehicle: nat, customer: nat)

  /** The draws of one pair in nextPopulation: the XOVER_PROB coin, the
      crossover, and the mutation of each child. */
  datatype Breeding = Breeding(cross: bool, crossing: Crossing, mutate1: Mutating, mutate2: Mutating)

  /** The draws of one round of tournamentSelection: two parent positions
      and the KEEP_BEST coin. */
  datatype Duel = Duel(first: nat, second: nat, keepBest: bool)

  /** The plan of a child after its mutation: customerReroute with the
      draws of `mu` when its MUTATION_PROB coin comes up. */
  function Mutated(t: Table, m: nat, maxLoad: real, plan: Plan, mu: Mutating): (r: Plan)
    requires Shaped(t, m, plan) && m >= 1 && |plan| >= 1
    ensures Shaped(t, m, r) && Holdings(r) == Holdings(plan)
    ensures !mu.happens ==> r == plan
  {
    if mu.happens then Rerouted(t, m, maxLoad, plan, mu.depot, mu.vehicle, mu.customer) else plan
  }

  /** The plans of the pair after one step of nextPopulation: unchanged
      when the XOVER_PROB coin fails; otherwise the two children of
      crossover at the drawn depot, then each child's mutation. */
  function Bred(t: Table, m: nat, maxLoad: real, plan1: Plan, plan2: Plan, b: Breeding): (r: (Plan, Plan))
    requires Shaped(t, m, plan1) && Shaped(t, m, plan2) && m >= 1 && t.numDepots >= 1
    ensures Shaped(t, m, r.0) && Shaped(t, m, r.1)
  {
    if !b.cross then (plan1, plan2)
    else
      var x := b.crossing;
      var k := x.depot % t.numDepots;
      var child1 := Child(t, m, maxLoad, plan1, plan2, k, x.vehicle2 % m, x.coins1, x.picks1);
      var child2 := Child(t, m, maxLoad, plan2, plan1, k, x.vehicle1 % m, x.coins2, x.picks2);
      (Mutated(t, m, maxLoad, child1, b.mutate1), Mutated(t, m, maxLoad, child2, b.mutate2))
  }

  /** nextPopulation conserves customers pair by pair: when both parents
      hold every customer once, so do both results. */
  lemma BredConserves(t: Table, m: nat, maxLoad: real, plan1: Plan, plan2: Plan, n: nat, b: Breeding)
    requires Shaped(t, m, plan1) && Shaped(t, m, plan2) && m >= 1 && t.numDepots >= 1
    requires Conserved(plan1, n) && Conserved(plan2, n)
    ensures Conserved(Bred(t, m, maxLoad, plan1, plan2, b).0, n)
    ensures Conserved(Bred(t, m, maxLoad, plan1, plan2, b).1, n)
  {
    if b.cross {
      var x := b.crossing;
      var k := x.depot % t.numDepots;
      ChildConserves(t, m, maxLoad, plan1, plan2, n, k, x.vehicle2 % m, x.coins1, x.picks1);
      ChildConserves(t, m, maxLoad, plan2, plan1, n, k, x.vehicle1 % m, x.coins2, x.picks2);
    }
  }

  /** isFeasible of a chromosome. */
  ghost predicate Feasible(c: Chromosome)
    reads c
  {
    PlanFeasible(c.maxLoad, c.plan)
  }

  /** The feasibility of each chromosome, in order. */
  ghost function Flags(cs: seq<Chromosome>): (r: seq<bool>)
    reads set c | c in cs
    ensures |r| == |cs| && forall j :: 0 <= j < |cs| ==> r[j] == Feasible(cs[j])
  {
    seq(|cs|, j requires 0 <= j < |cs| reads set c | c in cs => Feasible(cs[j]))
  }

  /** Every chromosome's routes lie in its instance's table. */
  ghost predicate Scored(cs: seq<Chromosome>)
    reads set c | c in cs
  {
    forall c :: c in cs ==> PlanInTable(c.problem, c.plan)
  }

  /** The fitness never increases along the sequence: the order
      Collections.sort gives under compare, best last. */
  ghost predicate Ranked(cs: seq<Chromosome>)
    reads set c | c in cs
    requires Scored(cs)
  {
    forall i, j :: 0 <= i < j < |cs| ==> cs[i].Fitness() >= cs[j].Fitness()
  }

  /** Every plan can be scored and the scores never increase. */
  ghost predicate SortedByFitness(cs: seq<Chromosome>)
    reads set c | c in cs
  {
    Scored(cs) && Ranked(cs)
  }

  /** Keys that are the fitness of their chromosome and come in
      non-increasing order rank the chromosomes. */
  lemma SortedRanked(xs: seq<(real, Chromosome)>)
    requires SortedDown(xs)
    requires forall x :: x in xs ==> PlanInTable(x.1.problem, x.1.plan) && x.0 == x.1.Fitness()
    ensures SortedByFitness(Values(xs))
  {
    assert forall j :: 0 <= j < |xs| ==> xs[j] in xs;
  }

  /** What feasibleElitism's walk finds among ps. */
  ghost function FeasibleElites(ps: seq<Chromosome>): Option<seq<Chromosome>>
    reads set c | c in ps
  {
    Collect(ps, Flags(ps), |ps|, ELITISM)
  }

  /** The walk finds its elites exactly when ps holds at least ELITISM
      feasible chromosomes, and then ELITISM of them. */
  lemma FeasibleElitesFound(ps: seq<Chromosome>)
    ensures FeasibleElites(ps).Some? <==> CountTrue(Flags(ps), |ps|) >= ELITISM
    ensures FeasibleElites(ps).Some? ==> |FeasibleElites(ps).value| == ELITISM
  {
    CollectSpec(ps, Flags(ps), |ps|, ELITISM);
  }

  /** The feasible elites are feasible members of ps. */
  lemma ElitesAreParents(ps: seq<Chromosome>)
    ensures FeasibleElites(ps).Some? ==>
      forall j :: 0 <= j < |FeasibleElites(ps).value| ==>
        FeasibleElites(ps).value[j] in ps && Feasible(FeasibleElites(ps).value[j])
  {
    var flags := Flags(ps);
    CollectSpec(ps, flags, |ps|, ELITISM);
    if FeasibleElites(ps).Some? {
      var es := FeasibleElites(ps).value;
      forall j | 0 <= j < |es| ensures es[j] in ps && Feasible(es[j]) {
        assert es[j] in es;
        assert FlaggedIn(ps, flags, |ps|, es[j]);
      }
    }
  }

  /** feasibleElitism's walk: from the last entry down, the first ELITISM
      feasible chromosomes; None when the walk runs out first. */
  method Walk(ps: seq<Chromosome>) returns (found: Option<seq<Chromosome>>)
    requires forall j :: 0 <= j < |ps| ==> ps[j].Valid()
    ensures found == FeasibleElites(ps)
  {
    ghost var flags := Flags(ps);
    ghost var all := Collect(ps, flags, |ps|, ELITISM);
    var elites: seq<Chromosome> := [];
    var i: int := |ps| - 1;
    PrependNothing(all);
    while |elites| < ELITISM
      invariant -1 <= i < |ps| && |elites| <= ELITISM
      invariant all == Prepend(elites, Collect(ps, flags, i + 1, ELITISM - |elites|))
      decreases i + 1
    {
      if i < 0 {
        return None;
      }
      var feasible := ps[i].IsFeasible();
      assert feasible == flags[i];
      ghost var found := elites;
      if feasible {
        elites := elites + [ps[i]];
      }
      WalkStep(ps, flags, all, found, elites, i);
      i := i - 1;
    }
    assert elites + [] == elites;
    return Some(elites);
  }

  /** The plans of the chromosomes, in order. */
  ghost function Plans(cs: seq<Chromosome>): (r: seq<Plan>)
    reads set c | c in cs
    ensures |r| == |cs| && forall j :: 0 <= j < |cs| ==> r[j] == cs[j].plan
  {
    seq(|cs|, j requires 0 <= j < |cs| reads set c | c in cs => cs[j].plan)
  }

  /** Every plan holds each of the n customers exactly once. */
  predicate AllConserved(plans: seq<Plan>, n: nat) {
    forall j :: 0 <= j < |plans| ==> Conserved(plans[j], n)
  }

  /** Every chromosome of cs holds each of the n customers exactly once. */
  ghost predicate Intact(cs: seq<Chromosome>, n: nat)
    reads set c | c in cs
  {
    forall c :: c in cs ==> Conserved(c.plan, n)
  }

  /** The elites of intact chromosomes are intact. */
  lemma ElitesIntact(ps: seq<Chromosome>, n: nat)
    requires Intact(ps, n)
    ensures Intact(Elites(ps), n)
  {
    ElitesAt(ps);
    forall c | c in Elites(ps) ensures c in ps {
      var j :| 0 <= j < |Elites(ps)| && Elites(ps)[j] == c;
      assert c == ps[|ps| - 1 - j];
    }
  }

  /** Intact, read position by position over the plans. */
  lemma IntactPlans(cs: seq<Chromosome>, n: nat)
    ensures Intact(cs, n) <==> AllConserved(Plans(cs), n)
  {
    if AllConserved(Plans(cs), n) {
      forall c | c in cs ensures Conserved(c.plan, n) {
        var j :| 0 <= j < |cs| && cs[j] == c;
        assert Plans(cs)[j] == c.plan;
      }
    }
  }

  /** Every plan has the shape of the instance. */
  predicate AllShaped(t: Table, m: nat, plans: seq<Plan>) {
    forall j :: 0 <= j < |plans| ==> Shaped(t, m, plans[j])
  }

  /** Replacing the plans at i and i + 1 by shaped plans keeps them shaped. */
  lemma AllShapedPair(t: Table, m: nat, plans: seq<Plan>, i: nat, a: Plan, b: Plan)
    requires AllShaped(t, m, plans) && i + 1 < |plans| && Shaped(t, m, a) && Shaped(t, m, b)
    ensures AllShaped(t, m, plans[i := a][i + 1 := b])
  {
  }

  /** Replacing the plans at i and i + 1 by conserved plans keeps them
      conserved. */
  lemma AllConservedPair(plans: seq<Plan>, n: nat, i: nat, a: Plan, b: Plan)
    requires AllConserved(plans, n) && i + 1 < |plans| && Conserved(a, n) && Conserved(b, n)
    ensures AllConserved(plans[i := a][i + 1 := b], n)
  {
  }

  /** The loop of nextPopulation from pair p on: the pair at positions
      ELITISM + 2p and ELITISM + 2p + 1 is bred with the draws bs[p], then
      the next pair. */
  function Breed(t: Table, m: nat, maxLoad: real, plans: seq<Plan>, bs: seq<Breeding>, p: nat): (r: seq<Plan>)
    requires AllShaped(t, m, plans) && m >= 1 && t.numDepots >= 1 && ELITISM + 2 * |bs| <= |plans|
    ensures |r| == |plans| && AllShaped(t, m, r)
    decreases |bs| - p
  {
    if p >= |bs| then plans
    else
      var i := ELITISM + 2 * p;
      var pair := Bred(t, m, maxLoad, plans[i], plans[i + 1], bs[p]);
      AllShapedPair(t, m, plans, i, pair.0, pair.1);
      Breed(t, m, maxLoad, plans[i := pair.0][i + 1 := pair.1], bs, p + 1)
  }

  /** nextPopulation conserves customers: when every plan holds every
      customer once, so does every plan it leaves. */
  lemma {:induction false} BreedConserves(t: Table, m: nat, maxLoad: real, plans: seq<Plan>, bs: seq<Breeding>,
                                          p: nat, n: nat)
    requires AllShaped(t, m, plans) && m >= 1 && t.numDepots >= 1 && ELITISM + 2 * |bs| <= |plans|
    requires AllConserved(plans, n)
    ensures AllConserved(Breed(t, m, maxLoad, plans, bs, p), n)
    decreases |bs| - p
  {
    if p < |bs| {
      var i := ELITISM + 2 * p;
      var pair := Bred(t, m, maxLoad, plans[i], plans[i + 1], bs[p]);
      BredConserves(t, m, maxLoad, plans[i], plans[i + 1], n, bs[p]);
      AllShapedPair(t, m, plans, i, pair.0, pair.1);
      AllConservedPair(plans, n, i, pair.0, pair.1);
      BreedConserves(t, m, maxLoad, plans[i := pair.0][i + 1 := pair.1], bs, p + 1, n);
    }
  }

  /** nextPopulation leaves the elites, the first ELITISM plans, alone. */
  lemma {:induction false} BreedKeepsElites(t: Table, m: nat, maxLoad: real, plans: seq<Plan>, bs: seq<Breeding>, p: nat)
    requires AllShaped(t, m, plans) && m >= 1 && t.numDepots >= 1 && ELITISM + 2 * |bs| <= |plans|
    ensures Breed(t, m, maxLoad, plans, bs, p)[..ELITISM] == plans[..ELITISM]
    decreases |bs| - p
  {
    if p < |bs| {
      var i := ELITISM + 2 * p;
      var pair := Bred(t, m, maxLoad, plans[i], plans[i + 1], bs[p]);
      AllShapedPair(t, m, plans, i, pair.0, pair.1);
      BreedKeepsElites(t, m, maxLoad, plans[i := pair.0][i + 1 := pair.1], bs, p + 1);
    }
  }


  /** The elites of ranked parents are at least as fit as every other
      parent. */
  lemma ElitesAreBest(cs: seq<Chromosome>)
    requires SortedByFitness(cs)
    ensures forall j, i :: 0 <= j < |Elites(cs)| && 0 <= i < |cs| - |Elites(cs)| ==> Elites(cs)[j].Fitness() <= cs[i].Fitness()
  {
    ElitesAt(cs);
  }

  /** The elites of ranked parents come best first. */
  lemma ElitesInOrder(cs: seq<Chromosome>)
    requires SortedByFitness(cs)
    ensures forall i, j :: 0 <= i < j < |Elites(cs)| ==> Elites(cs)[i].Fitness() <= Elites(cs)[j].Fitness()
  {
    ElitesAt(cs);
  }

  /** The fitness of each chromosome, in order. */
  ghost function Fitnesses(cs: seq<Chromosome>): (r: seq<real>)
    reads set c | c in cs
    requires Scored(cs)
    ensures |r| == |cs| && forall j :: 0 <= j < |cs| ==> r[j] == cs[j].Fitness()
  {
    seq(|cs|, j requires 0 <= j < |cs| && Scored(cs) reads set c | c in cs => cs[j].Fitness())
  }

  /** fs holds the fitness of each chromosome, in order. */
  ghost predicate ScoredAs(cs: seq<Chromosome>, fs: seq<real>)
    reads set c | c in cs
  {
    && |fs| == |cs|
    && forall j :: 0 <= j < |cs| ==> PlanInTable(cs[j].problem, cs[j].plan) && fs[j] == cs[j].Fitness()
  }

  /** Chromosomes scored by a non-increasing sequence are sorted by
      fitness. */
  lemma RankedAs(cs: seq<Chromosome>, fs: seq<real>)
    requires ScoredAs(cs, fs) && forall i, j :: 0 <= i < j < |fs| ==> fs[i] >= fs[j]
    ensures SortedByFitness(cs)
  {
    ScoredAsFitnesses(cs, fs);
  }

  /** The scores of chromosomes sorted by fitness never increase. */
  lemma SortedScores(cs: seq<Chromosome>, fs: seq<real>)
    requires SortedByFitness(cs) && ScoredAs(cs, fs)
    ensures forall i, j :: 0 <= i < j < |fs| ==> fs[i] >= fs[j]
  {
    ScoredAsFitnesses(cs, fs);
  }

  lemma ScoredAsFitnesses(cs: seq<Chromosome>, fs: seq<real>)
    requires ScoredAs(cs, fs)
    ensures Scored(cs) && fs == Fitnesses(cs)
  {
    forall c | c in cs ensures PlanInTable(c.problem, c.plan) {
      var j :| 0 <= j < |cs| && cs[j] == c;
    }
  }

  /** The position tournamentSelection clones from, given the fitness of
      each parent: the first drawn unless the coin came up and compare
      ranks the second one higher or equal. */
  function PickAt(fs: seq<real>, d: Duel): (i: nat)
    requires |fs| >= 1
    ensures i < |fs| && (i == d.first % |fs| || i == d.second % |fs|)
  {
    if FirstWins(fs[d.first % |fs|], fs[d.second % |fs|], d.keepBest) then d.first % |fs| else d.second % |fs|
  }

  /** The parent tournamentSelection clones for a duel. */
  ghost function Pick(ps: seq<Chromosome>, d: Duel): (c: Chromosome)
    reads set c | c in ps
    requires |ps| >= 1 && Scored(ps)
    ensures c in ps
  {
    ps[PickAt(Fitnesses(ps), d)]
  }

  /** With the KEEP_BEST coin the pick is the fitter of the two drawn
      parents; without it, the first. */
  lemma PickIsFitter(ps: seq<Chromosome>, d: Duel)
    requires |ps| >= 1 && Scored(ps)
    ensures d.keepBest ==> Pick(ps, d).Fitness() <= ps[d.first % |ps|].Fitness()
    ensures d.keepBest ==> Pick(ps, d).Fitness() <= ps[d.second % |ps|].Fitness()
    ensures !d.keepBest ==> Pick(ps, d) == ps[d.first % |ps|]
  {
    KeepBestIsFitter(ps[d.first % |ps|].Fitness(), ps[d.second % |ps|].Fitness());
  }

  /** The fitness of each plan, in order. */
  function PlanFitnesses(t: Table, maxLoad: real, plans: seq<Plan>): (fs: seq<real>)
    requires forall j :: 0 <= j < |plans| ==> PlanInTable(t, plans[j])
    ensures |fs| == |plans| && forall j :: 0 <= j < |plans| ==> fs[j] == PlanFitness(t, maxLoad, plans[j])
  {
    seq(|plans|, j requires 0 <= j < |plans| && PlanInTable(t, plans[j]) => PlanFitness(t, maxLoad, plans[j]))
  }

  /** The plans nextPopulation starts from, given the sorted parents'
      plans: those of the elites, best first, then for each duel the plan
      of the parent tournamentSelection clones for it. */
  function Selection(t: Table, m: nat, maxLoad: real, plans: seq<Plan>, duels: seq<Duel>): (r: seq<Plan>)
    requires |plans| >= 1 && AllShaped(t, m, plans)
    ensures |r| == |Elites(plans)| + |duels| && AllShaped(t, m, r)
    ensures |plans| == POPULATION_SIZE ==> |r| == ELITISM + |duels|
  {
    ElitesAt(plans);
    var fs := PlanFitnesses(t, maxLoad, plans);
    var picked := seq(|duels|, j requires 0 <= j < |duels| => plans[PickAt(fs, duels[j])]);
    var r := Elites(plans) + picked;
    assert AllShaped(t, m, r) by {
      forall j | 0 <= j < |r| ensures Shaped(t, m, r[j]) {
        if j < |Elites(plans)| {
          assert r[j] == plans[|plans| - 1 - j];
        } else {
          assert r[j] == picked[j - |Elites(plans)|];
        }
      }
    }
    r
  }

  /** Selection starts with the elites' plans, and the plan it takes for
      duel j is one of the two drawn: without the KEEP_BEST coin the
      first, with it the one of lower fitness (the second on a tie). */
  lemma SelectionPicks(t: Table, m: nat, maxLoad: real, plans: seq<Plan>, duels: seq<Duel>, j: nat)
    requires |plans| >= 1 && AllShaped(t, m, plans) && j < |duels|
    ensures Selection(t, m, maxLoad, plans, duels)[..|Elites(plans)|] == Elites(plans)
    ensures var fs := PlanFitnesses(t, maxLoad, plans);
            var a, b := duels[j].first % |plans|, duels[j].second % |plans|;
            Selection(t, m, maxLoad, plans, duels)[|Elites(plans)| + j]
              == if !duels[j].keepBest || fs[a] < fs[b] then plans[a] else plans[b]
  {
    var fs := PlanFitnesses(t, maxLoad, plans);
    var a, b := duels[j].first % |plans|, duels[j].second % |plans|;
    KeepBestIsFitter(fs[a], fs[b]);
    assert Selection(t, m, maxLoad, plans, duels)[|Elites(plans)| + j] == plans[PickAt(fs, duels[j])];
  }

  /** A clone holds what its original held. */
  ghost predicate Cloned(clone: Chromosome, original: Chromosome)
    reads clone, original
  {
    clone.plan == original.plan && clone.Lists() == original.Lists()
  }

  class GeneticAlgorithm {
    const problem: MDVRP
    /** The distance table every chromosome of the run shares. */
    ghost const table: Table
    var population: seq<Chromosome>
    var parents: seq<Chromosome>
    /** The chromosomes' footprints. */
    ghost var Repr: set<object>

    /** Every chromosome the algorithm holds. */
    ghost function Pool(): seq<Chromosome>
      reads this
    {
      parents + population
    }

    /** A chromosome of this run's instance. */
    ghost predicate Fits(c: Chromosome) {
      && c.problem == table && c.numDepots == problem.numDepots && c.numCustomers == problem.numCustomers
      && c.maxLoad == problem.maxLoad && c.maxVehicles == problem.maxVehicles
    }

    /** A valid chromosome of this instance inside the footprint. */
    ghost predicate Sound(c: Chromosome, repr: set<object>)
      reads c, c.Repr
    {
      c in repr && c.Repr <= repr && Fits(c) && c.Valid()
    }

    /** Every chromosome is valid and of this instance, and two different
        chromosomes share no object. A chromosome may sit in both lists
        (elitism copies references). */
    ghost predicate Valid()
      reads this, Repr
    {
      && table.Valid() && table.numDepots == problem.numDepots && table.numCustomers == problem.numCustomers
      && this !in Repr && problem.distances !in Repr
      && (forall i {:trigger Sound(parents[i], Repr)} :: 0 <= i < |parents| ==>
            parents[i] in Repr && parents[i].Repr <= Repr && Sound(parents[i], Repr))
      && (forall i {:trigger Sound(population[i], Repr)} :: 0 <= i < |population| ==>
            population[i] in Repr && population[i].Repr <= Repr && Sound(population[i], Repr))
      && (forall c, d :: c in Pool() && d in Pool() && c != d ==> c.Repr !! d.Repr)
    }

    /** A chromosome of the pool is sound. */
    lemma SoundIn(c: Chromosome)
      requires Valid() && c in Pool()
      ensures Sound(c, Repr) && c.Valid() && Fits(c) && c.Repr <= Repr
    {
      if c in parents {
        var i :| 0 <= i < |parents| && parents[i] == c;
        assert Sound(parents[i], Repr);
      } else {
        var i :| 0 <= i < |population| && population[i] == c;
        assert Sound(population[i], Repr);
      }
    }

    constructor (problem: MDVRP)
      requires problem.Valid()
      ensures Valid() && this.problem == problem && table == problem.Snapshot()
      ensures population == [] && parents == [] && Repr == {}
    {
      this.problem := problem;
      table := problem.Snapshot();
      population := [];
      parents := [];
      Repr := {};
    }

    /** When one chromosome changed only its own objects and is valid
        again, the algorithm is valid and no other chromosome changed. */
    twostate lemma Untouched(c: Chromosome)
      requires old(Valid()) && unchanged(this) && c in Pool() && c.Valid()
      requires forall o :: o in old(Repr) && o !in c.Repr ==> unchanged(o)
      ensures Valid()
      ensures forall d :: d in Pool() && d != c ==> d.plan == old(d.plan)
    {
      forall d | d in Pool() ensures old(Sound(d, Repr)) {
        if d in parents {
          var i :| 0 <= i < |parents| && parents[i] == d;
          assert old(Sound(parents[i], Repr));
        } else {
          var i :| 0 <= i < |population| && population[i] == d;
          assert old(Sound(population[i], Repr));
        }
      }
      forall d | d in Pool() ensures Sound(d, Repr) && (d != c ==> d.plan == old(d.plan)) {
        assert old(Sound(d, Repr)) && old(Sound(c, Repr));
        if d != c {
          assert d.Repr !! c.Repr;
          assert forall o :: o in d.Repr ==> unchanged(o);
          assert old(d.Valid());
        }
      }
      assert forall i :: 0 <= i < |parents| ==> parents[i] in Pool();
      assert forall i :: 0 <= i < |population| ==> population[i] in Pool();
    }

    // -------------------------------------------------------------------
    // One chromosome at a time

    /** getFitness of one chromosome; only its cached values change. */
    method Evaluate(c: Chromosome) returns (f: real)
      requires Valid() && c in Pool()
      modifies Repr
      ensures Valid() && c.Valid() && f == c.Fitness()
      ensures forall d :: d in Pool() ==> d.plan == old(d.plan)
    {
      SoundIn(c);
      f := c.GetFitness();
      Untouched(c);
    }

    /** removeCustomers on one chromosome. */
    method RemoveFrom(c: Chromosome, cs: seq<Customer>)
      requires Valid() && c in Pool()
      modifies Repr
      ensures Valid() && c.plan == RemoveAllFromPlan(old(c.plan), cs)
      ensures forall d :: d in Pool() && d != c ==> d.plan == old(d.plan)
    {
      SoundIn(c);
      c.RemoveCustomers(cs);
      Untouched(c);
    }

    /** bestCostInsertions on depot k of one chromosome. */
    method InsertInto(c: Chromosome, k: nat, cs: seq<Customer>, greedy: seq<bool>, picks: seq<nat>)
      requires Valid() && c in Pool() && Sound(c, Repr) && k < problem.numDepots && InTable(table, cs)
      requires |greedy| == |picks| == |cs| && forall j :: 0 <= j < |picks| ==> picks[j] < problem.maxVehicles
      modifies Repr
      ensures Valid()
      ensures c.plan == old(c.plan)[k := InsertAll(table, k, problem.maxLoad, old(c.plan)[k], cs, greedy, picks)]
      ensures forall d :: d in Pool() && d != c ==> d.plan == old(d.plan)
    {
      SoundIn(c);
      c.InsertIntoDepot(k, cs, greedy, picks);
      Untouched(c);
    }

    /** customerReroute on depot k of one chromosome. */
    method RerouteIn(c: Chromosome, k: nat, v: nat, ci: nat)
      requires Valid() && c in Pool() && Sound(c, Repr) && k < problem.numDepots && v < problem.maxVehicles
      requires |c.plan[k][v]| == 0 || ci < |c.plan[k][v]|
      modifies Repr
      ensures Valid()
      ensures c.plan == old(c.plan)[k := Reroute(table, k, problem.maxLoad, old(c.plan)[k], v, ci)]
      ensures forall d :: d in Pool() && d != c ==> d.plan == old(d.plan)
    {
      SoundIn(c);
      c.RerouteInDepot(k, v, ci);
      Untouched(c);
    }

    /** scheduleRoutes of one chromosome. */
    method ScheduleOne(c: Chromosome, lengthOk: (nat, seq<Customer>, Customer) -> bool)
      requires Valid() && c in Pool()
      modifies Repr
      ensures Valid() && c.Scheduled(lengthOk) && (c.Clustered() ==> Conserved(c.plan, c.numCustomers))
      ensures forall d :: d in Pool() && d != c ==> d.plan == old(d.plan)
    {
      SoundIn(c);
      c.ScheduleRoutes(lengthOk);
      Untouched(c);
    }

    /** Appends a chromosome that shares no object with the algorithm. */
    method Adopt(c: Chromosome)
      requires Valid() && c.Valid() && Fits(c) && c.Repr !! Repr && this !in c.Repr && problem.distances !in c.Repr
      modifies this
      ensures Valid() && parents == old(parents) && population == old(population) + [c]
      ensures Repr == old(Repr) + c.Repr
    {
      forall d | d in Pool() ensures d.Repr <= Repr {
        SoundIn(d);
      }
      population := population + [c];
      Repr := Repr + c.Repr;
      forall i | 0 <= i < |parents| ensures Sound(parents[i], Repr) {
        assert old(Sound(parents[i], Repr));
      }
      forall i | 0 <= i < |population| ensures Sound(population[i], Repr) {
        if i < |old(population)| {
          assert old(Sound(population[i], Repr));
        }
      }
      assert forall d :: d in Pool() ==> d in old(Pool()) || d == c;
    }

    /** Appends a parent to the population (elitism shares the object). */
    method Promote(c: Chromosome)
      requires Valid() && c in parents
      modifies this
      ensures Valid() && parents == old(parents) && population == old(population) + [c] && Repr == old(Repr)
    {
      SoundIn(c);
      population := population + [c];
      forall i | 0 <= i < |parents| ensures Sound(parents[i], Repr) {
        assert old(Sound(parents[i], Repr));
      }
      forall i | 0 <= i < |population| ensures Sound(population[i], Repr) {
        if i < |old(population)| {
          assert old(Sound(population[i], Repr));
        }
      }
      assert forall d :: d in Pool() ==> d in old(Pool());
    }

    // -------------------------------------------------------------------
    // The run

    /** initPopulation: POPULATION_SIZE new chromosomes join the
        population; the i-th clusters every customer at its closest depot,
        orders each depot's list by shuffles[i] and has no routes yet. */
    method InitPopulation(shuffles: seq<seq<Customer> -> seq<Customer>>)
      requires Valid() && problem.Valid() && table == problem.Snapshot() && problem !in Repr
      requires problem.numDepots >= 1 && problem.maxVehicles >= 1
      requires forall d :: 0 <= d < problem.numDepots ==> Served(problem, d)
      requires |shuffles| == POPULATION_SIZE
      requires forall i, s :: 0 <= i < |shuffles| ==> multiset(shuffles[i](s)) == multiset(s)
      modifies this, problem`swappable, problem`isCalculated
      ensures Valid() && parents == old(parents) && problem.isCalculated
      ensures |population| == |old(population)| + POPULATION_SIZE && population[..|old(population)|] == old(population)
      ensures Newcomers(old(population), shuffles)
      ensures old(Repr) <= Repr && fresh(Repr - old(Repr))
    {
      var i := 0;
      ghost var ps, pop, R := parents, population, Repr;
      assert population[..|pop|] == pop;
      while i < POPULATION_SIZE
        invariant 0 <= i <= POPULATION_SIZE && |population| == |pop| + i
        invariant Valid() && parents == ps && population[..|pop|] == pop
        invariant problem.Valid() && table == problem.Snapshot() && problem !in Repr
        invariant i > 0 ==> problem.isCalculated
        invariant Newcomers(pop, shuffles)
        invariant R <= Repr && fresh(Repr - R)
      {
        InitRound(i, shuffles, pop);
        i := i + 1;
      }
    }

    /** One round of initPopulation: the i-th new chromosome joins. */
    method InitRound(i: nat, shuffles: seq<seq<Customer> -> seq<Customer>>, ghost pop: seq<Chromosome>)
      requires Valid() && problem.Valid() && table == problem.Snapshot() && problem !in Repr
      requires problem.numDepots >= 1 && problem.maxVehicles >= 1
      requires forall d :: 0 <= d < problem.numDepots ==> Served(problem, d)
      requires i < |shuffles| && forall j, s :: 0 <= j < |shuffles| ==> multiset(shuffles[j](s)) == multiset(s)
      requires |population| == |pop| + i && population[..|pop|] == pop && Newcomers(pop, shuffles)
      modifies this, problem`swappable, problem`isCalculated
      ensures Valid() && parents == old(parents) && problem.isCalculated
      ensures problem.Valid() && table == problem.Snapshot() && problem !in Repr
      ensures |population| == |pop| + i + 1 && population[..|pop|] == pop && Newcomers(pop, shuffles)
      ensures old(Repr) <= Repr && fresh(Repr - old(Repr))
    {
      ghost var before := population;
      ghost var plans := Plans(before);
      var c := AddChromosome(shuffles[i]);
      assert population[..|pop|] == before[..|pop|];
      NewcomersAppend(pop, shuffles, before, plans, c);
    }

    /** The members after the first |pop| are what initPopulation made:
        the j-th of them clusters every customer at its closest depot, in
        the order shuffles[j] gives each list, and has no routes yet. */
    ghost predicate Newcomers(pop: seq<Chromosome>, shuffles: seq<seq<Customer> -> seq<Customer>>)
      reads this, set j | 0 <= j < |population| :: population[j]
    {
      && |pop| <= |population| && |population| - |pop| <= |shuffles|
      && forall j :: |pop| <= j < |population| ==>
           && population[j].Clustered() && population[j].Dealt(problem, shuffles[j - |pop|])
           && population[j].plan == EmptyPlan(problem.numDepots, problem.maxVehicles)
    }

    /** One step of initPopulation: new Chromosome(problem) joins the
        population. It clusters every customer at its closest depot,
        orders each list by `shuffle` and has no routes yet; no other
        chromosome changes. */
    method AddChromosome(shuffle: seq<Customer> -> seq<Customer>) returns (c: Chromosome)
      requires Valid() && problem.Valid() && table == problem.Snapshot() && problem !in Repr
      requires problem.numDepots >= 1 && problem.maxVehicles >= 1
      requires forall d :: 0 <= d < problem.numDepots ==> Served(problem, d)
      requires forall s :: multiset(shuffle(s)) == multiset(s)
      modifies this, problem`swappable, problem`isCalculated
      ensures Valid() && parents == old(parents) && problem.isCalculated
      ensures problem.Valid() && table == problem.Snapshot() && problem !in Repr
      ensures population == old(population) + [c] && c !in old(Pool())
      ensures c.Clustered() && c.Dealt(problem, shuffle) && c.plan == EmptyPlan(problem.numDepots, problem.maxVehicles)
      ensures Plans(old(population)) == old(Plans(population))
      ensures old(Repr) <= Repr && fresh(Repr - old(Repr))
    {
      c := new Chromosome(problem, shuffle);
      assert c.plan == EmptyPlan(problem.numDepots, problem.maxVehicles);
      Adopt(c);
    }

    /** Newcomers grows by one new chromosome made with the next shuffle. */
    lemma NewcomersAppend(pop: seq<Chromosome>, shuffles: seq<seq<Customer> -> seq<Customer>>,
                          before: seq<Chromosome>, plans: seq<Plan>, c: Chromosome)
      requires |pop| <= |before| && |before| - |pop| < |shuffles| && population == before + [c]
      requires Plans(before) == plans
      requires forall j :: |pop| <= j < |before| ==>
                 && before[j].Clustered() && before[j].Dealt(problem, shuffles[j - |pop|])
                 && plans[j] == EmptyPlan(problem.numDepots, problem.maxVehicles)
      requires c.Clustered() && c.Dealt(problem, shuffles[|before| - |pop|])
      requires c.plan == EmptyPlan(problem.numDepots, problem.maxVehicles)
      ensures Newcomers(pop, shuffles)
    {
      forall j | |pop| <= j < |population|
        ensures population[j].Clustered() && population[j].Dealt(problem, shuffles[j - |pop|])
        ensures population[j].plan == EmptyPlan(problem.numDepots, problem.maxVehicles)
      {
        if j < |before| {
          assert population[j] == before[j];
          assert plans[j] == before[j].plan;
        } else {
          assert population[j] == c && j - |pop| == |before| - |pop|;
        }
      }
    }

    /** scheduleRoutes: every chromosome lays its depots' lists out as
        routes; one whose depot lists are a clustering then holds each
        customer exactly once. */
    method ScheduleRoutes(lengthOk: (nat, seq<Customer>, Customer) -> bool)
      requires Valid()
      modifies Repr
      ensures Valid() && unchanged(this)
      ensures forall j :: 0 <= j < |population| ==> population[j].Scheduled(lengthOk)
      ensures forall j :: 0 <= j < |population| && population[j].Clustered()
                ==> Conserved(population[j].plan, problem.numCustomers)
    {
      var i := 0;
      while i < |population|
        invariant 0 <= i <= |population| && Valid() && unchanged(this)
        invariant forall j :: 0 <= j < i ==> population[j].Scheduled(lengthOk)
        invariant forall j :: 0 <= j < i && population[j].Clustered()
                    ==> Conserved(population[j].plan, problem.numCustomers)
      {
        ScheduleRoutesAt(i, lengthOk);
        i := i + 1;
      }
    }

    /** One step of scheduleRoutes, at position i. */
    method ScheduleRoutesAt(i: nat, lengthOk: (nat, seq<Customer>, Customer) -> bool)
      requires Valid() && i < |population|
      requires forall j :: 0 <= j < i ==> population[j].Scheduled(lengthOk)
      requires forall j :: 0 <= j < i && population[j].Clustered()
                 ==> Conserved(population[j].plan, problem.numCustomers)
      modifies Repr
      ensures Valid() && unchanged(this)
      ensures forall j :: 0 <= j <= i ==> population[j].Scheduled(lengthOk)
      ensures forall j :: 0 <= j <= i && population[j].Clustered()
                ==> Conserved(population[j].plan, problem.numCustomers)
    {
      ghost var plans := Plans(population);
      assert forall j :: 0 <= j < i ==> population[j].LaidOut(lengthOk, plans[j]);
      assert forall j :: 0 <= j < i && population[j].Clustered() ==> Conserved(plans[j], problem.numCustomers);
      SoundIn(population[i]);
      ScheduleOne(population[i], lengthOk);
      assert forall j :: 0 <= j < |population| ==> population[j] in Pool();
      ScheduledKept(i, lengthOk, plans);
    }

    /** The members before i that are not the one just scheduled kept
        their plans, so they keep their layout and conservation. */
    lemma ScheduledKept(i: nat, lengthOk: (nat, seq<Customer>, Customer) -> bool, plans: seq<Plan>)
      requires i < |population| == |plans|
      requires forall j :: 0 <= j < i ==> population[j].LaidOut(lengthOk, plans[j])
      requires forall j :: 0 <= j < i && population[j].Clustered() ==> Conserved(plans[j], problem.numCustomers)
      requires forall j :: 0 <= j < i && population[j] != population[i] ==> population[j].plan == plans[j]
      requires population[i].Scheduled(lengthOk)
      requires population[i].Clustered() ==> Conserved(population[i].plan, problem.numCustomers)
      ensures forall j :: 0 <= j <= i ==> population[j].Scheduled(lengthOk)
      ensures forall j :: 0 <= j <= i && population[j].Clustered()
                ==> Conserved(population[j].plan, problem.numCustomers)
    {
      forall j | 0 <= j <= i
        ensures population[j].Scheduled(lengthOk)
        ensures population[j].Clustered() ==> Conserved(population[j].plan, problem.numCustomers)
      {
        if population[j] != population[i] {
          assert population[j].plan == plans[j];
        }
      }
    }

    /** main: the initial population, scheduled, then one generation per
        entry of draws. Every chromosome of every generation holds each
        customer exactly once. */
    method Run(shuffles: seq<seq<Customer> -> seq<Customer>>, lengthOk: (nat, seq<Customer>, Customer) -> bool,
               draws: seq<(seq<Duel>, seq<Breeding>)>)
      requires Valid() && population == [] && problem.Valid() && table == problem.Snapshot() && problem !in Repr
      requires problem.numDepots >= 1 && problem.maxVehicles >= 1
      requires forall d :: 0 <= d < problem.numDepots ==> Served(problem, d)
      requires |shuffles| == POPULATION_SIZE
      requires forall i, s :: 0 <= i < |shuffles| ==> multiset(shuffles[i](s)) == multiset(s)
      requires |draws| == GENERATIONS
      requires forall g :: 0 <= g < |draws| ==>
                 |draws[g].0| == POPULATION_SIZE - ELITISM && |draws[g].1| == (POPULATION_SIZE - ELITISM) / 2
      modifies this, problem`swappable, problem`isCalculated, Repr
      ensures Valid() && |population| == POPULATION_SIZE && Intact(population, problem.numCustomers)
    {
      Start(shuffles, lengthOk);
      Evolve(draws);
    }

    /** initPopulation then scheduleRoutes, from an empty population: the
        i-th of the POPULATION_SIZE chromosomes has the clusters ordered by
        shuffles[i], each laid out by scheduleRoutes, and holds each
        customer exactly once. */
    method Start(shuffles: seq<seq<Customer> -> seq<Customer>>, lengthOk: (nat, seq<Customer>, Customer) -> bool)
      requires Valid() && population == [] && problem.Valid() && table == problem.Snapshot() && problem !in Repr
      requires problem.numDepots >= 1 && problem.maxVehicles >= 1
      requires forall d :: 0 <= d < problem.numDepots ==> Served(problem, d)
      requires |shuffles| == POPULATION_SIZE
      requires forall i, s :: 0 <= i < |shuffles| ==> multiset(shuffles[i](s)) == multiset(s)
      modifies this, problem`swappable, problem`isCalculated, Repr
      ensures Valid() && |population| == POPULATION_SIZE && Intact(population, problem.numCustomers)
      ensures forall j :: 0 <= j < |population| ==>
                population[j].Dealt(problem, shuffles[j]) && population[j].Scheduled(lengthOk)
      ensures old(Repr) <= Repr && fresh(Repr - old(Repr))
    {
      InitPopulation(shuffles);
      ScheduleRoutes(lengthOk);
      forall c | c in population ensures Conserved(c.plan, problem.numCustomers) {
        var j :| 0 <= j < |population| && population[j] == c;
      }
    }

    /** The generations of main, one per entry of draws. */
    method Evolve(draws: seq<(seq<Duel>, seq<Breeding>)>)
      requires Valid() && problem.numDepots >= 1 && problem.maxVehicles >= 1
      requires |population| == POPULATION_SIZE && Intact(population, problem.numCustomers)
      requires forall g :: 0 <= g < |draws| ==>
                 |draws[g].0| == POPULATION_SIZE - ELITISM && |draws[g].1| == (POPULATION_SIZE - ELITISM) / 2
      modifies this, Repr
      ensures Valid() && |population| == POPULATION_SIZE && Intact(population, problem.numCustomers)
    {
      var g := 0;
      ghost var R := Repr;
      while g < |draws|
        invariant 0 <= g <= |draws| && Valid() && |population| == POPULATION_SIZE
        invariant Intact(population, problem.numCustomers)
        invariant fresh(Repr - R)
      {
        Generation(draws[g].0, draws[g].1);
        g := g + 1;
      }
    }

    // -------------------------------------------------------------------
    // The operators

    /** resetPopulation: the population becomes the parents and starts
        empty. */
    method ResetPopulation()
      requires Valid()
      modifies this
      ensures Valid() && parents == old(population) && population == [] && Repr == old(Repr)
    {
      parents := population;
      population := [];
      forall i | 0 <= i < |parents| ensures Sound(parents[i], Repr) {
        assert old(Sound(population[i], Repr));
      }
      assert forall d :: d in Pool() ==> d in old(Pool());
    }

    /** Collections.sort(parents): the parents rearranged so that fitness
        never increases, the best last. compare reads each fitness through
        getFitness, which only refreshes cached values. */
    method SortParents()
      requires Valid()
      modifies this, Repr
      ensures Valid() && population == old(population) && Repr == old(Repr)
      ensures multiset(parents) == multiset(old(parents)) && SortedByFitness(parents)
      ensures forall d :: d in old(Pool()) ==> d.plan == old(d.plan)
    {
      var keyed := Keys();
      Reorder(keyed);
    }

    /** Each parent with its fitness. */
    method Keys() returns (keyed: seq<(real, Chromosome)>)
      requires Valid()
      modifies Repr
      ensures Valid() && Values(keyed) == parents
      ensures forall x :: x in keyed ==> x.1 in parents && PlanInTable(x.1.problem, x.1.plan) && x.0 == x.1.Fitness()
      ensures forall d :: d in Pool() ==> d.plan == old(d.plan)
    {
      keyed := [];
      var k := 0;
      while k < |parents|
        invariant 0 <= k <= |parents| && |keyed| == k
        invariant Valid()
        invariant forall d :: d in Pool() ==> d.plan == old(d.plan)
        invariant forall j :: 0 <= j < k ==> Sound(parents[j], Repr) && keyed[j] == (parents[j].Fitness(), parents[j])
      {
        var f := Evaluate(parents[k]);
        assert Sound(parents[k], Repr);
        keyed := keyed + [(f, parents[k])];
        k := k + 1;
      }
    }

    /** The parents in the order of their sorted keys. */
    method Reorder(keyed: seq<(real, Chromosome)>)
      requires Valid() && Values(keyed) == parents
      requires forall x :: x in keyed ==> x.1 in parents && PlanInTable(x.1.problem, x.1.plan) && x.0 == x.1.Fitness()
      modifies this
      ensures Valid() && population == old(population) && Repr == old(Repr)
      ensures multiset(parents) == multiset(old(parents)) && SortedByFitness(parents)
    {
      var sorted := SortDown(keyed);
      SortDownMembers(keyed);
      ValuesSortDown(keyed);
      SortedRanked(sorted);
      Replace(Values(sorted));
    }

    /** The parents replaced by a rearrangement of themselves. */
    method Replace(ps: seq<Chromosome>)
      requires Valid() && multiset(ps) == multiset(parents)
      modifies this
      ensures Valid() && parents == ps && population == old(population) && Repr == old(Repr)
    {
      assert forall c :: c in ps ==> c in multiset(parents);
      forall i | 0 <= i < |ps| ensures Sound(ps[i], Repr) {
        assert ps[i] in multiset(ps);
        SoundIn(ps[i]);
      }
      parents := ps;
      forall i | 0 <= i < |population| ensures Sound(population[i], Repr) {
        assert old(Sound(population[i], Repr));
      }
      assert forall d :: d in Pool() ==> d in old(Pool());
    }

    /** elitism: the parents are sorted, then the ones from the last down
        to position POPULATION_SIZE - ELITISM join the population, best
        first. */
    method Elitism()
      requires Valid()
      modifies this, Repr
      ensures Valid() && Repr == old(Repr)
      ensures multiset(parents) == multiset(old(parents)) && SortedByFitness(parents)
      ensures population == old(population) + Elites(parents)
      ensures forall d :: d in old(Pool()) ==> d.plan == old(d.plan)
    {
      SortParents();
      PromoteElites();
    }

    /** resetPopulation, then elitism: the last generation becomes the
        parents, sorted, and the best ELITISM of them, best first, start
        the new population; no plan changes. */
    method Survivors()
      requires Valid() && Intact(population, problem.numCustomers)
      modifies this, Repr
      ensures Valid() && Repr == old(Repr)
      ensures multiset(parents) == multiset(old(population)) && SortedByFitness(parents)
      ensures population == Elites(parents)
      ensures forall c :: c in old(population) ==> c.plan == old(c.plan)
      ensures Intact(parents, problem.numCustomers) && Intact(population, problem.numCustomers)
    {
      ResetPopulation();
      ElitesOfParents();
    }

    /** elitism on a fresh, empty population of intact parents. */
    method ElitesOfParents()
      requires Valid() && population == [] && Intact(parents, problem.numCustomers)
      modifies this, Repr
      ensures Valid() && Repr == old(Repr)
      ensures multiset(parents) == multiset(old(parents)) && SortedByFitness(parents)
      ensures population == Elites(parents)
      ensures forall c :: c in old(parents) ==> c.plan == old(c.plan)
      ensures Intact(parents, problem.numCustomers) && Intact(population, problem.numCustomers)
    {
      Elitism();
      forall c | c in old(parents) ensures c.plan == old(c.plan) {
        assert c in old(Pool());
      }
      forall c | c in parents ensures Conserved(c.plan, problem.numCustomers) {
        assert c in multiset(parents);
        assert old(Conserved(c.plan, problem.numCustomers));
      }
      ElitesIntact(parents, problem.numCustomers);
    }

    /** The parents from the last down to position POPULATION_SIZE -
        ELITISM join the population, in that order. */
    method PromoteElites()
      requires Valid()
      modifies this
      ensures Valid() && Repr == old(Repr) && parents == old(parents)
      ensures population == old(population) + Elites(parents)
    {
      var i: int := |parents| - 1;
      while i >= POPULATION_SIZE - ELITISM
        invariant -1 <= i < |parents|
        invariant i >= POPULATION_SIZE - ELITISM - 1 || i == |parents| - 1
        invariant Valid() && Repr == old(Repr) && parents == old(parents)
        invariant population == old(population) + Reverse(parents[i + 1..])
        decreases i + 1
      {
        ReverseFrom(parents, i);
        Promote(parents[i]);
        i := i - 1;
      }
    }

    /** feasibleElitism: the parents are sorted, then walked from the last
        down, and the first ELITISM feasible ones join the population in
        the order met. With fewer feasible parents the walk runs past
        position 0 and throws: ok is false and the population unchanged. */
    method FeasibleElitism() returns (ok: bool)
      requires Valid()
      modifies this, Repr
      ensures Valid() && Repr == old(Repr)
      ensures multiset(parents) == multiset(old(parents)) && SortedByFitness(parents)
      ensures forall d :: d in old(Pool()) ==> d.plan == old(d.plan)
      ensures ok == FeasibleElites(parents).Some?
      ensures ok ==> population == old(population) + FeasibleElites(parents).value
      ensures !ok ==> population == old(population)
    {
      SortParents();
      ok := CollectElites();
    }

    /** The walk of feasibleElitism over the parents as they stand. */
    method CollectElites() returns (ok: bool)
      requires Valid()
      modifies this
      ensures Valid() && Repr == old(Repr) && parents == old(parents)
      ensures ok == FeasibleElites(parents).Some?
      ensures ok ==> population == old(population) + FeasibleElites(parents).value
      ensures !ok ==> population == old(population)
    {
      assert forall j :: 0 <= j < |parents| ==> Sound(parents[j], Repr);
      var found := Walk(parents);
      ok := found.Some?;
      if ok {
        ElitesAreParents(parents);
        PromoteAll(found.value);
      }
    }

    /** Parents joining the population. */
    method PromoteAll(cs: seq<Chromosome>)
      requires Valid() && forall j :: 0 <= j < |cs| ==> cs[j] in parents
      modifies this
      ensures Valid() && parents == old(parents) && population == old(population) + cs && Repr == old(Repr)
    {
      forall j | 0 <= j < |cs| ensures Sound(cs[j], Repr) {
        SoundIn(cs[j]);
      }
      population := population + cs;
      forall i | 0 <= i < |parents| ensures Sound(parents[i], Repr) {
        assert old(Sound(parents[i], Repr));
      }
      forall i | 0 <= i < |population| ensures Sound(population[i], Repr) {
        if i < |old(population)| {
          assert old(Sound(population[i], Repr));
        } else {
          assert population[i] == cs[i - |old(population)|];
        }
      }
      assert forall d :: d in Pool() ==> d in old(Pool());
    }

    /** The parents can be scored. */
    lemma ParentsScored()
      requires Valid()
      ensures Scored(parents)
    {
      forall c | c in parents ensures PlanInTable(c.problem, c.plan) {
        var i :| 0 <= i < |parents| && parents[i] == c;
        assert Sound(parents[i], Repr);
      }
    }

    /** The parents' fitness values are those of their plans. */
    lemma ParentsScoredByPlans()
      requires Valid()
      ensures && (forall j :: 0 <= j < |parents| ==> PlanInTable(table, Plans(parents)[j]))
              && ScoredAs(parents, PlanFitnesses(table, problem.maxLoad, Plans(parents)))
    {
      forall j | 0 <= j < |parents| ensures PlanInTable(table, Plans(parents)[j]) {
        assert Sound(parents[j], Repr);
      }
      var fs := PlanFitnesses(table, problem.maxLoad, Plans(parents));
      forall j | 0 <= j < |parents| ensures PlanInTable(parents[j].problem, parents[j].plan) && fs[j] == parents[j].Fitness() {
        assert Sound(parents[j], Repr);
      }
    }

    /** The parent one round of tournamentSelection clones: two parents
        drawn, and compared when the KEEP_BEST coin comes up. compare only
        refreshes fitness caches. */
    method Winner(d: Duel, ghost fs: seq<real>) returns (w: Chromosome, ghost at: nat)
      requires Valid() && |parents| >= 1 && ScoredAs(parents, fs)
      modifies Repr
      ensures Valid() && ScoredAs(parents, fs)
      ensures at < |parents| && w == parents[at] && at == PickAt(fs, d)
      ensures forall c :: c in Pool() ==> c.plan == old(c.plan)
    {
      var i1, i2 := d.first % |parents|, d.second % |parents|;
      var p1, p2 := parents[i1], parents[i2];
      assert Sound(p1, Repr) && Sound(p2, Repr);
      var first := true;
      if d.keepBest {
        var f1 := Evaluate(p1);
        var f2 := Evaluate(p2);
        first := Compare(f1, f2) > 0;
      }
      if first {
        w, at := p1, i1;
      } else {
        w, at := p2, i2;
      }
    }

    /** One round of tournamentSelection: a fresh clone of the parent its
        duel picks joins the population. */
    method Round(d: Duel, ghost fs: seq<real>) returns (clone: Chromosome)
      requires Valid() && |parents| >= 1 && ScoredAs(parents, fs)
      modifies this, Repr
      ensures Valid() && parents == old(parents) && ScoredAs(parents, fs)
      ensures population == old(population) + [clone] && clone !in old(Repr)
      ensures Repr == old(Repr) + clone.Repr && fresh(clone.Repr)
      ensures Cloned(clone, parents[PickAt(fs, d)])
      ensures forall c :: c in old(Pool()) ==> c.plan == old(c.plan)
    {
      var w, at := Winner(d, fs);
      clone := AdoptCopy(w, at);
    }

    /** A fresh clone of a parent joins the population. */
    method AdoptCopy(w: Chromosome, ghost at: nat) returns (clone: Chromosome)
      requires Valid() && at < |parents| && w == parents[at]
      modifies this
      ensures Valid() && parents == old(parents)
      ensures population == old(population) + [clone] && clone !in old(Repr)
      ensures Repr == old(Repr) + clone.Repr && fresh(clone.Repr)
      ensures Cloned(clone, w)
    {
      assert Sound(parents[at], Repr);
      clone := new Chromosome.Copy(w);
      Adopt(clone);
    }

    /** The state after i of the rounds ds of tournamentSelection, begun
        with the members pop: those keep their places and plans (was), the
        parents keep theirs (kept), and the i clones after them lie outside
        the footprint R, are pairwise distinct and each holds what its
        duel's pick holds. */
    ghost predicate Selecting(ds: seq<Duel>, fs: seq<real>, i: nat, R: set<object>, pop: seq<Chromosome>,
                              kept: seq<Plan>, was: seq<Plan>)
      reads this, Repr, population, parents
    {
      && Valid() && |parents| >= 1 && |fs| == |parents| && i <= |ds|
      && |population| == |pop| + i && population[..|pop|] == pop
      && (forall j :: |pop| <= j < |population| ==> population[j] !in R)
      && (forall j, j' :: |pop| <= j < j' < |population| ==> population[j] != population[j'])
      && (forall j :: 0 <= j < i ==> Cloned(population[|pop| + j], parents[PickAt(fs, ds[j])]))
      && Plans(parents) == kept && Plans(pop) == was
    }

    /** Round i of tournamentSelection. */
    method SelectRound(ds: seq<Duel>, i: nat, ghost fs: seq<real>, ghost R: set<object>, ghost pop: seq<Chromosome>,
                       ghost kept: seq<Plan>, ghost was: seq<Plan>)
      requires Selecting(ds, fs, i, R, pop, kept, was) && i < |ds| && ScoredAs(parents, fs) && R <= Repr
      modifies this, Repr
      ensures Selecting(ds, fs, i + 1, R, pop, kept, was) && ScoredAs(parents, fs)
      ensures parents == old(parents) && old(Repr) <= Repr && fresh(Repr - old(Repr))
    {
      RoundStep(ds, i, fs, pop, kept, was, R);
    }

    /** Round i of tournamentSelection, after rounds 0 to i-1 added
        their clones after the members pop. */
    method RoundStep(ds: seq<Duel>, i: nat, ghost fs: seq<real>, ghost pop: seq<Chromosome>, ghost kept: seq<Plan>,
                     ghost was: seq<Plan>, ghost R: set<object>)
      requires Valid() && |parents| >= 1 && ScoredAs(parents, fs) && i < |ds| && |population| == |pop| + i
      requires R <= Repr && forall j :: |pop| <= j < |pop| + i ==> population[j] !in R
      requires Plans(parents) == kept && population[..|pop|] == pop && Plans(pop) == was
      requires forall j :: 0 <= j < i ==> Cloned(population[|pop| + j], parents[PickAt(fs, ds[j])])
      requires forall j, j' :: |pop| <= j < j' < |pop| + i ==> population[j] != population[j']
      modifies this, Repr
      ensures Valid() && parents == old(parents) && ScoredAs(parents, fs)
      ensures |population| == |pop| + i + 1 && population[..|pop| + i] == old(population)
      ensures forall j :: 0 <= j <= i ==> Cloned(population[|pop| + j], parents[PickAt(fs, ds[j])])
      ensures old(Repr) <= Repr && fresh(Repr - old(Repr))
      ensures forall j :: |pop| <= j <= |pop| + i ==> population[j] !in R
      ensures forall j, j' :: |pop| <= j < j' <= |pop| + i ==> population[j] != population[j']
      ensures Plans(parents) == kept && population[..|pop|] == pop && Plans(pop) == was
    {
      ghost var pre := population;
      ghost var n := |pop|;
      var clone := Round(ds[i], fs);
      forall j | 0 <= j < |parents| ensures parents[j].plan == kept[j] {
        assert parents[j] in old(Pool());
      }
      forall j | 0 <= j < n ensures pop[j].plan == was[j] {
        assert pop[j] == pre[j] && pre[j] in old(Pool());
      }
      assert Plans(pop) == was;
      forall j | 0 <= j < n + i ensures population[j] != population[n + i] {
        assert old(Sound(population[j], Repr));
      }
      forall j | 0 <= j <= i ensures Cloned(population[n + j], parents[PickAt(fs, ds[j])]) {
        if j < i {
          var p := parents[PickAt(fs, ds[j])];
          assert population[n + j] == pre[n + j] && pre[n + j] in old(Pool()) && p in old(Pool());
          assert old(Cloned(pre[n + j], p));
        }
      }
    }

    /** tournamentSelection: POPULATION_SIZE - ELITISM rounds, each adding
        a fresh clone of the parent its duel picks. */
    method TournamentSelection(duels: seq<Duel>)
      requires Valid() && |parents| >= 1 && |duels| == POPULATION_SIZE - ELITISM
      modifies this, Repr
      ensures Valid() && parents == old(parents) && Scored(parents)
      ensures |population| == |old(population)| + |duels| && population[..|old(population)|] == old(population)
      ensures forall j :: 0 <= j < |duels| ==> Cloned(population[|old(population)| + j], Pick(parents, duels[j]))
      ensures forall j :: |old(population)| <= j < |population| ==> population[j] !in old(Repr)
      ensures forall j, j' :: |old(population)| <= j < j' < |population| ==> population[j] != population[j']
      ensures Plans(parents) == old(Plans(parents))
      ensures Plans(population[..|old(population)|]) == old(Plans(population))
      ensures fresh(Repr - old(Repr))
    {
      var i := 0;
      ParentsScored();
      ghost var fs := Fitnesses(parents);
      ghost var kept := Plans(parents);
      ghost var was := Plans(population);
      ghost var ps, pop, R := parents, population, Repr;
      assert population[..|pop|] == population;
      while i < |duels|
        invariant Selecting(duels, fs, i, R, pop, kept, was) && ScoredAs(parents, fs)
        invariant parents == ps && R <= Repr && fresh(Repr - R)
      {
        SelectRound(duels, i, fs, R, pop, kept, was);
        i := i + 1;
      }
      ScoredAsFitnesses(parents, fs);
      forall j | 0 <= j < |duels| ensures Cloned(population[|pop| + j], Pick(parents, duels[j])) {
        assert Pick(parents, duels[j]) == parents[PickAt(fs, duels[j])];
      }
    }

    /** tournamentSelection after elitism: the population is filled up
        to POPULATION_SIZE with fresh clones, distinct from each other and
        from every parent, each holding what its original holds. */
    method Breeders(duels: seq<Duel>)
      requires Valid() && |parents| == POPULATION_SIZE && population == Elites(parents)
      requires |duels| == POPULATION_SIZE - ELITISM
      modifies this, Repr
      ensures Valid() && parents == old(parents) && |population| == POPULATION_SIZE && Breedable()
      ensures population[..ELITISM] == old(population) && Scored(parents)
      ensures forall j :: 0 <= j < |duels| ==> Cloned(population[ELITISM + j], Pick(parents, duels[j]))
      ensures Plans(parents) == old(Plans(parents)) && Plans(population[..ELITISM]) == old(Plans(population))
      ensures fresh(Repr - old(Repr))
    {
      ElitesAt(parents);
      ghost var before := Repr;
      ghost var elites := population;
      assert forall i :: 0 <= i < |parents| ==> Sound(parents[i], Repr);
      assert forall i :: 0 <= i < |elites| ==> Sound(elites[i], Repr);
      assert forall i :: 0 <= i < |elites| ==> elites[i] in before;
      TournamentSelection(duels);
      assert population[..ELITISM] == elites && |elites| == ELITISM;
      assert forall i :: 0 <= i < ELITISM ==> population[i] == elites[i];
      BreedableFrom(before);
    }

    /** Elites of intact parents followed by clones of intact parents are
        intact. */
    lemma ClonesIntact(duels: seq<Duel>, n: nat)
      requires |parents| >= 1 && Scored(parents) && Intact(parents, n)
      requires |population| == ELITISM + |duels| && population[..ELITISM] == Elites(parents)
      requires forall j :: 0 <= j < |duels| ==> Cloned(population[ELITISM + j], Pick(parents, duels[j]))
      ensures Intact(population, n)
    {
      ElitesIntact(parents, n);
      forall c | c in population ensures Conserved(c.plan, n) {
        var j :| 0 <= j < |population| && population[j] == c;
        if j < ELITISM {
          assert c in population[..ELITISM];
        } else {
          assert Cloned(population[ELITISM + (j - ELITISM)], Pick(parents, duels[j - ELITISM]));
        }
      }
    }

    /** The clones from position ELITISM on lie outside a footprint that
        holds every parent and every earlier member, and are pairwise
        distinct: then the population is breedable. */
    lemma BreedableFrom(before: set<object>)
      requires forall i :: 0 <= i < |parents| ==> parents[i] in before
      requires forall i :: 0 <= i < ELITISM && i < |population| ==> population[i] in before
      requires forall j :: ELITISM <= j < |population| ==> population[j] !in before
      requires forall j, j' :: ELITISM <= j < j' < |population| ==> population[j] != population[j']
      ensures Breedable()
    {
    }

    // -------------------------------------------------------------------
    // Crossover, mutation and the next population

    /** crossover: the customers of a random route of depot k of each
        parent leave the other parent and are inserted into its depot k
        by bestCostInsertions. */
    method Crossover(c1: Chromosome, c2: Chromosome, x: Crossing)
      requires Valid() && c1 in Pool() && c2 in Pool() && c1 != c2 && problem.numDepots >= 1
      requires Sound(c1, Repr) && Sound(c2, Repr)
      modifies Repr
      ensures Valid()
      ensures c1.plan == Child(table, problem.maxVehicles, problem.maxLoad, old(c1.plan), old(c2.plan),
                               x.depot % problem.numDepots, x.vehicle2 % problem.maxVehicles, x.coins1, x.picks1)
      ensures c2.plan == Child(table, problem.maxVehicles, problem.maxLoad, old(c2.plan), old(c1.plan),
                               x.depot % problem.numDepots, x.vehicle1 % problem.maxVehicles, x.coins2, x.picks2)
      ensures forall d :: d in Pool() && d != c1 && d != c2 ==> d.plan == old(d.plan)
    {
      var k := x.depot % problem.numDepots;
      var v1 := x.vehicle1 % problem.maxVehicles;
      var v2 := x.vehicle2 % problem.maxVehicles;
      var cs1 := c1.RouteOf(k, v1);
      var cs2 := c2.RouteOf(k, v2);
      RemoveBoth(c1, c2, cs1, cs2);
      label removed:
      InsertBoth(c1, c2, k, cs1, cs2, x);
      forall d | d in Pool() && d != c1 && d != c2 ensures d.plan == old(d.plan) {
        assert d in old@removed(Pool()) && d in old(Pool());
        assert old@removed(d.plan) == old(d.plan);
      }
    }

    /** The removeCustomers half of crossover. */
    method RemoveBoth(c1: Chromosome, c2: Chromosome, cs1: seq<Customer>, cs2: seq<Customer>)
      requires Valid() && c1 in Pool() && c2 in Pool() && c1 != c2
      modifies Repr
      ensures Valid() && unchanged(this) && Sound(c1, Repr) && Sound(c2, Repr)
      ensures c1.plan == RemoveAllFromPlan(old(c1.plan), cs2)
      ensures c2.plan == RemoveAllFromPlan(old(c2.plan), cs1)
      ensures forall d :: d in Pool() && d != c1 && d != c2 ==> d.plan == old(d.plan)
    {
      RemoveFrom(c1, cs2);
      RemoveFrom(c2, cs1);
      SoundIn(c1);
      SoundIn(c2);
    }

    /** The bestCostInsertions half of crossover, on depot k of each child. */
    method InsertBoth(c1: Chromosome, c2: Chromosome, k: nat, cs1: seq<Customer>, cs2: seq<Customer>, x: Crossing)
      requires Valid() && c1 in Pool() && c2 in Pool() && c1 != c2 && Sound(c1, Repr) && Sound(c2, Repr)
      requires k < problem.numDepots && InTable(table, cs1) && InTable(table, cs2)
      modifies Repr
      ensures Valid() && unchanged(this)
      ensures c1.plan == old(c1.plan)[k := InsertAll(table, k, problem.maxLoad, old(c1.plan)[k], cs2,
                                          Coins(|cs2|, x.coins1), Picks(|cs2|, x.picks1, problem.maxVehicles))]
      ensures c2.plan == old(c2.plan)[k := InsertAll(table, k, problem.maxLoad, old(c2.plan)[k], cs1,
                                          Coins(|cs1|, x.coins2), Picks(|cs1|, x.picks2, problem.maxVehicles))]
      ensures forall d :: d in Pool() && d != c1 && d != c2 ==> d.plan == old(d.plan)
    {
      InsertInto(c1, k, cs2, Coins(|cs2|, x.coins1), Picks(|cs2|, x.picks1, problem.maxVehicles));
      SoundIn(c2);
      InsertInto(c2, k, cs1, Coins(|cs1|, x.coins2), Picks(|cs1|, x.picks2, problem.maxVehicles));
    }

    /** mutation (customerReroute): one customer of a random route of a
        random depot moves to its best place in that depot. */
    method Mutation(c: Chromosome, mu: Mutating)
      requires Valid() && c in Pool() && Sound(c, Repr) && problem.numDepots >= 1
      modifies Repr
      ensures Valid()
      ensures c.plan == Rerouted(table, problem.maxVehicles, problem.maxLoad, old(c.plan), mu.depot, mu.vehicle, mu.customer)
      ensures forall d :: d in Pool() && d != c ==> d.plan == old(d.plan)
    {
      var k := mu.depot % problem.numDepots;
      var v := mu.vehicle % problem.maxVehicles;
      var r := c.RouteOf(k, v);
      var ci := if |r| == 0 then 0 else mu.customer % |r|;
      RerouteIn(c, k, v, ci);
    }

    /** The MUTATION_PROB coin of one child, then its mutation. */
    method MaybeMutate(c: Chromosome, mu: Mutating)
      requires Valid() && c in Pool() && Sound(c, Repr) && problem.numDepots >= 1
      modifies Repr
      ensures Valid()
      ensures c.plan == Mutated(table, problem.maxVehicles, problem.maxLoad, old(c.plan), mu)
      ensures forall d :: d in Pool() && d != c ==> d.plan == old(d.plan)
    {
      if mu.happens {
        Mutation(c, mu);
      }
    }

    /** The XOVER_PROB coin of one pair, then crossover and the mutation
        of each child. */
    method Cross(p1: Chromosome, p2: Chromosome, b: Breeding)
      requires Valid() && p1 in Pool() && p2 in Pool() && p1 != p2 && problem.numDepots >= 1
      requires Sound(p1, Repr) && Sound(p2, Repr)
      modifies Repr
      ensures Valid()
      ensures (p1.plan, p2.plan) == Bred(table, problem.maxVehicles, problem.maxLoad, old(p1.plan), old(p2.plan), b)
      ensures forall d :: d in Pool() && d != p1 && d != p2 ==> d.plan == old(d.plan)
    {
      if b.cross {
        Crossover(p1, p2, b.crossing);
        SoundIn(p1);
        MaybeMutate(p1, b.mutate1);
        SoundIn(p2);
        MaybeMutate(p2, b.mutate2);
      }
    }

    /** One step of nextPopulation on the pair at positions i and i + 1. */
    method BreedPair(i: nat, b: Breeding)
      requires Valid() && problem.numDepots >= 1 && i + 1 < |population| && population[i] != population[i + 1]
      modifies Repr
      ensures Valid()
      ensures old(Sound(population[i], Repr)) && old(Sound(population[i + 1], Repr))
      ensures (population[i].plan, population[i + 1].plan)
           == Bred(table, problem.maxVehicles, problem.maxLoad, old(population[i].plan), old(population[i + 1].plan), b)
      ensures forall d :: d in Pool() && d != population[i] && d != population[i + 1] ==> d.plan == old(d.plan)
    {
      assert Sound(population[i], Repr) && Sound(population[i + 1], Repr);
      Cross(population[i], population[i + 1], b);
    }

    /** The clones nextPopulation breeds (positions ELITISM on) are
        distinct, and neither elites nor parents. */
    ghost predicate Breedable()
      reads this
    {
      && (forall i, j :: 0 <= i < j < |population| && ELITISM <= j ==> population[i] != population[j])
      && (forall i, j :: 0 <= i < |parents| && ELITISM <= j < |population| ==> parents[i] != population[j])
    }

    /** One iteration of nextPopulation: pair p, at position i. */
    method BreedStep(i: nat, bs: seq<Breeding>, ghost p: nat, ghost target: seq<Plan>)
      requires Valid() && problem.numDepots >= 1 && problem.maxVehicles >= 1 && |population| == POPULATION_SIZE
      requires |bs| == (POPULATION_SIZE - ELITISM) / 2 && p < |bs| && i == ELITISM + 2 * p && Breedable()
      requires AllShaped(table, problem.maxVehicles, Plans(population))
      requires Breed(table, problem.maxVehicles, problem.maxLoad, Plans(population), bs, p) == target
      modifies Repr
      ensures Valid() && unchanged(this)
      ensures AllShaped(table, problem.maxVehicles, Plans(population))
      ensures Breed(table, problem.maxVehicles, problem.maxLoad, Plans(population), bs, p + 1) == target
      ensures Plans(parents) == old(Plans(parents))
    {
      ghost var before := Plans(population);
      assert (i - ELITISM) / 2 == p;
      BreedPair(i, bs[(i - ELITISM) / 2]);
      ghost var after := Plans(population);
      ghost var pair := Bred(table, problem.maxVehicles, problem.maxLoad, before[i], before[i + 1], bs[p]);
      forall j | 0 <= j < |population| ensures after[j] == before[i := pair.0][i + 1 := pair.1][j] {
        if j != i && j != i + 1 {
          assert population[j] in Pool();
        }
      }
      assert after == before[i := pair.0][i + 1 := pair.1];
      forall j | 0 <= j < |parents| ensures parents[j].plan == old(parents[j].plan) {
        assert parents[j] in Pool();
      }
      AllShapedPair(table, problem.maxVehicles, before, i, pair.0, pair.1);
    }

    /** nextPopulation: the pairs at positions ELITISM + 2p and
        ELITISM + 2p + 1, p = 0, 1, ..., are bred with the draws bs[p];
        the parents are left alone. */
    method NextPopulation(bs: seq<Breeding>)
      requires Valid() && problem.numDepots >= 1 && problem.maxVehicles >= 1 && |population| == POPULATION_SIZE
      requires |bs| == (POPULATION_SIZE - ELITISM) / 2 && Breedable()
      modifies Repr
      ensures Valid() && unchanged(this)
      ensures AllShaped(table, problem.maxVehicles, old(Plans(population)))
      ensures Plans(population) == Breed(table, problem.maxVehicles, problem.maxLoad, old(Plans(population)), bs, 0)
      ensures Plans(parents) == old(Plans(parents))
    {
      forall j | 0 <= j < |population| ensures Shaped(table, problem.maxVehicles, Plans(population)[j]) {
        assert Sound(population[j], Repr);
      }
      ghost var target := Breed(table, problem.maxVehicles, problem.maxLoad, Plans(population), bs, 0);
      ghost var kept := Plans(parents);
      var i := ELITISM;
      ghost var p := 0;
      while i < POPULATION_SIZE
        invariant i == ELITISM + 2 * p && p <= |bs|
        invariant Valid() && unchanged(this)
        invariant AllShaped(table, problem.maxVehicles, Plans(population))
        invariant Breed(table, problem.maxVehicles, problem.maxLoad, Plans(population), bs, p) == target
        invariant Plans(parents) == kept
      {
        BreedStep(i, bs, p, target);
        i := i + 2;
        p := p + 1;
      }
    }

    /** tournamentSelection then nextPopulation on sorted parents, after
        elitism: the parents stay sorted and keep their plans, and the
        new population starts with the elites' plans. */
    method Reproduce(duels: seq<Duel>, bs: seq<Breeding>)
      requires Valid() && problem.numDepots >= 1 && problem.maxVehicles >= 1
      requires |parents| == POPULATION_SIZE && population == Elites(parents) && Intact(parents, problem.numCustomers)
      requires SortedByFitness(parents)
      requires |duels| == POPULATION_SIZE - ELITISM && |bs| == (POPULATION_SIZE - ELITISM) / 2
      modifies this, Repr
      ensures Valid() && parents == old(parents) && |population| == POPULATION_SIZE
      ensures Intact(population, problem.numCustomers) && SortedByFitness(parents)
      ensures forall c :: c in parents ==> c.plan == old(c.plan)
      ensures Plans(population)[..ELITISM] == Plans(Elites(parents))
      ensures AllShaped(table, problem.maxVehicles, Plans(parents))
      ensures Plans(population) == Breed(table, problem.maxVehicles, problem.maxLoad,
                Selection(table, problem.maxVehicles, problem.maxLoad, Plans(parents), duels), bs, 0)
      ensures fresh(Repr - old(Repr))
    {
      ghost var elites := Plans(population);
      ElitesAt(parents);
      ParentsScoredByPlans();
      ghost var fs := PlanFitnesses(table, problem.maxLoad, Plans(parents));
      SortedScores(parents, fs);
      Offspring(duels, bs);
      ParentsScoredByPlans();
      RankedAs(parents, fs);
      forall c | c in parents ensures c.plan == old(c.plan) {
        var j :| 0 <= j < |parents| && parents[j] == c;
        assert Plans(parents)[j] == old(Plans(parents))[j];
      }
      assert Plans(Elites(parents)) == elites;
    }

    /** tournamentSelection then nextPopulation, after elitism: the
        elites' plans stay, the bred population stays intact, and the
        parents are left alone. */
    method Offspring(duels: seq<Duel>, bs: seq<Breeding>)
      requires Valid() && problem.numDepots >= 1 && problem.maxVehicles >= 1
      requires |parents| == POPULATION_SIZE && population == Elites(parents) && Intact(parents, problem.numCustomers)
      requires |duels| == POPULATION_SIZE - ELITISM && |bs| == (POPULATION_SIZE - ELITISM) / 2
      modifies this, Repr
      ensures Valid() && parents == old(parents) && |population| == POPULATION_SIZE
      ensures Intact(population, problem.numCustomers)
      ensures Plans(parents) == old(Plans(parents))
      ensures Plans(population)[..ELITISM] == old(Plans(population))
      ensures AllShaped(table, problem.maxVehicles, Plans(parents))
      ensures Plans(population) == Breed(table, problem.maxVehicles, problem.maxLoad,
                Selection(table, problem.maxVehicles, problem.maxLoad, Plans(parents), duels), bs, 0)
      ensures fresh(Repr - old(Repr))
    {
      IntactPlans(parents, problem.numCustomers);
      Breeders(duels);
      IntactPlans(parents, problem.numCustomers);
      ClonesIntact(duels, problem.numCustomers);
      SelectedPlans(duels);
      ghost var kept := Plans(parents);
      ghost var selected := Plans(population);
      assert selected[..ELITISM] == Plans(population[..ELITISM]);
      IntactPlans(population, problem.numCustomers);
      NextPopulation(bs);
      BreedConserves(table, problem.maxVehicles, problem.maxLoad, selected, bs, 0, problem.numCustomers);
      BreedKeepsElites(table, problem.maxVehicles, problem.maxLoad, selected, bs, 0);
      IntactPlans(population, problem.numCustomers);
      assert Plans(parents) == kept;
    }

    /** After elitism and tournamentSelection, the population's plans are
        the selection of the parents' plans. */
    lemma SelectedPlans(duels: seq<Duel>)
      requires Valid() && |parents| == POPULATION_SIZE && Scored(parents)
      requires |population| == ELITISM + |duels| && population[..ELITISM] == Elites(parents)
      requires forall j :: 0 <= j < |duels| ==> Cloned(population[ELITISM + j], Pick(parents, duels[j]))
      ensures AllShaped(table, problem.maxVehicles, Plans(parents))
      ensures Plans(population) == Selection(table, problem.maxVehicles, problem.maxLoad, Plans(parents), duels)
    {
      var ps := Plans(parents);
      forall j | 0 <= j < |parents|
        ensures Shaped(table, problem.maxVehicles, ps[j])
        ensures Fitnesses(parents)[j] == PlanFitness(table, problem.maxLoad, ps[j])
      {
        assert Sound(parents[j], Repr);
      }
      var fs := PlanFitnesses(table, problem.maxLoad, ps);
      assert Fitnesses(parents) == fs;
      ElitesAt(parents);
      ElitesAt(ps);
      var sel := Selection(table, problem.maxVehicles, problem.maxLoad, ps, duels);
      forall j | 0 <= j < |population| ensures Plans(population)[j] == sel[j] {
        if j < ELITISM {
          assert population[j] == population[..ELITISM][j] == Elites(parents)[j];
        } else {
          var d := j - ELITISM;
          assert Cloned(population[ELITISM + d], Pick(parents, duels[d]));
          assert Pick(parents, duels[d]) == parents[PickAt(fs, duels[d])];
        }
      }
    }

    /** One generation of main: resetPopulation, elitism,
        tournamentSelection and nextPopulation. The last generation
        becomes the parents, unchanged; the new one starts with the plans
        of the ELITISM best parents, and every chromosome still holds each
        customer exactly once. */
    method Generation(duels: seq<Duel>, bs: seq<Breeding>)
      requires Valid() && problem.numDepots >= 1 && problem.maxVehicles >= 1
      requires |population| == POPULATION_SIZE && Intact(population, problem.numCustomers)
      requires |duels| == POPULATION_SIZE - ELITISM && |bs| == (POPULATION_SIZE - ELITISM) / 2
      modifies this, Repr
      ensures Valid() && |population| == POPULATION_SIZE && Intact(population, problem.numCustomers)
      ensures multiset(parents) == multiset(old(population)) && SortedByFitness(parents)
      ensures forall c :: c in old(population) ==> c.plan == old(c.plan)
      ensures Plans(population)[..ELITISM] == Plans(Elites(parents))
      ensures AllShaped(table, problem.maxVehicles, Plans(parents))
      ensures Plans(population) == Breed(table, problem.maxVehicles, problem.maxLoad,
                Selection(table, problem.maxVehicles, problem.maxLoad, Plans(parents), duels), bs, 0)
      ensures fresh(Repr - old(Repr))
    {
      Survivors();
      label survived:
      assert |parents| == |multiset(parents)| == |multiset(old(population))|;
      Reproduce(duels, bs);
      forall c | c in old(population) ensures c.plan == old(c.plan) {
        assert c in multiset(old@survived(parents));
      }
    }
  }
}
