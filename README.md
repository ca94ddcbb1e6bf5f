# MDVRP genetic algorithm: a Dafny model

This project models the core of a genetic algorithm for the multi-depot vehicle routing problem (MDVRP):
- Every customer of an instance is served by exactly one vehicle of one depot.
- A vehicle carries at most `maxLoad`.
- The cost of a route is its travelled distance.
- A solution (a *chromosome*) holds, for every depot, the routes of its `maxVehicles` vehicles.

The model follows the Java classes one for one, except where a finding below models the corrected behaviour.

- **`Problem.MDVRP`** (MDVRP.java) holds the instance and its `(D+C)²` distance table, filled by the nested loops of `initDistances`. It answers the closest-depot and second-closest-depot queries and keeps the `swappable` list of customers that may migrate to another depot. `Problem.Table` is the table as a value, as routes and depots read it.
- **`Vehicles.Vehicle`** (Vehicle.java) is a route. It has a running load and a route cost cached under the `updated` flag. Its invariant: the load is the sum of the demands, and a clear flag means the cached cost is the cost of the route as it stands. `Routes` holds the pure route functions this is stated with (insertion, removal, cost, insertion deltas, best insertion).
- **`Depots.Depot`** (Depot.java) owns its vehicles. It provides:
  - removal by id;
  - best-cost insertion of a batch of customers;
  - the reroute mutation;
  - feasibility;
  - the fitness cached under its own flag;
  - `scheduleRoutes`, a greedy fill followed by one left-to-right rebalancing pass.

  `DepotSpec` holds the pure functions over a depot's routes that every operation is proved against.
- **`Chromosomes.Chromosome`** (Chromosome.java) clusters every customer to its closest depot. It removes customers and migrates them between depots, sums fitness, decides feasibility and compares solutions. `ChromosomeSpec` states these operations on a *plan*: one entry per depot, holding that depot's routes.
- **`Genetic.GeneticAlgorithm`** (GeneticAlgorithm.java) runs the generations: population start-up, reset, elitism (also its feasible variant), tournament selection, pairwise crossover and mutation. `GeneticSpec` holds the sort order, the elites, the tournament rule, and what crossover and mutation do to a plan.

The central property is **customer conservation**: every customer id `0..numCustomers-1` is in exactly one route of one depot (`ChromosomeSpec.Conserved`). The model proves it along the whole run:
- clustering hands every customer to exactly one depot;
- scheduling lays each depot's customers out over its vehicles;
- crossover removes the other parent's route customers, then reinserts each once;
- mutation moves one customer;
- `Genetic.GeneticAlgorithm.Run` ends with every chromosome of the population conserved.

Randomness (`Random.nextInt`, `Math.random() <= P`, `Collections.shuffle`) enters as parameters:
- a coin is a `bool`;
- `nextInt(n)` is an arbitrary `nat` taken modulo `n`;
- a shuffle is any function that keeps the multiset of its input.

`Utils.EuclideanDist` is the parameter `euclid` of the instance. The length check `testLengthIncrement`, which Vehicle.java does not define, is the parameter `lengthOk`. It takes the depot's id, the route of the vehicle tested and the customer, since a vehicle's length test depends on its own depot. `SerializationUtils.clone` is a deep copy (`Chromosome.Copy`, `Depot.Copy`, `Vehicle.Copy`).

Distances, demands and costs are reals.

## Model

| member | source | states |
|---|---|---|
| Problem.MDVRP.constructor | src/Models/MDVRP.java:27-47 | The instance keeps its sites, sizes and capacities, `swappable` starts empty and `isCalculated` false, and the distance table is filled as `initDistances` fills it |
| Problem.MDVRP.InitDistances | src/Models/MDVRP.java:99-153 | Afterwards every cell of the `(D+C)×(D+C)` table holds its entry: 0 on the depot diagonal, the depot-depot, depot-customer or customer-customer distance elsewhere, written from both loops and mirrored |
| Problem.MDVRP.DepotRow | src/Models/MDVRP.java:100-134 | One pass of the depot loop adds row and column `depot1` of the depot-depot and depot-customer blocks to the cells already written correctly |
| Problem.MDVRP.CustomerRow | src/Models/MDVRP.java:136-152 | One pass of the customer loop adds the customer-customer cells of `customer1` with every smaller customer, in both directions |
| Problem.MDVRP.TableSymmetric | src/Models/MDVRP.java:99-153 | The filled table is symmetric: `distances[i,j] == distances[j,i]` for every cell |
| Problem.MDVRP.DepotDiagonalZero | src/Models/MDVRP.java:108-110 | A depot's distance to itself is exactly 0 |
| Problem.MDVRP.C2CDistance | src/Models/MDVRP.java:75-77 | Customer `c` is row/column `c + numDepots`: the answer is the distance between the two customers' sites |
| Problem.MDVRP.D2CDistance | src/Models/MDVRP.java:79-81 | The answer is the distance between depot `d` and customer `c`, stored at `[c + numDepots, d]` too |
| Problem.MDVRP.Snapshot | src/Models/MDVRP.java:75-81 | The value copy of the table answers both distance getters exactly as the instance does |
| Problem.MDVRP.GetClosestDepot | src/Models/MDVRP.java:155-171 | With at least one depot, the answer is a depot id no farther than any depot and strictly nearer than every lower id (ties go to the lowest id); with none it is 0 |
| Problem.MDVRP.ClosestUnique | src/Models/MDVRP.java:155-171 | The tie-breaking makes the closest depot unique |
| Problem.MDVRP.GetSecondClosestDepot | src/Models/MDVRP.java:173-197 | `swappable` keeps its old entries and gains at most one: none exactly when no other depot is within `SWAP_BOUND` relatively, which is always the case when the closest distance is 0. Otherwise it gains `(customer, closest, second)` with `second` qualifying, nearest among the qualifying depots, and strictly nearer than every lower qualifying id |
| Problem.MDVRP.SetCalculated | src/Models/MDVRP.java:95-97 | The flag becomes true and nothing else changes |
| Problem.MDVRP.RandomSwappable | src/Models/MDVRP.java:199-201 | The entry at the drawn number taken modulo the list's length, so one of the recorded swaps |
| Routes.Insert | src/Models/Vehicle.java:139-148 | `c` lands at index `i`; the entries before it stay and those from `i` on shift up by one |
| Routes.RemoveAt | src/Models/Vehicle.java:150-154 | The route loses entry `i`; the entries before stay and those after shift down |
| Routes.FirstIndexOf | src/Models/Vehicle.java:125-133 | The index found holds the id and no earlier index does |
| Routes.SumDemandInsert | src/Models/Vehicle.java:145 | Inserting a customer adds exactly its demand to the summed demand |
| Routes.SumDemandRemove | src/Models/Vehicle.java:151-152 | Removing entry `i` subtracts exactly its demand |
| Routes.IdsInsert | src/Models/Vehicle.java:139-148 | Inserting adds exactly one copy of the id to the route's ids |
| Routes.IdsRemove | src/Models/Vehicle.java:150-154 | Removing entry `i` takes exactly its id out of the route's ids |
| Routes.PathCost | src/Models/Vehicle.java:182-203 | The sum of the customer-to-customer legs of a route, first to last; 0 for fewer than two customers. `Routes.PathConcat` splits it at any cut |
| Routes.RouteCost | src/Models/Vehicle.java:182-203 | The cost `updateRouteCost` stores: 0 for an empty route, twice the depot distance for one customer, otherwise depot to first, the legs, and last to depot. `Routes.RouteCostNonEmpty` states the general form |
| Routes.RouteCostNonEmpty | src/Models/Vehicle.java:182-203 | For a non-empty route the cost is depot to first, plus the consecutive legs, plus last to depot (one customer: twice the depot distance) |
| Routes.InsertionDelta | src/Models/Vehicle.java:80-103 | The three delta formulas of `bestInsertion`: in front of the first customer, between customers `i-1` and `i`, after the last. `Routes.InsertionDeltaExact` proves each is the exact change in route cost |
| Routes.InsertFrontExact | src/Models/Vehicle.java:80-83 | The front delta of `bestInsertion` is exactly the change in route cost of inserting at index 0 |
| Routes.InsertMiddleExact | src/Models/Vehicle.java:86-89 | The delta of position `i` between two customers is exactly the change in route cost of inserting there |
| Routes.InsertBackExact | src/Models/Vehicle.java:96-98 | The delta of appending at the end is exactly the change in route cost |
| Routes.InsertionDeltaExact | src/Models/Vehicle.java:80-105 | Every delta `bestInsertion` computes, at any index `0..size`, is the exact change in route cost |
| Routes.ScanPositions | src/Models/Vehicle.java:80-95 | The front delta, then the inner positions in order, a later position replacing the best only when strictly lower. `Routes.ScanPositionsIsMin` proves it yields the first least delta |
| Routes.BestInsertion | src/Models/Vehicle.java:72-107 | `bestInsertion`'s (index, delta): twice the depot distance at 0 on an empty route; otherwise the scan, then the back position, looked at only with two customers or more. `Routes.BestInsertionIsMin` and `Routes.BestInsertionExact` give minimality and exactness |
| Routes.ScanPositionsIsMin | src/Models/Vehicle.java:86-95 | The scan over the inner positions returns the first position of least delta among those examined |
| Routes.BestInsertionIsMin | src/Models/Vehicle.java:80-105 | On a non-empty route, the chosen index is examined, its delta is that index's delta and no examined delta is lower, and every earlier index is strictly worse. Back insertion is examined only when the route has two customers or more |
| Routes.BestInsertionExact | src/Models/Vehicle.java:72-105 | The chosen index is in `[0, size]`, and inserting there changes the route cost by exactly the returned delta (`2·d(depot,c)` on an empty route) |
| Routes.Penalty | src/Models/Vehicle.java:178-180 | The penalty is never negative and is 0 exactly when the load is within capacity |
| Vehicles.Vehicle.constructor | src/Models/Vehicle.java:19-26 | A new vehicle has an empty route, load 0 and the cost flag set |
| Vehicles.Vehicle.Copy | src/GeneticAlgorithm/GeneticAlgorithm.java:94-99 | The deep copy of a vehicle has the same route, load, cached cost and flag |
| Vehicles.Vehicle.GetCustomer | src/Models/Vehicle.java:40-42 | Needs an index below the route's length, and answers the route's customer at that index |
| Vehicles.Vehicle.GetFirstCustomer | src/Models/Vehicle.java:44-46 | Needs a non-empty route, and answers its first customer |
| Vehicles.Vehicle.GetLastCustomer | src/Models/Vehicle.java:48-50 | Needs a non-empty route, and answers its last customer |
| Vehicles.Vehicle.GetSecondLastCustomer | src/Models/Vehicle.java:52-54 | Needs two customers, because index `size-2` is out of range on a one-customer route; answers the customer before the last |
| Vehicles.Vehicle.GetFeasibility | src/Models/Vehicle.java:56-58 | Feasible exactly when the summed demand is within capacity, and then the penalty is 0 |
| Vehicles.Vehicle.TestDemandIncrement | src/Models/Vehicle.java:156-158 | True exactly when the summed demand plus `demand` is at most the capacity (`<=`) |
| Vehicles.Vehicle.GetPenalty | src/Models/Vehicle.java:178-180 | The penalty is non-negative, and is 0 exactly when the summed demand is within capacity |
| Vehicles.Vehicle.InsertCustomerIfFeasible | src/Models/Vehicle.java:60-70 | Appends and answers true exactly when load plus demand is strictly below the capacity; otherwise nothing changes |
| Vehicles.Vehicle.BestInsertion | src/Models/Vehicle.java:72-107 | The index and delta are those of the best-insertion scan, and the feasibility flag is `testDemandIncrement(demand)`, whatever the position |
| Vehicles.Vehicle.ForceInsertCustomer | src/Models/Vehicle.java:109-111 | Appends without a capacity test, keeping the load invariant and setting the flag |
| Vehicles.Vehicle.InsertCustomerByIndex | src/Models/Vehicle.java:113-115 | Inserts at index `i` |
| Vehicles.Vehicle.InsertFirstCustomer | src/Models/Vehicle.java:117-119 | Inserts at the front |
| Vehicles.Vehicle.RemoveLastCustomer | src/Models/Vehicle.java:121-123 | Drops the last customer |
| Vehicles.Vehicle.RemoveCustomer | src/Models/Vehicle.java:125-133 | Answers true exactly when the route holds the id, and then removes the first entry with it and sets the flag; otherwise the vehicle is unchanged |
| Vehicles.Vehicle.InsertCustomer | src/Models/Vehicle.java:139-148 | Inserts at `i`, adds the demand to the load and sets the flag; the load stays the sum of the demands |
| Vehicles.Vehicle.RemoveCustomerAt | src/Models/Vehicle.java:150-154 | Removes entry `i`, subtracts its demand from the load and sets the flag |
| Vehicles.Vehicle.ClearRoute | src/Models/Vehicle.java:160-164 | The route is empty, the load 0 and the flag set |
| Vehicles.Vehicle.GetFitness | src/Models/Vehicle.java:166-168 | The answer is the route cost computed from scratch plus the demand penalty |
| Vehicles.Vehicle.GetRouteCost | src/Models/Vehicle.java:170-176 | The answer always equals the from-scratch route cost; with the flag clear the cache is returned untouched, otherwise it is recomputed and the flag cleared |
| Vehicles.Vehicle.UpdateRouteCost | src/Models/Vehicle.java:182-203 | The loop leaves in the cache exactly the cost of the route |
| Vehicles.Vehicle.SetUpdated | src/Models/Vehicle.java:205-207 | Sets the flag |
| Vehicles.Vehicle.GetCustomerById | src/Models/Depot.java:69-73 | Finds a customer exactly when the route holds the id, and then it is the first entry with that id |
| DepotSpec.EmptyRoutes | src/Models/Depot.java:34-38 | `k` routes, all empty |
| Depots.Depot.constructor | src/Models/Depot.java:22-38 | A new depot holds exactly `maxVehicles` empty vehicles of its own, with the fitness flag set |
| Depots.Depot.Copy | src/GeneticAlgorithm/GeneticAlgorithm.java:94-99 | The deep copy of a depot has fresh vehicles with the same routes, flag and cached fitness |
| Depots.Depot.GetNumCustomers | src/Models/Depot.java:44-46 | The count is the summed length of the routes, which is the number of ids the depot holds |
| Depots.Depot.GetFitness | src/Models/Depot.java:48-54 | The answer is always the routes' fitness (costs plus penalties), recomputed only when the flag is set; the routes do not change |
| Depots.Depot.SumFitness | src/Models/Depot.java:50 | The stream sum of the vehicles' fitness, in vehicle order |
| Depots.Depot.VehicleFitness | src/Models/Depot.java:50 | One vehicle's fitness is its route cost plus its penalty |
| Depots.Depot.SetUpdated | src/Models/Depot.java:56-58 | Sets the flag |
| Depots.Depot.GetCustomerById | src/Models/Depot.java:68-76 | The answer is the first entry with the id in the first vehicle holding it, or none |
| DepotSpec.FindById | src/Models/Depot.java:68-76 | The vehicles searched in order from `k`; the first vehicle holding the id answers its first customer with it, none when no vehicle does. `DepotSpec.FindByIdSpec` gives both directions |
| DepotSpec.FindByIdSpec | src/Models/Depot.java:68-76 | The lookup finds something exactly when some vehicle holds the id, and what it finds has the id and is in a route |
| DepotSpec.RemoveFirst | src/Models/Depot.java:78-85 | The first vehicle from `k` on that holds the id loses its first entry with it, the other vehicles are untouched; nothing changes when none holds it. `DepotSpec.RemoveFirstIds` and `DepotSpec.RemoveFirstMissing` give its effect on the ids |
| Depots.Depot.RemoveCustomer | src/Models/Depot.java:78-85 | True exactly when some vehicle holds the id; the first such vehicle loses its first entry with the id, and nothing changes otherwise |
| DepotSpec.RemoveFirstIds | src/Models/Depot.java:78-85 | When some vehicle holds the id, the depot's ids lose exactly one copy, so the total drops by one |
| DepotSpec.RemoveFirstMissing | src/Models/Depot.java:78-85 | When no vehicle holds the id, the routes are unchanged |
| Depots.Depot.BestInsertCustomer | src/Models/Depot.java:119-123 | The placement is vehicle `i`'s best insertion and its demand test |
| Depots.Depot.CollectOptions | src/Models/Depot.java:89-98 | The two lists built are the feasible options and all options, in vehicle order |
| DepotSpec.Options | src/Models/Depot.java:89-98 | All options: one per vehicle; feasible options: at most one per vehicle |
| DepotSpec.OptionsOwn | src/Models/Depot.java:89-98 | Each option is its vehicle's placement, and a feasible option's vehicle passes the demand test |
| DepotSpec.OptionsIncreasing | src/Models/Depot.java:89-98 | Options come in increasing vehicle order |
| DepotSpec.OptionsComplete | src/Models/Depot.java:89-98 | Every vehicle (every feasible one, for the feasible list) contributes its option |
| DepotSpec.OptionsAll | src/Models/Depot.java:97 | Entry `m` of all options is vehicle `m`'s |
| DepotSpec.FirstMin | src/Models/Depot.java:103-108 | After the stable sort by delta, the first option has the least delta, and every earlier option is strictly worse |
| DepotSpec.InsertChoice | src/Models/Depot.java:100-115 | With the INSERT_BEST coin, the first least-delta feasible option, or the first least-delta option of all when none is feasible; without it, the drawn vehicle's option. `DepotSpec.InsertChoiceIsBest` and `DepotSpec.InsertChoiceIsOption` state what it picks |
| DepotSpec.InsertChoiceIsBest | src/Models/Depot.java:101-111 | With the INSERT_BEST coin, the chosen vehicle's option is feasible if any is. Its delta is least among options of the same feasibility, and the earliest such vehicle wins |
| DepotSpec.NoFeasibleChoice | src/Models/Depot.java:102-105 | With no feasible option, the choice is the earliest option of least delta among all |
| DepotSpec.FeasibleChoice | src/Models/Depot.java:106-110 | With a feasible option, the choice is the earliest feasible option of least delta |
| DepotSpec.InsertChoiceIsOption | src/Models/Depot.java:100-115 | The choice is some vehicle's option; without the coin it is the randomly drawn vehicle's |
| DepotSpec.PlaceExact | src/Models/Depot.java:105-114 | Inserting at a vehicle's placement adds exactly that customer's id to the depot and exactly the placement's delta to its total cost |
| DepotSpec.InsertOne | src/Models/Depot.java:88-116 | One round of `bestCostInsertions`: every vehicle's best placement of the customer, the choice among them, and the insertion at the chosen vehicle and index. `DepotSpec.InsertOneIds` proves it adds exactly the id |
| DepotSpec.InsertOneIds | src/Models/Depot.java:88-116 | Inserting one customer adds exactly its id to the depot |
| Depots.Depot.InsertCustomer | src/Models/Depot.java:88-116 | One round of the loop: the customer goes to the (vehicle, index) the choice names |
| DepotSpec.InsertAll | src/Models/Depot.java:87-117 | The customers of the list inserted one after another, each with its own coin and drawn vehicle. `DepotSpec.InsertAllIds` proves it adds exactly the list's ids |
| Depots.Depot.BestCostInsertions | src/Models/Depot.java:87-117 | Each listed customer is inserted into exactly one vehicle: the depot's ids grow by exactly the list's ids |
| DepotSpec.InsertAllIds | src/Models/Depot.java:87-117 | Inserting a list keeps the route count and adds exactly the list's ids |
| Depots.Depot.RerouteTarget | src/Models/Depot.java:136-159 | The loop's best vehicle is the one the pairwise rule settles on, with that vehicle's placement |
| DepotSpec.RerouteScan | src/Models/Depot.java:136-159 | The best vehicle is one of those scanned |
| DepotSpec.RerouteScanIsBest | src/Models/Depot.java:136-159 | A feasible candidate beats an infeasible one. Within the same feasibility only a strictly lower delta replaces the incumbent, so the earliest vehicle of least delta wins |
| DepotSpec.GreedyChoiceIsRerouteChoice | src/Models/Depot.java:101-159 | The INSERT_BEST choice and the reroute rule pick the same vehicle |
| DepotSpec.UnplaceIds | src/Models/Depot.java:132-134 | Taking a customer out of a route takes exactly its id out of the depot |
| DepotSpec.Reroute | src/Models/Depot.java:125-162 | Nothing on an empty drawn route. Otherwise the drawn customer leaves its route and goes back at the placement the pairwise rule picks over every vehicle. `DepotSpec.RerouteIds` proves the ids are kept |
| Depots.Depot.CustomerReroute | src/Models/Depot.java:125-162 | Nothing happens when the drawn vehicle is empty. Otherwise one customer leaves and is reinserted at the chosen best place, so the depot's ids are unchanged |
| DepotSpec.RerouteIds | src/Models/Depot.java:125-162 | A reroute keeps the route count, the table bounds and the multiset of ids |
| Depots.Depot.IsFeasible | src/Models/Depot.java:186-193 | True exactly when every vehicle's summed demand is within capacity |
| DepotSpec.RoutesFitness | src/Models/Depot.java:48-54 | The sum over vehicles, in order, of route cost plus demand penalty. `DepotSpec.FitnessAndCost` relates it to the total cost and feasibility |
| DepotSpec.FitnessAndCost | src/Models/Depot.java:48-54 | A depot's fitness is at least its total route cost, and equal to it exactly when every vehicle is within capacity |
| Depots.Depot.ScheduleRoutes | src/Models/Depot.java:195-252 | The routes are the fill phase followed by the rebalance pass. Their concatenation is exactly the depot's customer list, and the pass never raises the total cost |
| Depots.Depot.ClearRoutes | src/Models/Depot.java:196-198 | Every vehicle's route is empty |
| DepotSpec.FillFrom | src/Models/Depot.java:200-214 | The greedy fill from a cursor: a customer stays with the current vehicle while its load stays strictly below capacity, otherwise goes to the next vehicle (the last one keeps it) without a test. `DepotSpec.FillFromFlatten` proves the routes concatenate to the list |
| Depots.Depot.FillRoutes | src/Models/Depot.java:200-214 | The routes are the greedy fill: stay with the current vehicle while the load stays strictly below capacity, otherwise move to the next one (never past the last) and force the insertion |
| DepotSpec.FillFromFlatten | src/Models/Depot.java:200-214 | The fill keeps the number of routes, and the routes concatenated in vehicle order give the customer list exactly |
| DepotSpec.Moves | src/Models/Depot.java:219-245 | The test of one pair: route i non-empty, route i+1 non-empty, the last customer's demand fits (`<=`), the depot's length test passes and the delta is negative |
| DepotSpec.Rebalance | src/Models/Depot.java:216-251 | The corrected pass: each pair (i, i+1) from left to right, once, moving the last customer when `Moves` holds. `DepotSpec.RebalanceFlatten` and `DepotSpec.RebalanceCost` prove it keeps the customers in order and never raises the cost |
| DepotSpec.RebalanceAsWritten | src/Models/Depot.java:216-251 | The pass as written: the same tests, but once they pass it reads the second-last customer, ending in an index error on a one-customer route. `DepotSpec.RebalanceAsWrittenAgrees` and `DepotSpec.OneCustomerRouteCrashes` relate it to the corrected pass |
| Depots.Depot.RebalanceRoutes | src/Models/Depot.java:216-251 | The loop performs the rebalance pass over every pair (i, i+1) from left to right, once |
| Depots.Depot.RebalanceStep | src/Models/Depot.java:217-250 | The last customer of route i moves to the front of route i+1 exactly when all of these hold: route i is non-empty, route i+1 is non-empty, the demand fits (`<=`), the length test passes and the delta is negative. Otherwise nothing changes |
| DepotSpec.MoveDeltaAsWritten | src/Models/Depot.java:231-243 | The source's four-term delta, which reads the second-last customer of route i |
| DepotSpec.MoveDelta | src/Models/Depot.java:231-243 | The source's delta for two customers or more; for one customer, its two depot legs go and the customer joins route i+1 at the front. `DepotSpec.MoveDeltaExact` proves it is the exact change in cost |
| Depots.Depot.MoveCost | src/Models/Depot.java:231-243 | The computed delta is the move's delta |
| DepotSpec.MoveDeltaExact | src/Models/Depot.java:231-243 | The delta is exactly the change in the two routes' summed cost when the last customer moves |
| DepotSpec.MoveLastFlatten | src/Models/Depot.java:246-247 | A move keeps the concatenation of the routes |
| DepotSpec.MoveLastCost | src/Models/Depot.java:245-248 | A move changes the total cost by exactly its delta |
| DepotSpec.RebalanceFlatten | src/Models/Depot.java:216-251 | The pass keeps the number of routes and the concatenation in order, so the multiset of customers too |
| DepotSpec.RebalanceCost | src/Models/Depot.java:216-251 | The pass never raises the total cost |
| DepotSpec.Schedule | src/Models/Depot.java:196-252 | The layout `scheduleRoutes` gives a list: `maxVehicles` routes that concatenate to the list, in order, and cost no more than the fill alone |
| DepotSpec.RebalanceAsWrittenAgrees | src/Models/Depot.java:216-251 | Whenever the pass as written finishes without the index error, it agrees with the corrected pass |
| DepotSpec.OneCustomerRouteCrashes | src/Models/Depot.java:229-232 | Concrete instance: two vehicles filled as [c0] and [c1], with c0 fitting into the second route. The pass as written fails asking route 0 for a second-last customer; the corrected pass merges the two into [[], [c0, c1]] |
| DepotSpec.CachedFitness | src/Models/Depot.java:48-54 | getFitness as written: with the flag set it answers the routes' fitness; with the flag clear, whatever was cached |
| DepotSpec.CachedRemove | src/Models/Depot.java:78-85 | `removeCustomer` as written leaves the depot's flag and cached fitness as they were |
| DepotSpec.StaleDepotFitness | src/Models/Depot.java:48-85 | Concrete instance: after getFitness and one removal, getFitness as written answers the old fitness 3 where the routes' fitness is 2 |
| ChromosomeSpec.HoldingsCount | src/Models/Chromosome.java:118-123 | The number of ids a plan holds is its summed route lengths, the count `checkNumCustomers` takes |
| ChromosomeSpec.ConservedMeans | src/Models/Chromosome.java:118-123 | In a conserved plan every id below `numCustomers` occurs exactly once and no other id occurs, so the count is `numCustomers` |
| ChromosomeSpec.HoldsFound | src/Models/Chromosome.java:105-107 | `getCustomerById` finds the customer exactly when the depot holds the id |
| ChromosomeSpec.Holder | src/Models/Chromosome.java:42-47 | The depot `removeCustomers` stops at is the first that holds the id, or none |
| ChromosomeSpec.RemoveFromPlan | src/Models/Chromosome.java:42-47 | The depots tried in order until one removes the customer: the first depot holding the id loses one entry with it. `ChromosomeSpec.RemoveOneIds` gives its effect on the ids |
| ChromosomeSpec.RemoveAllFromPlan | src/Models/Chromosome.java:41-49 | `removeCustomers`: the listed customers removed one after another. `ChromosomeSpec.RemoveAllIds` gives its effect on the ids |
| ChromosomeSpec.TakeOutIds | src/Models/Chromosome.java:44 | Removing a held id from a depot takes exactly one copy out of the plan |
| ChromosomeSpec.RemoveOneIds | src/Models/Chromosome.java:42-47 | Removing one customer takes at most one copy of its id out of the plan (none when absent) and keeps its shape |
| ChromosomeSpec.RemoveAllIds | src/Models/Chromosome.java:41-49 | Removing a list takes the list's ids out of the plan, one occurrence each, as far as they are held |
| ChromosomeSpec.PutInIds | src/Models/Chromosome.java:109 | Inserting a customer into a depot adds exactly its id to the plan |
| ChromosomeSpec.FoundInTable | src/Models/Chromosome.java:105 | A held id is found, and what is found has that id and is a customer of the instance |
| ChromosomeSpec.Migrate | src/Models/Chromosome.java:105-114 | The customer found by id in one depot leaves it and is inserted by `bestCostInsertions` into the other. `ChromosomeSpec.MigrateIds` proves the ids are kept |
| ChromosomeSpec.InterDepotPlan | src/Models/Chromosome.java:97-116 | The swap's customer moves from the closest depot to the second when the closest holds it, from the second to the closest otherwise. `ChromosomeSpec.InterDepotIds` proves the ids are kept |
| ChromosomeSpec.MigrateIds | src/Models/Chromosome.java:107-114 | Moving a held customer from one depot to another keeps the plan's ids |
| ChromosomeSpec.InterDepotIds | src/Models/Chromosome.java:97-116 | `interDepot` keeps the plan's shape and ids, so the chromosome total is preserved |
| ChromosomeSpec.PlanFitness | src/Models/Chromosome.java:125-128 | The sum of the depots' fitness in depot order |
| ChromosomeSpec.PlanFeasible | src/Models/Chromosome.java:130-137 | Every route of every depot is within capacity |
| ChromosomeSpec.PlanFitnessAndCost | src/Models/Chromosome.java:125-137 | A chromosome's fitness is at least its total cost, and equal to it exactly when it is feasible |
| ChromosomeSpec.Compare | src/Models/Chromosome.java:139-146 | The answer is -1, 0 or 1 |
| ChromosomeSpec.CompareOrder | src/Models/Chromosome.java:139-146 | `compare(a,b) == -compare(b,a)`. It is positive exactly when a's fitness is lower, zero exactly when the fitness values are equal, and transitive |
| ChromosomeSpec.AddToCluster | src/Models/Chromosome.java:66-77 | The customer is appended to depot `d`'s list, which is created when `d` has none. `ChromosomeSpec.SlotAdd` and `ChromosomeSpec.GatheredAdd` give its effect |
| ChromosomeSpec.SlotAdd | src/Models/Chromosome.java:66-77 | Adding a customer to depot `d`'s list adds its id there and nowhere else |
| ChromosomeSpec.GatheredAdd | src/Models/Chromosome.java:66-77 | Across the depot lists, adding to a real depot adds exactly the customer's id |
| ChromosomeSpec.IdsPermutation | src/Models/Chromosome.java:84 | A shuffle keeps the multiset of ids |
| ChromosomeSpec.GatheredLists | src/Models/Chromosome.java:82-88 | Depot lists that are shuffles of the clustered lists hold together exactly the clustered ids |
| ChromosomeSpec.ScheduledHoldings | src/Models/Chromosome.java:91-95 | When each depot's routes concatenate to its list, the plan holds exactly the lists' ids |
| Chromosomes.Members | src/Models/Chromosome.java:54-78 | The customers `0..n-1` whose closest depot is `d`, in id order, with their demands. `Chromosomes.MembersWithin` and `Chromosomes.MembersHas` give both directions |
| Chromosomes.MembersWithin | src/Models/Chromosome.java:54-78 | Every member of depot `d`'s cluster is a customer whose closest depot is `d` |
| Chromosomes.MembersHas | src/Models/Chromosome.java:54-78 | Every customer whose closest depot is `d` is in `d`'s cluster |
| Chromosomes.NearestAmong | src/Models/MDVRP.java:155-171 | Among the first `k` depots: the lowest id of least distance |
| Chromosomes.Nearest | src/Models/MDVRP.java:155-171 | The depot `getClosestDepot` answers |
| Chromosomes.ClusterMap | src/Models/Chromosome.java:54-78 | The map the first loop of `clusterCustomers` builds after customers `0..n-1`, each added to its closest depot's list. `Chromosomes.ClusterMapAt` and `Chromosomes.ClusterMapGathered` state its contents |
| Chromosomes.ClusterMapAt | src/Models/Chromosome.java:54-78 | The map has a list only for real depots, and that list is the depot's cluster in id order |
| Chromosomes.ClusterMapGathered | src/Models/Chromosome.java:54-78 | The lists together hold every id `0..n-1` exactly once |
| Chromosomes.ClusterMapFull | src/Models/Chromosome.java:54-88 | When every depot is some customer's closest, every depot has a list of the instance's customers, and the lists hold every id once |
| Chromosomes.Chromosome.constructor | src/Models/Chromosome.java:16-22 | One depot per id in id order, each given a shuffle of its cluster and empty vehicles (`Dealt`: depot `k`'s list is `shuffle(Members(p, k, n))`). Every customer goes to exactly one depot. `isCalculated` ends true, and the first construction records the swaps |
| Chromosomes.Chromosome.Build | src/Models/Chromosome.java:51-89 | `clusterCustomers`: fresh disjoint depots, depot `k` holding a shuffle of its cluster, every customer clustered once, and the swaps recorded |
| Chromosomes.Chromosome.BuildFrom | src/Models/Chromosome.java:82-88 | The depots built from the map: depot `k` holds a shuffle of its cluster and the depots together hold every id once |
| Chromosomes.Chromosome.ClusterCustomers | src/Models/Chromosome.java:52-80 | The map built is the closest-depot clustering of all customers. Swaps are recorded only while `isCalculated` is false, and the flag ends true |
| Chromosomes.Chromosome.ClusterCustomer | src/Models/Chromosome.java:56-77 | One loop round adds customer `customerId` to its closest depot's list, and may record one swap for it |
| Chromosomes.Chromosome.MakeDepots | src/Models/Chromosome.java:82-88 | One fresh depot per id, in id order, each with the shuffled list of its id |
| Chromosomes.Chromosome.Copy | src/GeneticAlgorithm/GeneticAlgorithm.java:94-99 | The deep copy has fresh depots with the same plan and the same customer lists |
| Chromosomes.Chromosome.GetDepotById | src/Models/Chromosome.java:28-35 | Found exactly when the id is below `numDepots`, and then it is the depot of that id |
| Chromosomes.Chromosome.RouteOf | src/GeneticAlgorithm/GeneticAlgorithm.java:131-135 | The copied route is route `v` of depot `k` |
| Chromosomes.Chromosome.RemoveFromDepot | src/Models/Chromosome.java:44 | Depot `k` removes the customer exactly when it holds the id |
| Chromosomes.Chromosome.InsertIntoDepot | src/GeneticAlgorithm/GeneticAlgorithm.java:140-141 | Depot `k`'s routes become the best-cost insertion of the list; the other depots are unchanged |
| Chromosomes.Chromosome.RerouteInDepot | src/GeneticAlgorithm/GeneticAlgorithm.java:153-155 | Depot `k` is rerouted; the others are unchanged |
| Chromosomes.Chromosome.FitnessOfDepot | src/Models/Chromosome.java:127 | One depot's fitness, leaving the plan as it is |
| Chromosomes.Chromosome.ScheduleDepot | src/Models/Chromosome.java:92-94 | Depot `k`'s routes become `Schedule` of its list, the fill then one rebalance pass, and the other depots keep theirs; the routes concatenate to its customer list |
| Chromosomes.Chromosome.RemoveCustomers | src/Models/Chromosome.java:41-49 | Each listed customer is removed once, from the first depot holding it, so the plan's ids lose exactly the listed ids that were held |
| Chromosomes.Chromosome.RemoveOne | src/Models/Chromosome.java:43-47 | One customer is removed from the first depot that holds it |
| Chromosomes.Chromosome.InterDepot | src/Models/Chromosome.java:97-116 | The customer of the drawn swap leaves whichever of its two depots holds it and is inserted into the other; the plan's ids are unchanged |
| Chromosomes.Chromosome.Move | src/Models/Chromosome.java:107-109 | The found customer is removed from one depot and inserted into the other |
| Chromosomes.Chromosome.MoveBack | src/Models/Chromosome.java:110-114 | The else branch: looked up in the second depot, moved to the first |
| Chromosomes.Chromosome.GetFitness | src/Models/Chromosome.java:125-128 | The sum of the depots' fitness in depot order, leaving the plan unchanged |
| Chromosomes.Chromosome.IsFeasible | src/Models/Chromosome.java:130-137 | True exactly when every route of every depot is within capacity |
| Chromosomes.Chromosome.CheckNumCustomers | src/Models/Chromosome.java:118-123 | The test passes exactly when the summed route lengths equal `numCustomers`, which holds for every conserved chromosome |
| Chromosomes.Chromosome.ScheduleRoutes | src/Models/Chromosome.java:91-95 | Every depot's routes become `Schedule` of its own list (`Scheduled`) and concatenate to it, so a clustered chromosome ends conserved |
| Chromosomes.Chromosome.Compare | src/Models/Chromosome.java:139-146 | The static compare answers the comparison of the two fitness values |
| GeneticSpec.SortDown | src/GeneticAlgorithm/GeneticAlgorithm.java:64 | An insertion sort of (fitness, chromosome) pairs by non-increasing fitness. `GeneticSpec.SortDownSorted` proves it sorted and a permutation |
| GeneticSpec.SortDownSorted | src/GeneticAlgorithm/GeneticAlgorithm.java:64 | The sort yields a non-increasing permutation of its input |
| GeneticSpec.SortDownMembers | src/GeneticAlgorithm/GeneticAlgorithm.java:64 | The sort introduces nothing new |
| GeneticSpec.ValuesSortDown | src/GeneticAlgorithm/GeneticAlgorithm.java:64 | The sorted chromosomes are a permutation of the input chromosomes |
| GeneticSpec.Elites | src/GeneticAlgorithm/GeneticAlgorithm.java:65-67 | What elitism appends: the parents from the last down to index `POPULATION_SIZE-ELITISM`. `GeneticSpec.ElitesAt` states its length and order |
| GeneticSpec.ElitesAt | src/GeneticAlgorithm/GeneticAlgorithm.java:63-68 | The elites are `parents` from index `size-1` down to `POPULATION_SIZE-ELITISM`. That is `ELITISM` of them when there are `POPULATION_SIZE` parents, best first |
| GeneticSpec.Collect | src/GeneticAlgorithm/GeneticAlgorithm.java:72-81 | The countdown of `feasibleElitism`: from the last parent down, keep the feasible ones until `k` are kept, none when the index runs out first. `GeneticSpec.CollectSpec` gives both directions |
| GeneticSpec.CollectSpec | src/GeneticAlgorithm/GeneticAlgorithm.java:70-83 | The countdown finds its `k` feasible chromosomes exactly when at least `k` are feasible, and what it finds are feasible ones |
| GeneticSpec.FirstWins | src/GeneticAlgorithm/GeneticAlgorithm.java:92-99 | The tournament clones the first drawn parent when the KEEP_BEST coin fails, or when `compare` ranks it above the second. `GeneticSpec.KeepBestIsFitter` characterises it |
| GeneticSpec.KeepBestIsFitter | src/GeneticAlgorithm/GeneticAlgorithm.java:92-97 | With the KEEP_BEST coin, `p1` is kept exactly when its fitness is strictly lower, so the clone is of the lower fitness |
| GeneticSpec.Crossed | src/GeneticAlgorithm/GeneticAlgorithm.java:137-141 | One child of crossover: the other parent's route customers leave wherever they are, then enter depot `d` by `bestCostInsertions`. `GeneticSpec.CrossedIds` and `GeneticSpec.CrossedConserves` give its effect |
| GeneticSpec.CrossedIds | src/GeneticAlgorithm/GeneticAlgorithm.java:137-141 | A child's ids are its parent's with the other parent's route ids taken out once and put back once |
| GeneticSpec.CrossedConserves | src/GeneticAlgorithm/GeneticAlgorithm.java:125-143 | If both parents held every customer exactly once, the child does too |
| GeneticSpec.Child | src/GeneticAlgorithm/GeneticAlgorithm.java:125-143 | A child keeps its shape and its ids are its parent's, minus the other's route ids, plus them again |
| GeneticSpec.ChildConserves | src/GeneticAlgorithm/GeneticAlgorithm.java:125-143 | A child of two conserved parents is conserved |
| GeneticSpec.RerouteKeepsHoldings | src/GeneticAlgorithm/GeneticAlgorithm.java:150-158 | Mutating one depot keeps the plan's shape and ids |
| GeneticSpec.Rerouted | src/GeneticAlgorithm/GeneticAlgorithm.java:150-158 | Mutation on the drawn depot, vehicle and position keeps the plan's shape and ids |
| Genetic.Mutated | src/GeneticAlgorithm/GeneticAlgorithm.java:114-119 | The MUTATION_PROB coin: without it the plan is unchanged; with it, the ids are kept |
| Genetic.Bred | src/GeneticAlgorithm/GeneticAlgorithm.java:107-120 | One pair of `nextPopulation` keeps both plans' shape |
| Genetic.BredConserves | src/GeneticAlgorithm/GeneticAlgorithm.java:107-120 | A conserved pair stays conserved through crossover and both mutations |
| Genetic.Breed | src/GeneticAlgorithm/GeneticAlgorithm.java:105-123 | The whole pass keeps the population's size and every plan's shape |
| Genetic.BreedConserves | src/GeneticAlgorithm/GeneticAlgorithm.java:105-123 | The pass keeps every plan of a conserved population conserved |
| Genetic.BreedKeepsElites | src/GeneticAlgorithm/GeneticAlgorithm.java:106 | The pass never touches the plans at indices below `ELITISM` |
| Genetic.SortedRanked | src/GeneticAlgorithm/GeneticAlgorithm.java:64 | Keys that are the fitness values, in non-increasing order, rank the chromosomes by fitness, best last |
| Genetic.FeasibleElitesFound | src/GeneticAlgorithm/GeneticAlgorithm.java:70-83 | The walk finds its elites exactly when at least `ELITISM` parents are feasible, and then exactly `ELITISM` of them |
| Genetic.ElitesAreParents | src/GeneticAlgorithm/GeneticAlgorithm.java:70-83 | Every elite found is a feasible parent |
| Genetic.Walk | src/GeneticAlgorithm/GeneticAlgorithm.java:72-81 | The countdown loop from the last parent computes exactly the feasible elites, or none when the index runs out |
| Genetic.ElitesIntact | src/GeneticAlgorithm/GeneticAlgorithm.java:63-68 | The elites of conserved parents are conserved |
| Genetic.ElitesAreBest | src/GeneticAlgorithm/GeneticAlgorithm.java:63-68 | After the sort, no elite has a higher fitness than any parent that is not taken |
| Genetic.ElitesInOrder | src/GeneticAlgorithm/GeneticAlgorithm.java:63-68 | The elites are appended best first |
| Genetic.PickAt | src/GeneticAlgorithm/GeneticAlgorithm.java:87-100 | The kept parent is one of the two drawn |
| Genetic.Pick | src/GeneticAlgorithm/GeneticAlgorithm.java:87-100 | The kept chromosome is a parent |
| Genetic.PickIsFitter | src/GeneticAlgorithm/GeneticAlgorithm.java:87-100 | With the coin, the kept parent is at least as fit as both drawn; without it, it is the first drawn |
| Genetic.GeneticAlgorithm.constructor | src/GeneticAlgorithm/GeneticAlgorithm.java:19-23 | Both lists start empty |
| Genetic.GeneticAlgorithm.Adopt | src/GeneticAlgorithm/GeneticAlgorithm.java:47 | A new chromosome is appended to the population |
| Genetic.GeneticAlgorithm.Promote | src/GeneticAlgorithm/GeneticAlgorithm.java:66 | A parent is appended to the population, by reference |
| Genetic.GeneticAlgorithm.RemoveFrom | src/GeneticAlgorithm/GeneticAlgorithm.java:137-138 | One chromosome loses the listed customers; every other chromosome keeps its plan |
| Genetic.GeneticAlgorithm.InsertInto | src/GeneticAlgorithm/GeneticAlgorithm.java:140-141 | One chromosome's depot `k` takes the listed customers; every other chromosome keeps its plan |
| Genetic.GeneticAlgorithm.RerouteIn | src/GeneticAlgorithm/GeneticAlgorithm.java:153-155 | One chromosome's depot `k` is rerouted; the others keep their plans |
| Genetic.GeneticAlgorithm.ScheduleOne | src/GeneticAlgorithm/GeneticAlgorithm.java:53 | The chromosome's depots get the `Schedule` of their lists, and a clustered one ends conserved; the others keep their plans |
| Genetic.GeneticAlgorithm.InitPopulation | src/GeneticAlgorithm/GeneticAlgorithm.java:45-49 | Appends `POPULATION_SIZE` fresh chromosomes. The j-th is clustered, its depot lists are the closest-depot clusters in the order `shuffles[j]` gives, and its plan is empty (`Newcomers`) |
| Genetic.GeneticAlgorithm.InitRound | src/GeneticAlgorithm/GeneticAlgorithm.java:46-48 | One loop round of `initPopulation`: the i-th new chromosome joins, and the earlier newcomers keep their clusters and empty plans (`Newcomers`) |
| Genetic.GeneticAlgorithm.AddChromosome | src/GeneticAlgorithm/GeneticAlgorithm.java:47 | One new chromosome is appended, with the closest-depot clusters ordered by `shuffle` and an empty plan; the earlier members and their plans are kept |
| Genetic.GeneticAlgorithm.ScheduleRoutes | src/GeneticAlgorithm/GeneticAlgorithm.java:51-55 | Afterwards every member's depots hold the `Schedule` of their lists, and every clustered member is conserved |
| Genetic.GeneticAlgorithm.ScheduleRoutesAt | src/GeneticAlgorithm/GeneticAlgorithm.java:52-54 | One loop round extends the scheduled layout and conservation to member `i`, keeping them for the members before it, even when one object sits at two positions |
| Genetic.GeneticAlgorithm.Run | src/GeneticAlgorithm/GeneticAlgorithm.java:25-43 | After start-up and `GENERATIONS` generations, the population has `POPULATION_SIZE` members and every one holds every customer exactly once |
| Genetic.GeneticAlgorithm.Start | src/GeneticAlgorithm/GeneticAlgorithm.java:26-27 | `initPopulation` then `scheduleRoutes`: `POPULATION_SIZE` conserved chromosomes; the j-th has the closest-depot clusters ordered by `shuffles[j]`, each laid out by `Schedule` |
| Genetic.GeneticAlgorithm.Evolve | src/GeneticAlgorithm/GeneticAlgorithm.java:29-42 | The generation loop keeps the size and conservation |
| Genetic.GeneticAlgorithm.Generation | src/GeneticAlgorithm/GeneticAlgorithm.java:30-33 | One generation: the parents are the old population, sorted so that fitness never increases, with their plans kept. The new population's plans are `Breed` of the `Selection` of the parents' plans: `POPULATION_SIZE` members, all conserved, starting with the elites' plans |
| Genetic.GeneticAlgorithm.ResetPopulation | src/GeneticAlgorithm/GeneticAlgorithm.java:57-61 | `parents` becomes the old population, same elements in the same order, and the population is emptied |
| Genetic.GeneticAlgorithm.SortParents | src/GeneticAlgorithm/GeneticAlgorithm.java:64 | The parents become a permutation of themselves, ordered by non-increasing fitness, with no plan changed |
| Genetic.GeneticAlgorithm.Keys | src/GeneticAlgorithm/GeneticAlgorithm.java:64 | Each parent is paired with its fitness, in order |
| Genetic.GeneticAlgorithm.Reorder | src/GeneticAlgorithm/GeneticAlgorithm.java:64 | The sorted pairs give a fitness-ordered permutation of the parents |
| Genetic.GeneticAlgorithm.Replace | src/GeneticAlgorithm/GeneticAlgorithm.java:64 | The parents are replaced by a permutation of themselves |
| Genetic.GeneticAlgorithm.Elitism | src/GeneticAlgorithm/GeneticAlgorithm.java:63-68 | The parents are sorted (a permutation, best last), and the population gains exactly the elites, best first |
| Genetic.GeneticAlgorithm.PromoteElites | src/GeneticAlgorithm/GeneticAlgorithm.java:65-67 | The loop appends `parents[size-1]` down to `parents[POPULATION_SIZE-ELITISM]` |
| Genetic.GeneticAlgorithm.Survivors | src/GeneticAlgorithm/GeneticAlgorithm.java:30-31 | Reset then elitism: the parents are the old population reordered by fitness, and the population is their elites, all conserved |
| Genetic.GeneticAlgorithm.ElitesOfParents | src/GeneticAlgorithm/GeneticAlgorithm.java:31 | Elitism on an empty population of conserved parents |
| Genetic.GeneticAlgorithm.FeasibleElitism | src/GeneticAlgorithm/GeneticAlgorithm.java:70-83 | The parents are sorted. When at least `ELITISM` are feasible the population gains the first `ELITISM` feasible ones from the end; otherwise it is unchanged and the answer is false |
| Genetic.GeneticAlgorithm.CollectElites | src/GeneticAlgorithm/GeneticAlgorithm.java:72-82 | The collected elites are appended only when the walk finds all of them |
| Genetic.GeneticAlgorithm.PromoteAll | src/GeneticAlgorithm/GeneticAlgorithm.java:82 | `addAll`: the population gains the list, in order |
| Genetic.GeneticAlgorithm.Winner | src/GeneticAlgorithm/GeneticAlgorithm.java:87-100 | The parent the tournament rule keeps for the drawn pair and coin |
| Genetic.GeneticAlgorithm.AdoptCopy | src/GeneticAlgorithm/GeneticAlgorithm.java:94-101 | A fresh clone of the winner, holding its plan, is appended |
| Genetic.GeneticAlgorithm.Round | src/GeneticAlgorithm/GeneticAlgorithm.java:87-101 | One round appends a fresh clone of the kept parent and changes no plan |
| Genetic.GeneticAlgorithm.SelectRound | src/GeneticAlgorithm/GeneticAlgorithm.java:86-102 | One loop round extends the selection invariant by one clone |
| Genetic.GeneticAlgorithm.TournamentSelection | src/GeneticAlgorithm/GeneticAlgorithm.java:85-103 | Appends exactly one fresh, distinct clone per duel, each of the parent the rule keeps. The parents and the earlier population keep their plans |
| Genetic.GeneticAlgorithm.Breeders | src/GeneticAlgorithm/GeneticAlgorithm.java:31-32 | After elitism and selection the population has exactly `POPULATION_SIZE` members, elites first, and every pair is two different chromosomes |
| Genetic.GeneticAlgorithm.ClonesIntact | src/GeneticAlgorithm/GeneticAlgorithm.java:85-103 | Clones of conserved parents, after conserved elites, make a conserved population |
| Genetic.GeneticAlgorithm.Crossover | src/GeneticAlgorithm/GeneticAlgorithm.java:125-143 | Each child's plan is the crossover child at the drawn depot, built from the other parent's drawn route; every other chromosome is unchanged |
| Genetic.GeneticAlgorithm.RemoveBoth | src/GeneticAlgorithm/GeneticAlgorithm.java:137-138 | Each parent loses the other's route customers |
| Genetic.GeneticAlgorithm.InsertBoth | src/GeneticAlgorithm/GeneticAlgorithm.java:140-141 | Each parent's drawn depot takes the other's route customers, with that child's coins and vehicle draws |
| Genetic.GeneticAlgorithm.Mutation | src/GeneticAlgorithm/GeneticAlgorithm.java:145-158 | The chromosome's drawn depot is rerouted |
| Genetic.GeneticAlgorithm.MaybeMutate | src/GeneticAlgorithm/GeneticAlgorithm.java:114-119 | Mutation under the MUTATION_PROB coin |
| Genetic.GeneticAlgorithm.Cross | src/GeneticAlgorithm/GeneticAlgorithm.java:107-120 | One pair under the XOVER_PROB coin: crossover, then each child's mutation |
| Genetic.GeneticAlgorithm.BreedPair | src/GeneticAlgorithm/GeneticAlgorithm.java:107-120 | The pair at `(i, i+1)` becomes what `Bred` gives; the other chromosomes keep their plans |
| Genetic.GeneticAlgorithm.BreedStep | src/GeneticAlgorithm/GeneticAlgorithm.java:106-121 | One loop round: the pair at `ELITISM + 2p` advances the pass by one step |
| Genetic.GeneticAlgorithm.NextPopulation | src/GeneticAlgorithm/GeneticAlgorithm.java:105-123 | The population's plans become the pairwise pass over `(i, i+1)` from `ELITISM` in steps of 2, with the parents' plans unchanged |
| Genetic.GeneticAlgorithm.Reproduce | src/GeneticAlgorithm/GeneticAlgorithm.java:32-33 | Selection then `nextPopulation` on parents sorted by fitness: the parents stay sorted (fitness never increases) and every parent keeps its plan, the new population starts with the plans of the `ELITISM` best parents and is `Breed` of the `Selection` |
| Genetic.GeneticAlgorithm.Offspring | src/GeneticAlgorithm/GeneticAlgorithm.java:32-33 | Selection then `nextPopulation` from conserved parents: the plans become `Breed` of the `Selection` of the parents' plans, `POPULATION_SIZE` conserved chromosomes with the elites' plans first, and the parents' plans are kept |
| Genetic.GeneticAlgorithm.SelectedPlans | src/GeneticAlgorithm/GeneticAlgorithm.java:63-103 | After elitism and `tournamentSelection`, the population's plans are exactly the `Selection` of the parents' plans |
| Genetic.Selection | src/GeneticAlgorithm/GeneticAlgorithm.java:63-103 | The plans `nextPopulation` starts from: the elites' plans, then one plan per duel, each a parent's plan; all of the instance's shape |
| Genetic.SelectionPicks | src/GeneticAlgorithm/GeneticAlgorithm.java:92-99 | `Selection` starts with the elites' plans, and takes for each duel the first drawn plan without the KEEP_BEST coin, with it the one of lower fitness, the second on a tie |

## Left out

- Randomness: every draw is a parameter.
  - `nextInt(n)` is an arbitrary `nat` taken modulo `n`.
  - A `Math.random() <= P` test is a `bool`, so the probabilities KEEP_BEST, MUTATION_PROB, XOVER_PROB and INSERT_BEST are not constants of the model.
  - `Collections.shuffle` is any multiset-preserving function.
- I/O and logging are not modelled, because they have no effect on the solutions:
  - `getFitness` and `bestFeasible` of the genetic algorithm: averages and the best fitness, printed only;
  - the `i==50` diagnostic in `main`;
  - the `System.out` duplicate diagnostics in `insertCustomer` and `checkNumCustomers`;
  - the `System.out.println(true)` for each feasible elite in `feasibleElitism`;
  - `ProblemInit`, `Utils.writeSolution` and the plotting scripts.
- `Utils.EuclideanDist`: floating-point `sqrt` is not modelled. The distance is the function parameter `euclid`, and nothing depends on its value beyond the symmetry of the table.
- IEEE-754 arithmetic: sums and the division in the swap bound are computed on reals. When the closest depot's distance is 0, Java's double quotient `swapCriteria` is +Infinity (or NaN when both distances are 0), so `swapCriteria <= SWAP_BOUND` is false and no swap is recorded for that customer (MDVRP.java:186-192). The model states exactly this: no depot qualifies when the closest distance is 0 (`Problem.MDVRP.Qualifies`).
- `testLengthIncrement`: its body is not part of this model. It is the predicate parameter `lengthOk` over the depot's id, the vehicle's route and the customer, and `maxLength` (PENALTY_LENGTH) plays no other part.
- `Vehicles.Vehicle.GetCustomerById`: `Vehicle.getCustomerById`, which `Depot.getCustomerById` calls, is not part of this model. It is modelled as the first customer of the route with that id, or none.
- `Depot.swap` and `Depot.reverse`: they call `Vehicle.setCustomer` and `Vehicle.reverse`, which are not part of this model.
- Depot.java calls Vehicle members that Vehicle.java does not define: `new Vehicle(maxLoad, maxLength, this)`, `testLengthIncrement`, `setCustomer` and `reverse`, and passes an extra `problem` argument to `insertCustomerIfFeasible`, `bestInsertion`, `getFitness` and `getFeasibility`. GeneticAlgorithm.java sorts with `compareTo`, which Chromosome.java does not define. The model follows the bodies in Vehicle.java and passes the distance table explicitly:
  - the `maxLength` argument of `new Vehicle` and the extra `problem` arguments are dropped;
  - `compareTo`/`Collections.sort` is read as ascending by `compare`, which puts the best chromosome last;
  - `mutation`/`customerReroute` with no `problem` argument means `Depot.customerReroute`.
- `Genetic.GeneticAlgorithm.SortParents`: the library sort is modelled by its result, a fitness-ordered permutation, not by the algorithm of `Collections.sort`. Its stability is not stated: `Collections.sort` keeps parents of equal fitness in their old order, and so decides which of them `elitism` promotes; the model allows any order among them.
- `Genetic.GeneticAlgorithm.TournamentSelection`: requires a non-empty `parents` list, since `nextInt(0)` throws.
- `Genetic.GeneticAlgorithm.Crossover`: requires the two chromosomes to be different objects. `nextPopulation` only pairs distinct clones, which `Breeders` proves.
- `Genetic.GeneticAlgorithm.NextPopulation`: requires every pair to be two different chromosomes (`Breedable`). `Breeders` establishes this after selection.
- `Genetic.GeneticAlgorithm.FeasibleElitism`: when fewer than `ELITISM` parents are feasible, the Java countdown reads `parents.get(-1)` and throws. The model answers `false` and leaves the population unchanged instead.
- `Genetic.GeneticAlgorithm.InitPopulation`: requires these, all of which `main` meets:
  - at least one depot and one vehicle, because `nextInt` of 0 would throw;
  - every depot to be some customer's closest, because a depot without a cluster receives a null list that is then shuffled;
  - the instance object to lie outside the chromosomes' footprint.
- `Chromosomes.Chromosome.constructor`: requires, as `InitPopulation` does:
  - every depot to be some customer's closest, because `clusterCustomers` otherwise shuffles a null list;
  - at least one depot and one vehicle.
- `Problem.MDVRP.RandomSwappable`: requires a non-empty `swappable` list, because Java's `random.nextInt(this.swappable.size())` throws when it is empty.
- `Chromosomes.Chromosome.InterDepot`: requires one of the two depots of the drawn swap to hold the customer, because otherwise Java dereferences null.
- Depots.Depot.ScheduleRoutes, Depots.Depot.RebalanceRoutes, Depots.Depot.RebalanceStep, Depots.Depot.MoveCost: follow the corrected pass of the first finding below. On a one-customer route whose customer passes the demand and length tests they move it with the singleton delta, where Java throws at `getSecondLastCustomer`. Wherever the Java pass does not throw, they agree with it (`DepotSpec.RebalanceAsWrittenAgrees`).
- `Vehicles.Vehicle.GetSecondLastCustomer`: requires two customers. The pass as written reaches it with one, which is the first finding below.
- The depot fitness cache is modelled as corrected, with every change of a depot's routes setting its flag. Depot.java never calls `Depot.setUpdated`, which is the second finding below.
- The generic `main(String[])` entry and `Main.java` are not modelled, because they only construct and start the algorithm.

## Findings

| source | as written | input that shows it | evidently intended | confidence | as-written member | corrected member |
|---|---|---|---|---|---|---|
| src/Models/Depot.java:229-232 | The rebalance pass asks route i for its second-last customer as soon as the next route has room and is non-empty, even when route i holds one customer; `getSecondLastCustomer` then reads index -1 and throws | one depot, two vehicles, capacity 10, customers of demand 5 and 5, and a length test that passes (`OneCustomerRouteCrashes` takes one that always does): the fill phase makes routes [c0] and [c1], and the pass fails on route 0 | A one-customer route moves its customer with the delta of its two depot legs; the pass keeps the customers and never raises the cost | not executed; high | DepotSpec.OneCustomerRouteCrashes | DepotSpec.RebalanceCost |
| src/Models/Depot.java:48-85 | `getFitness` caches the depot's fitness and clears the flag, but no operation of the depot (`removeCustomer`, `bestCostInsertions`, `customerReroute`, `scheduleRoutes`) sets it again, so later calls answer a stale value | one route [c0, c1] costing 3 within capacity: after `getFitness` and the removal of c1 the route costs 2, yet `getFitness` answers 3 | Every change of the routes sets the flag, and `getFitness` always answers the fitness of the routes as they stand | not executed; medium (another class may call `Depot.setUpdated`) | DepotSpec.StaleDepotFitness | Depots.Depot.GetFitness |
