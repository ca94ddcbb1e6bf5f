/** The tuning constants of the genetic algorithm that the modelled core reads.
    The probabilities (KEEP_BEST, MUTATION_PROB, XOVER_PROB, INSERT_BEST) only
    decide random coins; each such coin is passed to the model as a bool. */
module Parameters {
  const POPULATION_SIZE: nat := 400
  const GENERATIONS: nat := 3000
  const ELITISM: nat := 4
  const SWAP_BOUND: real := 0.5
  const PENALTY_DEMAND: real := 10.0
}
