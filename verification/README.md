# A genetic algorithm for the travelling-salesman problem, in Dafny

This project models `test3.py`, a small genetic-algorithm engine for the
travelling-salesman problem, and proves properties of that model.

- **Registry (`TourManager`).** A read-only list of destination cities. It
  also carries the edge weight that tours are measured with.
- **Tour.** A row of city slots, where an empty slot is `None`. A tour also
  keeps two lazily computed caches, its closed-loop length and its fitness.
  In each cache, 0 means "not computed yet".
- **Population.** A row of slots holding tours. Its `getFittest` is a scan
  for the maximum that lets a later tour win a tie.
- **GA.** The genetic operators and one generation step:
  - tournament selection;
  - a variant of ordered crossover;
  - in-place swap mutation;
  - `evolvePopulation`, with elitism.

Each of `Tour`, `Population` and `GA` is a Dafny `class`, as in the source. A
tour's slots and caches, and a population's slots, are fields that the
methods update in place. The loops of `generateIndividual`, `getDistance`,
the populating loop of `Population.__init__`, `getFittest`, `crossover`,
`mutate`, `tournamentSelection` and `evolvePopulation` are loops here, with
their invariants. The two loops that only append `None` slots, in
`Tour.__init__` and `Population.__init__`, become a row of empty slots
built in one step.

The operators are also stated on plain values, as specification functions:

- `Cross` for the crossover;
- `Mutated` for the mutation;
- `Tournament` for tournament selection;
- `NextGeneration` for a whole generation step.

Each method is proved to compute its function. The properties are proved as
lemmas about those functions. The main result is about crossover: when both
parents are complete tours of the same distinct cities, the child is one too.
The lemmas also give the exact positions the child takes from the first
parent, and the order in which the remaining cities come from the second.

Every random draw is a parameter of the operation that makes it:

- the shuffle in `generateIndividual`;
- the two cut points of a crossover;
- the sampled slots of a tournament;
- the roll per position and the partner position in a mutation.

The `Breeding` datatype bundles all the draws that make one child.

Modules, one per file:

| module | file | models |
|---|---|---|
| `Slots` | slots.dfy | rows of optional cities; "complete tour of these cities" |
| `Cities` | cities.dfy | `City`, `TourManager`, `City.distanceTo` |
| `Tours` | tours.dfy | `Tour` and the length of a closed tour |
| `Populations` | populations.dfy | `Population` and its fittest-scan |
| `OrderedCrossover` | crossover.dfy | the crossover rule on values |
| `Mutation` | mutation.dfy | the swap mutation on values |
| `Genetic` | genetic.dfy | `GA`: selection, crossover, mutation, a generation step |

## Model

| member | source | states |
|---|---|---|
| Cities.EuclideanSymmetric | test3.py:39-43 | the straight-line distance between two registered cities is the same in both directions |
| Cities.EuclideanZero | test3.py:39-43 | the straight-line distance between two registered cities is zero exactly when they are the same city |
| Tours.LegSumIsClosedLength | test3.py:109-117 | the sum the distance loop accumulates, leg by leg with the closing leg back to slot 0, is the open path through all cities plus the edge from the last back to the first |
| Tours.TourLengthNonNegative | test3.py:107-119 | a complete tour of the registered cities has non-negative length |
| Tours.EuclideanTourLength | test3.py:102-119 | under the straight-line distance, a complete tour of distinct cities has non-negative length, positive exactly when there are at least two cities, which is when its fitness is defined |
| Tours.FitnessOrder | test3.py:102-105 | fitness is positive and orders tours inversely to length: the shorter tour is at least as fit, and conversely |
| Tours.PermuteKeepsMultiset | test3.py:92 | rearranging a row by any permutation of its positions keeps its multiset of entries, repeated entries included |
| Tours.ShuffleIsTour | test3.py:89-92 | the registered cities, one per slot and rearranged by any permutation, form a complete tour of those cities, whether or not a city is registered twice |
| Tours.Tour.constructor | test3.py:63-72 | a new tour has one empty slot per registered city and both caches unset |
| Tours.Tour.FromSlots | test3.py:63-72 | a tour made from given slots holds exactly those slots with both caches unset |
| Tours.Tour.SetCity | test3.py:97-100 | writing a slot changes only that slot and resets both caches to 0, which keeps the caches consistent |
| Tours.Tour.ContainsCity | test3.py:124-125 | for a city, true exactly when the city is among the cities the tour's filled slots hold, the view the tour lemmas count with |
| Tours.Tour.GetDistance | test3.py:107-119 | returns the closed-loop length of the tour and caches it; a cached value is returned unchanged |
| Tours.Tour.GetFitness | test3.py:102-105 | returns the reciprocal of the tour's length and caches it; a cached value is returned unchanged, and both caches stay untouched |
| Tours.Tour.GenerateIndividual | test3.py:89-92 | the tour becomes the registered cities, one per slot, rearranged by the given shuffle, with both caches unset |
| Populations.LastArgMaxIsLastMax | test3.py:152-157 | the fittest-scan ends on a largest fitness, and every later position has strictly smaller fitness: among ties the last wins |
| Populations.ScanStep | test3.py:154-156 | one step of the scan replaces the running best by the current position exactly when that position is at least as fit |
| Populations.Population.constructor | test3.py:129-138 | a population of the given size; without `initialise` every slot is empty; with it, every slot holds a new, distinct tour of the registered cities shuffled by its own draw, each a complete tour of the registered cities |
| Populations.Population.SaveTour | test3.py:146-147 | puts a tour into one slot and leaves every other slot alone |
| Populations.Population.ScanSlot | test3.py:155-156 | compares the running best with one slot and keeps the scan's running best; slot rows and fitness values are unchanged |
| Populations.Population.GetFittest | test3.py:152-157 | returns the tour in the slot the scan ends on, the last among the fittest; no slot row or fitness changes |
| OrderedCrossover.FirstEmpty | test3.py:203-206 | the position the inner fill loop writes to: an empty slot with every slot before it filled, or the length when none is empty |
| OrderedCrossover.CrossoverIsTour | test3.py:188-208 | with both parents complete tours of the same distinct cities, the child is a complete tour of those cities, whatever the cut points |
| OrderedCrossover.CrossoverCopiesChosen | test3.py:194-199 | at every position the cut rule chooses, the child holds the first parent's city |
| OrderedCrossover.CrossoverFillsInOrder | test3.py:201-206 | the positions the cut rule does not choose, read left to right, hold exactly the second parent's cities missing from the copied segment, in the second parent's order |
| OrderedCrossover.EqualCutsGiveParent2 | test3.py:194-206 | equal cut points copy nothing, so the child equals the second parent |
| Mutation.SwapExchanges | test3.py:215-219 | a triggered step makes the two slots trade places, leaves every other slot unchanged and keeps the multiset of cities |
| Mutation.SwapSelf | test3.py:213-219 | a step whose partner position is its own position changes nothing |
| Mutation.SwapsPermute | test3.py:210-219 | the whole mutation only rearranges the row: the multiset of cities is preserved |
| Mutation.NoFiringNoChange | test3.py:210-212 | when no roll falls below the rate, the row is unchanged |
| Mutation.ZeroRateNoChange | test3.py:210-212 | with a rate no roll drawn from [0, 1) can fall below, the row is unchanged |
| Mutation.MutationKeepsTour | test3.py:210-219 | mutating a complete tour of some cities gives a complete tour of the same cities |
| Genetic.TournamentWinner | test3.py:221-227 | the tournament picks one of the sampled slots, at least as fit as every sample and strictly fitter than every sample drawn after it |
| Genetic.OffspringIsTour | test3.py:177-184 | a child bred from complete tours of distinct cities and then mutated is a complete tour of them |
| Genetic.NextGenerationKeepsTours | test3.py:170-186 | if every tour of a population is a complete tour of the same distinct cities, so is every tour of the next generation |
| Genetic.GA.constructor | test3.py:164-168 | mutation rate 0.015, tournament size 5, elitism on |
| Genetic.GA.Crossover | test3.py:188-208 | the child is a new tour, consistent, whose slots are the crossover of the parents' slots with the given cut points |
| Genetic.GA.Mutate | test3.py:210-219 | the tour's slots become the mutation of its old slots under the given draws; caches are reset exactly when some roll fires |
| Genetic.GA.Sample | test3.py:222-225 | the tournament population holds the input population's tours in the sampled slots, in the order drawn |
| Genetic.GA.TournamentSelection | test3.py:221-227 | returns the population's tour in the slot the tournament picks; only the tours' caches change |
| Genetic.GA.Breed | test3.py:178-180 | the child is a new tour whose slots are the crossover of the two tournament winners |
| Genetic.GA.BreedInto | test3.py:178-181 | one round of the breeding loop puts a new child into its slot and keeps the earlier children as they were |
| Genetic.GA.BreedFrom | test3.py:177-181 | from the first slot after the elite on, every slot holds a new, unmutated child bred with that slot's draws |
| Genetic.GA.MutateSlot | test3.py:184 | the tour in one slot is mutated in place with its draws; the other children stay |
| Genetic.GA.MutateFrom | test3.py:183-184 | from the first slot after the elite on, every child is mutated in place with its own slot's draws |
| Genetic.GA.FillFrom | test3.py:177-184 | the slots after the elite hold freshly allocated, pairwise distinct tours over the engine's registry, none of them a tour of the input; their rows are the offspring of their draws |
| Genetic.GA.MutateBred | test3.py:183-184 | each freshly bred child is mutated in place with its own slot's draws, and the input population's slot rows and fitness values stay as they were |
| Genetic.GA.SaveElite | test3.py:173-175 | slot 0 of the new population holds the input's fittest tour itself, the last among ties |
| Genetic.GA.Populate | test3.py:172-186 | fills the new population: the elite, then the bred and mutated children, each a freshly allocated tour over the engine's registry, no two the same object and none a tour of the input; the rows are the next generation |
| Genetic.GA.EvolvePopulation | test3.py:170-186 | the result is a new population of the same size with no empty slot. With elitism, slot 0 is the input's fittest tour, not mutated. Every other slot holds a freshly allocated tour over the engine's registry, no two of them the same object and none of them a tour of the input. The slot rows equal the next generation, and the input's tours keep their slots and rows |

## Left out

- Random draws: `random.random`, `random.shuffle` and the `int(random.random() * n)` index draws are not modelled. Each draw is a parameter constrained to its range: a shuffle is a permutation of positions, a partner position is below the row length, a cut point is any natural number (see the next line), a tournament slot is below the population size, and a roll is any real.
- Cut points: `Genetic.GA.Crossover` accepts any natural numbers as cut points. The cut rule is defined for all of them, which covers the draws in `[0, n)` that the source makes.
- Floating point: `math.sqrt` in `distanceTo` and `1/float(...)` in `getFitness` are not modelled. The edge weight is an abstract function carried by the registry, and lengths and fitness are exact reals. `Cities.IsEuclidean` says when that function is the straight-line distance, and the Euclidean lemmas hold under it. Nothing is claimed about rounding or about whether the algorithm converges.
- `City` is a value: two cities are the same exactly when their coordinates agree. In the source, `in` and `==` on cities compare object identity. The two agree only when no two registered cities share coordinates. The source also handles a registry with two cities at the same coordinates, telling them apart by identity; the model merges them, so `Cross` would treat them as one city. Such a registry is outside the crossover lemmas, whose `Distinct` requirement excludes it.
- `City.__init__` draws random coordinates when none are given. That is not modelled: a city always has given coordinates. The getters `getX`/`getY` are field reads. The accessors `Tours.Tour.TourSize`/`GetCity`, `Populations.Population.GetTour`/`PopulationSize` and `Cities.Registry.NumberOfCities`/`GetCity` are field reads too, and have no rows of their own.
- `TourManager` is the immutable `Registry` value, and `addCity` is not modelled. In the source, `destinationCities` is a list shared by every instance of the class, which is an aliasing artefact. The model fixes the list of cities before any tour is made.
- `Tour(tourmanager, tour)` is `Tours.Tour.FromSlots`. The model copies the given row. The source shares the list object with the caller.
- `__repr__`, `__len__`, `__getitem__` and `__setitem__` of `City`, `Tour` and `Population` are not modelled. They are formatting and operator sugar over the fields. The script's driver, its hard-coded city list and its printing are left out too.
- `Tours.Tour.GetDistance` requires every slot to be filled. The source would raise on an empty slot, because it calls `distanceTo` on `None`.
- `Tours.Tour.GetFitness` requires every slot to be filled and the length to be non-zero. The source raises `ZeroDivisionError` on a zero length.
- `Tours.Tour.GetDistance`: the source's unset distance is the integer `0`, and here it is the real `0.0`. Both compare equal to a computed length of zero, so a zero-length tour is recomputed on every call in both.
- `Populations.Population.GetFittest` requires a non-empty population whose every slot holds a tour that can be scored. The source raises `IndexError` on an empty population, and fails on an empty slot or a zero-length tour.
- `Genetic.GA.EvolvePopulation` inherits the same requirement, because it calls `getFittest` on the input population (test3.py:174). It also requires every tour of the input to have one slot per registered city, as every tour the engine makes does.
- `Genetic.GA.TournamentSelection` requires every tour of the population to be scorable, though the source only scores the sampled tours (test3.py:222-226). Its one caller, `evolvePopulation`, has already scored every tour through `getFittest` (test3.py:174), with elitism always on, so the requirement holds wherever it is called.
- `Genetic.GA.Crossover` requires the first parent to have one slot per registered city. The crossover rule `Cross` sizes the child by the first parent, while the source sizes it by the registry. The two agree because every tour the engine builds has one slot per registered city.
- `OrderedCrossover.CrossoverIsTour`: the "complete tour" conclusion needs distinct registered cities. With a repeated city, `containsCity` skips the second copy and the child keeps an empty slot.
- The methods `Genetic.GA.Populate`, `FillFrom`, `BreedFrom`, `BreedInto`, `Breed`, `MutateBred`, `MutateFrom` and `MutateSlot` split `evolvePopulation` into smaller steps. Together they perform the source's statements in the source's order.
