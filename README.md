# Antenna placement by a binary genetic algorithm — a Dafny model

This project models the optimisation engine of the antenna-placement genetic algorithm. Two parts are modelled.

The problem model:
- A chromosome is a bit list. For each antenna it holds an x field and a y field of `bitsPerCoord` bits, most significant bit first.
- Decoding reads the fields and clamps each value to the map. A chromosome of the wrong length is rejected.
- Fitness is the number of clients within the coverage radius of at least one decoded antenna.

The evolution engine:
- It owns the population.
- Each generation is built by elitism: the best `elitismCount` individuals in stable descending-fitness order.
- The rest is filled with offspring. Each pair of offspring comes from roulette selection of two parents, two-point crossover when the crossover coin falls below the rate, and bit-flip mutation of each child.
- The new population is evaluated.
- The engine keeps the best individual found so far. It stops after `maxGenerations` generations, or once the stagnation count reaches `maxStagnantGenerations`.

Files:
- `results.dfy` — `Option`, `Result` and `Outcome` wrappers.
- `problem_domain.dfy` — module `ProblemDomain`: clients, the problem record, bit-string parsing, decoding (a loop method proved against a specification function), coverage and fitness, and a reference encoder proving decoding inverts it.
- `genetic_operators.dfy` — module `GeneticOperators`: the individual record, crossover, mutation given its draws, roulette selection given its draw, the stable ranking used for elitism, the first-maximum rule, and the best-so-far update.
- `random_source.dfy` — module `RandomSource`: the random generator as a class. It returns successive values of three fixed but arbitrary streams: uniform reals in [0, 1), bits, and cut pairs. It counts how many values of each it has handed out.
- `evolution.dfy` — module `Evolution`: the engine as a class `GeneticAlgorithm` with fields `population` and `generationsRun`. Its methods mirror the source's methods. A ghost history of (generation maximum, best so far, stagnation count) records the run, and lemmas about that history state the properties of best tracking and stopping.

The configuration constants become a `Config` value: population size, generations, elites, crossover rate, mutation rate and stagnation limit. Every property holds for every configuration and for every choice of the random streams.

Modelling decisions:
- The source parses a field with `int("".join(...), 2)`. That call raises on an empty string, so with `bitsPerCoord == 0` and at least one antenna, decoding fails with `EmptyBitString`.
- `max()` over an empty population raises. The model returns `EmptyPopulation` when `populationSize` is 0.
- `random.choices` with a zero total weight raises. The model returns `ZeroTotalWeight`.
- When the chosen index is valid, roulette selection is `bisect_right` over the cumulative weights, applied to `u * total` and limited to indices 0 .. n-1. This mirrors how choices picks an index.

## Model

| member | source | states |
|---|---|---|
| ProblemDomain.BinaryValue | problem_domain.py:85-87 | the MSB-first value of a bit string lies in [0, 2^n) |
| ProblemDomain.BitsToInt | problem_domain.py:85-87 | parsing fails exactly on the empty string, and otherwise the value is below 2^n |
| ProblemDomain.BinaryValueOfToBits | problem_domain.py:85-87 | reading back the n-bit representation of v < 2^n gives v |
| ProblemDomain.ToBitsOfBinaryValue | problem_domain.py:85-87 | re-encoding a parsed bit string in its own width gives the same bits |
| ProblemDomain.AllZerosValue | problem_domain.py:85-87 | all zero bits read as 0 |
| ProblemDomain.AllOnesValue | problem_domain.py:85-87 | n one bits read as 2^n - 1 |
| ProblemDomain.ChromosomeLength | problem_domain.py:56 | the chromosome length is 0 without antennas or bits, and otherwise the end of the last antenna's y field |
| ProblemDomain.FieldsInBounds | problem_domain.py:64-68 | antenna i's start, mid and end offsets are ordered and lie inside the chromosome |
| ProblemDomain.AntennaAt | problem_domain.py:64-73 | antenna i's position is its x and y fields read MSB first, each kept when within the map and clamped to the map size otherwise |
| ProblemDomain.Decoded | problem_domain.py:58-74 | the length error exactly on a length mismatch, the empty-field error exactly for empty fields with antennas, and otherwise one AntennaAt position per antenna |
| ProblemDomain.Decode | problem_domain.py:58-74 | the antenna loop returns exactly the specified decoding: the length error, the empty-field error, or one clamped pair per antenna |
| ProblemDomain.DecodeSucceeds | problem_domain.py:56-74 | decoding succeeds if and only if the length is num_antennas * bits_per_coord * 2 and the fields are not empty |
| ProblemDomain.DecodeInMap | problem_domain.py:65-74 | a successful decoding has num_antennas pairs, each at most the map size and never negative on a non-negative map |
| ProblemDomain.EncodeBlock | problem_domain.py:64-71 | in an encoded layout, antenna i owns genes [i*2b, (i+1)*2b): x then y |
| ProblemDomain.DecodeEncodeAt | problem_domain.py:64-73 | antenna i decodes back to its encoded in-map position: x from [i*2b, i*2b+b), y from [i*2b+b, (i+1)*2b) |
| ProblemDomain.DecodeEncode | problem_domain.py:58-74 | decoding inverts encoding for every layout of in-map positions representable in b bits |
| ProblemDomain.DecodeAllZeros | problem_domain.py:58-74 | the all-zero chromosome puts every antenna at (0, 0) |
| ProblemDomain.DecodeAllOnes | problem_domain.py:58-74 | the all-one chromosome puts every antenna at min(2^b - 1, map size) |
| ProblemDomain.DecodeIgnoresClients | problem_domain.py:58-74 | decoding does not depend on the client list |
| ProblemDomain.Covers | problem_domain.py:97 | an antenna covers a client only when the radius is non-negative and both offsets are within it; a client on the antenna is covered exactly for a non-negative radius |
| ProblemDomain.CoverageGrowsWithRadius | problem_domain.py:97 | a client covered at some radius stays covered at every larger radius |
| ProblemDomain.IsCovered | problem_domain.py:90-99 | a covered client needs at least one antenna and a non-negative radius |
| ProblemDomain.MoreAntennasCover | problem_domain.py:96-99 | adding antennas, before or after the others, never uncovers a client |
| ProblemDomain.CoveredCount | problem_domain.py:79-82 | the covered-client count never exceeds the number of clients |
| ProblemDomain.CalculateFitness | problem_domain.py:76-82 | fitness fails exactly when decoding fails, with the same error, and otherwise lies in [0, len(clients)] |
| ProblemDomain.CoveredCountIsSetSize | problem_domain.py:79-82 | the count equals the size of the set of covered client indices, so a client covered by several antennas counts once |
| ProblemDomain.CoveredCountExtremes | problem_domain.py:79-82 | the count is len(clients) if and only if every client is covered, and 0 if and only if none is |
| ProblemDomain.FitnessOfEmptyProblem | problem_domain.py:76-82 | with zero antennas or zero clients the fitness is 0 |
| ProblemDomain.AppendClient | problem_domain.py:76-82 | appending a client adds one to the fitness if it is covered and leaves it unchanged otherwise, so it never decreases |
| ProblemDomain.CoverageBoundary | problem_domain.py:96-99 | a client at exactly the radius is covered; a client farther than the radius from every antenna is not |
| GeneticOperators.Crossover | genetic_algorithm.py:155-168 | children keep the parents' length; parents shorter than 3 come back unchanged; otherwise the children swap exactly the positions in [p1, p2) |
| GeneticOperators.CrossoverKeepsGenePairs | genetic_algorithm.py:162-168 | at every index {child1[i], child2[i]} = {a[i], b[i]} |
| GeneticOperators.CrossoverConservesGenes | genetic_algorithm.py:162-168 | the children together hold the parents' genes, as multisets |
| GeneticOperators.CrossoverInvolution | genetic_algorithm.py:162-168 | crossing the children at the same cut points gives back the parents |
| GeneticOperators.Flipped | genetic_algorithm.py:170-174 | mutation keeps the length and changes gene i exactly when its draw is below the rate, to 1 - gene |
| GeneticOperators.FlippedAtRateZero | genetic_algorithm.py:170-174 | with rate 0 and draws in [0, 1) nothing changes |
| GeneticOperators.FlippedInvolution | genetic_algorithm.py:170-174 | mutating twice with the same draws restores the genes |
| GeneticOperators.Weights | genetic_algorithm.py:150 | there is one weight per individual, and it is max(fitness, 0): the fitness when positive, 0 otherwise |
| GeneticOperators.Bisect | genetic_algorithm.py:153 | the bisection returns an index of the population |
| GeneticOperators.Scaled | genetic_algorithm.py:153 | a draw in [0, 1) scaled by a positive total lies in [0, total) |
| GeneticOperators.Roulette | genetic_algorithm.py:147-153 | selection fails exactly when the total weight is 0, and otherwise returns a member's index |
| GeneticOperators.BisectInterval | genetic_algorithm.py:153 | the index found has its cumulative-weight interval around the scaled draw |
| GeneticOperators.BisectUnique | genetic_algorithm.py:153 | bisection returns k if and only if the scaled draw lies in [Prefix(k), Prefix(k+1)) |
| GeneticOperators.RouletteInterval | genetic_algorithm.py:147-153 | index k is chosen if and only if u * total lies in an interval of width w[k]: fitness-proportionate |
| GeneticOperators.RouletteSkipsZeroWeight | genetic_algorithm.py:150-153 | with a positive total, an individual of weight 0 is never chosen |
| GeneticOperators.Insert | genetic_algorithm.py:125 | inserting an index keeps the list ranked and adds exactly that index |
| GeneticOperators.RankFrom | genetic_algorithm.py:125 | the ranking of indices lo.. is ordered by descending fitness, ties by index, and holds exactly those indices |
| GeneticOperators.RankOrder | genetic_algorithm.py:125 | the stable descending sort is a permutation of all indices, ordered by fitness descending and then by original position |
| GeneticOperators.RankPrefixIsTop | genetic_algorithm.py:125-126 | each of the first m ranked indices outranks every index outside them: the elites are the m fittest |
| GeneticOperators.MaxFrom | genetic_algorithm.py:78 | the scan keeps the first index of maximal fitness |
| GeneticOperators.FirstMax | genetic_algorithm.py:78 | max() picks an index whose fitness is at least every other and strictly above every earlier one; none for an empty population |
| GeneticOperators.RankHeadIsFirstMax | genetic_algorithm.py:78 | the head of the stable ranking is the first maximum, so elite[0] is the individual max() returns |
| GeneticOperators.UpdateBest | genetic_algorithm.py:94-98 | the record becomes the maximum of the old record and the generation best; it is replaced only on a strict improvement, which resets the count; otherwise the count grows by one |
| Evolution.TopIsFirstMax | genetic_algorithm.py:78 | the individual max() returns is at index FirstMax of the fitnesses and is at least as fit as every member |
| Evolution.Elites | genetic_algorithm.py:125-126 | the elite slice has as many members as asked for |
| Evolution.Offspring | genetic_algorithm.py:133-139 | both children of one breeding step have the parents' length |
| Evolution.Brood | genetic_algorithm.py:130-139 | the children bred from the two roulette picks have chromosome_length genes |
| Evolution.Clutch | genetic_algorithm.py:129-143 | the breeding loop adds exactly the number of offspring asked for |
| Evolution.Broods | genetic_algorithm.py:129-143 | the loop breeds the vacancies when some weight is positive and nothing otherwise, each child of chromosome length |
| Evolution.NextPopulation | genetic_algorithm.py:122-145 | the next generation never exceeds populationSize and has exactly that many members when selection can succeed or the elites fill it |
| Evolution.NextPopulationShape | genetic_algorithm.py:122-145 | every member of the next generation has chromosome length; its first min(elitismCount, size) members are the population in stable descending order of fitness, and the rest are unevaluated |
| Evolution.OffspringWithoutMutation | genetic_algorithm.py:133-139 | with mutation rate 0 the children are exactly the crossover or the copies, so each gene comes from one of the parents at that locus |
| Evolution.BroodDescends | genetic_algorithm.py:130-139 | both children of a breeding step descend from parents of positive weight |
| Evolution.BroodsDescend | genetic_algorithm.py:130-139 | at every position of the random streams, both children of a breeding step descend from parents of positive weight |
| Evolution.ClutchAll | genetic_algorithm.py:129-143 | a property of every litter holds of every offspring of the loop |
| Evolution.ClutchDraws | genetic_algorithm.py:129-143 | each turn of the breeding loop takes 3 + 2·len unit draws (two selections, the crossover decision, one mutation draw per bit of each child) and at most one cut pair, so n places take exactly ⌈n/2⌉·(3 + 2·len) unit draws and at most ⌈n/2⌉ cut pairs |
| Evolution.OffspringDescend | genetic_algorithm.py:129-145 | past the elites, every member of a bred generation descends from two parents of positive weight |
| Evolution.DescendantWithoutMutation | genetic_algorithm.py:133-139 | without mutation, a descendant holds at each locus a gene of one of two positive-weight parents |
| Evolution.BreedingEnds | genetic_algorithm.py:145 | the elites plus the bred offspring, trimmed to populationSize, are the specified next generation |
| Evolution.NewbornConcat | genetic_algorithm.py:141-143 | the offspring of two runs of the loop, appended unevaluated, are those of the first followed by those of the second |
| Evolution.NewbornClutch | genetic_algorithm.py:129-143 | with two or more places left, one turn of the loop appends both children of the next breeding step, and the rest of the loop continues from the streams after it |
| Evolution.FillFromLast | genetic_algorithm.py:141-143 | with one place left, the loop appends only child A of the next breeding step and stops |
| Evolution.FillFromClutch | genetic_algorithm.py:129-143 | resumed with any partial generation, the loop appends exactly the offspring bred from the current stream positions up to populationSize |
| Evolution.ResetOrKeep | genetic_algorithm.py:93-98 | after the update the record is still the first maximum of the generation where it was set, stagnant generations ago |
| Evolution.BestEver | genetic_algorithm.py:78-98 | the returned record is at least as fit as every individual of every generation |
| Evolution.ExtendChain | genetic_algorithm.py:87-90 | appending an evaluated generation bred from the last one at the stream positions the last step holds, with a step holding where that breeding left the streams, keeps the chain |
| Evolution.ChainIsChronicle | genetic_algorithm.py:83-104 | every generation of a chain, in which each generation is bred where the step before left the streams and each step holds where its breeding left them, is evaluated and recorded, and every one after the first is bred from the one before |
| Evolution.ExtendHistory | genetic_algorithm.py:83-104 | a step appended by the update rule keeps the history rule-abiding; it stays below the limit, or the loop stops by the rule |
| Evolution.FullRunStops | genetic_algorithm.py:83-104 | running all generations below the limit ends by the stopping rule |
| Evolution.StagnantInRange | genetic_algorithm.py:94-98 | after generation k the stagnation count lies in [0, k] |
| Evolution.BestNeverDecreases | genetic_algorithm.py:94-98 | the best fitness never decreases between generations |
| Evolution.BestIsRunningMax | genetic_algorithm.py:78-98 | the best after generation k is the maximum of the generation maxima up to k, and one of them attains it |
| Evolution.StagnationMeansNoImprovement | genetic_algorithm.py:94-98 | a count of s means the last s generations did not beat the record, and generation k - s set it |
| Evolution.StagnationBounded | genetic_algorithm.py:101-104 | with a positive limit the count never exceeds the limit |
| Evolution.ZeroLimitStopsAfterOne | genetic_algorithm.py:83-104 | with a limit of 0 or less and at least one generation, the loop stops after generation 1 |
| Evolution.GeneticAlgorithm.constructor | genetic_algorithm.py:63-69 | the engine starts with an empty population and zero generations run |
| Evolution.GeneticAlgorithm.InitializePopulation | genetic_algorithm.py:109-115 | exactly populationSize unevaluated chromosomes of chromosome_length bits, taken from the bit stream in order |
| Evolution.GeneticAlgorithm.Evaluate | genetic_algorithm.py:117-120 | genes are untouched; it passes exactly when every chromosome decodes, storing each one's real fitness; otherwise it fails with a decoding error some chromosome has |
| Evolution.GeneticAlgorithm.Select | genetic_algorithm.py:147-153 | the selected individual is the population member that roulette picks for the next uniform draw; it fails only when the total weight is 0 |
| Evolution.GeneticAlgorithm.CrossoverGenes | genetic_algorithm.py:155-168 | the children are the crossover at the next drawn cut pair; a pair is drawn only when the length is at least 3 |
| Evolution.GeneticAlgorithm.Mutate | genetic_algorithm.py:170-174 | the array after mutation in place is Flipped of its old contents under the next len(genes) draws |
| Evolution.GeneticAlgorithm.MutatedCopy | genetic_algorithm.py:136-139 | a fresh gene buffer is mutated; the parent's genes are not |
| Evolution.GeneticAlgorithm.Recombine | genetic_algorithm.py:133-136 | crossover happens when the coin is below the crossover rate, and copies of the parents are returned otherwise |
| Evolution.GeneticAlgorithm.Children | genetic_algorithm.py:133-139 | the children are recombined and then mutated, child A under the draws right after the coin and child B under the ones after those |
| Evolution.GeneticAlgorithm.FillUp | genetic_algorithm.py:129-143 | the loop fails exactly on a zero total weight with room for offspring, having drawn nothing; otherwise it returns the elites followed by the specified offspring, at least populationSize of them, and leaves the unit and cut-pair streams exactly where that breeding ends; nothing but those two positions changes |
| Evolution.GeneticAlgorithm.Mate | genetic_algorithm.py:130-139 | breeding one pair fails exactly when the total weight is 0, drawing nothing; otherwise the children are those of the two roulette picks for the next two uniform draws, recombined by the next coin and mutated by the draws after it |
| Evolution.GeneticAlgorithm.Breed | genetic_algorithm.py:122-145 | it fails exactly on a zero total weight with room for offspring, having drawn nothing; otherwise the result is the specified next generation: exactly populationSize individuals of the right length, the first min(elitismCount, size) the population in stable descending order, the rest the bred offspring in order, unevaluated; the unit and cut-pair streams end exactly where that breeding ends, and nothing else of the generator changes |
| Evolution.GeneticAlgorithm.NextGeneration | genetic_algorithm.py:87-90 | it fails exactly on a zero total weight with room for offspring, leaving the population and the streams alone; otherwise the population becomes the specified next generation with every fitness evaluated, the unit and cut-pair streams end where that breeding ends, and with an elite its first member keeps the old maximum's fitness |
| Evolution.GeneticAlgorithm.CurrentBest | genetic_algorithm.py:93 | the generation maximum is the first maximal individual and genuinely evaluated |
| Evolution.GeneticAlgorithm.TrackingStarts | genetic_algorithm.py:78-79 | the loop starts from the initial generation, its first maximum the record, the count 0 and the stream positions the loop starts from |
| Evolution.GeneticAlgorithm.TrackingAdvances | genetic_algorithm.py:87-104 | appending a generation bred from the current one where the last step left the streams, with its step under the update rule and holding where that breeding left them, keeps the loop's state: the record is still a genuine champion set at a generation's first maximum, and the history stays below the limit or stops by the rule |
| Evolution.GeneticAlgorithm.TrackingEnds | genetic_algorithm.py:83-107 | at the end of the loop the record beats every generation, the history follows the rule, and with elitism the maxima never fall |
| Evolution.GeneticAlgorithm.Start | genetic_algorithm.py:75-79 | the initial population is read from the bit stream and evaluated; it fails exactly on an empty population or on empty coordinate fields, and otherwise the initial best is the first maximal individual |
| Evolution.GeneticAlgorithm.Advance | genetic_algorithm.py:84-104 | one generation: it fails exactly when selection cannot, changing nothing; otherwise the population is the evaluated next generation bred from the old one at the current stream positions, the streams end where that breeding ends, the record and count follow the update rule, and the generation and its step, holding those end positions, are appended to the ghost chain |
| Evolution.GeneticAlgorithm.Generation | genetic_algorithm.py:83-104 | generation i sets generationsRun to i; it fails only when selection cannot, leaving the chain and history as they were (i steps, below the stagnation limit); otherwise the loop either continues from a state that still holds or stops by the rule with i + 1 steps recorded; the first step holds the loop's starting stream positions and the last step the current ones |
| Evolution.GeneticAlgorithm.Evolve | genetic_algorithm.py:83-107 | the generations gone through form a chain, each bred and evaluated where the step before left the streams, from the positions the loop started at to the current ones; it fails only when the final population has zero total weight and room for offspring, and then at most maxGenerations steps were recorded and none reached the stagnation limit; the result is the record, set at the first maximum of a generation, and the history obeys the update and stopping rules |
| Evolution.GeneticAlgorithm.Run | genetic_algorithm.py:71-107 | it fails with EmptyPopulation exactly for population size 0, with EmptyBitString exactly for empty coordinate fields, and with ZeroTotalWeight only when the last generation cannot be bred from, before maxGenerations steps and before the stagnation limit; otherwise the best is the first maximum of some generation, at least as fit as every individual of every generation, the generations are seeded, then bred in a chain from the stream positions the run started at, and evaluated in turn, and at most maxGenerations run |
| RandomSource.Rng.Random | genetic_algorithm.py:133 | returns the next uniform draw, which lies in [0, 1) |
| RandomSource.Rng.RandBit | genetic_algorithm.py:113 | returns the next random bit |
| RandomSource.Rng.SampleCut | genetic_algorithm.py:162 | returns the next cut pair, with 1 <= p1 < p2 <= length - 1 |
| RandomSource.Rng.constructor | genetic_algorithm.py:68 | the generator starts at the head of all three streams |

## Left out

- `load_clients` (CSV reading and float parsing): the client list is an input of `Problem`.
- `ProgressBar` and its calls in `run`: console output only.
- `main.py`, `utils/visualize.py`, `utils/generate_clients.py`: report formatting, plotting, file I/O and client generation.
- `config.py`: its constants are the fields of `Config`. Negative values for the counts are not modelled, because those fields are `nat`.
- The random generator's algorithm:
  - Its draws are three arbitrary streams, with uniform reals in [0, 1), bits, and cut pairs in range.
  - The source draws every kind from one generator, so the interleaving of draws of different kinds is not modelled. The draws of each kind are consumed in the source's order, and the breeding methods and the loop state where each stream stands before and after every generation.
- Floating point: `math.hypot` is replaced by the exact comparison of squared distances, `dx*dx + dy*dy <= r*r` with `r >= 0`, over reals. Client coordinates and the radius are reals, not IEEE doubles. `u * total` in roulette selection is exact as well.
- `Individual.clone`: on values it is the identity. Genes are value sequences, so sharing a gene list between an elite and its original cannot be observed. Mutation works on a fresh array (`MutatedCopy`), as the source mutates fresh lists.
- Genes are the type `Bit` (0 or 1). Chromosomes holding other integers are not modelled.
- Evolution.GeneticAlgorithm.Select: with an empty population and room for offspring, the source's `choices` raises `IndexError`, not `ValueError`. The model returns `ZeroTotalWeight` for both.
- Evolution.GeneticAlgorithm.Run: after an error the source leaves its state where the exception stopped it. The model's contract states the error but not this partial state.
- GeneticOperators.Crossover: requires equal-length parents. Every chromosome of a population has `chromosome_length` genes, so this always holds in the engine.
- GeneticOperators.Roulette: `random.choices` also rejects a non-finite total, which cannot arise from integer fitness values.
