# Order-delivery optimisation: a Dafny model

The repository orders delivery points with a genetic algorithm. It also holds a small parser for
fuzzy-logic watering rules. This project models both cores in Dafny and proves properties of the
model:

- **Chromosome encodings** of a delivery order:
  - a permutation matrix (`BinaryChromosomes`);
  - a permutation of order indices (`IntegerChromosomes`);
  - random keys in [0, 1] that decode by sorting their priorities (`FloatingChromosomes`,
    `Pairs`).
- **Fitness**: the route walk that counts deliveries made within the time budget (`Fitness`).
- **Selection**: tournament (`Tournament`) and roulette wheel (`RouletteWheel`).
- **Crossover**:
  - order-one (`OrderOneCrossover`);
  - position inheritance (`IntegerCrossover`);
  - uniform and blend crossover of keys (`FloatingUniformCrossover`, `FloatingBlendCrossover`).
- **Replacement**: generational, steady-state and elitist (`Generational`, `SteadyState`,
  `Elitist`).
- **Initial population** (`Initialization`).
- **The driver** `GeneticAlgorithm` (`Engine`). It covers both versions of the class in the
  repository:
  - the older `src/GeneticAlgorithm.java`;
  - the engine `src/GeneticAlgorithm/GeneticAlgorithm.java`, whose offspring loop is
    generation-aware.
- **The rule parser** `RuleParser.parse`:
  - Java's string operations it relies on: `trim`, `isBlank`, `toUpperCase`, `indexOf`, and
    `split` on `(?i)\s+is\s+` (`RuleText`);
  - `Double.parseDouble` (`JavaDouble`);
  - the parser itself (`RuleParsing`).

The model follows the program's shape:
- objects whose fields the program updates in place are classes whose methods state the new
  state;
- their loops are methods whose loop invariants tie them to specification functions;
- everything the code computes without mutation is a function.

Randomness is a parameter: every `Random` draw is an explicit argument.
- An index draw is a raw natural reduced modulo its bound (`Common.NextInt`).
- A real draw is a value in [0, 1).

Every property holds for all draws. Exceptions are error values (`Result`, `Parsed`).

## Model

| member | source | states |
|---|---|---|
| Common.NextInt | src/Selection/TournamentSelection.java:27 | an index drawn with `nextInt(bound)` lies below the bound |
| Common.Range | src/Chromosomes/BinaryChromosome.java:60-63 | the list 0, 1, …, n-1 that `generateGenes` fills before shuffling: length n, element i is i |
| Common.Swap | src/GeneticAlgorithm/Chromosomes/IntegerChromosome.java:38 | `Collections.swap`: the two elements change places, every other element stays, and the multiset of elements is kept |
| Common.SwapKeepsPermutation | src/GeneticAlgorithm/Chromosomes/IntegerChromosome.java:36-38 | swapping two positions of a permutation of lo..lo+n-1 gives a permutation again |
| Common.RangeIsPermutation | src/Chromosomes/BinaryChromosome.java:60-63 | the filled list 0..n-1 is a permutation |
| Common.InstanceHolder.constructor | src/Fitness/BinaryFitnessEvaluator.java:10 | a singleton slot starts empty |
| Common.InstanceHolder.GetInstanceWith | src/Fitness/BinaryFitnessEvaluator.java:21-26 | `getInstance(…)`: the first call stores its candidate, later calls keep and return the stored instance |
| Common.InstanceHolder.GetInstance | src/Fitness/BinaryFitnessEvaluator.java:28-33 | `getInstance()` fails with an illegal-state error exactly when nothing was stored, and otherwise returns what was stored |
| Common.InstanceHolder.ResetInstance | src/Fitness/BinaryFitnessEvaluator.java:35-37 | `resetInstance` empties the slot |
| Pairs.CompareTo | src/GeneticAlgorithm/Helpers/Pair.java:17-22 | the result is -1, 0 or 1; it is negative exactly when the key is smaller, or equal with a smaller index; positive in the mirrored case; zero exactly for equal pairs |
| Pairs.KeyDecidesFirst | src/GeneticAlgorithm/Helpers/Pair.java:18-21 | different keys are compared by key alone; equal keys fall back to the indices |
| Pairs.CompareAntisymmetric | src/GeneticAlgorithm/Helpers/Pair.java:17-22 | swapping the arguments negates the comparison |
| Pairs.CompareTransitive | src/GeneticAlgorithm/Helpers/Pair.java:17-22 | the order is transitive, strictly so when one step is strict |
| BinaryChromosomes.MatrixOf | src/Chromosomes/BinaryChromosome.java:52-69 | the square matrix of an order: cell (r, c) is true exactly when order[c] == r |
| BinaryChromosomes.FirstTrueRow | src/Chromosomes/BinaryChromosome.java:40-45 | the inner search of `getDeliverySequence`: the first row at or after `from` whose cell in the column is true, or the size when there is none |
| BinaryChromosomes.DecodePrefixOfFullColumns | src/Chromosomes/BinaryChromosome.java:39-46 | on a permutation matrix, the first k decoded entries are rows whose cell in their column is true |
| BinaryChromosomes.Decode | src/Chromosomes/BinaryChromosome.java:35-49 | `getDeliverySequence` as a function: column by column, the first row with a true cell (a definition with no contract of its own; DecodePermutationMatrix and PermutationMatrixIsMatrixOfDecode state what it gives) |
| BinaryChromosomes.DecodePermutationMatrix | src/Chromosomes/BinaryChromosome.java:35-49 | a permutation matrix decodes to a permutation of 0..n-1 that picks the true cell of every column |
| BinaryChromosomes.PermutationMatrixIsMatrixOfDecode | src/Chromosomes/BinaryChromosome.java:35-49 | a permutation matrix is the matrix of its own decoding |
| BinaryChromosomes.MatrixOfPermutation | src/Chromosomes/BinaryChromosome.java:51-70 | the matrix of a permutation is a permutation matrix and decodes back to the permutation |
| BinaryChromosomes.LastTrueRow | src/Chromosomes/BinaryChromosome.java:87-95 | the scan of `mutateMethod1`: the last row whose cell in the column is true, or -1 |
| BinaryChromosomes.SetCell | src/Chromosomes/BinaryChromosome.java:97-101 | setting one cell keeps the matrix square and of the same size |
| BinaryChromosomes.ColumnSwap | src/Chromosomes/BinaryChromosome.java:96-102 | the four cell updates of `mutateMethod1` keep the matrix square and of the same size |
| BinaryChromosomes.ColumnSwapCells | src/Chromosomes/BinaryChromosome.java:96-102 | for two distinct rows found at two distinct positions, the rows trade their true cells between the two columns and every other cell is kept |
| BinaryChromosomes.ColumnSwapSwapsDecoding | src/Chromosomes/BinaryChromosome.java:73-103 | on a permutation matrix the mutation gives a permutation matrix whose decoding is the old decoding with the two positions swapped |
| BinaryChromosomes.ColumnSwapOfMatrixOf | src/Chromosomes/BinaryChromosome.java:96-102 | exchanging two columns of the matrix of an order is the matrix of the swapped order |
| BinaryChromosomes.OtherPosition | src/Chromosomes/BinaryChromosome.java:83-85 | the do-while redraw of `pos2` ends on a position below the size and different from `pos1` |
| BinaryChromosomes.Shuffle | src/Chromosomes/BinaryChromosome.java:64 | `Collections.shuffle` (Fisher-Yates from the top, one draw per step) keeps the length |
| BinaryChromosomes.ShuffleKeepsPermutation | src/Chromosomes/BinaryChromosome.java:64 | shuffling a permutation gives a permutation |
| BinaryChromosomes.MatrixFromOrder | src/Chromosomes/BinaryChromosome.java:53-69 | the loops that clear the matrix and set one cell per position build exactly the matrix of the order |
| BinaryChromosomes.BinaryChromosome.Empty | src/Chromosomes/BinaryChromosome.java:19-22 | the no-argument constructor starts with no genes |
| BinaryChromosomes.BinaryChromosome.constructor | src/Chromosomes/BinaryChromosome.java:23-32 | the copying constructor holds the given matrix |
| BinaryChromosomes.BinaryChromosome.DeliverySequence | src/Chromosomes/BinaryChromosome.java:35-49 | the nested loops compute the decoding, which is a permutation of 0..n-1 when the genes form a permutation matrix |
| BinaryChromosomes.BinaryChromosome.GenerateGenes | src/Chromosomes/BinaryChromosome.java:51-70 | the genes become the matrix of the shuffled order 0..n-1: an n×n permutation matrix that decodes to that shuffle |
| BinaryChromosomes.BinaryChromosome.MutateMethod1 | src/Chromosomes/BinaryChromosome.java:73-103 | nothing changes when the draw exceeds the probability or there are fewer than two orders; otherwise the two drawn columns are exchanged |
| BinaryChromosomes.BinaryChromosome.MutateMethod2 | src/Chromosomes/BinaryChromosome.java:106-108 | the second mutation leaves the genes as they are |
| BinaryChromosomes.BinaryChromosome.SetGenes | src/Chromosomes/BinaryChromosome.java:114-123 | the genes become a copy of the given matrix |
| BinaryChromosomes.BinaryChromosome.Clone | src/Chromosomes/BinaryChromosome.java:130-133 | the clone is a fresh object holding the same genes |
| BinaryChromosomes.BinaryChromosome.NumberOfDeliveries | src/Chromosomes/BinaryChromosome.java:141-143 | the length of the decoding, which is n for a permutation matrix |
| BinaryChromosomes.MutationKeepsPermutationMatrix | src/Chromosomes/BinaryChromosome.java:73-103 | the mutation of a permutation matrix by any draws is a permutation matrix decoding to the old order with the drawn positions swapped |
| IntegerChromosomes.SwapsPrefix | src/GeneticAlgorithm/Chromosomes/IntegerChromosome.java:35-39 | the first k shuffle turns, each swapping the two drawn positions, keep the length of the order |
| IntegerChromosomes.SwapsPrefixKeepsPermutation | src/GeneticAlgorithm/Chromosomes/IntegerChromosome.java:29-39 | shuffling a permutation of lo..lo+n-1 by any draws gives a permutation again |
| IntegerChromosomes.SwapMutation | src/GeneticAlgorithm/Chromosomes/IntegerChromosome.java:69-74 | one swap mutation: when the draw is below the probability and there are at least two genes, position idx changes place with the drawn position; otherwise the genes are kept; the multiset is always kept |
| IntegerChromosomes.SwapMutationsPrefix | src/GeneticAlgorithm/Chromosomes/IntegerChromosome.java:48-52 | the first k positions mutated in turn keep the length of the order |
| IntegerChromosomes.SwapMutationsKeepMultiset | src/GeneticAlgorithm/Chromosomes/IntegerChromosome.java:48-52 | any run of swap mutations keeps the multiset of genes |
| IntegerChromosomes.SwapMutationsKeepPermutation | src/GeneticAlgorithm/Chromosomes/IntegerChromosome.java:48-52 | any run of swap mutations turns a permutation into a permutation |
| IntegerChromosomes.MoveToEnd | src/GeneticAlgorithm/Chromosomes/IntegerChromosome.java:78-80 | removing the gene at idx and appending it: the genes before idx stay, the ones after move one place forward, the removed gene is last, and the multiset is kept |
| IntegerChromosomes.MoveToEndKeepsPermutation | src/GeneticAlgorithm/Chromosomes/IntegerChromosome.java:76-82 | moving a gene of a permutation to the end gives a permutation |
| IntegerChromosomes.IntegerChromosome.constructor | src/GeneticAlgorithm/Chromosomes/IntegerChromosome.java:15-17 | the chromosome holds a copy of the given genes |
| IntegerChromosomes.IntegerChromosome.Empty | src/GeneticAlgorithm/Chromosomes/IntegerChromosome.java:19-21 | the chromosome starts with no genes |
| IntegerChromosomes.IntegerChromosome.Copy | src/GeneticAlgorithm/Chromosomes/IntegerChromosome.java:23-26 | the copy holds the same genes as the original |
| IntegerChromosomes.IntegerChromosome.GenerateGenes | src/GeneticAlgorithm/Chromosomes/IntegerChromosome.java:29-40 | the genes become 1..n shuffled by the draws, and they form a permutation of 1..n |
| IntegerChromosomes.IntegerChromosome.DeliverySequence | src/GeneticAlgorithm/Chromosomes/IntegerChromosome.java:43-45 | the delivery sequence is the genes themselves |
| IntegerChromosomes.IntegerChromosome.MutateBySwapping | src/GeneticAlgorithm/Chromosomes/IntegerChromosome.java:69-74 | fails with an index-out-of-bounds error exactly when the mutation fires on an index past the end, leaving the genes; otherwise the genes become the swap mutation of the old genes |
| IntegerChromosomes.IntegerChromosome.MutateMethod1 | src/GeneticAlgorithm/Chromosomes/IntegerChromosome.java:48-52 | the genes become every position mutated in turn; the multiset is kept and a permutation stays a permutation |
| IntegerChromosomes.IntegerChromosome.MutateByBecomingLast | src/GeneticAlgorithm/Chromosomes/IntegerChromosome.java:76-82 | fails with an index-out-of-bounds error exactly when the mutation fires on a non-empty chromosome with an index past the end; when it fires in range the gene moves to the end; otherwise the genes are kept |
| IntegerChromosomes.IntegerChromosome.Clone | src/GeneticAlgorithm/Chromosomes/IntegerChromosome.java:60-62 | the clone is a fresh object holding the same genes |
| FloatingChromosomes.Clamp | src/Chromosomes/FloatingPointChromosome.java:108 | `Math.max(0, Math.min(1, x))` lies in [0, 1], keeps values already there and maps values below to 0 and above to 1 |
| FloatingChromosomes.UniformMutation | src/Chromosomes/FloatingPointChromosome.java:78-112 | a gene is kept when the coin misses; otherwise the result lies in [0, 1], and for a gene in [0, 1] it moves down when r11 <= 0.5 and up otherwise |
| FloatingChromosomes.NonUniformMutation | src/Chromosomes/FloatingPointChromosome.java:114-136 | a gene is kept when the coin misses; otherwise the result lies in [0, 1], and for a gene in [0, 1] and a shrink factor in [0, 1] it moves up on a true boolean draw and down on a false one |
| FloatingChromosomes.KeyOrderIsDescending | src/Chromosomes/FloatingPointChromosome.java:63-77 | a key order lists the delivery points by descending key, and among equal keys the higher index first |
| FloatingChromosomes.KeyOrderUnique | src/Chromosomes/FloatingPointChromosome.java:71 | two orders that both satisfy the reverse-sorted ordering are equal, so the decoding does not depend on the sort algorithm |
| FloatingChromosomes.RankOf | src/Chromosomes/FloatingPointChromosome.java:71-74 | the point at place k of the key order has exactly k points before it under the pair ordering |
| FloatingChromosomes.PredecessorsGrow | src/Chromosomes/FloatingPointChromosome.java:71 | a point ordered before another has fewer points ahead of it |
| FloatingChromosomes.InsertPair | src/Chromosomes/FloatingPointChromosome.java:71 | inserting a new pair into a sorted list keeps it sorted, adds one element, and keeps exactly the old pairs plus the new one |
| FloatingChromosomes.SortPairs | src/Chromosomes/FloatingPointChromosome.java:67-71 | the first i key pairs sorted: sorted, of length i, holding exactly the pairs of indices 1..i |
| FloatingChromosomes.KeyDecode | src/Chromosomes/FloatingPointChromosome.java:63-77 | the decoding is a permutation of 1..n in reverse pair order |
| FloatingChromosomes.InsertDescending | src/Chromosomes/FloatingPointChromosome.java:71 | inserting a pair at the place found keeps the list sorted by the pair ordering |
| FloatingChromosomes.FloatingPointChromosome.constructor | src/Chromosomes/FloatingPointChromosome.java:16-18 | the chromosome holds a copy of the given keys |
| FloatingChromosomes.FloatingPointChromosome.Empty | src/Chromosomes/FloatingPointChromosome.java:20-22 | the chromosome starts with no keys |
| FloatingChromosomes.FloatingPointChromosome.MutateMethod1 | src/Chromosomes/FloatingPointChromosome.java:25-29 | every key becomes its uniform mutation under its own draw; keys in [0, 1] stay in [0, 1] |
| FloatingChromosomes.FloatingPointChromosome.MutateMethod2 | src/Chromosomes/FloatingPointChromosome.java:31-35 | every key becomes its non-uniform mutation under its own draw; keys in [0, 1] stay in [0, 1] |
| FloatingChromosomes.FloatingPointChromosome.GenerateGenes | src/Chromosomes/FloatingPointChromosome.java:53-60 | n drawn keys are appended to the existing keys |
| FloatingChromosomes.FloatingPointChromosome.DeliverySequence | src/Chromosomes/FloatingPointChromosome.java:63-77 | the delivery sequence is the key decoding: the indices 1..n in reverse pair order |
| FloatingChromosomes.FloatingPointChromosome.Clone | src/Chromosomes/FloatingPointChromosome.java:43-45 | the clone is a fresh object holding the same keys |
| FloatingChromosomes.FloatingPointChromosome.GetGenes | src/Chromosomes/FloatingPointChromosome.java:138-140 | the keys are returned as they are |
| Genotypes.WellFormedSequence | src/Chromosomes/Chromosome.java:6-7 | the delivery sequence of a well-formed chromosome of any encoding is an ordering of its n points (0-based for the matrix, 1-based otherwise) |
| Fitness.Walk | src/Fitness/BinaryFitnessEvaluator.java:57-69 | the loop from stop i on delivers at most the remaining stops |
| Fitness.OnTimeCount | src/Fitness/BinaryFitnessEvaluator.java:47-72 | the orders delivered never exceed the stops, and a non-empty route delivers at least its first order |
| Fitness.WalkStopsAtFirstOverrun | src/Fitness/BinaryFitnessEvaluator.java:57-69 | every stop counted is reached within the time constraint, and the walk stops only at the first stop that would exceed it |
| Fitness.OnTimeCountIsOnTimePrefix | src/Fitness/BinaryFitnessEvaluator.java:47-72 | the count is the length of the longest prefix of the route whose travel time stays within the constraint |
| Fitness.PathTimeMonotone | src/Fitness/BinaryFitnessEvaluator.java:74-89 | with non-negative distances the travel time to a later stop is no smaller |
| Fitness.PathTime | src/Fitness/BinaryFitnessEvaluator.java:74-89 | the travel time to a stop, leg by leg (a definition with no contract of its own; PathTimeMonotone and OnTimeCountIsOnTimePrefix state what it satisfies) |
| Fitness.RouteTime | src/Fitness/BinaryFitnessEvaluator.java:74-89 | the total route time (a definition with no contract of its own; TotalRouteTime is proved equal to it and WholeRouteOnTime relates it to the deliveries) |
| Fitness.WholeRouteOnTime | src/Fitness/BinaryFitnessEvaluator.java:47-89 | with non-negative distances a route whose total time fits the constraint delivers every order |
| Fitness.DepotWalk | src/Fitness/IntegerFitnessEvaluator.java:39-48 | the loop from position i on delivers at most the remaining stops |
| Fitness.DepotOnTimeCount | src/Fitness/IntegerFitnessEvaluator.java:34-50 | the depot-start evaluation delivers at most the stops of the route |
| Fitness.DepotPathTime | src/Fitness/IntegerFitnessEvaluator.java:59-64 | starting at depot 0 adds the depot-to-first-stop leg to the path time |
| Fitness.DepotWalkIsWalk | src/Fitness/IntegerFitnessEvaluator.java:39-48 | the depot-start loop counts the same as the plain walk over the route with depot 0 put in front, less the depot |
| Fitness.DepotIsFirstStop | src/Fitness/IntegerFitnessEvaluator.java:34-66 | the depot-start count is the plain count of the route with depot 0 in front, minus one, and the depot-start total time is the plain total time of that route |
| Fitness.PenaltySign | src/Fitness/FitnessEvaluator.java:37-40 | the penalised fitness equals the on-time count exactly when the route takes the time constraint, is below it when the route overruns, and above it when the route finishes early |
| Fitness.Trunc | src/Chromosomes/FloatingPointChromosome.java:39 | the `(int)` cast truncates toward zero inside the int range and saturates outside it: the result lies in [Integer.MIN_VALUE, Integer.MAX_VALUE], is Integer.MAX_VALUE from Integer.MAX_VALUE up and Integer.MIN_VALUE from Integer.MIN_VALUE down, and otherwise lies within one below a non-negative value and within one above a negative one |
| Fitness.EvaluateWalk | src/Fitness/BinaryFitnessEvaluator.java:47-72 | the loop computes the on-time count |
| Fitness.TotalRouteTime | src/Fitness/BinaryFitnessEvaluator.java:74-89 | the loop computes the sum of travel times between consecutive stops |
| Fitness.OnTimeDeliveries | src/Fitness/FitnessEvaluator.java:55-74 | the add-then-check loop computes the same on-time count as the check-then-add loop |
| Fitness.DepotEvaluate | src/Fitness/IntegerFitnessEvaluator.java:34-50 | the loop computes the depot-start on-time count |
| Fitness.DepotTotalRouteTime | src/Fitness/IntegerFitnessEvaluator.java:53-66 | the loop computes the depot-start total time |
| Fitness.WellFormedEvaluable | src/Fitness/BinaryFitnessEvaluator.java:59 | a well-formed chromosome of n points fits a square distance matrix bigger than n, so every lookup is in range |
| Fitness.BinaryFitnessEvaluator.constructor | src/Fitness/BinaryFitnessEvaluator.java:16-19 | the evaluator holds the given matrix and time constraint |
| Fitness.BinaryFitnessEvaluator.Evaluate | src/Fitness/BinaryFitnessEvaluator.java:40-45 | a non-binary chromosome is rejected with an illegal-argument error; a binary one scores the on-time count of its decoding |
| Fitness.BinaryFitnessEvaluator.EvaluateBinary | src/Fitness/BinaryFitnessEvaluator.java:47-72 | scores the on-time count of the chromosome's decoding |
| Fitness.BinaryFitnessEvaluator.CalculateTotalRouteTime | src/Fitness/BinaryFitnessEvaluator.java:74-89 | the total route time of the chromosome's delivery sequence |
| Fitness.BinaryFitnessEvaluator.SetTimeConstraint | src/Fitness/BinaryFitnessEvaluator.java:95-97 | only the time constraint changes |
| Fitness.FloatingPointFitnessEvaluator.constructor | src/Fitness/FloatingPointFitnessEvaluator.java:16-19 | the evaluator holds the given matrix and time constraint |
| Fitness.FloatingPointFitnessEvaluator.Evaluate | src/Fitness/FloatingPointFitnessEvaluator.java:39-72 | a non-floating chromosome is rejected with an illegal-argument error; a floating one scores the on-time count of its key decoding |
| Fitness.FloatingPointFitnessEvaluator.CalculateTotalRouteTime | src/Fitness/FloatingPointFitnessEvaluator.java:74-89 | the total route time of the chromosome's delivery sequence |
| Fitness.IntegerFitnessEvaluator.constructor | src/Fitness/IntegerFitnessEvaluator.java:14-17 | the evaluator holds the given matrix and time constraint |
| Fitness.IntegerFitnessEvaluator.Evaluate | src/Fitness/IntegerFitnessEvaluator.java:34-50 | scores the depot-start on-time count of the delivery sequence |
| Fitness.IntegerFitnessEvaluator.CalculateTotalRouteTime | src/Fitness/IntegerFitnessEvaluator.java:53-66 | the depot-start total route time of the delivery sequence |
| Fitness.FitnessEvaluator.constructor | src/Fitness/FitnessEvaluator.java:15-18 | the evaluator holds the given matrix and time constraint |
| Fitness.FitnessEvaluator.Evaluate | src/Fitness/FitnessEvaluator.java:37-40 | the on-time count minus 0.01 times the route time's excess over the constraint |
| Fitness.FitnessEvaluator.CalculateTotalRouteTime | src/Fitness/FitnessEvaluator.java:42-53 | the total route time of the delivery sequence |
| Fitness.FitnessEvaluator.CalculateOnTimeDeliveries | src/Fitness/FitnessEvaluator.java:55-74 | the on-time count of the delivery sequence |
| Tournament.Fitnesses | src/GeneticAlgorithm/Selection/RouletteWheelSelection.java:20-21 | one fitness per individual, each the individual's `getFitness` |
| Tournament.BinaryScores | src/Selection/TournamentSelection.java:40-41 | one binary-evaluator score per individual |
| Tournament.BinaryScoreIsFitness | src/Selection/TournamentSelection.java:40 | for a binary chromosome the score used is its `getFitness` |
| Tournament.RouteTimes | src/Selection/TournamentSelection.java:33-37 | one total route time per individual |
| Tournament.Scores | src/Selection/TournamentSelection.java:26-29 | the value of the drawn individual at each tournament slot; slot i holds individual `nextInt` of draw i |
| Tournament.WinnerIndex | src/Selection/TournamentSelection.java:31-45 | the winner is one of the first k slots |
| Tournament.WinnerBeatsEarlier | src/Selection/TournamentSelection.java:35-45 | no slot before k beats the winner, and the winner beats every slot before it |
| Tournament.WinnerIsBest | src/Selection/TournamentSelection.java:31-47 | no slot is fitter than the winner, no equally fit slot has a shorter route, and every earlier slot is strictly worse |
| Tournament.SelectOutcome | src/Selection/TournamentSelection.java:22-48 | a successful selection is a binary member of the population |
| Tournament.SelectedIsTournamentBest | src/Selection/TournamentSelection.java:22-48 | a successful selection is the individual of some drawn slot, and no drawn individual is fitter than it or as fit with a shorter route |
| Tournament.Best | src/Selection/TournamentSelection.java:31-47 | the scan fails with a class-cast error exactly when some tournament member is not binary, and otherwise returns the winner |
| Tournament.Outcomes | src/Selection/TournamentSelection.java:54-56 | one selection outcome per requested selection, none for a non-positive count |
| Tournament.OutcomeAt | src/Selection/TournamentSelection.java:54-56 | outcome i is the selection made with the i-th draws |
| Tournament.TournamentSelection.constructor | src/Selection/TournamentSelection.java:16-19 | the selector holds the given tournament size and evaluator |
| Tournament.TournamentSelection.Select | src/Selection/TournamentSelection.java:22-48 | the result is the selection outcome for the population's scores and the draws: an empty population, an empty tournament and a non-binary member fail, otherwise the tournament winner |
| Tournament.TournamentSelection.SelectMultiple | src/Selection/TournamentSelection.java:51-59 | the results are gathered in order: all succeed and are returned, or the first failure is the result |
| Tournament.TournamentSelection.SetTournamentSize | src/Selection/TournamentSelection.java:61-63 | the tournament size becomes the given one |
| Tournament.TournamentSelection.GetTournamentSize | src/Selection/TournamentSelection.java:65-67 | the tournament size is returned |
| RouletteWheel.Weight | src/GeneticAlgorithm/Selection/RouletteWheelSelection.java:23 | a positive fitness is its own weight; any other gets 0.1, so every weight is positive |
| RouletteWheel.Weights | src/GeneticAlgorithm/Selection/RouletteWheelSelection.java:20-25 | one weight per fitness value |
| RouletteWheel.CumulativeGrows | src/GeneticAlgorithm/Selection/RouletteWheelSelection.java:34-36 | with positive weights the running total strictly increases |
| RouletteWheel.TotalPositive | src/GeneticAlgorithm/Selection/RouletteWheelSelection.java:27-29 | the total weight is 0 exactly for an empty population, so the zero-total branch serves only that case |
| RouletteWheel.FirstReaching | src/GeneticAlgorithm/Selection/RouletteWheelSelection.java:34-39 | the scan stops at the first index whose running total reaches the spin, or at the last index |
| RouletteWheel.WheelLandsInSlice | src/GeneticAlgorithm/Selection/RouletteWheelSelection.java:31-42 | for a spin below the total, the wheel lands on j exactly when the spin lies in j's slice of the cumulative totals |
| RouletteWheel.SpinValue | src/GeneticAlgorithm/Selection/RouletteWheelSelection.java:31 | for a positive total the spin lies in [0, total) |
| RouletteWheel.Landing | src/GeneticAlgorithm/Selection/RouletteWheelSelection.java:31-42 | the wheel lands on an index of the population |
| RouletteWheel.RouletteOutcome | src/GeneticAlgorithm/Selection/RouletteWheelSelection.java:16-43 | a selection is a member of the population, and it fails exactly when the population is empty |
| RouletteWheel.SpinsWhenPopulated | src/GeneticAlgorithm/Selection/RouletteWheelSelection.java:27-42 | for a non-empty population the wheel spins and the fallback random pick is never taken |
| RouletteWheel.LandsInSlice | src/GeneticAlgorithm/Selection/RouletteWheelSelection.java:31-42 | the wheel lands on index j exactly when the spin lies in j's slice, the first slice also taking a spin of 0 |
| RouletteWheel.AdjustedWeights | src/Selection/RouletteWheelSelection.java:22-33 | the weighting loop yields the weights and their total; with the binary cast a non-binary individual fails it with a class-cast error, exactly then |
| RouletteWheel.Spin | src/GeneticAlgorithm/Selection/RouletteWheelSelection.java:31-42 | the loop returns the index where the wheel lands |
| RouletteWheel.Select | src/GeneticAlgorithm/Selection/RouletteWheelSelection.java:16-43 | the result is the roulette outcome of the population's fitness values |
| RouletteWheel.SelectBinary | src/Selection/RouletteWheelSelection.java:20-53 | a non-binary individual fails the cast; otherwise the result is the roulette outcome |
| RouletteWheel.Pick | src/Selection/RouletteWheelSelection.java:20-53 | one spin of either selector: a failed cast when it applies, otherwise the roulette outcome |
| RouletteWheel.SelectMultiple | src/GeneticAlgorithm/Selection/RouletteWheelSelection.java:46-54 | count spins in order; a failed cast or an empty population fails a positive count, and otherwise the i-th result is the roulette outcome of the i-th draws |
| Generational.Decimal | src/main/java/GeneticAlgorithm/Replacement/GenerationalReplacement.java:23-24 | the decimal text of a number is a non-empty string of digits |
| Generational.Replace | src/main/java/GeneticAlgorithm/Replacement/GenerationalReplacement.java:11-34 | an empty population, no offspring and too few offspring each fail with the source's message; otherwise, exactly then, the next generation is the first population-size offspring |
| SteadyState.Written | src/GeneticAlgorithm/Replacement/SteadyStateReplacement.java:57-60 | the writes into the copied population keep its length when they succeed |
| SteadyState.Targets | src/GeneticAlgorithm/Replacement/SteadyStateReplacement.java:45-54 | the first k stored parent indices, or 0..k-1 (a definition with no contract of its own; WrittenSlots and DefaultSlotsTakeOffspringPrefix state what they receive) |
| SteadyState.LastWriter | src/GeneticAlgorithm/Replacement/SteadyStateReplacement.java:57-60 | the last of the first n writes that targets slot j, or none when no write targets it |
| SteadyState.WrittenSlots | src/GeneticAlgorithm/Replacement/SteadyStateReplacement.java:57-60 | the writes succeed exactly when every target slot is in range; then each slot holds the offspring last written to it and every other slot keeps its individual |
| SteadyState.WrittenFailsAtFirstBadSlot | src/GeneticAlgorithm/Replacement/SteadyStateReplacement.java:57-60 | a failure is the index-out-of-bounds error of the first target out of range |
| SteadyState.WrittenKeepsFailure | src/GeneticAlgorithm/Replacement/SteadyStateReplacement.java:57-60 | once a write has failed, later writes do not change the outcome |
| SteadyState.DistinctSlotsReceiveTheirOffspring | src/GeneticAlgorithm/Replacement/SteadyStateReplacement.java:57-60 | with distinct target slots, slot targets[i] receives offspring i |
| SteadyState.SteadyStateOutcome | src/GeneticAlgorithm/Replacement/SteadyStateReplacement.java:26-63 | a successful replacement keeps the population's size |
| SteadyState.DefaultSlotsTakeOffspringPrefix | src/GeneticAlgorithm/Replacement/SteadyStateReplacement.java:47-60 | without k stored indices, the first k slots take the first k offspring and the rest keep their individuals |
| SteadyState.SteadyStateKeepsMembers | src/GeneticAlgorithm/Replacement/SteadyStateReplacement.java:40-62 | every individual of the next generation is a current individual or an offspring |
| SteadyState.SteadyStateReplacement.constructor | src/GeneticAlgorithm/Replacement/SteadyStateReplacement.java:13-19 | a k of at least 1 is stored and the parent indices start empty |
| SteadyState.NewSteadyStateReplacement | src/GeneticAlgorithm/Replacement/SteadyStateReplacement.java:13-19 | a k below 1 fails with "K must be at least 1", exactly then; otherwise a fresh replacement with that k and no parent indices |
| SteadyState.SteadyStateReplacement.SetParentIndices | src/GeneticAlgorithm/Replacement/SteadyStateReplacement.java:21-23 | the parent indices become a copy of the given ones |
| SteadyState.SteadyStateReplacement.GetK | src/GeneticAlgorithm/Replacement/SteadyStateReplacement.java:65-67 | k is returned |
| SteadyState.SteadyStateReplacement.Replace | src/GeneticAlgorithm/Replacement/SteadyStateReplacement.java:26-63 | the four checks fail with the source's messages in the source's order; otherwise k offspring are written into a copy of the population at the stored parent indices, or at 0..k-1 when fewer than k are stored |
| Elitist.Insert | src/GeneticAlgorithm/Replacement/ElitistReplacement.java:63-68 | inserting an index adds exactly that index to the order |
| Elitist.InsertKeepsRanked | src/GeneticAlgorithm/Replacement/ElitistReplacement.java:63-68 | inserting a later index into a ranked order keeps it ranked: by descending fitness, ties in population order |
| Elitist.RankOrder | src/GeneticAlgorithm/Replacement/ElitistReplacement.java:60-68 | the sorted indices are a permutation of 0..n-1 |
| Elitist.RankOrderIsRanked | src/GeneticAlgorithm/Replacement/ElitistReplacement.java:63-68 | the stable sort orders the indices by descending fitness, ties in population order |
| Elitist.Elites | src/GeneticAlgorithm/Replacement/ElitistReplacement.java:59-76 | count individuals are taken |
| Elitist.ElitesAreFittest | src/GeneticAlgorithm/Replacement/ElitistReplacement.java:59-76 | the elites are the first count of the sorted indices: distinct, none of the others fitter than an elite, and equally fit elites in population order |
| Elitist.FirstRankedIsFittest | src/GeneticAlgorithm/Replacement/ElitistReplacement.java:63-68 | the first of the sorted indices is a fittest individual |
| Elitist.ElitistOutcome | src/GeneticAlgorithm/Replacement/ElitistReplacement.java:22-57 | a successful replacement keeps the population's size |
| Elitist.BestSurvives | src/GeneticAlgorithm/Replacement/ElitistReplacement.java:41-49 | with at least one elite the next generation starts with a fittest current individual, so the best fitness does not drop |
| Elitist.ElitistKeepsMembers | src/GeneticAlgorithm/Replacement/ElitistReplacement.java:44-56 | every individual of the next generation is a current individual or an offspring |
| Elitist.ElitistReplacement.constructor | src/GeneticAlgorithm/Replacement/ElitistReplacement.java:14-19 | an elite count of at least 1 is stored |
| Elitist.NewElitistReplacement | src/GeneticAlgorithm/Replacement/ElitistReplacement.java:14-19 | an elite count below 1 fails with "Elite count must be at least 1", exactly then; otherwise a fresh replacement with that count |
| Elitist.ElitistReplacement.GetEliteCount | src/GeneticAlgorithm/Replacement/ElitistReplacement.java:78-80 | the elite count is returned |
| Elitist.ElitistReplacement.GetEliteIndividuals | src/GeneticAlgorithm/Replacement/ElitistReplacement.java:59-76 | the elites of the population |
| Elitist.ElitistReplacement.Replace | src/GeneticAlgorithm/Replacement/ElitistReplacement.java:22-57 | the four checks fail with the source's messages in the source's order; otherwise the elites come first, followed by the first population-size minus elite-count offspring |
| Initialization.BinaryIndividualIsWellFormed | src/main/java/GeneticAlgorithm/Initializer.java:31-32 | a freshly generated binary chromosome is a permutation matrix of order n |
| Initialization.IntegerIndividualIsWellFormed | src/main/java/GeneticAlgorithm/Initializer.java:43-44 | a freshly generated integer chromosome is a permutation of 1..n |
| Initialization.FloatingIndividualIsWellFormed | src/main/java/GeneticAlgorithm/Initializer.java:54-55 | a freshly generated floating chromosome has n keys in [0, 1] |
| Initialization.BinaryPopulation | src/main/java/GeneticAlgorithm/Initializer.java:28-37 | the population has one individual per remaining count |
| Initialization.BinaryPopulationAt | src/main/java/GeneticAlgorithm/Initializer.java:28-37 | individual k is generated from the k-th draws |
| Initialization.IntegerPopulation | src/main/java/GeneticAlgorithm/Initializer.java:40-49 | the population has one individual per remaining count |
| Initialization.IntegerPopulationAt | src/main/java/GeneticAlgorithm/Initializer.java:40-49 | individual k is generated from the k-th draws |
| Initialization.FloatingPopulation | src/main/java/GeneticAlgorithm/Initializer.java:51-60 | the population has one individual per remaining count |
| Initialization.FloatingPopulationAt | src/main/java/GeneticAlgorithm/Initializer.java:51-60 | individual k is generated from the k-th draws |
| Initialization.NewBinary | src/main/java/GeneticAlgorithm/Initializer.java:31-32 | a new binary chromosome generating n genes yields the binary individual of the draws |
| Initialization.NewInteger | src/main/java/GeneticAlgorithm/Initializer.java:43-44 | a new integer chromosome generating n genes yields the integer individual of the draws |
| Initialization.NewFloating | src/main/java/GeneticAlgorithm/Initializer.java:54-55 | a new floating chromosome generating n genes yields the floating individual of the draws |
| Initialization.InitBinary | src/main/java/GeneticAlgorithm/Initializer.java:28-37 | the count-down loop builds max(popSize, 0) binary individuals, the k-th from the k-th draws |
| Initialization.InitInteger | src/main/java/GeneticAlgorithm/Initializer.java:40-49 | the count-down loop builds max(popSize, 0) integer individuals, the k-th from the k-th draws |
| Initialization.InitFloatingPoint | src/main/java/GeneticAlgorithm/Initializer.java:51-60 | the count-down loop builds max(popSize, 0) floating individuals, the k-th from the k-th draws |
| Initialization.Init | src/main/java/GeneticAlgorithm/Initializer.java:13-26 | a choice other than 1, 2 or 3 fails with "Invalid choice", exactly then; choice 1, 2 or 3 yields exactly the binary, integer or floating-point population of the draws: max(popSize, 0) well-formed individuals of that encoding, the k-th generated from the k-th draws |
| OrderOneCrossover.SlotAt | src/Crossover/OrderOneCrossover.java:65-74 | the slot o steps after cut2, wrapping at n, is a slot of the child |
| OrderOneCrossover.Offset | src/Crossover/OrderOneCrossover.java:65-74 | the number of steps after cut2 at which a slot lies is below n |
| OrderOneCrossover.CyclicFrom | src/Crossover/OrderOneCrossover.java:66-77 | parent2 read cyclically from the slot after cut2: position j holds the gene j steps on |
| OrderOneCrossover.CyclicFromPermutation | src/Crossover/OrderOneCrossover.java:66-77 | reading a permutation cyclically gives a permutation |
| OrderOneCrossover.SegmentPoints | src/Crossover/OrderOneCrossover.java:60-63 | the segment of a permutation holds cut2 - cut1 + 1 distinct points of 0..n-1 |
| OrderOneCrossover.Segment | src/Crossover/OrderOneCrossover.java:60-63 | parent1's genes from cut1 to cut2 (a definition with no contract of its own; SegmentPoints states what it holds) |
| OrderOneCrossover.FillPoints | src/Crossover/OrderOneCrossover.java:68-78 | the genes the scan writes are distinct and are exactly the points outside the segment |
| OrderOneCrossover.Fill | src/Crossover/OrderOneCrossover.java:68-78 | parent2's genes outside the segment, read cyclically after cut2 (a definition with no contract of its own; FillPoints and FillProperties state what it holds) |
| OrderOneCrossover.FillProperties | src/Crossover/OrderOneCrossover.java:68-78 | the scan writes exactly as many genes as there are slots outside the segment, all in range and none from the segment |
| OrderOneCrossover.Child | src/Crossover/OrderOneCrossover.java:50-81 | the child has the parents' length |
| OrderOneCrossover.ChildProperties | src/Crossover/OrderOneCrossover.java:50-81 | the child keeps parent1's segment in place, takes the written genes cyclically from cut2 + 1, and is a permutation of 0..n-1 |
| OrderOneCrossover.HoleWhileUnplaced | src/Crossover/OrderOneCrossover.java:68 | a -1 is left in the offspring exactly while some gene remains to be written, so the loop ends exactly when the child is complete |
| OrderOneCrossover.KeepSegment | src/Crossover/OrderOneCrossover.java:52-63 | all slots -1, then parent1's segment copied in place and recorded as used |
| OrderOneCrossover.PlaceRemaining | src/Crossover/OrderOneCrossover.java:65-80 | the scan loop completes the child |
| OrderOneCrossover.CreateOffspring | src/Crossover/OrderOneCrossover.java:50-81 | the offspring is the child of the two parents and the cut points, and is a permutation |
| OrderOneCrossover.SequenceToChromosome | src/Crossover/OrderOneCrossover.java:83-103 | a fresh chromosome whose matrix marks order sequence[p] at position p; it is a permutation matrix decoding back to the sequence |
| OrderOneCrossover.CutPoints | src/Crossover/OrderOneCrossover.java:37-38 | the drawn cut points satisfy 0 <= cut1 < cut2 <= size - 1 |
| OrderOneCrossover.Recombine | src/Crossover/OrderOneCrossover.java:36-45 | the two children are built with the same cut points and the parents' roles exchanged, and both are permutation matrices of the parents' order |
| OrderOneCrossover.Crossover | src/Crossover/OrderOneCrossover.java:16-48 | non-binary parents fail; a draw above the probability returns the parents; parents of different size or under two orders fail, exactly then; otherwise the two recombined children, both well formed |
| IntegerCrossover.Cyclic | src/Crossover/IntegerCrossover.java:82-85 | the slot d probes after start, wrapping at n, is a slot of the list |
| IntegerCrossover.Steps | src/Crossover/IntegerCrossover.java:82-85 | every slot is reached from start after fewer than n probes |
| IntegerCrossover.FirstEmptyFrom | src/Crossover/IntegerCrossover.java:79-87 | the probe from step d on ends at a slot of the list |
| IntegerCrossover.FirstEmptyFromFacts | src/Crossover/IntegerCrossover.java:79-87 | with a null slot left, the probe stops at the first null slot from step d on; without one it returns start |
| IntegerCrossover.NextEmpty | src/Crossover/IntegerCrossover.java:79-87 | `findNextEmptySlot` returns a slot of the list |
| IntegerCrossover.NextEmptyFacts | src/Crossover/IntegerCrossover.java:79-87 | with a null slot left, the first null slot at or cyclically after start, every slot on the way filled; without one, start |
| IntegerCrossover.FindNextEmptySlot | src/Crossover/IntegerCrossover.java:79-87 | the probe loop returns that slot |
| IntegerCrossover.LastIndex | src/Crossover/IntegerCrossover.java:49-52 | the last position holding a value: later puts overwrite earlier ones |
| IntegerCrossover.PositionMap | src/Crossover/IntegerCrossover.java:47-52 | the map holds exactly the values of the first size genes, each mapped to its last position |
| IntegerCrossover.Empty | src/Crossover/IntegerCrossover.java:54-55 | a child of n null slots |
| IntegerCrossover.Placed | src/Crossover/IntegerCrossover.java:57-68 | placing genes 1..k keeps the child's length |
| IntegerCrossover.HoleLeft | src/Crossover/IntegerCrossover.java:61 | while fewer than n distinct genes are placed a null slot is left, so the probe always finds one |
| IntegerCrossover.PlacedGenes | src/Crossover/IntegerCrossover.java:57-68 | after genes 1..k the placed genes are distinct, within 1..k, and gene g is present exactly when its alpha draw is at least 0.5 |
| IntegerCrossover.PlaceFresh | src/Crossover/IntegerCrossover.java:62 | writing a new gene into a null slot keeps the genes distinct and adds it to the present ones |
| IntegerCrossover.PresentSize | src/Crossover/IntegerCrossover.java:90 | with distinct genes, the present values and the null slots together number the slots |
| IntegerCrossover.MissingFacts | src/Crossover/IntegerCrossover.java:91-94 | the missing values are ascending and are exactly the values of 1..size not present |
| IntegerCrossover.Missing | src/Crossover/IntegerCrossover.java:91-94 | the values of 1..size absent from the child (a definition with no contract of its own; MissingFacts and MissingCount state what it holds) |
| IntegerCrossover.MissingCount | src/Crossover/IntegerCrossover.java:89-101 | there are exactly as many missing values as null slots, so `missing.get(mIdx++)` stays in range |
| IntegerCrossover.FillSlots | src/Crossover/IntegerCrossover.java:95-100 | filling keeps the child's length |
| IntegerCrossover.FillSlotsFacts | src/Crossover/IntegerCrossover.java:95-100 | a filled slot keeps its gene; the i-th null slot from the left takes the i-th missing value |
| IntegerCrossover.CollectMissing | src/Crossover/IntegerCrossover.java:91-94 | the loop collects the values of 1..size not present, in ascending order |
| IntegerCrossover.FillRemaining | src/Crossover/IntegerCrossover.java:89-101 | the two loops fill the null slots with the missing values left to right |
| IntegerCrossover.Values | src/Crossover/IntegerCrossover.java:73-74 | a complete child as a list of genes, slot by slot |
| IntegerCrossover.FilledDistinct | src/Crossover/IntegerCrossover.java:89-101 | filling distinct genes with the ascending missing values completes the child as a permutation of 1..n |
| IntegerCrossover.Offspring | src/Crossover/IntegerCrossover.java:57-71 | one child has the other parent's length |
| IntegerCrossover.OffspringIsPermutation | src/Crossover/IntegerCrossover.java:57-71 | every child is complete and an ordering of 1..n, whatever the alpha draws |
| IntegerCrossover.Crossover | src/Crossover/IntegerCrossover.java:26-77 | non-integer parents fail, exactly then; a draw above the probability returns the parents; otherwise child 1 follows parent2's positions and child 2 parent1's, both permutations of 1..n |
| FloatingUniformCrossover.UniformChildren | src/Crossover/FloatingPointUniformCrossover.java:40-49 | at a position whose alpha is at least 0.5 child 1 takes parent1's gene and child 2 parent2's; otherwise the other way round |
| FloatingUniformCrossover.UniformKeepsGenes | src/Crossover/FloatingPointUniformCrossover.java:40-49 | the two children together hold exactly the parents' genes |
| FloatingUniformCrossover.UniformKeepsUnitInterval | src/Crossover/FloatingPointUniformCrossover.java:40-49 | children of parents with keys in [0, 1] have keys in [0, 1] |
| FloatingUniformCrossover.Crossover | src/Crossover/FloatingPointUniformCrossover.java:15-54 | non-floating parents fail with the source's message; a draw above the probability returns the parents; parents of different length fail; otherwise the uniform children |
| FloatingBlendCrossover.Blend | src/Crossover/FloatingPointCrossover.java:43-44 | a blend with alpha in [0, 1] lies between the two genes |
| FloatingBlendCrossover.BlendChildren | src/Crossover/FloatingPointCrossover.java:41-47 | child 1's gene is alpha times parent1's plus (1 - alpha) times parent2's, and child 2's the mirror blend |
| FloatingBlendCrossover.BlendKeepsSum | src/Crossover/FloatingPointCrossover.java:43-44 | at each position the two children's genes add up to the parents' |
| FloatingBlendCrossover.BlendBetweenParents | src/Crossover/FloatingPointCrossover.java:43-44 | each child gene lies between the two parent genes at its position |
| FloatingBlendCrossover.BlendKeepsUnitInterval | src/Crossover/FloatingPointCrossover.java:41-47 | blends of keys in [0, 1] are keys in [0, 1] |
| FloatingBlendCrossover.Crossover | src/Crossover/FloatingPointCrossover.java:15-52 | non-floating parents fail with the source's message; a draw above the probability returns the parents; parents of different length fail; otherwise the blended children |
| Engine.GeneCount | src/Chromosomes/Chromosome.java:6 | the gene count is the n every well-formed reading of the chromosome gives |
| Engine.AllWellFormedScorable | src/Fitness/BinaryFitnessEvaluator.java:59 | a well-formed population of n points over a matrix bigger than n can be scored |
| Engine.SelectParent | src/GeneticAlgorithm.java:143-144 | a selected parent belongs to the population; tournaments only return binary chromosomes; the roulette wheel over any chromosomes succeeds on a non-empty population; a population with no binary member fails the casting selectors with a class-cast error |
| Engine.Select | src/GeneticAlgorithm.java:143-144 | `selectionMethod.select(population)` dispatches to the configured selector |
| Engine.Cross | src/GeneticAlgorithm.java:147 | `crossoverOperator.crossover`: parents of the wrong encoding fail, only with an illegal-argument error; a draw above the rate returns the parents; otherwise two children of n points of the parents' encoding |
| Engine.CrossMatrices | src/Crossover/OrderOneCrossover.java:16-48 | order-one crossover meets that promise, failing also for fewer than two points |
| Engine.CrossPermutations | src/Crossover/IntegerCrossover.java:26-77 | the position-inheritance crossover meets that promise |
| Engine.CrossKeys | src/Crossover/FloatingPointUniformCrossover.java:15-54 | the uniform and the blend crossover meet that promise, their children's keys staying in [0, 1] |
| Engine.Mutated | src/GeneticAlgorithm.java:151 | a mutated child keeps its encoding and gene count |
| Engine.MutationKeepsWellFormed | src/GeneticAlgorithm.java:151 | every mutation operator keeps a chromosome an order of the same n points |
| Engine.Mutate | src/GeneticAlgorithm/GeneticAlgorithm.java:123-137 | running the chromosome object's mutation gives the mutated genes |
| Engine.ReplaceWith | src/GeneticAlgorithm.java:110 | `replacementStrategy.replace` is the configured strategy's outcome, Engine.Replaced; a success keeps the population size and holds only current individuals and offspring |
| Engine.FirstBest | src/GeneticAlgorithm.java:163-171 | the index `findBest` settles on lies in the population |
| Engine.FirstBestIsFirstMaximum | src/GeneticAlgorithm.java:163-171 | that index holds a maximum fitness, and every earlier individual is strictly less fit |
| Engine.FindBest | src/GeneticAlgorithm.java:163-171 | an empty population fails at `get(0)`; otherwise the loop returns that individual |
| Engine.TypeChoice | src/GeneticAlgorithm.java:59-60 | BINARY is 1, INTEGER 2, FLOATING_POINT 3, and the code determines the type |
| Engine.DefaultCrossover | src/GeneticAlgorithm.java:65-77 | the default crossover of a type accepts parents of that type |
| Engine.Generated | src/main/java/GeneticAlgorithm/Initializer.java:13-26 | the population `init` returns for the type's choice code, built from the draws of that type; a definition with no ensures of its own, stated by Engine.Populate and Engine.GeneticAlgorithm.Initialize |
| Engine.Replaced | src/GeneticAlgorithm.java:110 | the outcome of each strategy's `replace`: the generational conditions and prefix, the steady-state and the elitist outcomes; a definition with no ensures of its own, stated by Engine.ReplaceWith, Engine.GeneticAlgorithm.Replace and Engine.GeneticAlgorithm.Generation |
| Engine.Populate | src/GeneticAlgorithm.java:62-84 | exactly the population `init` generates from the draws (Engine.Generated): populationSize well-formed individuals of the chosen type; and the first fittest of them as the best |
| Engine.MemberWellFormed | src/GeneticAlgorithm.java:143-147 | a member of a well-formed population is well-formed |
| Engine.AppendWellFormed | src/GeneticAlgorithm.java:152 | adding a well-formed child keeps the offspring well-formed |
| Engine.DrawnWellFormed | src/GeneticAlgorithm.java:110 | a next generation drawn from a well-formed population and well-formed offspring is well-formed |
| Engine.ChildDrawsOfRound | src/GeneticAlgorithm.java:150-154 | the two children of pass r use that pass's two child draws |
| Engine.BredAppend | src/GeneticAlgorithm.java:150-154 | adding a child mutated once with its own draws keeps the offspring bred |
| Engine.AtMostRaised | src/GeneticAlgorithm.java:114-119 | raising the bound keeps every history entry under it |
| Engine.AtMostExtended | src/GeneticAlgorithm.java:119 | appending an entry under the new bound keeps the history under it |
| Engine.GeneticAlgorithm.CurrentBest | src/GeneticAlgorithm.java:113 | `findBest(population)` is a well-formed member of the population |
| Engine.GeneticAlgorithm.constructor | src/GeneticAlgorithm.java:44-48 | the defaults: 50 individuals of 10 points, 100 generations, rates 0.7 and 0.01, elite count 1, no fitness function, the integer encoding, tournaments of 3, no crossover, elitist replacement keeping 1, an empty history, not initialized |
| Engine.GeneticAlgorithm.Initialize | src/GeneticAlgorithm.java:53-86 | fails with the source's message, exactly when no fitness function is set, changing nothing; otherwise exactly the population `init` generates from the draws (Engine.Generated), populationSize individuals of chromosomeLength points of the configured type, the type's default crossover when none is set, the first fittest individual as the best, and nothing else changed |
| Engine.GeneticAlgorithm.Start | src/GeneticAlgorithm.java:62-85 | `initialize` past its fitness-function check: the generated population of the draws, the type's default crossover when none is set, the first fittest individual as the best, and the engine initialized |
| Engine.GeneticAlgorithm.Install | src/GeneticAlgorithm.java:84-85 | the generated population, the best solution and the crossover are installed and the engine is initialized |
| Engine.GeneticAlgorithm.MutateChild | src/GeneticAlgorithm/GeneticAlgorithm.java:123-137 | the child is mutated by `mutateMethod1`, or by `mutateMethod2` for a random-key child of the generation-aware driver whose method is not 1, and stays well-formed |
| Engine.GeneticAlgorithm.Breed | src/GeneticAlgorithm.java:143-147 | two selections and a crossover give two well-formed children; a population with no binary member fails the casting selectors |
| Engine.GeneticAlgorithm.CreateOffspring | src/GeneticAlgorithm.java:137-158 | a success holds exactly populationSize well-formed children, the k-th mutated once with the draws of pass k / 2; a casting selector over a population with no binary member fails |
| Engine.GeneticAlgorithm.OffspringPass | src/GeneticAlgorithm.java:141-155 | one pass adds two bred children, or one when that fills the list |
| Engine.GeneticAlgorithm.Generation | src/GeneticAlgorithm.java:105-119 | a failure changes nothing; otherwise the new population is the configured strategy's replacement (Engine.Replaced) of the old one by offspring of populationSize children bred from the draws, it keeps its size, the current best's fitness is appended to the history, the best solution is replaced only by a strictly fitter current best, and the best fitness never drops |
| Engine.GeneticAlgorithm.Replace | src/GeneticAlgorithm.java:110-119 | after the offspring exist: it fails exactly when the strategy's replacement (Engine.Replaced) fails, with that failure and nothing changed; otherwise the population becomes that replacement, and the best solution and history move as in a generation |
| Engine.GeneticAlgorithm.Advance | src/GeneticAlgorithm.java:110-119 | the next population, best solution and history entry are installed |
| Engine.GeneticAlgorithm.Step | src/GeneticAlgorithm.java:105-119 | a generation grows the history by one entry no fitter than the best solution, and the best fitness never drops |
| Engine.GeneticAlgorithm.Run | src/GeneticAlgorithm.java:91-132 | a run of an uninitialized engine without a fitness function fails and changes nothing; otherwise the history keeps its earlier entries and gains one per completed generation, all generations on success, none above the best solution's fitness, and the best fitness never drops |
| Engine.GeneticAlgorithm.Evolve | src/GeneticAlgorithm.java:105-127 | the generation loop: the history gains at most generations entries, exactly that many on success, none above the best fitness, which never drops |
| Engine.GeneticAlgorithm.SetPopulationSize | src/GeneticAlgorithm.java:219-224 | a size below 2 fails with the source's message and keeps the old size; otherwise the size is set |
| Engine.GeneticAlgorithm.SetChromosomeLength | src/GeneticAlgorithm.java:226-231 | a length below 1 fails with the source's message and keeps the old length; otherwise the length is set |
| Engine.GeneticAlgorithm.SetGenerations | src/GeneticAlgorithm.java:233-238 | a count below 1 fails with the source's message and keeps the old count; otherwise the count is set |
| Engine.GeneticAlgorithm.SetCrossoverRate | src/GeneticAlgorithm.java:240-245 | a rate outside [0, 1] fails with the driver's message and keeps the old rate; otherwise the rate is set |
| Engine.GeneticAlgorithm.SetMutationRate | src/GeneticAlgorithm.java:247-252 | a rate outside [0, 1] fails with the source's message and keeps the old rate; otherwise the rate is set |
| Engine.GeneticAlgorithm.SetEliteCount | src/GeneticAlgorithm.java:274-279 | a negative count fails with the source's message and keeps the old count; otherwise the count is set |
| Engine.GeneticAlgorithm.SetFitnessFunction | src/GeneticAlgorithm.java:254-256 | the fitness function is set |
| Engine.GeneticAlgorithm.SetChromosomeType | src/GeneticAlgorithm.java:258-260 | the chromosome type is set |
| Engine.GeneticAlgorithm.SetSelectionMethod | src/GeneticAlgorithm.java:262-264 | the selection method is set |
| Engine.GeneticAlgorithm.SetCrossoverOperator | src/GeneticAlgorithm.java:266-268 | the crossover operator is set |
| Engine.GeneticAlgorithm.SetReplacementStrategy | src/GeneticAlgorithm.java:270-272 | the replacement strategy is set |
| RuleText.UpperAppend | src/main/java/FuzzyLogic/Apis/RuleParser.java:24 | upper-casing distributes over concatenation, so the upper-cased text can be searched piecewise |
| RuleText.Trim | src/main/java/FuzzyLogic/Apis/RuleParser.java:21 | `String.trim` (a definition with no contract of its own; TrimIsSlice states what it removes and keeps) |
| RuleText.TrimIsSlice | src/main/java/FuzzyLogic/Apis/RuleParser.java:21 | the trimmed text is a contiguous slice of the input whose removed ends are all code points at or below U+0020 |
| RuleText.TrimStartSlice | src/main/java/FuzzyLogic/Apis/RuleParser.java:21 | trimming the front drops exactly a prefix of trimmable characters and leaves a non-trimmable first character |
| RuleText.TrimEndSlice | src/main/java/FuzzyLogic/Apis/RuleParser.java:21 | trimming the back drops exactly a suffix of trimmable characters and leaves a non-trimmable last character |
| RuleText.IndexOf | src/main/java/FuzzyLogic/Apis/RuleParser.java:24 | the result is -1 or a position at or after the start where the pattern occurs |
| RuleText.IndexOfIsFirst | src/main/java/FuzzyLogic/Apis/RuleParser.java:24 | whenever the pattern occurs at or after the start, the search finds it no later than that occurrence |
| RuleText.OccurrencesMatch | src/main/java/FuzzyLogic/Apis/RuleParser.java:62-72 | every position collected by the search loop is an occurrence of the pattern |
| RuleText.Occurrences | src/main/java/FuzzyLogic/Apis/RuleParser.java:62-72 | the positions the two search loops collect (a definition with no contract of its own; OccurrencesMatch, OccurrencesApart and OccurrencesComplete state what they are) |
| RuleText.OccurrencesApart | src/main/java/FuzzyLogic/Apis/RuleParser.java:62-72 | collected positions are increasing and at least one pattern length apart, because the loop resumes past each match |
| RuleText.OccurrencesComplete | src/main/java/FuzzyLogic/Apis/RuleParser.java:62-72 | every occurrence at or after the start lies inside some collected match, so nothing is skipped except overlaps |
| RuleText.FindAll | src/main/java/FuzzyLogic/Apis/RuleParser.java:62-72 | the loop collecting the positions of " AND " or " OR " yields exactly the non-overlapping occurrences from the start |
| RuleText.SpaceRunEnd | src/main/java/FuzzyLogic/Apis/RuleParser.java:128 | the end of the whitespace run after a position: everything before it is whitespace and the next character is not |
| RuleText.MatchAt | src/main/java/FuzzyLogic/Apis/RuleParser.java:128 | a match of the case-insensitive separator "whitespace is whitespace" ends at least four characters later, within the text |
| RuleText.NextMatch | src/main/java/FuzzyLogic/Apis/RuleParser.java:128 | the next separator match at or after a position is found at a valid position and agrees with MatchAt |
| RuleText.WordPhrase | src/main/java/FuzzyLogic/Apis/RuleParser.java:128 | a single word of letters is a phrase that cannot hold the separator |
| RuleText.JoinPhrase | src/main/java/FuzzyLogic/Apis/RuleParser.java:128 | a phrase followed by a space and a word not starting with i is still a phrase |
| RuleText.SkipNoMatch | src/main/java/FuzzyLogic/Apis/RuleParser.java:128 | a stretch with no separator match can be skipped without changing the next match |
| RuleText.FirstMatchAfterPhrase | src/main/java/FuzzyLogic/Apis/RuleParser.java:128 | in "v is k" for phrases v and k, the first separator match is the " is " right after v |
| RuleText.NoMatchInPhrase | src/main/java/FuzzyLogic/Apis/RuleParser.java:128 | a phrase contains no separator match |
| RuleText.SplitIsPhrase | src/main/java/FuzzyLogic/Apis/RuleParser.java:128 | splitting "v is k" for phrases v and k gives exactly the two pieces v and k |
| RuleText.SplitIs | src/main/java/FuzzyLogic/Apis/RuleParser.java:128 | `split("(?i)\\s+is\\s+")` (a definition with no contract of its own; SplitIsPhrase states it on "v is k", and ParseCondition and ParseOutput state what a split into other than two pieces gives) |
| JavaDouble.DigitValue | src/main/java/FuzzyLogic/Apis/RuleParser.java:40 | a hexadecimal digit's value is below 16 and a decimal digit's below 10 |
| JavaDouble.ParseDouble | src/main/java/FuzzyLogic/Apis/RuleParser.java:40 | `Double.parseDouble` over exact reals (a definition with no contract of its own; ParseDigits, ParseFraction, SpecialExamples and the Rejected lemmas state what it reads) |
| JavaDouble.DigitsEnd | src/main/java/FuzzyLogic/Apis/RuleParser.java:40 | the end of a run of digits: every character before it is a digit and the one after is not |
| JavaDouble.Pow | src/main/java/FuzzyLogic/Apis/RuleParser.java:40 | a power of a positive base is positive |
| JavaDouble.MantissaDigits | src/main/java/FuzzyLogic/Apis/RuleParser.java:40 | a recognised mantissa consists of digits only and ends inside the text |
| JavaDouble.NatText | src/main/java/FuzzyLogic/Apis/RuleParser.java:40 | the decimal spelling of a natural number is non-empty and made of digits |
| JavaDouble.NatTextValue | src/main/java/FuzzyLogic/Apis/RuleParser.java:40 | reading back the decimal spelling of n gives n |
| JavaDouble.AllDigitsEnd | src/main/java/FuzzyLogic/Apis/RuleParser.java:40 | a digit run reaches the end of a text made only of digits from that point |
| JavaDouble.ParseNatText | src/main/java/FuzzyLogic/Apis/RuleParser.java:40 | Double.parseDouble of the spelling of a natural number n is the finite value n |
| JavaDouble.TrimOfUntrimmable | src/main/java/FuzzyLogic/Apis/RuleParser.java:40 | trimming a text with non-trimmable ends leaves it unchanged |
| JavaDouble.DigitsValueSnoc | src/main/java/FuzzyLogic/Apis/RuleParser.java:40 | appending a digit multiplies the value by ten and adds that digit |
| JavaDouble.DigitsValueAppend | src/main/java/FuzzyLogic/Apis/RuleParser.java:40 | the value of two digit strings joined is the first scaled by ten to the length of the second plus the second |
| JavaDouble.ParseUnsignedDecimal | src/main/java/FuzzyLogic/Apis/RuleParser.java:40 | a trimmed text starting with a digit and not a hexadecimal prefix parses as a decimal literal or is rejected |
| JavaDouble.MantissaOfFraction | src/main/java/FuzzyLogic/Apis/RuleParser.java:40 | the mantissa of "a.f" is the digits a then f, with the length of f as the fraction's scale |
| JavaDouble.DecimalWithoutExponent | src/main/java/FuzzyLogic/Apis/RuleParser.java:40 | a decimal literal without an exponent is its mantissa divided by ten to the number of fraction digits |
| JavaDouble.DecimalOfFraction | src/main/java/FuzzyLogic/Apis/RuleParser.java:40 | "a.f" denotes the joined digits divided by ten to the length of f |
| JavaDouble.ScaleBack | src/main/java/FuzzyLogic/Apis/RuleParser.java:40 | dividing n times p plus v by p gives n plus v over p |
| JavaDouble.ParseFraction | src/main/java/FuzzyLogic/Apis/RuleParser.java:33-47 | Double.parseDouble of "n.f" is the finite value n plus the fraction f, exactly |
| JavaDouble.FractionDigits | src/main/java/FuzzyLogic/Apis/RuleParser.java:40 | the scaled value of the digits a then f equals the whole part a plus the fraction f |
| JavaDouble.DigitsEndPrefix | src/main/java/FuzzyLogic/Apis/RuleParser.java:40 | a digit run starting at the front stops at the first non-digit after a digit prefix |
| JavaDouble.HalfWeight | src/main/java/FuzzyLogic/Apis/RuleParser.java:33-47 | the weight text "0.5" parses as exactly one half |
| JavaDouble.SpecialExamples | src/main/java/FuzzyLogic/Apis/RuleParser.java:40 | "NaN" parses as not-a-number and "-Infinity" as negative infinity, as Double.parseDouble accepts them |
| JavaDouble.RejectedWord | src/main/java/FuzzyLogic/Apis/RuleParser.java:44-45 | "high" is rejected, so the parser reports an invalid weight |
| JavaDouble.RejectedEmptyExponent | src/main/java/FuzzyLogic/Apis/RuleParser.java:44-45 | "1e", an exponent marker without digits, is rejected |
| JavaDouble.RejectedLonePoint | src/main/java/FuzzyLogic/Apis/RuleParser.java:44-45 | ".", a point without digits, is rejected |
| JavaDouble.ParseDigits | src/main/java/FuzzyLogic/Apis/RuleParser.java:40 | a string of decimal digits parses as the finite number its digits denote |
| RuleParsing.Width | src/main/java/FuzzyLogic/Apis/RuleParser.java:111 | the width skipped after an operator is the length of its pattern, 5 for " AND " and 4 for " OR " |
| RuleParsing.ThenAfterIf | src/main/java/FuzzyLogic/Apis/RuleParser.java:24-30 | in a text starting with "IF ", " THEN " starts at index 2 or later, so both substrings are in bounds |
| RuleParsing.Frame | src/main/java/FuzzyLogic/Apis/RuleParser.java:16-30 | rejects exactly the missing or blank text (empty rule) and the text lacking "IF " or " THEN " (format error), otherwise cuts the IF and THEN parts |
| RuleParsing.WeightIndex | src/main/java/FuzzyLogic/Apis/RuleParser.java:34 | the case-insensitive search for " WEIGHT " gives -1 or a position where the upper-cased THEN part holds " WEIGHT " |
| RuleParsing.WeightText | src/main/java/FuzzyLogic/Apis/RuleParser.java:36 | the trimmed text after " WEIGHT " (a definition with no contract of its own; SplitWeight states what is done with it) |
| RuleParsing.SplitWeight | src/main/java/FuzzyLogic/Apis/RuleParser.java:32-47 | without " WEIGHT " the THEN part is kept and the weight is 1.0. With it, the text after " WEIGHT " is rejected as an invalid weight exactly when `Double.parseDouble` refuses it. A parsed value is accepted exactly when it lies in [0.0, 1.0] or is NaN, and is otherwise rejected as out of range. An accepted weight is that parsed value, and the THEN part passed on is the trimmed text before " WEIGHT " |
| RuleParsing.InsertByPositionKeeps | src/main/java/FuzzyLogic/Apis/RuleParser.java:83 | inserting an operator into the sorted list keeps every element and adds that one |
| RuleParsing.InsertByPositionSorted | src/main/java/FuzzyLogic/Apis/RuleParser.java:83 | inserting into a list sorted by position keeps it sorted |
| RuleParsing.SortByPositionSorted | src/main/java/FuzzyLogic/Apis/RuleParser.java:83 | the sort by position yields a sorted permutation of the operators |
| RuleParsing.CollectedMatch | src/main/java/FuzzyLogic/Apis/RuleParser.java:62-81 | every collected operator occurs in the upper-cased IF part at its position |
| RuleParsing.CollectedParts | src/main/java/FuzzyLogic/Apis/RuleParser.java:74-81 | all AND positions and all OR positions are in the combined list, tagged with their operator |
| RuleParsing.CollectedComplete | src/main/java/FuzzyLogic/Apis/RuleParser.java:62-81 | every occurrence of " AND " or " OR " lies within a collected operator of the same kind |
| RuleParsing.OperatorsFound | src/main/java/FuzzyLogic/Apis/RuleParser.java:55-83 | the operators are sorted by position, a permutation of the collected ones, and each occurs at its position |
| RuleParsing.OperatorsComplete | src/main/java/FuzzyLogic/Apis/RuleParser.java:55-83 | every occurrence of an operator in the upper-cased IF part is covered by a listed operator of that kind |
| RuleParsing.Kinds | src/main/java/FuzzyLogic/Apis/RuleParser.java:85-101 | with no operators the single operator is AND; exactly one of single and mixed is set; mixed holds the whole sequence exactly when AND and OR both occur; a single operator is every element |
| RuleParsing.MixedBoth | src/main/java/FuzzyLogic/Apis/RuleParser.java:94-100 | more than one distinct operator exactly when AND and OR both occur; otherwise all operators equal the first |
| RuleParsing.Pieces | src/main/java/FuzzyLogic/Apis/RuleParser.java:103-115 | one condition text more than operators, or a substring failure |
| RuleParsing.ChainedTail | src/main/java/FuzzyLogic/Apis/RuleParser.java:107-112 | pieces are in bounds from a position exactly when the first piece is and the rest are from after the first operator |
| RuleParsing.ChainedWithin | src/main/java/FuzzyLogic/Apis/RuleParser.java:107-114 | chained pieces start within the IF part |
| RuleParsing.PiecesAccepted | src/main/java/FuzzyLogic/Apis/RuleParser.java:103-115 | the split succeeds exactly when every piece begins no later than it ends |
| RuleParsing.PiecesTexts | src/main/java/FuzzyLogic/Apis/RuleParser.java:103-115 | each accepted text is the trimmed slice between the previous operator's end and the next operator's start |
| RuleParsing.SplitConditions | src/main/java/FuzzyLogic/Apis/RuleParser.java:103-115 | one condition text more than operators, or a substring failure |
| RuleParsing.ValidateClass | src/main/java/FuzzyLogic/Apis/RuleParser.java:200-212 | accepts exactly a known variable with one of its classes, ignoring case; otherwise an unknown variable or an invalid class |
| RuleParsing.ValidateCondition | src/main/java/FuzzyLogic/Apis/RuleParser.java:192-198 | accepts exactly a known pair, and an unknown variable is reported as such |
| RuleParsing.StripNot | src/main/java/FuzzyLogic/Apis/RuleParser.java:123-126 | a leading "NOT ", ignoring case, sets the negation and is cut off with the white space after it (a definition with no contract of its own; ConditionTextNot and ClassTextNot state it on written texts) |
| RuleParsing.ParseCondition | src/main/java/FuzzyLogic/Apis/RuleParser.java:118-147 | a text is rejected as an invalid condition exactly when, after trimming and cutting a leading NOT, it does not split into two pieces at " is ". An accepted condition is in the vocabulary. Any other rejection is an unknown variable or an invalid class. The negation by either NOT is stated by ConditionRoundTrip |
| RuleParsing.ConditionsOf | src/main/java/FuzzyLogic/Apis/RuleParser.java:118-148 | when all texts are accepted, there is one condition per text, in order, each the parse of its text |
| RuleParsing.GatherRejected | src/main/java/FuzzyLogic/Apis/RuleParser.java:118-148 | a rejected gathering of verdicts is the first rejected verdict, every verdict before it accepted |
| RuleParsing.ConditionsOfGathers | src/main/java/FuzzyLogic/Apis/RuleParser.java:118-148 | parsing the texts in order is gathering their verdicts |
| RuleParsing.ConditionsOfRejected | src/main/java/FuzzyLogic/Apis/RuleParser.java:118-148 | a rejected list of conditions carries the error of the first failing text, every text before it accepted |
| RuleParsing.ParseOutput | src/main/java/FuzzyLogic/Apis/RuleParser.java:150-172 | a THEN part is rejected as a bad THEN clause exactly when it does not split into two pieces at " is ". When it does, it is rejected as a wrong output variable exactly when the trimmed first piece is not "Water Duration", ignoring case. An accepted output is "Water Duration" with a valid class. Any other rejection is an invalid class |
| RuleParsing.ParseRuleFormat | src/main/java/FuzzyLogic/Apis/RuleParser.java:18-26 | the rule is rejected as empty exactly when blank, and as malformed exactly when IF or THEN is missing |
| RuleParsing.ParseRule | src/main/java/FuzzyLogic/Apis/RuleParser.java:16-189 | `parse` as a function, stage by stage: frame, weight, then ParseClauses (a definition with no contract of its own; ParseRuleFormat, ParseRuleAccepted and ParseRuleUnchained state what it satisfies, and Parse is proved equal to it) |
| RuleParsing.ParseClauses | src/main/java/FuzzyLogic/Apis/RuleParser.java:49-189 | the operators, the split into condition texts, the conditions and the output, then the document (a definition with no contract of its own; ClausesErrors, ClausesAccepted and ClausesConditions state what it satisfies) |
| RuleParsing.ClausesErrors | src/main/java/FuzzyLogic/Apis/RuleParser.java:49-172 | stages after the frame never report an empty or malformed rule |
| RuleParsing.ClausesAccepted | src/main/java/FuzzyLogic/Apis/RuleParser.java:174-189 | an accepted document has no id, is enabled, carries the weight, one condition per piece and all in the vocabulary, the Water Duration output, and exactly one of operator and operators, set as the operator kinds say |
| RuleParsing.ClausesConditions | src/main/java/FuzzyLogic/Apis/RuleParser.java:103-148 | the i-th condition is the parse of the trimmed text between the (i-1)-th and i-th operators |
| RuleParsing.ParseRuleAccepted | src/main/java/FuzzyLogic/Apis/RuleParser.java:16-189 | an accepted rule passed the frame and weight checks. Its weight is 1.0 without WEIGHT, and otherwise the value `Double.parseDouble` reads after " WEIGHT ", in [0, 1] or NaN. Its output is the parse of the THEN part before the weight, and it is the document the clauses build, with no id and enabled |
| RuleParsing.ParseRuleUnchained | src/main/java/FuzzyLogic/Apis/RuleParser.java:107-112 | a rule whose operators overlap, as in "x AND OR y", is turned down with a substring failure |
| RuleParsing.VariableSpelling | src/main/java/FuzzyLogic/Apis/RuleParser.java:10-13 | every variable of the vocabulary is a capital phrase not starting with N |
| RuleParsing.ClassSpelling | src/main/java/FuzzyLogic/Apis/RuleParser.java:10-13 | every class of the vocabulary is a capital word not starting with I |
| RuleParsing.ConditionTextNot | src/main/java/FuzzyLogic/Apis/RuleParser.java:123-126 | a leading "NOT " of a written condition is recognised and stripped, and the rest, including a NOT after " is ", is left as it is |
| RuleParsing.ParseConditionText | src/main/java/FuzzyLogic/Apis/RuleParser.java:118-147 | parsing a written condition comes down to validating its variable and class; the result is negated when a NOT stands in front, after " is ", or in both places |
| RuleParsing.ConditionRoundTrip | src/main/java/FuzzyLogic/Apis/RuleParser.java:118-147 | writing a condition over the vocabulary with its NOT in front, after " is ", or in both places, and parsing it gives the condition back: either NOT negates it and two do not cancel out |
| RuleParsing.ClassTextNot | src/main/java/FuzzyLogic/Apis/RuleParser.java:136-139 | the optional "NOT " before a written class, as conditions and the output put it after " is ", is recognised and stripped, and the class stays a phrase |
| RuleParsing.ParseOutputText | src/main/java/FuzzyLogic/Apis/RuleParser.java:150-172 | parsing a written output comes down to validating its class |
| RuleParsing.OutputRoundTrip | src/main/java/FuzzyLogic/Apis/RuleParser.java:150-172 | writing a Water Duration output and parsing it gives the same output back |
| RuleParsing.CombineOperators | src/main/java/FuzzyLogic/Apis/RuleParser.java:74-81 | the combined list is the AND positions tagged AND followed by the OR positions tagged OR |
| RuleParsing.OperatorSequence | src/main/java/FuzzyLogic/Apis/RuleParser.java:89-92 | the operator names in the sorted order |
| RuleParsing.SplitAtOperators | src/main/java/FuzzyLogic/Apis/RuleParser.java:103-115 | the splitting loop computes the condition texts of SplitConditions, including its substring failure |
| RuleParsing.ParseConditions | src/main/java/FuzzyLogic/Apis/RuleParser.java:117-148 | the condition loop computes ConditionsOf, stopping at the first failing text |
| RuleParsing.Parse | src/main/java/FuzzyLogic/Apis/RuleParser.java:16-190 | parse computes ParseRule, so every lemma about ParseRule holds of it |
| RuleParsing.ParseWeight | src/main/java/FuzzyLogic/Apis/RuleParser.java:32-47 | the WEIGHT step of `parse` computes SplitWeight, including its two rejections |
| RuleParsing.ParseBody | src/main/java/FuzzyLogic/Apis/RuleParser.java:49-189 | the part after the weight computes ParseClauses |

## Left out

- Randomness: `java.util.Random` is not modelled. Every draw is a parameter, so the properties hold for every sequence of draws, not only for a uniform one.
- Fitness.Trunc: the cast's mapping of NaN to 0 is not modelled. Doubles are exact reals here, and the penalised fitness of integer distances is never NaN. The saturation at the ends of the int range is modelled.
- Fitness.TotalRouteTime, Fitness.DepotTotalRouteTime, Fitness.PathTime, Fitness.RouteTime and Fitness.Walk: Java's int sums of distances (src/Fitness/FitnessEvaluator.java:50, 64 and src/Fitness/BinaryFitnessEvaluator.java:85) wrap around at 2^31. The model adds unbounded integers, so it describes routes whose travel times stay within the int range.
- BinaryChromosomes.BinaryChromosome.constructor and BinaryChromosomes.BinaryChromosome.SetGenes require a square matrix. The source copies any nested list, but every call site passes a square one. Likewise, IntegerChromosomes.IntegerChromosome.MutateBySwapping and IntegerChromosomes.IntegerChromosome.MutateByBecomingLast take a natural index. The public Java methods also accept a negative int and then throw, and that failure is not modelled.
- Initialization.Init: the point count `noOfOrders` is a natural number, while Java's is an int. A direct `init` call with a negative count is not modelled. The engine cannot make one, because `setChromosomeLength` (src/GeneticAlgorithm.java:226-231) rejects lengths below 1.
- Floating point: Java `double` values are exact reals. Rounding, overflow to infinity and NaN arising from arithmetic are not modelled. The one exception is the weight string, which `JavaDouble.ParseDouble` reads with its NaN and infinity spellings.
- The `Math.pow` schedule of `nonUniformMutation` (src/Chromosomes/FloatingPointChromosome.java:125-129) is not computed. The factor 1 - r^((1 - currentGen/maxGen)^5) it scales the step by is a free real parameter of `FloatingChromosomes.NonUniformMutation`. In the source that factor lies in (0, 1] while currentGen < maxGen (exactly 1 when r = 0), is 0 at currentGen == maxGen and is negative beyond. The model keeps the step's direction and the final clamp to [0, 1], which holds whatever the factor.
- Singletons: the static evaluator and `IntegerCrossover` instances are replaced by an explicit `Context` holding the distance matrix and the time budget. `Common.InstanceHolder` models the holder's "first call wins, later arguments ignored, throws before the first call" behaviour on its own.
- `synchronized` and every other concurrency aspect: not modelled, since the model is sequential.
- Output: `printStatistics`, `printGenes`, `toString` and every `System.out` line are not modelled, because they only report.
- `getAverageFitness`: not modelled, because its double average only feeds `printStatistics`.
- Getters returning a field unchanged (`getPopulation`, `getBestSolution`, `getFitnessHistory` and the settings getters of the driver, `getTimeConstraint`, `getMaxDeliverableOrders`, `getGenes` of the matrix and order chromosomes): the fields are public in the model, so no separate member is needed.
- Each chromosome's `getFitness` and `getTotalRouteTime` are the functions `Fitness.ChromosomeFitness` and `Fitness.ChromosomeRouteTime`, which restate the evaluator call and have no contract of their own. Their properties are stated on the evaluators.
- Clones and copy constructors: genotypes are values, so a clone is the same value and aliasing between a parent and its clone does not arise. The chromosome classes return fresh objects with equal genes.
- Null components: a null chromosome, selector, crossover, replacement strategy or rule list is not modelled. The one exception is the rule text of `parse`, which is an `Option`.
- The reflective mutation dispatch of src/GeneticAlgorithm/GeneticAlgorithm.java:125-130 is the `Variant` datatype with its `floatingPointMutationMethod` code. The class-name test becomes a test for the random-key encoding. The reflection failures it catches cannot arise in the model, so the `catch` fallback to `mutateMethod1` is not modelled separately.
- src/GeneticAlgorithm/GeneticAlgorithm.java has no setter for `floatingPointMutationMethod`, so the model fixes it when the engine is built.
- The setters accept and reject the same ranges as the source. A NaN rate is not representable, so the NaN case, where both comparisons are false and the value is accepted, is not modelled.
- The driver's distance matrix must cover the depot and every delivery point (|dist| > chromosomeLength). The source throws an `IndexOutOfBoundsException` on a smaller matrix, and that failure is not modelled.
- The driver's `new TournamentSelection(3)` has no one-argument constructor in src/Selection/TournamentSelection.java, which also takes the evaluator. The model builds the selector with the engine's context as that evaluator.
- Package substitutions in the generation-aware driver. src/GeneticAlgorithm/GeneticAlgorithm.java:39 builds `new TournamentSelection(3)` from its own package `GeneticAlgorithm.Selection`, which holds only `RouletteWheelSelection` and `Selection`. The model uses src/Selection/TournamentSelection.java in its place. Likewise, `GeneticAlgorithm.Chromosomes.*`, which the class-name test at src/GeneticAlgorithm/GeneticAlgorithm.java:125 names, is identified with the chromosome classes under src/Chromosomes and src/GeneticAlgorithm/Chromosomes. The first choice alone decides that the default configuration fails, as the next line says.
- With its defaults, the generation-aware driver fails at its first selection: INTEGER chromosomes, with a tournament of 3 that casts to `BinaryChromosome`. The model derives this class-cast failure in `Engine.GeneticAlgorithm.Breed` and `Engine.GeneticAlgorithm.CreateOffspring`; it is not a modelling error.
- Engine.GeneticAlgorithm.CreateOffspring: states that every child is bred from its round's draws and kept well-formed, and that a failed cast fails the loop. It does not restate each crossover's outcome, which the crossover members state themselves.
- IntegerCrossover.Crossover: requires both parents to be permutations of 1..n of the same length and enough per-gene draws. On other lists the source throws (a null slot, a missing map key), and those failures are not modelled.
- FloatingUniformCrossover.Crossover and FloatingBlendCrossover.Crossover: require one draw per gene of the first parent. This is a property of the draw sequence, not an input the source rejects.
- OrderOneCrossover.Crossover: requires matrix parents to be permutation matrices, which every chromosome the engine builds is. Its behaviour on other matrices is not modelled.
- Tournament selection scores only matrix chromosomes, as src/Selection/TournamentSelection.java:40 casts to `BinaryChromosome`. Any other chromosome fails with a class-cast error.
- Replacement strategies take the population's fitness values as a sequence beside the population, rather than calling `getFitness` on each member.
- `Collections.sort` in `ElitistReplacement` is modelled by a stable insertion sort (`Elitist.RankOrder`). A stable sort has a unique result, so the outcome is the same.
- Upper-casing in the rule parser is ASCII only: `toUpperCase` on non-ASCII letters (and the locale it depends on) is not modelled.
- Weights are exact reals: `Double.parseDouble`'s rounding to the nearest double is ignored, so the range check compares the exact value.
- RuleParsing.Message: the text of the invalid-class message stops before the allowed set, since the iteration order of `Set.of` is unspecified. The message of a `StringIndexOutOfBoundsException` is not modelled.
- `RuleDocument` is declared in the model with the `operators` field that src/main/java/FuzzyLogic/Apis/RuleParser.java:178 assigns, because the repository's `RuleDocument` lacks it. `Condition` and `Output` are not part of this model's sources and are declared with the three fields the parser sets. `id` stays unset and `enabled` defaults to true.
- `VALID_CLASSES` is a constant. The constructor refills the same static map on every call, which changes nothing after the first call.
- Fuzzy inference, persistence, the HTTP server, the consoles, the demos and the neural-network code are not part of this model. They hold no logic of the optimiser or the parser.
