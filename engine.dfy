/**
  The generation driver (src/GeneticAlgorithm.java, and its variant
  src/GeneticAlgorithm/GeneticAlgorithm.java whose offspring loop can mutate random-key children
  by the non-uniform operator). The engine holds its settings, the population, the best solution
  met so far and the history of each generation's best fitness; a generation selects pairs of
  parents, crosses and mutates them until populationSize offspring exist, then lets the
  replacement strategy build the next population.
*/
module Engine {
  import opened Common
  import opened Genotypes
  import opened BinaryChromosomes
  import opened IntegerChromosomes
  import opened FloatingChromosomes
  import opened Fitness
  import Tournament
  import RouletteWheel
  import OrderOneCrossover
  import IntegerCrossover
  import FloatingUniformCrossover
  import FloatingBlendCrossover
  import Initialization
  import Generational
  import SteadyState
  import Elitist

  /** The selectors the engine can be given. */
  datatype SelectionMethod =
    | TournamentSelection(tournamentSize: int)
      /** src/GeneticAlgorithm/Selection/RouletteWheelSelection.java: any chromosome. */
    | RouletteWheelSelection
      /** src/Selection/RouletteWheelSelection.java: casts every individual to the matrix encoding. */
    | BinaryRouletteWheelSelection

  /** The crossover operators the engine can be given. */
  datatype CrossoverOperator = OrderOne | PositionInheritance | Uniform | Blend

  /** The replacement strategies, with the state their objects hold. */
  datatype ReplacementStrategy =
    | GenerationalReplacement
    | SteadyStateReplacement(k: nat, parentIndices: seq<int>)
    | ElitistReplacement(eliteCount: nat)

  /**
    Which driver: the plain one mutates every child by `mutateMethod1`; the generation-aware one
    mutates a random-key child by `mutateMethod2` unless its `floatingPointMutationMethod` is 1.
  */
  datatype Variant = Plain | GenerationAware(floatingPointMutationMethod: int)

  /** The draws of one `select` call: tournament index draws, or the wheel's spin and fallback pick. */
  datatype ParentDraw = ParentDraw(indices: seq<nat>, spin: Draw, raw: nat)

  /** The draws of one `crossover` call: the probability test, OX1's two cut draws, one draw per gene. */
  datatype CrossDraws = CrossDraws(coin: Draw, cut1: nat, cut2: nat, alphas: seq<Draw>)

  /**
    The draws of one child's mutation: the matrix encoding's test and two column draws, the
    permutation encoding's per-gene tests and partners, the random-key encoding's per-gene draws.
  */
  datatype ChildDraws = ChildDraws(coin: Draw, pos1: nat, pos2: nat, swaps: seq<(Draw, nat)>,
                                   uniform: seq<UniformDraw>, nonUniform: seq<NonUniformDraw>)

  /** The draws of one pass of the offspring loop. */
  datatype RoundDraws = RoundDraws(first: ParentDraw, second: ParentDraw, cross: CrossDraws,
                                   child1: ChildDraws, child2: ChildDraws)

  /** The draws of `generateGenes` for every individual, by encoding. */
  datatype InitDraws = InitDraws(binary: seq<seq<nat>>, integer: seq<seq<SwapDraw>>, floating: seq<seq<Draw>>)

  /** The number of genes a chromosome carries. */
  function GeneCount(g: Genotype): (n: nat)
    ensures forall m :: WellFormed(g, m) ==> n == m
  {
    match g
    case BinaryGenes(m) => |m|
    case IntegerGenes(order) => |order|
    case FloatingGenes(keys) => |keys|
  }

  predicate ChildFits(d: ChildDraws, n: nat) {
    |d.swaps| >= n && |d.uniform| >= n && |d.nonUniform| >= n
  }

  predicate ParentFits(d: ParentDraw, s: SelectionMethod) {
    s.TournamentSelection? ==> s.tournamentSize <= |d.indices|
  }

  /** One pass of the offspring loop has a draw for everything it asks of the random source. */
  predicate RoundFits(d: RoundDraws, n: nat, s: SelectionMethod) {
    ParentFits(d.first, s) && ParentFits(d.second, s) && |d.cross.alphas| >= n &&
    ChildFits(d.child1, n) && ChildFits(d.child2, n)
  }

  /** Every individual of `population` encodes an order of n points. */
  predicate AllWellFormed(population: seq<Genotype>, n: nat) {
    forall i {:trigger WellFormed(population[i], n)} :: 0 <= i < |population| ==> WellFormed(population[i], n)
  }

  /** A distance matrix over the depot and n points scores every well-formed individual. */
  lemma AllWellFormedScorable(ctx: Context, population: seq<Genotype>, n: nat)
    requires IsDistanceMatrix(ctx.dist) && |ctx.dist| > n && AllWellFormed(population, n)
    ensures Tournament.Scorable(ctx, population)
  {
    forall i | 0 <= i < |population| ensures Evaluable(ctx.dist, population[i]) {
      WellFormedEvaluable(ctx.dist, population[i], n);
    }
  }

  /**
    `select(population)` of each selector. A tournament or the casting wheel fails on a
    non-matrix individual; an empty population fails in `nextInt`.
  */
  function SelectParent(s: SelectionMethod, ctx: Context, population: seq<Genotype>, d: ParentDraw): (r: Result<Genotype>)
    requires Tournament.Scorable(ctx, population) && ParentFits(d, s)
    ensures r.Ok? ==> r.value in population
    ensures r.Ok? && !s.RouletteWheelSelection? ==> r.value.BinaryGenes?
    ensures |population| > 0 && s.RouletteWheelSelection? ==> r.Ok?
    ensures CastFails(s, population) ==> r.Err? && r.failure.ClassCast?
  {
    match s
    case TournamentSelection(size) =>
      var n := |population|;
      if size > 0 && n > 0 then
        assert !population[NextInt(d.indices[0], n)].BinaryGenes? ==> !population[NextInt(d.indices[0], n)].BinaryGenes?;
        Tournament.SelectOutcome(size, population, Tournament.BinaryScores(ctx, population), Tournament.RouteTimes(ctx, population), d.indices)
      else
        Tournament.SelectOutcome(size, population, Tournament.BinaryScores(ctx, population), Tournament.RouteTimes(ctx, population), d.indices)
    case RouletteWheelSelection =>
      RouletteWheel.RouletteOutcome(population, Tournament.Fitnesses(ctx, population), d.spin, d.raw)
    case BinaryRouletteWheelSelection =>
      if exists i :: 0 <= i < |population| && !population[i].BinaryGenes? then Err(ClassCast("not a BinaryChromosome"))
      else RouletteWheel.RouletteOutcome(population, Tournament.Fitnesses(ctx, population), d.spin, d.raw)
  }

  /** Runs the selector object on the population. */
  method Select(s: SelectionMethod, ctx: Context, population: seq<Genotype>, d: ParentDraw) returns (r: Result<Genotype>)
    requires Tournament.Scorable(ctx, population) && ParentFits(d, s)
    ensures r == SelectParent(s, ctx, population, d)
  {
    match s
    case TournamentSelection(size) =>
      var selector := new Tournament.TournamentSelection(size, ctx);
      r := selector.Select(population, d.indices);
    case RouletteWheelSelection =>
      r := RouletteWheel.Select(ctx, population, d.spin, d.raw);
    case BinaryRouletteWheelSelection =>
      r := RouletteWheel.SelectBinary(ctx, population, d.spin, d.raw);
  }

  /** The encoding an operator works on: both parents must carry it. */
  predicate Accepts(op: CrossoverOperator, p1: Genotype, p2: Genotype) {
    match op
    case OrderOne => p1.BinaryGenes? && p2.BinaryGenes?
    case PositionInheritance => p1.IntegerGenes? && p2.IntegerGenes?
    case Uniform => p1.FloatingGenes? && p2.FloatingGenes?
    case Blend => p1.FloatingGenes? && p2.FloatingGenes?
  }

  /**
    What `crossover(parent1, parent2, crossoverRate)` promises on two parents of n points:
    parents of the wrong encoding are rejected (OX1 also rejects fewer than two points), and
    only with `IllegalArgumentException`; a draw above the rate returns the parents; the
    children are orders of n points again, of the parents' encoding.
  */
  predicate Crossed(op: CrossoverOperator, p1: Genotype, p2: Genotype, rate: real, coin: Draw, n: nat,
                    r: Result<(Genotype, Genotype)>) {
    (!Accepts(op, p1, p2) ==> r.Err?) &&
    (r.Err? ==> r.failure.IllegalArgument?) &&
    (Accepts(op, p1, p2) && coin > rate ==> r == Ok((p1, p2))) &&
    (Accepts(op, p1, p2) && !(op.OrderOne? && n < 2) ==> r.Ok?) &&
    (r.Ok? ==> WellFormed(r.value.0, n) && WellFormed(r.value.1, n) &&
               TypeOf(r.value.0) == TypeOf(p1) && TypeOf(r.value.1) == TypeOf(p1))
  }

  /** The configured operator's `crossover`. */
  method Cross(op: CrossoverOperator, p1: Genotype, p2: Genotype, rate: real, d: CrossDraws, ghost n: nat)
    returns (r: Result<(Genotype, Genotype)>)
    requires WellFormed(p1, n) && WellFormed(p2, n) && |d.alphas| >= n
    ensures Crossed(op, p1, p2, rate, d.coin, n, r)
  {
    match op
    case OrderOne =>
      r := CrossMatrices(p1, p2, rate, d, n);
    case PositionInheritance =>
      r := CrossPermutations(p1, p2, rate, d, n);
    case Uniform =>
      r := CrossKeys(true, p1, p2, rate, d, n);
    case Blend =>
      r := CrossKeys(false, p1, p2, rate, d, n);
  }

  /** `OrderOneCrossover.crossover`. */
  method CrossMatrices(p1: Genotype, p2: Genotype, rate: real, d: CrossDraws, ghost n: nat)
    returns (r: Result<(Genotype, Genotype)>)
    requires WellFormed(p1, n) && WellFormed(p2, n)
    ensures Crossed(OrderOne, p1, p2, rate, d.coin, n, r)
  {
    r := OrderOneCrossover.Crossover(p1, p2, rate, d.coin, d.cut1, d.cut2);
  }

  /** `IntegerCrossover.crossover`. */
  method CrossPermutations(p1: Genotype, p2: Genotype, rate: real, d: CrossDraws, ghost n: nat)
    returns (r: Result<(Genotype, Genotype)>)
    requires WellFormed(p1, n) && WellFormed(p2, n) && |d.alphas| >= n
    ensures Crossed(PositionInheritance, p1, p2, rate, d.coin, n, r)
  {
    r := IntegerCrossover.Crossover(p1, p2, rate, d.coin, d.alphas);
  }

  /** `FloatingPointUniformCrossover.crossover`, or `FloatingPointCrossover.crossover` (the blend). */
  method CrossKeys(uniform: bool, p1: Genotype, p2: Genotype, rate: real, d: CrossDraws, ghost n: nat)
    returns (r: Result<(Genotype, Genotype)>)
    requires WellFormed(p1, n) && WellFormed(p2, n) && |d.alphas| >= n
    ensures Crossed(if uniform then Uniform else Blend, p1, p2, rate, d.coin, n, r)
  {
    if uniform {
      r := FloatingUniformCrossover.Crossover(p1, p2, rate, d.coin, d.alphas);
      if r.Ok? && d.coin <= rate {
        FloatingUniformCrossover.UniformKeepsUnitInterval(p1.keys, p2.keys, d.alphas);
      }
    } else {
      r := FloatingBlendCrossover.Crossover(p1, p2, rate, d.coin, d.alphas);
      if r.Ok? && d.coin <= rate {
        FloatingBlendCrossover.BlendKeepsUnitInterval(p1.keys, p2.keys, d.alphas);
      }
    }
  }

  /**
    A child after its one mutation: the matrix encoding swaps two columns, the permutation
    encoding runs its per-gene swap test, a random-key child is mutated gene by gene by the
    uniform operator, or by the non-uniform one when `nonUniform` holds.
  */
  function Mutated(g: Genotype, rate: real, d: ChildDraws, nonUniform: bool): (m: Genotype)
    requires Decodable(g) && ChildFits(d, GeneCount(g))
    ensures TypeOf(m) == TypeOf(g) && GeneCount(m) == GeneCount(g)
  {
    match g
    case BinaryGenes(matrix) =>
      if d.coin > rate || |matrix| < 2 then g
      else
        var pos1 := NextInt(d.pos1, |matrix|);
        BinaryGenes(ColumnSwap(matrix, pos1, OtherPosition(pos1, d.pos2, |matrix|)))
    case IntegerGenes(order) =>
      IntegerGenes(SwapMutationsPrefix(order, rate, d.swaps, |order|))
    case FloatingGenes(keys) =>
      if nonUniform then FloatingGenes(seq(|keys|, i requires 0 <= i < |keys| => NonUniformMutation(keys[i], rate, d.nonUniform[i])))
      else FloatingGenes(seq(|keys|, i requires 0 <= i < |keys| => UniformMutation(keys[i], rate, d.uniform[i])))
  }

  /** Mutation keeps a chromosome an order of the same n points. */
  lemma MutationKeepsWellFormed(g: Genotype, rate: real, d: ChildDraws, nonUniform: bool, n: nat)
    requires WellFormed(g, n) && ChildFits(d, n)
    ensures WellFormed(Mutated(g, rate, d, nonUniform), n)
  {
    match g
    case BinaryGenes(matrix) =>
      if !(d.coin > rate || |matrix| < 2) {
        MutationKeepsPermutationMatrix(matrix, d.pos1, d.pos2);
      }
    case IntegerGenes(order) =>
      SwapMutationsKeepPermutation(order, 1, rate, d.swaps, |order|);
    case FloatingGenes(keys) =>
  }

  /** `child.mutateMethod1(rate)`, or the random-key chromosome's `mutateMethod2`, run on a chromosome object. */
  method Mutate(g: Genotype, rate: real, d: ChildDraws, nonUniform: bool) returns (m: Genotype)
    requires Decodable(g) && ChildFits(d, GeneCount(g))
    ensures m == Mutated(g, rate, d, nonUniform)
  {
    match g
    case BinaryGenes(matrix) =>
      var c := new BinaryChromosome(matrix);
      c.MutateMethod1(rate, d.coin, d.pos1, d.pos2);
      m := BinaryGenes(c.genes);
    case IntegerGenes(order) =>
      var c := new IntegerChromosome(order);
      c.MutateMethod1(rate, d.swaps);
      m := IntegerGenes(c.genes);
    case FloatingGenes(keys) =>
      var c := new FloatingPointChromosome(keys);
      if nonUniform {
        c.MutateMethod2(rate, d.nonUniform);
      } else {
        c.MutateMethod1(rate, d.uniform);
      }
      m := FloatingGenes(c.genes);
  }

  /** What each strategy's `replace(population, offspring)` yields. */
  function Replaced(s: ReplacementStrategy, ctx: Context, population: seq<Genotype>, offspring: seq<Genotype>)
    : Result<seq<Genotype>>
    requires Tournament.Scorable(ctx, population)
  {
    match s
    case GenerationalReplacement =>
      if |population| == 0 then Err(IllegalArgument("Current population cannot be null or empty"))
      else if |offspring| == 0 then Err(IllegalArgument("Offspring cannot be null or empty"))
      else if |offspring| < |population| then Err(IllegalArgument(Generational.ShortfallReason(|offspring|, |population|)))
      else Ok(offspring[..|population|])
    case SteadyStateReplacement(k, parentIndices) => SteadyState.SteadyStateOutcome(k, parentIndices, population, offspring)
    case ElitistReplacement(eliteCount) =>
      Elitist.ElitistOutcome(eliteCount, population, Tournament.Fitnesses(ctx, population), offspring)
  }

  /**
    `replacementStrategy.replace(population, offspring)`; the elitist strategy ranks the
    population by `getFitness`.
  */
  method ReplaceWith(s: ReplacementStrategy, ctx: Context, population: seq<Genotype>, offspring: seq<Genotype>)
    returns (r: Result<seq<Genotype>>)
    requires Tournament.Scorable(ctx, population)
    ensures r == Replaced(s, ctx, population, offspring)
    ensures s.SteadyStateReplacement? ==> r == SteadyState.SteadyStateOutcome(s.k, s.parentIndices, population, offspring)
    ensures s.ElitistReplacement? ==> r == Elitist.ElitistOutcome(s.eliteCount, population, Tournament.Fitnesses(ctx, population), offspring)
    ensures s.GenerationalReplacement? ==> (r.Ok? <==> 0 < |population| <= |offspring|) && (r.Ok? ==> r.value == offspring[..|population|])
    ensures r.Ok? ==> |r.value| == |population|
    ensures r.Ok? ==> forall j :: 0 <= j < |r.value| ==> r.value[j] in population || r.value[j] in offspring
  {
    match s
    case GenerationalReplacement =>
      r := Generational.Replace(population, offspring);
    case SteadyStateReplacement(k, parentIndices) =>
      r := SteadyState.SteadyStateOutcome(k, parentIndices, population, offspring);
      if r.Ok? {
        SteadyState.SteadyStateKeepsMembers(k, parentIndices, population, offspring);
      }
    case ElitistReplacement(eliteCount) =>
      r := Elitist.ElitistOutcome(eliteCount, population, Tournament.Fitnesses(ctx, population), offspring);
      if r.Ok? {
        Elitist.ElitistKeepsMembers(eliteCount, population, Tournament.Fitnesses(ctx, population), offspring);
      }
  }

  /** The index `findBest` settles on: the last index that is strictly fitter than all before it. */
  function FirstBest(fitness: seq<int>): (b: nat)
    requires |fitness| > 0
    ensures b < |fitness|
  {
    if |fitness| == 1 then 0
    else
      var b := FirstBest(fitness[..|fitness| - 1]);
      if fitness[|fitness| - 1] > fitness[b] then |fitness| - 1 else b
  }

  /** `findBest` settles on a maximum of the fitness values, and on the first one. */
  lemma {:induction false} FirstBestIsFirstMaximum(fitness: seq<int>)
    requires |fitness| > 0
    ensures forall i :: 0 <= i < |fitness| ==> fitness[i] <= fitness[FirstBest(fitness)]
    ensures forall i :: 0 <= i < FirstBest(fitness) ==> fitness[i] < fitness[FirstBest(fitness)]
  {
    if |fitness| > 1 {
      var prefix := fitness[..|fitness| - 1];
      FirstBestIsFirstMaximum(prefix);
      assert forall i :: 0 <= i < |prefix| ==> prefix[i] == fitness[i];
    }
  }

  /** One more value moves `findBest`'s choice to it exactly when it beats the current choice. */
  lemma FirstBestStep(fitness: seq<int>, i: nat)
    requires 0 < i < |fitness|
    ensures FirstBest(fitness[..i]) < i
    ensures FirstBest(fitness[..i + 1]) ==
              if fitness[i] > fitness[FirstBest(fitness[..i])] then i else FirstBest(fitness[..i])
  {
    assert fitness[..i + 1][..i] == fitness[..i];
  }

  /**
    `findBest(pop)`: `pop.get(0)`, then each strictly fitter individual in turn; each
    individual's `getFitness` is read off the population's fitness values.
  */
  method FindBest(ctx: Context, population: seq<Genotype>) returns (r: Result<Genotype>)
    requires Tournament.Scorable(ctx, population)
    ensures |population| == 0 ==> r == Err(IndexOutOfBounds(0))
    ensures |population| > 0 ==> r == Ok(population[FirstBest(Tournament.Fitnesses(ctx, population))])
  {
    if |population| == 0 {
      return Err(IndexOutOfBounds(0));
    }
    var fitness := Tournament.Fitnesses(ctx, population);
    var best := population[0];
    var bestIndex := 0;
    // The for-each's first pass compares `pop.get(0)` with itself and changes nothing.
    var i := 1;
    assert fitness[..1] == [fitness[0]];
    while i < |population|
      invariant 1 <= i <= |population| && bestIndex < |population| && best == population[bestIndex]
      invariant bestIndex == FirstBest(fitness[..i])
    {
      FirstBestStep(fitness, i);
      if fitness[i] > fitness[bestIndex] {
        best := population[i];
        bestIndex := i;
      }
      i := i + 1;
    }
    assert fitness[..i] == fitness;
    r := Ok(best);
  }

  /** The message of `initialize` when no fitness function is set. */
  function MissingFitnessReason(v: Variant): string {
    if v.Plain? then "Fitness function must be set before initialization"
    else "GeneticAlgorithm.Fitness function must be set before initialization"
  }

  /** The message of `setCrossoverRate` for a rate outside [0, 1]. */
  function CrossoverRateReason(v: Variant): string {
    if v.Plain? then "Crossover rate must be between 0.0 and 1.0"
    else "GeneticAlgorithm.Crossover rate must be between 0.0 and 1.0"
  }

  /** `typeChoice`: the initializer's code of each chromosome type. */
  function TypeChoice(t: ChromosomeType): (c: int)
    ensures 1 <= c <= 3
    ensures t == (if c == 1 then BINARY else if c == 2 then INTEGER else FLOATING_POINT)
  {
    match t
    case BINARY => 1
    case INTEGER => 2
    case FLOATING_POINT => 3
  }

  /** The crossover `initialize` installs when none is set; it accepts parents of the chromosome type. */
  function DefaultCrossover(t: ChromosomeType): (op: CrossoverOperator)
    ensures forall p1, p2 :: TypeOf(p1) == t && TypeOf(p2) == t ==> Accepts(op, p1, p2)
  {
    match t
    case BINARY => OrderOne
    case INTEGER => PositionInheritance
    case FLOATING_POINT => Uniform
  }

  /** The initializer has the `generateGenes` draws of every individual of the chosen type. */
  predicate InitFits(d: InitDraws, t: ChromosomeType, n: nat, popSize: int) {
    var count := Initialization.Count(popSize);
    match t
    case BINARY => count <= |d.binary| && forall k :: 0 <= k < count ==> |d.binary[k]| + 1 >= n
    case INTEGER => count <= |d.integer| && forall k :: 0 <= k < count ==> |d.integer[k]| >= n
    case FLOATING_POINT => count <= |d.floating| && forall k :: 0 <= k < count ==> |d.floating[k]| >= n
  }

  /**
    The offspring loop has its draws: it runs at most ceil(populationSize / 2) passes, since
    every pass that does not fail adds two children, or one when that fills the list.
  */
  predicate EnoughRounds(rounds: seq<RoundDraws>, n: nat, populationSize: int, s: SelectionMethod) {
    2 * |rounds| >= populationSize && forall i :: 0 <= i < |rounds| ==> RoundFits(rounds[i], n, s)
  }

  /** Whether the offspring loop mutates this child by the non-uniform operator. */
  predicate NonUniformFor(v: Variant, g: Genotype) {
    v.GenerationAware? && v.floatingPointMutationMethod != 1 && g.FloatingGenes?
  }

  /** The individuals `init(typeChoice, n, populationSize)` generates from the draws of type t. */
  function Generated(t: ChromosomeType, n: nat, populationSize: int, draws: InitDraws): seq<Genotype>
    requires InitFits(draws, t, n, populationSize)
  {
    var count := Initialization.Count(populationSize);
    match t
    case BINARY => Initialization.BinaryPopulation(n, draws.binary, count)
    case INTEGER => Initialization.IntegerPopulation(n, draws.integer, count)
    case FLOATING_POINT => Initialization.FloatingPopulation(n, draws.floating, count)
  }

  /**
    `init(typeChoice, chromosomeLength, populationSize)` followed by `findBest`: the generated
    individuals, of type t and n points each, and the first fittest of them.
  */
  method Populate(ctx: Context, t: ChromosomeType, n: nat, populationSize: int, draws: InitDraws)
    returns (population: seq<Genotype>, best: Genotype)
    requires IsDistanceMatrix(ctx.dist) && |ctx.dist| > n && populationSize > 0
    requires InitFits(draws, t, n, populationSize)
    ensures |population| == populationSize && Ready(ctx, population, Some(best), n)
    ensures forall i :: 0 <= i < |population| ==> TypeOf(population[i]) == t
    ensures population == Generated(t, n, populationSize, draws)
    ensures best == population[FirstBest(Tournament.Fitnesses(ctx, population))]
  {
    var generated := Initialization.Init(TypeChoice(t), n, populationSize, draws.binary, draws.integer, draws.floating);
    population := generated.value;
    AllWellFormedScorable(ctx, population, n);
    var found := FindBest(ctx, population);
    best := found.value;
    WellFormedEvaluable(ctx.dist, best, n);
  }

  /** A member of a well-formed population is well-formed. */
  lemma MemberWellFormed(population: seq<Genotype>, n: nat, g: Genotype)
    requires AllWellFormed(population, n) && g in population
    ensures WellFormed(g, n)
  {
    var i :| 0 <= i < |population| && population[i] == g;
    assert WellFormed(population[i], n);
  }

  /** Extending a well-formed population by a well-formed individual keeps it well-formed. */
  lemma AppendWellFormed(population: seq<Genotype>, n: nat, g: Genotype)
    requires AllWellFormed(population, n) && WellFormed(g, n)
    ensures AllWellFormed(population + [g], n)
  {
    var extended := population + [g];
    forall i | 0 <= i < |extended| ensures WellFormed(extended[i], n) {
      if i < |population| {
        assert extended[i] == population[i];
      }
    }
  }

  /** A population whose every member comes from two well-formed populations is well-formed. */
  lemma DrawnWellFormed(next: seq<Genotype>, population: seq<Genotype>, offspring: seq<Genotype>, n: nat)
    requires AllWellFormed(population, n) && AllWellFormed(offspring, n)
    requires forall j :: 0 <= j < |next| ==> next[j] in population || next[j] in offspring
    ensures AllWellFormed(next, n)
  {
    forall j | 0 <= j < |next| ensures WellFormed(next[j], n) {
      if next[j] in population {
        MemberWellFormed(population, n, next[j]);
      } else {
        MemberWellFormed(offspring, n, next[j]);
      }
    }
  }

  /**
    The selector casts every individual to the matrix encoding and the population has none:
    a tournament of at least one or the casting wheel over a non-empty population.
  */
  predicate CastFails(s: SelectionMethod, population: seq<Genotype>) {
    |population| > 0 && (forall i :: 0 <= i < |population| ==> !population[i].BinaryGenes?) &&
    !s.RouletteWheelSelection? && (s.TournamentSelection? ==> s.tournamentSize > 0)
  }

  /** The mutation draws the offspring loop spends on its k-th child: the first or second child of pass k / 2. */
  function ChildDrawsAt(rounds: seq<RoundDraws>, k: nat): ChildDraws
    requires k / 2 < |rounds|
  {
    if k % 2 == 0 then rounds[k / 2].child1 else rounds[k / 2].child2
  }

  /** Children 2 * round and 2 * round + 1 take the draws of pass `round`. */
  lemma ChildDrawsOfRound(rounds: seq<RoundDraws>, round: nat)
    requires round < |rounds|
    ensures (2 * round) / 2 == round && (2 * round + 1) / 2 == round
    ensures ChildDrawsAt(rounds, 2 * round) == rounds[round].child1
    ensures ChildDrawsAt(rounds, 2 * round + 1) == rounds[round].child2
  {
  }

  /** m is some crossover child after exactly one mutation with draws d. */
  ghost predicate MutatedOnce(m: Genotype, rate: real, d: ChildDraws, v: Variant) {
    exists c :: Decodable(c) && ChildFits(d, GeneCount(c)) && m == Mutated(c, rate, d, NonUniformFor(v, c))
  }

  /**
    An offspring list as the loop builds it: every child encodes an order of n points, and the
    k-th is a crossover child mutated once with the k-th child's draws.
  */
  ghost predicate Bred(offspring: seq<Genotype>, rounds: seq<RoundDraws>, rate: real, v: Variant, n: nat) {
    AllWellFormed(offspring, n) &&
    forall k :: 0 <= k < |offspring| ==> k / 2 < |rounds| && MutatedOnce(offspring[k], rate, ChildDrawsAt(rounds, k), v)
  }

  /** Appending the next mutated child keeps the list bred. */
  lemma BredAppend(offspring: seq<Genotype>, rounds: seq<RoundDraws>, rate: real, v: Variant, n: nat, m: Genotype)
    requires Bred(offspring, rounds, rate, v, n) && |offspring| / 2 < |rounds|
    requires WellFormed(m, n) && MutatedOnce(m, rate, ChildDrawsAt(rounds, |offspring|), v)
    ensures Bred(offspring + [m], rounds, rate, v, n)
  {
    AppendWellFormed(offspring, n, m);
    var extended := offspring + [m];
    forall k | 0 <= k < |extended|
      ensures k / 2 < |rounds| && MutatedOnce(extended[k], rate, ChildDrawsAt(rounds, k), v)
    {
      if k < |offspring| {
        assert extended[k] == offspring[k];
      } else {
        assert extended[k] == m;
      }
    }
  }

  /** Every entry of h from index `start` on is at most `bound`. */
  predicate AtMost(h: seq<real>, start: nat, bound: real) {
    forall i :: start <= i < |h| ==> h[i] <= bound
  }

  /** A higher bound bounds the same entries. */
  lemma AtMostRaised(h: seq<real>, start: nat, bound: real, higher: real)
    requires AtMost(h, start, bound) && bound <= higher
    ensures AtMost(h, start, higher)
  {
  }

  /** A history extended by one entry under a higher bound remains bounded by that bound. */
  lemma AtMostExtended(before: seq<real>, after: seq<real>, start: nat, bound: real, higher: real)
    requires AtMost(before, start, bound) && bound <= higher && start <= |before|
    requires |after| == |before| + 1 && after[..|before|] == before && after[|before|] <= higher
    ensures AtMost(after, start, higher)
  {
    forall i | start <= i < |after| ensures after[i] <= higher {
      if i < |before| {
        assert after[i] == after[..|before|][i];
      }
    }
  }

  /**
    A generated population: non-empty, every individual and the best solution encode orders of
    n points the matrix covers.
  */
  ghost predicate Ready(ctx: Context, population: seq<Genotype>, best: Option<Genotype>, n: nat) {
    |population| > 0 && |ctx.dist| > n && AllWellFormed(population, n) && Tournament.Scorable(ctx, population) &&
    best.Some? && WellFormed(best.value, n) && Evaluable(ctx.dist, best.value)
  }

  /** The settings of an engine: what the setters write. */
  datatype Settings = Settings(populationSize: int, chromosomeLength: int, generations: int,
                               crossoverRate: real, mutationRate: real, eliteCount: int,
                               fitnessFunction: Option<Context>, chromosomeType: ChromosomeType,
                               selectionMethod: SelectionMethod, crossoverOperator: Option<CrossoverOperator>,
                               replacementStrategy: ReplacementStrategy)

  /** The state of a run: what `initialize` and `run` write. */
  datatype Progress = Progress(population: seq<Genotype>, bestSolution: Option<Genotype>,
                               fitnessHistory: seq<real>, initialized: bool, geneCount: nat)

  class GeneticAlgorithm {
    const variant: Variant
    /**
      The matrix and budget of the evaluator instances that every chromosome's `getFitness`
      consults; the engine's own fitness function is only checked to be set.
    */
    const ctx: Context

    var populationSize: int
    var chromosomeLength: int
    var generations: int
    var crossoverRate: real
    var mutationRate: real
    /** Stored by `setEliteCount`; the replacement strategy keeps its own count. */
    var eliteCount: int
    var fitnessFunction: Option<Context>
    var chromosomeType: ChromosomeType
    var selectionMethod: SelectionMethod
    /** `None` is the unset operator that `initialize` replaces by the type's default. */
    var crossoverOperator: Option<CrossoverOperator>
    var replacementStrategy: ReplacementStrategy
    var population: seq<Genotype>
    /** `None` is the null best solution before `initialize`. */
    var bestSolution: Option<Genotype>
    var fitnessHistory: seq<real>
    var initialized: bool
    /** The number of points the population was generated with. */
    ghost var geneCount: nat

    /**
      The setters' ranges hold, and once initialized the population is non-empty, every
      individual and the best solution encode orders of geneCount points the matrix covers,
      and a crossover operator is set.
    */
    ghost predicate Valid()
      reads this
    {
      Configured() && (initialized ==> Ready(ctx, population, bestSolution, geneCount) && crossoverOperator.Some?)
    }

    /** The setters' ranges hold and the matrix is square. */
    ghost predicate Configured()
      reads this
    {
      populationSize >= 2 && chromosomeLength >= 1 && generations >= 1 &&
      0.0 <= crossoverRate <= 1.0 && 0.0 <= mutationRate <= 1.0 && eliteCount >= 0 &&
      IsDistanceMatrix(ctx.dist)
    }

    ghost function Config(): Settings
      reads this
    {
      Settings(populationSize, chromosomeLength, generations, crossoverRate, mutationRate, eliteCount,
               fitnessFunction, chromosomeType, selectionMethod, crossoverOperator, replacementStrategy)
    }

    ghost function State(): Progress
      reads this
    {
      Progress(population, bestSolution, fitnessHistory, initialized, geneCount)
    }

    /** `bestSolution.getFitness()`. */
    function BestFitness(): int
      reads this
      requires Valid() && initialized
    {
      ChromosomeFitness(ctx, bestSolution.value)
    }

    /** What `findBest(population)` returns. */
    function CurrentBest(): (b: Genotype)
      reads this
      requires Valid() && initialized
      ensures b in population && WellFormed(b, geneCount)
    {
      population[FirstBest(Tournament.Fitnesses(ctx, population))]
    }

    /**
      The defaults: 50 individuals of 10 points, 100 generations, crossover rate 0.7, mutation
      rate 0.01, elite count 1, the permutation encoding, tournaments of 3, elitist replacement
      keeping 1.
    */
    constructor (variant: Variant, ctx: Context)
      requires IsDistanceMatrix(ctx.dist)
      ensures Valid() && this.variant == variant && this.ctx == ctx
      ensures Config() == Settings(50, 10, 100, 0.7, 0.01, 1, None, INTEGER, TournamentSelection(3), None, ElitistReplacement(1))
      ensures State() == Progress([], None, [], false, 0)
    {
      this.variant := variant;
      this.ctx := ctx;
      populationSize := 50;
      chromosomeLength := 10;
      generations := 100;
      crossoverRate := 0.7;
      mutationRate := 0.01;
      eliteCount := 1;
      fitnessFunction := None;
      chromosomeType := INTEGER;
      selectionMethod := TournamentSelection(3);
      crossoverOperator := None;
      replacementStrategy := ElitistReplacement(1);
      population := [];
      bestSolution := None;
      fitnessHistory := [];
      initialized := false;
      geneCount := 0;
    }

    /**
      `initialize()`: without a fitness function it fails and changes nothing; otherwise it
      generates populationSize chromosomes of chromosomeLength points of the configured type,
      installs the type's default crossover when none is set, and takes the first fittest
      individual as the best solution.
    */
    method Initialize(draws: InitDraws) returns (failure: Option<Failure>)
      requires Valid() && |ctx.dist| > chromosomeLength
      requires InitFits(draws, chromosomeType, chromosomeLength, populationSize)
      modifies this`population, this`bestSolution, this`crossoverOperator, this`geneCount, this`initialized
      ensures Valid()
      ensures failure.Some? <==> fitnessFunction.None?
      ensures failure.Some? ==> failure.value == IllegalState(MissingFitnessReason(variant)) && unchanged(this)
      ensures failure.None? ==> initialized && geneCount == chromosomeLength && |population| == populationSize
      ensures failure.None? ==> forall i :: 0 <= i < |population| ==> TypeOf(population[i]) == chromosomeType
      ensures failure.None? ==> population == Generated(chromosomeType, chromosomeLength, populationSize, draws)
      ensures failure.None? ==>
        Config() == old(Config()).(crossoverOperator := Some(if old(crossoverOperator).Some? then old(crossoverOperator).value else DefaultCrossover(chromosomeType)))
      ensures failure.None? ==> bestSolution == Some(CurrentBest()) && fitnessHistory == old(fitnessHistory)
    {
      if fitnessFunction.None? {
        return Some(IllegalState(MissingFitnessReason(variant)));
      }
      Start(draws);
      failure := None;
    }

    /** The work of `initialize` once a fitness function is set. */
    method Start(draws: InitDraws)
      requires Valid() && |ctx.dist| > chromosomeLength
      requires InitFits(draws, chromosomeType, chromosomeLength, populationSize)
      modifies this`population, this`bestSolution, this`crossoverOperator, this`geneCount, this`initialized
      ensures Valid() && initialized && geneCount == chromosomeLength && |population| == populationSize
      ensures forall i :: 0 <= i < |population| ==> TypeOf(population[i]) == chromosomeType
      ensures population == Generated(chromosomeType, chromosomeLength, populationSize, draws)
      ensures crossoverOperator == Some(if old(crossoverOperator).Some? then old(crossoverOperator).value else DefaultCrossover(chromosomeType))
      ensures bestSolution == Some(CurrentBest())
    {
      var generated, best := Populate(ctx, chromosomeType, chromosomeLength, populationSize, draws);
      var op := if crossoverOperator.Some? then crossoverOperator.value else DefaultCrossover(chromosomeType);
      Install(generated, best, op);
    }

    /** The assignments that complete `initialize`. */
    method Install(generated: seq<Genotype>, best: Genotype, op: CrossoverOperator)
      requires Configured() && Ready(ctx, generated, Some(best), chromosomeLength)
      modifies this`population, this`bestSolution, this`crossoverOperator, this`geneCount, this`initialized
      ensures Valid()
      ensures population == generated && bestSolution == Some(best) && crossoverOperator == Some(op)
      ensures initialized && geneCount == chromosomeLength
    {
      population, bestSolution, crossoverOperator := generated, Some(best), Some(op);
      geneCount, initialized := chromosomeLength, true;
      assert Ready(ctx, population, bestSolution, geneCount);
    }

    /**
      One child's mutation in the offspring loop: `mutateMethod1`, or `mutateMethod2` for a
      random-key child of the generation-aware driver.
    */
    method MutateChild(g: Genotype, d: ChildDraws) returns (m: Genotype)
      requires WellFormed(g, geneCount) && ChildFits(d, geneCount)
      ensures m == Mutated(g, mutationRate, d, NonUniformFor(variant, g))
      ensures WellFormed(m, geneCount) && MutatedOnce(m, mutationRate, d, variant)
    {
      WellFormedSequence(g, geneCount);
      m := Mutate(g, mutationRate, d, NonUniformFor(variant, g));
      MutationKeepsWellFormed(g, mutationRate, d, NonUniformFor(variant, g), geneCount);
    }

    /**
      The selection and crossover of one pass of the offspring loop: two `select` calls, then
      the operator's `crossover` of the two parents.
    */
    method Breed(d: RoundDraws) returns (r: Result<(Genotype, Genotype)>)
      requires Valid() && initialized && RoundFits(d, geneCount, selectionMethod)
      ensures r.Ok? ==> WellFormed(r.value.0, geneCount) && WellFormed(r.value.1, geneCount)
      ensures CastFails(selectionMethod, population) ==> r.Err? && r.failure.ClassCast?
    {
      var parent1 := Select(selectionMethod, ctx, population, d.first);
      if parent1.Err? {
        return Err(parent1.failure);
      }
      var parent2 := Select(selectionMethod, ctx, population, d.second);
      if parent2.Err? {
        return Err(parent2.failure);
      }
      MemberWellFormed(population, geneCount, parent1.value);
      MemberWellFormed(population, geneCount, parent2.value);
      r := Cross(crossoverOperator.value, parent1.value, parent2.value, crossoverRate, d.cross, geneCount);
    }

    /**
      `createOffspring()`: passes of select, select, crossover and mutation, each child added
      after its mutation, until populationSize offspring exist; the second child of the last
      pass is dropped when the first one fills the list. Any failure of a selector or an
      operator ends the loop.
    */
    method CreateOffspring(rounds: seq<RoundDraws>) returns (r: Result<seq<Genotype>>)
      requires Valid() && initialized && EnoughRounds(rounds, geneCount, populationSize, selectionMethod)
      ensures r.Ok? ==> |r.value| == populationSize && Bred(r.value, rounds, mutationRate, variant, geneCount)
      ensures CastFails(selectionMethod, population) ==> r.Err? && r.failure.ClassCast?
    {
      var offspring: seq<Genotype> := [];
      var round := 0;
      while |offspring| < populationSize
        invariant round <= |rounds| && |offspring| <= populationSize
        invariant |offspring| < populationSize ==> |offspring| == 2 * round
        invariant Bred(offspring, rounds, mutationRate, variant, geneCount)
        invariant CastFails(selectionMethod, population) ==> |offspring| == 0
        decreases populationSize - |offspring|
      {
        var extended := OffspringPass(rounds, round, offspring);
        if extended.Err? {
          return extended;
        }
        offspring := extended.value;
        round := round + 1;
      }
      r := Ok(offspring);
    }

    /**
      One pass of the offspring loop on a list of 2 * round children: both children are
      mutated and added, or only the first when it fills the list.
    */
    method OffspringPass(rounds: seq<RoundDraws>, round: nat, offspring: seq<Genotype>) returns (r: Result<seq<Genotype>>)
      requires Valid() && initialized && EnoughRounds(rounds, geneCount, populationSize, selectionMethod)
      requires round < |rounds| && |offspring| == 2 * round < populationSize
      requires Bred(offspring, rounds, mutationRate, variant, geneCount)
      ensures r.Ok? ==> |r.value| == if |offspring| + 2 <= populationSize then |offspring| + 2 else populationSize
      ensures r.Ok? ==> Bred(r.value, rounds, mutationRate, variant, geneCount)
      ensures CastFails(selectionMethod, population) ==> r.Err? && r.failure.ClassCast?
    {
      var d := rounds[round];
      var children := Breed(d);
      if children.Err? {
        return Err(children.failure);
      }
      ChildDrawsOfRound(rounds, round);
      var child1 := MutateChild(children.value.0, d.child1);
      assert |offspring| / 2 == round && ChildDrawsAt(rounds, |offspring|) == d.child1;
      BredAppend(offspring, rounds, mutationRate, variant, geneCount, child1);
      var extended := offspring + [child1];
      if |extended| < populationSize {
        var child2 := MutateChild(children.value.1, d.child2);
        assert |extended| == 2 * round + 1 && ChildDrawsAt(rounds, |extended|) == d.child2;
        BredAppend(extended, rounds, mutationRate, variant, geneCount, child2);
        extended := extended + [child2];
      }
      r := Ok(extended);
    }

    /**
      One pass of `run`'s loop: offspring, `replace`, then `findBest` of the new population;
      the best solution is replaced only by a strictly fitter individual, and the current
      best's fitness is appended to the history. A failure leaves the engine as it was.
    */
    method Generation(rounds: seq<RoundDraws>) returns (failure: Option<Failure>)
      requires Valid() && initialized && EnoughRounds(rounds, geneCount, populationSize, selectionMethod)
      modifies this`population, this`bestSolution, this`fitnessHistory
      ensures Valid() && initialized
      ensures failure.Some? ==> population == old(population) && bestSolution == old(bestSolution) && fitnessHistory == old(fitnessHistory)
      ensures failure.None? ==> |population| == old(|population|)
      ensures failure.None? ==>
        exists offspring :: |offspring| == populationSize && Bred(offspring, rounds, mutationRate, variant, geneCount) &&
                            Replaced(replacementStrategy, ctx, old(population), offspring) == Ok(population)
      ensures failure.None? ==> fitnessHistory == old(fitnessHistory) + [ChromosomeFitness(ctx, CurrentBest()) as real]
      ensures failure.None? ==>
        bestSolution == (if ChromosomeFitness(ctx, CurrentBest()) > old(BestFitness()) then Some(CurrentBest()) else old(bestSolution))
      ensures BestFitness() >= old(BestFitness())
      ensures failure.None? ==> ChromosomeFitness(ctx, CurrentBest()) <= BestFitness()
      ensures CastFails(selectionMethod, old(population)) ==> failure.Some? && failure.value.ClassCast?
    {
      var offspring := CreateOffspring(rounds);
      if offspring.Err? {
        return Some(offspring.failure);
      }
      failure := Replace(offspring.value);
      if failure.None? {
        assert Replaced(replacementStrategy, ctx, old(population), offspring.value) == Ok(population);
      }
    }

    /**
      The rest of a generation once the offspring exist: `replace`, `findBest`, the best
      solution's update and the history entry.
    */
    method Replace(offspring: seq<Genotype>) returns (failure: Option<Failure>)
      requires Valid() && initialized && AllWellFormed(offspring, geneCount)
      modifies this`population, this`bestSolution, this`fitnessHistory
      ensures Valid() && initialized
      ensures failure.Some? ==> population == old(population) && bestSolution == old(bestSolution) && fitnessHistory == old(fitnessHistory)
      ensures failure.None? ==> |population| == old(|population|)
      ensures failure.None? <==> Replaced(replacementStrategy, ctx, old(population), offspring).Ok?
      ensures failure.Some? ==> failure.value == Replaced(replacementStrategy, ctx, old(population), offspring).failure
      ensures failure.None? ==> population == Replaced(replacementStrategy, ctx, old(population), offspring).value
      ensures failure.None? ==> fitnessHistory == old(fitnessHistory) + [ChromosomeFitness(ctx, CurrentBest()) as real]
      ensures failure.None? ==>
        bestSolution == (if ChromosomeFitness(ctx, CurrentBest()) > old(BestFitness()) then Some(CurrentBest()) else old(bestSolution))
      ensures BestFitness() >= old(BestFitness())
      ensures failure.None? ==> ChromosomeFitness(ctx, CurrentBest()) <= BestFitness()
    {
      var next := ReplaceWith(replacementStrategy, ctx, population, offspring);
      if next.Err? {
        return Some(next.failure);
      }
      DrawnWellFormed(next.value, population, offspring, geneCount);
      AllWellFormedScorable(ctx, next.value, geneCount);
      var found := FindBest(ctx, next.value);
      var currentBest := found.value;
      MemberWellFormed(next.value, geneCount, currentBest);
      WellFormedEvaluable(ctx.dist, currentBest, geneCount);
      var currentFitness := ChromosomeFitness(ctx, currentBest);
      var best := if currentFitness > BestFitness() then Some(currentBest) else bestSolution;
      Advance(next.value, best, currentFitness as real);
      failure := None;
    }

    /** The assignments that complete a generation. */
    method Advance(next: seq<Genotype>, best: Option<Genotype>, entry: real)
      requires Valid() && initialized && Ready(ctx, next, best, geneCount)
      modifies this`population, this`bestSolution, this`fitnessHistory
      ensures Valid() && initialized
      ensures population == next && bestSolution == best && fitnessHistory == old(fitnessHistory) + [entry]
    {
      population, bestSolution := next, best;
      fitnessHistory := fitnessHistory + [entry];
    }

    /** A generation, seen from `run`'s loop: the history grows by one entry no fitter than the best solution. */
    method Step(rounds: seq<RoundDraws>) returns (failure: Option<Failure>)
      requires Valid() && initialized && EnoughRounds(rounds, geneCount, populationSize, selectionMethod)
      modifies this`population, this`bestSolution, this`fitnessHistory
      ensures Valid() && initialized && BestFitness() >= old(BestFitness())
      ensures failure.Some? ==> fitnessHistory == old(fitnessHistory)
      ensures failure.None? ==> |fitnessHistory| == |old(fitnessHistory)| + 1 && fitnessHistory[..|old(fitnessHistory)|] == old(fitnessHistory)
      ensures failure.None? ==> fitnessHistory[|old(fitnessHistory)|] <= BestFitness() as real
    {
      failure := Generation(rounds);
      if failure.None? {
        assert fitnessHistory[..|old(fitnessHistory)|] == old(fitnessHistory);
      }
    }

    /**
      `run()`: initializes first when needed, then runs `generations` generations. The history
      keeps its earlier entries and gains one per completed generation, none above the best
      solution's fitness, and the best solution's fitness never drops.
    */
    method Run(init: InitDraws, gens: seq<seq<RoundDraws>>) returns (failure: Option<Failure>)
      requires Valid() && |ctx.dist| > chromosomeLength
      requires !initialized ==> InitFits(init, chromosomeType, chromosomeLength, populationSize)
      requires |gens| >= generations
      requires forall g :: 0 <= g < |gens| ==>
        EnoughRounds(gens[g], if initialized then geneCount else chromosomeLength, populationSize, selectionMethod)
      modifies this`population, this`bestSolution, this`crossoverOperator, this`geneCount, this`initialized, this`fitnessHistory
      ensures Valid()
      ensures !old(initialized) && fitnessFunction.None? ==>
        failure == Some(IllegalState(MissingFitnessReason(variant))) && State() == old(State())
      ensures |old(fitnessHistory)| <= |fitnessHistory| <= |old(fitnessHistory)| + generations
      ensures fitnessHistory[..|old(fitnessHistory)|] == old(fitnessHistory)
      ensures failure.None? ==> initialized && |fitnessHistory| == |old(fitnessHistory)| + generations
      ensures initialized ==> AtMost(fitnessHistory, |old(fitnessHistory)|, BestFitness() as real)
      ensures old(initialized) ==> initialized && BestFitness() >= old(BestFitness())
      ensures old(initialized) ==> geneCount == old(geneCount) && crossoverOperator == old(crossoverOperator)
    {
      if !initialized {
        failure := Initialize(init);
        if failure.Some? {
          return;
        }
      }
      failure := Evolve(gens);
    }

    /** The generation loop of `run`, on an initialized engine. */
    method Evolve(gens: seq<seq<RoundDraws>>) returns (failure: Option<Failure>)
      requires Valid() && initialized && |gens| >= generations
      requires forall g :: 0 <= g < |gens| ==> EnoughRounds(gens[g], geneCount, populationSize, selectionMethod)
      modifies this`population, this`bestSolution, this`fitnessHistory
      ensures Valid() && initialized && BestFitness() >= old(BestFitness())
      ensures |old(fitnessHistory)| <= |fitnessHistory| <= |old(fitnessHistory)| + generations
      ensures fitnessHistory[..|old(fitnessHistory)|] == old(fitnessHistory)
      ensures failure.None? ==> |fitnessHistory| == |old(fitnessHistory)| + generations
      ensures AtMost(fitnessHistory, |old(fitnessHistory)|, BestFitness() as real)
    {
      var gen := 0;
      while gen < generations
        invariant 0 <= gen <= generations && Valid() && initialized
        invariant |fitnessHistory| == |old(fitnessHistory)| + gen && fitnessHistory[..|old(fitnessHistory)|] == old(fitnessHistory)
        invariant AtMost(fitnessHistory, |old(fitnessHistory)|, BestFitness() as real)
        invariant BestFitness() >= old(BestFitness())
      {
        ghost var before := fitnessHistory;
        ghost var bound := BestFitness() as real;
        failure := Step(gens[gen]);
        if failure.Some? {
          AtMostRaised(fitnessHistory, |old(fitnessHistory)|, bound, BestFitness() as real);
          return;
        }
        AtMostExtended(before, fitnessHistory, |old(fitnessHistory)|, bound, BestFitness() as real);
        gen := gen + 1;
      }
      failure := None;
    }

    /** `setPopulationSize`: a size under 2 is rejected and the setting kept. */
    method SetPopulationSize(x: int) returns (failure: Option<Failure>)
      requires Valid()
      modifies this`populationSize
      ensures Valid()
      ensures failure.Some? <==> x < 2
      ensures failure.Some? ==> failure.value == IllegalArgument("Population size must be at least 2") && populationSize == old(populationSize)
      ensures failure.None? ==> populationSize == x
    {
      if x < 2 {
        return Some(IllegalArgument("Population size must be at least 2"));
      }
      populationSize := x;
      failure := None;
    }

    /** `setChromosomeLength`: a length under 1 is rejected and the setting kept. */
    method SetChromosomeLength(x: int) returns (failure: Option<Failure>)
      requires Valid()
      modifies this`chromosomeLength
      ensures Valid()
      ensures failure.Some? <==> x < 1
      ensures failure.Some? ==> failure.value == IllegalArgument("Chromosome length must be at least 1") && chromosomeLength == old(chromosomeLength)
      ensures failure.None? ==> chromosomeLength == x
    {
      if x < 1 {
        return Some(IllegalArgument("Chromosome length must be at least 1"));
      }
      chromosomeLength := x;
      failure := None;
    }

    /** `setGenerations`: fewer than one generation is rejected and the setting kept. */
    method SetGenerations(x: int) returns (failure: Option<Failure>)
      requires Valid()
      modifies this`generations
      ensures Valid()
      ensures failure.Some? <==> x < 1
      ensures failure.Some? ==> failure.value == IllegalArgument("Generations must be at least 1") && generations == old(generations)
      ensures failure.None? ==> generations == x
    {
      if x < 1 {
        return Some(IllegalArgument("Generations must be at least 1"));
      }
      generations := x;
      failure := None;
    }

    /** `setCrossoverRate`: a rate outside [0, 1] is rejected and the setting kept. */
    method SetCrossoverRate(x: real) returns (failure: Option<Failure>)
      requires Valid()
      modifies this`crossoverRate
      ensures Valid()
      ensures failure.Some? <==> x < 0.0 || x > 1.0
      ensures failure.Some? ==> failure.value == IllegalArgument(CrossoverRateReason(variant)) && crossoverRate == old(crossoverRate)
      ensures failure.None? ==> crossoverRate == x
    {
      if x < 0.0 || x > 1.0 {
        return Some(IllegalArgument(CrossoverRateReason(variant)));
      }
      crossoverRate := x;
      failure := None;
    }

    /** `setMutationRate`: a rate outside [0, 1] is rejected and the setting kept. */
    method SetMutationRate(x: real) returns (failure: Option<Failure>)
      requires Valid()
      modifies this`mutationRate
      ensures Valid()
      ensures failure.Some? <==> x < 0.0 || x > 1.0
      ensures failure.Some? ==> failure.value == IllegalArgument("Mutation rate must be between 0.0 and 1.0") && mutationRate == old(mutationRate)
      ensures failure.None? ==> mutationRate == x
    {
      if x < 0.0 || x > 1.0 {
        return Some(IllegalArgument("Mutation rate must be between 0.0 and 1.0"));
      }
      mutationRate := x;
      failure := None;
    }

    /** `setEliteCount`: a negative count is rejected and the setting kept. */
    method SetEliteCount(x: int) returns (failure: Option<Failure>)
      requires Valid()
      modifies this`eliteCount
      ensures Valid()
      ensures failure.Some? <==> x < 0
      ensures failure.Some? ==> failure.value == IllegalArgument("Elite count must be non-negative") && eliteCount == old(eliteCount)
      ensures failure.None? ==> eliteCount == x
    {
      if x < 0 {
        return Some(IllegalArgument("Elite count must be non-negative"));
      }
      eliteCount := x;
      failure := None;
    }

    /** `setFitnessFunction`. */
    method SetFitnessFunction(x: Option<Context>)
      requires Valid()
      modifies this`fitnessFunction
      ensures Valid() && fitnessFunction == x
    {
      fitnessFunction := x;
    }

    /** `setChromosomeType`. */
    method SetChromosomeType(x: ChromosomeType)
      requires Valid()
      modifies this`chromosomeType
      ensures Valid() && chromosomeType == x
    {
      chromosomeType := x;
    }

    /** `setSelectionMethod`. */
    method SetSelectionMethod(x: SelectionMethod)
      requires Valid()
      modifies this`selectionMethod
      ensures Valid() && selectionMethod == x
    {
      selectionMethod := x;
    }

    /** `setCrossoverOperator`. */
    method SetCrossoverOperator(x: CrossoverOperator)
      requires Valid()
      modifies this`crossoverOperator
      ensures Valid() && crossoverOperator == Some(x)
    {
      crossoverOperator := Some(x);
    }

    /** `setReplacementStrategy`. */
    method SetReplacementStrategy(x: ReplacementStrategy)
      requires Valid()
      modifies this`replacementStrategy
      ensures Valid() && replacementStrategy == x
    {
      replacementStrategy := x;
    }
}
}
