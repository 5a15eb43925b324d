/**
  Tournament selection (src/Selection/TournamentSelection.java): tournamentSize members are drawn
  with replacement. The winner is the fittest; among equally fit members it is the one with the
  shorter route, and when that ties too, the earliest drawn.
*/
module Tournament {
  import opened Common
  import opened Genotypes
  import opened Fitness

  /** Every individual can be scored against the run's matrix. */
  predicate Scorable(ctx: Context, population: seq<Genotype>) {
    forall i {:trigger Evaluable(ctx.dist, population[i])} :: 0 <= i < |population| ==> Evaluable(ctx.dist, population[i])
  }

  /** `getFitness` of each individual, in population order. */
  function Fitnesses(ctx: Context, population: seq<Genotype>): (f: seq<int>)
    requires Scorable(ctx, population)
    ensures |f| == |population|
    ensures forall i {:trigger f[i]} :: 0 <= i < |f| ==> f[i] == ChromosomeFitness(ctx, population[i])
  {
    seq(|population|, i requires 0 <= i < |population| => ChromosomeFitness(ctx, population[i]))
  }

  /**
    `getFitness` of a tournament member once it is cast to a binary chromosome: the binary
    evaluator's on-time count. A member of another type is never scored, since its cast fails first.
  */
  function BinaryScore(ctx: Context, g: Genotype): int
    requires Evaluable(ctx.dist, g)
  {
    if g.BinaryGenes? then OnTimeCount(ctx.dist, Sequence(g), ctx.budget) else 0
  }

  /** On a binary member the tournament's score is the chromosome's own fitness. */
  lemma BinaryScoreIsFitness(ctx: Context, g: Genotype)
    requires Evaluable(ctx.dist, g) && g.BinaryGenes?
    ensures BinaryScore(ctx, g) == ChromosomeFitness(ctx, g)
  {
  }

  /** The tournament's score of each individual, in population order. */
  function BinaryScores(ctx: Context, population: seq<Genotype>): (f: seq<int>)
    requires Scorable(ctx, population)
    ensures |f| == |population|
    ensures forall i {:trigger f[i]} :: 0 <= i < |f| ==> f[i] == BinaryScore(ctx, population[i])
  {
    seq(|population|, i requires 0 <= i < |population| => BinaryScore(ctx, population[i]))
  }

  /** `calculateTotalRouteTime` of each individual, in population order. */
  function RouteTimes(ctx: Context, population: seq<Genotype>): (t: seq<int>)
    requires Scorable(ctx, population)
    ensures |t| == |population|
    ensures forall i {:trigger t[i]} :: 0 <= i < |t| ==> t[i] == ChromosomeRouteTime(ctx, population[i])
  {
    seq(|population|, i requires 0 <= i < |population| => ChromosomeRouteTime(ctx, population[i]))
  }

  /**
    Member i replaces member j as the best so far: strictly fitter, or as fit with a strictly
    shorter route.
  */
  predicate Beats(fitness: seq<int>, time: seq<int>, i: nat, j: nat)
    requires i < |fitness| && j < |fitness| && |time| == |fitness|
  {
    fitness[i] > fitness[j] || (fitness[i] == fitness[j] && time[i] < time[j])
  }

  /** The values of the members drawn by the first `size` index draws, read off the population's values. */
  function Scores(values: seq<int>, draws: seq<nat>, size: nat): (s: seq<int>)
    requires size <= |draws| && (size > 0 ==> |values| > 0)
    ensures |s| == size
    ensures forall i {:trigger s[i]} :: 0 <= i < size ==> s[i] == values[NextInt(draws[i], |values|)]
  {
    seq(size, i requires 0 <= i < size => values[NextInt(draws[i], |values|)])
  }

  /** The index the scan of the first k members settles on. */
  function WinnerIndex(fitness: seq<int>, time: seq<int>, k: nat): (j: nat)
    requires |time| == |fitness| && 1 <= k <= |fitness|
    ensures j < k
  {
    if k == 1 then 0
    else
      var j := WinnerIndex(fitness, time, k - 1);
      if Beats(fitness, time, k - 1, j) then k - 1 else j
  }

  /**
    No scanned member beats the one the scan settles on, and it beats every member scanned
    before it: it is the earliest of the best.
  */
  lemma {:induction false} WinnerBeatsEarlier(fitness: seq<int>, time: seq<int>, k: nat)
    requires |time| == |fitness| && 1 <= k <= |fitness|
    ensures forall i :: 0 <= i < k ==> !Beats(fitness, time, i, WinnerIndex(fitness, time, k))
    ensures forall i :: 0 <= i < WinnerIndex(fitness, time, k) ==> Beats(fitness, time, WinnerIndex(fitness, time, k), i)
  {
    if k > 1 {
      WinnerBeatsEarlier(fitness, time, k - 1);
      var j := WinnerIndex(fitness, time, k - 1);
      var last := k - 1;
      if Beats(fitness, time, last, j) {
        forall i | 0 <= i < last ensures Beats(fitness, time, last, i) && !Beats(fitness, time, i, last) {
          assert !Beats(fitness, time, i, j);
        }
      }
    }
  }

  /**
    No member is fitter than the winner, no equally fit member has a shorter route, and every
    member drawn before the winner is strictly worse (a full tie goes to the earliest drawn).
  */
  lemma WinnerIsBest(fitness: seq<int>, time: seq<int>)
    requires |time| == |fitness| >= 1
    ensures var w := WinnerIndex(fitness, time, |fitness|);
      (forall i :: 0 <= i < |fitness| ==> fitness[i] <= fitness[w]) &&
      (forall i :: 0 <= i < |fitness| && fitness[i] == fitness[w] ==> time[w] <= time[i]) &&
      (forall i :: 0 <= i < w ==> fitness[i] < fitness[w] || (fitness[i] == fitness[w] && time[w] < time[i]))
  {
    WinnerBeatsEarlier(fitness, time, |fitness|);
    var w := WinnerIndex(fitness, time, |fitness|);
    forall i | 0 <= i < |fitness| ensures fitness[i] <= fitness[w] && (fitness[i] == fitness[w] ==> time[w] <= time[i]) {
      assert !Beats(fitness, time, i, w);
    }
    forall i | 0 <= i < w ensures fitness[i] < fitness[w] || (fitness[i] == fitness[w] && time[w] < time[i]) {
      assert Beats(fitness, time, w, i);
    }
  }

  /**
    What `select` returns or throws: drawing from an empty population fails in `nextInt`; an
    empty tournament fails at `get(0)`; a non-binary member fails the cast; otherwise the winner.
  */
  function SelectOutcome(tournamentSize: int, population: seq<Genotype>, fitness: seq<int>, time: seq<int>, draws: seq<nat>): (r: Result<Genotype>)
    requires |fitness| == |time| == |population| && tournamentSize <= |draws|
    ensures r.Ok? ==> r.value in population && r.value.BinaryGenes?
  {
    if tournamentSize > 0 && |population| == 0 then Err(IllegalArgument("bound must be positive"))
    else if tournamentSize <= 0 then Err(IndexOutOfBounds(0))
    else
      if exists i :: 0 <= i < tournamentSize && !population[NextInt(draws[i], |population|)].BinaryGenes? then
        Err(ClassCast("not a BinaryChromosome"))
      else
        var w := WinnerIndex(Scores(fitness, draws, tournamentSize), Scores(time, draws, tournamentSize), tournamentSize);
        Ok(population[NextInt(draws[w], |population|)])
  }

  /**
    A successful selection is one of the drawn members, and no drawn member is fitter than it
    or as fit with a shorter route.
  */
  lemma SelectedIsTournamentBest(size: int, population: seq<Genotype>, fitness: seq<int>, time: seq<int>, draws: seq<nat>)
    requires |fitness| == |time| == |population| && size <= |draws|
    requires SelectOutcome(size, population, fitness, time, draws).Ok?
    ensures exists w :: 0 <= w < size && SelectOutcome(size, population, fitness, time, draws).value == population[NextInt(draws[w], |population|)] &&
              forall i :: 0 <= i < size ==>
                fitness[NextInt(draws[i], |population|)] <= fitness[NextInt(draws[w], |population|)] &&
                (fitness[NextInt(draws[i], |population|)] == fitness[NextInt(draws[w], |population|)] ==>
                   time[NextInt(draws[w], |population|)] <= time[NextInt(draws[i], |population|)])
  {
    var f, t := Scores(fitness, draws, size), Scores(time, draws, size);
    WinnerIsBest(f, t);
    var w := WinnerIndex(f, t, size);
    var n := |population|;
    assert SelectOutcome(size, population, fitness, time, draws).value == population[NextInt(draws[w], n)];
    forall i | 0 <= i < size
      ensures fitness[NextInt(draws[i], n)] <= fitness[NextInt(draws[w], n)]
      ensures fitness[NextInt(draws[i], n)] == fitness[NextInt(draws[w], n)] ==> time[NextInt(draws[w], n)] <= time[NextInt(draws[i], n)]
    {
      assert f[i] == fitness[NextInt(draws[i], n)] && f[w] == fitness[NextInt(draws[w], n)];
      assert t[i] == time[NextInt(draws[i], n)] && t[w] == time[NextInt(draws[w], n)];
    }
  }

  /**
    The scan for the best member over the members' fitness and route times; a member that is
    not binary fails the cast.
  */
  method Best(tournament: seq<Genotype>, fitness: seq<int>, time: seq<int>) returns (r: Result<Genotype>)
    requires |tournament| >= 1 && |fitness| == |time| == |tournament|
    ensures (exists i :: 0 <= i < |tournament| && !tournament[i].BinaryGenes?) <==> r.Err?
    ensures r.Err? ==> r == Err(ClassCast("not a BinaryChromosome"))
    ensures r.Ok? ==> r.value == tournament[WinnerIndex(fitness, time, |tournament|)]
  {
    if !tournament[0].BinaryGenes? {
      return Err(ClassCast("not a BinaryChromosome"));
    }
    var best := tournament[0];
    var bestFitness := fitness[0];
    var bestTime := time[0];
    ghost var bestIndex := 0;
    var i := 1;
    while i < |tournament|
      invariant 1 <= i <= |tournament|
      invariant forall k :: 0 <= k < i ==> tournament[k].BinaryGenes?
      invariant bestIndex == WinnerIndex(fitness, time, i)
      invariant best == tournament[bestIndex] && bestFitness == fitness[bestIndex] && bestTime == time[bestIndex]
    {
      var current := tournament[i];
      if !current.BinaryGenes? {
        return Err(ClassCast("not a BinaryChromosome"));
      }
      var currentTime := time[i];
      if fitness[i] > bestFitness || (fitness[i] == bestFitness && currentTime < bestTime) {
        best := current;
        bestFitness := fitness[i];
        bestTime := currentTime;
        bestIndex := i;
      }
      i := i + 1;
    }
    r := Ok(best);
  }

  /** The outcomes of `count` selections in turn, the i-th one using `draws[i]`. */
  function Outcomes(size: int, population: seq<Genotype>, fitness: seq<int>, time: seq<int>, draws: seq<seq<nat>>, count: int): (o: seq<Result<Genotype>>)
    requires |fitness| == |time| == |population| && count <= |draws|
    requires forall i :: 0 <= i < count ==> size <= |draws[i]|
    ensures |o| == (if count > 0 then count else 0)
    decreases if count > 0 then count else 0
  {
    if count <= 0 then []
    else Outcomes(size, population, fitness, time, draws, count - 1) + [SelectOutcome(size, population, fitness, time, draws[count - 1])]
  }

  /** The i-th outcome is the selection made with the i-th draws. */
  lemma {:induction false} OutcomeAt(size: int, population: seq<Genotype>, fitness: seq<int>, time: seq<int>, draws: seq<seq<nat>>, count: int, i: nat)
    requires |fitness| == |time| == |population| && count <= |draws|
    requires forall i :: 0 <= i < count ==> size <= |draws[i]|
    requires i < count
    ensures Outcomes(size, population, fitness, time, draws, count)[i] == SelectOutcome(size, population, fitness, time, draws[i])
    decreases count
  {
    if i < count - 1 {
      OutcomeAt(size, population, fitness, time, draws, count - 1, i);
    }
  }

  /**
    `r` is what running the outcomes in order yields when the first failure stops the run: a
    success holds one winner per outcome; a failure is the first failing outcome's.
  */
  predicate Gathered(outcomes: seq<Result<Genotype>>, r: Result<seq<Genotype>>) {
    (r.Ok? <==> forall i :: 0 <= i < |outcomes| ==> outcomes[i].Ok?) &&
    (r.Ok? ==> |r.value| == |outcomes| && forall i :: 0 <= i < |outcomes| ==> outcomes[i] == Ok(r.value[i])) &&
    (r.Err? ==> exists i :: 0 <= i < |outcomes| && outcomes[i] == Err(r.failure) && forall k :: 0 <= k < i ==> outcomes[k].Ok?)
  }

  class TournamentSelection {
    var tournamentSize: int
    /** The run's matrix and budget, standing for the `BinaryFitnessEvaluator` the selector holds. */
    const ctx: Context

    /** The constructor does not validate the size. */
    constructor (tournamentSize: int, ctx: Context)
      ensures this.tournamentSize == tournamentSize && this.ctx == ctx
    {
      this.tournamentSize := tournamentSize;
      this.ctx := ctx;
    }

    /** `select(population)`: draw the tournament, then keep the best member met so far. */
    method Select(population: seq<Genotype>, draws: seq<nat>) returns (r: Result<Genotype>)
      requires Scorable(ctx, population) && tournamentSize <= |draws|
      ensures r == SelectOutcome(tournamentSize, population, BinaryScores(ctx, population), RouteTimes(ctx, population), draws)
    {
      if tournamentSize > 0 && |population| == 0 {
        return Err(IllegalArgument("bound must be positive"));
      }
      var tournament: seq<Genotype> := [];
      var i := 0;
      while i < tournamentSize
        invariant 0 <= i <= (if tournamentSize > 0 then tournamentSize else 0)
        invariant |tournament| == i
        invariant forall k :: 0 <= k < i ==> tournament[k] == population[NextInt(draws[k], |population|)]
      {
        var randomIndex := NextInt(draws[i], |population|);
        tournament := tournament + [population[randomIndex]];
        i := i + 1;
      }
      if |tournament| == 0 {
        return Err(IndexOutOfBounds(0));
      }
      assert Scorable(ctx, tournament);
      ghost var fitness, time := BinaryScores(ctx, population), RouteTimes(ctx, population);
      assert BinaryScores(ctx, tournament) == Scores(fitness, draws, tournamentSize);
      assert RouteTimes(ctx, tournament) == Scores(time, draws, tournamentSize);
      r := Best(tournament, BinaryScores(ctx, tournament), RouteTimes(ctx, tournament));
    }

    /** `selectMultiple(population, count)`: count independent selections; the first failure propagates. */
    method SelectMultiple(population: seq<Genotype>, count: int, draws: seq<seq<nat>>) returns (r: Result<seq<Genotype>>)
      requires Scorable(ctx, population) && count <= |draws|
      requires forall i :: 0 <= i < count ==> tournamentSize <= |draws[i]|
      ensures Gathered(Outcomes(tournamentSize, population, BinaryScores(ctx, population), RouteTimes(ctx, population), draws, count), r)
    {
      ghost var size := tournamentSize;
      ghost var fitness, time := BinaryScores(ctx, population), RouteTimes(ctx, population);
      ghost var outcomes := Outcomes(size, population, fitness, time, draws, count);
      var selected: seq<Genotype> := [];
      var i := 0;
      while i < count
        invariant 0 <= i <= |outcomes| && |selected| == i && size == tournamentSize
        invariant forall k :: 0 <= k < i ==> outcomes[k] == Ok(selected[k])
      {
        var one := Select(population, draws[i]);
        OutcomeAt(size, population, fitness, time, draws, count, i);
        if one.Err? {
          return Err(one.failure);
        }
        selected := selected + [one.value];
        i := i + 1;
      }
      r := Ok(selected);
    }

    method SetTournamentSize(tournamentSize: int)
      modifies this
      ensures this.tournamentSize == tournamentSize
    {
      this.tournamentSize := tournamentSize;
    }

    method GetTournamentSize() returns (size: int)
      ensures size == tournamentSize
    {
      size := tournamentSize;
    }
  }
}

/**
  Roulette-wheel selection. The engine's version (src/GeneticAlgorithm/Selection/RouletteWheelSelection.java)
  takes any chromosome; the older one (src/Selection/RouletteWheelSelection.java) casts every
  individual to the matrix encoding first. Both weight an individual by its fitness, or by 0.1
  when the fitness is not positive, spin r = draw * total and return the first individual whose
  cumulative weight reaches r.
*/
module RouletteWheel {
  import opened Common
  import opened Genotypes
  import opened Fitness
  import opened Tournament

  /** The adjusted fitness: positive fitness as is, anything else 0.1. */
  function Weight(fitness: int): (w: real)
    ensures w > 0.0
    ensures fitness > 0 ==> w == fitness as real
    ensures fitness <= 0 ==> w == 0.1
  {
    if fitness > 0 then fitness as real else 0.1
  }

  /** The adjusted fitness of each individual, from the individuals' fitness values in order. */
  function Weights(fitness: seq<int>): (w: seq<real>)
    ensures |w| == |fitness|
    ensures forall i :: 0 <= i < |w| ==> w[i] == Weight(fitness[i])
  {
    seq(|fitness|, i requires 0 <= i < |fitness| => Weight(fitness[i]))
  }

  predicate Positive(w: seq<real>) {
    forall i :: 0 <= i < |w| ==> w[i] > 0.0
  }

  /** The cumulative weight of the first k individuals. */
  function Cumulative(w: seq<real>, k: nat): real
    requires k <= |w|
  {
    if k == 0 then 0.0 else Cumulative(w, k - 1) + w[k - 1]
  }

  /** With positive weights the cumulative weight strictly grows. */
  lemma {:induction false} CumulativeGrows(w: seq<real>, j: nat, k: nat)
    requires Positive(w) && j < k <= |w|
    ensures Cumulative(w, j) < Cumulative(w, k)
    decreases k
  {
    if j < k - 1 {
      CumulativeGrows(w, j, k - 1);
    }
  }

  /** The total weight is positive exactly when there is someone to select. */
  lemma TotalPositive(w: seq<real>)
    requires Positive(w)
    ensures Cumulative(w, |w|) == 0.0 <==> |w| == 0
    ensures |w| > 0 ==> Cumulative(w, |w|) > 0.0
  {
    if |w| > 0 {
      CumulativeGrows(w, 0, |w|);
    }
  }

  /**
    The cumulative scan from index i on: the first index whose cumulative weight reaches r,
    or the last index as fallback.
  */
  function FirstReaching(w: seq<real>, r: real, i: nat): (j: nat)
    requires i < |w|
    ensures i <= j < |w|
    ensures forall k :: i < k <= j ==> Cumulative(w, k) < r
    ensures j < |w| - 1 ==> r <= Cumulative(w, j + 1)
    decreases |w| - i
  {
    if Cumulative(w, i + 1) >= r || i == |w| - 1 then i else FirstReaching(w, r, i + 1)
  }

  /**
    For positive weights and 0 <= r < total, the wheel lands on index j exactly when r lies in
    j's slice (Cumulative(j), Cumulative(j + 1)], the first slice also taking r = 0; the
    fallback is never used.
  */
  lemma {:induction false} WheelLandsInSlice(w: seq<real>, r: real, j: nat)
    requires Positive(w) && j < |w| && 0.0 <= r < Cumulative(w, |w|)
    ensures FirstReaching(w, r, 0) == j <==> (j == 0 || Cumulative(w, j) < r) && r <= Cumulative(w, j + 1)
  {
    var s := FirstReaching(w, r, 0);
    if s < j {
      assert r <= Cumulative(w, s + 1);
      if s + 1 < j {
        CumulativeGrows(w, s + 1, j);
      }
    } else if s == j && j > 0 {
      assert Cumulative(w, j) < r;
    }
  }

  /** The spin `nextDouble() * totalFitness`; for a positive total it lies in [0, total). */
  function SpinValue(draw: Draw, total: real): (spin: real)
    ensures total > 0.0 ==> 0.0 <= spin < total
  {
    assert total > 0.0 ==> total - draw * total == (1.0 - draw) * total > 0.0;
    draw * total
  }

  /** Where the spin lands on the wheel of weights w. */
  function Landing(w: seq<real>, draw: Draw): (j: nat)
    requires |w| > 0
    ensures j < |w|
  {
    FirstReaching(w, SpinValue(draw, Cumulative(w, |w|)), 0)
  }

  /**
    What `select` returns or throws, given the individuals' fitness values: an empty population
    has weight 0 and fails in `nextInt`; the random pick of the zero-total branch is otherwise
    unreachable; else the wheel spins.
  */
  function RouletteOutcome(population: seq<Genotype>, fitness: seq<int>, draw: Draw, raw: nat): (r: Result<Genotype>)
    requires |fitness| == |population|
    ensures r.Ok? ==> r.value in population
    ensures r.Err? <==> |population| == 0
  {
    var w := Weights(fitness);
    var total := Cumulative(w, |w|);
    if total == 0.0 then
      if |population| == 0 then Err(IllegalArgument("bound must be positive")) else Ok(population[NextInt(raw, |population|)])
    else Ok(population[Landing(w, draw)])
  }

  /** For a non-empty population the zero-total branch is never taken: the wheel spins. */
  lemma SpinsWhenPopulated(population: seq<Genotype>, fitness: seq<int>, draw: Draw, raw: nat)
    requires |fitness| == |population| > 0
    ensures RouletteOutcome(population, fitness, draw, raw) == Ok(population[Landing(Weights(fitness), draw)])
  {
    var w := Weights(fitness);
    assert Cumulative(w, |w|) > 0.0 by { TotalPositive(w); }
  }

  /**
    The wheel lands on index j exactly when the spin lies in j's slice
    (Cumulative(j), Cumulative(j + 1)], the first slice also taking a spin of 0.
  */
  lemma LandsInSlice(w: seq<real>, draw: Draw, j: nat)
    requires Positive(w) && j < |w|
    ensures var spin := SpinValue(draw, Cumulative(w, |w|));
      Landing(w, draw) == j <==> (j == 0 || Cumulative(w, j) < spin) && spin <= Cumulative(w, j + 1)
  {
    var total := Cumulative(w, |w|);
    assert total > 0.0 by { TotalPositive(w); }
    WheelLandsInSlice(w, SpinValue(draw, total), j);
  }

  /**
    The weighting loop: the adjusted weights and their total. With `castToBinary` (the older
    selector) a non-binary individual fails the cast.
  */
  method AdjustedWeights(population: seq<Genotype>, fitness: seq<int>, castToBinary: bool) returns (r: Result<(seq<real>, real)>)
    requires |fitness| == |population|
    ensures castToBinary && (exists i :: 0 <= i < |population| && !population[i].BinaryGenes?) <==> r.Err?
    ensures r.Err? ==> r.failure.ClassCast?
    ensures r.Ok? ==> r.value.0 == Weights(fitness) && r.value.1 == Cumulative(r.value.0, |r.value.0|)
  {
    ghost var w := Weights(fitness);
    var adjusted: seq<real> := [];
    var total := 0.0;
    var i := 0;
    while i < |population|
      invariant 0 <= i <= |population|
      invariant adjusted == w[..i] && total == Cumulative(w, i)
      invariant castToBinary ==> forall k :: 0 <= k < i ==> population[k].BinaryGenes?
    {
      if castToBinary && !population[i].BinaryGenes? {
        return Err(ClassCast("not a BinaryChromosome"));
      }
      var f := fitness[i];
      adjusted := adjusted + [if f > 0 then f as real else 0.1];
      total := total + adjusted[|adjusted| - 1];
      i := i + 1;
    }
    assert adjusted == w;
    r := Ok((adjusted, total));
  }

  /** The cumulative spin over the weights; it ends on the last index if no cumulative weight reaches r. */
  method Spin(w: seq<real>, randomValue: real) returns (j: nat)
    requires |w| > 0
    ensures j == FirstReaching(w, randomValue, 0)
  {
    var cumulative := 0.0;
    var i := 0;
    while i < |w|
      invariant 0 <= i <= |w| && cumulative == Cumulative(w, i)
      invariant i < |w| ==> FirstReaching(w, randomValue, 0) == FirstReaching(w, randomValue, i)
      invariant forall k :: 0 < k <= i ==> Cumulative(w, k) < randomValue
    {
      cumulative := cumulative + w[i];
      if cumulative >= randomValue {
        return i;
      }
      i := i + 1;
    }
    j := |w| - 1;
  }

  /** `select` of the engine's selector. */
  method Select(ctx: Context, population: seq<Genotype>, draw: Draw, raw: nat) returns (r: Result<Genotype>)
    requires Scorable(ctx, population)
    ensures r == RouletteOutcome(population, Fitnesses(ctx, population), draw, raw)
  {
    r := Pick(population, Fitnesses(ctx, population), draw, raw, false);
  }

  /** `select` of the older selector: as the engine's once every individual passes the cast. */
  method SelectBinary(ctx: Context, population: seq<Genotype>, draw: Draw, raw: nat) returns (r: Result<Genotype>)
    requires Scorable(ctx, population)
    ensures (exists i :: 0 <= i < |population| && !population[i].BinaryGenes?) ==> r == Err(ClassCast("not a BinaryChromosome"))
    ensures (forall i :: 0 <= i < |population| ==> population[i].BinaryGenes?) ==> r == RouletteOutcome(population, Fitnesses(ctx, population), draw, raw)
  {
    r := Pick(population, Fitnesses(ctx, population), draw, raw, true);
  }

  /** The body both selectors share, over the fitness values `getFitness` reports. */
  method Pick(population: seq<Genotype>, fitness: seq<int>, draw: Draw, raw: nat, castToBinary: bool) returns (r: Result<Genotype>)
    requires |fitness| == |population|
    ensures castToBinary && (exists i :: 0 <= i < |population| && !population[i].BinaryGenes?) ==> r == Err(ClassCast("not a BinaryChromosome"))
    ensures !(castToBinary && (exists i :: 0 <= i < |population| && !population[i].BinaryGenes?)) ==> r == RouletteOutcome(population, fitness, draw, raw)
  {
    var weighed := AdjustedWeights(population, fitness, castToBinary);
    if weighed.Err? {
      return Err(ClassCast("not a BinaryChromosome"));
    }
    var (adjusted, totalFitness) := weighed.value;
    if totalFitness == 0.0 {
      if |population| == 0 {
        return Err(IllegalArgument("bound must be positive"));
      }
      return Ok(population[NextInt(raw, |population|)]);
    }
    var randomValue := draw * totalFitness;
    assert randomValue == SpinValue(draw, Cumulative(adjusted, |adjusted|));
    var j := Spin(adjusted, randomValue);
    r := Ok(population[j]);
  }

  /** `selectMultiple(population, count)` of either selector: count spins; the first failure propagates. */
  method SelectMultiple(ctx: Context, population: seq<Genotype>, count: int, draws: seq<(Draw, nat)>, castToBinary: bool)
    returns (r: Result<seq<Genotype>>)
    requires Scorable(ctx, population) && count <= |draws|
    ensures count > 0 && castToBinary && (exists i :: 0 <= i < |population| && !population[i].BinaryGenes?) ==> r == Err(ClassCast("not a BinaryChromosome"))
    ensures count > 0 && |population| == 0 ==> r == Err(IllegalArgument("bound must be positive"))
    ensures r.Ok? ==> |r.value| == (if count > 0 then count else 0)
    ensures r.Ok? ==> forall i :: 0 <= i < |r.value| ==> Ok(r.value[i]) == RouletteOutcome(population, Fitnesses(ctx, population), draws[i].0, draws[i].1)
    ensures count <= 0 || (|population| > 0 && !(castToBinary && exists i :: 0 <= i < |population| && !population[i].BinaryGenes?)) ==> r.Ok?
  {
    var selected: seq<Genotype> := [];
    var i := 0;
    while i < count
      invariant 0 <= i <= (if count > 0 then count else 0) && |selected| == i
      invariant forall k :: 0 <= k < i ==> Ok(selected[k]) == RouletteOutcome(population, Fitnesses(ctx, population), draws[k].0, draws[k].1)
      invariant i > 0 ==> |population| > 0 && !(castToBinary && exists k :: 0 <= k < |population| && !population[k].BinaryGenes?)
    {
      var one := Pick(population, Fitnesses(ctx, population), draws[i].0, draws[i].1, castToBinary);
      if one.Err? {
        return Err(one.failure);
      }
      selected := selected + [one.value];
      i := i + 1;
    }
    r := Ok(selected);
  }
}
