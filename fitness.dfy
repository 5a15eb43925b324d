/**
  The fitness evaluators (src/Fitness). Each walks a visiting order over an integer travel-time
  matrix within a time budget. Binary, floating-point and the shared evaluator start the clock at
  the first stop; the integer evaluator starts at depot 0.
*/
module Fitness {
  import opened Common
  import opened BinaryChromosomes
  import opened FloatingChromosomes
  import opened Genotypes

  type DistanceMatrix = seq<seq<int>>

  predicate IsDistanceMatrix(d: DistanceMatrix) {
    forall r :: 0 <= r < |d| ==> |d[r]| == |d|
  }

  /** Every stop of `s` names a row and a column of the square matrix `d`. */
  predicate Covers(d: DistanceMatrix, s: seq<int>) {
    IsDistanceMatrix(d) && forall i :: 0 <= i < |s| ==> 0 <= s[i] < |d|
  }

  /** The travel time from the first stop to stop k-1 of `s`, leg by leg. */
  function PathTime(d: DistanceMatrix, s: seq<int>, k: nat): int
    requires Covers(d, s) && 1 <= k <= |s|
  {
    if k == 1 then 0 else PathTime(d, s, k - 1) + d[s[k - 2]][s[k - 1]]
  }

  /**
    `calculateTotalRouteTime` of the binary, floating-point and shared evaluators: 0 for at most
    one stop, otherwise every consecutive leg, with no budget cut-off and no depot leg.
  */
  function RouteTime(d: DistanceMatrix, s: seq<int>): int
    requires Covers(d, s)
  {
    if |s| <= 1 then 0 else PathTime(d, s, |s|)
  }

  /** Stops the walk commits from stop i on, having reached stop i-1 at `time`. */
  function Walk(d: DistanceMatrix, s: seq<int>, budget: int, i: nat, time: int): (count: nat)
    requires Covers(d, s) && 1 <= i <= |s|
    ensures count <= |s| - i
    decreases |s| - i
  {
    if i == |s| then 0
    else
      var potential := time + d[s[i - 1]][s[i]];
      if potential <= budget then 1 + Walk(d, s, budget, i + 1, potential) else 0
  }

  /**
    `evaluateBinary` and `evaluateFloatingPoint`: 0 without stops, 1 for a single stop, and
    otherwise the first stop plus every stop the walk reaches before its first overrun.
  */
  function OnTimeCount(d: DistanceMatrix, s: seq<int>, budget: int): (count: nat)
    requires Covers(d, s)
    ensures count <= |s|
    ensures |s| > 0 ==> count >= 1
  {
    if |s| == 0 then 0 else if |s| == 1 then 1 else 1 + Walk(d, s, budget, 1, 0)
  }

  lemma {:induction false} WalkStopsAtFirstOverrun(d: DistanceMatrix, s: seq<int>, budget: int, i: nat, time: int)
    requires Covers(d, s) && 1 <= i <= |s| && time == PathTime(d, s, i)
    ensures forall k :: i < k <= i + Walk(d, s, budget, i, time) ==> PathTime(d, s, k) <= budget
    ensures i + Walk(d, s, budget, i, time) < |s| ==> PathTime(d, s, i + Walk(d, s, budget, i, time) + 1) > budget
    decreases |s| - i
  {
    if i < |s| {
      var potential := time + d[s[i - 1]][s[i]];
      assert potential == PathTime(d, s, i + 1);
      if potential <= budget {
        WalkStopsAtFirstOverrun(d, s, budget, i + 1, potential);
      }
    }
  }

  /**
    The count is the longest prefix of the order whose arrival times all fit the budget:
    every stop up to the count arrives in time, and the next stop would not.
  */
  lemma OnTimeCountIsOnTimePrefix(d: DistanceMatrix, s: seq<int>, budget: int)
    requires Covers(d, s) && |s| > 0
    ensures 1 <= OnTimeCount(d, s, budget) <= |s|
    ensures forall k :: 2 <= k <= OnTimeCount(d, s, budget) ==> PathTime(d, s, k) <= budget
    ensures OnTimeCount(d, s, budget) < |s| ==> PathTime(d, s, OnTimeCount(d, s, budget) + 1) > budget
  {
    if |s| > 1 {
      WalkStopsAtFirstOverrun(d, s, budget, 1, 0);
    }
  }

  predicate NonNegative(d: DistanceMatrix) {
    forall r, c :: 0 <= r < |d| && 0 <= c < |d[r]| ==> d[r][c] >= 0
  }

  lemma {:induction false} PathTimeMonotone(d: DistanceMatrix, s: seq<int>, j: nat, k: nat)
    requires Covers(d, s) && NonNegative(d) && 1 <= j <= k <= |s|
    ensures PathTime(d, s, j) <= PathTime(d, s, k)
    decreases k
  {
    if j < k {
      PathTimeMonotone(d, s, j, k - 1);
      assert d[s[k - 2]][s[k - 1]] >= 0;
    }
  }

  /** With non-negative travel times, a route that fits the budget delivers every stop. */
  lemma WholeRouteOnTime(d: DistanceMatrix, s: seq<int>, budget: int)
    requires Covers(d, s) && NonNegative(d) && |s| > 0 && RouteTime(d, s) <= budget
    ensures OnTimeCount(d, s, budget) == |s|
  {
    OnTimeCountIsOnTimePrefix(d, s, budget);
    var c := OnTimeCount(d, s, budget);
    if c < |s| {
      PathTimeMonotone(d, s, c + 1, |s|);
    }
  }

  /** The walk of the integer evaluator from depot `prev`, at stop index i with the clock at `time`. */
  function DepotWalk(d: DistanceMatrix, s: seq<int>, budget: int, i: nat, prev: int, time: int): (count: nat)
    requires Covers(d, s) && 0 <= prev < |d| && i <= |s|
    ensures count <= |s| - i
    decreases |s| - i
  {
    if i == |s| then 0
    else
      var nextTime := d[prev][s[i]] + time;
      if nextTime > budget then 0 else 1 + DepotWalk(d, s, budget, i + 1, s[i], nextTime)
  }

  /** `IntegerFitnessEvaluator.evaluate`: the walk from depot 0 with the clock at 0. */
  function DepotOnTimeCount(d: DistanceMatrix, s: seq<int>, budget: int): (count: nat)
    requires Covers(d, s) && |d| > 0
    ensures count <= |s|
  {
    DepotWalk(d, s, budget, 0, 0, 0)
  }

  /** `IntegerFitnessEvaluator.calculateTotalRouteTime`: 0 without stops, else the depot leg plus every leg. */
  function DepotRouteTime(d: DistanceMatrix, s: seq<int>): int
    requires Covers(d, s) && |d| > 0
  {
    if |s| == 0 then 0 else d[0][s[0]] + RouteTime(d, s)
  }

  lemma {:induction false} DepotPathTime(d: DistanceMatrix, s: seq<int>, k: nat)
    requires Covers(d, s) && |d| > 0 && 1 <= k <= |s|
    ensures Covers(d, [0] + s)
    ensures PathTime(d, [0] + s, k + 1) == d[0][s[0]] + PathTime(d, s, k)
    decreases k
  {
    var t := [0] + s;
    assert forall i :: 0 <= i < |s| ==> t[i + 1] == s[i];
    if k > 1 {
      DepotPathTime(d, s, k - 1);
    }
  }

  lemma {:induction false} DepotWalkIsWalk(d: DistanceMatrix, s: seq<int>, budget: int, i: nat, time: int)
    requires Covers(d, s) && |d| > 0 && i <= |s|
    ensures Covers(d, [0] + s)
    ensures DepotWalk(d, s, budget, i, ([0] + s)[i], time) == Walk(d, [0] + s, budget, i + 1, time)
    decreases |s| - i
  {
    var t := [0] + s;
    assert forall j :: 0 <= j < |s| ==> t[j + 1] == s[j];
    if i < |s| {
      DepotWalkIsWalk(d, s, budget, i + 1, d[t[i]][s[i]] + time);
    }
  }

  /**
    The integer evaluator is the first-stop evaluator run on the order with depot 0 put in
    front: its count is one less (the depot is not a delivery) and its route time equal.
  */
  lemma DepotIsFirstStop(d: DistanceMatrix, s: seq<int>, budget: int)
    requires Covers(d, s) && |d| > 0
    ensures Covers(d, [0] + s)
    ensures DepotOnTimeCount(d, s, budget) == OnTimeCount(d, [0] + s, budget) - 1
    ensures DepotRouteTime(d, s) == RouteTime(d, [0] + s)
  {
    DepotWalkIsWalk(d, s, budget, 0, 0);
    if |s| > 0 {
      DepotPathTime(d, s, |s|);
    }
  }

  /**
    `FitnessEvaluator.evaluate`: on-time deliveries less 0.01 per time unit the route exceeds
    the budget (a bonus when it is under), over reals.
  */
  function PenalisedFitness(d: DistanceMatrix, s: seq<int>, budget: int): real
    requires Covers(d, s)
  {
    OnTimeCount(d, s, budget) as real - 0.01 * ((RouteTime(d, s) - budget) as real)
  }

  /** The penalty vanishes exactly when the route time equals the budget, and its sign is the overrun's. */
  lemma PenaltySign(d: DistanceMatrix, s: seq<int>, budget: int)
    requires Covers(d, s)
    ensures PenalisedFitness(d, s, budget) == OnTimeCount(d, s, budget) as real <==> RouteTime(d, s) == budget
    ensures PenalisedFitness(d, s, budget) < OnTimeCount(d, s, budget) as real <==> RouteTime(d, s) > budget
    ensures PenalisedFitness(d, s, budget) > OnTimeCount(d, s, budget) as real <==> RouteTime(d, s) < budget
  {
  }

  /** `Integer.MIN_VALUE` and `Integer.MAX_VALUE`. */
  const IntMin: int := -0x8000_0000
  const IntMax: int := 0x7FFF_FFFF

  /**
    The Java `(int)` cast of a double: truncation toward zero, saturating at the ends of the
    int range.
  */
  function Trunc(x: real): (r: int)
    ensures IntMin <= r <= IntMax
    ensures x >= IntMax as real ==> r == IntMax
    ensures x <= IntMin as real ==> r == IntMin
    ensures 0.0 <= x <= IntMax as real ==> r as real <= x < r as real + 1.0
    ensures IntMin as real <= x < 0.0 ==> r as real - 1.0 < x <= r as real
  {
    if x >= IntMax as real then IntMax
    else if x <= IntMin as real then IntMin
    else if x >= 0.0 then x.Floor else -((-x).Floor)
  }

  /** The loop of `evaluateBinary`, shared word for word by `evaluateFloatingPoint`. */
  method EvaluateWalk(d: DistanceMatrix, budget: int, s: seq<int>) returns (ordersDelivered: nat)
    requires Covers(d, s)
    ensures ordersDelivered == OnTimeCount(d, s, budget)
  {
    if |s| == 0 {
      return 0;
    }
    if |s| == 1 {
      return 1;
    }
    var currentTime := 0;
    var currentLocation := s[0];
    ordersDelivered := 1;
    var i := 1;
    while i < |s|
      invariant 1 <= i <= |s| && ordersDelivered == i
      invariant currentLocation == s[i - 1]
      invariant ordersDelivered + Walk(d, s, budget, i, currentTime) == OnTimeCount(d, s, budget)
    {
      var nextOrder := s[i];
      var travelTime := d[currentLocation][nextOrder];
      var potentialTime := currentTime + travelTime;
      if potentialTime <= budget {
        currentTime := potentialTime;
        currentLocation := nextOrder;
        ordersDelivered := ordersDelivered + 1;
      } else {
        break;
      }
      i := i + 1;
    }
  }

  /** The leg-sum loop of `calculateTotalRouteTime`, the same in the binary, floating-point and shared evaluators. */
  method TotalRouteTime(d: DistanceMatrix, s: seq<int>) returns (totalTime: int)
    requires Covers(d, s)
    ensures totalTime == RouteTime(d, s)
  {
    if |s| <= 1 {
      return 0;
    }
    totalTime := 0;
    var i := 0;
    while i < |s| - 1
      invariant 0 <= i <= |s| - 1
      invariant totalTime == PathTime(d, s, i + 1)
    {
      totalTime := totalTime + d[s[i]][s[i + 1]];
      i := i + 1;
    }
  }

  /** `FitnessEvaluator.calculateOnTimeDeliveries`: the clock is advanced before the budget test. */
  method OnTimeDeliveries(d: DistanceMatrix, budget: int, s: seq<int>) returns (count: nat)
    requires Covers(d, s)
    ensures count == OnTimeCount(d, s, budget)
  {
    if |s| == 0 {
      return 0;
    }
    var currentTime := 0;
    count := 1;
    var i := 1;
    while i < |s|
      invariant 1 <= i <= |s| && count == i
      invariant count + Walk(d, s, budget, i, currentTime) == OnTimeCount(d, s, budget)
    {
      var travelTime := d[s[i - 1]][s[i]];
      currentTime := currentTime + travelTime;
      if currentTime <= budget {
        count := count + 1;
      } else {
        break;
      }
      i := i + 1;
    }
  }

  /** The for-each loop of `IntegerFitnessEvaluator.evaluate`, returning at the first overrun. */
  method DepotEvaluate(d: DistanceMatrix, budget: int, s: seq<int>) returns (fitness: nat)
    requires Covers(d, s) && |d| > 0
    ensures fitness == DepotOnTimeCount(d, s, budget)
  {
    fitness := 0;
    var prev, prevTime := 0, 0;
    var i := 0;
    while i < |s|
      invariant 0 <= i <= |s| && fitness == i && 0 <= prev < |d|
      invariant fitness + DepotWalk(d, s, budget, i, prev, prevTime) == DepotOnTimeCount(d, s, budget)
    {
      var next := s[i];
      var nextTime := d[prev][next] + prevTime;
      if nextTime > budget {
        return fitness;
      }
      fitness := fitness + 1;
      prevTime := nextTime;
      prev := next;
      i := i + 1;
    }
  }

  /** `IntegerFitnessEvaluator.calculateTotalRouteTime`: the depot leg, then the leg-sum loop. */
  method DepotTotalRouteTime(d: DistanceMatrix, s: seq<int>) returns (total: int)
    requires Covers(d, s) && |d| > 0
    ensures total == DepotRouteTime(d, s)
  {
    if |s| == 0 {
      return 0;
    }
    total := 0;
    total := total + d[0][s[0]];
    var i := 0;
    while i < |s| - 1
      invariant 0 <= i <= |s| - 1
      invariant total == d[0][s[0]] + PathTime(d, s, i + 1)
    {
      total := total + d[s[i]][s[i + 1]];
      i := i + 1;
    }
  }

  /** A genotype the evaluators can score: it decodes, and its stops index the matrix. */
  predicate Evaluable(d: DistanceMatrix, g: Genotype) {
    Decodable(g) && Covers(d, Sequence(g))
  }

  /** A matrix over depot 0 and points 1..n scores every well-formed chromosome of n points. */
  lemma WellFormedEvaluable(d: DistanceMatrix, g: Genotype, n: nat)
    requires IsDistanceMatrix(d) && |d| > n && WellFormed(g, n)
    ensures Evaluable(d, g)
  {
    WellFormedSequence(g, n);
  }

  /** `BinaryFitnessEvaluator`: the matrix, and a budget `setTimeConstraint` can change. */
  class BinaryFitnessEvaluator {
    var distanceMatrix: DistanceMatrix
    var timeConstraint: int

    constructor (distanceMatrix: DistanceMatrix, timeConstraint: int)
      ensures this.distanceMatrix == distanceMatrix && this.timeConstraint == timeConstraint
    {
      this.distanceMatrix := distanceMatrix;
      this.timeConstraint := timeConstraint;
    }

    /** `evaluate`: only the matrix encoding is accepted. */
    method Evaluate(g: Genotype) returns (r: Result<int>)
      requires g.BinaryGenes? ==> Evaluable(distanceMatrix, g)
      ensures !g.BinaryGenes? <==> r.Err?
      ensures r.Err? ==> r.failure.IllegalArgument?
      ensures g.BinaryGenes? ==> r == Ok(OnTimeCount(distanceMatrix, Decode(g.matrix), timeConstraint))
    {
      if !g.BinaryGenes? {
        return Err(IllegalArgument("BinaryFitnessEvaluator can only evaluate BinaryChromosome"));
      }
      var count := EvaluateWalk(distanceMatrix, timeConstraint, Decode(g.matrix));
      r := Ok(count);
    }

    /** `evaluateBinary` on a chromosome object: decode, then walk. */
    method EvaluateBinary(chromosome: BinaryChromosome) returns (ordersDelivered: nat)
      requires chromosome.Valid() && Covers(distanceMatrix, Decode(chromosome.genes))
      ensures ordersDelivered == OnTimeCount(distanceMatrix, Decode(chromosome.genes), timeConstraint)
    {
      var deliverySequence := chromosome.DeliverySequence();
      ordersDelivered := EvaluateWalk(distanceMatrix, timeConstraint, deliverySequence);
    }

    /** `calculateTotalRouteTime`: any chromosome type, decoded. */
    method CalculateTotalRouteTime(g: Genotype) returns (total: int)
      requires Evaluable(distanceMatrix, g)
      ensures total == RouteTime(distanceMatrix, Sequence(g))
    {
      total := TotalRouteTime(distanceMatrix, Sequence(g));
    }

    /** `setTimeConstraint`: later evaluations use the new budget; the matrix stays. */
    method SetTimeConstraint(timeConstraint: int)
      modifies this
      ensures this.timeConstraint == timeConstraint && distanceMatrix == old(distanceMatrix)
    {
      this.timeConstraint := timeConstraint;
    }
  }

  /** `FloatingPointFitnessEvaluator`: matrix and budget fixed at construction. */
  class FloatingPointFitnessEvaluator {
    const distanceMatrix: DistanceMatrix
    const timeConstraint: int

    constructor (distanceMatrix: DistanceMatrix, timeConstraint: int)
      ensures this.distanceMatrix == distanceMatrix && this.timeConstraint == timeConstraint
    {
      this.distanceMatrix := distanceMatrix;
      this.timeConstraint := timeConstraint;
    }

    /** `evaluate`: only the random-key encoding is accepted. */
    method Evaluate(g: Genotype) returns (r: Result<int>)
      requires g.FloatingGenes? ==> Evaluable(distanceMatrix, g)
      ensures !g.FloatingGenes? <==> r.Err?
      ensures r.Err? ==> r.failure.IllegalArgument?
      ensures g.FloatingGenes? ==> r == Ok(OnTimeCount(distanceMatrix, KeyDecode(g.keys), timeConstraint))
    {
      if !g.FloatingGenes? {
        return Err(IllegalArgument("FloatingPointFitnessEvaluator can only evaluate FloatingPointChromosome"));
      }
      var count := EvaluateWalk(distanceMatrix, timeConstraint, Sequence(g));
      r := Ok(count);
    }

    method CalculateTotalRouteTime(g: Genotype) returns (total: int)
      requires Evaluable(distanceMatrix, g)
      ensures total == RouteTime(distanceMatrix, Sequence(g))
    {
      total := TotalRouteTime(distanceMatrix, Sequence(g));
    }
  }

  /** `IntegerFitnessEvaluator`: walks from depot 0; any chromosome type is accepted. */
  class IntegerFitnessEvaluator {
    const distMatrix: DistanceMatrix
    const timeConstraint: int

    constructor (distMatrix: DistanceMatrix, timeConstraint: int)
      ensures this.distMatrix == distMatrix && this.timeConstraint == timeConstraint
    {
      this.distMatrix := distMatrix;
      this.timeConstraint := timeConstraint;
    }

    method Evaluate(g: Genotype) returns (fitness: nat)
      requires Evaluable(distMatrix, g) && |distMatrix| > 0
      ensures fitness == DepotOnTimeCount(distMatrix, Sequence(g), timeConstraint)
    {
      fitness := DepotEvaluate(distMatrix, timeConstraint, Sequence(g));
    }

    method CalculateTotalRouteTime(g: Genotype) returns (total: int)
      requires Evaluable(distMatrix, g) && |distMatrix| > 0
      ensures total == DepotRouteTime(distMatrix, Sequence(g))
    {
      total := DepotTotalRouteTime(distMatrix, Sequence(g));
    }
  }

  /** `FitnessEvaluator`: the penalised score the integer and floating-point chromosomes report. */
  class FitnessEvaluator {
    const distanceMatrix: DistanceMatrix
    const timeConstraint: int

    constructor (distanceMatrix: DistanceMatrix, timeConstraint: int)
      ensures this.distanceMatrix == distanceMatrix && this.timeConstraint == timeConstraint
    {
      this.distanceMatrix := distanceMatrix;
      this.timeConstraint := timeConstraint;
    }

    method Evaluate(g: Genotype) returns (score: real)
      requires Evaluable(distanceMatrix, g)
      ensures score == PenalisedFitness(distanceMatrix, Sequence(g), timeConstraint)
    {
      var s := Sequence(g);
      var alpha := 0.01;
      var onTime := OnTimeDeliveries(distanceMatrix, timeConstraint, s);
      var total := TotalRouteTime(distanceMatrix, s);
      score := onTime as real - alpha * ((total - timeConstraint) as real);
    }

    method CalculateTotalRouteTime(g: Genotype) returns (total: int)
      requires Evaluable(distanceMatrix, g)
      ensures total == RouteTime(distanceMatrix, Sequence(g))
    {
      total := TotalRouteTime(distanceMatrix, Sequence(g));
    }

    method CalculateOnTimeDeliveries(g: Genotype) returns (count: nat)
      requires Evaluable(distanceMatrix, g)
      ensures count == OnTimeCount(distanceMatrix, Sequence(g), timeConstraint)
    {
      count := OnTimeDeliveries(distanceMatrix, timeConstraint, Sequence(g));
    }
  }

  /** The matrix and budget of a run: what the engine's evaluator instances hold. */
  datatype Context = Context(dist: DistanceMatrix, budget: int)

  /**
    `getFitness` of each chromosome type: the binary chromosome asks the binary evaluator; the
    integer and floating-point ones truncate the shared evaluator's penalised score.
  */
  function ChromosomeFitness(ctx: Context, g: Genotype): int
    requires Evaluable(ctx.dist, g)
  {
    match g
    case BinaryGenes(m) => OnTimeCount(ctx.dist, Decode(m), ctx.budget)
    case _ => Trunc(PenalisedFitness(ctx.dist, Sequence(g), ctx.budget))
  }

  /** `getTotalRouteTime` of each chromosome type: the leg sum of its decoded order. */
  function ChromosomeRouteTime(ctx: Context, g: Genotype): int
    requires Evaluable(ctx.dist, g)
  {
    RouteTime(ctx.dist, Sequence(g))
  }
}
