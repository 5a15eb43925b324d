/**
  Generational replacement (src/main/java/GeneticAlgorithm/Replacement/GenerationalReplacement.java):
  the next generation is the first populationSize offspring; nothing of the current population
  survives.
*/
module Generational {
  import opened Common
  import opened Genotypes

  /** The decimal digits of n, as `String.valueOf` prints a non-negative int. */
  function Decimal(n: nat): (s: string)
    ensures |s| >= 1
    ensures forall i :: 0 <= i < |s| ==> '0' <= s[i] <= '9'
    decreases n
  {
    var digit := ['0' + (n % 10) as char];
    if n < 10 then digit else Decimal(n / 10) + digit
  }

  /** The exception raised when fewer offspring than individuals are supplied. */
  function ShortfallReason(offspringSize: nat, populationSize: nat): string {
    "Offspring size (" + Decimal(offspringSize) + ") is less than population size (" + Decimal(populationSize) + ")"
  }

  /** `replace(currentPopulation, offspring)`: clones of the first populationSize offspring, in order. */
  method Replace(currentPopulation: seq<Genotype>, offspring: seq<Genotype>) returns (r: Result<seq<Genotype>>)
    ensures |currentPopulation| == 0 ==> r == Err(IllegalArgument("Current population cannot be null or empty"))
    ensures |currentPopulation| > 0 && |offspring| == 0 ==> r == Err(IllegalArgument("Offspring cannot be null or empty"))
    ensures 0 < |offspring| < |currentPopulation| ==> r == Err(IllegalArgument(ShortfallReason(|offspring|, |currentPopulation|)))
    ensures r.Ok? <==> 0 < |currentPopulation| <= |offspring|
    ensures r.Ok? ==> r.value == offspring[..|currentPopulation|]
    ensures r.Ok? ==> forall x :: x in r.value ==> x in offspring
  {
    if |currentPopulation| == 0 {
      return Err(IllegalArgument("Current population cannot be null or empty"));
    }
    if |offspring| == 0 {
      return Err(IllegalArgument("Offspring cannot be null or empty"));
    }
    var populationSize := |currentPopulation|;
    if |offspring| < populationSize {
      return Err(IllegalArgument(ShortfallReason(|offspring|, populationSize)));
    }
    var nextGeneration: seq<Genotype> := [];
    var i := 0;
    while i < populationSize
      invariant 0 <= i <= populationSize
      invariant nextGeneration == offspring[..i]
    {
      nextGeneration := nextGeneration + [offspring[i]];
      i := i + 1;
    }
    r := Ok(nextGeneration);
  }
}

/**
  Steady-state replacement (src/GeneticAlgorithm/Replacement/SteadyStateReplacement.java): k
  offspring overwrite k slots of a copy of the current population, the slots being the stored
  parent indices when at least k were given, else the first k.
*/
module SteadyState {
  import opened Common
  import opened Genotypes

  /** The slots `replace` overwrites: the first k stored parent indices, or 0..k-1. */
  function Targets(k: nat, parentIndices: seq<int>): seq<int> {
    if |parentIndices| >= k then parentIndices[..k] else Range(0, k)
  }

  /**
    The first n writes `next[targets[i]] := offspring[i]` in order; a slot outside the list
    stops them with `IndexOutOfBoundsException`.
  */
  function Written(next: seq<Genotype>, targets: seq<int>, offspring: seq<Genotype>, n: nat): (r: Result<seq<Genotype>>)
    requires n <= |targets| && n <= |offspring|
    ensures r.Ok? ==> |r.value| == |next|
  {
    if n == 0 then Ok(next)
    else
      match Written(next, targets, offspring, n - 1)
      case Err(e) => Err(e)
      case Ok(s) =>
        if 0 <= targets[n - 1] < |s| then Ok(s[targets[n - 1] := offspring[n - 1]])
        else Err(IndexOutOfBounds(targets[n - 1]))
  }

  /** The last of the first n writes aimed at slot j, if any. */
  function LastWriter(targets: seq<int>, n: nat, j: int): (w: Option<nat>)
    requires n <= |targets|
    ensures w.Some? ==> w.value < n && targets[w.value] == j && forall i :: w.value < i < n ==> targets[i] != j
    ensures w.None? ==> forall i :: 0 <= i < n ==> targets[i] != j
  {
    if n == 0 then None
    else if targets[n - 1] == j then Some(n - 1)
    else LastWriter(targets, n - 1, j)
  }

  /**
    The writes succeed exactly when every slot is in range; then the list keeps its length,
    each slot holds the offspring last written to it, and the other slots are untouched.
  */
  lemma {:induction false} WrittenSlots(next: seq<Genotype>, targets: seq<int>, offspring: seq<Genotype>, n: nat)
    requires n <= |targets| && n <= |offspring|
    ensures Written(next, targets, offspring, n).Ok? <==> forall i :: 0 <= i < n ==> 0 <= targets[i] < |next|
    ensures Written(next, targets, offspring, n).Ok? ==>
              |Written(next, targets, offspring, n).value| == |next| &&
              forall j :: 0 <= j < |next| ==>
                Written(next, targets, offspring, n).value[j] ==
                  (match LastWriter(targets, n, j) case Some(w) => offspring[w] case None => next[j])
  {
    if n > 0 {
      WrittenSlots(next, targets, offspring, n - 1);
    }
  }

  /** A failure names the first slot out of range. */
  lemma {:induction false} WrittenFailsAtFirstBadSlot(next: seq<Genotype>, targets: seq<int>, offspring: seq<Genotype>, n: nat)
    requires n <= |targets| && n <= |offspring|
    requires Written(next, targets, offspring, n).Err?
    ensures exists i :: 0 <= i < n && Written(next, targets, offspring, n) == Err(IndexOutOfBounds(targets[i])) &&
                        !(0 <= targets[i] < |next|) && forall k :: 0 <= k < i ==> 0 <= targets[k] < |next|
  {
    WrittenSlots(next, targets, offspring, n - 1);
    if Written(next, targets, offspring, n - 1).Err? {
      WrittenFailsAtFirstBadSlot(next, targets, offspring, n - 1);
    }
  }

  /** With distinct slots, slot targets[i] receives offspring[i]. */
  lemma DistinctSlotsReceiveTheirOffspring(next: seq<Genotype>, targets: seq<int>, offspring: seq<Genotype>, n: nat)
    requires n <= |targets| && n <= |offspring| && Distinct(targets[..n])
    requires Written(next, targets, offspring, n).Ok?
    ensures forall i :: 0 <= i < n ==> 0 <= targets[i] < |next| && Written(next, targets, offspring, n).value[targets[i]] == offspring[i]
  {
    WrittenSlots(next, targets, offspring, n);
    forall i | 0 <= i < n
      ensures 0 <= targets[i] < |next| && Written(next, targets, offspring, n).value[targets[i]] == offspring[i]
    {
      var w := LastWriter(targets, n, targets[i]);
      assert w.Some?;
    }
  }

  /** What `replace` returns or throws. */
  function SteadyStateOutcome(k: nat, parentIndices: seq<int>, currentPopulation: seq<Genotype>, offspring: seq<Genotype>): (r: Result<seq<Genotype>>)
    ensures r.Ok? ==> |r.value| == |currentPopulation|
  {
    if |currentPopulation| == 0 then Err(IllegalArgument("Current population cannot be null or empty"))
    else if |offspring| == 0 then Err(IllegalArgument("Offspring cannot be null or empty"))
    else if k > |currentPopulation| then Err(IllegalArgument("K cannot be larger than population size"))
    else if |offspring| < k then Err(IllegalArgument("Not enough offspring"))
    else
      WrittenSlots(currentPopulation, Targets(k, parentIndices), offspring, k);
      Written(currentPopulation, Targets(k, parentIndices), offspring, k)
  }

  /** Without k stored indices, the first k slots take the first k offspring and the rest stay. */
  lemma DefaultSlotsTakeOffspringPrefix(k: nat, parentIndices: seq<int>, currentPopulation: seq<Genotype>, offspring: seq<Genotype>)
    requires |parentIndices| < k <= |currentPopulation| && k <= |offspring|
    ensures SteadyStateOutcome(k, parentIndices, currentPopulation, offspring) == Ok(offspring[..k] + currentPopulation[k..])
  {
    var targets := Targets(k, parentIndices);
    WrittenSlots(currentPopulation, targets, offspring, k);
    var s := Written(currentPopulation, targets, offspring, k).value;
    forall j | 0 <= j < |currentPopulation| ensures s[j] == (offspring[..k] + currentPopulation[k..])[j] {
      if j < k {
        assert targets[j] == j;
        assert LastWriter(targets, k, j) == Some(j);
      } else {
        assert LastWriter(targets, k, j).None?;
      }
    }
    assert s == offspring[..k] + currentPopulation[k..];
  }

  /** Every individual of the next generation is a current individual or an offspring. */
  lemma SteadyStateKeepsMembers(k: nat, parentIndices: seq<int>, currentPopulation: seq<Genotype>, offspring: seq<Genotype>)
    requires SteadyStateOutcome(k, parentIndices, currentPopulation, offspring).Ok?
    ensures forall j :: 0 <= j < |currentPopulation| ==>
              SteadyStateOutcome(k, parentIndices, currentPopulation, offspring).value[j] in currentPopulation ||
              SteadyStateOutcome(k, parentIndices, currentPopulation, offspring).value[j] in offspring
  {
    var targets := Targets(k, parentIndices);
    WrittenSlots(currentPopulation, targets, offspring, k);
    var s := SteadyStateOutcome(k, parentIndices, currentPopulation, offspring).value;
    forall j | 0 <= j < |currentPopulation| ensures s[j] in currentPopulation || s[j] in offspring {
      match LastWriter(targets, k, j)
      case Some(w) => assert s[j] == offspring[w];
      case None => assert s[j] == currentPopulation[j];
    }
  }

  class SteadyStateReplacement {
    const k: int
    var parentIndices: seq<int>

    /** The constructor proper, once `k >= 1` has been checked. */
    constructor (k: int)
      requires k >= 1
      ensures this.k == k && parentIndices == []
    {
      this.k := k;
      parentIndices := [];
    }

    /** `setParentIndices(list)`: stores a copy of the list. */
    method SetParentIndices(parentIndices: seq<int>)
      modifies this
      ensures this.parentIndices == parentIndices
    {
      this.parentIndices := parentIndices;
    }

    method GetK() returns (r: int)
      ensures r == k
    {
      r := k;
    }

    /** `replace(currentPopulation, offspring)`: copy, pick the slots, overwrite them in order. */
    method Replace(currentPopulation: seq<Genotype>, offspring: seq<Genotype>) returns (r: Result<seq<Genotype>>)
      requires k >= 1
      ensures r == SteadyStateOutcome(k, parentIndices, currentPopulation, offspring)
    {
      if |currentPopulation| == 0 {
        return Err(IllegalArgument("Current population cannot be null or empty"));
      }
      if |offspring| == 0 {
        return Err(IllegalArgument("Offspring cannot be null or empty"));
      }
      if k > |currentPopulation| {
        return Err(IllegalArgument("K cannot be larger than population size"));
      }
      if |offspring| < k {
        return Err(IllegalArgument("Not enough offspring"));
      }
      var nextGeneration: seq<Genotype> := [];
      var c := 0;
      while c < |currentPopulation|
        invariant 0 <= c <= |currentPopulation| && nextGeneration == currentPopulation[..c]
      {
        nextGeneration := nextGeneration + [currentPopulation[c]];
        c := c + 1;
      }
      assert nextGeneration == currentPopulation;
      var indicesToReplace: seq<int>;
      if |parentIndices| >= k {
        indicesToReplace := parentIndices[..k];
      } else {
        indicesToReplace := [];
        var i := 0;
        while i < k
          invariant 0 <= i <= k && indicesToReplace == Range(0, i)
        {
          indicesToReplace := indicesToReplace + [i];
          i := i + 1;
        }
      }
      assert indicesToReplace == Targets(k, parentIndices);
      var i := 0;
      while i < k
        invariant 0 <= i <= k
        invariant Written(currentPopulation, indicesToReplace, offspring, i) == Ok(nextGeneration)
      {
        var indexToReplace := indicesToReplace[i];
        if !(0 <= indexToReplace < |nextGeneration|) {
          WrittenKeepsFailure(currentPopulation, indicesToReplace, offspring, i + 1, k);
          return Err(IndexOutOfBounds(indexToReplace));
        }
        nextGeneration := nextGeneration[indexToReplace := offspring[i]];
        i := i + 1;
      }
      r := Ok(nextGeneration);
    }
  }

  /** Once a write has failed, the later writes do not run. */
  lemma {:induction false} WrittenKeepsFailure(next: seq<Genotype>, targets: seq<int>, offspring: seq<Genotype>, n: nat, m: nat)
    requires 0 < n <= m <= |targets| && m <= |offspring| && Written(next, targets, offspring, n).Err?
    ensures Written(next, targets, offspring, m) == Written(next, targets, offspring, n)
    decreases m - n
  {
    if n < m {
      WrittenKeepsFailure(next, targets, offspring, n, m - 1);
    }
  }

  /** `new SteadyStateReplacement(k)`: rejects k < 1. */
  method NewSteadyStateReplacement(k: int) returns (r: Result<SteadyStateReplacement>)
    ensures r.Err? <==> k < 1
    ensures r.Err? ==> r.failure == IllegalArgument("K must be at least 1")
    ensures r.Ok? ==> fresh(r.value) && r.value.k == k && r.value.parentIndices == []
  {
    if k < 1 {
      return Err(IllegalArgument("K must be at least 1"));
    }
    var s := new SteadyStateReplacement(k);
    r := Ok(s);
  }
}

/**
  Elitist replacement (src/GeneticAlgorithm/Replacement/ElitistReplacement.java): the eliteCount
  fittest individuals survive, followed by the first populationSize - eliteCount offspring.
  The elites come from a stable sort by descending fitness; `fitness[i]` is `getFitness()` of
  individual i.
*/
module Elitist {
  import opened Common
  import opened Genotypes

  /**
    Individual x precedes individual y after the stable descending sort: it is fitter, or as fit
    and earlier in the population.
  */
  predicate Before(fitness: seq<int>, x: int, y: int)
    requires 0 <= x < |fitness| && 0 <= y < |fitness|
  {
    fitness[x] > fitness[y] || (fitness[x] == fitness[y] && x < y)
  }

  /** `order` lists population indices, each one strictly before the next. */
  predicate Ranked(fitness: seq<int>, order: seq<int>) {
    (forall a :: 0 <= a < |order| ==> 0 <= order[a] < |fitness|) &&
    forall a, b :: 0 <= a < b < |order| ==> Before(fitness, order[a], order[b])
  }

  /**
    One insertion step of the sort: index x goes in front of the first individual strictly less
    fit than it, after every individual at least as fit.
  */
  function Insert(fitness: seq<int>, order: seq<int>, x: int): (o: seq<int>)
    requires 0 <= x < |fitness|
    ensures |o| == |order| + 1
    ensures forall y :: y in o <==> y in order || y == x
  {
    if |order| == 0 then [x]
    else if 0 <= order[0] < |fitness| && fitness[x] > fitness[order[0]] then [x] + order
    else [order[0]] + Insert(fitness, order[1..], x)
  }

  /** Inserting an index later than all the sorted ones keeps the list sorted. */
  lemma {:induction false} InsertKeepsRanked(fitness: seq<int>, order: seq<int>, x: int)
    requires 0 <= x < |fitness| && Ranked(fitness, order)
    requires forall a :: 0 <= a < |order| ==> order[a] < x
    ensures Ranked(fitness, Insert(fitness, order, x))
  {
    if |order| > 0 && !(fitness[x] > fitness[order[0]]) {
      var rest := order[1..];
      assert Ranked(fitness, rest) by {
        forall a, b | 0 <= a < b < |rest| ensures Before(fitness, rest[a], rest[b]) {
          assert rest[a] == order[a + 1] && rest[b] == order[b + 1];
        }
      }
      InsertKeepsRanked(fitness, rest, x);
      var tail := Insert(fitness, rest, x);
      forall b | 0 <= b < |tail| ensures Before(fitness, order[0], tail[b]) {
        assert tail[b] in tail;
        if tail[b] != x {
          var c :| 0 <= c < |rest| && rest[c] == tail[b];
          assert order[c + 1] == tail[b];
        }
      }
    } else if |order| > 0 {
      forall b | 0 <= b < |order| ensures Before(fitness, x, order[b]) {
        if b > 0 {
          assert Before(fitness, order[0], order[b]);
        }
      }
    }
  }

  /** The stable descending sort of indices 0..n-1, as insertion sort builds it. */
  function RankOrder(fitness: seq<int>, n: nat): (o: seq<int>)
    requires n <= |fitness|
    ensures |o| == n
    ensures forall a :: 0 <= a < n ==> 0 <= o[a] < n
    ensures forall i :: 0 <= i < n ==> i in o
  {
    if n == 0 then []
    else
      var o := Insert(fitness, RankOrder(fitness, n - 1), n - 1);
      assert forall a :: 0 <= a < n ==> o[a] in o;
      o
  }

  /** The sorted indices are strictly ordered by `Before`, so every individual appears once. */
  lemma {:induction false} RankOrderIsRanked(fitness: seq<int>, n: nat)
    requires n <= |fitness|
    ensures Ranked(fitness, RankOrder(fitness, n))
  {
    if n > 0 {
      RankOrderIsRanked(fitness, n - 1);
      InsertKeepsRanked(fitness, RankOrder(fitness, n - 1), n - 1);
    }
  }

  /** `getEliteIndividuals(population, count)`: the first count individuals of the sorted copy. */
  function Elites(population: seq<Genotype>, fitness: seq<int>, count: nat): (e: seq<Genotype>)
    requires |fitness| == |population| && count <= |population|
    ensures |e| == count
  {
    var order := RankOrder(fitness, |population|);
    seq(count, i requires 0 <= i < count => population[order[i]])
  }

  /**
    The elites are count distinct individuals; none of the others is fitter than any elite; and
    of two equally fit elites the earlier in the population comes first.
  */
  lemma ElitesAreFittest(population: seq<Genotype>, fitness: seq<int>, count: nat)
    requires |fitness| == |population| && count <= |population|
    ensures forall a :: 0 <= a < count ==>
              Elites(population, fitness, count)[a] == population[RankOrder(fitness, |population|)[a]]
    ensures forall a, b :: 0 <= a < b < count ==> RankOrder(fitness, |population|)[a] != RankOrder(fitness, |population|)[b]
    ensures forall a, j :: 0 <= a < count && 0 <= j < |population| && j !in RankOrder(fitness, |population|)[..count] ==>
              fitness[j] <= fitness[RankOrder(fitness, |population|)[a]]
    ensures forall a, b :: 0 <= a < b < count && fitness[RankOrder(fitness, |population|)[a]] == fitness[RankOrder(fitness, |population|)[b]] ==>
              RankOrder(fitness, |population|)[a] < RankOrder(fitness, |population|)[b]
  {
    var n := |population|;
    var order := RankOrder(fitness, n);
    RankOrderIsRanked(fitness, n);
    forall a, j | 0 <= a < count && 0 <= j < n && j !in order[..count] ensures fitness[j] <= fitness[order[a]] {
      assert j in order;
      var b :| 0 <= b < n && order[b] == j;
      assert Before(fitness, order[a], order[b]);
    }
  }

  /** The first of the sorted indices is a fittest individual. */
  lemma FirstRankedIsFittest(fitness: seq<int>, n: nat)
    requires 0 < n <= |fitness|
    ensures forall j :: 0 <= j < n ==> fitness[j] <= fitness[RankOrder(fitness, n)[0]]
  {
    var order := RankOrder(fitness, n);
    RankOrderIsRanked(fitness, n);
    forall j | 0 <= j < n ensures fitness[j] <= fitness[order[0]] {
      assert j in order;
      var b :| 0 <= b < n && order[b] == j;
      if b > 0 {
        assert Before(fitness, order[0], order[b]);
      }
    }
  }

  /** What `replace` returns or throws. */
  function ElitistOutcome(eliteCount: nat, currentPopulation: seq<Genotype>, fitness: seq<int>, offspring: seq<Genotype>): (r: Result<seq<Genotype>>)
    requires |fitness| == |currentPopulation|
    ensures r.Ok? ==> |r.value| == |currentPopulation|
  {
    if |currentPopulation| == 0 then Err(IllegalArgument("Current population cannot be null or empty"))
    else if |offspring| == 0 then Err(IllegalArgument("Offspring cannot be null or empty"))
    else if eliteCount >= |currentPopulation| then Err(IllegalArgument("Elite count must be less than population size"))
    else if |offspring| < |currentPopulation| - eliteCount then Err(IllegalArgument("Not enough offspring"))
    else Ok(Elites(currentPopulation, fitness, eliteCount) + offspring[..|currentPopulation| - eliteCount])
  }

  /**
    The next generation keeps the current population's fittest individual in front, so the
    best fitness never regresses.
  */
  lemma BestSurvives(eliteCount: nat, currentPopulation: seq<Genotype>, fitness: seq<int>, offspring: seq<Genotype>)
    requires |fitness| == |currentPopulation| && eliteCount >= 1
    requires ElitistOutcome(eliteCount, currentPopulation, fitness, offspring).Ok?
    ensures exists j :: 0 <= j < |currentPopulation| &&
              ElitistOutcome(eliteCount, currentPopulation, fitness, offspring).value[0] == currentPopulation[j] &&
              forall i :: 0 <= i < |currentPopulation| ==> fitness[i] <= fitness[j]
  {
    var n := |currentPopulation|;
    FirstRankedIsFittest(fitness, n);
    var j := RankOrder(fitness, n)[0];
    assert Elites(currentPopulation, fitness, eliteCount)[0] == currentPopulation[j];
  }

  /** Every individual of the next generation is a current individual or an offspring. */
  lemma ElitistKeepsMembers(eliteCount: nat, currentPopulation: seq<Genotype>, fitness: seq<int>, offspring: seq<Genotype>)
    requires |fitness| == |currentPopulation|
    requires ElitistOutcome(eliteCount, currentPopulation, fitness, offspring).Ok?
    ensures forall j :: 0 <= j < |currentPopulation| ==>
              ElitistOutcome(eliteCount, currentPopulation, fitness, offspring).value[j] in currentPopulation ||
              ElitistOutcome(eliteCount, currentPopulation, fitness, offspring).value[j] in offspring
  {
    var n := |currentPopulation|;
    var order := RankOrder(fitness, n);
    var s := ElitistOutcome(eliteCount, currentPopulation, fitness, offspring).value;
    forall j | 0 <= j < n ensures s[j] in currentPopulation || s[j] in offspring {
      if j < eliteCount {
        assert s[j] == currentPopulation[order[j]];
      } else {
        assert s[j] == offspring[j - eliteCount];
      }
    }
  }

  class ElitistReplacement {
    const eliteCount: int

    /** The constructor proper, once `eliteCount >= 1` has been checked. */
    constructor (eliteCount: int)
      requires eliteCount >= 1
      ensures this.eliteCount == eliteCount
    {
      this.eliteCount := eliteCount;
    }

    method GetEliteCount() returns (r: int)
      ensures r == eliteCount
    {
      r := eliteCount;
    }

    /** `getEliteIndividuals(population, count)`: sort a copy, then take its first count members. */
    method GetEliteIndividuals(population: seq<Genotype>, fitness: seq<int>, count: nat) returns (elites: seq<Genotype>)
      requires |fitness| == |population| && count <= |population|
      ensures elites == Elites(population, fitness, count)
    {
      var sortedPopulation := RankOrder(fitness, |population|);
      elites := [];
      var i := 0;
      while i < count
        invariant 0 <= i <= count
        invariant elites == Elites(population, fitness, count)[..i]
      {
        elites := elites + [population[sortedPopulation[i]]];
        i := i + 1;
      }
    }

    /** `replace(currentPopulation, offspring)`: the elites, then the first offspring needed. */
    method Replace(currentPopulation: seq<Genotype>, fitness: seq<int>, offspring: seq<Genotype>) returns (r: Result<seq<Genotype>>)
      requires |fitness| == |currentPopulation| && eliteCount >= 1
      ensures r == ElitistOutcome(eliteCount, currentPopulation, fitness, offspring)
    {
      if |currentPopulation| == 0 {
        return Err(IllegalArgument("Current population cannot be null or empty"));
      }
      if |offspring| == 0 {
        return Err(IllegalArgument("Offspring cannot be null or empty"));
      }
      var populationSize := |currentPopulation|;
      if eliteCount >= populationSize {
        return Err(IllegalArgument("Elite count must be less than population size"));
      }
      var offspringNeeded := populationSize - eliteCount;
      if |offspring| < offspringNeeded {
        return Err(IllegalArgument("Not enough offspring"));
      }
      var elites := GetEliteIndividuals(currentPopulation, fitness, eliteCount);
      var nextGeneration: seq<Genotype> := [];
      var e := 0;
      while e < |elites|
        invariant 0 <= e <= |elites| && nextGeneration == elites[..e]
      {
        nextGeneration := nextGeneration + [elites[e]];
        e := e + 1;
      }
      var i := 0;
      while i < offspringNeeded
        invariant 0 <= i <= offspringNeeded && nextGeneration == elites + offspring[..i]
      {
        nextGeneration := nextGeneration + [offspring[i]];
        i := i + 1;
      }
      r := Ok(nextGeneration);
    }
  }

  /** `new ElitistReplacement(eliteCount)`: rejects eliteCount < 1. */
  method NewElitistReplacement(eliteCount: int) returns (r: Result<ElitistReplacement>)
    ensures r.Err? <==> eliteCount < 1
    ensures r.Err? ==> r.failure == IllegalArgument("Elite count must be at least 1")
    ensures r.Ok? ==> fresh(r.value) && r.value.eliteCount == eliteCount
  {
    if eliteCount < 1 {
      return Err(IllegalArgument("Elite count must be at least 1"));
    }
    var e := new ElitistReplacement(eliteCount);
    r := Ok(e);
  }
}
