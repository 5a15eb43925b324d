/**
  The initial population (src/main/java/GeneticAlgorithm/Initializer.java): popSize chromosomes
  of one encoding, each made by `generateGenes(noOfOrders)`. The random draws of chromosome k
  are the k-th entry of the draw list given for that encoding.
*/
module Initialization {
  import opened Common
  import opened BinaryChromosomes
  import opened IntegerChromosomes
  import opened FloatingChromosomes
  import opened Genotypes

  /** The number of chromosomes the count-down loops make: popSize, or none when it is not positive. */
  function Count(popSize: int): nat {
    if popSize > 0 then popSize else 0
  }

  /** The genes of a fresh binary chromosome after `generateGenes(n)` with the given shuffle draws. */
  function BinaryIndividual(n: nat, draws: seq<nat>): Genotype
    requires |draws| + 1 >= n
  {
    BinaryGenes(MatrixOf(Shuffle(Range(0, n), n, draws)))
  }

  /** The genes of a fresh integer chromosome after `generateGenes(n)` with the given swap draws. */
  function IntegerIndividual(n: nat, draws: seq<SwapDraw>): Genotype
    requires |draws| >= n
  {
    IntegerGenes(SwapsPrefix(Range(1, n), draws, n))
  }

  /** The genes of a fresh floating-point chromosome after `generateGenes(n)`: the first n draws. */
  function FloatingIndividual(n: nat, draws: seq<Draw>): Genotype
    requires |draws| >= n
  {
    FloatingGenes(seq(n, i requires 0 <= i < n => draws[i] as real))
  }

  /** A generated binary chromosome is a permutation matrix of order n. */
  lemma BinaryIndividualIsWellFormed(n: nat, draws: seq<nat>)
    requires |draws| + 1 >= n
    ensures WellFormed(BinaryIndividual(n, draws), n)
  {
    RangeIsPermutation(0, n);
    ShuffleKeepsPermutation(Range(0, n), 0, n, draws);
    MatrixOfPermutation(Shuffle(Range(0, n), n, draws));
  }

  /** A generated integer chromosome is an ordering of 1..n. */
  lemma IntegerIndividualIsWellFormed(n: nat, draws: seq<SwapDraw>)
    requires |draws| >= n
    ensures WellFormed(IntegerIndividual(n, draws), n)
  {
    RangeIsPermutation(1, n);
    SwapsPrefixKeepsPermutation(Range(1, n), 1, draws, n);
  }

  /** A generated floating-point chromosome has n keys in [0, 1]. */
  lemma FloatingIndividualIsWellFormed(n: nat, draws: seq<Draw>)
    requires |draws| >= n
    ensures WellFormed(FloatingIndividual(n, draws), n)
  {
  }

  /** The first m chromosomes of a generated binary population, chromosome k from draws[k]. */
  function BinaryPopulation(n: nat, draws: seq<seq<nat>>, m: nat): (p: seq<Genotype>)
    requires m <= |draws| && forall k :: 0 <= k < m ==> |draws[k]| + 1 >= n
    ensures |p| == m
  {
    if m == 0 then [] else BinaryPopulation(n, draws, m - 1) + [BinaryIndividual(n, draws[m - 1])]
  }

  lemma {:induction false} BinaryPopulationAt(n: nat, draws: seq<seq<nat>>, m: nat, k: nat)
    requires m <= |draws| && (forall k :: 0 <= k < m ==> |draws[k]| + 1 >= n) && k < m
    ensures BinaryPopulation(n, draws, m)[k] == BinaryIndividual(n, draws[k])
  {
    var p := BinaryPopulation(n, draws, m - 1);
    var last := BinaryIndividual(n, draws[m - 1]);
    assert BinaryPopulation(n, draws, m) == p + [last];
    if k < m - 1 {
      BinaryPopulationAt(n, draws, m - 1, k);
      assert (p + [last])[k] == p[k];
    } else {
      assert (p + [last])[k] == last;
    }
  }

  /** The first m chromosomes of a generated integer population, chromosome k from draws[k]. */
  function IntegerPopulation(n: nat, draws: seq<seq<SwapDraw>>, m: nat): (p: seq<Genotype>)
    requires m <= |draws| && forall k :: 0 <= k < m ==> |draws[k]| >= n
    ensures |p| == m
  {
    if m == 0 then [] else IntegerPopulation(n, draws, m - 1) + [IntegerIndividual(n, draws[m - 1])]
  }

  lemma {:induction false} IntegerPopulationAt(n: nat, draws: seq<seq<SwapDraw>>, m: nat, k: nat)
    requires m <= |draws| && (forall k :: 0 <= k < m ==> |draws[k]| >= n) && k < m
    ensures IntegerPopulation(n, draws, m)[k] == IntegerIndividual(n, draws[k])
  {
    var p := IntegerPopulation(n, draws, m - 1);
    var last := IntegerIndividual(n, draws[m - 1]);
    assert IntegerPopulation(n, draws, m) == p + [last];
    if k < m - 1 {
      IntegerPopulationAt(n, draws, m - 1, k);
      assert (p + [last])[k] == p[k];
    } else {
      assert (p + [last])[k] == last;
    }
  }

  /** The first m chromosomes of a generated floating population, chromosome k from draws[k]. */
  function FloatingPopulation(n: nat, draws: seq<seq<Draw>>, m: nat): (p: seq<Genotype>)
    requires m <= |draws| && forall k :: 0 <= k < m ==> |draws[k]| >= n
    ensures |p| == m
  {
    if m == 0 then [] else FloatingPopulation(n, draws, m - 1) + [FloatingIndividual(n, draws[m - 1])]
  }

  lemma {:induction false} FloatingPopulationAt(n: nat, draws: seq<seq<Draw>>, m: nat, k: nat)
    requires m <= |draws| && (forall k :: 0 <= k < m ==> |draws[k]| >= n) && k < m
    ensures FloatingPopulation(n, draws, m)[k] == FloatingIndividual(n, draws[k])
  {
    var p := FloatingPopulation(n, draws, m - 1);
    var last := FloatingIndividual(n, draws[m - 1]);
    assert FloatingPopulation(n, draws, m) == p + [last];
    if k < m - 1 {
      FloatingPopulationAt(n, draws, m - 1, k);
      assert (p + [last])[k] == p[k];
    } else {
      assert (p + [last])[k] == last;
    }
  }

  /** `new BinaryChromosome()` followed by `generateGenes(n)`. */
  method NewBinary(n: nat, draws: seq<nat>) returns (g: Genotype)
    requires |draws| + 1 >= n
    ensures g == BinaryIndividual(n, draws)
  {
    var chromosome := new BinaryChromosome.Empty();
    chromosome.GenerateGenes(n, draws);
    g := BinaryGenes(chromosome.genes);
  }

  /** `new IntegerChromosome()` followed by `generateGenes(n)`. */
  method NewInteger(n: nat, draws: seq<SwapDraw>) returns (g: Genotype)
    requires |draws| >= n
    ensures g == IntegerIndividual(n, draws)
  {
    var chromosome := new IntegerChromosome.Empty();
    chromosome.GenerateGenes(n, draws);
    g := IntegerGenes(chromosome.genes);
  }

  /** `new FloatingPointChromosome()` followed by `generateGenes(n)`. */
  method NewFloating(n: nat, draws: seq<Draw>) returns (g: Genotype)
    requires |draws| >= n
    ensures g == FloatingIndividual(n, draws)
  {
    var chromosome := new FloatingPointChromosome.Empty();
    chromosome.GenerateGenes(n, draws);
    g := FloatingGenes(chromosome.genes);
  }

  /** `initBinary(noOfOrders, popSize)` */
  method InitBinary(noOfOrders: nat, popSize: int, draws: seq<seq<nat>>) returns (ret: seq<Genotype>)
    requires Count(popSize) <= |draws| && forall k :: 0 <= k < Count(popSize) ==> |draws[k]| + 1 >= noOfOrders
    ensures |ret| == Count(popSize)
    ensures ret == BinaryPopulation(noOfOrders, draws, Count(popSize))
  {
    ret := [];
    var remaining := popSize;
    while remaining > 0
      invariant |ret| + Count(remaining) == Count(popSize)
      invariant ret == BinaryPopulation(noOfOrders, draws, |ret|)
    {
      var chromosome := NewBinary(noOfOrders, draws[|ret|]);
      ret := ret + [chromosome];
      remaining := remaining - 1;
    }
  }

  /** `initInteger(noOfOrders, popSize)` */
  method InitInteger(noOfOrders: nat, popSize: int, draws: seq<seq<SwapDraw>>) returns (ret: seq<Genotype>)
    requires Count(popSize) <= |draws| && forall k :: 0 <= k < Count(popSize) ==> |draws[k]| >= noOfOrders
    ensures |ret| == Count(popSize)
    ensures ret == IntegerPopulation(noOfOrders, draws, Count(popSize))
  {
    ret := [];
    var remaining := popSize;
    while remaining > 0
      invariant |ret| + Count(remaining) == Count(popSize)
      invariant ret == IntegerPopulation(noOfOrders, draws, |ret|)
    {
      var chromosome := NewInteger(noOfOrders, draws[|ret|]);
      ret := ret + [chromosome];
      remaining := remaining - 1;
    }
  }

  /** `initFloatingPoint(noOfOrders, popSize)` */
  method InitFloatingPoint(noOfOrders: nat, popSize: int, draws: seq<seq<Draw>>) returns (ret: seq<Genotype>)
    requires Count(popSize) <= |draws| && forall k :: 0 <= k < Count(popSize) ==> |draws[k]| >= noOfOrders
    ensures |ret| == Count(popSize)
    ensures ret == FloatingPopulation(noOfOrders, draws, Count(popSize))
  {
    ret := [];
    var remaining := popSize;
    while remaining > 0
      invariant |ret| + Count(remaining) == Count(popSize)
      invariant ret == FloatingPopulation(noOfOrders, draws, |ret|)
    {
      var chromosome := NewFloating(noOfOrders, draws[|ret|]);
      ret := ret + [chromosome];
      remaining := remaining - 1;
    }
  }

  /** `init(choice, noOfOrders, popSize)`: 1 binary, 2 integer, 3 floating point, anything else rejected. */
  method Init(choice: int, noOfOrders: nat, popSize: int,
              binaryDraws: seq<seq<nat>>, integerDraws: seq<seq<SwapDraw>>, floatingDraws: seq<seq<Draw>>)
    returns (r: Result<seq<Genotype>>)
    requires choice == 1 ==> Count(popSize) <= |binaryDraws| && forall k :: 0 <= k < Count(popSize) ==> |binaryDraws[k]| + 1 >= noOfOrders
    requires choice == 2 ==> Count(popSize) <= |integerDraws| && forall k :: 0 <= k < Count(popSize) ==> |integerDraws[k]| >= noOfOrders
    requires choice == 3 ==> Count(popSize) <= |floatingDraws| && forall k :: 0 <= k < Count(popSize) ==> |floatingDraws[k]| >= noOfOrders
    ensures r.Err? <==> choice !in {1, 2, 3}
    ensures r.Err? ==> r.failure == IllegalArgument("Invalid choice")
    ensures choice == 1 ==> r == Ok(BinaryPopulation(noOfOrders, binaryDraws, Count(popSize)))
    ensures choice == 2 ==> r == Ok(IntegerPopulation(noOfOrders, integerDraws, Count(popSize)))
    ensures choice == 3 ==> r == Ok(FloatingPopulation(noOfOrders, floatingDraws, Count(popSize)))
    ensures r.Ok? ==> |r.value| == Count(popSize)
    ensures r.Ok? ==> forall k :: 0 <= k < |r.value| ==>
              WellFormed(r.value[k], noOfOrders) &&
              TypeOf(r.value[k]) == (if choice == 1 then BINARY else if choice == 2 then INTEGER else FLOATING_POINT)
  {
    if choice == 1 {
      var ret := InitBinary(noOfOrders, popSize, binaryDraws);
      forall k | 0 <= k < |ret| ensures WellFormed(ret[k], noOfOrders) && TypeOf(ret[k]) == BINARY {
        BinaryPopulationAt(noOfOrders, binaryDraws, Count(popSize), k);
        BinaryIndividualIsWellFormed(noOfOrders, binaryDraws[k]);
      }
      r := Ok(ret);
    } else if choice == 2 {
      var ret := InitInteger(noOfOrders, popSize, integerDraws);
      forall k | 0 <= k < |ret| ensures WellFormed(ret[k], noOfOrders) && TypeOf(ret[k]) == INTEGER {
        IntegerPopulationAt(noOfOrders, integerDraws, Count(popSize), k);
        IntegerIndividualIsWellFormed(noOfOrders, integerDraws[k]);
      }
      r := Ok(ret);
    } else if choice == 3 {
      var ret := InitFloatingPoint(noOfOrders, popSize, floatingDraws);
      forall k | 0 <= k < |ret| ensures WellFormed(ret[k], noOfOrders) && TypeOf(ret[k]) == FLOATING_POINT {
        FloatingPopulationAt(noOfOrders, floatingDraws, Count(popSize), k);
        FloatingIndividualIsWellFormed(noOfOrders, floatingDraws[k]);
      }
      r := Ok(ret);
    } else {
      r := Err(IllegalArgument("Invalid choice"));
    }
  }
}
