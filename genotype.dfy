/**
  A chromosome as a value, tagged by its encoding: what crossover, selection, replacement and
  the engine pass around. The chromosome classes work on the same gene values in place.
*/
module Genotypes {
  import opened Common
  import opened BinaryChromosomes
  import opened FloatingChromosomes

  datatype Genotype =
    | BinaryGenes(matrix: Matrix)
    | IntegerGenes(order: seq<int>)
    | FloatingGenes(keys: seq<real>)

  /** The chromosome types of the engine's configuration. */
  datatype ChromosomeType = BINARY | INTEGER | FLOATING_POINT

  function TypeOf(g: Genotype): ChromosomeType {
    match g
    case BinaryGenes(_) => BINARY
    case IntegerGenes(_) => INTEGER
    case FloatingGenes(_) => FLOATING_POINT
  }

  /** The genes can be decoded: a binary chromosome's matrix is square. */
  predicate Decodable(g: Genotype) {
    g.BinaryGenes? ==> IsSquare(g.matrix)
  }

  /** `getDeliverySequence` of each encoding. */
  function Sequence(g: Genotype): seq<int>
    requires Decodable(g)
  {
    match g
    case BinaryGenes(m) => Decode(m)
    case IntegerGenes(order) => order
    case FloatingGenes(keys) => KeyDecode(keys)
  }

  /**
    The genes encode a visiting order of n delivery points: a permutation matrix of order n,
    a permutation of 1..n, or n keys in [0, 1].
  */
  predicate WellFormed(g: Genotype, n: nat) {
    match g
    case BinaryGenes(m) => IsPermutationMatrix(m) && |m| == n
    case IntegerGenes(order) => IsPermutation(order, 1, n)
    case FloatingGenes(keys) => |keys| == n && KeysInUnitInterval(keys)
  }

  /** A well-formed chromosome decodes to an ordering of its n points, 0-based for the matrix encoding. */
  lemma WellFormedSequence(g: Genotype, n: nat)
    requires WellFormed(g, n)
    ensures Decodable(g)
    ensures IsPermutation(Sequence(g), if g.BinaryGenes? then 0 else 1, n)
  {
    if g.BinaryGenes? {
      DecodePermutationMatrix(g.matrix);
    }
  }
}
