/**
  `Pair` (src/GeneticAlgorithm/Helpers/Pair.java): a priority key together with the delivery
  point it belongs to, ordered by key first and by point index among equal keys. Keys are
  modelled as reals.
*/
module Pairs {

  datatype Pair = Pair(number: real, idx: int)

  /** The sign convention of `Double.compare` and `Integer.compare`: -1, 0 or 1. */
  function Compare(x: real, y: real): int {
    if x < y then -1 else if x == y then 0 else 1
  }

  function CompareInt(x: int, y: int): int {
    if x < y then -1 else if x == y then 0 else 1
  }

  /** `compareTo`: lexicographic on (number, idx). */
  function CompareTo(a: Pair, b: Pair): (r: int)
    ensures r == -1 || r == 0 || r == 1
    ensures r < 0 <==> a.number < b.number || (a.number == b.number && a.idx < b.idx)
    ensures r > 0 <==> a.number > b.number || (a.number == b.number && a.idx > b.idx)
    ensures r == 0 <==> a == b
  {
    if a.number != b.number then Compare(a.number, b.number) else CompareInt(a.idx, b.idx)
  }

  /** The key decides whenever the keys differ; the index is consulted only on a tie. */
  lemma KeyDecidesFirst(a: Pair, b: Pair)
    ensures a.number != b.number ==> CompareTo(a, b) == Compare(a.number, b.number)
    ensures a.number == b.number ==> CompareTo(a, b) == CompareInt(a.idx, b.idx)
  {
  }

  lemma CompareAntisymmetric(a: Pair, b: Pair)
    ensures CompareTo(a, b) == -CompareTo(b, a)
  {
  }

  lemma CompareTransitive(a: Pair, b: Pair, c: Pair)
    requires CompareTo(a, b) <= 0 && CompareTo(b, c) <= 0
    ensures CompareTo(a, c) <= 0
    ensures CompareTo(a, b) < 0 || CompareTo(b, c) < 0 ==> CompareTo(a, c) < 0
  {
  }

  /**
    The order `Collections.reverseOrder()` sorts by: `a` goes before `b` when `b.compareTo(a)`
    is negative, that is when `a` is the larger pair.
  */
  predicate Before(a: Pair, b: Pair) {
    CompareTo(b, a) < 0
  }

  /** A list sorted by `Collections.reverseOrder()` over pairs with distinct indices. */
  predicate SortedDescending(s: seq<Pair>) {
    forall i, j :: 0 <= i < j < |s| ==> Before(s[i], s[j])
  }
}
