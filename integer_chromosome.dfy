/**
  The integer (permutation) encoding (src/GeneticAlgorithm/Chromosomes/IntegerChromosome.java):
  the gene list is itself the visiting order of delivery points 1..n.
*/
module IntegerChromosomes {
  import opened Common

  /** The two `nextInt(size)` draws of one shuffling swap. */
  type SwapDraw = (nat, nat)

  /** The list after the first k shuffling swaps of `generateGenes`. */
  function SwapsPrefix(s: seq<int>, draws: seq<SwapDraw>, k: nat): (r: seq<int>)
    requires k <= |draws| && (k > 0 ==> |s| > 0)
    ensures |r| == |s|
  {
    if k == 0 then s
    else
      var t := SwapsPrefix(s, draws, k - 1);
      Swap(t, NextInt(draws[k - 1].0, |t|), NextInt(draws[k - 1].1, |t|))
  }

  /** The shuffling swaps turn an ordering of lo..lo+|s|-1 into another one. */
  lemma {:induction false} SwapsPrefixKeepsPermutation(s: seq<int>, lo: int, draws: seq<SwapDraw>, k: nat)
    requires k <= |draws| && (k > 0 ==> |s| > 0) && IsPermutation(s, lo, |s|)
    ensures IsPermutation(SwapsPrefix(s, draws, k), lo, |s|)
  {
    if k > 0 {
      SwapsPrefixKeepsPermutation(s, lo, draws, k - 1);
      var t := SwapsPrefix(s, draws, k - 1);
      SwapKeepsPermutation(t, lo, |s|, NextInt(draws[k - 1].0, |t|), NextInt(draws[k - 1].1, |t|));
    }
  }

  /** One `mutateBySwapping(idx, p)` on a value: the swap happens when the draw is below p and there are two genes. */
  function SwapMutation(s: seq<int>, idx: nat, probability: real, draw: Draw, second: nat): (r: seq<int>)
    requires idx < |s|
    ensures |r| == |s| && multiset(r) == multiset(s)
    ensures draw < probability && |s| > 1 ==> r == Swap(s, idx, NextInt(second, |s|))
    ensures !(draw < probability && |s| > 1) ==> r == s
  {
    if draw < probability && |s| > 1 then Swap(s, idx, NextInt(second, |s|)) else s
  }

  /** The genes after `mutateMethod1` has visited indices 0..k-1. */
  function SwapMutationsPrefix(s: seq<int>, probability: real, draws: seq<(Draw, nat)>, k: nat): (r: seq<int>)
    requires k <= |s| && k <= |draws|
    ensures |r| == |s|
  {
    if k == 0 then s
    else
      var t := SwapMutationsPrefix(s, probability, draws, k - 1);
      SwapMutation(t, k - 1, probability, draws[k - 1].0, draws[k - 1].1)
  }

  /** `mutateMethod1` only rearranges: the multiset of genes is kept. */
  lemma {:induction false} SwapMutationsKeepMultiset(s: seq<int>, probability: real, draws: seq<(Draw, nat)>, k: nat)
    requires k <= |s| && k <= |draws|
    ensures multiset(SwapMutationsPrefix(s, probability, draws, k)) == multiset(s)
  {
    if k > 0 {
      SwapMutationsKeepMultiset(s, probability, draws, k - 1);
      var t := SwapMutationsPrefix(s, probability, draws, k - 1);
      assert SwapMutationsPrefix(s, probability, draws, k) == SwapMutation(t, k - 1, probability, draws[k - 1].0, draws[k - 1].1);
    }
  }

  /** A permutation stays a permutation under `mutateMethod1`. */
  lemma {:induction false} SwapMutationsKeepPermutation(s: seq<int>, lo: int, probability: real, draws: seq<(Draw, nat)>, k: nat)
    requires k <= |s| && k <= |draws| && IsPermutation(s, lo, |s|)
    ensures IsPermutation(SwapMutationsPrefix(s, probability, draws, k), lo, |s|)
  {
    if k > 0 {
      SwapMutationsKeepPermutation(s, lo, probability, draws, k - 1);
      var t := SwapMutationsPrefix(s, probability, draws, k - 1);
      if draws[k - 1].0 < probability && |t| > 1 {
        SwapKeepsPermutation(t, lo, |s|, k - 1, NextInt(draws[k - 1].1, |t|));
      }
    }
  }

  /** `remove(idx)` followed by `add(val)`: the gene at idx goes to the end. */
  function MoveToEnd(s: seq<int>, idx: nat): (r: seq<int>)
    requires idx < |s|
    ensures |r| == |s| && r[|s| - 1] == s[idx]
    ensures forall k :: 0 <= k < idx ==> r[k] == s[k]
    ensures forall k :: idx <= k < |s| - 1 ==> r[k] == s[k + 1]
    ensures multiset(r) == multiset(s)
  {
    assert s == s[..idx] + [s[idx]] + s[idx + 1..];
    s[..idx] + s[idx + 1..] + [s[idx]]
  }

  /** Moving a gene to the end keeps a permutation a permutation. */
  lemma MoveToEndKeepsPermutation(s: seq<int>, lo: int, idx: nat)
    requires IsPermutation(s, lo, |s|) && idx < |s|
    ensures IsPermutation(MoveToEnd(s, idx), lo, |s|)
  {
    var r := MoveToEnd(s, idx);
    forall i, j | 0 <= i < j < |r| ensures r[i] != r[j] {
      var si := if i < idx then i else i + 1;
      var sj := if j == |s| - 1 then idx else if j < idx then j else j + 1;
      assert r[i] == s[si] && r[j] == s[sj] && si != sj;
    }
    forall i | 0 <= i < |r| ensures lo <= r[i] < lo + |s| {
      var si := if i == |s| - 1 then idx else if i < idx then i else i + 1;
      assert r[i] == s[si];
    }
  }

  class IntegerChromosome {
    var genes: seq<int>

    /** The list constructor: a copy of the given genes. */
    constructor (genes: seq<int>)
      ensures this.genes == genes
    {
      this.genes := genes;
    }

    constructor Empty()
      ensures genes == []
    {
      genes := [];
    }

    /** The copy constructor: an equal gene list that is not shared with `other`. */
    constructor Copy(other: IntegerChromosome)
      ensures genes == other.genes
    {
      genes := other.genes;
    }

    /**
      `generateGenes(n)`: the list 1..n, then n swaps of two drawn positions. The result is an
      ordering of 1..n.
    */
    method GenerateGenes(numberOfGenes: nat, draws: seq<SwapDraw>)
      requires |draws| >= numberOfGenes
      modifies this
      ensures genes == SwapsPrefix(Range(1, numberOfGenes), draws, numberOfGenes)
      ensures IsPermutation(genes, 1, numberOfGenes)
    {
      var g: seq<int> := [];
      var i := 0;
      while i < numberOfGenes
        invariant 0 <= i <= numberOfGenes && g == Range(1, i)
      {
        g := g + [i + 1];
        i := i + 1;
      }
      var start := g;
      i := 0;
      while i < |g|
        invariant 0 <= i <= |g| == numberOfGenes
        invariant g == SwapsPrefix(start, draws, i)
      {
        var first := NextInt(draws[i].0, |g|);
        var second := NextInt(draws[i].1, |g|);
        g := Swap(g, first, second);
        i := i + 1;
      }
      genes := g;
      RangeIsPermutation(1, numberOfGenes);
      SwapsPrefixKeepsPermutation(start, 1, draws, numberOfGenes);
    }

    /** `getDeliverySequence`: the genes themselves, with no decoding step. */
    method DeliverySequence() returns (sequence: seq<int>)
      ensures sequence == genes
    {
      sequence := genes;
    }

    /**
      `mutateBySwapping(idx, p)`: when the draw is below p and there are at least two genes,
      gene idx trades places with a drawn position. An idx outside the list then fails with an
      index error and changes nothing.
    */
    method MutateBySwapping(idx: nat, probability: real, draw: Draw, second: nat) returns (failure: Option<Failure>)
      modifies this
      ensures failure.Some? <==> draw < probability && |old(genes)| > 1 && idx >= |old(genes)|
      ensures failure.Some? ==> genes == old(genes) && failure.value == IndexOutOfBounds(idx)
      ensures failure.None? && idx < |old(genes)| ==> genes == SwapMutation(old(genes), idx, probability, draw, second)
      ensures failure.None? && idx >= |old(genes)| ==> genes == old(genes)
    {
      failure := None;
      if draw < probability && |genes| > 1 {
        if idx >= |genes| {
          failure := Some(IndexOutOfBounds(idx));
          return;
        }
        var other := NextInt(second, |genes|);
        genes := Swap(genes, idx, other);
      }
    }

    /** `mutateMethod1(p)`: swap-mutation at every index in turn, one draw pair per index. */
    method MutateMethod1(probability: real, draws: seq<(Draw, nat)>)
      requires |draws| >= |genes|
      modifies this
      ensures genes == SwapMutationsPrefix(old(genes), probability, draws, |old(genes)|)
      ensures multiset(genes) == multiset(old(genes))
      ensures forall lo: int :: IsPermutation(old(genes), lo, |old(genes)|) ==> IsPermutation(genes, lo, |genes|)
    {
      ghost var start := genes;
      var i := 0;
      while i < |genes|
        invariant |genes| == |start|
        invariant 0 <= i <= |genes|
        invariant genes == SwapMutationsPrefix(start, probability, draws, i)
      {
        var failure := MutateBySwapping(i, probability, draws[i].0, draws[i].1);
        assert genes == SwapMutation(SwapMutationsPrefix(start, probability, draws, i), i, probability, draws[i].0, draws[i].1);
        i := i + 1;
      }
      SwapMutationsKeepMultiset(start, probability, draws, |start|);
      forall lo: int | IsPermutation(start, lo, |start|) ensures IsPermutation(genes, lo, |genes|) {
        SwapMutationsKeepPermutation(start, lo, probability, draws, |start|);
      }
    }

    /**
      `mutateByBecomingLast(idx, p)`: when the draw is below p and the list is not empty, gene
      idx is removed and appended. An idx outside the list then fails and changes nothing.
    */
    method MutateByBecomingLast(idx: nat, probability: real, draw: Draw) returns (failure: Option<Failure>)
      modifies this
      ensures failure.Some? <==> draw < probability && |old(genes)| > 0 && idx >= |old(genes)|
      ensures failure.Some? ==> genes == old(genes) && failure.value == IndexOutOfBounds(idx)
      ensures failure.None? && draw < probability && idx < |old(genes)| ==> genes == MoveToEnd(old(genes), idx)
      ensures failure.None? && !(draw < probability && idx < |old(genes)|) ==> genes == old(genes)
    {
      failure := None;
      if draw < probability && |genes| > 0 {
        if idx >= |genes| {
          failure := Some(IndexOutOfBounds(idx));
          return;
        }
        var val := genes[idx];
        genes := genes[..idx] + genes[idx + 1..];
        genes := genes + [val];
        assert genes == MoveToEnd(old(genes), idx);
      }
    }

    /** `clone`: a new chromosome with an equal, independent gene list. */
    method Clone() returns (c: IntegerChromosome)
      ensures fresh(c) && c.genes == genes
    {
      c := new IntegerChromosome.Copy(this);
    }
  }
}
