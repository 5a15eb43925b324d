/**
  Position-inheritance crossover on the permutation encoding (src/Crossover/IntegerCrossover.java).
  Each gene value v of 1..n, when its alpha draw is at least 0.5, is written into the first empty
  slot at or cyclically after its position in the other parent; the slots still empty then take
  the values not yet present, in ascending order, left to right.
*/
module IntegerCrossover {
  import opened Common
  import opened Genotypes

  /** A child under construction: `None` is the source's null slot. */
  type Slots = seq<Option<int>>

  /** The slot d steps after start, wrapping round at n (`(start + d) % n` in the source). */
  function Cyclic(start: nat, d: nat, n: nat): (i: nat)
    requires start < n && d < n
    ensures i < n
  {
    if start + d < n then start + d else start + d - n
  }

  /** How many steps after start slot i lies: the inverse of `Cyclic`. */
  function Steps(start: nat, i: nat, n: nat): (d: nat)
    requires start < n && i < n
    ensures d < n && Cyclic(start, d, n) == i
  {
    if i >= start then i - start else i + n - start
  }

  lemma CyclicNext(start: nat, d: nat, n: nat)
    requires start < n && d + 1 < n
    ensures Cyclic(start, d + 1, n) == NextSlot(Cyclic(start, d, n), n)
  {
  }

  /** The first empty slot d, d + 1, ... steps after start; start itself when none of them is empty. */
  function FirstEmptyFrom(list: Slots, start: nat, d: nat): (i: nat)
    requires start < |list| && d <= |list|
    ensures i < |list|
    decreases |list| - d
  {
    if d == |list| then start
    else if list[Cyclic(start, d, |list|)].None? then Cyclic(start, d, |list|)
    else FirstEmptyFrom(list, start, d + 1)
  }

  /** The slot `findNextEmptySlot(list, start)` returns. */
  function NextEmpty(list: Slots, start: nat): (i: nat)
    requires start < |list|
    ensures i < |list|
  {
    FirstEmptyFrom(list, start, 0)
  }

  lemma {:induction false} FirstEmptyFromFacts(list: Slots, start: nat, d: nat)
    requires start < |list| && d <= |list|
    requires forall e :: 0 <= e < d ==> list[Cyclic(start, e, |list|)].Some?
    ensures None in list ==>
      var i := FirstEmptyFrom(list, start, d);
      list[i].None? && forall e :: 0 <= e < Steps(start, i, |list|) ==> list[Cyclic(start, e, |list|)].Some?
    ensures None !in list ==> FirstEmptyFrom(list, start, d) == start
    decreases |list| - d
  {
    var n := |list|;
    if d == n {
      forall i | 0 <= i < n ensures list[i].Some? {
        assert list[Cyclic(start, Steps(start, i, n), n)].Some?;
      }
    } else if list[Cyclic(start, d, n)].Some? {
      FirstEmptyFromFacts(list, start, d + 1);
    }
  }

  /**
    `findNextEmptySlot` finds the first null slot at or cyclically after start, every slot on
    the way there being filled; with no null slot it returns start.
  */
  lemma NextEmptyFacts(list: Slots, start: nat)
    requires start < |list|
    ensures None in list ==>
      var i := NextEmpty(list, start);
      list[i].None? && forall e :: 0 <= e < Steps(start, i, |list|) ==> list[Cyclic(start, e, |list|)].Some?
    ensures None !in list ==> NextEmpty(list, start) == start
  {
    FirstEmptyFromFacts(list, start, 0);
  }

  /** `findNextEmptySlot`: at most n probes, stepping `(idx + 1) % n`. */
  method FindNextEmptySlot(list: Slots, startIdx: nat) returns (idx: nat)
    requires startIdx < |list|
    ensures idx == NextEmpty(list, startIdx)
  {
    var n := |list|;
    idx := startIdx;
    var i := 0;
    while i < n
      invariant 0 <= i <= n
      invariant i < n ==> idx == Cyclic(startIdx, i, n)
      invariant FirstEmptyFrom(list, startIdx, i) == NextEmpty(list, startIdx)
    {
      if list[idx].None? {
        return idx;
      }
      if i + 1 < n {
        CyclicNext(startIdx, i, n);
      }
      idx := NextSlot(idx, n);
      i := i + 1;
    }
    return startIdx;
  }

  /** Where `idxP.put(s[i], i)` over i = 0, 1, ... leaves value v: the last index holding it. */
  function LastIndex(s: seq<int>, v: int): (i: nat)
    requires v in s
    ensures i < |s| && s[i] == v
    ensures forall j :: i < j < |s| ==> s[j] != v
  {
    if s[|s| - 1] == v then |s| - 1 else LastIndex(s[..|s| - 1], v)
  }

  /** The position map `idxP` of one parent, built over indices 0..size-1. */
  method PositionMap(s: seq<int>, size: nat) returns (idx: map<int, nat>)
    requires size <= |s|
    ensures forall v :: v in idx <==> v in s[..size]
    ensures forall v :: v in idx ==> idx[v] == LastIndex(s[..size], v)
  {
    idx := map[];
    var i := 0;
    while i < size
      invariant i <= size
      invariant forall v :: v in idx <==> v in s[..i]
      invariant forall v :: v in idx ==> idx[v] == LastIndex(s[..i], v)
    {
      assert s[..i + 1][..i] == s[..i];
      assert s[..i + 1] == s[..i] + [s[i]];
      idx := idx[s[i] := i];
      i := i + 1;
    }
  }

  /** A child with every slot null: `Collections.nCopies(size, null)`. */
  function Empty(n: nat): (c: Slots)
    ensures |c| == n && forall i :: 0 <= i < n ==> c[i].None?
  {
    seq(n, i => None)
  }

  /**
    The child after genes 1..k have had their alpha draw: gene g whose alpha is at least 0.5
    goes to the first empty slot at or cyclically after g's position in the other parent.
  */
  function Placed(other: seq<int>, alphas: seq<Draw>, k: nat): (c: Slots)
    requires IsPermutation(other, 1, |other|) && k <= |other| && k <= |alphas|
    ensures |c| == |other|
  {
    if k == 0 then Empty(|other|)
    else
      var c := Placed(other, alphas, k - 1);
      if alphas[k - 1] >= 0.5 then
        PermutationCovers(other, 1, |other|);
        c[NextEmpty(c, LastIndex(other, k)) := Some(k)]
      else c
  }

  /** The values present in a child: the source's `present` set, null left out. */
  function Present(c: Slots): set<int> {
    set i | 0 <= i < |c| && c[i].Some? :: c[i].value
  }

  /** The placed values lie in 1..k and no value is placed twice. */
  ghost predicate DistinctUpTo(c: Slots, k: nat) {
    (forall i :: 0 <= i < |c| && c[i].Some? ==> 1 <= c[i].value <= k) &&
    (forall i, j :: 0 <= i < j < |c| && c[i].Some? && c[j].Some? ==> c[i].value != c[j].value)
  }

  /** The pigeonhole step: fewer than |c| distinct values leave some slot null. */
  lemma HoleLeft(c: Slots, k: nat)
    requires k < |c| && DistinctUpTo(c, k)
    ensures None in c
  {
    if None !in c {
      var values := seq(|c|, i requires 0 <= i < |c| => c[i].value);
      var range := Range(1, k);
      forall v | v in ValueSet(values) ensures v in ValueSet(range) {
        var i :| 0 <= i < |values| && values[i] == v;
        assert range[v - 1] == v;
      }
      DistinctValueSetSize(values);
      DistinctValueSetSize(range);
      SubsetSize(ValueSet(values), ValueSet(range));
      assert false;
    }
  }

  /**
    The placement loop places exactly the genes whose alpha is at least 0.5, each in a slot of
    its own.
  */
  lemma {:induction false} PlacedGenes(other: seq<int>, alphas: seq<Draw>, k: nat)
    requires IsPermutation(other, 1, |other|) && k <= |other| && k <= |alphas|
    ensures DistinctUpTo(Placed(other, alphas, k), k)
    ensures forall g :: 1 <= g <= k ==> (g in Present(Placed(other, alphas, k)) <==> alphas[g - 1] >= 0.5)
  {
    if k > 0 {
      PlacedGenes(other, alphas, k - 1);
      var c := Placed(other, alphas, k - 1);
      if alphas[k - 1] >= 0.5 {
        PermutationCovers(other, 1, |other|);
        var slot := NextEmpty(c, LastIndex(other, k));
        HoleLeft(c, k - 1);
        NextEmptyFacts(c, LastIndex(other, k));
        PlaceFresh(c, slot, k);
      } else {
        assert k !in Present(c);
      }
    }
  }

  /** Writing value k into a null slot of a child holding only values below k. */
  lemma PlaceFresh(c: Slots, slot: nat, k: nat)
    requires k >= 1 && DistinctUpTo(c, k - 1) && slot < |c| && c[slot].None?
    ensures DistinctUpTo(c[slot := Some(k as int)], k)
    ensures Present(c[slot := Some(k as int)]) == Present(c) + {k}
  {
    var c' := c[slot := Some(k as int)];
    forall v | v in Present(c') ensures v in Present(c) + {k} {
      var i :| 0 <= i < |c'| && c'[i].Some? && c'[i].value == v;
      if i != slot {
        assert c[i].Some? && c[i].value == v;
      }
    }
    forall v | v in Present(c) ensures v in Present(c') {
      var i :| 0 <= i < |c| && c[i].Some? && c[i].value == v;
      assert c'[i] == c[i];
    }
    assert c'[slot] == Some(k as int);
  }

  /** The present values after one more slot. */
  lemma PresentAppend(p: Slots, x: Option<int>)
    ensures Present(p + [x]) == Present(p) + (if x.Some? then {x.value} else {})
  {
    var c := p + [x];
    forall v | v in Present(c) ensures v in Present(p) + (if x.Some? then {x.value} else {}) {
      var i :| 0 <= i < |c| && c[i].Some? && c[i].value == v;
      if i < |p| {
        assert p[i] == c[i];
      }
    }
    forall v | v in Present(p) ensures v in Present(c) {
      var i :| 0 <= i < |p| && p[i].Some? && p[i].value == v;
      assert c[i] == p[i];
    }
    if x.Some? {
      assert c[|p|] == x;
    }
  }

  /** The number of null slots. */
  function CountNone(c: Slots): (k: nat)
    ensures k <= |c|
  {
    if c == [] then 0 else CountNone(c[..|c| - 1]) + (if c[|c| - 1].None? then 1 else 0)
  }

  lemma {:induction false} CountNonePrefix(c: Slots, i: nat, j: nat)
    requires i <= j <= |c|
    ensures CountNone(c[..i]) <= CountNone(c[..j])
    ensures i < j && c[i].None? ==> CountNone(c[..i]) < CountNone(c[..j])
    decreases j - i
  {
    if i < j {
      CountNonePrefix(c, i, j - 1);
      assert c[..j][..j - 1] == c[..j - 1];
      if i == j - 1 {
        assert c[..j][j - 1] == c[i];
      }
    }
  }

  /** With no value repeated, the present values and the null slots together fill the child. */
  lemma {:induction false} PresentSize(c: Slots)
    requires forall i, j :: 0 <= i < j < |c| && c[i].Some? && c[j].Some? ==> c[i].value != c[j].value
    ensures |Present(c)| + CountNone(c) == |c|
  {
    if c != [] {
      var p := c[..|c| - 1];
      var last := c[|c| - 1];
      PresentSize(p);
      assert c == p + [last];
      PresentAppend(p, last);
      if last.Some? {
        assert last.value !in Present(p) by {
          forall i | 0 <= i < |p| && p[i].Some? ensures p[i].value != last.value {
            assert p[i] == c[i];
          }
        }
      }
    }
  }

  /** `missing` of `fillRemaining`: the values of 1..size absent from the child, ascending. */
  function Missing(c: Slots, size: nat): seq<int> {
    Kept(Range(1, size), Present(c), size)
  }

  lemma {:induction false} KeptIncreasing(s: seq<int>, used: set<int>, t: nat)
    requires t <= |s| && forall i, j :: 0 <= i < j < |s| ==> s[i] < s[j]
    ensures forall i, j :: 0 <= i < j < |Kept(s, used, t)| ==> Kept(s, used, t)[i] < Kept(s, used, t)[j]
  {
    if t > 0 {
      KeptIncreasing(s, used, t - 1);
      KeptMembers(s, used, t - 1);
      var k := Kept(s, used, t - 1);
      forall x | x in k ensures x < s[t - 1] {
        var j :| 0 <= j < t - 1 && s[..t - 1][j] == x;
        assert s[j] == x;
      }
      var r := Kept(s, used, t);
      forall i, j | 0 <= i < j < |r| ensures r[i] < r[j] {
        if j == |k| {
          assert r[i] == k[i] && k[i] in k;
        } else {
          assert r[i] == k[i] && r[j] == k[j];
        }
      }
    }
  }

  /** The missing values are ascending, and are exactly the values of 1..size not present. */
  lemma MissingFacts(c: Slots, size: nat)
    ensures forall i, j :: 0 <= i < j < |Missing(c, size)| ==> Missing(c, size)[i] < Missing(c, size)[j]
    ensures forall v :: v in Missing(c, size) <==> 1 <= v <= size && v !in Present(c)
  {
    var range := Range(1, size);
    KeptIncreasing(range, Present(c), size);
    KeptMembers(range, Present(c), size);
    assert range[..size] == range;
    forall v | 1 <= v <= size ensures v in range {
      assert range[v - 1] == v;
    }
  }

  /** With the present values distinct and within 1..size, there is one missing value per null slot. */
  lemma MissingCount(c: Slots, size: nat)
    requires |c| == size && DistinctUpTo(c, size)
    ensures |Missing(c, size)| == CountNone(c)
  {
    var range := Range(1, size);
    PresentSize(c);
    RangeIsPermutation(1, size);
    KeptCount(range, Present(c), size);
    assert range[..size] == range;
    assert Present(c) + ValueSet(range) == ValueSet(range) by {
      forall v | v in Present(c) ensures v in ValueSet(range) {
        assert range[v - 1] == v;
      }
    }
    DistinctValueSetSize(range);
  }

  /**
    The child `fillRemaining` leaves: the null slots, left to right, take the missing values in
    turn, and the other slots are kept.
  */
  function FillSlots(c: Slots, missing: seq<int>): (r: Slots)
    requires CountNone(c) <= |missing|
    ensures |r| == |c|
  {
    if c == [] then []
    else
      var p := c[..|c| - 1];
      FillSlots(p, missing) + [if c[|c| - 1].Some? then c[|c| - 1] else Some(missing[CountNone(p)])]
  }

  /** The i-th slot keeps its value, or, when null, takes the next missing value not yet used. */
  lemma {:induction false} FillSlotsFacts(c: Slots, missing: seq<int>)
    requires CountNone(c) <= |missing|
    ensures forall i :: 0 <= i < |c| && c[i].Some? ==> FillSlots(c, missing)[i] == c[i]
    ensures forall i :: 0 <= i < |c| && c[i].None? ==>
      CountNone(c[..i]) < |missing| && FillSlots(c, missing)[i] == Some(missing[CountNone(c[..i])])
  {
    if c != [] {
      var p := c[..|c| - 1];
      FillSlotsFacts(p, missing);
      forall i | 0 <= i < |p| ensures c[..i] == p[..i] {
      }
    }
  }

  /** The first loop of `fillRemaining`: the values of 1..size not in `present`, in ascending order. */
  method CollectMissing(present: set<int>, size: nat) returns (missing: seq<int>)
    ensures missing == Kept(Range(1, size), present, size)
  {
    ghost var range := Range(1, size);
    missing := [];
    var v := 1;
    while v <= size
      invariant 1 <= v <= size + 1
      invariant missing == Kept(range, present, v - 1)
    {
      assert range[v - 1] == v;
      if v !in present {
        missing := missing + [v];
      }
      v := v + 1;
    }
  }

  /** One more slot of `fillRemaining`'s second loop, given enough missing values for all null slots. */
  lemma FillStep(c: Slots, missing: seq<int>, i: nat)
    requires i < |c| && CountNone(c) <= |missing|
    ensures CountNone(c[..i + 1]) == CountNone(c[..i]) + (if c[i].None? then 1 else 0) <= CountNone(c)
    ensures FillSlots(c[..i + 1], missing) ==
      FillSlots(c[..i], missing) + [if c[i].Some? then c[i] else Some(missing[CountNone(c[..i])])]
  {
    assert c[..i + 1][..i] == c[..i];
    CountNonePrefix(c, i + 1, |c|);
    assert c[..|c|] == c;
  }

  /**
    `fillRemaining(child, size)`: the missing values of 1..size collected, then the null slots
    filled with them left to right.
  */
  method FillRemaining(child: Slots, size: nat) returns (filled: Slots)
    requires |child| == size
    requires CountNone(child) <= |Missing(child, size)|
    ensures filled == FillSlots(child, Missing(child, size))
  {
    var present := set i | 0 <= i < |child| && child[i].Some? :: child[i].value;
    var missing := CollectMissing(present, size);
    var mIdx := 0;
    filled := child;
    var i := 0;
    while i < size
      invariant 0 <= i <= size && |filled| == size
      invariant mIdx == CountNone(child[..i]) <= CountNone(child)
      invariant filled[..i] == FillSlots(child[..i], missing)
      invariant forall j :: i <= j < size ==> filled[j] == child[j]
    {
      FillStep(child, missing, i);
      ghost var next := FillSlots(child[..i + 1], missing);
      if filled[i].None? {
        filled := filled[i := Some(missing[mIdx])];
        mIdx := mIdx + 1;
      }
      assert filled[..i + 1] == next;
      i := i + 1;
    }
    assert child[..size] == child && filled[..size] == filled;
  }

  /** No slot is null any more. */
  predicate Complete(c: Slots) {
    forall i :: 0 <= i < |c| ==> c[i].Some?
  }

  /** The values of a child with no null slot left. */
  function Values(c: Slots): (s: seq<int>)
    requires Complete(c)
    ensures |s| == |c| && forall i :: 0 <= i < |c| ==> c[i] == Some(s[i])
  {
    seq(|c|, i requires 0 <= i < |c| => c[i].value)
  }

  /** Filling the null slots with distinct values that are not present yields distinct values throughout. */
  lemma FilledDistinct(c: Slots, missing: seq<int>, n: nat)
    requires |c| == n && DistinctUpTo(c, n) && CountNone(c) <= |missing|
    requires forall i, j :: 0 <= i < j < |missing| ==> missing[i] < missing[j]
    requires forall v :: v in missing ==> 1 <= v <= n && v !in Present(c)
    ensures Complete(FillSlots(c, missing))
    ensures IsPermutation(Values(FillSlots(c, missing)), 1, n)
  {
    var r := FillSlots(c, missing);
    FillSlotsFacts(c, missing);
    assert Complete(r);
    var s := Values(r);
    forall i | 0 <= i < n
      ensures 1 <= s[i] <= n
      ensures c[i].Some? ==> s[i] == c[i].value && s[i] in Present(c)
      ensures c[i].None? ==> s[i] == missing[CountNone(c[..i])] && s[i] !in Present(c)
    {
      if c[i].None? {
        assert missing[CountNone(c[..i])] in missing;
      }
    }
    forall i, j | 0 <= i < j < n ensures s[i] != s[j] {
      if c[i].None? && c[j].None? {
        CountNonePrefix(c, i, j);
      }
    }
  }

  /** One child: the genes placed after the other parent's positions, then the remaining slots filled. */
  function Offspring(other: seq<int>, alphas: seq<Draw>): (c: Slots)
    requires IsPermutation(other, 1, |other|) && |other| <= |alphas|
    ensures |c| == |other|
  {
    var placed := Placed(other, alphas, |other|);
    PlacedGenes(other, alphas, |other|);
    MissingCount(placed, |other|);
    FillSlots(placed, Missing(placed, |other|))
  }

  /** No duplicates and no omissions: each child is an ordering of 1..n. */
  lemma OffspringIsPermutation(other: seq<int>, alphas: seq<Draw>)
    requires IsPermutation(other, 1, |other|) && |other| <= |alphas|
    ensures Complete(Offspring(other, alphas))
    ensures IsPermutation(Values(Offspring(other, alphas)), 1, |other|)
  {
    var n := |other|;
    var placed := Placed(other, alphas, n);
    PlacedGenes(other, alphas, n);
    MissingCount(placed, n);
    MissingFacts(placed, n);
    FilledDistinct(placed, Missing(placed, n), n);
  }

  /**
    `crossover`: both parents must use the permutation encoding; a draw above the probability
    returns the parents unchanged (as clones); otherwise one alpha draw per gene value decides
    whether it is placed in both children. Child 1 follows parent2's positions and child 2
    parent1's.
  */
  method Crossover(parent1: Genotype, parent2: Genotype, probability: real, draw: Draw, alphas: seq<Draw>)
    returns (r: Result<(Genotype, Genotype)>)
    requires parent1.IntegerGenes? && parent2.IntegerGenes? ==>
      IsPermutation(parent1.order, 1, |parent1.order|) && IsPermutation(parent2.order, 1, |parent1.order|) &&
      |alphas| >= |parent1.order|
    ensures !(parent1.IntegerGenes? && parent2.IntegerGenes?) <==> r.Err?
    ensures r.Err? ==> r.failure.IllegalArgument?
    ensures parent1.IntegerGenes? && parent2.IntegerGenes? && draw > probability ==> r == Ok((parent1, parent2))
    ensures parent1.IntegerGenes? && parent2.IntegerGenes? && draw <= probability ==>
      Complete(Offspring(parent2.order, alphas)) && Complete(Offspring(parent1.order, alphas)) &&
      r == Ok((IntegerGenes(Values(Offspring(parent2.order, alphas))), IntegerGenes(Values(Offspring(parent1.order, alphas)))))
    ensures r.Ok? ==> WellFormed(r.value.0, |parent1.order|) && WellFormed(r.value.1, |parent1.order|)
  {
    if !parent1.IntegerGenes? || !parent2.IntegerGenes? {
      return Err(IllegalArgument("IntegerCrossover only works with IntegerChromosome"));
    }
    if draw > probability {
      return Ok((parent1, parent2));
    }
    var seq1 := parent1.order;
    var seq2 := parent2.order;
    var size := |seq1|;
    var idxP1 := PositionMap(seq1, size);
    var idxP2 := PositionMap(seq2, size);
    assert seq1[..size] == seq1 && seq2[..size] == seq2;
    PermutationCovers(seq1, 1, size);
    PermutationCovers(seq2, 1, size);
    var child1 := Empty(size);
    var child2 := Empty(size);
    var gene := 0;
    while gene < size
      invariant gene <= size
      invariant child1 == Placed(seq2, alphas, gene) && child2 == Placed(seq1, alphas, gene)
    {
      if alphas[gene] >= 0.5 {
        var pos1 := FindNextEmptySlot(child1, idxP2[gene + 1]);
        child1 := child1[pos1 := Some(gene + 1)];
        var pos2 := FindNextEmptySlot(child2, idxP1[gene + 1]);
        child2 := child2[pos2 := Some(gene + 1)];
      }
      gene := gene + 1;
    }
    PlacedGenes(seq2, alphas, size);
    PlacedGenes(seq1, alphas, size);
    MissingCount(child1, size);
    MissingCount(child2, size);
    child1 := FillRemaining(child1, size);
    child2 := FillRemaining(child2, size);
    OffspringIsPermutation(seq2, alphas);
    OffspringIsPermutation(seq1, alphas);
    r := Ok((IntegerGenes(Values(child1)), IntegerGenes(Values(child2))));
  }
}
