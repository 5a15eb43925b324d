/**
  The permutation-matrix encoding (src/Chromosomes/BinaryChromosome.java). Row r, column p of
  the n-by-n matrix is true when delivery point r is visited at position p. Delivery points are
  numbered 0..n-1 in this encoding.
*/
module BinaryChromosomes {
  import opened Common

  type Matrix = seq<seq<bool>>

  predicate IsSquare(m: Matrix) {
    forall r :: 0 <= r < |m| ==> |m[r]| == |m|
  }

  /** Exactly one true in every row and in every column. */
  predicate IsPermutationMatrix(m: Matrix) {
    && IsSquare(m)
    && (forall r, c1, c2 :: 0 <= r < |m| && 0 <= c1 < |m| && 0 <= c2 < |m| && m[r][c1] && m[r][c2] ==> c1 == c2)
    && (forall c, r1, r2 :: 0 <= c < |m| && 0 <= r1 < |m| && 0 <= r2 < |m| && m[r1][c] && m[r2][c] ==> r1 == r2)
    && (forall r :: 0 <= r < |m| ==> true in m[r])
    && (forall c :: 0 <= c < |m| ==> FirstTrueRow(m, c, 0) < |m|)
  }

  /** The matrix that visits `order[p]` at position p: what `sequenceToChromosome` builds. */
  function MatrixOf(order: seq<int>): (m: Matrix)
    ensures |m| == |order| && IsSquare(m)
    ensures forall r, c :: 0 <= r < |m| && 0 <= c < |m| ==> (m[r][c] <==> order[c] == r)
  {
    seq(|order|, r => seq(|order|, c requires 0 <= c < |order| => order[c] == r))
  }

  /** The first row at or after `from` holding true in column `col`, or |m| when there is none. */
  function FirstTrueRow(m: Matrix, col: nat, from: nat): (r: nat)
    requires IsSquare(m) && col < |m| && from <= |m|
    ensures from <= r <= |m|
    ensures r < |m| ==> m[r][col]
    ensures forall k :: from <= k < r ==> !m[k][col]
    decreases |m| - from
  {
    if from == |m| then |m| else if m[from][col] then from else FirstTrueRow(m, col, from + 1)
  }

  /** What the decoding loop appends for column `col`: the first row holding true, if any. */
  function ColumnEntry(m: Matrix, col: nat): seq<int>
    requires IsSquare(m) && col < |m|
  {
    var r := FirstTrueRow(m, col, 0);
    if r < |m| then [r] else []
  }

  /** The decoding of columns 0..k-1, read left to right. */
  function DecodePrefix(m: Matrix, k: nat): seq<int>
    requires IsSquare(m) && k <= |m|
  {
    if k == 0 then [] else DecodePrefix(m, k - 1) + ColumnEntry(m, k - 1)
  }

  /** `getDeliverySequence`: the visiting order the matrix encodes. */
  function Decode(m: Matrix): seq<int>
    requires IsSquare(m)
  {
    DecodePrefix(m, |m|)
  }

  lemma {:induction false} DecodePrefixOfFullColumns(m: Matrix, k: nat)
    requires IsPermutationMatrix(m) && k <= |m|
    ensures |DecodePrefix(m, k)| == k
    ensures forall c :: 0 <= c < k ==> 0 <= DecodePrefix(m, k)[c] < |m| && m[DecodePrefix(m, k)[c]][c]
  {
    if k > 0 {
      DecodePrefixOfFullColumns(m, k - 1);
    }
  }

  /**
    On a permutation matrix the decoding reads, for each position, the one row holding true
    there, and the result is an ordering of 0..n-1.
  */
  lemma DecodePermutationMatrix(m: Matrix)
    requires IsPermutationMatrix(m)
    ensures |Decode(m)| == |m|
    ensures forall c :: 0 <= c < |m| ==> 0 <= Decode(m)[c] < |m| && m[Decode(m)[c]][c]
    ensures IsPermutation(Decode(m), 0, |m|)
  {
    DecodePrefixOfFullColumns(m, |m|);
    var d := Decode(m);
    forall c1, c2 | 0 <= c1 < c2 < |d| ensures d[c1] != d[c2] {
      assert m[d[c1]][c1] && m[d[c2]][c2];
    }
  }

  /** A permutation matrix is the matrix of its own decoding. */
  lemma PermutationMatrixIsMatrixOfDecode(m: Matrix)
    requires IsPermutationMatrix(m)
    ensures m == MatrixOf(Decode(m))
  {
    DecodePermutationMatrix(m);
    var d := Decode(m);
    var mo := MatrixOf(d);
    forall r | 0 <= r < |m| ensures m[r] == mo[r] {
      forall c | 0 <= c < |m| ensures m[r][c] == mo[r][c] {
        assert m[d[c]][c];
      }
    }
  }

  /** `sequenceToChromosome` round trip: the matrix of an ordering decodes back to it. */
  lemma MatrixOfPermutation(order: seq<int>)
    requires IsPermutation(order, 0, |order|)
    ensures IsPermutationMatrix(MatrixOf(order))
    ensures Decode(MatrixOf(order)) == order
  {
    var m := MatrixOf(order);
    var n := |order|;
    PermutationCovers(order, 0, n);
    forall r | 0 <= r < n ensures true in m[r] {
      assert r in order;
      var c :| 0 <= c < n && order[c] == r;
      assert m[r][c];
    }
    forall c | 0 <= c < n ensures FirstTrueRow(m, c, 0) < n {
      assert m[order[c]][c];
    }
    assert IsPermutationMatrix(m);
    DecodePermutationMatrix(m);
    forall c | 0 <= c < n ensures Decode(m)[c] == order[c] {
      assert m[Decode(m)[c]][c];
    }
  }

  /** The last row holding true in column `col` (the mutation loop does not break), or -1. */
  function LastTrueRow(m: Matrix, col: nat, upTo: nat): (r: int)
    requires IsSquare(m) && col < |m| && upTo <= |m|
    ensures -1 <= r < upTo
    ensures r >= 0 ==> m[r][col]
    ensures forall k :: r < k < upTo ==> !m[k][col]
  {
    if upTo == 0 then -1 else if m[upTo - 1][col] then upTo - 1 else LastTrueRow(m, col, upTo - 1)
  }

  function SetCell(m: Matrix, r: nat, c: nat, v: bool): (m': Matrix)
    requires IsSquare(m) && r < |m| && c < |m|
    ensures |m'| == |m| && IsSquare(m')
  {
    m[r := m[r][c := v]]
  }

  /**
    The four cell updates of `mutateMethod1` for positions `pos1` and `pos2`: the rows found in
    the two columns trade columns. When either column has no true cell nothing changes.
  */
  function ColumnSwap(m: Matrix, pos1: nat, pos2: nat): (m': Matrix)
    requires IsSquare(m) && pos1 < |m| && pos2 < |m|
    ensures |m'| == |m| && IsSquare(m')
  {
    var order1 := LastTrueRow(m, pos1, |m|);
    var order2 := LastTrueRow(m, pos2, |m|);
    if order1 == -1 || order2 == -1 then m
    else
      var m1 := SetCell(m, order1, pos1, false);
      var m2 := SetCell(m1, order1, pos2, true);
      var m3 := SetCell(m2, order2, pos2, false);
      SetCell(m3, order2, pos1, true)
  }

  /** Cell by cell, the column swap of two distinct rows at two distinct positions. */
  lemma ColumnSwapCells(m: Matrix, pos1: nat, pos2: nat, order1: nat, order2: nat)
    requires IsSquare(m) && pos1 < |m| && pos2 < |m| && pos1 != pos2
    requires order1 == LastTrueRow(m, pos1, |m|) && order2 == LastTrueRow(m, pos2, |m|)
    requires order1 != order2
    ensures forall r, c :: 0 <= r < |m| && 0 <= c < |m| ==>
      ColumnSwap(m, pos1, pos2)[r][c] ==
        if r == order1 && c == pos1 then false
        else if r == order1 && c == pos2 then true
        else if r == order2 && c == pos2 then false
        else if r == order2 && c == pos1 then true
        else m[r][c]
  {
  }

  /**
    The column swap keeps a permutation matrix one, and its decoding is the old decoding with
    positions pos1 and pos2 exchanged.
  */
  lemma ColumnSwapSwapsDecoding(m: Matrix, pos1: nat, pos2: nat)
    requires IsPermutationMatrix(m) && pos1 < |m| && pos2 < |m| && pos1 != pos2
    ensures |Decode(m)| == |m|
    ensures IsPermutationMatrix(ColumnSwap(m, pos1, pos2))
    ensures Decode(ColumnSwap(m, pos1, pos2)) == Swap(Decode(m), pos1, pos2)
  {
    DecodePermutationMatrix(m);
    PermutationMatrixIsMatrixOfDecode(m);
    var d := Decode(m);
    ColumnSwapOfMatrixOf(d, pos1, pos2);
    SwapKeepsPermutation(d, 0, |m|, pos1, pos2);
    MatrixOfPermutation(Swap(d, pos1, pos2));
  }

  /** On the matrix of an ordering, the column swap is the matrix of the swapped ordering. */
  lemma ColumnSwapOfMatrixOf(d: seq<int>, pos1: nat, pos2: nat)
    requires IsPermutation(d, 0, |d|) && pos1 < |d| && pos2 < |d| && pos1 != pos2
    ensures ColumnSwap(MatrixOf(d), pos1, pos2) == MatrixOf(Swap(d, pos1, pos2))
  {
    var n := |d|;
    var m := MatrixOf(d);
    assert m[d[pos1]][pos1] && m[d[pos2]][pos2];
    var o1 := LastTrueRow(m, pos1, n);
    var o2 := LastTrueRow(m, pos2, n);
    assert o1 == d[pos1] && o2 == d[pos2];
    ColumnSwapCells(m, pos1, pos2, o1, o2);
    var sw := Swap(d, pos1, pos2);
    var target := MatrixOf(sw);
    var result := ColumnSwap(m, pos1, pos2);
    forall r | 0 <= r < n ensures result[r] == target[r] {
      forall c | 0 <= c < n ensures result[r][c] == target[r][c] {
        if c != pos1 && c != pos2 {
          assert sw[c] == d[c];
        }
      }
    }
  }

  /** The draw of `pos2` in `mutateMethod1`: redrawn until it differs from `pos1`. */
  function OtherPosition(pos1: nat, raw: nat, size: nat): (pos2: nat)
    requires size >= 2 && pos1 < size
    ensures pos2 < size && pos2 != pos1
  {
    (pos1 + 1 + NextInt(raw, size - 1)) % size
  }

  /** Collections.shuffle on a random-access list: from the end, swap slot i-1 with a draw below i. */
  function Shuffle(s: seq<int>, i: nat, draws: seq<nat>): (r: seq<int>)
    requires i <= |s| && |draws| + 1 >= i
    ensures |r| == |s|
    decreases i
  {
    if i <= 1 then s
    else Shuffle(Swap(s, i - 1, NextInt(draws[0], i)), i - 1, draws[1..])
  }

  /** Shuffling an ordering of lo..lo+|s|-1 yields another one. */
  lemma {:induction false} ShuffleKeepsPermutation(s: seq<int>, lo: int, i: nat, draws: seq<nat>)
    requires i <= |s| && |draws| + 1 >= i && IsPermutation(s, lo, |s|)
    ensures IsPermutation(Shuffle(s, i, draws), lo, |s|)
    decreases i
  {
    if i > 1 {
      SwapKeepsPermutation(s, lo, |s|, i - 1, NextInt(draws[0], i));
      ShuffleKeepsPermutation(Swap(s, i - 1, NextInt(draws[0], i)), lo, i - 1, draws[1..]);
    }
  }

  /**
    The marking loops shared by `generateGenes` and `sequenceToChromosome`: an n-by-n matrix of
    false, then cell (order[p], p) set for every position p.
  */
  method MatrixFromOrder(order: seq<int>) returns (m: Matrix)
    requires forall p :: 0 <= p < |order| ==> 0 <= order[p] < |order|
    ensures m == MatrixOf(order)
  {
    var n := |order|;
    m := [];
    var i := 0;
    while i < n
      invariant 0 <= i <= n && |m| == i
      invariant forall r :: 0 <= r < i ==> |m[r]| == n && forall c :: 0 <= c < n ==> !m[r][c]
    {
      var row: seq<bool> := [];
      var j := 0;
      while j < n
        invariant 0 <= j <= n && |row| == j
        invariant forall c :: 0 <= c < j ==> !row[c]
      {
        row := row + [false];
        j := j + 1;
      }
      m := m + [row];
      i := i + 1;
    }
    var position := 0;
    while position < n
      invariant 0 <= position <= n && |m| == n && IsSquare(m)
      invariant forall r, c :: 0 <= r < n && 0 <= c < n ==> (m[r][c] <==> c < position && order[c] == r)
    {
      var orderIndex := order[position];
      m := m[orderIndex := m[orderIndex][position := true]];
      position := position + 1;
    }
    var target := MatrixOf(order);
    forall r | 0 <= r < n ensures m[r] == target[r] {
    }
  }

  class BinaryChromosome {
    var genes: Matrix

    ghost predicate Valid()
      reads this
    {
      IsSquare(genes)
    }

    /** The no-argument constructor: no genes yet. */
    constructor Empty()
      ensures Valid() && genes == []
    {
      genes := [];
    }

    /** The copying constructor; the copy shares nothing with the argument. */
    constructor (genes: Matrix)
      requires IsSquare(genes)
      ensures Valid() && this.genes == genes
    {
      this.genes := genes;
    }

    /** `getDeliverySequence`: each column left to right, the first row holding true. */
    method DeliverySequence() returns (sequence: seq<int>)
      requires Valid()
      ensures sequence == Decode(genes)
      ensures IsPermutationMatrix(genes) ==> IsPermutation(sequence, 0, |genes|)
    {
      sequence := [];
      var numOrders := |genes|;
      var position := 0;
      while position < numOrders
        invariant 0 <= position <= numOrders
        invariant sequence == DecodePrefix(genes, position)
      {
        var order := 0;
        while order < numOrders && !genes[order][position]
          invariant 0 <= order <= numOrders
          invariant forall k :: 0 <= k < order ==> !genes[k][position]
        {
          order := order + 1;
        }
        assert order == FirstTrueRow(genes, position, 0);
        if order < numOrders {
          sequence := sequence + [order];
        }
        position := position + 1;
      }
      if IsPermutationMatrix(genes) {
        DecodePermutationMatrix(genes);
      }
    }

    /**
      `generateGenes(n)`: a fresh n-by-n matrix marking a shuffled ordering of 0..n-1; the
      shuffle's draws are given.
    */
    method GenerateGenes(numberOfGenes: nat, shuffleDraws: seq<nat>)
      requires |shuffleDraws| + 1 >= numberOfGenes
      modifies this
      ensures Valid()
      ensures genes == MatrixOf(Shuffle(Range(0, numberOfGenes), numberOfGenes, shuffleDraws))
      ensures IsPermutationMatrix(genes) && |genes| == numberOfGenes
      ensures Decode(genes) == Shuffle(Range(0, numberOfGenes), numberOfGenes, shuffleDraws)
    {
      var orderIndices: seq<int> := [];
      var i := 0;
      while i < numberOfGenes
        invariant 0 <= i <= numberOfGenes && orderIndices == Range(0, i)
      {
        orderIndices := orderIndices + [i];
        i := i + 1;
      }
      RangeIsPermutation(0, numberOfGenes);
      ShuffleKeepsPermutation(orderIndices, 0, numberOfGenes, shuffleDraws);
      orderIndices := Shuffle(orderIndices, numberOfGenes, shuffleDraws);
      genes := MatrixFromOrder(orderIndices);
      MatrixOfPermutation(orderIndices);
    }

    /**
      `mutateMethod1`: unless the draw exceeds the probability or there are fewer than two
      positions, two distinct positions exchange the rows visited there.
    */
    method MutateMethod1(probability: real, draw: Draw, pos1Draw: nat, pos2Draw: nat)
      requires Valid()
      modifies this
      ensures Valid()
      ensures draw > probability || |old(genes)| < 2 ==> genes == old(genes)
      ensures !(draw > probability || |old(genes)| < 2) ==>
        var pos1 := NextInt(pos1Draw, |old(genes)|);
        genes == ColumnSwap(old(genes), pos1, OtherPosition(pos1, pos2Draw, |old(genes)|))
    {
      if draw > probability {
        return;
      }
      var size := |genes|;
      if size < 2 {
        return;
      }
      var pos1 := NextInt(pos1Draw, size);
      var pos2 := OtherPosition(pos1, pos2Draw, size);
      var g := genes;
      var order1, order2 := -1, -1;
      var i := 0;
      while i < size
        invariant 0 <= i <= size
        invariant order1 == LastTrueRow(g, pos1, i)
        invariant order2 == LastTrueRow(g, pos2, i)
      {
        if g[i][pos1] {
          order1 := i;
        }
        if g[i][pos2] {
          order2 := i;
        }
        i := i + 1;
      }
      if order1 != -1 && order2 != -1 {
        g := SetCell(g, order1, pos1, false);
        g := SetCell(g, order1, pos2, true);
        g := SetCell(g, order2, pos2, false);
        g := SetCell(g, order2, pos1, true);
      }
      genes := g;
    }

    /** `mutateMethod2` is empty in this encoding. */
    method MutateMethod2(probability: real)
      modifies this
      ensures genes == old(genes)
    {
    }

    /** `setGenes`: replaces the matrix by a copy of the argument. */
    method SetGenes(newGenes: Matrix)
      requires IsSquare(newGenes)
      modifies this
      ensures Valid() && genes == newGenes
    {
      genes := newGenes;
    }

    /** `clone`: a new chromosome with an equal, independent matrix. */
    method Clone() returns (c: BinaryChromosome)
      requires Valid()
      ensures fresh(c) && c.Valid() && c.genes == genes
    {
      c := new BinaryChromosome(genes);
    }

    /** `getNumberOfDeliveries`: the length of the decoded sequence, n for a permutation matrix. */
    method NumberOfDeliveries() returns (count: nat)
      requires Valid()
      ensures count == |Decode(genes)|
      ensures IsPermutationMatrix(genes) ==> count == |genes|
    {
      var sequence := DeliverySequence();
      count := |sequence|;
    }
  }

  /**
    Mutation keeps the invariant: on a permutation matrix `mutateMethod1` yields a permutation
    matrix whose decoding is the old one with the two drawn positions swapped.
  */
  lemma MutationKeepsPermutationMatrix(m: Matrix, pos1Draw: nat, pos2Draw: nat)
    requires IsPermutationMatrix(m) && |m| >= 2
    ensures |Decode(m)| == |m|
    ensures var pos1 := NextInt(pos1Draw, |m|);
      var pos2 := OtherPosition(pos1, pos2Draw, |m|);
      IsPermutationMatrix(ColumnSwap(m, pos1, pos2))
      && Decode(ColumnSwap(m, pos1, pos2)) == Swap(Decode(m), pos1, pos2)
  {
    var pos1 := NextInt(pos1Draw, |m|);
    ColumnSwapSwapsDecoding(m, pos1, OtherPosition(pos1, pos2Draw, |m|));
  }
}
