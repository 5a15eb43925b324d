/**
  The random-key encoding (src/Chromosomes/FloatingPointChromosome.java): one key in [0, 1] per
  delivery point; the visiting order lists the points 1..n by decreasing key. Keys are reals.
*/
module FloatingChromosomes {
  import opened Common
  import opened Pairs

  /** The draws of one `uniformMutation` call: the probability test, r11 and the factor of r12. */
  datatype UniformDraw = UniformDraw(coin: Draw, r11: Draw, r12: Draw)

  /**
    The draws of one `nonUniformMutation` call: the probability test, `nextBoolean` and the
    factor `1 - r^((1 - gen/maxGen)^5)` the step is scaled by.
  */
  datatype NonUniformDraw = NonUniformDraw(coin: Draw, up: bool, factor: real)

  /** `Math.max(0.0, Math.min(1.0, x))`. */
  function Clamp(x: real): (r: real)
    ensures 0.0 <= r <= 1.0
    ensures 0.0 <= x <= 1.0 ==> r == x
    ensures x < 0.0 ==> r == 0.0
    ensures x > 1.0 ==> r == 1.0
  {
    if x > 1.0 then 1.0 else if x < 0.0 then 0.0 else x
  }

  /**
    `uniformMutation` on one key. When the probability test passes, r11 <= 0.5 moves the key
    toward 0 by r12 times its distance to 0, otherwise toward 1 by r12 times its distance to 1,
    and the result is clamped.
  */
  function UniformMutation(gene: real, probability: real, d: UniformDraw): (r: real)
    ensures d.coin >= probability ==> r == gene
    ensures d.coin < probability ==> 0.0 <= r <= 1.0
    ensures d.coin < probability && 0.0 <= gene <= 1.0 && d.r11 <= 0.5 ==> 0.0 <= r <= gene
    ensures d.coin < probability && 0.0 <= gene <= 1.0 && d.r11 > 0.5 ==> gene <= r <= 1.0
  {
    if d.coin < probability then
      var moveLeft := d.r11 <= 0.5;
      var delta := if moveLeft then gene - 0.0 else 1.0 - gene;
      var r12 := d.r12 * delta;
      ScaleWithin(d.r12, delta);
      Clamp(if moveLeft then gene - r12 else gene + r12)
    else gene
  }

  /** `nonUniformMutation` on one key, with the power schedule given as the draw's factor. */
  function NonUniformMutation(gene: real, probability: real, d: NonUniformDraw): (r: real)
    ensures d.coin >= probability ==> r == gene
    ensures d.coin < probability ==> 0.0 <= r <= 1.0
    ensures d.coin < probability && 0.0 <= gene <= 1.0 && 0.0 <= d.factor <= 1.0 && d.up ==> gene <= r
    ensures d.coin < probability && 0.0 <= gene <= 1.0 && 0.0 <= d.factor <= 1.0 && !d.up ==> r <= gene
  {
    if d.coin < probability then
      ScaleWithin(d.factor, 1.0 - gene);
      ScaleWithin(d.factor, gene);
      if d.up then Clamp(gene + (1.0 - gene) * d.factor) else Clamp(gene - (gene - 0.0) * d.factor)
    else gene
  }

  /** A fraction of a non-negative quantity lies between 0 and that quantity. */
  lemma ScaleWithin(f: real, y: real)
    ensures 0.0 <= f <= 1.0 && 0.0 <= y ==> 0.0 <= f * y <= y
    ensures 0.0 <= f <= 1.0 && 0.0 <= y ==> 0.0 <= y * f <= y
  {
    if 0.0 <= f <= 1.0 && 0.0 <= y {
      assert y - f * y == (1.0 - f) * y;
      assert (1.0 - f) * y >= 0.0;
    }
  }

  predicate KeysInUnitInterval(genes: seq<real>) {
    forall i :: 0 <= i < |genes| ==> 0.0 <= genes[i] <= 1.0
  }

  /** The pair `new Pair(genes[i], i + 1)` built by the decoder for point i + 1. */
  function KeyPair(genes: seq<real>, point: int): Pair
    requires 1 <= point <= |genes|
  {
    Pair(genes[point - 1], point)
  }

  /**
    The decoder's promise: `order` lists 1..n, and along it each pair comes before the next in
    `Collections.reverseOrder()` order, so keys never increase and equal keys put the larger
    point first.
  */
  predicate IsKeyOrder(genes: seq<real>, order: seq<int>) {
    && IsPermutation(order, 1, |genes|)
    && forall i, j :: 0 <= i < j < |order| ==> Before(KeyPair(genes, order[i]), KeyPair(genes, order[j]))
  }

  /** The key order read along the output: keys non-increasing, and larger point first on equal keys. */
  lemma KeyOrderIsDescending(genes: seq<real>, order: seq<int>)
    requires IsKeyOrder(genes, order)
    ensures forall i, j :: 0 <= i < j < |order| ==> genes[order[i] - 1] >= genes[order[j] - 1]
    ensures forall i, j :: 0 <= i < j < |order| && genes[order[i] - 1] == genes[order[j] - 1] ==> order[i] > order[j]
  {
    forall i, j | 0 <= i < j < |order|
      ensures genes[order[i] - 1] >= genes[order[j] - 1]
      ensures genes[order[i] - 1] == genes[order[j] - 1] ==> order[i] > order[j]
    {
      assert Before(KeyPair(genes, order[i]), KeyPair(genes, order[j]));
    }
  }

  /** The key order is unique: two outputs sorted the same way agree, whatever duplicate keys there are. */
  lemma KeyOrderUnique(genes: seq<real>, a: seq<int>, b: seq<int>)
    requires IsKeyOrder(genes, a) && IsKeyOrder(genes, b)
    ensures a == b
  {
    var n := |genes|;
    forall k | 0 <= k < n ensures a[k] == b[k] {
      // A point's place is the number of points that go before it, in either order.
      RankOf(genes, a, k);
      RankOf(genes, b, k);
      if a[k] != b[k] {
        if Before(KeyPair(genes, a[k]), KeyPair(genes, b[k])) {
          PredecessorsGrow(genes, a[k], b[k]);
        } else {
          PredecessorsGrow(genes, b[k], a[k]);
        }
      }
    }
  }

  /** The set of points that go before `point` in reverse pair order. */
  function Predecessors(genes: seq<real>, point: int): set<int>
    requires 1 <= point <= |genes|
  {
    set q | 1 <= q <= |genes| && Before(KeyPair(genes, q), KeyPair(genes, point))
  }

  /** In a correctly sorted output, the point at place k has exactly k predecessors. */
  lemma RankOf(genes: seq<real>, order: seq<int>, k: nat)
    requires IsKeyOrder(genes, order) && k < |order|
    ensures |Predecessors(genes, order[k])| == k
  {
    var p := order[k];
    var prefix := order[..k];
    PermutationCovers(order, 1, |genes|);
    forall q | q in Predecessors(genes, p) ensures q in ValueSet(prefix) {
      assert q in order;
      var j :| 0 <= j < |order| && order[j] == q;
      assert k < j ==> Before(KeyPair(genes, p), KeyPair(genes, q));
      assert j < k;
      assert prefix[j] == q;
    }
    forall q | q in ValueSet(prefix) ensures q in Predecessors(genes, p) {
      var j :| 0 <= j < k && prefix[j] == q;
      assert order[j] == q;
    }
    assert Predecessors(genes, p) == ValueSet(prefix);
    assert Distinct(prefix) by {
      forall i, j | 0 <= i < j < |prefix| ensures prefix[i] != prefix[j] {
        assert prefix[i] == order[i] && prefix[j] == order[j];
      }
    }
    DistinctValueSetSize(prefix);
  }

  /** A point that goes before another has strictly fewer predecessors. */
  lemma PredecessorsGrow(genes: seq<real>, p: int, q: int)
    requires 1 <= p <= |genes| && 1 <= q <= |genes|
    requires Before(KeyPair(genes, p), KeyPair(genes, q))
    ensures |Predecessors(genes, p)| < |Predecessors(genes, q)|
  {
    var pp := Predecessors(genes, p);
    var pq := Predecessors(genes, q);
    forall x | x in pp ensures x in pq {
      CompareTransitive(KeyPair(genes, q), KeyPair(genes, p), KeyPair(genes, x));
    }
    assert p in pq && p !in pp;
    SubsetSize(pp, pq);
  }

  predicate SortedPairs(arr: seq<Pair>) {
    forall i, j :: 0 <= i < j < |arr| ==> Before(arr[i], arr[j])
  }

  /** Insertion into a list in reverse pair order: `p` goes before the first pair it beats. */
  function InsertPair(arr: seq<Pair>, p: Pair): (r: seq<Pair>)
    requires SortedPairs(arr) && p !in arr
    ensures SortedPairs(r) && |r| == |arr| + 1
    ensures forall x :: x in r <==> x in arr || x == p
  {
    if arr == [] then [p]
    else if Before(arr[0], p) then
      var rest := InsertPair(arr[1..], p);
      assert forall x :: x in rest ==> Before(arr[0], x) by {
        forall x | x in rest ensures Before(arr[0], x) {
          if x != p {
            var j :| 0 <= j < |arr[1..]| && arr[1..][j] == x;
            assert arr[j + 1] == x;
          }
        }
      }
      [arr[0]] + rest
    else
      assert Before(p, arr[0]);
      assert forall j :: 0 < j < |arr| ==> Before(p, arr[j]) by {
        forall j | 0 < j < |arr| ensures Before(p, arr[j]) {
          CompareTransitive(arr[j], arr[0], p);
        }
      }
      [p] + arr
  }

  /** The pairs of points 1..i in reverse pair order: what `Collections.sort` leaves in `arr`. */
  function SortPairs(genes: seq<real>, i: nat): (r: seq<Pair>)
    requires i <= |genes|
    ensures SortedPairs(r) && |r| == i
    ensures forall x :: x in r <==> 1 <= x.idx <= i && x == KeyPair(genes, x.idx)
  {
    if i == 0 then []
    else
      var prev := SortPairs(genes, i - 1);
      InsertPair(prev, Pair(genes[i - 1], i))
  }

  /** The decoded visiting order as a function of the keys. */
  function KeyDecode(genes: seq<real>): (order: seq<int>)
    ensures IsKeyOrder(genes, order)
  {
    var arr := SortPairs(genes, |genes|);
    var order := seq(|arr|, k requires 0 <= k < |arr| => arr[k].idx);
    assert forall k :: 0 <= k < |arr| ==> arr[k] in arr && KeyPair(genes, order[k]) == arr[k];
    order
  }

  /** Insertion of `p` into a list kept in reverse pair order, before the first pair it beats. */
  method InsertDescending(arr: seq<Pair>, p: Pair) returns (r: seq<Pair>, k: nat)
    requires forall i, j :: 0 <= i < j < |arr| ==> Before(arr[i], arr[j])
    requires forall i :: 0 <= i < |arr| ==> arr[i] != p
    ensures k <= |arr| && r == arr[..k] + [p] + arr[k..]
    ensures forall i, j :: 0 <= i < j < |r| ==> Before(r[i], r[j])
  {
    k := 0;
    while k < |arr| && Before(arr[k], p)
      invariant 0 <= k <= |arr|
      invariant forall i :: 0 <= i < k ==> Before(arr[i], p)
    {
      k := k + 1;
    }
    r := arr[..k] + [p] + arr[k..];
    if k < |arr| {
      assert Before(p, arr[k]);
      forall j | k < j < |arr| ensures Before(p, arr[j]) {
        CompareTransitive(arr[j], arr[k], p);
      }
    }
    forall i, j | 0 <= i < j < |r| ensures Before(r[i], r[j]) {
      if i < k && j > k {
        CompareTransitive(r[j], p, r[i]);
      }
    }
  }

  class FloatingPointChromosome {
    var genes: seq<real>

    /** The list constructor: a copy of the given keys. */
    constructor (genes: seq<real>)
      ensures this.genes == genes
    {
      this.genes := genes;
    }

    constructor Empty()
      ensures genes == []
    {
      genes := [];
    }

    /** `mutateMethod1(p)`: uniform mutation of every key in turn, one set of draws per key. */
    method MutateMethod1(probability: real, draws: seq<UniformDraw>)
      requires |draws| >= |genes|
      modifies this
      ensures |genes| == |old(genes)|
      ensures forall i :: 0 <= i < |genes| ==> genes[i] == UniformMutation(old(genes)[i], probability, draws[i])
      ensures KeysInUnitInterval(old(genes)) ==> KeysInUnitInterval(genes)
    {
      var i := 0;
      while i < |genes|
        invariant 0 <= i <= |genes| == |old(genes)|
        invariant forall k :: 0 <= k < i ==> genes[k] == UniformMutation(old(genes)[k], probability, draws[k])
        invariant forall k :: i <= k < |genes| ==> genes[k] == old(genes)[k]
      {
        genes := genes[i := UniformMutation(genes[i], probability, draws[i])];
        i := i + 1;
      }
    }

    /**
      `mutateMethod2(p, gen, maxGen)`: non-uniform mutation of every key in turn; each mutated
      key is clamped to [0, 1].
    */
    method MutateMethod2(probability: real, draws: seq<NonUniformDraw>)
      requires |draws| >= |genes|
      modifies this
      ensures |genes| == |old(genes)|
      ensures forall i :: 0 <= i < |genes| ==> genes[i] == NonUniformMutation(old(genes)[i], probability, draws[i])
      ensures KeysInUnitInterval(old(genes)) ==> KeysInUnitInterval(genes)
    {
      var i := 0;
      while i < |genes|
        invariant 0 <= i <= |genes| == |old(genes)|
        invariant forall k :: 0 <= k < i ==> genes[k] == NonUniformMutation(old(genes)[k], probability, draws[k])
        invariant forall k :: i <= k < |genes| ==> genes[k] == old(genes)[k]
      {
        genes := genes[i := NonUniformMutation(genes[i], probability, draws[i])];
        i := i + 1;
      }
    }

    /** `generateGenes(n)`: appends n drawn keys to whatever keys are already there. */
    method GenerateGenes(numberOfGenes: nat, draws: seq<Draw>)
      requires |draws| >= numberOfGenes
      modifies this
      ensures genes == old(genes) + draws[..numberOfGenes]
      ensures |genes| == |old(genes)| + numberOfGenes
    {
      var i := 0;
      while i < numberOfGenes
        invariant 0 <= i <= numberOfGenes
        invariant genes == old(genes) + draws[..i]
      {
        genes := genes + [draws[i] as real];
        assert draws[..i + 1] == draws[..i] + [draws[i]];
        i := i + 1;
      }
    }

    /**
      `getDeliverySequence`: pair every key with its point i + 1, sort in reverse pair order and
      read off the points.
    */
    method DeliverySequence() returns (sequence: seq<int>)
      ensures sequence == KeyDecode(genes)
      ensures IsKeyOrder(genes, sequence)
    {
      var n := |genes|;
      var arr: seq<Pair> := [];
      var i := 0;
      while i < n
        invariant 0 <= i <= n && |arr| == i
        invariant forall a, b :: 0 <= a < b < |arr| ==> Before(arr[a], arr[b])
        invariant forall a :: 0 <= a < |arr| ==> 1 <= arr[a].idx <= i && arr[a] == KeyPair(genes, arr[a].idx)
      {
        var p := Pair(genes[i], i + 1);
        var k;
        arr, k := InsertDescending(arr, p);
        i := i + 1;
      }
      sequence := [];
      var j := 0;
      while j < n
        invariant 0 <= j <= n && |sequence| == j
        invariant forall a :: 0 <= a < j ==> sequence[a] == arr[a].idx
      {
        sequence := sequence + [arr[j].idx];
        j := j + 1;
      }
      forall a, b | 0 <= a < b < n ensures sequence[a] != sequence[b] {
        assert Before(arr[a], arr[b]);
      }
      assert forall a :: 0 <= a < n ==> KeyPair(genes, sequence[a]) == arr[a];
      KeyOrderUnique(genes, sequence, KeyDecode(genes));
    }

    /** `clone`: a new chromosome holding an equal copy of the keys. */
    method Clone() returns (c: FloatingPointChromosome)
      ensures fresh(c) && c.genes == genes
    {
      c := new FloatingPointChromosome(genes);
    }

    /** `getGenes`: a copy of the keys; changing it does not change the chromosome. */
    method GetGenes() returns (keys: seq<real>)
      ensures keys == genes
    {
      keys := genes;
    }
  }
}
