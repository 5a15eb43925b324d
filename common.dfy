/**
  Shared vocabulary of the model: error results standing for the exceptions the engine throws,
  random draws made explicit, and permutations of integer ranges (the invariant every
  genotype's decoded visiting order must keep).
*/
module Common {

  datatype Option<T> = None | Some(value: T)

  /** The exceptions of the engine, by Java class, with a short reason. */
  datatype Failure =
    | IllegalArgument(reason: string)
    | IllegalState(reason: string)
    | IndexOutOfBounds(index: int)
    | ClassCast(reason: string)

  datatype Result<T> = Ok(value: T) | Err(failure: Failure)

  /** A draw of `Random.nextDouble()`: a real in [0, 1). */
  type Draw = r: real | 0.0 <= r < 1.0 witness 0.0

  /**
    A draw of `Random.nextInt(bound)`. The model takes an arbitrary natural number from the
    caller and reduces it by the bound, so that every index in [0, bound) can be drawn.
  */
  function NextInt(raw: nat, bound: int): (r: nat)
    requires bound > 0
    ensures r < bound
  {
    raw % bound
  }

  /** The sequence lo, lo + 1, ..., lo + n - 1. */
  function Range(lo: int, n: nat): (r: seq<int>)
    ensures |r| == n
    ensures forall i :: 0 <= i < n ==> r[i] == lo + i
  {
    if n == 0 then [] else Range(lo, n - 1) + [lo + n - 1]
  }

  predicate Distinct<T(==)>(s: seq<T>) {
    forall i, j :: 0 <= i < j < |s| ==> s[i] != s[j]
  }

  /** `s` is an ordering of lo, ..., lo + n - 1: n distinct values, all in that range. */
  predicate IsPermutation(s: seq<int>, lo: int, n: nat) {
    |s| == n && Distinct(s) && forall i :: 0 <= i < |s| ==> lo <= s[i] < lo + n
  }

  function Swap<T>(s: seq<T>, i: nat, j: nat): (r: seq<T>)
    requires i < |s| && j < |s|
    ensures |r| == |s| && r[i] == s[j] && r[j] == s[i]
    ensures forall k :: 0 <= k < |s| && k != i && k != j ==> r[k] == s[k]
    ensures multiset(r) == multiset(s)
  {
    s[i := s[j]][j := s[i]]
  }

  lemma SwapKeepsPermutation(s: seq<int>, lo: int, n: nat, i: nat, j: nat)
    requires IsPermutation(s, lo, n) && i < n && j < n
    ensures IsPermutation(Swap(s, i, j), lo, n)
  {
  }

  lemma RangeIsPermutation(lo: int, n: nat)
    ensures IsPermutation(Range(lo, n), lo, n)
  {
  }

  function ValueSet(s: seq<int>): set<int> {
    set x | x in s
  }

  lemma ValueSetAppend(s: seq<int>, x: int)
    ensures ValueSet(s + [x]) == ValueSet(s) + {x}
  {
  }

  lemma {:induction false} DistinctValueSetSize(s: seq<int>)
    requires Distinct(s)
    ensures |ValueSet(s)| == |s|
  {
    if s != [] {
      var p := s[..|s| - 1];
      DistinctValueSetSize(p);
      assert ValueSet(s) == ValueSet(p) + {s[|s| - 1]};
      assert s[|s| - 1] !in ValueSet(p);
    }
  }

  lemma SubsetSize(a: set<int>, b: set<int>)
    requires a <= b
    ensures |a| <= |b|
    ensures |a| == |b| ==> a == b
  {
    assert b == a + (b - a);
    assert a * (b - a) == {};
    if |a| == |b| {
      assert |b - a| == 0;
      assert b - a == {};
    }
  }

  /** The pigeonhole step: n distinct values in a range of n values leave none of it out. */
  lemma PermutationCovers(s: seq<int>, lo: int, n: nat)
    requires IsPermutation(s, lo, n)
    ensures forall v :: lo <= v < lo + n ==> v in s
  {
    var range := Range(lo, n);
    DistinctValueSetSize(s);
    DistinctValueSetSize(range);
    forall v | v in ValueSet(s) ensures v in ValueSet(range) {
      assert range[v - lo] == v;
    }
    SubsetSize(ValueSet(s), ValueSet(range));
    forall v | lo <= v < lo + n ensures v in s {
      assert range[v - lo] == v;
      assert v in ValueSet(range);
    }
  }

  /** Any two orderings of the same range are rearrangements of each other. */
  lemma PermutationsSameMultiset(s: seq<int>, t: seq<int>, lo: int, n: nat)
    requires IsPermutation(s, lo, n) && IsPermutation(t, lo, n)
    ensures multiset(s) == multiset(t)
  {
    PermutationCovers(s, lo, n);
    PermutationCovers(t, lo, n);
    forall v ensures multiset(s)[v] == multiset(t)[v] {
      DistinctCount(s, v);
      DistinctCount(t, v);
    }
  }

  lemma {:induction false} DistinctCount(s: seq<int>, v: int)
    requires Distinct(s)
    ensures multiset(s)[v] == if v in s then 1 else 0
  {
    if s != [] {
      var p := s[..|s| - 1];
      assert s == p + [s[|s| - 1]];
      DistinctCount(p, v);
      assert v == s[|s| - 1] ==> v !in p;
    }
  }

  /** The slot after a, wrapping round at n. */
  function NextSlot(a: nat, n: nat): (b: nat)
    requires a < n
    ensures b < n
  {
    if a + 1 < n then a + 1 else 0
  }

  /** `NextSlot` is the source's `(a + 1) % n`. */
  lemma NextSlotIsRemainder(a: nat, n: nat)
    requires a < n
    ensures NextSlot(a, n) == (a + 1) % n
  {
  }

  /** The points among the first t of `s` that are not in `used`, in the order of `s`. */
  function Kept(s: seq<int>, used: set<int>, t: nat): (r: seq<int>)
    requires t <= |s|
    ensures |r| <= t
  {
    if t == 0 then [] else Kept(s, used, t - 1) + (if s[t - 1] in used then [] else [s[t - 1]])
  }

  lemma {:induction false} KeptMembers(s: seq<int>, used: set<int>, t: nat)
    requires t <= |s|
    ensures forall x :: x in Kept(s, used, t) <==> x in s[..t] && x !in used
  {
    if t > 0 {
      KeptMembers(s, used, t - 1);
      assert s[..t] == s[..t - 1] + [s[t - 1]];
    }
  }

  /** Over distinct points, the points kept are the ones that enlarge `used`. */
  lemma {:induction false} KeptCount(s: seq<int>, used: set<int>, t: nat)
    requires t <= |s| && Distinct(s)
    ensures |used + ValueSet(s[..t])| == |used| + |Kept(s, used, t)|
  {
    if t > 0 {
      KeptCount(s, used, t - 1);
      var x := s[t - 1];
      var before := used + ValueSet(s[..t - 1]);
      assert s[..t] == s[..t - 1] + [x];
      ValueSetAppend(s[..t - 1], x);
      assert used + ValueSet(s[..t]) == before + {x};
      if x in used {
        assert before + {x} == before;
      } else {
        assert x !in s[..t - 1] by {
          forall j | 0 <= j < t - 1 ensures s[j] != x {
          }
        }
        assert x !in before;
      }
    }
  }

  lemma {:induction false} KeptDistinct(s: seq<int>, used: set<int>, t: nat)
    requires t <= |s| && Distinct(s)
    ensures Distinct(Kept(s, used, t))
  {
    if t > 0 {
      KeptDistinct(s, used, t - 1);
      KeptMembers(s, used, t - 1);
      var k := Kept(s, used, t - 1);
      forall j | 0 <= j < t - 1 ensures s[j] != s[t - 1] {
      }
      assert s[t - 1] !in s[..t - 1];
      assert s[t - 1] !in k;
    }
  }

  /**
    The static `instance` field behind each `getInstance` pair of the fitness evaluators and of
    `IntegerCrossover`: the initialising call creates the instance only the first time, and the
    reading call throws IllegalStateException while there is none.
  */
  class InstanceHolder<T> {
    var instance: Option<T>

    constructor ()
      ensures instance == None
    {
      instance := None;
    }

    /** `getInstance(args)`: later arguments are ignored once an instance exists. */
    method GetInstanceWith(candidate: T) returns (r: T)
      modifies this
      ensures old(instance).None? ==> instance == Some(candidate)
      ensures old(instance).Some? ==> instance == old(instance)
      ensures r == instance.value
    {
      if instance.None? {
        instance := Some(candidate);
      }
      r := instance.value;
    }

    /** `getInstance()`: fails before initialisation, otherwise yields the stored instance. */
    method GetInstance() returns (r: Result<T>)
      ensures r.Err? <==> instance.None?
      ensures r.Err? ==> r.failure.IllegalState?
      ensures r.Ok? ==> Some(r.value) == instance
    {
      if instance.None? {
        r := Err(IllegalState("not initialized"));
      } else {
        r := Ok(instance.value);
      }
    }

    method ResetInstance()
      modifies this
      ensures instance == None
    {
      instance := None;
    }
  }
}
