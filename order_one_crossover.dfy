/**
  Order-one crossover on the matrix encoding (src/Crossover/OrderOneCrossover.java). The child
  keeps parent1's segment [cut1, cut2] in place; the other slots, from cut2 + 1 on and wrapping
  round, take parent2's remaining points in parent2's own order from cut2 + 1 on.
*/
module OrderOneCrossover {
  import opened Common
  import opened BinaryChromosomes
  import opened Genotypes

  /** The slot `o` steps after cut2 (`(cut2 + 1 + o) % n` in the source). */
  function SlotAt(o: nat, cut2: nat, n: nat): (i: nat)
    requires cut2 < n && o <= n
    ensures i <= n && (o < n ==> i < n)
  {
    if cut2 + 1 + o < n then cut2 + 1 + o else cut2 + 1 + o - n
  }

  /** How many steps after cut2 slot i lies: the inverse of `SlotAt`. */
  function Offset(i: nat, cut2: nat, n: nat): (o: nat)
    requires cut2 < n && i < n
    ensures o < n
  {
    if i > cut2 then i - (cut2 + 1) else i + n - (cut2 + 1)
  }

  /** One more step after cut2 is the next slot, wrapping at n. */
  lemma SlotAtNext(o: nat, cut2: nat, n: nat)
    requires cut2 < n && o + 1 < n
    ensures SlotAt(o + 1, cut2, n) == NextSlot(SlotAt(o, cut2, n), n)
  {
  }

  /** `parent2` read cyclically starting at the slot after cut2. */
  function CyclicFrom(s: seq<int>, cut2: nat): (r: seq<int>)
    requires cut2 < |s|
    ensures |r| == |s|
    ensures forall j :: 0 <= j < |s| ==> r[j] == s[SlotAt(j, cut2, |s|)]
  {
    seq(|s|, j requires 0 <= j < |s| => s[SlotAt(j, cut2, |s|)])
  }

  /** The segment [cut1, cut2] of parent1 that the child keeps. */
  function Segment(p: seq<int>, cut1: nat, cut2: nat): seq<int>
    requires cut1 <= cut2 < |p|
  {
    p[cut1..cut2 + 1]
  }

  /** Parent2's points outside the kept segment, cyclically from the slot after cut2. */
  function Fill(p1: seq<int>, p2: seq<int>, cut1: nat, cut2: nat): seq<int>
    requires cut1 <= cut2 < |p1| == |p2|
  {
    Kept(CyclicFrom(p2, cut2), ValueSet(Segment(p1, cut1, cut2)), |p2|)
  }

  /** The child of `createOffspring(parent1, parent2, cut1, cut2)`; a slot the fill never reaches keeps -1. */
  function Child(p1: seq<int>, p2: seq<int>, cut1: nat, cut2: nat): (c: seq<int>)
    requires cut1 <= cut2 < |p1| == |p2|
    ensures |c| == |p1|
  {
    var n := |p1|;
    var fill := Fill(p1, p2, cut1, cut2);
    seq(n, i requires 0 <= i < n =>
      if cut1 <= i <= cut2 then p1[i]
      else if Offset(i, cut2, n) < |fill| then fill[Offset(i, cut2, n)]
      else -1)
  }

  /** The slots outside the segment are exactly the first n - (cut2 - cut1 + 1) steps after cut2. */
  lemma SlotsOutsideSegment(cut1: nat, cut2: nat, n: nat)
    requires cut1 <= cut2 < n
    ensures forall o :: 0 <= o < n - (cut2 - cut1 + 1) ==>
      !(cut1 <= SlotAt(o, cut2, n) <= cut2) && Offset(SlotAt(o, cut2, n), cut2, n) == o
    ensures forall i :: 0 <= i < n && !(cut1 <= i <= cut2) ==>
      Offset(i, cut2, n) < n - (cut2 - cut1 + 1) && SlotAt(Offset(i, cut2, n), cut2, n) == i
  {
  }

  lemma CyclicFromPermutation(s: seq<int>, cut2: nat)
    requires cut2 < |s| && IsPermutation(s, 0, |s|)
    ensures IsPermutation(CyclicFrom(s, cut2), 0, |s|)
  {
    var r := CyclicFrom(s, cut2);
    forall i, j | 0 <= i < j < |r| ensures r[i] != r[j] {
      assert SlotAt(i, cut2, |s|) != SlotAt(j, cut2, |s|);
    }
  }

  /** The kept segment holds as many distinct points of 0..n-1 as it has slots. */
  lemma SegmentPoints(p1: seq<int>, cut1: nat, cut2: nat)
    requires cut1 <= cut2 < |p1| && IsPermutation(p1, 0, |p1|)
    ensures |ValueSet(Segment(p1, cut1, cut2))| == cut2 - cut1 + 1
    ensures ValueSet(Segment(p1, cut1, cut2)) <= ValueSet(Range(0, |p1|))
  {
    var seg := Segment(p1, cut1, cut2);
    forall i, j | 0 <= i < j < |seg| ensures seg[i] != seg[j] {
      assert seg[i] == p1[cut1 + i] && seg[j] == p1[cut1 + j];
    }
    DistinctValueSetSize(seg);
    forall x | x in seg ensures x in Range(0, |p1|) {
      assert Range(0, |p1|)[x] == x;
    }
  }

  /** The fill is parent2's points minus the segment's, each once. */
  lemma FillPoints(p1: seq<int>, p2: seq<int>, cut1: nat, cut2: nat)
    requires cut1 <= cut2 < |p1| == |p2|
    requires IsPermutation(p2, 0, |p2|)
    ensures Distinct(Fill(p1, p2, cut1, cut2))
    ensures ValueSet(Fill(p1, p2, cut1, cut2)) == ValueSet(Range(0, |p1|)) - ValueSet(Segment(p1, cut1, cut2))
  {
    var rot := CyclicFrom(p2, cut2);
    CyclicFromPermutation(p2, cut2);
    KeptDistinct(rot, ValueSet(Segment(p1, cut1, cut2)), |rot|);
    KeptMembers(rot, ValueSet(Segment(p1, cut1, cut2)), |rot|);
    assert rot[..|rot|] == rot;
    PermutationCovers(rot, 0, |p1|);
    forall x | x in rot ensures x in Range(0, |p1|) {
      assert Range(0, |p1|)[x] == x;
    }
  }

  /** The fill has exactly as many points as there are slots outside the segment, all distinct and none kept. */
  lemma FillProperties(p1: seq<int>, p2: seq<int>, cut1: nat, cut2: nat)
    requires cut1 <= cut2 < |p1| == |p2|
    requires IsPermutation(p1, 0, |p1|) && IsPermutation(p2, 0, |p2|)
    ensures |Fill(p1, p2, cut1, cut2)| == |p1| - (cut2 - cut1 + 1)
    ensures Distinct(Fill(p1, p2, cut1, cut2))
    ensures forall x :: x in Fill(p1, p2, cut1, cut2) ==> 0 <= x < |p1| && x !in Segment(p1, cut1, cut2)
  {
    var universe := ValueSet(Range(0, |p1|));
    var segSet := ValueSet(Segment(p1, cut1, cut2));
    SegmentPoints(p1, cut1, cut2);
    FillPoints(p1, p2, cut1, cut2);
    DistinctValueSetSize(Fill(p1, p2, cut1, cut2));
    DistinctValueSetSize(Range(0, |p1|));
    assert universe == (universe - segSet) + segSet;
    forall x | x in Fill(p1, p2, cut1, cut2) ensures 0 <= x < |p1| && x !in Segment(p1, cut1, cut2) {
      assert x in universe - segSet;
      var i :| 0 <= i < |p1| && Range(0, |p1|)[i] == x;
    }
  }

  /**
    The child keeps parent1's segment in place, takes the fill in the other slots cyclically
    from cut2 + 1, and is again an ordering of 0..n-1.
  */
  lemma ChildProperties(p1: seq<int>, p2: seq<int>, cut1: nat, cut2: nat)
    requires cut1 <= cut2 < |p1| == |p2|
    requires IsPermutation(p1, 0, |p1|) && IsPermutation(p2, 0, |p2|)
    ensures IsPermutation(Child(p1, p2, cut1, cut2), 0, |p1|)
    ensures forall i :: cut1 <= i <= cut2 ==> Child(p1, p2, cut1, cut2)[i] == p1[i]
    ensures forall o :: 0 <= o < |Fill(p1, p2, cut1, cut2)| ==>
      |p1| - (cut2 - cut1 + 1) == |Fill(p1, p2, cut1, cut2)| &&
      Child(p1, p2, cut1, cut2)[SlotAt(o, cut2, |p1|)] == Fill(p1, p2, cut1, cut2)[o]
  {
    var n := |p1|;
    var fill := Fill(p1, p2, cut1, cut2);
    var seg := Segment(p1, cut1, cut2);
    var c := Child(p1, p2, cut1, cut2);
    FillProperties(p1, p2, cut1, cut2);
    SlotsOutsideSegment(cut1, cut2, n);
    forall i, j | 0 <= i < j < n ensures c[i] != c[j] {
      var inI := cut1 <= i <= cut2;
      var inJ := cut1 <= j <= cut2;
      if inI && !inJ {
        assert c[i] == seg[i - cut1];
        assert c[j] in fill;
      } else if !inI && inJ {
        assert c[j] == seg[j - cut1];
        assert c[i] in fill;
      } else if !inI && !inJ {
        assert Offset(i, cut2, n) != Offset(j, cut2, n);
      }
    }
    forall i | 0 <= i < n ensures 0 <= c[i] < n {
      if !(cut1 <= i <= cut2) {
        assert c[i] in fill;
      }
    }
  }

  /** The offspring once `placed` fill points have been written after the copied segment. */
  ghost predicate PartialChild(o: seq<int>, p1: seq<int>, fill: seq<int>, cut1: nat, cut2: nat, placed: nat)
    requires cut1 <= cut2 < |p1|
  {
    |o| == |p1| && placed <= |fill| &&
    forall k :: 0 <= k < |o| ==>
      o[k] == if cut1 <= k <= cut2 then p1[k]
              else if Offset(k, cut2, |p1|) < placed then fill[Offset(k, cut2, |p1|)]
              else -1
  }

  /** Writing the next fill point into the next free slot extends the partial child by one. */
  lemma PlaceNext(o: seq<int>, p1: seq<int>, fill: seq<int>, cut1: nat, cut2: nat, placed: nat)
    requires cut1 <= cut2 < |p1| && |fill| == |p1| - (cut2 - cut1 + 1)
    requires PartialChild(o, p1, fill, cut1, cut2, placed) && placed < |fill|
    ensures PartialChild(o[SlotAt(placed, cut2, |p1|) := fill[placed]], p1, fill, cut1, cut2, placed + 1)
  {
    SlotsOutsideSegment(cut1, cut2, |p1|);
  }

  /** A -1 is left exactly while some fill point is still unplaced. */
  lemma HoleWhileUnplaced(o: seq<int>, p1: seq<int>, fill: seq<int>, cut1: nat, cut2: nat, placed: nat)
    requires cut1 <= cut2 < |p1| && |fill| == |p1| - (cut2 - cut1 + 1)
    requires forall i :: cut1 <= i <= cut2 ==> p1[i] != -1
    requires forall x :: x in fill ==> x != -1
    requires PartialChild(o, p1, fill, cut1, cut2, placed)
    ensures -1 in o <==> placed < |fill|
  {
    SlotsOutsideSegment(cut1, cut2, |p1|);
    if placed < |fill| {
      assert o[SlotAt(placed, cut2, |p1|)] == -1;
    } else {
      forall k | 0 <= k < |o| ensures o[k] != -1 {
        if !(cut1 <= k <= cut2) {
          assert o[k] in fill;
        }
      }
    }
  }

  /** The next gene of the cyclic scan is already used exactly when it belongs to the segment. */
  lemma UsedIsSegment(rot: seq<int>, segSet: set<int>, t: nat)
    requires Distinct(rot) && t < |rot|
    ensures rot[t] in segSet + ValueSet(rot[..t]) <==> rot[t] in segSet
  {
    assert rot[t] !in rot[..t];
  }

  /** Once every fill point is placed, the partial child is the child. */
  lemma CompleteChild(o: seq<int>, p1: seq<int>, p2: seq<int>, cut1: nat, cut2: nat)
    requires cut1 <= cut2 < |p1| == |p2|
    requires PartialChild(o, p1, Fill(p1, p2, cut1, cut2), cut1, cut2, |Fill(p1, p2, cut1, cut2)|)
    ensures o == Child(p1, p2, cut1, cut2)
  {
  }

  /** The first two loops of `createOffspring`: all slots -1, then parent1's segment copied and recorded. */
  method KeepSegment(parent1: seq<int>, cutPoint1: nat, cutPoint2: nat) returns (offspring: seq<int>, used: set<int>)
    requires cutPoint1 <= cutPoint2 < |parent1|
    ensures used == ValueSet(Segment(parent1, cutPoint1, cutPoint2))
    ensures forall f :: PartialChild(offspring, parent1, f, cutPoint1, cutPoint2, 0)
  {
    var size := |parent1|;
    offspring := [];
    var i := 0;
    while i < size
      invariant 0 <= i <= size && |offspring| == i
      invariant forall k :: 0 <= k < i ==> offspring[k] == -1
    {
      offspring := offspring + [-1];
      i := i + 1;
    }
    used := {};
    i := cutPoint1;
    while i <= cutPoint2
      invariant cutPoint1 <= i <= cutPoint2 + 1 && |offspring| == size
      invariant used == ValueSet(parent1[cutPoint1..i])
      invariant forall k :: 0 <= k < size ==> offspring[k] == if cutPoint1 <= k < i then parent1[k] else -1
    {
      assert parent1[cutPoint1..i + 1] == parent1[cutPoint1..i] + [parent1[i]];
      ValueSetAppend(parent1[cutPoint1..i], parent1[i]);
      offspring := offspring[i := parent1[i]];
      used := used + {parent1[i]};
      i := i + 1;
    }
  }

  /**
    What the scan of `createOffspring` relies on: `rot` is parent2 read cyclically from the slot
    after cut2 and holds distinct points, and the fill is what the scan keeps of `rot`.
  */
  ghost predicate ScanSetup(p1: seq<int>, p2: seq<int>, cut1: nat, cut2: nat,
                            segSet: set<int>, rot: seq<int>, fill: seq<int>)
  {
    cut1 <= cut2 < |p1| == |p2| == |rot| && Distinct(rot) &&
    (forall j :: 0 <= j < |rot| ==> rot[j] == p2[SlotAt(j, cut2, |p1|)]) &&
    fill == Kept(rot, segSet, |rot|) && |fill| == |p1| - (cut2 - cut1 + 1) &&
    (forall i :: cut1 <= i <= cut2 ==> p1[i] != -1) &&
    (forall x :: x in fill ==> x != -1)
  }

  lemma ScanSetupHolds(p1: seq<int>, p2: seq<int>, cut1: nat, cut2: nat)
    requires cut1 <= cut2 < |p1| == |p2|
    requires IsPermutation(p1, 0, |p1|) && IsPermutation(p2, 0, |p2|)
    ensures ScanSetup(p1, p2, cut1, cut2, ValueSet(Segment(p1, cut1, cut2)), CyclicFrom(p2, cut2), Fill(p1, p2, cut1, cut2))
  {
    FillProperties(p1, p2, cut1, cut2);
    CyclicFromPermutation(p2, cut2);
  }

  /**
    The state of `createOffspring`'s scan after t points of `rot` have been read and `placed`
    of them written: `pos` and `cur` are the scan and the write positions, and `used` holds the
    segment and every point read so far.
  */
  ghost predicate Scanning(p1: seq<int>, cut1: nat, cut2: nat, segSet: set<int>, rot: seq<int>, fill: seq<int>,
                           o: seq<int>, used: set<int>, cur: nat, pos: nat, t: nat, placed: nat)
    requires cut1 <= cut2 < |p1|
  {
    t <= |rot| && placed <= |fill| && placed <= |p1| &&
    (t < |p1| ==> pos == SlotAt(t, cut2, |p1|)) && cur == SlotAt(placed, cut2, |p1|) &&
    used == segSet + ValueSet(rot[..t]) && |used| == |segSet| + placed &&
    PartialChild(o, p1, fill, cut1, cut2, placed)
  }

  /** The scan starts after the copied segment, with nothing read and nothing written. */
  lemma ScanStarts(p1: seq<int>, cut1: nat, cut2: nat, segSet: set<int>, rot: seq<int>, fill: seq<int>, o: seq<int>)
    requires cut1 <= cut2 < |p1|
    requires PartialChild(o, p1, fill, cut1, cut2, 0)
    ensures Scanning(p1, cut1, cut2, segSet, rot, fill, o, segSet, NextSlot(cut2, |p1|), NextSlot(cut2, |p1|), 0, 0)
  {
    assert rot[..0] == [];
  }

  /** A -1 left means the scan has not wrapped round yet and both positions are slots. */
  lemma ScanGoesOn(p1: seq<int>, p2: seq<int>, cut1: nat, cut2: nat, segSet: set<int>, rot: seq<int>, fill: seq<int>,
                   o: seq<int>, used: set<int>, cur: nat, pos: nat, t: nat, placed: nat)
    requires ScanSetup(p1, p2, cut1, cut2, segSet, rot, fill)
    requires Scanning(p1, cut1, cut2, segSet, rot, fill, o, used, cur, pos, t, placed) && -1 in o
    ensures t < |p1| && placed < |fill| && placed == |Kept(rot, segSet, t)|
    ensures pos < |p1| && cur < |p1| && |o| == |p1| && p2[pos] == rot[t]
  {
    assert placed < |fill| && |o| == |p1| by {
      HoleWhileUnplaced(o, p1, fill, cut1, cut2, placed);
    }
    assert placed == |Kept(rot, segSet, t)| by {
      KeptCount(rot, segSet, t);
    }
    assert pos == SlotAt(t, cut2, |p1|) && cur == SlotAt(placed, cut2, |p1|);
  }

  /** A scanned point outside the segment is kept, at the next index, by every longer scan: it is the next fill point. */
  lemma {:induction false} FillGrows(rot: seq<int>, segSet: set<int>, t: nat, u: nat)
    requires t < u <= |rot| && rot[t] !in segSet
    ensures |Kept(rot, segSet, t)| < |Kept(rot, segSet, u)|
    ensures Kept(rot, segSet, u)[|Kept(rot, segSet, t)|] == rot[t]
    decreases u
  {
    if u > t + 1 {
      FillGrows(rot, segSet, t, u - 1);
    }
  }

  /** A point already used is skipped: only the scan position moves on. */
  lemma ScanSkips(p1: seq<int>, p2: seq<int>, cut1: nat, cut2: nat, segSet: set<int>, rot: seq<int>, fill: seq<int>,
                  o: seq<int>, used: set<int>, cur: nat, pos: nat, t: nat, placed: nat)
    requires ScanSetup(p1, p2, cut1, cut2, segSet, rot, fill)
    requires Scanning(p1, cut1, cut2, segSet, rot, fill, o, used, cur, pos, t, placed) && -1 in o
    requires pos < |p1| && p2[pos] in used
    ensures Scanning(p1, cut1, cut2, segSet, rot, fill, o, used, cur, NextSlot(pos, |p1|), t + 1, placed)
  {
    ScanGoesOn(p1, p2, cut1, cut2, segSet, rot, fill, o, used, cur, pos, t, placed);
    UsedIsSegment(rot, segSet, t);
    assert rot[..t + 1] == rot[..t] + [rot[t]];
    ValueSetAppend(rot[..t], rot[t]);
    if t + 1 < |p1| {
      SlotAtNext(t, cut2, |p1|);
    }
  }

  /** An unused point is written at the write position, recorded, and both positions move on. */
  lemma ScanPlaces(p1: seq<int>, p2: seq<int>, cut1: nat, cut2: nat, segSet: set<int>, rot: seq<int>, fill: seq<int>,
                   o: seq<int>, used: set<int>, cur: nat, pos: nat, t: nat, placed: nat)
    requires ScanSetup(p1, p2, cut1, cut2, segSet, rot, fill)
    requires Scanning(p1, cut1, cut2, segSet, rot, fill, o, used, cur, pos, t, placed) && -1 in o
    requires pos < |p1| && cur < |p1| && p2[pos] !in used
    ensures Scanning(p1, cut1, cut2, segSet, rot, fill, o[cur := p2[pos]], used + {p2[pos]},
                     NextSlot(cur, |p1|), NextSlot(pos, |p1|), t + 1, placed + 1)
  {
    ScanGoesOn(p1, p2, cut1, cut2, segSet, rot, fill, o, used, cur, pos, t, placed);
    UsedIsSegment(rot, segSet, t);
    FillGrows(rot, segSet, t, |rot|);
    PlaceNext(o, p1, fill, cut1, cut2, placed);
    assert rot[..t + 1] == rot[..t] + [rot[t]];
    ValueSetAppend(rot[..t], rot[t]);
    SlotAtNext(placed, cut2, |p1|);
    if t + 1 < |p1| {
      SlotAtNext(t, cut2, |p1|);
    }
  }

  /**
    One round of the scan: while a -1 is left, the scan position is a slot of a point not yet
    read, and reading it (skipping it when used, writing it when not) keeps the scan state.
  */
  lemma ScanStep(p1: seq<int>, p2: seq<int>, cut1: nat, cut2: nat, segSet: set<int>, rot: seq<int>, fill: seq<int>,
                 o: seq<int>, used: set<int>, cur: nat, pos: nat, t: nat, placed: nat)
    requires ScanSetup(p1, p2, cut1, cut2, segSet, rot, fill)
    requires Scanning(p1, cut1, cut2, segSet, rot, fill, o, used, cur, pos, t, placed) && -1 in o
    ensures t < |p1| && pos < |p1| && cur < |p1| && |o| == |p1|
    ensures p2[pos] in used ==>
      Scanning(p1, cut1, cut2, segSet, rot, fill, o, used, cur, NextSlot(pos, |p1|), t + 1, placed)
    ensures p2[pos] !in used ==>
      Scanning(p1, cut1, cut2, segSet, rot, fill, o[cur := p2[pos]], used + {p2[pos]},
               NextSlot(cur, |p1|), NextSlot(pos, |p1|), t + 1, placed + 1)
  {
    ScanGoesOn(p1, p2, cut1, cut2, segSet, rot, fill, o, used, cur, pos, t, placed);
    if p2[pos] in used {
      ScanSkips(p1, p2, cut1, cut2, segSet, rot, fill, o, used, cur, pos, t, placed);
    } else {
      ScanPlaces(p1, p2, cut1, cut2, segSet, rot, fill, o, used, cur, pos, t, placed);
    }
  }

  /** When no -1 is left, the scan has written the whole child. */
  lemma ScanFinishes(p1: seq<int>, p2: seq<int>, cut1: nat, cut2: nat, segSet: set<int>, rot: seq<int>,
                     o: seq<int>, used: set<int>, cur: nat, pos: nat, t: nat, placed: nat)
    requires cut1 <= cut2 < |p1| == |p2|
    requires ScanSetup(p1, p2, cut1, cut2, segSet, rot, Fill(p1, p2, cut1, cut2))
    requires Scanning(p1, cut1, cut2, segSet, rot, Fill(p1, p2, cut1, cut2), o, used, cur, pos, t, placed) && -1 !in o
    ensures o == Child(p1, p2, cut1, cut2)
  {
    HoleWhileUnplaced(o, p1, Fill(p1, p2, cut1, cut2), cut1, cut2, placed);
    CompleteChild(o, p1, p2, cut1, cut2);
  }

  /**
    The third loop of `createOffspring`: parent2 scanned cyclically from cut2 + 1, each gene
    not yet used written to the next free slot, until no -1 is left.
  */
  method PlaceRemaining(parent1: seq<int>, parent2: seq<int>, cutPoint1: nat, cutPoint2: nat,
                        start: seq<int>, segment: set<int>, ghost rot: seq<int>)
    returns (offspring: seq<int>)
    requires cutPoint1 <= cutPoint2 < |parent1| == |parent2|
    requires ScanSetup(parent1, parent2, cutPoint1, cutPoint2, segment, rot, Fill(parent1, parent2, cutPoint1, cutPoint2))
    requires PartialChild(start, parent1, Fill(parent1, parent2, cutPoint1, cutPoint2), cutPoint1, cutPoint2, 0)
    ensures offspring == Child(parent1, parent2, cutPoint1, cutPoint2)
  {
    var size := |parent1|;
    ghost var fill := Fill(parent1, parent2, cutPoint1, cutPoint2);
    offspring := start;
    var used := segment;
    var currentPos := NextSlot(cutPoint2, size);
    var parent2Pos := NextSlot(cutPoint2, size);
    ghost var t: nat := 0;
    ghost var placed: nat := 0;
    ScanStarts(parent1, cutPoint1, cutPoint2, segment, rot, fill, offspring);
    while -1 in offspring
      invariant Scanning(parent1, cutPoint1, cutPoint2, segment, rot, fill, offspring, used, currentPos, parent2Pos, t, placed)
      decreases size - t
    {
      ScanStep(parent1, parent2, cutPoint1, cutPoint2, segment, rot, fill, offspring, used, currentPos, parent2Pos, t, placed);
      var gene := parent2[parent2Pos];
      if gene !in used {
        offspring := offspring[currentPos := gene];
        used := used + {gene};
        currentPos := NextSlot(currentPos, size);
        placed := placed + 1;
      }
      parent2Pos := NextSlot(parent2Pos, size);
      t := t + 1;
    }
    ScanFinishes(parent1, parent2, cutPoint1, cutPoint2, segment, rot, offspring, used, currentPos, parent2Pos, t, placed);
  }

  /**
    `createOffspring`: slots pre-filled with -1 and the segment copied and recorded as used,
    then the remaining slots filled from parent2. The child is again an ordering of 0..n-1.
  */
  method CreateOffspring(parent1: seq<int>, parent2: seq<int>, cutPoint1: nat, cutPoint2: nat) returns (offspring: seq<int>)
    requires cutPoint1 < cutPoint2 < |parent1| == |parent2|
    requires IsPermutation(parent1, 0, |parent1|) && IsPermutation(parent2, 0, |parent2|)
    ensures offspring == Child(parent1, parent2, cutPoint1, cutPoint2)
    ensures IsPermutation(offspring, 0, |parent1|)
  {
    var start, used := KeepSegment(parent1, cutPoint1, cutPoint2);
    ScanSetupHolds(parent1, parent2, cutPoint1, cutPoint2);
    offspring := PlaceRemaining(parent1, parent2, cutPoint1, cutPoint2, start, used, CyclicFrom(parent2, cutPoint2));
    ChildProperties(parent1, parent2, cutPoint1, cutPoint2);
  }

  /** `sequenceToChromosome`: the matrix marking `sequence[p]` at position p. */
  method SequenceToChromosome(sequence: seq<int>) returns (chromosome: BinaryChromosome)
    requires IsPermutation(sequence, 0, |sequence|)
    ensures fresh(chromosome) && chromosome.genes == MatrixOf(sequence)
    ensures IsPermutationMatrix(chromosome.genes) && Decode(chromosome.genes) == sequence
  {
    chromosome := new BinaryChromosome.Empty();
    var genes := MatrixFromOrder(sequence);
    MatrixOfPermutation(sequence);
    chromosome.SetGenes(genes);
  }

  /** The cut points drawn by `crossover`: 0 <= cut1 < cut2 <= size - 1. */
  function CutPoints(size: nat, draw1: nat, draw2: nat): (cuts: (nat, nat))
    requires size >= 2
    ensures cuts.0 < cuts.1 < size
  {
    var cut1 := NextInt(draw1, size - 1);
    (cut1, NextInt(draw2, size - cut1 - 1) + cut1 + 1)
  }

  /**
    The recombination step of `crossover`: the cut points drawn, each child built from one
    parent's segment and the other parent's order, and encoded as a matrix again.
  */
  method Recombine(seq1: seq<int>, seq2: seq<int>, cutDraw1: nat, cutDraw2: nat) returns (child1: Matrix, child2: Matrix)
    requires |seq1| == |seq2| >= 2
    requires IsPermutation(seq1, 0, |seq1|) && IsPermutation(seq2, 0, |seq2|)
    ensures var cuts := CutPoints(|seq1|, cutDraw1, cutDraw2);
      child1 == MatrixOf(Child(seq1, seq2, cuts.0, cuts.1)) && child2 == MatrixOf(Child(seq2, seq1, cuts.0, cuts.1))
    ensures IsPermutationMatrix(child1) && |child1| == |seq1|
    ensures IsPermutationMatrix(child2) && |child2| == |seq2|
  {
    var size := |seq1|;
    var cutPoint1 := NextInt(cutDraw1, size - 1);
    var cutPoint2 := NextInt(cutDraw2, size - cutPoint1 - 1) + cutPoint1 + 1;
    assert (cutPoint1, cutPoint2) == CutPoints(size, cutDraw1, cutDraw2);
    var child1Seq := CreateOffspring(seq1, seq2, cutPoint1, cutPoint2);
    var child2Seq := CreateOffspring(seq2, seq1, cutPoint1, cutPoint2);
    var chromosome1 := SequenceToChromosome(child1Seq);
    var chromosome2 := SequenceToChromosome(child2Seq);
    child1, child2 := chromosome1.genes, chromosome2.genes;
  }

  /**
    `crossover`: both parents must use the matrix encoding; a draw above the probability
    returns the parents unchanged (as clones); parents of different size or under two points
    are rejected; otherwise two children with the same cut points and the parents' roles
    exchanged.
  */
  method Crossover(parent1: Genotype, parent2: Genotype, probability: real,
                   draw: Draw, cutDraw1: nat, cutDraw2: nat) returns (r: Result<(Genotype, Genotype)>)
    requires parent1.BinaryGenes? ==> IsPermutationMatrix(parent1.matrix)
    requires parent2.BinaryGenes? ==> IsPermutationMatrix(parent2.matrix)
    ensures !(parent1.BinaryGenes? && parent2.BinaryGenes?) ==> r.Err? && r.failure.IllegalArgument?
    ensures parent1.BinaryGenes? && parent2.BinaryGenes? && draw > probability ==> r == Ok((parent1, parent2))
    ensures parent1.BinaryGenes? && parent2.BinaryGenes? && draw <= probability ==>
      (r.Err? <==> |parent1.matrix| != |parent2.matrix| || |parent1.matrix| < 2)
    ensures r.Err? ==> r.failure.IllegalArgument?
    ensures r.Ok? ==> parent1.BinaryGenes? && parent2.BinaryGenes?
    ensures r.Ok? && draw <= probability ==> |Decode(parent1.matrix)| == |Decode(parent2.matrix)| >= 2
    ensures r.Ok? && draw <= probability ==>
      var s1 := Decode(parent1.matrix);
      var s2 := Decode(parent2.matrix);
      var cuts := CutPoints(|s1|, cutDraw1, cutDraw2);
      r.value == (BinaryGenes(MatrixOf(Child(s1, s2, cuts.0, cuts.1))), BinaryGenes(MatrixOf(Child(s2, s1, cuts.0, cuts.1))))
    ensures r.Ok? ==> WellFormed(r.value.0, |parent1.matrix|) && WellFormed(r.value.1, |parent2.matrix|)
  {
    if !parent1.BinaryGenes? || !parent2.BinaryGenes? {
      return Err(IllegalArgument("OrderOneCrossover only works with BinaryChromosome"));
    }
    if draw > probability {
      return Ok((parent1, parent2));
    }
    var seq1 := Decode(parent1.matrix);
    var seq2 := Decode(parent2.matrix);
    assert |seq1| == |parent1.matrix| && IsPermutation(seq1, 0, |seq1|) by {
      DecodePermutationMatrix(parent1.matrix);
    }
    assert |seq2| == |parent2.matrix| && IsPermutation(seq2, 0, |seq2|) by {
      DecodePermutationMatrix(parent2.matrix);
    }
    if |seq1| != |seq2| || |seq1| < 2 {
      return Err(IllegalArgument("Parents must have same size and at least 2 orders"));
    }
    var child1, child2 := Recombine(seq1, seq2, cutDraw1, cutDraw2);
    r := Ok((BinaryGenes(child1), BinaryGenes(child2)));
  }
}
