/** Sets of numbers kept as a list of ranges, and the form in which they are sent. */
module RangeList {
  import opened Bits
  import opened BitStream
  import opened Sequences

  datatype RangeNode = RangeNode(minIndex: nat, maxIndex: nat)

  /** Sorted by where they begin, none backwards, all below the modulus of the number type. */
  ghost predicate Ordered(ranges: seq<RangeNode>, modulus: nat) {
    && (forall i :: 0 <= i < |ranges| ==> ranges[i].minIndex <= ranges[i].maxIndex < modulus)
    && forall i, j :: 0 <= i < j < |ranges| ==> ranges[i].minIndex <= ranges[j].minIndex
  }

  /** No number lies in two ranges. */
  ghost predicate Disjoint(ranges: seq<RangeNode>) {
    forall i, j :: 0 <= i < j < |ranges| ==> ranges[i].maxIndex < ranges[j].minIndex
  }

  /** No two ranges could be one. */
  ghost predicate Coalesced(ranges: seq<RangeNode>) {
    forall i, j :: 0 <= i < j < |ranges| ==> ranges[i].maxIndex + 1 < ranges[j].minIndex
  }

  /** No two ranges begin at the same number. */
  ghost predicate Strict(ranges: seq<RangeNode>) {
    forall i, j :: 0 <= i < j < |ranges| ==> ranges[i].minIndex < ranges[j].minIndex
  }

  /** Zero into a list that begins with it. */
  ghost predicate ZeroAgain(ranges: seq<RangeNode>, index: nat) {
    index == 0 && ranges != [] && ranges[0].minIndex == 0
  }

  predicate In(r: RangeNode, x: int) {
    r.minIndex <= x <= r.maxIndex
  }

  ghost predicate Covers(ranges: seq<RangeNode>, x: int) {
    exists i :: 0 <= i < |ranges| && In(ranges[i], x)
  }

  /** Some range begins at the number. */
  ghost predicate Begins(ranges: seq<RangeNode>, index: nat) {
    exists i :: 0 <= i < |ranges| && ranges[i].minIndex == index
  }

  /** Where insertion makes a second entry for a number already covered: inside a range that is not the last,
      inside a last range that ends at the largest number, or at zero. */
  ghost predicate Repeats(ranges: seq<RangeNode>, index: nat, modulus: nat) {
    exists k :: 0 <= k < |ranges| && In(ranges[k], index)
      && if index == ranges[k].minIndex then index == 0 else k < |ranges| - 1 || ranges[k].maxIndex == modulus - 1
  }

  /** Where insertion leaves a number next to the range it could have lengthened. */
  ghost predicate Splits(ranges: seq<RangeNode>, index: nat) {
    exists k :: 0 <= k < |ranges| - 1 && index == ranges[k].maxIndex + 1 && index + 1 < ranges[k + 1].minIndex
  }

  ghost function RangeSumOf(ranges: seq<RangeNode>): int {
    if ranges == [] then 0
    else RangeSumOf(ranges[..|ranges| - 1]) + (ranges[|ranges| - 1].maxIndex - ranges[|ranges| - 1].minIndex + 1)
  }

  /** What insertion does at `k`, the first range that begins no earlier than the number. */
  function InsertedAt(ranges: seq<RangeNode>, k: nat, index: nat, modulus: nat): seq<RangeNode>
    requires k <= |ranges| && modulus > 0
  {
    if k == |ranges| then
      if k == 0 then [RangeNode(index, index)]
      else
        var last := ranges[k - 1];
        if index == Wrap(last.maxIndex + 1, modulus) then ranges[k - 1 := last.(maxIndex := Wrap(last.maxIndex + 1, modulus))]
        else if index > Wrap(last.maxIndex + 1, modulus) then ranges + [RangeNode(index, index)]
        else ranges
    else
      var r := ranges[k];
      if index < Wrap(r.minIndex - 1, modulus) then InsertAt(ranges, k, RangeNode(index, index))
      else if index == Wrap(r.minIndex - 1, modulus) then
        if k > 0 && Wrap(ranges[k - 1].maxIndex + 1, modulus) == index then RemoveAt(ranges[k - 1 := ranges[k - 1].(maxIndex := r.maxIndex)], k)
        else ranges[k := r.(minIndex := index)]
      else ranges
  }

  function Wrap(x: int, modulus: nat): (r: nat)
    requires modulus > 0
    ensures r < modulus
  {
    x % modulus
  }

  lemma WrapIs(x: int, modulus: nat)
    requires -1 <= x <= modulus && modulus > 0
    ensures Wrap(x, modulus) == if x < 0 then modulus - 1 else if x == modulus then 0 else x
  {
    if x < 0 {
      assert x % modulus == (x + modulus) % modulus;
    }
  }

  ghost predicate At(ranges: seq<RangeNode>, k: nat, index: nat) {
    && k <= |ranges|
    && ((k < |ranges| && ranges[k].minIndex == index)
      || ((forall i :: 0 <= i < k ==> ranges[i].minIndex < index) && forall i :: k <= i < |ranges| ==> index < ranges[i].minIndex))
  }

  /** What the wrapped comparisons come to. */
  lemma InsertedIs(ranges: seq<RangeNode>, k: nat, index: nat, modulus: nat)
    requires Ordered(ranges, modulus) && At(ranges, k, index) && index < modulus && modulus > 1
    ensures InsertedAt(ranges, k, index, modulus) ==
      if k == |ranges| then
        if k == 0 then [RangeNode(index, index)]
        else if ranges[k - 1].maxIndex + 1 == index then ranges[k - 1 := ranges[k - 1].(maxIndex := index)]
        else if ranges[k - 1].maxIndex + 1 < index || ranges[k - 1].maxIndex + 1 == modulus then ranges + [RangeNode(index, index)]
        else ranges
      else if index + 1 < ranges[k].minIndex || index == ranges[k].minIndex == 0 then InsertAt(ranges, k, RangeNode(index, index))
      else if index == ranges[k].minIndex then ranges
      else if k > 0 && ranges[k - 1].maxIndex + 1 == index then RemoveAt(ranges[k - 1 := ranges[k - 1].(maxIndex := ranges[k].maxIndex)], k)
      else ranges[k := ranges[k].(minIndex := index)]
  {
    if k > 0 {
      WrapIs(ranges[k - 1].maxIndex + 1, modulus);
    }
    if k < |ranges| {
      WrapIs(ranges[k].minIndex - 1, modulus);
    }
  }

  lemma InsertedOrdered(ranges: seq<RangeNode>, k: nat, index: nat, modulus: nat)
    requires Ordered(ranges, modulus) && At(ranges, k, index) && index < modulus && modulus > 1
    ensures Ordered(InsertedAt(ranges, k, index, modulus), modulus)
  {
    hide *;
    InsertedIs(ranges, k, index, modulus);
    Beginnings(ranges, k, index, modulus);
    AtBounds(ranges, k, index, modulus);
    if k == |ranges| {
      if k == 0 || ranges[k - 1].maxIndex + 1 < index || ranges[k - 1].maxIndex + 1 == modulus {
        OrderedInsert(ranges, k, RangeNode(index, index), modulus);
        JoinedSame(ranges, k, index);
      } else if ranges[k - 1].maxIndex + 1 == index {
        OrderedUpdate(ranges, k - 1, ranges[k - 1].(maxIndex := index), modulus);
      }
    } else if index + 1 < ranges[k].minIndex || (index == 0 && ranges[k].minIndex == 0) {
      OrderedInsert(ranges, k, RangeNode(index, index), modulus);
    } else if index != ranges[k].minIndex {
      if k > 0 && ranges[k - 1].maxIndex + 1 == index {
        OrderedUpdate(ranges, k - 1, ranges[k - 1].(maxIndex := ranges[k].maxIndex), modulus);
        OrderedRemove(ranges[k - 1 := ranges[k - 1].(maxIndex := ranges[k].maxIndex)], k, modulus);
      } else {
        OrderedUpdate(ranges, k, ranges[k].(minIndex := index), modulus);
      }
    }
  }

  lemma OrderedInsert(ranges: seq<RangeNode>, k: nat, r: RangeNode, modulus: nat)
    requires Ordered(ranges, modulus) && k <= |ranges| && r.minIndex <= r.maxIndex < modulus
    requires (forall j :: 0 <= j < k ==> ranges[j].minIndex <= r.minIndex) && forall j :: k <= j < |ranges| ==> r.minIndex <= ranges[j].minIndex
    ensures Ordered(InsertAt(ranges, k, r), modulus)
  {
    var s := InsertAt(ranges, k, r);
    assert forall i :: 0 <= i < |s| ==> s[i] == if i < k then ranges[i] else if i == k then r else ranges[i - 1];
  }

  lemma OrderedUpdate(ranges: seq<RangeNode>, k: nat, r: RangeNode, modulus: nat)
    requires Ordered(ranges, modulus) && k < |ranges| && r.minIndex <= r.maxIndex < modulus
    requires (forall j :: 0 <= j < k ==> ranges[j].minIndex <= r.minIndex) && r.minIndex <= ranges[k].minIndex
    ensures Ordered(ranges[k := r], modulus)
  {
  }

  lemma OrderedRemove(ranges: seq<RangeNode>, k: nat, modulus: nat)
    requires Ordered(ranges, modulus) && k < |ranges|
    ensures Ordered(RemoveAt(ranges, k), modulus)
  {
    var s := RemoveAt(ranges, k);
    assert forall i :: 0 <= i < |s| ==> s[i] == ranges[if i < k then i else i + 1];
  }

  /** The beginnings before the place are no larger than the number, and those from it on no smaller. */
  lemma Beginnings(ranges: seq<RangeNode>, k: nat, index: nat, modulus: nat)
    requires Ordered(ranges, modulus) && At(ranges, k, index)
    ensures k <= |ranges| && (forall j :: 0 <= j < k ==> ranges[j].minIndex <= index && ranges[j].minIndex <= ranges[j].maxIndex < modulus)
    ensures k > 0 ==> forall j :: 0 <= j < k - 1 ==> ranges[j].minIndex <= ranges[k - 1].minIndex
    ensures k < |ranges| ==> k > 0 ==> ranges[k - 1].minIndex <= ranges[k].minIndex
    ensures (forall j :: k <= j < |ranges| ==> index <= ranges[j].minIndex) && (k == |ranges| > 0 ==> ranges[k - 1].minIndex < index)
  {
  }

  lemma RepeatsOverlap(ranges: seq<RangeNode>, k: nat, index: nat, modulus: nat)
    requires Ordered(ranges, modulus) && At(ranges, k, index) && index < modulus && modulus > 1
    requires Disjoint(ranges) && Repeats(ranges, index, modulus)
    ensures !Disjoint(InsertedAt(ranges, k, index, modulus))
  {
    hide InsertedAt;
    InsertedIs(ranges, k, index, modulus);
    var r := InsertedAt(ranges, k, index, modulus);
    var j :| 0 <= j < |ranges| && In(ranges[j], index) && if index == ranges[j].minIndex then index == 0 else j < |ranges| - 1 || ranges[j].maxIndex == modulus - 1;
    if k == |ranges| {
      assert r[j].maxIndex >= r[|ranges|].minIndex;
    } else if index == ranges[k].minIndex {
      assert r[k].maxIndex >= r[k + 1].minIndex;
    } else if index + 1 < ranges[k].minIndex {
      assert r[j].maxIndex >= r[k].minIndex;
    } else {
      assert r[j].maxIndex >= r[k].minIndex;
    }
  }

  /** What lies below the place and above it, for a number that is not repeated. */
  lemma Around(ranges: seq<RangeNode>, k: nat, index: nat, modulus: nat)
    requires Ordered(ranges, modulus) && At(ranges, k, index) && index < modulus && Disjoint(ranges) && !Repeats(ranges, index, modulus)
    ensures forall j :: 0 <= j < k && j < |ranges| - 1 ==> ranges[j].maxIndex < index
    ensures k == |ranges| > 0 && index <= ranges[k - 1].maxIndex ==> ranges[k - 1].maxIndex + 1 < modulus
    ensures forall j :: k < j < |ranges| ==> index < ranges[j].minIndex
    ensures k < |ranges| ==> index <= ranges[k].minIndex && !(index == 0 && ranges[k].minIndex == 0)
  {
    forall j | 0 <= j < k && j < |ranges| - 1 ensures ranges[j].maxIndex < index {
      assert !In(ranges[j], index);
    }
    assert k == |ranges| > 0 ==> ranges[k - 1].minIndex < index;
    assert k == |ranges| > 0 && index <= ranges[k - 1].maxIndex ==> In(ranges[k - 1], index);
    assert k < |ranges| && ranges[k].minIndex == index ==> In(ranges[k], index);
  }

  lemma NoRepeatDisjoint(ranges: seq<RangeNode>, k: nat, index: nat, modulus: nat)
    requires Ordered(ranges, modulus) && At(ranges, k, index) && index < modulus && modulus > 1
    requires Disjoint(ranges) && !Repeats(ranges, index, modulus)
    ensures Disjoint(InsertedAt(ranges, k, index, modulus))
  {
    hide *;
    InsertedIs(ranges, k, index, modulus);
    Around(ranges, k, index, modulus);
    AtBounds(ranges, k, index, modulus);
    Gaps(ranges, modulus);
    if k == |ranges| {
      if k == 0 || ranges[k - 1].maxIndex + 1 < index {
        DisjointInsert(ranges, k, RangeNode(index, index), modulus);
        JoinedSame(ranges, k, index);
      } else if ranges[k - 1].maxIndex + 1 == index {
        DisjointUpdate(ranges, k - 1, ranges[k - 1].(maxIndex := index));
      }
    } else if index + 1 < ranges[k].minIndex {
      DisjointInsert(ranges, k, RangeNode(index, index), modulus);
    } else if index != ranges[k].minIndex {
      if k > 0 && ranges[k - 1].maxIndex + 1 == index {
        DisjointJoin(ranges, k, modulus);
      } else {
        DisjointUpdate(ranges, k, ranges[k].(minIndex := index));
      }
    }
  }

  lemma Gaps(ranges: seq<RangeNode>, modulus: nat)
    requires Ordered(ranges, modulus) && Disjoint(ranges)
    ensures forall i, j :: 0 <= i < j < |ranges| ==> ranges[i].maxIndex < ranges[j].minIndex
    ensures forall i :: 0 <= i < |ranges| ==> ranges[i].minIndex <= ranges[i].maxIndex < modulus
  {
  }

  lemma DisjointInsert(ranges: seq<RangeNode>, k: nat, r: RangeNode, modulus: nat)
    requires Ordered(ranges, modulus) && Disjoint(ranges) && k <= |ranges| && r.minIndex <= r.maxIndex
    requires k > 0 ==> ranges[k - 1].maxIndex < r.minIndex
    requires k < |ranges| ==> r.maxIndex < ranges[k].minIndex
    ensures Disjoint(InsertAt(ranges, k, r))
  {
    var s := InsertAt(ranges, k, r);
    assert forall i :: 0 <= i < |s| ==> s[i] == if i < k then ranges[i] else if i == k then r else ranges[i - 1];
    assert forall i :: 0 <= i < k ==> ranges[i].maxIndex < r.minIndex;
    assert forall i :: k <= i < |ranges| ==> r.maxIndex < ranges[i].minIndex;
  }

  lemma DisjointUpdate(ranges: seq<RangeNode>, k: nat, r: RangeNode)
    requires Disjoint(ranges) && k < |ranges|
    requires forall j :: 0 <= j < k ==> ranges[j].maxIndex < r.minIndex
    requires forall j :: k < j < |ranges| ==> r.maxIndex < ranges[j].minIndex
    ensures Disjoint(ranges[k := r])
  {
  }

  lemma DisjointJoin(ranges: seq<RangeNode>, k: nat, modulus: nat)
    requires Ordered(ranges, modulus) && Disjoint(ranges) && 0 < k < |ranges|
    ensures Disjoint(RemoveAt(ranges[k - 1 := ranges[k - 1].(maxIndex := ranges[k].maxIndex)], k))
  {
    var s := RemoveAt(ranges[k - 1 := ranges[k - 1].(maxIndex := ranges[k].maxIndex)], k);
    forall i, j | 0 <= i < j < |s| ensures s[i].maxIndex < s[j].minIndex {
      assert s[i].maxIndex == ranges[if i < k - 1 then i else i + 1].maxIndex;
      assert s[j].minIndex == ranges[if j < k then j else j + 1].minIndex;
    }
  }

  /** Only a second zero makes two ranges begin at the same number. */
  lemma InsertedStrict(ranges: seq<RangeNode>, k: nat, index: nat, modulus: nat)
    requires Ordered(ranges, modulus) && At(ranges, k, index) && index < modulus && modulus > 1 && Strict(ranges)
    ensures Strict(InsertedAt(ranges, k, index, modulus)) <==> !ZeroAgain(ranges, index)
  {
    hide *;
    InsertedIs(ranges, k, index, modulus);
    StrictAround(ranges, k, index, modulus);
    if k == |ranges| {
      if k == 0 || ranges[k - 1].maxIndex + 1 < index || ranges[k - 1].maxIndex + 1 == modulus {
        StrictInsert(ranges, k, RangeNode(index, index));
        JoinedSame(ranges, k, index);
      } else if ranges[k - 1].maxIndex + 1 == index {
        StrictUpdate(ranges, k - 1, ranges[k - 1].(maxIndex := index));
      }
    } else if index == 0 && ranges[k].minIndex == 0 {
      NotStrict(ranges, k, RangeNode(index, index));
    } else if index + 1 < ranges[k].minIndex {
      StrictInsert(ranges, k, RangeNode(index, index));
    } else if index != ranges[k].minIndex {
      if k > 0 && ranges[k - 1].maxIndex + 1 == index {
        StrictUpdate(ranges, k - 1, ranges[k - 1].(maxIndex := ranges[k].maxIndex));
        StrictRemove(ranges[k - 1 := ranges[k - 1].(maxIndex := ranges[k].maxIndex)], k);
      } else {
        StrictUpdate(ranges, k, ranges[k].(minIndex := index));
      }
    }
  }

  lemma StrictAround(ranges: seq<RangeNode>, k: nat, index: nat, modulus: nat)
    requires Ordered(ranges, modulus) && At(ranges, k, index) && Strict(ranges)
    ensures k <= |ranges| && (forall j :: 0 <= j < k ==> ranges[j].minIndex < index) && forall j :: k < j < |ranges| ==> index < ranges[j].minIndex
    ensures forall i, j :: 0 <= i < j < |ranges| ==> ranges[i].minIndex < ranges[j].minIndex
    ensures k < |ranges| ==> index <= ranges[k].minIndex
    ensures ZeroAgain(ranges, index) <==> k < |ranges| && index == 0 && ranges[k].minIndex == 0
  {
  }

  lemma StrictInsert(ranges: seq<RangeNode>, k: nat, r: RangeNode)
    requires Strict(ranges) && k <= |ranges|
    requires (forall j :: 0 <= j < k ==> ranges[j].minIndex < r.minIndex) && forall j :: k <= j < |ranges| ==> r.minIndex < ranges[j].minIndex
    ensures Strict(InsertAt(ranges, k, r))
  {
    var s := InsertAt(ranges, k, r);
    assert forall i :: 0 <= i < |s| ==> s[i] == if i < k then ranges[i] else if i == k then r else ranges[i - 1];
  }

  lemma StrictUpdate(ranges: seq<RangeNode>, k: nat, r: RangeNode)
    requires Strict(ranges) && k < |ranges| && r.minIndex <= ranges[k].minIndex && forall j :: 0 <= j < k ==> ranges[j].minIndex < r.minIndex
    ensures Strict(ranges[k := r])
  {
  }

  lemma StrictRemove(ranges: seq<RangeNode>, k: nat)
    requires Strict(ranges) && k < |ranges|
    ensures Strict(RemoveAt(ranges, k))
  {
    var s := RemoveAt(ranges, k);
    assert forall i :: 0 <= i < |s| ==> s[i] == ranges[if i < k then i else i + 1];
  }

  lemma NotStrict(ranges: seq<RangeNode>, k: nat, r: RangeNode)
    requires k < |ranges| && ranges[k].minIndex == r.minIndex
    ensures !Strict(InsertAt(ranges, k, r))
  {
    var s := InsertAt(ranges, k, r);
    assert s[k].minIndex == s[k + 1].minIndex;
  }

  lemma BrokenNotCoalesced(ranges: seq<RangeNode>, k: nat, index: nat, modulus: nat)
    requires Ordered(ranges, modulus) && At(ranges, k, index) && index < modulus && modulus > 1
    requires Coalesced(ranges) && !Repeats(ranges, index, modulus) && Splits(ranges, index)
    ensures !Coalesced(InsertedAt(ranges, k, index, modulus))
  {
    hide InsertedAt;
    InsertedIs(ranges, k, index, modulus);
    var r := InsertedAt(ranges, k, index, modulus);
    var j :| 0 <= j < |ranges| - 1 && index == ranges[j].maxIndex + 1 && index + 1 < ranges[j + 1].minIndex;
    assert ranges[j].minIndex < index < ranges[j + 1].minIndex;
    assert k == j + 1;
    assert r[j].maxIndex + 1 >= r[k].minIndex;
  }

  lemma NothingBrokenCoalesced(ranges: seq<RangeNode>, k: nat, index: nat, modulus: nat)
    requires Ordered(ranges, modulus) && At(ranges, k, index) && index < modulus && modulus > 1
    requires Coalesced(ranges) && !Repeats(ranges, index, modulus) && !Splits(ranges, index)
    ensures Coalesced(InsertedAt(ranges, k, index, modulus))
  {
    hide InsertedAt;
    InsertedIs(ranges, k, index, modulus);
    CoalescedDisjoint(ranges);
    Around(ranges, k, index, modulus);
    NotSplit(ranges, k, index);
    hide At, Repeats, Splits, In, Disjoint;
  }

  /** A number that splits nothing off is not next to the range before its place, unless it joins that range or is at the end. */
  lemma NotSplit(ranges: seq<RangeNode>, k: nat, index: nat)
    requires k <= |ranges| && !Splits(ranges, index)
    ensures 0 < k < |ranges| && index == ranges[k - 1].maxIndex + 1 ==> ranges[k].minIndex <= index + 1
  {
    assert 0 < k < |ranges| ==> ranges[k - 1 + 1] == ranges[k];
  }

  lemma NoMoreCovered(ranges: seq<RangeNode>, k: nat, index: nat, modulus: nat, x: int)
    requires Ordered(ranges, modulus) && At(ranges, k, index) && index < modulus && modulus > 1
    requires Covers(InsertedAt(ranges, k, index, modulus), x) && x != index
    ensures Covers(ranges, x)
  {
    hide InsertedAt;
    InsertedIs(ranges, k, index, modulus);
    var r := InsertedAt(ranges, k, index, modulus);
    var i :| 0 <= i < |r| && In(r[i], x);
    hide Ordered, Covers;
    var j := i;
    if k == |ranges| {
      assert i < |ranges|;
    } else if index + 1 < ranges[k].minIndex || (index == 0 && ranges[k].minIndex == 0) {
      InsertedSlot(ranges, k, RangeNode(index, index), i);
      j := if i < k then i else i - 1;
    } else if index != ranges[k].minIndex && k > 0 && ranges[k - 1].maxIndex + 1 == index {
      j := if i < k - 1 || (i == k - 1 && x < index) then i else i + 1;
    }
    CoveredBy(ranges, j, x);
  }

  lemma InsertedSlot(ranges: seq<RangeNode>, k: nat, r: RangeNode, i: nat)
    requires k <= |ranges| && i <= |ranges|
    ensures InsertAt(ranges, k, r)[i] == if i < k then ranges[i] else if i == k then r else ranges[i - 1]
  {
  }

  lemma CoveredBy(ranges: seq<RangeNode>, j: nat, x: int)
    requires j < |ranges| && In(ranges[j], x)
    ensures Covers(ranges, x)
  {
  }

  lemma IndexCovered(ranges: seq<RangeNode>, k: nat, index: nat, modulus: nat)
    requires Ordered(ranges, modulus) && At(ranges, k, index) && index < modulus && modulus > 1
    ensures Covers(InsertedAt(ranges, k, index, modulus), index)
  {
    hide InsertedAt;
    InsertedIs(ranges, k, index, modulus);
    var r := InsertedAt(ranges, k, index, modulus);
    assert In(r[if k == |r| || |r| < |ranges| then k - 1 else k], index);
  }

  lemma NoLessCovered(ranges: seq<RangeNode>, k: nat, index: nat, modulus: nat, x: int)
    requires Ordered(ranges, modulus) && At(ranges, k, index) && index < modulus && modulus > 1 && Covers(ranges, x)
    ensures Covers(InsertedAt(ranges, k, index, modulus), x)
  {
    hide InsertedAt;
    InsertedIs(ranges, k, index, modulus);
    var r := InsertedAt(ranges, k, index, modulus);
    var i :| 0 <= i < |ranges| && In(ranges[i], x);
    assert In(r[if i < k || |r| == |ranges| then i else if |r| < |ranges| then i - 1 else i + 1], x);
  }

  /** The numbers covered are those covered before and the one inserted, whatever the list looked like. */
  lemma InsertedCovers(ranges: seq<RangeNode>, k: nat, index: nat, modulus: nat, x: int)
    requires Ordered(ranges, modulus) && At(ranges, k, index) && index < modulus && modulus > 1
    ensures Covers(InsertedAt(ranges, k, index, modulus), x) <==> Covers(ranges, x) || x == index
  {
    if Covers(ranges, x) {
      NoLessCovered(ranges, k, index, modulus, x);
    } else if x == index {
      IndexCovered(ranges, k, index, modulus);
    } else if Covers(InsertedAt(ranges, k, index, modulus), x) {
      NoMoreCovered(ranges, k, index, modulus, x);
    }
  }

  lemma {:induction false} SumInsert(s: seq<RangeNode>, i: nat, r: RangeNode)
    requires i <= |s|
    ensures RangeSumOf(InsertAt(s, i, r)) == RangeSumOf(s) + (r.maxIndex - r.minIndex + 1)
  {
    var t := InsertAt(s, i, r);
    if i == |s| {
      assert t[..|s|] == s;
    } else {
      SumInsert(s[..|s| - 1], i, r);
      assert t[..|s|] == InsertAt(s[..|s| - 1], i, r);
    }
  }

  lemma SumRemove(s: seq<RangeNode>, i: nat)
    requires i < |s|
    ensures RangeSumOf(RemoveAt(s, i)) == RangeSumOf(s) - (s[i].maxIndex - s[i].minIndex + 1)
  {
    hide *;
    SumInsert(RemoveAt(s, i), i, s[i]);
    PutBack(s, i, s[i]);
  }

  /** Removing an element and putting one in its place is updating it. */
  lemma PutBack(s: seq<RangeNode>, i: nat, r: RangeNode)
    requires i < |s|
    ensures InsertAt(RemoveAt(s, i), i, r) == s[i := r] && s[i := s[i]] == s
  {
    var cut := RemoveAt(s, i);
    assert cut[..i] == s[..i] && cut[i..] == s[i + 1..];
  }

  lemma SumUpdate(s: seq<RangeNode>, i: nat, r: RangeNode)
    requires i < |s|
    ensures RangeSumOf(s[i := r]) == RangeSumOf(s) - (s[i].maxIndex - s[i].minIndex + 1) + (r.maxIndex - r.minIndex + 1)
  {
    hide *;
    SumRemove(s, i);
    SumInsert(RemoveAt(s, i), i, r);
    PutBack(s, i, r);
  }

  /** A number not covered yet adds one. */
  lemma InsertedSum(ranges: seq<RangeNode>, k: nat, index: nat, modulus: nat)
    requires Ordered(ranges, modulus) && At(ranges, k, index) && index < modulus && modulus > 1 && !Covers(ranges, index)
    ensures RangeSumOf(InsertedAt(ranges, k, index, modulus)) == RangeSumOf(ranges) + 1
  {
    hide InsertedAt, RangeSumOf;
    InsertedIs(ranges, k, index, modulus);
    if k == |ranges| {
      SumInsert(ranges, k, RangeNode(index, index));
      assert InsertAt(ranges, k, RangeNode(index, index)) == ranges + [RangeNode(index, index)];
      assert k == 0 ==> ranges + [RangeNode(index, index)] == [RangeNode(index, index)];
      if k > 0 {
        assert !In(ranges[k - 1], index);
        SumUpdate(ranges, k - 1, ranges[k - 1].(maxIndex := index));
      }
    } else {
      assert !In(ranges[k], index);
      SumInsert(ranges, k, RangeNode(index, index));
      SumUpdate(ranges, k, ranges[k].(minIndex := index));
      if k > 0 {
        var joined := ranges[k - 1 := ranges[k - 1].(maxIndex := ranges[k].maxIndex)];
        SumUpdate(ranges, k - 1, ranges[k - 1].(maxIndex := ranges[k].maxIndex));
        SumRemove(joined, k);
      }
    }
  }

  /** Numbers put in from the lowest up neither repeat nor split. */
  lemma AscendingKeeps(ranges: seq<RangeNode>, index: nat, modulus: nat)
    requires forall i :: 0 <= i < |ranges| ==> ranges[i].minIndex <= ranges[i].maxIndex < index
    ensures !Repeats(ranges, index, modulus) && !Splits(ranges, index)
  {
  }

  ghost predicate Agrees(before: seq<RangeNode>, after: seq<RangeNode>, index: nat, modulus: nat) {
    && Ordered(after, modulus)
    && (forall x :: Covers(after, x) <==> Covers(before, x) || x == index)
    && (Disjoint(before) ==> (Disjoint(after) <==> !Repeats(before, index, modulus)))
    && (Coalesced(before) ==> (Coalesced(after) <==> !Repeats(before, index, modulus) && !Splits(before, index)))
    && (Strict(before) ==> (Strict(after) <==> !ZeroAgain(before, index)))
    && (!Covers(before, index) ==> RangeSumOf(after) == RangeSumOf(before) + 1)
  }

  lemma InsertedAgrees(ranges: seq<RangeNode>, k: nat, index: nat, modulus: nat)
    requires Ordered(ranges, modulus) && At(ranges, k, index) && index < modulus && modulus > 1
    ensures Agrees(ranges, InsertedAt(ranges, k, index, modulus), index, modulus)
  {
    hide *;
    AtBounds(ranges, k, index, modulus);
    var after := InsertedAt(ranges, k, index, modulus);
    InsertedOrdered(ranges, k, index, modulus);
    forall x ensures Covers(after, x) <==> Covers(ranges, x) || x == index {
      InsertedCovers(ranges, k, index, modulus, x);
    }
    CoalescedDisjoint(ranges);
    CoalescedDisjoint(after);
    if Disjoint(ranges) {
      if Repeats(ranges, index, modulus) {
        RepeatsOverlap(ranges, k, index, modulus);
      } else {
        NoRepeatDisjoint(ranges, k, index, modulus);
      }
    }
    if Coalesced(ranges) && !Repeats(ranges, index, modulus) {
      if Splits(ranges, index) {
        BrokenNotCoalesced(ranges, k, index, modulus);
      } else {
        NothingBrokenCoalesced(ranges, k, index, modulus);
      }
    }
    if !Covers(ranges, index) {
      InsertedSum(ranges, k, index, modulus);
    }
    if Strict(ranges) {
      InsertedStrict(ranges, k, index, modulus);
    }
    AgreesIs(ranges, after, index, modulus);
  }

  lemma CoalescedDisjoint(ranges: seq<RangeNode>)
    ensures Coalesced(ranges) ==> Disjoint(ranges)
  {
  }

  lemma AgreesIs(before: seq<RangeNode>, after: seq<RangeNode>, index: nat, modulus: nat)
    requires Ordered(after, modulus)
    requires forall x :: Covers(after, x) <==> Covers(before, x) || x == index
    requires Disjoint(before) ==> (Disjoint(after) <==> !Repeats(before, index, modulus))
    requires Coalesced(before) ==> (Coalesced(after) <==> !Repeats(before, index, modulus) && !Splits(before, index))
    requires Strict(before) ==> (Strict(after) <==> !ZeroAgain(before, index))
    requires !Covers(before, index) ==> RangeSumOf(after) == RangeSumOf(before) + 1
    ensures Agrees(before, after, index, modulus)
  {
    hide Strict, ZeroAgain, Ordered, Covers, Disjoint, Coalesced, Repeats, Splits, RangeSumOf;
  }

  /** A list that covers five is not told so when five is not where a range begins: it gets a second entry. */
  lemma RepeatExample()
    ensures var before := [RangeNode(1, 10), RangeNode(20, 30)];
      Coalesced(before) && Repeats(before, 5, 256) && InsertedAt(before, 1, 5, 256) == [RangeNode(1, 10), RangeNode(5, 5), RangeNode(20, 30)]
  {
    var before := [RangeNode(1, 10), RangeNode(20, 30)];
    assert In(before[0], 5);
  }

  // ---------------------------------------------------------------- the form in which ranges are sent

  const COUNT := IntType(2, false)
  const FLAG := IntType(1, false)

  /** A whole byte says whether the range is of one number only. */
  function NodeCode(r: RangeNode, t: IntType): (code: seq<bool>)
    ensures |code| == 8 + 8 * t.size + if r.minIndex == r.maxIndex then 0 else 8 * t.size
  {
    if r.minIndex == r.maxIndex then WholeCode(1, FLAG) + WholeCode(r.minIndex, t)
    else WholeCode(0, FLAG) + WholeCode(r.minIndex, t) + WholeCode(r.maxIndex, t)
  }

  function NodesCode(ranges: seq<RangeNode>, t: IntType): seq<bool> {
    if ranges == [] then [] else NodesCode(ranges[..|ranges| - 1], t) + NodeCode(ranges[|ranges| - 1], t)
  }

  function WireCode(ranges: seq<RangeNode>, t: IntType): (code: seq<bool>)
    ensures |code| == 16 + |NodesCode(ranges, t)|
  {
    WholeCode(|ranges|, COUNT) + NodesCode(ranges, t)
  }

  /** Whether another range is let in after the first `i`.  One bit is reserved for the flag, which takes eight. */
  predicate Room(ranges: seq<RangeNode>, i: nat, t: IntType, maxBits: nat)
    requires i <= |ranges|
  {
    16 + |NodesCode(ranges[..i], t)| + 16 * t.size + 1 <= maxBits
  }

  /** How many ranges are sent, once the first `i` are. */
  function Fitting(ranges: seq<RangeNode>, i: nat, t: IntType, maxBits: nat): (n: nat)
    requires i <= |ranges|
    ensures i <= n <= |ranges|
    decreases |ranges| - i
  {
    if i < |ranges| && Room(ranges, i, t, maxBits) then Fitting(ranges, i + 1, t, maxBits) else i
  }

  lemma NodesCodeNext(ranges: seq<RangeNode>, i: nat, t: IntType)
    requires i < |ranges|
    ensures NodesCode(ranges[..i + 1], t) == NodesCode(ranges[..i], t) + NodeCode(ranges[i], t)
  {
    assert ranges[..i + 1][..i] == ranges[..i];
  }

  /** The flag's seven unreserved bits are all by which the limit can be passed. */
  lemma {:induction false} FittingBits(ranges: seq<RangeNode>, i: nat, t: IntType, maxBits: nat)
    requires i <= |ranges| && (i == 0 || 16 + |NodesCode(ranges[..i], t)| <= maxBits + 7)
    ensures var n := Fitting(ranges, i, t, maxBits); n == 0 || 16 + |NodesCode(ranges[..n], t)| <= maxBits + 7
    decreases |ranges| - i
  {
    hide *;
    FittingNext(ranges, i, t, maxBits);
    if i < |ranges| && 16 + |NodesCode(ranges[..i], t)| + 16 * t.size + 1 <= maxBits {
      NodesCodeNext(ranges, i, t);
      FittingBits(ranges, i + 1, t, maxBits);
    }
  }

  /** Each call sends at least one range when one range of the widest kind fits. */
  lemma FittingProgress(ranges: seq<RangeNode>, t: IntType, maxBits: nat)
    requires ranges != [] && 16 + 16 * t.size + 1 <= maxBits
    ensures Fitting(ranges, 0, t, maxBits) > 0
  {
    assert ranges[..0] == [];
  }

  /** What call after call sends of a list that is cleared as it is sent. */
  ghost function Pieces(ranges: seq<RangeNode>, t: IntType, maxBits: nat): (pieces: seq<seq<RangeNode>>)
    decreases |ranges|
  {
    var n := Fitting(ranges, 0, t, maxBits);
    if n == 0 then [] else [ranges[..n]] + Pieces(ranges[n..], t, maxBits)
  }

  ghost function Joined(pieces: seq<seq<RangeNode>>): seq<RangeNode> {
    if pieces == [] then [] else pieces[0] + Joined(pieces[1..])
  }

  /** The pieces put together are the list: sending drains it and loses nothing. */
  lemma {:induction false} PiecesDrain(ranges: seq<RangeNode>, t: IntType, maxBits: nat)
    requires 16 + 16 * t.size + 1 <= maxBits
    ensures Joined(Pieces(ranges, t, maxBits)) == ranges && |Pieces(ranges, t, maxBits)| <= |ranges|
    decreases |ranges|
  {
    hide *;
    var n := Fitting(ranges, 0, t, maxBits);
    if ranges == [] {
      PiecesNone(t, maxBits);
      JoinedNone();
    } else {
      FittingProgress(ranges, t, maxBits);
      PiecesDrain(ranges[n..], t, maxBits);
      PiecesNext(ranges, t, maxBits);
      JoinedNext(ranges[..n], Pieces(ranges[n..], t, maxBits));
      assert ranges == ranges[..n] + ranges[n..];
    }
  }

  lemma PiecesNext(ranges: seq<RangeNode>, t: IntType, maxBits: nat)
    ensures var n := Fitting(ranges, 0, t, maxBits);
      n > 0 ==> Pieces(ranges, t, maxBits) == [ranges[..n]] + Pieces(ranges[n..], t, maxBits)
  {
  }

  lemma PiecesNone(t: IntType, maxBits: nat)
    ensures Pieces([], t, maxBits) == []
  {
  }

  lemma JoinedNone()
    ensures Joined([]) == []
  {
  }

  lemma JoinedNext(piece: seq<RangeNode>, rest: seq<seq<RangeNode>>)
    ensures Joined([piece] + rest) == piece + Joined(rest)
  {
    assert ([piece] + rest)[1..] == rest;
  }

  predicate Sendable(r: RangeNode, t: IntType) {
    r.minIndex <= r.maxIndex < t.Modulus()
  }

  lemma StandsApart(a: seq<bool>, b: seq<bool>, bits: seq<bool>, at: nat)
    requires Stands(a + b, bits, at)
    ensures Stands(a, bits, at) && Stands(b, bits, at + |a|)
  {
    var code := bits[at..at + |a + b|];
    assert code[..|a|] == a && code[|a|..] == b;
    assert bits[at..at + |a|] == code[..|a|] && bits[at + |a|..at + |a| + |b|] == code[|a|..];
  }

  lemma NodesCodeLast(ranges: seq<RangeNode>, t: IntType)
    requires ranges != []
    ensures NodesCode(ranges, t) == NodesCode(ranges[..|ranges| - 1], t) + NodeCode(ranges[|ranges| - 1], t)
    ensures forall i :: 0 <= i < |ranges| ==> ranges[..|ranges| - 1][..i] == ranges[..i]
  {
  }

  lemma {:induction false} NodeStands(ranges: seq<RangeNode>, i: nat, t: IntType, bits: seq<bool>, at: nat)
    requires i < |ranges| && Stands(NodesCode(ranges, t), bits, at)
    ensures Stands(NodeCode(ranges[i], t), bits, at + |NodesCode(ranges[..i], t)|)
  {
    hide *;
    var last := |ranges| - 1;
    NodesCodeLast(ranges, t);
    StandsApart(NodesCode(ranges[..last], t), NodeCode(ranges[last], t), bits, at);
    if i < last {
      NodeStands(ranges[..last], i, t, bits, at);
    }
  }

  ghost function Interval(lo: nat, hi: nat): (r: set<int>)
    requires lo <= hi
    ensures (forall x :: x in r <==> lo <= x < hi) && |r| == hi - lo
  {
    if lo == hi then {} else Interval(lo, hi - 1) + {hi - 1}
  }

  ghost function Covered(ranges: seq<RangeNode>): (r: set<int>)
    ensures forall x :: x in r <==> Covers(ranges, x)
  {
    if ranges == [] then {}
    else
      var last := ranges[|ranges| - 1];
      LastCovers(ranges);
      Covered(ranges[..|ranges| - 1]) + if last.minIndex <= last.maxIndex then Interval(last.minIndex, last.maxIndex + 1) else {}
  }

  /** While no number lies in two ranges, the sum counts the numbers covered. */
  lemma {:induction false} SumCounts(ranges: seq<RangeNode>, modulus: nat)
    requires Ordered(ranges, modulus) && Disjoint(ranges)
    ensures RangeSumOf(ranges) == |Covered(ranges)|
  {
    if ranges != [] {
      hide Covers, In;
      var init, last := ranges[..|ranges| - 1], ranges[|ranges| - 1];
      SumCounts(init, modulus);
      var more := Interval(last.minIndex, last.maxIndex + 1);
      forall x | x in more ensures x !in Covered(init) {
        LastApart(ranges, x);
      }
      assert Covered(ranges) == Covered(init) + more;
    }
  }

  lemma LastApart(ranges: seq<RangeNode>, x: int)
    requires ranges != [] && Disjoint(ranges) && ranges[|ranges| - 1].minIndex <= x
    ensures !Covers(ranges[..|ranges| - 1], x)
  {
  }

  lemma LastCovers(ranges: seq<RangeNode>)
    requires ranges != []
    ensures forall x :: Covers(ranges, x) <==> Covers(ranges[..|ranges| - 1], x) || In(ranges[|ranges| - 1], x)
  {
    var init := ranges[..|ranges| - 1];
    forall x | Covers(init, x) ensures Covers(ranges, x) {
      var i :| 0 <= i < |init| && In(init[i], x);
      assert In(ranges[i], x);
    }
    forall x | Covers(ranges, x) && !In(ranges[|ranges| - 1], x) ensures Covers(init, x) {
      var i :| 0 <= i < |ranges| && In(ranges[i], x);
      assert In(init[i], x);
    }
  }

  lemma TypeSizes()
    ensures COUNT == IntType(2, false) && FLAG == IntType(1, false) && COUNT.size == 2
  {
  }

  method WriteNode(tempBS: BitStream, r: RangeNode, t: IntType) returns (bits: nat)
    requires tempBS.Valid() && t.size > 0
    modifies tempBS`data, tempBS`numberOfBitsUsed
    ensures tempBS.Valid() && tempBS.Written() == old(tempBS.Written()) + NodeCode(r, t) && bits == |NodeCode(r, t)|
  {
    hide WholeCode;
    var minEqualsMax := if r.minIndex == r.maxIndex then 1 else 0;
    ghost var was := tempBS.Written();
    tempBS.WriteWhole(minEqualsMax, FLAG);
    tempBS.WriteWhole(r.minIndex, t);
    bits := t.size * 8 + 8;
    if r.minIndex != r.maxIndex {
      tempBS.WriteWhole(r.maxIndex, t);
      bits := bits + t.size * 8;
      assert was + WholeCode(0, FLAG) + WholeCode(r.minIndex, t) + WholeCode(r.maxIndex, t) == was + NodeCode(r, t);
    } else {
      assert was + WholeCode(1, FLAG) + WholeCode(r.minIndex, t) == was + NodeCode(r, t);
    }
  }

  lemma NoNodes(ranges: seq<RangeNode>, t: IntType)
    ensures NodesCode(ranges[..0], t) == []
  {
  }

  lemma FittingNext(ranges: seq<RangeNode>, i: nat, t: IntType, maxBits: nat)
    requires i <= |ranges|
    ensures Fitting(ranges, i, t, maxBits) == if i < |ranges| && 16 + |NodesCode(ranges[..i], t)| + 16 * t.size + 1 <= maxBits
      then Fitting(ranges, i + 1, t, maxBits) else i
  {
    hide NodesCode;
  }

  lemma WireStands(sent: seq<RangeNode>, t: IntType, aligned: seq<bool>)
    ensures var s := aligned + WholeCode(|sent|, COUNT) + NodesCode(sent, t);
      Stands(WireCode(sent, t), s, |aligned|) && aligned <= s && |s| == |aligned| + |WireCode(sent, t)|
  {
    hide WholeCode, NodesCode;
  }

  /** The stream holds the wire form of some ranges. */
  ghost predicate Arriving(sent: seq<RangeNode>, t: IntType, bits: seq<bool>, at: nat) {
    && |sent| < 65536 && Stands(WireCode(sent, t), bits, at)
    && forall i :: 0 <= i < |sent| ==> Sendable(sent[i], t)
  }

  lemma CountArrives(sent: seq<RangeNode>, t: IntType, bits: seq<bool>, at: nat)
    ensures Arriving(sent, t, bits, at) ==> ReadWholeAt(bits, at, COUNT) == Outcome(true, Quantity(|sent|), at + 16)
  {
    if Arriving(sent, t, bits, at) {
      hide WholeCode, NodesCode, ReadWholeAt;
      assert COUNT.Has(|sent|) by {
        Pow2Byte(0);
        Pow2Byte(8);
      }
      StandsApart(WholeCode(|sent|, COUNT), NodesCode(sent, t), bits, at);
      WholeReadsBack(|sent|, COUNT, bits, at);
    }
  }

  lemma NodeArrives(sent: seq<RangeNode>, i: nat, t: IntType, bits: seq<bool>, at: nat)
    requires Arriving(sent, t, bits, at) && i < |sent|
    ensures Stands(NodeCode(sent[i], t), bits, at + 16 + |NodesCode(sent[..i], t)|) && Sendable(sent[i], t)
  {
    hide WholeCode, NodesCode, Stands;
    StandsApart(WholeCode(|sent|, COUNT), NodesCode(sent, t), bits, at);
    NodeStands(sent, i, t, bits, at + 16);
  }

  /** Reading a range where one stands. */
  lemma NodeReads(r: RangeNode, t: IntType, bits: seq<bool>, at: nat)
    requires t.size > 0 && !t.signed && Sendable(r, t) && Stands(NodeCode(r, t), bits, at)
    ensures ReadWholeAt(bits, at, FLAG) == Outcome(true, Quantity(if r.minIndex == r.maxIndex then 1 else 0), at + 8)
    ensures ReadWholeAt(bits, at + 8, t) == Outcome(true, Quantity(r.minIndex), at + 8 + 8 * t.size)
    ensures r.minIndex != r.maxIndex ==> ReadWholeAt(bits, at + 8 + 8 * t.size, t) == Outcome(true, Quantity(r.maxIndex), at + |NodeCode(r, t)|)
  {
    hide WholeCode, ReadWholeAt, Stands;
    Pow2Byte(0);
    if r.minIndex == r.maxIndex {
      StandsApart(WholeCode(1, FLAG), WholeCode(r.minIndex, t), bits, at);
      WholeReadsBack(1, FLAG, bits, at);
    } else {
      StandsApart(WholeCode(0, FLAG) + WholeCode(r.minIndex, t), WholeCode(r.maxIndex, t), bits, at);
      StandsApart(WholeCode(0, FLAG), WholeCode(r.minIndex, t), bits, at);
      WholeReadsBack(0, FLAG, bits, at);
      WholeReadsBack(r.maxIndex, t, bits, at + 8 + 8 * t.size);
    }
    WholeReadsBack(r.minIndex, t, bits, at + 8);
  }

  // ---------------------------------------------------------------- what any bits hold

  /** The number whose binary digits stand there, most significant first. */
  function NumberAt(bits: seq<bool>, at: nat, width: nat): nat
    requires at + width <= |bits|
  {
    Bits.Number(bits[at..at + width])
  }

  /** The range whose numbers stand at `p`: a byte of zero, and its minimum and a maximum not below it; or another byte, and one number. */
  ghost predicate RangeAt(bits: seq<bool>, p: nat, t: IntType, r: RangeNode) {
    && p + 8 + 8 * t.size <= |bits| && r.minIndex == NumberAt(bits, p + 8, 8 * t.size)
    && if NumberAt(bits, p, 8) == 0 then
      p + 8 + 16 * t.size <= |bits| && r.maxIndex == NumberAt(bits, p + 8 + 8 * t.size, 8 * t.size) && r.minIndex <= r.maxIndex
    else r.maxIndex == r.minIndex
  }

  /** A number is missing at `p`, or the maximum lies below the minimum. */
  ghost predicate NoRangeAt(bits: seq<bool>, p: nat, t: IntType) {
    || p + 8 + 8 * t.size > |bits|
    || (NumberAt(bits, p, 8) == 0
        && (p + 8 + 16 * t.size > |bits| || NumberAt(bits, p + 8 + 8 * t.size, 8 * t.size) < NumberAt(bits, p + 8, 8 * t.size)))
  }

  function RangeEnd(bits: seq<bool>, p: nat, t: IntType): nat {
    p + 8 + 8 * t.size + if p + 8 <= |bits| && NumberAt(bits, p, 8) == 0 then 8 * t.size else 0
  }

  /** Where range `n` begins when the first begins at `at`. */
  function RangesEnd(bits: seq<bool>, at: nat, t: IntType, n: nat): nat {
    if n == 0 then at else RangeEnd(bits, RangesEnd(bits, at, t, n - 1), t)
  }

  lemma RangesEndNext(bits: seq<bool>, at: nat, t: IntType, n: nat)
    ensures RangesEnd(bits, at, t, 0) == at && RangesEnd(bits, at, t, n + 1) == RangeEnd(bits, RangesEnd(bits, at, t, n), t)
  {
  }

  /** A range stands there or none does. */
  lemma RangeOrNone(bits: seq<bool>, p: nat, t: IntType, r: RangeNode)
    requires RangeAt(bits, p, t, r)
    ensures !NoRangeAt(bits, p, t)
  {
  }

  /** What the ranges read and the verdict say of the bits from `at` on, where a count stands. */
  ghost predicate Verdict(bits: seq<bool>, at: nat, t: IntType, ranges: seq<RangeNode>, ok: bool, end: nat) {
    at + 16 <= |bits| ==>
      var count := NumberAt(bits, at, 16);
      && |ranges| <= count && (ok <==> |ranges| == count)
      && (forall i :: 0 <= i < |ranges| ==> RangeAt(bits, RangesEnd(bits, at + 16, t, i), t, ranges[i]))
      && (ok ==> end == RangesEnd(bits, at + 16, t, count))
      && (!ok ==> NoRangeAt(bits, RangesEnd(bits, at + 16, t, |ranges|), t))
  }

  lemma VerdictIs(bits: seq<bool>, at: nat, t: IntType, ranges: seq<RangeNode>, ok: bool, end: nat)
    requires at + 16 <= |bits| ==>
      var count := NumberAt(bits, at, 16);
      && |ranges| <= count && (ok <==> |ranges| == count)
      && (forall i :: 0 <= i < |ranges| ==> RangeAt(bits, RangesEnd(bits, at + 16, t, i), t, ranges[i]))
      && (ok ==> end == RangesEnd(bits, at + 16, t, count))
      && (!ok ==> NoRangeAt(bits, RangesEnd(bits, at + 16, t, |ranges|), t))
    ensures Verdict(bits, at, t, ranges, ok, end)
  {
    hide NumberAt, RangeAt, RangesEnd, NoRangeAt;
  }

  lemma AlignedTo(n: nat)
    ensures Aligned(n) == (n + 7) / 8 * 8
  {
  }

  /** A number read is the number that stands there. */
  lemma NumberRead(data: seq<bool>, used: nat, at: nat, t: IntType)
    requires used <= |data| && !t.signed && at + 8 * t.size <= used
    ensures t.Read(Bits.Number(data[at..at + 8 * t.size])) == NumberAt(data[..used], at, 8 * t.size) < t.Modulus()
  {
    assert data[..used][at..at + 8 * t.size] == data[at..at + 8 * t.size];
  }

  lemma RangeFound(bits: seq<bool>, p: nat, t: IntType, r: RangeNode)
    requires p + 8 + 8 * t.size <= |bits| && r.minIndex == NumberAt(bits, p + 8, 8 * t.size)
    requires NumberAt(bits, p, 8) == 0 ==> p + 8 + 16 * t.size <= |bits| && r.maxIndex == NumberAt(bits, p + 8 + 8 * t.size, 8 * t.size)
    requires NumberAt(bits, p, 8) != 0 ==> r.maxIndex == r.minIndex
    ensures r.minIndex <= r.maxIndex ==> RangeAt(bits, p, t, r)
    ensures r.minIndex > r.maxIndex ==> NoRangeAt(bits, p, t)
    ensures RangeEnd(bits, p, t) == p + 8 + 8 * t.size + if NumberAt(bits, p, 8) == 0 then 8 * t.size else 0
  {
  }

  lemma RangeMissing(bits: seq<bool>, p: nat, t: IntType)
    requires p + 8 + 8 * t.size > |bits| || (NumberAt(bits, p, 8) == 0 && p + 8 + 16 * t.size > |bits|)
    ensures NoRangeAt(bits, p, t)
  {
  }

  method ReadNode(stream: BitStream, flagBefore: int, t: IntType, ghost r: RangeNode)
    returns (ok: bool, maxEqualToMin: int, node: RangeNode)
    requires stream.Valid() && t.size > 0 && !t.signed
    modifies stream`readOffset
    ensures stream.Valid() && stream.Written() == old(stream.Written()) && (ok ==> Sendable(node, t))
    ensures Sendable(r, t) && Stands(NodeCode(r, t), stream.Written(), old(stream.readOffset)) ==>
      ok && node == r && stream.readOffset == old(stream.readOffset) + |NodeCode(r, t)|
    ensures if ok then RangeAt(stream.Written(), old(stream.readOffset), t, node) else NoRangeAt(stream.Written(), old(stream.readOffset), t)
    ensures ok ==> stream.readOffset == RangeEnd(stream.Written(), old(stream.readOffset), t)
  {
    hide *;
    node, maxEqualToMin := RangeNode(0, 0), flagBefore;
    ghost var at, bits, data, used := stream.readOffset, stream.Written(), stream.data, stream.numberOfBitsUsed;
    stream.WrittenIs();
    TypeSizes();
    NodeWidth(r, t);
    SendableIs(r, t);
    ghost var standing := Sendable(r, t) && Stands(NodeCode(r, t), bits, at);
    if standing {
      NodeReads(r, t, bits, at);
    }
    var okFlag, read := stream.ReadWhole(FLAG);
    stream.WrittenIs();
    if okFlag {
      NumberRead(data, used, at, FLAG);
      maxEqualToMin := read;
    }
    OutcomeIs(okFlag, read, stream.readOffset, bits, at, FLAG);
    assert standing ==> okFlag && maxEqualToMin == if r.minIndex == r.maxIndex then 1 else 0;
    var min, max;
    ok, min := stream.ReadWhole(t);
    stream.WrittenIs();
    OutcomeIs(ok, min, stream.readOffset, bits, if okFlag then at + 8 else at, t);
    assert standing ==> ok && min == r.minIndex;
    if !ok {
      RangeMissing(bits, at, t);
      return;
    }
    NumberRead(data, used, at + 8, t);
    if maxEqualToMin == 0 {
      ok, max := stream.ReadWhole(t);
      stream.WrittenIs();
      OutcomeIs(ok, max, stream.readOffset, bits, at + 8 + 8 * t.size, t);
      assert standing ==> ok && max == r.maxIndex;
      if !ok {
        RangeMissing(bits, at, t);
        return;
      }
      NumberRead(data, used, at + 8 + 8 * t.size, t);
      if max < min {
        RangeFound(bits, at, t, RangeNode(min, max));
        ok := false;
        return;
      }
    } else {
      max := min;
    }
    node := RangeNode(min, max);
    RangeFound(bits, at, t, node);
    SendableIs(node, t);
  }

  lemma SendableIs(r: RangeNode, t: IntType)
    ensures Sendable(r, t) <==> r.minIndex <= r.maxIndex < t.Modulus()
  {
  }

  lemma NodeWidth(r: RangeNode, t: IntType)
    ensures |NodeCode(r, t)| == 8 + 8 * t.size + if r.minIndex == r.maxIndex then 0 else 8 * t.size
  {
  }

  lemma OutcomeIs(ok: bool, v: int, offset: nat, bits: seq<bool>, at: nat, t: IntType)
    requires Same(ok, Quantity(v), offset, ReadWholeAt(bits, at, t))
    ensures ok == ReadWholeAt(bits, at, t).ok && offset == ReadWholeAt(bits, at, t).offset && (ok ==> Quantity(v) == ReadWholeAt(bits, at, t).value)
  {
  }

  class RangeList {
    const t: IntType
    var ranges: seq<RangeNode>

    ghost predicate Valid()
      reads this
    {
      t.size > 0 && !t.signed && Ordered(ranges, t.Modulus())
    }

    constructor (t: IntType)
      requires t.size > 0 && !t.signed
      ensures Valid() && ranges == [] && this.t == t
    {
      this.t, ranges := t, [];
    }

    /** Binary search for the range that begins at the key, or for the first that begins after it. */
    method GetIndexFromKey(key: nat) returns (index: nat, objectExists: bool)
      requires Valid()
      ensures At(ranges, index, key) && (objectExists <==> index < |ranges| && ranges[index].minIndex == key)
    {
      if |ranges| == 0 {
        return 0, false;
      }
      var lowerBound, upperBound := 0, |ranges| - 1;
      index := |ranges| / 2;
      while true
        invariant 0 <= lowerBound <= index <= upperBound < |ranges|
        invariant forall i :: 0 <= i < lowerBound ==> ranges[i].minIndex < key
        invariant forall i :: upperBound < i < |ranges| ==> key < ranges[i].minIndex
        decreases upperBound - lowerBound
      {
        if key == ranges[index].minIndex {
          return index, true;
        } else if key < ranges[index].minIndex {
          upperBound := index - 1;
        } else {
          lowerBound := index + 1;
        }
        if lowerBound > upperBound {
          return lowerBound, false;
        }
        index := lowerBound + (upperBound - lowerBound) / 2;
      }
    }

    /** Put a one-number range where it sorts, unless a range begins at the number already. */
    method InsertRange(index: nat) returns (place: int)
      requires Valid()
      modifies this`ranges
      ensures Begins(old(ranges), index) ==> place == -1 && ranges == old(ranges)
      ensures !Begins(old(ranges), index) ==>
        && 0 <= place <= |old(ranges)| && At(old(ranges), place, index)
        && ranges == InsertAt(old(ranges), place, RangeNode(index, index))
    {
      var insertionIndex, objectExists := GetIndexFromKey(index);
      if objectExists {
        return -1;
      }
      ranges := InsertAt(ranges, insertionIndex, RangeNode(index, index));
      return insertionIndex;
    }

    /** The list covers one number more, or the same numbers; when it stays disjoint, and when coalesced, is told exactly. */
    method Insert(index: nat)
      requires Valid() && index < t.Modulus()
      modifies this`ranges
      ensures Valid() && Agrees(old(ranges), ranges, index, t.Modulus())
    {
      hide Ordered, At, Agrees, Wrap, IntType.Modulus, Pow2;
      Open();
      ghost var was, k := ranges, 0;
      var m := t.Modulus();
      if |ranges| == 0 {
        AtStart(index);
        PlaceAtEnd(ranges, index);
        var _ := InsertRange(index);
      } else {
        var insertionIndex, objectExists := GetIndexFromKey(index);
        k := insertionIndex;
        AtBounds(ranges, k, index, m);
        if insertionIndex == |ranges| {
          var next := Wrap(ranges[insertionIndex - 1].maxIndex + 1, m);
          if index == next {
            ranges := ranges[insertionIndex - 1 := ranges[insertionIndex - 1].(maxIndex := next)];
          } else if index > next {
            PlaceAtEnd(ranges, index);
            var _ := InsertRange(index);
          }
        } else if index < Wrap(ranges[insertionIndex].minIndex - 1, m) {
          ranges := InsertAt(ranges, insertionIndex, RangeNode(index, index));
        } else if index == Wrap(ranges[insertionIndex].minIndex - 1, m) {
          ranges := ranges[insertionIndex := ranges[insertionIndex].(minIndex := index)];
          if insertionIndex > 0 && Wrap(ranges[insertionIndex - 1].maxIndex + 1, m) == ranges[insertionIndex].minIndex {
            ranges := ranges[insertionIndex - 1 := ranges[insertionIndex - 1].(maxIndex := ranges[insertionIndex].maxIndex)];
            ranges := RemoveAt(ranges, insertionIndex);
          }
        } else if ranges[insertionIndex].minIndex <= index <= ranges[insertionIndex].maxIndex {
        } else {
          // A number beyond the range cannot be met at its index, so joining to the right never happens.
          WrapIs(ranges[insertionIndex].minIndex - 1, m);
          assert false;
        }
      }
      JoinedSame(was, k, index);
      assert ranges == InsertedAt(was, k, index, m);
      InsertedAgrees(was, k, index, m);
      Close(was, index);
    }

    lemma Reopen()
      requires t.size > 0 && !t.signed && Ordered(ranges, t.Modulus())
      ensures Valid()
    {
    }

    lemma SizeKnown()
      requires Valid()
      ensures t.size > 0
    {
    }

    lemma Open()
      requires Valid()
      ensures t.size > 0 && !t.signed && Ordered(ranges, t.Modulus()) && t.Modulus() > 1
    {
      Pow2Monotone(1, 8 * t.size);
      assert Pow2(1) == 2;
    }

    /** Send as many ranges as the limit lets in, and drop them from the list when asked to. */
    method Serialize(stream: BitStream, maxBits: nat, clearSerialized: bool) returns (bitsWritten: nat, ghost sent: seq<RangeNode>)
      requires Valid() && stream.Valid() && |ranges| < 65535
      modifies this`ranges, stream`data, stream`numberOfBitsUsed
      ensures |sent| <= |old(ranges)| && sent == old(ranges)[..|sent|] == old(ranges)[..Fitting(old(ranges), 0, t, maxBits)]
      ensures forall i :: 0 <= i < |sent| ==> 16 + |NodesCode(old(ranges)[..i], t)| + 16 * t.size + 1 <= maxBits
      ensures |sent| < |old(ranges)| ==> 16 + |NodesCode(sent, t)| + 16 * t.size + 1 > maxBits
      ensures ranges == if clearSerialized then old(ranges)[|sent|..] else old(ranges)
      ensures stream.Valid() && old(stream.Written()) <= stream.Written()
      ensures stream.numberOfBitsUsed == Aligned(old(stream.numberOfBitsUsed)) + bitsWritten
      ensures Stands(WireCode(sent, t), stream.Written(), Aligned(old(stream.numberOfBitsUsed)))
      ensures bitsWritten == |WireCode(sent, t)| && (bitsWritten == 16 || bitsWritten <= maxBits + 7)
    {
      hide *;
      TypeSizes();
      SizeKnown();
      ghost var all := ranges;
      var tempBS := new BitStream(stream.bigEndian);
      var countWritten, i := 0, 0;
      bitsWritten := 0;
      NoNodes(all, t);
      ghost var total := Fitting(all, 0, t, maxBits);
      while i < |ranges|
        invariant fresh(tempBS) && tempBS.Valid() && ranges == all && 0 <= i == countWritten <= |all|
        invariant stream.Valid() && stream.Written() == old(stream.Written()) && stream.numberOfBitsUsed == old(stream.numberOfBitsUsed)
        invariant tempBS.Written() == NodesCode(all[..i], t)
        invariant bitsWritten == |NodesCode(all[..i], t)| && Fitting(all, i, t, maxBits) == total
        invariant forall j :: 0 <= j < i ==> 16 + |NodesCode(all[..j], t)| + 16 * t.size + 1 <= maxBits
      {
        FittingNext(all, i, t, maxBits);
        NodesCodeNext(all, i, t);
        if 2 * 8 + bitsWritten + t.size * 8 * 2 + 1 > maxBits {
          break;
        }
        var bits := WriteNode(tempBS, ranges[i], t);
        bitsWritten := bitsWritten + bits;
        countWritten := countWritten + 1;
        i := i + 1;
      }
      assert countWritten == total by {
        FittingNext(all, i, t, maxBits);
      }
      sent := all[..countWritten];
      FittingBits(all, 0, t, maxBits);
      stream.AlignWriteToByteBoundary();
      ghost var aligned := stream.Written();
      var before := stream.numberOfBitsUsed;
      stream.WriteWhole(countWritten, COUNT);
      bitsWritten := bitsWritten + stream.numberOfBitsUsed - before;
      stream.Append(tempBS.Written());
      WireStands(sent, t, aligned);
      if clearSerialized && countWritten > 0 {
        RemoveFront(countWritten);
      }
    }

    /** Every range moves down by `n`, and the last `n` go. */
    method RemoveFront(n: nat)
      requires n <= |ranges|
      modifies this`ranges
      ensures ranges == old(ranges)[n..]
    {
      ghost var all := ranges;
      var rangeSize, i := |ranges|, 0;
      while i < rangeSize - n
        invariant 0 <= i <= rangeSize - n && |ranges| == rangeSize
        invariant forall j :: 0 <= j < i ==> ranges[j] == all[j + n]
        invariant forall j :: i <= j < rangeSize ==> ranges[j] == all[j]
      {
        ranges := ranges[i := ranges[i + n]];
        i := i + 1;
      }
      ranges := ranges[..rangeSize - n];
    }

    /** Whatever arrives, no range is backwards; what was sent arrives as it was. */
    method Deserialize(stream: BitStream, ghost sent: seq<RangeNode>) returns (ok: bool)
      requires t.size > 0 && !t.signed && stream.Valid()
      modifies this`ranges, stream`readOffset
      ensures stream.Valid() && stream.Written() == old(stream.Written())
      ensures Verdict(stream.Written(), (old(stream.readOffset) + 7) / 8 * 8, t, ranges, ok, stream.readOffset)
      ensures forall i :: 0 <= i < |ranges| ==> Sendable(ranges[i], t)
      ensures var at := Aligned(old(stream.readOffset));
        Arriving(sent, t, old(stream.Written()), at) ==> ok && ranges == sent && stream.readOffset == at + |WireCode(sent, t)|
    {
      hide *;
      TypeSizes();
      NoNodes(sent, t);
      ranges := [];
      stream.WrittenIs();
      stream.AlignReadToByteBoundary();
      stream.WrittenIs();
      ghost var at, bits, data, used := stream.readOffset, stream.Written(), stream.data, stream.numberOfBitsUsed;
      AlignedTo(old(stream.readOffset));
      var okCount, count := stream.ReadWhole(COUNT);
      stream.WrittenIs();
      OutcomeIs(okCount, count, stream.readOffset, bits, at, COUNT);
      CountArrives(sent, t, bits, at);
      if okCount {
        NumberRead(data, used, at, COUNT);
      }
      RangesEndNext(bits, at + 16, t, 0);
      var i, maxEqualToMin := 0, 0;
      while i < count
        invariant stream.Valid() && stream.Written() == bits && 0 <= i == |ranges|
        invariant forall j :: 0 <= j < |ranges| ==> Sendable(ranges[j], t)
        invariant okCount ==> i <= count && stream.readOffset == RangesEnd(bits, at + 16, t, i)
        invariant okCount ==> forall j :: 0 <= j < |ranges| ==> RangeAt(bits, RangesEnd(bits, at + 16, t, j), t, ranges[j])
        invariant Arriving(sent, t, bits, at) ==> count == |sent| && i <= count && ranges == sent[..i] && stream.readOffset == at + 16 + |NodesCode(sent[..i], t)|
      {
        if Arriving(sent, t, bits, at) {
          NodeArrives(sent, i, t, bits, at);
          NodesCodeNext(sent, i, t);
        }
        var node;
        ok, maxEqualToMin, node := ReadNode(stream, maxEqualToMin, t, if i < |sent| then sent[i] else RangeNode(0, 0));
        if !ok {
          VerdictIs(bits, at, t, ranges, false, stream.readOffset);
          return false;
        }
        RangesEndNext(bits, at + 16, t, i);
        ranges := ranges + [node];
        i := i + 1;
      }
      ok := true;
      VerdictIs(bits, at, t, ranges, true, stream.readOffset);
    }

    lemma Close(was: seq<RangeNode>, index: nat)
      requires t.size > 0 && !t.signed && Agrees(was, ranges, index, t.Modulus())
      ensures Valid()
    {
    }

    method RangeSum() returns (sum: int)
      ensures sum == RangeSumOf(ranges)
    {
      sum := 0;
      var i := 0;
      while i < |ranges|
        invariant 0 <= i <= |ranges| && sum == RangeSumOf(ranges[..i])
      {
        sum := sum + ranges[i].maxIndex - ranges[i].minIndex + 1;
        i := i + 1;
        assert ranges[..i][..i - 1] == ranges[..i - 1];
      }
      assert ranges[..i] == ranges;
    }
  }

  /** A number beyond all beginnings belongs at the end. */
  lemma PlaceAtEnd(ranges: seq<RangeNode>, index: nat)
    requires At(ranges, |ranges|, index)
    ensures !Begins(ranges, index) && forall p: nat :: At(ranges, p, index) ==> p == |ranges|
  {
  }

  lemma AtStart(index: nat)
    ensures At([], 0, index)
  {
  }

  lemma AtBounds(ranges: seq<RangeNode>, k: nat, index: nat, modulus: nat)
    requires Ordered(ranges, modulus) && At(ranges, k, index)
    ensures k <= |ranges| && (k < |ranges| ==> index <= ranges[k].minIndex <= ranges[k].maxIndex < modulus)
  {
  }

  /** Appending is inserting at the end; where a range begins matters no more once it is gone. */
  lemma JoinedSame(ranges: seq<RangeNode>, k: nat, index: nat)
    requires k <= |ranges|
    ensures k == |ranges| ==> InsertAt(ranges, k, RangeNode(index, index)) == ranges + [RangeNode(index, index)]
    ensures |ranges| == 0 ==> ranges + [RangeNode(index, index)] == [RangeNode(index, index)]
    ensures 0 < k < |ranges| ==> var lower := ranges[k := ranges[k].(minIndex := index)];
      RemoveAt(lower[k - 1 := lower[k - 1].(maxIndex := lower[k].maxIndex)], k) == RemoveAt(ranges[k - 1 := ranges[k - 1].(maxIndex := ranges[k].maxIndex)], k)
  {
  }

  // ---------------------------------------------------------------- whole fills and whole transfers

  ghost predicate Ascending(numbers: seq<nat>) {
    forall i, j :: 0 <= i < j < |numbers| ==> numbers[i] < numbers[j]
  }

  /** The list covers what it covered and the numbers. */
  ghost predicate CoversAlso(before: seq<RangeNode>, numbers: seq<nat>, after: seq<RangeNode>) {
    forall x :: Covers(after, x) <==> Covers(before, x) || x in numbers
  }

  /** Before number `i` every range ends below it. */
  lemma AllEndBelow(before: seq<RangeNode>, numbers: seq<nat>, i: nat, ranges: seq<RangeNode>, modulus: nat)
    requires i < |numbers| && Ascending(numbers) && Ordered(ranges, modulus) && CoversAlso(before, numbers[..i], ranges)
    requires forall x :: Covers(before, x) ==> x < numbers[0]
    ensures forall j :: 0 <= j < |ranges| ==> ranges[j].minIndex <= ranges[j].maxIndex < numbers[i]
    ensures !Covers(ranges, numbers[i])
  {
    forall j | 0 <= j < |ranges| ensures ranges[j].maxIndex < numbers[i] {
      assert In(ranges[j], ranges[j].maxIndex);
      assert Covers(ranges, ranges[j].maxIndex);
    }
  }

  lemma CoversNext(before: seq<RangeNode>, numbers: seq<nat>, i: nat, ranges: seq<RangeNode>, after: seq<RangeNode>)
    requires i < |numbers| && CoversAlso(before, numbers[..i], ranges)
    requires forall x :: Covers(after, x) <==> Covers(ranges, x) || x == numbers[i]
    ensures CoversAlso(before, numbers[..i + 1], after)
  {
    hide Covers;
    assert numbers[..i + 1] == numbers[..i] + [numbers[i]];
  }

  lemma AgreesParts(before: seq<RangeNode>, after: seq<RangeNode>, index: nat, modulus: nat)
    requires Agrees(before, after, index, modulus) && Coalesced(before) && !Repeats(before, index, modulus) && !Splits(before, index)
    requires !Covers(before, index)
    ensures Coalesced(after) && RangeSumOf(after) == RangeSumOf(before) + 1
    ensures forall x :: Covers(after, x) <==> Covers(before, x) || x == index
  {
    hide Covers, Coalesced, Repeats, Splits, RangeSumOf, Ordered, Disjoint, Strict, ZeroAgain;
  }

  /** Filled from the lowest number up, a coalesced list stays coalesced, covers the numbers, and counts every one of them. */
  method FillAscending(list: RangeList, numbers: seq<nat>)
    requires list.Valid() && Coalesced(list.ranges) && Ascending(numbers)
    requires forall i :: 0 <= i < |numbers| ==> numbers[i] < list.t.Modulus()
    requires numbers != [] ==> forall x :: Covers(list.ranges, x) ==> x < numbers[0]
    modifies list`ranges
    ensures list.Valid() && Coalesced(list.ranges) && CoversAlso(old(list.ranges), numbers, list.ranges)
    ensures RangeSumOf(list.ranges) == RangeSumOf(old(list.ranges)) + |numbers|
  {
    hide *;
    ghost var before := list.ranges;
    CoversNone(before);
    assert numbers[..0] == [];
    var i := 0;
    while i < |numbers|
      invariant 0 <= i <= |numbers| && list.Valid() && Coalesced(list.ranges) && CoversAlso(before, numbers[..i], list.ranges)
      invariant RangeSumOf(list.ranges) == RangeSumOf(before) + i
    {
      ghost var was := list.ranges;
      list.Open();
      AllEndBelow(before, numbers, i, was, list.t.Modulus());
      AscendingKeeps(was, numbers[i], list.t.Modulus());
      list.Insert(numbers[i]);
      AgreesParts(was, list.ranges, numbers[i], list.t.Modulus());
      CoversNext(before, numbers, i, was, list.ranges);
      i := i + 1;
    }
    assert numbers[..i] == numbers;
  }

  lemma CoversNone(before: seq<RangeNode>)
    ensures CoversAlso(before, [], before)
  {
  }

  lemma OrderedSendable(ranges: seq<RangeNode>, t: IntType, n: nat)
    requires Ordered(ranges, t.Modulus()) && n <= |ranges| < 65535
    ensures Ordered(ranges[n..], t.Modulus())
    ensures forall i :: 0 <= i < n ==> Sendable(ranges[..n][i], t)
  {
    hide IntType.Modulus;
  }

  lemma ArrivingIs(sent: seq<RangeNode>, t: IntType, bits: seq<bool>, at: nat)
    requires |sent| < 65536 && Stands(WireCode(sent, t), bits, at) && forall i :: 0 <= i < |sent| ==> Sendable(sent[i], t)
    ensures Arriving(sent, t, bits, at)
  {
  }

  /** What one call sends arrives as it was, and the reader ends where the writer does. */
  method SendAndReceive(sender: RangeList, receiver: RangeList, stream: BitStream, maxBits: nat, clearSerialized: bool)
    returns (ok: bool, ghost sent: seq<RangeNode>)
    requires sender != receiver && sender.Valid() && receiver.t == sender.t && stream.Valid() && |sender.ranges| < 65535
    requires stream.readOffset == stream.numberOfBitsUsed
    modifies sender`ranges, receiver`ranges, stream`data, stream`numberOfBitsUsed, stream`readOffset
    ensures ok && sent == old(sender.ranges)[..Fitting(old(sender.ranges), 0, sender.t, maxBits)] && receiver.ranges == sent
    ensures sender.ranges == if clearSerialized then old(sender.ranges)[|sent|..] else old(sender.ranges)
    ensures sender.Valid() && stream.Valid() && stream.readOffset == stream.numberOfBitsUsed
  {
    hide *;
    sender.Open();
    ghost var was, at := sender.ranges, Aligned(stream.readOffset);
    var bitsWritten;
    bitsWritten, sent := sender.Serialize(stream, maxBits, clearSerialized);
    OrderedSendable(was, sender.t, |sent|);
    sender.Reopen();
    ArrivingIs(sent, sender.t, stream.Written(), at);
    ok := receiver.Deserialize(stream, sent);
  }

  /** Call after call with clearing until the list is empty: what arrives, put together, is the list. */
  method Transfer(sender: RangeList, receiver: RangeList, stream: BitStream, maxBits: nat) returns (received: seq<seq<RangeNode>>)
    requires sender != receiver && sender.Valid() && receiver.t == sender.t && stream.Valid() && |sender.ranges| < 65535
    requires stream.readOffset == stream.numberOfBitsUsed && 16 + 16 * sender.t.size + 1 <= maxBits
    modifies sender`ranges, receiver`ranges, stream`data, stream`numberOfBitsUsed, stream`readOffset
    ensures sender.ranges == [] && received == Pieces(old(sender.ranges), sender.t, maxBits)
    ensures Joined(received) == old(sender.ranges) && |received| <= |old(sender.ranges)|
  {
    hide *;
    ghost var all := sender.ranges;
    PiecesDrain(all, sender.t, maxBits);
    received := [];
    while sender.ranges != []
      invariant sender.Valid() && stream.Valid() && |sender.ranges| < 65535 && stream.readOffset == stream.numberOfBitsUsed
      invariant received + Pieces(sender.ranges, sender.t, maxBits) == Pieces(all, sender.t, maxBits)
      decreases |sender.ranges|
    {
      FittingProgress(sender.ranges, sender.t, maxBits);
      PiecesNext(sender.ranges, sender.t, maxBits);
      var _, _ := SendAndReceive(sender, receiver, stream, maxBits, true);
      received := received + [receiver.ranges];
    }
    PiecesNone(sender.t, maxBits);
  }
}
