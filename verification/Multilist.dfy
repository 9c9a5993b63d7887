/** The list that may be kept sorted either way: its quicksort, its binary search, and the splitting of two lists
    into what they share and what only one of them has. */
module Multilist {
  import opened Sequences

  /** `x` may come before `y` in a list sorted this way. */
  predicate Leq(ascending: bool, x: int, y: int) {
    if ascending then x <= y else x >= y
  }

  ghost predicate InOrder(s: seq<int>, ascending: bool) {
    forall i, j :: 0 <= i < j < |s| ==> Leq(ascending, s[i], s[j])
  }

  // ---------------------------------------------------------------- quicksort

  /** `t` is `s` with the slots from `lo` up to `hi` permuted. */
  ghost predicate Rearranged(s: seq<int>, t: seq<int>, lo: nat, hi: nat) {
    && lo <= hi <= |s| == |t| && s[..lo] == t[..lo] && s[hi..] == t[hi..]
    && multiset(s[lo..hi]) == multiset(t[lo..hi])
  }

  ghost predicate UpTo(s: seq<int>, lo: nat, hi: nat, pivot: int, ascending: bool) {
    lo <= hi <= |s| && forall i :: lo <= i < hi ==> Leq(ascending, s[i], pivot)
  }

  ghost predicate DownTo(s: seq<int>, lo: nat, hi: nat, pivot: int, ascending: bool) {
    lo <= hi <= |s| && forall i :: lo <= i < hi ==> Leq(ascending, pivot, s[i])
  }

  lemma SwapRearranged(s: seq<int>, i: nat, j: nat, lo: nat, hi: nat)
    requires lo <= i < hi && lo <= j < hi <= |s|
    ensures Rearranged(s, Swapped(s, i, j), lo, hi)
  {
    var w := s[lo..hi];
    assert s[i := s[j]][j := s[i]][lo..hi] == w[i - lo := w[j - lo]][j - lo := w[i - lo]];
  }

  lemma RearrangedWithin(s: seq<int>, t: seq<int>, lo: nat, hi: nat, from: nat, to: nat)
    requires Rearranged(s, t, lo, hi) && from <= lo <= hi <= to <= |s|
    ensures Rearranged(s, t, from, to)
  {
    assert s[from..to] == s[from..lo] + s[lo..hi] + s[hi..to];
    assert t[from..to] == t[from..lo] + t[lo..hi] + t[hi..to];
    assert s[from..lo] == s[..lo][from..] && t[from..lo] == t[..lo][from..];
    assert s[hi..to] == s[hi..][..to - hi] && t[hi..to] == t[hi..][..to - hi];
    assert s[..from] == s[..lo][..from] && t[..from] == t[..lo][..from];
    assert s[to..] == s[hi..][to - hi..] && t[to..] == t[hi..][to - hi..];
  }

  lemma RearrangedOnward(s: seq<int>, t: seq<int>, u: seq<int>, lo: nat, hi: nat)
    requires Rearranged(s, t, lo, hi) && Rearranged(t, u, lo, hi)
    ensures Rearranged(s, u, lo, hi)
  {
  }

  lemma RearrangedBound(s: seq<int>, t: seq<int>, lo: nat, hi: nat, pivot: int, ascending: bool)
    requires Rearranged(s, t, lo, hi)
    ensures UpTo(s, lo, hi, pivot, ascending) ==> UpTo(t, lo, hi, pivot, ascending)
    ensures DownTo(s, lo, hi, pivot, ascending) ==> DownTo(t, lo, hi, pivot, ascending)
  {
    forall i | lo <= i < hi ensures t[i] in s[lo..hi] {
      assert t[lo..hi][i - lo] in multiset(t[lo..hi]);
    }
  }

  lemma RearrangedElsewhere(s: seq<int>, t: seq<int>, lo: nat, hi: nat, from: nat, to: nat)
    requires Rearranged(s, t, lo, hi) && from <= to <= |s| && (to <= lo || hi <= from)
    ensures s[from..to] == t[from..to]
  {
    assert forall i :: 0 <= i < lo ==> s[i] == s[..lo][i] && t[i] == t[..lo][i];
    assert forall i :: hi <= i < |s| ==> s[i] == s[hi..][i - hi] && t[i] == t[hi..][i - hi];
  }

  /** Everything on one side of the pivot, everything on the other, each in order. */
  lemma JoinSorted(s: seq<int>, lo: nat, mid: nat, hi: nat, pivot: int, ascending: bool)
    requires UpTo(s, lo, mid, pivot, ascending) && DownTo(s, mid, hi, pivot, ascending)
    requires InOrder(s[lo..mid], ascending) && InOrder(s[mid..hi], ascending)
    ensures InOrder(s[lo..hi], ascending)
  {
    forall i, j | 0 <= i < j < hi - lo ensures Leq(ascending, s[lo..hi][i], s[lo..hi][j]) {
      if j < mid - lo {
        assert s[lo..mid][i] == s[lo + i] && s[lo..mid][j] == s[lo + j];
      } else if mid - lo <= i {
        assert s[mid..hi][i - (mid - lo)] == s[lo + i] && s[mid..hi][j - (mid - lo)] == s[lo + j];
      } else {
        assert Leq(ascending, s[lo + i], pivot) && Leq(ascending, pivot, s[lo + j]);
      }
    }
  }

  method Swap(a: array<int>, i: nat, j: nat, ghost lo: nat, ghost hi: nat)
    requires lo <= i < hi && lo <= j < hi <= a.Length
    modifies a
    ensures a[..] == Swapped(old(a[..]), i, j) && Rearranged(old(a[..]), a[..], lo, hi)
  {
    SwapRearranged(a[..], i, j, lo, hi);
    a[i], a[j] := a[j], a[i];
  }

  function Swapped(s: seq<int>, i: nat, j: nat): (t: seq<int>)
    requires i < |s| && j < |s|
    ensures |t| == |s|
  {
    s[i := s[j]][j := s[i]]
  }

  /** What is left to divide shrinks from either end. */
  lemma PartitionStep(s: seq<int>, lo: nat, left: nat, right: nat, hi: nat, ascending: bool)
    requires lo < left < right < hi <= |s| && UpTo(s, lo, left, s[lo], ascending) && DownTo(s, right + 1, hi, s[lo], ascending)
    ensures Leq(ascending, s[left], s[lo]) ==> UpTo(s, lo, left + 1, s[lo], ascending)
    ensures Swapped(s, left, right)[lo] == s[lo]
    ensures var t := Swapped(s, left, right);
      !Leq(ascending, s[left], s[lo]) ==> UpTo(t, lo, left, s[lo], ascending) && DownTo(t, right, hi, s[lo], ascending)
  {
  }

  /** The pivot moves next to the division. */
  lemma PartitionEnd(s: seq<int>, lo: nat, left: nat, hi: nat, ascending: bool)
    requires lo < left < hi <= |s| && UpTo(s, lo, left, s[lo], ascending) && DownTo(s, left + 1, hi, s[lo], ascending)
    ensures var t := Swapped(s, lo, if Leq(ascending, s[left], s[lo]) then left else left - 1);
      UpTo(t, lo, left, s[lo], ascending) && DownTo(t, left, hi, s[lo], ascending)
  {
  }

  lemma NoneDivided(s: seq<int>, lo: nat, hi: nat, ascending: bool)
    requires lo + 1 < hi <= |s|
    ensures UpTo(s, lo, lo + 1, s[lo], ascending) && DownTo(s, hi, hi, s[lo], ascending)
  {
  }

  /** The first slot's value divides the range in two at `right`; it ends at one side of the division or the other. */
  method SwapOnward(a: array<int>, i: nat, j: nat, ghost lo: nat, ghost hi: nat, ghost s: seq<int>)
    requires lo <= i < hi && lo <= j < hi <= a.Length && Rearranged(s, a[..], lo, hi)
    modifies a
    ensures a[..] == Swapped(old(a[..]), i, j) && Rearranged(s, a[..], lo, hi)
  {
    hide *;
    ghost var t := a[..];
    Swap(a, i, j, lo, hi);
    RearrangedOnward(s, t, a[..], lo, hi);
  }

  method Partition(a: array<int>, leftEdge: nat, rightEdge: nat, ascending: bool) returns (left: nat, right: nat)
    requires leftEdge < rightEdge < a.Length
    modifies a
    ensures leftEdge <= left && left + 1 == right <= rightEdge && Rearranged(old(a[..]), a[..], leftEdge, rightEdge + 1)
    ensures var pivot := old(a[leftEdge]); UpTo(a[..], leftEdge, right, pivot, ascending) && DownTo(a[..], right, rightEdge + 1, pivot, ascending)
  {
    hide *;
    left, right := leftEdge + 1, rightEdge;
    ghost var pivot, s, end := a[leftEdge], a[..], rightEdge + 1;
    RearrangedSame(s, leftEdge, end);
    NoneDivided(s, leftEdge, end, ascending);
    while left < right
      invariant leftEdge < left <= right <= rightEdge && a[leftEdge] == pivot && Rearranged(s, a[..], leftEdge, end)
      invariant UpTo(a[..], leftEdge, left, pivot, ascending) && DownTo(a[..], right + 1, end, pivot, ascending)
    {
      ghost var t := a[..];
      PartitionStep(t, leftEdge, left, right, end, ascending);
      if Leq(ascending, a[left], a[leftEdge]) {
        left := left + 1;
      } else {
        SwapOnward(a, left, right, leftEdge, end, s);
        right := right - 1;
      }
    }
    ghost var t := a[..];
    PartitionEnd(t, leftEdge, left, end, ascending);
    if !Leq(ascending, a[left], a[leftEdge]) {
      left := left - 1;
      SwapOnward(a, leftEdge, left, leftEdge, end, s);
    } else {
      SwapOnward(a, leftEdge, left, leftEdge, end, s);
      left := left - 1;
    }
  }

  lemma RearrangedSame(s: seq<int>, lo: nat, hi: nat)
    requires lo <= hi <= |s|
    ensures Rearranged(s, s, lo, hi)
  {
  }

  lemma OneInOrder(s: seq<int>, i: nat, ascending: bool)
    requires i < |s|
    ensures InOrder(s[i..i + 1], ascending)
  {
  }

  lemma Untouched(s: seq<int>, t: seq<int>, lo: nat, hi: nat, from: nat, to: nat, pivot: int, ascending: bool)
    requires Rearranged(s, t, lo, hi) && from <= to <= |s| && (to <= lo || hi <= from)
    ensures s[from..to] == t[from..to]
    ensures UpTo(s, from, to, pivot, ascending) ==> UpTo(t, from, to, pivot, ascending)
    ensures DownTo(s, from, to, pivot, ascending) ==> DownTo(t, from, to, pivot, ascending)
  {
    RearrangedElsewhere(s, t, lo, hi, from, to);
    assert forall i :: from <= i < to ==> s[i] == s[from..to][i - from] && t[i] == t[from..to][i - from];
  }

  /** Sort slots `leftEdge` to `rightEdge`.  The pivot stays inside one of the two ranges sorted next. */
  method QSort(a: array<int>, leftEdge: nat, rightEdge: nat, ascending: bool)
    requires leftEdge < rightEdge < a.Length
    modifies a
    ensures Rearranged(old(a[..]), a[..], leftEdge, rightEdge + 1) && InOrder(a[..][leftEdge..rightEdge + 1], ascending)
    decreases rightEdge - leftEdge
  {
    hide *;
    ghost var s, pivot, end := a[..], a[leftEdge], rightEdge + 1;
    var left, right := Partition(a, leftEdge, rightEdge, ascending);
    ghost var t := a[..];
    RearrangedSame(t, leftEdge, right);
    OneInOrder(t, leftEdge, ascending);
    if left != leftEdge {
      QSort(a, leftEdge, left, ascending);
    }
    ghost var u := a[..];
    RearrangedWithin(t, u, leftEdge, right, leftEdge, end);
    RearrangedOnward(s, t, u, leftEdge, end);
    RearrangedBound(t, u, leftEdge, right, pivot, ascending);
    Untouched(t, u, leftEdge, right, right, end, pivot, ascending);
    RearrangedSame(u, right, end);
    OneInOrder(u, right, ascending);
    if right != rightEdge {
      QSort(a, right, rightEdge, ascending);
    }
    ghost var v := a[..];
    RearrangedWithin(u, v, right, end, leftEdge, end);
    RearrangedOnward(s, u, v, leftEdge, end);
    RearrangedBound(u, v, right, end, pivot, ascending);
    Untouched(u, v, right, end, leftEdge, right, pivot, ascending);
    JoinSorted(v, leftEdge, right, end, pivot, ascending);
  }

  // ---------------------------------------------------------------- the list

  datatype Kind = UnorderedList | Stack | OrderedList

  datatype SortState = Unsorted | SortedAscending | SortedDescending

  lemma InsertInOrder(s: seq<int>, i: nat, x: int, ascending: bool)
    requires i <= |s| && InOrder(s, ascending) && UpTo(s, 0, i, x, ascending) && DownTo(s, i, |s|, x, ascending)
    ensures InOrder(InsertAt(s, i, x), ascending)
  {
    var r := InsertAt(s, i, x);
    assert forall j :: 0 <= j < |r| ==> r[j] == if j < i then s[j] else if j == i then x else s[j - 1];
  }

  lemma InsertContents(s: seq<int>, i: nat, x: int)
    requires i <= |s|
    ensures multiset(InsertAt(s, i, x)) == multiset(s) + multiset{x}
    ensures i == |s| ==> InsertAt(s, i, x) == s + [x]
  {
    assert s == s[..i] + s[i..];
  }

  // ---------------------------------------------------------------- binary search

  /** The key can only be from `lower` to `upper`. */
  ghost predicate Narrowed(s: seq<int>, lower: int, upper: int, key: int, ascending: bool) {
    && 0 <= lower <= upper + 1 <= |s| && UpTo(s, 0, lower, key, ascending) && DownTo(s, upper + 1, |s|, key, ascending)
    && (forall i :: 0 <= i < lower ==> s[i] != key) && (forall i :: upper < i < |s| ==> s[i] != key)
  }

  lemma NarrowedAll(s: seq<int>, key: int, ascending: bool)
    ensures Narrowed(s, 0, |s| - 1, key, ascending)
  {
  }

  lemma NarrowUp(s: seq<int>, lower: int, upper: int, index: int, key: int, ascending: bool)
    requires InOrder(s, ascending) && Narrowed(s, lower, upper, key, ascending) && 0 <= lower <= index <= upper < |s|
    requires if ascending then s[index] < key else s[index] > key
    ensures Narrowed(s, index + 1, upper, key, ascending)
  {
  }

  lemma NarrowDown(s: seq<int>, lower: int, upper: int, index: int, key: int, ascending: bool)
    requires InOrder(s, ascending) && Narrowed(s, lower, upper, key, ascending) && 0 <= lower <= index <= upper < |s|
    requires if ascending then key < s[index] else key > s[index]
    ensures Narrowed(s, lower, index - 1, key, ascending)
  {
  }

  lemma NarrowedDone(s: seq<int>, lower: int, upper: int, key: int, ascending: bool)
    requires Narrowed(s, lower, upper, key, ascending) && lower > upper
    ensures key !in s && UpTo(s, 0, lower, key, ascending) && DownTo(s, lower, |s|, key, ascending)
  {
  }

  lemma FoundAt(s: seq<int>, index: nat, key: int, ascending: bool)
    requires InOrder(s, ascending) && index < |s| && s[index] == key
    ensures key in s && UpTo(s, 0, index, key, ascending) && DownTo(s, index, |s|, key, ascending)
  {
  }

  /** The items from the index on move up one slot. */
  method ShiftUp(data: array<int>, dataSize: nat, index: nat)
    requires index <= dataSize < data.Length
    modifies data
    ensures data[..index] == old(data[..index]) && data[index + 1..dataSize + 1] == old(data[index..dataSize])
  {
    ghost var s := data[..];
    var i := dataSize;
    while i != index
      invariant index <= i <= dataSize
      invariant forall j :: i < j <= dataSize ==> data[j] == s[j - 1]
      invariant forall j :: 0 <= j <= i ==> data[j] == s[j]
    {
      data[i] := data[i - 1];
      i := i - 1;
    }
  }

  class Multilist {
    const kind: Kind
    var data: array<int>
    var dataSize: nat
    var sortState: SortState
    var ascendingSort: bool

    predicate IsSorted()
      reads this
    {
      kind.OrderedList? || sortState != Unsorted
    }

    ghost function Contents(): (s: seq<int>)
      reads this, data
      ensures dataSize <= data.Length ==> |s| == dataSize
    {
      if dataSize <= data.Length then data[..dataSize] else data[..]
    }

    /** The list is in order when it is flagged so. */
    ghost predicate Valid()
      reads this, data
    {
      dataSize <= data.Length && (IsSorted() ==> InOrder(Contents(), ascendingSort))
    }

    constructor (kind: Kind)
      ensures Valid() && Contents() == [] && this.kind == kind && ascendingSort && fresh(data)
    {
      this.kind, data, dataSize, ascendingSort := kind, new int[0], 0, true;
      sortState := if kind.OrderedList? then SortedAscending else Unsorted;
    }

    /** Room for one more. */
    method ReallocateIfNeeded()
      requires dataSize <= data.Length
      modifies this`data
      ensures (data == old(data) || fresh(data)) && dataSize < data.Length && Contents() == old(Contents()) && old(Valid()) == Valid()
      ensures data == old(data) <==> old(dataSize) < old(data.Length)
      ensures data != old(data) ==>
        data.Length == if old(data.Length) < 16 then 32 else if old(data.Length) > 65536 then old(data.Length) + 65536 else 2 * old(data.Length)
    {
      var allocationSize := data.Length;
      if dataSize < allocationSize {
        return;
      }
      var newData := new int[if allocationSize < 16 then 32 else if allocationSize > 65536 then allocationSize + 65536 else allocationSize * 2];
      var i := 0;
      while i < dataSize
        invariant dataSize == old(dataSize) && data == old(data) && fresh(newData)
        invariant 0 <= i <= dataSize < newData.Length && newData[..i] == data[..i] == old(data[..i])
      {
        newData[i] := data[i];
        i := i + 1;
      }
      data := newData;
    }

    /** Binary search: where the key is, or where it would go. */
    method GetIndexFromKeyInSortedList(key: int) returns (index: nat, objectExists: bool)
      requires Valid() && IsSorted()
      ensures index <= dataSize && (objectExists <==> key in Contents()) && (objectExists ==> index < dataSize && data[index] == key)
      ensures UpTo(Contents(), 0, index, key, ascendingSort) && DownTo(Contents(), index, dataSize, key, ascendingSort)
    {
      hide *;
      Open();
      Size();
      ghost var s, ascending := Contents(), ascendingSort;
      NarrowedAll(s, key, ascending);
      if dataSize == 0 {
        NarrowedDone(s, 0, -1, key, ascending);
        return 0, false;
      }
      var lowerBound, upperBound := 0, dataSize - 1;
      index := dataSize / 2;
      while true
        invariant 0 <= lowerBound <= index <= upperBound < dataSize && Narrowed(s, lowerBound, upperBound, key, ascending)
        decreases upperBound - lowerBound
      {
        if key > data[index] {
          if ascendingSort {
            NarrowUp(s, lowerBound, upperBound, index, key, ascending);
            lowerBound := index + 1;
          } else {
            NarrowDown(s, lowerBound, upperBound, index, key, ascending);
            upperBound := index - 1;
          }
        } else if key < data[index] {
          if ascendingSort {
            NarrowDown(s, lowerBound, upperBound, index, key, ascending);
            upperBound := index - 1;
          } else {
            NarrowUp(s, lowerBound, upperBound, index, key, ascending);
            lowerBound := index + 1;
          }
        } else {
          FoundAt(s, index, key, ascending);
          return index, true;
        }
        if lowerBound > upperBound {
          NarrowedDone(s, lowerBound, upperBound, key, ascending);
          return lowerBound, false;
        }
        index := lowerBound + (upperBound - lowerBound) / 2;
      }
    }

    method InsertShiftArrayRight(d: int, index: nat)
      requires index <= dataSize < data.Length
      modifies this`dataSize, data
      ensures dataSize == old(dataSize) + 1 && Contents() == InsertAt(old(Contents()), index, d)
    {
      ShiftUp(data, dataSize, index);
      data[index] := d;
      dataSize := dataSize + 1;
    }

    method InsertInOrderedList(d: int)
      requires Valid() && kind.OrderedList? && dataSize < data.Length
      modifies this`dataSize, data
      ensures Valid() && multiset(Contents()) == old(multiset(Contents())) + multiset{d}
    {
      Open();
      hide *;
      var index, _ := GetIndexFromKeyInSortedList(d);
      ghost var s := Contents();
      if index >= dataSize {
        PushAtEnd(d);
      } else {
        InsertShiftArrayRight(d, index);
      }
      InsertInOrder(s, index, d, ascendingSort);
      InsertContents(s, index, d);
      Close();
    }

    method PushAtEnd(d: int)
      requires dataSize < data.Length
      modifies this`dataSize, data
      ensures dataSize == old(dataSize) + 1 && Contents() == InsertAt(old(Contents()), old(dataSize), d) == old(Contents()) + [d]
    {
      data[dataSize] := d;
      dataSize := dataSize + 1;
    }

    lemma Open()
      requires Valid()
      ensures dataSize <= data.Length && |Contents()| == dataSize && (IsSorted() ==> InOrder(Contents(), ascendingSort))
      ensures IsSorted() <==> kind.OrderedList? || sortState != Unsorted
    {
    }

    lemma Close()
      requires dataSize <= data.Length && (dataSize <= 1 || !IsSorted() || InOrder(Contents(), ascendingSort))
      ensures Valid()
    {
    }

    method Push(d: int)
      requires Valid()
      modifies this, data
      ensures Valid() && (data == old(data) || fresh(data)) && ascendingSort == old(ascendingSort)
      ensures multiset(Contents()) == old(multiset(Contents())) + multiset{d}
      ensures !kind.OrderedList? ==> Contents() == old(Contents()) + [d]
      ensures sortState == if kind.OrderedList? || old(dataSize) == 0 then old(sortState) else Unsorted
    {
      hide *;
      Open();
      ReallocateIfNeeded();
      if kind.OrderedList? {
        InsertInOrderedList(d);
      } else {
        InsertContents(Contents(), dataSize, d);
        PushAtEnd(d);
        BreakSort();
      }
    }

    /** Whatever the comparison with the element before says, the flag ends up cleared, unless there is none before. */
    method BreakSort()
      requires dataSize <= data.Length && !kind.OrderedList?
      modifies this`sortState
      ensures Valid() && Contents() == old(Contents())
      ensures sortState == if dataSize > 1 then Unsorted else old(sortState)
    {
      if sortState != Unsorted && dataSize > 1 {
        sortState := Unsorted;
      }
    }

    method ReverseListInternal()
      requires dataSize <= data.Length
      modifies data
      ensures multiset(Contents()) == old(multiset(Contents())) && Reversal(old(Contents()), Contents())
    {
      hide *;
      ghost var s, n := data[..], dataSize;
      WholeTurned(s, s, n);
      Live();
      var i := 0;
      while i < dataSize / 2
        invariant 0 <= i <= n / 2 && Rearranged(s, data[..], 0, n) && Turned(s, data[..], i, n)
      {
        ghost var t := data[..];
        TurnedStep(s, t, i, n);
        Swap(data, i, dataSize - 1 - i, 0, n);
        RearrangedOnward(s, t, data[..], 0, n);
        i := i + 1;
      }
      WholeTurned(s, data[..], n);
      Live();
    }

    lemma Size()
      requires Valid()
      ensures dataSize <= data.Length && |Contents()| == dataSize && forall i :: 0 <= i < dataSize ==> Contents()[i] == data[i]
    {
    }

    lemma Live()
      requires dataSize <= data.Length
      ensures Contents() == data[..][..dataSize]
    {
    }

    /** A list flagged as sorted is turned round when the order asked for is the other one. */
    method SetSortOrder(ascending: bool)
      requires Valid()
      modifies this`ascendingSort, data
      ensures Valid() && ascendingSort == ascending && multiset(Contents()) == old(multiset(Contents()))
      ensures !old(IsSorted()) || old(ascendingSort) == ascending ==> Contents() == old(Contents())
      ensures old(IsSorted()) && old(ascendingSort) != ascending ==>
        && |Contents()| == |old(Contents())|
        && forall i :: 0 <= i < |Contents()| ==> Contents()[i] == old(Contents())[|Contents()| - 1 - i]
    {
      if ascendingSort != ascending && IsSorted() {
        ascendingSort := ascending;
        ReverseListInternal();
      } else {
        ascendingSort := ascending;
      }
    }

    method TagSorted()
      requires dataSize <= data.Length && InOrder(Contents(), ascendingSort)
      modifies this`sortState
      ensures Valid() && IsSorted() && Contents() == old(Contents())
      ensures sortState == if ascendingSort then SortedAscending else SortedDescending
    {
      sortState := if ascendingSort then SortedAscending else SortedDescending;
    }

    /** A flag that is wrong is harmless when sorting is forced. */
    method Sort(force: bool)
      requires dataSize <= data.Length && (force || Valid())
      modifies this`sortState, data
      ensures Valid() && IsSorted() && InOrder(Contents(), ascendingSort) && multiset(Contents()) == old(multiset(Contents()))
      ensures if old(IsSorted()) && !force then Contents() == old(Contents()) && sortState == old(sortState)
              else sortState == if ascendingSort then SortedAscending else SortedDescending
    {
      if IsSorted() && !force {
        return;
      }
      if dataSize > 1 {
        QSort(data, 0, dataSize - 1, ascendingSort);
        WholeSorted(old(data[..]), data[..], dataSize, ascendingSort);
      }
      TagSorted();
    }

    method Clear()
      modifies this
      ensures Valid() && Contents() == [] && (data == old(data) || fresh(data)) && ascendingSort == old(ascendingSort)
    {
      dataSize := 0;
      sortState := if !kind.OrderedList? then Unsorted else if ascendingSort then SortedAscending else SortedDescending;
      if data.Length < 128 {
        data := new int[0];
      }
    }
  }

  lemma WholeSorted(s: seq<int>, t: seq<int>, n: nat, ascending: bool)
    requires 0 < n <= |s| && Rearranged(s, t, 0, n) && InOrder(t[0..n], ascending)
    ensures multiset(t[..n]) == multiset(s[..n]) && InOrder(t[..n], ascending)
  {
    assert t[0..n] == t[..n] && s[0..n] == s[..n];
  }

  /** The outermost `i` slots at both ends of the first `n` have changed places. */
  ghost predicate Turned(s: seq<int>, t: seq<int>, i: nat, n: nat) {
    && i <= n / 2 && n <= |s| == |t|
    && (forall k :: 0 <= k < i || n - i <= k < n ==> t[k] == s[n - 1 - k])
    && forall k :: i <= k < n - i ==> t[k] == s[k]
  }

  ghost predicate Reversal(s: seq<int>, t: seq<int>) {
    |s| == |t| && forall k :: 0 <= k < |s| ==> t[k] == s[|s| - 1 - k]
  }

  lemma TurnedStep(s: seq<int>, t: seq<int>, i: nat, n: nat)
    requires i < n / 2 && Turned(s, t, i, n)
    ensures Turned(s, Swapped(t, i, n - 1 - i), i + 1, n)
  {
  }

  lemma WholeTurned(s: seq<int>, t: seq<int>, n: nat)
    requires n <= |s|
    ensures Rearranged(s, s, 0, n) && Turned(s, s, 0, n)
    ensures Rearranged(s, t, 0, n) && Turned(s, t, n / 2, n) ==>
      multiset(t[..n]) == multiset(s[..n]) && Reversal(s[..n], t[..n])
  {
    assert s[0..n] == s[..n];
    assert n <= |t| ==> t[0..n] == t[..n];
  }

  // ---------------------------------------------------------------- what two lists share

  /** Everything so far in the three outputs, plus what is left of the sources, is what belongs there. */
  ghost predicate Dealt(both: multiset<int>, only1: multiset<int>, only2: multiset<int>, r1: multiset<int>,
          r2: multiset<int>, s1: multiset<int>, s2: multiset<int>) {
    both + r1 * r2 == s1 * s2 && only1 + (r1 - r2) == s1 - s2 && only2 + (r2 - r1) == s2 - s1
  }

  lemma TakeShared(both: multiset<int>, only1: multiset<int>, only2: multiset<int>, x: int, r1: multiset<int>,
          r2: multiset<int>, s1: multiset<int>, s2: multiset<int>)
    requires Dealt(both, only1, only2, r1 + multiset{x}, r2 + multiset{x}, s1, s2)
    ensures Dealt(both + multiset{x}, only1, only2, r1, r2, s1, s2)
  {
    assert (r1 + multiset{x}) * (r2 + multiset{x}) == r1 * r2 + multiset{x};
    assert (r1 + multiset{x}) - (r2 + multiset{x}) == r1 - r2 && (r2 + multiset{x}) - (r1 + multiset{x}) == r2 - r1;
  }

  lemma TakeFirst(both: multiset<int>, only1: multiset<int>, only2: multiset<int>, x: int, r1: multiset<int>,
          r2: multiset<int>, s1: multiset<int>, s2: multiset<int>)
    requires x !in r2 && Dealt(both, only1, only2, r1 + multiset{x}, r2, s1, s2)
    ensures Dealt(both, only1 + multiset{x}, only2, r1, r2, s1, s2)
  {
    assert (r1 + multiset{x}) * r2 == r1 * r2;
    assert (r1 + multiset{x}) - r2 == r1 - r2 + multiset{x} && r2 - (r1 + multiset{x}) == r2 - r1;
  }

  lemma TakeSecond(both: multiset<int>, only1: multiset<int>, only2: multiset<int>, x: int, r1: multiset<int>,
          r2: multiset<int>, s1: multiset<int>, s2: multiset<int>)
    requires x !in r1 && Dealt(both, only1, only2, r1, r2 + multiset{x}, s1, s2)
    ensures Dealt(both, only1, only2 + multiset{x}, r1, r2, s1, s2)
  {
    assert r1 * (r2 + multiset{x}) == r1 * r2;
    assert (r2 + multiset{x}) - r1 == r2 - r1 + multiset{x} && r1 - (r2 + multiset{x}) == r1 - r2;
  }

  /** The front of a sorted rest: the rest without it, and what comes no earlier. */
  lemma FrontOfRest(s: seq<int>, i: nat)
    requires i < |s| && InOrder(s, true)
    ensures multiset(s[i..]) == multiset(s[i + 1..]) + multiset{s[i]} && forall y :: y < s[i] ==> y !in multiset(s[i..])
  {
    assert s[i..] == [s[i]] + s[i + 1..];
  }

  lemma NothingDealt(s1: seq<int>, s2: seq<int>)
    ensures Dealt(multiset{}, multiset{}, multiset{}, multiset(s1[0..]), multiset(s2[0..]), multiset(s1), multiset(s2))
  {
    assert s1[0..] == s1 && s2[0..] == s2;
  }

  /** The comparison of the two fronts decides where one or both go. */
  lemma DealtStep(both: multiset<int>, only1: multiset<int>, only2: multiset<int>, s1: seq<int>, s2: seq<int>,
          i: nat, j: nat, m1: multiset<int>, m2: multiset<int>)
    requires i < |s1| && j < |s2| && InOrder(s1, true) && InOrder(s2, true)
    requires Dealt(both, only1, only2, multiset(s1[i..]), multiset(s2[j..]), m1, m2)
    ensures s1[i] < s2[j] ==> Dealt(both, only1 + multiset{s1[i]}, only2, multiset(s1[i + 1..]), multiset(s2[j..]), m1, m2)
    ensures s1[i] == s2[j] ==> Dealt(both + multiset{s1[i]}, only1, only2, multiset(s1[i + 1..]), multiset(s2[j + 1..]), m1, m2)
    ensures s1[i] > s2[j] ==> Dealt(both, only1, only2 + multiset{s2[j]}, multiset(s1[i..]), multiset(s2[j + 1..]), m1, m2)
  {
    hide *;
    FrontOfRest(s1, i);
    FrontOfRest(s2, j);
    if s1[i] < s2[j] {
      TakeFirst(both, only1, only2, s1[i], multiset(s1[i + 1..]), multiset(s2[j..]), m1, m2);
    } else if s1[i] == s2[j] {
      TakeShared(both, only1, only2, s1[i], multiset(s1[i + 1..]), multiset(s2[j + 1..]), m1, m2);
    } else {
      TakeSecond(both, only1, only2, s2[j], multiset(s1[i..]), multiset(s2[j + 1..]), m1, m2);
    }
  }

  /** Once one source is used up, the rest of the other is its own. */
  lemma DealtEnd(both: multiset<int>, only1: multiset<int>, only2: multiset<int>, s1: seq<int>, s2: seq<int>, i: nat,
          j: nat, m1: multiset<int>, m2: multiset<int>)
    requires i <= |s1| && j <= |s2| && (i == |s1| || j == |s2|) && Dealt(both, only1, only2, multiset(s1[i..]), multiset(s2[j..]), m1, m2)
    ensures both == m1 * m2 && only1 + multiset(s1[i..]) == m1 - m2 && only2 + multiset(s2[j..]) == m2 - m1
  {
    var r1, r2 := multiset(s1[i..]), multiset(s2[j..]);
    assert r1 == multiset{} || r2 == multiset{};
    assert both + r1 * r2 == both && r1 - r2 == r1 && r2 - r1 == r2;
  }

  /** No two of the lists share their storage, and each can be relied on. */
  ghost predicate Unaliased(lists: set<Multilist>)
    reads lists, set l | l in lists :: l.data
  {
    (forall l :: l in lists ==> l.Valid()) && forall l, m :: l in lists && m in lists && l != m ==> l.data != m.data
  }

  method PushOnto(out: Multilist, d: int, ghost lists: set<Multilist>)
    requires Unaliased(lists) && out in lists
    modifies out, out.data
    ensures (out.data == old(out.data) || fresh(out.data))
    ensures Unaliased(lists) && multiset(out.Contents()) == old(multiset(out.Contents())) + multiset{d}
    ensures forall l :: l in lists && l != out ==> l.Contents() == old(l.Contents()) && l.dataSize == old(l.dataSize) && l.data == old(l.data)
  {
    hide InOrder;
    out.Push(d);
  }

  method SortAscending(source: Multilist, ghost lists: set<Multilist>)
    requires Unaliased(lists) && source in lists
    modifies source, source.data
    ensures source.data == old(source.data)
    ensures Unaliased(lists) && InOrder(source.Contents(), true) && multiset(source.Contents()) == old(multiset(source.Contents()))
    ensures forall l :: l in lists && l != source ==> l.Contents() == old(l.Contents()) && l.dataSize == old(l.dataSize) && l.data == old(l.data)
  {
    hide InOrder;
    source.SetSortOrder(true);
    source.Sort(false);
  }

  method Empty(out: Multilist, ghost lists: set<Multilist>)
    requires Unaliased(lists) && out in lists
    modifies out
    ensures (out.data == old(out.data) || fresh(out.data))
    ensures Unaliased(lists) && out.Contents() == []
    ensures forall l :: l in lists && l != out ==> l.Contents() == old(l.Contents()) && l.dataSize == old(l.dataSize) && l.data == old(l.data)
  {
    hide InOrder;
    out.Clear();
  }

  /** The items of the source from `start` on go to `out`. */
  method PushRest(source: Multilist, start: nat, out: Multilist, ghost lists: set<Multilist>)
    requires Unaliased(lists) && source in lists && out in lists && source != out && start <= |source.Contents()|
    modifies out, out.data
    ensures (out.data == old(out.data) || fresh(out.data))
    ensures Unaliased(lists) && multiset(out.Contents()) == old(multiset(out.Contents())) + multiset(source.Contents()[start..])
    ensures forall l :: l in lists && l != out ==> l.Contents() == old(l.Contents()) && l.dataSize == old(l.dataSize) && l.data == old(l.data)
  {
    hide *;
    ghost var s := source.Contents();
    SizeOf(source, lists);
    var index := start;
    NoneOfRest(s, start);
    while index < source.dataSize
      invariant start <= index <= |s| == source.dataSize && Unaliased(lists) && (out.data == old(out.data) || fresh(out.data))
      invariant multiset(out.Contents()) == old(multiset(out.Contents())) + multiset(s[start..index])
      invariant forall l :: l in lists && l != out ==> l.Contents() == old(l.Contents()) && l.dataSize == old(l.dataSize) && l.data == old(l.data)
    {
      SizeOf(source, lists);
      MoreOfRest(s, start, index);
      PushOnto(out, source.data[index], lists);
      index := index + 1;
    }
  }

  lemma NoneOfRest(s: seq<int>, start: nat)
    requires start <= |s|
    ensures multiset(s[start..start]) == multiset{} && s[start..] == s[start..|s|]
  {
  }

  lemma MoreOfRest(s: seq<int>, start: nat, i: nat)
    requires start <= i < |s|
    ensures multiset(s[start..i + 1]) == multiset(s[start..i]) + multiset{s[i]}
  {
    assert s[start..i + 1] == s[start..i] + [s[i]];
  }

  lemma SizeOf(l: Multilist, lists: set<Multilist>)
    requires Unaliased(lists) && l in lists
    ensures l.dataSize <= l.data.Length && |l.Contents()| == l.dataSize && forall i :: 0 <= i < l.dataSize ==> l.Contents()[i] == l.data[i]
  {
  }

  /** Compare two fronts and deal one item. */
  method DealOne(source1: Multilist, source2: Multilist, both: Multilist, only1: Multilist, only2: Multilist, i: nat, j: nat,
                 ghost lists: set<Multilist>, ghost m1: multiset<int>, ghost m2: multiset<int>)
    returns (i1: nat, j1: nat)
    requires lists == {source1, source2, both, only1, only2} && Unaliased(lists)
    requires source1 !in {source2, both, only1, only2} && source2 !in {both, only1, only2} && both !in {only1, only2} && only1 != only2
    requires i < source1.dataSize == |source1.Contents()| && j < source2.dataSize == |source2.Contents()|
    requires InOrder(source1.Contents(), true) && InOrder(source2.Contents(), true)
    requires Dealt(multiset(both.Contents()), multiset(only1.Contents()), multiset(only2.Contents()),
                   multiset(source1.Contents()[i..]), multiset(source2.Contents()[j..]), m1, m2)
    modifies both, only1, only2, both.data, only1.data, only2.data
    ensures Unaliased(lists) && source1.Contents() == old(source1.Contents()) && source2.Contents() == old(source2.Contents())
    ensures both.data == old(both.data) || fresh(both.data)
    ensures only1.data == old(only1.data) || fresh(only1.data)
    ensures only2.data == old(only2.data) || fresh(only2.data)
    ensures i <= i1 <= source1.dataSize == old(source1.dataSize) && j <= j1 <= source2.dataSize == old(source2.dataSize) && i + j < i1 + j1
    ensures |source1.Contents()| == source1.dataSize && |source2.Contents()| == source2.dataSize
    ensures Dealt(multiset(both.Contents()), multiset(only1.Contents()), multiset(only2.Contents()),
                  multiset(source1.Contents()[i1..]), multiset(source2.Contents()[j1..]), m1, m2)
  {
    hide *;
    i1, j1 := i, j;
    SizeOf(source1, lists);
    SizeOf(source2, lists);
    DealtStep(multiset(both.Contents()), multiset(only1.Contents()), multiset(only2.Contents()),
              source1.Contents(), source2.Contents(), i, j, m1, m2);
    if source1.data[i] < source2.data[j] {
      PushOnto(only1, source1.data[i], lists);
      i1 := i + 1;
    } else if source1.data[i] == source2.data[j] {
      PushOnto(both, source1.data[i], lists);
      i1, j1 := i + 1, j + 1;
    } else {
      PushOnto(only2, source2.data[j], lists);
      j1 := j + 1;
    }
  }


  /** Both sources end up sorted; the outputs hold what they share, as often as they share it, and the two rests. */
  method FindIntersection(source1: Multilist, source2: Multilist, intersection: Multilist,
          uniqueToSource1: Multilist, uniqueToSource2: Multilist, ghost lists: set<Multilist>)
    requires lists == {source1, source2, intersection, uniqueToSource1, uniqueToSource2} && Unaliased(lists)
    requires source1 !in {source2, intersection, uniqueToSource1, uniqueToSource2}
    requires source2 !in {intersection, uniqueToSource1, uniqueToSource2}
    requires intersection !in {uniqueToSource1, uniqueToSource2} && uniqueToSource1 != uniqueToSource2
    modifies lists, set l | l in lists :: l.data
    ensures Unaliased(lists) && InOrder(source1.Contents(), true) && InOrder(source2.Contents(), true)
    ensures multiset(source1.Contents()) == old(multiset(source1.Contents()))
    ensures multiset(source2.Contents()) == old(multiset(source2.Contents()))
    ensures multiset(intersection.Contents()) == old(multiset(source1.Contents()) * multiset(source2.Contents()))
    ensures multiset(uniqueToSource1.Contents()) == old(multiset(source1.Contents()) - multiset(source2.Contents()))
    ensures multiset(uniqueToSource2.Contents()) == old(multiset(source2.Contents()) - multiset(source1.Contents()))
  {
    hide *;
    var index1, index2 := 0, 0;
    ghost var m1, m2 := multiset(source1.Contents()), multiset(source2.Contents());
    SortAscending(source1, lists);
    SortAscending(source2, lists);
    Empty(intersection, lists);
    Empty(uniqueToSource1, lists);
    Empty(uniqueToSource2, lists);
    ghost var s1, s2 := source1.Contents(), source2.Contents();
    SizeOf(source1, lists);
    SizeOf(source2, lists);
    NothingDealt(s1, s2);
    while index1 < source1.dataSize && index2 < source2.dataSize
      invariant intersection.data == old(intersection.data) || fresh(intersection.data)
      invariant uniqueToSource1.data == old(uniqueToSource1.data) || fresh(uniqueToSource1.data)
      invariant uniqueToSource2.data == old(uniqueToSource2.data) || fresh(uniqueToSource2.data)
      invariant Unaliased(lists) && source1.Contents() == s1 && source2.Contents() == s2
      invariant 0 <= index1 <= |s1| == source1.dataSize && 0 <= index2 <= |s2| == source2.dataSize
      invariant Dealt(multiset(intersection.Contents()), multiset(uniqueToSource1.Contents()), multiset(uniqueToSource2.Contents()), multiset(s1[index1..]), multiset(s2[index2..]), m1, m2)
      decreases |s1| + |s2| - index1 - index2
    {
      index1, index2 := DealOne(source1, source2, intersection, uniqueToSource1, uniqueToSource2, index1, index2, lists, m1, m2);
    }
    DealtEnd(multiset(intersection.Contents()), multiset(uniqueToSource1.Contents()), multiset(uniqueToSource2.Contents()), s1, s2, index1, index2, m1, m2);
    PushRest(source1, index1, uniqueToSource1, lists);
    PushRest(source2, index2, uniqueToSource2, lists);
  }
}
