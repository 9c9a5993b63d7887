/** The queue as a wrap-around array with a head and a tail index. */
module Queue {
  /** The live stretch of a wrap-around buffer, from `head` up to but not including `tail`. */
  ghost function Wrapped<T>(b: seq<T>, head: nat, tail: nat): (s: seq<T>)
    requires head <= |b| && tail <= |b|
    ensures |s| == Count(|b|, head, tail)
  {
    if head <= tail then b[head..tail] else b[head..] + b[..tail]
  }

  function Count(n: nat, head: nat, tail: nat): (c: nat)
    requires head <= n && tail <= n
  {
    if head <= tail then tail - head else n - head + tail
  }

  /** The index of the element at `position`. */
  function Slot(n: nat, head: nat, position: nat): (i: nat)
    requires head < n && position < n
    ensures i < n
  {
    if head + position >= n then head + position - n else head + position
  }

  lemma WrappedAt<T>(b: seq<T>, head: nat, tail: nat, i: nat)
    requires head < |b| && tail < |b| && i < Count(|b|, head, tail)
    ensures i < |b| && Wrapped(b, head, tail)[i] == b[Slot(|b|, head, i)]
  {
  }

  lemma RemainderIs(a: nat, n: nat, q: nat, r: nat)
    requires n > 0 && a == n * q + r && r < n
    ensures a % n == r
  {
    var q1, r1 := a / n, a % n;
    assert n * (q1 - q) == r - r1;
    Multiple(n, q1 - q);
  }

  lemma Multiple(n: int, k: int)
    requires n > 0
    ensures -n < n * k < n ==> n * k == 0
  {
    if k >= 1 {
      assert n * k == n + n * (k - 1);
      assert n * (k - 1) >= 0;
    } else if k <= -1 {
      assert n * k == -n + n * (k + 1);
      assert n * (k + 1) <= 0;
    }
  }

  /** An index that wraps once is its remainder. */
  lemma SlotIsRemainder(n: nat, head: nat, position: nat)
    requires head < n && position < n
    ensures (head + position) % n == Slot(n, head, position)
  {
    if head + position >= n {
      RemainderIs(head + position, n, 1, head + position - n);
    } else {
      RemainderIs(head + position, n, 0, head + position);
    }
  }

  /** One step round the array. */
  function Next(n: nat, i: nat): (j: nat)
    requires i < n
    ensures j < n
  {
    if i + 1 == n then 0 else i + 1
  }

  lemma Appended<T>(b: seq<T>, head: nat, tail: nat, x: T)
    requires head < |b| && tail < |b| && Next(|b|, tail) != head
    ensures Wrapped(b[tail := x], head, Next(|b|, tail)) == Wrapped(b, head, tail) + [x]
  {
  }

  /** A buffer filled to the brim, read round from its head. */
  lemma Filled<T>(b: seq<T>, head: nat, tail: nat, x: T, r: seq<T>)
    requires head < |b| && tail < |b| && Next(|b|, tail) == head && |r| >= |b|
    requires forall i :: 0 <= i < |b| ==> r[i] == b[tail := x][Slot(|b|, head, i)]
    ensures r[..|b|] == Wrapped(b, head, tail) + [x]
  {
    forall i | 0 <= i < |b| - 1 ensures r[i] == Wrapped(b, head, tail)[i] {
      WrappedAt(b, head, tail, i);
    }
  }

  lemma Popped<T>(b: seq<T>, head: nat, tail: nat)
    requires head < |b| && tail < |b| && head != tail
    ensures Wrapped(b, head, tail) == [b[head]] + Wrapped(b, Next(|b|, head), tail)
  {
  }

  lemma PoppedTail<T>(b: seq<T>, head: nat, tail: nat, last: nat)
    requires head < |b| && tail < |b| && head != tail && last < |b| && Next(|b|, last) == tail
    ensures Wrapped(b, head, tail) == Wrapped(b, head, last) + [b[last]]
  {
  }

  lemma Written<T>(b: seq<T>, head: nat, tail: nat, i: nat, x: T)
    requires head < |b| && tail < |b| && i < Count(|b|, head, tail)
    ensures i < |b| && Wrapped(b[Slot(|b|, head, i) := x], head, tail) == Wrapped(b, head, tail)[i := x]
  {
    var b1 := b[Slot(|b|, head, i) := x];
    forall k | 0 <= k < Count(|b|, head, tail) ensures Wrapped(b1, head, tail)[k] == Wrapped(b, head, tail)[i := x][k] {
      WrappedAt(b, head, tail, k);
      WrappedAt(b1, head, tail, k);
    }
  }

  class Queue<T(==, 0)> {
    var buffer: array<T>
    var head: nat
    var tail: nat
    var allocation_size: nat

    constructor ()
      ensures Valid() && Contents() == [] && fresh(buffer)
    {
      buffer := new T[0];
      head, tail, allocation_size := 0, 0, 0;
    }

    /** Both indices are inside the array, and it is never left full. */
    ghost predicate Valid()
      reads this, buffer
    {
      && buffer.Length == allocation_size
      && if allocation_size == 0 then head == tail == 0 else head < allocation_size && tail < allocation_size
    }

    ghost function Contents(): (s: seq<T>)
      requires Valid()
      reads this, buffer
      ensures |s| == 0 || |s| < allocation_size
    {
      Wrapped(buffer[..], head, tail)
    }

    function Size(): (n: nat)
      requires Valid()
      reads this, buffer
      ensures n == |Contents()|
    {
      if head <= tail then tail - head else allocation_size - head + tail
    }

    predicate IsEmpty()
      requires Valid()
      reads this, buffer
      ensures IsEmpty() <==> Contents() == []
    {
      head == tail
    }

    method Push(input: T)
      requires Valid()
      modifies this, buffer
      ensures Valid() && Contents() == old(Contents()) + [input] && (buffer == old(buffer) || fresh(buffer))
      ensures allocation_size ==
        if old(allocation_size) == 0 then 16 else if |old(Contents())| + 1 == old(allocation_size) then 2 * old(allocation_size) else old(allocation_size)
    {
      if allocation_size == 0 {
        buffer := new T[16];
        head, tail, allocation_size := 0, 1, 16;
        buffer[0] := input;
        return;
      }
      ghost var was, h, t := buffer[..], head, tail;
      buffer[tail] := input;
      tail := Next(allocation_size, tail);
      if tail == head {
        Grow(was, t, input);
      } else {
        Appended(was, h, t, input);
      }
    }

    /** Copy a full array to the front of one twice its size. */
    method Grow(ghost was: seq<T>, ghost t: nat, ghost x: T)
      requires buffer.Length == allocation_size == |was| > 0 && head < |was| && t < |was| && Next(|was|, t) == head
      requires buffer[..] == was[t := x]
      modifies this
      ensures Valid() && Contents() == Wrapped(was, old(head), t) + [x] && fresh(buffer) && allocation_size == 2 * old(allocation_size)
    {
      var new_array := new T[allocation_size * 2];
      var counter := 0;
      while counter < allocation_size
        invariant 0 <= counter <= allocation_size && buffer[..] == was[t := x]
        invariant forall i :: 0 <= i < counter ==> new_array[i] == was[t := x][Slot(|was|, head, i)]
        modifies new_array
      {
        SlotIsRemainder(allocation_size, head, counter);
        assert buffer[(head + counter) % allocation_size] == was[t := x][Slot(|was|, head, counter)];
        new_array[counter] := buffer[(head + counter) % allocation_size];
        counter := counter + 1;
      }
      Filled(was, head, t, x, new_array[..]);
      head, tail, allocation_size, buffer := 0, allocation_size, allocation_size * 2, new_array;
    }

    method Pop() returns (x: T)
      requires Valid() && Contents() != []
      modifies this`head
      ensures Valid() && old(Contents()) == [x] + Contents()
    {
      Popped(buffer[..], head, tail);
      head := Next(allocation_size, head);
      x := if head == 0 then buffer[allocation_size - 1] else buffer[head - 1];
    }

    method PopTail() returns (x: T)
      requires Valid() && Contents() != []
      modifies this`tail
      ensures Valid() && old(Contents()) == Contents() + [x]
    {
      PoppedTail(buffer[..], head, tail, if tail != 0 then tail - 1 else allocation_size - 1);
      tail := if tail != 0 then tail - 1 else allocation_size - 1;
      x := buffer[tail];
    }

    /** The element at `position`, counted from the head. */
    function At(position: nat): (x: T)
      requires Valid() && position < |Contents()|
      reads this, buffer
      ensures x == Contents()[position]
    {
      WrappedAt(buffer[..], head, tail, position);
      if head + position >= allocation_size then buffer[head + position - allocation_size] else buffer[head + position]
    }

    method WriteAt(position: nat, x: T)
      requires Valid() && position < |Contents()|
      modifies buffer
      ensures Valid() && Contents() == old(Contents())[position := x]
    {
      ghost var was := buffer[..];
      Written(was, head, tail, position, x);
      buffer[Slot(allocation_size, head, position)] := x;
      assert buffer[..] == was[Slot(allocation_size, head, position) := x];
    }

    /** Put an element in at a given distance from the head. */
    method PushAtHead(input: T, index: nat)
      requires Valid() && index <= |Contents()|
      modifies this, buffer
      ensures Valid() && Contents() == old(Contents())[..index] + [input] + old(Contents())[index..]
      ensures buffer == old(buffer) || fresh(buffer)
      ensures allocation_size ==
        if old(allocation_size) == 0 then 16 else if |old(Contents())| + 1 == old(allocation_size) then 2 * old(allocation_size) else old(allocation_size)
    {
      hide *;
      ghost var was := Contents();
      Push(input);
      ghost var capacity := allocation_size;
      if Size() == 1 {
        return;
      }
      ghost var s := was + [input];
      var writeIndex := Size() - 1;
      OpenedEnds(was, input, index);
      while writeIndex > index
        invariant Valid() && index <= writeIndex < |s| && Contents() == Opened(s, writeIndex)
        invariant (buffer == old(buffer) || fresh(buffer)) && allocation_size == capacity
        modifies buffer
      {
        OpenedStep(s, writeIndex);
        var x := At(writeIndex - 1);
        WriteAt(writeIndex, x);
        writeIndex := writeIndex - 1;
      }
      WriteAt(index, input);
    }

    /** Shrink the array to the smallest power of two that still leaves a slot free. */
    method Compress()
      requires Valid()
      modifies this
      ensures Valid() && Contents() == old(Contents()) && (buffer == old(buffer) || fresh(buffer))
      ensures old(allocation_size) == 0 ==> allocation_size == 0
      ensures old(allocation_size) != 0 ==> |Contents()| < allocation_size && (allocation_size == 1 || allocation_size / 2 <= |Contents()|)
    {
      if allocation_size == 0 {
        return;
      }
      var newAllocationSize := 1;
      while newAllocationSize <= Size()
        invariant newAllocationSize == 1 || 1 <= newAllocationSize / 2 <= Size()
        decreases Size() - newAllocationSize
      {
        newAllocationSize := newAllocationSize * 2;
      }
      var new_array := new T[newAllocationSize];
      Unwrap(buffer, allocation_size, head, tail, new_array);
      head, tail, allocation_size, buffer := 0, Size(), newAllocationSize, new_array;
    }

    method Clear()
      requires Valid()
      modifies this
      ensures Valid() && Contents() == [] && (buffer == old(buffer) || fresh(buffer))
    {
      if allocation_size == 0 {
        return;
      }
      if allocation_size > 32 {
        buffer := new T[0];
        allocation_size := 0;
      }
      head, tail := 0, 0;
    }

    method Find(q: T) returns (found: bool)
      requires Valid()
      ensures found <==> q in Contents()
    {
      if allocation_size == 0 {
        return false;
      }
      var counter := head;
      ghost var k := 0;
      if head != tail {
        StepRound(allocation_size, head, tail, 0);
      }
      while counter != tail
        invariant 0 <= k <= |Contents()| && (counter == tail <==> k == |Contents()|)
        invariant (k < |Contents()| ==> counter == Slot(allocation_size, head, k))
        invariant q !in Contents()[..k]
        decreases |Contents()| - k
      {
        WrappedAt(buffer[..], head, tail, k);
        StepRound(allocation_size, head, tail, k);
        if buffer[counter] == q {
          return true;
        }
        assert Contents()[..k + 1] == Contents()[..k] + [Contents()[k]];
        counter := Next(allocation_size, counter);
        k := k + 1;
      }
      assert Contents()[..k] == Contents();
      return false;
    }

    /** Take out the element at `position`; a position past the end is ignored. */
    method RemoveAtIndex(position: nat)
      requires Valid()
      modifies this`tail, buffer
      ensures Valid()
      ensures position >= |old(Contents())| ==> Contents() == old(Contents())
      ensures position < |old(Contents())| ==> Contents() == old(Contents())[..position] + old(Contents())[position + 1..]
    {
      if head == tail || position >= Size() {
        return;
      }
      ghost var s := Contents();
      hide Wrapped, Shifted;
      var index := CloseUp(buffer, allocation_size, head, tail, position);
      PoppedTail(buffer[..], head, tail, index);
      ShiftEnd(s, position, Wrapped(buffer[..], head, index), buffer[index]);
      tail := if tail == 0 then allocation_size - 1 else tail - 1;
    }
  }

  /** Copy the live elements to the front of another array. */
  method Unwrap<T>(buffer: array<T>, n: nat, head: nat, tail: nat, new_array: array<T>)
    requires buffer.Length == n && head < n && tail < n && Count(n, head, tail) <= new_array.Length && buffer != new_array
    modifies new_array
    ensures new_array[..Count(n, head, tail)] == Wrapped(buffer[..], head, tail)
  {
    var counter := 0;
    while counter < Count(n, head, tail)
      invariant 0 <= counter <= Count(n, head, tail)
      invariant forall i :: 0 <= i < counter ==> new_array[i] == Wrapped(buffer[..], head, tail)[i]
    {
      WrappedAt(buffer[..], head, tail, counter);
      SlotIsRemainder(n, head, counter);
      new_array[counter] := buffer[(head + counter) % n];
      counter := counter + 1;
    }
  }

  /** Overwrite each element from `position` on with the one after it; hand back the slot of the last. */
  method CloseUp<T>(buffer: array<T>, n: nat, head: nat, tail: nat, position: nat) returns (index: nat)
    requires buffer.Length == n && head < n && tail < n && position < Count(n, head, tail)
    modifies buffer
    ensures index < n && Next(n, index) == tail
    ensures Wrapped(buffer[..], head, tail) == Shifted(old(Wrapped(buffer[..], head, tail)), position, Count(n, head, tail) - 1)
  {
    hide *;
    ghost var s := Wrapped(buffer[..], head, tail);
    ghost var k := position;
    ShiftStart(s, position);
    StepRound(n, head, tail, k);
    index := Slot(n, head, position);
    var next := Next(n, index);
    while next != tail
      invariant position <= k < |s| == Count(n, head, tail) <= n && index == Slot(n, head, k) && next == Next(n, index)
      invariant next == tail <==> k + 1 == |s|
      invariant Wrapped(buffer[..], head, tail) == Shifted(s, position, k)
      decreases |s| - k
    {
      ghost var b := buffer[..];
      StepRound(n, head, tail, k);
      StepRound(n, head, tail, k + 1);
      ShiftStep(s, position, k);
      WrappedAt(b, head, tail, k + 1);
      Written(b, head, tail, k, b[next]);
      buffer[index] := buffer[next];
      assert buffer[..] == b[index := b[next]];
      index := next;
      next := Next(n, next);
      k := k + 1;
    }
  }

  /** `s` with the elements from `w` on moved up by one, over its last. */
  ghost function Opened<T>(s: seq<T>, w: nat): (r: seq<T>)
    requires w < |s|
    ensures |r| == |s|
  {
    s[..w + 1] + s[w..|s| - 1]
  }

  lemma OpenedStep<T>(s: seq<T>, w: nat)
    requires 0 < w < |s|
    ensures Opened(s, w)[w - 1] == s[w - 1] && Opened(s, w)[w := s[w - 1]] == Opened(s, w - 1)
  {
  }

  lemma OpenedEnds<T>(s: seq<T>, x: T, i: nat)
    requires i <= |s|
    ensures Opened(s + [x], |s|) == s + [x] && Opened(s + [x], i)[i := x] == s[..i] + [x] + s[i..]
  {
  }

  /** `s` with the elements from `p + 1` to `k` moved down by one. */
  ghost function Shifted<T>(s: seq<T>, p: nat, k: nat): (r: seq<T>)
    requires p <= k < |s|
    ensures |r| == |s|
  {
    s[..p] + s[p + 1..k + 1] + s[k..]
  }

  lemma ShiftStart<T>(s: seq<T>, p: nat)
    requires p < |s|
    ensures Shifted(s, p, p) == s
  {
  }

  lemma ShiftStep<T>(s: seq<T>, p: nat, k: nat)
    requires p <= k && k + 1 < |s|
    ensures Shifted(s, p, k)[k + 1] == s[k + 1] && Shifted(s, p, k)[k := s[k + 1]] == Shifted(s, p, k + 1)
  {
  }

  lemma ShiftEnd<T>(s: seq<T>, p: nat, r: seq<T>, x: T)
    requires p < |s| && Shifted(s, p, |s| - 1) == r + [x]
    ensures r == s[..p] + s[p + 1..]
  {
    assert r == (r + [x])[..|s| - 1];
  }

  /** Going round by one from position `k`. */
  lemma StepRound(n: nat, head: nat, tail: nat, k: nat)
    requires head < n && tail < n && k < Count(n, head, tail)
    ensures k < n && Count(n, head, tail) <= n && (Next(n, Slot(n, head, k)) == tail <==> k + 1 == Count(n, head, tail))
    ensures k + 1 < Count(n, head, tail) ==> Next(n, Slot(n, head, k)) == Slot(n, head, k + 1)
  {
  }
}
