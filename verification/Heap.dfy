/** The binary heap over a list, in its maximum and its minimum form. */
module Heap {
  datatype HeapNode<T> = HeapNode(weight: int, data: T)

  function Parent(i: nat): (p: nat)
    requires i != 0
    ensures p < i
  {
    (i - 1) / 2
  }

  function LeftChild(i: nat): (c: nat)
    ensures c != 0 && Parent(c) == i
  {
    i * 2 + 1
  }

  function RightChild(i: nat): (c: nat)
    ensures c != 0 && Parent(c) == i
  {
    i * 2 + 2
  }

  lemma ChildOf(i: nat, c: nat)
    requires c != 0 && Parent(c) == i
    ensures c == LeftChild(i) || c == RightChild(i)
  {
  }

  /** `a` may stand above `b`. */
  predicate Above(isMaxHeap: bool, a: int, b: int) {
    if isMaxHeap then a >= b else a <= b
  }

  ghost predicate Ordered<T>(isMaxHeap: bool, s: seq<HeapNode<T>>) {
    forall i :: 0 < i < |s| ==> Above(isMaxHeap, s[Parent(i)].weight, s[i].weight)
  }

  /** In order but for the pair of `hole` and its parent; what is below `hole` is in order with that parent. */
  ghost predicate OrderedUp<T>(isMaxHeap: bool, s: seq<HeapNode<T>>, hole: nat) {
    && (forall i :: 0 < i < |s| && i != hole ==> Above(isMaxHeap, s[Parent(i)].weight, s[i].weight))
    && (forall i :: 0 < i < |s| && 0 < hole < |s| && Parent(i) == hole ==> Above(isMaxHeap, s[Parent(hole)].weight, s[i].weight))
  }

  /** In order but for the pairs of `hole` and its children; those are in order with the parent of `hole`. */
  ghost predicate OrderedDown<T>(isMaxHeap: bool, s: seq<HeapNode<T>>, hole: nat) {
    && (forall i :: 0 < i < |s| && Parent(i) != hole ==> Above(isMaxHeap, s[Parent(i)].weight, s[i].weight))
    && (forall i :: 0 < i < |s| && 0 < hole < |s| && Parent(i) == hole ==> Above(isMaxHeap, s[Parent(hole)].weight, s[i].weight))
  }

  function Swapped<T>(s: seq<T>, i: nat, j: nat): (r: seq<T>)
    requires i < |s| && j < |s|
    ensures multiset(r) == multiset(s) && |r| == |s|
  {
    s[i := s[j]][j := s[i]]
  }

  /** The first entry of an ordered heap is an extreme one. */
  lemma {:induction false} RootExtreme<T>(isMaxHeap: bool, s: seq<HeapNode<T>>, i: nat)
    requires Ordered(isMaxHeap, s) && i < |s|
    ensures Above(isMaxHeap, s[0].weight, s[i].weight)
  {
    if i != 0 {
      RootExtreme(isMaxHeap, s, Parent(i));
    }
  }

  lemma SwapUp<T>(isMaxHeap: bool, s: seq<HeapNode<T>>, i: nat)
    requires 0 < i < |s| && OrderedUp(isMaxHeap, s, i) && !Above(isMaxHeap, s[Parent(i)].weight, s[i].weight)
    ensures OrderedUp(isMaxHeap, Swapped(s, i, Parent(i)), Parent(i))
  {
    var p := Parent(i);
    var r := Swapped(s, i, p);
    forall k | 0 < k < |r| && k != p ensures Above(isMaxHeap, r[Parent(k)].weight, r[k].weight) {
      SwapUpPair(isMaxHeap, s, i, k);
    }
    forall k | 0 < k < |r| && 0 < p && Parent(k) == p ensures Above(isMaxHeap, r[Parent(p)].weight, r[k].weight) {
      assert Above(isMaxHeap, s[Parent(p)].weight, s[p].weight);
      assert k != i ==> Above(isMaxHeap, s[p].weight, s[k].weight);
    }
  }

  /** A new last entry is where the order may be broken. */
  lemma EndHole<T>(isMaxHeap: bool, s: seq<HeapNode<T>>, x: HeapNode<T>)
    requires Ordered(isMaxHeap, s)
    ensures OrderedUp(isMaxHeap, s + [x], |s|) && multiset(s + [x]) == multiset(s) + multiset{x}
  {
  }

  /** What the comparison with the parent decides. */
  lemma HoleFits<T>(isMaxHeap: bool, s: seq<HeapNode<T>>, i: nat)
    requires 0 < i < |s| && OrderedUp(isMaxHeap, s, i)
    ensures Above(isMaxHeap, s[Parent(i)].weight, s[i].weight) ==> Ordered(isMaxHeap, s)
    ensures Above(isMaxHeap, s[Parent(i)].weight, s[i].weight) <==>
      if isMaxHeap then s[Parent(i)].weight >= s[i].weight else s[Parent(i)].weight <= s[i].weight
  {
  }

  lemma SwappedHole<T>(s: seq<T>, i: nat)
    requires 0 < i < |s|
    ensures Swapped(s, i, Parent(i))[Parent(i)] == s[i]
  {
  }

  lemma TopHole<T>(isMaxHeap: bool, s: seq<HeapNode<T>>)
    requires OrderedUp(isMaxHeap, s, 0)
    ensures Ordered(isMaxHeap, s)
  {
  }

  lemma SwapUpPair<T>(isMaxHeap: bool, s: seq<HeapNode<T>>, i: nat, k: nat)
    requires 0 < i < |s| && OrderedUp(isMaxHeap, s, i) && !Above(isMaxHeap, s[Parent(i)].weight, s[i].weight)
    requires 0 < k < |s| && k != Parent(i)
    ensures var r := Swapped(s, i, Parent(i)); Above(isMaxHeap, r[Parent(k)].weight, r[k].weight)
  {
    assert k != i ==> Above(isMaxHeap, s[Parent(k)].weight, s[k].weight);
  }

  lemma SwapDown<T>(isMaxHeap: bool, s: seq<HeapNode<T>>, i: nat, c: nat)
    requires i < |s| && 0 < c < |s| && Parent(c) == i && OrderedDown(isMaxHeap, s, i)
    requires Above(isMaxHeap, s[c].weight, s[i].weight)
    requires forall k :: 0 < k < |s| && Parent(k) == i ==> Above(isMaxHeap, s[c].weight, s[k].weight)
    ensures OrderedDown(isMaxHeap, Swapped(s, i, c), c)
  {
  }

  /** What the sift-down sees: whether `w`, held at `i`, may stand above every child of `i`. */
  predicate Rests<T>(isMaxHeap: bool, s: seq<HeapNode<T>>, i: nat, w: int) {
    && (LeftChild(i) < |s| ==> Above(isMaxHeap, w, s[LeftChild(i)].weight))
    && (RightChild(i) < |s| ==> Above(isMaxHeap, w, s[RightChild(i)].weight))
  }

  lemma ChildBounds(i: nat)
    ensures i < LeftChild(i) < RightChild(i)
  {
  }

  lemma NoChild<T>(isMaxHeap: bool, s: seq<HeapNode<T>>, i: nat, w: int)
    requires LeftChild(i) >= |s| || Rests(isMaxHeap, s, i, w)
    ensures Rests(isMaxHeap, s, i, w)
  {
  }

  /** The child to swap with. */
  function Favoured<T>(isMaxHeap: bool, s: seq<HeapNode<T>>, i: nat): (c: nat)
    requires LeftChild(i) < |s|
    ensures i < c < |s|
  {
    if RightChild(i) < |s| && Above(isMaxHeap, s[RightChild(i)].weight, s[LeftChild(i)].weight) then RightChild(i) else LeftChild(i)
  }

  lemma Downward<T>(isMaxHeap: bool, s: seq<HeapNode<T>>, i: nat)
    requires LeftChild(i) < |s| && OrderedDown(isMaxHeap, s, i) && !Rests(isMaxHeap, s, i, s[i].weight)
    ensures OrderedDown(isMaxHeap, Swapped(s, i, Favoured(isMaxHeap, s, i)), Favoured(isMaxHeap, s, i))
    ensures Swapped(s, i, Favoured(isMaxHeap, s, i))[Favoured(isMaxHeap, s, i)] == s[i]
  {
    var child := Favoured(isMaxHeap, s, i);
    forall k | 0 < k < |s| && Parent(k) == i ensures Above(isMaxHeap, s[child].weight, s[k].weight) {
      ChildOf(i, k);
    }
    SwapDown(isMaxHeap, s, i, child);
  }

  lemma Settled<T>(isMaxHeap: bool, s: seq<HeapNode<T>>, i: nat)
    requires OrderedDown(isMaxHeap, s, i) && (i < |s| ==> Rests(isMaxHeap, s, i, s[i].weight))
    ensures Ordered(isMaxHeap, s)
  {
    forall k | 0 < k < |s| && Parent(k) == i ensures Above(isMaxHeap, s[i].weight, s[k].weight) {
      ChildOf(i, k);
    }
  }

  /** The last entry moved over the first. */
  lemma LastToFirst<T>(isMaxHeap: bool, s: seq<HeapNode<T>>)
    requires s != [] && Ordered(isMaxHeap, s)
    ensures var r := s[0 := s[|s| - 1]][..|s| - 1];
      OrderedDown(isMaxHeap, r, 0) && multiset(r) == multiset(s) - multiset{s[0]}
  {
    LastToFirstContents(s);
  }

  lemma LastToFirstContents<T>(s: seq<T>)
    requires s != []
    ensures multiset(s[0 := s[|s| - 1]][..|s| - 1]) == multiset(s) - multiset{s[0]}
  {
    var n := |s| - 1;
    var r := s[0 := s[n]][..n];
    if n > 0 {
      assert s == [s[0]] + s[1..n] + [s[n]];
      assert r == [s[n]] + s[1..n];
    } else {
      assert s == [s[0]];
    }
  }

  lemma RootAboveAll<T>(isMaxHeap: bool, s: seq<HeapNode<T>>, r: multiset<HeapNode<T>>)
    requires s != [] && Ordered(isMaxHeap, s) && r <= multiset(s)
    ensures forall x :: x in r ==> Above(isMaxHeap, s[0].weight, x.weight)
  {
    forall x | x in r ensures Above(isMaxHeap, s[0].weight, x.weight) {
      assert x in s;
      var i :| 0 <= i < |s| && s[i] == x;
      RootExtreme(isMaxHeap, s, i);
    }
  }

  /** The entries a series pushed from now on will be children of, and those after them, stand above `weight`. */
  ghost predicate TailAbove<T>(isMaxHeap: bool, s: seq<HeapNode<T>>, weight: int) {
    forall i :: 0 <= i < |s| && Parent(|s|) <= i ==> Above(isMaxHeap, s[i].weight, weight)
  }

  lemma TailAboveLater<T>(isMaxHeap: bool, s: seq<HeapNode<T>>, weight: int, later: int)
    requires TailAbove(isMaxHeap, s, weight) && Above(isMaxHeap, weight, later)
    ensures TailAbove(isMaxHeap, s, later)
  {
  }

  lemma AppendOrdered<T>(isMaxHeap: bool, s: seq<HeapNode<T>>, x: HeapNode<T>)
    requires Ordered(isMaxHeap, s) && TailAbove(isMaxHeap, s, x.weight)
    ensures Ordered(isMaxHeap, s + [x]) && TailAbove(isMaxHeap, s + [x], x.weight)
  {
    var r := s + [x];
    forall i | 0 < i < |r| ensures Above(isMaxHeap, r[Parent(i)].weight, r[i].weight) {
      assert Parent(i) < |s|;
    }
  }

  lemma PrefixContents<T>(items: seq<T>, i: nat)
    requires i < |items|
    ensures multiset(items[..i + 1]) == multiset(items[..i]) + multiset{items[i]}
  {
    assert items[..i + 1] == items[..i] + [items[i]];
  }

  class Heap<T(==)> {
    const isMaxHeap: bool
    var heap: seq<HeapNode<T>>
    var optimizeNextSeriesPush: bool

    constructor (isMaxHeap: bool)
      ensures heap == [] && !optimizeNextSeriesPush && this.isMaxHeap == isMaxHeap
    {
      this.isMaxHeap := isMaxHeap;
      heap, optimizeNextSeriesPush := [], false;
    }

    method Push(weight: int, data: T)
      requires Ordered(isMaxHeap, heap)
      modifies this`heap
      ensures Ordered(isMaxHeap, heap) && multiset(heap) == multiset(old(heap)) + multiset{HeapNode(weight, data)}
    {
      hide *;
      var currentIndex := |heap|;
      EndHole(isMaxHeap, heap, HeapNode(weight, data));
      heap := heap + [HeapNode(weight, data)];
      ghost var all := multiset(heap);
      while currentIndex != 0
        invariant 0 <= currentIndex < |heap| && multiset(heap) == all && heap[currentIndex].weight == weight
        invariant OrderedUp(isMaxHeap, heap, currentIndex)
      {
        var parentIndex := Parent(currentIndex);
        HoleFits(isMaxHeap, heap, currentIndex);
        SwappedHole(heap, currentIndex);
        if isMaxHeap {
          if heap[parentIndex].weight < weight {
            SwapUp(isMaxHeap, heap, currentIndex);
            heap := Swapped(heap, currentIndex, parentIndex);
            currentIndex := parentIndex;
          } else {
            break;
          }
        } else {
          if heap[parentIndex].weight > weight {
            SwapUp(isMaxHeap, heap, currentIndex);
            heap := Swapped(heap, currentIndex, parentIndex);
            currentIndex := parentIndex;
          } else {
            break;
          }
        }
      }
      if currentIndex == 0 {
        TopHole(isMaxHeap, heap);
      }
    }

    /** Take the first entry off. */
    method Pop() returns (data: T)
      requires Ordered(isMaxHeap, heap) && heap != []
      modifies this`heap
      ensures Ordered(isMaxHeap, heap) && data == old(heap)[0].data && multiset(heap) == multiset(old(heap)) - multiset{old(heap)[0]}
      ensures forall x :: x in multiset(heap) ==> Above(isMaxHeap, old(heap)[0].weight, x.weight)
    {
      hide *;
      ghost var was := heap;
      data := heap[0].data;
      ghost var rest := was[0 := was[|was| - 1]][..|was| - 1];
      LastToFirst(isMaxHeap, was);
      RootAboveAll(isMaxHeap, was, multiset(rest));
      heap := heap[0 := heap[|heap| - 1]];
      var currentWeight := heap[0].weight;
      heap := heap[..|heap| - 1];
      assert heap == rest;
      SiftDown(currentWeight);
    }

    /** Swap the first entry down until both its children may stand below it. */
    method SiftDown(currentWeight: int)
      requires OrderedDown(isMaxHeap, heap, 0) && (heap != [] ==> heap[0].weight == currentWeight)
      modifies this`heap
      ensures Ordered(isMaxHeap, heap) && multiset(heap) == multiset(old(heap))
    {
      hide *;
      var currentIndex := 0;
      while true
        invariant 0 <= currentIndex && multiset(heap) == multiset(old(heap)) && OrderedDown(isMaxHeap, heap, currentIndex)
        invariant currentIndex < |heap| ==> heap[currentIndex].weight == currentWeight
        decreases |heap| - currentIndex
      {
        ChildBounds(currentIndex);
        if LeftChild(currentIndex) >= |heap| || Rests(isMaxHeap, heap, currentIndex, currentWeight) {
          NoChild(isMaxHeap, heap, currentIndex, currentWeight);
          Settled(isMaxHeap, heap, currentIndex);
          return;
        }
        var child := Favoured(isMaxHeap, heap, currentIndex);
        Downward(isMaxHeap, heap, currentIndex);
        heap := Swapped(heap, currentIndex, child);
        currentIndex := child;
      }
    }

    method StartSeries()
      modifies this`optimizeNextSeriesPush
      ensures !optimizeNextSeriesPush
    {
      optimizeNextSeriesPush := false;
    }

    /** Push the next of a series.  Once one entry has gone straight to the end, so may every later one
        that does not stand above it. */
    method PushSeries(weight: int, data: T)
      requires Ordered(isMaxHeap, heap) && (optimizeNextSeriesPush ==> TailAbove(isMaxHeap, heap, weight))
      modifies this
      ensures Ordered(isMaxHeap, heap) && multiset(heap) == multiset(old(heap)) + multiset{HeapNode(weight, data)}
      ensures optimizeNextSeriesPush ==> TailAbove(isMaxHeap, heap, weight)
      ensures old(optimizeNextSeriesPush) ==> optimizeNextSeriesPush
      ensures optimizeNextSeriesPush <==> old(optimizeNextSeriesPush) || TailAbove(isMaxHeap, old(heap), weight)
      ensures optimizeNextSeriesPush ==> heap == old(heap) + [HeapNode(weight, data)]
    {
      if !optimizeNextSeriesPush {
        var currentIndex := |heap|;
        if currentIndex > 0 {
          var parentIndex := Parent(currentIndex);
          while parentIndex < currentIndex
            invariant Parent(currentIndex) <= parentIndex <= currentIndex
            invariant forall i :: Parent(currentIndex) <= i < parentIndex ==> Above(isMaxHeap, heap[i].weight, weight)
          {
            if isMaxHeap {
              if weight > heap[parentIndex].weight {
                Push(weight, data);
                return;
              }
            } else {
              if weight < heap[parentIndex].weight {
                Push(weight, data);
                return;
              }
            }
            parentIndex := parentIndex + 1;
          }
        }
        optimizeNextSeriesPush := true;
      }
      AppendOrdered(isMaxHeap, heap, HeapNode(weight, data));
      heap := heap + [HeapNode(weight, data)];
    }

    /** The documented use: a series whose weights follow the heap order, with no other call in between. */
    method PushAll(items: seq<HeapNode<T>>)
      requires Ordered(isMaxHeap, heap)
      requires forall i :: 0 < i < |items| ==> Above(isMaxHeap, items[i - 1].weight, items[i].weight)
      modifies this
      ensures Ordered(isMaxHeap, heap) && multiset(heap) == multiset(old(heap)) + multiset(items)
    {
      hide *;
      StartSeries();
      var i := 0;
      while i < |items|
        invariant 0 <= i <= |items| && Ordered(isMaxHeap, heap) && multiset(heap) == multiset(old(heap)) + multiset(items[..i])
        invariant optimizeNextSeriesPush && i > 0 ==> TailAbove(isMaxHeap, heap, items[i - 1].weight)
        invariant i == 0 ==> !optimizeNextSeriesPush
      {
        if optimizeNextSeriesPush {
          TailAboveLater(isMaxHeap, heap, items[i - 1].weight, items[i].weight);
        }
        PushSeries(items[i].weight, items[i].data);
        PrefixContents(items, i);
        i := i + 1;
      }
      assert items[..i] == items;
    }

    /** Pop after pop. */
    method PopMany(n: nat) returns (data: seq<T>, ghost popped: seq<HeapNode<T>>)
      requires Ordered(isMaxHeap, heap) && n <= |heap|
      modifies this`heap
      ensures Ordered(isMaxHeap, heap) && |data| == |popped| == n && (forall i :: 0 <= i < n ==> data[i] == popped[i].data)
      ensures forall i, j :: 0 <= i < j < n ==> Above(isMaxHeap, popped[i].weight, popped[j].weight)
      ensures multiset(popped) + multiset(heap) == multiset(old(heap))
    {
      hide *;
      data, popped := [], [];
      PopNone(isMaxHeap, multiset(heap));
      while |data| < n
        invariant Ordered(isMaxHeap, heap) && |data| == |popped| <= n && n - |data| <= |heap|
        invariant forall i :: 0 <= i < |data| ==> data[i] == popped[i].data
        invariant PopRun(isMaxHeap, multiset(old(heap)), popped, multiset(heap))
      {
        ghost var before := heap;
        RootAboveAll(isMaxHeap, heap, multiset(heap));
        var d := Pop();
        PopOneMore(isMaxHeap, multiset(old(heap)), popped, multiset(before), before[0]);
        assert |multiset(heap)| == |multiset(before)| - 1;
        data, popped := data + [d], popped + [before[0]];
      }
      PopsInOrder(isMaxHeap, multiset(old(heap)), popped, multiset(heap));
    }

    function PeekWeight(): (w: int)
      requires Ordered(isMaxHeap, heap) && heap != []
      reads this
      ensures forall x :: x in heap ==> Above(isMaxHeap, w, x.weight)
    {
      RootAboveAll(isMaxHeap, heap, multiset(heap));
      heap[0].weight
    }
  }

  /** The weights a run of pops hands back, and what is left of the heap's contents after it. */
  ghost predicate PopRun<T>(isMaxHeap: bool, contents: multiset<HeapNode<T>>, popped: seq<HeapNode<T>>, left: multiset<HeapNode<T>>)
    decreases |popped|
  {
    if popped == [] then left == contents
    else popped[0] in contents && (forall x :: x in contents ==> Above(isMaxHeap, popped[0].weight, x.weight))
         && PopRun(isMaxHeap, contents - multiset{popped[0]}, popped[1..], left)
  }

  /** However many pops are made in a row, they come out in order, and they are what the heap held. */
  lemma {:induction false} PopsInOrder<T>(isMaxHeap: bool, contents: multiset<HeapNode<T>>, popped: seq<HeapNode<T>>,
          left: multiset<HeapNode<T>>)
    requires PopRun(isMaxHeap, contents, popped, left)
    ensures forall i, j :: 0 <= i < j < |popped| ==> Above(isMaxHeap, popped[i].weight, popped[j].weight)
    ensures multiset(popped) + left == contents
    decreases |popped|
  {
    if popped != [] {
      PopsInOrder(isMaxHeap, contents - multiset{popped[0]}, popped[1..], left);
      assert popped == [popped[0]] + popped[1..];
      forall j | 0 < j < |popped| ensures Above(isMaxHeap, popped[0].weight, popped[j].weight) {
        assert popped[j] == popped[1..][j - 1];
        assert popped[j] in multiset(popped[1..]);
      }
    }
  }

  lemma PopNone<T>(isMaxHeap: bool, contents: multiset<HeapNode<T>>)
    ensures PopRun(isMaxHeap, contents, [], contents)
  {
  }

  lemma {:induction false} PopOneMore<T>(isMaxHeap: bool, contents: multiset<HeapNode<T>>, popped: seq<HeapNode<T>>,
                                         left: multiset<HeapNode<T>>, x: HeapNode<T>)
    requires PopRun(isMaxHeap, contents, popped, left)
    requires x in left && forall y :: y in left ==> Above(isMaxHeap, x.weight, y.weight)
    ensures PopRun(isMaxHeap, contents, popped + [x], left - multiset{x})
    decreases |popped|
  {
    if popped == [] {
      assert [x][1..] == [];
    } else {
      PopOneMore(isMaxHeap, contents - multiset{popped[0]}, popped[1..], left, x);
      assert (popped + [x])[1..] == popped[1..] + [x];
    }
  }
}
