/** The circular doubly linked list, and its merge sort. */
module LinkedList {
  import opened Sequences

  class Node {
    var item: int
    var previous: Node
    var next: Node

    constructor (item: int)
      ensures this.item == item && previous == this && next == this
    {
      this.item := item;
      previous, next := this, this;
    }
  }

  /** The nodes follow one another round a circle, linked both ways. */
  ghost predicate Ring(ns: seq<Node>)
    reads (set n | n in ns)`next, (set n | n in ns)`previous
  {
    forall i :: 0 <= i < |ns| ==> ns[i].next == ns[Succ(i, |ns|)] && ns[Succ(i, |ns|)].previous == ns[i]
  }

  ghost function ItemsOf(ns: seq<Node>): (s: seq<int>)
    reads (set n | n in ns)`item
    ensures |s| == |ns| && forall i :: 0 <= i < |ns| ==> s[i] == ns[i].item
  {
    if ns == [] then [] else ItemsOf(ns[..|ns| - 1]) + [ns[|ns| - 1].item]
  }

  /** A node is put in after node `p` of the circle. */
  method LinkAfter(position: Node, new_node: Node, ghost ns: seq<Node>, ghost p: nat)
    requires Ring(ns) && NoDup(ns) && p < |ns| && ns[p] == position && new_node !in ns
    modifies (set n | n in ns)`next, (set n | n in ns)`previous, new_node`next, new_node`previous
    ensures Ring(InsertAt(ns, p + 1, new_node))
  {
    hide InsertAt;
    ghost var n := |ns|;
    ghost var after := ns[Succ(p, n)];
    assert position.next == after;
    new_node.previous := position;
    new_node.next := position.next;
    position.next.previous := new_node;
    position.next := new_node;
    ghost var r := InsertAt(ns, p + 1, new_node);
    forall j | 0 <= j < |r| ensures r[j].next == r[Succ(j, |r|)] && r[Succ(j, |r|)].previous == r[j] {
      InsertCircle(ns, p + 1, new_node, j);
    }
  }

  /** A node leaves the circle. */
  method Unlink(position: Node, ghost ns: seq<Node>, ghost p: nat)
    requires Ring(ns) && NoDup(ns) && p < |ns| && ns[p] == position
    modifies (set n | n in ns)`next, (set n | n in ns)`previous
    ensures Ring(RemoveAt(ns, p)) && (|ns| > 1 ==> position.next == old(position.next))
  {
    hide RemoveAt;
    ghost var n := |ns|;
    ghost var before := if p == 0 then n - 1 else p - 1;
    assert Succ(before, n) == p && ns[before].next == position && position.previous == ns[before];
    position.previous.next := position.next;
    position.next.previous := position.previous;
    ghost var r := RemoveAt(ns, p);
    forall j | 0 <= j < |r| ensures r[j].next == r[Succ(j, |r|)] && r[Succ(j, |r|)].previous == r[j] {
      RemoveCircle(ns, p, j);
    }
  }

  // ---------------------------------------------------------------- what sorting computes

  ghost predicate Sorted(s: seq<int>) {
    forall i, j :: 0 <= i < j < |s| ==> s[i] <= s[j]
  }

  /** The items added one by one to an empty list whose position stays at its first. */
  ghost function Filled(s: seq<int>): (r: seq<int>)
    ensures |r| == |s|
  {
    if |s| <= 1 then s else InsertAt(Filled(s[..|s| - 1]), 1, s[|s| - 1])
  }

  ghost function Merged(a: seq<int>, b: seq<int>): (r: seq<int>)
    ensures |r| == |a| + |b|
  {
    if a == [] then b else if b == [] then a
    else if a[0] < b[0] then [a[0]] + Merged(a[1..], b) else [b[0]] + Merged(a, b[1..])
  }

  ghost function Mergesorted(s: seq<int>): (r: seq<int>)
    decreases |s|
  {
    if |s| <= 1 then s
    else Merged(Mergesorted(Filled(s[..|s| / 2])), Mergesorted(Filled(s[|s| / 2..])))
  }

  lemma InsertContents(s: seq<int>, i: nat, x: int)
    requires i <= |s|
    ensures multiset(InsertAt(s, i, x)) == multiset(s) + multiset{x}
  {
    assert s == s[..i] + s[i..];
  }

  lemma LastContents(s: seq<int>)
    requires s != []
    ensures multiset(s) == multiset(s[..|s| - 1]) + multiset{s[|s| - 1]}
  {
    assert s == s[..|s| - 1] + [s[|s| - 1]];
  }

  lemma {:induction false} FilledContents(s: seq<int>)
    ensures multiset(Filled(s)) == multiset(s)
  {
    if |s| > 1 {
      hide InsertAt;
      var init := s[..|s| - 1];
      FilledContents(init);
      LastContents(s);
      InsertContents(Filled(init), 1, s[|s| - 1]);
    }
  }

  lemma {:induction false} MergedContents(a: seq<int>, b: seq<int>)
    ensures multiset(Merged(a, b)) == multiset(a) + multiset(b)
  {
    hide *;
    MergedOnce(a, b);
    if a != [] && b != [] {
      if a[0] < b[0] {
        MergedContents(a[1..], b);
        FrontContents(a[0], Merged(a[1..], b));
        assert a == [a[0]] + a[1..];
        FrontContents(a[0], a[1..]);
      } else {
        MergedContents(a, b[1..]);
        FrontContents(b[0], Merged(a, b[1..]));
        assert b == [b[0]] + b[1..];
        FrontContents(b[0], b[1..]);
      }
    }
  }

  lemma MergedOnce(a: seq<int>, b: seq<int>)
    ensures Merged(a, b) == if a == [] then b else if b == [] then a
                           else if a[0] < b[0] then [a[0]] + Merged(a[1..], b) else [b[0]] + Merged(a, b[1..])
  {
  }

  lemma FrontContents(x: int, rest: seq<int>)
    ensures multiset([x] + rest) == multiset{x} + multiset(rest)
  {
  }

  lemma {:induction false} MergedSorted(a: seq<int>, b: seq<int>)
    requires Sorted(a) && Sorted(b)
    ensures Sorted(Merged(a, b))
  {
    if a != [] && b != [] {
      FirstLeast(a);
      FirstLeast(b);
      if a[0] < b[0] {
        MergedSorted(a[1..], b);
        MergedContents(a[1..], b);
        SortedCons(a[0], Merged(a[1..], b), multiset(a[1..]) + multiset(b));
      } else {
        MergedSorted(a, b[1..]);
        MergedContents(a, b[1..]);
        SortedCons(b[0], Merged(a, b[1..]), multiset(a) + multiset(b[1..]));
      }
    }
  }

  lemma FirstLeast(a: seq<int>)
    requires Sorted(a) && a != []
    ensures Sorted(a[1..]) && (forall y :: y in multiset(a) ==> a[0] <= y) && forall y :: y in multiset(a[1..]) ==> a[0] <= y
  {
  }

  lemma SortedCons(x: int, rest: seq<int>, m: multiset<int>)
    requires Sorted(rest) && multiset(rest) == m && forall y :: y in m ==> x <= y
    ensures Sorted([x] + rest)
  {
    forall j | 0 <= j < |rest| ensures x <= rest[j] {
      assert rest[j] in multiset(rest);
    }
  }

  lemma {:induction false} MergesortedSorted(s: seq<int>)
    ensures Sorted(Mergesorted(s)) && multiset(Mergesorted(s)) == multiset(s)
    decreases |s|
  {
    hide *;
    if |s| <= 1 {
      SortedOne(s);
    } else {
      var l, r := Filled(s[..|s| / 2]), Filled(s[|s| / 2..]);
      SortSplit(s);
      Halves(s);
      MergesortedSorted(l);
      MergesortedSorted(r);
      MergedSorted(Mergesorted(l), Mergesorted(r));
      MergedContents(Mergesorted(l), Mergesorted(r));
    }
  }

  lemma SortedOne(s: seq<int>)
    ensures |s| <= 1 ==> Mergesorted(s) == s && Sorted(s)
  {
  }

  lemma SortSplit(s: seq<int>)
    requires |s| > 1
    ensures Mergesorted(s) == Merged(Mergesorted(Filled(s[..|s| / 2])), Mergesorted(Filled(s[|s| / 2..])))
  {
    hide Merged, Filled;
  }

  lemma Halves(s: seq<int>)
    requires |s| > 1
    ensures |Filled(s[..|s| / 2])| < |s| && |Filled(s[|s| / 2..])| < |s|
    ensures multiset(Filled(s[..|s| / 2])) + multiset(Filled(s[|s| / 2..])) == multiset(s)
  {
    hide *;
    FilledContents(s[..|s| / 2]);
    FilledContents(s[|s| / 2..]);
    TwoParts(s, |s| / 2);
  }

  lemma TwoParts(s: seq<int>, n: nat)
    requires n <= |s|
    ensures multiset(s[..n]) + multiset(s[n..]) == multiset(s)
  {
    assert s == s[..n] + s[n..];
  }

  // ---------------------------------------------------------------- the list

  lemma {:induction false} ItemsInsert(ns: seq<Node>, i: nat, n: Node)
    requires i <= |ns|
    ensures ItemsOf(InsertAt(ns, i, n)) == InsertAt(ItemsOf(ns), i, n.item)
  {
  }

  lemma {:induction false} ItemsRemove(ns: seq<Node>, i: nat)
    requires i < |ns|
    ensures ItemsOf(RemoveAt(ns, i)) == RemoveAt(ItemsOf(ns), i)
  {
  }

  class CircularLinkedList {
    var list_size: nat
    var root: Node?
    var position: Node?
    ghost var nodes: seq<Node>
    /** How far round from the root the position is. */
    ghost var at: nat
    ghost var repr: set<Node>

    ghost predicate Valid()
      reads this, repr
    {
      && repr == Elements(nodes) && list_size == |nodes| && NoDup(nodes) && Ring(nodes)
      && if nodes == [] then root == null && position == null && at == 0
         else at < |nodes| && root == nodes[0] && position == nodes[at]
    }

    ghost function Items(): (s: seq<int>)
      requires Valid()
      reads this, repr
      ensures |s| == |nodes|
    {
      ItemsOf(nodes)
    }

    constructor ()
      ensures Valid() && Items() == [] && nodes == [] && at == 0 && repr == {}
    {
      list_size, root, position, nodes, at, repr := 0, null, null, [], 0, {};
    }

    lemma Open()
      requires Valid()
      ensures Items() == ItemsOf(nodes) && repr == Elements(nodes) && (forall n :: n in nodes ==> n in repr)
      ensures list_size == |nodes| && NoDup(nodes) && Ring(nodes)
      ensures if nodes == [] then root == null && position == null && at == 0
              else at < |nodes| && root == nodes[0] && position == nodes[at]
    {
    }

    lemma Close()
      requires repr == Elements(nodes) && list_size == |nodes| && NoDup(nodes) && Ring(nodes)
      requires if nodes == [] then root == null && position == null && at == 0
               else at < |nodes| && root == nodes[0] && position == nodes[at]
      ensures Valid() && Items() == ItemsOf(nodes)
    {
    }

    /** Add after the position, which stays where it is. */
    method Add(input: int)
      requires Valid()
      modifies this, repr
      ensures Valid() && at == old(at) && fresh(repr - old(repr))
      ensures Items() == if old(nodes) == [] then [input] else InsertAt(old(Items()), old(at) + 1, input)
      ensures |nodes| == |old(nodes)| + 1 && (old(nodes) != [] ==> old(at) < |old(nodes)| && nodes[..at + 1] == old(nodes)[..at + 1])
    {
      hide *;
      Open();
      var new_node := NewNode(input, nodes);
      if list_size == 0 {
        root, position, nodes, repr := new_node, new_node, [new_node], {new_node};
        OneElement(new_node);
      } else {
        AddAfter(position, new_node, nodes, at);
        AddedNodes(nodes, at + 1, new_node);
        nodes, repr := InsertAt(nodes, at + 1, new_node), repr + {new_node};
      }
      list_size := list_size + 1;
      Close();
    }

    /** Delete the item at the position, which moves to the next. */
    method Del()
      requires Valid()
      modifies this, repr
      ensures Valid() && repr <= old(repr)
      ensures old(nodes) == [] ==> Items() == []
      ensures old(nodes) != [] ==> Items() == RemoveAt(old(Items()), old(at)) && at == if old(at) < |nodes| then old(at) else 0
    {
      hide *;
      Open();
      if list_size == 0 {
        EmptyItems(nodes);
        return;
      }
      ghost var ns, p := nodes, at;
      RemovedNodes(ns, p);
      if list_size == 1 {
        NoItems(ns, p);
        root, position := null, null;
      } else {
        TakeOut(position, ns, p);
        var new_position := position.next;
        if position == root {
          root := new_position;
        }
        position := new_position;
      }
      nodes, repr, at := RemoveAt(ns, p), Elements(RemoveAt(ns, p)), if p < |ns| - 1 then p else 0;
      list_size := list_size - 1;
      Close();
    }

    /** Step the position on. */
    method Next()
      requires Valid()
      modifies this
      ensures Valid() && Items() == old(Items()) && repr == old(repr) && nodes == old(nodes)
      ensures nodes != [] ==> at == Succ(old(at), |nodes|)
    {
      if list_size != 0 {
        position := position.next;
        at := Succ(at, |nodes|);
      }
    }

    method Beginning()
      requires Valid()
      modifies this
      ensures Valid() && Items() == old(Items()) && repr == old(repr) && nodes == old(nodes) && at == 0
    {
      if root != null {
        position, at := root, 0;
      }
    }

    /** The node `i` steps from the root, its item, and what it points to. */
    lemma NodeAt(i: nat)
      requires Valid() && i < |nodes|
      ensures nodes[i].item == Items()[i] && nodes[i].next == nodes[Succ(i, |nodes|)] && nodes[i] in repr && root == nodes[0]
      ensures nodes[0].previous == nodes[|nodes| - 1] && list_size == |nodes| == |Items()| && (nodes[i] == position <==> i == at)
    {
      assert nodes[|nodes| - 1].next == nodes[Succ(|nodes| - 1, |nodes|)];
    }

    lemma Sizes()
      requires Valid()
      ensures list_size == |nodes| == |Items()| && (nodes == [] <==> Items() == [])
      ensures (nodes == [] ==> at == 0) && (nodes != [] ==> at < |nodes|)
    {
    }

    /** Add at the end and stay there. */
    method AddLast(input: int)
      requires Valid() && (nodes != [] ==> at == |nodes| - 1)
      modifies this, repr
      ensures Valid() && Items() == old(Items()) + [input] && nodes != [] && at == |nodes| - 1 && fresh(repr - old(repr))
      ensures nodes[..|nodes| - 1] == old(nodes) && position == nodes[at]
    {
      hide *;
      Sizes();
      InsertedLast(Items(), input);
      Add(input);
      Sizes();
      Next();
      LastStep(at, |nodes|);
      NodeAt(at);
    }

    /** Go back to a node whose place is known. */
    method MoveTo(n: Node, ghost i: nat)
      requires Valid() && i < |nodes| && nodes[i] == n
      modifies this
      ensures Valid() && Items() == old(Items()) && repr == old(repr) && nodes == old(nodes) && at == i
    {
      position, at := n, i;
    }

    method End()
      requires Valid() && nodes != []
      modifies this
      ensures Valid() && Items() == old(Items()) && repr == old(repr) && nodes == old(nodes) && at == |nodes| - 1
    {
      NodeAt(0);
      position, at := root.previous, |nodes| - 1;
    }

    /** Become a copy of `l`; assigning a list to itself changes nothing. */
    method Assign(l: CircularLinkedList)
      requires l.Valid()
      modifies this
      ensures l.Valid() && l.Items() == old(l.Items()) && Valid() && Items() == l.Items() && (if l == this then unchanged(this) else fresh(repr))
      ensures at == l.at == old(l.at)
    {
      hide *;
      if l == this {
        return;
      }
      var x := CopyList(l);
      x.Open();
      list_size, root, position, nodes, at, repr := x.list_size, x.root, x.position, x.nodes, x.at, x.repr;
      Close();
    }

    /** Append a copy of every item of `l`.  Appending to an empty list appends them twice. */
    method Concatenate(l: CircularLinkedList)
      requires Valid() && l.Valid() && l != this && repr !! l.repr
      modifies this, repr
      ensures Valid() && l.Valid() && l.Items() == old(l.Items()) && fresh(repr - old(repr))
      ensures Items() == if old(Items()) == [] then l.Items() + l.Items() else old(Items()) + l.Items()
      ensures at == if l.Items() == [] then old(at) else |Items()| - 1
    {
      hide *;
      l.Sizes();
      Sizes();
      if l.list_size == 0 {
        NoneAppended(Items(), l.Items());
        return;
      }
      if list_size == 0 {
        Assign(l);
      }
      Sizes();
      l.Sizes();
      End();
      AppendItems(l);
    }

    /** Every item of `l`, from its root on, after the last. */
    method AppendItems(l: CircularLinkedList)
      requires Valid() && l.Valid() && l != this && repr !! l.repr && nodes != [] && at == |nodes| - 1 && l.nodes != []
      modifies this, repr
      ensures Valid() && l.Valid() && l.Items() == old(l.Items()) && fresh(repr - old(repr)) && Items() == old(Items()) + l.Items()
      ensures at == |Items()| - 1
    {
      hide *;
      ghost var r0, ls, base := repr, l.Items(), Items();
      var ptr: Node? := l.root;
      var counter := 0;
      l.NodeAt(0);
      NoneTaken(ls);
      NoneAppended(base, ls[..0]);
      while counter < l.list_size
        invariant 0 <= counter <= l.list_size == |l.nodes| == |l.Items()| && l.Valid() && l.Items() == ls
        invariant Valid() && nodes != [] && at == |nodes| - 1 && Items() == base + ls[..counter] && fresh(repr - r0)
        invariant repr !! l.repr && (counter < l.list_size ==> ptr == l.nodes[counter])
      {
        l.NodeAt(counter);
        OneMoreTaken(ls, counter);
        SuccIs(counter, l.list_size);
        AppendMore(base, ls[..counter], ls[counter]);
        AddLast(ptr.item);
        counter := counter + 1;
        l.NodeAt(counter - 1);
        ptr := ptr.next;
      }
    }
  }

  lemma OneElement(n: Node)
    ensures Elements([n]) == {n}
  {
  }

  method NewNode(input: int, ghost ns: seq<Node>) returns (n: Node)
    requires Ring(ns)
    ensures fresh(n) && n !in ns && n.item == input && Ring([n]) && ItemsOf([n]) == [input] && NoDup([n])
    ensures Ring(ns) && ItemsOf(ns) == old(ItemsOf(ns))
  {
    n := new Node(input);
    assert ItemsOf([n][..0]) == [];
  }

  method AddAfter(position: Node, new_node: Node, ghost ns: seq<Node>, ghost p: nat)
    requires Ring(ns) && NoDup(ns) && p < |ns| && ns[p] == position && new_node !in ns
    modifies (set n | n in ns)`next, (set n | n in ns)`previous, new_node`next, new_node`previous
    ensures Ring(InsertAt(ns, p + 1, new_node)) && ItemsOf(InsertAt(ns, p + 1, new_node)) == InsertAt(ItemsOf(ns), p + 1, new_node.item)
    ensures ItemsOf(ns) == old(ItemsOf(ns))
  {
    hide *;
    LinkAfter(position, new_node, ns, p);
    ItemsInsert(ns, p + 1, new_node);
  }

  lemma AddedNodes(ns: seq<Node>, i: nat, n: Node)
    requires 0 < i <= |ns| && NoDup(ns) && n !in ns
    ensures NoDup(InsertAt(ns, i, n)) && Elements(InsertAt(ns, i, n)) == Elements(ns) + {n} && InsertAt(ns, i, n)[..i] == ns[..i]
    ensures InsertAt(ns, i, n)[0] == ns[0] && InsertAt(ns, i, n)[i - 1] == ns[i - 1]
  {
    InsertNoDup(ns, i, n);
  }

  lemma EmptyItems(ns: seq<Node>)
    requires |ns| == 0
    ensures ItemsOf(ns) == [] && Elements(ns) == {}
  {
  }

  lemma NoItems(ns: seq<Node>, p: nat)
    requires p < |ns| == 1
    ensures RemoveAt(ns, p) == [] && Ring([]) && NoDup<Node>([]) && ItemsOf([]) == RemoveAt(ItemsOf(ns), p) == []
  {
  }

  method TakeOut(position: Node, ghost ns: seq<Node>, ghost p: nat)
    requires Ring(ns) && NoDup(ns) && p < |ns| && ns[p] == position && |ns| > 1
    modifies (set n | n in ns)`next, (set n | n in ns)`previous
    ensures Ring(RemoveAt(ns, p)) && ItemsOf(RemoveAt(ns, p)) == RemoveAt(old(ItemsOf(ns)), p) && position.next == ns[Succ(p, |ns|)]
  {
    NextNode(ns, p);
    hide *;
    Unlink(position, ns, p);
    ItemsRemove(ns, p);
  }

  lemma NextNode(ns: seq<Node>, p: nat)
    requires Ring(ns) && p < |ns|
    ensures ns[p].next == ns[Succ(p, |ns|)]
  {
  }

  /** What follows a node, and what is first, once it is gone. */
  lemma RemovedNodes(ns: seq<Node>, p: nat)
    requires p < |ns| && NoDup(ns)
    ensures NoDup(RemoveAt(ns, p)) && Elements(RemoveAt(ns, p)) <= Elements(ns) && (|ns| > 1 ==> RemoveAt(ns, p) != [])
    ensures |ns| > 1 ==> ns[Succ(p, |ns|)] == RemoveAt(ns, p)[if p < |ns| - 1 then p else 0]
    ensures |ns| > 1 ==> (ns[p] == ns[0] <==> p == 0) && (if p == 0 then ns[Succ(p, |ns|)] else ns[0]) == RemoveAt(ns, p)[0]
  {
    RemoveNoDup(ns, p);
    var r := RemoveAt(ns, p);
    assert forall j :: 0 <= j < |r| ==> r[j] == ns[if j < p then j else j + 1];
  }

  lemma InsertedLast(s: seq<int>, x: int)
    ensures InsertAt(s, |s|, x) == s + [x] && [] + [x] == [x]
  {
  }

  lemma LastStep(at: nat, n: nat)
    ensures n == 1 ==> Succ(0, n) == 0
    ensures 0 < n - 1 ==> Succ(n - 2, n) == n - 1
  {
  }

  /** A list of the same items, with the position at the same item. */
  method CopyList(l: CircularLinkedList) returns (x: CircularLinkedList)
    requires l.Valid()
    ensures fresh(x) && fresh(x.repr) && x.Valid() && x.Items() == l.Items() && x.at == l.at
    ensures l.Valid() && l.Items() == old(l.Items())
  {
    hide *;
    x := new CircularLinkedList();
    l.Sizes();
    var counter := 0;
    var location, save_position: Node? := l.root, null;
    NoneTaken(l.Items());
    if l.list_size > 0 {
      l.NodeAt(0);
    }
    while counter < l.list_size
      invariant 0 <= counter <= l.list_size == |l.nodes| == |l.Items()| && fresh(x) && fresh(x.repr) && x.Valid()
      invariant counter < l.list_size ==> location == l.nodes[counter]
      invariant x.Items() == l.Items()[..counter] && (x.nodes != [] ==> x.at == |x.nodes| - 1)
      invariant |x.nodes| == counter && if counter <= l.at then save_position == null else save_position == x.nodes[l.at]
    {
      l.NodeAt(counter);
      OneMoreTaken(l.Items(), counter);
      SuccIs(counter, l.list_size);
      ghost var before := x.nodes;
      x.AddLast(location.item);
      SameBefore(before, x.nodes, l.at);
      if location == l.position {
        save_position := x.position;
      }
      counter := counter + 1;
      l.NodeAt(counter - 1);
      location := location.next;
    }
    NoneTaken(l.Items());
    l.Sizes();
    x.Sizes();
    if save_position != null {
      x.MoveTo(save_position, l.at);
    }
  }

  lemma SameBefore(a: seq<Node>, b: seq<Node>, i: nat)
    requires b != [] && b[..|b| - 1] == a
    ensures |b| == |a| + 1 && (i < |a| ==> b[i] == a[i])
  {
  }

  lemma NoneTaken(s: seq<int>)
    ensures s[..0] == [] && s[..|s|] == s
  {
  }

  lemma OneMoreTaken(s: seq<int>, i: nat)
    requires i < |s|
    ensures s[..i + 1] == s[..i] + [s[i]]
  {
  }

  lemma SuccIs(i: nat, n: nat)
    requires i < n
    ensures i + 1 < n ==> Succ(i, n) == i + 1
  {
  }

  lemma NoneAppended(s: seq<int>, e: seq<int>)
    requires |e| == 0
    ensures s + e == s
  {
  }

  lemma AppendMore(s: seq<int>, t: seq<int>, x: int)
    ensures s + (t + [x]) == s + t + [x]
  {
  }

  // ---------------------------------------------------------------- merge sort

  lemma FilledNext(s: seq<int>, from: nat, i: nat)
    requires from <= i < |s|
    ensures Filled(s[from..i + 1]) == if i == from then [s[i]] else InsertAt(Filled(s[from..i]), 1, s[i])
  {
    hide InsertAt;
    var t := s[from..i + 1];
    assert t[..|t| - 1] == s[from..i];
  }

  /** Items `from` to `to - 1` of `l`, added one by one to a new list. */
  method Deal(l: CircularLinkedList, start: Node?, from: nat, to: nat) returns (x: CircularLinkedList, location: Node?)
    requires l.Valid() && from <= to <= |l.nodes| && (from < to ==> start == l.nodes[from])
    ensures fresh(x) && fresh(x.repr) && x.Valid() && |l.Items()| == |l.nodes| && x.Items() == Filled(l.Items()[from..to]) && x.at == 0
    ensures l.Valid() && l.Items() == old(l.Items())
    ensures 0 < to - from ==> (to < |l.nodes| ==> location == l.nodes[to])
  {
    hide *;
    x := new CircularLinkedList();
    location := start;
    ghost var ls := l.Items();
    l.Sizes();
    var counter := from;
    FilledNone(ls, from);
    while counter < to
      invariant from <= counter <= to && |l.Items()| == |l.nodes| && l.Valid()
      invariant l.Items() == ls && fresh(x) && fresh(x.repr) && x.Valid() && x.at == 0
      invariant x.Items() == Filled(ls[from..counter]) && (counter < to ==> location == l.nodes[counter])
      invariant from < counter < |l.nodes| ==> location == l.nodes[counter]
    {
      l.NodeAt(counter);
      FilledNext(ls, from, counter);
      SuccIs(counter, |l.nodes|);
      x.Sizes();
      FilledSize(ls[from..counter]);
      x.Add(location.item);
      counter := counter + 1;
      l.NodeAt(counter - 1);
      location := location.next;
    }
  }

  lemma FilledNone(s: seq<int>, from: nat)
    requires from <= |s|
    ensures Filled(s[from..from]) == []
  {
  }

  lemma FilledSize(s: seq<int>)
    ensures |Filled(s)| == |s|
  {
  }

  lemma MergeStep(a: seq<int>, b: seq<int>)
    requires a != [] && b != []
    ensures Merged(a, b) == if a[0] < b[0] then [a[0]] + Merged(RemoveAt(a, 0), b) else [b[0]] + Merged(a, RemoveAt(b, 0))
  {
    assert RemoveAt(a, 0) == a[1..] && RemoveAt(b, 0) == b[1..];
  }

  lemma MergeEnd(x: seq<int>, a: seq<int>, b: seq<int>)
    requires a == [] || b == []
    ensures x + Merged(a, b) == x + if a != [] then a else b
  {
  }

  lemma MergeOn(x: seq<int>, y: int, rest: seq<int>)
    ensures x + ([y] + rest) == x + [y] + rest && [] + rest == rest
  {
  }

  /** The smaller of two first items leaves its list; of equals, the second list's. */
  method TakeSmaller(l1: CircularLinkedList, l2: CircularLinkedList) returns (element: int)
    requires l1 != l2 && l1.Valid() && l2.Valid() && l1.nodes != [] && l2.nodes != [] && l1.at == 0 && l2.at == 0
    requires l1.repr !! l2.repr
    modifies l1, l2, l1.repr, l2.repr
    ensures l1.Valid() && l2.Valid() && l1.at == 0 && l2.at == 0 && l1.repr <= old(l1.repr) && l2.repr <= old(l2.repr)
    ensures |l1.Items()| + |l2.Items()| + 1 == old(|l1.Items()| + |l2.Items()|) && (l1.list_size != 0 || l2.list_size != 0)
    ensures old(Merged(l1.Items(), l2.Items())) == [element] + Merged(l1.Items(), l2.Items())
  {
    hide *;
    l1.Sizes();
    l2.Sizes();
    l1.NodeAt(0);
    l2.NodeAt(0);
    MergeStep(l1.Items(), l2.Items());
    if l1.root.item < l2.root.item {
      element := l1.root.item;
      l1.Del();
    } else {
      element := l2.root.item;
      l2.Del();
    }
    l1.Sizes();
    l2.Sizes();
  }

  /** Two lists at their first items, and the one they are being merged into at its last. */
  ghost predicate Merging(l1: CircularLinkedList, l2: CircularLinkedList, x: CircularLinkedList)
    reads l1, l2, x, l1.repr, l2.repr, x.repr
  {
    && l1 != l2 && l1 != x && l2 != x && l1.repr !! l2.repr && l1.repr !! x.repr && l2.repr !! x.repr
    && l1.Valid() && l2.Valid() && x.Valid() && l1.at == 0 && l2.at == 0 && (x.nodes != [] ==> x.at == |x.nodes| - 1)
  }

  ghost function Left(l1: CircularLinkedList, l2: CircularLinkedList): nat
    requires l1.Valid() && l2.Valid()
    reads l1, l2, l1.repr, l2.repr
  {
    |l1.Items()| + |l2.Items()|
  }

  /** What the merge will come to. */
  ghost function Outlook(l1: CircularLinkedList, l2: CircularLinkedList, x: CircularLinkedList): seq<int>
    requires l1.Valid() && l2.Valid() && x.Valid()
    reads l1, l2, x, l1.repr, l2.repr, x.repr
  {
    x.Items() + Merged(l1.Items(), l2.Items())
  }

  /** The smaller of two first items goes to the end of a third list. */
  method MoveSmaller(l1: CircularLinkedList, l2: CircularLinkedList, x: CircularLinkedList)
    requires Merging(l1, l2, x) && l1.nodes != [] && l2.nodes != []
    modifies l1, l2, x, l1.repr, l2.repr, x.repr
    ensures Merging(l1, l2, x) && l1.repr <= old(l1.repr) && l2.repr <= old(l2.repr) && fresh(x.repr - old(x.repr))
    ensures Left(l1, l2) + 1 == old(Left(l1, l2)) && (l1.list_size != 0 || l2.list_size != 0) && x.nodes != []
    ensures Outlook(l1, l2, x) == old(Outlook(l1, l2, x))
  {
    hide Merged;
    hide CircularLinkedList.Valid, CircularLinkedList.Items;
    var element := TakeSmaller(l1, l2);
    MergeOn(x.Items(), element, Merged(l1.Items(), l2.Items()));
    x.AddLast(element);
  }

  /** While neither list is used up. */
  method MergeFronts(l1: CircularLinkedList, l2: CircularLinkedList, x: CircularLinkedList)
    requires Merging(l1, l2, x) && l1.list_size != 0 && l2.list_size != 0
    modifies l1, l2, x, l1.repr, l2.repr, x.repr
    ensures Merging(l1, l2, x) && l1.repr <= old(l1.repr) && l2.repr <= old(l2.repr) && fresh(x.repr - old(x.repr))
    ensures x.nodes != [] && (l1.list_size == 0 || l2.list_size == 0) && (l1.list_size != 0 || l2.list_size != 0)
    ensures old(Merging(l1, l2, x)) && Outlook(l1, l2, x) == old(Outlook(l1, l2, x))
  {
    hide *;
    MergingParts(l1, l2, x);
    while l1.list_size != 0 && l2.list_size != 0
      invariant Merging(l1, l2, x) && l1.repr <= old(l1.repr) && l2.repr <= old(l2.repr) && fresh(x.repr - old(x.repr))
      invariant l1.Valid() && l2.Valid() && x.Valid() && (l1.list_size != 0 || l2.list_size != 0)
      invariant x.nodes == [] ==> l1.list_size != 0 && l2.list_size != 0
      invariant Outlook(l1, l2, x) == old(Outlook(l1, l2, x))
      decreases Left(l1, l2)
    {
      l1.Sizes();
      l2.Sizes();
      MoveSmaller(l1, l2, x);
      MergingParts(l1, l2, x);
    }
  }

  lemma MergingStart(l1: CircularLinkedList, l2: CircularLinkedList, x: CircularLinkedList, whole: seq<int>)
    requires l1 != l2 && l1 != x && l2 != x && l1.repr !! l2.repr && x.repr == {}
    requires l1.Valid() && l2.Valid() && x.Valid() && l1.at == 0 && l2.at == 0 && x.nodes == [] && x.Items() == []
    requires Merged(l1.Items(), l2.Items()) == whole
    ensures Merging(l1, l2, x) && Outlook(l1, l2, x) == whole
  {
    hide CircularLinkedList.Valid, CircularLinkedList.Items, Merged;
  }

  lemma MergingParts(l1: CircularLinkedList, l2: CircularLinkedList, x: CircularLinkedList)
    requires Merging(l1, l2, x)
    ensures l1 != x && l2 != x && l1.repr !! x.repr && l2.repr !! x.repr && l1.Valid() && l2.Valid() && x.Valid()
    ensures Outlook(l1, l2, x) == x.Items() + Merged(l1.Items(), l2.Items())
  {
    hide CircularLinkedList.Valid, CircularLinkedList.Items, Merged;
  }

  /** Take the smaller first item until one list is used up, and then what is left of the other. */
  method Merge(a: CircularLinkedList, b: CircularLinkedList) returns (x: CircularLinkedList)
    requires a.Valid() && b.Valid() && a.nodes != [] && b.nodes != []
    ensures fresh(x) && fresh(x.repr) && x.Valid() && x.Items() == Merged(old(a.Items()), old(b.Items()))
  {
    hide *;
    a.Sizes();
    b.Sizes();
    var l1 := CopyList(a);
    var l2 := CopyList(b);
    l1.Sizes();
    l2.Sizes();
    x := MergeCopies(l1, l2);
  }

  method MergeCopies(l1: CircularLinkedList, l2: CircularLinkedList) returns (x: CircularLinkedList)
    requires l1 != l2 && l1.Valid() && l2.Valid() && l1.repr !! l2.repr && l1.nodes != [] && l2.nodes != []
    modifies l1, l2, l1.repr, l2.repr
    ensures fresh(x) && fresh(x.repr) && x.Valid() && x.Items() == Merged(old(l1.Items()), old(l2.Items()))
  {
    hide *;
    ghost var whole := Merged(l1.Items(), l2.Items());
    l1.Beginning();
    l2.Beginning();
    x := new CircularLinkedList();
    l1.Sizes();
    l2.Sizes();
    MergeOn([], 0, whole);
    MergingStart(l1, l2, x, whole);
    MergeFronts(l1, l2, x);
    MergingParts(l1, l2, x);
    l1.Sizes();
    l2.Sizes();
    MergeEnd(x.Items(), l1.Items(), l2.Items());
    x.Sizes();
    if l1.list_size != 0 {
      x.Concatenate(l1);
    } else {
      x.Concatenate(l2);
    }
  }

  method Mergesort(l: CircularLinkedList) returns (x: CircularLinkedList)
    requires l.Valid() && |l.nodes| > 1
    ensures fresh(x) && fresh(x.repr) && x.Valid() && x.Items() == Mergesorted(old(l.Items()))
    decreases |l.nodes|
  {
    hide *;
    l.Sizes();
    ghost var s := l.Items();
    var n := l.list_size;
    l.NodeAt(0);
    var l1, location := Deal(l, l.root, 0, n / 2);
    var l2;
    l2, location := Deal(l, location, n / 2, n);
    l1.Sizes();
    l2.Sizes();
    FilledSize(s[0..n / 2]);
    FilledSize(s[n / 2..n]);
    SortedOne(l1.Items());
    SortedOne(l2.Items());
    if l1.list_size > 1 {
      l1 := Mergesort(l1);
    }
    if l2.list_size > 1 {
      l2 := Mergesort(l2);
    }
    SortSplit(s);
    HalfSlices(s);
    SortSize(Filled(s[0..n / 2]));
    SortSize(Filled(s[n / 2..n]));
    l1.Sizes();
    l2.Sizes();
    x := Merge(l1, l2);
  }

  lemma HalfSlices(s: seq<int>)
    ensures s[0..|s| / 2] == s[..|s| / 2] && s[|s| / 2..|s|] == s[|s| / 2..]
  {
  }

  lemma SortSize(s: seq<int>)
    ensures |Mergesorted(s)| == |s|
  {
    MergesortedSorted(s);
    assert |multiset(s)| == |s| && |multiset(Mergesorted(s))| == |Mergesorted(s)|;
  }

  /** The list sorted in place of itself, with the position at its first item. */
  method Sort(l: CircularLinkedList)
    requires l.Valid()
    modifies l
    ensures l.Valid() && Sorted(l.Items()) && multiset(l.Items()) == multiset(old(l.Items()))
    ensures |old(l.nodes)| > 1 ==> l.at == 0
  {
    hide *;
    l.Sizes();
    ghost var s := l.Items();
    MergesortedSorted(s);
    SortedOne(s);
    if l.list_size <= 1 {
      return;
    }
    var x := Mergesort(l);
    l.Assign(x);
    l.Beginning();
  }
}
