module BPlusInsert {
  import opened Sequences
  import opened BPlusPage
  import opened BPlusShape
  import opened BPlusHeap

  /** Leaf `m` gives its first entry to leaf `l` on its left and takes `e` in. */
  lemma RotatedLeft(l: Tree, m: Tree, e: Entry, i: nat, l1: Tree, m1: Tree, M: int)
    requires M >= 4 && WF(l, M, 0, M / 2) && WF(m, M, 0, M / 2) && l.Leaf? && m.Leaf?
    requires Count(l) < M && Count(m) == M && m.entries[0].key < e.key
    requires Sorted(Flat(l) + Flat(m)) && RotatedInto(l, m, e, i, l1, m1) && Place(KeysOf(m.entries[1..]), e.key, i)
    ensures WF(l1, M, 0, M / 2) && WF(m1, M, 0, M / 2)
    ensures Inserted(Flat(l) + Flat(m), e, Flat(l1) + Flat(m1))
    ensures l1.entries[0] == l.entries[0]
  {
    hide *;
    RotatedPages(l, m, e, i, l1, m1);
    LeafIs(l, M);
    LeafIs(m, M);
    LeafIs(l1, M);
    LeafIs(m1, M);
    RotatedLeftEntries(l.entries, m.entries, e, i);
  }

  lemma LeafIs(t: Tree, M: int)
    requires t.Leaf?
    ensures WF(t, M, 0, M / 2) <==> M / 2 <= |t.entries| <= M
    ensures Flat(t) == t.entries && Count(t) == |t.entries|
  {
  }

  lemma RotatedLeftEntries(l: seq<Entry>, m: seq<Entry>, e: Entry, i: nat)
    requires |m| > 1 && Sorted(l + m) && m[0].key < e.key && i < |m| && Place(KeysOf(m[1..]), e.key, i)
    ensures Inserted(l + m, e, (l + [m[0]]) + InsertAt(m[1..], i, e))
  {
    hide *;
    var l1, rest := l + [m[0]], m[1..];
    assert l1 + rest == l + m;
    TailBelow(l, m, e.key);
    InsertedByPlace(rest, i, e);
    InsertedAfter(l1, rest, e, InsertAt(rest, i, e));
  }

  lemma TailBelow(l: seq<Entry>, m: seq<Entry>, k: Key)
    requires Sorted(l + m) && m != [] && m[0].key < k
    ensures AllBelow(l + [m[0]], k) && Sorted(m[1..])
  {
    SortedParts(l, m, []);
    assert l + m + [] == l + m;
  }

  /** An entry put in where the keys before are smaller and the keys after are larger. */
  lemma InsertedByPlace(es: seq<Entry>, p: nat, e: Entry)
    requires Sorted(es) && Place(KeysOf(es), e.key, p)
    ensures Inserted(es, e, InsertAt(es, p, e))
  {
    assert forall i :: 0 <= i < |es| ==> KeysOf(es)[i] == es[i].key;
  }

  /** Neighbours `b` and `b + 1` below `t`, one of them the child followed for `e`, after they took `e` in. */
  ghost function WithTwo(t: Tree, b: nat, l: Tree, sep: Key, r: Tree): (t1: Tree)
    requires t.Node? && Bundled(t) && b < |t.keys|
  {
    Node(t.page, t.keys[b := sep], t.kids[b := l][b + 1 := r])
  }

  lemma OutsideTwo(keys: seq<Key>, kids: seq<Tree>, M: int, h: nat, key: Key, b: nat, f: nat)
    requires M >= 4 && h > 0 && Run(keys, kids, M, h) && Sorted(FlatAll(kids)) && Branch(keys, key, f)
    requires b < |keys| && (f == b || f == b + 1)
    ensures AllBelow(FlatAll(kids[..b]), key) && AllAbove(key, FlatAll(kids[b + 2..]))
  {
    BranchBounds(keys, kids, M, h, key, f);
    if f == b {
      var r := kids[b + 1..];
      assert r[1..] == kids[b + 2..];
      assert FlatAll(r) == Flat(r[0]) + FlatAll(r[1..]);
      AboveParts(key, Flat(r[0]), FlatAll(r[1..]));
    } else {
      assert kids[..f] == kids[..b] + [kids[b]];
      FlatAllConcat(kids[..b], [kids[b]]);
      BelowParts(FlatAll(kids[..b]), FlatAll([kids[b]]), key);
    }
  }

  lemma AboveParts(k: Key, a: seq<Entry>, b: seq<Entry>)
    requires AllAbove(k, a + b)
    ensures AllAbove(k, b)
  {
    assert forall i :: 0 <= i < |b| ==> (a + b)[|a| + i] == b[i];
  }

  lemma BelowParts(a: seq<Entry>, b: seq<Entry>, k: Key)
    requires AllBelow(a + b, k)
    ensures AllBelow(a, k)
  {
    assert forall i :: 0 <= i < |a| ==> (a + b)[i] == a[i];
  }

  lemma InsertedInTwo(t: Tree, M: int, h: nat, lo: int, b: nat, f: nat, l: Tree, sep: Key, r: Tree, e: Entry)
    requires M >= 4 && t.Node? && WF(t, M, h, lo) && Sorted(Flat(t)) && Branch(t.keys, e.key, f)
    requires b < |t.keys| && (f == b || f == b + 1)
    requires WF(l, M, h - 1, M / 2) && WF(r, M, h - 1, M / 2) && Heads(sep, Flat(r))
    requires Inserted(Flat(t.kids[b]) + Flat(t.kids[b + 1]), e, Flat(l) + Flat(r))
    requires b > 0 ==> Heads(t.keys[b - 1], Flat(l))
    ensures WF(WithTwo(t, b, l, sep, r), M, h, lo)
    ensures Inserted(Flat(t), e, Flat(WithTwo(t, b, l, sep, r)))
    ensures Leaves(l) + Leaves(r) == Leaves(t.kids[b]) + Leaves(t.kids[b + 1]) ==> Leaves(WithTwo(t, b, l, sep, r)) == Leaves(t)
  {
    RunReplaceTwo(t.keys, t.kids, M, h, b, l, sep, r);
    OutsideTwo(t.keys, t.kids, M, h, e.key, b, f);
    hide WF, Run, Inserted, Sorted, Branch, AllBelow, AllAbove;
    InsertedInside(FlatAll(t.kids[..b]), Flat(t.kids[b]) + Flat(t.kids[b + 1]), FlatAll(t.kids[b + 2..]), e, Flat(l) + Flat(r));
    assert WF(WithTwo(t, b, l, sep, r), M, h, lo) by { WithTwoWF(t, M, h, lo, b, l, sep, r); }
  }

  lemma WithTwoWF(t: Tree, M: int, h: nat, lo: int, b: nat, l: Tree, sep: Key, r: Tree)
    requires t.Node? && WF(t, M, h, lo) && b < |t.keys|
    requires Run(t.keys[b := sep], t.kids[b := l][b + 1 := r], M, h)
    ensures WF(WithTwo(t, b, l, sep, r), M, h, lo)
  {
  }

  /** A node whose page and two leaf children were rewritten, the other children being as they were. */
  lemma RepTwo(t: Tree, order: nat, b: nat, l: Tree, sep: Key, r: Tree)
    requires t.Node? && Bundled(t) && b < |t.keys| && l.page == t.kids[b].page && r.page == t.kids[b + 1].page
    requires Rep(l, order) && Rep(r, order) && Apart(t, order, b, b + 2)
    requires Stored(Node(t.page, t.keys[b := sep], t.kids), order, |t.keys|)
    ensures Rep(WithTwo(t, b, l, sep, r), order)
  {
    var kids1 := WithTwo(t, b, l, sep, r).kids;
    assert PagesOf(kids1) == PagesOf(t.kids);
    forall i | 0 <= i < |kids1| ensures Rep(kids1[i], order) {
      if i < b {
        assert Rep(t.kids[..b][i], order);
      } else if i > b + 1 {
        assert Rep(t.kids[b + 2..][i - b - 2], order);
      }
    }
  }

  /** A change of one separator in a stored page. */
  lemma StoredKey(t: Tree, order: nat, b: nat, sep: Key, oldKeys: seq<Key>)
    requires t.Node? && Bundled(t) && b < |t.keys| && t.page.Live(order) && |oldKeys| == order && t.page.size == |t.keys| && !t.page.isLeaf
    requires oldKeys[..|t.keys|] == t.keys && t.page.keys == oldKeys[b := sep]
    requires t.page.children[..|t.keys| + 1] == PagesOf(t.kids)
    ensures Stored(Node(t.page, t.keys[b := sep], t.kids), order, |t.keys|)
  {
  }

  /** What a search for the key among the entries reports. */
  ghost predicate SearchResult(es: seq<Entry>, key: Key, found: bool, i: int) {
    0 <= i <= |es| && if found then i < |es| && es[i].key == key else Place(KeysOf(es), key, i)
  }

  lemma FoundIsThere(es: seq<Entry>, key: Key, found: bool, i: int)
    requires SearchResult(es, key, found, i)
    ensures found <==> HasKey(es, key)
  {
    assert forall j :: 0 <= j < |es| ==> KeysOf(es)[j] == es[j].key;
  }

  lemma PlaceOfResult(es: seq<Entry>, key: Key, found: bool, i: int)
    requires SearchResult(es, key, found, i)
    ensures 0 <= i <= |es| && if found then i < |es| && es[i].key == key else Place(KeysOf(es), key, i)
  {
  }

  /** A leaf with room takes a key in where a search places it.  A key it already holds goes in a second time. */
  method SearchAndInsert(order: nat, key: Key, data: Data, page: Page, ghost m: Tree) returns (ghost found: bool, ghost i: int)
    requires m.Leaf? && m.page == page && Stored(m, order, Count(m)) && 0 < Count(m) < order && Sorted(m.entries)
    modifies page`keys, page`data, page`children, page`size
    ensures page.Live(order) && page.size > 0 && SearchResult(m.entries, key, found, i)
    ensures Stored(InsertEntry(m, i, Entry(key, data)), order, Count(m) + 1)
    ensures page.keys[0] == InsertEntry(m, i, Entry(key, data)).entries[0].key
  {
    StoredLive(m, order);
    var b, insertionIndex := GetIndexOf(order, key, page);
    found, i := b, insertionIndex;
    assert page.keys[..page.size] == KeysOf(m.entries);
    assert found ==> page.keys[..page.size][i] == key;
    InsertIntoRoom(order, key, data, insertionIndex, null, page);
    ViewInsertEntry(m, i, Entry(key, data), null);
    assert page.keys[..page.size][0] == page.keys[0];
  }

  /** The pages of two leaves and their parent after the left rotation and the insertion. */
  method RotateLeftPages(order: nat, key: Key, data: Data, branchIndex: int, cur: Page, dest: Page, source: Page, ra: ReturnAction,
                         ghost l: Tree, ghost m: Tree)
    returns (ra1: ReturnAction, ghost found: bool, ghost i: int, ghost l1: Tree, ghost m1: Tree)
    requires order >= 4 && l.Leaf? && m.Leaf? && l.page == dest && m.page == source && cur != dest && cur != source && dest != source
    requires cur.Live(order) && 0 < branchIndex <= cur.size
    requires Stored(l, order, Count(l)) && Stored(m, order, order) && Count(l) < order && Count(m) == order
    requires Sorted(m.entries[1..])
    modifies cur`keys, dest`keys, dest`data, dest`size, source`keys, source`data, source`children, source`size
    ensures ra1 == ra.(key1 := m.entries[0].key, key2 := m.entries[1].key)
    ensures cur.Live(order) && cur.size == old(cur.size) && cur.isLeaf == old(cur.isLeaf) && cur.children == old(cur.children)
    ensures SearchResult(m.entries[1..], key, found, i) && RotatedInto(l, m, Entry(key, data), i, l1, m1)
    ensures Stored(l1, order, Count(l1)) && Stored(m1, order, Count(m1))
    ensures cur.keys == old(cur.keys)[branchIndex - 1 := m1.entries[0].key]
  {
    ghost var e := Entry(key, data);
    ra1 := RotateLeftLeaves(order, branchIndex, cur, dest, source, ra, l, m);
    l1 := Leaf(dest, l.entries + [m.entries[0]]);
    ghost var m0 := Leaf(source, m.entries[1..]);
    hide ViewT, Stored, KeysOf, Place, Sorted, HasKey;
    found, i := SearchAndInsert(order, key, data, source, m0);
    m1 := InsertEntry(m0, i, e);
    cur.keys := cur.keys[branchIndex - 1 := source.keys[0]];
  }

  /** `l1` is leaf `l` with the first entry of `m` added, `m1` the rest of `m` with `e` at `i`. */
  ghost predicate RotatedInto(l: Tree, m: Tree, e: Entry, i: int, l1: Tree, m1: Tree) {
    && l.Leaf? && m.Leaf? && 0 <= i < Count(m)
    && l1 == Leaf(l.page, l.entries + [m.entries[0]]) && m1 == Leaf(m.page, InsertAt(m.entries[1..], i, e))
  }

  method RotateLeftLeaves(order: nat, branchIndex: int, cur: Page, dest: Page, source: Page, ra: ReturnAction, ghost l: Tree, ghost m: Tree)
    returns (ra1: ReturnAction)
    requires order >= 4 && l.Leaf? && m.Leaf? && l.page == dest && m.page == source && cur != dest && cur != source && dest != source
    requires cur.Live(order) && 0 < branchIndex <= cur.size
    requires Stored(l, order, Count(l)) && Stored(m, order, order) && Count(l) < order && Count(m) == order
    modifies cur`keys, dest`keys, dest`data, dest`size, source`keys, source`data, source`size
    ensures cur.Live(order) && ra1 == ra.(key1 := m.entries[0].key, key2 := m.entries[1].key)
    ensures var l1, m0 := Leaf(dest, l.entries + [m.entries[0]]), Leaf(source, m.entries[1..]);
      && Stored(l1, order, Count(l) + 1) && Stored(m0, order, order - 1)
      && cur.keys == old(cur.keys)[branchIndex - 1 := cur.keys[branchIndex - 1]]
  {
    ViewJoin(l, 0, m);
    ViewCut(JoinT(l, 0, m), Count(l) + 1, source);
    assert TakeT(JoinT(l, 0, m), Count(l) + 1) == Leaf(dest, l.entries + [m.entries[0]]);
    assert DropT(JoinT(l, 0, m), Count(l) + 1, source) == Leaf(source, m.entries[1..]);
    ra1 := RotateLeft(order, cur, branchIndex, dest, source, ra);
    assert ViewT(m).keys[0] == m.entries[0].key && ViewT(m).keys[1] == m.entries[1].key;
  }

  /** What a node is after it, or a pair of its children, took `e` in without a split. */
  ghost predicate TookIn(order: nat, h: nat, lo: int, t: Tree, e: Entry, t1: Tree)
    reads Pages(t1)
  {
    && t1.page == t.page && WF(t1, order, h, lo) && Rep(t1, order) && Distinct(t1) && Pages(t1) == Pages(t)
    && Inserted(Flat(t), e, Flat(t1)) && Leaves(t1) == Leaves(t)
  }

  /** What a node is after a pair of its children took in an entry whose key was already there: the same leaves on the same
      pages, with the entry beside the one that has its key. */
  ghost predicate TookAgain(order: nat, t: Tree, e: Entry, t1: Tree)
    reads Pages(t1)
  {
    && t1.page == t.page && Rep(t1, order) && Distinct(t1) && Pages(t1) == Pages(t)
    && Doubled(Flat(t), e, Flat(t1)) && Leaves(t1) == Leaves(t)
  }

  lemma PagesTwo(t: Tree, b: nat, l: Tree, sep: Key, r: Tree)
    requires t.Node? && Bundled(t) && b < |t.keys| && Distinct(t)
    requires Distinct(l) && Distinct(r) && Pages(l) == Pages(t.kids[b]) && Pages(r) == Pages(t.kids[b + 1])
    ensures Pages(WithTwo(t, b, l, sep, r)) == Pages(t) && Distinct(WithTwo(t, b, l, sep, r))
  {
    var kids1 := t.kids[b := l][b + 1 := r];
    assert forall i :: 0 <= i < |kids1| ==> Pages(kids1[i]) == Pages(t.kids[i]) && Distinct(kids1[i]);
  }

  /** The same, with the rest of the node's children left as they were. */
  method RotateLeftBelow(order: nat, key: Key, data: Data, branchIndex: int, cur: Page, dest: Page, source: Page, ra: ReturnAction,
                         ghost l: Tree, ghost m: Tree, ghost t: Tree, ghost others: set<Page>)
    returns (ra1: ReturnAction, ghost found: bool, ghost i: int, ghost l1: Tree, ghost m1: Tree)
    requires order >= 4 && l.Leaf? && m.Leaf? && l.page == dest && m.page == source && cur != dest && cur != source && dest != source
    requires cur.Live(order) && 0 < branchIndex <= cur.size
    requires Stored(l, order, Count(l)) && Stored(m, order, order) && Count(l) < order && Count(m) == order
    requires Sorted(m.entries[1..])
    requires t.Node? && branchIndex < |t.kids| && Apart(t, order, branchIndex - 1, branchIndex + 1)
    requires others == Others(t, branchIndex - 1, branchIndex + 1) && cur !in others && dest !in others && source !in others
    modifies cur`keys, dest`keys, dest`data, dest`size, source`keys, source`data, source`children, source`size
    ensures ra1 == ra.(key1 := m.entries[0].key, key2 := m.entries[1].key)
    ensures cur.Live(order) && cur.size == old(cur.size) && cur.isLeaf == old(cur.isLeaf) && cur.children == old(cur.children)
    ensures SearchResult(m.entries[1..], key, found, i) && RotatedInto(l, m, Entry(key, data), i, l1, m1)
    ensures Stored(l1, order, Count(l1)) && Stored(m1, order, Count(m1))
    ensures cur.keys == old(cur.keys)[branchIndex - 1 := m1.entries[0].key]
    ensures Apart(t, order, branchIndex - 1, branchIndex + 1)
  {
    hide *;
    ra1, found, i, l1, m1 := RotateLeftPages(order, key, data, branchIndex, cur, dest, source, ra, l, m);
  }

  /** Before a left rotation: the two leaves, their pages, and what the search below will meet. */
  lemma LeftPair(order: nat, key: Key, b: nat, t: Tree, lo: int)
    requires order >= 4 && t.Node? && WF(t, order, 1, lo) && Sorted(Flat(t))
    requires Branch(t.keys, key, b) && b > 0 && t.keys[b - 1] != key
    requires Count(t.kids[b]) == order && Count(t.kids[b - 1]) < order
    ensures var l, m := t.kids[b - 1], t.kids[b];
      && l.Leaf? && m.Leaf? && WF(l, order, 0, order / 2) && WF(m, order, 0, order / 2)
      && m.entries[0].key == t.keys[b - 1] < key && l.entries != []
      && Sorted(Flat(l) + Flat(m)) && Sorted(m.entries[1..])
      && (HasKey(m.entries[1..], key) <==> HasKey(Flat(t), key))
      && (b > 1 ==> Heads(t.keys[b - 2], Flat(l)))
  {
    var l, m := t.kids[b - 1], t.kids[b];
    assert WF(l, order, 0, order / 2) && WF(m, order, 0, order / 2) && Heads(t.keys[b - 1], Flat(m));
    TwoAt(t.kids, b - 1);
    SortedParts(FlatAll(t.kids[..b - 1]), Flat(l) + Flat(m), FlatAll(t.kids[b + 1..]));
    TailBelow(l.entries, m.entries, key);
    BranchHasKey(t.keys, t.kids, order, 1, key, b);
    HasKeyTail(m.entries, key);
    assert b > 1 ==> Heads(t.keys[b - 1 - 1], Flat(t.kids[b - 1]));
  }

  lemma HasKeyTail(es: seq<Entry>, key: Key)
    requires es != [] && es[0].key != key
    ensures HasKey(es[1..], key) <==> HasKey(es, key)
  {
    assert es == [] + [es[0]] + es[1..];
    HasKeyParts([], [es[0]], es[1..], key);
  }

  /** Leaves `l1` and `m1` stand in for children `b` and `b + 1` of `t`, with `e` taken in. */
  ghost predicate PairTook(order: nat, e: Entry, t: Tree, b: nat, l1: Tree, m1: Tree) {
    && t.Node? && Bundled(t) && b < |t.keys| && t.kids[b].Leaf? && t.kids[b + 1].Leaf? && l1.Leaf? && m1.Leaf?
    && l1.page == t.kids[b].page && m1.page == t.kids[b + 1].page
    && WF(l1, order, 0, order / 2) && WF(m1, order, 0, order / 2) && m1.entries != []
    && Inserted(Flat(t.kids[b]) + Flat(t.kids[b + 1]), e, Flat(l1) + Flat(m1))
    && (b > 0 ==> Heads(t.keys[b - 1], Flat(l1)))
  }

  lemma LeftPairTook(order: nat, e: Entry, b: nat, t: Tree, lo: int, i: nat, l1: Tree, m1: Tree)
    requires order >= 4 && t.Node? && WF(t, order, 1, lo) && Sorted(Flat(t))
    requires Branch(t.keys, e.key, b) && b > 0 && t.keys[b - 1] != e.key
    requires Count(t.kids[b]) == order && Count(t.kids[b - 1]) < order
    requires RotatedInto(t.kids[b - 1], t.kids[b], e, i, l1, m1) && Place(KeysOf(t.kids[b].entries[1..]), e.key, i)
    ensures PairTook(order, e, t, b - 1, l1, m1)
  {
    LeftPair(order, e.key, b, t, lo);
    var l, m := t.kids[b - 1], t.kids[b];
    hide WF, Run, Sorted, Branch;
    RotatedLeft(l, m, e, i, l1, m1, order);
  }

  lemma PairStored(order: nat, e: Entry, b: nat, f: nat, t: Tree, lo: int, l1: Tree, m1: Tree, oldKeys: seq<Key>) returns (t1: Tree)
    requires order >= 4 && t.Node? && WF(t, order, 1, lo) && Sorted(Flat(t)) && Distinct(t)
    requires Branch(t.keys, e.key, f) && b < |t.keys| && (f == b || f == b + 1) && PairTook(order, e, t, b, l1, m1)
    requires t.page.Live(order) && |oldKeys| == order && t.page.size == |t.keys| && !t.page.isLeaf
    requires oldKeys[..|t.keys|] == t.keys && t.page.children[..|t.keys| + 1] == PagesOf(t.kids) && Apart(t, order, b, b + 2)
    requires Stored(l1, order, Count(l1)) && Stored(m1, order, Count(m1))
    requires t.page.keys == oldKeys[b := m1.entries[0].key]
    ensures TookIn(order, 1, lo, t, e, t1)
    ensures Sizes(t1) == SizesAll(t.kids[..b]) + [|l1.entries|, |m1.entries|] + SizesAll(t.kids[b + 2..])
  {
    var sep := m1.entries[0].key;
    t1 := WithTwo(t, b, l1, sep, m1);
    SizesWithTwo(t, b, l1, sep, m1);
    assert Leaves(l1) + Leaves(m1) == Leaves(t.kids[b]) + Leaves(t.kids[b + 1]);
    hide Sorted, Branch, Distinct, Stored, Apart, Inserted, WF;
    TwoStored(t, order, b, l1, sep, m1, oldKeys);
    InsertedInTwo(t, order, 1, lo, b, f, l1, sep, m1, e);
  }

  lemma SizesWithTwo(t: Tree, b: nat, l: Tree, sep: Key, r: Tree)
    requires t.Node? && Bundled(t) && b < |t.keys| && l.Leaf? && r.Leaf?
    ensures Sizes(WithTwo(t, b, l, sep, r)) == SizesAll(t.kids[..b]) + [|l.entries|, |r.entries|] + SizesAll(t.kids[b + 2..])
  {
    var t1 := WithTwo(t, b, l, sep, r);
    var kids1 := t1.kids;
    assert kids1[..b] == t.kids[..b] && kids1[b..b + 2] == [l, r] && kids1[b + 2..] == t.kids[b + 2..];
    hide *;
    SizesOf(t1);
    SizesParts(kids1, b, b + 2);
    SizesOfTwo(l, r);
    SizesOf(l);
    SizesOf(r);
  }

  /** Two leaves read together hold a key twice; so does the node. */
  lemma PairAgain(order: nat, e: Entry, b: nat, t: Tree, l1: Tree, m1: Tree, oldKeys: seq<Key>) returns (t1: Tree)
    requires t.Node? && Bundled(t) && b < |t.keys| && Distinct(t) && m1.Leaf? && m1.entries != []
    requires l1.Leaf? && t.kids[b].Leaf? && t.kids[b + 1].Leaf? && l1.page == t.kids[b].page && m1.page == t.kids[b + 1].page
    requires t.page.Live(order) && |oldKeys| == order && t.page.size == |t.keys| && !t.page.isLeaf
    requires oldKeys[..|t.keys|] == t.keys && t.page.children[..|t.keys| + 1] == PagesOf(t.kids) && Apart(t, order, b, b + 2)
    requires Stored(l1, order, Count(l1)) && Stored(m1, order, Count(m1)) && t.page.keys == oldKeys[b := m1.entries[0].key]
    requires Doubled(Flat(t.kids[b]) + Flat(t.kids[b + 1]), e, Flat(l1) + Flat(m1))
    ensures TookAgain(order, t, e, t1)
    ensures Sizes(t1) == SizesAll(t.kids[..b]) + [|l1.entries|, |m1.entries|] + SizesAll(t.kids[b + 2..])
  {
    var sep := m1.entries[0].key;
    t1 := WithTwo(t, b, l1, sep, m1);
    SizesWithTwo(t, b, l1, sep, m1);
    assert Leaves(l1) + Leaves(m1) == Leaves(t.kids[b]) + Leaves(t.kids[b + 1]);
    hide Distinct, Stored, Apart, Doubled, Rep;
    TwoStored(t, order, b, l1, sep, m1, oldKeys);
    DoubledInTwo(t, b, l1, sep, m1, e);
  }

  lemma DoubledInTwo(t: Tree, b: nat, l: Tree, sep: Key, r: Tree, e: Entry)
    requires t.Node? && Bundled(t) && b < |t.keys| && Doubled(Flat(t.kids[b]) + Flat(t.kids[b + 1]), e, Flat(l) + Flat(r))
    requires Leaves(l) + Leaves(r) == Leaves(t.kids[b]) + Leaves(t.kids[b + 1])
    ensures Doubled(Flat(t), e, Flat(WithTwo(t, b, l, sep, r))) && Leaves(WithTwo(t, b, l, sep, r)) == Leaves(t)
  {
    var kids1 := WithTwo(t, b, l, sep, r).kids;
    assert kids1[..b] == t.kids[..b] && kids1[b + 2..] == t.kids[b + 2..];
    TwoAt(t.kids, b);
    TwoAt(kids1, b);
    hide Doubled;
    DoubledInside(FlatAll(t.kids[..b]), Flat(t.kids[b]) + Flat(t.kids[b + 1]), FlatAll(t.kids[b + 2..]), e, Flat(l) + Flat(r));
  }

  /** Rotation to the left with a key that the right leaf already has. */
  lemma LeftPairAgain(l: Tree, m: Tree, e: Entry, i: nat, l1: Tree, m1: Tree)
    requires RotatedInto(l, m, e, i, l1, m1) && i + 1 < |m.entries| && m.entries[i + 1].key == e.key
    ensures Doubled(Flat(l) + Flat(m), e, Flat(l1) + Flat(m1)) && m1.Leaf? && m1.entries != []
    ensures l1.Leaf? && l1.page == l.page && m1.page == m.page
  {
    hide *;
    RotatedPages(l, m, e, i, l1, m1);
    LeafFlat(l);
    LeafFlat(m);
    LeafFlat(l1);
    LeafFlat(m1);
    LeftAgainEntries(l.entries, m.entries, e, i);
  }

  lemma RotatedPages(l: Tree, m: Tree, e: Entry, i: int, l1: Tree, m1: Tree)
    requires RotatedInto(l, m, e, i, l1, m1)
    ensures l.Leaf? && m.Leaf? && l1.Leaf? && m1.Leaf? && 0 <= i < |m.entries| && l1.page == l.page && m1.page == m.page
    ensures l1.entries == l.entries + [m.entries[0]] && m1.entries == InsertAt(m.entries[1..], i, e) && m1.entries != []
  {
  }

  lemma LeafFlat(t: Tree)
    requires t.Leaf?
    ensures Flat(t) == t.entries && Count(t) == |t.entries|
  {
  }

  lemma LeftAgainEntries(l: seq<Entry>, m: seq<Entry>, e: Entry, i: nat)
    requires i + 1 < |m| && m[i + 1].key == e.key
    ensures Doubled(l + m, e, (l + [m[0]]) + InsertAt(m[1..], i, e))
  {
    hide *;
    var p := |l| + i + 1;
    assert (l + m)[p] == m[i + 1];
    assert l + m == (l + [m[0]]) + m[1..] + [];
    InsertAtInside(l + [m[0]], m[1..], [], i, e);
    assert (l + [m[0]]) + InsertAt(m[1..], i, e) + [] == (l + [m[0]]) + InsertAt(m[1..], i, e);
    DoubledAt(l + m, p, p, e);
  }

  /** A stored node over leaves, and the child followed. */
  lemma NodeParts(order: nat, t: Tree, lo: int, key: Key, b: int)
    requires t.Node? && WF(t, order, 1, lo) && Rep(t, order) && Branch(t.keys, key, b)
    ensures Bundled(t) && 0 <= b <= |t.keys| < |t.kids| && Stored(t, order, Count(t))
    ensures |t.page.keys| == order && |t.page.children| == order + 1 && t.page.size == |t.keys| <= order
  {
  }

  lemma RepStored(t: Tree, order: nat)
    requires Rep(t, order)
    ensures Stored(t, order, Count(t))
  {
  }

  method RotateLeftInsert(order: nat, key: Key, data: Data, branchIndex: int, cur: Page, ra: ReturnAction, ghost t: Tree, ghost lo: int)
    returns (ra1: ReturnAction, ghost t1: Tree)
    requires order >= 4 && t.Node? && t.page == cur && WF(t, order, 1, lo) && Sorted(Flat(t)) && Rep(t, order) && Distinct(t)
    requires Branch(t.keys, key, branchIndex) && branchIndex > 0 && t.keys[branchIndex - 1] != key
    requires Count(t.kids[branchIndex]) == order && Count(t.kids[branchIndex - 1]) < order
    modifies Pages(t)`keys, Pages(t)`data, Pages(t)`children, Pages(t)`size
    ensures ra1.action == ReplaceKey1WithKey2 && ra1.key1 == t.keys[branchIndex - 1]
    ensures if HasKey(Flat(t), key) then TookAgain(order, t, Entry(key, data), t1) else TookIn(order, 1, lo, t, Entry(key, data), t1)
    ensures Sizes(t1) == SizesAll(t.kids[..branchIndex - 1]) + [Count(t.kids[branchIndex - 1]) + 1, order] + SizesAll(t.kids[branchIndex + 1..])
  {
    hide *;
    ghost var b, e := branchIndex, Entry(key, data);
    NodeParts(order, t, lo, key, b);
    ghost var l, m := t.kids[b - 1], t.kids[b];
    PairPages(t, order, b - 1);
    TopFields(t, order);
    LeftPair(order, key, b, t, lo);
    RepStored(l, order);
    RepStored(m, order);
    LeafFlat(l);
    LeafFlat(m);
    assert Stored(l, order, Count(l)) && Stored(m, order, order) && cur.keys[..cur.size] == t.keys;
    ghost var oldKeys := cur.keys;
    hide *;
    var dest: Page, source: Page := cur.children[branchIndex - 1], cur.children[branchIndex];
    ghost var found, i, l1, m1;
    ra1, found, i, l1, m1 := RotateLeftBelow(order, key, data, branchIndex, cur, dest, source, ra.(action := ReplaceKey1WithKey2), l, m, t,
                                                  Others(t, b - 1, b + 1));
    FoundIsThere(m.entries[1..], key, found, i);
    PlaceOfResult(m.entries[1..], key, found, i);
    RotatedPages(l, m, e, i, l1, m1);
    if found {
      LeftPairAgain(l, m, e, i, l1, m1);
      t1 := PairAgain(order, e, b - 1, t, l1, m1, oldKeys);
    } else {
      LeftPairTook(order, e, b, t, lo, i, l1, m1);
      t1 := PairStored(order, e, b - 1, b, t, lo, l1, m1, oldKeys);
    }
  }

  lemma TwoStored(t: Tree, order: nat, b: nat, l: Tree, sep: Key, r: Tree, oldKeys: seq<Key>)
    requires t.Node? && Bundled(t) && b < |t.keys| && Distinct(t)
    requires l.Leaf? && r.Leaf? && t.kids[b].Leaf? && t.kids[b + 1].Leaf? && l.page == t.kids[b].page && r.page == t.kids[b + 1].page
    requires Stored(l, order, Count(l)) && Stored(r, order, Count(r))
    requires t.page.Live(order) && |oldKeys| == order && t.page.size == |t.keys| && !t.page.isLeaf
    requires oldKeys[..|t.keys|] == t.keys && t.page.keys == oldKeys[b := sep]
    requires t.page.children[..|t.keys| + 1] == PagesOf(t.kids) && Apart(t, order, b, b + 2)
    ensures var t1 := WithTwo(t, b, l, sep, r); Rep(t1, order) && Distinct(t1) && Pages(t1) == Pages(t)
  {
    StoredKey(t, order, b, sep, oldKeys);
    LeafPages(l);
    LeafPages(r);
    LeafPages(t.kids[b]);
    LeafPages(t.kids[b + 1]);
    assert Rep(l, order) && Rep(r, order);
    hide Distinct, Rep;
    RepTwo(t, order, b, l, sep, r);
    PagesTwo(t, b, l, sep, r);
  }

  lemma LeafPages(t: Tree)
    requires t.Leaf?
    ensures Distinct(t) && Pages(t) == {t.page}
  {
  }

  // ---------------------------------------------------------------- rotation to the right

  /** `m1` is leaf `m` with the last entry of `l` before it, `l1` the rest of `l` with `e` at `i`. */
  ghost predicate RotatedRightInto(l: Tree, m: Tree, e: Entry, i: int, l1: Tree, m1: Tree) {
    && l.Leaf? && m.Leaf? && 0 <= i < Count(l)
    && l1 == Leaf(l.page, InsertAt(l.entries[..|l.entries| - 1], i, e))
    && m1 == Leaf(m.page, [l.entries[|l.entries| - 1]] + m.entries)
  }

  method RotateRightLeaves(order: nat, branchIndex: int, cur: Page, dest: Page, source: Page, ra: ReturnAction,
          ghost l: Tree, ghost m: Tree)
    returns (ra1: ReturnAction)
    requires order >= 4 && l.Leaf? && m.Leaf? && m.page == dest && l.page == source && cur != dest && cur != source && dest != source
    requires cur.Live(order) && 0 <= branchIndex < cur.size
    requires Stored(l, order, order) && Stored(m, order, Count(m)) && 0 < Count(m) < order && Count(l) == order
    modifies cur`keys, dest`keys, dest`data, dest`children, dest`size, source`size
    ensures cur.Live(order) && ra1 == ra.(key1 := m.entries[0].key, key2 := l.entries[order - 1].key)
    ensures var m1, l0 := Leaf(dest, [l.entries[order - 1]] + m.entries), Leaf(source, l.entries[..order - 1]);
      && Stored(m1, order, Count(m1)) && Stored(l0, order, Count(l0))
      && cur.keys == old(cur.keys)[branchIndex := l.entries[order - 1].key]
  {
    ViewJoin(l, 0, m);
    ViewCut(JoinT(l, 0, m), order - 1, dest);
    assert TakeT(JoinT(l, 0, m), order - 1) == Leaf(source, l.entries[..order - 1]);
    assert DropT(JoinT(l, 0, m), order - 1, dest) == Leaf(dest, [l.entries[order - 1]] + m.entries);
    assert ViewT(m).keys[0] == m.entries[0].key;
    assert ViewT(JoinT(l, 0, m)).keys[order - 1] == l.entries[order - 1].key;
    ra1 := RotateRight(order, cur, branchIndex, dest, source, ra);
    assert dest.keys[..dest.size][0] == l.entries[order - 1].key;
  }

  lemma WithoutLast(es: seq<Entry>, key: Key)
    requires es != [] && Sorted(es)
    ensures var init := es[..|es| - 1]; Sorted(init) && (HasKey(init, key) ==> HasKey(es, key)) && AllBelow(init, es[|es| - 1].key)
  {
    var init := es[..|es| - 1];
    assert forall i :: 0 <= i < |init| ==> init[i] == es[i];
  }

  /** The pages of two leaves and their parent after a key went into the left one or to the head of the right one. */
  method RotateRightPages(order: nat, key: Key, data: Data, branchIndex: int, cur: Page, dest: Page, source: Page, ra: ReturnAction,
                          ghost l: Tree, ghost m: Tree)
    returns (ra1: ReturnAction, ghost found: bool, ghost rotated: bool, ghost i: int, ghost l1: Tree, ghost m1: Tree)
    requires order >= 4 && l.Leaf? && m.Leaf? && m.page == dest && l.page == source && cur != dest && cur != source && dest != source
    requires cur.Live(order) && 0 <= branchIndex < cur.size
    requires Stored(l, order, order) && Stored(m, order, Count(m)) && 0 < Count(m) < order && Count(l) == order
    requires Sorted(l.entries)
    modifies cur`keys, dest`keys, dest`data, dest`children, dest`size, source`keys, source`data, source`children, source`size
    ensures ra1.action == ra.action && ra1.key1 == m.entries[0].key
    ensures cur.Live(order) && cur.size == old(cur.size) && cur.isLeaf == old(cur.isLeaf) && cur.children == old(cur.children)
    ensures rotated <==> key < l.entries[order - 1].key
    ensures if rotated then SearchResult(l.entries[..order - 1], key, found, i) && RotatedRightInto(l, m, Entry(key, data), i, l1, m1)
            else l1 == l && m1 == Leaf(m.page, [Entry(key, data)] + m.entries)
    ensures Stored(l1, order, Count(l1)) && Stored(m1, order, Count(m1))
    ensures cur.keys == old(cur.keys)[branchIndex := m1.entries[0].key]
  {
    hide *;
    ghost var e := Entry(key, data);
    LeafFlat(l);
    LeafFlat(m);
    LeafEdges(l, order);
    LeafEdges(m, order);
    rotated, found, i := key < l.entries[order - 1].key, false, 0;
    if key < source.keys[source.size - 1] {
      ra1 := RotateRightLeaves(order, branchIndex, cur, dest, source, ra, l, m);
      ghost var l0 := Leaf(source, l.entries[..order - 1]);
      m1 := Leaf(dest, [l.entries[order - 1]] + m.entries);
      WithoutLast(l.entries, key);
      LeafFlat(l0);
      found, i := SearchAndInsert(order, key, data, source, l0);
      PlaceOfResult(l0.entries, key, found, i);
      l1 := InsertEntry(l0, i, e);
      RotatedRightIntro(l, m, e, i, l1, m1, order);
    } else {
      ra1 := ra.(key1 := dest.keys[0]);
      l1, m1 := l, Leaf(dest, [e] + m.entries);
      HeadInsert(order, key, data, dest, m);
      LeafFlat(m1);
      ra1 := ra1.(key2 := key);
      SetKey(order, cur, branchIndex, dest.keys[0]);
    }
  }

  method SetKey(order: nat, cur: Page, i: int, key: Key)
    requires cur.Live(order) && 0 <= i < cur.size
    modifies cur`keys
    ensures cur.Live(order) && i < |old(cur.keys)| && cur.keys == old(cur.keys)[i := key]
  {
    cur.keys := cur.keys[i := key];
  }

  /** The first and the last key of a stored leaf. */
  lemma LeafEdges(t: Tree, order: nat)
    requires t.Leaf? && Stored(t, order, Count(t)) && t.entries != []
    ensures t.page.Live(order) && t.page.size == |t.entries| <= order && |t.page.keys| == order
    ensures t.page.keys[0] == t.entries[0].key && t.page.keys[t.page.size - 1] == t.entries[|t.entries| - 1].key
  {
    assert t.page.keys[..t.page.size] == KeysOf(t.entries);
    assert t.page.keys[..t.page.size][0] == t.page.keys[0];
    assert t.page.keys[..t.page.size][t.page.size - 1] == t.page.keys[t.page.size - 1];
  }

  lemma RotatedRightIntro(l: Tree, m: Tree, e: Entry, i: int, l1: Tree, m1: Tree, order: nat)
    requires l.Leaf? && m.Leaf? && |l.entries| == order > 0 && 0 <= i < order
    requires l1 == InsertEntry(Leaf(l.page, l.entries[..order - 1]), i, e) && m1 == Leaf(m.page, [l.entries[order - 1]] + m.entries)
    ensures RotatedRightInto(l, m, e, i, l1, m1) && l1.Leaf? && Count(l1) == order && Count(m1) == |m1.entries|
  {
  }

  method HeadInsert(order: nat, key: Key, data: Data, dest: Page, ghost m: Tree)
    requires m.Leaf? && m.page == dest && Stored(m, order, Count(m)) && Count(m) < order
    modifies dest`keys, dest`data, dest`children, dest`size
    ensures Stored(Leaf(dest, [Entry(key, data)] + m.entries), order, Count(m) + 1) && |dest.keys| > 0 && dest.keys[0] == key
  {
    StoredLive(m, order);
    InsertIntoRoom(order, key, data, 0, null, dest);
    ViewInsertEntry(m, 0, Entry(key, data), null);
    assert InsertAt(m.entries, 0, Entry(key, data)) == [Entry(key, data)] + m.entries;
    assert dest.keys[..dest.size][0] == key;
  }

  method RotateRightBelow(order: nat, key: Key, data: Data, branchIndex: int, cur: Page, dest: Page, source: Page, ra: ReturnAction,
                          ghost l: Tree, ghost m: Tree, ghost t: Tree, ghost others: set<Page>)
    returns (ra1: ReturnAction, ghost found: bool, ghost rotated: bool, ghost i: int, ghost l1: Tree, ghost m1: Tree)
    requires order >= 4 && l.Leaf? && m.Leaf? && m.page == dest && l.page == source && cur != dest && cur != source && dest != source
    requires cur.Live(order) && 0 <= branchIndex < cur.size
    requires Stored(l, order, order) && Stored(m, order, Count(m)) && 0 < Count(m) < order && Count(l) == order
    requires Sorted(l.entries)
    requires t.Node? && branchIndex + 2 <= |t.kids| && Apart(t, order, branchIndex, branchIndex + 2)
    requires others == Others(t, branchIndex, branchIndex + 2) && cur !in others && dest !in others && source !in others
    modifies cur`keys, dest`keys, dest`data, dest`children, dest`size, source`keys, source`data, source`children, source`size
    ensures ra1.action == ra.action && ra1.key1 == m.entries[0].key
    ensures cur.Live(order) && cur.size == old(cur.size) && cur.isLeaf == old(cur.isLeaf) && cur.children == old(cur.children)
    ensures rotated <==> key < l.entries[order - 1].key
    ensures if rotated then SearchResult(l.entries[..order - 1], key, found, i) && RotatedRightInto(l, m, Entry(key, data), i, l1, m1)
            else l1 == l && m1 == Leaf(m.page, [Entry(key, data)] + m.entries)
    ensures Stored(l1, order, Count(l1)) && Stored(m1, order, Count(m1))
    ensures cur.keys == old(cur.keys)[branchIndex := m1.entries[0].key]
    ensures Apart(t, order, branchIndex, branchIndex + 2)
  {
    hide *;
    ra1, found, rotated, i, l1, m1 := RotateRightPages(order, key, data, branchIndex, cur, dest, source, ra, l, m);
  }

  /** Before a right rotation: the two leaves and what the search below will meet. */
  lemma RightPair(order: nat, key: Key, b: nat, t: Tree, lo: int)
    requires order >= 4 && t.Node? && WF(t, order, 1, lo) && Sorted(Flat(t))
    requires Branch(t.keys, key, b) && b < |t.keys| && (b > 0 ==> t.keys[b - 1] != key)
    requires Count(t.kids[b]) == order && Count(t.kids[b + 1]) < order
    ensures var l, m := t.kids[b], t.kids[b + 1];
      && l.Leaf? && m.Leaf? && WF(l, order, 0, order / 2) && WF(m, order, 0, order / 2)
      && m.entries != [] && m.entries[0].key == t.keys[b] && key < t.keys[b]
      && Sorted(Flat(l) + Flat(m)) && Sorted(l.entries)
      && (HasKey(l.entries, key) <==> HasKey(Flat(t), key))
      && (b > 0 ==> Heads(t.keys[b - 1], Flat(l)) && l.entries[0].key < key)
  {
    var l, m := t.kids[b], t.kids[b + 1];
    assert WF(l, order, 0, order / 2) && WF(m, order, 0, order / 2) && Heads(t.keys[b + 1 - 1], Flat(m));
    TwoAt(t.kids, b);
    SortedParts(FlatAll(t.kids[..b]), Flat(l) + Flat(m), FlatAll(t.kids[b + 2..]));
    SortedParts(l.entries, m.entries, []);
    assert l.entries + m.entries + [] == l.entries + m.entries;
    RightPairKeys(order, key, b, t, lo);
    assert b > 0 ==> Heads(t.keys[b - 1], Flat(t.kids[b]));
  }

  lemma RightPairKeys(order: nat, key: Key, b: nat, t: Tree, lo: int)
    requires order >= 4 && t.Node? && WF(t, order, 1, lo) && Sorted(Flat(t)) && Branch(t.keys, key, b)
    ensures b < |t.kids| && (HasKey(Flat(t.kids[b]), key) <==> HasKey(Flat(t), key))
  {
    BranchHasKey(t.keys, t.kids, order, 1, key, b);
  }

  lemma RightPairTook(order: nat, e: Entry, b: nat, t: Tree, lo: int, rotated: bool, i: int, l1: Tree, m1: Tree)
    requires order >= 4 && t.Node? && WF(t, order, 1, lo) && Sorted(Flat(t))
    requires Branch(t.keys, e.key, b) && b < |t.keys| && (b > 0 ==> t.keys[b - 1] != e.key)
    requires Count(t.kids[b]) == order && Count(t.kids[b + 1]) < order && t.kids[b].Leaf? && t.kids[b + 1].Leaf?
    requires rotated <==> e.key < t.kids[b].entries[order - 1].key
    requires !rotated ==> !HasKey(Flat(t), e.key)
    requires if rotated then 0 <= i < order && Place(KeysOf(t.kids[b].entries[..order - 1]), e.key, i)
                              && RotatedRightInto(t.kids[b], t.kids[b + 1], e, i, l1, m1)
             else l1 == t.kids[b] && m1 == Leaf(t.kids[b + 1].page, [e] + t.kids[b + 1].entries)
    ensures PairTook(order, e, t, b, l1, m1)
  {
    RightPair(order, e.key, b, t, lo);
    var l, m := t.kids[b], t.kids[b + 1];
    hide WF, Run, Branch;
    if rotated {
      RotatedRight(l, m, e, i, l1, m1, order);
    } else {
      LastHasKey(t, b, order, lo, e.key);
      PutAtHead(l, m, e, m1, order);
    }
  }

  lemma RotatedRight(l: Tree, m: Tree, e: Entry, i: nat, l1: Tree, m1: Tree, M: int)
    requires M >= 4 && WF(l, M, 0, M / 2) && WF(m, M, 0, M / 2) && l.Leaf? && m.Leaf? && Count(m) < M && |l.entries| == Count(l) == M
    requires RotatedRightInto(l, m, e, i, l1, m1) && Sorted(l.entries + m.entries) && e.key < l.entries[|l.entries| - 1].key
    requires Place(KeysOf(l.entries[..|l.entries| - 1]), e.key, i)
    ensures WF(l1, M, 0, M / 2) && WF(m1, M, 0, M / 2)
    ensures Inserted(Flat(l) + Flat(m), e, Flat(l1) + Flat(m1))
    ensures l.entries[0].key < e.key ==> l1.entries[0] == l.entries[0]
  {
    hide *;
    RotatedRightTrees(l, m, e, i, l1, m1);
    LeafIs(l, M);
    LeafIs(m, M);
    LeafIs(l1, M);
    LeafIs(m1, M);
  }

  lemma RotatedRightTrees(l: Tree, m: Tree, e: Entry, i: nat, l1: Tree, m1: Tree)
    requires l.Leaf? && m.Leaf? && |l.entries| > 1 && Sorted(l.entries + m.entries) && e.key < l.entries[|l.entries| - 1].key
    requires RotatedRightInto(l, m, e, i, l1, m1) && Place(KeysOf(l.entries[..|l.entries| - 1]), e.key, i)
    ensures l1.Leaf? && m1.Leaf? && |l1.entries| == |l.entries| && |m1.entries| == |m.entries| + 1
    ensures Inserted(l.entries + m.entries, e, l1.entries + m1.entries)
    ensures l.entries[0].key < e.key ==> l1.entries[0] == l.entries[0]
  {
    hide *;
    RotatedRightPages(l, m, e, i, l1, m1);
    RotatedRightEntries(l.entries, m.entries, e, i);
  }

  lemma RotatedRightEntries(l: seq<Entry>, m: seq<Entry>, e: Entry, i: nat)
    requires |l| > 1 && Sorted(l + m) && e.key < l[|l| - 1].key && i < |l| && Place(KeysOf(l[..|l| - 1]), e.key, i)
    ensures Inserted(l + m, e, InsertAt(l[..|l| - 1], i, e) + ([l[|l| - 1]] + m))
    ensures l[0].key < e.key ==> InsertAt(l[..|l| - 1], i, e)[0] == l[0]
  {
    var init, rest := l[..|l| - 1], [l[|l| - 1]] + m;
    assert l[0].key < e.key ==> i > 0 by { assert KeysOf(init)[0] == l[0].key; }
    SplitLast(l, m, e.key);
    InsertedByPlace(init, i, e);
    hide Sorted, Inserted, AllAbove, Place, KeysOf;
    assert init + rest == l + m;
    InsertedBefore(init, rest, e, InsertAt(init, i, e));
  }

  lemma SplitLast(l: seq<Entry>, m: seq<Entry>, k: Key)
    requires Sorted(l + m) && l != [] && k < l[|l| - 1].key
    ensures Sorted(l[..|l| - 1]) && AllAbove(k, [l[|l| - 1]] + m)
  {
    SortedParts(l, m, []);
    assert l + m + [] == l + m;
    WithoutLast(l, k);
    assert forall i :: 0 <= i < |m| ==> (l + m)[|l| + i] == m[i];
    assert (l + m)[|l| - 1] == l[|l| - 1];
  }

  lemma LastHasKey(t: Tree, b: nat, order: nat, lo: int, key: Key)
    requires order >= 4 && t.Node? && WF(t, order, 1, lo) && Sorted(Flat(t)) && Branch(t.keys, key, b) && b < |t.kids|
    requires t.kids[b].Leaf? && t.kids[b].entries != [] && !HasKey(Flat(t), key)
    ensures t.kids[b].entries[|t.kids[b].entries| - 1].key != key
  {
    BranchHasKey(t.keys, t.kids, order, 1, key, b);
  }

  lemma PutAtHeadEntries(l: seq<Entry>, m: seq<Entry>, e: Entry)
    requires Sorted(l + m) && l != [] && m != [] && l[|l| - 1].key < e.key < m[0].key
    ensures Inserted(l + m, e, l + ([e] + m))
  {
    var es := l + m;
    assert es[|l| - 1] == l[|l| - 1] && es[|l|] == m[0];
    assert es[..|l|] == l && es[|l|..] == m;
    assert l + ([e] + m) == es[..|l|] + [e] + es[|l|..];
    SortedParts(l, m, []);
    assert l + m + [] == l + m;
    assert AllBelow(l, e.key) && AllAbove(e.key, m);
    hide *;
    PutInOrder(l, e, m);
    InsertedIntro(es, |l|, e, l + ([e] + m));
  }

  lemma PutAtHead(l: Tree, m: Tree, e: Entry, m1: Tree, M: int)
    requires M >= 4 && WF(m, M, 0, M / 2) && l.Leaf? && m.Leaf? && Count(m) < M && l.entries != [] && m.entries != []
    requires Sorted(Flat(l) + Flat(m)) && l.entries[|l.entries| - 1].key < e.key < m.entries[0].key && m1 == Leaf(m.page, [e] + m.entries)
    ensures WF(m1, M, 0, M / 2)
    ensures Inserted(Flat(l) + Flat(m), e, Flat(l) + Flat(m1))
  {
    hide *;
    LeafIs(l, M);
    LeafIs(m, M);
    LeafIs(m1, M);
    PutAtHeadEntries(l.entries, m.entries, e);
  }

  lemma HasKeyInit(es: seq<Entry>, key: Key)
    requires es != [] && es[|es| - 1].key != key
    ensures HasKey(es[..|es| - 1], key) <==> HasKey(es, key)
  {
    var n := |es| - 1;
    assert es == es[..n] + [es[n]] + [];
    HasKeyParts(es[..n], [es[n]], [], key);
  }

  /** A search for a key that the left leaf does not have finds its place. */
  lemma RightAbsent(l: Tree, key: Key, order: nat, rotated: bool, found: bool, i: int)
    requires order > 0 && l.Leaf? && |l.entries| == order && !HasKey(l.entries, key) && (rotated <==> key < l.entries[order - 1].key)
    requires rotated ==> SearchResult(l.entries[..order - 1], key, found, i)
    ensures rotated ==> 0 <= i < order && Place(KeysOf(l.entries[..order - 1]), key, i)
  {
    if rotated {
      HasKeyInit(l.entries, key);
      FoundIsThere(l.entries[..order - 1], key, found, i);
      PlaceOfResult(l.entries[..order - 1], key, found, i);
    }
  }

  /** Rotation to the right, or insertion at the head of the right leaf, with a key that the left leaf already has. */
  lemma RightPairAgain(l: Tree, m: Tree, e: Entry, order: nat, rotated: bool, found: bool, i: int, l1: Tree, m1: Tree)
    requires order > 0 && l.Leaf? && m.Leaf? && |l.entries| == order && Sorted(l.entries) && HasKey(l.entries, e.key)
    requires rotated <==> e.key < l.entries[order - 1].key
    requires if rotated then SearchResult(l.entries[..order - 1], e.key, found, i) && RotatedRightInto(l, m, e, i, l1, m1)
             else l1 == l && m1 == Leaf(m.page, [e] + m.entries)
    ensures Doubled(Flat(l) + Flat(m), e, Flat(l1) + Flat(m1)) && m1.Leaf? && m1.entries != []
    ensures l1.Leaf? && l1.page == l.page && m1.page == m.page
  {
    hide *;
    LeafFlat(l);
    LeafFlat(m);
    if rotated {
      HasKeyInit(l.entries, e.key);
      FoundIsThere(l.entries[..order - 1], e.key, found, i);
      PlaceOfResult(l.entries[..order - 1], e.key, found, i);
      RotatedRightPages(l, m, e, i, l1, m1);
      RightAgainEntries(l.entries, m.entries, e, i);
    } else {
      LastIs(l.entries, e.key);
      HeadAgainEntries(l.entries, m.entries, e);
    }
    LeafFlat(l1);
    LeafFlat(m1);
  }

  lemma RotatedRightPages(l: Tree, m: Tree, e: Entry, i: int, l1: Tree, m1: Tree)
    requires RotatedRightInto(l, m, e, i, l1, m1)
    ensures l.Leaf? && m.Leaf? && l1.Leaf? && m1.Leaf? && 0 <= i < |l.entries| && l1.page == l.page && m1.page == m.page
    ensures l1.entries == InsertAt(l.entries[..|l.entries| - 1], i, e) && m1.entries == [l.entries[|l.entries| - 1]] + m.entries
    ensures m1.entries != []
  {
  }

  lemma RightAgainEntries(l: seq<Entry>, m: seq<Entry>, e: Entry, i: nat)
    requires i + 1 < |l| && l[i].key == e.key
    ensures Doubled(l + m, e, InsertAt(l[..|l| - 1], i, e) + ([l[|l| - 1]] + m))
  {
    hide *;
    var n := |l| - 1;
    assert (l + m)[i] == l[i];
    assert l + m == [] + l[..n] + ([l[n]] + m);
    InsertAtInside([], l[..n], [l[n]] + m, i, e);
    assert [] + InsertAt(l[..n], i, e) == InsertAt(l[..n], i, e);
    DoubledAt(l + m, i, i, e);
  }

  lemma HeadAgainEntries(l: seq<Entry>, m: seq<Entry>, e: Entry)
    requires l != [] && l[|l| - 1].key == e.key
    ensures Doubled(l + m, e, l + ([e] + m))
  {
    assert (l + m)[|l| - 1] == l[|l| - 1];
    assert l + ([e] + m) == InsertAt(l + m, |l|, e);
    DoubledAt(l + m, |l| - 1, |l|, e);
  }

  lemma LastIs(es: seq<Entry>, key: Key)
    requires Sorted(es) && HasKey(es, key) && es != [] && es[|es| - 1].key <= key
    ensures es[|es| - 1].key == key
  {
  }

  method RotateRightInsert(order: nat, key: Key, data: Data, branchIndex: int, cur: Page, ra: ReturnAction, ghost t: Tree, ghost lo: int)
    returns (ra1: ReturnAction, ghost t1: Tree)
    requires order >= 4 && t.Node? && t.page == cur && WF(t, order, 1, lo) && Sorted(Flat(t)) && Rep(t, order) && Distinct(t)
    requires Branch(t.keys, key, branchIndex) && branchIndex < |t.keys| && (branchIndex > 0 ==> t.keys[branchIndex - 1] != key)
    requires Count(t.kids[branchIndex]) == order && Count(t.kids[branchIndex + 1]) < order
    modifies Pages(t)`keys, Pages(t)`data, Pages(t)`children, Pages(t)`size
    ensures ra1.action == ReplaceKey1WithKey2 && ra1.key1 == t.keys[branchIndex]
    ensures if HasKey(Flat(t), key) then TookAgain(order, t, Entry(key, data), t1) else TookIn(order, 1, lo, t, Entry(key, data), t1)
    ensures Sizes(t1) == SizesAll(t.kids[..branchIndex]) + [order, Count(t.kids[branchIndex + 1]) + 1] + SizesAll(t.kids[branchIndex + 2..])
  {
    hide *;
    ghost var b, e := branchIndex, Entry(key, data);
    NodeParts(order, t, lo, key, b);
    ghost var l, m := t.kids[b], t.kids[b + 1];
    PairPages(t, order, b);
    TopFields(t, order);
    RightPair(order, key, b, t, lo);
    RepStored(l, order);
    RepStored(m, order);
    LeafFlat(l);
    LeafFlat(m);
    assert Stored(l, order, order) && Stored(m, order, Count(m)) && cur.keys[..cur.size] == t.keys;
    ghost var oldKeys := cur.keys;
    assert Count(m) == |m.entries|;
    hide *;
    var source: Page, dest: Page := cur.children[branchIndex], cur.children[branchIndex + 1];
    ghost var found, rotated, i, l1, m1;
    ra1, found, rotated, i, l1, m1 := RotateRightBelow(order, key, data, branchIndex, cur, dest, source,
                                                       ra.(action := ReplaceKey1WithKey2), l, m, t, Others(t, b, b + 2));
    if rotated {
      RotatedRightPages(l, m, e, i, l1, m1);
    }
    if HasKey(Flat(t), key) {
      RightPairAgain(l, m, e, order, rotated, found, i, l1, m1);
      t1 := PairAgain(order, e, b, t, l1, m1, oldKeys);
    } else {
      RightAbsent(l, e.key, order, rotated, found, i);
      RightPairTook(order, e, b, t, lo, rotated, i, l1, m1);
      t1 := PairStored(order, e, b, b, t, lo, l1, m1, oldKeys);
    }
  }
}
