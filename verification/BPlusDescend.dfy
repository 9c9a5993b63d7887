/** The way down to the leaf an insertion changes, and back up through the pages that split. */
module BPlusDescend {
  import opened Sequences
  import opened BPlusPage
  import opened BPlusShape
  import opened BPlusHeap
  import opened BPlusInsert
  import opened BPlusGrow

  // ---------------------------------------------------------------- children replaced in a node

  /** The children of `t` with children `lo .. hi - 1` replaced by `mid`. */
  ghost function Spliced(t: Tree, lo: nat, hi: nat, mid: seq<Tree>): (kids: seq<Tree>)
    requires t.Node? && lo <= hi <= |t.kids|
  {
    t.kids[..lo] + mid + t.kids[hi..]
  }

  lemma SplicedShapes(t: Tree, b: nat, k: Tree, n: Tree)
    requires t.Node? && b < |t.kids|
    ensures Spliced(t, b, b + 1, [k]) == t.kids[b := k]
    ensures Spliced(t, b, b + 1, [k, n]) == InsertAt(t.kids[b := k], b + 1, n)
    ensures b + 1 < |t.kids| ==> Spliced(t, b, b + 2, [k, n]) == t.kids[b := k][b + 1 := n]
    ensures b + 1 < |t.kids| ==> Spliced(t, b, b + 2, [k]) == RemoveAt(t.kids[b := k], b + 1)
  {
  }

  lemma SplicedRep(t: Tree, order: nat, lo: nat, hi: nat, mid: seq<Tree>)
    requires t.Node? && lo <= hi <= |t.kids| && Apart(t, order, lo, hi) && RepAll(mid, order)
    ensures RepAll(Spliced(t, lo, hi, mid), order)
  {
    var l, r, kids := t.kids[..lo], t.kids[hi..], Spliced(t, lo, hi, mid);
    forall i | 0 <= i < |kids| ensures Rep(kids[i], order) {
      if i < lo {
        assert kids[i] == l[i];
      } else if i < lo + |mid| {
        assert kids[i] == mid[i - lo];
      } else {
        assert kids[i] == r[i - lo - |mid|];
      }
    }
  }

  lemma SplicedPages(t: Tree, lo: nat, hi: nat, mid: seq<Tree>)
    requires t.Node? && lo <= hi <= |t.kids|
    ensures PagesIn(Spliced(t, lo, hi, mid)) == PagesIn(mid) + Others(t, lo, hi)
  {
    PagesInConcat(t.kids[..lo], mid);
    PagesInConcat(t.kids[..lo] + mid, t.kids[hi..]);
  }

  lemma DistinctConcat(a: seq<Tree>, b: seq<Tree>)
    requires DistinctAll(a) && DistinctAll(b) && PagesIn(a) !! PagesIn(b)
    ensures DistinctAll(a + b)
  {
    var ab := a + b;
    forall i, j | 0 <= i < j < |ab| ensures Pages(ab[i]) !! Pages(ab[j]) {
      if i < |a| <= j {
        assert Pages(a[i]) <= PagesIn(a) && Pages(b[j - |a|]) <= PagesIn(b);
      }
    }
  }

  lemma SplicedDistinct(t: Tree, lo: nat, hi: nat, mid: seq<Tree>)
    requires t.Node? && lo <= hi <= |t.kids| && DistinctAll(t.kids) && DistinctAll(mid) && PagesIn(mid) !! Others(t, lo, hi)
    ensures DistinctAll(Spliced(t, lo, hi, mid))
  {
    var l, r := t.kids[..lo], t.kids[hi..];
    SlicePages(t.kids, lo);
    SlicePages(t.kids, hi);
    assert PagesIn(l) !! PagesIn(r);
    assert DistinctAll(l) && DistinctAll(r);
    hide DistinctAll, PagesIn;
    DistinctConcat(l, mid);
    PagesInConcat(l, mid);
    DistinctConcat(l + mid, r);
  }

  /** Child `b` of a node, set apart from the node's page and from its other children. */
  lemma ChildApart(t: Tree, order: nat, b: nat)
    requires t.Node? && Rep(t, order) && Distinct(t) && b < |t.kids|
    ensures Bundled(t) && Stored(t, order, Count(t)) && Apart(t, order, b, b + 1) && Rep(t.kids[b], order) && Distinct(t.kids[b])
    ensures t.page.children[b] == t.kids[b].page && t.page !in Pages(t.kids[b]) && t.page !in Others(t, b, b + 1)
    ensures Pages(t.kids[b]) !! Others(t, b, b + 1) && DistinctAll(t.kids)
    ensures Pages(t) == {t.page} + Pages(t.kids[b]) + Others(t, b, b + 1)
  {
    hide *;
    ChildPages(t, order);
    ChildOthers(t, b);
    KidsOf(t);
    RepParts(t, order, b);
  }

  lemma RepParts(t: Tree, order: nat, b: nat)
    requires t.Node? && Rep(t, order) && Distinct(t) && b < |t.kids|
    ensures Bundled(t) && Stored(t, order, Count(t)) && Apart(t, order, b, b + 1) && Rep(t.kids[b], order) && Distinct(t.kids[b])
    ensures b < |t.page.children|
  {
    hide Pages, PagesIn;
  }

  /** The pages of a node around child `b`. */
  lemma ChildOthers(t: Tree, b: nat)
    requires t.Node? && Distinct(t) && b < |t.kids|
    ensures t.page !in Pages(t.kids[b]) && t.page !in Others(t, b, b + 1) && Pages(t.kids[b]) !! Others(t, b, b + 1)
    ensures Pages(t) == {t.page} + Pages(t.kids[b]) + Others(t, b, b + 1)
  {
    SlicePages(t.kids, b);
    SlicePages(t.kids, b + 1);
  }

  // ---------------------------------------------------------------- a child's new page taken in

  /** A split index page no longer counts the key it pushed to its parent. */
  method DropPushedKey(order: nat, newPage: Page, ghost n: Tree, ghost rest: seq<Tree>, ghost others: set<Page>, ghost own: set<Page>)
    requires n.page == newPage && RepSplit(n, order) && n.Node? && RepAll(rest, order)
    requires own == PagesIn(n.kids) && newPage !in own && others == PagesIn(rest) && newPage !in others
    modifies newPage`size
    ensures Rep(n, order) && RepAll(rest, order)
  {
    newPage.size := newPage.size - 1;
  }

  /** Where the pages are when child `b` comes back as `k` and the new `n`. */
  lemma AbsorbPages(order: nat, t: Tree, b: nat, k: Tree, n: Tree)
    requires t.Node? && Bundled(t) && b < |t.kids| && Distinct(t) && Stored(t, order, Count(t)) && k.page == t.kids[b].page
    requires Rep(k, order) && DistinctAll([k, n])
    requires Apart(t, order, b, b + 1) && PagesIn([k, n]) !! Others(t, b, b + 1)
    requires t.page !in PagesIn([k, n]) && t.page !in Others(t, b, b + 1)
    ensures n.page in PagesIn([k, n])
    ensures var w0 := Node(t.page, t.keys, t.kids[b := k]);
      && Stored(w0, order, Count(w0)) && RepAll(w0.kids, order) && n.page !in PagesIn(w0.kids) && n.page != t.page
      && (n.Node? ==> n.page !in PagesIn(n.kids))
      && DistinctAll(InsertAt(w0.kids, b + 1, n)) && PagesIn(InsertAt(w0.kids, b + 1, n)) == PagesIn([k, n]) + Others(t, b, b + 1)
  {
    hide *;
    PairApart(k, n);
    KidsOf(t);
    KidsOf(n);
    PagesOfTwo(k, n);
    PagesOfTwo(k, k);
    BundledIs(t);
    OnlyRep(k, order);
    SamePages(t.kids, b, k);
    StoredOver(t, t.kids[b := k], order);
    SplicedShapes(t, b, k, n);
    SplicedRep(t, order, b, b + 1, [k]);
    SplicedPages(t, b, b + 1, [k, n]);
    SplicedPages(t, b, b + 1, [k]);
    SplicedDistinct(t, b, b + 1, [k, n]);
  }

  lemma PairApart(k: Tree, n: Tree)
    requires DistinctAll([k, n])
    ensures Distinct(k) && Distinct(n) && Pages(k) !! Pages(n) && n.page in Pages(n) && k.page in Pages(k)
  {
    assert [k, n][0] == k && [k, n][1] == n;
  }

  /** A node's children, if it has any. */
  lemma KidsOf(t: Tree)
    requires Distinct(t)
    ensures t.Node? ==> t.page !in PagesIn(t.kids) && DistinctAll(t.kids) && Pages(t) == {t.page} + PagesIn(t.kids)
  {
  }

  lemma BundledIs(t: Tree)
    ensures Bundled(t) && t.Node? ==> |t.kids| == |t.keys| + 1 && Count(t) == |t.keys|
  {
  }

  lemma OnlyRep(k: Tree, order: nat)
    requires Rep(k, order)
    ensures RepAll([k], order)
  {
  }

  lemma SamePages(kids: seq<Tree>, b: nat, k: Tree)
    requires b < |kids| && k.page == kids[b].page
    ensures PagesOf(kids[b := k]) == PagesOf(kids)
  {
  }

  /** The page of a node says nothing about its children but where they are. */
  lemma StoredOver(t: Tree, kids: seq<Tree>, order: nat)
    requires t.Node? && Stored(t, order, Count(t)) && |kids| == |t.kids| && PagesOf(kids) == PagesOf(t.kids)
    ensures var w := Node(t.page, t.keys, kids); Stored(w, order, Count(w)) && Bundled(w) && Count(w) == Count(t)
  {
  }

  /** What the parent knows when child `b` comes back as `k` and the new `n`. */
  lemma AbsorbReady(order: nat, h: nat, lo: int, t: Tree, b: nat, e: Entry, k: Tree, n: Tree, sep: Key)
    requires order >= 4 && h > 0 && t.Node? && WF(t, order, h, lo) && Sorted(Flat(t))
    requires Branch(t.keys, e.key, b) && (b > 0 ==> t.keys[b - 1] != e.key)
    requires Grown(order, h - 1, order / 2, t.kids[b], e, [k, n], n.page) && Heads(sep, Flat(n))
    ensures Rep(k, order) && RepSplit(n, order) && DistinctAll([k, n]) && k.page == t.kids[b].page
    ensures var w0 := Node(t.page, t.keys, t.kids[b := k]); var w := InsertKid(w0, b, sep, n);
      && Loose(w, order, h) && Inserted(Flat(t), e, Flat(w)) && Increasing(w0.keys) && Place(w0.keys, sep, b)
      && Leaves(w) == LeavesAll(t.kids[..b]) + LeavesAll([k, n]) + LeavesAll(t.kids[b + 1..])
  {
    assert [k, n][0] == k && [k, n][1] == n;
    FlatAllTwo(k, n);
    hide Run, Sorted, Inserted, Rep, RepAll, Distinct, DistinctAll;
    KidSplit(t, order, h, lo, b, e, k, n, sep);
  }

  /** The parent takes in the page child `b` split off, under the key that heads it. */
  method Absorb(order: nat, key: Key, data: Data, b: int, nodeData: Page, cur: Page, ra: ReturnAction,
                ghost t: Tree, ghost h: nat, ghost lo: int, ghost k: Tree, ghost n: Tree)
    returns (newPage: Page?, ra1: ReturnAction, ghost r: seq<Tree>)
    requires order >= 4 && h > 0 && t.Node? && t.page == cur && WF(t, order, h, lo) && Sorted(Flat(t)) && Distinct(t)
    requires Stored(t, order, Count(t)) && Branch(t.keys, key, b) && (b > 0 ==> t.keys[b - 1] != key)
    requires Grown(order, h - 1, order / 2, t.kids[b], Entry(key, data), [k, n], nodeData)
    requires Apart(t, order, b, b + 1) && PagesIn([k, n]) !! Others(t, b, b + 1) && cur !in PagesIn([k, n]) && cur !in Others(t, b, b + 1)
    requires nodeData.isLeaf <==> h == 1
    requires if nodeData.isLeaf then nodeData.Live(order) && nodeData.size > 0 && Heads(nodeData.keys[0], Flat(n))
             else ra.action == PushKeyToParent && Heads(ra.key1, Flat(n))
    modifies cur, nodeData`size
    ensures cur.next == old(cur.next) && cur.previous == old(cur.previous)
    ensures Grown(order, h, lo, t, Entry(key, data), r, newPage)
    ensures LeavesAll(r) == LeavesAll(t.kids[..b]) + LeavesAll([k, n]) + LeavesAll(t.kids[b + 1..])
    ensures SizesAll(r) == SizesAll(t.kids[..b]) + SizesAll([k, n]) + SizesAll(t.kids[b + 1..])
    ensures fresh(PagesIn(r) - ({cur} + (PagesIn([k, n]) + Others(t, b, b + 1))))
    ensures if newPage == null then ra1 == ra
            else !newPage.isLeaf && ra1.action == PushKeyToParent && |r| == 2 && Heads(ra1.key1, Flat(r[1]))
  {
    hide *;
    ghost var e := Entry(key, data);
    BundledWF(t, order, h, lo);
    KidOfBranch(t, key, b);
    GrownPair(order, h - 1, order / 2, t.kids[b], e, k, n, nodeData);
    if nodeData.isLeaf {
      LiveKeys(nodeData, order);
    }
    ghost var sep := if nodeData.isLeaf then nodeData.keys[0] else ra.key1;
    ghost var w0 := Node(cur, t.keys, t.kids[b := k]);
    AbsorbReady(order, h, lo, t, b, e, k, n, sep);
    AbsorbPages(order, t, b, k, n);
    BundledIs(w0);
    CountsIn(t, w0, order, h, lo);
    KidInserted(w0, b, sep, n);
    SizesWithKid(t, b, k, n, sep);
    ghost var w := InsertKid(w0, b, sep, n);
    if nodeData.isLeaf {
      LeafRep(n, order);
      RepInsert(w0.kids, b + 1, n, order);
      newPage, ra1, r := IndexGrow(order, nodeData.keys[0], data, b, nodeData, cur, ra, t, h, lo, e, w0, n, PagesIn(w.kids));
    } else {
      newPage, ra1, r := AbsorbIndex(order, data, b, nodeData, cur, ra, t, h, lo, e, w0, n, PagesIn(w.kids));
    }
  }

  lemma LiveKeys(page: Page, order: nat)
    requires page.Live(order)
    ensures |page.keys| == order && page.size <= order
  {
  }

  lemma CountsIn(t: Tree, w: Tree, order: nat, h: nat, lo: int)
    requires t.Node? && w.Node? && WF(t, order, h, lo) && w.keys == t.keys && |w.kids| == |t.kids|
    ensures Bundled(w) && lo <= Count(w) == Count(t) <= order
  {
  }

  lemma KidInserted(t: Tree, b: nat, sep: Key, n: Tree)
    requires t.Node? && Bundled(t) && b <= |t.keys|
    ensures b + 1 <= |t.kids| && InsertKid(t, b, sep, n).kids == InsertAt(t.kids, b + 1, n) && InsertKid(t, b, sep, n).Node?
  {
  }

  lemma SizesWithKid(t: Tree, b: nat, k: Tree, n: Tree, sep: Key)
    requires t.Node? && Bundled(t) && b <= |t.keys|
    ensures var w := InsertKid(Node(t.page, t.keys, t.kids[b := k]), b, sep, n);
      Sizes(w) == SizesAll(t.kids[..b]) + SizesAll([k, n]) + SizesAll(t.kids[b + 1..])
  {
    hide *;
    BundledIs(t);
    var w0 := Node(t.page, t.keys, t.kids[b := k]);
    assert Bundled(w0) by { BundledAlike(t, w0); }
    KidInserted(w0, b, sep, n);
    var w := InsertKid(w0, b, sep, n);
    SplicedShapes(t, b, k, n);
    SizesOf(w);
    SizesSpliced(t, b, [k, n]);
  }

  lemma BundledAlike(t: Tree, w: Tree)
    requires t.Node? && Bundled(t) && w.Node? && w.keys == t.keys && |w.kids| == |t.kids|
    ensures Bundled(w)
  {
  }

  /** The leaf sizes of the children of `t` with child `b` replaced by `mid`. */
  lemma SizesSpliced(t: Tree, b: nat, mid: seq<Tree>)
    requires t.Node? && b < |t.kids|
    ensures SizesAll(Spliced(t, b, b + 1, mid)) == SizesAll(t.kids[..b]) + SizesAll(mid) + SizesAll(t.kids[b + 1..])
  {
    hide SizesAll;
    SizesAllConcat(t.kids[..b] + mid, t.kids[b + 1..]);
    SizesAllConcat(t.kids[..b], mid);
  }

  /** The leaf sizes below a node whose child `b` came back as `k`. */
  lemma SizesBelow(t: Tree, b: nat, k: Tree)
    requires t.Node? && b < |t.kids|
    ensures SizesAll([Node(t.page, t.keys, t.kids[b := k])]) == SizesAll(t.kids[..b]) + Sizes(k) + SizesAll(t.kids[b + 1..])
  {
    hide *;
    var t1 := Node(t.page, t.keys, t.kids[b := k]);
    SplicedShapes(t, b, k, k);
    SizesOf(t1);
    SizesOf(k);
    SizesSpliced(t, b, [k]);
  }

  method AbsorbIndex(order: nat, data: Data, b: int, nodeData: Page, cur: Page, ra: ReturnAction,
                     ghost t: Tree, ghost h: nat, ghost lo: int, ghost e: Entry, ghost w0: Tree, ghost n: Tree, ghost others: set<Page>)
    returns (newPage: Page?, ra1: ReturnAction, ghost r: seq<Tree>)
    requires order >= 4 && t.page == cur && w0.Node? && Bundled(w0) && w0.page == cur && n.page == nodeData && Stored(w0, order, Count(w0))
    requires Place(w0.keys, ra.key1, b) && Increasing(w0.keys) && lo <= Count(w0) <= order
    requires RepSplit(n, order) && n.Node? && n.page !in PagesIn(n.kids)
    requires RepAll(w0.kids, order) && n.page !in PagesIn(w0.kids) && n.page != cur
    requires var w := InsertKid(w0, b, ra.key1, n);
      && others == PagesIn(w.kids) && cur !in others && DistinctAll(w.kids)
      && Loose(w, order, h) && Inserted(Flat(t), e, Flat(w))
    modifies cur, nodeData`size
    ensures cur.next == old(cur.next) && cur.previous == old(cur.previous)
    ensures Grown(order, h, lo, t, e, r, newPage) && LeavesAll(r) == Leaves(InsertKid(w0, b, ra.key1, n))
    ensures SizesAll(r) == Sizes(InsertKid(w0, b, ra.key1, n))
    ensures fresh(PagesIn(r) - ({cur} + others))
    ensures if newPage == null then ra1 == ra
            else !newPage.isLeaf && ra1.action == PushKeyToParent && |r| == 2 && Heads(ra1.key1, Flat(r[1]))
  {
    assert InsertKid(w0, b, ra.key1, n).kids == InsertAt(w0.kids, b + 1, n);
    hide *;
    DropPushedKey(order, nodeData, n, w0.kids, PagesIn(w0.kids), PagesIn(n.kids));
    RepInsert(w0.kids, b + 1, n, order);
    label Dropped:
    newPage, ra1, r := IndexGrow(order, ra.key1, data, b, nodeData, cur, ra, t, h, lo, e, w0, n, others);
    assert forall p :: p in PagesIn(r) && p !in {cur} + others ==> !old@Dropped(allocated(p));
  }

  /** The same, with the chain of leaves left as it was. */
  method AbsorbLinked(order: nat, key: Key, data: Data, b: int, nodeData: Page, cur: Page, ra: ReturnAction,
                ghost t: Tree, ghost h: nat, ghost lo: int, ghost k: Tree, ghost n: Tree, ghost chain: seq<Page>)
    returns (newPage: Page?, ra1: ReturnAction, ghost r: seq<Tree>)
    requires order >= 4 && h > 0 && t.Node? && t.page == cur && WF(t, order, h, lo) && Sorted(Flat(t)) && Distinct(t)
    requires Stored(t, order, Count(t)) && Branch(t.keys, key, b) && (b > 0 ==> t.keys[b - 1] != key)
    requires Grown(order, h - 1, order / 2, t.kids[b], Entry(key, data), [k, n], nodeData)
    requires Apart(t, order, b, b + 1) && PagesIn([k, n]) !! Others(t, b, b + 1) && cur !in PagesIn([k, n]) && cur !in Others(t, b, b + 1)
    requires nodeData.isLeaf <==> h == 1
    requires if nodeData.isLeaf then nodeData.Live(order) && nodeData.size > 0 && Heads(nodeData.keys[0], Flat(n))
             else ra.action == PushKeyToParent && Heads(ra.key1, Flat(n))
    requires Linked(null, chain, null)
    modifies cur, nodeData`size
    ensures Linked(null, chain, null)
    ensures Grown(order, h, lo, t, Entry(key, data), r, newPage)
    ensures LeavesAll(r) == LeavesAll(t.kids[..b]) + LeavesAll([k, n]) + LeavesAll(t.kids[b + 1..])
    ensures SizesAll(r) == SizesAll(t.kids[..b]) + SizesAll([k, n]) + SizesAll(t.kids[b + 1..])
    ensures fresh(PagesIn(r) - ({cur} + (PagesIn([k, n]) + Others(t, b, b + 1))))
    ensures if newPage == null then ra1 == ra
            else !newPage.isLeaf && ra1.action == PushKeyToParent && |r| == 2 && Heads(ra1.key1, Flat(r[1]))
  {
    hide *;
    newPage, ra1, r := Absorb(order, key, data, b, nodeData, cur, ra, t, h, lo, k, n);
  }

  lemma GrownPair(order: nat, h: nat, lo: int, t: Tree, e: Entry, k: Tree, n: Tree, newPage: Page)
    requires Grown(order, h, lo, t, e, [k, n], newPage)
    ensures n.page == newPage && (n.Leaf? <==> newPage.isLeaf)
  {
    assert [k, n][1] == n;
  }

  lemma LeafRep(n: Tree, order: nat)
    requires n.Leaf? && RepSplit(n, order)
    ensures Rep(n, order)
  {
  }

  lemma RepInsert(kids: seq<Tree>, i: nat, n: Tree, order: nat)
    requires i <= |kids| && RepAll(kids, order) && Rep(n, order)
    ensures RepAll(InsertAt(kids, i, n), order)
  {
  }

  // ---------------------------------------------------------------- keys that are already there

  ghost predicate Roomy(t: Tree, i: int, order: nat)
    requires t.Node?
  {
    0 <= i < |t.kids| && Count(t.kids[i]) < order
  }

  /** The child followed is a full leaf beside one with room, and the key is not the separator before it. */
  ghost predicate Rotates(t: Tree, key: Key, order: nat, b: nat)
    requires t.Node? && Bundled(t) && b < |t.kids|
  {
    t.kids[b].Leaf? && Count(t.kids[b]) == order && (b > 0 ==> t.keys[b - 1] != key) && (Roomy(t, b - 1, order) || Roomy(t, b + 1, order))
  }

  /** A key that sits in a full leaf from which insertion will rotate: insertion does not look for it there. */
  ghost predicate Hazard(t: Tree, key: Key, order: nat)
    decreases t
  {
    t.Node? && Bundled(t) && exists b :: 0 <= b < |t.kids| && Branch(t.keys, key, b) && HasKey(Flat(t.kids[b]), key)
                                        && (Rotates(t, key, order, b) || Hazard(t.kids[b], key, order))
  }

  /** The leaf in which a search for the key ends is full, and insertion does not rotate there. */
  ghost predicate Splits(t: Tree, key: Key, order: nat)
    decreases t
  {
    if t.Leaf? then Count(t) == order
    else Bundled(t) && exists b :: 0 <= b < |t.kids| && Branch(t.keys, key, b) && !Rotates(t, key, order, b) && Splits(t.kids[b], key, order)
  }

  /** The leaves that insertion of an absent key adds. */
  ghost function NewLeaves(t: Tree, key: Key, order: nat): nat {
    if Splits(t, key, order) then 1 else 0
  }

  lemma NewLeavesAt(t: Tree, key: Key, order: nat, b: nat)
    requires t.Node? && Bundled(t) && Increasing(t.keys) && Branch(t.keys, key, b)
    ensures NewLeaves(t, key, order) == if Rotates(t, key, order, b) then 0 else NewLeaves(t.kids[b], key, order)
  {
    if Splits(t, key, order) {
      var a :| 0 <= a < |t.kids| && Branch(t.keys, key, a) && !Rotates(t, key, order, a) && Splits(t.kids[a], key, order);
      BranchUnique(t.keys, key, a, b);
    }
  }

  lemma BranchUnique(keys: seq<Key>, key: Key, a: int, b: int)
    requires Increasing(keys) && Branch(keys, key, a) && Branch(keys, key, b)
    ensures a == b
  {
    var i, j := if a < b then a else b, if a < b then b else a;
    assert i < |keys| && 0 < j ==> keys[i] <= keys[j - 1] || j - 1 < i;
  }

  lemma HazardAt(t: Tree, key: Key, order: nat, b: nat)
    requires t.Node? && Bundled(t) && Increasing(t.keys) && Branch(t.keys, key, b)
    ensures Hazard(t, key, order) <==> HasKey(Flat(t.kids[b]), key) && (Rotates(t, key, order, b) || Hazard(t.kids[b], key, order))
  {
    if Hazard(t, key, order) {
      var a :| 0 <= a < |t.kids| && Branch(t.keys, key, a) && HasKey(Flat(t.kids[a]), key)
                && (Rotates(t, key, order, a) || Hazard(t.kids[a], key, order));
      BranchUnique(t.keys, key, a, b);
    }
  }

  // ---------------------------------------------------------------- how full the leaves are afterwards

  /** The leaf sizes under a node over leaves, once the key was taken in at leaf `b`, or taken in again.  A full leaf passes one entry to
      the leaf before it if that one has room, otherwise to the leaf after it if that one has, and otherwise splits. */
  ghost function SizesUnder(p: Tree, b: nat, key: Key, order: nat): seq<int>
    requires p.Node? && b < |p.kids| == |p.keys| + 1 && p.kids[b].Leaf?
  {
    var full := Count(p.kids[b]) == order && !(b > 0 && p.keys[b - 1] == key);
    if full && b > 0 && Count(p.kids[b - 1]) < order then
      SizesAll(p.kids[..b - 1]) + [Count(p.kids[b - 1]) + 1, order] + SizesAll(p.kids[b + 1..])
    else if full && b + 1 < |p.kids| && Count(p.kids[b + 1]) < order then
      SizesAll(p.kids[..b]) + [order, Count(p.kids[b + 1]) + 1] + SizesAll(p.kids[b + 2..])
    else
      SizesAll(p.kids[..b]) + LeafSizesAfter(p.kids[b].entries, key, order) + SizesAll(p.kids[b + 1..])
  }

  /** How many entries each leaf holds once the key was taken in, or taken in again. */
  ghost function SizesAfter(t: Tree, key: Key, order: nat): seq<int>
    decreases t
  {
    if t.Leaf? then LeafSizesAfter(t.entries, key, order)
    else if !Bundled(t) then []
    else
      var b := Child(t.keys, key);
      if t.kids[b].Leaf? then SizesUnder(t, b, key, order)
      else SizesAll(t.kids[..b]) + SizesAfter(t.kids[b], key, order) + SizesAll(t.kids[b + 1..])
  }

  lemma SizesAfterIs(t: Tree, key: Key, order: nat)
    ensures t.Leaf? ==> SizesAfter(t, key, order) == LeafSizesAfter(t.entries, key, order)
    ensures t.Node? && Bundled(t) ==>
      var b := Child(t.keys, key);
      && b < |t.kids| == |t.keys| + 1
      && SizesAfter(t, key, order) ==
           if t.kids[b].Leaf? then SizesUnder(t, b, key, order)
           else SizesAll(t.kids[..b]) + SizesAfter(t.kids[b], key, order) + SizesAll(t.kids[b + 1..])
  {
    hide SizesAll, SizesUnder, LeafSizesAfter;
  }

  lemma ChildIs(keys: seq<Key>, key: Key, b: nat)
    requires Increasing(keys) && Branch(keys, key, b)
    ensures Child(keys, key) == b
  {
    ChildBranch(keys, key);
    BranchUnique(keys, key, Child(keys, key), b);
  }

  lemma SizesUnderIs(p: Tree, b: nat, key: Key, order: nat)
    requires p.Node? && Bundled(p) && b < |p.kids| == |p.keys| + 1 && p.kids[b].Leaf?
    ensures !Rotates(p, key, order, b) ==>
      SizesUnder(p, b, key, order) == SizesAll(p.kids[..b]) + LeafSizesAfter(p.kids[b].entries, key, order) + SizesAll(p.kids[b + 1..])
    ensures Rotates(p, key, order, b) && b > 0 && Count(p.kids[b - 1]) < order ==>
      SizesUnder(p, b, key, order) == SizesAll(p.kids[..b - 1]) + [Count(p.kids[b - 1]) + 1, order] + SizesAll(p.kids[b + 1..])
    ensures Rotates(p, key, order, b) && !(b > 0 && Count(p.kids[b - 1]) < order) ==>
      && b + 1 < |p.kids|
      && SizesUnder(p, b, key, order) == SizesAll(p.kids[..b]) + [order, Count(p.kids[b + 1]) + 1] + SizesAll(p.kids[b + 2..])
  {
    hide SizesAll, LeafSizesAfter;
  }

  lemma SizesUnderAre(p: Tree, b: nat, key: Key, order: nat)
    requires p.Node? && b < |p.kids| == |p.keys| + 1 && p.kids[b].Leaf?
    ensures SizesUnder(p, b, key, order) ==
      (var full := Count(p.kids[b]) == order && !(b > 0 && p.keys[b - 1] == key);
       if full && b > 0 && Count(p.kids[b - 1]) < order then
         SizesAll(p.kids[..b - 1]) + [Count(p.kids[b - 1]) + 1, order] + SizesAll(p.kids[b + 1..])
       else if full && b + 1 < |p.kids| && Count(p.kids[b + 1]) < order then
         SizesAll(p.kids[..b]) + [order, Count(p.kids[b + 1]) + 1] + SizesAll(p.kids[b + 2..])
       else SizesAll(p.kids[..b]) + LeafSizesAfter(p.kids[b].entries, key, order) + SizesAll(p.kids[b + 1..]))
  {
    hide SizesAll, LeafSizesAfter;
  }

  /** The sizes below a node whose child takes the key in itself. */
  lemma SizesAfterAt(t: Tree, key: Key, order: nat, b: nat)
    requires t.Node? && Bundled(t) && Increasing(t.keys) && Branch(t.keys, key, b) && b < |t.kids| && !Rotates(t, key, order, b)
    ensures SizesAfter(t, key, order) == SizesAll(t.kids[..b]) + SizesAfter(t.kids[b], key, order) + SizesAll(t.kids[b + 1..])
  {
    hide *;
    ChildIs(t.keys, key, b);
    SizesAfterIs(t, key, order);
    SizesAfterIs(t.kids[b], key, order);
    if t.kids[b].Leaf? {
      SizesUnderIs(t, b, key, order);
    }
  }

  /** The leaf sizes left of the node over the leaf in which a search for the key ends. */
  ghost function SizesLeft(t: Tree, key: Key): seq<int>
    decreases t
  {
    if t.Leaf? || !Bundled(t) || t.kids[Child(t.keys, key)].Leaf? then []
    else SizesAll(t.kids[..Child(t.keys, key)]) + SizesLeft(t.kids[Child(t.keys, key)], key)
  }

  /** The leaf sizes right of the node over the leaf in which a search for the key ends. */
  ghost function SizesRight(t: Tree, key: Key): seq<int>
    decreases t
  {
    if t.Leaf? || !Bundled(t) || t.kids[Child(t.keys, key)].Leaf? then []
    else SizesRight(t.kids[Child(t.keys, key)], key) + SizesAll(t.kids[Child(t.keys, key) + 1..])
  }

  lemma SidesAre(t: Tree, key: Key)
    requires t.Node? && Bundled(t)
    ensures Child(t.keys, key) < |t.kids| == |t.keys| + 1
    ensures var b := Child(t.keys, key); var k := t.kids[b];
      if k.Leaf? then SizesLeft(t, key) == [] == SizesRight(t, key)
      else SizesLeft(t, key) == SizesAll(t.kids[..b]) + SizesLeft(k, key) && SizesRight(t, key) == SizesRight(k, key) + SizesAll(t.kids[b + 1..])
  {
    hide SizesAll;
  }

  lemma RegroupedSizes(a: seq<int>, b: seq<int>, c: seq<int>, d: seq<int>, e: seq<int>)
    ensures a + (b + c + d) + e == (a + b) + c + (d + e)
  {
  }

  /** Only leaves under one node change their sizes, the node over the leaf in which the search ends. */
  lemma {:induction false} SizesRule(t: Tree, order: nat, h: nat, lo: int, key: Key)
    requires order >= 4 && h > 0 && t.Node? && WF(t, order, h, lo) && Sorted(Flat(t))
    ensures var p := Bottom(t, key); var b := Child(p.keys, key);
      && b < |p.kids| == |p.keys| + 1 && p.kids[b].Leaf?
      && Sizes(t) == SizesLeft(t, key) + SizesAll(p.kids) + SizesRight(t, key)
      && SizesAfter(t, key, order) == SizesLeft(t, key) + SizesUnder(p, b, key, order) + SizesRight(t, key)
    decreases h
  {
    hide *;
    KidFollowed(t, order, h, lo, key);
    BottomIs(t, key);
    BottomShape(t, order, h, lo, key);
    SizesAfterIs(t, key, order);
    SidesAre(t, key);
    SizesOf(t);
    var b := Child(t.keys, key);
    var k := t.kids[b];
    if h > 1 {
      SizesRule(k, order, h - 1, order / 2, key);
      SizesOf(k);
      SizesParts(t.kids, b, b + 1);
      assert t.kids[b..b + 1] == [k];
      var p := Bottom(k, key);
      var l, r := SizesAll(t.kids[..b]), SizesAll(t.kids[b + 1..]);
      RegroupedSizes(l, SizesLeft(k, key), SizesAll(p.kids), SizesRight(k, key), r);
      RegroupedSizes(l, SizesLeft(k, key), SizesUnder(p, Child(p.keys, key), key, order), SizesRight(k, key), r);
    }
  }

  // ---------------------------------------------------------------- the leaf a search ends in, among its neighbours

  /** How many of the leading keys are no larger than `key`: the child a search follows. */
  ghost function Child(keys: seq<Key>, key: Key): (b: nat)
    ensures b <= |keys|
  {
    if keys == [] || key < keys[0] then 0 else 1 + Child(keys[1..], key)
  }

  lemma {:induction false} ChildBranch(keys: seq<Key>, key: Key)
    requires Increasing(keys)
    ensures Branch(keys, key, Child(keys, key))
  {
    if keys != [] && keys[0] <= key {
      ChildBranch(keys[1..], key);
    }
  }

  /** The node over the leaf in which a search for the key ends. */
  ghost function Bottom(t: Tree, key: Key): (p: Tree)
    ensures t.Node? ==> p.Node?
    decreases t
  {
    if t.Leaf? || !Bundled(t) then t
    else
      var k := t.kids[Child(t.keys, key)];
      if k.Leaf? then t else Bottom(k, key)
  }

  lemma {:induction false} BottomShape(t: Tree, order: nat, h: nat, lo: int, key: Key)
    requires order >= 4 && h > 0 && t.Node? && WF(t, order, h, lo) && Sorted(Flat(t))
    ensures var p := Bottom(t, key); var b := Child(p.keys, key);
      && b < |p.kids| == |p.keys| + 1 && (forall i :: 0 <= i < |p.kids| ==> p.kids[i].Leaf?)
      && (HasKey(Flat(t), key) <==> HasKey(p.kids[b].entries, key))
    decreases h
  {
    hide *;
    KidFollowed(t, order, h, lo, key);
    BottomIs(t, key);
    if h > 1 {
      BottomShape(t.kids[Child(t.keys, key)], order, h - 1, order / 2, key);
    }
  }

  lemma BottomIs(t: Tree, key: Key)
    requires t.Node? && Bundled(t)
    ensures Child(t.keys, key) < |t.kids| == |t.keys| + 1
    ensures var k := t.kids[Child(t.keys, key)]; Bottom(t, key) == if k.Leaf? then t else Bottom(k, key)
  {
  }

  lemma KidFollowed(t: Tree, order: nat, h: nat, lo: int, key: Key)
    requires order >= 4 && h > 0 && t.Node? && WF(t, order, h, lo) && Sorted(Flat(t))
    ensures Bundled(t) && Increasing(t.keys) && Branch(t.keys, key, Child(t.keys, key)) && |t.kids| == |t.keys| + 1
    ensures forall i :: 0 <= i < |t.kids| ==> (t.kids[i].Leaf? <==> h == 1)
    ensures var k := t.kids[Child(t.keys, key)];
      && WF(k, order, h - 1, order / 2) && Sorted(Flat(k)) && (HasKey(Flat(t), key) <==> HasKey(Flat(k), key))
      && (k.Leaf? ==> Flat(k) == k.entries)
      && (!HasKey(Flat(t), key) && Child(t.keys, key) > 0 ==> t.keys[Child(t.keys, key) - 1] != key)
  {
    RunIncreasing(t.keys, t.kids, order, h);
    ChildBranch(t.keys, key);
    var b := Child(t.keys, key);
    BranchHasKey(t.keys, t.kids, order, h, key, b);
    FlatAllAt(t.kids, b);
    SortedParts(FlatAll(t.kids[..b]), Flat(t.kids[b]), FlatAll(t.kids[b + 1..]));
    if b > 0 && t.keys[b - 1] == key {
      SeparatorPresent(order, t, h, lo, b);
    }
    hide Sorted, HasKey, Flat, FlatAll, Branch;
    forall i | 0 <= i < |t.kids| ensures t.kids[i].Leaf? <==> h == 1 {
      KidHeight(order, t, h, lo, i);
    }
  }

  /** A leaf is added for an absent key exactly when the leaf the search ends in is full, and so is each of its neighbours under the
      same node; a present key is overlooked exactly when its leaf is full, a neighbour is not, and the key is not the separator
      before its leaf. */
  lemma {:induction false} BottomRule(t: Tree, order: nat, h: nat, lo: int, key: Key)
    requires order >= 4 && h > 0 && t.Node? && WF(t, order, h, lo) && Sorted(Flat(t))
    ensures var p := Bottom(t, key); var b := Child(p.keys, key);
      && b < |p.kids| == |p.keys| + 1
      && var full, room := Count(p.kids[b]) == order, (b > 0 && Count(p.kids[b - 1]) < order) || (b + 1 < |p.kids| && Count(p.kids[b + 1]) < order);
         && (!HasKey(Flat(t), key) ==> NewLeaves(t, key, order) == if full && !room then 1 else 0)
         && (HasKey(Flat(t), key) ==> (Hazard(t, key, order) <==> full && room && !(b > 0 && p.keys[b - 1] == key)))
    decreases h
  {
    hide *;
    KidFollowed(t, order, h, lo, key);
    BottomIs(t, key);
    BottomShape(t, order, h, lo, key);
    var b := Child(t.keys, key);
    HazardAt(t, key, order, b);
    NewLeavesAt(t, key, order, b);
    RotatesIs(t, key, order, b);
    if h > 1 {
      BottomRule(t.kids[b], order, h - 1, order / 2, key);
    } else {
      LeafRule(t.kids[b], key, order);
    }
  }

  lemma RotatesIs(t: Tree, key: Key, order: nat, b: nat)
    requires t.Node? && Bundled(t) && b < |t.kids| == |t.keys| + 1
    ensures Rotates(t, key, order, b) <==>
      && t.kids[b].Leaf? && Count(t.kids[b]) == order && !(b > 0 && t.keys[b - 1] == key)
      && ((b > 0 && Count(t.kids[b - 1]) < order) || (b + 1 < |t.kids| && Count(t.kids[b + 1]) < order))
  {
  }

  lemma LeafRule(t: Tree, key: Key, order: nat)
    requires t.Leaf?
    ensures NewLeaves(t, key, order) == (if Count(t) == order then 1 else 0) && !Hazard(t, key, order)
  {
  }

  // ---------------------------------------------------------------- the chain below a node

  ghost function Head(ls: seq<Page>): set<Page> {
    if ls == [] then {} else {ls[0]}
  }

  lemma HeadIs(ls: seq<Page>)
    ensures Head(ls) == if ls == [] then {} else {ls[0]}
  {
  }

  /** The chain around child `b` is the chain around its node. */
  lemma ChainBelow(t: Tree, b: nat, pre: seq<Page>, mid: seq<Page>, post: seq<Page>)
    requires t.Node? && b < |t.kids|
    ensures pre + LeavesAll(t.kids[..b]) + mid + (LeavesAll(t.kids[b + 1..]) + post)
         == pre + (LeavesAll(t.kids[..b]) + mid + LeavesAll(t.kids[b + 1..])) + post
  {
  }

  lemma HeadAround(t: Tree, b: nat, ls: seq<Page>)
    requires t.Node? && b < |t.kids| && SameHead(ls, Leaves(t.kids[b]))
    ensures SameHead(LeavesAll(t.kids[..b]) + ls + LeavesAll(t.kids[b + 1..]), Leaves(t))
    ensures |LeavesAll(t.kids[..b]) + ls + LeavesAll(t.kids[b + 1..])| - |ls| == |Leaves(t)| - |Leaves(t.kids[b])|
  {
    FlatAllAt(t.kids, b);
    SameHeadAround(LeavesAll(t.kids[..b]), Leaves(t.kids[b]), ls, LeavesAll(t.kids[b + 1..]));
  }

  lemma HeadWithin(t: Tree, b: nat, post: seq<Page>)
    requires t.Node? && b < |t.kids|
    ensures Head(LeavesAll(t.kids[b + 1..]) + post) <= PagesIn(t.kids[b + 1..]) + Head(post)
  {
    LeavesInPagesAll(t.kids[b + 1..]);
  }

  /** The first key of a node is the first key of its first child, and below every separator. */
  lemma HeadBelowKeys(t: Tree, order: nat, h: nat, lo: int, i: nat)
    requires order >= 4 && h > 0 && t.Node? && WF(t, order, h, lo) && Sorted(Flat(t)) && i < |t.kids|
    ensures Flat(t) != [] && Flat(t.kids[i]) != [] && Flat(t)[0].key <= Flat(t.kids[i])[0].key
    ensures i > 0 ==> Flat(t.kids[i])[0].key == t.keys[i - 1] && Flat(t)[0].key < t.keys[i - 1]
  {
    RunNonEmpty(t.keys, t.kids, order, h);
    if i > 0 {
      assert Heads(t.keys[i - 1], Flat(t.kids[i]));
      FlatAllAt(t.kids, i);
      var left := t.kids[..i];
      assert left[0] == t.kids[0];
      SortedParts(FlatAll(left), Flat(t.kids[i]), FlatAll(t.kids[i + 1..]));
      assert FlatAll(left)[0] == Flat(left[0])[0];
    }
  }

  // ---------------------------------------------------------------- the insertion itself

  /** What insertion below `t` is given: an ordered, stored subtree whose leaves sit in the chain of all leaves. */
  ghost predicate Ready(order: nat, t: Tree, h: nat, lo: int, pre: seq<Page>, post: seq<Page>)
    reads Pages(t)`isLeaf, Pages(t)`size, Pages(t)`keys, Pages(t)`data, Pages(t)`children
    reads (set p | p in pre + Leaves(t) + post)`next, (set p | p in pre + Leaves(t) + post)`previous
  {
    && order >= 4 && WF(t, order, h, lo) && 1 <= lo <= order / 2 && Sorted(Flat(t)) && Rep(t, order) && Distinct(t)
    && Linked(null, pre + Leaves(t) + post, null) && NoDup(pre + Leaves(t) + post)
  }

  /** The new page of a split, as the parent will meet it. */
  ghost predicate Offered(order: nat, h: nat, newPage: Page, r: seq<Tree>, ra: ReturnAction)
    reads newPage
  {
    && |r| == 2 && (newPage.isLeaf <==> h == 0)
    && if newPage.isLeaf then newPage.Live(order) && newPage.size > 0 && Heads(newPage.keys[0], Flat(r[1]))
       else ra.action == PushKeyToParent && Heads(ra.key1, Flat(r[1]))
  }

  ghost predicate SameHead(a: seq<Page>, b: seq<Page>) {
    a != [] && b != [] && a[0] == b[0]
  }

  lemma SameHeadAround(a: seq<Page>, l: seq<Page>, m: seq<Page>, c: seq<Page>)
    requires SameHead(m, l)
    ensures SameHead(a + m + c, a + l + c)
  {
  }

  /** An absent key was taken in. */
  ghost predicate Fresh(order: nat, e: Entry, t: Tree, h: nat, lo: int, pre: seq<Page>, post: seq<Page>,
                        newPage: Page?, ra: ReturnAction, r: seq<Tree>)
    reads PagesIn(r), pre, post, LeavesAll(r)
  {
    && Grown(order, h, lo, t, e, r, newPage) && Linked(null, pre + LeavesAll(r) + post, null) && SameHead(LeavesAll(r), Leaves(t))
    && (newPage != null ==> newPage in PagesIn(r) && Offered(order, h, newPage, r, ra))
    && |LeavesAll(r)| == |Leaves(t)| + NewLeaves(t, e.key, order) && SizesAll(r) == SizesAfter(t, e.key, order)
  }

  /** A key that is there was taken in again. */
  ghost predicate Again(order: nat, e: Entry, t: Tree, pre: seq<Page>, post: seq<Page>, r: seq<Tree>)
    reads PagesIn(r), pre, post, LeavesAll(r)
  {
    |r| == 1 && TookAgain(order, t, e, r[0]) && Linked(null, pre + LeavesAll(r) + post, null) && SizesAll(r) == SizesAfter(t, e.key, order)
  }

  /** What the insertion of `e` below `t` comes back with. */
  ghost predicate Outcome(order: nat, e: Entry, t: Tree, h: nat, lo: int, pre: seq<Page>, post: seq<Page>,
                          newPage: Page?, ra: ReturnAction, success: bool, r: seq<Tree>)
    reads PagesIn(r), pre, post, LeavesAll(r)
  {
    && (success <==> !HasKey(Flat(t), e.key) || Hazard(t, e.key, order))
    && (HasKey(Flat(t), e.key) ==> newPage == null)
    && (!HasKey(Flat(t), e.key) ==> Fresh(order, e, t, h, lo, pre, post, newPage, ra, r))
    && (HasKey(Flat(t), e.key) && success ==> Again(order, e, t, pre, post, r))
    && (ra.action == ReplaceKey1WithKey2 ==> Flat(t) != [] && Flat(t)[0].key < ra.key1)
  }

  /** The top page of a tree that is ready, for a search. */
  lemma ReadyPage(order: nat, t: Tree, h: nat, lo: int, pre: seq<Page>, post: seq<Page>)
    requires Ready(order, t, h, lo, pre, post)
    ensures t.page.Live(order) && t.page.size == Count(t) && Count(t) > 0 && t.page.isLeaf == t.Leaf?
    ensures t.page.keys[..t.page.size] == ViewT(t).keys && Increasing(ViewT(t).keys)
    ensures Bundled(t) && (t.Node? <==> h > 0) && Stored(t, order, Count(t))
  {
    StoredLive(t, order);
    if t.Node? {
      RunIncreasing(t.keys, t.kids, order, h);
    }
  }

  method InsertAtLeaf(order: nat, key: Key, data: Data, found: bool, index: int, cur: Page, ra: ReturnAction,
                      ghost t: Tree, ghost lo: int, ghost pre: seq<Page>, ghost post: seq<Page>)
    returns (newPage: Page?, ra1: ReturnAction, success: bool, ghost r: seq<Tree>)
    requires t.page == cur && t.Leaf? && Ready(order, t, 0, lo, pre, post) && ra.action == NoAction
    requires found ==> 0 <= index < Count(t) && t.entries[index].key == key
    requires !found ==> Place(KeysOf(t.entries), key, index)
    modifies cur, Head(post)`previous
    ensures Outcome(order, Entry(key, data), t, 0, lo, pre, post, newPage, ra1, success, r)
    ensures !success ==> unchanged(cur) && unchanged(Head(post)) && ra1 == ra
    ensures fresh(PagesIn(r) - {cur})
  {
    newPage, ra1, success, r := null, ra, !found, [t];
    PagesOfTwo(t, t);
    SizesAfterIs(t, key, order);
    hide SizesAfter, SizesAll, LeafSizesAfter;
    if found {
      assert HasKey(Flat(t), key);
    } else {
      assert !HasKey(Flat(t), key) by { AbsentAtPlace(t.entries, key, index); }
      newPage, ra1, r := LeafGrow(order, key, data, index, cur, ra, t, lo, pre, post);
      hide Grown, Linked;
    }
  }

  lemma AbsentAtPlace(es: seq<Entry>, key: Key, i: int)
    requires Place(KeysOf(es), key, i)
    ensures !HasKey(es, key)
  {
    assert forall j :: 0 <= j < |es| ==> KeysOf(es)[j] == es[j].key;
  }

  method InsertByRotation(order: nat, key: Key, data: Data, b: int, cur: Page, ra: ReturnAction,
                          ghost t: Tree, ghost lo: int, ghost pre: seq<Page>, ghost post: seq<Page>, ghost own: set<Page>, ghost chain: seq<Page>)
    returns (ra1: ReturnAction, ghost r: seq<Tree>)
    requires t.page == cur && t.Node? && Ready(order, t, 1, lo, pre, post) && own == Pages(t) && chain == pre + Leaves(t) + post
    requires Bundled(t) && Branch(t.keys, key, b) && Rotates(t, key, order, b)
    modifies own`keys, own`data, own`children, own`size
    ensures Outcome(order, Entry(key, data), t, 1, lo, pre, post, null, ra1, true, r) && PagesIn(r) <= own
  {
    ghost var e, t1 := Entry(key, data), t;
    RotationReady(order, t, lo, pre, post, key, b);
    hide *;
    RotationSizes(order, t, lo, key, b);
    if b > 0 && cur.children[b - 1].size < order {
      ra1, t1 := TurnLeft(order, key, data, b, cur, ra, t, lo, chain);
    } else {
      ra1, t1 := TurnRight(order, key, data, b, cur, ra, t, lo, chain);
    }
    r := [t1];
    RotationOutcome(order, e, t, lo, pre, post, ra1, t1, own);
  }

  lemma RotationSizes(order: nat, t: Tree, lo: int, key: Key, b: nat)
    requires order >= 4 && t.Node? && Bundled(t) && WF(t, order, 1, lo) && Sorted(Flat(t)) && Branch(t.keys, key, b) && Rotates(t, key, order, b)
    ensures SizesAfter(t, key, order) ==
      if b > 0 && Count(t.kids[b - 1]) < order then
        SizesAll(t.kids[..b - 1]) + [Count(t.kids[b - 1]) + 1, order] + SizesAll(t.kids[b + 1..])
      else if b + 1 < |t.kids| then SizesAll(t.kids[..b]) + [order, Count(t.kids[b + 1]) + 1] + SizesAll(t.kids[b + 2..])
      else []
  {
    RunIncreasing(t.keys, t.kids, order, 1);
    assert t.kids[b].Leaf? && |t.kids| == |t.keys| + 1;
    hide *;
    ChildIs(t.keys, key, b);
    SizesAfterIs(t, key, order);
    SizesUnderIs(t, b, key, order);
  }

  method TurnLeft(order: nat, key: Key, data: Data, b: int, cur: Page, ra: ReturnAction, ghost t: Tree,
          ghost lo: int, ghost chain: seq<Page>)
    returns (ra1: ReturnAction, ghost t1: Tree)
    requires order >= 4 && t.Node? && t.page == cur && WF(t, order, 1, lo) && Sorted(Flat(t)) && Rep(t, order) && Distinct(t)
    requires Branch(t.keys, key, b) && b > 0 && t.keys[b - 1] != key
    requires Count(t.kids[b]) == order && Count(t.kids[b - 1]) < order && Linked(null, chain, null)
    modifies Pages(t)`keys, Pages(t)`data, Pages(t)`children, Pages(t)`size
    ensures Flat(t) != [] && Flat(t)[0].key < ra1.key1 && ra1.action == ReplaceKey1WithKey2 && Linked(null, chain, null)
    ensures if HasKey(Flat(t), key) then TookAgain(order, t, Entry(key, data), t1) else TookIn(order, 1, lo, t, Entry(key, data), t1)
    ensures Sizes(t1) == SizesAll(t.kids[..b - 1]) + [Count(t.kids[b - 1]) + 1, order] + SizesAll(t.kids[b + 1..])
  {
    HeadBelowKeys(t, order, 1, lo, b);
    hide *;
    ra1, t1 := RotateLeftInsert(order, key, data, b, cur, ra, t, lo);
  }

  method TurnRight(order: nat, key: Key, data: Data, b: int, cur: Page, ra: ReturnAction, ghost t: Tree,
          ghost lo: int, ghost chain: seq<Page>)
    returns (ra1: ReturnAction, ghost t1: Tree)
    requires order >= 4 && t.Node? && t.page == cur && WF(t, order, 1, lo) && Sorted(Flat(t)) && Rep(t, order) && Distinct(t)
    requires Branch(t.keys, key, b) && b < |t.keys| && (b > 0 ==> t.keys[b - 1] != key)
    requires Count(t.kids[b]) == order && Count(t.kids[b + 1]) < order && Linked(null, chain, null)
    modifies Pages(t)`keys, Pages(t)`data, Pages(t)`children, Pages(t)`size
    ensures Flat(t) != [] && Flat(t)[0].key < ra1.key1 && ra1.action == ReplaceKey1WithKey2 && Linked(null, chain, null)
    ensures if HasKey(Flat(t), key) then TookAgain(order, t, Entry(key, data), t1) else TookIn(order, 1, lo, t, Entry(key, data), t1)
    ensures Sizes(t1) == SizesAll(t.kids[..b]) + [order, Count(t.kids[b + 1]) + 1] + SizesAll(t.kids[b + 2..])
  {
    HeadBelowKeys(t, order, 1, lo, b + 1);
    hide *;
    ra1, t1 := RotateRightInsert(order, key, data, b, cur, ra, t, lo);
  }

  lemma RotationReady(order: nat, t: Tree, lo: int, pre: seq<Page>, post: seq<Page>, key: Key, b: nat)
    requires t.Node? && Ready(order, t, 1, lo, pre, post) && Bundled(t) && Branch(t.keys, key, b) && Rotates(t, key, order, b)
    ensures WF(t, order, 1, lo) && Sorted(Flat(t)) && Rep(t, order) && Distinct(t) && Linked(null, pre + Leaves(t) + post, null)
    ensures HasKey(Flat(t), key) ==> Hazard(t, key, order)
    ensures Leaves(t) != [] && NewLeaves(t, key, order) == 0
    ensures (b > 0 ==> t.keys[b - 1] != key) && Count(t.kids[b]) == order
    ensures t.page.Live(order) && t.page.size == |t.keys|
    ensures b > 0 ==> t.page.children[b - 1] != null && t.page.children[b - 1].size == Count(t.kids[b - 1])
    ensures !(b > 0 && Count(t.kids[b - 1]) < order) ==> b < |t.keys| && Count(t.kids[b + 1]) < order
  {
    ChildPages(t, order);
    WFNonEmpty(t, order, 1, lo);
    BranchHasKey(t.keys, t.kids, order, 1, key, b);
    RunIncreasing(t.keys, t.kids, order, 1);
    NewLeavesAt(t, key, order, b);
  }

  lemma RotationOutcome(order: nat, e: Entry, t: Tree, lo: int, pre: seq<Page>, post: seq<Page>, ra: ReturnAction, t1: Tree, own: set<Page>)
    requires own == Pages(t) && (HasKey(Flat(t), e.key) ==> Hazard(t, e.key, order))
    requires Flat(t) != [] && Flat(t)[0].key < ra.key1
    requires if HasKey(Flat(t), e.key) then TookAgain(order, t, e, t1) else TookIn(order, 1, lo, t, e, t1)
    requires Linked(null, pre + Leaves(t) + post, null) && Leaves(t) != [] && NewLeaves(t, e.key, order) == 0
    requires Sizes(t1) == SizesAfter(t, e.key, order)
    ensures Outcome(order, e, t, 1, lo, pre, post, null, ra, true, [t1]) && PagesIn([t1]) <= own
  {
    PagesOfTwo(t1, t1);
    FlatAllTwo(t1, t1);
    SizesOf(t1);
    hide Rep, Distinct, WF, Inserted, HasKey, Hazard, Linked, Grown, Pages, NewLeaves, Doubled, Sizes, SizesAll, SizesAfter;
    if !HasKey(Flat(t), e.key) {
      GrownOne(order, 1, lo, t, e, t1);
    }
  }

  // ---------------------------------------------------------------- the recursive step

  /** The node itself, before the call on child `b`. */
  lemma StepReady(order: nat, t: Tree, h: nat, lo: int, pre: seq<Page>, post: seq<Page>, b: nat)
    requires t.Node? && h > 0 && Ready(order, t, h, lo, pre, post) && b < |t.kids|
    ensures WF(t, order, h, lo) && Sorted(Flat(t)) && Distinct(t) && Stored(t, order, Count(t)) && order >= 4 && lo <= order / 2
    ensures Apart(t, order, b, b + 1) && t.page.children[b] == t.kids[b].page
    ensures t.page !in Pages(t.kids[b]) && t.page !in Others(t, b, b + 1) && Pages(t.kids[b]) !! Others(t, b, b + 1)
    ensures Pages(t) == {t.page} + Pages(t.kids[b]) + Others(t, b, b + 1)
    ensures Ready(order, t.kids[b], h - 1, order / 2, pre + LeavesAll(t.kids[..b]), LeavesAll(t.kids[b + 1..]) + post)
    ensures Head(LeavesAll(t.kids[b + 1..]) + post) <= Others(t, b, b + 1) + Head(post)
    ensures pre + Leaves(t) + post == (pre + LeavesAll(t.kids[..b])) + Leaves(t.kids[b]) + (LeavesAll(t.kids[b + 1..]) + post)
  {
    ChildApart(t, order, b);
    FlatAllAt(t.kids, b);
    RunIncreasing(t.keys, t.kids, order, h);
    ChainBelow(t, b, pre, Leaves(t.kids[b]), post);
    HeadWithin(t, b, post);
  }

  /** The call on child `b`, with the node and its other children left as they were. */
  method InsertBelow(order: nat, key: Key, data: Data, b: int, child: Page, ra: ReturnAction, ghost t: Tree, ghost h: nat,
                     ghost pre: seq<Page>, ghost post: seq<Page>, ghost own: set<Page>, ghost others: set<Page>, ghost chain: seq<Page>,
                     ghost whole: set<Page>, ghost outer: seq<Page>)
    returns (newPage: Page?, ra1: ReturnAction, success: bool, ghost r: seq<Tree>)
    requires t.Node? && h > 0 && 0 <= b < |t.kids| && child == t.kids[b].page
    requires ra.action == NoAction && chain == pre + Leaves(t.kids[b]) + post
    requires Ready(order, t.kids[b], h - 1, order / 2, pre, post)
    requires own == Pages(t.kids[b]) && others == Others(t, b, b + 1) && own !! others && t.page !in own && t.page !in others
    requires Apart(t, order, b, b + 1) && Stored(t, order, Count(t))
    requires whole == {t.page} + own + others && Head(post) <= others + Head(outer)
    modifies whole, Head(outer)`previous
    ensures Outcome(order, Entry(key, data), t.kids[b], h - 1, order / 2, pre, post, newPage, ra1, success, r)
    ensures !success ==> unchanged(whole) && unchanged(Head(outer)) && ra1 == ra
    ensures fresh(PagesIn(r) - own) && PagesIn(r) !! others && t.page !in PagesIn(r)
    ensures Apart(t, order, b, b + 1) && Stored(t, order, Count(t)) && t.page.keys == old(t.page.keys)
    decreases h, 0
  {
    assert Head(outer) == if outer == [] then {} else {outer[0]};
    hide *;
    newPage, ra1, success, r := InsertBranchDown(order, key, data, child, ra, t.kids[b], h - 1, order / 2, pre, post, own, chain);
  }

  method InsertBranchDown(order: nat, key: Key, data: Data, cur: Page, ra: ReturnAction,
                          ghost t: Tree, ghost h: nat, ghost lo: int, ghost pre: seq<Page>, ghost post: seq<Page>, ghost own: set<Page>,
                          ghost chain: seq<Page>)
    returns (newPage: Page?, ra1: ReturnAction, success: bool, ghost r: seq<Tree>)
    requires t.page == cur && Ready(order, t, h, lo, pre, post) && ra.action == NoAction
    requires own == Pages(t) && chain == pre + Leaves(t) + post
    modifies own, Head(post)`previous
    ensures Outcome(order, Entry(key, data), t, h, lo, pre, post, newPage, ra1, success, r)
    ensures !success ==> unchanged(own) && unchanged(Head(post)) && ra1 == ra
    ensures fresh(PagesIn(r) - own)
    decreases h, 2
  {
    hide Ready, Outcome, Hazard, Flat, Leaves, Rep, WF, Distinct, Sorted, Increasing, Stored, Place, HasKey, Linked, ViewT, KeysOf;
    ReadyPage(order, t, h, lo, pre, post);
    var found, childIndex := GetIndexOf(order, key, cur);
    var branchIndex := if found then childIndex + 1 else childIndex;
    if !cur.isLeaf {
      FollowReady(order, t, h, lo, pre, post, key, found, childIndex);
      hide *;
      var child: Page := cur.children[branchIndex];
      if child.isLeaf && child.size == order {
        if found {
          SeparatorOutcome(order, Entry(key, data), t, h, lo, pre, post, branchIndex, ra);
          return null, ra, false, [t];
        }
        if CanRotateLeft(order, cur, branchIndex) || CanRotateRight(order, cur, branchIndex) {
          newPage, success := null, true;
          ra1, r := InsertByRotation(order, key, data, branchIndex, cur, ra, t, lo, pre, post, own, chain);
          return;
        }
      }
      newPage, ra1, success, r := DescendInto(order, key, data, branchIndex, cur, ra, t, h, lo, pre, post, own, chain);
    } else {
      LeafReady(order, t, h, lo, pre, post, key, found, childIndex);
      hide *;
      newPage, ra1, success, r := InsertAtLeaf(order, key, data, found, childIndex, cur, ra, t, lo, pre, post);
    }
  }

  predicate CanRotateLeft(order: nat, cur: Page, childIndex: int)
    requires 0 <= childIndex <= cur.size && cur.size < |cur.children|
    requires childIndex > 0 ==> cur.children[childIndex - 1] != null
    reads cur, cur.children
  {
    childIndex > 0 && cur.children[childIndex - 1].size < order
  }

  predicate CanRotateRight(order: nat, cur: Page, childIndex: int)
    requires 0 <= childIndex <= cur.size && cur.size < |cur.children|
    requires childIndex < cur.size ==> cur.children[childIndex + 1] != null
    reads cur, cur.children
  {
    childIndex < cur.size && cur.children[childIndex + 1].size < order
  }

  lemma LeafReady(order: nat, t: Tree, h: nat, lo: int, pre: seq<Page>, post: seq<Page>, key: Key, found: bool, i: int)
    requires Ready(order, t, h, lo, pre, post) && t.Leaf?
    requires found ==> 0 <= i < Count(t) && t.page.keys[i] == key
    requires !found ==> Place(t.page.keys[..t.page.size], key, i)
    requires t.page.keys[..t.page.size] == ViewT(t).keys && t.page.size == Count(t)
    ensures h == 0 && Pages(t) == {t.page}
    ensures found ==> t.entries[i].key == key
    ensures !found ==> Place(KeysOf(t.entries), key, i)
  {
    assert found ==> t.page.keys[..t.page.size][i] == key;
  }

  /** What the search in an index page tells about the child to follow. */
  lemma FollowReady(order: nat, t: Tree, h: nat, lo: int, pre: seq<Page>, post: seq<Page>, key: Key, found: bool, i: int)
    requires Ready(order, t, h, lo, pre, post) && t.Node? && Bundled(t)
    requires t.page.Live(order) && t.page.size == Count(t) && t.page.keys[..t.page.size] == ViewT(t).keys && Increasing(ViewT(t).keys)
    requires found ==> 0 <= i < Count(t) && t.page.keys[i] == key
    requires !found ==> Place(t.page.keys[..t.page.size], key, i)
    ensures var b := if found then i + 1 else i;
      && Branch(t.keys, key, b) && (found <==> b > 0 && t.keys[b - 1] == key) && b < |t.kids| && h > 0
      && t.page.children[b] == t.kids[b].page && t.kids[b].page.isLeaf == t.kids[b].Leaf? && t.kids[b].page.size == Count(t.kids[b])
      && (t.kids[b].Leaf? <==> h == 1)
      && t.page.size < |t.page.children| && t.page in Pages(t)
      && (b > 0 ==> t.page.children[b - 1] == t.kids[b - 1].page && t.kids[b - 1].page.size == Count(t.kids[b - 1]))
      && (b < t.page.size ==> t.page.children[b + 1] == t.kids[b + 1].page && t.kids[b + 1].page.size == Count(t.kids[b + 1]))
  {
    assert found ==> t.page.keys[..t.page.size][i] == key;
    var b := if found then i + 1 else i;
    KidHeight(order, t, h, lo, b);
    assert Rep(t, order) && Distinct(t) && h > 0;
    hide Ready, WF, Rep, Distinct, Pages;
    ChildAt(t, order, b);
    if b > 0 {
      ChildAt(t, order, b - 1);
    }
    if b < |t.keys| {
      ChildAt(t, order, b + 1);
    }
  }

  lemma KidHeight(order: nat, t: Tree, h: nat, lo: int, b: nat)
    requires t.Node? && WF(t, order, h, lo) && b < |t.kids|
    ensures t.kids[b].Leaf? <==> h == 1
  {
    assert Run(t.keys, t.kids, order, h);
    assert WF(t.kids[b], order, h - 1, order / 2);
  }

  lemma ChildAt(t: Tree, order: nat, b: nat)
    requires t.Node? && Bundled(t) && Rep(t, order) && Distinct(t) && b < |t.kids|
    ensures t.page.children[b] == t.kids[b].page && t.kids[b].page.isLeaf == t.kids[b].Leaf? && t.kids[b].page.size == Count(t.kids[b])
    ensures t.page.size < |t.page.children| && t.page in Pages(t)
  {
    ChildPages(t, order);
  }

  lemma SeparatorOutcome(order: nat, e: Entry, t: Tree, h: nat, lo: int, pre: seq<Page>, post: seq<Page>, b: nat, ra: ReturnAction)
    requires Ready(order, t, h, lo, pre, post) && t.Node? && Bundled(t) && h > 0 && Branch(t.keys, e.key, b) && ra.action == NoAction
    requires b > 0 && t.keys[b - 1] == e.key && t.kids[b].Leaf?
    ensures Outcome(order, e, t, h, lo, pre, post, null, ra, false, [t]) && PagesIn([t]) == Pages(t)
  {
    hide *;
    ReadyParts(order, t, h, lo, pre, post);
    KidOfBranch(t, e.key, b);
    SeparatorPresent(order, t, h, lo, b);
    RunIncreasing(t.keys, t.kids, order, h);
    HazardAt(t, e.key, order, b);
    NotRotating(t, e.key, order, b);
    StepPresent(order, e, t, h, lo, pre, post, ra);
  }

  lemma ReadyParts(order: nat, t: Tree, h: nat, lo: int, pre: seq<Page>, post: seq<Page>)
    requires Ready(order, t, h, lo, pre, post) && t.Node? && h > 0
    ensures order >= 4 && WF(t, order, h, lo) && Sorted(Flat(t)) && Flat(t) == FlatAll(t.kids) && Run(t.keys, t.kids, order, h)
    ensures |t.kids| == |t.keys| + 1
  {
    hide Run, Sorted;
  }

  /** The separator is refused: insertion neither rotates at it nor overlooks it in a leaf. */
  lemma NotRotating(t: Tree, key: Key, order: nat, b: nat)
    requires t.Node? && Bundled(t) && 0 < b < |t.kids| && t.keys[b - 1] == key && t.kids[b].Leaf?
    ensures !Rotates(t, key, order, b) && !Hazard(t.kids[b], key, order)
  {
  }

  lemma SeparatorPresent(order: nat, t: Tree, h: nat, lo: int, b: nat)
    requires order >= 4 && t.Node? && h > 0 && WF(t, order, h, lo) && 0 < b < |t.kids|
    requires Branch(t.keys, t.keys[b - 1], b) && Sorted(Flat(t))
    ensures HasKey(Flat(t.kids[b]), t.keys[b - 1]) && HasKey(Flat(t), t.keys[b - 1])
  {
    assert Heads(t.keys[b - 1], Flat(t.kids[b]));
    assert Flat(t.kids[b])[0].key == t.keys[b - 1];
    BranchHasKey(t.keys, t.kids, order, h, t.keys[b - 1], b);
  }

  lemma ChildInRange(order: nat, t: Tree, h: nat, lo: int, pre: seq<Page>, post: seq<Page>, b: nat)
    requires t.Node? && Ready(order, t, h, lo, pre, post) && b < |t.kids|
    ensures b < |t.page.children| && t.page.children[b] == t.kids[b].page && b <= |t.page.keys| && b <= |t.keys|
    ensures b > 0 ==> t.page.keys[b - 1] == t.keys[b - 1]
  {
    ChildPages(t, order);
    assert b > 0 ==> t.page.keys[..t.page.size][b - 1] == t.keys[b - 1];
  }

  method DescendInto(order: nat, key: Key, data: Data, b: int, cur: Page, ra: ReturnAction,
                     ghost t: Tree, ghost h: nat, ghost lo: int, ghost pre: seq<Page>, ghost post: seq<Page>, ghost own: set<Page>,
                          ghost chain: seq<Page>)
    returns (newPage: Page?, ra1: ReturnAction, success: bool, ghost r: seq<Tree>)
    requires t.page == cur && t.Node? && Bundled(t) && h > 0 && Ready(order, t, h, lo, pre, post)
    requires ra.action == NoAction && own == Pages(t) && chain == pre + Leaves(t) + post
    requires Branch(t.keys, key, b) && !Rotates(t, key, order, b)
    modifies own, Head(post)`previous
    ensures Outcome(order, Entry(key, data), t, h, lo, pre, post, newPage, ra1, success, r)
    ensures !success ==> unchanged(own) && unchanged(Head(post)) && ra1 == ra
    ensures fresh(PagesIn(r) - own)
    decreases h, 1
  {
    hide *;
    KidOfBranch(t, key, b);
    ghost var e, kid := Entry(key, data), t.kids[b];
    ghost var preB, postB := pre + LeavesAll(t.kids[..b]), LeavesAll(t.kids[b + 1..]) + post;
    StepReady(order, t, h, lo, pre, post, b);
    StepKeys(order, t, h, lo, pre, post, key, b);
    ChildInRange(order, t, h, lo, pre, post, b);
    HeadIs(post);
    var child: Page := cur.children[b];
    var nodeData, ra0;
    ghost var kr;
    nodeData, ra0, success, kr := InsertBelow(order, key, data, b, child, ra, t, h, preB, postB, Pages(kid), Others(t, b, b + 1), chain,
                                                own, post);
    KidOutcome(order, e, kid, h, preB, postB, nodeData, ra0, success, kr);
    if ra0.action == ReplaceKey1WithKey2 && b > 0 && cur.keys[b - 1] == ra0.key1 {
      // The key above would be replaced here, but no separator above ever equals the key that moved.
      assert false;
    }
    label Called:
    newPage, ra1, r := TakeBack(order, key, data, b, nodeData, cur, ra0, success, t, h, lo, pre, post, kr, own);
    assert forall p :: p in PagesIn(r) && p !in own + PagesIn(kr) ==> !old@Called(allocated(p));
  }

  /** The node takes back what the call on its child returned. */
  method TakeBack(order: nat, key: Key, data: Data, b: int, nodeData: Page?, cur: Page, ra: ReturnAction, ghost success: bool,
                  ghost t: Tree, ghost h: nat, ghost lo: int, ghost pre: seq<Page>, ghost post: seq<Page>, ghost kr: seq<Tree>, ghost whole: set<Page>)
    returns (newPage: Page?, ra1: ReturnAction, ghost r: seq<Tree>)
    requires order >= 4 && h > 0 && t.Node? && Bundled(t) && t.page == cur && WF(t, order, h, lo) && Sorted(Flat(t)) && Distinct(t)
    requires Stored(t, order, Count(t)) && Branch(t.keys, key, b) && (!HasKey(Flat(t), key) && b > 0 ==> t.keys[b - 1] != key)
    requires success <==> !HasKey(Flat(t), key) || Hazard(t, key, order)
    requires HasKey(Flat(t), key) ==> nodeData == null
    requires success ==> SizesAll(t.kids[..b]) + SizesAll(kr) + SizesAll(t.kids[b + 1..]) == SizesAfter(t, key, order)
    requires HasKey(Flat(t), key) && success ==>
      && |kr| == 1 && TookAgain(order, t.kids[b], Entry(key, data), kr[0])
      && Linked(null, pre + LeavesAll(t.kids[..b]) + LeavesAll(kr) + (LeavesAll(t.kids[b + 1..]) + post), null)
    requires !HasKey(Flat(t), key) ==> |LeavesAll(kr)| == |Leaves(t.kids[b])| + NewLeaves(t, key, order)
    requires !HasKey(Flat(t), key) ==>
      && |kr| > 0 && (nodeData == null ==> |kr| == 1) && Grown(order, h - 1, order / 2, t.kids[b], Entry(key, data), kr, nodeData)
      && Linked(null, pre + LeavesAll(t.kids[..b]) + LeavesAll(kr) + (LeavesAll(t.kids[b + 1..]) + post), null)
      && SameHead(LeavesAll(kr), Leaves(t.kids[b]))
    requires nodeData != null ==>
      && |kr| == 2 && kr == [kr[0], kr[1]] && nodeData in PagesIn(kr) && (nodeData.isLeaf <==> h == 1)
      && if nodeData.isLeaf then nodeData.Live(order) && nodeData.size > 0 && Heads(nodeData.keys[0], Flat(kr[1]))
         else ra.action == PushKeyToParent && Heads(ra.key1, Flat(kr[1]))
    requires Apart(t, order, b, b + 1) && PagesIn(kr) !! Others(t, b, b + 1) && cur !in PagesIn(kr) && cur !in Others(t, b, b + 1)
    requires ra.action == ReplaceKey1WithKey2 ==> Flat(t) != [] && Flat(t)[0].key < ra.key1
    requires whole == Pages(t) && cur in whole && Others(t, b, b + 1) <= whole
    modifies if nodeData == null then {} else {cur, nodeData}
    ensures Outcome(order, Entry(key, data), t, h, lo, pre, post, newPage, ra1, success, r)
    ensures nodeData == null ==> ra1 == ra
    ensures fresh(PagesIn(r) - (whole + PagesIn(kr)))
  {
    ghost var e := Entry(key, data);
    assert 0 <= b <= |t.keys| < |t.kids|;
    hide *;
    newPage, ra1, r := null, ra, [t];
    if nodeData != null {
      newPage, ra1, r := AbsorbLinked(order, key, data, b, nodeData, cur, ra, t, h, lo, kr[0], kr[1],
                                      pre + LeavesAll(t.kids[..b]) + LeavesAll(kr) + (LeavesAll(t.kids[b + 1..]) + post));
      StepSplit(order, e, t, h, lo, pre, post, b, newPage, ra, ra1, kr, r);
    } else if !success {
      StepPresent(order, e, t, h, lo, pre, post, ra);
    } else if HasKey(Flat(t), key) {
      r := [Node(cur, t.keys, t.kids[b := kr[0]])];
      StepAgain(order, e, t, h, lo, pre, post, b, ra, kr);
    } else {
      r := [Node(cur, t.keys, t.kids[b := kr[0]])];
      StepGrew(order, e, t, h, lo, pre, post, b, ra, kr);
    }
  }

  /** The outcome of the call on the child, taken apart. */
  lemma KidOutcome(order: nat, e: Entry, kid: Tree, h: nat, pre: seq<Page>, post: seq<Page>, nodeData: Page?,
          ra: ReturnAction, success: bool, kr: seq<Tree>)
    requires h > 0 && Outcome(order, e, kid, h - 1, order / 2, pre, post, nodeData, ra, success, kr)
    ensures success <==> !HasKey(Flat(kid), e.key) || Hazard(kid, e.key, order)
    ensures HasKey(Flat(kid), e.key) ==> nodeData == null
    ensures success ==> SizesAll(kr) == SizesAfter(kid, e.key, order)
    ensures !HasKey(Flat(kid), e.key) ==> Grown(order, h - 1, order / 2, kid, e, kr, nodeData) && Linked(null, pre + LeavesAll(kr) + post, null)
    ensures !HasKey(Flat(kid), e.key) ==> SameHead(LeavesAll(kr), Leaves(kid))
    ensures !HasKey(Flat(kid), e.key) ==>
      |kr| > 0 && (nodeData == null ==> |kr| == 1) && |LeavesAll(kr)| == |Leaves(kid)| + NewLeaves(kid, e.key, order)
    ensures HasKey(Flat(kid), e.key) && success ==>
      |kr| == 1 && TookAgain(order, kid, e, kr[0]) && Linked(null, pre + LeavesAll(kr) + post, null)
    ensures nodeData != null ==> |kr| == 2 && kr == [kr[0], kr[1]] && nodeData in PagesIn(kr)
    ensures nodeData != null ==>
      && (nodeData.isLeaf <==> h == 1)
      && if nodeData.isLeaf then nodeData.Live(order) && nodeData.size > 0 && Heads(nodeData.keys[0], Flat(kr[1]))
         else ra.action == PushKeyToParent && Heads(ra.key1, Flat(kr[1]))
    ensures ra.action == ReplaceKey1WithKey2 ==> Flat(kid) != [] && Flat(kid)[0].key < ra.key1
  {
  }

  lemma StepPresent(order: nat, e: Entry, t: Tree, h: nat, lo: int, pre: seq<Page>, post: seq<Page>, ra: ReturnAction)
    requires HasKey(Flat(t), e.key) && !Hazard(t, e.key, order)
    requires ra.action == ReplaceKey1WithKey2 ==> Flat(t) != [] && Flat(t)[0].key < ra.key1
    ensures Outcome(order, e, t, h, lo, pre, post, null, ra, false, [t]) && PagesIn([t]) == Pages(t)
  {
    PagesOfTwo(t, t);
  }

  /** The child took in an entry whose key it already had. */
  lemma StepAgain(order: nat, e: Entry, t: Tree, h: nat, lo: int, pre: seq<Page>, post: seq<Page>, b: nat, ra: ReturnAction, kr: seq<Tree>)
    requires t.Node? && Bundled(t) && b < |t.kids| && Distinct(t) && Stored(t, order, Count(t)) && HasKey(Flat(t), e.key) && Hazard(t, e.key, order)
    requires |kr| == 1 && TookAgain(order, t.kids[b], e, kr[0]) && Apart(t, order, b, b + 1)
    requires Linked(null, pre + LeavesAll(t.kids[..b]) + LeavesAll(kr) + (LeavesAll(t.kids[b + 1..]) + post), null)
    requires ra.action == ReplaceKey1WithKey2 ==> Flat(t) != [] && Flat(t)[0].key < ra.key1
    requires SizesAll(t.kids[..b]) + SizesAll(kr) + SizesAll(t.kids[b + 1..]) == SizesAfter(t, e.key, order)
    ensures var t1 := Node(t.page, t.keys, t.kids[b := kr[0]]);
      Outcome(order, e, t, h, lo, pre, post, null, ra, true, [t1]) && PagesIn([t1]) == Pages(t)
  {
    hide *;
    var k := kr[0];
    var t1 := Node(t.page, t.keys, t.kids[b := k]);
    assert kr == [k];
    FlatAllTwo(k, k);
    FlatAllTwo(t1, t1);
    PagesOfTwo(t1, t1);
    NodeAgain(order, e, t, b, k);
    SizesOf(k);
    SizesBelow(t, b, k);
    ChainBelow(t, b, pre, LeavesAll(kr), post);
    AgainOutcome(order, e, t, h, lo, pre, post, ra, t1);
  }

  lemma AgainOutcome(order: nat, e: Entry, t: Tree, h: nat, lo: int, pre: seq<Page>, post: seq<Page>, ra: ReturnAction, t1: Tree)
    requires HasKey(Flat(t), e.key) && Hazard(t, e.key, order) && TookAgain(order, t, e, t1) && Linked(null, pre + LeavesAll([t1]) + post, null)
    requires ra.action == ReplaceKey1WithKey2 ==> Flat(t) != [] && Flat(t)[0].key < ra.key1
    requires SizesAll([t1]) == SizesAfter(t, e.key, order)
    ensures Outcome(order, e, t, h, lo, pre, post, null, ra, true, [t1])
  {
    hide HasKey, Hazard, TookAgain, Linked, Flat, LeavesAll, SizesAll, SizesAfter;
  }

  lemma NodeAgain(order: nat, e: Entry, t: Tree, b: nat, k: Tree)
    requires t.Node? && Bundled(t) && b < |t.kids| && Distinct(t) && Stored(t, order, Count(t))
    requires TookAgain(order, t.kids[b], e, k) && Apart(t, order, b, b + 1)
    ensures var t1 := Node(t.page, t.keys, t.kids[b := k]);
      && TookAgain(order, t, e, t1) && Pages(t1) == Pages(t)
      && Leaves(t1) == LeavesAll(t.kids[..b]) + Leaves(k) + LeavesAll(t.kids[b + 1..])
  {
    hide *;
    AgainParts(order, t.kids[b], e, k);
    KidAlone(t, b, k);
    ChildOthers(t, b);
    PagesOfTwo(k, k);
    StepGrewPages(order, t, b, k);
    DoubledBelow(t, b, e, k);
    AgainWhole(order, t, e, Node(t.page, t.keys, t.kids[b := k]));
  }

  lemma AgainParts(order: nat, t: Tree, e: Entry, t1: Tree)
    requires TookAgain(order, t, e, t1)
    ensures t1.page == t.page && Rep(t1, order) && Distinct(t1) && Pages(t1) == Pages(t)
    ensures Doubled(Flat(t), e, Flat(t1)) && Leaves(t1) == Leaves(t)
  {
    hide Rep, Distinct, Pages, Doubled, Flat, Leaves;
  }

  lemma AgainWhole(order: nat, t: Tree, e: Entry, t1: Tree)
    requires t1.page == t.page && Rep(t1, order) && Distinct(t1) && Pages(t1) == Pages(t)
    requires Doubled(Flat(t), e, Flat(t1)) && Leaves(t1) == Leaves(t)
    ensures TookAgain(order, t, e, t1)
  {
    hide Rep, Distinct, Pages, Doubled, Flat, Leaves;
  }

  lemma KidAlone(t: Tree, b: nat, k: Tree)
    requires t.Node? && Distinct(t) && b < |t.kids| && Distinct(k)
    ensures DistinctAll([k])
  {
  }

  lemma DoubledBelow(t: Tree, b: nat, e: Entry, k: Tree)
    requires t.Node? && b < |t.kids| && Doubled(Flat(t.kids[b]), e, Flat(k)) && Leaves(k) == Leaves(t.kids[b])
    ensures var t1 := Node(t.page, t.keys, t.kids[b := k]);
      && Doubled(Flat(t), e, Flat(t1)) && Leaves(t1) == Leaves(t)
      && Leaves(t1) == LeavesAll(t.kids[..b]) + Leaves(k) + LeavesAll(t.kids[b + 1..])
  {
    var kids1 := t.kids[b := k];
    assert kids1[..b] == t.kids[..b] && kids1[b + 1..] == t.kids[b + 1..];
    FlatAllAt(t.kids, b);
    FlatAllAt(kids1, b);
    hide Doubled;
    DoubledInside(FlatAll(t.kids[..b]), Flat(t.kids[b]), FlatAll(t.kids[b + 1..]), e, Flat(k));
  }

  lemma StepGrew(order: nat, e: Entry, t: Tree, h: nat, lo: int, pre: seq<Page>, post: seq<Page>, b: nat, ra: ReturnAction, kr: seq<Tree>)
    requires order >= 4 && h > 0 && t.Node? && WF(t, order, h, lo) && Sorted(Flat(t)) && Distinct(t) && Stored(t, order, Count(t))
    requires Branch(t.keys, e.key, b) && (b > 0 ==> t.keys[b - 1] != e.key) && !HasKey(Flat(t), e.key)
    requires |kr| == 1 && Grown(order, h - 1, order / 2, t.kids[b], e, kr, null)
    requires Apart(t, order, b, b + 1) && PagesIn(kr) !! Others(t, b, b + 1) && t.page !in PagesIn(kr) && t.page !in Others(t, b, b + 1)
    requires Linked(null, pre + LeavesAll(t.kids[..b]) + LeavesAll(kr) + (LeavesAll(t.kids[b + 1..]) + post), null)
    requires ra.action == ReplaceKey1WithKey2 ==> Flat(t) != [] && Flat(t)[0].key < ra.key1
    requires SameHead(LeavesAll(kr), Leaves(t.kids[b])) && |LeavesAll(kr)| == |Leaves(t.kids[b])| + NewLeaves(t, e.key, order)
    requires SizesAll(t.kids[..b]) + SizesAll(kr) + SizesAll(t.kids[b + 1..]) == SizesAfter(t, e.key, order)
    ensures var t1 := Node(t.page, t.keys, t.kids[b := kr[0]]);
      && Outcome(order, e, t, h, lo, pre, post, null, ra, true, [t1])
      && PagesIn([t1]) == {t.page} + (PagesIn(kr) + Others(t, b, b + 1))
  {
    hide *;
    var k := kr[0];
    assert kr == [k];
    FlatAllTwo(k, k);
    BundledWF(t, order, h, lo);
    KidOfBranch(t, e.key, b);
    GrewBelow(order, h, lo, t, b, e, k);
    SizesOf(k);
    SizesBelow(t, b, k);
    ChainBelow(t, b, pre, LeavesAll(kr), post);
    HeadAround(t, b, LeavesAll(kr));
    GrewOutcome(order, e, t, h, lo, pre, post, ra, Node(t.page, t.keys, t.kids[b := k]));
  }

  lemma GrewOutcome(order: nat, e: Entry, t: Tree, h: nat, lo: int, pre: seq<Page>, post: seq<Page>, ra: ReturnAction, t1: Tree)
    requires !HasKey(Flat(t), e.key) && Grown(order, h, lo, t, e, [t1], null) && Linked(null, pre + LeavesAll([t1]) + post, null)
    requires SameHead(LeavesAll([t1]), Leaves(t)) && |LeavesAll([t1])| == |Leaves(t)| + NewLeaves(t, e.key, order)
    requires ra.action == ReplaceKey1WithKey2 ==> Flat(t) != [] && Flat(t)[0].key < ra.key1
    requires SizesAll([t1]) == SizesAfter(t, e.key, order)
    ensures Outcome(order, e, t, h, lo, pre, post, null, ra, true, [t1])
  {
    hide HasKey, Grown, Linked, SameHead, NewLeaves, Flat, LeavesAll, SizesAll, SizesAfter;
  }

  /** A child that grew without a split, as the only tree that came back. */
  lemma GrownSingle(order: nat, h: nat, lo: int, t: Tree, e: Entry, k: Tree)
    requires Grown(order, h, lo, t, e, [k], null)
    ensures k.page == t.page && DistinctAll([k]) && Rep(k, order) && Inserted(Flat(t), e, Flat(k)) && WF(k, order, h, lo)
  {
    FlatAllTwo(k, k);
    hide Rep, DistinctAll, Inserted, WF, Flat, FlatAll;
  }

  /** The node over a child that grew without a split. */
  lemma GrewBelow(order: nat, h: nat, lo: int, t: Tree, b: nat, e: Entry, k: Tree)
    requires order >= 4 && h > 0 && t.Node? && WF(t, order, h, lo) && Sorted(Flat(t)) && Distinct(t) && Stored(t, order, Count(t))
    requires Branch(t.keys, e.key, b) && (b > 0 ==> t.keys[b - 1] != e.key)
    requires b < |t.kids| && Grown(order, h - 1, order / 2, t.kids[b], e, [k], null)
    requires Apart(t, order, b, b + 1) && PagesIn([k]) !! Others(t, b, b + 1) && t.page !in PagesIn([k]) && t.page !in Others(t, b, b + 1)
    ensures var t1 := Node(t.page, t.keys, t.kids[b := k]);
      && Grown(order, h, lo, t, e, [t1], null) && PagesIn([t1]) == {t.page} + (PagesIn([k]) + Others(t, b, b + 1))
      && LeavesAll([t1]) == LeavesAll(t.kids[..b]) + Leaves(k) + LeavesAll(t.kids[b + 1..])
  {
    hide *;
    var t1 := Node(t.page, t.keys, t.kids[b := k]);
    GrownSingle(order, h - 1, order / 2, t.kids[b], e, k);
    assert Bundled(t) by { BundledWF(t, order, h, lo); }
    StepGrewPages(order, t, b, k);
    KidGrew(t, order, h, lo, b, e, k);
    SameTopWF(t, t1, order, h, lo);
    GrownOne(order, h, lo, t, e, t1);
  }

  lemma KidOfBranch(t: Tree, key: Key, b: int)
    requires t.Node? && Bundled(t) && Branch(t.keys, key, b)
    ensures 0 <= b < |t.kids|
  {
  }

  lemma BundledWF(t: Tree, M: int, h: nat, lo: int)
    requires WF(t, M, h, lo)
    ensures Bundled(t)
  {
  }

  /** A node with the same keys over a run in order. */
  lemma SameTopWF(t: Tree, t1: Tree, M: int, h: nat, lo: int)
    requires h > 0 && t.Node? && t1.Node? && WF(t, M, h, lo) && t1.keys == t.keys && Run(t1.keys, t1.kids, M, h)
    ensures WF(t1, M, h, lo) && Flat(t1) == FlatAll(t1.kids) && Leaves(t1) == LeavesAll(t1.kids)
  {
  }

  lemma StepGrewPages(order: nat, t: Tree, b: nat, k: Tree)
    requires t.Node? && Bundled(t) && b < |t.kids| && Distinct(t) && Stored(t, order, Count(t)) && k.page == t.kids[b].page
    requires Rep(k, order) && DistinctAll([k])
    requires Apart(t, order, b, b + 1) && PagesIn([k]) !! Others(t, b, b + 1) && t.page !in PagesIn([k]) && t.page !in Others(t, b, b + 1)
    ensures var t1 := Node(t.page, t.keys, t.kids[b := k]);
      Rep(t1, order) && Distinct(t1) && Pages(t1) == {t.page} + (PagesIn([k]) + Others(t, b, b + 1))
  {
    assert PagesOf(t.kids[b := k]) == PagesOf(t.kids);
    assert RepAll([k], order) && DistinctAll(t.kids);
    SplicedShapes(t, b, k, k);
    SplicedRep(t, order, b, b + 1, [k]);
    SplicedPages(t, b, b + 1, [k]);
    SplicedDistinct(t, b, b + 1, [k]);
  }

  lemma StepSplit(order: nat, e: Entry, t: Tree, h: nat, lo: int, pre: seq<Page>, post: seq<Page>, b: nat,
                  newPage: Page?, ra0: ReturnAction, ra: ReturnAction, kr: seq<Tree>, r: seq<Tree>)
    requires h > 0 && t.Node? && b < |t.kids| && !HasKey(Flat(t), e.key) && Grown(order, h, lo, t, e, r, newPage)
    requires LeavesAll(r) == LeavesAll(t.kids[..b]) + LeavesAll(kr) + LeavesAll(t.kids[b + 1..])
    requires Linked(null, pre + LeavesAll(t.kids[..b]) + LeavesAll(kr) + (LeavesAll(t.kids[b + 1..]) + post), null)
    requires if newPage == null then ra == ra0 else !newPage.isLeaf && ra.action == PushKeyToParent && |r| == 2 && Heads(ra.key1, Flat(r[1]))
    requires ra0.action == ReplaceKey1WithKey2 ==> Flat(t) != [] && Flat(t)[0].key < ra0.key1
    requires SameHead(LeavesAll(kr), Leaves(t.kids[b])) && |LeavesAll(kr)| == |Leaves(t.kids[b])| + NewLeaves(t, e.key, order)
    requires SizesAll(r) == SizesAfter(t, e.key, order)
    ensures Outcome(order, e, t, h, lo, pre, post, newPage, ra, true, r)
  {
    ChainBelow(t, b, pre, LeavesAll(kr), post);
    HeadAround(t, b, LeavesAll(kr));
    assert newPage != null ==> r[1].page in Pages(r[1]);
  }

  /** What the keys of a node say about the child followed. */
  lemma StepKeys(order: nat, t: Tree, h: nat, lo: int, pre: seq<Page>, post: seq<Page>, key: Key, b: nat)
    requires t.Node? && Bundled(t) && h > 0 && Ready(order, t, h, lo, pre, post) && Branch(t.keys, key, b)
    ensures Flat(t) != [] && Flat(t.kids[b]) != [] && Flat(t)[0].key <= Flat(t.kids[b])[0].key
    ensures b > 0 ==> Flat(t.kids[b])[0].key == t.keys[b - 1]
    ensures HasKey(Flat(t), key) <==> HasKey(Flat(t.kids[b]), key)
    ensures !HasKey(Flat(t), key) && b > 0 ==> t.keys[b - 1] != key
    ensures !Rotates(t, key, order, b) ==> NewLeaves(t, key, order) == NewLeaves(t.kids[b], key, order)
    ensures !Rotates(t, key, order, b) ==> (Hazard(t, key, order) <==> HasKey(Flat(t.kids[b]), key) && Hazard(t.kids[b], key, order))
    ensures !Rotates(t, key, order, b) ==>
      SizesAfter(t, key, order) == SizesAll(t.kids[..b]) + SizesAfter(t.kids[b], key, order) + SizesAll(t.kids[b + 1..])
    ensures t.page.Live(order) && t.page.size == |t.keys| && t.page.keys[..t.page.size] == t.keys
  {
    hide SizesAfter, SizesAll;
    HeadBelowKeys(t, order, h, lo, b);
    BranchHasKey(t.keys, t.kids, order, h, key, b);
    RunIncreasing(t.keys, t.kids, order, h);
    HazardAt(t, key, order, b);
    NewLeavesAt(t, key, order, b);
    if !Rotates(t, key, order, b) {
      SizesAfterAt(t, key, order, b);
    }
    TopFields(t, order);
    if b > 0 && t.keys[b - 1] == key {
      SeparatorPresent(order, t, h, lo, b);
    }
  }
}
