/** The B+ tree as its callers see it: a map from keys to data. */
module BPlusTree {
  import opened Sequences
  import opened BPlusPage
  import opened BPlusShape
  import opened BPlusHeap
  import opened BPlusInsert
  import opened BPlusGrow
  import opened BPlusDescend
  import opened BPlusShrink
  import opened BPlusDelete

  // ---------------------------------------------------------------- looking a key up

  ghost predicate Holds(es: seq<Entry>, key: Key, d: Data) {
    Entry(key, d) in es
  }

  lemma HoldsParts(a: seq<Entry>, b: seq<Entry>, c: seq<Entry>, key: Key, d: Data)
    requires AllBelow(a, key) && AllAbove(key, c)
    ensures Holds(a + b + c, key, d) <==> Holds(b, key, d)
  {
  }

  /** The entry for the key is below the child that the search follows, or nowhere. */
  lemma Followed(order: nat, t: Tree, h: nat, lo: int, key: Key, b: nat)
    requires order >= 4 && h > 0 && t.Node? && WF(t, order, h, lo) && Sorted(Flat(t)) && Branch(t.keys, key, b) && b < |t.kids|
    ensures forall d :: Holds(Flat(t), key, d) <==> Holds(Flat(t.kids[b]), key, d)
  {
    BranchBounds(t.keys, t.kids, order, h, key, b);
    forall d ensures Holds(Flat(t), key, d) <==> Holds(Flat(t.kids[b]), key, d) {
      HoldsParts(FlatAll(t.kids[..b]), Flat(t.kids[b]), FlatAll(t.kids[b + 1..]), key, d);
    }
  }

  lemma HeldContents(es: seq<Entry>, key: Key, d: Data)
    requires Sorted(es)
    ensures Holds(es, key, d) <==> key in Contents(es) && Contents(es)[key] == d
    ensures HasKey(es, key) <==> key in Contents(es)
  {
    ContentsModels(es);
  }

  ghost predicate Searched(order: nat, t: Tree, h: nat, lo: int)
    reads Pages(t)`isLeaf, Pages(t)`size, Pages(t)`keys, Pages(t)`data, Pages(t)`children
  {
    order >= 4 && 1 <= lo <= order / 2 && WF(t, order, h, lo) && Sorted(Flat(t)) && Rep(t, order) && Distinct(t)
  }

  /** The page a search is at, and what its own search tells about the child to follow. */
  lemma SearchPage(order: nat, t: Tree, h: nat, lo: int)
    requires Searched(order, t, h, lo)
    ensures t.page.Live(order) && t.page.size == Count(t) && Count(t) > 0 && t.page.isLeaf == t.Leaf? && (t.Node? <==> h > 0)
    ensures t.page.keys[..t.page.size] == ViewT(t).keys && Increasing(ViewT(t).keys) && Stored(t, order, Count(t))
    ensures (t.Leaf? ==> Sorted(t.entries)) && Bundled(t) && |t.page.keys| == order
    ensures |t.page.children| == order + 1 && t.page.size <= order
  {
    StoredLive(t, order);
    if t.Node? {
      RunIncreasing(t.keys, t.kids, order, h);
    }
  }

  lemma FollowedPage(order: nat, t: Tree, h: nat, lo: int, key: Key, found: bool, i: int)
    requires order >= 4 && h > 0 && lo >= 1 && t.Node? && WF(t, order, h, lo) && Sorted(Flat(t)) && Rep(t, order) && Distinct(t)
    requires t.page.size == Count(t) && 0 <= t.page.size <= |t.page.keys| && t.page.keys[..t.page.size] == ViewT(t).keys
    requires found ==> 0 <= i < t.page.size && t.page.keys[i] == key
    requires !found ==> Place(t.page.keys[..t.page.size], key, i)
    ensures var b := if found then i + 1 else i;
      && 0 <= b < |t.kids| && b < |t.page.children| && t.page.children[b] == t.kids[b].page
      && WF(t.kids[b], order, h - 1, order / 2) && Sorted(Flat(t.kids[b])) && Rep(t.kids[b], order) && Distinct(t.kids[b])
      && forall d :: Holds(Flat(t), key, d) <==> Holds(Flat(t.kids[b]), key, d)
  {
    var b := if found then i + 1 else i;
    assert found ==> t.page.keys[..t.page.size][i] == key;
    RunIncreasing(t.keys, t.kids, order, h);
    assert Branch(t.keys, key, b);
    ChildPages(t, order);
    hide Sorted, Holds;
    Followed(order, t, h, lo, key, b);
  }

  lemma SearchedParts(order: nat, t: Tree, h: nat, lo: int)
    ensures Searched(order, t, h, lo) <==>
            order >= 4 && 1 <= lo <= order / 2 && WF(t, order, h, lo) && Sorted(Flat(t)) && Rep(t, order) && Distinct(t)
  {
  }

  /** One step down from an index page. */
  method Follow(order: nat, key: Key, cur: Page, ghost t: Tree, ghost h: nat, ghost lo: int, ghost own: set<Page>)
    returns (child: Page, ghost k: Tree)
    requires t.page == cur && Searched(order, t, h, lo) && !cur.isLeaf && own == Pages(t)
    ensures h > 0 && k.page == child && Searched(order, k, h - 1, order / 2) && k in KidsOf(t)
    ensures forall d :: Holds(Flat(t), key, d) <==> Holds(Flat(k), key, d)
  {
    hide *;
    SearchPage(order, t, h, lo);
    var found, childIndex := GetIndexOf(order, key, cur);
    SearchedParts(order, t, h, lo);
    FollowedPage(order, t, h, lo, key, found, childIndex);
    SearchedParts(order, t.kids[if found then childIndex + 1 else childIndex], h - 1, order / 2);
    if found {
      childIndex := childIndex + 1;
    }
    child, k := cur.children[childIndex], t.kids[childIndex];
    KidAt(t, childIndex);
  }

  ghost function KidsOf(t: Tree): seq<Tree> {
    if t.Node? then t.kids else []
  }

  lemma KidAt(t: Tree, b: nat)
    requires t.Node? && b < |t.kids|
    ensures t.kids[b] in KidsOf(t)
  {
  }

  lemma {:induction false} LeavesOfKids(ts: seq<Tree>, k: Tree, p: Page)
    requires k in ts && p in Leaves(k)
    ensures p in LeavesAll(ts)
  {
    if ts[0] != k {
      LeavesOfKids(ts[1..], k, p);
    }
  }

  lemma LeavesBelow(t: Tree, k: Tree)
    requires k in KidsOf(t)
    ensures forall p :: p in Leaves(k) ==> p in Leaves(t)
  {
    forall p | p in Leaves(k) ensures p in Leaves(t) {
      LeavesOfKids(t.kids, k, p);
    }
  }

  /** A leaf that holds the same data under the key as the tree does shows the key exactly when the tree has it. */
  lemma LeafShows(order: nat, t: Tree, leaf: Tree, lo: int, key: Key)
    requires leaf.Leaf? && Searched(order, leaf, 0, lo)
    requires forall d :: Holds(Flat(t), key, d) <==> Holds(Flat(leaf), key, d)
    ensures Leaves(leaf) == [leaf.page] && 0 <= leaf.page.size <= |leaf.page.keys|
    ensures HasKey(Flat(t), key) <==> key in leaf.page.keys[..leaf.page.size]
  {
    SearchPage(order, leaf, 0, lo);
    HasKeyHolds(Flat(t), key);
    HasKeyHolds(leaf.entries, key);
    var keys := ViewT(leaf).keys;
    assert forall i :: 0 <= i < |leaf.entries| ==> keys[i] == leaf.entries[i].key;
  }

  lemma HasKeyHolds(es: seq<Entry>, key: Key)
    ensures HasKey(es, key) <==> exists d :: Holds(es, key, d)
  {
    if HasKey(es, key) {
      var i :| 0 <= i < |es| && es[i].key == key;
      assert es[i] == Entry(key, es[i].data);
      assert Holds(es, key, es[i].data);
    }
  }

  /** The leaf a search for `key` ends in. */
  method GetLeafFromKey(order: nat, key: Key, root: Page, ghost t: Tree, ghost h: nat) returns (cur: Page, ghost leaf: Tree)
    requires t.page == root && Searched(order, t, h, 1)
    ensures leaf.Leaf? && leaf.page == cur && Searched(order, leaf, 0, if h == 0 then 1 else order / 2)
    ensures forall d :: Holds(Flat(t), key, d) <==> Holds(Flat(leaf), key, d)
    ensures cur in Leaves(t) && 0 <= cur.size <= |cur.keys| && (HasKey(Flat(t), key) <==> key in cur.keys[..cur.size])
  {
    hide *;
    cur := root;
    ghost var kh: nat, lo: int := h, 1;
    leaf := t;
    while !cur.isLeaf
      invariant leaf.page == cur && Searched(order, leaf, kh, lo) && lo == (if kh == h then 1 else order / 2) && kh <= h
      invariant forall d :: Holds(Flat(t), key, d) <==> Holds(Flat(leaf), key, d)
      invariant forall p :: p in Leaves(leaf) ==> p in Leaves(t)
      decreases kh
    {
      ghost var above := leaf;
      cur, leaf := Follow(order, key, cur, leaf, kh, lo, Pages(leaf));
      LeavesBelow(above, leaf);
      kh, lo := kh - 1, order / 2;
    }
    SearchPage(order, leaf, kh, lo);
    LeafShows(order, t, leaf, lo, key);
  }

  // ---------------------------------------------------------------- the whole chain of leaves

  lemma NoDupConcat<T>(a: seq<T>, b: seq<T>)
    requires NoDup(a) && NoDup(b) && forall x :: x in a ==> x !in b
    ensures NoDup(a + b)
  {
    var s := a + b;
    forall i, j | 0 <= i < j < |s| ensures s[i] != s[j] {
      if i < |a| <= j {
        assert s[i] == a[i] && s[j] == b[j - |a|];
        assert a[i] in a && a[i] !in b;
      } else if |a| <= i {
        assert s[i] == b[i - |a|] && s[j] == b[j - |a|];
      }
    }
  }

  lemma {:induction false} LeavesNoDup(t: Tree)
    requires Distinct(t)
    ensures NoDup(Leaves(t))
    decreases t
  {
    if t.Node? {
      LeavesNoDupAll(t.kids);
    }
  }

  lemma {:induction false} LeavesNoDupAll(ts: seq<Tree>)
    requires DistinctAll(ts)
    ensures NoDup(LeavesAll(ts))
    decreases ts
  {
    if ts != [] {
      var rest := ts[1..];
      SlicePages(ts, 1);
      LeavesNoDup(ts[0]);
      LeavesNoDupAll(rest);
      LeavesInPages(ts[0]);
      LeavesInPagesAll(rest);
      forall x | x in Leaves(ts[0]) ensures x !in LeavesAll(rest) {
        assert x in Pages(ts[0]);
      }
      hide Distinct, DistinctAll, Pages, PagesIn, NoDup;
      NoDupConcat(Leaves(ts[0]), LeavesAll(rest));
    }
  }

  /** The keys counted along a chain of leaves. */
  ghost function Total(ls: seq<Page>): int
    reads (set p | p in ls)`size
  {
    if ls == [] then 0 else ls[0].size + Total(ls[1..])
  }

  lemma {:induction false} TotalConcat(a: seq<Page>, b: seq<Page>)
    ensures Total(a + b) == Total(a) + Total(b)
  {
    if a == [] {
      assert a + b == b;
    } else {
      var ab := a + b;
      assert ab[0] == a[0] && ab[1..] == a[1..] + b;
      TotalConcat(a[1..], b);
    }
  }

  lemma {:induction false} TotalFlat(t: Tree, order: nat)
    requires Rep(t, order)
    ensures Total(Leaves(t)) == |Flat(t)|
    decreases t
  {
    if t.Node? {
      TotalFlatAll(t.kids, order);
    } else {
      assert [t.page][1..] == [];
    }
  }

  lemma {:induction false} TotalFlatAll(ts: seq<Tree>, order: nat)
    requires RepAll(ts, order)
    ensures Total(LeavesAll(ts)) == |FlatAll(ts)|
    decreases ts
  {
    if ts != [] {
      TotalFlat(ts[0], order);
      TotalFlatAll(ts[1..], order);
      TotalConcat(Leaves(ts[0]), LeavesAll(ts[1..]));
    }
  }

  /** One step along the chain. */
  lemma ChainStep(ls: seq<Page>, i: nat)
    requires i < |ls| && Linked(null, ls, null)
    ensures ls[i].next == First(ls[i + 1..], null) && Total(ls[..i + 1]) == Total(ls[..i]) + ls[i].size
  {
    assert ls[..i + 1] == ls[..i] + [ls[i]];
    TotalConcat(ls[..i], [ls[i]]);
    assert [ls[i]][1..] == [];
    assert i + 1 < |ls| ==> ls[i].next == ls[i + 1];
  }

  // ---------------------------------------------------------------- growth at the root

  /** A new root above two pages. */
  method NewRoot(order: nat, newKey: Key, left: Page, right: Page, ghost l: Tree, ghost n: Tree,
          ghost own: set<Page>, ghost chain: seq<Page>)
    returns (newRoot: Page, ghost t1: Tree)
    requires order >= 4 && l.page == left && n.page == right && RepAll([l, n], order) && DistinctAll([l, n]) && own == PagesIn([l, n])
    requires Linked(null, chain, null)
    ensures fresh(newRoot) && t1 == Node(newRoot, [newKey], [l, n]) && Rep(t1, order) && Distinct(t1) && Pages(t1) == {newRoot} + own
    ensures Linked(null, chain, null)
  {
    hide *;
    newRoot := RootPage(order, newKey, left, right);
    t1 := Node(newRoot, [newKey], [l, n]);
    RootRep(order, newRoot, newKey, l, n);
  }

  method RootPage(order: nat, newKey: Key, left: Page, right: Page) returns (newRoot: Page)
    requires order >= 4
    ensures fresh(newRoot) && newRoot.Live(order) && !newRoot.isLeaf && newRoot.Now(order) == View(false, [newKey], [], [left, right])
  {
    newRoot := new Page(order);
    newRoot.isLeaf := false;
    newRoot.size := 1;
    newRoot.keys := newRoot.keys[0 := newKey];
    newRoot.children := newRoot.children[0 := left];
    newRoot.children := newRoot.children[1 := right];
    assert newRoot.children[..2] == [left, right];
  }

  lemma RootRep(order: nat, newRoot: Page, newKey: Key, l: Tree, n: Tree)
    requires newRoot.Live(order) && !newRoot.isLeaf && newRoot.Now(order) == View(false, [newKey], [], [l.page, n.page])
    requires RepAll([l, n], order) && DistinctAll([l, n]) && newRoot !in PagesIn([l, n])
    ensures var t1 := Node(newRoot, [newKey], [l, n]); Rep(t1, order) && Distinct(t1) && Pages(t1) == {newRoot} + PagesIn([l, n])
  {
    assert PagesOf([l, n]) == [l.page, n.page];
    assert |newRoot.Now(order).keys| == newRoot.size;
  }

  method DropAtRoot(order: nat, newPage: Page, ghost l: Tree, ghost n: Tree, ghost others: set<Page>,
          ghost own: set<Page>, ghost chain: seq<Page>)
    requires n.page == newPage && RepSplit(n, order) && n.Node? && RepAll([l], order)
    requires own == PagesIn(n.kids) && newPage !in own && others == PagesIn([l]) && newPage !in others && Linked(null, chain, null)
    modifies newPage`size
    ensures RepAll([l, n], order) && Linked(null, chain, null)
  {
    hide *;
    DropPushedKey(order, newPage, n, [l], others, own);
    PairRep(order, l, n);
  }

  lemma PairRep(order: nat, l: Tree, n: Tree)
    requires RepAll([l], order) && Rep(n, order)
    ensures RepAll([l, n], order)
  {
    assert [l][0] == l;
  }

  /** What a split at the root comes back with, taken apart. */
  lemma RootSplit(order: nat, e: Entry, t: Tree, h: nat, newPage: Page, ra: ReturnAction, r: seq<Tree>)
    requires order >= 4 && Grown(order, h, 1, t, e, r, newPage) && Offered(order, h, newPage, r, ra)
    ensures |r| == 2 && r == [r[0], r[1]] && r[0].page == t.page && r[1].page == newPage && RepAll([r[0]], order) && RepSplit(r[1], order)
    ensures DistinctAll([r[0], r[1]]) && newPage !in PagesIn([r[0]]) && (r[1].Node? ==> newPage !in PagesIn(r[1].kids))
    ensures newPage.isLeaf == r[1].Leaf? && (r[1].Leaf? ==> Rep(r[1], order))
    ensures if newPage.isLeaf then |newPage.keys| == order && Heads(newPage.keys[0], Flat(r[1])) else Heads(ra.key1, Flat(r[1]))
    ensures WF(r[0], order, h, order / 2) && WF(r[1], order, h, order / 2) && Inserted(Flat(t), e, FlatAll(r))
  {
    assert r == [r[0], r[1]];
    assert r[1].page in Pages(r[1]) && Pages(r[0]) !! Pages(r[1]) && Distinct(r[1]);
    PagesOfTwo(r[0], r[0]);
  }

  lemma RootReady(order: nat, t1: Tree, h: nat, l: Tree, n: Tree, newKey: Key, es: seq<Entry>, e: Entry)
    requires order >= 4 && t1.Node? && t1.keys == [newKey] && t1.kids == [l, n] && Rep(t1, order) && Distinct(t1)
    requires WF(l, order, h, order / 2) && WF(n, order, h, order / 2) && Heads(newKey, Flat(n)) && Inserted(es, e, FlatAll([l, n]))
    requires Linked(null, [] + LeavesAll([l, n]) + [], null)
    ensures Ready(order, t1, h + 1, 1, [], []) && Inserted(es, e, Flat(t1)) && Leaves(t1) == LeavesAll([l, n])
    ensures Sizes(t1) == SizesAll([l, n])
  {
    assert Run([newKey], [l, n], order, h + 1);
    assert WF(t1, order, h + 1, 1);
    LeavesNoDup(t1);
    assert [] + Leaves(t1) + [] == Leaves(t1);
  }

  /** The root splits: its two halves go under a new root. */
  method GrowRoot(order: nat, root: Page, newPage: Page, ra: ReturnAction, ghost t: Tree, ghost h: nat,
          ghost e: Entry, ghost r: seq<Tree>, ghost own: set<Page>)
    returns (newRoot: Page, ghost t1: Tree)
    requires order >= 4 && t.page == root && Grown(order, h, 1, t, e, r, newPage) && Offered(order, h, newPage, r, ra)
    requires own == PagesIn(r) && Linked(null, [] + LeavesAll(r) + [], null)
    modifies newPage`size
    ensures fresh(newRoot) && t1.page == newRoot && Ready(order, t1, h + 1, 1, [], [])
    ensures Inserted(Flat(t), e, Flat(t1)) && Leaves(t1) == LeavesAll(r) && Sizes(t1) == SizesAll(r)
    ensures Pages(t1) == {newRoot} + own
  {
    hide *;
    RootSplit(order, e, t, h, newPage, ra, r);
    ghost var chain := [] + LeavesAll(r) + [];
    var newKey;
    if !newPage.isLeaf {
      newKey := ra.key1;
      DropAtRoot(order, newPage, r[0], r[1], PagesIn([r[0]]), PagesIn(r[1].kids), chain);
    } else {
      newKey := newPage.keys[0];
      PairRep(order, r[0], r[1]);
    }
    newRoot, t1 := NewRoot(order, newKey, root, newPage, r[0], r[1], own, chain);
    RootReady(order, t1, h, r[0], r[1], newKey, Flat(t), e);
  }

  /** Insertion below the root, and growth if the root splits. */
  method InsertRoot(order: nat, key: Key, data: Data, root: Page, ghost t: Tree, ghost h: nat, ghost own: set<Page>)
    returns (root1: Page, success: bool, ghost t1: Tree, ghost h1: nat)
    requires t.page == root && Ready(order, t, h, 1, [], []) && own == Pages(t)
    modifies own
    ensures success <==> !HasKey(Flat(t), key) || Hazard(t, key, order)
    ensures !HasKey(Flat(t), key) ==>
      && root1 == t1.page && Ready(order, t1, h1, 1, [], []) && Inserted(Flat(t), Entry(key, data), Flat(t1)) && SameHead(Leaves(t1), Leaves(t))
      && fresh(Pages(t1) - own) && |Leaves(t1)| == |Leaves(t)| + NewLeaves(t, key, order)
    ensures HasKey(Flat(t), key) && success ==>
      root1 == root && TookAgain(order, t, Entry(key, data), t1) && Linked(null, [] + Leaves(t1) + [], null)
    ensures success ==> Sizes(t1) == SizesAfter(t, key, order)
    ensures !success ==> unchanged(own) && root1 == root
  {
    hide *;
    ghost var e := Entry(key, data);
    ghost var chain := [] + Leaves(t) + [];
    var ra := ReturnAction(NoAction, 0, 0);
    var newPage;
    ghost var r;
    HeadIs([]);
    RootOrder(order, t, h);
    newPage, ra, success, r := InsertBranchDown(order, key, data, root, ra, t, h, 1, [], [], own, chain);
    root1, t1, h1 := root, t, h;
    RootOutcome(order, e, t, h, newPage, ra, success, r);
    if newPage != null {
      label Split:
      root1, t1 := GrowRoot(order, root, newPage, ra, t, h, e, r, PagesIn(r));
      h1 := h + 1;
      assert !old@Split(allocated(root1));
    } else if success {
      t1 := r[0];
      OneTree(r);
      if !HasKey(Flat(t), key) {
        RootWhole(order, e, t, h, r);
      }
    }
  }

  lemma OneTree(r: seq<Tree>)
    requires |r| == 1
    ensures LeavesAll(r) == Leaves(r[0]) && SizesAll(r) == Sizes(r[0])
  {
    hide *;
    assert r == [r[0]];
    FlatAllTwo(r[0], r[0]);
    SizesOf(r[0]);
  }

  lemma RootOrder(order: nat, t: Tree, h: nat)
    requires Ready(order, t, h, 1, [], [])
    ensures order >= 4
  {
  }

  lemma RootOutcome(order: nat, e: Entry, t: Tree, h: nat, newPage: Page?, ra: ReturnAction, success: bool, r: seq<Tree>)
    requires Outcome(order, e, t, h, 1, [], [], newPage, ra, success, r)
    ensures success <==> !HasKey(Flat(t), e.key) || Hazard(t, e.key, order)
    ensures HasKey(Flat(t), e.key) ==> newPage == null
    ensures !HasKey(Flat(t), e.key) ==>
      && Grown(order, h, 1, t, e, r, newPage) && Linked(null, [] + LeavesAll(r) + [], null) && SameHead(LeavesAll(r), Leaves(t))
      && |r| > 0 && |LeavesAll(r)| == |Leaves(t)| + NewLeaves(t, e.key, order)
    ensures HasKey(Flat(t), e.key) && success ==> |r| == 1 && TookAgain(order, t, e, r[0]) && Linked(null, [] + LeavesAll(r) + [], null)
    ensures success ==> SizesAll(r) == SizesAfter(t, e.key, order) && (newPage == null ==> |r| == 1)
    ensures newPage != null ==> newPage in PagesIn(r) && Offered(order, h, newPage, r, ra)
  {
    hide SizesAll, SizesAfter;
  }

  lemma RootWhole(order: nat, e: Entry, t: Tree, h: nat, r: seq<Tree>)
    requires order >= 4 && |r| > 0 && Grown(order, h, 1, t, e, r, null) && Linked(null, [] + LeavesAll(r) + [], null)
    ensures r[0].page == t.page && Ready(order, r[0], h, 1, [], []) && Inserted(Flat(t), e, Flat(r[0])) && Leaves(r[0]) == LeavesAll(r)
    ensures Pages(r[0]) == PagesIn(r)
  {
    var k := r[0];
    assert r == [k] && [] + Leaves(k) + [] == Leaves(k);
    FlatAllTwo(k, k);
    PagesOfTwo(k, k);
    assert Distinct(k);
    LeavesNoDup(k);
  }

  // ---------------------------------------------------------------- deletion at the root

  lemma WFLower(t: Tree, M: int, h: nat, lo: int, lo1: int)
    requires WF(t, M, h, lo) && lo1 <= lo
    ensures WF(t, M, h, lo1)
  {
  }

  /** The root is a leaf: its entry is taken out in place. */
  method DeleteFromLeafRoot(order: nat, key: Key, root: Page, out0: Data, ghost t: Tree, ghost chain: seq<Page>)
    returns (found: bool, out: Data, ghost t1: Tree)
    requires t.page == root && t.Leaf? && Ready(order, t, 0, 1, [], []) && chain == [] + Leaves(t) + []
    modifies root`keys, root`data, root`children, root`size
    ensures found <==> HasKey(Flat(t), key)
    ensures !found ==> unchanged(root) && out == out0
    ensures found ==> t1.page == root && t1.Leaf? && Removed(Flat(t), Entry(key, out), Flat(t1)) && root.size == Count(t1) && Leaves(t1) == Leaves(t)
    ensures found && root.size > 0 ==> Ready(order, t1, 0, 1, [], [])
    ensures found ==> Sizes(t1) == [Count(t) - 1] && Count(t1) == Count(t) - 1
  {
    hide *;
    ReadyPage(order, t, 0, 1, [], []);
    LeafRootReady(order, t);
    out, t1 := out0, t;
    var childIndex;
    found, childIndex := GetIndexOf(order, key, root);
    LeafSearched(order, t, key, found, childIndex);
    if found {
      out := root.data[childIndex];
      t1 := DeleteEntryAlone(order, childIndex, root, t, chain);
      LeafRootDone(order, t, childIndex, t1, Entry(key, out));
    }
  }

  method DeleteEntryAlone(order: nat, i: int, root: Page, ghost t: Tree, ghost chain: seq<Page>) returns (ghost t1: Tree)
    requires t.Leaf? && t.page == root && Stored(t, order, Count(t)) && 0 <= i < Count(t) && Linked(null, chain, null)
    modifies root`keys, root`data, root`children, root`size
    ensures t1 == Leaf(root, RemoveAt(t.entries, i)) && Stored(t1, order, Count(t) - 1) && Linked(null, chain, null)
  {
    hide *;
    t1 := DeleteEntry(order, i, root, t);
  }

  lemma LeafRootReady(order: nat, t: Tree)
    requires t.Leaf? && Ready(order, t, 0, 1, [], [])
    ensures order >= 4 && WF(t, order, 0, 1) && Sorted(t.entries) && Linked(null, [] + Leaves(t) + [], null)
  {
  }

  lemma LeafRootDone(order: nat, t: Tree, i: nat, t1: Tree, e: Entry)
    requires order >= 4 && t.Leaf? && WF(t, order, 0, 1) && Sorted(t.entries) && i < Count(t) && t.entries[i] == e
    requires t1 == Leaf(t.page, RemoveAt(t.entries, i)) && Stored(t1, order, Count(t) - 1) && Linked(null, [] + Leaves(t) + [], null)
    ensures t1.Leaf? && Removed(Flat(t), e, Flat(t1)) && t.page.size == Count(t1) && Leaves(t1) == Leaves(t)
    ensures Sizes(t1) == [Count(t) - 1] && Count(t1) == Count(t) - 1
    ensures t.page.size > 0 ==> Ready(order, t1, 0, 1, [], [])
  {
    RemovedSorted(t.entries, i);
    LeafPages(t1);
    LeavesNoDup(t1);
    assert [] + Leaves(t1) + [] == Leaves(t1);
  }

  /** The root is an index page: delete below it, and move the root down when only one child is left. */
  method DeleteBelowRoot(order: nat, key: Key, root: Page, leftmostLeaf: Page, out0: Data, ghost t: Tree,
          ghost h: nat, ghost own: set<Page>)
    returns (found: bool, out: Data, root1: Page, leftmost1: Page?, ghost t1: Tree, ghost h1: nat)
    requires t.page == root && h > 0 && Ready(order, t, h, 1, [], []) && own == Pages(t) && First(Leaves(t), null) == leftmostLeaf
    modifies own
    ensures found <==> HasKey(Flat(t), key)
    ensures !found ==> unchanged(own) && out == out0 && root1 == root
    ensures found ==>
      && root1 == t1.page && Ready(order, t1, h1, 1, [], []) && Removed(Flat(t), Entry(key, out), Flat(t1)) && SameHead(Leaves(t1), Leaves(t))
      && Pages(t1) <= own && Sizes(t1) == SizesWithout(t, key, order)
    ensures leftmost1 == leftmostLeaf
  {
    hide *;
    ghost var chain := [] + Leaves(t) + [];
    ReadyPage(order, t, h, 1, [], []);
    FirstLeaf(order, t, h, leftmostLeaf);
    HeadIs([]);
    var underflow, ra;
    ghost var t0;
    found, underflow, ra, leftmost1, out, t0 := FindDeleteRebalance(order, key, root, root.keys[0], ReturnAction(NoAction, 0, 0), leftmostLeaf, out0,
                                                                    t, h, 1, [], [], own, chain);
    root1, t1, h1 := root, t0, h;
    if found {
      RootShrunk(order, Entry(key, out), t, h, t0, underflow);
      if underflow && root.size == 0 {
        RootFolded(order, Entry(key, out), t, h, t0);
        root1, t1, h1 := root.children[0], t0.kids[0], h - 1;
      } else {
        RootKept(order, Entry(key, out), t, h, t0, underflow);
      }
    }
  }

  lemma FirstLeaf(order: nat, t: Tree, h: nat, leftmostLeaf: Page)
    requires Ready(order, t, h, 1, [], []) && First(Leaves(t), null) == leftmostLeaf
    ensures leftmostLeaf.isLeaf && ([] + Leaves(t) + []) != []
    ensures ([] + Leaves(t) + [])[0] == leftmostLeaf && 1 <= Count(t) <= order && Sorted(Flat(t))
    ensures |t.page.keys| == order >= 4
  {
    WFNonEmpty(t, order, h, 1);
    LeavesAreLeaves(t, order);
    StoredLive(t, order);
  }

  lemma {:induction false} LeavesAreLeaves(t: Tree, order: nat)
    requires Rep(t, order)
    ensures forall p :: p in Leaves(t) ==> p.isLeaf
    decreases t
  {
    if t.Node? {
      LeavesAreLeavesAll(t.kids, order);
    }
  }

  lemma {:induction false} LeavesAreLeavesAll(ts: seq<Tree>, order: nat)
    requires RepAll(ts, order)
    ensures forall p :: p in LeavesAll(ts) ==> p.isLeaf
    decreases ts
  {
    if ts != [] {
      LeavesAreLeaves(ts[0], order);
      LeavesAreLeavesAll(ts[1..], order);
    }
  }

  lemma RootShrunk(order: nat, e: Entry, t: Tree, h: nat, t0: Tree, underflow: bool)
    requires Shrunk(order, e, t, h, [], [], t0, underflow) && h > 0
    ensures Count(t0) == |t0.keys| && t0.page == t.page && t0.Node? && |t0.kids| == |t0.keys| + 1
    ensures t.page.size == |t0.keys| && |t.page.children| == order + 1
    ensures t.page.children[0] == t0.kids[0].page
    ensures Removed(Flat(t), e, Flat(t0)) && SameHead(Leaves(t0), Leaves(t)) && Pages(t0) <= Pages(t)
  {
    TopFields(t0, order);
    ChildPages(t0, order);
  }

  lemma RootKept(order: nat, e: Entry, t: Tree, h: nat, t0: Tree, underflow: bool)
    requires order >= 4 && h > 0 && Shrunk(order, e, t, h, [], [], t0, underflow) && Sorted(Flat(t)) && 1 <= Count(t) <= order
    requires underflow ==> Count(t0) > 0
    ensures Ready(order, t0, h, 1, [], [])
  {
    RemovedIsInserted(Flat(t), e, Flat(t0));
    LooseWF(t0, order, h, 1);
  }

  lemma RootFolded(order: nat, e: Entry, t: Tree, h: nat, t0: Tree)
    requires order >= 4 && h > 0 && Shrunk(order, e, t, h, [], [], t0, true) && Sorted(Flat(t))
    requires t0.Node? && |t0.kids| == 1 && t0.keys == []
    ensures var k := t0.kids[0]; Ready(order, k, h - 1, 1, [], []) && Flat(k) == Flat(t0) && Leaves(k) == Leaves(t0) && Pages(k) <= Pages(t0)
    ensures Sizes(t0.kids[0]) == Sizes(t0)
  {
    var k := t0.kids[0];
    SizesOf(k);
    SizesOf(t0);
    hide Sizes, SizesAll;
    assert t0.kids == [k];
    FlatAllTwo(k, k);
    RemovedIsInserted(Flat(t), e, Flat(t0));
    FoldedParts(order, h, t0, k);
    assert Linked(null, [] + Leaves(t0) + [], null) && NoDup([] + Leaves(t0) + []);
  }

  lemma FoldedParts(order: nat, h: nat, t0: Tree, k: Tree)
    requires order >= 4 && h > 0 && t0.Node? && t0.kids == [k] && Loose(t0, order, h) && Rep(t0, order) && Distinct(t0)
    ensures WF(k, order, h - 1, 1) && Rep(k, order) && Distinct(k) && Pages(k) <= Pages(t0)
  {
    assert t0.kids[0] == k;
    WFLower(k, order, h - 1, order / 2, 1);
    PagesOfTwo(k, k);
  }

  // ---------------------------------------------------------------- the first key, and the tree itself

  /** A first page: a root that is a leaf with one key. */
  method FirstPage(order: nat, key: Key, data: Data) returns (root: Page, ghost t: Tree)
    requires order >= 4
    ensures fresh(root) && t == Leaf(root, [Entry(key, data)]) && Ready(order, t, 0, 1, [], []) && Pages(t) == {root}
  {
    root := new Page(order);
    root.isLeaf := true;
    root.size := 1;
    root.keys := root.keys[0 := key];
    root.data := root.data[0 := data];
    root.next := null;
    root.previous := null;
    t := Leaf(root, [Entry(key, data)]);
    assert KeysOf(t.entries) == root.keys[..1] && DataOf(t.entries) == root.data[..1];
    assert [] + Leaves(t) + [] == [root];
  }

  /** Keys counted along the chain from the first leaf. */
  method CountChain(order: nat, first: Page, ghost t: Tree, ghost ls: seq<Page>) returns (count: int)
    requires Rep(t, order) && Linked(null, Leaves(t), null) && ls == Leaves(t) && First(ls, null) == first
    ensures count == |Flat(t)|
  {
    hide *;
    TotalFlat(t, order);
    count := 0;
    var cur: Page? := first;
    ghost var i := 0;
    SplitAt(ls, 0);
    while cur != null
      invariant 0 <= i <= |ls| && cur == First(ls[i..], null) && count == Total(ls[..i])
      decreases |ls| - i
    {
      FirstAt(ls, i);
      ChainStep(ls, i);
      count := count + cur.size;
      cur := cur.next;
      i := i + 1;
    }
    FirstAt(ls, i);
    SplitAt(ls, |ls|);
  }

  lemma SplitAt(ls: seq<Page>, i: nat)
    requires i <= |ls|
    ensures i == 0 ==> ls[i..] == ls && Total(ls[..i]) == 0
    ensures i == |ls| ==> ls[..i] == ls
  {
  }

  lemma FirstAt(ls: seq<Page>, i: nat)
    requires i <= |ls|
    ensures if i < |ls| then First(ls[i..], null) == ls[i] else First(ls[i..], null) == null
  {
  }

  datatype Shape = Empty | Full(top: Tree, height: nat)

  class BPlusTree {
    const order: nat
    var root: Page?
    var leftmostLeaf: Page?
    ghost var shape: Shape

    /** Every page of the tree. */
    ghost var repr: set<Page>

    /** All leaves at one depth, every page but the root at least half full, keys in order, each
        separator the smallest key to its right, and the leaves linked both ways from `leftmostLeaf`. */
    ghost predicate Valid()
      reads this, repr
    {
      && order >= 4
      && match shape
         case Empty => root == null && leftmostLeaf == null && repr == {}
         case Full(t, h) =>
           && root == t.page && leftmostLeaf == First(Leaves(t), null)
           && repr == Pages(t) && (forall p :: p in [] + Leaves(t) + [] ==> p in repr)
           && Ready(order, t, h, 1, [], [])
    }

    /** The pages hold `shape`, and the leaves are linked; nothing is said about the order of the keys. */
    ghost predicate Stands()
      reads this, repr
    {
      && order >= 4
      && match shape
         case Empty => root == null && leftmostLeaf == null && repr == {}
         case Full(t, h) =>
           && root == t.page && leftmostLeaf == First(Leaves(t), null) && leftmostLeaf != null
           && repr == Pages(t) && (forall p :: p in Leaves(t) ==> p in repr)
           && Rep(t, order) && Distinct(t) && Linked(null, Leaves(t), null)
    }

    lemma ValidStands()
      requires Valid()
      ensures Stands() && Contents() == BPlusShape.Contents(Entries()) && Sorted(Entries())
    {
      if shape.Full? {
        assert [] + Leaves(shape.top) + [] == Leaves(shape.top);
        WFNonEmpty(shape.top, order, shape.height, 1);
      }
    }

    lemma CloseAgain(t: Tree, e: BPlusShape.Entry, t1: Tree, h: nat)
      requires order >= 4 && shape == Full(t1, h) && root == t.page && TookAgain(order, t, e, t1) && Leaves(t) != []
      requires leftmostLeaf == First(Leaves(t), null) && repr == Pages(t) && Linked(null, [] + Leaves(t1) + [], null)
      ensures Stands() && Doubled(Flat(t), e, Entries())
    {
      assert [] + Leaves(t1) + [] == Leaves(t1);
      LeavesInPages(t1);
    }

    /** The entries from the leftmost leaf to the rightmost. */
    ghost function Entries(): seq<BPlusShape.Entry>
      reads this
    {
      if shape.Empty? then [] else Flat(shape.top)
    }

    ghost function LeafCount(): nat
      reads this
    {
      if shape.Empty? then 0 else |Leaves(shape.top)|
    }

    /** How many entries each leaf holds, from left to right. */
    ghost function LeafSizes(): seq<int>
      reads this
    {
      if shape.Empty? then [] else Sizes(shape.top)
    }

    /** The leaves that insertion of an absent key adds. */
    ghost function LeavesAdded(key: Key): nat
      reads this
    {
      if shape.Empty? then 1 else NewLeaves(shape.top, key, order)
    }

    /** The facts `Valid` stands for when the tree is not empty. */
    lemma Open(key: Key)
      requires Valid() && root != null
      ensures shape.Full? && order >= 4
      ensures var t, h := shape.top, shape.height;
        && root == t.page && Ready(order, t, h, 1, [], []) && repr == Pages(t) && root in repr
        && leftmostLeaf == First(Leaves(t), null) && leftmostLeaf != null && (t.Leaf? <==> h == 0)
        && (root == leftmostLeaf <==> t.Leaf?)
        && Contents() == BPlusShape.Contents(Flat(t)) && Sorted(Flat(t)) && Leaves(t) != []
        && (HasKey(Flat(t), key) <==> key in Contents()) && (Overlooked(key) <==> Hazard(t, key, order))
        && Entries() == Flat(t) && LeafCount() == |Leaves(t)| && LeavesAdded(key) == NewLeaves(t, key, order)
    {
      ReadyContents(order, shape.top, shape.height, key);
    }

    lemma Close(t: Tree, h: nat)
      requires order >= 4 && shape == Full(t, h) && root == t.page && Ready(order, t, h, 1, [], [])
      requires leftmostLeaf == First(Leaves(t), null) && repr == Pages(t)
      ensures Valid() && Contents() == BPlusShape.Contents(Flat(t)) && LeafCount() == |Leaves(t)|
    {
      LeavesInPages(t);
    }

    lemma CloseEmpty()
      requires order >= 4 && shape == Empty && root == null && leftmostLeaf == null && repr == {}
      ensures Valid() && Contents() == map[]
    {
    }

    lemma OpenEmpty(key: Key)
      requires Valid() && root == null
      ensures shape.Empty? && order >= 4 && Contents() == map[] && repr == {} && !Overlooked(key) && LeafCount() == 0 && LeavesAdded(key) == 1
    {
    }

    ghost function Contents(): map<Key, Data>
      reads this
    {
      if shape.Empty? then map[] else BPlusShape.Contents(Flat(shape.top))
    }

    /** `key` sits in a full leaf that insertion rotates without looking for it. */
    ghost predicate Overlooked(key: Key)
      reads this
    {
      shape.Full? && Hazard(shape.top, key, order)
    }

    constructor (order: nat)
      requires order >= 4
      ensures Valid() && Contents() == map[] && repr == {} && this.order == order
    {
      this.order := order;
      root, leftmostLeaf, shape, repr := null, null, Empty, {};
    }

    method IsEmpty() returns (empty: bool)
      requires Valid()
      ensures empty <==> Contents() == map[]
    {
      empty := root == null;
      if !empty {
        NonEmptyContents(order, shape.top, shape.height);
      }
    }

    method Get(key: Key, out0: Data) returns (found: bool, out: Data)
      requires Valid()
      ensures found <==> key in Contents()
      ensures out == if found then Contents()[key] else out0
    {
      found, out := false, out0;
      if root != null {
        found, out := GetBelow(order, key, root, out0, shape.top, shape.height);
      }
    }

    method Size() returns (count: int)
      requires Stands()
      ensures count == |Entries()|
      ensures Valid() ==> count == |Contents()|
    {
      count := 0;
      if Valid() {
        ValidStands();
        ContentsModels(Entries());
      }
      if leftmostLeaf != null {
        count := CountChain(order, leftmostLeaf, shape.top, Leaves(shape.top));
      }
    }

    /** What the leaf in which a search ends, and its neighbours under the same node, decide. */
    lemma SearchEnds(key: Key)
      requires Valid() && shape.Full?
      ensures shape.top.Node? ==>
        var p := Bottom(shape.top, key);
        var b := Child(p.keys, key);
        && b < |p.kids| == |p.keys| + 1 && (forall i :: 0 <= i < |p.kids| ==> p.kids[i].Leaf?)
        && (key in Contents() <==> HasKey(p.kids[b].entries, key))
        && var full, room := |p.kids[b].entries| == order,
                             (b > 0 && |p.kids[b - 1].entries| < order) || (b + 1 < |p.kids| && |p.kids[b + 1].entries| < order);
           && (key !in Contents() ==> LeavesAdded(key) == if full && !room then 1 else 0)
           && (key in Contents() ==> (Overlooked(key) <==> full && room && !(b > 0 && p.keys[b - 1] == key)))
      ensures shape.top.Leaf? ==> LeafCount() == 1 && !Overlooked(key) && LeavesAdded(key) == if |Contents()| == order then 1 else 0
    {
      hide *;
      ghost var t, h := shape.top, shape.height;
      RootStands();
      Open(key);
      ReadyWF(order, t, h);
      EntriesCount(Flat(t));
      if t.Node? {
        BottomShape(t, order, h, 1, key);
        BottomRule(t, order, h, 1, key);
        LeafCounts(Bottom(t, key).kids);
      } else {
        LeafRule(t, key, order);
        LeafIs(t, order);
        OneLeaf(t);
      }
    }

    /** How full the leaves are once the key was taken in: at most two of them change, and they stand side by side under one node. */
    lemma SizesEnd(key: Key)
      requires Valid() && shape.Full?
      ensures shape.top.Node? ==>
        var t := shape.top;
        var p := Bottom(t, key);
        var b := Child(p.keys, key);
        && b < |p.kids| == |p.keys| + 1 && (forall i :: 0 <= i < |p.kids| ==> p.kids[i].Leaf?)
        && LeafSizes() == SizesLeft(t, key) + SizesAll(p.kids) + SizesRight(t, key)
        && var es, apart := p.kids[b].entries, !(b > 0 && p.keys[b - 1] == key);
           SizesAfter(t, key, order) == SizesLeft(t, key)
             + (if |es| == order && apart && b > 0 && |p.kids[b - 1].entries| < order then
                  SizesAll(p.kids[..b - 1]) + [|p.kids[b - 1].entries| + 1, order] + SizesAll(p.kids[b + 1..])
                else if |es| == order && apart && b + 1 < |p.kids| && |p.kids[b + 1].entries| < order then
                  SizesAll(p.kids[..b]) + [order, |p.kids[b + 1].entries| + 1] + SizesAll(p.kids[b + 2..])
                else SizesAll(p.kids[..b]) + LeafSizesAfter(es, key, order) + SizesAll(p.kids[b + 1..]))
             + SizesRight(t, key)
      ensures shape.top.Leaf? ==> SizesAfter(shape.top, key, order) == LeafSizesAfter(shape.top.entries, key, order)
    {
      hide *;
      ghost var t, h := shape.top, shape.height;
      RootStands();
      Open(key);
      ReadyWF(order, t, h);
      SizesAfterIs(t, key, order);
      LeafSizesIs();
      if t.Node? {
        BottomShape(t, order, h, 1, key);
        SizesRule(t, order, h, 1, key);
        LeafCounts(Bottom(t, key).kids);
        ghost var p, b := Bottom(t, key), Child(Bottom(t, key).keys, key);
        SizesUnderAre(p, b, key, order);
      }
    }

    /** How full the leaves are once the key was taken out: only leaves under one node change, the leaf that held the key and the one
        it borrows from or merges with. */
    lemma SizesGone(key: Key)
      requires Valid() && shape.Full?
      ensures shape.top.Node? ==>
        var t := shape.top;
        var p := Bottom(t, key);
        var b := Child(p.keys, key);
        && b < |p.kids| && (forall i :: 0 <= i < |p.kids| ==> p.kids[i].Leaf?)
        && (key in Contents() <==> HasKey(p.kids[b].entries, key))
        && LeafSizes() == SizesLeft(t, key) + Counts(p.kids) + SizesRight(t, key)
        && |Counts(p.kids)| == |p.kids|
        && SizesWithout(t, key, order) ==
             SizesLeft(t, key) + Evened(Counts(p.kids)[b := |p.kids[b].entries| - 1], b, order) + SizesRight(t, key)
      ensures shape.top.Leaf? ==> SizesWithout(shape.top, key, order) == [|shape.top.entries| - 1]
    {
      hide *;
      ghost var t, h := shape.top, shape.height;
      RootStands();
      Open(key);
      ReadyWF(order, t, h);
      SizesWithoutIs(t, key, order);
      LeafSizesIs();
      LeafCounts([t]);
      if t.Node? {
        BottomShape(t, order, h, 1, key);
        SizesRule(t, order, h, 1, key);
        SizesWithoutRule(t, order, h, 1, key);
        ghost var p, b := Bottom(t, key), Child(Bottom(t, key).keys, key);
        SizesOfLeaves(p.kids);
        LeafCounts(p.kids);
        CountsAre(p.kids);
      } else {
        assert [t][0].Leaf?;
      }
    }

    lemma LeafSizesIs()
      ensures shape.Full? ==> LeafSizes() == Sizes(shape.top)
      ensures shape.Empty? ==> LeafSizes() == []
    {
    }

    lemma RootStands()
      requires Valid() && shape.Full?
      ensures root != null
    {
    }

    /** Insertion meets its promise for every key that is absent.  A key that is present is refused unless it is overlooked,
        and then the call reports success and puts a second entry beside the one that is there. */
    method Insert(key: Key, data: Data) returns (success: bool)
      requires Valid()
      modifies this, repr
      ensures success <==> key !in old(Contents()) || old(Overlooked(key))
      ensures key !in old(Contents()) ==> Valid() && Contents() == old(Contents())[key := data] && fresh(repr - old(repr))
      ensures key !in old(Contents()) ==> LeafCount() == old(LeafCount()) + old(LeavesAdded(key))
      ensures old(shape.Full? && shape.top.Node?) ==>
        var p := Bottom(old(shape.top), key);
        var b := Child(p.keys, key);
        && b < |p.kids| == |p.keys| + 1 && (forall i :: 0 <= i < |p.kids| ==> p.kids[i].Leaf?)
        && (key in old(Contents()) <==> HasKey(p.kids[b].entries, key))
        && var full, room := |p.kids[b].entries| == order,
                             (b > 0 && |p.kids[b - 1].entries| < order) || (b + 1 < |p.kids| && |p.kids[b + 1].entries| < order);
           && (key !in old(Contents()) ==> LeafCount() == old(LeafCount()) + if full && !room then 1 else 0)
           && (key in old(Contents()) ==> (success <==> full && room && !(b > 0 && p.keys[b - 1] == key)))
      ensures old(shape.Empty?) ==> LeafCount() == 1
      ensures old(shape.Full? && shape.top.Leaf?) ==>
        if key in old(Contents()) then !success else LeafCount() == if |old(Contents())| == order then 2 else 1
      ensures success ==> LeafSizes() == if old(shape.Empty?) then [1] else SizesAfter(old(shape.top), key, order)
      ensures success && key in old(Contents()) ==> Stands() && repr == old(repr) && Doubled(old(Entries()), BPlusShape.Entry(key, data), Entries())
      ensures !success ==> unchanged(this) && unchanged(old(repr)) && Valid() && Contents() == old(Contents())
    {
      hide *;
      if root == null {
        OpenEmpty(key);
        ghost var t;
        root, t := FirstPage(order, key, data);
        leftmostLeaf, shape, repr := root, Full(t, 0), Pages(t);
        OneEntry(root, Entry(key, data));
        LeafSizesIs();
        SizesOf(t);
        Close(t, 0);
        success := true;
      } else {
        Open(key);
        ghost var t, h := shape.top, shape.height;
        ghost var t1, h1;
        var root1;
        SearchEnds(key);
        root1, success, t1, h1 := InsertRoot(order, key, data, root, t, h, repr);
        if success {
          root := root1;
          shape, repr := Full(t1, h1), Pages(t1);
          LeafSizesIs();
        }
        if !HasKey(Flat(t), key) {
          InsertedContents(Flat(t), Entry(key, data), Flat(t1));
          SameFirstLeaf(Leaves(t), Leaves(t1));
          Close(t1, h1);
        } else if success {
          AgainParts(order, t, Entry(key, data), t1);
          CloseAgain(t, Entry(key, data), t1, h1);
        }
      }
    }

    /** Deletion takes the key out and hands back its datum exactly when the key was present. */
    method Delete(key: Key, out0: Data) returns (found: bool, out: Data)
      requires Valid()
      modifies this, repr
      ensures Valid() && repr <= old(repr)
      ensures found <==> key in old(Contents())
      ensures out == if found then old(Contents())[key] else out0
      ensures Contents() == old(Contents()) - {key}
      ensures found ==> old(shape.Full?)
      ensures found ==>
        LeafSizes() == if old(shape.top.Leaf?) && |old(Contents())| == 1 then [] else SizesWithout(old(shape.top), key, order)
      ensures !found ==> unchanged(this) && unchanged(old(repr))
    {
      hide *;
      found, out := false, out0;
      if root == null {
        OpenEmpty(key);
      } else {
        Open(key);
        ghost var t, h := shape.top, shape.height;
        ghost var t1, h1 := t, h;
        if root == leftmostLeaf {
          found, out, t1 := DeleteFromLeafRoot(order, key, root, out0, t, [] + Leaves(t) + []);
          if found {
            RemovedContents(Flat(t), Entry(key, out), Flat(t1));
            SizesWithoutIs(t, key, order);
            EntriesCount(Flat(t));
            LeafIs(t, order);
            if root.size == 0 {
              LastEntry(t1);
              root, leftmostLeaf := null, null;
              shape, repr := Empty, {};
              LeafSizesIs();
              CloseEmpty();
            } else {
              shape, repr := Full(t1, 0), Pages(t1);
              LeafSizesIs();
              LeafPages(t);
              LeafPages(t1);
              Close(t1, 0);
            }
          }
        } else {
          var root1, leftmost1;
          found, out, root1, leftmost1, t1, h1 := DeleteBelowRoot(order, key, root, leftmostLeaf, out0, t, h, repr);
          if found {
            root, leftmostLeaf := root1, leftmost1;
            shape, repr := Full(t1, h1), Pages(t1);
            LeafSizesIs();
            RemovedContents(Flat(t), Entry(key, out), Flat(t1));
            SameFirstLeaf(Leaves(t), Leaves(t1));
            Close(t1, h1);
          }
        }
      }
    }
  }

  lemma ReadyWF(order: nat, t: Tree, h: nat)
    requires Ready(order, t, h, 1, [], [])
    ensures order >= 4 && WF(t, order, h, 1) && Sorted(Flat(t)) && (t.Node? <==> h > 0)
  {
  }

  lemma EntriesCount(es: seq<Entry>)
    requires Sorted(es)
    ensures |BPlusShape.Contents(es)| == |es|
  {
    ContentsModels(es);
  }

  lemma LeafCounts(ts: seq<Tree>)
    ensures forall i :: 0 <= i < |ts| && ts[i].Leaf? ==> Count(ts[i]) == |ts[i].entries|
  {
  }

  /** A leaf that does not split grows by one; a full leaf splits into halves, the new entry in the one its key sorts into. */
  lemma SplitSizes(es: seq<Entry>, key: Key, order: nat)
    requires order >= 4
    ensures LeafSizesAfter(es, key, order) ==
      if |es| < order then [|es| + 1]
      else if key < es[(order + 1) / 2 - 1].key then [(order + 1) / 2, order + 1 - (order + 1) / 2]
      else [order / 2, order + 1 - order / 2]
  {
  }

  lemma OneLeaf(t: Tree)
    requires t.Leaf?
    ensures |Leaves(t)| == 1
  {
  }

  lemma SameFirstLeaf(a: seq<Page>, b: seq<Page>)
    requires SameHead(b, a)
    ensures First(a, null) == First(b, null)
  {
  }

  lemma LastEntry(t: Tree)
    requires t.Leaf? && Count(t) == 0
    ensures BPlusShape.Contents(Flat(t)) == map[]
  {
  }

  lemma OneEntry(page: Page, e: Entry)
    ensures BPlusShape.Contents(Flat(Leaf(page, [e]))) == map[][e.key := e.data] && First(Leaves(Leaf(page, [e])), null) == page
    ensures |Leaves(Leaf(page, [e]))| == 1
  {
    assert [e][..0] == [];
  }

  lemma ReadyContents(order: nat, t: Tree, h: nat, key: Key)
    requires Ready(order, t, h, 1, [], [])
    ensures Sorted(Flat(t)) && Leaves(t) != [] && (HasKey(Flat(t), key) <==> key in BPlusShape.Contents(Flat(t)))
    ensures forall p :: p in Leaves(t) ==> p in Pages(t)
    ensures t.page == Leaves(t)[0] <==> t.Leaf?
    ensures t.Leaf? <==> h == 0
  {
    WFNonEmpty(t, order, h, 1);
    ContentsModels(Flat(t));
    LeavesInPages(t);
    LeavesAreLeaves(t, order);
    StoredLive(t, order);
  }

  lemma ReadySorted(order: nat, t: Tree, h: nat)
    requires Ready(order, t, h, 1, [], [])
    ensures Sorted(Flat(t)) && Searched(order, t, h, 1) && Leaves(t) != []
  {
    WFNonEmpty(t, order, h, 1);
  }

  lemma NonEmptyContents(order: nat, t: Tree, h: nat)
    requires Ready(order, t, h, 1, [], [])
    ensures BPlusShape.Contents(Flat(t)) != map[]
  {
    WFNonEmpty(t, order, h, 1);
    ContentsModels(Flat(t));
  }

  method GetBelow(order: nat, key: Key, root: Page, out0: Data, ghost t: Tree, ghost h: nat) returns (found: bool, out: Data)
    requires t.page == root && Ready(order, t, h, 1, [], [])
    ensures found <==> key in BPlusShape.Contents(Flat(t))
    ensures out == if found then BPlusShape.Contents(Flat(t))[key] else out0
  {
    hide *;
    ReadySorted(order, t, h);
    var leaf;
    ghost var k;
    leaf, k := GetLeafFromKey(order, key, root, t, h);
    SearchPage(order, k, 0, if h == 0 then 1 else order / 2);
    var childIndex;
    found, childIndex := GetIndexOf(order, key, leaf);
    LeafSearched(order, k, key, found, childIndex);
    out := out0;
    if found {
      out := leaf.data[childIndex];
      FoundHolds(k, childIndex, key, out);
    }
    Looked(Flat(t), Flat(k), key, found, out);
  }

  lemma FoundHolds(k: Tree, i: nat, key: Key, d: Data)
    requires k.Leaf? && i < |k.entries| && k.entries[i] == Entry(key, d)
    ensures Holds(Flat(k), key, d)
  {
  }

  lemma Looked(es: seq<Entry>, leaf: seq<Entry>, key: Key, found: bool, out: Data)
    requires Sorted(es) && (found <==> HasKey(leaf, key)) && (found ==> Holds(leaf, key, out))
    requires forall d :: Holds(es, key, d) <==> Holds(leaf, key, d)
    ensures found <==> key in BPlusShape.Contents(es)
    ensures found ==> out == BPlusShape.Contents(es)[key]
  {
    HeldContents(es, key, out);
    if key in BPlusShape.Contents(es) {
      HeldContents(es, key, BPlusShape.Contents(es)[key]);
    }
  }

  // ---------------------------------------------------------------- a key that is overlooked

  /** Every node stands over two leaves or more. */
  lemma {:induction false} LeavesEnough(ts: seq<Tree>)
    requires forall i :: 0 <= i < |ts| ==> Leaves(ts[i]) != []
    ensures |LeavesAll(ts)| >= |ts|
  {
    if ts != [] {
      LeavesEnough(ts[1..]);
    }
  }

  lemma NodeLeaves(t: Tree, M: int, h: nat, lo: int)
    requires M >= 4 && lo >= 1 && WF(t, M, h, lo)
    ensures if t.Leaf? then |Leaves(t)| == 1 && Count(t) == |Flat(t)| else |Leaves(t)| >= |t.kids| >= 2
  {
    if t.Node? {
      RunNonEmpty(t.keys, t.kids, M, h);
      LeavesEnough(t.kids);
    }
  }

  /** A tree of two leaves is a node over the two. */
  lemma TwoLeaves(t: Tree, M: int, h: nat)
    requires M >= 4 && WF(t, M, h, 1) && |Leaves(t)| == 2
    ensures t.Node? && Bundled(t) && |t.keys| == 1 && |t.kids| == 2 && t.kids[0].Leaf? && t.kids[1].Leaf?
    ensures |Flat(t)| == Count(t.kids[0]) + Count(t.kids[1]) && Count(t.kids[0]) <= M && Count(t.kids[1]) <= M
  {
    NodeLeaves(t, M, h, 1);
    var a, b := t.kids[0], t.kids[1];
    assert WF(a, M, h - 1, M / 2) && WF(b, M, h - 1, M / 2);
    NodeLeaves(a, M, h - 1, M / 2);
    NodeLeaves(b, M, h - 1, M / 2);
    assert t.kids == [a, b];
    FlatAllTwo(a, b);
  }

  /** With two leaves a third is added only when both are full. */
  lemma TwoLeavesSplit(t: Tree, M: int, h: nat, key: Key)
    requires M >= 4 && WF(t, M, h, 1) && Sorted(Flat(t)) && |Leaves(t)| == 2 && |Flat(t)| < 2 * M && !HasKey(Flat(t), key)
    ensures NewLeaves(t, key, M) == 0
  {
    TwoLeaves(t, M, h);
    if Splits(t, key, M) {
      var b :| 0 <= b < |t.kids| && Branch(t.keys, key, b) && !Rotates(t, key, M, b) && Splits(t.kids[b], key, M);
      SeparatorIsKey(t, M, h, key, b);
    }
  }

  lemma SeparatorIsKey(t: Tree, M: int, h: nat, key: Key, b: nat)
    requires M >= 4 && t.Node? && h > 0 && WF(t, M, h, 1) && Sorted(Flat(t)) && Branch(t.keys, key, b) && !HasKey(Flat(t), key)
    ensures b > 0 ==> t.keys[b - 1] != key
  {
    if b > 0 && t.keys[b - 1] == key {
      SeparatorPresent(M, t, h, 1, b);
    }
  }

  /** Two leaves one short of full hold a key that insertion overlooks. */
  lemma NearlyFull(t: Tree, M: int, h: nat) returns (key: Key)
    requires M >= 4 && WF(t, M, h, 1) && Sorted(Flat(t)) && |Leaves(t)| == 2 && |Flat(t)| == 2 * M - 1
    ensures HasKey(Flat(t), key) && Hazard(t, key, M)
  {
    TwoLeaves(t, M, h);
    var b := if Count(t.kids[0]) == M then 0 else 1;
    var es := t.kids[b].entries;
    key := es[1].key;
    assert HasKey(es, key);
    RunIncreasing(t.keys, t.kids, M, h);
    SecondKey(t, M, h, b);
    BranchHasKey(t.keys, t.kids, M, h, key, b);
    assert Roomy(t, 1 - b, M) && Rotates(t, key, M, b);
    HazardAt(t, key, M, b);
  }

  /** The second key of a leaf lies above the separator before it and below the one after it. */
  lemma SecondKey(t: Tree, M: int, h: nat, b: nat)
    requires M >= 4 && t.Node? && h > 0 && WF(t, M, h, 1) && Sorted(Flat(t)) && |t.kids| == 2 && b < 2
    requires t.kids[0].Leaf? && t.kids[1].Leaf? && |t.kids[b].entries| > 1
    ensures Bundled(t) && Branch(t.keys, t.kids[b].entries[1].key, b) && (b == 1 ==> t.keys[0] != t.kids[b].entries[1].key)
  {
    var l, m := t.kids[0].entries, t.kids[1].entries;
    assert t.kids == [t.kids[0], t.kids[1]];
    FlatAllTwo(t.kids[0], t.kids[1]);
    assert Heads(t.keys[1 - 1], Flat(t.kids[1]));
    assert (l + m)[|l|] == m[0] && (b == 0 ==> (l + m)[1] == l[1]) && (b == 1 ==> (l + m)[|l| + 1] == m[1]);
  }

  /** How many leaves stand after so many keys. */
  function LeavesAfter(n: nat, order: nat): nat {
    if n == 0 then 0 else if n <= order then 1 else 2
  }

  /** The leaf an absent key adds while there are two leaves or fewer. */
  lemma NextLeaf(tree: BPlusTree, key: Key)
    requires tree.Valid() && key !in tree.Contents()
    requires |tree.Contents()| < 2 * tree.order - 1 && tree.LeafCount() == LeavesAfter(|tree.Contents()|, tree.order)
    ensures tree.LeafCount() + tree.LeavesAdded(key) == LeavesAfter(|tree.Contents()| + 1, tree.order)
  {
    if tree.root == null {
      tree.OpenEmpty(key);
    } else {
      tree.Open(key);
      var t, h := tree.shape.top, tree.shape.height;
      tree.ValidStands();
      ContentsModels(Flat(t));
      NodeLeaves(t, tree.order, h, 1);
      hide Hazard, Sorted, Flat, Leaves, WF, Rep, Distinct, Linked;
      if |Leaves(t)| == 2 {
        TwoLeavesSplit(t, tree.order, h, key);
      }
    }
  }

  /** Twice the order less one keys, whichever they are and in whatever order they come, leave a key that is overlooked. */
  method FillTwoLeaves(order: nat, keys: seq<Key>, d: Data) returns (tree: BPlusTree, ghost key: Key)
    requires order >= 4 && |keys| == 2 * order - 1 && NoDup(keys)
    ensures fresh(tree) && fresh(tree.repr) && tree.Valid() && tree.order == order
    ensures (forall k :: k in tree.Contents() <==> k in keys) && |tree.Contents()| == |keys|
    ensures key in keys && tree.Overlooked(key)
  {
    hide *;
    tree := new BPlusTree(order);
    StartCount(tree);
    var i := 0;
    while i < |keys|
      invariant 0 <= i <= |keys| && fresh(tree) && fresh(tree.repr) && tree.Valid() && tree.order == order
      invariant (forall k :: k in tree.Contents() <==> k in keys[..i]) && |tree.Contents()| == i
      invariant tree.LeafCount() == LeavesAfter(i, order)
    {
      NotBefore(keys, i);
      NextLeaf(tree, keys[i]);
      var _ := tree.Insert(keys[i], d);
      i := i + 1;
    }
    assert keys[..|keys|] == keys;
    LeavesAfterIs(|keys|, order);
    key := NearlyFullTree(tree);
  }

  lemma StartCount(tree: BPlusTree)
    requires tree.Valid() && tree.Contents() == map[]
    ensures tree.LeafCount() == LeavesAfter(0, tree.order)
  {
    if tree.root == null {
      tree.OpenEmpty(0);
    } else {
      NonEmptyContents(tree.order, tree.shape.top, tree.shape.height);
    }
  }

  lemma LeavesAfterIs(n: nat, order: nat)
    ensures n > order ==> LeavesAfter(n, order) == 2
  {
  }

  lemma NotBefore(keys: seq<Key>, i: nat)
    requires i < |keys| && NoDup(keys)
    ensures keys[i] !in keys[..i] && forall k :: k in keys[..i + 1] <==> k in keys[..i] || k == keys[i]
  {
    assert keys[..i + 1] == keys[..i] + [keys[i]];
  }

  lemma NearlyFullTree(tree: BPlusTree) returns (key: Key)
    requires tree.Valid() && tree.LeafCount() == 2 && |tree.Contents()| == 2 * tree.order - 1
    ensures key in tree.Contents() && tree.Overlooked(key)
  {
    tree.Open(0);
    tree.ValidStands();
    ContentsModels(tree.Entries());
    key := NearlyFull(tree.shape.top, tree.order, tree.shape.height);
    tree.Open(key);
  }

  ghost predicate TwiceIn(es: seq<Entry>, key: Key) {
    exists i, j :: 0 <= i < j < |es| && es[i].key == key && es[j].key == key
  }

  lemma InsertAtSlots<T>(s: seq<T>, i: nat, x: T)
    requires i <= |s|
    ensures InsertAt(s, i, x)[i] == x && (i < |s| ==> InsertAt(s, i, x)[i + 1] == s[i]) && (i > 0 ==> InsertAt(s, i, x)[i - 1] == s[i - 1])
  {
  }

  lemma DoubledTwice(es: seq<Entry>, e: Entry, es1: seq<Entry>)
    requires Doubled(es, e, es1)
    ensures |es1| == |es| + 1 && TwiceIn(es1, e.key)
  {
    var p :| 0 <= p < |es| && es[p].key == e.key && (es1 == InsertAt(es, p, e) || es1 == InsertAt(es, p + 1, e));
    InsertAtSlots(es, p, e);
    InsertAtSlots(es, p + 1, e);
    hide InsertAt;
    assert es1[p].key == e.key && e.key == es1[p + 1].key;
  }

  /** From an empty tree to one that holds a key twice, by insertions alone: first any keys that fill it, then each again
      until one is taken. */
  method PutInTwice(order: nat, keys: seq<Key>, d: Data) returns (tree: BPlusTree, key: Key, size: int)
    requires order >= 4 && |keys| == 2 * order - 1 && NoDup(keys)
    ensures key in keys && tree.Stands() && TwiceIn(tree.Entries(), key) && size == |tree.Entries()| == |keys| + 1
  {
    hide *;
    ghost var overlooked;
    tree, overlooked := FillTwoLeaves(order, keys, d);
    tree.ValidStands();
    EntriesCount(tree.Entries());
    ghost var es := tree.Entries();
    var i, taken := 0, false;
    key := 0;
    while !taken
      invariant 0 <= i <= |keys| && fresh(tree) && fresh(tree.repr)
      invariant if taken then key in keys && tree.Stands() && Doubled(es, Entry(key, d), tree.Entries())
                else tree.Valid() && tree.Overlooked(overlooked) && overlooked in keys[i..] && tree.Entries() == es
                     && forall k :: k in tree.Contents() <==> k in keys
      decreases |keys| - i, !taken
    {
      key := keys[i];
      taken := tree.Insert(key, d);
      i := i + 1;
    }
    DoubledTwice(es, Entry(key, d), tree.Entries());
    size := tree.Size();
  }
}
