/** Deletion below a node: down to the leaf that holds the key, and back up through the pages that fall short. */
module BPlusDelete {
  import opened Sequences
  import opened BPlusPage
  import opened BPlusShape
  import opened BPlusHeap
  import opened BPlusInsert
  import opened BPlusGrow
  import opened BPlusDescend
  import opened BPlusShrink

  /** `t1` is `t` without the entry `e`; it underflows when it lost a key and is now less than half full. */
  ghost predicate Shrunk(order: nat, e: Entry, t: Tree, h: nat, pre: seq<Page>, post: seq<Page>, t1: Tree, underflow: bool)
    reads Pages(t1)`isLeaf, Pages(t1)`size, Pages(t1)`keys, Pages(t1)`data, Pages(t1)`children
    reads (set p | p in pre + Leaves(t1) + post)`next, (set p | p in pre + Leaves(t1) + post)`previous
  {
    && t1.page == t.page && Loose(t1, order, h) && Removed(Flat(t), e, Flat(t1)) && Rep(t1, order) && Distinct(t1) && Pages(t1) <= Pages(t)
    && Count(t) - 1 <= Count(t1) <= Count(t) && (underflow <==> Count(t1) < Count(t) && Count(t1) < order / 2)
    && Linked(null, pre + Leaves(t1) + post, null) && NoDup(pre + Leaves(t1) + post)
    && Leaves(t1) != [] && Leaves(t) != [] && Leaves(t1)[0] == Leaves(t)[0]
  }

  /** If the entry that left was the first below `t`, the action asks for the separator above to follow. */
  ghost predicate Follows(ra: ReturnAction, key: Key, t: Tree, t1: Tree) {
    Heads(key, Flat(t)) ==> Asks(ra, t1)
  }

  lemma RemovedHead(es: seq<Entry>, e: Entry, es1: seq<Entry>)
    requires Removed(es, e, es1) && Sorted(es) && !Heads(e.key, es)
    ensures es != [] && es1 != [] && es1[0] == es[0]
  {
  }

  /** Child `b` lost the entry `e`, and the separator before it follows if need be. */
  lemma StepSpine(order: nat, t: Tree, h: nat, lo: int, b: nat, e: Entry, k1: Tree, keys1: seq<Key>)
    requires order >= 4 && h > 0 && t.Node? && WF(t, order, h, lo) && Sorted(Flat(t)) && Branch(t.keys, e.key, b)
    requires Removed(Flat(t.kids[b]), e, Flat(k1)) && Loose(k1, order, h - 1) && Flat(k1) != [] && order / 2 - 1 <= Count(k1) <= order
    requires if b > 0 && t.keys[b - 1] == e.key then |keys1| == |t.keys| && keys1 == t.keys[b - 1 := keys1[b - 1]] && Heads(keys1[b - 1], Flat(k1))
             else keys1 == t.keys
    ensures Spine(keys1, t.kids[b := k1], order, h) && HalfFull(t.kids[b := k1], order, b)
    ensures Removed(Flat(t), e, FlatAll(t.kids[b := k1]))
  {
    hide *;
    NodeRun(t, order, h, lo);
    BranchIn(t.keys, e.key, b);
    RunSpine(t.keys, t.kids, order, h);
    var k := if b > 0 then keys1[b - 1] else 0;
    if b > 0 && t.keys[b - 1] != e.key {
      RunHeads(t.keys, t.kids, order, h, b);
      KidSorted(t, b);
      OtherHead(t.keys[b - 1], e.key, Flat(t.kids[b]));
      RemovedHead(Flat(t.kids[b]), e, Flat(k1));
      SameHeads(t.keys[b - 1], Flat(t.kids[b]), Flat(k1));
    }
    assert b > 0 ==> keys1 == t.keys[b - 1 := k];
    HalfFullOne(t.kids, order, b, k1);
    SpineReplace(t.keys, t.kids, order, h, b, k, k1);
    StepRemoved(t, b, e, k1);
  }

  lemma NodeRun(t: Tree, M: int, h: nat, lo: int)
    requires t.Node? && h > 0 && WF(t, M, h, lo)
    ensures Run(t.keys, t.kids, M, h) && |t.kids| == |t.keys| + 1 && Bundled(t) && Flat(t) == FlatAll(t.kids)
  {
  }

  lemma BranchIn(keys: seq<Key>, key: Key, b: int)
    requires Branch(keys, key, b)
    ensures 0 <= b <= |keys| && (b > 0 ==> keys[b - 1] <= key) && (b < |keys| ==> key < keys[b])
  {
  }

  lemma RunHeads(keys: seq<Key>, kids: seq<Tree>, M: int, h: nat, b: nat)
    requires h > 0 && Run(keys, kids, M, h) && 0 < b < |kids|
    ensures |kids| == |keys| + 1 && Heads(keys[b - 1], Flat(kids[b])) && Flat(kids[b]) != [] && Flat(kids[b])[0].key == keys[b - 1]
  {
  }

  lemma KidSorted(t: Tree, b: nat)
    requires t.Node? && b < |t.kids| && Sorted(Flat(t))
    ensures Sorted(Flat(t.kids[b]))
  {
    FlatAllAt(t.kids, b);
    SortedParts(FlatAll(t.kids[..b]), Flat(t.kids[b]), FlatAll(t.kids[b + 1..]));
  }

  lemma OtherHead(k: Key, key: Key, es: seq<Entry>)
    requires Heads(k, es) && k != key
    ensures !Heads(key, es)
  {
  }

  lemma SameHeads(k: Key, es: seq<Entry>, es1: seq<Entry>)
    requires Heads(k, es) && es1 != [] && es != [] && es1[0] == es[0]
    ensures Heads(k, es1)
  {
  }

  lemma HalfFullOne(kids: seq<Tree>, M: int, b: nat, k: Tree)
    requires b < |kids| && HalfFull(kids, M, -1)
    ensures HalfFull(kids[b := k], M, b)
  {
  }

  lemma StepRemoved(t: Tree, b: nat, e: Entry, k1: Tree)
    requires t.Node? && b < |t.kids| && Removed(Flat(t.kids[b]), e, Flat(k1))
    ensures Removed(Flat(t), e, FlatAll(t.kids[b := k1]))
    ensures LeavesAll(t.kids[b := k1]) == LeavesAll(t.kids[..b]) + Leaves(k1) + LeavesAll(t.kids[b + 1..])
    ensures Leaves(t) == LeavesAll(t.kids[..b]) + Leaves(t.kids[b]) + LeavesAll(t.kids[b + 1..])
  {
    var kids1 := t.kids[b := k1];
    FlatAllAt(t.kids, b);
    FlatAllAt(kids1, b);
    assert kids1[..b] == t.kids[..b] && kids1[b + 1..] == t.kids[b + 1..] && kids1[b] == k1;
    hide Removed;
    RemovedInside(FlatAll(t.kids[..b]), Flat(t.kids[b]), FlatAll(t.kids[b + 1..]), e, Flat(k1));
  }

  /** The first entry of a node is the first entry of its first child. */
  lemma StepFollows(order: nat, t: Tree, h: nat, lo: int, b: nat, key: Key, k1: Tree, ra: ReturnAction, keys1: seq<Key>)
    requires order >= 4 && h > 0 && t.Node? && WF(t, order, h, lo) && Sorted(Flat(t)) && Branch(t.keys, key, b)
    requires b == 0 ==> Follows(ra, key, t.kids[b], k1)
    ensures Follows(ra, key, t, Node(t.page, keys1, t.kids[b := k1]))
  {
    HeadBelowKeys(t, order, h, lo, b);
    if b == 0 && Asks(ra, k1) {
      var kids1 := t.kids[b := k1];
      assert FlatAll(kids1) == Flat(k1) + FlatAll(kids1[1..]);
    }
    if b == 0 {
      assert Flat(t) == Flat(t.kids[0]) + FlatAll(t.kids[1..]);
    }
  }

  /** The node after child `b` lost the entry `e`, before any repair. */
  ghost predicate Stepped(order: nat, e: Entry, t: Tree, h: nat, b: int, pre: seq<Page>, post: seq<Page>, t1: Tree, short: bool)
    reads Pages(t1)`isLeaf, Pages(t1)`size, Pages(t1)`keys, Pages(t1)`data, Pages(t1)`children
    reads (set p | p in pre + Leaves(t1) + post)`next, (set p | p in pre + Leaves(t1) + post)`previous
  {
    && order >= 4 && h > 0 && t.Node? && t1.Node? && t1.page == t.page && Bundled(t1) && 0 <= b < |t1.kids| && 1 <= |t1.keys| == |t.keys| <= order
    && Spine(t1.keys, t1.kids, order, h) && HalfFull(t1.kids, order, if short then b else -1) && (short ==> Count(t1.kids[b]) == order / 2 - 1)
    && Rep(t1, order) && Distinct(t1) && Pages(t1) <= Pages(t) && Removed(Flat(t), e, Flat(t1))
    && Linked(null, pre + Leaves(t1) + post, null) && NoDup(pre + Leaves(t1) + post)
    && Leaves(t1) != [] && Leaves(t) != [] && Leaves(t1)[0] == Leaves(t)[0]
  }

  lemma SteppedShort(order: nat, e: Entry, t: Tree, h: nat, b: int, pre: seq<Page>, post: seq<Page>, t1: Tree)
    requires Stepped(order, e, t, h, b, pre, post, t1, true)
    ensures Short(order, t1, h, b, pre, post)
    ensures t1.Node? && |t1.kids| == |t1.keys| + 1 && 0 <= b < |t1.kids| && 1 <= |t1.keys|
    ensures t1.page.Live(order) && t1.page.size == |t1.keys| && t1.page.keys[..|t1.keys|] == t1.keys && |t1.page.keys| == order
    ensures t1.page == t.page && Pages(t1) <= Pages(t) && Removed(Flat(t), e, Flat(t1)) && Count(t1) == Count(t)
    ensures Leaves(t1) != [] && Leaves(t) != [] && Leaves(t1)[0] == Leaves(t)[0]
  {
    TopFields(t1, order);
  }

  lemma SteppedWhole(order: nat, e: Entry, t: Tree, h: nat, b: int, pre: seq<Page>, post: seq<Page>, t1: Tree)
    requires Stepped(order, e, t, h, b, pre, post, t1, false)
    ensures Shrunk(order, e, t, h, pre, post, t1, false)
  {
    hide Rep, Distinct, Linked, NoDup, Removed, Spine, HalfFull, Pages, Flat, Leaves;
    SpineRun(t1.keys, t1.kids, order, h);
    NodeLoose(t1, order, h);
  }

  lemma FixedShrunk(order: nat, e: Entry, t: Tree, h: nat, pre: seq<Page>, post: seq<Page>, t0: Tree, t1: Tree, underflow: bool)
    requires Fixed(order, t0, h, pre, post, t1, underflow)
    requires t0.page == t.page && Pages(t0) <= Pages(t) && Removed(Flat(t), e, Flat(t0)) && Count(t0) == Count(t)
    requires Leaves(t0) != [] && Leaves(t) != [] && Leaves(t0)[0] == Leaves(t)[0]
    ensures Shrunk(order, e, t, h, pre, post, t1, underflow)
  {
  }

  /** The node's pages after child `b` became `k1` and its own keys became `keys1`. */
  lemma StepHeap(order: nat, t: Tree, b: nat, k1: Tree, keys1: seq<Key>)
    requires t.Node? && Bundled(t) && b < |t.kids| && Distinct(t) && k1.page == t.kids[b].page && |keys1| == |t.keys|
    requires Rep(k1, order) && Distinct(k1) && Pages(k1) <= Pages(t.kids[b]) && Apart(t, order, b, b + 1)
    requires Stored(Node(t.page, keys1, t.kids), order, |t.keys|)
    ensures var t1 := Node(t.page, keys1, t.kids[b := k1]); Rep(t1, order) && Distinct(t1) && Pages(t1) <= Pages(t)
  {
    assert PagesOf(t.kids[b := k1]) == PagesOf(t.kids);
    ChildOthers(t, b);
    SplicedShapes(t, b, k1, k1);
    SplicedPages(t, b, b + 1, [k1]);
    PagesOfTwo(k1, k1);
    assert RepAll([k1], order) && DistinctAll([k1]) && DistinctAll(t.kids);
    hide Rep, RepAll, Distinct, DistinctAll, PagesIn, Apart, Others, Spliced;
    SplicedRep(t, order, b, b + 1, [k1]);
    SplicedDistinct(t, b, b + 1, [k1]);
    StepTop(order, t, b, k1, keys1);
  }

  lemma StepTop(order: nat, t: Tree, b: nat, k1: Tree, keys1: seq<Key>)
    requires t.Node? && Bundled(t) && b < |t.kids| && |keys1| == |t.keys| && PagesOf(t.kids[b := k1]) == PagesOf(t.kids)
    requires RepAll(t.kids[b := k1], order) && DistinctAll(t.kids[b := k1]) && t.page !in PagesIn(t.kids[b := k1])
    requires Stored(Node(t.page, keys1, t.kids), order, |t.keys|)
    ensures var t1 := Node(t.page, keys1, t.kids[b := k1]);
      Rep(t1, order) && Distinct(t1) && Pages(t1) == {t.page} + PagesIn(t.kids[b := k1])
  {
  }

  /** What the parent of a child that lost an entry can rely on. */
  lemma ShrunkKid(order: nat, e: Entry, t: Tree, h: nat, lo: int, b: nat, pre: seq<Page>, post: seq<Page>, k1: Tree, short: bool)
    requires order >= 4 && h > 0 && t.Node? && WF(t, order, h, lo) && b < |t.kids|
    requires Shrunk(order, e, t.kids[b], h - 1, pre, post, k1, short)
    ensures k1.page == t.kids[b].page && Removed(Flat(t.kids[b]), e, Flat(k1)) && Loose(k1, order, h - 1) && Flat(k1) != []
    ensures order / 2 - 1 <= Count(k1) <= order && (if short then Count(k1) == order / 2 - 1 else Count(k1) >= order / 2)
    ensures Rep(k1, order) && Distinct(k1) && Pages(k1) <= Pages(t.kids[b])
    ensures Linked(null, pre + Leaves(k1) + post, null) && NoDup(pre + Leaves(k1) + post)
    ensures Leaves(k1) != [] && Leaves(t.kids[b]) != [] && Leaves(k1)[0] == Leaves(t.kids[b])[0]
  {
    assert WF(t.kids[b], order, h - 1, order / 2);
    LooseNonEmpty(k1, order, h - 1);
  }

  lemma LooseNonEmpty(t: Tree, M: int, h: nat)
    requires M >= 4 && Loose(t, M, h) && Count(t) > 0
    ensures Flat(t) != []
  {
    if t.Node? {
      RunNonEmpty(t.keys, t.kids, M, h);
    }
  }

  lemma StepIntro(order: nat, e: Entry, t: Tree, h: nat, lo: int, b: nat, pre: seq<Page>, post: seq<Page>, k1: Tree,
          keys1: seq<Key>, short: bool)
    requires order >= 4 && h > 0 && t.Node? && Bundled(t) && WF(t, order, h, lo)
    requires lo >= 1 && Sorted(Flat(t)) && Branch(t.keys, e.key, b) && b < |t.kids|
    requires Shrunk(order, e, t.kids[b], h - 1, pre + LeavesAll(t.kids[..b]), LeavesAll(t.kids[b + 1..]) + post, k1, short)
    requires |keys1| == |t.keys|
    requires if b > 0 && t.keys[b - 1] == e.key then keys1 == t.keys[b - 1 := keys1[b - 1]] && Heads(keys1[b - 1], Flat(k1))
             else keys1 == t.keys
    requires Distinct(t) && Apart(t, order, b, b + 1) && Stored(Node(t.page, keys1, t.kids), order, |t.keys|)
    ensures Stepped(order, e, t, h, b, pre, post, Node(t.page, keys1, t.kids[b := k1]), short)
  {
    var t1 := Node(t.page, keys1, t.kids[b := k1]);
    assert lo <= |t.keys| <= order && |t.kids| == |t.keys| + 1;
    hide *;
    ShrunkKid(order, e, t, h, lo, b, pre + LeavesAll(t.kids[..b]), LeavesAll(t.kids[b + 1..]) + post, k1, short);
    StepSpine(order, t, h, lo, b, e, k1, keys1);
    StepHeap(order, t, b, k1, keys1);
    StepRemoved(t, b, e, k1);
    ChainBelow(t, b, pre, Leaves(k1), post);
    SameFirst(LeavesAll(t.kids[..b]), Leaves(t.kids[b]), Leaves(k1), LeavesAll(t.kids[b + 1..]));
    SteppedIntro(order, e, t, h, b, pre, post, t1, short);
  }

  lemma SameFirst<T>(a: seq<T>, l: seq<T>, m: seq<T>, c: seq<T>)
    requires l != [] && m != [] && l[0] == m[0]
    ensures a + l + c != [] && a + m + c != [] && (a + l + c)[0] == (a + m + c)[0]
  {
  }

  lemma SteppedIntro(order: nat, e: Entry, t: Tree, h: nat, b: nat, pre: seq<Page>, post: seq<Page>, t1: Tree, short: bool)
    requires order >= 4 && h > 0 && t.Node? && t1.Node? && t1.page == t.page
    requires b < |t1.kids| == |t1.keys| + 1 && 1 <= |t1.keys| == |t.keys| <= order
    requires Spine(t1.keys, t1.kids, order, h) && HalfFull(t1.kids, order, b)
    requires if short then Count(t1.kids[b]) == order / 2 - 1 else order / 2 <= Count(t1.kids[b]) <= order
    requires Rep(t1, order) && Distinct(t1) && Pages(t1) <= Pages(t) && Removed(Flat(t), e, FlatAll(t1.kids))
    requires Linked(null, pre + LeavesAll(t1.kids) + post, null) && NoDup(pre + LeavesAll(t1.kids) + post)
    requires LeavesAll(t1.kids) != [] && Leaves(t) != [] && LeavesAll(t1.kids)[0] == Leaves(t)[0]
    ensures Stepped(order, e, t, h, b, pre, post, t1, short)
  {
    hide Rep, Distinct, Linked, NoDup, Removed, Spine, Pages;
  }

  // ---------------------------------------------------------------- the entry leaves its leaf

  lemma LeafShrunk(order: nat, e: Entry, k: Tree, pre: seq<Page>, post: seq<Page>, i: nat, k1: Tree)
    requires order >= 4 && k.Leaf? && WF(k, order, 0, order / 2) && i < Count(k) && k.entries[i] == e
    requires k1 == Leaf(k.page, RemoveAt(k.entries, i)) && Stored(k1, order, Count(k) - 1)
    requires Linked(null, pre + Leaves(k) + post, null) && NoDup(pre + Leaves(k) + post)
    ensures Shrunk(order, e, k, 0, pre, post, k1, Count(k1) < order / 2)
  {
    LeafPages(k);
    LeafPages(k1);
  }

  lemma LeafFirst(order: nat, k: Tree, i: nat, k1: Tree)
    requires order >= 4 && k.Leaf? && WF(k, order, 0, order / 2) && i < Count(k) && Sorted(k.entries)
    requires k1 == Leaf(k.page, RemoveAt(k.entries, i)) && Stored(k1, order, Count(k) - 1)
    ensures Heads(k.page.keys[0], Flat(k1)) && (i == 0 <==> Heads(k.entries[i].key, Flat(k)))
    ensures |k.page.keys| == order && k.page.size == Count(k1)
  {
    assert k.page.keys[..Count(k1)][0] == k.page.keys[0];
    assert ViewT(k1).keys[0] == k1.entries[0].key;
  }

  lemma RemoveEntry(order: nat, k: Tree, i: nat)
    requires k.Leaf? && i < Count(k)
    ensures ViewT(Leaf(k.page, RemoveAt(k.entries, i))) == Remove(ViewT(k), i)
  {
    assert KeysOf(RemoveAt(k.entries, i)) == RemoveAt(KeysOf(k.entries), i);
    assert DataOf(RemoveAt(k.entries, i)) == RemoveAt(DataOf(k.entries), i);
  }

  method DeleteEntry(order: nat, i: int, child: Page, ghost k: Tree) returns (ghost k1: Tree)
    requires k.Leaf? && k.page == child && Stored(k, order, Count(k)) && 0 <= i < Count(k)
    modifies child`keys, child`data, child`children, child`size
    ensures k1 == Leaf(child, RemoveAt(k.entries, i)) && Stored(k1, order, Count(k) - 1)
  {
    StoredLive(k, order);
    RemoveEntry(order, k, i);
    k1 := Leaf(child, RemoveAt(k.entries, i));
    hide Remove, ViewT;
    DeleteFromPageAtIndex(order, i, child);
  }

  method DeleteEntryBelow(order: nat, i: int, child: Page, ghost k: Tree, ghost t: Tree, ghost b: nat,
          ghost chain: seq<Page>, ghost others: set<Page>)
    returns (ghost k1: Tree)
    requires k.Leaf? && k.page == child && Stored(k, order, Count(k)) && 0 <= i < Count(k)
    requires t.Node? && b < |t.kids| && Apart(t, order, b, b + 1) && others == Others(t, b, b + 1) && child !in others
    requires Linked(null, chain, null)
    modifies child`keys, child`data, child`children, child`size
    ensures k1 == Leaf(child, RemoveAt(k.entries, i)) && Stored(k1, order, Count(k) - 1)
    ensures Apart(t, order, b, b + 1) && Linked(null, chain, null)
  {
    hide *;
    k1 := DeleteEntry(order, i, child, k);
  }

  /** A separator written, or left alone. */
  lemma StoredKeys(t: Tree, order: nat, b: nat, oldKeys: seq<Key>) returns (keys1: seq<Key>)
    requires t.Node? && Bundled(t) && b <= |t.keys| && |t.page.keys| == |t.page.data| == |oldKeys| == order
    requires t.page.size == |t.keys| <= order && !t.page.isLeaf && |t.page.children| == order + 1
    requires oldKeys[..|t.keys|] == t.keys && t.page.children[..|t.keys| + 1] == PagesOf(t.kids)
    requires t.page.keys == oldKeys || (b > 0 && t.page.keys == oldKeys[b - 1 := t.page.keys[b - 1]])
    ensures |keys1| == |t.keys| && keys1 == t.page.keys[..|t.keys|] && Stored(Node(t.page, keys1, t.kids), order, |t.keys|)
    ensures t.page.keys == oldKeys ==> keys1 == t.keys
    ensures b > 0 ==> keys1[b - 1] == t.page.keys[b - 1] && (t.page.keys == oldKeys[b - 1 := t.page.keys[b - 1]] ==> keys1 == t.keys[b - 1 := keys1[b - 1]])
  {
    keys1 := t.page.keys[..|t.keys|];
    assert Stored(Node(t.page, keys1, t.kids), order, |t.keys|);
  }

  /** What a search in a leaf tells. */
  lemma LeafSearched(order: nat, k: Tree, key: Key, found: bool, i: int)
    requires k.Leaf? && Stored(k, order, Count(k)) && k.page.size == Count(k) && k.page.keys[..k.page.size] == ViewT(k).keys
    requires found ==> 0 <= i < k.page.size && k.page.keys[i] == key
    requires !found ==> Place(k.page.keys[..k.page.size], key, i)
    ensures found <==> HasKey(Flat(k), key)
    ensures found ==> 0 <= i < Count(k) == |k.entries| && i < |k.page.data| && k.entries[i] == Entry(key, k.page.data[i])
  {
    if found {
      assert k.page.keys[..k.page.size][i] == key && KeysOf(k.entries)[i] == k.entries[i].key;
      assert k.page.data[..Count(k)][i] == DataOf(k.entries)[i];
    } else {
      AbsentAtPlace(k.entries, key, i);
    }
  }

  /** Child `b` is a leaf: look the key up there and take its entry out. */
  method StepLeaf(order: nat, key: Key, b: int, cur: Page, ra: ReturnAction, out0: Data,
                  ghost t: Tree, ghost lo: int, ghost pre: seq<Page>, ghost post: seq<Page>, ghost own: set<Page>, ghost chain: seq<Page>)
    returns (found: bool, short: bool, ra1: ReturnAction, out: Data, ghost t1: Tree)
    requires t.page == cur && t.Node? && Bundled(t) && Ready(order, t, 1, lo, pre, post)
    requires own == Pages(t) && chain == pre + Leaves(t) + post
    requires 0 <= b < |t.kids| && Branch(t.keys, key, b) && t.kids[b].Leaf?
    modifies own`keys, own`data, own`children, own`size
    ensures found <==> HasKey(Flat(t), key)
    ensures !found ==> unchanged(own) && unchanged(Head(post)) && ra1 == ra && out == out0 && !short
    ensures found ==> Stepped(order, Entry(key, out), t, 1, b, pre, post, t1, short) && Follows(ra1, key, t, t1)
    ensures found ==> t1.Node? && Counts(t1.kids) == Counts(t.kids)[b := Count(t.kids[b]) - 1]
  {
    hide *;
    ghost var kid, preB, postB := t.kids[b], pre + LeavesAll(t.kids[..b]), LeavesAll(t.kids[b + 1..]) + post;
    StepReady(order, t, 1, lo, pre, post, b);
    StepKeys(order, t, 1, lo, pre, post, key, b);
    ReadyPage(order, kid, 0, order / 2, preB, postB);
    LeafStep(order, t, lo, pre, post, b);
    HeadIs(post);
    KidHead(order, t, 1, lo, b, key);
    var child: Page := cur.children[b];
    short, ra1, out, t1 := false, ra, out0, t;
    var childIndex;
    found, childIndex := GetIndexOf(order, key, child);
    LeafSearched(order, kid, key, found, childIndex);
    if found {
      out := child.data[childIndex];
      ghost var oldKeys, k1 := cur.keys, kid;
      k1 := DeleteEntryBelow(order, childIndex, child, kid, t, b, chain, Others(t, b, b + 1));
      LeafShrunk(order, Entry(key, out), kid, preB, postB, childIndex, k1);
      LeafFirst(order, kid, childIndex, k1);
      LeafPages(k1);
      if childIndex == 0 {
        if b > 0 {
          cur.keys := cur.keys[b - 1 := child.keys[0]];
        }
        if b == 0 {
          ra1 := ra.(action := SetBranchKey, key1 := child.keys[0]);
        }
      }
      short := child.size < order / 2;
      ghost var keys1 := StoredKeys(t, order, b, oldKeys);
      if b == 0 {
        LeafHeads(key, kid, k1, ra1, child.keys[0]);
      }
      CountLess(kid, childIndex, k1);
      LeafLess(t, keys1, b, k1);
      StepIntro(order, Entry(key, out), t, 1, lo, b, pre, post, k1, keys1, short);
      StepFollows(order, t, 1, lo, b, key, k1, ra1, keys1);
      t1 := Node(cur, keys1, t.kids[b := k1]);
    }
  }

  lemma CountLess(k: Tree, i: nat, k1: Tree)
    requires k.Leaf? && i < Count(k) && k1 == Leaf(k.page, RemoveAt(k.entries, i))
    ensures Count(k1) == Count(k) - 1
  {
  }

  lemma LeafHeads(key: Key, k: Tree, k1: Tree, ra: ReturnAction, first: Key)
    requires Heads(first, Flat(k1)) && (Heads(key, Flat(k)) ==> ra.action == SetBranchKey && ra.key1 == first)
    ensures Follows(ra, key, k, k1)
  {
  }

  lemma KidHead(order: nat, t: Tree, h: nat, lo: int, b: nat, key: Key)
    requires t.Node? && Bundled(t) && h > 0 && WF(t, order, h, lo) && b < |t.kids|
    ensures b > 0 ==> (t.keys[b - 1] == key <==> Heads(key, Flat(t.kids[b])))
  {
    assert b > 0 ==> Heads(t.keys[b - 1], Flat(t.kids[b]));
  }

  lemma LeafStep(order: nat, t: Tree, lo: int, pre: seq<Page>, post: seq<Page>, b: nat)
    requires t.Node? && Bundled(t) && Ready(order, t, 1, lo, pre, post) && b < |t.kids| && t.kids[b].Leaf?
    ensures WF(t.kids[b], order, 0, order / 2) && Sorted(t.kids[b].entries) && lo >= 1 && |t.page.children| == order + 1 && !t.page.isLeaf
    ensures t.page.children[..|t.keys| + 1] == PagesOf(t.kids)
    ensures NoDup(pre + Leaves(t) + post) && Linked(null, pre + Leaves(t) + post, null)
    ensures Count(t.kids[b]) == |t.kids[b].entries| && t.kids[b].page in Pages(t) && t.page in Pages(t)
    ensures t.kids[b].page !in Others(t, b, b + 1) && |t.page.keys| == |t.page.data| == order && t.page.size <= order
  {
    TopFields(t, order);
    ChildPages(t, order);
    ChildOthers(t, b);
    assert t.kids[b].page in Pages(t.kids[b]);
    RunIncreasing(t.keys, t.kids, order, 1);
    assert WF(t.kids[b], order, 1 - 1, order / 2);
  }

  lemma FollowsParts(ra: ReturnAction, key: Key, k: Tree, k1: Tree)
    requires Follows(ra, key, k, k1)
    ensures Heads(key, Flat(k)) ==> ra.action == SetBranchKey && Heads(ra.key1, Flat(k1))
  {
  }

  lemma FollowsFixed(ra: ReturnAction, key: Key, t: Tree, t0: Tree, ra1: ReturnAction, t1: Tree)
    requires Follows(ra, key, t, t0) && (Asks(ra, t0) ==> Asks(ra1, t1))
    ensures Follows(ra1, key, t, t1)
  {
  }

  // ---------------------------------------------------------------- how full the leaves are afterwards

  /** The sizes of the leaves under one node, leaf `b` having lost an entry: a leaf that falls short borrows from the one before it if
      that one has more than half, otherwise from the one after it if that one has, and otherwise merges, with the one after it if
      there is one. */
  ghost function Evened(c: seq<int>, b: nat, order: nat): seq<int>
    requires b < |c|
  {
    if c[b] >= order / 2 || |c| < 2 then c
    else if b > 0 && c[b - 1] > order / 2 then c[b - 1 := c[b - 1] - 1][b := c[b] + 1]
    else if b + 1 < |c| && c[b + 1] > order / 2 then c[b := c[b] + 1][b + 1 := c[b + 1] - 1]
    else
      var j := if b + 1 < |c| then b else b - 1;
      c[..j] + [c[j] + c[j + 1]] + c[j + 2..]
  }

  /** How many entries each leaf holds once a key that is there was deleted. */
  ghost function SizesWithout(t: Tree, key: Key, order: nat): seq<int>
    decreases t
  {
    if t.Leaf? then [Count(t) - 1]
    else if !Bundled(t) then []
    else
      var b := Child(t.keys, key);
      if t.kids[b].Leaf? then Evened(Counts(t.kids)[b := Count(t.kids[b]) - 1], b, order)
      else SizesAll(t.kids[..b]) + SizesWithout(t.kids[b], key, order) + SizesAll(t.kids[b + 1..])
  }

  lemma SizesWithoutIs(t: Tree, key: Key, order: nat)
    ensures t.Leaf? ==> SizesWithout(t, key, order) == [Count(t) - 1]
    ensures t.Node? && Bundled(t) ==>
      var b := Child(t.keys, key);
      && b < |t.kids| == |t.keys| + 1
      && SizesWithout(t, key, order) ==
           if t.kids[b].Leaf? then Evened(Counts(t.kids)[b := Count(t.kids[b]) - 1], b, order)
           else SizesAll(t.kids[..b]) + SizesWithout(t.kids[b], key, order) + SizesAll(t.kids[b + 1..])
  {
    hide SizesAll, Counts, Evened;
  }

  lemma SizesWithoutAt(order: nat, t: Tree, h: nat, lo: int, pre: seq<Page>, post: seq<Page>, key: Key, b: nat)
    requires t.Node? && h > 0 && Ready(order, t, h, lo, pre, post) && Branch(t.keys, key, b)
    ensures b < |t.kids|
    ensures SizesWithout(t, key, order) ==
      if h == 1 then Evened(Counts(t.kids)[b := Count(t.kids[b]) - 1], b, order)
      else SizesAll(t.kids[..b]) + SizesWithout(t.kids[b], key, order) + SizesAll(t.kids[b + 1..])
  {
    hide *;
    ReadyParts(order, t, h, lo, pre, post);
    NodeRun(t, order, h, lo);
    KidOfBranch(t, key, b);
    RunIncreasing(t.keys, t.kids, order, h);
    ChildIs(t.keys, key, b);
    KidHeight(order, t, h, lo, b);
    SizesWithoutIs(t, key, order);
  }

  lemma EvenedIs(c: seq<int>, b: nat, order: nat)
    requires b < |c|
    ensures c[b] >= order / 2 ==> Evened(c, b, order) == c
    ensures c[b] < order / 2 && |c| >= 2 ==>
      Evened(c, b, order) ==
        if b > 0 && c[b - 1] > order / 2 then c[b - 1 := c[b - 1] - 1][b := c[b] + 1]
        else if b + 1 < |c| && c[b + 1] > order / 2 then c[b := c[b] + 1][b + 1 := c[b + 1] - 1]
        else
          var j := if b + 1 < |c| then b else b - 1;
          c[..j] + [c[j] + c[j + 1]] + c[j + 2..]
  {
  }

  /** Only leaves under one node change their sizes, the node over the leaf that holds the key. */
  lemma {:induction false} SizesWithoutRule(t: Tree, order: nat, h: nat, lo: int, key: Key)
    requires order >= 4 && h > 0 && t.Node? && WF(t, order, h, lo) && Sorted(Flat(t))
    ensures var p := Bottom(t, key); var b := Child(p.keys, key);
      && b < |p.kids|
      && SizesWithout(t, key, order) ==
           SizesLeft(t, key) + Evened(Counts(p.kids)[b := Count(p.kids[b]) - 1], b, order) + SizesRight(t, key)
    decreases h
  {
    hide *;
    KidFollowed(t, order, h, lo, key);
    BottomIs(t, key);
    BottomShape(t, order, h, lo, key);
    SizesWithoutIs(t, key, order);
    SidesAre(t, key);
    var b := Child(t.keys, key);
    var k := t.kids[b];
    if h > 1 {
      SizesWithoutRule(k, order, h - 1, order / 2, key);
      var p := Bottom(k, key);
      var c := Child(p.keys, key);
      RegroupedSizes(SizesAll(t.kids[..b]), SizesLeft(k, key), Evened(Counts(p.kids)[c := Count(p.kids[c]) - 1], c, order), SizesRight(k, key),
                SizesAll(t.kids[b + 1..]));
    }
  }

  /** The node over leaf `b` with one entry less in it. */
  lemma LeafLess(t: Tree, keys1: seq<Key>, b: nat, k1: Tree)
    requires t.Node? && b < |t.kids| && Count(k1) == Count(t.kids[b]) - 1
    ensures var t1 := Node(t.page, keys1, t.kids[b := k1]); Counts(t1.kids) == Counts(t.kids)[b := Count(t.kids[b]) - 1]
  {
    hide Count;
  }

  /** The leaf sizes below a node whose child `b` lost an entry and had its separator rewritten. */
  lemma SizesStepped(t: Tree, keys1: seq<Key>, b: nat, k1: Tree)
    requires t.Node? && b < |t.kids|
    ensures Sizes(Node(t.page, keys1, t.kids[b := k1])) == SizesAll(t.kids[..b]) + Sizes(k1) + SizesAll(t.kids[b + 1..])
  {
    hide *;
    var t1 := Node(t.page, keys1, t.kids[b := k1]);
    SplicedShapes(t, b, k1, k1);
    SizesOf(t1);
    SizesOf(k1);
    SizesSpliced(t, b, [k1]);
  }

  lemma SteppedSizes(order: nat, e: Entry, t: Tree, h: nat, b: int, pre: seq<Page>, post: seq<Page>, t1: Tree, short: bool)
    requires Stepped(order, e, t, h, b, pre, post, t1, short)
    ensures t1.Node? && 0 <= b < |t1.kids| && (!short ==> Count(t1.kids[b]) >= order / 2) && (short ==> Count(t1.kids[b]) < order / 2)
    ensures h > 0 && order >= 4
    ensures h == 1 ==> Sizes(t1) == Counts(t1.kids)
  {
    if h == 1 {
      assert Spine(t1.keys, t1.kids, order, 1);
      forall i | 0 <= i < |t1.kids| ensures t1.kids[i].Leaf? {
        assert Loose(t1.kids[i], order, 0);
      }
      hide *;
      SizesOfLeaves(t1.kids);
      SizesOf(t1);
    }
  }

  // ---------------------------------------------------------------- the recursive step

  /** Repair child `b` of the node `t` has become. */
  method Repair(order: nat, key: Key, b: int, cur: Page, rightRootKey: Key, ra: ReturnAction, leftmostLeaf: Page, ghost e: Entry,
                ghost t: Tree, ghost t0: Tree, ghost h: nat, ghost pre: seq<Page>, ghost post: seq<Page>, ghost own: set<Page>)
    returns (underflow: bool, ra1: ReturnAction, leftmost1: Page?, ghost t1: Tree)
    requires t.page == cur && Stepped(order, e, t, h, b, pre, post, t0, true) && own == Pages(t) && Follows(ra, key, t, t0)
    requires t0.Node? && |t0.kids| == |t0.keys| + 1 && 0 <= b < |t0.kids|
    requires h > 1 ==> rightRootKey == cur.keys[if b < |t0.keys| then b else b - 1]
    requires (pre + Leaves(t) + post)[0] == leftmostLeaf && leftmostLeaf.isLeaf
    modifies own`keys, own`data, own`children, own`size, own`next, own`previous, Head(post)`previous
    ensures Shrunk(order, e, t, h, pre, post, t1, underflow) && Follows(ra1, key, t, t1) && leftmost1 == leftmostLeaf
    ensures h == 1 ==> Sizes(t1) == Evened(Counts(t0.kids), b, order)
    ensures h > 1 ==> Sizes(t1) == Sizes(t0)
  {
    hide *;
    SteppedShort(order, e, t, h, b, pre, post, t0);
    SteppedSizes(order, e, t, h, b, pre, post, t0, true);
    SameFirst(pre, Leaves(t), Leaves(t0), post);
    assert h > 1 ==> rightRootKey == cur.keys[..|t0.keys|][if b < |t0.keys| then b else b - 1];
    ToldIntro(t0, h, b, rightRootKey, leftmostLeaf, pre + Leaves(t0) + post);
    underflow, ra1, leftmost1, t1 := FixUnderflow(order, b, cur, rightRootKey, ra, leftmostLeaf, t0, h, pre, post, pre + Leaves(t0) + post, Pages(t0));
    EvenedIs(Counts(t0.kids), b, order);
    CountsAre(t0.kids);
    FixedShrunk(order, e, t, h, pre, post, t0, t1, underflow);
    FollowsFixed(ra, key, t, t0, ra1, t1);
  }

  lemma CountsAre(ts: seq<Tree>)
    ensures |Counts(ts)| == |ts| && forall i :: 0 <= i < |ts| ==> Counts(ts)[i] == Count(ts[i])
  {
    hide Count;
  }

  lemma ToldIntro(t: Tree, h: nat, b: int, rightRootKey: Key, leftmostLeaf: Page, chain: seq<Page>)
    requires t.Node? && |t.kids| == |t.keys| + 1 && 0 <= b < |t.kids| && 1 <= |t.keys|
    requires h > 1 ==> rightRootKey == t.keys[if b < |t.keys| then b else b - 1]
    requires chain != [] && chain[0] == leftmostLeaf && leftmostLeaf.isLeaf
    ensures Told(t, h, b, rightRootKey, leftmostLeaf, chain)
  {
  }

  /** The call on child `b`, with the node and its other children left as they were. */
  method DeleteBelow(order: nat, key: Key, b: int, child: Page, rightRootKey: Key, ra: ReturnAction, leftmostLeaf: Page, out0: Data,
                     ghost t: Tree, ghost h: nat, ghost pre: seq<Page>, ghost post: seq<Page>, ghost own: set<Page>, ghost others: set<Page>,
                     ghost chain: seq<Page>, ghost whole: set<Page>, ghost outer: seq<Page>)
    returns (found: bool, underflow: bool, ra1: ReturnAction, leftmost1: Page?, out: Data, ghost k1: Tree)
    requires t.Node? && h > 1 && 0 <= b < |t.kids| && child == t.kids[b].page
    requires ra.action == NoAction && chain == pre + Leaves(t.kids[b]) + post
    requires Ready(order, t.kids[b], h - 1, order / 2, pre, post) && chain != [] && chain[0] == leftmostLeaf && leftmostLeaf.isLeaf
    requires own == Pages(t.kids[b]) && others == Others(t, b, b + 1) && own !! others && t.page !in own && t.page !in others
    requires Apart(t, order, b, b + 1)
    requires whole == {t.page} + own + others && Head(post) <= others + Head(outer)
    modifies whole`keys, whole`data, whole`children, whole`size, whole`next, whole`previous, Head(outer)`previous
    ensures found <==> HasKey(Flat(t.kids[b]), key)
    ensures !found ==> unchanged(whole) && unchanged(Head(outer)) && ra1 == ra && out == out0 && !underflow
    ensures found ==> Shrunk(order, Entry(key, out), t.kids[b], h - 1, pre, post, k1, underflow) && Follows(ra1, key, t.kids[b], k1)
    ensures found ==> Sizes(k1) == SizesWithout(t.kids[b], key, order)
    ensures leftmost1 == leftmostLeaf
    ensures Apart(t, order, b, b + 1)
    ensures t.page.keys == old(t.page.keys) && t.page.data == old(t.page.data) && t.page.children == old(t.page.children)
    ensures t.page.size == old(t.page.size)
    decreases h, 0
  {
    hide *;
    HeadIs(outer);
    found, underflow, ra1, leftmost1, out, k1 := FindDeleteRebalance(order, key, child, rightRootKey, ra, leftmostLeaf, out0,
                                                                    t.kids[b], h - 1, order / 2, pre, post, own, chain);
  }

  /** Child `b` is an index page: delete below it, and let the separator before it follow. */
  method StepIndex(order: nat, key: Key, b: int, foundHere: bool, cur: Page, ra: ReturnAction, leftmostLeaf: Page, out0: Data,
                   ghost t: Tree, ghost h: nat, ghost lo: int, ghost pre: seq<Page>, ghost post: seq<Page>, ghost own: set<Page>,
                   ghost chain: seq<Page>)
    returns (found: bool, short: bool, ra1: ReturnAction, leftmost1: Page?, out: Data, ghost t1: Tree)
    requires t.page == cur && t.Node? && Bundled(t) && h > 1 && Ready(order, t, h, lo, pre, post)
    requires own == Pages(t) && chain == pre + Leaves(t) + post
    requires 0 <= b < |t.kids| && Branch(t.keys, key, b) && ra.action == NoAction && (foundHere <==> b > 0 && t.keys[b - 1] == key)
    requires chain != [] && chain[0] == leftmostLeaf && leftmostLeaf.isLeaf
    modifies own`keys, own`data, own`children, own`size, own`next, own`previous, Head(post)`previous
    ensures found <==> HasKey(Flat(t), key)
    ensures !found ==> unchanged(own) && unchanged(Head(post)) && ra1 == ra && out == out0 && !short
    ensures found ==> Stepped(order, Entry(key, out), t, h, b, pre, post, t1, short) && Follows(ra1, key, t, t1)
    ensures found ==> Sizes(t1) == SizesAll(t.kids[..b]) + SizesWithout(t.kids[b], key, order) + SizesAll(t.kids[b + 1..])
    ensures leftmost1 == leftmostLeaf
    decreases h, 1
  {
    hide *;
    ghost var kid, preB, postB := t.kids[b], pre + LeavesAll(t.kids[..b]), LeavesAll(t.kids[b + 1..]) + post;
    StepReady(order, t, h, lo, pre, post, b);
    StepKeys(order, t, h, lo, pre, post, key, b);
    KidHead(order, t, h, lo, b, key);
    IndexStep(order, t, h, lo, pre, post);
    var child: Page := cur.children[b];
    ghost var oldKeys := cur.keys;
    var rightRootKey := if b < cur.size then cur.keys[b] else cur.keys[b - 1];
    ghost var k1;
    found, short, ra1, leftmost1, out, k1 := DeleteBelow(order, key, b, child, rightRootKey, ra, leftmostLeaf, out0, t, h, preB, postB,
                                                         Pages(kid), Others(t, b, b + 1), chain, own, post);
    t1 := t;
    if found {
      FollowsParts(ra1, key, kid, k1);
      ShrunkPages(order, Entry(key, out), kid, h - 1, preB, postB, k1, short);
      if ra1.action == SetBranchKey && foundHere {
        cur.keys := cur.keys[b - 1 := ra1.key1];
        ra1 := ra1.(action := NoAction);
      }
      ghost var keys1 := StoredKeys(t, order, b, oldKeys);
      SizesStepped(t, keys1, b, k1);
      StepIntro(order, Entry(key, out), t, h, lo, b, pre, post, k1, keys1, short);
      StepFollows(order, t, h, lo, b, key, k1, ra1, keys1);
      t1 := Node(cur, keys1, t.kids[b := k1]);
    }
  }

  lemma ShrunkPages(order: nat, e: Entry, t: Tree, h: nat, pre: seq<Page>, post: seq<Page>, t1: Tree, underflow: bool)
    requires Shrunk(order, e, t, h, pre, post, t1, underflow)
    ensures Pages(t1) <= Pages(t)
  {
  }

  lemma IndexStep(order: nat, t: Tree, h: nat, lo: int, pre: seq<Page>, post: seq<Page>)
    requires t.Node? && Bundled(t) && Ready(order, t, h, lo, pre, post)
    ensures 1 <= lo <= |t.keys| <= order && |t.page.children| == order + 1 && !t.page.isLeaf && t.page in Pages(t)
    ensures |t.page.keys| == |t.page.data| == order && t.page.size == |t.keys|
    ensures t.page.children[..|t.keys| + 1] == PagesOf(t.kids)
  {
    TopFields(t, order);
  }

  method FindDeleteRebalance(order: nat, key: Key, cur: Page, rightRootKey: Key, ra: ReturnAction, leftmostLeaf: Page, out0: Data,
                             ghost t: Tree, ghost h: nat, ghost lo: int, ghost pre: seq<Page>, ghost post: seq<Page>, ghost own: set<Page>,
                             ghost chain: seq<Page>)
    returns (found: bool, underflow: bool, ra1: ReturnAction, leftmost1: Page?, out: Data, ghost t1: Tree)
    requires t.page == cur && h > 0 && Ready(order, t, h, lo, pre, post) && own == Pages(t) && chain == pre + Leaves(t) + post
    requires ra.action == NoAction && chain != [] && chain[0] == leftmostLeaf && leftmostLeaf.isLeaf
    modifies own`keys, own`data, own`children, own`size, own`next, own`previous, Head(post)`previous
    ensures found <==> HasKey(Flat(t), key)
    ensures !found ==> unchanged(own) && unchanged(Head(post)) && ra1 == ra && out == out0 && !underflow
    ensures found ==> Shrunk(order, Entry(key, out), t, h, pre, post, t1, underflow) && Follows(ra1, key, t, t1)
    ensures found ==> Sizes(t1) == SizesWithout(t, key, order)
    ensures leftmost1 == leftmostLeaf
    decreases h, 2
  {
    hide *;
    ReadyPage(order, t, h, lo, pre, post);
    var foundHere, childIndex := GetIndexOf(order, key, cur);
    FollowReady(order, t, h, lo, pre, post, key, foundHere, childIndex);
    var branchIndex := if foundHere then childIndex + 1 else childIndex;
    IndexStep(order, t, h, lo, pre, post);
    SizesWithoutAt(order, t, h, lo, pre, post, key, branchIndex);
    HeadIs(post);
    leftmost1 := leftmostLeaf;
    ghost var t0;
    var short;
    var rightRootKey1 := rightRootKey;
    var child: Page := cur.children[branchIndex];
    if !child.isLeaf {
      found, short, ra1, leftmost1, out, t0 := StepIndex(order, key, branchIndex, foundHere, cur, ra, leftmostLeaf, out0, t, h, lo, pre, post,
                                                         own, chain);
      if found {
        SteppedKeys(order, Entry(key, out), t, h, branchIndex, pre, post, t0, short);
        rightRootKey1 := if branchIndex < cur.size then cur.keys[branchIndex] else cur.keys[branchIndex - 1];
      }
    } else {
      found, short, ra1, out, t0 := StepLeaf(order, key, branchIndex, cur, ra, out0, t, lo, pre, post, own, chain);
    }
    underflow, t1 := short, t0;
    if found {
      SteppedKeys(order, Entry(key, out), t, h, branchIndex, pre, post, t0, short);
      SteppedSizes(order, Entry(key, out), t, h, branchIndex, pre, post, t0, short);
      CountsAre(t0.kids);
      EvenedIs(Counts(t0.kids), branchIndex, order);
      if short {
        underflow, ra1, leftmost1, t1 := Repair(order, key, branchIndex, cur, rightRootKey1, ra1, leftmostLeaf, Entry(key, out), t, t0, h, pre, post, own);
      } else {
        SteppedWhole(order, Entry(key, out), t, h, branchIndex, pre, post, t0);
      }
    }
  }

  lemma SteppedKeys(order: nat, e: Entry, t: Tree, h: nat, b: int, pre: seq<Page>, post: seq<Page>, t1: Tree, short: bool)
    requires Stepped(order, e, t, h, b, pre, post, t1, short)
    ensures t1.Node? && |t1.kids| == |t1.keys| + 1 && 0 <= b < |t1.kids| && 1 <= |t1.keys| <= order
    ensures t.page.size == |t1.keys| && |t.page.keys| == order
  {
    TopFields(t1, order);
  }
}
