/** A tree that took an entry in: pages that split, and parents that take the new page in turn. */
module BPlusGrow {
  import opened Sequences
  import opened BPlusPage
  import opened BPlusShape
  import opened BPlusHeap
  import opened BPlusInsert

  /** A split page before its parent has seen it: an index page still counts the key it pushed up. */
  ghost predicate RepSplit(t: Tree, order: nat)
    reads Pages(t)`isLeaf, Pages(t)`size, Pages(t)`keys, Pages(t)`data, Pages(t)`children
  {
    Stored(t, order, Count(t) + if t.Leaf? then 0 else 1) && (t.Node? ==> RepAll(t.kids, order))
  }

  /** The tree `t` took `e` in and is now the one or two trees `r`. */
  ghost predicate Grown(order: nat, h: nat, lo: int, t: Tree, e: Entry, r: seq<Tree>, newPage: Page?)
    reads PagesIn(r)`isLeaf, PagesIn(r)`size, PagesIn(r)`keys, PagesIn(r)`data, PagesIn(r)`children
  {
    && 1 <= |r| <= 2 && r[0].page == t.page && DistinctAll(r) && Rep(r[0], order) && Inserted(Flat(t), e, FlatAll(r))
    && (|r| == 1 ==> newPage == null && WF(r[0], order, h, lo))
    && (|r| == 2 ==> newPage == r[1].page && RepSplit(r[1], order) && WF(r[0], order, h, order / 2) && WF(r[1], order, h, order / 2))
  }

  lemma FlatAllTwo(a: Tree, b: Tree)
    ensures FlatAll([a]) == Flat(a) && LeavesAll([a]) == Leaves(a)
    ensures FlatAll([a, b]) == Flat(a) + Flat(b) && LeavesAll([a, b]) == Leaves(a) + Leaves(b)
  {
    assert [a][1..] == [] && [a, b][1..] == [b] && [b][1..] == [];
    assert FlatAll([b]) == Flat(b) && LeavesAll([b]) == Leaves(b);
  }

  lemma GrownOne(order: nat, h: nat, lo: int, t: Tree, e: Entry, w: Tree)
    requires w.page == t.page && Rep(w, order) && Distinct(w) && WF(w, order, h, lo) && Inserted(Flat(t), e, Flat(w))
    ensures Grown(order, h, lo, t, e, [w], null) && LeavesAll([w]) == Leaves(w) && PagesIn([w]) == Pages(w)
  {
    FlatAllTwo(w, w);
    PagesOfTwo(w, w);
    hide Rep, Distinct, WF, Inserted, Pages, Flat, FlatAll;
  }

  lemma GrownTwo(order: nat, h: nat, lo: int, t: Tree, e: Entry, a: Tree, b: Tree)
    requires a.page == t.page && Rep(a, order) && RepSplit(b, order) && DistinctAll([a, b])
    requires WF(a, order, h, order / 2) && WF(b, order, h, order / 2) && Inserted(Flat(t), e, Flat(a) + Flat(b))
    ensures Grown(order, h, lo, t, e, [a, b], b.page)
    ensures LeavesAll([a, b]) == Leaves(a) + Leaves(b) && PagesIn([a, b]) == Pages(a) + Pages(b)
  {
    FlatAllTwo(a, b);
    PagesOfTwo(a, b);
    hide Rep, RepSplit, Distinct, DistinctAll, WF, Inserted, Pages, Flat, FlatAll;
  }

  lemma LeafGrown(order: nat, lo: int, t: Tree, e: Entry, i: nat, newPage: Page)
    requires order >= 4 && t.Leaf? && Count(t) == order && i <= order && t.page != newPage
    requires Inserted(Flat(t), e, InsertEntry(t, i, e).entries)
    requires var w, c := InsertEntry(t, i, e), Cut(order, i);
      Stored(TakeT(w, c), order, c) && Stored(DropT(w, c, newPage), order, order + 1 - c)
    ensures var w, c := InsertEntry(t, i, e), Cut(order, i); var r := [TakeT(w, c), DropT(w, c, newPage)];
      && Grown(order, 0, lo, t, e, r, newPage) && LeavesAll(r) == [t.page, newPage] && PagesIn(r) == {t.page, newPage}
      && newPage.isLeaf && newPage.Live(order) && newPage.size > 0 && Heads(newPage.keys[0], Flat(r[1]))
  {
    var w, c := InsertEntry(t, i, e), Cut(order, i);
    var a, b := TakeT(w, c), DropT(w, c, newPage);
    SplitWF(w, order, 0, i, newPage);
    StoredHead(b, order);
    LeafPages(a);
    LeafPages(b);
    assert [a, b][0] == a && [a, b][1] == b;
    assert DistinctAll([a, b]) && Rep(a, order) && RepSplit(b, order);
    hide Rep, RepSplit, DistinctAll, Distinct, Inserted, WF, Stored, Pages;
    GrownTwo(order, 0, lo, t, e, a, b);
  }

  lemma InsertedHead(es: seq<Entry>, e: Entry, es1: seq<Entry>)
    requires es != [] && es[0].key < e.key && Inserted(es, e, es1)
    ensures es1 != [] && es1[0] == es[0]
  {
    var p := InsertedAt(es, e, es1);
    assert es1[if p == 0 then 1 else 0] == es[0];
  }

  /** Child `b` followed for `e` took it in without a split. */
  lemma KidGrew(t: Tree, M: int, h: nat, lo: int, b: nat, e: Entry, k: Tree)
    requires M >= 4 && h > 0 && t.Node? && WF(t, M, h, lo) && Sorted(Flat(t)) && Branch(t.keys, e.key, b)
    requires b > 0 ==> t.keys[b - 1] != e.key
    requires WF(k, M, h - 1, M / 2) && Inserted(Flat(t.kids[b]), e, Flat(k))
    ensures Run(t.keys, t.kids[b := k], M, h) && Inserted(Flat(t), e, FlatAll(t.kids[b := k]))
    ensures LeavesAll(t.kids[b := k]) == LeavesAll(t.kids[..b]) + Leaves(k) + LeavesAll(t.kids[b + 1..])
  {
    BranchBounds(t.keys, t.kids, M, h, e.key, b);
    WFNonEmpty(t.kids[b], M, h - 1, M / 2);
    if b > 0 {
      assert Heads(t.keys[b - 1], Flat(t.kids[b]));
      InsertedHead(Flat(t.kids[b]), e, Flat(k));
      assert t.keys[b - 1 := t.keys[b - 1]] == t.keys;
    }
    RunReplace(t.keys, t.kids, M, h, b, if b > 0 then t.keys[b - 1] else 0, k);
    hide Sorted, Inserted, AllBelow, AllAbove, Run, WF;
    InsertedInside(FlatAll(t.kids[..b]), Flat(t.kids[b]), FlatAll(t.kids[b + 1..]), e, Flat(k));
  }

  /** Child `b` followed for `e` took it in and split in two. */
  lemma KidSplit(t: Tree, M: int, h: nat, lo: int, b: nat, e: Entry, k: Tree, n: Tree, sep: Key)
    requires M >= 4 && h > 0 && t.Node? && WF(t, M, h, lo) && Sorted(Flat(t)) && Branch(t.keys, e.key, b)
    requires b > 0 ==> t.keys[b - 1] != e.key
    requires WF(k, M, h - 1, M / 2) && WF(n, M, h - 1, M / 2) && Inserted(Flat(t.kids[b]), e, Flat(k) + Flat(n)) && Heads(sep, Flat(n))
    ensures var w := InsertKid(Node(t.page, t.keys, t.kids[b := k]), b, sep, n);
      Loose(w, M, h) && Inserted(Flat(t), e, Flat(w)) && Increasing(t.keys) && Place(t.keys, sep, b)
    ensures LeavesAll(InsertAt(t.kids[b := k], b + 1, n)) == LeavesAll(t.kids[..b]) + (Leaves(k) + Leaves(n)) + LeavesAll(t.kids[b + 1..])
  {
    var kids := t.kids[b := k];
    WFNonEmpty(t.kids[b], M, h - 1, M / 2);
    WFNonEmpty(k, M, h - 1, M / 2);
    if b > 0 {
      assert Heads(t.keys[b - 1], Flat(t.kids[b]));
      InsertedHead(Flat(t.kids[b]), e, Flat(k) + Flat(n));
      assert t.keys[b - 1 := t.keys[b - 1]] == t.keys;
    }
    RunReplace(t.keys, t.kids, M, h, b, if b > 0 then t.keys[b - 1] else 0, k);
    RunInsert(t.keys, kids, M, h, b, sep, n);
    KidSplitFlat(t, M, h, lo, b, e, k, n);
    KidSplitPlace(t.keys, InsertAt(kids, b + 1, n), M, h, b, sep);
  }

  lemma KidSplitFlat(t: Tree, M: int, h: nat, lo: int, b: nat, e: Entry, k: Tree, n: Tree)
    requires M >= 4 && h > 0 && t.Node? && WF(t, M, h, lo) && Sorted(Flat(t)) && Branch(t.keys, e.key, b)
    requires Inserted(Flat(t.kids[b]), e, Flat(k) + Flat(n))
    ensures Inserted(Flat(t), e, FlatAll(InsertAt(t.kids[b := k], b + 1, n)))
    ensures LeavesAll(InsertAt(t.kids[b := k], b + 1, n)) == LeavesAll(t.kids[..b]) + (Leaves(k) + Leaves(n)) + LeavesAll(t.kids[b + 1..])
  {
    BranchBounds(t.keys, t.kids, M, h, e.key, b);
    var kids1 := InsertAt(t.kids[b := k], b + 1, n);
    assert kids1[..b] == t.kids[..b] && kids1[b] == k && kids1[b + 1] == n && kids1[b + 2..] == t.kids[b + 1..];
    TwoAt(kids1, b);
    hide Sorted, Inserted, AllBelow, AllAbove, Run, WF, InsertAt;
    InsertedInside(FlatAll(t.kids[..b]), Flat(t.kids[b]), FlatAll(t.kids[b + 1..]), e, Flat(k) + Flat(n));
  }

  lemma KidSplitPlace(keys: seq<Key>, kids: seq<Tree>, M: int, h: nat, b: nat, sep: Key)
    requires M >= 4 && h > 0 && b <= |keys| && Run(InsertAt(keys, b, sep), kids, M, h) && Sorted(FlatAll(kids))
    ensures Increasing(keys) && Place(keys, sep, b)
  {
    var ks := InsertAt(keys, b, sep);
    RunIncreasing(ks, kids, M, h);
    hide Run, Sorted;
    assert ks[b] == sep;
    assert forall i :: 0 <= i < b ==> keys[i] == ks[i];
    assert forall i :: b <= i < |keys| ==> keys[i] == ks[i + 1];
  }

  /** The two halves of an overfull tree. */
  lemma SplitWF(w: Tree, M: int, h: nat, i: nat, page: Page)
    requires M >= 4 && Loose(w, M, h) && Count(w) == M + 1
    ensures var c := Cut(M, i); var l, r := TakeT(w, c), DropT(w, c, page);
      && WF(l, M, h, M / 2) && WF(r, M, h, M / 2) && Flat(w) == Flat(l) + Flat(r)
      && Heads(ViewT(w).keys[c], Flat(r)) && (w.Node? ==> Leaves(w) == Leaves(l) + Leaves(r))
  {
    CutT(w, M, h, Cut(M, i), page);
    LooseWF(TakeT(w, Cut(M, i)), M, h, M / 2);
    LooseWF(DropT(w, Cut(M, i), page), M, h, M / 2);
  }

  lemma LooseWF(t: Tree, M: int, h: nat, lo: int)
    requires Loose(t, M, h) && lo <= Count(t) <= M
    ensures WF(t, M, h, lo)
  {
  }

  // ---------------------------------------------------------------- the chain of leaves

  /** A new leaf linked in behind `cur`. */
  lemma LinkedNew(pre: seq<Page>, cur: Page, newPage: Page, post: seq<Page>)
    requires Linked(null, pre, cur) && cur.previous == Last(pre, null) && cur.next == newPage
    requires newPage.previous == cur && newPage.next == First(post, null)
    requires post != [] ==> post[0].previous == newPage && Chained(post, null)
    ensures Linked(null, pre + [cur, newPage] + post, null)
  {
    var mid := [cur, newPage];
    assert Linked(Last(pre, null), mid, First(post, null));
    assert Linked(newPage, post, null);
    hide Linked, Chained;
    LinkedParts(null, pre, mid, First(post, null));
    LinkedParts(null, pre + mid, post, null);
  }

  /** Around one leaf of the chain. */
  lemma LinkedAround(pre: seq<Page>, cur: Page, post: seq<Page>)
    requires Linked(null, pre + [cur] + post, null) && NoDup(pre + [cur] + post)
    ensures Linked(null, pre, cur) && cur.previous == Last(pre, null) && cur.next == First(post, null)
    ensures post != [] ==> post[0].previous == cur && Chained(post, null)
    ensures cur !in pre && cur !in post && forall p :: p in pre ==> p !in post
    ensures post != [] ==> post[0] !in post[1..]
  {
    LinkedParts(null, pre + [cur], post, null);
    LinkedParts(null, pre, [cur], First(post, null));
    NoDupAround(pre, cur, post);
    assert Linked(Last(pre, null), [cur], First(post, null));
    assert Chained([cur], First(post, null));
  }

  /** A page, and the new leaf behind it, after it took a key in and split. */
  lemma StoredHalves(order: nat, t: Tree, key: Key, data: Data, i: nat, cur: Page, newPage: Page, v: View,
          ra: ReturnAction, ra1: ReturnAction)
    requires order >= 4 && t.Leaf? && t.page == cur && Count(t) == order && i <= order && v == ViewT(t)
    requires Halved(order, Insert(v, i, key, data, null), Cut(order, i), cur, newPage, ra, ra1)
    ensures var w, c := InsertEntry(t, i, Entry(key, data)), Cut(order, i);
      Stored(TakeT(w, c), order, c) && Stored(DropT(w, c, newPage), order, order + 1 - c) && ra1 == ra
  {
    var w, c := InsertEntry(t, i, Entry(key, data)), Cut(order, i);
    ViewInsertEntry(t, i, Entry(key, data), null);
    ViewCut(w, c, newPage);
    hide Insert, Take, Drop, TakeT, DropT, InsertEntry, ViewT;
  }

  /** A leaf takes a key in, and a new leaf is linked in behind it if it was full. */
  method InsertIntoLeaf(order: nat, key: Key, data: Data, insertionIndex: int, cur: Page, ra: ReturnAction,
                        ghost t: Tree, ghost pre: seq<Page>, ghost post: seq<Page>)
    returns (newPage: Page?, ra1: ReturnAction)
    requires order >= 4 && t.Leaf? && t.page == cur && Stored(t, order, Count(t))
    requires Place(KeysOf(t.entries), key, insertionIndex) && Sorted(t.entries)
    requires Linked(null, pre + [cur] + post, null) && NoDup(pre + [cur] + post)
    modifies cur, (if post == [] then {} else {post[0]})`previous
    ensures ra1 == ra
    ensures var w := InsertEntry(t, insertionIndex, Entry(key, data)); var c := Cut(order, insertionIndex);
      if Count(t) < order then
        newPage == null && Stored(w, order, Count(w)) && Linked(null, pre + [cur] + post, null)
      else
        newPage != null && fresh(newPage) && Stored(TakeT(w, c), order, c) && Stored(DropT(w, c, newPage), order, order + 1 - c)
        && Linked(null, pre + [cur, newPage] + post, null)
  {
    hide *;
    LinkedAround(pre, cur, post);
    FirstIs(post);
    LeafIsStored(t, order);
    PlaceIn(t.entries, key, insertionIndex);
    InsertedCount(t, insertionIndex, Entry(key, data));
    ghost var v := ViewT(t);
    newPage, ra1 := InsertIntoNode(order, key, data, insertionIndex, null, cur, ra);
    if newPage == null {
      StoredInserted(order, t, key, data, insertionIndex, v);
    } else {
      LinkedNew(pre, cur, newPage, post);
      StoredHalves(order, t, key, data, insertionIndex, cur, newPage, v, ra, ra1);
    }
  }

  lemma LeafIsStored(t: Tree, order: nat)
    requires t.Leaf? && Stored(t, order, Count(t)) && Sorted(t.entries)
    ensures t.page.Live(order) && t.page.size == Count(t) == |t.entries| <= order && t.page.isLeaf && t.page.Now(order) == ViewT(t)
    ensures |t.page.keys| == order && (t.page.size == order ==> t.page.keys == KeysOf(t.entries) && Increasing(t.page.keys))
  {
    assert t.page.keys[..t.page.size] == KeysOf(t.entries) && Increasing(KeysOf(t.entries));
    assert t.page.size == order ==> t.page.keys[..t.page.size] == t.page.keys;
  }

  lemma FirstIs(ls: seq<Page>)
    ensures First(ls, null) == if ls == [] then null else ls[0]
  {
  }

  lemma InsertedCount(t: Tree, i: nat, e: Entry)
    requires t.Leaf? && i <= |t.entries|
    ensures Count(InsertEntry(t, i, e)) == Count(t) + 1
  {
  }

  lemma PlaceIn(es: seq<Entry>, key: Key, i: int)
    requires Place(KeysOf(es), key, i)
    ensures 0 <= i <= |es|
  {
  }

  lemma StoredInserted(order: nat, t: Tree, key: Key, data: Data, i: nat, v: View)
    requires t.Leaf? && i <= Count(t) < order && v == ViewT(t)
    requires t.page.Live(order) && t.page.Now(order) == Insert(v, i, key, data, null)
    ensures Stored(InsertEntry(t, i, Entry(key, data)), order, Count(t) + 1)
  {
    ViewInsertEntry(t, i, Entry(key, data), null);
  }

  method LeafGrow(order: nat, key: Key, data: Data, insertionIndex: int, cur: Page, ra: ReturnAction,
                  ghost t: Tree, ghost lo: int, ghost pre: seq<Page>, ghost post: seq<Page>)
    returns (newPage: Page?, ra1: ReturnAction, ghost r: seq<Tree>)
    requires order >= 4 && t.Leaf? && t.page == cur && Stored(t, order, Count(t)) && WF(t, order, 0, lo) && lo <= order / 2
    requires Place(KeysOf(t.entries), key, insertionIndex) && Sorted(t.entries)
    requires Linked(null, pre + [cur] + post, null) && NoDup(pre + [cur] + post)
    modifies cur, (if post == [] then {} else {post[0]})`previous
    ensures ra1 == ra && Grown(order, 0, lo, t, Entry(key, data), r, newPage) && Linked(null, pre + LeavesAll(r) + post, null)
    ensures fresh(PagesIn(r) - {cur}) && LeavesAll(r) != [] && LeavesAll(r)[0] == cur
    ensures |LeavesAll(r)| == if Count(t) < order then 1 else 2
    ensures SizesAll(r) == LeafSizesAfter(t.entries, key, order)
    ensures newPage != null ==> newPage.isLeaf && newPage.Live(order) && newPage.size > 0 && Heads(newPage.keys[0], Flat(r[1]))
  {
    ghost var e := Entry(key, data);
    ghost var w, c := InsertEntry(t, insertionIndex, e), Cut(order, insertionIndex);
    InsertedByPlace(t.entries, insertionIndex, e);
    assert w.entries == InsertAt(t.entries, insertionIndex, e) && Count(t) <= order;
    hide Place, Sorted, Linked, NoDup, Inserted, Stored, WF, InsertEntry, TakeT, DropT, Grown, Heads, PagesIn, LeavesAll;
    newPage, ra1 := InsertIntoLeaf(order, key, data, insertionIndex, cur, ra, t, pre, post);
    if newPage == null {
      r := [w];
      LeafPages(w);
      LeafGrewInPlace(order, lo, t, e, insertionIndex);
      SizesOf(w);
      GrownSizes(t, order, key, insertionIndex, w, w);
    } else {
      r := [TakeT(w, c), DropT(w, c, newPage)];
      LeafGrown(order, lo, t, e, insertionIndex, newPage);
      HalvesOf(w, c, newPage);
      SizesOfTwo(TakeT(w, c), DropT(w, c, newPage));
      GrownSizes(t, order, key, insertionIndex, TakeT(w, c), DropT(w, c, newPage));
    }
  }

  lemma HalvesOf(w: Tree, c: nat, page: Page)
    requires w.Leaf? && c < Count(w)
    ensures TakeT(w, c).Leaf? && DropT(w, c, page).Leaf?
    ensures |TakeT(w, c).entries| == c && |DropT(w, c, page).entries| == |w.entries| - c
  {
  }

  lemma GrownSizes(t: Tree, order: nat, key: Key, i: nat, a: Tree, b: Tree)
    requires order >= 4 && t.Leaf? && Place(KeysOf(t.entries), key, i) && |t.entries| <= order && a.Leaf? && b.Leaf?
    requires if |t.entries| < order then |a.entries| == |t.entries| + 1
             else |a.entries| == Cut(order, i) && |b.entries| == order + 1 - Cut(order, i)
    ensures LeafSizesAfter(t.entries, key, order) == if |t.entries| < order then Sizes(a) else Sizes(a) + Sizes(b)
  {
    SizesOf(a);
    SizesOf(b);
    if |t.entries| == order {
      assert KeysOf(t.entries)[(order + 1) / 2 - 1] == t.entries[(order + 1) / 2 - 1].key;
    }
  }

  lemma LeafGrewInPlace(order: nat, lo: int, t: Tree, e: Entry, i: nat)
    requires t.Leaf? && WF(t, order, 0, lo) && i <= Count(t) < order
    requires Inserted(Flat(t), e, InsertEntry(t, i, e).entries) && Stored(InsertEntry(t, i, e), order, Count(t) + 1)
    ensures var r := [InsertEntry(t, i, e)];
      Grown(order, 0, lo, t, e, r, null) && LeavesAll(r) == [t.page] && PagesIn(r) == {t.page}
  {
    var w := InsertEntry(t, i, e);
    LeafPages(w);
    hide Inserted, Stored, Pages;
    GrownOne(order, 0, lo, t, e, w);
  }

  lemma StoredHead(t: Tree, order: nat)
    requires t.Leaf? && Stored(t, order, Count(t)) && Count(t) > 0
    ensures t.page.isLeaf && t.page.Live(order) && t.page.size > 0 && Heads(t.page.keys[0], Flat(t))
  {
    assert t.page.keys[..Count(t)][0] == t.page.keys[0];
    assert ViewT(t).keys[0] == t.entries[0].key;
  }

  // ---------------------------------------------------------------- index pages

  lemma CutDistinct(w: Tree, c: nat, page: Page)
    requires w.Node? && Bundled(w) && c < Count(w) && DistinctAll(w.kids)
    requires w.page !in PagesIn(w.kids) && page !in PagesIn(w.kids) && page != w.page
    ensures DistinctAll([TakeT(w, c), DropT(w, c, page)])
    ensures PagesIn([TakeT(w, c), DropT(w, c, page)]) == PagesIn(w.kids) + {w.page, page}
  {
    hide *;
    var l, r := TakeT(w, c), DropT(w, c, page);
    CutKids(w, c, page);
    HalvesApart(w.kids, c + 1);
    NodeDistinct(l);
    NodeDistinct(r);
    PagesOfTwo(l, r);
    PairIntro(l, r);
  }

  lemma CutKids(w: Tree, c: nat, page: Page)
    requires w.Node? && Bundled(w) && c < Count(w)
    ensures |w.kids| == Count(w) + 1
    ensures var l, r := TakeT(w, c), DropT(w, c, page);
      l.Node? && r.Node? && l.page == w.page && r.page == page && l.kids == w.kids[..c + 1] && r.kids == w.kids[c + 1..]
  {
  }

  /** The two parts of a run. */
  lemma HalvesApart(ts: seq<Tree>, i: nat)
    requires DistinctAll(ts) && i <= |ts|
    ensures DistinctAll(ts[..i]) && DistinctAll(ts[i..]) && PagesIn(ts[..i]) !! PagesIn(ts[i..])
    ensures PagesIn(ts) == PagesIn(ts[..i]) + PagesIn(ts[i..])
  {
    assert ts == ts[..i] + ts[i..];
    PagesInConcat(ts[..i], ts[i..]);
    forall p | p in PagesIn(ts[i..]) ensures p !in PagesIn(ts[..i]) {
      LaterApart(ts, i, p);
    }
  }

  lemma LaterApart(ts: seq<Tree>, i: nat, p: Page)
    requires DistinctAll(ts) && i <= |ts| && p in PagesIn(ts[i..])
    ensures p !in PagesIn(ts[..i])
  {
    var r := ts[i..];
    var k :| 0 <= k < |r| && p in Pages(r[k]);
    assert r[k] == ts[i + k] && ts[0..i] == ts[..i];
    hide *;
    ApartFrom(ts, i + k, 0, i);
  }

  lemma PairIntro(l: Tree, r: Tree)
    requires Distinct(l) && Distinct(r) && Pages(l) !! Pages(r)
    ensures DistinctAll([l, r])
  {
    assert [l, r][0] == l && [l, r][1] == r;
  }

  lemma PagesOfTwo(a: Tree, b: Tree)
    ensures PagesIn([a, b]) == Pages(a) + Pages(b) && PagesIn([a]) == Pages(a)
  {
    assert [a, b][0] == a && [a, b][1] == b && [a][0] == a;
  }

  lemma RepCut(w: Tree, order: nat, c: nat, page: Page)
    requires w.Node? && Bundled(w) && c < Count(w) && RepAll(w.kids, order)
    requires Stored(TakeT(w, c), order, c) && Stored(DropT(w, c, page), order, Count(w) - c)
    ensures Rep(TakeT(w, c), order) && RepSplit(DropT(w, c, page), order)
  {
  }

  lemma StoredIndexHalves(order: nat, t: Tree, key: Key, data: Data, i: nat, n: Tree, newPage: Page, ra: ReturnAction, ra1: ReturnAction)
    requires order >= 4 && t.Node? && Bundled(t) && Count(t) == order && i <= order
    requires Halved(order, Insert(ViewT(t), i, key, data, n.page), Cut(order, i), t.page, newPage, ra, ra1)
    ensures var w, c := InsertKid(t, i, key, n), Cut(order, i);
      Stored(TakeT(w, c), order, c) && Stored(DropT(w, c, newPage), order, order + 1 - c)
      && ra1 == ReturnAction(PushKeyToParent, ViewT(w).keys[c], ra.key2)
  {
    var w, c := InsertKid(t, i, key, n), Cut(order, i);
    ViewInsertKid(t, i, key, data, n);
    ViewCut(w, c, newPage);
    hide Insert, Take, Drop, TakeT, DropT, InsertKid, ViewT;
  }

  /** An index page takes the key and page its child pushed up. */
  method IndexPages(order: nat, key: Key, data: Data, insertionIndex: int, nodeData: Page, cur: Page, ra: ReturnAction,
                    ghost t: Tree, ghost n: Tree, ghost others: set<Page>)
    returns (newPage: Page?, ra1: ReturnAction)
    requires order >= 4 && t.Node? && Bundled(t) && t.page == cur && n.page == nodeData && Stored(t, order, Count(t))
    requires Place(t.keys, key, insertionIndex) && Increasing(t.keys)
    requires var w := InsertKid(t, insertionIndex, key, n); RepAll(w.kids, order) && others == PagesIn(w.kids) && cur !in others
    modifies cur
    ensures cur.next == old(cur.next) && cur.previous == old(cur.previous)
    ensures var w := InsertKid(t, insertionIndex, key, n); var c := Cut(order, insertionIndex);
      && RepAll(w.kids, order)
      && (newPage == null <==> Count(t) < order)
      && (newPage == null ==> Stored(w, order, Count(w)) && ra1 == ra)
      && (newPage != null ==>
            && fresh(newPage)
            && Stored(TakeT(w, c), order, c) && Stored(DropT(w, c, newPage), order, order + 1 - c)
            && ra1 == ReturnAction(PushKeyToParent, ViewT(w).keys[c], ra.key2))
  {
    TopFields(t, order);
    assert cur.keys[..cur.size] == t.keys;
    assert cur.size == order ==> cur.keys[..cur.size] == cur.keys;
    ghost var v, w := cur.Now(order), InsertKid(t, insertionIndex, key, n);
    assert v == ViewT(t);
    hide Place, Increasing, ViewT, Stored, Insert, Halved, RepAll, InsertKid;
    newPage, ra1 := InsertIntoNode(order, key, data, insertionIndex, nodeData, cur, ra);
    if newPage == null {
      StoredKid(order, t, key, data, insertionIndex, n);
    } else {
      StoredIndexHalves(order, t, key, data, insertionIndex, n, newPage, ra, ra1);
    }
  }

  lemma StoredKid(order: nat, t: Tree, key: Key, data: Data, i: nat, n: Tree)
    requires t.Node? && Bundled(t) && i <= Count(t) < order
    requires t.page.Live(order) && t.page.Now(order) == Insert(ViewT(t), i, key, data, n.page)
    ensures Stored(InsertKid(t, i, key, n), order, Count(t) + 1)
  {
    ViewInsertKid(t, i, key, data, n);
  }

  lemma IndexGrown(order: nat, h: nat, lo: int, t: Tree, e: Entry, w: Tree, i: nat, newPage: Page)
    requires order >= 4 && w.Node? && w.page == t.page && Loose(w, order, h) && Count(w) == order + 1 && RepAll(w.kids, order)
    requires DistinctAll(w.kids) && w.page !in PagesIn(w.kids) && newPage !in PagesIn(w.kids) && newPage != w.page
    requires Inserted(Flat(t), e, Flat(w))
    requires var c := Cut(order, i); Stored(TakeT(w, c), order, c) && Stored(DropT(w, c, newPage), order, order + 1 - c)
    ensures var c := Cut(order, i); var r := [TakeT(w, c), DropT(w, c, newPage)];
      && Grown(order, h, lo, t, e, r, newPage) && LeavesAll(r) == Leaves(w) && PagesIn(r) == PagesIn(w.kids) + {w.page, newPage}
      && !newPage.isLeaf && Heads(ViewT(w).keys[c], Flat(r[1]))
  {
    var c := Cut(order, i);
    var a, b := TakeT(w, c), DropT(w, c, newPage);
    SplitWF(w, order, h, i, newPage);
    RepCut(w, order, c, newPage);
    CutDistinct(w, c, newPage);
    hide Rep, RepSplit, RepAll, DistinctAll, Distinct, Inserted, WF, Loose, ViewT, Pages, PagesIn;
    GrownTwo(order, h, lo, t, e, a, b);
  }

  lemma IndexGrewInPlace(order: nat, h: nat, lo: int, t: Tree, e: Entry, w: Tree)
    requires w.Node? && w.page == t.page && Loose(w, order, h) && lo <= Count(w) <= order && RepAll(w.kids, order)
    requires DistinctAll(w.kids) && w.page !in PagesIn(w.kids) && Inserted(Flat(t), e, Flat(w)) && Stored(w, order, Count(w))
    ensures Grown(order, h, lo, t, e, [w], null) && LeavesAll([w]) == Leaves(w) && PagesIn([w]) == PagesIn(w.kids) + {w.page}
  {
    assert Rep(w, order) && Distinct(w) && WF(w, order, h, lo);
    assert Pages(w) == PagesIn(w.kids) + {w.page};
    hide Rep, RepAll, DistinctAll, Distinct, Inserted, WF, Loose, Pages, PagesIn, Stored;
    GrownOne(order, h, lo, t, e, w);
  }

  lemma KidIn(t: Tree, b: int, sep: Key, n: Tree)
    requires t.Node? && Bundled(t) && Place(t.keys, sep, b)
    ensures 0 <= b <= |t.keys| == Count(t)
    ensures var w := InsertKid(t, b, sep, n); w.page == t.page && w.Node? && Count(w) == Count(t) + 1
  {
  }

  /** Cutting a node leaves its leaves as they are. */
  lemma SizesCut(w: Tree, c: nat, page: Page)
    requires w.Node? && Bundled(w) && c < Count(w)
    ensures SizesAll([TakeT(w, c), DropT(w, c, page)]) == Sizes(w)
  {
    hide *;
    CutKids(w, c, page);
    SizesOfTwo(TakeT(w, c), DropT(w, c, page));
    SizesOf(w);
    SizesOf(TakeT(w, c));
    SizesOf(DropT(w, c, page));
    SizesAllConcat(w.kids[..c + 1], w.kids[c + 1..]);
    assert w.kids == w.kids[..c + 1] + w.kids[c + 1..];
  }

  method IndexGrow(order: nat, sep: Key, data: Data, b: int, nodeData: Page, cur: Page, ra: ReturnAction,
                   ghost t: Tree, ghost h: nat, ghost lo: int, ghost e: Entry, ghost w0: Tree, ghost n: Tree, ghost others: set<Page>)
    returns (newPage: Page?, ra1: ReturnAction, ghost r: seq<Tree>)
    requires order >= 4 && t.page == cur && w0.Node? && Bundled(w0) && w0.page == cur && n.page == nodeData && Stored(w0, order, Count(w0))
    requires Place(w0.keys, sep, b) && Increasing(w0.keys) && lo <= Count(w0) <= order
    requires var w := InsertKid(w0, b, sep, n);
      && RepAll(w.kids, order) && others == PagesIn(w.kids) && cur !in others && DistinctAll(w.kids)
      && Loose(w, order, h) && Inserted(Flat(t), e, Flat(w))
    modifies cur
    ensures cur.next == old(cur.next) && cur.previous == old(cur.previous)
    ensures Grown(order, h, lo, t, e, r, newPage) && LeavesAll(r) == Leaves(InsertKid(w0, b, sep, n))
    ensures SizesAll(r) == Sizes(InsertKid(w0, b, sep, n))
    ensures fresh(PagesIn(r) - ({cur} + others))
    ensures if newPage == null then ra1 == ra
            else !newPage.isLeaf && ra1.action == PushKeyToParent && |r| == 2 && Heads(ra1.key1, Flat(r[1]))
  {
    hide *;
    KidIn(w0, b, sep, n);
    ghost var w, c := InsertKid(w0, b, sep, n), Cut(order, b);
    newPage, ra1 := IndexPages(order, sep, data, b, nodeData, cur, ra, w0, n, others);
    if newPage == null {
      r := [w];
      IndexGrewInPlace(order, h, lo, t, e, w);
      SizesOf(w);
    } else {
      r := [TakeT(w, c), DropT(w, c, newPage)];
      IndexGrown(order, h, lo, t, e, w, b, newPage);
      SizesCut(w, c, newPage);
    }
  }
}
