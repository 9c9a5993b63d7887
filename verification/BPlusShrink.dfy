/** Deletion: an entry leaves a leaf, and a page that falls below half full borrows from a
    neighbour or merges with one. */
module BPlusShrink {
  import opened Sequences
  import opened BPlusPage
  import opened BPlusShape
  import opened BPlusHeap
  import opened BPlusInsert
  import opened BPlusGrow
  import opened BPlusDescend

  // ---------------------------------------------------------------- order without occupancy

  /** A run whose children are in order below their own top pages, whatever the size of those. */
  ghost predicate Spine(keys: seq<Key>, kids: seq<Tree>, M: int, h: nat)
    requires h > 0
  {
    && |kids| == |keys| + 1
    && (forall i :: 0 <= i < |kids| ==> Loose(kids[i], M, h - 1) && Flat(kids[i]) != [])
    && (forall i :: 1 <= i < |kids| ==> Heads(keys[i - 1], Flat(kids[i])))
  }

  /** Every child but child `b` is at least half full, and none is overfull. */
  ghost predicate HalfFull(kids: seq<Tree>, M: int, b: int) {
    forall i :: 0 <= i < |kids| && i != b ==> M / 2 <= Count(kids[i]) <= M
  }

  lemma RunSpine(keys: seq<Key>, kids: seq<Tree>, M: int, h: nat)
    requires M >= 4 && h > 0 && Run(keys, kids, M, h)
    ensures Spine(keys, kids, M, h) && HalfFull(kids, M, -1)
  {
    RunNonEmpty(keys, kids, M, h);
    forall i | 0 <= i < |kids| ensures Loose(kids[i], M, h - 1) && M / 2 <= Count(kids[i]) <= M {
      assert WF(kids[i], M, h - 1, M / 2);
    }
  }

  lemma SpineRun(keys: seq<Key>, kids: seq<Tree>, M: int, h: nat)
    requires h > 0 && Spine(keys, kids, M, h) && HalfFull(kids, M, -1)
    ensures Run(keys, kids, M, h)
  {
    forall i | 0 <= i < |kids| ensures WF(kids[i], M, h - 1, M / 2) {
      LooseWF(kids[i], M, h - 1, M / 2);
    }
  }

  lemma SpineReplace(keys: seq<Key>, kids: seq<Tree>, M: int, h: nat, b: nat, k: Key, t: Tree)
    requires h > 0 && Spine(keys, kids, M, h) && b < |kids| && Loose(t, M, h - 1) && Flat(t) != []
    requires b > 0 ==> Heads(k, Flat(t))
    ensures Spine(if b == 0 then keys else keys[b - 1 := k], kids[b := t], M, h)
  {
    hide Loose;
  }

  lemma SpineTwo(keys: seq<Key>, kids: seq<Tree>, M: int, h: nat, j: nat, l: Tree, sep: Key, r: Tree)
    requires h > 0 && Spine(keys, kids, M, h) && j + 1 < |kids| && Loose(l, M, h - 1) && Loose(r, M, h - 1) && Flat(l) != []
    requires Heads(sep, Flat(r)) && Flat(l) + Flat(r) == Flat(kids[j]) + Flat(kids[j + 1])
    ensures Spine(keys[j := sep], kids[j := l][j + 1 := r], M, h)
    ensures FlatAll(kids[j := l][j + 1 := r]) == FlatAll(kids)
  {
    FirstOfTwo(Flat(l), Flat(r), Flat(kids[j]), Flat(kids[j + 1]));
    assert j > 0 ==> Heads(keys[j - 1], Flat(kids[j])) && Heads(keys[j - 1], Flat(l)) && keys[j - 1 := keys[j - 1]] == keys;
    SpineReplace(keys, kids, M, h, j, if j > 0 then keys[j - 1] else 0, l);
    SpineReplace(keys, kids[j := l], M, h, j + 1, sep, r);
    hide Spine, Loose, Heads;
    FlatTwo(kids, j, l, r);
  }

  lemma FirstOfTwo(l: seq<Entry>, r: seq<Entry>, l0: seq<Entry>, r0: seq<Entry>)
    requires l != [] && l0 != [] && l + r == l0 + r0
    ensures l[0] == l0[0]
  {
    assert (l + r)[0] == l[0] && (l0 + r0)[0] == l0[0];
  }

  lemma FlatTwo(kids: seq<Tree>, j: nat, l: Tree, r: Tree)
    requires j + 1 < |kids| && Flat(l) + Flat(r) == Flat(kids[j]) + Flat(kids[j + 1])
    ensures FlatAll(kids[j := l][j + 1 := r]) == FlatAll(kids)
  {
    var kids1 := kids[j := l][j + 1 := r];
    TwoAt(kids, j);
    TwoAt(kids1, j);
    assert kids1[..j] == kids[..j] && kids1[j + 2..] == kids[j + 2..];
  }

  /** The child to the right of child `b` taken out, with the separator before it. */
  lemma SpineRemove(keys: seq<Key>, kids: seq<Tree>, M: int, h: nat, b: nat)
    requires h > 0 && Spine(keys, kids, M, h) && b + 1 < |kids|
    ensures Spine(RemoveAt(keys, b), RemoveAt(kids, b + 1), M, h)
  {
    hide Loose;
    var keys1, kids1 := RemoveAt(keys, b), RemoveAt(kids, b + 1);
    forall i | 1 <= i < |kids1| ensures Heads(keys1[i - 1], Flat(kids1[i])) {
      if i > b {
        assert Heads(keys[i + 1 - 1], Flat(kids[i + 1]));
      }
    }
  }

  lemma SpineMerge(keys: seq<Key>, kids: seq<Tree>, M: int, h: nat, j: nat, m: Tree)
    requires h > 0 && Spine(keys, kids, M, h) && j + 1 < |kids| && Loose(m, M, h - 1)
    requires Flat(m) == Flat(kids[j]) + Flat(kids[j + 1])
    ensures Spine(RemoveAt(keys, j), RemoveAt(kids[j := m], j + 1), M, h)
    ensures FlatAll(RemoveAt(kids[j := m], j + 1)) == FlatAll(kids)
  {
    assert Flat(m)[0] == Flat(kids[j])[0];
    assert j > 0 ==> Heads(keys[j - 1], Flat(kids[j])) && Heads(keys[j - 1], Flat(m)) && keys[j - 1 := keys[j - 1]] == keys;
    SpineReplace(keys, kids, M, h, j, if j > 0 then keys[j - 1] else 0, m);
    SpineRemove(keys, kids[j := m], M, h, j);
    hide Spine, Loose, Heads;
    FlatMerge(kids, j, m);
  }

  lemma FlatMerge(kids: seq<Tree>, j: nat, m: Tree)
    requires j + 1 < |kids| && Flat(m) == Flat(kids[j]) + Flat(kids[j + 1])
    ensures FlatAll(RemoveAt(kids[j := m], j + 1)) == FlatAll(kids)
  {
    var kids1 := RemoveAt(kids[j := m], j + 1);
    TwoAt(kids, j);
    FlatAllAt(kids1, j);
    assert kids1[..j] == kids[..j] && kids1[j + 1..] == kids[j + 2..] && kids1[j] == m;
  }

  lemma HalfFullTwo(kids: seq<Tree>, M: int, b: nat, j: nat, l: Tree, r: Tree)
    requires HalfFull(kids, M, b) && j + 1 < |kids| && (b == j || b == j + 1)
    requires M / 2 <= Count(l) <= M && M / 2 <= Count(r) <= M
    ensures HalfFull(kids[j := l][j + 1 := r], M, -1)
  {
  }

  lemma HalfFullMerge(kids: seq<Tree>, M: int, b: nat, j: nat, m: Tree)
    requires HalfFull(kids, M, b) && j + 1 < |kids| && (b == j || b == j + 1) && M / 2 <= Count(m) <= M
    ensures HalfFull(RemoveAt(kids[j := m], j + 1), M, -1)
  {
    var kids1 := RemoveAt(kids[j := m], j + 1);
    forall i | 0 <= i < |kids1| ensures M / 2 <= Count(kids1[i]) <= M {
      assert kids1[i] == if i < j then kids[i] else if i == j then m else kids[i + 1];
    }
  }

  // ---------------------------------------------------------------- two siblings put right

  /** Neighbours `j` and `j + 1` of `t` after keys moved between them: the two sides of their join cut at `c`. */
  lemma PairMoved(t: Tree, M: int, h: nat, b: nat, j: nat, c: nat, page: Page)
    requires M >= 4 && h > 0 && t.Node? && Bundled(t) && Spine(t.keys, t.kids, M, h) && HalfFull(t.kids, M, b)
    requires j < |t.keys| && (b == j || b == j + 1) && t.kids[j].Leaf? == t.kids[j + 1].Leaf?
    requires M / 2 - 1 <= Count(t.kids[b])
    requires var n := Count(t.kids[j]) + Count(t.kids[j + 1]) + if t.kids[j].Leaf? then 0 else 1;
             c < n && M / 2 <= c <= M && M / 2 <= n - c - (if t.kids[j].Leaf? then 0 else 1) <= M
    ensures var w := JoinT(t.kids[j], t.keys[j], t.kids[j + 1]); var l, r := TakeT(w, c), DropT(w, c, page);
      && Loose(w, M, h - 1)
      && var t1 := WithTwo(t, j, l, ViewT(w).keys[c], r);
         Loose(t1, M, h) && Flat(t1) == Flat(t)
    ensures t.kids[j].Node? ==> var w := JoinT(t.kids[j], t.keys[j], t.kids[j + 1]); var l, r := TakeT(w, c), DropT(w, c, page);
                                 Leaves(l) + Leaves(r) == Leaves(t.kids[j]) + Leaves(t.kids[j + 1])
  {
    assert Heads(t.keys[j + 1 - 1], Flat(t.kids[j + 1]));
    LooseJoin(t.kids[j], t.keys[j], t.kids[j + 1], M, h - 1);
    var w := JoinT(t.kids[j], t.keys[j], t.kids[j + 1]);
    CutT(w, M, h - 1, c, page);
    var l, r := TakeT(w, c), DropT(w, c, page);
    LooseWF(l, M, h - 1, M / 2);
    WFNonEmpty(l, M, h - 1, M / 2);
    hide Loose, WF;
    SpineTwo(t.keys, t.kids, M, h, j, l, ViewT(w).keys[c], r);
    HalfFullTwo(t.kids, M, b, j, l, r);
    SpineRun(t.keys[j := ViewT(w).keys[c]], t.kids[j := l][j + 1 := r], M, h);
    NodeLoose(WithTwo(t, j, l, ViewT(w).keys[c], r), M, h);
  }

  lemma NodeLoose(t: Tree, M: int, h: nat)
    requires t.Node? && h > 0 && Run(t.keys, t.kids, M, h)
    ensures Loose(t, M, h)
  {
  }

  /** The node without child `j + 1`, merged into child `j`. */
  ghost function Merged(t: Tree, j: nat, m: Tree): (t1: Tree)
    requires t.Node? && Bundled(t) && j < |t.keys|
    ensures Bundled(t1)
  {
    Node(t.page, RemoveAt(t.keys, j), RemoveAt(t.kids[j := m], j + 1))
  }

  lemma PairMerged(t: Tree, M: int, h: nat, b: nat, j: nat)
    requires M >= 4 && h > 0 && t.Node? && Bundled(t) && Spine(t.keys, t.kids, M, h) && HalfFull(t.kids, M, b)
    requires j < |t.keys| && (b == j || b == j + 1) && t.kids[j].Leaf? == t.kids[j + 1].Leaf?
    requires M / 2 <= Count(t.kids[j]) + Count(t.kids[j + 1]) && Count(t.kids[j]) + Count(t.kids[j + 1]) < M
    ensures var m := JoinT(t.kids[j], t.keys[j], t.kids[j + 1]);
      Loose(Merged(t, j, m), M, h) && Flat(Merged(t, j, m)) == Flat(t)
      && (t.kids[j].Node? ==> Leaves(m) == Leaves(t.kids[j]) + Leaves(t.kids[j + 1]))
  {
    assert Heads(t.keys[j + 1 - 1], Flat(t.kids[j + 1]));
    LooseJoin(t.kids[j], t.keys[j], t.kids[j + 1], M, h - 1);
    var m := JoinT(t.kids[j], t.keys[j], t.kids[j + 1]);
    hide Loose;
    SpineMerge(t.keys, t.kids, M, h, j, m);
    HalfFullMerge(t.kids, M, b, j, m);
    SpineRun(RemoveAt(t.keys, j), RemoveAt(t.kids[j := m], j + 1), M, h);
    NodeLoose(Merged(t, j, m), M, h);
  }

  lemma MergedLeaves(t: Tree, j: nat, m: Tree)
    requires t.Node? && Bundled(t) && j < |t.keys|
    ensures LeavesAll(t.kids) == LeavesAll(t.kids[..j]) + (Leaves(t.kids[j]) + Leaves(t.kids[j + 1])) + LeavesAll(t.kids[j + 2..])
    ensures Leaves(Merged(t, j, m)) == LeavesAll(t.kids[..j]) + Leaves(m) + LeavesAll(t.kids[j + 2..])
  {
    TwoAt(t.kids, j);
    var kids1 := RemoveAt(t.kids[j := m], j + 1);
    FlatAllAt(kids1, j);
    assert kids1[..j] == t.kids[..j] && kids1[j + 1..] == t.kids[j + 2..] && kids1[j] == m;
  }

  // ---------------------------------------------------------------- the pages of two siblings

  ghost function Under(t: Tree): seq<Tree> {
    if t.Leaf? then [] else t.kids
  }

  /** The join of children `j` and `j + 1`, kept under the page of child `j`. */
  ghost function Joined(t: Tree, j: nat): (w: Tree)
    requires t.Node? && Bundled(t) && j < |t.keys|
    requires Bundled(t.kids[j]) && Bundled(t.kids[j + 1]) && t.kids[j].Leaf? == t.kids[j + 1].Leaf?
    ensures Bundled(w) && w.page == t.kids[j].page && w.Leaf? == t.kids[j].Leaf?
    ensures Count(w) == Count(t.kids[j]) + Count(t.kids[j + 1]) + if w.Leaf? then 0 else 1
  {
    JoinT(t.kids[j], t.keys[j], t.kids[j + 1])
  }

  lemma JoinedIs(t: Tree, j: nat, key: Key)
    requires t.Node? && Bundled(t) && j < |t.keys| && Bundled(t.kids[j]) && Bundled(t.kids[j + 1]) && t.kids[j].Leaf? == t.kids[j + 1].Leaf?
    requires t.kids[j].Node? ==> key == t.keys[j]
    ensures Joined(t, j) == JoinT(t.kids[j], key, t.kids[j + 1]) && |t.kids| == |t.keys| + 1
  {
  }

  /** `l1`, `sep` and `r1` are the two sides of `w` cut at key `c`, in place of children `j` and `j + 1`. */
  ghost predicate CutStored(order: nat, w: Tree, c: nat, cur: Page, j: nat, oldKeys: seq<Key>, dest: Page)
    reads cur, w.page, dest
  {
    && Bundled(w) && c < Count(w) && j < |oldKeys|
    && Stored(TakeT(w, c), order, c) && Stored(DropT(w, c, dest), order, Count(DropT(w, c, dest)))
    && cur.Live(order) && cur.keys == oldKeys[j := ViewT(w).keys[c]]
  }

  lemma CutStoredIntro(order: nat, l: Tree, sep: Key, r: Tree, c: nat, cur: Page, j: nat, oldKeys: seq<Key>)
    requires Bundled(l) && Bundled(r) && l.Leaf? == r.Leaf? && l.page.isLeaf == l.Leaf? && r.page.isLeaf == r.Leaf?
    requires cur.Live(order) && l.page.Live(order) && r.page.Live(order)
    requires j < |oldKeys| == |cur.keys| && cur.keys == oldKeys[j := cur.keys[j]]
    requires Moved(Join(ViewT(l), sep, ViewT(r)), c, l.page.Now(order), r.page.Now(order), cur.keys[j])
    ensures CutStored(order, JoinT(l, sep, r), c, cur, j, oldKeys, r.page)
  {
    ViewJoin(l, sep, r);
    ViewCut(JoinT(l, sep, r), c, r.page);
    hide Take, Drop, Join, ViewT, JoinT, TakeT, DropT;
  }

  method BorrowLeftPages(order: nat, cur: Page, b: int, dest: Page, source: Page, ghost l: Tree, ghost r: Tree)
    requires cur.Live(order) && cur != dest && cur != source && dest != source && 0 < b <= cur.size
    requires |cur.keys| == order && cur.size <= order && Bundled(l) && Bundled(r)
    requires l.page == source && r.page == dest && l.Leaf? == r.Leaf?
    requires Stored(l, order, Count(l)) && Stored(r, order, Count(r)) && Count(r) < order && Count(l) > 0
    modifies cur`keys, dest`keys, dest`data, dest`children, dest`size, source`size
    ensures cur.Live(order) && CutStored(order, JoinT(l, old(cur.keys[b - 1]), r), Count(l) - 1, cur, b - 1, old(cur.keys), dest)
  {
    hide *;
    ghost var oldKeys, sep := cur.keys, cur.keys[b - 1];
    StoredLive(l, order);
    StoredLive(r, order);
    BorrowFromLeft(order, cur, b, dest, source);
    CutStoredIntro(order, l, sep, r, Count(l) - 1, cur, b - 1, oldKeys);
  }

  method BorrowRightPages(order: nat, cur: Page, b: int, dest: Page, source: Page, rightRootKey: Key, ghost l: Tree, ghost r: Tree)
    requires cur.Live(order) && cur != dest && cur != source && dest != source && 0 <= b < cur.size
    requires |cur.keys| == order && cur.size <= order && Bundled(l) && Bundled(r)
    requires l.page == dest && r.page == source && l.Leaf? == r.Leaf?
    requires Stored(l, order, Count(l)) && Stored(r, order, Count(r)) && Count(l) < order && Count(r) > 1
    modifies cur`keys, dest`keys, dest`data, dest`children, dest`size, source`keys, source`data, source`children, source`size
    ensures cur.Live(order) && CutStored(order, JoinT(l, rightRootKey, r), Count(l) + 1, cur, b, old(cur.keys), source)
  {
    hide *;
    ghost var oldKeys, sep := cur.keys, rightRootKey;
    StoredLive(l, order);
    StoredLive(r, order);
    BorrowFromRight(order, cur, b, dest, source, rightRootKey);
    CutStoredIntro(order, l, sep, r, Count(l) + 1, cur, b, oldKeys);
  }

  /** The pages around a pair of siblings: what a repair may touch and what it leaves alone. */
  lemma JoinedPages(t: Tree, order: nat, j: nat)
    requires t.Node? && Rep(t, order) && Distinct(t) && j < |t.keys| && t.kids[j].Leaf? == t.kids[j + 1].Leaf?
    ensures Bundled(t) && Bundled(t.kids[j]) && Bundled(t.kids[j + 1])
    ensures var w, l, r := Joined(t, j), t.kids[j], t.kids[j + 1];
      && RepAll(Under(w), order) && DistinctAll(Under(w))
      && t.page !in PagesIn(Under(w)) && l.page !in PagesIn(Under(w)) && r.page !in PagesIn(Under(w))
      && PagesIn(Under(w)) + {l.page, r.page} == Pages(l) + Pages(r)
  {
    var l, r := t.kids[j], t.kids[j + 1];
    assert Rep(l, order) && Rep(r, order) && Distinct(l) && Distinct(r) && Pages(l) !! Pages(r);
    assert t.page !in Pages(l) && t.page !in Pages(r);
    if l.Node? {
      hide Rep, Distinct, Stored;
      JoinedUnder(l, t.keys[j], r, order);
    }
  }

  lemma JoinedUnder(l: Tree, sep: Key, r: Tree, order: nat)
    requires l.Node? && r.Node? && Rep(l, order) && Rep(r, order) && Distinct(l) && Distinct(r) && Pages(l) !! Pages(r)
    ensures Bundled(l) && Bundled(r)
    ensures var kids := JoinT(l, sep, r).kids;
      && RepAll(kids, order) && DistinctAll(kids) && l.page !in PagesIn(kids) && r.page !in PagesIn(kids)
      && PagesIn(kids) + {l.page, r.page} == Pages(l) + Pages(r)
  {
    PagesInConcat(l.kids, r.kids);
    assert Pages(l) == {l.page} + PagesIn(l.kids) && Pages(r) == {r.page} + PagesIn(r.kids);
    RepConcat(l.kids, r.kids, order);
    assert DistinctAll(l.kids) && DistinctAll(r.kids);
    hide PagesIn, Pages, RepAll, DistinctAll;
    DistinctConcat(l.kids, r.kids);
  }

  lemma RepConcat(a: seq<Tree>, b: seq<Tree>, order: nat)
    requires RepAll(a, order) && RepAll(b, order)
    ensures RepAll(a + b, order)
  {
  }

  lemma SiblingPages(t: Tree, j: nat)
    requires t.Node? && Bundled(t) && Distinct(t) && j < |t.keys|
    ensures Pages(t.kids[j]) + Pages(t.kids[j + 1]) !! Others(t, j, j + 2)
    ensures Pages(t) == {t.page} + (Pages(t.kids[j]) + Pages(t.kids[j + 1])) + Others(t, j, j + 2)
  {
    hide *;
    NodeDistinct(t);
    BundledKids(t);
    OthersIs(t, j, j + 2);
    var a, b, kids := t.kids[..j], t.kids[j + 2..], t.kids;
    assert kids == a + [kids[j], kids[j + 1]] + b;
    PagesInConcat(a, [kids[j], kids[j + 1]]);
    PagesInConcat(a + [kids[j], kids[j + 1]], b);
    PagesOfTwo(kids[j], kids[j + 1]);
    ApartFrom(kids, j, 0, j);
    ApartFrom(kids, j + 1, 0, j);
    ApartFrom(kids, j, j + 2, |kids|);
    ApartFrom(kids, j + 1, j + 2, |kids|);
    assert kids[0..j] == a && kids[j + 2..|kids|] == b;
  }

  lemma OthersIs(t: Tree, lo: nat, hi: nat)
    requires t.Node? && lo <= hi <= |t.kids|
    ensures Others(t, lo, hi) == PagesIn(t.kids[..lo]) + PagesIn(t.kids[hi..])
  {
  }

  method BorrowLeftBelow(order: nat, cur: Page, b: int, dest: Page, source: Page, ghost t: Tree,
          ghost others: set<Page>, ghost under: set<Page>)
    requires t.Node? && Bundled(t) && 0 < b <= |t.keys| && Bundled(t.kids[b - 1])
    requires Bundled(t.kids[b]) && t.kids[b - 1].Leaf? == t.kids[b].Leaf?
    requires |cur.keys| == order && cur.size <= order && cur.Live(order) && cur != dest
    requires cur != source && dest != source && b <= cur.size && cur.keys[b - 1] == t.keys[b - 1]
    requires t.kids[b - 1].page == source && t.kids[b].page == dest && Count(t.kids[b]) < order && Count(t.kids[b - 1]) > 0
    requires Stored(t.kids[b - 1], order, Count(t.kids[b - 1])) && Stored(t.kids[b], order, Count(t.kids[b]))
    requires Apart(t, order, b - 1, b + 1) && others == Others(t, b - 1, b + 1) && RepAll(Under(Joined(t, b - 1)), order)
    requires under == PagesIn(Under(Joined(t, b - 1))) && cur !in under && dest !in under && source !in under
    requires cur !in others && dest !in others && source !in others
    modifies cur`keys, dest`keys, dest`data, dest`children, dest`size, source`size
    ensures cur.Live(order) && CutStored(order, Joined(t, b - 1), Count(t.kids[b - 1]) - 1, cur, b - 1, old(cur.keys), dest)
    ensures Apart(t, order, b - 1, b + 1) && RepAll(Under(Joined(t, b - 1)), order)
  {
    hide *;
    JoinedIs(t, b - 1, cur.keys[b - 1]);
    BorrowLeftPages(order, cur, b, dest, source, t.kids[b - 1], t.kids[b]);
  }

  method BorrowRightBelow(order: nat, cur: Page, b: int, dest: Page, source: Page, rightRootKey: Key,
                          ghost t: Tree, ghost others: set<Page>, ghost under: set<Page>)
    requires t.Node? && Bundled(t) && 0 <= b < |t.keys| && Bundled(t.kids[b])
    requires Bundled(t.kids[b + 1]) && t.kids[b].Leaf? == t.kids[b + 1].Leaf?
    requires |cur.keys| == order && cur.size <= order && cur.Live(order) && cur != dest && cur != source
    requires dest != source && b < cur.size && (t.kids[b].Node? ==> rightRootKey == t.keys[b])
    requires t.kids[b].page == dest && t.kids[b + 1].page == source && Count(t.kids[b]) < order && Count(t.kids[b + 1]) > 1
    requires Stored(t.kids[b], order, Count(t.kids[b])) && Stored(t.kids[b + 1], order, Count(t.kids[b + 1]))
    requires Apart(t, order, b, b + 2) && others == Others(t, b, b + 2) && RepAll(Under(Joined(t, b)), order)
    requires under == PagesIn(Under(Joined(t, b))) && cur !in under && dest !in under && source !in under
    requires cur !in others && dest !in others && source !in others
    modifies cur`keys, dest`keys, dest`data, dest`children, dest`size, source`keys, source`data, source`children, source`size
    ensures cur.Live(order) && CutStored(order, Joined(t, b), Count(t.kids[b]) + 1, cur, b, old(cur.keys), source)
    ensures Apart(t, order, b, b + 2) && RepAll(Under(Joined(t, b)), order)
  {
    hide *;
    JoinedIs(t, b, rightRootKey);
    BorrowRightPages(order, cur, b, dest, source, rightRootKey, t.kids[b], t.kids[b + 1]);
  }

  /** The two sides of the join, stored in the pages of the pair. */
  lemma CutRep(w: Tree, order: nat, c: nat, page: Page)
    requires Bundled(w) && c < Count(w) && RepAll(Under(w), order) && DistinctAll(Under(w))
    requires w.page !in PagesIn(Under(w)) && page !in PagesIn(Under(w)) && page != w.page
    requires Stored(TakeT(w, c), order, c) && Stored(DropT(w, c, page), order, Count(DropT(w, c, page)))
    ensures var l, r := TakeT(w, c), DropT(w, c, page);
      && Rep(l, order) && Rep(r, order) && DistinctAll([l, r]) && PagesIn([l, r]) == PagesIn(Under(w)) + {w.page, page}
  {
    var l, r := TakeT(w, c), DropT(w, c, page);
    if w.Leaf? {
      LeafPages(l);
      LeafPages(r);
      PagesOfTwo(l, r);
      assert [l, r][0] == l && [l, r][1] == r;
    } else {
      assert RepAll(w.kids[..c + 1], order) && RepAll(w.kids[c + 1..], order);
      hide RepAll, DistinctAll, PagesIn;
      CutDistinct(w, c, page);
    }
  }

  lemma MovedRep(t: Tree, order: nat, j: nat, c: nat, oldKeys: seq<Key>)
    requires t.Node? && Bundled(t) && Distinct(t) && j < |t.keys|
    requires Bundled(t.kids[j]) && Bundled(t.kids[j + 1]) && t.kids[j].Leaf? == t.kids[j + 1].Leaf?
    requires t.page.Live(order) && t.page.size == |t.keys| && !t.page.isLeaf && |oldKeys| == order && oldKeys[..|t.keys|] == t.keys
    requires t.page.children[..|t.keys| + 1] == PagesOf(t.kids)
    requires CutStored(order, Joined(t, j), c, t.page, j, oldKeys, t.kids[j + 1].page)
    requires Apart(t, order, j, j + 2)
    requires var w, l, r := Joined(t, j), t.kids[j], t.kids[j + 1];
      && RepAll(Under(w), order) && DistinctAll(Under(w)) && l.page != r.page
      && l.page !in PagesIn(Under(w)) && r.page !in PagesIn(Under(w))
      && PagesIn(Under(w)) + {l.page, r.page} == Pages(l) + Pages(r)
    ensures var w := Joined(t, j); var l1, r1 := TakeT(w, c), DropT(w, c, t.kids[j + 1].page);
      var t1 := WithTwo(t, j, l1, ViewT(w).keys[c], r1);
      Rep(t1, order) && Distinct(t1) && Pages(t1) == Pages(t)
  {
    var w := Joined(t, j);
    var l1, r1, sep := TakeT(w, c), DropT(w, c, t.kids[j + 1].page), ViewT(w).keys[c];
    CutRep(w, order, c, t.kids[j + 1].page);
    StoredKey(t, order, j, sep, oldKeys);
    SiblingPages(t, j);
    assert DistinctAll(t.kids) && t.page !in PagesIn(t.kids);
    hide ViewT, Stored, Rep, Distinct, DistinctAll, RepAll, PagesIn, Apart, Others, Pages, TakeT, DropT, Joined;
    RepTwo(t, order, j, l1, sep, r1);
    MovedDistinct(t, j, l1, sep, r1);
  }

  lemma MovedDistinct(t: Tree, j: nat, l: Tree, sep: Key, r: Tree)
    requires t.Node? && Bundled(t) && j < |t.keys| && Distinct(t) && DistinctAll([l, r])
    requires PagesIn([l, r]) == Pages(t.kids[j]) + Pages(t.kids[j + 1])
    ensures Pages(WithTwo(t, j, l, sep, r)) == Pages(t) && Distinct(WithTwo(t, j, l, sep, r))
  {
    hide *;
    NodeDistinct(t);
    BundledKids(t);
    SiblingPages(t, j);
    SiblingApart(t, j);
    SplicedShapes(t, j, l, r);
    SplicedPages(t, j, j + 2, [l, r]);
    SplicedDistinct(t, j, j + 2, [l, r]);
    WithTwoIs(t, j, l, sep, r);
    NodeDistinct(WithTwo(t, j, l, sep, r));
  }

  lemma BundledKids(t: Tree)
    requires t.Node? && Bundled(t)
    ensures |t.kids| == |t.keys| + 1
  {
  }

  lemma WithTwoIs(t: Tree, b: nat, l: Tree, sep: Key, r: Tree)
    requires t.Node? && Bundled(t) && b < |t.keys|
    ensures var w := WithTwo(t, b, l, sep, r); w.Node? && w.page == t.page && w.kids == t.kids[b := l][b + 1 := r]
  {
  }

  lemma SiblingApart(t: Tree, j: nat)
    requires t.Node? && Bundled(t) && j < |t.keys| && Distinct(t)
    ensures t.page !in Pages(t.kids[j]) + Pages(t.kids[j + 1]) && t.page !in Others(t, j, j + 2)
  {
    SlicePages(t.kids, j);
    SlicePages(t.kids, j + 2);
  }

  // ---------------------------------------------------------------- how full the children and the leaves are

  /** How many keys each child holds. */
  ghost function Counts(ts: seq<Tree>): (c: seq<int>)
    ensures |c| == |ts| && forall i :: 0 <= i < |ts| ==> c[i] == Count(ts[i])
  {
    seq(|ts|, i requires 0 <= i < |ts| => Count(ts[i]))
  }

  lemma {:induction false} SizesOfLeaves(ts: seq<Tree>)
    requires forall i :: 0 <= i < |ts| ==> ts[i].Leaf?
    ensures SizesAll(ts) == Counts(ts)
    decreases |ts|
  {
    if ts != [] {
      SizesOfLeaves(ts[1..]);
      SizesOf(ts[0]);
      assert Counts(ts) == [Count(ts[0])] + Counts(ts[1..]);
    }
  }

  lemma LooseSizes(t: Tree, M: int)
    requires t.Node? && Loose(t, M, 1)
    ensures Sizes(t) == Counts(t.kids)
  {
    forall i | 0 <= i < |t.kids| ensures t.kids[i].Leaf? {
      assert WF(t.kids[i], M, 0, M / 2);
    }
    hide *;
    SizesOfLeaves(t.kids);
    SizesOf(t);
  }

  lemma SizesJoined(t: Tree, j: nat)
    requires t.Node? && Bundled(t) && j < |t.keys| && Bundled(t.kids[j]) && Bundled(t.kids[j + 1])
    requires t.kids[j].Node? && t.kids[j + 1].Node?
    ensures Joined(t, j).Node? && Sizes(Joined(t, j)) == Sizes(t.kids[j]) + Sizes(t.kids[j + 1])
  {
    var l, r, w := t.kids[j], t.kids[j + 1], Joined(t, j);
    assert w.Node? && w.kids == l.kids + r.kids;
    hide *;
    SizesOf(l);
    SizesOf(r);
    SizesOf(w);
    SizesAllConcat(l.kids, r.kids);
  }

  /** Children `j` and `j + 1` after keys moved between them. */
  lemma MovedCounts(t: Tree, j: nat, c: nat, page: Page, t1: Tree)
    requires t.Node? && Bundled(t) && j < |t.keys| && Bundled(t.kids[j]) && Bundled(t.kids[j + 1]) && t.kids[j].Leaf? == t.kids[j + 1].Leaf?
    requires c < Count(Joined(t, j)) && |t.kids| == |t.keys| + 1
    requires t1.Node? && t1.kids == t.kids[j := TakeT(Joined(t, j), c)][j + 1 := DropT(Joined(t, j), c, page)]
    ensures Counts(t1.kids) == Counts(t.kids)[j := c][j + 1 := Count(t.kids[j]) + Count(t.kids[j + 1]) - c]
    ensures t.kids[j].Node? ==> Sizes(t1) == Sizes(t)
  {
    hide *;
    CutCounts(t, j, c, page);
    CountsTwo(t.kids, j, TakeT(Joined(t, j), c), DropT(Joined(t, j), c, page));
    if t.kids[j].Node? {
      MovedSizes(t, j, c, page, t1);
    }
  }

  lemma MovedSizes(t: Tree, j: nat, c: nat, page: Page, t1: Tree)
    requires t.Node? && Bundled(t) && j < |t.keys| && Bundled(t.kids[j]) && Bundled(t.kids[j + 1]) && t.kids[j].Node? && t.kids[j + 1].Node?
    requires c < Count(Joined(t, j)) && |t.kids| == |t.keys| + 1
    requires t1.Node? && t1.kids == t.kids[j := TakeT(Joined(t, j), c)][j + 1 := DropT(Joined(t, j), c, page)]
    ensures Sizes(t1) == Sizes(t)
  {
    hide *;
    var w := Joined(t, j);
    SizesJoined(t, j);
    SizesCut(w, c, page);
    SizesOf(t);
    SizesOf(t1);
    SizesTwo(t.kids, j, TakeT(w, c), DropT(w, c, page));
  }

  lemma CutCounts(t: Tree, j: nat, c: nat, page: Page)
    requires t.Node? && Bundled(t) && j < |t.keys| && Bundled(t.kids[j]) && Bundled(t.kids[j + 1]) && t.kids[j].Leaf? == t.kids[j + 1].Leaf?
    requires c < Count(Joined(t, j))
    ensures Count(TakeT(Joined(t, j), c)) == c
    ensures Count(DropT(Joined(t, j), c, page)) == Count(t.kids[j]) + Count(t.kids[j + 1]) - c
  {
  }

  lemma CountsTwo(kids: seq<Tree>, j: nat, l: Tree, r: Tree)
    requires j + 1 < |kids|
    ensures |Counts(kids)| == |kids|
    ensures Counts(kids[j := l][j + 1 := r]) == Counts(kids)[j := Count(l)][j + 1 := Count(r)]
  {
    hide Count;
  }

  lemma SizesTwo(kids: seq<Tree>, j: nat, l: Tree, r: Tree)
    requires j + 1 < |kids| && SizesAll([l, r]) == Sizes(kids[j]) + Sizes(kids[j + 1])
    ensures SizesAll(kids[j := l][j + 1 := r]) == SizesAll(kids)
  {
    hide *;
    var kids1 := kids[j := l][j + 1 := r];
    assert kids1[..j] == kids[..j] && kids1[j + 2..] == kids[j + 2..] && kids1[j..j + 2] == [l, r];
    assert kids[j..j + 2] == [kids[j], kids[j + 1]];
    SizesParts(kids, j, j + 2);
    SizesParts(kids1, j, j + 2);
    SizesOfTwo(kids[j], kids[j + 1]);
  }

  /** Children `j` and `j + 1` merged into one. */
  lemma MergedCounts(t: Tree, j: nat)
    requires t.Node? && Bundled(t) && j < |t.keys| && Bundled(t.kids[j]) && Bundled(t.kids[j + 1]) && t.kids[j].Leaf? == t.kids[j + 1].Leaf?
    ensures var w, t1, c := Joined(t, j), Merged(t, j, Joined(t, j)), Counts(t.kids);
      && t1.Node? && j + 1 < |c|
      && Counts(t1.kids) == c[..j] + [c[j] + c[j + 1] + if w.Leaf? then 0 else 1] + c[j + 2..]
      && (w.Node? ==> Sizes(t1) == Sizes(t))
  {
    JoinedCount(t, j);
    hide *;
    var w := Joined(t, j);
    MergedKids(t, j, w);
    CountsReplaced(t.kids, j, w);
    if w.Node? {
      SizesJoined(t, j);
      SizesOf(t);
      SizesOf(Merged(t, j, w));
      SizesReplaced(t.kids, j, w);
    }
  }

  /** `t1` is `t` with child `b` merged with the child after it, or with the one before it if it is the last. */
  ghost predicate MergedAt(t: Tree, t1: Tree, h: nat, b: int) {
    && t.Node? && t1.Node? && 0 <= b < |t.kids| && 2 <= |t.kids|
    && (h > 1 ==> Sizes(t1) == Sizes(t))
    && var c, j := Counts(t.kids), if b + 1 < |t.kids| then b else b - 1;
       Counts(t1.kids) == c[..j] + [c[j] + c[j + 1] + if h == 1 then 0 else 1] + c[j + 2..]
  }

  lemma MergedAtParts(t: Tree, t1: Tree, h: nat, b: int)
    requires MergedAt(t, t1, h, b)
    ensures t.Node? && t1.Node? && 0 <= b < |t.kids| && 2 <= |t.kids| && (h > 1 ==> Sizes(t1) == Sizes(t))
    ensures
      var c, j := Counts(t.kids), if b + 1 < |t.kids| then b else b - 1;
      Counts(t1.kids) == c[..j] + [c[j] + c[j + 1] + if h == 1 then 0 else 1] + c[j + 2..]
  {
    hide Sizes;
  }

  lemma MergedAtPair(t: Tree, h: nat, b: int, j: nat)
    requires t.Node? && Bundled(t) && j < |t.keys| && Bundled(t.kids[j]) && Bundled(t.kids[j + 1]) && t.kids[j].Leaf? == t.kids[j + 1].Leaf?
    requires (t.kids[j].Leaf? <==> h == 1) && 0 <= b < |t.kids| && j == if b < |t.keys| then b else b - 1
    ensures MergedAt(t, Merged(t, j, Joined(t, j)), h, b)
  {
    assert |t.kids| == |t.keys| + 1;
    assert Joined(t, j).Leaf? <==> h == 1;
    hide Sizes, Counts, Joined, Merged;
    MergedCounts(t, j);
  }

  lemma MergedKids(t: Tree, j: nat, w: Tree)
    requires t.Node? && Bundled(t) && j < |t.keys|
    ensures Merged(t, j, w).Node? && j + 1 < |t.kids| && Merged(t, j, w).kids == t.kids[..j] + [w] + t.kids[j + 2..]
  {
  }

  lemma JoinedCount(t: Tree, j: nat)
    requires t.Node? && Bundled(t) && j < |t.keys| && Bundled(t.kids[j]) && Bundled(t.kids[j + 1]) && t.kids[j].Leaf? == t.kids[j + 1].Leaf?
    ensures var w := Joined(t, j);
      && Count(w) == Count(t.kids[j]) + Count(t.kids[j + 1]) + (if w.Leaf? then 0 else 1)
      && (w.Node? ==> t.kids[j].Node? && t.kids[j + 1].Node?)
  {
  }

  lemma CountsReplaced(kids: seq<Tree>, j: nat, w: Tree)
    requires j + 1 < |kids|
    ensures Counts(kids)[j] == Count(kids[j]) && Counts(kids)[j + 1] == Count(kids[j + 1])
    ensures Counts(kids[..j] + [w] + kids[j + 2..]) == Counts(kids)[..j] + [Count(w)] + Counts(kids)[j + 2..]
  {
    hide Count;
  }

  lemma SizesReplaced(kids: seq<Tree>, j: nat, w: Tree)
    requires j + 1 < |kids| && Sizes(w) == Sizes(kids[j]) + Sizes(kids[j + 1])
    ensures SizesAll(kids[..j] + [w] + kids[j + 2..]) == SizesAll(kids)
  {
    hide *;
    assert kids[j..j + 2] == [kids[j], kids[j + 1]];
    SizesParts(kids, j, j + 2);
    SizesOfTwo(kids[j], kids[j + 1]);
    SizesOf(w);
    SizesAllConcat(kids[..j] + [w], kids[j + 2..]);
    SizesAllConcat(kids[..j], [w]);
  }

  // ---------------------------------------------------------------- repairs

  /** Child `b` of `t` is one key short of half full; everything else is in order. */
  ghost predicate Short(order: nat, t: Tree, h: nat, b: int, pre: seq<Page>, post: seq<Page>)
    reads Pages(t)`isLeaf, Pages(t)`size, Pages(t)`keys, Pages(t)`data, Pages(t)`children
    reads (set p | p in pre + Leaves(t) + post)`next, (set p | p in pre + Leaves(t) + post)`previous
  {
    && order >= 4 && h > 0 && t.Node? && Bundled(t) && 0 <= b < |t.kids| && 1 <= |t.keys| <= order
    && Spine(t.keys, t.kids, order, h) && HalfFull(t.kids, order, b) && Count(t.kids[b]) == order / 2 - 1
    && Rep(t, order) && Distinct(t)
    && Linked(null, pre + Leaves(t) + post, null) && NoDup(pre + Leaves(t) + post)
  }

  /** The action asks for the separator above `t` to be set to the first key of `t`. */
  ghost predicate Asks(ra: ReturnAction, t: Tree) {
    ra.action == SetBranchKey && Heads(ra.key1, Flat(t))
  }

  lemma AsksSet(ra: ReturnAction, t: Tree)
    ensures Asks(ra, t) ==> ra.action == SetBranchKey
  {
  }

  /** `t1` is `t` with every child half full again, and at most one child fewer. */
  ghost predicate Fixed(order: nat, t: Tree, h: nat, pre: seq<Page>, post: seq<Page>, t1: Tree, underflow: bool)
    reads Pages(t1)`isLeaf, Pages(t1)`size, Pages(t1)`keys, Pages(t1)`data, Pages(t1)`children
    reads (set p | p in pre + Leaves(t1) + post)`next, (set p | p in pre + Leaves(t1) + post)`previous
  {
    && t1.Node? && t1.page == t.page && Loose(t1, order, h) && Flat(t1) == Flat(t) && Rep(t1, order) && Distinct(t1) && Pages(t1) <= Pages(t)
    && Count(t) - 1 <= Count(t1) <= Count(t) && (underflow <==> Count(t1) < Count(t) && Count(t1) < order / 2)
    && Linked(null, pre + Leaves(t1) + post, null) && NoDup(pre + Leaves(t1) + post)
    && Leaves(t1) != [] && Leaves(t) != [] && Leaves(t1)[0] == Leaves(t)[0]
  }

  lemma PairReady(order: nat, t: Tree, h: nat, b: int, j: int, pre: seq<Page>, post: seq<Page>)
    requires Short(order, t, h, b, pre, post) && 0 <= j < |t.keys| && (b == j || b == j + 1)
    ensures order >= 4 && h > 0 && t.Node? && Bundled(t) && 1 <= |t.keys| <= order && Distinct(t) && Spine(t.keys, t.kids, order, h)
    ensures HalfFull(t.kids, order, b) && Count(t.kids[b]) == order / 2 - 1
    ensures t.kids[j].Leaf? == t.kids[j + 1].Leaf? && (t.kids[j].Leaf? <==> h == 1) && Bundled(t.kids[j]) && Bundled(t.kids[j + 1])
    ensures order / 2 - 1 <= Count(t.kids[j]) <= order && order / 2 - 1 <= Count(t.kids[j + 1]) <= order
    ensures Count(t.kids[j]) + Count(t.kids[j + 1]) >= order / 2 - 1 + order / 2
    ensures t.page.Live(order) && t.page.size == |t.keys| && !t.page.isLeaf && |t.page.keys| == order && |t.page.children| == order + 1
    ensures t.page.Now(order) == ViewT(t) && Count(t) == |t.keys|
    ensures t.page.keys[..|t.keys|] == t.keys && t.page.keys[j] == t.keys[j] && t.page.children[..|t.keys| + 1] == PagesOf(t.kids)
    ensures Linked(null, pre + Leaves(t) + post, null) && NoDup(pre + Leaves(t) + post) && Leaves(t) != []
  {
    TopFields(t, order);
    StoredLive(t, order);
    SpineLeaves(t.keys, t.kids, order, h);
    assert t.page.keys[..|t.keys|][j] == t.keys[j];
    assert Loose(t.kids[j], order, h - 1) && Loose(t.kids[j + 1], order, h - 1);
  }

  lemma SpineLeaves(keys: seq<Key>, kids: seq<Tree>, M: int, h: nat)
    requires M >= 4 && h > 0 && Spine(keys, kids, M, h)
    ensures Leaves(kids[0]) != [] && LeavesAll(kids) != [] && LeavesAll(kids)[0] == Leaves(kids[0])[0]
  {
    LooseLeaves(kids[0], M, h - 1);
  }

  lemma LooseLeaves(t: Tree, M: int, h: nat)
    requires M >= 4 && Loose(t, M, h)
    ensures Leaves(t) != []
  {
    if t.Node? {
      RunNonEmpty(t.keys, t.kids, M, h);
    }
  }

  lemma PairHeap(order: nat, t: Tree, h: nat, b: int, j: int, pre: seq<Page>, post: seq<Page>)
    requires Short(order, t, h, b, pre, post) && 0 <= j < |t.keys| && t.kids[j].Leaf? == t.kids[j + 1].Leaf?
    requires Bundled(t) && Bundled(t.kids[j]) && Bundled(t.kids[j + 1])
    ensures var p, w, l, r := t.page, Joined(t, j), t.kids[j], t.kids[j + 1];
      && p.children[j] == l.page && p.children[j + 1] == r.page
      && p != l.page && p != r.page && l.page != r.page
      && l.page in Pages(t) && r.page in Pages(t) && p in Pages(t)
      && Stored(l, order, Count(l)) && Stored(r, order, Count(r))
      && |l.page.keys| == order && |r.page.keys| == order
      && l.page.size == Count(l) && r.page.size == Count(r) && (l.page.isLeaf <==> l.Leaf?) && (r.page.isLeaf <==> r.Leaf?)
      && Apart(t, order, j, j + 2)
      && p !in Others(t, j, j + 2) && l.page !in Others(t, j, j + 2) && r.page !in Others(t, j, j + 2)
      && RepAll(Under(w), order) && DistinctAll(Under(w))
      && p !in PagesIn(Under(w)) && l.page !in PagesIn(Under(w)) && r.page !in PagesIn(Under(w))
      && PagesIn(Under(w)) + {l.page, r.page} == Pages(l) + Pages(r)
  {
    assert Rep(t, order) && Distinct(t);
    PairPages(t, order, j);
    var l, r := t.kids[j], t.kids[j + 1];
    assert Stored(l, order, Count(l)) && Stored(r, order, Count(r));
    hide Rep, Distinct, Pages, Others, Apart, Short;
    JoinedPages(t, order, j);
  }

  /** Keys moved between two siblings: the repair is done. */
  lemma MovedFixed(order: nat, t: Tree, h: nat, b: nat, j: nat, c: nat, pre: seq<Page>, post: seq<Page>, oldKeys: seq<Key>)
    returns (t1: Tree)
    requires order >= 4 && h > 0 && t.Node? && Bundled(t) && 1 <= |t.keys| <= order && Distinct(t) && Spine(t.keys, t.kids, order, h)
    requires HalfFull(t.kids, order, b) && j < |t.keys| && (b == j || b == j + 1) && order / 2 - 1 <= Count(t.kids[b])
    requires t.kids[j].Leaf? == t.kids[j + 1].Leaf? && (t.kids[j].Leaf? <==> h == 1) && Bundled(t.kids[j]) && Bundled(t.kids[j + 1])
    requires var n := Count(t.kids[j]) + Count(t.kids[j + 1]) + if t.kids[j].Leaf? then 0 else 1;
             c < n && order / 2 <= c <= order && order / 2 <= n - c - (if t.kids[j].Leaf? then 0 else 1) <= order
    requires t.page.Live(order) && t.page.size == |t.keys| && !t.page.isLeaf && |oldKeys| == order && oldKeys[..|t.keys|] == t.keys
    requires t.page.children[..|t.keys| + 1] == PagesOf(t.kids)
    requires CutStored(order, Joined(t, j), c, t.page, j, oldKeys, t.kids[j + 1].page)
    requires Apart(t, order, j, j + 2)
    requires var w, l, r := Joined(t, j), t.kids[j], t.kids[j + 1];
      && RepAll(Under(w), order) && DistinctAll(Under(w)) && l.page != r.page
      && l.page !in PagesIn(Under(w)) && r.page !in PagesIn(Under(w))
      && PagesIn(Under(w)) + {l.page, r.page} == Pages(l) + Pages(r)
    requires Linked(null, pre + Leaves(t) + post, null) && NoDup(pre + Leaves(t) + post) && Leaves(t) != []
    ensures Fixed(order, t, h, pre, post, t1, false) && Leaves(t1) == Leaves(t)
    ensures t1.Node? && Counts(t1.kids) == Counts(t.kids)[j := c][j + 1 := Count(t.kids[j]) + Count(t.kids[j + 1]) - c]
    ensures h > 1 ==> Sizes(t1) == Sizes(t)
  {
    var w := Joined(t, j);
    var page := t.kids[j + 1].page;
    t1 := WithTwo(t, j, TakeT(w, c), ViewT(w).keys[c], DropT(w, c, page));
    assert Count(t1) == Count(t) && t1.Node? && t1.page == t.page;
    assert w == JoinT(t.kids[j], t.keys[j], t.kids[j + 1]);
    MovedRep(t, order, j, c, oldKeys);
    PairMoved(t, order, h, b, j, c, page);
    MovedLeaves(t, j, c, page);
    assert (w.Leaf? <==> h == 1) && |t.kids| == |t.keys| + 1;
    hide *;
    WithTwoIs(t, j, TakeT(w, c), ViewT(w).keys[c], DropT(w, c, page));
    MovedCounts(t, j, c, page, t1);
    FixedIntro(order, t, h, pre, post, t1);
  }

  lemma MovedLeaves(t: Tree, j: nat, c: nat, page: Page)
    requires t.Node? && Bundled(t) && j < |t.keys| && Bundled(t.kids[j]) && Bundled(t.kids[j + 1]) && t.kids[j].Leaf? == t.kids[j + 1].Leaf?
    requires var w := Joined(t, j); c < Count(w) && page == t.kids[j + 1].page
                                    && (w.Node? ==> Leaves(TakeT(w, c)) + Leaves(DropT(w, c, page)) == Leaves(t.kids[j]) + Leaves(t.kids[j + 1]))
    ensures var w := Joined(t, j); Leaves(WithTwo(t, j, TakeT(w, c), ViewT(w).keys[c], DropT(w, c, page))) == Leaves(t)
  {
    var w := Joined(t, j);
    var l, r := TakeT(w, c), DropT(w, c, page);
    var kids1 := t.kids[j := l][j + 1 := r];
    TwoAt(t.kids, j);
    TwoAt(kids1, j);
    assert kids1[..j] == t.kids[..j] && kids1[j + 2..] == t.kids[j + 2..];
    assert w.Leaf? ==> Leaves(l) == Leaves(t.kids[j]) && Leaves(r) == Leaves(t.kids[j + 1]);
  }

  lemma FixedIntro(order: nat, t: Tree, h: nat, pre: seq<Page>, post: seq<Page>, t1: Tree)
    requires t1.Node? && t1.page == t.page && Loose(t1, order, h) && Flat(t1) == Flat(t)
    requires Rep(t1, order) && Distinct(t1) && Pages(t1) == Pages(t)
    requires Count(t1) == Count(t) && Leaves(t1) == Leaves(t) && Leaves(t) != []
    requires Linked(null, pre + Leaves(t) + post, null) && NoDup(pre + Leaves(t) + post)
    ensures Fixed(order, t, h, pre, post, t1, false)
  {
  }

  method FixFromLeft(order: nat, b: int, cur: Page, ghost t: Tree, ghost h: nat, ghost pre: seq<Page>,
          ghost post: seq<Page>, ghost chain: seq<Page>)
    returns (ghost t1: Tree)
    requires Short(order, t, h, b, pre, post) && t.page == cur && t.Node? && 0 < b <= |t.keys| == |t.kids| - 1
    requires Count(t.kids[b - 1]) > order / 2 && chain == pre + Leaves(t) + post
    modifies Pages(t)`keys, Pages(t)`data, Pages(t)`children, Pages(t)`size
    ensures Fixed(order, t, h, pre, post, t1, false)
    ensures t1.Node? && Counts(t1.kids) == Counts(t.kids)[b - 1 := Count(t.kids[b - 1]) - 1][b := Count(t.kids[b]) + 1]
    ensures h > 1 ==> Sizes(t1) == Sizes(t)
  {
    hide *;
    PairReady(order, t, h, b, b - 1, pre, post);
    PairHeap(order, t, h, b, b - 1, pre, post);
    ghost var oldKeys := cur.keys;
    var dest: Page, source: Page := cur.children[b], cur.children[b - 1];
    BorrowLeftBelow(order, cur, b, dest, source, t, Others(t, b - 1, b + 1), PagesIn(Under(Joined(t, b - 1))));
    t1 := MovedFixed(order, t, h, b, b - 1, Count(t.kids[b - 1]) - 1, pre, post, oldKeys);
  }

  method FixFromRight(order: nat, b: int, cur: Page, rightRootKey: Key, ra: ReturnAction,
                      ghost t: Tree, ghost h: nat, ghost pre: seq<Page>, ghost post: seq<Page>, ghost chain: seq<Page>)
    returns (ra1: ReturnAction, ghost t1: Tree)
    requires Short(order, t, h, b, pre, post) && t.page == cur && t.Node? && 0 <= b < |t.keys| == |t.kids| - 1
    requires Count(t.kids[b + 1]) > order / 2 && chain == pre + Leaves(t) + post
    requires h > 1 ==> rightRootKey == t.keys[b]
    modifies Pages(t)`keys, Pages(t)`data, Pages(t)`children, Pages(t)`size
    ensures Fixed(order, t, h, pre, post, t1, false)
    ensures Asks(ra, t) ==> ra1 == ra
    ensures t1.Node? && Counts(t1.kids) == Counts(t.kids)[b := Count(t.kids[b]) + 1][b + 1 := Count(t.kids[b + 1]) - 1]
    ensures h > 1 ==> Sizes(t1) == Sizes(t)
  {
    hide *;
    AsksSet(ra, t);
    PairReady(order, t, h, b, b, pre, post);
    PairHeap(order, t, h, b, b, pre, post);
    ghost var oldKeys := cur.keys;
    var dest: Page, source: Page := cur.children[b], cur.children[b + 1];
    ra1 := ra;
    if !dest.isLeaf {
      if ra.action == NoAction {
        ra1 := ra.(action := SetBranchKey, key1 := dest.keys[0]);
      }
    }
    BorrowRightBelow(order, cur, b, dest, source, rightRootKey, t, Others(t, b, b + 2), PagesIn(Under(Joined(t, b))));
    t1 := MovedFixed(order, t, h, b, b, Count(t.kids[b]) + 1, pre, post, oldKeys);
  }

  // ---------------------------------------------------------------- two siblings made one

  ghost function Tail(ls: seq<Page>): set<Page> {
    if ls == [] then {} else {ls[|ls| - 1]}
  }

  /** A leaf leaves the chain. */
  method Unlink(source: Page, ghost pre: seq<Page>, ghost post: seq<Page>)
    requires Linked(null, pre + [source] + post, null) && NoDup(pre + [source] + post)
    modifies Tail(pre)`next, Head(post)`previous
    ensures Linked(null, pre + post, null)
  {
    LinkedAround(pre, source, post);
    assert pre + [source] + post == pre + ([source] + post);
    NoDupLast(pre, [source] + post);
    if source.previous != null {
      source.previous.next := source.next;
    }
    if source.next != null {
      source.next.previous := source.previous;
    }
    assert Linked(null, pre, First(post, null));
    LinkedParts(null, pre, post, null);
  }

  lemma NoDupLast<T>(a: seq<T>, b: seq<T>)
    requires NoDup(a + b)
    ensures forall i, j :: 0 <= i < j < |a| ==> a[i] != a[j]
  {
    assert forall i :: 0 <= i < |a| ==> (a + b)[i] == a[i];
  }

  lemma NoDupWithout<T>(a: seq<T>, x: T, b: seq<T>)
    requires NoDup(a + [x] + b)
    ensures NoDup(a + b)
  {
    var s, r := a + [x] + b, a + b;
    assert forall i :: 0 <= i < |r| ==> r[i] == s[if i < |a| then i else i + 1];
  }

  method MergePages(order: nat, cur: Page, j: int, dest: Page, source: Page, rightRootKey: Key, ghost l: Tree, ghost r: Tree)
    requires cur.Live(order) && cur != dest && cur != source && dest != source && 0 <= j < cur.size
    requires l.page == dest && r.page == source && l.Leaf? == r.Leaf?
    requires Stored(l, order, Count(l)) && Stored(r, order, Count(r)) && Count(l) + Count(r) < order
    modifies cur`keys, cur`data, cur`children, cur`size, dest`keys, dest`data, dest`children, dest`size
    ensures var m := JoinT(l, rightRootKey, r); Stored(m, order, Count(m))
    ensures cur.Live(order) && cur.size == old(cur.size) - 1 && cur.Now(order) == Remove(old(cur.Now(order)), j)
  {
    ViewJoin(l, rightRootKey, r);
    hide Join, ViewT, JoinT, Remove;
    Merge(order, dest, source, rightRootKey);
    DeleteFromPageAtIndex(order, j, cur);
  }

  method MergeBelow(order: nat, cur: Page, j: int, dest: Page, source: Page, rightRootKey: Key,
                    ghost t: Tree, ghost others: set<Page>, ghost under: set<Page>, ghost chain: seq<Page>)
    requires t.Node? && Bundled(t) && 0 <= j < |t.keys| && Bundled(t.kids[j])
    requires Bundled(t.kids[j + 1]) && t.kids[j].Leaf? == t.kids[j + 1].Leaf?
    requires cur.Live(order) && cur != dest && cur != source && dest != source
    requires j < cur.size && (t.kids[j].Node? ==> rightRootKey == t.keys[j])
    requires t.kids[j].page == dest && t.kids[j + 1].page == source && Count(t.kids[j]) + Count(t.kids[j + 1]) < order
    requires Stored(t.kids[j], order, Count(t.kids[j])) && Stored(t.kids[j + 1], order, Count(t.kids[j + 1]))
    requires Apart(t, order, j, j + 2) && others == Others(t, j, j + 2) && RepAll(Under(Joined(t, j)), order)
    requires under == PagesIn(Under(Joined(t, j))) && cur !in under && dest !in under
    requires cur !in others && dest !in others
    requires Linked(null, chain, null)
    modifies cur`keys, cur`data, cur`children, cur`size, dest`keys, dest`data, dest`children, dest`size
    ensures Stored(Joined(t, j), order, Count(Joined(t, j)))
    ensures cur.Live(order) && cur.size == old(cur.size) - 1 && cur.Now(order) == Remove(old(cur.Now(order)), j)
    ensures Apart(t, order, j, j + 2) && RepAll(Under(Joined(t, j)), order)
    ensures Linked(null, chain, null)
  {
    hide *;
    JoinedIs(t, j, rightRootKey);
    MergePages(order, cur, j, dest, source, rightRootKey, t.kids[j], t.kids[j + 1]);
  }

  lemma MergedWhole(t: Tree, order: nat, j: nat, w: Tree)
    requires t.Node? && Bundled(t) && j < |t.keys|
    requires Stored(Merged(t, j, w), order, |t.keys| - 1) && RepAll(RemoveAt(t.kids[j := w], j + 1), order)
    ensures Rep(Merged(t, j, w), order)
  {
  }

  lemma MergedRep(t: Tree, order: nat, j: nat, v: View)
    requires t.Node? && Bundled(t) && Distinct(t) && j < |t.keys|
    requires Bundled(t.kids[j]) && Bundled(t.kids[j + 1]) && t.kids[j].Leaf? == t.kids[j + 1].Leaf?
    requires v == ViewT(t) && t.page.Live(order) && t.page.size == |t.keys| - 1 && !t.page.isLeaf && t.page.Now(order) == Remove(v, j)
    requires Apart(t, order, j, j + 2)
    requires var w, l, r := Joined(t, j), t.kids[j], t.kids[j + 1];
      && Stored(w, order, Count(w)) && RepAll(Under(w), order) && DistinctAll(Under(w))
      && l.page !in PagesIn(Under(w))
      && PagesIn(Under(w)) + {l.page, r.page} == Pages(l) + Pages(r)
    ensures var t1 := Merged(t, j, Joined(t, j)); Rep(t1, order) && Distinct(t1) && Pages(t1) <= Pages(t)
  {
    hide *;
    var w := Joined(t, j);
    WholeRep(w, order);
    MergedStored(t, order, j, w, v);
    MergedDistinct(t, j, w);
    BundledKids(t);
    SplicedShapes(t, j, w, w);
    OnlyRep(w, order);
    SplicedRep(t, order, j, j + 2, [w]);
    MergedWhole(t, order, j, w);
  }

  lemma WholeRep(w: Tree, order: nat)
    requires Stored(w, order, Count(w)) && RepAll(Under(w), order) && DistinctAll(Under(w)) && w.page !in PagesIn(Under(w))
    ensures Rep(w, order) && Distinct(w) && Pages(w) == {w.page} + PagesIn(Under(w))
  {
  }

  lemma MergedStored(t: Tree, order: nat, j: nat, w: Tree, v: View)
    requires t.Node? && Bundled(t) && j < |t.keys| && w.page == t.kids[j].page
    requires v == ViewT(t) && t.page.Live(order) && t.page.size == |t.keys| - 1 && !t.page.isLeaf && t.page.Now(order) == Remove(v, j)
    ensures Stored(Merged(t, j, w), order, |t.keys| - 1)
  {
    assert PagesOf(RemoveAt(t.kids[j := w], j + 1)) == RemoveAt(PagesOf(t.kids), j + 1);
  }

  lemma MergedDistinct(t: Tree, j: nat, w: Tree)
    requires t.Node? && Bundled(t) && Distinct(t) && j < |t.keys| && Distinct(w) && Pages(w) <= Pages(t.kids[j]) + Pages(t.kids[j + 1])
    ensures var t1 := Merged(t, j, w); Distinct(t1) && Pages(t1) <= Pages(t)
  {
    MergedNode(t, j, w);
    hide *;
    SiblingPages(t, j);
    SiblingApart(t, j);
    SplicedPages(t, j, j + 2, [w]);
    PagesOfTwo(w, w);
    SplicedDistinct(t, j, j + 2, [w]);
  }

  /** The merged tree is the spliced one, and what makes it distinct. */
  lemma MergedNode(t: Tree, j: nat, w: Tree)
    requires t.Node? && Bundled(t) && Distinct(t) && j < |t.keys| && Distinct(w)
    ensures j + 2 <= |t.kids| && DistinctAll(t.kids) && DistinctAll([w])
    ensures Pages(Merged(t, j, w)) == {t.page} + PagesIn(Spliced(t, j, j + 2, [w]))
    ensures t.page !in PagesIn(Spliced(t, j, j + 2, [w])) && DistinctAll(Spliced(t, j, j + 2, [w])) ==> Distinct(Merged(t, j, w))
  {
    SplicedShapes(t, j, w, w);
    hide PagesIn, Spliced;
  }

  /** The chain around two leaves that merge. */
  lemma MergeChain(t: Tree, j: nat, pre: seq<Page>, post: seq<Page>) returns (a: seq<Page>, b: seq<Page>)
    requires t.Node? && Bundled(t) && j < |t.keys| && t.kids[j].Leaf? && t.kids[j + 1].Leaf?
    ensures pre + Leaves(t) + post == a + [t.kids[j + 1].page] + b
    ensures pre + Leaves(Merged(t, j, Joined(t, j))) + post == a + b
    ensures Tail(a) == {t.kids[j].page} && Head(b) <= Others(t, j, j + 2) + Head(post)
  {
    MergedLeaves(t, j, Joined(t, j));
    a, b := pre + LeavesAll(t.kids[..j]) + [t.kids[j].page], LeavesAll(t.kids[j + 2..]) + post;
    var x, y := t.kids[j].page, t.kids[j + 1].page;
    assert Leaves(t.kids[j]) == [x] && Leaves(t.kids[j + 1]) == [y] && Leaves(Joined(t, j)) == [x];
    LeavesInPagesAll(t.kids[j + 2..]);
    hide Leaves, LeavesAll, Joined, Merged, PagesIn;
    assert [x] + [y] == [x, y];
    Regroup(pre, LeavesAll(t.kids[..j]), x, y, LeavesAll(t.kids[j + 2..]), post);
  }

  lemma Regroup<T>(pre: seq<T>, l: seq<T>, x: T, y: T, r: seq<T>, post: seq<T>)
    ensures pre + (l + [x, y] + r) + post == pre + l + [x] + [y] + (r + post)
    ensures pre + (l + [x] + r) + post == pre + l + [x] + (r + post)
  {
  }

  method UnlinkBelow(source: Page, ghost a: seq<Page>, ghost b: seq<Page>, ghost t1: Tree, ghost own: set<Page>, ghost order: nat)
    requires Linked(null, a + [source] + b, null) && NoDup(a + [source] + b) && Rep(t1, order) && own == Pages(t1)
    modifies Tail(a)`next, Head(b)`previous
    ensures Linked(null, a + b, null) && Rep(t1, order) && NoDup(a + b)
  {
    hide *;
    NoDupWithout(a, source, b);
    Unlink(source, a, b);
  }

  lemma MergedPure(t: Tree, M: int, h: nat, b: nat, j: nat)
    requires M >= 4 && h > 0 && t.Node? && Bundled(t) && Spine(t.keys, t.kids, M, h) && HalfFull(t.kids, M, b)
    requires j < |t.keys| && (b == j || b == j + 1) && t.kids[j].Leaf? == t.kids[j + 1].Leaf?
    requires Bundled(t.kids[j]) && Bundled(t.kids[j + 1])
    requires M / 2 <= Count(t.kids[j]) + Count(t.kids[j + 1]) && Count(t.kids[j]) + Count(t.kids[j + 1]) < M
    ensures var t1 := Merged(t, j, Joined(t, j));
      && t1.Node? && t1.page == t.page && Loose(t1, M, h) && Flat(t1) == Flat(t) && Count(t1) == Count(t) - 1
      && (t.kids[j].Node? ==> Leaves(t1) == Leaves(t)) && Leaves(t1) != [] && Leaves(t) != [] && Leaves(t1)[0] == Leaves(t)[0]
  {
    var t1 := Merged(t, j, Joined(t, j));
    assert Joined(t, j) == JoinT(t.kids[j], t.keys[j], t.kids[j + 1]);
    PairMerged(t, M, h, b, j);
    MergedLeaves(t, j, Joined(t, j));
    LooseLeaves(t1, M, h);
    LooseLeaves(t.kids[j], M, h - 1);
    hide Loose, Spine, HalfFull, Flat, Joined;
    assert t1.Node? && Leaves(t) == LeavesAll(t.kids);
    MergedFirst(LeavesAll(t.kids[..j]), Leaves(t.kids[j]), Leaves(t.kids[j + 1]), LeavesAll(t.kids[j + 2..]), Leaves(Joined(t, j)));
  }

  lemma MergedFirst<T>(a: seq<T>, l: seq<T>, r: seq<T>, b: seq<T>, m: seq<T>)
    requires l != [] && (m == l || m == l + r)
    ensures (a + m + b)[0] == (a + (l + r) + b)[0]
  {
  }

  /** What the repair is told: the separator to pull down between index pages, and the first leaf of all. */
  ghost predicate Told(t: Tree, h: nat, b: int, rightRootKey: Key, leftmostLeaf: Page, chain: seq<Page>)
    reads leftmostLeaf`isLeaf
  {
    && t.Node? && |t.kids| == |t.keys| + 1 && 0 <= b < |t.kids| && 1 <= |t.keys|
    && (h > 1 ==> rightRootKey == if b < |t.keys| then t.keys[b] else t.keys[b - 1])
    && chain != [] && chain[0] == leftmostLeaf && leftmostLeaf.isLeaf
  }

  lemma ToldParts(t: Tree, h: nat, b: int, j: int, rightRootKey: Key, leftmostLeaf: Page, chain: seq<Page>)
    requires Told(t, h, b, rightRootKey, leftmostLeaf, chain) && j == if b < |t.keys| then b else b - 1
    ensures t.Node? && |t.kids| == |t.keys| + 1 && 0 <= b < |t.kids| && 0 <= j < |t.keys| && (h > 1 ==> rightRootKey == t.keys[j])
    ensures leftmostLeaf.isLeaf
  {
  }

  /** The page that goes away is never the first leaf. */
  lemma NotLeftmost(t: Tree, j: nat, h: nat, b: int, rightRootKey: Key, leftmostLeaf: Page, chain: seq<Page>,
          pre: seq<Page>, post: seq<Page>)
    requires Told(t, h, b, rightRootKey, leftmostLeaf, chain) && chain == pre + Leaves(t) + post && NoDup(chain)
    requires t.Node? && Bundled(t) && j < |t.keys| && t.kids[j].Leaf? && t.kids[j + 1].Leaf?
    ensures t.kids[j + 1].page != leftmostLeaf
  {
    var a, c := MergeChain(t, j, pre, post);
    var s := a + [t.kids[j + 1].page] + c;
    assert s[|a|] == t.kids[j + 1].page && s[0] == leftmostLeaf && |a| > 0;
  }

  lemma MergedHead(order: nat, t: Tree, h: nat, b: int, dest: Page)
    requires order >= 4 && h == 1 && t.Node? && Bundled(t) && 0 < |t.keys| && Spine(t.keys, t.kids, order, h)
    requires t.kids[0].Leaf? && t.kids[1].Leaf? && t.kids[0].entries != []
    requires dest == t.kids[0].page && Stored(Joined(t, 0), order, Count(Joined(t, 0)))
    ensures |dest.keys| == order > 0 && Heads(dest.keys[0], Flat(t))
  {
    var w := Joined(t, 0);
    assert w.entries[0] == t.kids[0].entries[0];
    assert dest.keys[..Count(w)][0] == dest.keys[0] && ViewT(w).keys[0] == w.entries[0].key;
    assert Flat(t) == Flat(t.kids[0]) + FlatAll(t.kids[1..]);
  }

  lemma MergeHead(order: nat, t: Tree, h: nat, j: int)
    requires order >= 4 && h > 0 && t.Node? && Bundled(t) && 0 <= j < |t.keys| && Spine(t.keys, t.kids, order, h)
    ensures t.kids[j].Leaf? ==> t.kids[j].entries != []
  {
  }

  /** The first leaf once `source` is gone. */
  function LeftmostAfter(leftmostLeaf: Page, source: Page): (r: Page?)
    reads source`next
    ensures source != leftmostLeaf ==> r == leftmostLeaf
  {
    if source == leftmostLeaf then source.next else leftmostLeaf
  }

  method FixByMerge(order: nat, b: int, cur: Page, rightRootKey: Key, ra: ReturnAction, leftmostLeaf: Page,
                    ghost t: Tree, ghost h: nat, ghost pre: seq<Page>, ghost post: seq<Page>, ghost chain: seq<Page>, ghost own: set<Page>)
    returns (underflow: bool, ra1: ReturnAction, leftmost1: Page?, ghost t1: Tree)
    requires Short(order, t, h, b, pre, post) && t.page == cur && own == Pages(t) && chain == pre + Leaves(t) + post
    requires Told(t, h, b, rightRootKey, leftmostLeaf, chain)
    requires b > 0 ==> 0 < b < |t.kids| && Count(t.kids[b - 1]) <= order / 2
    requires t.Node? && (b < |t.keys| ==> 0 <= b + 1 < |t.kids| && Count(t.kids[b + 1]) <= order / 2)
    modifies own`keys, own`data, own`children, own`size, own`next, own`previous, Head(post)`previous
    ensures Fixed(order, t, h, pre, post, t1, underflow) && (Asks(ra, t) ==> Asks(ra1, t1)) && leftmost1 == leftmostLeaf
    ensures MergedAt(t, t1, h, b)
  {
    hide *;
    ghost var j := if b < |t.keys| then b else b - 1;
    ToldParts(t, h, b, j, rightRootKey, leftmostLeaf, chain);
    PairReady(order, t, h, b, j, pre, post);
    PairHeap(order, t, h, b, j, pre, post);
    SiblingPages(t, j);
    if h == 1 {
      NotLeftmost(t, j, h, b, rightRootKey, leftmostLeaf, chain, pre, post);
    }
    var dest: Page, source: Page;
    if b < cur.size {
      dest, source := cur.children[b], cur.children[b + 1];
    } else {
      dest, source := cur.children[b - 1], cur.children[b];
    }
    ghost var v := cur.Now(order);
    MergeBelow(order, cur, if b < cur.size then b else b - 1, dest, source, rightRootKey, t, Others(t, j, j + 2), PagesIn(Under(Joined(t, j))), chain);
    MergedRep(t, order, j, v);
    MergedPure(t, order, h, b, j);
    MergedAtPair(t, h, b, j);
    t1 := Merged(t, j, Joined(t, j));
    ra1 := ra;
    if b == 0 && dest.isLeaf {
      MergeHead(order, t, h, j);
      MergedHead(order, t, h, b, dest);
      ra1 := ra.(action := SetBranchKey, key1 := dest.keys[0]);
    }
    leftmost1 := LeftmostAfter(leftmostLeaf, source);
    if source.isLeaf {
      ghost var x, y := MergeChain(t, j, pre, post);
      UnlinkBelow(source, x, y, t1, Pages(t1), order);
    }
    underflow := cur.size < order / 2;
    FixedMerge(order, t, h, pre, post, t1, underflow, ra, ra1);
  }

  lemma FixedMerge(order: nat, t: Tree, h: nat, pre: seq<Page>, post: seq<Page>, t1: Tree, underflow: bool,
          ra: ReturnAction, ra1: ReturnAction)
    requires t1.Node? && t1.page == t.page && Loose(t1, order, h) && Flat(t1) == Flat(t)
    requires Rep(t1, order) && Distinct(t1) && Pages(t1) <= Pages(t)
    requires Count(t1) == Count(t) - 1 && Leaves(t1) != [] && Leaves(t) != [] && Leaves(t1)[0] == Leaves(t)[0]
    requires Linked(null, pre + Leaves(t1) + post, null) && NoDup(pre + Leaves(t1) + post)
    requires underflow <==> Count(t1) < order / 2
    requires ra1 == ra || (ra1.action == SetBranchKey && Heads(ra1.key1, Flat(t)))
    ensures Fixed(order, t, h, pre, post, t1, underflow) && (Asks(ra, t) ==> Asks(ra1, t1))
  {
  }

  method FixUnderflow(order: nat, b: int, cur: Page, rightRootKey: Key, ra: ReturnAction, leftmostLeaf: Page,
                      ghost t: Tree, ghost h: nat, ghost pre: seq<Page>, ghost post: seq<Page>, ghost chain: seq<Page>, ghost own: set<Page>)
    returns (underflow: bool, ra1: ReturnAction, leftmost1: Page?, ghost t1: Tree)
    requires Short(order, t, h, b, pre, post) && t.page == cur && own == Pages(t) && chain == pre + Leaves(t) + post
    requires Told(t, h, b, rightRootKey, leftmostLeaf, chain)
    modifies own`keys, own`data, own`children, own`size, own`next, own`previous, Head(post)`previous
    ensures Fixed(order, t, h, pre, post, t1, underflow) && (Asks(ra, t) ==> Asks(ra1, t1)) && leftmost1 == leftmostLeaf
    ensures t1.Node? && 0 <= b < |t.kids| && 2 <= |t.kids|
    ensures
      var c := Counts(t.kids);
      Counts(t1.kids) ==
        if b > 0 && c[b - 1] > order / 2 then c[b - 1 := c[b - 1] - 1][b := c[b] + 1]
        else if b + 1 < |c| && c[b + 1] > order / 2 then c[b := c[b] + 1][b + 1 := c[b + 1] - 1]
        else
          var j := if b + 1 < |c| then b else b - 1;
          c[..j] + [c[j] + c[j + 1] + if h == 1 then 0 else 1] + c[j + 2..]
    ensures if h == 1 then Sizes(t) == Counts(t.kids) && Sizes(t1) == Counts(t1.kids) else Sizes(t1) == Sizes(t)
  {
    hide *;
    Neighbours(order, t, h, b, rightRootKey, leftmostLeaf, pre, post, chain);
    ShortSizes(order, t, h, b, pre, post);
    underflow, ra1, leftmost1 := false, ra, leftmostLeaf;
    if b > 0 && cur.children[b - 1].size > order / 2 {
      t1 := FixFromLeft(order, b, cur, t, h, pre, post, chain);
      FixedAsks(order, t, h, pre, post, t1, underflow, ra);
    } else if b < cur.size && cur.children[b + 1].size > order / 2 {
      ra1, t1 := FixFromRight(order, b, cur, rightRootKey, ra, t, h, pre, post, chain);
      FixedAsks(order, t, h, pre, post, t1, underflow, ra);
    } else {
      underflow, ra1, leftmost1, t1 := FixByMerge(order, b, cur, rightRootKey, ra, leftmostLeaf, t, h, pre, post, chain, own);
      MergedAtParts(t, t1, h, b);
    }
    FixedSizes(order, t, h, pre, post, t1, underflow);
  }

  lemma ShortSizes(order: nat, t: Tree, h: nat, b: int, pre: seq<Page>, post: seq<Page>)
    requires Short(order, t, h, b, pre, post)
    ensures t.Node? && (h == 1 ==> Sizes(t) == Counts(t.kids))
  {
    if h == 1 {
      assert Spine(t.keys, t.kids, order, 1);
      forall i | 0 <= i < |t.kids| ensures t.kids[i].Leaf? {
        assert Loose(t.kids[i], order, 0);
      }
      hide *;
      SizesOfLeaves(t.kids);
      SizesOf(t);
    }
  }

  lemma FixedSizes(order: nat, t: Tree, h: nat, pre: seq<Page>, post: seq<Page>, t1: Tree, underflow: bool)
    requires Fixed(order, t, h, pre, post, t1, underflow)
    ensures h == 1 ==> t1.Node? && Sizes(t1) == Counts(t1.kids)
  {
    if h == 1 {
      assert t1.Node? && Loose(t1, order, h);
      hide *;
      LooseSizes(t1, order);
    }
  }

  lemma FixedAsks(order: nat, t: Tree, h: nat, pre: seq<Page>, post: seq<Page>, t1: Tree, underflow: bool, ra: ReturnAction)
    requires Fixed(order, t, h, pre, post, t1, underflow)
    ensures Asks(ra, t) ==> Asks(ra, t1)
  {
  }

  lemma Neighbours(order: nat, t: Tree, h: nat, b: int, rightRootKey: Key, leftmostLeaf: Page, pre: seq<Page>,
          post: seq<Page>, chain: seq<Page>)
    requires Short(order, t, h, b, pre, post) && Told(t, h, b, rightRootKey, leftmostLeaf, chain)
    ensures t.Node? && |t.kids| == |t.keys| + 1 && 0 <= b < |t.kids| && |t.page.children| == order + 1 && t.page.size == |t.keys| <= order
    ensures b > 0 ==> t.page.children[b - 1] != null && t.page.children[b - 1].size == Count(t.kids[b - 1])
    ensures b < |t.keys| ==> t.page.children[b + 1] != null && t.page.children[b + 1].size == Count(t.kids[b + 1])
    ensures b < |t.keys| && h > 1 ==> rightRootKey == t.keys[b]
    ensures 1 <= |t.keys| && h > 0
  {
    TopFields(t, order);
    ChildPages(t, order);
  }
}
