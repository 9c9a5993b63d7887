/** How a ghost tree is laid out in pages: every node stored in its own page, no page used twice,
    and the leaf pages on one doubly linked chain. */
module BPlusHeap {
  import opened Sequences
  import opened BPlusPage
  import opened BPlusShape

  ghost function Pages(t: Tree): set<Page>
    decreases t
  {
    {t.page} + if t.Leaf? then {} else PagesIn(t.kids)
  }

  ghost function PagesIn(ts: seq<Tree>): set<Page>
    decreases ts
  {
    set i, p | 0 <= i < |ts| && p in Pages(ts[i]) :: p
  }

  ghost predicate Distinct(t: Tree)
    decreases t
  {
    t.Node? ==> t.page !in PagesIn(t.kids) && DistinctAll(t.kids)
  }

  ghost predicate DistinctAll(ts: seq<Tree>)
    decreases ts
  {
    && (forall i :: 0 <= i < |ts| ==> Distinct(ts[i]))
    && (forall i, j :: 0 <= i < j < |ts| ==> Pages(ts[i]) !! Pages(ts[j]))
  }

  /** The top page of `t` holds its keys and its data or children, under a recorded size. */
  ghost predicate Stored(t: Tree, order: nat, size: int)
    reads t.page`isLeaf, t.page`size, t.page`keys, t.page`data, t.page`children
  {
    && Bundled(t) && t.page.Fits(order, Count(t)) && t.page.size == size && t.page.isLeaf == t.Leaf?
    && t.page.ViewOf(order, Count(t)) == ViewT(t)
  }

  ghost predicate Rep(t: Tree, order: nat)
    reads Pages(t)`isLeaf, Pages(t)`size, Pages(t)`keys, Pages(t)`data, Pages(t)`children
    decreases t
  {
    Stored(t, order, Count(t)) && (t.Node? ==> RepAll(t.kids, order))
  }

  ghost predicate RepAll(ts: seq<Tree>, order: nat)
    reads PagesIn(ts)`isLeaf, PagesIn(ts)`size, PagesIn(ts)`keys, PagesIn(ts)`data, PagesIn(ts)`children
    decreases ts
  {
    forall i :: 0 <= i < |ts| ==> Rep(ts[i], order)
  }

  /** The leaves `ls` follow one another, each pointing back to the one before, and the last points to `next`. */
  ghost predicate Chained(ls: seq<Page>, next: Page?)
    requires ls != []
    reads (set p | p in ls)`next, (set p | p in ls[1..])`previous
  {
    && ls[|ls| - 1].next == next
    && (forall i :: 0 <= i < |ls| - 1 ==> ls[i].next == ls[i + 1])
    && (forall i :: 1 <= i < |ls| ==> ls[i].previous == ls[i - 1])
  }

  ghost predicate Linked(prev: Page?, ls: seq<Page>, next: Page?)
    reads (set p | p in ls)`next, (set p | p in ls)`previous
  {
    ls != [] ==> ls[0].previous == prev && Chained(ls, next)
  }

  ghost function First(ls: seq<Page>, next: Page?): Page? {
    if ls == [] then next else ls[0]
  }

  ghost function Last(ls: seq<Page>, prev: Page?): Page? {
    if ls == [] then prev else ls[|ls| - 1]
  }

  lemma LinkedParts(prev: Page?, a: seq<Page>, b: seq<Page>, next: Page?)
    ensures Linked(prev, a + b, next) <==> Linked(prev, a, First(b, next)) && Linked(Last(a, prev), b, next)
  {
    var ab := a + b;
    if a == [] {
      assert ab == b;
    } else if b == [] {
      assert ab == a;
    } else {
      if Linked(prev, ab, next) {
        LinkedHalves(prev, a, b, next);
      }
      if Linked(prev, a, b[0]) && Linked(a[|a| - 1], b, next) {
        LinkedWhole(prev, a, b, next);
      }
    }
  }

  lemma LinkedHalves(prev: Page?, a: seq<Page>, b: seq<Page>, next: Page?)
    requires a != [] && b != [] && Linked(prev, a + b, next)
    ensures Linked(prev, a, b[0]) && Linked(a[|a| - 1], b, next)
  {
    var ab := a + b;
    assert forall i :: 0 <= i < |a| ==> ab[i] == a[i];
    assert forall i :: 0 <= i < |b| ==> ab[|a| + i] == b[i];
    forall i | 0 <= i < |b| - 1 ensures b[i].next == b[i + 1] {
      assert ab[|a| + i].next == ab[|a| + i + 1];
    }
    forall i | 1 <= i < |b| ensures b[i].previous == b[i - 1] {
      assert ab[|a| + i].previous == ab[|a| + i - 1];
    }
    assert ab[|a| - 1].next == ab[|a| - 1 + 1];
    assert ab[|a|].previous == ab[|a| - 1];
  }

  lemma LinkedWhole(prev: Page?, a: seq<Page>, b: seq<Page>, next: Page?)
    requires a != [] && b != [] && Linked(prev, a, b[0]) && Linked(a[|a| - 1], b, next)
    ensures Linked(prev, a + b, next)
  {
    var ab := a + b;
    forall i | 0 <= i < |ab| - 1 ensures ab[i].next == ab[i + 1] {
      if i >= |a| { assert b[i - |a|].next == b[i - |a| + 1]; }
    }
    forall i | 1 <= i < |ab| ensures ab[i].previous == ab[i - 1] {
      if i > |a| { assert b[i - |a|].previous == b[i - |a| - 1]; }
    }
  }

  /** Around one leaf of a chain without repeats. */
  lemma NoDupAround<T>(pre: seq<T>, x: T, post: seq<T>)
    requires NoDup(pre + [x] + post)
    ensures x !in pre && x !in post && forall p :: p in pre ==> p !in post
    ensures post != [] ==> post[0] !in post[1..]
  {
    var s := pre + [x] + post;
    assert forall i :: 0 <= i < |pre| ==> s[i] == pre[i];
    assert s[|pre|] == x;
    assert forall i :: 0 <= i < |post| ==> s[|pre| + 1 + i] == post[i];
  }

  lemma LeavesInPages(t: Tree)
    ensures forall p :: p in Leaves(t) ==> p in Pages(t)
    decreases t
  {
    if t.Node? {
      LeavesInPagesAll(t.kids);
    }
  }

  lemma LeavesInPagesAll(ts: seq<Tree>)
    ensures forall p :: p in LeavesAll(ts) ==> p in PagesIn(ts)
    decreases ts
  {
    if ts != [] {
      LeavesInPages(ts[0]);
      LeavesInPagesAll(ts[1..]);
      assert forall p :: p in PagesIn(ts[1..]) ==> p in PagesIn(ts) by {
        forall p | p in PagesIn(ts[1..]) ensures p in PagesIn(ts) {
          var i :| 0 <= i < |ts[1..]| && p in Pages(ts[1..][i]);
          assert p in Pages(ts[i + 1]);
        }
      }
    }
  }

  /** The pages of a node's children, as its page points to them. */
  lemma ChildPages(t: Tree, order: nat)
    requires t.Node? && Rep(t, order) && Distinct(t)
    ensures Bundled(t) && t.page.Live(order) && t.page.keys[..t.page.size] == t.keys && t.page.size == |t.keys| && !t.page.isLeaf
    ensures t.page.children[..t.page.size + 1] == PagesOf(t.kids)
    ensures forall i :: 0 <= i < |t.kids| ==> t.page.children[i] == t.kids[i].page && t.kids[i].page != t.page
    ensures forall i :: 0 <= i < |t.kids| ==> Stored(t.kids[i], order, Count(t.kids[i])) && t.kids[i].page in Pages(t)
    ensures forall i, j :: 0 <= i < j < |t.kids| ==> t.kids[i].page != t.kids[j].page
  {
    var p := t.page;
    assert p.Now(order).children == p.children[..p.size + 1];
    forall i | 0 <= i < |t.kids| ensures p.children[i] == t.kids[i].page && t.kids[i].page != p && t.kids[i].page in Pages(t) {
      assert p.children[..p.size + 1][i] == PagesOf(t.kids)[i];
      assert t.kids[i].page in Pages(t.kids[i]);
    }
    forall i | 0 <= i < |t.kids| ensures Stored(t.kids[i], order, Count(t.kids[i])) {
      assert Rep(t.kids[i], order);
    }
    forall i, j | 0 <= i < j < |t.kids| ensures t.kids[i].page != t.kids[j].page {
      assert t.kids[i].page in Pages(t.kids[i]) && t.kids[j].page in Pages(t.kids[j]);
    }
  }

  /** A stored page holds as many keys as its node, and is live. */
  lemma StoredLive(t: Tree, order: nat)
    requires Stored(t, order, Count(t))
    ensures t.page.Live(order) && t.page.size == Count(t) && t.page.isLeaf == t.Leaf? && t.page.Now(order) == ViewT(t)
  {
  }

  /** The pages below the children of a node other than children `lo .. hi - 1`. */
  ghost function Others(t: Tree, lo: nat, hi: nat): set<Page>
    requires t.Node? && lo <= hi <= |t.kids|
  {
    PagesIn(t.kids[..lo]) + PagesIn(t.kids[hi..])
  }

  ghost predicate Apart(t: Tree, order: nat, lo: nat, hi: nat)
    requires t.Node? && lo <= hi <= |t.kids|
    reads Others(t, lo, hi)`isLeaf, Others(t, lo, hi)`size, Others(t, lo, hi)`keys, Others(t, lo, hi)`data, Others(t, lo, hi)`children
  {
    RepAll(t.kids[..lo], order) && RepAll(t.kids[hi..], order)
  }

  lemma PairPages(t: Tree, order: nat, b: nat)
    requires t.Node? && Rep(t, order) && Distinct(t) && b < |t.keys|
    ensures Bundled(t)
    ensures var p, l, r := t.page, t.kids[b], t.kids[b + 1];
      && p.children[b] == l.page && p.children[b + 1] == r.page
      && p != l.page && p != r.page && l.page != r.page
      && l.page in Pages(t) && r.page in Pages(t) && p in Pages(t)
      && Rep(l, order) && Rep(r, order)
      && Apart(t, order, b, b + 2)
      && p !in Others(t, b, b + 2) && l.page !in Others(t, b, b + 2) && r.page !in Others(t, b, b + 2)
  {
    ChildPages(t, order);
    var l, r := t.kids[b], t.kids[b + 1];
    assert l.page in Pages(l) && r.page in Pages(r);
    SlicePages(t.kids, b);
    SlicePages(t.kids, b + 2);
  }

  lemma SlicePages(ts: seq<Tree>, i: nat)
    requires i <= |ts|
    ensures forall p :: p in PagesIn(ts[..i]) <==> exists k :: 0 <= k < i && p in Pages(ts[k])
    ensures forall p :: p in PagesIn(ts[i..]) <==> exists k :: i <= k < |ts| && p in Pages(ts[k])
  {
    var l, r := ts[..i], ts[i..];
    forall p ensures p in PagesIn(l) <==> exists k :: 0 <= k < i && p in Pages(ts[k]) {
      if p in PagesIn(l) {
        var k :| 0 <= k < |l| && p in Pages(l[k]);
        assert p in Pages(ts[k]);
      }
      if exists k :: 0 <= k < i && p in Pages(ts[k]) {
        var k :| 0 <= k < i && p in Pages(ts[k]);
        assert p in Pages(l[k]);
      }
    }
    forall p ensures p in PagesIn(r) <==> exists k :: i <= k < |ts| && p in Pages(ts[k]) {
      if p in PagesIn(r) {
        var k :| 0 <= k < |r| && p in Pages(r[k]);
        assert p in Pages(ts[i + k]);
      }
      if exists k :: i <= k < |ts| && p in Pages(ts[k]) {
        var k :| i <= k < |ts| && p in Pages(ts[k]);
        assert p in Pages(r[k - i]);
      }
    }
  }

  lemma PagesInConcat(a: seq<Tree>, b: seq<Tree>)
    ensures PagesIn(a + b) == PagesIn(a) + PagesIn(b)
  {
    var ab := a + b;
    assert ab[..|a|] == a && ab[|a|..] == b;
    SlicePages(ab, |a|);
    forall p ensures p in PagesIn(ab) <==> p in PagesIn(a) || p in PagesIn(b) {
      if p in PagesIn(ab) {
        var i :| 0 <= i < |ab| && p in Pages(ab[i]);
      }
    }
  }

  lemma NodeDistinct(t: Tree)
    requires t.Node?
    ensures Pages(t) == {t.page} + PagesIn(t.kids)
    ensures Distinct(t) <==> t.page !in PagesIn(t.kids) && DistinctAll(t.kids)
  {
  }

  /** A tree of a run shares no page with a slice it is not in. */
  lemma ApartFrom(ts: seq<Tree>, k: nat, lo: nat, hi: nat)
    requires DistinctAll(ts) && k < |ts| && lo <= hi <= |ts| && (k < lo || hi <= k)
    ensures Pages(ts[k]) !! PagesIn(ts[lo..hi])
  {
    forall p | p in PagesIn(ts[lo..hi]) ensures p !in Pages(ts[k]) {
      var i :| 0 <= i < hi - lo && p in Pages(ts[lo..hi][i]);
      assert p in Pages(ts[lo + i]);
    }
  }

  /** The top page as its fields. */
  lemma TopFields(t: Tree, order: nat)
    requires t.Node? && Stored(t, order, Count(t))
    ensures t.page.Live(order) && t.page.size == |t.keys| && !t.page.isLeaf && |t.page.keys| == order
    ensures t.page.keys[..|t.keys|] == t.keys && t.page.children[..|t.keys| + 1] == PagesOf(t.kids)
  {
  }
}
