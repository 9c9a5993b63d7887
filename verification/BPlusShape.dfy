/** The abstract shape of a B+ tree: a ghost tree whose nodes name the pages that store them,
    the ordering and occupancy invariant, and the algebra of splitting and joining runs of
    children.  Nothing here reads the heap. */
module BPlusShape {
  import opened Sequences
  import opened BPlusPage

  datatype Entry = Entry(key: Key, data: Data)

  datatype Tree =
    | Leaf(page: Page, entries: seq<Entry>)
    | Node(page: Page, keys: seq<Key>, kids: seq<Tree>)

  /** The entries of a tree, from its leftmost leaf to its rightmost. */
  ghost function Flat(t: Tree): seq<Entry>
    decreases t
  {
    match t
    case Leaf(_, es) => es
    case Node(_, _, kids) => FlatAll(kids)
  }

  ghost function FlatAll(ts: seq<Tree>): seq<Entry>
    decreases ts
  {
    if ts == [] then [] else Flat(ts[0]) + FlatAll(ts[1..])
  }

  /** The leaf pages of a tree, from left to right. */
  ghost function Leaves(t: Tree): seq<Page>
    decreases t
  {
    match t
    case Leaf(p, _) => [p]
    case Node(_, _, kids) => LeavesAll(kids)
  }

  ghost function LeavesAll(ts: seq<Tree>): seq<Page>
    decreases ts
  {
    if ts == [] then [] else Leaves(ts[0]) + LeavesAll(ts[1..])
  }

  /** How many entries each leaf holds, from left to right. */
  ghost function Sizes(t: Tree): seq<int>
    decreases t
  {
    match t
    case Leaf(_, es) => [|es|]
    case Node(_, _, kids) => SizesAll(kids)
  }

  ghost function SizesAll(ts: seq<Tree>): seq<int>
    decreases ts
  {
    if ts == [] then [] else Sizes(ts[0]) + SizesAll(ts[1..])
  }

  lemma {:induction false} SizesAllConcat(a: seq<Tree>, b: seq<Tree>)
    ensures SizesAll(a + b) == SizesAll(a) + SizesAll(b)
    decreases |a|
  {
    if a == [] {
      assert a + b == b;
    } else {
      var ab := a + b;
      assert ab[0] == a[0] && ab[1..] == a[1..] + b;
      SizesAllConcat(a[1..], b);
      Assoc(Sizes(a[0]), SizesAll(a[1..]), SizesAll(b));
    }
  }

  lemma SizesOf(t: Tree)
    ensures SizesAll([t]) == Sizes(t) && (t.Node? ==> Sizes(t) == SizesAll(t.kids)) && (t.Leaf? ==> Sizes(t) == [|t.entries|])
  {
    assert [t][1..] == [];
  }

  lemma SizesOfTwo(a: Tree, b: Tree)
    ensures SizesAll([a, b]) == Sizes(a) + Sizes(b)
  {
    hide *;
    assert [a, b] == [a] + [b];
    SizesAllConcat([a], [b]);
    SizesOf(a);
    SizesOf(b);
  }

  lemma ThreeParts<T>(s: seq<T>, i: nat, j: nat)
    requires i <= j <= |s|
    ensures s == s[..i] + s[i..j] + s[j..]
  {
  }

  /** A run of children before, in and after the part from `i` up to `j`. */
  lemma SizesParts(ts: seq<Tree>, i: nat, j: nat)
    requires i <= j <= |ts|
    ensures SizesAll(ts) == SizesAll(ts[..i]) + SizesAll(ts[i..j]) + SizesAll(ts[j..])
  {
    hide *;
    var l, m, r := ts[..i], ts[i..j], ts[j..];
    ThreeParts(ts, i, j);
    SizesAllConcat(l + m, r);
    SizesAllConcat(l, m);
  }

  /** A leaf that takes an absent key in: one more, or two leaves of half the size, the first the larger when the key goes there. */
  ghost function LeafSizesAfter(es: seq<Entry>, key: Key, order: nat): seq<int> {
    if |es| < order || order < 2 then [|es| + 1]
    else if key < es[(order + 1) / 2 - 1].key then [(order + 1) / 2, order + 1 - (order + 1) / 2]
    else [order / 2, order + 1 - order / 2]
  }

  lemma {:induction false} FlatAllConcat(a: seq<Tree>, b: seq<Tree>)
    ensures FlatAll(a + b) == FlatAll(a) + FlatAll(b)
    decreases |a|
  {
    if a == [] {
      assert a + b == b;
    } else {
      var ab := a + b;
      assert ab[0] == a[0] && ab[1..] == a[1..] + b;
      FlatAllConcat(a[1..], b);
      Assoc(Flat(a[0]), FlatAll(a[1..]), FlatAll(b));
    }
  }

  lemma {:induction false} LeavesAllConcat(a: seq<Tree>, b: seq<Tree>)
    ensures LeavesAll(a + b) == LeavesAll(a) + LeavesAll(b)
    decreases |a|
  {
    if a == [] {
      assert a + b == b;
    } else {
      var ab := a + b;
      assert ab[0] == a[0] && ab[1..] == a[1..] + b;
      LeavesAllConcat(a[1..], b);
      Assoc(Leaves(a[0]), LeavesAll(a[1..]), LeavesAll(b));
    }
  }

  lemma Assoc<T>(a: seq<T>, b: seq<T>, c: seq<T>)
    ensures a + (b + c) == a + b + c
  {
  }

  /** A run of children around child `i`. */
  lemma FlatAllAt(ts: seq<Tree>, i: nat)
    requires i < |ts|
    ensures FlatAll(ts) == FlatAll(ts[..i]) + Flat(ts[i]) + FlatAll(ts[i + 1..])
    ensures LeavesAll(ts) == LeavesAll(ts[..i]) + Leaves(ts[i]) + LeavesAll(ts[i + 1..])
  {
    hide *;
    var r := ts[i..];
    assert ts == ts[..i] + r;
    FlatAllConcat(ts[..i], r);
    LeavesAllConcat(ts[..i], r);
    FlatAllFirst(r);
    assert r[0] == ts[i] && r[1..] == ts[i + 1..];
    Assoc(FlatAll(ts[..i]), Flat(ts[i]), FlatAll(ts[i + 1..]));
    Assoc(LeavesAll(ts[..i]), Leaves(ts[i]), LeavesAll(ts[i + 1..]));
  }

  lemma FlatAllFirst(ts: seq<Tree>)
    requires ts != []
    ensures FlatAll(ts) == Flat(ts[0]) + FlatAll(ts[1..]) && LeavesAll(ts) == Leaves(ts[0]) + LeavesAll(ts[1..])
  {
  }

  // ---------------------------------------------------------------- ordering

  ghost predicate Sorted(es: seq<Entry>) {
    forall i, j :: 0 <= i < j < |es| ==> es[i].key < es[j].key
  }

  ghost predicate AllBelow(es: seq<Entry>, k: Key) {
    forall i :: 0 <= i < |es| ==> es[i].key < k
  }

  ghost predicate AllAbove(k: Key, es: seq<Entry>) {
    forall i :: 0 <= i < |es| ==> k < es[i].key
  }

  ghost predicate HasKey(es: seq<Entry>, k: Key) {
    exists i :: 0 <= i < |es| && es[i].key == k
  }

  /** `es1` is `es` with `e` put in at the one place that keeps the order. */
  ghost predicate Inserted(es: seq<Entry>, e: Entry, es1: seq<Entry>) {
    Sorted(es1) && exists p :: 0 <= p <= |es| && es1 == es[..p] + [e] + es[p..]
  }

  /** `es1` is `es` with `e` put in beside an entry that already has its key. */
  ghost predicate Doubled(es: seq<Entry>, e: Entry, es1: seq<Entry>) {
    exists p :: 0 <= p < |es| && es[p].key == e.key && (es1 == InsertAt(es, p, e) || es1 == InsertAt(es, p + 1, e))
  }

  lemma DoubledInside(a: seq<Entry>, b: seq<Entry>, c: seq<Entry>, e: Entry, b1: seq<Entry>)
    requires Doubled(b, e, b1)
    ensures Doubled(a + b + c, e, a + b1 + c)
  {
    var p :| 0 <= p < |b| && b[p].key == e.key && (b1 == InsertAt(b, p, e) || b1 == InsertAt(b, p + 1, e));
    var q := if b1 == InsertAt(b, p, e) then p else p + 1;
    InsertAtInside(a, b, c, q, e);
    DoubledAt(a + b + c, |a| + p, |a| + q, e);
  }

  lemma DoubledAt(es: seq<Entry>, p: nat, q: nat, e: Entry)
    requires p < |es| && es[p].key == e.key && (q == p || q == p + 1)
    ensures Doubled(es, e, InsertAt(es, q, e))
  {
  }

  lemma InsertAtInside<T>(a: seq<T>, b: seq<T>, c: seq<T>, i: nat, x: T)
    requires i <= |b|
    ensures InsertAt(a + b + c, |a| + i, x) == a + InsertAt(b, i, x) + c
  {
  }

  /** `es1` is `es` without the entry `e`. */
  ghost predicate Removed(es: seq<Entry>, e: Entry, es1: seq<Entry>) {
    exists p :: 0 <= p < |es| && es[p] == e && es1 == es[..p] + es[p + 1..]
  }

  /** The map a sorted run of entries stands for. */
  ghost function Contents(es: seq<Entry>): map<Key, Data>
    decreases |es|
  {
    if es == [] then map[] else Contents(es[..|es| - 1])[es[|es| - 1].key := es[|es| - 1].data]
  }

  ghost predicate Models(es: seq<Entry>, m: map<Key, Data>) {
    && (forall i :: 0 <= i < |es| ==> es[i].key in m && m[es[i].key] == es[i].data)
    && (forall k :: k in m ==> HasKey(es, k))
  }

  lemma {:induction false} ContentsModels(es: seq<Entry>)
    requires Sorted(es)
    ensures Models(es, Contents(es)) && |Contents(es)| == |es|
    decreases |es|
  {
    if es != [] {
      var n := |es| - 1;
      var init := es[..n];
      ContentsModels(init);
      assert forall i :: 0 <= i < n ==> init[i] == es[i];
      assert es[n].key !in Contents(init);
      forall k | k in Contents(es) ensures HasKey(es, k) {
        if k in Contents(init) {
          var i :| 0 <= i < |init| && init[i].key == k;
          assert es[i].key == k;
        }
      }
    }
  }

  lemma ModelsUnique(es: seq<Entry>, m: map<Key, Data>, m1: map<Key, Data>)
    requires Models(es, m) && Models(es, m1)
    ensures m == m1
  {
    assert forall k :: k in m ==> k in m1 && m1[k] == m[k];
    assert forall k :: k in m1 ==> k in m;
  }

  lemma InsertedAt(es: seq<Entry>, e: Entry, es1: seq<Entry>) returns (p: nat)
    requires Inserted(es, e, es1)
    ensures p <= |es| && es1 == es[..p] + [e] + es[p..]
    ensures |es1| == |es| + 1 && es1[p] == e
    ensures forall i :: 0 <= i < p ==> es1[i] == es[i]
    ensures forall i {:trigger es[i]} :: p <= i < |es| ==> es1[i + 1] == es[i]
    ensures forall i {:trigger es1[i]} :: p < i < |es1| ==> es1[i] == es[i - 1]
  {
    p :| 0 <= p <= |es| && es1 == es[..p] + [e] + es[p..];
    InsertedPlaces(es, p, e, es1);
  }

  lemma InsertedPlaces<T>(s: seq<T>, p: nat, x: T, s1: seq<T>)
    requires p <= |s| && s1 == s[..p] + [x] + s[p..]
    ensures |s1| == |s| + 1 && s1[p] == x
    ensures forall i :: 0 <= i < p ==> s1[i] == s[i]
    ensures forall i {:trigger s[i]} :: p <= i < |s| ==> s1[i + 1] == s[i]
    ensures forall i {:trigger s1[i]} :: p < i < |s1| ==> s1[i] == s[i - 1]
  {
  }

  lemma InsertedModels(es: seq<Entry>, e: Entry, es1: seq<Entry>, m: map<Key, Data>)
    requires Inserted(es, e, es1) && Models(es, m)
    ensures e.key !in m
    ensures Models(es1, m[e.key := e.data])
  {
    var p := InsertedAt(es, e, es1);
    forall i | 0 <= i < |es| ensures es[i].key != e.key {
      assert es1[if i < p then i else i + 1] == es[i];
    }
    var m1 := m[e.key := e.data];
    forall k | k in m1 ensures HasKey(es1, k) {
      if k == e.key {
        assert es1[p].key == k;
      } else {
        var i :| 0 <= i < |es| && es[i].key == k;
        assert es1[if i < p then i else i + 1] == es[i];
      }
    }
    forall i | 0 <= i < |es1| ensures es1[i].key in m1 && m1[es1[i].key] == es1[i].data {
      if i != p {
        assert es1[i] == es[if i < p then i else i - 1];
        assert es1[i].key != e.key;
      }
    }
  }

  lemma InsertedContents(es: seq<Entry>, e: Entry, es1: seq<Entry>)
    requires Sorted(es) && Inserted(es, e, es1)
    ensures e.key !in Contents(es)
    ensures Contents(es1) == Contents(es)[e.key := e.data]
  {
    ContentsModels(es);
    ContentsModels(es1);
    InsertedModels(es, e, es1, Contents(es));
    ModelsUnique(es1, Contents(es1), Contents(es)[e.key := e.data]);
  }

  lemma RemovedIsInserted(es: seq<Entry>, e: Entry, es1: seq<Entry>)
    requires Sorted(es) && Removed(es, e, es1)
    ensures Sorted(es1) && Inserted(es1, e, es)
  {
    var p :| 0 <= p < |es| && es[p] == e && es1 == es[..p] + es[p + 1..];
    RemovedSorted(es, p);
    PutBack(es, p);
  }

  lemma PutBack<T>(s: seq<T>, p: nat)
    requires p < |s|
    ensures var s1 := s[..p] + s[p + 1..]; s == s1[..p] + [s[p]] + s1[p..]
  {
  }

  lemma RemovedContents(es: seq<Entry>, e: Entry, es1: seq<Entry>)
    requires Sorted(es) && Removed(es, e, es1)
    ensures e.key in Contents(es) && Contents(es)[e.key] == e.data
    ensures Contents(es1) == Contents(es) - {e.key}
  {
    hide *;
    RemovedIsInserted(es, e, es1);
    InsertedContents(es1, e, es);
    MapPutRemove(Contents(es1), e.key, e.data);
  }

  lemma RemovedSorted(es: seq<Entry>, p: nat)
    requires Sorted(es) && p < |es|
    ensures Sorted(es[..p] + es[p + 1..])
  {
    var es1 := es[..p] + es[p + 1..];
    assert forall i :: 0 <= i < |es1| ==> es1[i] == es[if i < p then i else i + 1];
  }

  lemma InsertedInside(a: seq<Entry>, b: seq<Entry>, c: seq<Entry>, e: Entry, b1: seq<Entry>)
    requires Sorted(a + b + c) && Inserted(b, e, b1)
    requires AllBelow(a, e.key) && AllAbove(e.key, c)
    ensures Inserted(a + b + c, e, a + b1 + c)
  {
    var p :| 0 <= p <= |b| && b1 == b[..p] + [e] + b[p..];
    var abc := a + b + c;
    AroundEntry(b[..p], e, b[p..]);
    hide *;
    Regrouped(a, b, c, p, e);
    BelowBoth(a, b[..p], e.key);
    AboveBoth(e.key, b[p..], c);
    PutInOrder(a + b[..p], e, b[p..] + c);
    InsertedIntro(abc, |a| + p, e, a + b1 + c);
  }

  lemma InsertedIntro(es: seq<Entry>, p: nat, e: Entry, es1: seq<Entry>)
    requires p <= |es| && Sorted(es1) && es1 == es[..p] + [e] + es[p..]
    ensures Inserted(es, e, es1)
  {
  }

  lemma Regrouped(a: seq<Entry>, b: seq<Entry>, c: seq<Entry>, p: nat, e: Entry)
    requires p <= |b|
    ensures (a + b + c)[..|a| + p] == a + b[..p] && (a + b + c)[|a| + p..] == b[p..] + c
    ensures a + (b[..p] + [e] + b[p..]) + c == (a + b[..p]) + [e] + (b[p..] + c)
    ensures a + b + c == (a + b[..p]) + (b[p..] + c)
  {
  }

  lemma AroundEntry(l: seq<Entry>, e: Entry, r: seq<Entry>)
    requires Sorted(l + [e] + r)
    ensures AllBelow(l, e.key) && AllAbove(e.key, r)
  {
    var s := l + [e] + r;
    assert s[|l|] == e;
    assert forall i :: 0 <= i < |l| ==> s[i] == l[i];
    assert forall i :: 0 <= i < |r| ==> s[|l| + 1 + i] == r[i];
  }

  lemma BelowBoth(a: seq<Entry>, b: seq<Entry>, k: Key)
    requires AllBelow(a, k) && AllBelow(b, k)
    ensures AllBelow(a + b, k)
  {
  }

  lemma AboveBoth(k: Key, a: seq<Entry>, b: seq<Entry>)
    requires AllAbove(k, a) && AllAbove(k, b)
    ensures AllAbove(k, a + b)
  {
  }

  lemma PutInOrder(l: seq<Entry>, e: Entry, r: seq<Entry>)
    requires Sorted(l + r) && AllBelow(l, e.key) && AllAbove(e.key, r)
    ensures Sorted(l + [e] + r)
  {
    var s, s1 := l + r, l + [e] + r;
    assert forall i :: 0 <= i < |r| ==> s[|l| + i] == r[i];
    assert forall i :: 0 <= i < |l| ==> s[i] == l[i];
  }

  lemma InsertedAfter(a: seq<Entry>, b: seq<Entry>, e: Entry, b1: seq<Entry>)
    requires Sorted(a + b) && Inserted(b, e, b1) && AllBelow(a, e.key)
    ensures Inserted(a + b, e, a + b1)
  {
    assert a + b + [] == a + b && a + b1 + [] == a + b1;
    hide Sorted, Inserted, AllBelow;
    assert AllAbove(e.key, []);
    InsertedInside(a, b, [], e, b1);
  }

  lemma InsertedBefore(b: seq<Entry>, c: seq<Entry>, e: Entry, b1: seq<Entry>)
    requires Sorted(b + c) && Inserted(b, e, b1) && AllAbove(e.key, c)
    ensures Inserted(b + c, e, b1 + c)
  {
    assert [] + b + c == b + c && [] + b1 + c == b1 + c;
    hide Sorted, Inserted, AllAbove;
    assert AllBelow([], e.key);
    InsertedInside([], b, c, e, b1);
  }

  lemma RemovedInside(a: seq<Entry>, b: seq<Entry>, c: seq<Entry>, e: Entry, b1: seq<Entry>)
    requires Removed(b, e, b1)
    ensures Removed(a + b + c, e, a + b1 + c)
  {
    var p :| 0 <= p < |b| && b[p] == e && b1 == b[..p] + b[p + 1..];
    var abc := a + b + c;
    assert abc[|a| + p] == e;
    assert a + b1 + c == abc[..|a| + p] + abc[|a| + p + 1..];
  }

  // ---------------------------------------------------------------- invariant

  /** Shape and occupancy below a node of height `h`: every leaf is at the same depth, every page
      but the root holds at least `M / 2` keys, none more than `M`, and each separator is the
      smallest key of the subtree on its right. */
  ghost predicate WF(t: Tree, M: int, h: nat, lo: int)
    decreases h, 0
  {
    Bundled(t) &&
    match t
    case Leaf(_, es) => h == 0 && lo <= |es| <= M
    case Node(_, keys, kids) => h > 0 && lo <= |keys| <= M && Run(keys, kids, M, h)
  }

  /** A run of children and the separators between them. */
  ghost predicate Run(keys: seq<Key>, kids: seq<Tree>, M: int, h: nat)
    requires h > 0
    decreases h - 1, 1
  {
    && |kids| == |keys| + 1
    && (forall i :: 0 <= i < |kids| ==> WF(kids[i], M, h - 1, M / 2))
    && (forall i :: 1 <= i < |kids| ==> Heads(keys[i - 1], Flat(kids[i])))
  }

  ghost predicate Heads(k: Key, es: seq<Entry>) {
    es != [] && es[0].key == k
  }

  lemma WFNonEmpty(t: Tree, M: int, h: nat, lo: int)
    requires M >= 4 && lo >= 1 && WF(t, M, h, lo)
    ensures Flat(t) != [] && Leaves(t) != []
    decreases h
  {
    if t.Node? {
      WFNonEmpty(t.kids[0], M, h - 1, M / 2);
    }
  }

  lemma RunNonEmpty(keys: seq<Key>, kids: seq<Tree>, M: int, h: nat)
    requires M >= 4 && h > 0 && Run(keys, kids, M, h)
    ensures forall i :: 0 <= i < |kids| ==> Flat(kids[i]) != [] && Leaves(kids[i]) != []
    ensures FlatAll(kids) != [] && FlatAll(kids)[0] == Flat(kids[0])[0]
  {
    forall i | 0 <= i < |kids| ensures Flat(kids[i]) != [] && Leaves(kids[i]) != [] {
      WFNonEmpty(kids[i], M, h - 1, M / 2);
    }
  }

  lemma RunSplit(keys: seq<Key>, kids: seq<Tree>, M: int, h: nat, c: nat)
    requires h > 0 && Run(keys, kids, M, h) && c < |keys|
    ensures Run(keys[..c], kids[..c + 1], M, h)
    ensures Run(keys[c + 1..], kids[c + 1..], M, h)
    ensures Heads(keys[c], Flat(kids[c + 1]))
    ensures FlatAll(kids) == FlatAll(kids[..c + 1]) + FlatAll(kids[c + 1..])
    ensures LeavesAll(kids) == LeavesAll(kids[..c + 1]) + LeavesAll(kids[c + 1..])
    ensures Heads(keys[c], FlatAll(kids[c + 1..]))
  {
    var r, rk := kids[c + 1..], keys[c + 1..];
    forall i | 1 <= i < |r| ensures Heads(rk[i - 1], Flat(r[i])) {
      assert r[i] == kids[c + 1 + i] && rk[i - 1] == keys[c + i];
      assert Heads(keys[c + 1 + i - 1], Flat(kids[c + 1 + i]));
    }
    FlatAllConcat(kids[..c + 1], r);
    LeavesAllConcat(kids[..c + 1], r);
    assert kids == kids[..c + 1] + r;
    assert Heads(keys[c + 1 - 1], Flat(kids[c + 1]));
    assert r[0] == kids[c + 1];
  }

  lemma RunJoin(ka: seq<Key>, a: seq<Tree>, sep: Key, kb: seq<Key>, b: seq<Tree>, M: int, h: nat)
    requires h > 0 && Run(ka, a, M, h) && Run(kb, b, M, h) && Heads(sep, Flat(b[0]))
    ensures Run(ka + [sep] + kb, a + b, M, h)
    ensures FlatAll(a + b) == FlatAll(a) + FlatAll(b)
    ensures LeavesAll(a + b) == LeavesAll(a) + LeavesAll(b)
  {
    var keys, kids := ka + [sep] + kb, a + b;
    forall i | 1 <= i < |kids| ensures Heads(keys[i - 1], Flat(kids[i])) {
      if i > |a| {
        assert Heads(kb[i - |a| - 1], Flat(b[i - |a|]));
      }
    }
    FlatAllConcat(a, b);
    LeavesAllConcat(a, b);
  }

  /** Child `b` of a run replaced, with the separator before it. */
  lemma RunReplace(keys: seq<Key>, kids: seq<Tree>, M: int, h: nat, b: nat, k: Key, t: Tree)
    requires h > 0 && Run(keys, kids, M, h) && b < |kids| && WF(t, M, h - 1, M / 2)
    requires b > 0 ==> Heads(k, Flat(t))
    ensures Run(if b == 0 then keys else keys[b - 1 := k], kids[b := t], M, h)
    ensures FlatAll(kids[b := t]) == FlatAll(kids[..b]) + Flat(t) + FlatAll(kids[b + 1..])
    ensures LeavesAll(kids[b := t]) == LeavesAll(kids[..b]) + Leaves(t) + LeavesAll(kids[b + 1..])
  {
    var kids1 := kids[b := t];
    FlatAllAt(kids1, b);
    assert kids1[..b] == kids[..b] && kids1[b + 1..] == kids[b + 1..];
  }

  /** Two neighbouring children replaced, with the separators before and between them. */
  lemma RunReplaceTwo(keys: seq<Key>, kids: seq<Tree>, M: int, h: nat, b: nat, l: Tree, sep: Key, r: Tree)
    requires M >= 4 && h > 0 && Run(keys, kids, M, h) && b + 1 < |kids|
    requires WF(l, M, h - 1, M / 2) && WF(r, M, h - 1, M / 2) && Heads(sep, Flat(r))
    requires b > 0 ==> Heads(keys[b - 1], Flat(l))
    ensures Run(keys[b := sep], kids[b := l][b + 1 := r], M, h)
    ensures FlatAll(kids) == FlatAll(kids[..b]) + (Flat(kids[b]) + Flat(kids[b + 1])) + FlatAll(kids[b + 2..])
    ensures FlatAll(kids[b := l][b + 1 := r]) == FlatAll(kids[..b]) + (Flat(l) + Flat(r)) + FlatAll(kids[b + 2..])
    ensures LeavesAll(kids) == LeavesAll(kids[..b]) + (Leaves(kids[b]) + Leaves(kids[b + 1])) + LeavesAll(kids[b + 2..])
    ensures LeavesAll(kids[b := l][b + 1 := r]) == LeavesAll(kids[..b]) + (Leaves(l) + Leaves(r)) + LeavesAll(kids[b + 2..])
  {
    var mid := kids[b := l];
    RunReplace(keys, kids, M, h, b, if b > 0 then keys[b - 1] else 0, l);
    if b > 0 {
      assert keys[b - 1 := keys[b - 1]] == keys;
    }
    RunReplace(keys, mid, M, h, b + 1, sep, r);
    TwoAt(kids, b);
    TwoAt(mid[b + 1 := r], b);
    assert mid[b + 1 := r][..b] == kids[..b] && mid[b + 1 := r][b + 2..] == kids[b + 2..];
  }

  lemma TwoAt(ts: seq<Tree>, b: nat)
    requires b + 1 < |ts|
    ensures FlatAll(ts) == FlatAll(ts[..b]) + (Flat(ts[b]) + Flat(ts[b + 1])) + FlatAll(ts[b + 2..])
    ensures LeavesAll(ts) == LeavesAll(ts[..b]) + (Leaves(ts[b]) + Leaves(ts[b + 1])) + LeavesAll(ts[b + 2..])
  {
    FlatAllAt(ts, b);
    var r := ts[b + 1..];
    assert r[0] == ts[b + 1] && r[1..] == ts[b + 2..];
    Assoc(FlatAll(ts[..b]) + Flat(ts[b]), Flat(ts[b + 1]), FlatAll(ts[b + 2..]));
    Assoc(FlatAll(ts[..b]), Flat(ts[b]), Flat(ts[b + 1]));
    Assoc(LeavesAll(ts[..b]) + Leaves(ts[b]), Leaves(ts[b + 1]), LeavesAll(ts[b + 2..]));
    Assoc(LeavesAll(ts[..b]), Leaves(ts[b]), Leaves(ts[b + 1]));
  }

  /** A child put in to the right of child `b`. */
  lemma RunInsert(keys: seq<Key>, kids: seq<Tree>, M: int, h: nat, b: nat, k: Key, t: Tree)
    requires h > 0 && Run(keys, kids, M, h) && b < |kids| && WF(t, M, h - 1, M / 2) && Heads(k, Flat(t))
    ensures Run(InsertAt(keys, b, k), InsertAt(kids, b + 1, t), M, h)
    ensures FlatAll(InsertAt(kids, b + 1, t)) == FlatAll(kids[..b + 1]) + Flat(t) + FlatAll(kids[b + 1..])
    ensures LeavesAll(InsertAt(kids, b + 1, t)) == LeavesAll(kids[..b + 1]) + Leaves(t) + LeavesAll(kids[b + 1..])
  {
    var keys1, kids1 := InsertAt(keys, b, k), InsertAt(kids, b + 1, t);
    FlatAllAt(kids1, b + 1);
    assert kids1[..b + 1] == kids[..b + 1] && kids1[b + 2..] == kids[b + 1..];
    forall i | 1 <= i < |kids1| ensures Heads(keys1[i - 1], Flat(kids1[i])) {
      if i > b + 1 {
        assert Heads(keys[i - 1 - 1], Flat(kids[i - 1]));
      }
    }
  }

  // ---------------------------------------------------------------- the way down

  /** The child to follow for `key`. */
  ghost predicate Branch(keys: seq<Key>, key: Key, b: int) {
    0 <= b <= |keys| && (b > 0 ==> keys[b - 1] <= key) && (b < |keys| ==> key < keys[b])
  }

  lemma RunIncreasing(keys: seq<Key>, kids: seq<Tree>, M: int, h: nat)
    requires M >= 4 && h > 0 && Run(keys, kids, M, h) && Sorted(FlatAll(kids))
    ensures Increasing(keys)
    ensures forall i :: 0 <= i < |kids| ==> Sorted(Flat(kids[i]))
  {
    forall i | 0 <= i < |kids| ensures Sorted(Flat(kids[i])) {
      FlatAllAt(kids, i);
      SortedParts(FlatAll(kids[..i]), Flat(kids[i]), FlatAll(kids[i + 1..]));
    }
    forall i, j | 0 <= i < j < |keys| ensures keys[i] < keys[j] {
      Separated(keys, kids, M, h, i, j);
    }
  }

  lemma Separated(keys: seq<Key>, kids: seq<Tree>, M: int, h: nat, i: nat, j: nat)
    requires M >= 4 && h > 0 && Run(keys, kids, M, h) && Sorted(FlatAll(kids)) && i < j < |keys|
    ensures keys[i] < keys[j]
  {
    hide *;
    RunHead(keys, kids, M, h, i);
    RunHead(keys, kids, M, h, j);
    var left := kids[..j + 1];
    FlatAllAt(kids, j + 1);
    FlatAllAt(left, i + 1);
    TwoHeads(keys[i], keys[j], FlatAll(left[..i + 1]), Flat(kids[i + 1]), FlatAll(left[i + 2..]), Flat(kids[j + 1]), FlatAll(kids[j + 2..]));
  }

  lemma RunHead(keys: seq<Key>, kids: seq<Tree>, M: int, h: nat, i: nat)
    requires h > 0 && Run(keys, kids, M, h) && i < |keys|
    ensures |kids| == |keys| + 1 && Heads(keys[i], Flat(kids[i + 1]))
  {
    assert Heads(keys[i + 1 - 1], Flat(kids[i + 1]));
  }

  lemma TwoHeads(k: Key, m: Key, a: seq<Entry>, x: seq<Entry>, b: seq<Entry>, y: seq<Entry>, c: seq<Entry>)
    requires Sorted(a + x + b + y + c) && Heads(k, x) && Heads(m, y)
    ensures k < m
  {
    var es := a + x + b + y + c;
    assert es[|a|] == x[0] && es[|a + x + b|] == y[0];
  }

  lemma SortedParts(a: seq<Entry>, b: seq<Entry>, c: seq<Entry>)
    requires Sorted(a + b + c)
    ensures Sorted(a) && Sorted(b) && Sorted(c)
    ensures b != [] ==> AllBelow(a, b[0].key)
    ensures b != [] && c != [] ==> AllBelow(b, c[0].key)
  {
    var abc := a + b + c;
    assert forall i :: 0 <= i < |a| ==> abc[i] == a[i];
    assert forall i :: 0 <= i < |b| ==> abc[|a| + i] == b[i];
    assert forall i :: 0 <= i < |c| ==> abc[|a| + |b| + i] == c[i];
  }

  /** Everything left of the followed child is below the key, everything right of it above. */
  lemma BranchBounds(keys: seq<Key>, kids: seq<Tree>, M: int, h: nat, key: Key, b: nat)
    requires M >= 4 && h > 0 && Run(keys, kids, M, h) && Sorted(FlatAll(kids)) && Branch(keys, key, b)
    ensures FlatAll(kids) == FlatAll(kids[..b]) + Flat(kids[b]) + FlatAll(kids[b + 1..])
    ensures AllBelow(FlatAll(kids[..b]), key) && AllAbove(key, FlatAll(kids[b + 1..]))
    ensures Sorted(Flat(kids[b]))
  {
    FlatAllAt(kids, b);
    SortedParts(FlatAll(kids[..b]), Flat(kids[b]), FlatAll(kids[b + 1..]));
    if b > 0 {
      assert Heads(keys[b - 1], Flat(kids[b]));
    }
    if b < |keys| {
      var r := kids[b + 1..];
      assert Heads(keys[b + 1 - 1], Flat(kids[b + 1]));
      assert r[0] == kids[b + 1];
      assert FlatAll(r)[0] == Flat(r[0])[0];
      assert Sorted(FlatAll(r));
    }
  }

  /** The key is below this run exactly when it is below the followed child. */
  lemma BranchHasKey(keys: seq<Key>, kids: seq<Tree>, M: int, h: nat, key: Key, b: nat)
    requires M >= 4 && h > 0 && Run(keys, kids, M, h) && Sorted(FlatAll(kids)) && Branch(keys, key, b)
    ensures HasKey(FlatAll(kids), key) <==> HasKey(Flat(kids[b]), key)
  {
    BranchBounds(keys, kids, M, h, key, b);
    HasKeyParts(FlatAll(kids[..b]), Flat(kids[b]), FlatAll(kids[b + 1..]), key);
  }

  lemma HasKeyParts(a: seq<Entry>, b: seq<Entry>, c: seq<Entry>, key: Key)
    ensures HasKey(a + b + c, key) <==> HasKey(a, key) || HasKey(b, key) || HasKey(c, key)
  {
    var abc := a + b + c;
    assert forall i :: 0 <= i < |a| ==> abc[i] == a[i];
    assert forall i :: 0 <= i < |b| ==> abc[|a| + i] == b[i];
    assert forall i :: 0 <= i < |c| ==> abc[|a| + |b| + i] == c[i];
    if HasKey(abc, key) {
      var i :| 0 <= i < |abc| && abc[i].key == key;
      assert if i < |a| then a[i] == abc[i] else if i < |a| + |b| then b[i - |a|] == abc[i] else c[i - |a| - |b|] == abc[i];
    }
  }

  // ---------------------------------------------------------------- trees and page views

  ghost function KeysOf(es: seq<Entry>): (r: seq<Key>)
    ensures |r| == |es| && forall i :: 0 <= i < |es| ==> r[i] == es[i].key
  {
    seq(|es|, i requires 0 <= i < |es| => es[i].key)
  }

  ghost function DataOf(es: seq<Entry>): (r: seq<Data>)
    ensures |r| == |es| && forall i :: 0 <= i < |es| ==> r[i] == es[i].data
  {
    seq(|es|, i requires 0 <= i < |es| => es[i].data)
  }

  ghost function PagesOf(ts: seq<Tree>): (r: seq<Page?>)
    ensures |r| == |ts| && forall i :: 0 <= i < |ts| ==> r[i] == ts[i].page
  {
    seq(|ts|, i requires 0 <= i < |ts| => ts[i].page)
  }

  /** What the page at the top of a tree holds. */
  ghost function ViewT(t: Tree): (v: View)
    requires t.Node? ==> |t.kids| == |t.keys| + 1
    ensures WellFormed(v) && v.isLeaf == t.Leaf? && |v.keys| == Count(t)
  {
    match t
    case Leaf(_, es) => View(true, KeysOf(es), DataOf(es), [])
    case Node(_, keys, kids) => View(false, keys, [], PagesOf(kids))
  }

  ghost function Count(t: Tree): nat {
    if t.Leaf? then |t.entries| else |t.keys|
  }

  /** `t` has the run of keys between its parts that `Insert`, `Take`, `Drop` and `Join` expect. */
  ghost predicate Bundled(t: Tree) {
    t.Node? ==> |t.kids| == |t.keys| + 1
  }

  ghost function InsertEntry(t: Tree, i: nat, e: Entry): (r: Tree)
    requires t.Leaf? && i <= |t.entries|
  {
    Leaf(t.page, InsertAt(t.entries, i, e))
  }

  ghost function InsertKid(t: Tree, i: nat, key: Key, kid: Tree): (r: Tree)
    requires t.Node? && Bundled(t) && i <= |t.keys|
    ensures Bundled(r)
  {
    Node(t.page, InsertAt(t.keys, i, key), InsertAt(t.kids, i + 1, kid))
  }

  ghost function TakeT(t: Tree, c: nat): (r: Tree)
    requires Bundled(t) && c < Count(t)
    ensures Bundled(r) && Count(r) == c
  {
    if t.Leaf? then Leaf(t.page, t.entries[..c]) else Node(t.page, t.keys[..c], t.kids[..c + 1])
  }

  ghost function DropT(t: Tree, c: nat, page: Page): (r: Tree)
    requires Bundled(t) && c < Count(t)
    ensures Bundled(r) && Count(r) == Count(t) - c - if t.Leaf? then 0 else 1
  {
    if t.Leaf? then Leaf(page, t.entries[c..]) else Node(page, t.keys[c + 1..], t.kids[c + 1..])
  }

  ghost function JoinT(l: Tree, sep: Key, r: Tree): (t: Tree)
    requires Bundled(l) && Bundled(r) && l.Leaf? == r.Leaf?
    ensures Bundled(t) && Count(t) == Count(l) + Count(r) + if l.Leaf? then 0 else 1
  {
    if l.Leaf? then Leaf(l.page, l.entries + r.entries) else Node(l.page, l.keys + [sep] + r.keys, l.kids + r.kids)
  }

  lemma ViewInsertEntry(t: Tree, i: nat, e: Entry, child: Page?)
    requires t.Leaf? && i <= |t.entries|
    ensures ViewT(InsertEntry(t, i, e)) == Insert(ViewT(t), i, e.key, e.data, child)
  {
    var es := InsertAt(t.entries, i, e);
    assert KeysOf(es) == InsertAt(KeysOf(t.entries), i, e.key);
    assert DataOf(es) == InsertAt(DataOf(t.entries), i, e.data);
  }

  lemma ViewInsertKid(t: Tree, i: nat, key: Key, d: Data, kid: Tree)
    requires t.Node? && Bundled(t) && i <= |t.keys|
    ensures ViewT(InsertKid(t, i, key, kid)) == Insert(ViewT(t), i, key, d, kid.page)
  {
    assert PagesOf(InsertAt(t.kids, i + 1, kid)) == InsertAt(PagesOf(t.kids), i + 1, kid.page);
  }

  lemma ViewCut(t: Tree, c: nat, page: Page)
    requires Bundled(t) && c < Count(t)
    ensures ViewT(TakeT(t, c)) == Take(ViewT(t), c)
    ensures ViewT(DropT(t, c, page)) == Drop(ViewT(t), c)
  {
    if t.Leaf? {
      assert KeysOf(t.entries[..c]) == KeysOf(t.entries)[..c] && KeysOf(t.entries[c..]) == KeysOf(t.entries)[c..];
      assert DataOf(t.entries[..c]) == DataOf(t.entries)[..c] && DataOf(t.entries[c..]) == DataOf(t.entries)[c..];
    } else {
      assert PagesOf(t.kids[..c + 1]) == PagesOf(t.kids)[..c + 1] && PagesOf(t.kids[c + 1..]) == PagesOf(t.kids)[c + 1..];
    }
  }

  lemma ViewJoin(l: Tree, sep: Key, r: Tree)
    requires Bundled(l) && Bundled(r) && l.Leaf? == r.Leaf?
    ensures ViewT(JoinT(l, sep, r)) == Join(ViewT(l), sep, ViewT(r))
  {
    if l.Leaf? {
      assert KeysOf(l.entries + r.entries) == KeysOf(l.entries) + KeysOf(r.entries);
      assert DataOf(l.entries + r.entries) == DataOf(l.entries) + DataOf(r.entries);
    } else {
      assert PagesOf(l.kids + r.kids) == PagesOf(l.kids) + PagesOf(r.kids);
    }
  }

  /** The top of a tree is in order whatever its size: `WF` without the bounds on the top page. */
  ghost predicate Loose(t: Tree, M: int, h: nat)
  {
    Bundled(t) &&
    match t
    case Leaf(_, es) => h == 0
    case Node(_, keys, kids) => h > 0 && Run(keys, kids, M, h)
  }

  /** Cutting a tree in two keeps the order, and the key at the cut heads the right part. */
  lemma CutT(t: Tree, M: int, h: nat, c: nat, page: Page)
    requires M >= 4 && Loose(t, M, h) && c < Count(t)
    ensures Loose(TakeT(t, c), M, h) && Loose(DropT(t, c, page), M, h)
    ensures Flat(t) == Flat(TakeT(t, c)) + Flat(DropT(t, c, page))
    ensures Heads(ViewT(t).keys[c], Flat(DropT(t, c, page)))
    ensures t.Node? ==> Leaves(t) == Leaves(TakeT(t, c)) + Leaves(DropT(t, c, page))
  {
    if t.Node? {
      RunSplit(t.keys, t.kids, M, h, c);
    }
  }

  lemma LooseJoin(l: Tree, sep: Key, r: Tree, M: int, h: nat)
    requires M >= 4 && Loose(l, M, h) && Loose(r, M, h) && Heads(sep, Flat(r))
    ensures Loose(JoinT(l, sep, r), M, h)
    ensures Flat(JoinT(l, sep, r)) == Flat(l) + Flat(r)
    ensures l.Node? ==> Leaves(JoinT(l, sep, r)) == Leaves(l) + Leaves(r)
  {
    if l.Node? {
      RunNonEmpty(r.keys, r.kids, M, h);
      RunJoin(l.keys, l.kids, sep, r.keys, r.kids, M, h);
    }
  }
}
