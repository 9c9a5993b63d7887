/** One page of the B+ tree: fixed-size buffers of which the first `size` slots are live, and the
    loops that shift, insert into, delete from and split a page. */
module BPlusPage {
  import opened Sequences

  type Key = int
  type Data(0, !new)

  /** The live part of a page.  A leaf has one datum a key, an index page one child more. */
  datatype View = View(isLeaf: bool, keys: seq<Key>, data: seq<Data>, children: seq<Page?>)

  class Page {
    var isLeaf: bool
    var size: int
    var keys: seq<Key>
    var data: seq<Data>
    var children: seq<Page?>
    var next: Page?
    var previous: Page?

    constructor (order: nat)
      ensures |keys| == order && |data| == order && |children| == order + 1
    {
      var d := new Data[order];
      keys, data, children := seq(order, _ => 0), d[..], seq(order + 1, _ => null);
    }

    /** The buffers have the template's sizes and `n` live keys fit in them. */
    ghost predicate Fits(order: nat, n: int)
      reads this`keys, this`data, this`children
    {
      |keys| == order && |data| == order && |children| == order + 1 && 0 <= n <= order
    }

    ghost predicate Live(order: nat)
      reads this`keys, this`data, this`children, this`size
    {
      Fits(order, size)
    }

    /** The view of the first `n` live keys. */
    ghost function ViewOf(order: nat, n: int): View
      requires Fits(order, n)
      reads this`isLeaf, this`keys, this`data, this`children
    {
      if isLeaf then View(true, keys[..n], data[..n], []) else View(false, keys[..n], [], children[..n + 1])
    }

    ghost function Now(order: nat): View
      requires Live(order)
      reads this`isLeaf, this`size, this`keys, this`data, this`children
    {
      ViewOf(order, size)
    }
  }

  ghost predicate WellFormed(v: View) {
    if v.isLeaf then |v.data| == |v.keys| && v.children == [] else |v.children| == |v.keys| + 1 && v.data == []
  }

  /** The view with a key put in at `i`: beside its datum in a leaf, before its child in an index page. */
  ghost function Insert(v: View, i: nat, key: Key, d: Data, child: Page?): (w: View)
    requires WellFormed(v) && i <= |v.keys|
    ensures WellFormed(w) && w.isLeaf == v.isLeaf && |w.keys| == |v.keys| + 1
  {
    if v.isLeaf then View(true, InsertAt(v.keys, i, key), InsertAt(v.data, i, d), [])
    else View(false, InsertAt(v.keys, i, key), [], InsertAt(v.children, i + 1, child))
  }

  ghost function Remove(v: View, i: nat): (w: View)
    requires WellFormed(v) && i < |v.keys|
    ensures WellFormed(w) && w.isLeaf == v.isLeaf && |w.keys| == |v.keys| - 1
  {
    if v.isLeaf then View(true, RemoveAt(v.keys, i), RemoveAt(v.data, i), [])
    else View(false, RemoveAt(v.keys, i), [], RemoveAt(v.children, i + 1))
  }

  /** The left part of a page cut at key `c`. */
  ghost function Take(v: View, c: nat): (w: View)
    requires WellFormed(v) && c < |v.keys|
    ensures WellFormed(w) && w.isLeaf == v.isLeaf && |w.keys| == c
  {
    if v.isLeaf then View(true, v.keys[..c], v.data[..c], [])
    else View(false, v.keys[..c], [], v.children[..c + 1])
  }

  /** The right part: a leaf keeps key `c`, an index page gives it up to its parent. */
  ghost function Drop(v: View, c: nat): (w: View)
    requires WellFormed(v) && c < |v.keys|
    ensures WellFormed(w) && w.isLeaf == v.isLeaf && |w.keys| == |v.keys| - c - if v.isLeaf then 0 else 1
  {
    if v.isLeaf then View(true, v.keys[c..], v.data[c..], [])
    else View(false, v.keys[c + 1..], [], v.children[c + 1..])
  }

  ghost predicate Increasing(keys: seq<Key>) {
    forall i, j :: 0 <= i < j < |keys| ==> keys[i] < keys[j]
  }

  /** Where `key` belongs: everything before `i` is below it, everything from `i` on above it. */
  ghost predicate Place(keys: seq<Key>, key: Key, i: int) {
    0 <= i <= |keys| && (forall j :: 0 <= j < i ==> keys[j] < key) && (forall j :: i <= j < |keys| ==> key < keys[j])
  }

  lemma PlaceUnique(keys: seq<Key>, key: Key, i: int, j: int)
    requires Place(keys, key, i) && Place(keys, key, j)
    ensures i == j
  {
    var m := if i < j then i else j;
    assert m == |keys| || keys[m] <= key || key < keys[m];
  }

  /** A search for a key that has a place misses, and reports that place. */
  lemma FoundNowhere(keys: seq<Key>, key: Key, i: int, found: bool, out: int)
    requires Place(keys, key, i)
    requires found ==> 0 <= out < |keys| && keys[out] == key
    requires !found ==> Place(keys, key, out)
    ensures !found && out == i
  {
    if !found {
      PlaceUnique(keys, key, i, out);
    }
  }

  lemma PlaceInPrefix(keys: seq<Key>, key: Key, i: int, n: nat)
    requires n <= |keys| && i <= n && Increasing(keys) && Place(keys, key, i)
    ensures Increasing(keys[..n]) && Place(keys[..n], key, i)
  {
  }

  method GetIndexOf(order: nat, key: Key, page: Page) returns (found: bool, out: int)
    requires page.Live(order) && page.size > 0
    requires Increasing(page.keys[..page.size])
    ensures found ==> 0 <= out < page.size && page.keys[out] == key
    ensures !found ==> Place(page.keys[..page.size], key, out)
  {
    var upperBound, lowerBound, index := page.size - 1, 0, page.size / 2;
    ghost var live := page.keys[..page.size];
    while true
      invariant 0 <= lowerBound <= index <= upperBound < page.size
      invariant forall j :: 0 <= j < lowerBound ==> live[j] < key
      invariant forall j :: upperBound < j < page.size ==> key < live[j]
      decreases upperBound - lowerBound
    {
      assert live[index] == page.keys[index];
      if key == page.keys[index] {
        return true, index;
      } else if key < page.keys[index] {
        upperBound := index - 1;
      } else {
        lowerBound := index + 1;
      }
      index := lowerBound + (upperBound - lowerBound) / 2;
      if lowerBound > upperBound {
        return false, lowerBound;
      }
    }
  }

  method DeleteFromPageAtIndex(order: nat, index: int, cur: Page)
    requires cur.Live(order) && 0 <= index < cur.size
    modifies cur`keys, cur`data, cur`children, cur`size
    ensures cur.Live(order) && cur.size == old(cur.size) - 1
    ensures cur.Now(order) == Remove(old(cur.Now(order)), index)
  {
    cur.keys := DeleteSlot(cur.keys, cur.size, index);
    if cur.isLeaf {
      cur.data := DeleteSlot(cur.data, cur.size, index);
    } else {
      cur.children := DeleteSlot(cur.children, cur.size + 1, index + 1);
    }
    cur.size := cur.size - 1;
  }

  datatype Action = NoAction | ReplaceKey1WithKey2 | PushKeyToParent | SetBranchKey

  datatype ReturnAction = ReturnAction(action: Action, key1: Key, key2: Key)

  /** How many keys stay in a full page that splits to admit a key at `i`. */
  function Cut(order: nat, i: int): (c: int)
    requires order >= 4
    ensures order / 2 <= c <= order - order / 2
  {
    if i >= (order + 1) / 2 then order / 2 else (order + 1) / 2
  }

  method InsertIntoRoom(order: nat, key: Key, leafData: Data, insertionIndex: int, nodeData: Page?, cur: Page)
    requires cur.Live(order) && cur.size < order && 0 <= insertionIndex <= cur.size
    modifies cur`keys, cur`data, cur`children, cur`size
    ensures cur.Live(order) && cur.size == old(cur.size) + 1
    ensures cur.Now(order) == Insert(old(cur.Now(order)), insertionIndex, key, leafData, nodeData)
  {
    var keys := InsertSlot(cur.keys, cur.size, insertionIndex, key);
    if cur.isLeaf {
      var leafed := InsertSlot(cur.data, cur.size, insertionIndex, leafData);
      cur.keys, cur.data, cur.size := keys, leafed, cur.size + 1;
    } else {
      var branched := InsertSlot(cur.children, cur.size + 1, insertionIndex + 1, nodeData);
      cur.keys, cur.children, cur.size := keys, branched, cur.size + 1;
    }
  }

  /** The outcome of splitting the overfull view `w` at key `c`.  An index page pushes key `c` up
      and leaves its size one too large, for its parent to correct. */
  ghost predicate Halved(order: nat, w: View, c: int, cur: Page, newPage: Page, ra: ReturnAction, ra1: ReturnAction)
    reads cur, newPage
  {
    && WellFormed(w) && 0 <= c < |w.keys| == order + 1
    && cur.Live(order) && cur.Now(order) == Take(w, c)
    && newPage.Live(order) && newPage.size == order + 1 - c
    && newPage.ViewOf(order, |Drop(w, c).keys|) == Drop(w, c)
    && ra1 == if w.isLeaf then ra else ReturnAction(PushKeyToParent, w.keys[c], ra.key2)
  }

  /** Cutting a view before the inserted key, and after it. */
  lemma CutInserted(v: View, i: nat, key: Key, d: Data, child: Page?, c: nat)
    requires WellFormed(v) && i <= |v.keys| && c <= |v.keys|
    ensures c <= i && c < |v.keys| ==> Take(Insert(v, i, key, d, child), c) == Take(v, c)
    ensures 0 < c && c > i ==> var w := Insert(v, i, key, d, child);
                      Take(w, c) == Insert(Take(v, c - 1), i, key, d, child) && Drop(w, c) == Drop(v, c - 1) && w.keys[c] == v.keys[c - 1]
  {
    InsertAtCut(v.keys, i, key, c);
    if v.isLeaf {
      InsertAtCut(v.data, i, d, c);
    } else {
      InsertAtCut(v.children, i + 1, child, c + 1);
    }
  }

  method CopyUpperLeaf(order: nat, key: Key, leafData: Data, insertionIndex: int, cur: Page, newPage: Page, ra: ReturnAction)
    requires order >= 4 && cur.Live(order) && cur.size == order && newPage.Fits(order, 0) && cur != newPage
    requires order / 2 <= insertionIndex <= order && cur.isLeaf && newPage.isLeaf
    modifies newPage`keys, newPage`data
    ensures UpperPart(order, Insert(cur.Now(order), insertionIndex, key, leafData, null), order / 2, newPage, ra, ra)
  {
    newPage.keys := CopyInserted(cur.keys, order, order / 2, insertionIndex, key, newPage.keys);
    newPage.data := CopyInserted(cur.data, order, order / 2, insertionIndex, leafData, newPage.data);
  }

  method CopyUpperIndex(order: nat, key: Key, leafData: Data, insertionIndex: int, nodeData: Page?, cur: Page, newPage: Page,
                        ra: ReturnAction) returns (ra1: ReturnAction)
    requires order >= 4 && cur.Live(order) && cur.size == order && newPage.Fits(order, 0) && cur != newPage
    requires order / 2 <= insertionIndex <= order && !cur.isLeaf && !newPage.isLeaf
    modifies newPage`keys, newPage`children
    ensures UpperPart(order, Insert(cur.Now(order), insertionIndex, key, leafData, nodeData), order / 2, newPage, ra, ra1)
  {
    ghost var ks, cs := InsertAt(cur.keys[..order], insertionIndex, key), InsertAt(cur.children[..order + 1], insertionIndex + 1, nodeData);
    hide Insert, Drop, UpperPart, InsertAt;
    newPage.keys := CopyInserted(cur.keys, order, order / 2, insertionIndex, key, newPage.keys);
    newPage.children := CopyInserted(cur.children, order + 1, order / 2 + 1, insertionIndex + 1, nodeData, newPage.children);
    assert ks[order / 2..][1..] == ks[order / 2 + 1..];
    ra1 := PushFirstKey(order, newPage, order + 1 - order / 2, ra);
    UpperIndex(order, cur.Now(order), insertionIndex, key, leafData, nodeData, newPage, ra, ra1);
  }

  lemma UpperIndex(order: nat, v: View, i: nat, key: Key, d: Data, child: Page?, newPage: Page, ra: ReturnAction, ra1: ReturnAction)
    requires order >= 4 && WellFormed(v) && !v.isLeaf && |v.keys| == order && i <= order && newPage.Fits(order, 0) && !newPage.isLeaf
    requires newPage.keys[..order - order / 2] == InsertAt(v.keys, i, key)[order / 2 + 1..]
    requires newPage.children[..order + 1 - order / 2] == InsertAt(v.children, i + 1, child)[order / 2 + 1..]
    requires ra1 == ReturnAction(PushKeyToParent, InsertAt(v.keys, i, key)[order / 2], ra.key2)
    ensures UpperPart(order, Insert(v, i, key, d, child), order / 2, newPage, ra, ra1)
  {
  }

  /** `newPage` holds the view `w` from key `c` on, with the key pushed to the parent if it is an index page. */
  ghost predicate UpperPart(order: nat, w: View, c: int, newPage: Page, ra: ReturnAction, ra1: ReturnAction)
    reads newPage`isLeaf, newPage`keys, newPage`data, newPage`children
  {
    && WellFormed(w) && 0 < c < |w.keys| <= order + c
    && newPage.Fits(order, 0)
    && newPage.ViewOf(order, |Drop(w, c).keys|) == Drop(w, c)
    && ra1 == if w.isLeaf then ra else ReturnAction(PushKeyToParent, w.keys[c], ra.key2)
  }

  /** The first key of a split index page is handed to the parent and removed from the page. */
  method PushFirstKey(order: nat, page: Page, n: int, ra: ReturnAction) returns (ra1: ReturnAction)
    requires page.Fits(order, n) && n > 0
    modifies page`keys
    ensures page.Fits(order, n) && page.keys[..n - 1] == old(page.keys[..n])[1..]
    ensures ra1 == ReturnAction(PushKeyToParent, old(page.keys[..n])[0], ra.key2)
  {
    ra1 := ReturnAction(PushKeyToParent, page.keys[0], ra.key2);
    page.keys := DeleteSlot(page.keys, n, 0);
  }

  method SplitHigh(order: nat, key: Key, leafData: Data, insertionIndex: int, nodeData: Page?, cur: Page, newPage: Page,
                   ra: ReturnAction) returns (ra1: ReturnAction)
    requires order >= 4 && cur.Live(order) && cur.size == order && newPage.Fits(order, 0) && cur != newPage
    requires (order + 1) / 2 <= insertionIndex <= order && newPage.isLeaf == cur.isLeaf
    modifies cur`size, newPage`keys, newPage`data, newPage`children, newPage`size
    ensures Halved(order, Insert(old(cur.Now(order)), insertionIndex, key, leafData, nodeData), order / 2, cur, newPage, ra, ra1)
  {
    ghost var v := cur.Now(order);
    if cur.isLeaf {
      ra1 := ra;
      CopyUpperLeaf(order, key, leafData, insertionIndex, cur, newPage, ra);
    } else {
      ra1 := CopyUpperIndex(order, key, leafData, insertionIndex, nodeData, cur, newPage, ra);
    }
    Shrink(order, cur, order / 2);
    newPage.size := order - order / 2 + 1;
    CutInserted(v, insertionIndex, key, leafData, nodeData, order / 2);
    hide Insert, Drop;
  }

  method CopyUpperLow(order: nat, cur: Page, newPage: Page, ra: ReturnAction) returns (ra1: ReturnAction)
    requires order >= 4 && cur.Live(order) && cur.size == order && newPage.Fits(order, 0) && cur != newPage
    requires newPage.isLeaf == cur.isLeaf
    modifies newPage`keys, newPage`data, newPage`children
    ensures newPage.Fits(order, 0)
    ensures UpperPart(order, cur.Now(order), (order + 1) / 2 - 1, newPage, ra, ra1)
  {
    ra1 := ra;
    var half := (order + 1) / 2;
    assert cur.keys[half - 1..order] == cur.keys[half - 1..] && cur.data[half - 1..order] == cur.data[half - 1..];
    assert cur.keys[half - 1..][0] == cur.keys[half - 1] && cur.keys[half - 1..][1..] == cur.keys[half..];
    assert cur.children[half..order + 1] == cur.children[half..];
    hide Drop, UpperPart;
    newPage.keys := CopyTail(cur.keys, half - 1, order, newPage.keys);
    if cur.isLeaf {
      newPage.data := CopyTail(cur.data, half - 1, order, newPage.data);
    } else {
      newPage.children := CopyTail(cur.children, half, order + 1, newPage.children);
      ra1 := PushFirstKey(order, newPage, order + 1 - half, ra);
    }
    UpperLow(order, cur.Now(order), half, newPage, ra, ra1);
  }

  lemma UpperLow(order: nat, v: View, half: nat, newPage: Page, ra: ReturnAction, ra1: ReturnAction)
    requires WellFormed(v) && |v.keys| == order && 2 <= half <= order && newPage.Fits(order, 0) && newPage.isLeaf == v.isLeaf
    requires v.isLeaf ==>
      newPage.keys[..order + 1 - half] == v.keys[half - 1..] && newPage.data[..order + 1 - half] == v.data[half - 1..] && ra1 == ra
    requires !v.isLeaf ==>
      && newPage.keys[..order - half] == v.keys[half..] && newPage.children[..order + 1 - half] == v.children[half..]
      && ra1 == ReturnAction(PushKeyToParent, v.keys[half - 1], ra.key2)
    ensures UpperPart(order, v, half - 1, newPage, ra, ra1)
  {
  }

  /** Insertion into a page with room, at the place a fresh search finds. */
  method InsertBySearch(order: nat, key: Key, leafData: Data, ghost i: int, nodeData: Page?, cur: Page)
    requires cur.Live(order) && 0 < cur.size < order
    requires Increasing(cur.keys[..cur.size]) && Place(cur.keys[..cur.size], key, i)
    modifies cur`keys, cur`data, cur`children, cur`size
    ensures cur.Live(order) && cur.size == old(cur.size) + 1
    ensures cur.Now(order) == Insert(old(cur.Now(order)), i, key, leafData, nodeData)
  {
    var b, index := GetIndexOf(order, key, cur);
    FoundNowhere(cur.keys[..cur.size], key, i, b, index);
    hide Insert, Place, Increasing;
    InsertIntoRoom(order, key, leafData, index, nodeData, cur);
  }

  method SplitLow(order: nat, key: Key, leafData: Data, insertionIndex: int, nodeData: Page?, cur: Page, newPage: Page,
                  ra: ReturnAction) returns (ra1: ReturnAction)
    requires order >= 4 && cur.Live(order) && cur.size == order && newPage.Fits(order, 0) && cur != newPage
    requires 0 <= insertionIndex < (order + 1) / 2 && newPage.isLeaf == cur.isLeaf
    requires Increasing(cur.keys) && Place(cur.keys, key, insertionIndex)
    modifies cur`keys, cur`data, cur`children, cur`size, newPage`keys, newPage`data, newPage`children, newPage`size
    ensures Halved(order, Insert(old(cur.Now(order)), insertionIndex, key, leafData, nodeData), (order + 1) / 2, cur, newPage, ra, ra1)
  {
    hide *;
    ghost var v, half := cur.Now(order), (order + 1) / 2;
    ViewWellFormed(cur, order);
    PlaceInPrefix(cur.keys, key, insertionIndex, half - 1);
    ra1 := CopyUpperLow(order, cur, newPage, ra);
    Shrink(order, cur, (order + 1) / 2 - 1);
    InsertBySearch(order, key, leafData, insertionIndex, nodeData, cur);
    newPage.size := order - (order + 1) / 2 + 1;
    HalvedLow(order, v, key, leafData, insertionIndex, nodeData, cur, newPage, ra, ra1);
  }

  /** Only the first `n` keys stay. */
  method Shrink(order: nat, cur: Page, n: int)
    requires cur.Live(order) && 0 <= n < cur.size
    modifies cur`size
    ensures cur.Live(order) && cur.size == n
    ensures WellFormed(old(cur.Now(order))) && n < |old(cur.Now(order)).keys| && cur.Now(order) == Take(old(cur.Now(order)), n)
  {
    cur.size := n;
  }

  lemma ViewWellFormed(cur: Page, order: nat)
    requires cur.Live(order)
    ensures WellFormed(cur.Now(order)) && |cur.Now(order).keys| == cur.size <= order && |cur.keys| == order
  {
  }

  lemma HalvedLow(order: nat, v: View, key: Key, d: Data, i: nat, child: Page?, cur: Page, newPage: Page, ra: ReturnAction, ra1: ReturnAction)
    requires order >= 4 && WellFormed(v) && |v.keys| == order && i < (order + 1) / 2
    requires UpperPart(order, v, (order + 1) / 2 - 1, newPage, ra, ra1) && newPage.size == order - (order + 1) / 2 + 1
    requires cur.Live(order) && cur.Now(order) == Insert(Take(v, (order + 1) / 2 - 1), i, key, d, child)
    ensures Halved(order, Insert(v, i, key, d, child), (order + 1) / 2, cur, newPage, ra, ra1)
  {
    CutInserted(v, i, key, d, child, (order + 1) / 2);
    hide Insert, Take;
  }

  method InsertIntoNode(order: nat, key: Key, leafData: Data, insertionIndex: int, nodeData: Page?, cur: Page, ra: ReturnAction)
    returns (newPage: Page?, ra1: ReturnAction)
    requires order >= 4 && cur.Live(order) && 0 <= insertionIndex <= cur.size
    requires cur.size == order ==> Increasing(cur.keys) && Place(cur.keys, key, insertionIndex)
    requires cur.isLeaf ==> cur.next != cur
    modifies cur, (if cur.isLeaf && cur.next != null then {cur.next} else {})`previous
    ensures cur.previous == old(cur.previous) && cur.isLeaf == old(cur.isLeaf)
    ensures newPage == null <==> old(cur.size) < order
    ensures newPage == null ==>
      && cur.Live(order) && cur.Now(order) == Insert(old(cur.Now(order)), insertionIndex, key, leafData, nodeData)
      && cur.next == old(cur.next) && (old(cur.next) != null ==> old(cur.next).previous == old(cur.next.previous))
      && ra1 == ra
    ensures newPage != null ==>
      && fresh(newPage)
      && Halved(order, Insert(old(cur.Now(order)), insertionIndex, key, leafData, nodeData), Cut(order, insertionIndex),
                cur, newPage, ra, ra1)
      && (if cur.isLeaf then cur.next == newPage && newPage.previous == cur && newPage.next == old(cur.next)
          else cur.next == old(cur.next))
      && (old(cur.next) != null ==> old(cur.next).previous == if cur.isLeaf then newPage else old(cur.next.previous))
  {
    newPage, ra1 := null, ra;
    hide Increasing, Place, Insert, Take, Drop;
    if cur.size < order {
      InsertIntoRoom(order, key, leafData, insertionIndex, nodeData, cur);
    } else {
      newPage := new Page(order);
      newPage.isLeaf := cur.isLeaf;
      if cur.isLeaf {
        newPage.next := cur.next;
        if cur.next != null {
          cur.next.previous := newPage;
        }
        newPage.previous := cur;
        cur.next := newPage;
      }
      if insertionIndex >= (order + 1) / 2 {
        ra1 := SplitHigh(order, key, leafData, insertionIndex, nodeData, cur, newPage, ra);
      } else {
        ra1 := SplitLow(order, key, leafData, insertionIndex, nodeData, cur, newPage, ra);
      }
    }
  }

  // ---------------------------------------------------------------- moving keys between siblings

  /** Two siblings side by side.  Two index pages take the separator in between. */
  ghost function Join(l: View, sep: Key, r: View): (w: View)
    requires WellFormed(l) && WellFormed(r) && l.isLeaf == r.isLeaf
    ensures WellFormed(w) && w.isLeaf == l.isLeaf && |w.keys| == |l.keys| + |r.keys| + if l.isLeaf then 0 else 1
  {
    if l.isLeaf then View(true, l.keys + r.keys, l.data + r.data, [])
    else View(false, l.keys + [sep] + r.keys, [], l.children + r.children)
  }

  method ShiftNodeRight(order: nat, cur: Page)
    requires cur.Live(order) && cur.size < order
    modifies cur`keys, cur`data, cur`children, cur`size
    ensures cur.Live(order) && cur.size == old(cur.size) + 1
    ensures cur.keys[1..cur.size] == old(cur.keys[..cur.size])
    ensures cur.isLeaf ==> cur.data[1..cur.size] == old(cur.data[..cur.size])
    ensures !cur.isLeaf ==> cur.children[1..cur.size + 1] == old(cur.children[..cur.size + 1])
  {
    cur.keys := OpenFront(cur.keys, cur.size);
    if cur.isLeaf {
      cur.data := OpenFront(cur.data, cur.size);
    } else {
      cur.children := OpenFront(cur.children, cur.size + 1);
    }
    cur.size := cur.size + 1;
  }

  method ShiftNodeLeft(order: nat, cur: Page)
    requires cur.Live(order) && cur.size > 0
    modifies cur`keys, cur`data, cur`children, cur`size
    ensures cur.Live(order) && cur.size == old(cur.size) - 1
    ensures cur.keys[..cur.size] == old(cur.keys[1..cur.size])
    ensures cur.isLeaf ==> cur.data[..cur.size] == old(cur.data[1..cur.size])
    ensures !cur.isLeaf ==> cur.children[..cur.size + 1] == old(cur.children[1..cur.size + 1])
  {
    cur.keys := CloseFront(cur.keys, cur.size);
    if cur.isLeaf {
      cur.data := CloseFront(cur.data, cur.size);
    } else {
      cur.children := CloseFront(cur.children, cur.size + 1);
    }
    cur.size := cur.size - 1;
  }

  method BorrowFromLeft(order: nat, cur: Page, branchIndex: int, dest: Page, source: Page)
    requires cur.Live(order) && dest.Live(order) && source.Live(order) && cur != dest && cur != source && dest != source
    requires 0 < branchIndex <= cur.size && dest.isLeaf == source.isLeaf && dest.size < order && source.size > 0
    modifies cur`keys, dest`keys, dest`data, dest`children, dest`size, source`size
    ensures cur.Live(order) && dest.Live(order) && source.Live(order)
    ensures Moved(Join(old(source.Now(order)), old(cur.keys[branchIndex - 1]), old(dest.Now(order))), old(source.size) - 1,
                  source.Now(order), dest.Now(order), cur.keys[branchIndex - 1])
    ensures cur.keys == old(cur.keys)[branchIndex - 1 := cur.keys[branchIndex - 1]]
  {
    ghost var v, sep, d := source.Now(order), cur.keys[branchIndex - 1], dest.Now(order);
    JoinCutLeft(v, sep, d);
    hide Join, Take, Drop;
    if dest.isLeaf {
      LendLeaf(order, dest, source);
    } else {
      LendIndex(order, dest, source, cur.keys[branchIndex - 1]);
    }
    cur.keys := cur.keys[branchIndex - 1 := source.keys[source.size - 1]];
    source.size := source.size - 1;
  }

  /** The last entry of `source` goes to the front of `dest`. */
  method LendLeaf(order: nat, dest: Page, source: Page)
    requires dest.Live(order) && source.Live(order) && dest != source && dest.isLeaf
    requires source.isLeaf && dest.size < order && source.size > 0
    modifies dest`keys, dest`data, dest`children, dest`size
    ensures dest.Live(order)
    ensures dest.Now(order) == View(true, [source.keys[source.size - 1]] + old(dest.Now(order)).keys,
                                    [source.data[source.size - 1]] + old(dest.Now(order)).data, [])
  {
    ShiftNodeRight(order, dest);
    dest.keys := dest.keys[0 := source.keys[source.size - 1]];
    dest.data := dest.data[0 := source.data[source.size - 1]];
  }

  /** The last child of `source` goes to the front of `dest`, under the separator between them. */
  method LendIndex(order: nat, dest: Page, source: Page, sep: Key)
    requires dest.Live(order) && source.Live(order) && dest != source && !dest.isLeaf
    requires !source.isLeaf && dest.size < order && source.size > 0
    modifies dest`keys, dest`data, dest`children, dest`size
    ensures dest.Live(order)
    ensures dest.Now(order) == View(false, [sep] + old(dest.Now(order)).keys, [],
                                    [source.children[source.size]] + old(dest.Now(order)).children)
  {
    ShiftNodeRight(order, dest);
    dest.children := dest.children[0 := source.children[source.size]];
    dest.keys := dest.keys[0 := sep];
  }

  /** Cutting a join just before the last key of its left part. */
  lemma JoinCutLeft(v: View, sep: Key, d: View)
    requires WellFormed(v) && WellFormed(d) && v.isLeaf == d.isLeaf && |v.keys| > 0
    ensures var w, c := Join(v, sep, d), |v.keys| - 1;
      && w.keys[c] == v.keys[c]
      && Take(w, c) == (if v.isLeaf then View(true, v.keys[..c], v.data[..c], []) else View(false, v.keys[..c], [], v.children[..c + 1]))
      && Drop(w, c) == (if v.isLeaf then View(true, [v.keys[c]] + d.keys, [v.data[c]] + d.data, [])
                        else View(false, [sep] + d.keys, [], [v.children[c + 1]] + d.children))
  {
  }

  /** `l` and `r` are the two sides of `w` cut at key `c`, which is their new separator. */
  ghost predicate Moved(w: View, c: int, l: View, r: View, sep: Key) {
    WellFormed(w) && 0 <= c < |w.keys| && l == Take(w, c) && r == Drop(w, c) && sep == w.keys[c]
  }

  method BorrowFromRight(order: nat, cur: Page, branchIndex: int, dest: Page, source: Page, rightRootKey: Key)
    requires cur.Live(order) && dest.Live(order) && source.Live(order) && cur != dest && cur != source && dest != source
    requires 0 <= branchIndex < cur.size && dest.isLeaf == source.isLeaf && dest.size < order && source.size > 1
    modifies cur`keys, dest`keys, dest`data, dest`children, dest`size, source`keys, source`data, source`children, source`size
    ensures cur.Live(order) && dest.Live(order) && source.Live(order)
    ensures Moved(Join(old(dest.Now(order)), rightRootKey, old(source.Now(order))), old(dest.size) + 1,
                  dest.Now(order), source.Now(order), cur.keys[branchIndex])
    ensures cur.keys == old(cur.keys)[branchIndex := cur.keys[branchIndex]]
  {
    ghost var v, d := dest.Now(order), source.Now(order);
    JoinCutRight(v, rightRootKey, d);
    hide Join, Take, Drop;
    if dest.isLeaf {
      GainLeaf(order, dest, source);
      cur.keys := cur.keys[branchIndex := source.keys[1]];
    } else {
      GainIndex(order, dest, source, rightRootKey);
      cur.keys := cur.keys[branchIndex := source.keys[0]];
    }
    ShiftNodeLeft(order, source);
  }

  /** The first entry of `source` goes to the end of `dest`. */
  method GainLeaf(order: nat, dest: Page, source: Page)
    requires dest.Live(order) && source.Live(order) && dest != source && dest.isLeaf
    requires source.isLeaf && dest.size < order && source.size > 0
    modifies dest`keys, dest`data, dest`size
    ensures dest.Live(order)
    ensures dest.Now(order) == View(true, old(dest.Now(order)).keys + [source.keys[0]], old(dest.Now(order)).data + [source.data[0]], [])
  {
    dest.keys := dest.keys[dest.size := source.keys[0]];
    dest.data := dest.data[dest.size := source.data[0]];
    dest.size := dest.size + 1;
  }

  /** The first child of `source` goes to the end of `dest`, under the separator between them. */
  method GainIndex(order: nat, dest: Page, source: Page, sep: Key)
    requires dest.Live(order) && source.Live(order) && dest != source && !dest.isLeaf
    requires !source.isLeaf && dest.size < order
    modifies dest`keys, dest`children, dest`size
    ensures dest.Live(order)
    ensures dest.Now(order) == View(false, old(dest.Now(order)).keys + [sep], [], old(dest.Now(order)).children + [source.children[0]])
  {
    dest.keys := dest.keys[dest.size := sep];
    dest.children := dest.children[dest.size + 1 := source.children[0]];
    dest.size := dest.size + 1;
  }

  /** Cutting a join just after the first key of its right part. */
  lemma JoinCutRight(v: View, sep: Key, d: View)
    requires WellFormed(v) && WellFormed(d) && v.isLeaf == d.isLeaf && |d.keys| > 1
    ensures var w, c := Join(v, sep, d), |v.keys| + 1;
      && w.keys[c] == (if v.isLeaf then d.keys[1] else d.keys[0])
      && Take(w, c) == (if v.isLeaf then View(true, v.keys + [d.keys[0]], v.data + [d.data[0]], [])
                        else View(false, v.keys + [sep], [], v.children + [d.children[0]]))
      && Drop(w, c) == (if v.isLeaf then View(true, d.keys[1..], d.data[1..], []) else View(false, d.keys[1..], [], d.children[1..]))
  {
  }

  method Merge(order: nat, dest: Page, source: Page, rightRootKey: Key)
    requires dest.Live(order) && source.Live(order) && dest != source && dest.isLeaf == source.isLeaf
    requires dest.size + source.size < order
    modifies dest`keys, dest`data, dest`children, dest`size
    ensures dest.Live(order)
    ensures dest.Now(order) == Join(old(dest.Now(order)), rightRootKey, source.Now(order))
  {
    if dest.isLeaf {
      MergeLeaf(order, dest, source);
    } else {
      MergeIndex(order, dest, source, rightRootKey);
    }
  }

  method MergeLeaf(order: nat, dest: Page, source: Page)
    requires dest.Live(order) && source.Live(order) && dest != source && dest.isLeaf && source.isLeaf && dest.size + source.size < order
    modifies dest`keys, dest`data, dest`size
    ensures dest.Live(order)
    ensures dest.Now(order) == View(true, old(dest.keys[..dest.size]) + source.keys[..source.size],
                                    old(dest.data[..dest.size]) + source.data[..source.size], [])
  {
    dest.keys := Append(source.keys, 0, source.size, dest.keys, dest.size);
    dest.data := Append(source.data, 0, source.size, dest.data, dest.size);
    dest.size := dest.size + source.size;
  }

  method MergeIndex(order: nat, dest: Page, source: Page, rightRootKey: Key)
    requires dest.Live(order) && source.Live(order) && dest != source && !dest.isLeaf && !source.isLeaf && dest.size + source.size < order
    modifies dest`keys, dest`children, dest`size
    ensures dest.Live(order)
    ensures dest.Now(order) == View(false, old(dest.keys[..dest.size]) + [rightRootKey] + source.keys[..source.size], [],
                                    old(dest.children[..dest.size + 1]) + source.children[..source.size + 1])
  {
    ghost var ks, cs := dest.keys[..dest.size], dest.children[..dest.size + 1];
    GainIndex(order, dest, source, rightRootKey);
    assert dest.keys[..dest.size] == ks + [rightRootKey] && dest.children[..dest.size + 1] == cs + [source.children[0]];
    HeadAppended(cs, source.children, source.size + 1);
    var keys := Append(source.keys, 0, source.size, dest.keys, dest.size);
    var children := Append(source.children, 1, source.size + 1, dest.children, dest.size + 1);
    assert source.keys[0..source.size] == source.keys[..source.size];
    dest.keys, dest.children, dest.size := keys, children, dest.size + source.size;
  }

  method RotateLeft(order: nat, cur: Page, childIndex: int, dest: Page, source: Page, ra: ReturnAction) returns (ra1: ReturnAction)
    requires cur.Live(order) && dest.Live(order) && source.Live(order) && cur != dest && cur != source && dest != source
    requires 0 < childIndex <= cur.size && dest.isLeaf && source.isLeaf && dest.size < order && source.size > 1
    modifies cur`keys, dest`keys, dest`data, dest`size, source`keys, source`data, source`size
    ensures cur.Live(order) && dest.Live(order) && source.Live(order)
    ensures Moved(Join(old(dest.Now(order)), 0, old(source.Now(order))), old(dest.size) + 1,
                  dest.Now(order), source.Now(order), cur.keys[childIndex - 1])
    ensures cur.keys == old(cur.keys)[childIndex - 1 := cur.keys[childIndex - 1]]
    ensures ra1 == ra.(key1 := old(source.keys[0]), key2 := source.keys[0])
  {
    ra1 := ra.(key1 := source.keys[0]);
    dest.keys := dest.keys[dest.size := source.keys[0]];
    dest.data := dest.data[dest.size := source.data[0]];
    dest.size := dest.size + 1;
    source.keys := DeleteSlot(source.keys, source.size, 0);
    source.data := DeleteSlot(source.data, source.size, 0);
    source.size := source.size - 1;
    cur.keys := cur.keys[childIndex - 1 := source.keys[0]];
    ra1 := ra1.(key2 := source.keys[0]);
  }

  method RotateRight(order: nat, cur: Page, childIndex: int, dest: Page, source: Page, ra: ReturnAction) returns (ra1: ReturnAction)
    requires cur.Live(order) && dest.Live(order) && source.Live(order) && cur != dest && cur != source && dest != source
    requires 0 <= childIndex < cur.size && dest.isLeaf && source.isLeaf && 0 < dest.size < order && source.size > 1
    modifies cur`keys, dest`keys, dest`data, dest`children, dest`size, source`size
    ensures cur.Live(order) && dest.Live(order) && source.Live(order)
    ensures Moved(Join(old(source.Now(order)), 0, old(dest.Now(order))), old(source.size) - 1,
                  source.Now(order), dest.Now(order), cur.keys[childIndex])
    ensures cur.keys == old(cur.keys)[childIndex := cur.keys[childIndex]]
    ensures ra1 == ra.(key1 := old(dest.keys[0]), key2 := dest.keys[0])
  {
    ghost var v, d := source.Now(order), dest.Now(order);
    JoinCutLeft(v, 0, d);
    hide Join, Take, Drop;
    ra1 := ra.(key1 := dest.keys[0]);
    LendLeaf(order, dest, source);
    source.size := source.size - 1;
    assert dest.keys[0] == dest.keys[..dest.size][0];
    cur.keys := cur.keys[childIndex := dest.keys[0]];
    ra1 := ra1.(key2 := dest.keys[0]);
  }
}
