/** The memory pool: pages of equal blocks on two circular lists, each page with a stack of its free blocks. */
module MemoryPool {
  import opened Sequences

  class Block {
    const parentPage: Page

    constructor (page: Page)
      ensures parentPage == page
    {
      parentPage := page;
    }
  }

  class Page {
    var availableStack: seq<Block>
    var availableStackSize: int
    var block: seq<Block>
    var next: Page
    var prev: Page

    constructor ()
      ensures next == this && prev == this && availableStack == [] && block == [] && availableStackSize == 0
    {
      availableStack, availableStackSize, block := [], 0, [];
      next, prev := this, this;
    }

    /** The blocks on the free stack. */
    ghost function Free(): seq<Block>
      requires 0 <= availableStackSize <= |availableStack|
      reads this`availableStack, this`availableStackSize
    {
      availableStack[..availableStackSize]
    }
  }

  lemma Subset<T>(a: set<T>, b: set<T>)
    requires a <= b
    ensures |a| <= |b| && (|a| == |b| ==> a == b)
  {
    assert b == a + (b - a);
  }

  // ---------------------------------------------------------------- one page

  /** The page's blocks are all different and its own; each is either on its free stack, once, or handed out. */
  ghost predicate Split(p: Page, perPage: int, out: set<Block>)
    reads p`availableStack, p`availableStackSize, p`block
  {
    && |p.block| == |p.availableStack| == perPage && 0 <= p.availableStackSize <= perPage
    && NoDup(p.block) && (forall b :: b in p.block ==> b.parentPage == p)
    && NoDup(p.Free()) && (forall b :: b in p.Free() ==> b in p.block)
    && (forall b :: b in p.block ==> (b in p.Free() <==> b !in out))
  }

  /** There is room on the stack for a block that is out, and a full stack means no block is. */
  lemma Room(p: Page, perPage: int, out: set<Block>)
    requires Split(p, perPage, out)
    ensures (exists b :: b in p.block && b in out) ==> p.availableStackSize < perPage
    ensures p.availableStackSize == perPage ==> forall b :: b in p.block ==> b !in out
  {
    ElementsSize(p.block);
    ElementsSize(p.Free());
    Subset(Elements(p.Free()), Elements(p.block));
    if p.availableStackSize == perPage {
      forall b | b in p.block ensures b !in out {
        assert b in Elements(p.block);
      }
    }
  }

  /** One short of full is the stack of a page of which one block is out, and no other. */
  lemma LastBlock(p: Page, perPage: int, out: set<Block>, m: Block)
    requires Split(p, perPage, out) && m in p.block && m in out
    ensures p.availableStackSize == perPage - 1 <==> forall b :: b in p.block && b in out ==> b == m
  {
    var all, free := Elements(p.block), Elements(p.Free());
    ElementsSize(p.block);
    ElementsSize(p.Free());
    assert free <= all - {m} && |all - {m}| == perPage - 1;
    if p.availableStackSize == perPage - 1 {
      Whole(free, all - {m});
      forall b | b in p.block && b in out ensures b == m {
        assert b in all && b !in free;
      }
    }
    if forall b :: b in p.block && b in out ==> b == m {
      assert free == all - {m};
    }
  }

  lemma Whole<T>(a: set<T>, b: set<T>)
    requires a <= b && |a| == |b|
    ensures a == b
  {
    assert |b - a| == 0;
  }

  /** A block of another page changes nothing here. */
  lemma OtherBlock(p: Page, perPage: int, out: set<Block>, b: Block)
    requires Split(p, perPage, out) && b.parentPage != p
    ensures Split(p, perPage, out + {b}) && Split(p, perPage, out - {b})
  {
  }

  method TakeBlock(page: Page, perPage: int, ghost out: set<Block>) returns (b: Block)
    requires Split(page, perPage, out) && page.availableStackSize > 0
    modifies page`availableStackSize
    ensures page.availableStackSize == old(page.availableStackSize) - 1
    ensures b !in out && b in page.block && b.parentPage == page && Split(page, perPage, out + {b})
  {
    ghost var free := page.Free();
    page.availableStackSize := page.availableStackSize - 1;
    b := page.availableStack[page.availableStackSize];
    assert free == page.Free() + [b];
    assert b in free;
  }

  method PutBlock(page: Page, b: Block, perPage: int, ghost out: set<Block>)
    requires Split(page, perPage, out) && b in out && b in page.block
    modifies page`availableStack, page`availableStackSize
    ensures page.availableStackSize == old(page.availableStackSize) + 1
    ensures Split(page, perPage, out - {b})
  {
    Room(page, perPage, out);
    ghost var free := page.Free();
    page.availableStack := page.availableStack[page.availableStackSize := b];
    page.availableStackSize := page.availableStackSize + 1;
    assert page.Free() == free + [b];
  }

  // ---------------------------------------------------------------- a circular list of pages

  /** The pages follow one another round a circle, linked both ways. */
  ghost predicate Ring(ps: seq<Page>)
    reads (set p | p in ps)`next, (set p | p in ps)`prev
  {
    forall i :: 0 <= i < |ps| ==> ps[i].next == ps[Succ(i, |ps|)] && ps[Succ(i, |ps|)].prev == ps[i]
  }

  /** A page leaves the circle. */
  method Unlink(page: Page, ghost ps: seq<Page>, ghost i: nat)
    requires Ring(ps) && NoDup(ps) && i < |ps| && ps[i] == page
    modifies (set p | p in ps)`next, (set p | p in ps)`prev
    ensures Ring(RemoveAt(ps, i)) && (|ps| > 1 ==> page.next == old(page.next))
  {
    ghost var n := |ps|;
    ghost var before := if i == 0 then n - 1 else i - 1;
    assert Succ(before, n) == i && ps[before].next == page && page.prev == ps[before];
    page.next.prev := page.prev;
    page.prev.next := page.next;
    ghost var r := RemoveAt(ps, i);
    forall j | 0 <= j < |r| ensures r[j].next == r[Succ(j, |r|)] && r[Succ(j, |r|)].prev == r[j] {
      RemoveCircle(ps, i, j);
    }
  }

  /** A page joins the circle, just before its head. */
  method LinkBefore(head: Page, page: Page, ghost ps: seq<Page>)
    requires Ring(ps) && NoDup(ps) && ps != [] && ps[0] == head && page !in ps
    modifies (set p | p in ps)`next, (set p | p in ps)`prev, page`next, page`prev
    ensures Ring(ps + [page])
  {
    ghost var n := |ps|;
    assert Succ(n - 1, n) == 0 && ps[n - 1].next == head && head.prev == ps[n - 1];
    page.next := head;
    page.prev := head.prev;
    head.prev.next := page;
    head.prev := page;
    ghost var r := ps + [page];
    forall j | 0 <= j < |r| ensures r[j].next == r[Succ(j, |r|)] && r[Succ(j, |r|)].prev == r[j] {
      assert j < n - 1 ==> ps[j].next == ps[Succ(j, n)];
    }
  }

  // ---------------------------------------------------------------- the two lists

  ghost predicate Apart<T>(a: seq<T>, b: seq<T>) {
    NoDup(a) && NoDup(b) && forall p :: p in a ==> p !in b
  }

  lemma Moved<T>(from: seq<T>, i: nat, to: seq<T>)
    requires i < |from| && Apart(from, to)
    ensures Apart(RemoveAt(from, i), to + [from[i]]) && Apart(to + [from[i]], RemoveAt(from, i))
    ensures forall p :: p in from || p in to <==> p in RemoveAt(from, i) || p in to + [from[i]]
    ensures forall p :: p in RemoveAt(from, i) <==> p in from && p != from[i]
  {
    var r := RemoveAt(from, i);
    assert forall j :: 0 <= j < |r| ==> r[j] == from[if j < i then j else j + 1];
    assert from[i] in from && from[i] !in to;
    forall p ensures p in r <==> p in from && p != from[i] {
      if p in from && p != from[i] {
        var k :| 0 <= k < |from| && from[k] == p;
        assert r[if k < i then k else k - 1] == p;
      }
    }
  }

  method UnlinkBeside(page: Page, ghost ps: seq<Page>, ghost i: nat, ghost others: seq<Page>)
    requires Ring(ps) && NoDup(ps) && i < |ps| && ps[i] == page && Ring(others) && forall p :: p in ps ==> p !in others
    modifies (set p | p in ps)`next, (set p | p in ps)`prev
    ensures Ring(RemoveAt(ps, i)) && Ring(others) && (|ps| > 1 ==> page.next == old(page.next))
  {
    hide *;
    Unlink(page, ps, i);
  }

  method LinkBeside(head: Page, page: Page, ghost ps: seq<Page>, ghost others: seq<Page>)
    requires Ring(ps) && NoDup(ps) && ps != [] && ps[0] == head && page !in ps
    requires Ring(others) && page !in others && forall p :: p in ps ==> p !in others
    modifies (set p | p in ps)`next, (set p | p in ps)`prev, page`next, page`prev
    ensures Ring(ps + [page]) && Ring(others)
  {
    hide *;
    LinkBefore(head, page, ps);
  }

  method LinkAlone(page: Page, ghost others: seq<Page>)
    requires Ring(others) && page !in others
    modifies page`next, page`prev
    ensures Ring([page]) && Ring(others)
  {
    page.next := page;
    page.prev := page;
  }

  /** A page leaves one circle and joins the other at its end. */
  method MovePage(page: Page, ghost from: seq<Page>, ghost i: nat, empty: bool, head: Page?, ghost to: seq<Page>)
    requires Ring(from) && Ring(to) && Apart(from, to) && i < |from| && from[i] == page
    requires (empty <==> to == []) && (!empty ==> head == to[0])
    modifies (set p | p in from + to)`next, (set p | p in from + to)`prev
    ensures Ring(RemoveAt(from, i)) && Ring(to + [page])
  {
    hide *;
    Moved(from, i, to);
    ApartParts(from, to);
    UnlinkBeside(page, from, i, to);
    if empty {
      LinkAlone(page, RemoveAt(from, i));
      assert to + [page] == [page];
    } else {
      LinkBeside(head, page, to, RemoveAt(from, i));
    }
  }

  lemma ApartParts<T>(a: seq<T>, b: seq<T>)
    requires Apart(a, b)
    ensures NoDup(a) && NoDup(b) && forall p :: p in a ==> p !in b
  {
  }

  /** Every block is split between its page's stack and the blocks handed out. */
  ghost predicate Stocked(ps: seq<Page>, perPage: int, out: set<Block>)
    reads (set p | p in ps)`availableStack, (set p | p in ps)`availableStackSize, (set p | p in ps)`block
  {
    forall p :: p in ps ==> Split(p, perPage, out)
  }

  /** Every block handed out belongs to one of the pages. */
  ghost predicate Owned(ps: seq<Page>, out: set<Block>)
    reads (set p | p in ps)`block
  {
    forall b :: b in out ==> b.parentPage in ps && b in b.parentPage.block
  }

  /** The pages with no block handed out. */
  ghost function Idle(ps: seq<Page>, perPage: int): set<Page>
    reads (set p | p in ps)`availableStackSize
  {
    set p | p in ps && p.availableStackSize == perPage
  }

  method TakeFrom(page: Page, perPage: int, ghost ps: seq<Page>, ghost out: set<Block>) returns (b: Block)
    requires Stocked(ps, perPage, out) && page in ps && page.availableStackSize > 0
    modifies page`availableStackSize
    ensures Stocked(ps, perPage, out + {b}) && b !in out && b.parentPage == page && b in page.block
    ensures page.availableStackSize == old(page.availableStackSize) - 1
  {
    b := TakeBlock(page, perPage, out);
    hide Split;
    forall p | p in ps ensures Split(p, perPage, out + {b}) {
      if p != page {
        OtherBlock(p, perPage, out, b);
      }
    }
  }

  method PutInto(page: Page, b: Block, perPage: int, ghost ps: seq<Page>, ghost out: set<Block>)
    requires Stocked(ps, perPage, out) && page in ps && b in out && b.parentPage == page && b in page.block
    modifies page`availableStack, page`availableStackSize
    ensures Stocked(ps, perPage, out - {b})
    ensures page.availableStackSize == old(page.availableStackSize) + 1
  {
    PutBlock(page, b, perPage, out);
    hide Split;
    forall p | p in ps ensures Split(p, perPage, out - {b}) {
      if p != page {
        OtherBlock(p, perPage, out, b);
      }
    }
  }

  /** A new page, all of whose blocks are free. */
  method InitPage(perPage: int, ghost out: set<Block>) returns (page: Page)
    requires 0 <= perPage
    ensures fresh(page) && Split(page, perPage, out) && page.availableStackSize == perPage && Ring([page])
  {
    page := new Page();
    var block: seq<Block> := [];
    var i := 0;
    while i < perPage
      invariant 0 <= i == |block| <= perPage && page.next == page && page.prev == page
      invariant NoDup(block) && forall b :: b in block ==> fresh(b) && b.parentPage == page
    {
      var curBlock := new Block(page);
      block := block + [curBlock];
      i := i + 1;
    }
    page.block, page.availableStack, page.availableStackSize := block, block, perPage;
    assert page.Free() == block;
  }

  ghost predicate Sizes(avail: seq<Page>, full: seq<Page>)
    reads (set p | p in avail + full)`availableStackSize
  {
    (forall p :: p in avail ==> p.availableStackSize > 0) && (forall p :: p in full ==> p.availableStackSize == 0)
  }

  /** The pages of the two lists in any arrangement. */
  lemma SamePages(ps: seq<Page>, qs: seq<Page>, perPage: int, out: set<Block>)
    requires (forall p :: p in qs <==> p in ps) && Stocked(ps, perPage, out) && Owned(ps, out)
    ensures Stocked(qs, perPage, out) && Owned(qs, out)
  {
  }

  lemma OwnedMore(ps: seq<Page>, out: set<Block>, b: Block)
    requires Owned(ps, out) && b.parentPage in ps && b in b.parentPage.block
    ensures Owned(ps, out + {b})
  {
  }

  lemma OwnedLess(ps: seq<Page>, out: set<Block>, b: Block)
    requires Owned(ps, out)
    ensures Owned(ps, out - {b})
  {
  }

  lemma OwnedPage(ps: seq<Page>, perPage: int, out: set<Block>, b: Block)
    requires Owned(ps, out) && b in out && Stocked(ps, perPage, out)
    ensures b.parentPage in ps && b in b.parentPage.block && Owned(ps, out - {b})
    ensures 0 <= b.parentPage.availableStackSize < perPage
  {
    Room(b.parentPage, perPage, out);
  }

  /** The two lists of pages, as they are between calls. */
  ghost predicate Lists(perPage: int, avail: seq<Page>, full: seq<Page>, out: set<Block>)
    reads avail, full
  {
    && 2 <= perPage && Apart(avail, full) && Ring(avail) && Ring(full) && Sizes(avail, full)
    && Stocked(avail + full, perPage, out) && Owned(avail + full, out)
    && |Idle(avail, perPage)| <= MAX_FREE_PAGES - 1
  }

  /** The same while page `page`, which is on neither list `avail` nor `full`, is being handled. */
  ghost predicate Handling(page: Page, perPage: int, avail: seq<Page>, full: seq<Page>, ps: seq<Page>, out: set<Block>)
    reads (set p | p in ps + avail + full)`availableStack, (set p | p in ps + avail + full)`availableStackSize
    reads (set p | p in ps + avail + full)`block
  {
    && page !in avail && page !in full && Sizes(avail, full)
    && Stocked(ps, perPage, out) && Owned(ps, out) && |Idle(avail, perPage)| <= MAX_FREE_PAGES - 1
  }

  /** Take a block from `page`; every other page keeps its size. */
  method TakeAside(page: Page, perPage: int, ghost avail: seq<Page>, ghost full: seq<Page>, ghost ps: seq<Page>, ghost out: set<Block>,
                   ghost ring: seq<Page>, ghost other: seq<Page>)
    returns (b: Block)
    requires Handling(page, perPage, avail, full, ps, out) && page in ps && page.availableStackSize > 0 && Ring(ring) && Ring(other)
    modifies page`availableStackSize
    ensures Handling(page, perPage, avail, full, ps, out + {b}) && Ring(ring) && Ring(other)
    ensures b !in out && b.parentPage == page && page.availableStackSize == old(page.availableStackSize) - 1
  {
    hide Ring, Stocked, Owned, Split;
    b := TakeFrom(page, perPage, ps, out);
    OwnedMore(ps, out, b);
  }

  method PutAside(page: Page, b: Block, perPage: int, ghost avail: seq<Page>, ghost full: seq<Page>,
          ghost ps: seq<Page>, ghost out: set<Block>,
                  ghost ring: seq<Page>, ghost other: seq<Page>)
    requires Handling(page, perPage, avail, full, ps, out) && page in ps && b in out && b.parentPage == page && b in page.block
    requires Ring(ring) && Ring(other)
    modifies page`availableStack, page`availableStackSize
    ensures Handling(page, perPage, avail, full, ps, out - {b}) && Ring(ring) && Ring(other)
    ensures page.availableStackSize == old(page.availableStackSize) + 1
  {
    hide Ring, Stocked, Owned, Split;
    PutInto(page, b, perPage, ps, out);
    OwnedLess(ps, out, b);
  }

  lemma AvailAside(perPage: int, avail: seq<Page>, full: seq<Page>, out: set<Block>, i: nat)
    requires Lists(perPage, avail, full, out) && i < |avail|
    ensures Handling(avail[i], perPage, RemoveAt(avail, i), full, avail + full, out) && avail[i] in avail + full
    ensures 0 < avail[i].availableStackSize <= perPage
  {
    Moved(avail, i, full);
    assert Split(avail[i], perPage, out);
    Subset(Idle(RemoveAt(avail, i), perPage), Idle(avail, perPage));
  }

  lemma FullAside(perPage: int, avail: seq<Page>, full: seq<Page>, out: set<Block>, i: nat)
    requires Lists(perPage, avail, full, out) && i < |full|
    ensures Handling(full[i], perPage, avail, RemoveAt(full, i), avail + full, out) && full[i] in avail + full
    ensures full[i].availableStackSize == 0
  {
    ApartSwap(avail, full);
    Moved(full, i, avail);
  }

  lemma ApartSwap<T>(a: seq<T>, b: seq<T>)
    requires Apart(a, b)
    ensures Apart(b, a)
  {
  }

  lemma ListsParts(perPage: int, avail: seq<Page>, full: seq<Page>, out: set<Block>)
    requires Lists(perPage, avail, full, out)
    ensures 2 <= perPage && Apart(avail, full) && Apart(full, avail) && Ring(avail) && Ring(full) && Owned(avail + full, out)
    ensures Stocked(avail + full, perPage, out)
  {
    ApartSwap(avail, full);
  }

  lemma IdleSize(avail: seq<Page>, perPage: int)
    ensures |Idle(avail, perPage)| <= |avail|
  {
    ElementsSize(avail);
    Subset(Idle(avail, perPage), Elements(avail));
  }

  /** The page stays where it was on the list of pages with room. */
  lemma StaysAvail(perPage: int, avail: seq<Page>, full: seq<Page>, out: set<Block>, i: nat)
    requires i < |avail| && Handling(avail[i], perPage, RemoveAt(avail, i), full, avail + full, out)
    requires 2 <= perPage && Apart(avail, full) && Ring(avail) && Ring(full)
    requires avail[i].availableStackSize > 0 && (avail[i].availableStackSize < perPage || |avail| < MAX_FREE_PAGES)
    ensures Lists(perPage, avail, full, out)
  {
    Moved(avail, i, full);
    if |avail| < MAX_FREE_PAGES {
      IdleSize(avail, perPage);
    } else {
      Subset(Idle(avail, perPage), Idle(RemoveAt(avail, i), perPage));
    }
  }

  /** The page goes to the end of the full pages. */
  lemma GoesFull(perPage: int, avail: seq<Page>, full: seq<Page>, out: set<Block>, i: nat)
    requires i < |avail| && Handling(avail[i], perPage, RemoveAt(avail, i), full, avail + full, out) && avail[i].availableStackSize == 0
    requires 2 <= perPage && Apart(avail, full) && Ring(RemoveAt(avail, i)) && Ring(full + [avail[i]])
    ensures Lists(perPage, RemoveAt(avail, i), full + [avail[i]], out)
  {
    Moved(avail, i, full);
    SamePages(avail + full, RemoveAt(avail, i) + (full + [avail[i]]), perPage, out);
  }

  /** The page goes to the end of the pages with room. */
  lemma GoesAvail(perPage: int, avail: seq<Page>, full: seq<Page>, out: set<Block>, i: nat)
    requires i < |full| && Handling(full[i], perPage, avail, RemoveAt(full, i), avail + full, out) && full[i].availableStackSize == 1
    requires 2 <= perPage && Apart(full, avail) && Ring(RemoveAt(full, i)) && Ring(avail + [full[i]])
    ensures Lists(perPage, avail + [full[i]], RemoveAt(full, i), out)
  {
    Moved(full, i, avail);
    SamePages(avail + full, (avail + [full[i]]) + RemoveAt(full, i), perPage, out);
    Subset(Idle(avail + [full[i]], perPage), Idle(avail, perPage));
  }

  /** A page none of whose blocks is out may be freed. */
  lemma GoesAway(perPage: int, avail: seq<Page>, full: seq<Page>, out: set<Block>, i: nat)
    requires i < |avail| && Handling(avail[i], perPage, RemoveAt(avail, i), full, avail + full, out)
    requires avail[i].availableStackSize == perPage
    requires 2 <= perPage && Apart(avail, full) && Ring(RemoveAt(avail, i)) && Ring(full)
    ensures Lists(perPage, RemoveAt(avail, i), full, out) && forall b :: b in avail[i].block ==> b !in out
  {
    Moved(avail, i, full);
    Room(avail[i], perPage, out);
  }

  /** The first page: all the lists there are. */
  lemma FirstPage(perPage: int, page: Page, full: seq<Page>, out: set<Block>)
    requires 2 <= perPage && Apart([], full) && Ring([page]) && Ring(full) && page !in full
    requires Handling(page, perPage, [], full, full + [page], out) && 0 < page.availableStackSize < perPage
    ensures Lists(perPage, [page], full, out) && Apart([page], full)
  {
    assert RemoveAt([page], 0) == [];
    assert NoDup([page]);
    SamePages(full + [page], [page] + full, perPage, out);
    StaysAvail(perPage, [page], full, out, 0);
  }

  lemma FirstAside(perPage: int, page: Page, full: seq<Page>, out: set<Block>)
    requires Lists(perPage, [], full, out) && Split(page, perPage, out) && page !in full
    ensures Handling(page, perPage, [], full, full + [page], out)
  {
    assert [] + full == full;
    assert Idle([], perPage) == {};
  }

  /** A new page beside the full ones. */
  method NewPage(perPage: int, ghost full: seq<Page>, ghost out: set<Block>) returns (page: Page)
    requires Lists(perPage, [], full, out)
    ensures fresh(page) && Lists(perPage, [], full, out) && Split(page, perPage, out) && page.availableStackSize == perPage && Ring([page])
  {
    ListsParts(perPage, [], full, out);
    hide *;
    page := InitPage(perPage, out);
  }

  /** A new page beside the full ones, with its first block handed out. */
  method FirstBlock(perPage: int, ghost full: seq<Page>, ghost out: set<Block>) returns (page: Page, b: Block)
    requires Lists(perPage, [], full, out)
    ensures fresh(page) && b.parentPage == page && b !in out && Lists(perPage, [page], full, out + {b})
  {
    hide *;
    page := NewPage(perPage, full, out);
    FirstAside(perPage, page, full, out);
    ListsParts(perPage, [], full, out);
    b := TakeAside(page, perPage, [], full, full + [page], out, [page], full);
    FirstPage(perPage, page, full, out + {b});
  }

  /** The page being handled moves from one circle to the end of the other. */
  method MoveAside(page: Page, perPage: int, ghost rest: seq<Page>, ghost others: seq<Page>, ghost ps: seq<Page>, ghost out: set<Block>,
                   ghost from: seq<Page>, ghost i: nat, empty: bool, head: Page?, ghost to: seq<Page>)
    requires Handling(page, perPage, rest, others, ps, out)
    requires Ring(from) && Ring(to) && Apart(from, to) && i < |from| && from[i] == page
    requires (empty <==> to == []) && (!empty ==> head == to[0])
    modifies (set p | p in from + to)`next, (set p | p in from + to)`prev
    ensures Handling(page, perPage, rest, others, ps, out) && Ring(RemoveAt(from, i)) && Ring(to + [page])
  {
    hide *;
    MovePage(page, from, i, empty, head, to);
  }

  class MemoryPool {
    /** Blocks to a page: the page size over the size of a block with its page pointer. */
    const perPage: int
    var availablePages: Page?
    var unavailablePages: Page?
    var availablePagesSize: int
    var unavailablePagesSize: int
    ghost var avail: seq<Page>
    ghost var full: seq<Page>
    /** The blocks handed out and not yet released. */
    ghost var out: set<Block>

    ghost predicate Valid()
      reads this, avail, full
    {
      && Heads(availablePages, availablePagesSize, avail) && Heads(unavailablePages, unavailablePagesSize, full)
      && Lists(perPage, avail, full, out)
    }

    constructor (perPage: int)
      requires 2 <= perPage
      ensures Valid() && out == {} && avail == full == [] && this.perPage == perPage
    {
      this.perPage := perPage;
      availablePages, unavailablePages, availablePagesSize, unavailablePagesSize := null, null, 0, 0;
      avail, full, out := [], [], {};
      new;
      assert Idle([], perPage) == {};
    }

    lemma Open()
      requires Valid()
      ensures availablePagesSize == |avail| && unavailablePagesSize == |full| && Lists(perPage, avail, full, out) && 2 <= perPage
      ensures (avail != [] ==> availablePages == avail[0]) && (full != [] ==> unavailablePages == full[0])
      ensures Apart(avail, full) && Apart(full, avail) && Ring(avail) && Ring(full)
    {
      ListsParts(perPage, avail, full, out);
    }

    lemma Close()
      requires availablePagesSize == |avail| && unavailablePagesSize == |full| && Lists(perPage, avail, full, out)
      requires (avail != [] ==> availablePages == avail[0]) && (full != [] ==> unavailablePages == full[0])
      ensures Valid()
    {
    }

    /** Hand out a block that is not out: from the head of the pages with room, or from a new page. */
    method Allocate() returns (b: Block)
      requires Valid()
      modifies this, avail, full
      ensures Valid() && b !in old(out) && out == old(out) + {b}
      ensures old(avail) != [] ==> b.parentPage == old(avail)[0] && Kept(old(avail), old(full), avail, full)
      ensures old(avail) == [] ==> fresh(b.parentPage) && full == old(full) && avail == [b.parentPage]
      ensures |IdlePages()| <= 3
      ensures old(avail) != [] ==>
        if forall c :: c in b.parentPage.block ==> c in out then avail == old(avail)[1..] && full == old(full) + [b.parentPage]
        else avail == old(avail) && full == old(full)
    {
      hide *;
      Open();
      if availablePagesSize > 0 {
        b := AllocateFromHead();
      } else {
        b := AllocateFromNew();
      }
      FewIdle();
    }

    method AllocateFromNew() returns (b: Block)
      requires Valid() && avail == []
      modifies this
      ensures Valid() && b !in old(out) && out == old(out) + {b}
      ensures fresh(b.parentPage) && full == old(full) && avail == [b.parentPage]
    {
      hide *;
      Open();
      var page;
      page, b := FirstBlock(perPage, full, out);
      availablePages, availablePagesSize, avail, out := page, 1, [page], out + {b};
      Close();
    }

    method AllocateFromHead() returns (b: Block)
      requires Valid() && avail != []
      modifies this, avail, full
      ensures Valid() && b !in old(out) && out == old(out) + {b}
      ensures b.parentPage == old(avail)[0] && Kept(old(avail), old(full), avail, full)
      ensures if forall c :: c in b.parentPage.block ==> c in out then avail == old(avail)[1..] && full == old(full) + [b.parentPage]
              else avail == old(avail) && full == old(full)
    {
      hide *;
      Open();
      ghost var a, f := avail, full;
      var curPage: Page := availablePages;
      AvailAside(perPage, a, f, out, 0);
      b := TakeAside(curPage, perPage, RemoveAt(a, 0), f, a + f, out, a, f);
      out := out + {b};
      LeavesHead(a, f);
      HandledSplit(curPage, perPage, RemoveAt(a, 0), f, a + f, out);
      NoneLeft(curPage, perPage, out);
      WithoutFirst(a);
      if curPage.availableStackSize == 0 {
        RetireHead(curPage);
      } else {
        StaysAvail(perPage, a, f, out, 0);
        Close();
      }
    }

    /** The head of the pages with room, its last block gone, moves to the end of the full pages. */
    method RetireHead(curPage: Page)
      requires avail != [] && curPage == avail[0] == availablePages && curPage.availableStackSize == 0 && 2 <= perPage
      requires Handling(curPage, perPage, RemoveAt(avail, 0), full, avail + full, out) && Apart(avail, full) && Ring(avail) && Ring(full)
      requires availablePagesSize == |avail| && unavailablePagesSize == |full| && (full != [] ==> unavailablePages == full[0])
      modifies this, (set p | p in avail + full)`next, (set p | p in avail + full)`prev
      ensures Valid() && out == old(out) && avail == RemoveAt(old(avail), 0) && full == old(full) + [curPage]
    {
      hide *;
      ghost var a, f := avail, full;
      LeavesHead(a, f);
      var head := curPage.next;
      MoveAside(curPage, perPage, RemoveAt(a, 0), f, a + f, out, a, 0, unavailablePagesSize == 0, unavailablePages, f);
      GoesFull(perPage, a, f, out, 0);
      if unavailablePagesSize == 0 {
        unavailablePages := curPage;
      }
      availablePages, availablePagesSize, unavailablePagesSize := head, availablePagesSize - 1, unavailablePagesSize + 1;
      avail, full := RemoveAt(a, 0), f + [curPage];
      Close();
    }

    /** The block is the last of its page that is out (`LastBlock`), and enough pages have room. */
    ghost predicate Frees(m: Block)
      reads this, m.parentPage`availableStackSize
    {
      m.parentPage.availableStackSize == perPage - 1 && |avail| >= MAX_FREE_PAGES
    }

    lemma FreesIs(m: Block)
      ensures Frees(m) <==> m.parentPage.availableStackSize == perPage - 1 && |avail| >= MAX_FREE_PAGES
    {
    }

    /** The pages of which no block is out. */
    ghost function IdlePages(): set<Page>
      reads this, avail, full
    {
      set p | p in avail + full && forall b :: b in p.block ==> b !in out
    }

    /** Never more than three pages stand idle. */
    lemma FewIdle()
      requires Valid()
      ensures |IdlePages()| <= 3
    {
      hide *;
      Open();
      IdleAre(perPage, avail, full, out, IdlePages());
      IdleListed();
      ListsIdle(perPage, avail, full, out);
      Subset(IdlePages(), Idle(avail, perPage));
    }

    lemma IdleListed()
      ensures forall p :: p in IdlePages() ==> p in avail + full && forall b :: b in p.block ==> b !in out
    {
    }

    /** Take a block back.  Its page is freed exactly when no other block of it is out and at least four pages have room; a full page
        goes to the end of those with room; otherwise the lists stay as they are. */
    method Release(m: Block)
      requires Valid() && m in out
      modifies this, avail, full
      ensures Valid() && out == old(out) - {m} && |IdlePages()| <= 3
      ensures m.parentPage !in avail + full <==> old((forall b :: b in m.parentPage.block && b in out ==> b == m) && |avail| >= 4)
      ensures old(m.parentPage in full) ==> avail == old(avail) + [m.parentPage] && Without(old(full), m.parentPage, full)
      ensures old(m.parentPage in avail) && m.parentPage in avail + full ==> avail == old(avail) && full == old(full)
      ensures m.parentPage !in avail + full ==>
        full == old(full) && Without(old(avail), m.parentPage, avail) && forall b :: b in m.parentPage.block ==> b !in out
    {
      hide *;
      Open();
      ReleasePage(perPage, avail, full, out, m);
      LastOut(m);
      FreesIs(m);
      ghost var i := PageIndex(perPage, avail, full, out, m.parentPage);
      ListsSizes(perPage, avail, full, out);
      ghost var a, f := avail, full;
      if m.parentPage.availableStackSize == 0 {
        ReleaseToFull(m, i);
        WithoutAt(f, i);
      } else {
        ReleaseToAvail(m, i);
        WithoutAt(a, i);
        if i < |a| && avail == RemoveAt(a, i) {
          FreedOut(m.parentPage, a, f, avail, full, out);
        }
      }
      FewIdle();
    }

    /** The condition of freeing, in blocks. */
    lemma LastOut(m: Block)
      requires Valid() && m in out
      ensures Frees(m) <==> (forall b :: b in m.parentPage.block && b in out ==> b == m) && |avail| >= 4
    {
      hide *;
      Open();
      FreesIs(m);
      ReleasePage(perPage, avail, full, out, m);
      PageSplit(perPage, avail, full, out, m.parentPage);
      LastBlock(m.parentPage, perPage, out, m);
      FourPages();
    }

    method ReleaseToFull(m: Block, ghost i: nat)
      requires Valid() && m in out && i < |full| && full[i] == m.parentPage && m in m.parentPage.block
      modifies this, avail, full
      ensures Valid() && out == old(out) - {m} && Kept(old(avail), old(full), avail, full)
      ensures avail == old(avail) + [m.parentPage] && full == RemoveAt(old(full), i)
    {
      hide *;
      Open();
      ghost var a, f := avail, full;
      FullAside(perPage, a, f, out, i);
      PutAside(m.parentPage, m, perPage, a, RemoveAt(f, i), a + f, out, a, f);
      out := out - {m};
      LeavesFull(a, f, i);
      Reopen(m.parentPage, i);
    }

    /** A full page that has a block again moves to the end of the pages with room. */
    method Reopen(curPage: Page, ghost i: nat)
      requires i < |full| && curPage == full[i] && curPage.availableStackSize == 1 && 2 <= perPage
      requires Handling(curPage, perPage, avail, RemoveAt(full, i), avail + full, out) && Apart(full, avail) && Ring(avail) && Ring(full)
      requires availablePagesSize == |avail| && unavailablePagesSize == |full|
      requires unavailablePages == full[0] && (avail != [] ==> availablePages == avail[0])
      modifies this, (set p | p in avail + full)`next, (set p | p in avail + full)`prev
      ensures Valid() && out == old(out) && avail == old(avail) + [curPage] && full == RemoveAt(old(full), i)
    {
      hide *;
      ghost var a, f := avail, full;
      LeavesFull(a, f, i);
      var head := unavailablePages;
      if unavailablePagesSize - 1 > 0 && curPage == unavailablePages {
        head := curPage.next;
      }
      MoveAside(curPage, perPage, a, RemoveAt(f, i), a + f, out, f, i, availablePagesSize == 0, availablePages, a);
      GoesAvail(perPage, a, f, out, i);
      if availablePagesSize == 0 {
        availablePages := curPage;
      }
      unavailablePages, unavailablePagesSize, availablePagesSize := head, unavailablePagesSize - 1, availablePagesSize + 1;
      avail, full := a + [curPage], RemoveAt(f, i);
      Close();
    }

    method ReleaseToAvail(m: Block, ghost i: nat)
      requires Valid() && m in out && i < |avail| && avail[i] == m.parentPage && m in m.parentPage.block
      requires m.parentPage.availableStackSize < perPage
      modifies this, avail, full
      ensures Valid() && out == old(out) - {m}
      ensures if old(Frees(m)) then Freed(m.parentPage, old(avail), old(full), avail, full, out)
              else Kept(old(avail), old(full), avail, full)
      ensures full == old(full) && avail == if old(Frees(m)) then RemoveAt(old(avail), i) else old(avail)
    {
      hide *;
      Open();
      FreesIs(m);
      ghost var a, f := avail, full;
      var curPage := m.parentPage;
      AvailAside(perPage, a, f, out, i);
      PutAside(curPage, m, perPage, RemoveAt(a, i), f, a + f, out, a, f);
      out := out - {m};
      ApartParts(a, f);
      KeptMoved(a, f);
      if curPage.availableStackSize == perPage && availablePagesSize >= MAX_FREE_PAGES {
        RingAt(a, i);
        if curPage == availablePages {
          availablePages := curPage.next;
        }
        FreePage(curPage, perPage, a, f, out, i);
        availablePagesSize := availablePagesSize - 1;
        avail := RemoveAt(a, i);
        FreedMoved(a, f, i, out);
      } else {
        StaysAvail(perPage, a, f, out, i);
      }
      Close();
    }
  }

  lemma FourPages()
    ensures MAX_FREE_PAGES == 4
  {
  }

  /** The sequence with one occurrence of the element taken out. */
  ghost predicate Without<T>(s: seq<T>, x: T, r: seq<T>) {
    exists i :: 0 <= i < |s| && s[i] == x && r == s[..i] + s[i + 1..]
  }

  lemma WithoutAt<T>(s: seq<T>, i: nat)
    ensures i < |s| ==> Without(s, s[i], RemoveAt(s, i))
  {
    if i < |s| {
      assert RemoveAt(s, i) == s[..i] + s[i + 1..];
    }
  }

  lemma WithoutFirst<T>(s: seq<T>)
    requires s != []
    ensures RemoveAt(s, 0) == s[1..]
  {
  }

  lemma FreedOut(page: Page, a: seq<Page>, f: seq<Page>, a1: seq<Page>, f1: seq<Page>, out: set<Block>)
    ensures Freed(page, a, f, a1, f1, out) ==> page !in a1 + f1 && forall b :: b in page.block ==> b !in out
  {
    if Freed(page, a, f, a1, f1, out) {
      assert page !in Elements(a1) + Elements(f1);
    }
  }

  lemma ListsIdle(perPage: int, avail: seq<Page>, full: seq<Page>, out: set<Block>)
    requires Lists(perPage, avail, full, out)
    ensures |Idle(avail, perPage)| <= 3
  {
    hide Idle, Stocked, Owned, Sizes, Ring;
  }

  lemma ListsSizes(perPage: int, avail: seq<Page>, full: seq<Page>, out: set<Block>)
    requires Lists(perPage, avail, full, out)
    ensures (forall p :: p in avail ==> p.availableStackSize > 0) && (forall p :: p in full ==> p.availableStackSize == 0)
  {
    hide Idle, Stocked, Owned, Ring;
  }

  lemma PageSplit(perPage: int, avail: seq<Page>, full: seq<Page>, out: set<Block>, page: Page)
    requires Lists(perPage, avail, full, out) && page in avail + full
    ensures Split(page, perPage, out) && 2 <= perPage
  {
    hide Idle, Owned, Sizes, Ring, Split;
  }

  lemma HandledSplit(page: Page, perPage: int, avail: seq<Page>, full: seq<Page>, ps: seq<Page>, out: set<Block>)
    requires Handling(page, perPage, avail, full, ps, out) && page in ps
    ensures Split(page, perPage, out)
  {
    hide Idle, Owned, Sizes, Ring, Split;
  }

  /** The stack is empty exactly when every block of the page is out. */
  lemma NoneLeft(p: Page, perPage: int, out: set<Block>)
    requires Split(p, perPage, out)
    ensures p.availableStackSize == 0 <==> forall c :: c in p.block ==> c in out
  {
    if p.availableStackSize > 0 {
      assert p.Free()[0] in p.Free();
    }
  }

  /** An idle page has all its blocks on its stack, and so has room. */
  lemma IdleAre(perPage: int, avail: seq<Page>, full: seq<Page>, out: set<Block>, idle: set<Page>)
    requires Lists(perPage, avail, full, out)
    ensures (forall p :: p in idle ==> p in avail + full && forall b :: b in p.block ==> b !in out) ==> idle <= Idle(avail, perPage)
  {
    hide *;
    if forall p :: p in idle ==> p in avail + full && forall b :: b in p.block ==> b !in out {
      forall p | p in idle ensures p in Idle(avail, perPage) {
        PageSplit(perPage, avail, full, out, p);
        IdleStack(p, perPage, out);
        ListsSizes(perPage, avail, full, out);
        InIdle(avail, perPage, p);
      }
    }
  }

  lemma InIdle(ps: seq<Page>, perPage: int, p: Page)
    ensures p in ps && p.availableStackSize == perPage ==> p in Idle(ps, perPage)
  {
  }

  lemma IdleStack(p: Page, perPage: int, out: set<Block>)
    requires Split(p, perPage, out) && forall b :: b in p.block ==> b !in out
    ensures p.availableStackSize == perPage
  {
    ElementsSize(p.block);
    ElementsSize(p.Free());
    assert Elements(p.Free()) == Elements(p.block);
  }

  /** The same pages, however they are listed. */
  ghost predicate Kept(a: seq<Page>, f: seq<Page>, a1: seq<Page>, f1: seq<Page>) {
    Elements(a) + Elements(f) == Elements(a1) + Elements(f1)
  }

  /** One page fewer, and no block of that page is out. */
  ghost predicate Freed(page: Page, a: seq<Page>, f: seq<Page>, a1: seq<Page>, f1: seq<Page>, out: set<Block>)
    reads page`block
  {
    Elements(a1) + Elements(f1) == Elements(a) + Elements(f) - {page} && forall b :: b in page.block ==> b !in out
  }

  lemma KeptMoved(a: seq<Page>, f: seq<Page>)
    requires a != [] && Apart(a, f)
    ensures Kept(a, f, a, f) && Kept(a, f, RemoveAt(a, 0), f + [a[0]])
  {
    Moved(a, 0, f);
  }

  /** What is first once the head is gone, and that no page is lost. */
  lemma LeavesHead(a: seq<Page>, f: seq<Page>)
    requires a != [] && Apart(a, f) && Ring(a)
    ensures Kept(a, f, a, f) && Kept(a, f, RemoveAt(a, 0), f + [a[0]]) && (|a| > 1 ==> a[0].next == RemoveAt(a, 0)[0])
  {
    KeptMoved(a, f);
    RingHead(a);
  }

  lemma LeavesFull(a: seq<Page>, f: seq<Page>, i: nat)
    requires i < |f| && Apart(f, a) && Ring(f)
    ensures Kept(a, f, a + [f[i]], RemoveAt(f, i)) && (|f| > 1 ==> (if f[i] == f[0] then f[i].next else f[0]) == RemoveAt(f, i)[0])
  {
    ApartParts(f, a);
    RingAt(f, i);
    KeptMovedBack(a, f, i);
  }

  lemma KeptMovedBack(a: seq<Page>, f: seq<Page>, i: nat)
    requires i < |f| && Apart(f, a)
    ensures Kept(a, f, a + [f[i]], RemoveAt(f, i))
  {
    Moved(f, i, a);
  }

  lemma FreedMoved(a: seq<Page>, f: seq<Page>, i: nat, out: set<Block>)
    requires i < |a| && Apart(a, f) && forall b :: b in a[i].block ==> b !in out
    ensures Freed(a[i], a, f, RemoveAt(a, i), f, out)
  {
    Moved(a, i, f);
    assert a[i] in a;
  }

  /** Where the page of a block that is out is listed. */
  lemma ReleasePage(perPage: int, avail: seq<Page>, full: seq<Page>, out: set<Block>, m: Block)
    requires Lists(perPage, avail, full, out) && m in out
    ensures m.parentPage in avail + full && m in m.parentPage.block && 0 <= m.parentPage.availableStackSize < perPage
  {
    OwnedPage(avail + full, perPage, out, m);
  }

  lemma PageIndex(perPage: int, avail: seq<Page>, full: seq<Page>, out: set<Block>, page: Page) returns (i: nat)
    requires Lists(perPage, avail, full, out) && page in avail + full
    ensures if page.availableStackSize == 0 then i < |full| && full[i] == page else i < |avail| && avail[i] == page
  {
    if page.availableStackSize == 0 {
      assert page in full;
      i :| 0 <= i < |full| && full[i] == page;
    } else {
      assert page in avail;
      i :| 0 <= i < |avail| && avail[i] == page;
    }
  }

  /** What follows the head of a circle, once page `i` has left it. */
  lemma RingAt(ps: seq<Page>, i: nat)
    requires Ring(ps) && NoDup(ps) && i < |ps|
    ensures |ps| > 1 ==> (if ps[i] == ps[0] then ps[i].next else ps[0]) == RemoveAt(ps, i)[0]
  {
    assert ps[i].next == ps[Succ(i, |ps|)];
  }

  /** A page with no block out leaves the pages with room, for good. */
  method FreePage(page: Page, perPage: int, ghost avail: seq<Page>, ghost full: seq<Page>, ghost out: set<Block>, ghost i: nat)
    requires i < |avail| && avail[i] == page && Handling(page, perPage, RemoveAt(avail, i), full, avail + full, out)
    requires page.availableStackSize == perPage && 2 <= perPage && Apart(avail, full) && Ring(avail) && Ring(full)
    modifies (set p | p in avail)`next, (set p | p in avail)`prev
    ensures Lists(perPage, RemoveAt(avail, i), full, out) && forall b :: b in page.block ==> b !in out
  {
    hide *;
    UnlinkAside(page, perPage, avail, full, out, i, RemoveAt(avail, i), avail + full);
    GoesAway(perPage, avail, full, out, i);
  }

  method UnlinkAside(page: Page, perPage: int, ghost avail: seq<Page>, ghost full: seq<Page>, ghost out: set<Block>, ghost i: nat,
                     ghost rest: seq<Page>, ghost ps: seq<Page>)
    requires i < |avail| && avail[i] == page && Handling(page, perPage, rest, full, ps, out)
    requires Apart(avail, full) && Ring(avail) && Ring(full)
    modifies (set p | p in avail)`next, (set p | p in avail)`prev
    ensures Handling(page, perPage, rest, full, ps, out) && Ring(RemoveAt(avail, i)) && Ring(full)
  {
    hide *;
    ApartParts(avail, full);
    UnlinkBeside(page, avail, i, full);
  }

  ghost predicate Heads(head: Page?, size: int, ps: seq<Page>) {
    size == |ps| && (ps != [] ==> head == ps[0])
  }

  lemma RingHead(ps: seq<Page>)
    requires Ring(ps) && ps != []
    ensures |ps| > 1 ==> ps[0].next == RemoveAt(ps, 0)[0]
  {
    assert ps[0].next == ps[Succ(0, |ps|)];
  }

  const MAX_FREE_PAGES := 4
}
