/** Reference-counted pointers: a target lives exactly as long as some pointer holds it. */
module SmartPtr {
  class ReferenceCounter {
    var refCount: int

    constructor ()
      ensures refCount == 0
    {
      refCount := 0;
    }

    method AddRef()
      modifies this
      ensures refCount == old(refCount) + 1
    {
      refCount := refCount + 1;
    }

    method Release() returns (left: int)
      modifies this
      ensures left == refCount == old(refCount) - 1
    {
      refCount := refCount - 1;
      left := refCount;
    }
  }

  class Target {
    var contents: int

    constructor (contents: int)
      ensures this.contents == contents
    {
      this.contents := contents;
    }
  }

  // ---------------------------------------------------------------- who holds what

  datatype Hold = Hold(ptr: Target?, reference: ReferenceCounter?)

  type Holds = map<RakNetSmartPtr, Hold>

  /** The pointers that share a counter. */
  ghost function Sharing(held: Holds, c: ReferenceCounter): set<RakNetSmartPtr> {
    set p | p in held && held[p].reference == c
  }

  /** Pointers that share a counter share their target and the other way round; none has a target and no counter. */
  ghost predicate Paired(held: Holds) {
    && (forall p :: p in held && held[p].reference == null ==> held[p].ptr == null)
    && (forall p, q :: p in held && q in held && held[p].reference != null && held[p].reference == held[q].reference ==> held[p].ptr == held[q].ptr)
    && (forall p, q :: p in held && q in held && held[p].ptr != null && held[p].ptr == held[q].ptr ==> held[p].reference == held[q].reference)
  }

  /** The counters that exist are those in use, and each counts the pointers that use it. */
  ghost predicate Counted(held: Holds, counts: map<ReferenceCounter, int>) {
    && (forall p :: p in held && held[p].reference != null ==> held[p].reference in counts)
    && (forall c :: c in counts ==> counts[c] == |Sharing(held, c)| && counts[c] > 0)
  }

  /** The targets that exist are those held. */
  ghost predicate Owned(held: Holds, targets: set<Target>) {
    && (forall p :: p in held && held[p].ptr != null ==> held[p].ptr in targets)
    && (forall t :: t in targets ==> exists p :: p in held && held[p].ptr == t)
  }

  ghost predicate Good(held: Holds, counts: map<ReferenceCounter, int>, targets: set<Target>) {
    Paired(held) && Counted(held, counts) && Owned(held, targets)
  }

  /** What one more pointer may hold without upsetting the pairing. */
  ghost predicate Matches(held: Holds, h: Hold) {
    && (h.reference == null ==> h.ptr == null)
    && forall q :: q in held ==>
      (h.reference != null && held[q].reference == h.reference ==> held[q].ptr == h.ptr) && (h.ptr != null && held[q].ptr == h.ptr ==> held[q].reference == h.reference)
  }

  lemma PairedAdd(held: Holds, p: RakNetSmartPtr, h: Hold)
    requires Paired(held) && p !in held && Matches(held, h)
    ensures Paired(held[p := h])
  {
  }

  lemma SharingAdd(held: Holds, p: RakNetSmartPtr, h: Hold, d: ReferenceCounter)
    requires p !in held
    ensures Sharing(held[p := h], d) == if d == h.reference then Sharing(held, d) + {p} else Sharing(held, d)
    ensures |Sharing(held[p := h], d)| == |Sharing(held, d)| + if d == h.reference then 1 else 0
  {
  }

  ghost function CountsWith(counts: map<ReferenceCounter, int>, c: ReferenceCounter?): map<ReferenceCounter, int> {
    if c == null then counts else if c in counts then counts[c := counts[c] + 1] else counts[c := 1]
  }

  lemma CountsNew(counts: map<ReferenceCounter, int>, c: ReferenceCounter)
    requires c !in counts
    ensures CountsWith(counts, c) == counts[c := 1]
  {
  }

  /** The target a pointer holds, if any. */
  function Of(t: Target?): set<Target> {
    if t == null then {} else {t}
  }

  lemma CountedAdd(held: Holds, counts: map<ReferenceCounter, int>, p: RakNetSmartPtr, h: Hold)
    requires Counted(held, counts) && p !in held
    ensures Counted(held[p := h], CountsWith(counts, h.reference))
  {
    hide Sharing;
    var now, more := held[p := h], CountsWith(counts, h.reference);
    forall d | d in more ensures more[d] == |Sharing(now, d)| && more[d] > 0 {
      SharingAdd(held, p, h, d);
      if d !in counts {
        Unshared(held, counts, d);
      }
    }
  }

  lemma Unshared(held: Holds, counts: map<ReferenceCounter, int>, d: ReferenceCounter)
    requires Counted(held, counts) && d !in counts
    ensures Sharing(held, d) == {}
  {
  }

  lemma OwnedAdd(held: Holds, targets: set<Target>, p: RakNetSmartPtr, h: Hold)
    requires Owned(held, targets) && p !in held
    ensures Owned(held[p := h], targets + Of(h.ptr))
  {
    var now := held[p := h];
    forall t | t in targets ensures exists q :: q in now && now[q].ptr == t {
      var q: RakNetSmartPtr :| q in held && held[q].ptr == t;
      assert now[q].ptr == t;
    }
    assert now[p].ptr == h.ptr;
  }

  /** One more pointer, with its counter one higher or new and its target among those that exist. */
  lemma Added(held: Holds, counts: map<ReferenceCounter, int>, targets: set<Target>, p: RakNetSmartPtr, h: Hold)
    requires Good(held, counts, targets) && p !in held && Matches(held, h)
    ensures Good(held[p := h], CountsWith(counts, h.reference), targets + Of(h.ptr))
  {
    hide Paired, Counted, Owned, Matches;
    PairedAdd(held, p, h);
    CountedAdd(held, counts, p, h);
    OwnedAdd(held, targets, p, h);
  }

  /** Nothing, a counter and target of its own, or what another pointer holds. */
  lemma MatchesOf(held: Holds, counts: map<ReferenceCounter, int>, targets: set<Target>, h: Hold)
    requires Good(held, counts, targets)
    requires h == Hold(null, null) || h in held.Values || (h.reference != null && h.reference !in counts && (h.ptr != null ==> h.ptr !in targets))
    ensures Matches(held, h)
    ensures (h in held.Values ==> (h.ptr != null ==> h.ptr in targets) && (h.reference != null ==> h.reference in counts && counts[h.reference] > 0))
  {
  }

  /** A pointer that leaves a counter others still share. */
  lemma LeaveShared(held: Holds, counts: map<ReferenceCounter, int>, targets: set<Target>, p: RakNetSmartPtr)
    requires Good(held, counts, targets) && p in held && held[p].reference != null
    ensures held[p].reference in counts
    ensures counts[held[p].reference] > 1 ==> Good(held - {p}, counts[held[p].reference := counts[held[p].reference] - 1], targets)
  {
    var c := held[p].reference;
    if counts[c] > 1 {
      PairedLess(held, p);
      CountedLess(held, counts, p);
      assert p in Sharing(held, c);
      var q := Another(Sharing(held, c), p);
      OwnedLess(held, targets, p, q);
      hide Paired, Counted, Owned;
    }
  }

  lemma PairedLess(held: Holds, p: RakNetSmartPtr)
    requires Paired(held)
    ensures Paired(held - {p})
  {
  }

  lemma CountedLess(held: Holds, counts: map<ReferenceCounter, int>, p: RakNetSmartPtr)
    requires Counted(held, counts) && p in held && held[p].reference != null
    ensures held[p].reference in counts
    ensures counts[held[p].reference] > 1 ==> Counted(held - {p}, counts[held[p].reference := counts[held[p].reference] - 1])
  {
    var now, c := held - {p}, held[p].reference;
    assert p in Sharing(held, c);
    assert forall d :: d in counts ==> Sharing(now, d) == if d == c then Sharing(held, d) - {p} else Sharing(held, d);
  }

  /** Another pointer still holds the target. */
  lemma OwnedLess(held: Holds, targets: set<Target>, p: RakNetSmartPtr, q: RakNetSmartPtr)
    requires Owned(held, targets) && p in held && q in held && q != p && held[q].ptr == held[p].ptr
    ensures Owned(held - {p}, targets)
  {
    var now := held - {p};
    forall t | t in targets ensures exists r :: r in now && now[r].ptr == t {
      var r: RakNetSmartPtr :| r in held && held[r].ptr == t;
      assert now[if r == p then q else r].ptr == t;
    }
  }

  lemma Another(s: set<RakNetSmartPtr>, p: RakNetSmartPtr) returns (q: RakNetSmartPtr)
    requires |s| > 1
    ensures q in s && q != p
  {
    var rest := s - {p};
    if rest == {} {
      assert s <= {p};
      Smaller(s, {p});
    }
    q :| q in rest;
  }

  lemma Smaller(a: set<RakNetSmartPtr>, b: set<RakNetSmartPtr>)
    requires a <= b
    ensures |a| <= |b|
  {
    assert b == a + (b - a);
  }

  /** The last pointer to leave a counter takes the counter and the target with it. */
  lemma LeaveLast(held: Holds, counts: map<ReferenceCounter, int>, targets: set<Target>, p: RakNetSmartPtr)
    requires Good(held, counts, targets) && p in held && held[p].reference != null
    ensures held[p].reference in counts && (held[p].ptr != null ==> held[p].ptr in targets) && counts[held[p].reference] >= 1
    ensures counts[held[p].reference] == 1 ==> Good(held - {p}, counts - {held[p].reference}, targets - {held[p].ptr})
  {
    var now, c, t := held - {p}, held[p].reference, held[p].ptr;
    if counts[c] == 1 {
      assert p in Sharing(held, c);
      forall q | q in now ensures held[q].reference != c {
        if held[q].reference == c {
          assert {p, q} <= Sharing(held, c);
          Smaller({p, q}, Sharing(held, c));
        }
      }
      assert forall d :: d in counts && d != c ==> Sharing(now, d) == Sharing(held, d);
      forall u | u in targets - {t} ensures exists r :: r in now && now[r].ptr == u {
        var r: RakNetSmartPtr :| r in held && held[r].ptr == u;
        assert now[r].ptr == u;
      }
    }
  }

  /** A pointer that holds nothing leaves nothing. */
  lemma LeaveEmpty(held: Holds, counts: map<ReferenceCounter, int>, targets: set<Target>, p: RakNetSmartPtr)
    requires Good(held, counts, targets) && p in held && held[p].reference == null
    ensures Good(held - {p}, counts, targets)
  {
    var now := held - {p};
    assert forall c :: c in counts ==> Sharing(now, c) == Sharing(held, c);
    forall t | t in targets ensures exists r :: r in now && now[r].ptr == t {
      var r: RakNetSmartPtr :| r in held && held[r].ptr == t;
      assert now[r].ptr == t;
    }
  }

  // ---------------------------------------------------------------- the pointers

  /** What has been made and not yet unmade. */
  class Memory {
    ghost var held: Holds
    ghost var counts: map<ReferenceCounter, int>
    ghost var targets: set<Target>

    /** The fields are as recorded. */
    ghost predicate Recorded()
      reads this, held.Keys, counts.Keys
    {
      && (forall p :: p in held ==> held[p] == Hold(p.ptr, p.reference))
      && forall c :: c in counts ==> counts[c] == c.refCount
    }

    ghost predicate Valid()
      reads this, held.Keys, counts.Keys
    {
      Recorded() && Good(held, counts, targets)
    }

    constructor ()
      ensures Valid() && held == map[] && counts == map[] && targets == {}
    {
      held, counts, targets := map[], map[], {};
    }

    /** Deleting what does not exist is not allowed; deleting null does nothing. */
    ghost method DeleteTarget(t: Target?)
      requires t != null ==> t in targets
      modifies this`targets
      ensures targets == old(targets) - {t}
    {
      targets := targets - {t};
    }

    ghost method DeleteCounter(c: ReferenceCounter)
      requires c in counts
      modifies this`counts
      ensures counts == old(counts) - {c}
    {
      counts := counts - {c};
    }
  }

  class RakNetSmartPtr {
    var ptr: Target?
    var reference: ReferenceCounter?

    /** A pointer that holds nothing, and has no counter. */
    constructor (ghost memory: Memory)
      requires memory.Valid()
      modifies memory`held
      ensures memory.Valid() && memory.held == old(memory.held)[this := Hold(null, null)]
    {
      ptr, reference := null, null;
      new;
      Rejoin(memory);
    }

    /** A pointer that takes over a target no pointer holds yet. */
    constructor Own(pValue: Target?, ghost memory: Memory)
      requires memory.Valid() && (pValue != null ==> pValue !in memory.targets)
      modifies memory
      ensures memory.Valid() && reference != null
      ensures memory.held == old(memory.held)[this := Hold(pValue, reference)] && reference.refCount == 1
      ensures memory.targets == old(memory.targets) + Of(pValue)
    {
      ptr, reference := pValue, null;
      new;
      TakeNew(pValue, memory);
    }

    constructor Copy(sp: RakNetSmartPtr, ghost memory: Memory)
      requires memory.Valid() && sp in memory.held
      modifies memory, sp.reference
      ensures memory.Valid() && memory.held == old(memory.held)[this := old(memory.held)[sp]] && memory.targets == old(memory.targets)
    {
      ptr, reference := null, null;
      new;
      Share(sp, memory);
    }

    ghost method Rejoin(memory: Memory)
      requires memory.Valid() && this !in memory.held && ptr == null && reference == null
      modifies memory`held
      ensures memory.Valid() && memory.held == old(memory.held)[this := Hold(null, null)]
    {
      hide Good;
      MatchesOf(memory.held, memory.counts, memory.targets, Hold(null, null));
      Added(memory.held, memory.counts, memory.targets, this, Hold(null, null));
      assert memory.targets + Of(null) == memory.targets;
      memory.held := memory.held[this := Hold(null, null)];
    }

    /** A counter of its own, and a target of its own. */
    method TakeNew(pValue: Target?, ghost memory: Memory)
      requires memory.Valid() && this !in memory.held && (pValue != null ==> pValue !in memory.targets)
      modifies this, memory
      ensures reference != null && fresh(reference) && memory.Valid() && memory.held == old(memory.held)[this := Hold(pValue, reference)]
      ensures reference.refCount == 1 && memory.targets == old(memory.targets) + Of(pValue)
    {
      hide Good;
      var counter := new ReferenceCounter();
      counter.AddRef();
      ghost var h := Hold(pValue, counter);
      MatchesOf(memory.held, memory.counts, memory.targets, h);
      Added(memory.held, memory.counts, memory.targets, this, h);
      hide Sharing, CountsWith;
      CountsNew(memory.counts, counter);
      reference, ptr := counter, pValue;
      memory.held, memory.counts, memory.targets := memory.held[this := h], memory.counts[counter := 1], memory.targets + Of(pValue);
    }

    /** Hold what another holds, and be counted with it. */
    method Share(sp: RakNetSmartPtr, ghost memory: Memory)
      requires memory.Valid() && this !in memory.held && sp in memory.held
      modifies this, memory, sp.reference
      ensures memory.Valid() && memory.held == old(memory.held)[this := old(memory.held)[sp]] && memory.targets == old(memory.targets)
    {
      hide Good;
      ghost var h := memory.held[sp];
      assert h in memory.held.Values;
      MatchesOf(memory.held, memory.counts, memory.targets, h);
      Added(memory.held, memory.counts, memory.targets, this, h);
      assert memory.targets + Of(h.ptr) == memory.targets;
      hide Sharing, Matches;
      ptr, reference := sp.ptr, sp.reference;
      if reference != null {
        reference.AddRef();
      }
      memory.held, memory.counts := memory.held[this := h], CountsWith(memory.counts, h.reference);
    }

    /** Let go of what is held; the last to let go deletes it. */
    method Leave(ghost memory: Memory)
      requires memory.Valid() && this in memory.held
      modifies memory, reference
      ensures memory.Valid() && memory.held == old(memory.held) - {this}
      ensures memory.targets == if reference != null && old(reference.refCount) == 1 then old(memory.targets) - {ptr} else old(memory.targets)
    {
      hide Good;
      if reference == null {
        LeaveEmpty(memory.held, memory.counts, memory.targets, this);
      } else {
        LeaveLast(memory.held, memory.counts, memory.targets, this);
        LeaveShared(memory.held, memory.counts, memory.targets, this);
        var left := reference.Release();
        if left == 0 {
          memory.DeleteTarget(ptr);
          memory.DeleteCounter(reference);
        } else {
          memory.counts := memory.counts[reference := left];
        }
      }
      memory.held := memory.held - {this};
    }
    method SetNull(ghost memory: Memory)
      requires memory.Valid() && this in memory.held
      modifies this, memory, reference
      ensures memory.Valid() && memory.held == old(memory.held)[this := Hold(null, null)] && ptr == null && reference == null
      ensures memory.targets == if old(reference) != null && old(reference.refCount) == 1 then old(memory.targets) - {old(ptr)} else old(memory.targets)
    {
      hide Good, Sharing;
      Leave(memory);
      ptr, reference := null, null;
      Rejoin(memory);
    }

    /** What the destructor does. */
    method Destroy(ghost memory: Memory)
      requires memory.Valid() && this in memory.held
      modifies memory, reference
      ensures memory.Valid() && memory.held == old(memory.held) - {this}
      ensures memory.targets == if reference != null && old(reference.refCount) == 1 then old(memory.targets) - {ptr} else old(memory.targets)
    {
      Leave(memory);
    }

    method Assign(sp: RakNetSmartPtr, ghost memory: Memory)
      requires memory.Valid() && this in memory.held && sp in memory.held
      modifies this, memory, reference, sp.reference
      ensures memory.Valid() && memory.held == old(memory.held)[this := old(memory.held)[sp]]
      ensures memory.targets == if this != sp && old(reference) != null && old(reference.refCount) == 1 then old(memory.targets) - {old(ptr)} else old(memory.targets)
    {
      hide Good;
      if this != sp {
        Leave(memory);
        Share(sp, memory);
      }
    }

    method IsUnique(ghost memory: Memory) returns (unique: bool)
      requires memory.Valid() && this in memory.held && reference != null
      ensures unique <==> Sharing(memory.held, reference) == {this}
    {
      unique := reference.refCount == 1;
      OnlySharer(memory.held, memory.counts, memory.targets, this);
    }

    /** Stop counting among others that stay. */
    method LeaveOthers(ghost memory: Memory)
      requires memory.Valid() && this in memory.held && reference != null && reference.refCount != 1
      modifies memory, reference
      ensures memory.Valid() && memory.held == old(memory.held) - {this} && memory.targets == old(memory.targets)
    {
      hide Good;
      LeaveLast(memory.held, memory.counts, memory.targets, this);
      LeaveShared(memory.held, memory.counts, memory.targets, this);
      var left := reference.Release();
      memory.counts := memory.counts[reference := left];
      memory.held := memory.held - {this};
    }

    /** A pointer that shares its target gets one of its own; what the others hold stays as it is. */
    method Clone(copyContents: bool, ghost memory: Memory)
      requires memory.Valid() && this in memory.held && reference != null && (copyContents ==> ptr != null)
      modifies this, memory, reference
      ensures memory.Valid() && reference != null && Sharing(memory.held, reference) == {this}
      ensures memory.held == old(memory.held)[this := Hold(ptr, reference)]
      ensures if Sharing(old(memory.held), old(reference)) == {this} then ptr == old(ptr) && memory.targets == old(memory.targets)
        else ptr != null && fresh(ptr) && memory.targets == old(memory.targets) + {ptr} && (copyContents ==> ptr.contents == old(ptr.contents))
    {
      hide Good;
      OnlySharer(memory.held, memory.counts, memory.targets, this);
      var unique := IsUnique(memory);
      hide Sharing;
      if !unique {
        Part(copyContents, memory);
      }
      OnlySharer(memory.held, memory.counts, memory.targets, this);
    }

    /** Leave the others and take a fresh target. */
    method Part(copyContents: bool, ghost memory: Memory)
      requires memory.Valid() && this in memory.held && reference != null && reference.refCount != 1 && (copyContents ==> ptr != null)
      modifies this, memory, reference
      ensures memory.Valid() && reference != null && fresh(reference) && reference.refCount == 1
      ensures memory.held == old(memory.held)[this := Hold(ptr, reference)]
      ensures ptr != null && fresh(ptr) && memory.targets == old(memory.targets) + {ptr} && (copyContents ==> ptr.contents == old(ptr.contents))
    {
      hide Good, Sharing;
      LeaveOthers(memory);
      var oldPtr := ptr;
      var newPtr := new Target(0);
      newPtr.contents := *;
      TakeNew(newPtr, memory);
      if copyContents {
        newPtr.contents := oldPtr.contents;
      }
    }
  }

  lemma OnlySharer(held: Holds, counts: map<ReferenceCounter, int>, targets: set<Target>, p: RakNetSmartPtr)
    requires Good(held, counts, targets) && p in held && held[p].reference != null
    ensures held[p].reference in counts && (counts[held[p].reference] == 1 <==> Sharing(held, held[p].reference) == {p})
  {
    var sharing := Sharing(held, held[p].reference);
    assert p in sharing;
    if |sharing| > 1 {
      var _ := Another(sharing, p);
    } else {
      assert {p} <= sharing;
      Smaller({p}, sharing);
      assert |sharing - {p}| == 0;
      assert sharing == {p} + (sharing - {p});
    }
  }

  /** Nothing outlives the last pointer. */
  lemma NothingLeft(held: Holds, counts: map<ReferenceCounter, int>, targets: set<Target>)
    requires Good(held, counts, targets) && held == map[]
    ensures counts == map[] && targets == {}
  {
    forall c ensures c !in counts {
      assert Sharing(held, c) == {};
    }
    assert forall t :: t !in targets;
    assert counts.Keys == {};
  }
}
