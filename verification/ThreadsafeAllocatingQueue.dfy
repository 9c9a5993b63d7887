/** Any number of threads pushing to and popping from one queue under one mutex, one step at a time. */
module ThreadsafeAllocatingQueue {
  type Item(==, !new)

  type Thread = nat

  datatype Option<T> = None | Some(value: T)

  /** Where a thread is in the call it is making. */
  datatype Place =
    | Idle
    | PushLock(item: Item)
    | PushBody(item: Item)
    | PushUnlock
    | PopLock
    | PopBody
    | PopUnlock(result: Option<Item>)
    | InaccurateTest
    | InaccurateLock
    | InaccurateBody
    | InaccurateUnlock(result: Option<Item>)

  datatype Entry = Entry(thread: Thread, item: Item)

  /** `pushed` and `popped` record, in the order the mutex was held, who put what in and who took what out;
      `returned` records what each call that took an item out has handed back to its caller. */
  datatype State = State(
    queue: seq<Item>,
    owner: Option<Thread>,
    places: map<Thread, Place>,
    pushed: seq<Entry>,
    popped: seq<Entry>,
    returned: seq<Entry>)

  ghost predicate Init(s: State) {
    s.queue == [] && s.owner == None && s.pushed == s.popped == s.returned == [] && forall t :: t in s.places ==> s.places[t] == Idle
  }

  /** The places between taking the mutex and giving it back. */
  predicate Inside(p: Place) {
    p.PushBody? || p.PushUnlock? || p.PopBody? || p.PopUnlock? || p.InaccurateBody? || p.InaccurateUnlock?
  }

  ghost predicate Starts(s: State, s1: State, t: Thread) {
    && t in s.places && s.places[t] == Idle
    && exists p: Place :: (p.PushLock? || p.PopLock? || p.InaccurateTest?) && s1 == s.(places := s.places[t := p])
  }

  function Locked(s: State, t: Thread, p: Place): State {
    s.(owner := Some(t), places := s.places[t := p])
  }

  function Unlocked(s: State, t: Thread, result: Option<Item>): State {
    s.(owner := None, places := s.places[t := Idle],
       returned := if result.Some? then s.returned + [Entry(t, result.value)] else s.returned)
  }

  /** The queue's own `Push`, with the mutex held. */
  function Put(s: State, t: Thread, item: Item): State {
    s.(queue := s.queue + [item], places := s.places[t := PushUnlock], pushed := s.pushed + [Entry(t, item)])
  }

  /** The emptiness test and the queue's own `Pop`, with the mutex held. */
  function Taken(s: State, t: Thread): (s1: State)
    requires t in s.places
  {
    var unlock := (r: Option<Item>) => if s.places[t].PopBody? then PopUnlock(r) else InaccurateUnlock(r);
    if s.queue == [] then s.(places := s.places[t := unlock(None)])
    else s.(queue := s.queue[1..], places := s.places[t := unlock(Some(s.queue[0]))], popped := s.popped + [Entry(t, s.queue[0])])
  }

  /** One step of thread `t`.  The test `PopInaccurate` makes without the mutex may come out either way. */
  ghost predicate Step(s: State, s1: State, t: Thread) {
    t in s.places &&
    match s.places[t]
    case Idle => Starts(s, s1, t)
    case PushLock(item) => s.owner == None && s1 == Locked(s, t, PushBody(item))
    case PushBody(item) => s1 == Put(s, t, item)
    case PushUnlock => s1 == Unlocked(s, t, None)
    case PopLock => s.owner == None && s1 == Locked(s, t, PopBody)
    case PopBody => s1 == Taken(s, t)
    case PopUnlock(r) => s1 == Unlocked(s, t, r)
    case InaccurateTest => s1 == s.(places := s.places[t := InaccurateLock]) || s1 == s.(places := s.places[t := Idle])
    case InaccurateLock => s.owner == None && s1 == Locked(s, t, InaccurateBody)
    case InaccurateBody => s1 == Taken(s, t)
    case InaccurateUnlock(r) => s1 == Unlocked(s, t, r)
  }

  /** A run: from the start, each state comes from the one before by a step of the thread scheduled. */
  ghost predicate Run(trace: seq<State>, schedule: seq<Thread>)
    decreases |schedule|
  {
    |trace| == |schedule| + 1 &&
    if schedule == [] then Init(trace[0])
    else
      var n := |schedule| - 1;
      Run(trace[..n + 1], schedule[..n]) && Step(trace[n], trace[n + 1], schedule[n])
  }

  // ---------------------------------------------------------------- what every step keeps

  function Items(es: seq<Entry>): (r: seq<Item>)
    ensures |r| == |es| && forall i :: 0 <= i < |es| ==> r[i] == es[i].item
  {
    seq(|es|, i requires 0 <= i < |es| => es[i].item)
  }

  /** The item a thread has taken out and not yet handed back. */
  function Held(s: State): (es: seq<Entry>) {
    if s.owner.Some? && s.owner.value in s.places then
      match s.places[s.owner.value]
      case PopUnlock(r) => if r.Some? then [Entry(s.owner.value, r.value)] else []
      case InaccurateUnlock(r) => if r.Some? then [Entry(s.owner.value, r.value)] else []
      case _ => []
    else []
  }

  /** Exactly the owner of the mutex is inside; what was pushed is what was popped and then what is queued; what was
      popped is what was returned and then what the owner still holds. */
  ghost predicate Inv(s: State) {
    && (forall t :: t in s.places ==> (Inside(s.places[t]) <==> s.owner == Some(t)))
    && (s.owner.Some? ==> s.owner.value in s.places)
    && Items(s.pushed) == Items(s.popped) + s.queue
    && s.popped == s.returned + Held(s)
  }

  lemma StepKeeps(s: State, s1: State, t: Thread)
    requires Inv(s) && Step(s, s1, t)
    ensures Inv(s1) && s1.places.Keys == s.places.Keys
  {
    assert Items(s1.pushed) == Items(s1.popped) + s1.queue;
  }

  /** Whatever the interleaving, at every moment: the items returned, then the item a thread is about to return, then
      the queue, are the items pushed, in the order the mutex was held; and a thread outside does not hold it. */
  lemma {:induction false} RunSafe(trace: seq<State>, schedule: seq<Thread>, i: nat)
    requires Run(trace, schedule) && i < |trace|
    ensures Inv(trace[i])
    ensures Items(trace[i].returned) + Items(Held(trace[i])) + trace[i].queue == Items(trace[i].pushed)
    ensures forall t :: t in trace[i].places && !Inside(trace[i].places[t]) ==> trace[i].owner != Some(t)
    decreases |schedule|
  {
    var n := |schedule|;
    if i < n {
      RunSafe(trace[..n], schedule[..n - 1], i);
    } else {
      if n > 0 {
        RunSafe(trace[..n], schedule[..n - 1], n - 1);
        StepKeeps(trace[n - 1], trace[n], schedule[n - 1]);
      }
      ItemsConcat(trace[i].returned, Held(trace[i]));
    }
  }

  lemma ItemsConcat(a: seq<Entry>, b: seq<Entry>)
    ensures Items(a + b) == Items(a) + Items(b)
  {
  }

  /** Two threads are never inside together. */
  lemma MutualExclusion(s: State, t: Thread, u: Thread)
    requires Inv(s) && t in s.places && u in s.places && Inside(s.places[t]) && Inside(s.places[u])
    ensures t == u
  {
    assert s.owner == Some(t) && s.owner == Some(u);
  }

  /** What has been recorded is never taken back. */
  lemma StepExtends(s: State, s1: State, t: Thread)
    requires Inv(s) && Step(s, s1, t)
    ensures s.pushed <= s1.pushed && s.popped <= s1.popped && s.returned <= s1.returned
    ensures forall u :: u in s.places && u != t ==> s1.places[u] == s.places[u]
  {
  }

  ghost predicate ReturnsNull(s: State, s1: State, t: Thread) {
    && t in s.places && t in s1.places && s1.places[t] == Idle
    && (s.places[t] == PopUnlock(None) || s.places[t] == InaccurateUnlock(None) || s.places[t] == InaccurateTest)
  }

  ghost predicate Doing(s: State, t: Thread) {
    t in s.places && s.places[t] != Idle
  }

  /** From state `a` to state `b` of a run thread `t` makes one call, and the call returns null. */
  ghost predicate NullCall(trace: seq<State>, schedule: seq<Thread>, t: Thread, a: nat, b: nat) {
    && |trace| == |schedule| + 1 && a + 1 < b < |trace|
    && t in trace[a].places && trace[a].places[t] == Idle && (forall i :: a < i < b ==> Doing(trace[i], t))
    && schedule[b - 1] == t && ReturnsNull(trace[b - 1], trace[b], t)
  }

  ghost predicate SameQueue(s: State, s1: State) {
    s1.queue == s.queue && s1.pushed == s.pushed && s1.popped == s.popped && s1.returned == s.returned
  }

  /** The places of a call that is on the way to null. */
  predicate Quiet(p: Place) {
    p.Idle? || p.PopLock? || p.PopBody? || p.InaccurateTest? || p.InaccurateLock? || p.InaccurateBody? || p == PopUnlock(None) || p == InaccurateUnlock(None)
  }

  lemma {:induction false} RunStep(trace: seq<State>, schedule: seq<Thread>, i: nat)
    requires Run(trace, schedule) && i < |schedule|
    ensures Step(trace[i], trace[i + 1], schedule[i])
    decreases |schedule|
  {
    var n := |schedule| - 1;
    if i < n {
      RunStep(trace[..n + 1], schedule[..n], i);
    }
  }

  /** A quiet place was come to from a quiet place. */
  lemma QuietBefore(s: State, s1: State, u: Thread, t: Thread)
    requires Inv(s) && Step(s, s1, u) && Doing(s1, t) && Quiet(s1.places[t])
    ensures t in s.places && Quiet(s.places[t])
  {
    StepKeeps(s, s1, u);
  }

  /** A step of the call between two quiet places, or its last, touches neither the queue nor the records. */
  lemma QuietStep(s: State, s1: State, t: Thread)
    requires Inv(s) && Step(s, s1, t) && Quiet(s.places[t]) && t in s1.places
    requires ReturnsNull(s, s1, t) || (s1.places[t] != Idle && Quiet(s1.places[t]))
    ensures SameQueue(s, s1)
  {
  }

  lemma {:induction false} QuietAll(trace: seq<State>, schedule: seq<Thread>, t: Thread, a: nat, b: nat, i: nat)
    requires Run(trace, schedule) && NullCall(trace, schedule, t, a, b) && a <= i < b
    ensures t in trace[i].places && Quiet(trace[i].places[t])
    decreases b - i
  {
    if i < b - 1 {
      QuietAll(trace, schedule, t, a, b, i + 1);
      RunSafe(trace, schedule, i);
      RunStep(trace, schedule, i);
      assert Doing(trace[i + 1], t);
      QuietBefore(trace[i], trace[i + 1], schedule[i], t);
    }
  }

  /** In every run, from the start of a call to its null return, no step of the call touches the queue or the records. */
  lemma NullLeavesQueue(trace: seq<State>, schedule: seq<Thread>, t: Thread, a: nat, b: nat, i: nat)
    requires Run(trace, schedule) && NullCall(trace, schedule, t, a, b) && a <= i < b && schedule[i] == t
    ensures SameQueue(trace[i], trace[i + 1])
  {
    hide Inv, Step, Run;
    RunSafe(trace, schedule, i);
    RunStep(trace, schedule, i);
    QuietAll(trace, schedule, t, a, b, i);
    if i < b - 1 {
      QuietAll(trace, schedule, t, a, b, i + 1);
      assert Doing(trace[i + 1], t);
    }
    QuietStep(trace[i], trace[i + 1], t);
  }

  // ---------------------------------------------------------------- what a whole call does

  /** From state `a` to state `b` of a run thread `t` makes one call, and the call returns. */
  ghost predicate Call(trace: seq<State>, schedule: seq<Thread>, t: Thread, a: nat, b: nat) {
    && |trace| == |schedule| + 1 && a + 1 < b < |trace|
    && t in trace[a].places && trace[a].places[t] == Idle && (forall i :: a < i < b ==> Doing(trace[i], t))
    && t in trace[b].places && trace[b].places[t] == Idle
  }

  /** The items of one thread's entries, in order. */
  function Of(es: seq<Entry>, t: Thread): seq<Item> {
    if es == [] then []
    else Of(es[..|es| - 1], t) + if es[|es| - 1].thread == t then [es[|es| - 1].item] else []
  }

  lemma OfMore(es: seq<Entry>, e: Entry, t: Thread)
    ensures Of(es + [e], t) == Of(es, t) + if e.thread == t then [e.item] else []
  {
    assert (es + [e])[..|es|] == es;
  }

  /** What thread `t` has pushed, taken out and been handed. */
  datatype Share = Share(pushed: seq<Item>, popped: seq<Item>, returned: seq<Item>)

  function ShareOf(s: State, t: Thread): Share {
    Share(Of(s.pushed, t), Of(s.popped, t), Of(s.returned, t))
  }

  /** The record is as it was, or one entry of thread `u` longer. */
  ghost predicate AtMostOne(es: seq<Entry>, es1: seq<Entry>, u: Thread) {
    es1 == es || (es1 != [] && es1 == es + [es1[|es1| - 1]] && es1[|es1| - 1].thread == u)
  }

  lemma OfOthers(es: seq<Entry>, es1: seq<Entry>, u: Thread, t: Thread)
    requires AtMostOne(es, es1, u) && u != t
    ensures Of(es1, t) == Of(es, t)
  {
    if es1 != es {
      OfMore(es, es1[|es1| - 1], t);
    }
  }

  lemma StepRecords(s: State, s1: State, u: Thread)
    requires Inv(s) && Step(s, s1, u)
    ensures AtMostOne(s.pushed, s1.pushed, u) && AtMostOne(s.popped, s1.popped, u) && AtMostOne(s.returned, s1.returned, u)
  {
  }

  /** Another thread's step leaves a thread's place and its entries alone. */
  lemma OthersStep(s: State, s1: State, u: Thread, t: Thread)
    requires Inv(s) && Step(s, s1, u) && u != t && t in s.places
    ensures t in s1.places && s1.places[t] == s.places[t] && ShareOf(s1, t) == ShareOf(s, t)
  {
    hide Of, AtMostOne;
    StepKeeps(s, s1, u);
    StepExtends(s, s1, u);
    StepRecords(s, s1, u);
    hide Inv, Step;
    OfOthers(s.pushed, s1.pushed, u, t);
    OfOthers(s.popped, s1.popped, u, t);
    OfOthers(s.returned, s1.returned, u, t);
  }

  /** With the mutex held, about to work on the queue. */
  predicate AtBody(p: Place) {
    p.PushBody? || p.PopBody? || p.InaccurateBody?
  }

  /** Done with the queue, about to give the mutex back. */
  predicate Done(p: Place) {
    p.PushUnlock? || p.PopUnlock? || p.InaccurateUnlock?
  }

  /** Only the step on the queue itself touches the queue, and only the last step of a call hands anything back. */
  lemma OwnStep(s: State, s1: State, t: Thread)
    requires Inv(s) && Step(s, s1, t)
    ensures t in s.places && t in s1.places && (AtBody(s.places[t]) <==> Done(s1.places[t])) && (Done(s.places[t]) ==> s1.places[t] == Idle)
    ensures !AtBody(s.places[t]) ==> s1.queue == s.queue && s1.pushed == s.pushed && s1.popped == s.popped
    ensures !Done(s.places[t]) ==> s1.returned == s.returned
    ensures s.places[t] == Idle ==> !AtBody(s1.places[t])
  {
  }

  /** A state of the run, and the step to the next. */
  lemma At(trace: seq<State>, schedule: seq<Thread>, i: nat)
    requires Run(trace, schedule) && i < |schedule|
    ensures |trace| == |schedule| + 1 && Inv(trace[i]) && Inv(trace[i + 1]) && Step(trace[i], trace[i + 1], schedule[i])
  {
    RunSafe(trace, schedule, i);
    RunSafe(trace, schedule, i + 1);
    RunStep(trace, schedule, i);
  }

  /** Once the queue has been seen to, the thread stays where it is until it gives the mutex back. */
  lemma {:induction false} DoneStays(trace: seq<State>, schedule: seq<Thread>, t: Thread, a: nat, b: nat, i: nat, j: nat)
    requires Run(trace, schedule) && Call(trace, schedule, t, a, b) && a < i <= j < b && t in trace[i].places && Done(trace[i].places[t])
    ensures t in trace[j].places && trace[j].places[t] == trace[i].places[t]
    decreases j
  {
    hide Inv, Step, Run;
    if i < j {
      DoneStays(trace, schedule, t, a, b, i, j - 1);
      At(trace, schedule, j - 1);
      assert Doing(trace[j], t);
      if schedule[j - 1] == t {
        OwnStep(trace[j - 1], trace[j], t);
      } else {
        OthersStep(trace[j - 1], trace[j], schedule[j - 1], t);
      }
    }
  }

  /** The step at which the call saw to the queue. */
  lemma {:induction false} Moment(trace: seq<State>, schedule: seq<Thread>, t: Thread, a: nat, b: nat, i: nat) returns (m: nat)
    requires Run(trace, schedule) && Call(trace, schedule, t, a, b) && a < i < b && t in trace[i].places && Done(trace[i].places[t])
    ensures a < m < i && schedule[m] == t && t in trace[m].places && AtBody(trace[m].places[t])
    ensures t in trace[m + 1].places && trace[m + 1].places[t] == trace[i].places[t]
    decreases i
  {
    hide Inv, Step, Run;
    At(trace, schedule, i - 1);
    if schedule[i - 1] == t {
      OwnStep(trace[i - 1], trace[i], t);
      m := i - 1;
    } else {
      if i - 1 > a {
        assert Doing(trace[i - 1], t);
      }
      OthersStep(trace[i - 1], trace[i], schedule[i - 1], t);
      m := Moment(trace, schedule, t, a, b, i - 1);
    }
  }

  /** A call that sees to the queue does so once. */
  ghost predicate Turning(trace: seq<State>, schedule: seq<Thread>, t: Thread, a: nat, b: nat, m: nat) {
    && Call(trace, schedule, t, a, b) && a < m < b && schedule[m] == t
    && t in trace[m].places && AtBody(trace[m].places[t]) && t in trace[m + 1].places && Done(trace[m + 1].places[t])
  }

  lemma OnlyOnce(trace: seq<State>, schedule: seq<Thread>, t: Thread, a: nat, b: nat, m: nat, i: nat)
    requires Run(trace, schedule) && Turning(trace, schedule, t, a, b, m) && a <= i < b && i != m && schedule[i] == t
    ensures t in trace[i].places && !AtBody(trace[i].places[t]) && (Done(trace[i].places[t]) ==> i == b - 1)
    ensures trace[i + 1].queue == trace[i].queue && trace[i + 1].pushed == trace[i].pushed && trace[i + 1].popped == trace[i].popped
    ensures i < b - 1 ==> trace[i + 1].returned == trace[i].returned
  {
    hide Inv, Step, Run;
    At(trace, schedule, i);
    OwnStep(trace[i], trace[i + 1], t);
    if i < b - 1 {
      assert Doing(trace[i + 1], t);
    }
    if i > a && AtBody(trace[i].places[t]) {
      if i < m {
        DoneStays(trace, schedule, t, a, b, i + 1, m);
      } else {
        DoneStays(trace, schedule, t, a, b, m + 1, i);
      }
      assert false;
    }
  }

  /** No other step before the last changes the thread's share. */
  lemma ShareKept(trace: seq<State>, schedule: seq<Thread>, t: Thread, a: nat, b: nat, m: nat, i: nat)
    requires Run(trace, schedule) && Turning(trace, schedule, t, a, b, m) && a <= i < b - 1 && i != m && t in trace[i].places
    ensures t in trace[i + 1].places && ShareOf(trace[i + 1], t) == ShareOf(trace[i], t)
  {
    hide Inv, Step, Run, Of;
    At(trace, schedule, i);
    if schedule[i] == t {
      assert Doing(trace[i + 1], t);
      OnlyOnce(trace, schedule, t, a, b, m, i);
    } else {
      OthersStep(trace[i], trace[i + 1], schedule[i], t);
    }
  }

  /** Up to that step, and from it to the last, the thread's share is what it was. */
  lemma {:induction false} SharesBefore(trace: seq<State>, schedule: seq<Thread>, t: Thread, a: nat, b: nat, m: nat, i: nat)
    requires Run(trace, schedule) && Turning(trace, schedule, t, a, b, m) && a <= i <= m
    ensures t in trace[i].places && ShareOf(trace[i], t) == ShareOf(trace[a], t)
    decreases i
  {
    hide Inv, Step, Run, Of;
    if i > a {
      SharesBefore(trace, schedule, t, a, b, m, i - 1);
      ShareKept(trace, schedule, t, a, b, m, i - 1);
    } else {
      At(trace, schedule, a);
    }
  }

  lemma {:induction false} SharesAfter(trace: seq<State>, schedule: seq<Thread>, t: Thread, a: nat, b: nat, m: nat, i: nat)
    requires Run(trace, schedule) && Turning(trace, schedule, t, a, b, m) && m < i < b
    ensures t in trace[i].places && ShareOf(trace[i], t) == ShareOf(trace[m + 1], t)
    decreases i
  {
    hide Inv, Step, Run, Of;
    if i > m + 1 {
      SharesAfter(trace, schedule, t, a, b, m, i - 1);
      ShareKept(trace, schedule, t, a, b, m, i - 1);
    }
  }

  /** The item a pushing thread carries is the one it was called with. */
  lemma {:induction false} ItemCarried(trace: seq<State>, schedule: seq<Thread>, t: Thread, a: nat, b: nat, i: nat, item: Item)
    requires Run(trace, schedule) && Call(trace, schedule, t, a, b) && a < i < b
    requires t in trace[a + 1].places && trace[a + 1].places[t] == PushLock(item)
    ensures t in trace[i].places && trace[i].places[t] in {PushLock(item), PushBody(item), PushUnlock}
    decreases i
  {
    if i > a + 1 {
      ItemCarried(trace, schedule, t, a, b, i - 1, item);
      At(trace, schedule, i - 1);
      assert Doing(trace[i], t);
      if schedule[i - 1] != t {
        OthersStep(trace[i - 1], trace[i], schedule[i - 1], t);
      }
    }
  }

  /** In every run a call to push `item` puts it, in exactly one step, behind whatever is queued at that step, and records it; no other
      step of the call touches the queue or the records.  Over the whole call the thread has pushed that one item more, and has
      popped and been handed nothing, whatever other threads do in between. */
  lemma PushCall(trace: seq<State>, schedule: seq<Thread>, t: Thread, a: nat, b: nat, item: Item) returns (m: nat)
    requires Run(trace, schedule) && Call(trace, schedule, t, a, b) && t in trace[a + 1].places && trace[a + 1].places[t] == PushLock(item)
    ensures a < m < b && schedule[m] == t
    ensures trace[m + 1].queue == trace[m].queue + [item] && trace[m + 1].pushed == trace[m].pushed + [Entry(t, item)]
    ensures trace[m + 1].popped == trace[m].popped && trace[m + 1].returned == trace[m].returned
    ensures forall i :: a <= i < b && i != m && schedule[i] == t ==> SameQueue(trace[i], trace[i + 1])
    ensures Of(trace[b].pushed, t) == Of(trace[a].pushed, t) + [item]
    ensures Of(trace[b].popped, t) == Of(trace[a].popped, t) && Of(trace[b].returned, t) == Of(trace[a].returned, t)
  {
    hide Inv, Run, Of;
    ItemCarried(trace, schedule, t, a, b, b - 1, item);
    At(trace, schedule, b - 1);
    LastIsOwn(trace, schedule, t, a, b);
    m := Moment(trace, schedule, t, a, b, b - 1);
    ItemCarried(trace, schedule, t, a, b, m, item);
    At(trace, schedule, m);
    SharesBefore(trace, schedule, t, a, b, m, m);
    SharesAfter(trace, schedule, t, a, b, m, b - 1);
    OfMore(trace[m].pushed, Entry(t, item), t);
    forall i | a <= i < b && i != m && schedule[i] == t ensures SameQueue(trace[i], trace[i + 1]) {
      OnlyOnce(trace, schedule, t, a, b, m, i);
    }
  }

  lemma LastIsOwn(trace: seq<State>, schedule: seq<Thread>, t: Thread, a: nat, b: nat)
    requires Run(trace, schedule) && Call(trace, schedule, t, a, b)
    ensures schedule[b - 1] == t
  {
    hide Inv, Run, Step;
    At(trace, schedule, b - 1);
    assert Doing(trace[b - 1], t);
    if schedule[b - 1] != t {
      OthersStep(trace[b - 1], trace[b], schedule[b - 1], t);
    }
  }

  /** The places from which a pop, of either kind, hands `result` back. */
  predicate HandsBack(p: Place, result: Option<Item>) {
    p == PopUnlock(result) || p == InaccurateUnlock(result)
  }

  /** In every run a call that hands `x` back has taken it, in exactly one step, from the front of the queue, and hands it back at its
      last step; no other step of the call touches the queue or the records.  Over the whole call the thread has popped and been
      handed that one item more, and has pushed nothing. */
  lemma PopCall(trace: seq<State>, schedule: seq<Thread>, t: Thread, a: nat, b: nat, x: Item) returns (m: nat)
    requires Run(trace, schedule) && Call(trace, schedule, t, a, b) && t in trace[b - 1].places && HandsBack(trace[b - 1].places[t], Some(x))
    ensures a < m < b - 1 && schedule[m] == schedule[b - 1] == t
    ensures trace[m].queue == [x] + trace[m + 1].queue && trace[m + 1].popped == trace[m].popped + [Entry(t, x)]
    ensures trace[b].returned == trace[b - 1].returned + [Entry(t, x)]
    ensures trace[m + 1].pushed == trace[m].pushed && trace[m + 1].returned == trace[m].returned
    ensures forall i :: a <= i < b - 1 && i != m && schedule[i] == t ==> SameQueue(trace[i], trace[i + 1])
    ensures Of(trace[b].popped, t) == Of(trace[a].popped, t) + [x] && Of(trace[b].returned, t) == Of(trace[a].returned, t) + [x]
    ensures Of(trace[b].pushed, t) == Of(trace[a].pushed, t)
  {
    hide Inv, Run, Of;
    LastIsOwn(trace, schedule, t, a, b);
    At(trace, schedule, b - 1);
    m := Moment(trace, schedule, t, a, b, b - 1);
    At(trace, schedule, m);
    SharesBefore(trace, schedule, t, a, b, m, m);
    SharesAfter(trace, schedule, t, a, b, m, b - 1);
    OfMore(trace[m].popped, Entry(t, x), t);
    OfMore(trace[b - 1].returned, Entry(t, x), t);
    forall i | a <= i < b - 1 && i != m && schedule[i] == t ensures SameQueue(trace[i], trace[i + 1]) {
      OnlyOnce(trace, schedule, t, a, b, m, i);
    }
  }

  /** A call that took the mutex and hands nothing back met an empty queue while it held it. */
  lemma NullCallSawEmpty(trace: seq<State>, schedule: seq<Thread>, t: Thread, a: nat, b: nat) returns (m: nat)
    requires Run(trace, schedule) && Call(trace, schedule, t, a, b) && t in trace[b - 1].places && HandsBack(trace[b - 1].places[t], None)
    ensures a < m < b - 1 && schedule[m] == t && trace[m].owner == Some(t) && trace[m].queue == trace[m + 1].queue == []
  {
    hide Run;
    m := Moment(trace, schedule, t, a, b, b - 1);
    At(trace, schedule, m);
    assert Inside(trace[m].places[t]);
  }

  /** `Pop` finds nothing exactly when the queue is empty while it holds the mutex. */
  lemma PopNullMeansEmpty(s: State, s1: State, t: Thread)
    requires Inv(s) && Step(s, s1, t) && (s.places[t] == PopBody || s.places[t] == InaccurateBody)
    ensures (s1.places[t] == PopUnlock(None) || s1.places[t] == InaccurateUnlock(None)) <==> s.queue == []
    ensures s.queue != [] ==> s1.queue == s.queue[1..] && Held(s1) == [Entry(t, s.queue[0])]
  {
    assert Inside(s.places[t]);
  }

  /** A null from `PopInaccurate` promises nothing: another thread's push may come between its test and its return. */
  lemma InaccurateNull(item: Item) returns (trace: seq<State>, schedule: seq<Thread>)
    ensures Run(trace, schedule) && |trace| > 1
    ensures ReturnsNull(trace[|trace| - 2], trace[|trace| - 1], 0)
    ensures trace[|trace| - 2].queue == [item] && trace[|trace| - 2].places[0] == InaccurateTest
  {
    hide Run;
    var s0 := State([], None, map[0 := Idle, 1 := Idle], [], [], []);
    var s1 := s0.(places := s0.places[0 := InaccurateTest]);
    var s2 := s1.(places := s1.places[1 := PushLock(item)]);
    var s3 := Locked(s2, 1, PushBody(item));
    var s4 := Put(s3, 1, item);
    var s5 := s4.(places := s4.places[0 := Idle]);
    trace, schedule := [s0], [];
    RunStarts(s0);
    assert Starts(s0, s1, 0) by { var p := InaccurateTest; assert p.InaccurateTest? && s1 == s0.(places := s0.places[0 := p]); }
    trace, schedule := OneMore(trace, schedule, s1, 0);
    assert Starts(s1, s2, 1) by { var p := PushLock(item); assert p.PushLock? && s2 == s1.(places := s1.places[1 := p]); }
    trace, schedule := OneMore(trace, schedule, s2, 1);
    trace, schedule := OneMore(trace, schedule, s3, 1);
    trace, schedule := OneMore(trace, schedule, s4, 1);
    trace, schedule := OneMore(trace, schedule, s5, 0);
  }

  lemma RunStarts(s: State)
    requires Init(s)
    ensures Run([s], [])
  {
  }

  lemma OneMore(trace: seq<State>, schedule: seq<Thread>, s: State, t: Thread) returns (trace1: seq<State>, schedule1: seq<Thread>)
    requires Run(trace, schedule) && Step(trace[|trace| - 1], s, t)
    ensures Run(trace1, schedule1) && trace1 == trace + [s] && schedule1 == schedule + [t]
  {
    trace1, schedule1 := trace + [s], schedule + [t];
    var n := |schedule|;
    assert trace1[..n + 1] == trace && schedule1[..n] == schedule;
  }

  /** Some call can always go on: the thread that holds the mutex, or else whichever thread is in a call. */
  lemma NoDeadlock(s: State, t: Thread) returns (u: Thread, s1: State)
    requires Inv(s) && t in s.places && s.places[t] != Idle
    ensures u in s.places && s.places[u] != Idle && Step(s, s1, u)
  {
    u := if s.owner.Some? then s.owner.value else t;
    assert s.owner.Some? ==> Inside(s.places[u]);
    s1 := match s.places[u]
      case PushLock(item) => Locked(s, u, PushBody(item))
      case PushBody(item) => Put(s, u, item)
      case PushUnlock => Unlocked(s, u, None)
      case PopLock => Locked(s, u, PopBody)
      case PopBody => Taken(s, u)
      case PopUnlock(r) => Unlocked(s, u, r)
      case InaccurateTest => s.(places := s.places[u := InaccurateLock])
      case InaccurateLock => Locked(s, u, InaccurateBody)
      case InaccurateBody => Taken(s, u)
      case InaccurateUnlock(r) => Unlocked(s, u, r)
      case Idle => s;
  }
}
