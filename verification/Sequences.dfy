/** Splices on sequences, and the loops that shift and copy the slots of a fixed-size buffer. */
module Sequences {
  function InsertAt<T>(s: seq<T>, i: nat, x: T): (r: seq<T>)
    requires i <= |s|
    ensures |r| == |s| + 1
  {
    s[..i] + [x] + s[i..]
  }

  function RemoveAt<T>(s: seq<T>, i: nat): (r: seq<T>)
    requires i < |s|
    ensures |r| == |s| - 1
  {
    s[..i] + s[i + 1..]
  }

  /** Cutting at or before the inserted element, and after it. */
  lemma InsertAtCut<T>(s: seq<T>, i: nat, x: T, c: nat)
    requires i <= |s| && c <= |s| + 1
    ensures c <= i ==> InsertAt(s, i, x)[..c] == s[..c]
    ensures c > i ==> InsertAt(s, i, x)[..c] == InsertAt(s[..c - 1], i, x) && InsertAt(s, i, x)[c..] == s[c - 1..]
  {
  }

  /** Move slots `lo .. hi - 1` up by one; slot `lo` keeps its old value. */
  method ShiftRight<T>(buffer: seq<T>, lo: nat, hi: nat) returns (r: seq<T>)
    requires lo <= hi < |buffer|
    ensures |r| == |buffer|
    ensures forall j :: lo < j <= hi ==> r[j] == buffer[j - 1]
    ensures forall j :: 0 <= j < |r| && !(lo < j <= hi) ==> r[j] == buffer[j]
  {
    r := buffer;
    var i := hi;
    while i > lo
      invariant lo <= i <= hi && |r| == |buffer|
      invariant forall j :: i < j <= hi ==> r[j] == buffer[j - 1]
      invariant forall j :: 0 <= j < |r| && !(i < j <= hi) ==> r[j] == buffer[j]
    {
      r := r[i := r[i - 1]];
      i := i - 1;
    }
  }

  /** Move slots `lo + 1 .. hi` down by one; slot `hi` keeps its old value. */
  method ShiftLeft<T>(buffer: seq<T>, lo: nat, hi: nat) returns (r: seq<T>)
    requires lo <= hi <= |buffer| && (lo < hi ==> hi < |buffer|)
    ensures |r| == |buffer|
    ensures forall j :: lo <= j < hi ==> r[j] == buffer[j + 1]
    ensures forall j :: 0 <= j < |r| && !(lo <= j < hi) ==> r[j] == buffer[j]
  {
    r := buffer;
    var i := lo;
    while i < hi
      invariant lo <= i <= hi && |r| == |buffer|
      invariant forall j :: lo <= j < i ==> r[j] == buffer[j + 1]
      invariant forall j :: 0 <= j < |r| && !(lo <= j < i) ==> r[j] == buffer[j]
    {
      r := r[i := r[i + 1]];
      i := i + 1;
    }
  }

  /** Copy `source[from .. to - 1]` over the slots of `dest` starting at `at`. */
  method Copy<T>(source: seq<T>, from: nat, to: nat, dest: seq<T>, at: nat) returns (r: seq<T>)
    requires from <= to <= |source| && at + (to - from) <= |dest|
    ensures |r| == |dest|
    ensures forall j :: 0 <= j < |r| ==> r[j] == if at <= j < at + (to - from) then source[from + (j - at)] else dest[j]
  {
    r := dest;
    var i := from;
    while i < to
      invariant from <= i <= to && |r| == |dest|
      invariant forall j :: 0 <= j < |r| ==> r[j] == if at <= j < at + (i - from) then source[from + (j - at)] else dest[j]
    {
      r := r[at + (i - from) := source[i]];
      i := i + 1;
    }
  }

  /** Put `x` in slot `i` of the first `n`, the rest moving up. */
  method InsertSlot<T>(buffer: seq<T>, n: nat, i: nat, x: T) returns (r: seq<T>)
    requires i <= n < |buffer|
    ensures |r| == |buffer| && r[..n + 1] == InsertAt(buffer[..n], i, x)
  {
    r := ShiftRight(buffer, i, n);
    r := r[i := x];
  }

  /** Close slot `i` of the first `n`, the rest moving down. */
  method DeleteSlot<T>(buffer: seq<T>, n: nat, i: nat) returns (r: seq<T>)
    requires i < n <= |buffer|
    ensures |r| == |buffer| && r[..n - 1] == RemoveAt(buffer[..n], i)
  {
    r := ShiftLeft(buffer, i, n - 1);
  }

  /** Copy what a full buffer would hold from slot `from` on, had `x` been put in slot `i`. */
  method CopyInserted<T>(source: seq<T>, n: nat, from: nat, i: nat, x: T, dest: seq<T>) returns (r: seq<T>)
    requires from <= i <= n <= |source| && n - from < |dest|
    ensures |r| == |dest| && r[..n + 1 - from] == InsertAt(source[..n], i, x)[from..]
  {
    r := Copy(source, from, i, dest, 0);
    r := r[i - from := x];
    r := Copy(source, i, n, r, i - from + 1);
  }

  method CopyTail<T>(source: seq<T>, from: nat, n: nat, dest: seq<T>) returns (r: seq<T>)
    requires from <= n <= |source| && n - from <= |dest|
    ensures |r| == |dest| && r[..n - from] == source[from..n]
  {
    r := Copy(source, from, n, dest, 0);
  }

  /** Move the first `n` slots up by one, leaving slot 0 to be written. */
  method OpenFront<T>(buffer: seq<T>, n: nat) returns (r: seq<T>)
    requires n < |buffer|
    ensures |r| == |buffer| && r[1..n + 1] == buffer[..n]
  {
    r := ShiftRight(buffer, 0, n);
  }

  /** Drop slot 0 of the first `n`. */
  method CloseFront<T>(buffer: seq<T>, n: nat) returns (r: seq<T>)
    requires 0 < n <= |buffer|
    ensures |r| == |buffer| && r[..n - 1] == buffer[1..n]
  {
    r := ShiftLeft(buffer, 0, n - 1);
  }

  /** Append `source[from .. to - 1]` to the first `n` slots of `dest`. */
  method Append<T>(source: seq<T>, from: nat, to: nat, dest: seq<T>, n: nat) returns (r: seq<T>)
    requires from <= to <= |source| && n + (to - from) <= |dest|
    ensures |r| == |dest| && r[..n + (to - from)] == dest[..n] + source[from..to]
  {
    r := Copy(source, from, to, dest, n);
  }

  lemma MapPutRemove<K, V>(m: map<K, V>, k: K, v: V)
    requires k !in m
    ensures m[k := v] - {k} == m
  {
  }

  lemma HeadAppended<T>(a: seq<T>, s: seq<T>, n: nat)
    requires 0 < n <= |s|
    ensures a + [s[0]] + s[1..n] == a + s[..n]
  {
  }

  ghost predicate NoDup<T>(s: seq<T>) {
    forall i, j :: 0 <= i < j < |s| ==> s[i] != s[j]
  }

  lemma InsertNoDup<T>(s: seq<T>, i: nat, x: T)
    requires i <= |s| && NoDup(s) && x !in s
    ensures NoDup(InsertAt(s, i, x))
  {
    var r := InsertAt(s, i, x);
    assert forall j :: 0 <= j < |r| ==> r[j] == if j < i then s[j] else if j == i then x else s[j - 1];
  }

  lemma RemoveNoDup<T>(s: seq<T>, i: nat)
    requires i < |s| && NoDup(s)
    ensures NoDup(RemoveAt(s, i))
  {
    var r := RemoveAt(s, i);
    assert forall j :: 0 <= j < |r| ==> r[j] == s[if j < i then j else j + 1];
  }

  // ---------------------------------------------------------------- sequences read as circles

  /** The index after `i` round a circle of `n`. */
  function Succ(i: nat, n: nat): (j: nat)
    requires i < n
    ensures j < n
  {
    if i + 1 == n then 0 else i + 1
  }

  /** Where the neighbours round `InsertAt(s, i, x)` come from. */
  lemma InsertCircle<T>(s: seq<T>, i: nat, x: T, j: nat)
    requires 0 < i <= |s| && j <= |s|
    ensures var r, n := InsertAt(s, i, x), |s|; var k := Succ(j, n + 1);
      if j == i then r[j] == x && r[k] == s[Succ(i - 1, n)]
      else if j == i - 1 then r[j] == s[i - 1] && r[k] == x
      else var a := if j < i then j else j - 1; a != i - 1 && r[j] == s[a] && r[k] == s[Succ(a, n)]
  {
  }

  /** Where the neighbours round `RemoveAt(s, i)` come from. */
  lemma RemoveCircle<T>(s: seq<T>, i: nat, j: nat)
    requires i < |s| && j < |s| - 1
    ensures var r, n := RemoveAt(s, i), |s|; var a := if j < i then j else j + 1; var k := Succ(j, n - 1); var b := if k < i then k else k + 1;
      && r[j] == s[a] && r[k] == s[b] && a != i && b != i
      && (if Succ(a, n) == i then b == Succ(i, n) else b == Succ(a, n))
  {
  }

  ghost function Elements<T>(s: seq<T>): set<T> {
    set x | x in s
  }

  lemma {:induction false} ElementsSize<T>(s: seq<T>)
    ensures |Elements(s)| <= |s| && (NoDup(s) ==> |Elements(s)| == |s|)
  {
    if s != [] {
      var n := |s| - 1;
      var init := s[..n];
      ElementsSize(init);
      assert Elements(s) == Elements(init) + {s[n]};
      assert NoDup(s) ==> NoDup(init) && s[n] !in init;
    }
  }
}
