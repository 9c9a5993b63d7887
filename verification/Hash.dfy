/** The chained hash table. */
module Hash {
  import opened Sequences

  datatype Option<T> = None | Some(value: T)

  datatype HashIndex = Invalid | Index(primaryIndex: nat, secondaryIndex: nat)

  class Node<K, D> {
    const key: K
    const data: D
    var next: Node?<K, D>

    constructor (key: K, data: D, next: Node?<K, D>)
      ensures this.key == key && this.data == data && this.next == next
    {
      this.key, this.data, this.next := key, data, next;
    }
  }

  // ---------------------------------------------------------------- what a chain holds

  function EntriesOf<K, D>(ns: seq<Node<K, D>>): (r: seq<(K, D)>)
    ensures |r| == |ns| && forall i :: 0 <= i < |ns| ==> r[i] == (ns[i].key, ns[i].data)
  {
    if ns == [] then [] else [(ns[0].key, ns[0].data)] + EntriesOf(ns[1..])
  }

  /** What was pushed under a key and not taken off again, the latest first. */
  function StackOf<K(==), D>(entries: seq<(K, D)>, key: K): (r: seq<D>)
    ensures r != [] <==> exists i :: 0 <= i < |entries| && entries[i].0 == key
  {
    if entries == [] then [] else
      var rest := StackOf(entries[1..], key);
      assert entries == [entries[0]] + entries[1..];
      if entries[0].0 == key then [entries[0].1] + rest else rest
  }

  ghost predicate First<K, D>(entries: seq<(K, D)>, i: nat, key: K) {
    i < |entries| && entries[i].0 == key && forall j :: 0 <= j < i ==> entries[j].0 != key
  }

  lemma {:induction false} StackPush<K, D>(entries: seq<(K, D)>, key: K, data: D, k: K)
    ensures StackOf([(key, data)] + entries, k) == if k == key then [data] + StackOf(entries, k) else StackOf(entries, k)
  {
    assert ([(key, data)] + entries)[1..] == entries;
  }

  lemma {:induction false} StackTop<K, D>(entries: seq<(K, D)>, i: nat, key: K)
    requires First(entries, i, key)
    ensures StackOf(entries, key) == [entries[i].1] + StackOf(RemoveAt(entries, i), key)
  {
    if i == 0 {
      assert RemoveAt(entries, 0) == entries[1..];
    } else {
      StackTop(entries[1..], i - 1, key);
      assert RemoveAt(entries, i)[1..] == RemoveAt(entries[1..], i - 1);
    }
  }

  lemma {:induction false} StackOther<K, D>(entries: seq<(K, D)>, i: nat, key: K)
    requires i < |entries| && entries[i].0 != key
    ensures StackOf(RemoveAt(entries, i), key) == StackOf(entries, key)
  {
    if i == 0 {
      assert RemoveAt(entries, 0) == entries[1..];
    } else {
      StackOther(entries[1..], i - 1, key);
      assert RemoveAt(entries, i)[1..] == RemoveAt(entries[1..], i - 1);
    }
  }

  /** How many entries the chains hold. */
  ghost function Total<K, D>(chains: seq<seq<Node<K, D>>>): nat {
    if chains == [] then 0 else Total(chains[..|chains| - 1]) + |chains[|chains| - 1]|
  }

  lemma {:induction false} TotalUpdate<K, D>(chains: seq<seq<Node<K, D>>>, b: nat, c: seq<Node<K, D>>)
    requires b < |chains|
    ensures Total(chains[b := c]) == Total(chains) - |chains[b]| + |c|
  {
    var last := |chains| - 1;
    if b < last {
      TotalUpdate(chains[..last], b, c);
      assert chains[b := c][..last] == chains[..last][b := c];
    } else {
      assert chains[b := c][..last] == chains[..last];
    }
  }

  lemma {:induction false} TotalEmpty<K, D>(chains: seq<seq<Node<K, D>>>)
    requires forall b :: 0 <= b < |chains| ==> chains[b] == []
    ensures Total(chains) == 0
  {
    if chains != [] {
      TotalEmpty(chains[..|chains| - 1]);
    }
  }

  // ---------------------------------------------------------------- the links

  /** What entry `i` of a chain is followed by. */
  ghost function Following<K, D>(ns: seq<Node<K, D>>, i: nat): Node?<K, D>
    requires i <= |ns|
  {
    if i < |ns| then ns[i] else null
  }

  ghost predicate Linked<K, D>(head: Node?<K, D>, ns: seq<Node<K, D>>)
    reads (set n | n in ns)`next
  {
    && head == Following(ns, 0)
    && forall i :: 0 <= i < |ns| ==> ns[i].next == Following(ns, i + 1)
  }

  /** Entry `i` leaves the chain; the one before it is joined to the one after. */
  method SkipOver<K, D>(last: Node<K, D>, node: Node<K, D>, ghost head: Node?<K, D>, ghost ns: seq<Node<K, D>>, ghost i: nat)
    requires Linked(head, ns) && NoDup(ns) && 0 < i < |ns| && last == ns[i - 1] && node == ns[i]
    modifies last`next
    ensures Linked(head, RemoveAt(ns, i))
  {
    last.next := node.next;
    ghost var r := RemoveAt(ns, i);
    forall j | 0 <= j < |r| ensures r[j].next == Following(r, j + 1) {
      assert r[j] == ns[if j < i then j else j + 1];
    }
    assert Following(r, 0) == Following(ns, 0);
  }

  lemma RemovedHead<K, D>(head: Node<K, D>, ns: seq<Node<K, D>>)
    requires Linked(head, ns)
    ensures ns != [] && head == ns[0] && RemoveAt(ns, 0) == ns[1..] && Linked(head.next, RemoveAt(ns, 0))
  {
    var r := RemoveAt(ns, 0);
    assert r == ns[1..];
    assert head.next == ns[0].next == Following(ns, 1) == Following(r, 0);
    forall j | 0 <= j < |r| ensures r[j].next == Following(r, j + 1) {
      assert r[j] == ns[j + 1];
    }
  }

  /** A chain holds the entries whose keys belong in bucket `b`. */
  ghost predicate Chain<K, D>(bucket: K -> nat, b: nat, head: Node?<K, D>, ns: seq<Node<K, D>>)
    reads (set n | n in ns)`next
  {
    Linked(head, ns) && NoDup(ns) && forall i :: 0 <= i < |ns| ==> bucket(ns[i].key) == b
  }

  ghost predicate Chained<K, D>(bucket: K -> nat, nodeList: seq<Node?<K, D>>, chains: seq<seq<Node<K, D>>>)
    reads (set b, n | 0 <= b < |chains| && n in chains[b] :: n)`next
  {
    |nodeList| == |chains| && forall b :: 0 <= b < |chains| ==> Chain(bucket, b, nodeList[b], chains[b])
  }

  lemma ChainAt<K, D>(bucket: K -> nat, nodeList: seq<Node?<K, D>>, chains: seq<seq<Node<K, D>>>, b: nat)
    requires Chained(bucket, nodeList, chains) && b < |chains|
    ensures |nodeList| == |chains| && Chain(bucket, b, nodeList[b], chains[b]) && Linked(nodeList[b], chains[b]) && NoDup(chains[b])
  {
  }

  lemma ChainSet<K, D>(bucket: K -> nat, nodeList: seq<Node?<K, D>>, chains: seq<seq<Node<K, D>>>, b: nat,
          head: Node?<K, D>, ns: seq<Node<K, D>>)
    requires Chained(bucket, nodeList, chains) && b < |chains| && Chain(bucket, b, head, ns)
    ensures |nodeList| == |chains| && Chained(bucket, nodeList[b := head], chains[b := ns])
  {
  }

  lemma NoChains<K, D>(bucket: K -> nat, n: nat)
    ensures Chained<K, D>(bucket, seq(n, _ => null), seq(n, _ => []))
  {
  }

  method NewHead<K, D>(bucket: K -> nat, b: nat, key: K, data: D, head: Node?<K, D>, ghost ns: seq<Node<K, D>>) returns (n: Node<K, D>)
    requires Chain(bucket, b, head, ns) && bucket(key) == b
    ensures fresh(n) && n.key == key && n.data == data && Chain(bucket, b, n, [n] + ns)
  {
    n := new Node(key, data, head);
    ghost var r := [n] + ns;
    forall j | 0 <= j < |r| ensures r[j].next == Following(r, j + 1) {
      assert j > 0 ==> r[j] == ns[j - 1];
    }
  }

  lemma HeadGone<K, D>(bucket: K -> nat, b: nat, head: Node<K, D>, ns: seq<Node<K, D>>)
    requires Chain(bucket, b, head, ns)
    ensures ns != [] && head == ns[0] && Chain(bucket, b, head.next, RemoveAt(ns, 0))
  {
    RemovedHead(head, ns);
    RemoveNoDup(ns, 0);
    var r := RemoveAt(ns, 0);
    assert forall j :: 0 <= j < |r| ==> r[j] == ns[j + 1];
  }

  /** Skipping an entry of one chain leaves the other chains alone, since none of its entries is in them. */
  method SkipInChain<K, D>(last: Node<K, D>, node: Node<K, D>, ghost bucket: K -> nat, ghost b: nat,
          ghost nodeList: seq<Node?<K, D>>, ghost chains: seq<seq<Node<K, D>>>, ghost i: nat)
    requires Chained(bucket, nodeList, chains) && b < |chains| && 0 < i < |chains[b]| && last == chains[b][i - 1] && node == chains[b][i]
    modifies last`next
    ensures Chained(bucket, nodeList, chains[b := RemoveAt(chains[b], i)])
  {
    hide *;
    ghost var ns := chains[b];
    ChainAt(bucket, nodeList, chains, b);
    OtherChains(bucket, nodeList, chains, b, last, i - 1);
    SkipOver(last, node, nodeList[b], ns, i);
    ChainLess(bucket, b, nodeList[b], ns, i);
    ChainsWith(bucket, nodeList, chains, b, RemoveAt(ns, i));
  }

  /** An entry of one chain is in no other. */
  lemma OtherChains<K, D>(bucket: K -> nat, nodeList: seq<Node?<K, D>>, chains: seq<seq<Node<K, D>>>, b: nat, n: Node<K, D>, i: nat)
    requires Chained(bucket, nodeList, chains) && b < |chains| && i < |chains[b]| && n == chains[b][i]
    ensures |nodeList| == |chains| && bucket(n.key) == b && forall j :: 0 <= j < |chains[b]| ==> bucket(chains[b][j].key) == b
    ensures forall c :: 0 <= c < |chains| && c != b ==> Chain(bucket, c, nodeList[c], chains[c]) && n !in chains[c]
  {
    hide Linked, NoDup;
    forall c | 0 <= c < |chains| && c != b ensures Chain(bucket, c, nodeList[c], chains[c]) && n !in chains[c] {
      assert bucket(n.key) == b;
    }
  }

  lemma ChainLess<K, D>(bucket: K -> nat, b: nat, head: Node?<K, D>, ns: seq<Node<K, D>>, i: nat)
    requires i < |ns| && Linked(head, RemoveAt(ns, i)) && NoDup(ns) && forall j :: 0 <= j < |ns| ==> bucket(ns[j].key) == b
    ensures Chain(bucket, b, head, RemoveAt(ns, i))
  {
    hide Linked;
    RemoveNoDup(ns, i);
    hide NoDup;
    var r := RemoveAt(ns, i);
    assert forall j :: 0 <= j < |r| ==> r[j] == ns[if j < i then j else j + 1];
  }

  lemma ChainsWith<K, D>(bucket: K -> nat, nodeList: seq<Node?<K, D>>, chains: seq<seq<Node<K, D>>>, b: nat, ns: seq<Node<K, D>>)
    requires b < |chains| == |nodeList| && Chain(bucket, b, nodeList[b], ns)
    requires forall c :: 0 <= c < |chains| && c != b ==> Chain(bucket, c, nodeList[c], chains[c])
    ensures Chained(bucket, nodeList, chains[b := ns])
  {
    hide Chain;
  }

  // ---------------------------------------------------------------- the table

  class Hash<K(==, !new), D> {
    const hashSize: nat
    const hashFunction: K -> nat
    /** Empty until the first entry is pushed. */
    var nodeList: seq<Node?<K, D>>
    var size: nat
    ghost var chains: seq<seq<Node<K, D>>>
    ghost var repr: set<Node<K, D>>

    function Bucket(key: K): (b: nat)
    {
      if hashSize == 0 then 0 else hashFunction(key) % hashSize
    }

    ghost predicate Valid()
      reads this, repr
    {
      && hashSize > 0 && (|chains| == 0 || |chains| == hashSize) && size == Total(chains)
      && (forall b, n :: 0 <= b < |chains| && n in chains[b] ==> n in repr)
      && Chained(Bucket, nodeList, chains)
    }

    /** The entries of one chain, in order. */
    ghost function Entries(b: nat): seq<(K, D)>
      reads this
    {
      if b < |chains| then EntriesOf(chains[b]) else []
    }

    ghost function Stack(key: K): seq<D>
      reads this
    {
      StackOf(Entries(Bucket(key)), key)
    }

    constructor (hashSize: nat, hashFunction: K -> nat)
      requires hashSize > 0
      ensures Valid() && size == 0 && fresh(repr) && this.hashSize == hashSize && this.hashFunction == hashFunction
      ensures forall k :: Stack(k) == []
    {
      this.hashSize, this.hashFunction, nodeList, size, chains, repr := hashSize, hashFunction, [], 0, [], {};
    }

    lemma Open()
      requires Valid()
      ensures hashSize > 0 && |nodeList| == |chains| && (|chains| == 0 || |chains| == hashSize)
      ensures size == Total(chains) && Chained(Bucket, nodeList, chains)
      ensures forall b, n :: 0 <= b < |chains| && n in chains[b] ==> n in repr
      ensures forall k :: Bucket(k) == hashFunction(k) % hashSize < hashSize
    {
    }

    method Allocate()
      requires Valid() && |nodeList| == 0
      modifies this`nodeList, this`chains
      ensures Valid() && |chains| == hashSize && size == 0 && forall b :: Entries(b) == old(Entries(b))
    {
      nodeList := seq(hashSize, _ => null);
      chains := seq(hashSize, _ => []);
      TotalEmpty(chains);
      NoChains<K, D>(Bucket, hashSize);
    }

    /** One chain is replaced. */
    method SetChain(b: nat, head: Node?<K, D>, ghost ns: seq<Node<K, D>>, newSize: nat, ghost newRepr: set<Node<K, D>>)
      requires hashSize > 0 && |chains| == hashSize == |nodeList| && b < hashSize && newSize == Total(chains[b := ns])
      requires Chained(Bucket, nodeList[b := head], chains[b := ns])
      requires (forall b, n :: 0 <= b < |chains| && n in chains[b] ==> n in repr) && repr <= newRepr && forall n :: n in ns ==> n in newRepr
      modifies this
      ensures Valid() && size == newSize && repr == newRepr && |chains| == |old(chains)|
      ensures forall c :: Entries(c) == if c == b then EntriesOf(ns) else old(Entries(c))
    {
      nodeList := nodeList[b := head];
      chains, repr := chains[b := ns], newRepr;
      size := newSize;
    }

    method Push(key: K, input: D)
      requires Valid()
      modifies this
      ensures Valid() && fresh(repr - old(repr)) && size == old(size) + 1
      ensures forall b :: Entries(b) == if b == Bucket(key) then [(key, input)] + old(Entries(b)) else old(Entries(b))
      ensures forall k :: Stack(k) == if k == key then [input] + old(Stack(k)) else old(Stack(k))
    {
      hide Valid, Chained, Chain, Linked, Total, EntriesOf, StackOf, Bucket, NoDup;
      Open();
      var hashIndex := hashFunction(key) % hashSize;
      if |nodeList| == 0 {
        Allocate();
        Open();
      }
      ChainAt(Bucket, nodeList, chains, hashIndex);
      ghost var ns := chains[hashIndex];
      var newNode := NewHead(Bucket, hashIndex, key, input, nodeList[hashIndex], ns);
      TotalUpdate(chains, hashIndex, [newNode] + ns);
      ChainSet(Bucket, nodeList, chains, hashIndex, newNode, [newNode] + ns);
      EntriesPushed(newNode, ns);
      SetChain(hashIndex, newNode, [newNode] + ns, size + 1, repr + {newNode});
      forall k ensures Stack(k) == if k == key then [input] + old(Stack(k)) else old(Stack(k)) {
        StackPush(old(Entries(Bucket(k))), key, input, k);
      }
    }

    /** The latest entry under the key. */
    method Peek(key: K) returns (r: Option<D>)
      requires Valid()
      ensures r == if Stack(key) == [] then None else Some(Stack(key)[0])
    {
      hide Valid, Chained, Chain, Linked, Total, EntriesOf, StackOf, Bucket, NoDup;
      Open();
      NoneThere(key);
      if |nodeList| == 0 {
        return None;
      }
      var hashIndex := hashFunction(key) % hashSize;
      ChainAt(Bucket, nodeList, chains, hashIndex);
      ghost var ns, i := chains[hashIndex], 0;
      var node := nodeList[hashIndex];
      StartOfChain(node, ns, key);
      while node != null
        invariant Seen(node, ns, i, key)
        decreases |ns| - i
      {
        AlongChain(node, ns, i, key);
        if node.key == key {
          StackTop(EntriesOf(ns), i, key);
          return Some(node.data);
        }
        node := node.next;
        i := i + 1;
      }
      EndOfChain(ns, i, key);
      r := None;
    }

    /** Where the latest entry under the key is. */
    method GetIndexOf(key: K) returns (idx: HashIndex)
      requires Valid()
      ensures idx.Invalid? <==> Stack(key) == []
      ensures idx.Index? ==> idx.primaryIndex == Bucket(key) < |chains| == |nodeList| && First(Entries(Bucket(key)), idx.secondaryIndex, key)
    {
      hide Valid, Chained, Chain, Linked, Total, EntriesOf, StackOf, Bucket, NoDup;
      Open();
      NoneThere(key);
      if |nodeList| == 0 {
        return Invalid;
      }
      var primaryIndex := hashFunction(key) % hashSize;
      ChainAt(Bucket, nodeList, chains, primaryIndex);
      ghost var ns := chains[primaryIndex];
      var node := nodeList[primaryIndex];
      StartOfChain(node, ns, key);
      var secondaryIndex := 0;
      while node != null
        invariant Seen(node, ns, secondaryIndex, key)
        decreases |ns| - secondaryIndex
      {
        AlongChain(node, ns, secondaryIndex, key);
        if node.key == key {
          StackTop(EntriesOf(ns), secondaryIndex, key);
          return Index(primaryIndex, secondaryIndex);
        }
        node := node.next;
        secondaryIndex := secondaryIndex + 1;
      }
      EndOfChain(ns, secondaryIndex, key);
      idx := Invalid;
    }

    lemma NoneThere(key: K)
      ensures |chains| == 0 ==> Stack(key) == []
    {
    }

    /** Every entry of one chain goes. */
    method ClearIndex(index: nat)
      requires Valid() && index < |nodeList|
      modifies this
      ensures Valid() && repr == old(repr) && |chains| == |old(chains)| && size == old(size) - |old(Entries(index))|
      ensures forall b :: Entries(b) == if b == index then [] else old(Entries(b))
    {
      hide Valid, Chained, Chain, Linked, Total, EntriesOf, Bucket, NoDup;
      Open();
      ChainAt(Bucket, nodeList, chains, index);
      ghost var ns := chains[index];
      TotalUpdate(chains, index, []);
      EmptyChain(Bucket, index, ns);
      var newSize := CountOff(nodeList[index], size, ns);
      ChainSet(Bucket, nodeList, chains, index, null, []);
      SetChain(index, null, [], newSize, repr);
    }

    /** The first entry of a chain goes. */
    method RemoveHead(index: nat, node: Node<K, D>)
      requires Valid() && index < |nodeList| && nodeList[index] == node
      modifies this
      ensures Valid() && repr == old(repr) && |chains| == |old(chains)| && size == old(size) - 1 && |old(Entries(index))| > 0
      ensures forall b :: Entries(b) == if b == index then RemoveAt(old(Entries(b)), 0) else old(Entries(b))
    {
      hide Valid, Chained, Chain, Linked, Total, EntriesOf, Bucket, NoDup, RemoveAt;
      Open();
      ChainAt(Bucket, nodeList, chains, index);
      ghost var ns := chains[index];
      HeadGone(Bucket, index, node, ns);
      EntriesRemoved(ns, 0);
      TotalUpdate(chains, index, RemoveAt(ns, 0));
      ChainSet(Bucket, nodeList, chains, index, node.next, RemoveAt(ns, 0));
      SetChain(index, node.next, RemoveAt(ns, 0), size - 1, repr);
    }

    /** A later entry of a chain goes. */
    method RemoveNext(index: nat, last: Node<K, D>, node: Node<K, D>, ghost i: nat)
      requires Valid() && index < |chains| && 0 < i < |chains[index]| && last == chains[index][i - 1] && node == chains[index][i]
      modifies this, repr
      ensures Valid() && repr == old(repr) && |chains| == |old(chains)| && size == old(size) - 1 && i < |old(Entries(index))|
      ensures forall b :: Entries(b) == if b == index then RemoveAt(old(Entries(b)), i) else old(Entries(b))
    {
      hide Valid, Chained, Chain, Linked, Total, EntriesOf, Bucket, NoDup, RemoveAt;
      Open();
      ghost var ns := chains[index];
      EntriesRemoved(ns, i);
      TotalUpdate(chains, index, RemoveAt(ns, i));
      SkipInChain(last, node, Bucket, index, nodeList, chains, i);
      ChainSame(Bucket, nodeList, chains, index, RemoveAt(ns, i));
      SetChain(index, nodeList[index], RemoveAt(ns, i), size - 1, repr);
    }

    /** The latest entry under the key is taken off; every other entry keeps its place. */
    method Pop(key: K) returns (out: Option<D>, ghost at: nat)
      requires Valid()
      modifies this, repr
      ensures Valid() && repr == old(repr)
      ensures out == if old(Stack(key)) == [] then None else Some(old(Stack(key))[0])
      ensures out == None ==> size == old(size) && forall b :: Entries(b) == old(Entries(b))
      ensures out != None ==> size == old(size) - 1 && First(old(Entries(Bucket(key))), at, key)
      ensures out != None ==> forall b :: Entries(b) == if b == Bucket(key) then RemoveAt(old(Entries(b)), at) else old(Entries(b))
      ensures forall k :: Stack(k) == if k == key && out != None then old(Stack(k))[1..] else old(Stack(k))
    {
      hide Valid, Chained, Chain, Linked, Total, EntriesOf, StackOf, Bucket, NoDup, RemoveAt, First;
      Open();
      NoneThere(key);
      at := 0;
      if |nodeList| == 0 {
        return None, 0;
      }
      var hashIndex := hashFunction(key) % hashSize;
      ChainAt(Bucket, nodeList, chains, hashIndex);
      ghost var ns := chains[hashIndex];
      ghost var entries := EntriesOf(ns);
      var node := nodeList[hashIndex];
      StartOfChain(node, ns, key);
      if node == null {
        EndOfChain(ns, 0, key);
        return None, 0;
      }
      AlongChain(node, ns, 0, key);
      if node.next == null {
        Alone(ns);
        if node.key == key {
          out := Some(node.data);
          ClearIndex(hashIndex);
        } else {
          EndOfChain(ns, 1, key);
          return None, 0;
        }
      } else if node.key == key {
        out := Some(node.data);
        RemoveHead(hashIndex, node);
      } else {
        var last, later;
        last, later, at := FindLater(node, key, ns);
        if later == null {
          EndOfChain(ns, at, key);
          return None, 0;
        }
        AlongChain(later, ns, at, key);
        out := Some(later.data);
        RemoveNext(hashIndex, last, later, at);
      }
      forall k ensures Stack(k) == if k == key then old(Stack(k))[1..] else old(Stack(k)) {
        StackGone(entries, at, key, k);
      }
      StackGone(entries, at, key, key);
    }

    /** The entry an index names is taken off; the others keep their places. */
    method RemoveAtIndex(index: HashIndex) returns (removed: bool)
      requires Valid() && (index.Index? ==> index.primaryIndex < |nodeList| && index.secondaryIndex < |Entries(index.primaryIndex)|)
      modifies this, repr
      ensures Valid() && repr == old(repr) && removed == index.Index?
      ensures !removed ==> size == old(size) && forall b :: Entries(b) == old(Entries(b))
      ensures removed ==> size == old(size) - 1
      ensures removed ==> forall b :: Entries(b) == if b == index.primaryIndex then RemoveAt(old(Entries(b)), index.secondaryIndex) else old(Entries(b))
    {
      hide Valid, Chained, Chain, Linked, Total, EntriesOf, Bucket, NoDup, RemoveAt;
      if index.Invalid? {
        return false;
      }
      Open();
      var primaryIndex, secondaryIndex := index.primaryIndex, index.secondaryIndex;
      ChainAt(Bucket, nodeList, chains, primaryIndex);
      ghost var ns := chains[primaryIndex];
      var node := nodeList[primaryIndex];
      LinkedStart(node, ns);
      if node == null {
        return false;
      }
      removed := true;
      if node.next == null {
        Alone(ns);
        ClearIndex(primaryIndex);
      } else if secondaryIndex == 0 {
        RemoveHead(primaryIndex, node);
      } else {
        var last;
        last, node := StepTo(node, secondaryIndex, ns);
        RemoveNext(primaryIndex, last, node, secondaryIndex);
      }
    }

    /** The same entry goes as by popping. */
    method Remove(key: K) returns (removed: bool)
      requires Valid()
      modifies this, repr
      ensures Valid() && repr == old(repr) && removed == (old(Stack(key)) != []) && size == old(size) - if removed then 1 else 0
      ensures forall k :: Stack(k) == if k == key && removed then old(Stack(k))[1..] else old(Stack(k))
    {
      hide Valid, Chained, EntriesOf, StackOf, Bucket, RemoveAt, First;
      var index := GetIndexOf(key);
      ghost var entries := Entries(Bucket(key));
      if index.Index? {
        FirstIn(entries, index.secondaryIndex, key);
      }
      removed := RemoveAtIndex(index);
      if removed {
        forall k ensures Stack(k) == if k == key then old(Stack(k))[1..] else old(Stack(k)) {
          StackGone(entries, index.secondaryIndex, key, k);
        }
      }
    }
  }

  lemma EntriesPushed<K, D>(n: Node<K, D>, ns: seq<Node<K, D>>)
    ensures EntriesOf([n] + ns) == [(n.key, n.data)] + EntriesOf(ns)
  {
    assert ([n] + ns)[1..] == ns;
  }

  /** A walk along the chain has reached entry `i` and not met the key. */
  ghost predicate Seen<K, D>(node: Node?<K, D>, ns: seq<Node<K, D>>, i: nat, key: K)
    reads (set n | n in ns)`next
  {
    i <= |ns| && node == Following(ns, i) && (forall j :: 0 <= j < i ==> ns[j].key != key)
    && forall j :: 0 <= j < |ns| ==> ns[j].next == Following(ns, j + 1)
  }

  lemma StartOfChain<K, D>(head: Node?<K, D>, ns: seq<Node<K, D>>, key: K)
    requires Linked(head, ns)
    ensures Seen(head, ns, 0, key)
  {
  }

  lemma AlongChain<K, D>(node: Node<K, D>, ns: seq<Node<K, D>>, i: nat, key: K)
    requires Seen(node, ns, i, key)
    ensures i < |ns| && node == ns[i] && EntriesOf(ns)[i] == (node.key, node.data) && node.next == Following(ns, i + 1)
    ensures node.key != key ==> Seen(node.next, ns, i + 1, key)
    ensures node.key == key ==> First(EntriesOf(ns), i, key)
  {
  }

  lemma EndOfChain<K, D>(ns: seq<Node<K, D>>, i: nat, key: K)
    requires Seen(null, ns, i, key)
    ensures StackOf(EntriesOf(ns), key) == []
  {
  }

  /** The size once every entry of a chain has been taken off. */
  method CountOff<K, D>(head: Node?<K, D>, size: nat, ghost ns: seq<Node<K, D>>) returns (newSize: nat)
    requires Linked(head, ns) && |ns| <= size
    ensures newSize == size - |ns|
  {
    var node := head;
    newSize := size;
    ghost var i := 0;
    while node != null
      invariant i <= |ns| && newSize == size - i && node == Following(ns, i)
      decreases |ns| - i
    {
      node := node.next;
      newSize := newSize - 1;
      i := i + 1;
    }
  }

  lemma EmptyChain<K, D>(bucket: K -> nat, b: nat, ns: seq<Node<K, D>>)
    ensures Chain<K, D>(bucket, b, null, []) && EntriesOf<K, D>([]) == [] && |EntriesOf(ns)| == |ns|
  {
  }

  lemma EntriesRemoved<K, D>(ns: seq<Node<K, D>>, i: nat)
    requires i < |ns|
    ensures EntriesOf(RemoveAt(ns, i)) == RemoveAt(EntriesOf(ns), i) && |EntriesOf(ns)| == |ns|
    ensures forall n :: n in RemoveAt(ns, i) ==> n in ns
  {
    hide EntriesOf;
    var r, e := RemoveAt(ns, i), RemoveAt(EntriesOf(ns), i);
    assert forall j :: 0 <= j < |r| ==> r[j] == ns[if j < i then j else j + 1] && e[j] == EntriesOf(ns)[if j < i then j else j + 1];
    assert |EntriesOf(r)| == |e| && forall j :: 0 <= j < |e| ==> EntriesOf(r)[j] == e[j];
  }

  lemma ChainSame<K, D>(bucket: K -> nat, nodeList: seq<Node?<K, D>>, chains: seq<seq<Node<K, D>>>, b: nat, ns: seq<Node<K, D>>)
    requires b < |chains| && Chained(bucket, nodeList, chains[b := ns])
    ensures |nodeList| == |chains| && nodeList[b := nodeList[b]] == nodeList
  {
  }

  /** Past a first entry that does not match, the next that does, and the one before it. */
  method FindLater<K(==), D>(first: Node<K, D>, key: K, ghost ns: seq<Node<K, D>>)
    returns (last: Node<K, D>, node: Node?<K, D>, ghost at: nat)
    requires Seen(first.next, ns, 1, key) && ns[0] == first
    ensures 1 <= at <= |ns| && last == ns[at - 1] && Seen(node, ns, at, key) && (node != null ==> node.key == key)
  {
    last, node, at := first, first.next, 1;
    while node != null && node.key != key
      invariant Seen(node, ns, at, key) && 1 <= at <= |ns| && last == ns[at - 1]
      decreases |ns| - at
    {
      AlongChain(node, ns, at, key);
      last := node;
      node := node.next;
      at := at + 1;
    }
  }

  /** Entry `index`, and the one before it. */
  method StepTo<K, D>(first: Node<K, D>, index: nat, ghost ns: seq<Node<K, D>>) returns (last: Node<K, D>, node: Node<K, D>)
    requires Linked(first, ns) && 0 < index < |ns|
    ensures last == ns[index - 1] && node == ns[index]
  {
    LinkedNext(first, ns, 0);
    last, node := first, first.next;
    var secondaryIndex := index - 1;
    while secondaryIndex != 0
      invariant 0 <= secondaryIndex < index && last == ns[index - secondaryIndex - 1] && node == ns[index - secondaryIndex]
    {
      LinkedNext(first, ns, index - secondaryIndex);
      last := node;
      node := node.next;
      secondaryIndex := secondaryIndex - 1;
    }
  }

  lemma FirstIn<K, D>(entries: seq<(K, D)>, i: nat, key: K)
    requires First(entries, i, key)
    ensures i < |entries|
  {
  }

  /** Taking the first entry under a key takes the top of its stack and nothing of any other. */
  lemma StackGone<K, D>(entries: seq<(K, D)>, i: nat, key: K, k: K)
    requires First(entries, i, key)
    ensures i < |entries| && StackOf(entries, key) == [entries[i].1] + StackOf(RemoveAt(entries, i), key)
    ensures StackOf(entries, key)[0] == entries[i].1 && StackOf(RemoveAt(entries, i), key) == StackOf(entries, key)[1..]
    ensures k != key ==> StackOf(RemoveAt(entries, i), k) == StackOf(entries, k)
  {
    StackTop(entries, i, key);
    if k != key {
      StackOther(entries, i, k);
    }
  }

  /** A chain whose first entry has none after it. */
  lemma Alone<K, D>(ns: seq<Node<K, D>>)
    requires ns != [] && Following(ns, 1) == null
    ensures |ns| == |EntriesOf(ns)| == 1 && RemoveAt(EntriesOf(ns), 0) == []
  {
  }

  lemma LinkedStart<K, D>(head: Node?<K, D>, ns: seq<Node<K, D>>)
    requires Linked(head, ns)
    ensures |EntriesOf(ns)| == |ns| && (head == null <==> ns == [])
    ensures head != null ==> head == ns[0] && head.next == Following(ns, 1)
  {
  }

  lemma LinkedNext<K, D>(head: Node?<K, D>, ns: seq<Node<K, D>>, i: nat)
    requires Linked(head, ns) && i + 1 < |ns|
    ensures ns[i].next == ns[i + 1]
  {
  }
}
