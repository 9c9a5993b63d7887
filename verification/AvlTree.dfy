/** The search tree in its nodes: the walk down, the insertion, the rotations, and the walk back up that balances. */
module AvlTree {
  import opened SearchTree

  ghost function Top(t: Tree): Node? {
    if t.Empty? then null else t.node
  }

  ghost function Nodes(t: Tree): set<Node> {
    if t.Empty? then {} else Nodes(t.left) + {t.node} + Nodes(t.right)
  }

  ghost predicate Distinct(t: Tree) {
    t.Fork? ==> t.node !in Nodes(t.left) && t.node !in Nodes(t.right) && Nodes(t.left) !! Nodes(t.right) && Distinct(t.left) && Distinct(t.right)
  }

  /** Every node of `t` holds its item and points to its children. */
  ghost predicate Rep(t: Tree)
    reads Nodes(t)`item, Nodes(t)`left, Nodes(t)`right
  {
    t.Fork? ==> t.node.item == t.item && t.node.left == Top(t.left) && t.node.right == Top(t.right) && Rep(t.left) && Rep(t.right)
  }

  /** The nodes outside the subtree at `k`. */
  ghost function Outer(t: Tree, k: int): set<Node> {
    if t.Empty? || k == t.item then {}
    else if k < t.item then {t.node} + Nodes(t.right) + Outer(t.left, k)
    else {t.node} + Nodes(t.left) + Outer(t.right, k)
  }

  ghost predicate AtTop(t: Tree, k: int) {
    t.Empty? || k == t.item
  }

  /** The nodes whose `left` and `right` do not point to the subtree at `k`. */
  ghost function LeftOuter(t: Tree, k: int): set<Node> {
    if AtTop(t, k) then {} else Outer(t, k) - if OnLeft(t, k) then {Above(t, k).node} else {}
  }

  ghost function RightOuter(t: Tree, k: int): set<Node> {
    if AtTop(t, k) then {} else Outer(t, k) - if OnLeft(t, k) then {} else {Above(t, k).node}
  }

  /** All of `t` is in place but for the subtree at `k` and the pointer to it. */
  ghost predicate But(t: Tree, k: int)
    requires Distinct(t)
    reads Outer(t, k)`item, LeftOuter(t, k)`left, RightOuter(t, k)`right
  {
    AboveOuter(t, k);
    if AtTop(t, k) then true
    else if k < t.item then
      && t.node.item == t.item && t.node.right == Top(t.right) && Rep(t.right) && But(t.left, k)
      && (!AtTop(t.left, k) ==> t.node.left == Top(t.left))
    else
      && t.node.item == t.item && t.node.left == Top(t.left) && Rep(t.left) && But(t.right, k)
      && (!AtTop(t.right, k) ==> t.node.right == Top(t.right))
  }

  lemma {:induction false} AboveOuter(t: Tree, k: int)
    ensures !AtTop(t, k) ==> Above(t, k).node in Outer(t, k) && Outer(t, k) <= Nodes(t)
    ensures !AtTop(t, k) && k < t.item && !AtTop(t.left, k) ==> Above(t, k) == Above(t.left, k) && Above(t, k).node in Nodes(t.left)
    ensures !AtTop(t, k) && k > t.item && !AtTop(t.right, k) ==> Above(t, k) == Above(t.right, k) && Above(t, k).node in Nodes(t.right)
    ensures !AtTop(t, k) && k < t.item && AtTop(t.left, k) ==> Above(t, k) == t
    ensures !AtTop(t, k) && k > t.item && AtTop(t.right, k) ==> Above(t, k) == t
  {
    if !AtTop(t, k) && k < t.item {
      AboveOuter(t.left, k);
    } else if !AtTop(t, k) {
      AboveOuter(t.right, k);
    }
  }

  /** A tree in place is its surroundings in place, and the subtree, and the pointer between them. */
  lemma {:induction false} Parted(t: Tree, k: int)
    requires Distinct(t) && Rep(t)
    ensures But(t, k) && Rep(At(t, k)) && Distinct(At(t, k)) && Nodes(At(t, k)) <= Nodes(t) && Nodes(At(t, k)) !! Outer(t, k)
    ensures !AtTop(t, k) ==> var p := Above(t, k).node; (if OnLeft(t, k) then p.left else p.right) == Top(At(t, k))
  {
    AboveOuter(t, k);
    if !AtTop(t, k) && k < t.item {
      Parted(t.left, k);
    } else if !AtTop(t, k) {
      Parted(t.right, k);
    }
  }

  /** And back, with another subtree. */
  lemma {:induction false} Joined(t: Tree, k: int, s: Tree)
    requires Distinct(t) && But(t, k) && Rep(s)
    requires !AtTop(t, k) ==> var p := Above(t, k).node; (if OnLeft(t, k) then p.left else p.right) == Top(s)
    ensures Rep(Replace(t, k, s)) && Top(Replace(t, k, s)) == if AtTop(t, k) then Top(s) else Top(t)
  {
    AboveOuter(t, k);
    if !AtTop(t, k) && k < t.item {
      Joined(t.left, k, s);
    } else if !AtTop(t, k) {
      Joined(t.right, k, s);
    }
  }

  lemma {:induction false} ReplacedNodes(t: Tree, k: int, s: Tree)
    requires Distinct(t) && Distinct(s) && Nodes(s) !! Outer(t, k)
    ensures Distinct(Replace(t, k, s)) && Nodes(Replace(t, k, s)) == Outer(t, k) + Nodes(s)
  {
    AboveOuter(t, k);
    if !AtTop(t, k) && k < t.item {
      OuterWithin(t.left, k);
      ReplacedNodes(t.left, k, s);
    } else if !AtTop(t, k) {
      OuterWithin(t.right, k);
      ReplacedNodes(t.right, k, s);
    }
  }

  lemma {:induction false} OuterWithin(t: Tree, k: int)
    ensures Nodes(t) == Outer(t, k) + Nodes(At(t, k))
  {
    if !AtTop(t, k) && k < t.item {
      OuterWithin(t.left, k);
    } else if !AtTop(t, k) {
      OuterWithin(t.right, k);
    }
  }

  // ---------------------------------------------------------------- looking

  datatype Direction = NOT_FOUND | LEFT | RIGHT | ROOT

  /** What a search for `element` sets its three results to. */
  ghost predicate Looked(t: Tree, element: int, current: Node?, parent: Node?, direction: Direction) {
    && current == Top(At(t, element))
    && (At(t, element).Empty? <==> direction == NOT_FOUND)
    && (At(t, element).Fork? && element == t.item ==> parent == null && direction == ROOT)
    && (At(t, element).Fork? && element != t.item ==>
          parent == Above(t, element).node && direction == if OnLeft(t, element) then LEFT else RIGHT)
  }

  method Find(root: Node?, element: int, ghost t: Tree) returns (current: Node?, parent: Node?, direction: Direction)
    requires Rep(t) && Top(t) == root
    ensures Looked(t, element, current, parent, direction) && Rep(t)
  {
    current, parent, direction := root, null, ROOT;
    if root == null {
      direction := NOT_FOUND;
      return;
    }
    if element == current.item {
      return;
    }
    ghost var sub := t;
    while true
      invariant sub.Fork? && current == sub.node && Rep(sub) && element != sub.item && element != t.item
      invariant At(t, element) == At(sub, element) && Above(t, element) == Above(sub, element)
      decreases sub
    {
      ghost var was := sub;
      parent := current;
      if element < current.item {
        direction, current, sub := LEFT, current.left, sub.left;
      } else {
        direction, current, sub := RIGHT, current.right, sub.right;
      }
      if current == null {
        break;
      }
      if element == current.item {
        return;
      }
    }
    direction := NOT_FOUND;
    current := null;
  }

  function HeightRecursive(current: Node, ghost t: Tree): (h: nat)
    requires t.Fork? && t.node == current && Rep(t)
    reads Nodes(t)`item, Nodes(t)`left, Nodes(t)`right
    ensures h == Height(t)
    decreases t
  {
    if current.left == null && current.right == null then 1
    else
      var left_height := if current.left != null then 1 + HeightRecursive(current.left, t.left) else 0;
      var right_height := if current.right != null then 1 + HeightRecursive(current.right, t.right) else 0;
      if left_height > right_height then left_height else right_height
  }

  function HeightOf(node: Node?, ghost t: Tree): (h: nat)
    requires Top(t) == node && Rep(t)
    reads Nodes(t)`item, Nodes(t)`left, Nodes(t)`right
    ensures h == Height(t)
  {
    if node == null then 0 else HeightRecursive(node, t)
  }

  // ---------------------------------------------------------------- turning

  ghost function AboveNode(t: Tree, k: int): Node? {
    if AtTop(t, k) then null else Above(t, k).node
  }

  ghost predicate PointsTo(t: Tree, k: int, n: Node?)
    reads (if AtTop(t, k) then {} else {Above(t, k).node})`left, (if AtTop(t, k) then {} else {Above(t, k).node})`right
  {
    !AtTop(t, k) ==> (if OnLeft(t, k) then Above(t, k).node.left else Above(t, k).node.right) == n
  }

  /** The pointer from above to the subtree at `k` is redirected. */
  method Redirect(a: Node?, onLeft: bool, n: Node?, ghost t: Tree, ghost k: int, ghost s: Tree)
    requires Distinct(t) && But(t, k) && a == AboveNode(t, k) && (!AtTop(t, k) ==> (onLeft <==> OnLeft(t, k)))
    requires Rep(s) && Nodes(s) !! Outer(t, k)
    modifies (if a == null then {} else {a})`left, (if a == null then {} else {a})`right
    ensures But(t, k) && PointsTo(t, k, n) && Rep(s)
  {
    AboveOuter(t, k);
    OuterSides(t, k);
    hide But, Rep, Outer, Above, Distinct, OnLeft, LeftOuter, RightOuter;
    if a != null {
      if onLeft {
        a.left := n;
      } else {
        a.right := n;
      }
    }
  }

  method TurnLeft(b: Node, c: Node, ghost t: Tree, ghost k: int, ghost s: Tree)
    requires Distinct(t) && But(t, k) && PointsTo(t, k, c) && AboveOuterFact(t, k)
    requires Rep(s) && Distinct(s) && s.Fork? && s.right.Fork? && s.node == b && s.right.node == c && Nodes(s) !! Outer(t, k)
    modifies b`right, c`left
    ensures But(t, k) && PointsTo(t, k, c) && Rep(RotatedLeft(s))
  {
    assert b in Nodes(s) && c in Nodes(s);
    OuterSides(t, k);
    hide But, PointsTo, Outer, Above, OnLeft, LeftOuter, RightOuter;
    b.right := c.left;
    c.left := b;
  }

  lemma OuterSides(t: Tree, k: int)
    ensures LeftOuter(t, k) <= Outer(t, k) && RightOuter(t, k) <= Outer(t, k)
    ensures !AtTop(t, k) && OnLeft(t, k) ==> Above(t, k).node !in LeftOuter(t, k)
    ensures !AtTop(t, k) && !OnLeft(t, k) ==> Above(t, k).node !in RightOuter(t, k)
  {
  }

  ghost predicate AboveOuterFact(t: Tree, k: int) {
    !AtTop(t, k) ==> Above(t, k).node in Outer(t, k)
  }

  method TurnRight(b: Node, c: Node, ghost t: Tree, ghost k: int, ghost s: Tree)
    requires Distinct(t) && But(t, k) && PointsTo(t, k, c) && AboveOuterFact(t, k)
    requires Rep(s) && Distinct(s) && s.Fork? && s.left.Fork? && s.node == b && s.left.node == c && Nodes(s) !! Outer(t, k)
    modifies b`left, c`right
    ensures But(t, k) && PointsTo(t, k, c) && Rep(RotatedRight(s))
  {
    assert b in Nodes(s) && c in Nodes(s);
    OuterSides(t, k);
    hide But, PointsTo, Outer, Above, OnLeft, LeftOuter, RightOuter;
    b.left := c.right;
    c.right := b;
  }

  /** The children of the subtree at `b` are found under it. */
  lemma {:induction false} ChildKeys(t: Tree, b: int)
    requires Sorted(t) && b in Items(t)
    ensures At(t, b).Fork? && At(t, b).item == b && (AtTop(t, b) <==> b == t.item)
    ensures At(t, b).right.Fork? ==> var c := At(t, b).right.item;
      At(t, c) == At(t, b).right && c != t.item && c in Items(t) && Above(t, c) == At(t, b) && !OnLeft(t, c)
    ensures At(t, b).left.Fork? ==> var c := At(t, b).left.item;
      At(t, c) == At(t, b).left && c != t.item && c in Items(t) && Above(t, c) == At(t, b) && OnLeft(t, c)
  {
    if b < t.item {
      ChildKeys(t.left, b);
    } else if b > t.item {
      ChildKeys(t.right, b);
    }
  }

  lemma RotatedNodes(s: Tree)
    requires s.Fork? && Distinct(s)
    ensures s.right.Fork? ==> Distinct(RotatedLeft(s)) && Nodes(RotatedLeft(s)) == Nodes(s)
    ensures s.left.Fork? ==> Distinct(RotatedRight(s)) && Nodes(RotatedRight(s)) == Nodes(s)
  {
  }

  /** `t1` is stored, and is `t` with the subtree at `b` replaced by `s`, in the same nodes. */
  ghost predicate Turned(t: Tree, b: int, s: Tree, t1: Tree, root1: Node?)
    reads Nodes(t1)
  {
    t1 == Replace(t, b, s) && Rep(t1) && Distinct(t1) && Nodes(t1) == Nodes(t) && Top(t1) == root1
  }

  lemma TurnedIntro(t: Tree, b: int, s: Tree, root1: Node?)
    requires Distinct(t) && But(t, b) && Rep(s) && PointsTo(t, b, Top(s))
    requires Distinct(s) && Nodes(s) == Nodes(At(t, b)) && Nodes(s) !! Outer(t, b)
    requires root1 == if AtTop(t, b) then Top(s) else Top(t)
    ensures Turned(t, b, s, Replace(t, b, s), root1)
  {
    Joined(t, b, s);
    ReplacedNodes(t, b, s);
    OuterWithin(t, b);
  }

  lemma AboveOuterIs(t: Tree, k: int)
    ensures AboveOuterFact(t, k) && (!AtTop(t, k) ==> Above(t, k).node in Nodes(t))
    ensures AboveNode(t, k) == if AtTop(t, k) then null else Above(t, k).node
  {
    AboveOuter(t, k);
  }

  lemma FoundParent(t: Tree, c: int, cur: Node?, p: Node?, d: Direction)
    requires Looked(t, c, cur, p, d) && At(t, c).Fork? && c != t.item
    ensures p == Above(t, c).node
  {
  }

  lemma FoundAbove(t: Tree, b: int, cur: Node?, p: Node?, d: Direction)
    requires Looked(t, b, cur, p, d) && At(t, b).Fork? && (AtTop(t, b) <==> b == t.item)
    ensures p == AboveNode(t, b) && (!AtTop(t, b) ==> (d == LEFT <==> OnLeft(t, b)))
  {
  }

  lemma NodeItem(t: Tree, k: int)
    requires Rep(t) && Distinct(t) && At(t, k).Fork?
    ensures At(t, k).node.item == At(t, k).item && At(t, k).node in Nodes(t)
  {
    Parted(t, k);
  }

  method RotateLeft(root: Node?, c: Node, ghost t: Tree, ghost b: int) returns (root1: Node?, ghost t1: Tree)
    requires Rep(t) && Distinct(t) && Sorted(t) && Top(t) == root && b in Items(t)
    requires At(t, b).Fork? && At(t, b).right.Fork? && At(t, b).right.node == c
    modifies Nodes(t)`left, Nodes(t)`right
    ensures Turned(t, b, RotatedLeft(At(t, b)), t1, root1)
  {
    hide *;
    ghost var s := At(t, b);
    RotationReady(t, b);
    var current, bNode, direction := Find(root, c.item, t);
    FoundParent(t, c.item, current, bNode, direction);
    NodeItem(t, b);
    var a;
    current, a, direction := Find(root, bNode.item, t);
    FoundAbove(t, b, current, a, direction);
    Parted(t, b);
    Redirect(a, direction == LEFT, c, t, b, s);
    root1 := if a != null then root else c;
    TurnLeft(bNode, c, t, b, s);
    t1 := Replace(t, b, RotatedLeft(s));
    TurnedIntro(t, b, RotatedLeft(s), root1);
  }

  method RotateRight(root: Node?, c: Node, ghost t: Tree, ghost b: int) returns (root1: Node?, ghost t1: Tree)
    requires Rep(t) && Distinct(t) && Sorted(t) && Top(t) == root && b in Items(t)
    requires At(t, b).Fork? && At(t, b).left.Fork? && At(t, b).left.node == c
    modifies Nodes(t)`left, Nodes(t)`right
    ensures Turned(t, b, RotatedRight(At(t, b)), t1, root1)
  {
    hide *;
    ghost var s := At(t, b);
    RotationReady(t, b);
    var current, bNode, direction := Find(root, c.item, t);
    FoundParent(t, c.item, current, bNode, direction);
    NodeItem(t, b);
    var a;
    current, a, direction := Find(root, bNode.item, t);
    FoundAbove(t, b, current, a, direction);
    Parted(t, b);
    Redirect(a, direction == LEFT, c, t, b, s);
    root1 := if a != null then root else c;
    TurnRight(bNode, c, t, b, s);
    t1 := Replace(t, b, RotatedRight(s));
    TurnedIntro(t, b, RotatedRight(s), root1);
  }

  /** Everything a rotation about the subtree at `b` needs to know beforehand. */
  lemma RotationReady(t: Tree, b: int)
    requires Rep(t) && Distinct(t) && Sorted(t) && b in Items(t)
    ensures var s := At(t, b);
      && s.Fork? && s.item == b && s.node.item == b && s.node in Nodes(t) && (AtTop(t, b) <==> b == t.item) && AboveOuterFact(t, b)
      && (AboveNode(t, b) == null <==> AtTop(t, b)) && (AboveNode(t, b) != null ==> AboveNode(t, b) in Nodes(t))
      && (s.right.Fork? ==>
            && s.right.node.item == s.right.item && At(t, s.right.item).Fork? && s.right.item != t.item && Above(t, s.right.item).node == s.node
            && s.right.node in Nodes(t) && Distinct(RotatedLeft(s)) && Nodes(RotatedLeft(s)) == Nodes(s) && Top(RotatedLeft(s)) == s.right.node)
      && (s.left.Fork? ==>
            && s.left.node.item == s.left.item && At(t, s.left.item).Fork? && s.left.item != t.item && Above(t, s.left.item).node == s.node
            && s.left.node in Nodes(t) && Distinct(RotatedRight(s)) && Nodes(RotatedRight(s)) == Nodes(s) && Top(RotatedRight(s)) == s.left.node)
  {
    var s := At(t, b);
    ChildKeys(t, b);
    NodeItem(t, b);
    AboveOuter(t, b);
    Parted(t, b);
    RotatedNodes(s);
    if s.right.Fork? {
      NodeItem(t, s.right.item);
    }
    if s.left.Fork? {
      NodeItem(t, s.left.item);
    }
  }

  // ---------------------------------------------------------------- adding a leaf

  method NewLeaf(input: int, ghost t: Tree, ghost own: set<Node>) returns (n: Node)
    requires Rep(t) && own == Nodes(t)
    ensures fresh(n) && n !in own && n.item == input && n.left == null && n.right == null && Rep(t)
  {
    hide *;
    n := new Node(input);
  }

  lemma {:induction false} InsertIsReplace(t: Tree, n: Node, x: int)
    requires Sorted(t)
    ensures At(t, x).Empty? <==> x !in Items(t)
    ensures At(t, x).Empty? ==> Insert(t, n, x) == Replace(t, x, Fork(n, Empty, x, Empty))
  {
    if t.Fork? && x < t.item {
      InsertIsReplace(t.left, n, x);
    } else if t.Fork? && x > t.item {
      InsertIsReplace(t.right, n, x);
    }
  }

  /** Where a new leaf for `input` goes: under which node, and on which side; or that the item is there already. */
  method FindSpot(root: Node, input: int, ghost t: Tree) returns (spot: Node?, onLeft: bool)
    requires Rep(t) && Top(t) == root
    ensures spot == null ==> At(t, input).Fork?
    ensures spot != null ==> At(t, input).Empty? && spot == AboveNode(t, input) && !AtTop(t, input) && (onLeft <==> OnLeft(t, input))
    ensures Rep(t)
  {
    var current := root;
    ghost var sub := t;
    while true
      invariant sub.Fork? && current == sub.node && Rep(sub) && At(t, input) == At(sub, input)
      invariant !AtTop(sub, input) ==> !AtTop(t, input) && Above(t, input) == Above(sub, input)
      decreases sub
    {
      if input < current.item {
        if current.left == null {
          return current, true;
        }
        current, sub := current.left, sub.left;
      } else if input > current.item {
        if current.right == null {
          return current, false;
        }
        current, sub := current.right, sub.right;
      } else {
        return null, false;
      }
    }
  }

  /** The plain insertion: a new leaf, or nothing if the item is there already. */
  method AddLeaf(root: Node?, input: int, ghost t: Tree) returns (root1: Node?, current: Node?, ghost t1: Tree)
    requires Rep(t) && Distinct(t) && Sorted(t) && Top(t) == root
    modifies Nodes(t)`left, Nodes(t)`right
    ensures current == null <==> input in Items(t)
    ensures current == null ==> root1 == root && t1 == t && Rep(t)
    ensures current != null ==>
      && fresh(current) && current.item == input && t1 == Insert(t, current, input) && Rep(t1) && Distinct(t1)
      && Nodes(t1) == Nodes(t) + {current} && Top(t1) == root1
  {
    hide *;
    root1, current, t1 := root, null, t;
    if root == null {
      EmptyTop(t);
      current := NewLeaf(input, t, Nodes(t));
      root1 := current;
      LeafRep(t, current, input);
      t1 := Insert(t, current, input);
      return;
    }
    var spot, onLeft := FindSpot(root, input, t);
    ForkTop(t, input);
    if spot != null {
      current := NewLeaf(input, t, Nodes(t));
      ForkTop(t, input);
      Parted(t, input);
      AboveOuterIs(t, input);
      LeafTree(current, input, t);
      ghost var leaf := Fork(current, Empty, input, Empty);
      Redirect(spot, onLeft, current, t, input, leaf);
      InsertIsReplace(t, current, input);
      LeafJoined(t, input, current);
      t1 := Insert(t, current, input);
    }
  }

  lemma EmptyTop(t: Tree)
    requires Top(t) == null
    ensures t == Empty && Items(t) == {} && Nodes(t) == {}
  {
  }

  lemma LeafRep(t: Tree, n: Node, x: int)
    requires t == Empty && n.item == x && n.left == null && n.right == null
    ensures var t1 := Insert(t, n, x); Rep(t1) && Distinct(t1) && Nodes(t1) == Nodes(t) + {n} && Top(t1) == n
  {
  }

  lemma ForkTop(t: Tree, x: int)
    requires Sorted(t)
    ensures At(t, x).Empty? <==> x !in Items(t)
  {
    if t.Fork? {
      InsertIsReplace(t, t.node, x);
    }
  }

  lemma LeafTree(n: Node, x: int, t: Tree)
    requires n.item == x && n.left == null && n.right == null && n !in Nodes(t)
    ensures var leaf := Fork(n, Empty, x, Empty); Rep(leaf) && Distinct(leaf) && Nodes(leaf) == {n} && Nodes(leaf) !! Outer(t, x)
  {
    OuterWithin(t, x);
  }

  lemma LeafJoined(t: Tree, x: int, n: Node)
    requires Distinct(t) && But(t, x) && At(t, x).Empty? && !AtTop(t, x) && n !in Nodes(t)
    requires var leaf := Fork(n, Empty, x, Empty); Rep(leaf) && PointsTo(t, x, n) && Insert(t, n, x) == Replace(t, x, leaf)
    ensures var t1 := Insert(t, n, x); Rep(t1) && Distinct(t1) && Nodes(t1) == Nodes(t) + {n} && Top(t1) == Top(t)
  {
    var leaf := Fork(n, Empty, x, Empty);
    OuterWithin(t, x);
    Joined(t, x, leaf);
    ReplacedNodes(t, x, leaf);
  }

  // ---------------------------------------------------------------- balancing

  predicate RightHigher(a: Node, ghost t: Tree)
    requires t.Fork? && t.node == a && Rep(t)
    reads Nodes(t)`item, Nodes(t)`left, Nodes(t)`right
    ensures RightHigher(a, t) <==> Height(t.right) > Height(t.left)
  {
    HeightOf(a.right, t.right) > HeightOf(a.left, t.left)
  }

  predicate LeftHigher(a: Node, ghost t: Tree)
    requires t.Fork? && t.node == a && Rep(t)
    reads Nodes(t)`item, Nodes(t)`left, Nodes(t)`right
    ensures LeftHigher(a, t) <==> Height(t.left) > Height(t.right)
  {
    HeightOf(a.left, t.left) > HeightOf(a.right, t.right)
  }

  /** A child replaced, and then its parent with it. */
  lemma {:induction false} ReplaceChild(t: Tree, k: int, c: int, s: Tree, r: Tree)
    requires Sorted(t) && k in Items(t) && At(t, k).Fork?
    requires (At(t, k).right.Fork? && c == At(t, k).right.item) || (At(t, k).left.Fork? && c == At(t, k).left.item)
    ensures Replace(Replace(t, c, s), k, r) == Replace(t, k, r)
    ensures At(Replace(t, c, s), k) == if c > k then At(t, k).(right := s) else At(t, k).(left := s)
    ensures Replace(t, c, s).Fork? && At(t, k).item == k && c in Items(t)
  {
    ChildKeys(t, k);
    if k < t.item {
      ReplaceChild(t.left, k, c, s, r);
    } else if k > t.item {
      ReplaceChild(t.right, k, c, s, r);
    }
  }

  lemma TurnedParts(t: Tree, b: int, s: Tree, t1: Tree, root1: Node?)
    requires Turned(t, b, s, t1, root1)
    ensures t1 == Replace(t, b, s) && Rep(t1) && Distinct(t1) && Nodes(t1) == Nodes(t) && Top(t1) == root1
  {
  }

  lemma TurnedTwice(t: Tree, k: int, r: Tree, t2: Tree, root2: Node?, t1: Tree)
    requires Turned(t1, k, r, t2, root2) && Nodes(t1) == Nodes(t) && Replace(t1, k, r) == Replace(t, k, r)
    ensures Turned(t, k, r, t2, root2)
  {
  }

  /** Turning the right child right first changes neither order nor contents. */
  lemma FirstTurn(t: Tree, k: int)
    requires Sorted(t) && k in Items(t) && At(t, k).Fork?
    ensures At(t, k).right.Fork? && At(t, k).right.left.Fork? ==>
      var c := At(t, k).right.item; var x := RotatedRight(At(t, k).right);
      Sorted(Replace(t, c, x)) && Items(Replace(t, c, x)) == Items(t) && c > k && At(t, c) == At(t, k).right && c in Items(t)
    ensures At(t, k).left.Fork? && At(t, k).left.right.Fork? ==>
      var c := At(t, k).left.item; var x := RotatedLeft(At(t, k).left);
      Sorted(Replace(t, c, x)) && Items(Replace(t, c, x)) == Items(t) && c < k && At(t, c) == At(t, k).left && c in Items(t)
  {
    ChildKeys(t, k);
    AtFound(t, k);
    if At(t, k).right.Fork? && At(t, k).right.left.Fork? {
      RotationItems(At(t, k).right);
      ReplaceItems(t, At(t, k).right.item, RotatedRight(At(t, k).right));
    }
    if At(t, k).left.Fork? && At(t, k).left.right.Fork? {
      RotationItems(At(t, k).left);
      ReplaceItems(t, At(t, k).left.item, RotatedLeft(At(t, k).left));
    }
  }

  method DoubleRotateLeft(root: Node?, a: Node, ghost t: Tree, ghost k: int) returns (root1: Node?, ghost t1: Tree)
    requires Rep(t) && Distinct(t) && Sorted(t) && Top(t) == root && k in Items(t)
    requires At(t, k).Fork? && At(t, k).node == a && At(t, k).right.Fork? && At(t, k).right.left.Fork?
    modifies Nodes(t)`left, Nodes(t)`right
    ensures Turned(t, k, RotatedLeft(At(t, k).(right := RotatedRight(At(t, k).right))), t1, root1)
  {
    hide *;
    ghost var s := At(t, k);
    ghost var c, x := s.right.item, RotatedRight(s.right);
    FirstTurn(t, k);
    ReplaceChild(t, k, c, x, RotatedLeft(s.(right := x)));
    StoredAt(t, k);
    root1, t1 := RotateRight(root, a.right.left, t, c);
    TurnedParts(t, c, x, t1, root1);
    ghost var t0 := t1;
    StoredAt(t0, k);
    root1, t1 := RotateLeft(root1, a.right, t0, k);
    TurnedTwice(t, k, RotatedLeft(s.(right := x)), t1, root1, t0);
  }

  method DoubleRotateRight(root: Node?, a: Node, ghost t: Tree, ghost k: int) returns (root1: Node?, ghost t1: Tree)
    requires Rep(t) && Distinct(t) && Sorted(t) && Top(t) == root && k in Items(t)
    requires At(t, k).Fork? && At(t, k).node == a && At(t, k).left.Fork? && At(t, k).left.right.Fork?
    modifies Nodes(t)`left, Nodes(t)`right
    ensures Turned(t, k, RotatedRight(At(t, k).(left := RotatedLeft(At(t, k).left))), t1, root1)
  {
    hide *;
    ghost var s := At(t, k);
    ghost var c, x := s.left.item, RotatedLeft(s.left);
    FirstTurn(t, k);
    ReplaceChild(t, k, c, x, RotatedRight(s.(left := x)));
    StoredAt(t, k);
    root1, t1 := RotateLeft(root, a.left.right, t, c);
    TurnedParts(t, c, x, t1, root1);
    ghost var t0 := t1;
    StoredAt(t0, k);
    root1, t1 := RotateRight(root1, a.left, t0, k);
    TurnedTwice(t, k, RotatedRight(s.(left := x)), t1, root1, t0);
  }

  /** What the nodes at and below `k` hold. */
  lemma StoredAt(t: Tree, k: int)
    requires Rep(t) && Distinct(t) && At(t, k).Fork?
    ensures var s := At(t, k);
      && Rep(s) && s.node.item == s.item && s.node.left == Top(s.left) && s.node.right == Top(s.right)
      && (s.right.Fork? ==> s.right.node == s.node.right && s.right.node.left == Top(s.right.left) && (s.right.left.Fork? ==> s.right.node.left == s.right.left.node))
      && (s.left.Fork? ==> s.left.node == s.node.left && s.left.node.right == Top(s.left.right) && (s.left.right.Fork? ==> s.left.node.right == s.left.right.node))
  {
    Parted(t, k);
  }

  /** The balancing step at one node that is out of level. */
  method Rebalance(root: Node?, current: Node, difference: int, ghost t: Tree, ghost k: int) returns (root1: Node?, ghost t1: Tree)
    requires Rep(t) && Distinct(t) && Sorted(t) && Top(t) == root && k in Items(t) && At(t, k).Fork? && At(t, k).node == current
    requires difference == Height(At(t, k).right) - Height(At(t, k).left) && (difference == 2 || difference == -2)
    requires difference == 2 ==> At(t, k).right.Fork? && Height(At(t, k).right.left) != Height(At(t, k).right.right)
    requires difference == -2 ==> At(t, k).left.Fork? && Height(At(t, k).left.left) != Height(At(t, k).left.right)
    modifies Nodes(t)`left, Nodes(t)`right
    ensures Turned(t, k, Rebalanced(At(t, k)), t1, root1)
  {
    hide *;
    ghost var s := At(t, k);
    StoredAt(t, k);
    RebalancedIs(s);
    if difference == 2 {
      SubtreeRep(s);
      if RightHigher(current.right, s.right) {
        root1, t1 := RotateLeft(root, current.right, t, k);
      } else {
        root1, t1 := DoubleRotateLeft(root, current, t, k);
      }
    } else {
      SubtreeRep(s);
      if LeftHigher(current.left, s.left) {
        root1, t1 := RotateRight(root, current.left, t, k);
      } else {
        root1, t1 := DoubleRotateRight(root, current, t, k);
      }
    }
  }

  lemma SubtreeRep(s: Tree)
    requires s.Fork? && Rep(s)
    ensures Rep(s.left) && Rep(s.right) && s.node.left == Top(s.left) && s.node.right == Top(s.right)
  {
  }

  lemma RebalancedIs(s: Tree)
    requires s.Fork? && (Height(s.right) - Height(s.left) == 2 || Height(s.right) - Height(s.left) == -2)
    requires Height(s.right) - Height(s.left) == 2 ==> s.right.Fork? && Height(s.right.left) != Height(s.right.right)
    requires Height(s.right) - Height(s.left) == -2 ==> s.left.Fork? && Height(s.left.left) != Height(s.left.right)
    ensures Height(s.right) - Height(s.left) == 2 ==>
      if Height(s.right.right) > Height(s.right.left) then Rebalanced(s) == RotatedLeft(s)
      else s.right.left.Fork? && Rebalanced(s) == RotatedLeft(s.(right := RotatedRight(s.right)))
    ensures Height(s.right) - Height(s.left) == -2 ==>
      if Height(s.left.left) > Height(s.left.right) then Rebalanced(s) == RotatedRight(s)
      else s.left.right.Fork? && Rebalanced(s) == RotatedRight(s.(left := RotatedLeft(s.left)))
  {
  }

  /** The number of steps from the subtree at `k` to the top. */
  ghost function Depth(t: Tree, k: int): nat {
    if AtTop(t, k) then 0 else 1 + if k < t.item then Depth(t.left, k) else Depth(t.right, k)
  }

  lemma {:induction false} DepthUp(t: Tree, k: int)
    requires Sorted(t) && k in Items(t) && k != t.item
    ensures Depth(t, Above(t, k).item) < Depth(t, k) && Above(t, k).item in Items(t)
  {
    if k < t.item && t.left.item != k {
      DepthUp(t.left, k);
    } else if k > t.item && t.right.item != k {
      DepthUp(t.right, k);
    }
  }

  /** The tree after an insertion, while the balancing walk stands at `k`: everything below is level. */
  ghost predicate Walking(t0: Tree, n: Node, x: int, t: Tree, k: int) {
    && Sorted(t0) && Balanced(t0) && x !in Items(t0) && t == Insert(t0, n, x) && OnPath(t, k, x) && (k != x ==> OnPath(t0, k, x))
    && At(t, k).Fork? && Balanced(At(t, k).left) && Balanced(At(t, k).right)
  }

  /** What the balancing walk ends with: nothing was out of level, or the lowest node that was is put right. */
  ghost predicate Walked(t0: Tree, n: Node, x: int, t1: Tree) {
    var t := Insert(t0, n, x);
    && Balanced(t1) && Sorted(t1) && Items(t1) == Items(t0) + {x}
    && (t1 == t || exists k :: OnPath(t0, k, x) && Lowest(t, k) && t1 == Replace(t, k, Rebalanced(At(t, k))))
  }

  /** The subtree at `k` is out of level and both its children are balanced. */
  ghost predicate Lowest(t: Tree, k: int) {
    At(t, k).Fork? && Balanced(At(t, k).left) && Balanced(At(t, k).right)
    && (Height(At(t, k).right) - Height(At(t, k).left) == 2 || Height(At(t, k).right) - Height(At(t, k).left) == -2)
  }

  lemma WalkStart(t0: Tree, n: Node, x: int)
    requires Sorted(t0) && Balanced(t0) && x !in Items(t0)
    ensures Walking(t0, n, x, Insert(t0, n, x), x) && At(Insert(t0, n, x), x).Fork? && At(Insert(t0, n, x), x).node == n
  {
    PathEnd(t0, n, x, x);
    if OnPath(t0, x, x) {
      PathIn(t0, x, x);
    }
  }

  /** A node found out of level: it was there before, its taller child is taller on one side, and turning it ends the walk. */
  lemma WalkTurns(t0: Tree, n: Node, x: int, t: Tree, k: int)
    requires Walking(t0, n, x, t, k) && !Level(At(t, k))
    ensures Sorted(t) && k in Items(t) && Lowest(t, k)
    ensures var s := At(t, k);
      && (Height(s.right) - Height(s.left) == 2 ==> s.right.Fork? && Height(s.right.left) != Height(s.right.right))
      && (Height(s.right) - Height(s.left) == -2 ==> s.left.Fork? && Height(s.left.left) != Height(s.left.right))
      && Walked(t0, n, x, Replace(t, k, Rebalanced(s)))
  {
    hide *;
    WalkingParts(t0, n, x, t, k);
    InsertItems(t0, n, x);
    PathIn(t, k, x);
    AtInsert(t0, n, x, k);
    AtBalanced(t0, k);
    TurnBack(At(t0, k), n, x);
    BalancedAbove(t0, n, x, k, Rebalanced(At(t, k)));
    AtFound(t, k);
    RebalancedItems(At(t, k));
    ReplaceItems(t, k, Rebalanced(At(t, k)));
    WalkEnds(t0, n, x, t, k);
  }

  lemma WalkingParts(t0: Tree, n: Node, x: int, t: Tree, k: int)
    requires Walking(t0, n, x, t, k) && !Level(At(t, k))
    ensures Sorted(t0) && Balanced(t0) && x !in Items(t0) && t == Insert(t0, n, x) && OnPath(t, k, x) && OnPath(t0, k, x)
    ensures At(t, k).Fork? && Balanced(At(t, k).left) && Balanced(At(t, k).right)
  {
    PathEnd(t0, n, x, x);
    if OnPath(t0, x, x) {
      PathIn(t0, x, x);
    }
  }

  lemma WalkEnds(t0: Tree, n: Node, x: int, t: Tree, k: int)
    requires t == Insert(t0, n, x) && OnPath(t0, k, x) && At(t, k).Fork? && Balanced(At(t, k).left) && Balanced(At(t, k).right)
    requires Height(At(t, k).right) - Height(At(t, k).left) == 2 || Height(At(t, k).right) - Height(At(t, k).left) == -2
    requires var t1 := Replace(t, k, Rebalanced(At(t, k))); Balanced(t1) && Sorted(t1) && Items(t1) == Items(t0) + {x}
    ensures Lowest(t, k) && Walked(t0, n, x, Replace(t, k, Rebalanced(At(t, k))))
  {
  }

  lemma TurnBack(s0: Tree, n: Node, x: int)
    requires s0.Fork? && Balanced(s0)
    requires var s := Insert(s0, n, x); Balanced(s.left) && Balanced(s.right) && !Level(s)
    ensures var s := Insert(s0, n, x);
      && (Height(s.right) - Height(s.left) == 2 || Height(s.right) - Height(s.left) == -2)
      && (Height(s.right) - Height(s.left) == 2 ==> s.right.Fork? && Height(s.right.left) != Height(s.right.right))
      && (Height(s.right) - Height(s.left) == -2 ==> s.left.Fork? && Height(s.left.left) != Height(s.left.right))
      && Balanced(Rebalanced(s)) && Height(Rebalanced(s)) == Height(s0)
  {
    RebalancedLevel(s0, n, x);
    InsertHeight(s0.left, n, x);
    InsertHeight(s0.right, n, x);
  }

  lemma RebalancedItems(s: Tree)
    requires s.Fork? && Sorted(s) && (Height(s.right) - Height(s.left) == 2 || Height(s.right) - Height(s.left) == -2)
    ensures Items(Rebalanced(s)) == Items(s) && Sorted(Rebalanced(s))
  {
    RotationItems(s);
    if s.right.Fork? {
      RotationItems(s.right);
      if s.right.left.Fork? {
        RotationItems(s.(right := RotatedRight(s.right)));
      }
    }
    if s.left.Fork? {
      RotationItems(s.left);
      if s.left.right.Fork? {
        RotationItems(s.(left := RotatedLeft(s.left)));
      }
    }
  }

  lemma WalkUp(t0: Tree, n: Node, x: int, t: Tree, k: int)
    requires Walking(t0, n, x, t, k) && Level(At(t, k))
    ensures Sorted(t) && t.Fork? && k in Items(t)
    ensures k == t.item ==> Walked(t0, n, x, t)
    ensures k != t.item ==> Walking(t0, n, x, t, Above(t, k).item) && At(t, Above(t, k).item) == Above(t, k) && Depth(t, Above(t, k).item) < Depth(t, k)
  {
    InsertItems(t0, n, x);
    PathIn(t, k, x);
    if k != t.item {
      StepUp(t0, n, x, k);
      DepthUp(t, k);
      PathEnd(t0, n, x, Above(t, k).item);
    }
  }

  /** From the new leaf up, until a node out of level has been put right or the root has been passed. */
  method BalanceTree(root: Node, leaf: Node, ghost t0: Tree, ghost x: int, ghost t: Tree) returns (root1: Node?, ghost t1: Tree)
    requires Rep(t) && Distinct(t) && Top(t) == root && Walking(t0, leaf, x, t, x) && At(t, x).Fork? && At(t, x).node == leaf
    modifies Nodes(t)`left, Nodes(t)`right
    ensures Rep(t1) && Distinct(t1) && Nodes(t1) == Nodes(t) && Top(t1) == root1 && Walked(t0, leaf, x, t1)
  {
    hide *;
    root1, t1 := root, t;
    var current := leaf;
    ghost var k := x;
    while true
      invariant Rep(t) && Walking(t0, leaf, x, t, k) && At(t, k).Fork? && At(t, k).node == current && root1 == root && t1 == t
      decreases Depth(t, k)
    {
      ghost var s := At(t, k);
      StoredAt(t, k);
      SubtreeRep(s);
      var left_height: int, right_height: int := HeightOf(current.left, s.left), HeightOf(current.right, s.right);
      LevelIs(t0, leaf, x, t, k);
      if right_height - left_height == 2 || right_height - left_height == -2 {
        WalkTurns(t0, leaf, x, t, k);
        root1, t1 := Rebalance(root, current, right_height - left_height, t, k);
        TurnedParts(t, k, Rebalanced(s), t1, root1);
        break;
      }
      WalkUp(t0, leaf, x, t, k);
      TopItem(t, k);
      if current == root {
        break;
      }
      var cur, parent, direction := Find(root, current.item, t);
      ChildKeys(t, k);
      FoundParent(t, k, cur, parent, direction);
      current, k := parent, Above(t, k).item;
    }
  }

  lemma LevelIs(t0: Tree, n: Node, x: int, t: Tree, k: int)
    requires Walking(t0, n, x, t, k)
    ensures Level(At(t, k)) <==> !(Height(At(t, k).right) - Height(At(t, k).left) == 2 || Height(At(t, k).right) - Height(At(t, k).left) == -2)
    ensures Sorted(t) && k in Items(t) && At(t, k).item == k
  {
    InsertItems(t0, n, x);
    PathIn(t, k, x);
    AtFound(t, k);
    if !Level(At(t, k)) {
      WalkTurns(t0, n, x, t, k);
    }
  }

  /** A node is the root just when its item is. */
  lemma TopItem(t: Tree, k: int)
    requires Rep(t) && Distinct(t) && Sorted(t) && k in Items(t) && t.Fork? && At(t, k).Fork?
    ensures At(t, k).node == Top(t) <==> k == t.item
  {
    ChildKeys(t, k);
    NodeItem(t, k);
  }

  class AVLBalancedBinarySearchTree {
    var root: Node?
    var size: nat
    ghost var shape: Tree
    ghost var repr: set<Node>

    /** The nodes store a search tree of `size` items, balanced at every node. */
    ghost predicate Valid()
      reads this, repr
    {
      repr == Nodes(shape) && Rep(shape) && Distinct(shape) && Sorted(shape) && Balanced(shape) && root == Top(shape) && size == |Items(shape)|
    }

    ghost function Contents(): set<int>
      reads this
    {
      Items(shape)
    }

    constructor ()
      ensures Valid() && Contents() == {} && repr == {}
    {
      root, size, shape, repr := null, 0, Empty, {};
    }

    /** Add an item the tree does not hold; an item it holds is left alone. */
    method Add(input: int)
      requires Valid()
      modifies this, repr
      ensures Valid() && Contents() == old(Contents()) + {input} && fresh(repr - old(repr))
      ensures input in old(Contents()) ==> shape == old(shape) && root == old(root)
      ensures input !in old(Contents()) ==> exists n :: Walked(old(shape), n, input, shape)
    {
      hide *;
      Open();
      ghost var t0 := shape;
      var current;
      ghost var t;
      root, current, t := AddLeaf(root, input, t0);
      if current != null {
        WalkStart(t0, current, input);
        InsertTop(t0, current, input);
        ghost var own := Nodes(t);
        ghost var t1;
        root, t1 := BalanceTree(root, current, t0, input, t);
        WalkedParts(t0, current, input, t1);
        size := size + 1;
        shape, repr := t1, own;
      } else {
        Present(Contents(), input);
      }
      Close();
    }

    method IsIn(input: int) returns (found: bool)
      requires Valid()
      ensures found <==> input in Contents()
    {
      Open();
      var current, parent, direction := Find(root, input, shape);
      found := direction != NOT_FOUND;
      ForkTop(shape, input);
    }

    lemma Open()
      requires Valid()
      ensures Rep(shape) && Distinct(shape) && Sorted(shape) && Balanced(shape) && root == Top(shape) && repr == Nodes(shape)
      ensures size == |Contents()| && Contents() == Items(shape)
    {
    }

    lemma Close()
      requires Rep(shape) && Distinct(shape) && Sorted(shape) && Balanced(shape) && root == Top(shape) && repr == Nodes(shape)
      requires size == |Items(shape)|
      ensures Valid() && Contents() == Items(shape)
    {
    }
  }

  lemma Present(s: set<int>, x: int)
    ensures x in s ==> s + {x} == s
  {
  }

  lemma InsertTop(t0: Tree, n: Node, x: int)
    ensures Insert(t0, n, x).Fork? && Top(Insert(t0, n, x)) != null
  {
  }

  lemma WalkedParts(t0: Tree, n: Node, x: int, t1: Tree)
    requires Walked(t0, n, x, t1) && x !in Items(t0)
    ensures Balanced(t1) && Sorted(t1) && Items(t1) == Items(t0) + {x} && |Items(t1)| == |Items(t0)| + 1
  {
  }
}
