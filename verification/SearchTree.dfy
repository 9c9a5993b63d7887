/** The abstract shape of a binary search tree, its heights and rotations, and why one rotation after an insertion restores balance. */
module SearchTree {
  class Node {
    var item: int
    var left: Node?
    var right: Node?

    constructor (item: int)
      ensures this.item == item && left == null && right == null
    {
      this.item, left, right := item, null, null;
    }
  }

  datatype Tree = Empty | Fork(node: Node, left: Tree, item: int, right: Tree)

  ghost function Items(t: Tree): set<int> {
    if t.Empty? then {} else Items(t.left) + {t.item} + Items(t.right)
  }

  ghost predicate Sorted(t: Tree) {
    t.Fork? ==>
      && Sorted(t.left) && Sorted(t.right)
      && (forall x :: x in Items(t.left) ==> x < t.item) && (forall x :: x in Items(t.right) ==> t.item < x)
  }

  ghost function Height(t: Tree): (h: nat) {
    if t.Empty? then 0 else 1 + Max(Height(t.left), Height(t.right))
  }

  function Max(a: nat, b: nat): nat {
    if a > b then a else b
  }

  ghost predicate Level(t: Tree) {
    t.Fork? ==> -1 <= Height(t.right) - Height(t.left) <= 1
  }

  ghost predicate Balanced(t: Tree) {
    t.Fork? ==> Level(t) && Balanced(t.left) && Balanced(t.right)
  }

  /** The tree with a new leaf where a search for `x` ends. */
  ghost function Insert(t: Tree, n: Node, x: int): (r: Tree)
    ensures r.Fork? || x in Items(t)
  {
    if t.Empty? then Fork(n, Empty, x, Empty)
    else if x < t.item then t.(left := Insert(t.left, n, x))
    else if x > t.item then t.(right := Insert(t.right, n, x))
    else t
  }

  /** The subtree a search for `k` ends at. */
  ghost function At(t: Tree, k: int): (r: Tree) {
    if t.Empty? || k == t.item then t else if k < t.item then At(t.left, k) else At(t.right, k)
  }

  /** The tree with that subtree replaced. */
  ghost function Replace(t: Tree, k: int, s: Tree): (r: Tree) {
    if t.Empty? || k == t.item then s
    else if k < t.item then t.(left := Replace(t.left, k, s))
    else t.(right := Replace(t.right, k, s))
  }

  ghost function RotatedLeft(t: Tree): (r: Tree)
    requires t.Fork? && t.right.Fork?
    ensures r.Fork?
  {
    Fork(t.right.node, Fork(t.node, t.left, t.item, t.right.left), t.right.item, t.right.right)
  }

  ghost function RotatedRight(t: Tree): (r: Tree)
    requires t.Fork? && t.left.Fork?
    ensures r.Fork?
  {
    Fork(t.left.node, t.left.left, t.left.item, Fork(t.node, t.left.right, t.item, t.right))
  }

  // ---------------------------------------------------------------- order and contents

  lemma {:induction false} InsertItems(t: Tree, n: Node, x: int)
    requires Sorted(t)
    ensures Items(Insert(t, n, x)) == Items(t) + {x} && Sorted(Insert(t, n, x))
  {
    if t.Fork? && x < t.item {
      InsertItems(t.left, n, x);
    } else if t.Fork? && x > t.item {
      InsertItems(t.right, n, x);
    }
  }

  lemma RotatedLeftItems(t: Tree)
    requires t.Fork? && Sorted(t) && t.right.Fork?
    ensures Items(RotatedLeft(t)) == Items(t) && Sorted(RotatedLeft(t))
  {
    var b := Fork(t.node, t.left, t.item, t.right.left);
    assert Items(t.right) == Items(t.right.left) + {t.right.item} + Items(t.right.right);
    assert Items(b) == Items(t.left) + {t.item} + Items(t.right.left);
    assert Items(RotatedLeft(t)) == Items(b) + {t.right.item} + Items(t.right.right);
  }

  lemma RotatedRightItems(t: Tree)
    requires t.Fork? && Sorted(t) && t.left.Fork?
    ensures Items(RotatedRight(t)) == Items(t) && Sorted(RotatedRight(t))
  {
    var b := Fork(t.node, t.left.right, t.item, t.right);
    assert Items(t.left) == Items(t.left.left) + {t.left.item} + Items(t.left.right);
    assert Items(b) == Items(t.left.right) + {t.item} + Items(t.right);
    assert Items(RotatedRight(t)) == Items(t.left.left) + {t.left.item} + Items(b);
  }

  lemma RotationItems(t: Tree)
    requires t.Fork? && Sorted(t)
    ensures t.right.Fork? ==> Items(RotatedLeft(t)) == Items(t) && Sorted(RotatedLeft(t))
    ensures t.left.Fork? ==> Items(RotatedRight(t)) == Items(t) && Sorted(RotatedRight(t))
  {
    if t.right.Fork? {
      RotatedLeftItems(t);
    }
    if t.left.Fork? {
      RotatedRightItems(t);
    }
  }

  lemma {:induction false} AtFound(t: Tree, k: int)
    requires Sorted(t) && k in Items(t)
    ensures At(t, k).Fork? && At(t, k).item == k && Sorted(At(t, k)) && Items(At(t, k)) <= Items(t)
  {
    if k < t.item {
      AtFound(t.left, k);
    } else if k > t.item {
      AtFound(t.right, k);
    }
  }

  lemma {:induction false} ReplaceItems(t: Tree, k: int, s: Tree)
    requires Sorted(t) && k in Items(t) && Sorted(s) && Items(s) == Items(At(t, k))
    ensures Items(Replace(t, k, s)) == Items(t) && Sorted(Replace(t, k, s))
  {
    if k < t.item {
      ReplaceItems(t.left, k, s);
    } else if k > t.item {
      ReplaceItems(t.right, k, s);
    }
  }

  // ---------------------------------------------------------------- balance

  lemma {:induction false} InsertHeight(t: Tree, n: Node, x: int)
    ensures Height(t) <= Height(Insert(t, n, x)) <= Height(t) + 1
    ensures t.Fork? && Height(Insert(t, n, x)) == Height(t) + 1 ==>
      var r := Insert(t, n, x); Height(r.left) != Height(r.right)
  {
    if t.Fork? && x < t.item {
      InsertHeight(t.left, n, x);
    } else if t.Fork? && x > t.item {
      InsertHeight(t.right, n, x);
    }
  }

  /** What the balancing step does to a subtree out of level. */
  ghost function Rebalanced(t: Tree): (r: Tree)
    requires t.Fork? && (Height(t.right) - Height(t.left) == 2 || Height(t.right) - Height(t.left) == -2)
  {
    if Height(t.right) - Height(t.left) == 2 then
      assert t.right.Fork?;
      if Height(t.right.right) > Height(t.right.left) || t.right.left.Empty? then RotatedLeft(t)
      else RotatedLeft(t.(right := RotatedRight(t.right)))
    else
      assert t.left.Fork?;
      if Height(t.left.left) > Height(t.left.right) || t.left.right.Empty? then RotatedRight(t)
      else RotatedRight(t.(left := RotatedLeft(t.left)))
  }

  /** One single or double rotation brings a subtree put out of level by an insertion back to its old height, balanced. */
  lemma RebalancedLevel(t: Tree, n: Node, x: int)
    requires t.Fork? && Balanced(t)
    requires var r := Insert(t, n, x); Balanced(r.left) && Balanced(r.right) && !Level(r)
    ensures var r := Insert(t, n, x); r.Fork? && (Height(r.right) - Height(r.left) == 2 || Height(r.right) - Height(r.left) == -2)
    ensures var r := Insert(t, n, x); Balanced(Rebalanced(r)) && Height(Rebalanced(r)) == Height(t)
  {
    var r := Insert(t, n, x);
    InsertHeight(t.left, n, x);
    InsertHeight(t.right, n, x);
    if Height(r.right) - Height(r.left) == 2 {
      RaisedRight(r);
    } else {
      RaisedLeft(r);
    }
  }

  lemma RaisedRight(r: Tree)
    requires r.Fork? && r.right.Fork? && Balanced(r.left) && Balanced(r.right)
    requires Height(r.right) - Height(r.left) == 2 && Height(r.right.left) != Height(r.right.right)
    ensures Balanced(Rebalanced(r)) && Height(Rebalanced(r)) == Height(r) - 1
  {
    hide Height, Balanced;
    Measure(r);
    Measure(r.right);
    Measure(r.right.left);
    if Height(r.right.right) > Height(r.right.left) || r.right.left.Empty? {
      Measure(RotatedLeft(r));
      Measure(RotatedLeft(r).left);
    } else {
      var w := RotatedLeft(r.(right := RotatedRight(r.right)));
      Measure(w);
      Measure(w.left);
      Measure(w.right);
    }
  }

  /** Height and balance, one level down. */
  lemma Measure(t: Tree)
    ensures t.Empty? ==> Height(t) == 0 && Balanced(t)
    ensures t.Fork? ==> Height(t) == 1 + Max(Height(t.left), Height(t.right))
    ensures t.Fork? ==> (Balanced(t) <==> -1 <= Height(t.right) - Height(t.left) <= 1 && Balanced(t.left) && Balanced(t.right))
  {
  }

  lemma RaisedLeft(r: Tree)
    requires r.Fork? && r.left.Fork? && Balanced(r.left) && Balanced(r.right)
    requires Height(r.right) - Height(r.left) == -2 && Height(r.left.left) != Height(r.left.right)
    ensures Balanced(Rebalanced(r)) && Height(Rebalanced(r)) == Height(r) - 1
  {
    hide Height, Balanced;
    Measure(r);
    Measure(r.left);
    Measure(r.left.right);
    if Height(r.left.left) > Height(r.left.right) || r.left.right.Empty? {
      Measure(RotatedRight(r));
      Measure(RotatedRight(r).right);
    } else {
      var w := RotatedRight(r.(left := RotatedLeft(r.left)));
      Measure(w);
      Measure(w.left);
      Measure(w.right);
    }
  }

  /** `k` is on the way a search for `x` takes. */
  ghost predicate OnPath(t: Tree, k: int, x: int) {
    t.Fork? && (k == t.item || (k < t.item && x < t.item && OnPath(t.left, k, x)) || (k > t.item && x > t.item && OnPath(t.right, k, x)))
  }

  /** Above a subtree that came back to its old height, nothing is out of level. */
  lemma {:induction false} BalancedAbove(t: Tree, n: Node, x: int, k: int, s: Tree)
    requires Balanced(t) && OnPath(t, k, x) && Balanced(s) && Height(s) == Height(At(t, k))
    ensures Balanced(Replace(Insert(t, n, x), k, s)) && Height(Replace(Insert(t, n, x), k, s)) == Height(t)
  {
    if k < t.item {
      BalancedAbove(t.left, n, x, k, s);
    } else if k > t.item {
      BalancedAbove(t.right, n, x, k, s);
    }
  }

  /** Below a node on the path, the insertion is an insertion. */
  lemma {:induction false} AtInsert(t: Tree, n: Node, x: int, k: int)
    requires OnPath(t, k, x)
    ensures At(Insert(t, n, x), k) == Insert(At(t, k), n, x) && At(t, k).Fork? && At(t, k).item == k
    ensures OnPath(Insert(t, n, x), k, x)
  {
    if k < t.item {
      AtInsert(t.left, n, x, k);
    } else if k > t.item {
      AtInsert(t.right, n, x, k);
    }
  }

  lemma {:induction false} AtBalanced(t: Tree, k: int)
    requires Balanced(t)
    ensures Balanced(At(t, k))
  {
    if t.Fork? && k < t.item {
      AtBalanced(t.left, k);
    } else if t.Fork? && k > t.item {
      AtBalanced(t.right, k);
    }
  }

  /** The new leaf is on its own path, and every other key on that path was there before. */
  lemma {:induction false} PathEnd(t: Tree, n: Node, x: int, k: int)
    ensures OnPath(Insert(t, n, x), x, x)
    ensures OnPath(Insert(t, n, x), k, x) && k != x ==> OnPath(t, k, x)
    ensures OnPath(t, x, x) || At(Insert(t, n, x), x) == Fork(n, Empty, x, Empty)
  {
    if t.Fork? && x < t.item {
      PathEnd(t.left, n, x, k);
    } else if t.Fork? && x > t.item {
      PathEnd(t.right, n, x, k);
    }
  }

  /** The subtree whose child is the subtree at `k`. */
  ghost function Above(t: Tree, k: int): (r: Tree)
    requires t.Fork? && k != t.item
    ensures r.Fork?
  {
    if k < t.item then if t.left.Empty? || t.left.item == k then t else Above(t.left, k)
    else if t.right.Empty? || t.right.item == k then t else Above(t.right, k)
  }

  ghost predicate OnLeft(t: Tree, k: int)
    requires t.Fork? && k != t.item
  {
    k < Above(t, k).item
  }

  lemma {:induction false} PathIn(t: Tree, k: int, x: int)
    requires OnPath(t, k, x)
    ensures k in Items(t)
  {
    if k < t.item {
      PathIn(t.left, k, x);
    } else if k > t.item {
      PathIn(t.right, k, x);
    }
  }

  /** One step up the path: the child just passed is balanced, and its sibling is as it was before the insertion. */
  lemma {:induction false} StepUp(t: Tree, n: Node, x: int, k: int)
    requires Sorted(t) && Balanced(t) && x !in Items(t)
    requires var r := Insert(t, n, x); OnPath(r, k, x) && k != r.item && Balanced(At(r, k))
    ensures var r := Insert(t, n, x); var p := Above(r, k);
      && OnPath(r, p.item, x) && At(r, p.item) == p && Balanced(p.left) && Balanced(p.right) && p.item != x
  {
    var r := Insert(t, n, x);
    assert t.Fork?;
    if k < r.item {
      assert x < t.item && r.left == Insert(t.left, n, x) && r.right == t.right && At(r, k) == At(r.left, k);
      if r.left.item == k {
        assert Above(r, k) == r && At(r.left, k) == r.left;
      } else {
        StepUp(t.left, n, x, k);
        assert Above(r, k) == Above(r.left, k);
        InsertItems(t.left, n, x);
        PathIn(r.left, Above(r.left, k).item, x);
      }
    } else {
      assert x > t.item && r.right == Insert(t.right, n, x) && r.left == t.left && At(r, k) == At(r.right, k);
      if r.right.item == k {
        assert Above(r, k) == r && At(r.right, k) == r.right;
      } else {
        StepUp(t.right, n, x, k);
        assert Above(r, k) == Above(r.right, k);
        InsertItems(t.right, n, x);
        PathIn(r.right, Above(r.right, k).item, x);
      }
    }
  }
}
