/** The tree of shortest paths: the paths to some nodes, put together and read off breadth first. */
module SpanningTree {
  import opened ShortestPaths
  import opened WeightedGraph

  // ---------------------------------------------------------------- parents

  /** Every node but the root has a parent that ranks lower. */
  ghost predicate Rooted(parent: map<Node, Node>, s: Node, rank: map<Node, int>) {
    && s !in parent && s in rank
    && forall v :: v in parent ==> (parent[v] == s || parent[v] in parent) && v in rank && parent[v] in rank && rank[s] <= rank[parent[v]] < rank[v]
  }

  /** The edges of the graph are those between a node and its parent, both ways. */
  ghost predicate Spanned(out: Graph, parent: map<Node, Node>) {
    forall u, v :: Edge(out, u, v) <==> (v in parent && parent[v] == u) || (u in parent && parent[u] == v)
  }

  // ---------------------------------------------------------------- the tree, node by node in the order they are made

  /** A node of the tree, and which of the nodes made before it is its parent. */
  datatype Entry = Entry(data: Node, parent: nat)

  ghost predicate Has(tree: seq<Entry>, v: Node) {
    exists i :: 0 <= i < |tree| && tree[i].data == v
  }

  /** The first `head` nodes of the tree have been given their children. */
  ghost predicate Grown(tree: seq<Entry>, head: nat, parent: map<Node, Node>, s: Node) {
    && 0 < |tree| && head <= |tree| && tree[0].data == s
    && (forall i :: 0 < i < |tree| ==> tree[i].parent < i && tree[i].data in parent && tree[tree[i].parent].data == parent[tree[i].data])
    && (forall i, j :: 0 <= i < j < |tree| ==> tree[i].data != tree[j].data)
    && (forall i :: 0 < i < |tree| ==> tree[i].parent < head)
    && (forall v, i :: v in parent && 0 <= i < head && parent[v] == tree[i].data ==> Has(tree, v))
  }

  /** Node `head` has been given those of its children that are in `tried`. */
  ghost predicate Growing(tree: seq<Entry>, head: nat, tried: set<Node>, parent: map<Node, Node>, s: Node) {
    && head < |tree| && tree[0].data == s
    && (forall i :: 0 < i < |tree| ==> tree[i].parent < i && tree[i].data in parent && tree[tree[i].parent].data == parent[tree[i].data])
    && (forall i, j :: 0 <= i < j < |tree| ==> tree[i].data != tree[j].data)
    && (forall i :: 0 < i < |tree| ==> tree[i].parent < head || (tree[i].parent == head && tree[i].data in tried))
    && (forall v, i :: v in parent && 0 <= i < head && parent[v] == tree[i].data ==> Has(tree, v))
    && (forall v :: v in parent && v in tried && parent[v] == tree[head].data ==> Has(tree, v))
  }

  lemma StartGrown(parent: map<Node, Node>, s: Node)
    ensures Grown([Entry(s, 0)], 0, parent, s)
  {
  }

  lemma BeginGrowing(tree: seq<Entry>, head: nat, parent: map<Node, Node>, s: Node)
    requires Grown(tree, head, parent, s) && head < |tree|
    ensures Growing(tree, head, {}, parent, s)
  {
  }

  lemma HasMore(tree: seq<Entry>, e: Entry, v: Node)
    ensures Has(tree, v) ==> Has(tree + [e], v)
    ensures Has(tree + [e], e.data)
  {
    var more := tree + [e];
    assert more[|tree|] == e;
    if Has(tree, v) {
      var i :| 0 <= i < |tree| && tree[i].data == v;
      assert more[i].data == v;
    }
  }

  /** A child is new to the tree. */
  lemma GrowOne(tree: seq<Entry>, head: nat, tried: set<Node>, parent: map<Node, Node>, s: Node, v: Node)
    requires Growing(tree, head, tried, parent, s) && v !in tried && s !in parent && v in parent && parent[v] == tree[head].data
    ensures Growing(tree + [Entry(v, head)], head, tried + {v}, parent, s)
  {
    hide Has;
    var more := tree + [Entry(v, head)];
    forall i | 0 <= i < |tree| ensures tree[i].data != v {
      assert i > 0 ==> tree[tree[i].parent].data == parent[tree[i].data];
    }
    forall u ensures Has(tree, u) ==> Has(more, u) {
      HasMore(tree, Entry(v, head), u);
    }
    HasMore(tree, Entry(v, head), v);
  }

  /** A neighbour that is no child is passed over. */
  lemma GrowNone(tree: seq<Entry>, head: nat, tried: set<Node>, parent: map<Node, Node>, s: Node, v: Node)
    requires Growing(tree, head, tried, parent, s) && (v in parent ==> parent[v] != tree[head].data)
    ensures Growing(tree, head, tried + {v}, parent, s)
  {
  }

  lemma EndGrowing(tree: seq<Entry>, head: nat, tried: set<Node>, parent: map<Node, Node>, s: Node)
    requires Growing(tree, head, tried, parent, s) && forall v :: v in parent && parent[v] == tree[head].data ==> v in tried
    ensures Grown(tree, head + 1, parent, s)
  {
  }

  /** A neighbour is a child or the parent, and never both. */
  lemma NeighbourOf(out: Graph, parent: map<Node, Node>, s: Node, rank: map<Node, int>, u: Node, v: Node)
    requires Rooted(parent, s, rank) && Spanned(out, parent) && Edge(out, u, v)
    ensures if u in parent && parent[u] == v then v in parent ==> parent[v] != u else v in parent && parent[v] == u
  {
  }

  lemma GrownNode(tree: seq<Entry>, head: nat, out: Graph, parent: map<Node, Node>, s: Node)
    requires Grown(tree, head, parent, s) && head < |tree| && Spanned(out, parent) && s in out && s !in parent
    ensures tree[head].data in out && s !in parent
    ensures head == 0 ==> tree[head].data == s
    ensures head > 0 ==> tree[head].parent < |tree| && tree[head].data in parent && parent[tree[head].data] == tree[tree[head].parent].data
  {
    if head > 0 {
      assert Edge(out, tree[head].data, parent[tree[head].data]);
    }
  }

  lemma ChildrenAreNeighbours(out: Graph, parent: map<Node, Node>, u: Node)
    requires Spanned(out, parent) && u in out
    ensures forall v :: v in parent && parent[v] == u ==> v in out[u].Keys
  {
    forall v | v in parent && parent[v] == u ensures v in out[u].Keys {
      assert Edge(out, u, v);
    }
  }

  /** Node `head` gets a child for every neighbour but its parent. */
  method AddChildren(out: Graph, tree: seq<Entry>, head: nat, ghost parent: map<Node, Node>, s: Node,
          ghost rank: map<Node, int>)
    returns (more: seq<Entry>)
    requires Grown(tree, head, parent, s) && head < |tree| && Rooted(parent, s, rank) && Spanned(out, parent) && s in out && s !in parent
    ensures Grown(more, head + 1, parent, s)
  {
    hide *;
    GrownNode(tree, head, out, parent, s);
    BeginGrowing(tree, head, parent, s);
    more := tree;
    var current := tree[head].data;
    var left: set<Node>, tried: set<Node> := out[current].Keys, {};
    while left != {}
      invariant Growing(more, head, tried, parent, s) && tried + left == out[current].Keys && tried !! left
      invariant |more| > head && more[head].data == current
      decreases |left|
    {
      SomeIn(left);
      var key: Node :| key in left;
      EdgeOf(out, current, key);
      NeighbourOf(out, parent, s, rank, current, key);
      if head == 0 || key != tree[tree[head].parent].data {
        GrowOne(more, head, tried, parent, s, key);
        more := more + [Entry(key, head)];
      } else {
        GrowNone(more, head, tried, parent, s, key);
      }
      tried, left := tried + {key}, left - {key};
    }
    ChildrenAreNeighbours(out, parent, current);
    assert tried == out[current].Keys;
    EndGrowing(more, head, tried, parent, s);
  }

  lemma {:induction false} TreeNodes(tree: seq<Entry>, nodes: set<Node>)
    requires (forall i :: 0 <= i < |tree| ==> tree[i].data in nodes) && forall i, j :: 0 <= i < j < |tree| ==> tree[i].data != tree[j].data
    ensures |tree| <= |nodes|
  {
    if tree != [] {
      var last := tree[|tree| - 1].data;
      TreeNodes(tree[..|tree| - 1], nodes - {last});
    }
  }

  lemma TreeSize(tree: seq<Entry>, head: nat, parent: map<Node, Node>, s: Node)
    requires Grown(tree, head, parent, s)
    ensures head <= |tree| <= |parent| + 1
  {
    TreeNodes(tree, parent.Keys + {s});
    assert |parent.Keys + {s}| <= |parent.Keys| + 1;
  }

  /** Breadth first: the queue is the part of the tree not yet given children. */
  method BuildTree(out: Graph, s: Node, ghost parent: map<Node, Node>, ghost rank: map<Node, int>) returns (tree: seq<Entry>)
    requires Rooted(parent, s, rank) && Spanned(out, parent) && s in out && s !in parent
    ensures Grown(tree, |tree|, parent, s)
  {
    hide *;
    StartGrown(parent, s);
    tree := AddChildren(out, [Entry(s, 0)], 0, parent, s, rank);
    var head := 1;
    TreeSize(tree, head, parent, s);
    while head < |tree|
      invariant Grown(tree, head, parent, s) && head <= |tree|
      decreases |parent| + 1 - head
    {
      TreeSize(tree, head, parent, s);
      tree := AddChildren(out, tree, head, parent, s, rank);
      head := head + 1;
      TreeSize(tree, head, parent, s);
    }
  }

  /** Every node with a parent is in the finished tree. */
  lemma {:induction false} AllInTree(tree: seq<Entry>, parent: map<Node, Node>, s: Node, rank: map<Node, int>, v: Node)
    requires Grown(tree, |tree|, parent, s) && Rooted(parent, s, rank) && v in parent
    ensures v in rank && s in rank && Has(tree, v)
    decreases rank[v] - rank[s]
  {
    var u := parent[v];
    if u == s {
      assert tree[0].data == u;
    } else {
      AllInTree(tree, parent, s, rank, u);
      var i :| 0 <= i < |tree| && tree[i].data == u;
    }
  }

  /** From the root down to node `i`. */
  ghost function RootPath(tree: seq<Entry>, i: nat): seq<Node>
    requires i < |tree| && forall j :: 0 < j < |tree| ==> tree[j].parent < j
  {
    if i == 0 then [tree[0].data] else RootPath(tree, tree[i].parent) + [tree[i].data]
  }

  // ---------------------------------------------------------------- the parents the matrix gives

  /** Every parent is the predecessor the matrix gives, of a node within reach. */
  ghost predicate Parents(m: Matrix, parent: map<Node, Node>)
    requires Built(m)
  {
    BuiltRows(m);
    |m.g| >= 2 && forall v :: v in parent ==>
      && v in m.g && v != m.s && m.rows[|m.g| - 2][v] != m.inf && parent[v] == Predecessor(m, v, |m.g| - 2)
      && (parent[v] == m.s || parent[v] in parent)
  }

  lemma ParentsAt(m: Matrix, parent: map<Node, Node>, v: Node)
    requires Built(m) && Parents(m, parent) && v in parent
    ensures v in m.g && v != m.s && |m.rows| == |m.g| >= 2 && v in m.rows[|m.g| - 2] && m.rows[|m.g| - 2][v] != m.inf
    ensures parent[v] == Predecessor(m, v, |m.g| - 2) && (parent[v] == m.s || parent[v] in parent)
  {
    BuiltRows(m);
  }

  ghost function RankOf(m: Matrix): map<Node, int>
    requires Built(m)
  {
    BuiltSize(m);
    map v | v in m.g :: if v == m.s then -1 else LastChange(m.rows, v, |m.g| - 2)
  }

  lemma RankIs(m: Matrix, v: Node)
    requires Built(m) && v in m.g
    ensures |m.rows| == |m.g| >= 2 && (forall i :: 0 <= i < |m.rows| ==> v in m.rows[i]) && v in RankOf(m)
    ensures RankOf(m)[v] == (if v == m.s then -1 else LastChange(m.rows, v, |m.g| - 2)) && (v != m.s ==> RankOf(m)[v] >= 0)
  {
    BuiltSize(m);
    hide Built, LastChange;
  }

  lemma ParentsRooted(m: Matrix, parent: map<Node, Node>)
    requires Built(m) && Parents(m, parent)
    ensures Rooted(parent, m.s, RankOf(m)) && m.s !in parent
  {
    hide *;
    BuiltRows(m);
    RankIs(m, m.s);
    if m.s in parent {
      ParentsAt(m, parent, m.s);
    }
    forall v | v in parent
      ensures (parent[v] == m.s || parent[v] in parent) && v in RankOf(m) && parent[v] in RankOf(m)
      ensures RankOf(m)[m.s] <= RankOf(m)[parent[v]] < RankOf(m)[v]
    {
      ParentsAt(m, parent, v);
      TrailOfPredecessor(m, v);
      RankIs(m, v);
      RankIs(m, parent[v]);
    }
    RootedIs(parent, m.s, RankOf(m));
  }

  lemma RootedIs(parent: map<Node, Node>, s: Node, rank: map<Node, int>)
    requires s !in parent && s in rank
    requires forall v :: v in parent ==> (parent[v] == s || parent[v] in parent) && v in rank && parent[v] in rank && rank[s] <= rank[parent[v]] < rank[v]
    ensures Rooted(parent, s, rank)
  {
  }

  /** A trail begins at the start, and each of its nodes is followed by one it is the predecessor of. */
  ghost predicate Links(m: Matrix, p: seq<Node>)
    requires Built(m)
  {
    BuiltRows(m);
    |m.g| >= 2 && p != [] && p[0] == m.s && forall j :: 0 < j < |p| ==>
      p[j] in m.g && p[j] != m.s && m.rows[|m.g| - 2][p[j]] != m.inf && p[j - 1] == Predecessor(m, p[j], |m.g| - 2)
  }

  lemma LinkAt(m: Matrix, p: seq<Node>, j: nat)
    requires Built(m) && Links(m, p) && 0 < j < |p|
    ensures |m.rows| == |m.g| >= 2 && p[j] in m.g && p[j] != m.s && p[j] in m.rows[|m.g| - 2] && m.rows[|m.g| - 2][p[j]] != m.inf
    ensures p[j - 1] == Predecessor(m, p[j], |m.g| - 2)
  {
    BuiltRows(m);
    hide Built, Rows, Predecessor;
  }

  lemma LinksIs(m: Matrix, p: seq<Node>)
    requires Built(m) && |m.rows| == |m.g| >= 2 && p != [] && p[0] == m.s
    requires forall j :: 0 < j < |p| ==>
      && p[j] in m.g && p[j] != m.s && p[j] in m.rows[|m.g| - 2] && m.rows[|m.g| - 2][p[j]] != m.inf
      && p[j - 1] == Predecessor(m, p[j], |m.g| - 2)
    ensures Links(m, p)
  {
    BuiltRows(m);
    hide Built, Rows, Predecessor;
  }

  lemma LinksFirst(m: Matrix, p: seq<Node>)
    requires Built(m) && Links(m, p)
    ensures p != [] && p[0] == m.s
  {
    hide Built, Rows, Predecessor;
  }

  lemma LinksMore(m: Matrix, p: seq<Node>, v: Node)
    requires Built(m) && Links(m, p) && v in m.g && v != m.s && |m.rows| == |m.g| >= 2
    requires v in m.rows[|m.g| - 2] && m.rows[|m.g| - 2][v] != m.inf
    requires p != [] && p[|p| - 1] == Predecessor(m, v, |m.g| - 2)
    ensures Links(m, p + [v])
  {
    hide *;
    LinksFirst(m, p);
    var q := p + [v];
    forall j | 0 < j < |q|
      ensures q[j] in m.g && q[j] != m.s && q[j] in m.rows[|m.g| - 2] && m.rows[|m.g| - 2][q[j]] != m.inf
      ensures q[j - 1] == Predecessor(m, q[j], |m.g| - 2)
    {
      if j < |p| {
        LinkAt(m, p, j);
      }
    }
    LinksIs(m, q);
  }

  lemma LinksStart(m: Matrix)
    requires Built(m)
    ensures Links(m, [m.s])
  {
    BuiltSize(m);
    hide Built, Rows, Predecessor;
  }

  lemma {:induction false} TrailLinks(m: Matrix, v: Node)
    requires Built(m) && v in m.g && |m.rows| == |m.g| >= 2 && v in m.rows[|m.g| - 2] && m.rows[|m.g| - 2][v] != m.inf
    requires forall i :: 0 <= i < |m.rows| ==> v in m.rows[i]
    ensures Links(m, Trail(m, v, |m.g| - 2)) && Trail(m, v, |m.g| - 2) != [] && Trail(m, v, |m.g| - 2)[|Trail(m, v, |m.g| - 2)| - 1] == v
    decreases if v == m.s then -1 else LastChange(m.rows, v, |m.g| - 2)
  {
    hide *;
    BuiltRows(m);
    if v == m.s {
      StartTrail(m);
      LinksStart(m);
    } else {
      TrailOfPredecessor(m, v);
      PredecessorEdge(m, v);
      var u := Predecessor(m, v, |m.g| - 2);
      TrailLinks(m, u);
      LinksMore(m, Trail(m, u, |m.g| - 2), v);
    }
  }

  /** In a tree grown from the matrix the way from the root to a node is the node's trail. */
  lemma {:induction false} RootPathTrail(m: Matrix, parent: map<Node, Node>, tree: seq<Entry>, i: nat)
    requires Built(m) && Parents(m, parent) && Grown(tree, |tree|, parent, m.s) && i < |tree|
    ensures forall j :: 0 < j < |tree| ==> tree[j].parent < j
    ensures tree[i].data in m.g && |m.rows| == |m.g| >= 2 && tree[i].data in m.rows[|m.g| - 2] && m.rows[|m.g| - 2][tree[i].data] != m.inf
    ensures RootPath(tree, i) == Trail(m, tree[i].data, |m.g| - 2)
    decreases i
  {
    hide *;
    BuiltRows(m);
    GrownAt(tree, parent, m.s, i);
    RootPathIs(tree, i);
    StartTrail(m);
    if i == 0 {
      StartCost(m, |m.g| - 2);
      PositiveLimit(m);
    } else {
      ParentsAt(m, parent, tree[i].data);
      TrailOfPredecessor(m, tree[i].data);
      RootPathTrail(m, parent, tree, tree[i].parent);
    }
  }

  lemma GrownAt(tree: seq<Entry>, parent: map<Node, Node>, s: Node, i: nat)
    requires Grown(tree, |tree|, parent, s) && i < |tree|
    ensures (forall j :: 0 < j < |tree| ==> tree[j].parent < j) && tree[0].data == s
    ensures i > 0 ==> tree[i].parent < i && tree[i].data in parent && tree[tree[i].parent].data == parent[tree[i].data]
  {
  }

  lemma RootPathIs(tree: seq<Entry>, i: nat)
    requires i < |tree| && forall j :: 0 < j < |tree| ==> tree[j].parent < j
    ensures RootPath(tree, i) == if i == 0 then [tree[0].data] else RootPath(tree, tree[i].parent) + [tree[i].data]
  {
  }

  // ---------------------------------------------------------------- the graph of the paths

  /** The predecessors of all nodes within reach. */
  ghost function Predecessors(m: Matrix): map<Node, Node>
    requires Built(m)
  {
    BuiltSize(m);
    map v | v in m.g && v != m.s && m.rows[|m.g| - 2][v] != m.inf :: Predecessor(m, v, |m.g| - 2)
  }

  /** Part of the predecessors, with the predecessors of what is in it. */
  ghost predicate Within(parent: map<Node, Node>, all: map<Node, Node>, s: Node) {
    forall v :: v in parent ==> v in all && all[v] == parent[v] && (parent[v] == s || parent[v] in parent)
  }

  /** A path down from the start, each node after its predecessor. */
  ghost predicate Follows(path: seq<Node>, all: map<Node, Node>, s: Node) {
    path != [] && path[0] == s && forall j :: 0 < j < |path| ==> path[j] in all && all[path[j]] == path[j - 1] && path[j - 1] != path[j]
  }

  lemma WithinParents(m: Matrix, parent: map<Node, Node>)
    requires Built(m) && Within(parent, Predecessors(m), m.s)
    ensures Parents(m, parent)
  {
    BuiltSize(m);
    hide Built, Predecessor;
  }

  lemma TrailFollows(m: Matrix, e: Node)
    requires Built(m) && e in m.g && |m.rows| == |m.g| >= 2 && e in m.rows[|m.g| - 2] && m.rows[|m.g| - 2][e] != m.inf
    ensures Follows(Trail(m, e, |m.g| - 2), Predecessors(m), m.s)
    ensures Trail(m, e, |m.g| - 2) != [] && Trail(m, e, |m.g| - 2)[|Trail(m, e, |m.g| - 2)| - 1] == e
  {
    hide *;
    BuiltRows(m);
    TrailLinks(m, e);
    LinksFollow(m, Trail(m, e, |m.g| - 2));
  }

  lemma LinksFollow(m: Matrix, p: seq<Node>)
    requires Built(m) && Links(m, p)
    ensures Follows(p, Predecessors(m), m.s)
  {
    hide *;
    LinksFirst(m, p);
    forall j | 0 < j < |p| ensures p[j] in Predecessors(m) && Predecessors(m)[p[j]] == p[j - 1] && p[j - 1] != p[j] {
      LinkAt(m, p, j);
      PredecessorsAt(m, p[j]);
      TrailOfPredecessor(m, p[j]);
    }
    FollowsIs(p, Predecessors(m), m.s);
  }

  lemma PredecessorsAt(m: Matrix, v: Node)
    requires Built(m) && |m.rows| == |m.g| >= 2 && v in m.g && v != m.s && v in m.rows[|m.g| - 2] && m.rows[|m.g| - 2][v] != m.inf
    ensures v in Predecessors(m) && Predecessors(m)[v] == Predecessor(m, v, |m.g| - 2)
  {
    hide Built, Rows, Predecessor;
    BuiltSize(m);
  }

  lemma FollowsIs(path: seq<Node>, all: map<Node, Node>, s: Node)
    requires path != [] && path[0] == s && forall j :: 0 < j < |path| ==> path[j] in all && all[path[j]] == path[j - 1] && path[j - 1] != path[j]
    ensures Follows(path, all, s)
  {
  }

  lemma SpannedMore(out: Graph, out1: Graph, parent: map<Node, Node>, u: Node, v: Node)
    requires Spanned(out, parent) && (v in parent ==> parent[v] == u)
    requires forall x, y :: Edge(out1, x, y) <==> (x == u && y == v) || (x == v && y == u) || Edge(out, x, y)
    ensures Spanned(out1, parent[v := u])
  {
    hide Edge;
  }

  lemma WithinMore(parent: map<Node, Node>, all: map<Node, Node>, s: Node, path: seq<Node>, j: nat)
    requires Within(parent, all, s) && Follows(path, all, s) && 0 < j < |path| && (j == 1 || path[j - 1] in parent)
    ensures path[j] in parent ==> parent[path[j]] == path[j - 1]
    ensures Within(parent[path[j] := path[j - 1]], all, s) && path[j - 1] != path[j] && path[0] == s
  {
  }

  /** The connections along a path join the graph; a path that stays where it is adds none. */
  method AddPath(outGraph: WeightedGraph, path: seq<Node>, inf: int, ghost s: Node, ghost all: map<Node, Node>,
          ghost parent0: map<Node, Node>)
    returns (ghost parent: map<Node, Node>)
    requires Sound(outGraph.adjacencyLists) && 0 <= inf && Spanned(outGraph.adjacencyLists, parent0) && Within(parent0, all, s)
    requires path == [s, s] || Follows(path, all, s)
    requires s in outGraph.adjacencyLists <==> parent0 != map[]
    modifies outGraph`adjacencyLists
    ensures Sound(outGraph.adjacencyLists) && Spanned(outGraph.adjacencyLists, parent) && Within(parent, all, s)
    ensures s in outGraph.adjacencyLists <==> parent != map[]
    ensures parent0.Keys <= parent.Keys && (forall v :: v in parent ==> v in parent0 || v in path)
    ensures if path == [s, s] then parent == parent0 else forall j :: 0 < j < |path| ==> path[j] in parent
  {
    hide Sound, Spanned, Within, Follows, Edge;
    parent := parent0;
    FollowsFrom(path, all, s);
    var j := 0;
    while j < |path| - 1
      invariant 0 <= j <= |path| - 1 && Sound(outGraph.adjacencyLists) && Spanned(outGraph.adjacencyLists, parent) && Within(parent, all, s)
      invariant s in outGraph.adjacencyLists <==> parent != map[]
      invariant parent0.Keys <= parent.Keys && (forall v :: v in parent ==> v in parent0 || v in path)
      invariant if path == [s, s] then parent == parent0 else forall i :: 0 < i <= j ==> path[i] in parent
    {
      ghost var was := outGraph.adjacencyLists;
      if path != [s, s] {
        WithinMore(parent, all, s, path, j + 1);
      }
      outGraph.AddConnection(path[j], path[j + 1], inf);
      if path != [s, s] {
        SpannedMore(was, outGraph.adjacencyLists, parent, path[j], path[j + 1]);
        parent := parent[path[j + 1] := path[j]];
      }
      j := j + 1;
    }
  }

  lemma FollowsFrom(path: seq<Node>, all: map<Node, Node>, s: Node)
    ensures Follows(path, all, s) ==> path != [] && path[0] == s
  {
  }

  // ---------------------------------------------------------------- the tree of shortest paths

  /** A tree over edges of the graph in which no node occurs twice, the way down to each node is a shortest path, every
      asked-for node within reach is there, and nothing is there that is not on the way to one. */
  ghost predicate ShortestPathTree(g: Graph, s: Node, inf: int, inputs: seq<Node>, tree: seq<Entry>) {
    && tree != [] && tree[0].data == s && s in g
    && (forall i, j :: 0 <= i < j < |tree| ==> tree[i].data != tree[j].data)
    && (forall i :: 0 < i < |tree| ==> tree[i].parent < i && tree[i].data in g && Edge(g, tree[tree[i].parent].data, tree[i].data))
    && (forall i :: 0 < i < |tree| ==> Answer(g, s, tree[i].data, inf, RootPath(tree, i)) && RootPath(tree, i) != [])
    && (forall x :: 0 <= x < |inputs| && inputs[x] in g && inputs[x] != s ==> Has(tree, inputs[x]) || AtLeast(g, s, inputs[x], inf))
    && (forall i :: 0 < i < |tree| ==> OnTheWay(tree, i, inputs))
  }

  ghost predicate OnTheWay(tree: seq<Entry>, i: nat, inputs: seq<Node>)
    requires i < |tree| && forall j :: 0 < j < |tree| ==> tree[j].parent < j
  {
    exists j :: 0 <= j < |tree| && tree[j].data in inputs && tree[i].data in RootPath(tree, j)
  }

  /** The node lies on the trail to one of the inputs. */
  ghost predicate Needed(m: Matrix, parent: map<Node, Node>, inputs: seq<Node>, v: Node)
    requires Built(m)
  {
    exists e :: e in inputs && OnTrail(m, parent, e, v)
  }

  ghost predicate OnTrail(m: Matrix, parent: map<Node, Node>, e: Node, v: Node)
    requires Built(m)
  {
    BuiltSize(m);
    e in parent && e in m.g && v in Trail(m, e, |m.g| - 2)
  }

  lemma TreeNode(m: Matrix, parent: map<Node, Node>, tree: seq<Entry>, inputs: seq<Node>, i: nat)
    requires Built(m) && Parents(m, parent) && Grown(tree, |tree|, parent, m.s) && 0 < i < |tree|
    requires forall j :: 0 < j < |tree| ==> tree[j].parent < j
    requires forall v :: v in parent ==> Needed(m, parent, inputs, v) && Has(tree, v)
    ensures tree[i].parent < i && tree[i].data in m.g && Edge(m.g, tree[tree[i].parent].data, tree[i].data)
    ensures RootPath(tree, i) != [] && Answer(m.g, m.s, tree[i].data, m.inf, RootPath(tree, i)) && OnTheWay(tree, i, inputs)
  {
    hide *;
    BuiltRows(m);
    GrownAt(tree, parent, m.s, i);
    var v := tree[i].data;
    ParentsAt(m, parent, v);
    PredecessorEdge(m, v);
    RootPathTrail(m, parent, tree, i);
    TrailShortest(m, v);
    TrailAnswer(m, v);
    var e, j := WayTo(m, parent, tree, inputs, v);
    RootPathTrail(m, parent, tree, j);
    OnTheWayIs(tree, i, j, inputs);
  }

  lemma TrailAnswer(m: Matrix, v: Node)
    requires Built(m) && v in m.g && |m.rows| == |m.g| >= 2 && v in m.rows[|m.g| - 2] && m.rows[|m.g| - 2][v] != m.inf
    requires Joins(m.g, m.s, v, Trail(m, v, |m.g| - 2)) && Path(m.g, Trail(m, v, |m.g| - 2))
    requires Weight(m.g, Trail(m, v, |m.g| - 2)) == m.rows[|m.g| - 2][v]
    ensures Trail(m, v, |m.g| - 2) != [] && Answer(m.g, m.s, v, m.inf, Trail(m, v, |m.g| - 2))
  {
    BuiltDistance(m, v);
    hide Built, Trail, Weight, AtLeast, Reaches;
  }

  lemma WayTo(m: Matrix, parent: map<Node, Node>, tree: seq<Entry>, inputs: seq<Node>, v: Node) returns (e: Node, j: nat)
    requires Built(m) && v in parent && forall u :: u in parent ==> Needed(m, parent, inputs, u) && Has(tree, u)
    ensures |m.g| >= 2 && |m.rows| == |m.g| && e in inputs && e in m.g && v in Trail(m, e, |m.g| - 2) && j < |tree| && tree[j].data == e
  {
    hide *;
    BuiltRows(m);
    e := NeededBy(m, parent, inputs, v);
    j := PlaceOf(tree, e);
  }

  lemma NeededBy(m: Matrix, parent: map<Node, Node>, inputs: seq<Node>, v: Node) returns (e: Node)
    requires Built(m) && Needed(m, parent, inputs, v)
    ensures |m.g| >= 2 && |m.rows| == |m.g| && e in inputs && e in parent && e in m.g && v in Trail(m, e, |m.g| - 2)
  {
    hide Built, OnTrail;
    e :| e in inputs && OnTrail(m, parent, e, v);
    TrailOf(m, parent, e, v);
  }

  lemma TrailOf(m: Matrix, parent: map<Node, Node>, e: Node, v: Node)
    requires Built(m) && OnTrail(m, parent, e, v)
    ensures |m.g| >= 2 && |m.rows| == |m.g| && e in parent && e in m.g && v in Trail(m, e, |m.g| - 2)
  {
    BuiltSize(m);
    hide Built, Trail;
  }

  lemma OnTrailIs(m: Matrix, parent: map<Node, Node>, e: Node, v: Node)
    requires Built(m) && e in parent && e in m.g && |m.rows| == |m.g| >= 2 && v in Trail(m, e, |m.g| - 2)
    ensures OnTrail(m, parent, e, v)
  {
    hide Built, Trail;
  }

  lemma OnTrailMore(m: Matrix, parent0: map<Node, Node>, parent: map<Node, Node>, e: Node, v: Node)
    requires Built(m) && OnTrail(m, parent0, e, v) && parent0.Keys <= parent.Keys
    ensures OnTrail(m, parent, e, v)
  {
    hide Built, Trail;
  }

  lemma PlaceOf(tree: seq<Entry>, v: Node) returns (j: nat)
    requires Has(tree, v)
    ensures j < |tree| && tree[j].data == v
  {
    j :| 0 <= j < |tree| && tree[j].data == v;
  }

  lemma OnTheWayIs(tree: seq<Entry>, i: nat, j: nat, inputs: seq<Node>)
    requires i < |tree| && j < |tree| && (forall l :: 0 < l < |tree| ==> tree[l].parent < l)
    requires tree[j].data in inputs && tree[i].data in RootPath(tree, j)
    ensures OnTheWay(tree, i, inputs)
  {
  }

  lemma GrownTree(tree: seq<Entry>, parent: map<Node, Node>, s: Node)
    requires Grown(tree, |tree|, parent, s)
    ensures tree != [] && tree[0].data == s && forall i, j :: 0 <= i < j < |tree| ==> tree[i].data != tree[j].data
    ensures forall j :: 0 < j < |tree| ==> tree[j].parent < j
  {
  }

  lemma TreeDone(m: Matrix, parent: map<Node, Node>, tree: seq<Entry>, inputs: seq<Node>)
    requires Built(m) && Within(parent, Predecessors(m), m.s) && Grown(tree, |tree|, parent, m.s)
    requires forall v :: v in parent ==> Needed(m, parent, inputs, v)
    requires forall x :: 0 <= x < |inputs| && inputs[x] in m.g && inputs[x] != m.s ==> inputs[x] in parent || AtLeast(m.g, m.s, inputs[x], m.inf)
    ensures ShortestPathTree(m.g, m.s, m.inf, inputs, tree)
  {
    hide *;
    BuiltRows(m);
    WithinParents(m, parent);
    ParentsRooted(m, parent);
    GrownTree(tree, parent, m.s);
    forall v | v in parent ensures Has(tree, v) {
      AllInTree(tree, parent, m.s, RankOf(m), v);
    }
    forall i | 0 < i < |tree|
      ensures tree[i].parent < i && tree[i].data in m.g && Edge(m.g, tree[tree[i].parent].data, tree[i].data)
      ensures RootPath(tree, i) != [] && Answer(m.g, m.s, tree[i].data, m.inf, RootPath(tree, i)) && OnTheWay(tree, i, inputs)
    {
      TreeNode(m, parent, tree, inputs, i);
    }
    TreeIs(m.g, m.s, m.inf, inputs, tree);
  }

  lemma TreeIs(g: Graph, s: Node, inf: int, inputs: seq<Node>, tree: seq<Entry>)
    requires tree != [] && tree[0].data == s && s in g && forall i, j :: 0 <= i < j < |tree| ==> tree[i].data != tree[j].data
    requires forall i :: 0 < i < |tree| ==> tree[i].parent < i && tree[i].data in g && Edge(g, tree[tree[i].parent].data, tree[i].data)
    requires forall i :: 0 < i < |tree| ==> RootPath(tree, i) != [] && Answer(g, s, tree[i].data, inf, RootPath(tree, i)) && OnTheWay(tree, i, inputs)
    requires forall x :: 0 <= x < |inputs| && inputs[x] in g && inputs[x] != s ==> Has(tree, inputs[x]) || AtLeast(g, s, inputs[x], inf)
    ensures ShortestPathTree(g, s, inf, inputs, tree)
  {
    hide Edge, RootPath, Answer, OnTheWay, Has, AtLeast;
  }

  /** What has been collected is part of the predecessors, and all of it is needed. */
  ghost predicate Collected(m: Matrix, parent: map<Node, Node>, inputs: seq<Node>)
    requires Built(m)
  {
    Within(parent, Predecessors(m), m.s) && forall v :: v in parent ==> Needed(m, parent, inputs, v)
  }

  lemma CollectedNone(m: Matrix, inputs: seq<Node>)
    requires Built(m)
    ensures Collected(m, map[], inputs)
  {
  }

  lemma CollectedWithin(m: Matrix, parent: map<Node, Node>, inputs: seq<Node>)
    requires Built(m)
    ensures Collected(m, parent, inputs) <==> Within(parent, Predecessors(m), m.s) && forall v :: v in parent ==> Needed(m, parent, inputs, v)
  {
    hide Built, Within, Predecessors, Needed;
  }

  lemma CollectedMore(m: Matrix, parent0: map<Node, Node>, parent: map<Node, Node>, inputs: seq<Node>, e: Node, path: seq<Node>)
    requires Built(m) && Collected(m, parent0, inputs) && Within(parent, Predecessors(m), m.s)
    requires e in inputs && e in parent && e in m.g && |m.rows| == |m.g| >= 2 && path == Trail(m, e, |m.g| - 2)
    requires parent0.Keys <= parent.Keys && forall v :: v in parent ==> v in parent0 || v in path
    ensures Collected(m, parent, inputs)
  {
    hide Built, Within, Predecessors, Trail, OnTrail;
    forall v | v in parent ensures Needed(m, parent, inputs, v) {
      if v in parent0 {
        assert Needed(m, parent0, inputs, v);
        var d :| d in inputs && OnTrail(m, parent0, d, v);
        OnTrailMore(m, parent0, parent, d, v);
      } else {
        OnTrailIs(m, parent, e, v);
      }
    }
  }

  /** A path was given, so the node is within reach. */
  lemma Reached(m: Matrix, e: Node, path: seq<Node>)
    requires Built(m) && e in m.g && Answer(m.g, m.s, e, m.inf, path) && path != []
    ensures |m.rows| == |m.g| >= 2 && e in m.rows[|m.g| - 2] && m.rows[|m.g| - 2][e] != m.inf
  {
    BuiltSize(m);
    BuiltDistance(m, e);
    hide Built, Weight, Reaches;
    assert Joins(m.g, m.s, e, path) && Weight(m.g, path) < m.inf;
  }

  lemma NothingBelow(g: Graph, s: Node, e: Node, inf: int, path: seq<Node>)
    requires e in g && Answer(g, s, e, inf, path) && path == []
    ensures AtLeast(g, s, e, inf)
  {
  }

  // ---------------------------------------------------------------- graphs of fewer than three nodes

  /** The start as the parent of every other node. */
  ghost function Lone(g: Graph, s: Node): map<Node, Node> {
    map v | v in g && v != s :: s
  }

  /** What paths are collected from: the predecessors the matrix gives, or in a graph of fewer than three nodes the start alone. */
  ghost function AllOf(m: Matrix): map<Node, Node> {
    if |m.g| < 3 then Lone(m.g, m.s) else if Built(m) then Predecessors(m) else map[]
  }

  /** What has been collected: part of `AllOf`, and all of it needed for the inputs. */
  ghost predicate Gathered(ok: bool, m: Matrix, parent: map<Node, Node>, inputs: seq<Node>) {
    if |m.g| < 3 then Within(parent, Lone(m.g, m.s), m.s) && forall v :: v in parent ==> v in inputs
    else parent != map[] ==> ok && Built(m) && Collected(m, parent, inputs)
  }

  lemma GatheredNone(ok: bool, m: Matrix, inputs: seq<Node>)
    ensures Gathered(ok, m, map[], inputs)
  {
  }

  lemma GatheredBuilt(ok: bool, m: Matrix, parent: map<Node, Node>, inputs: seq<Node>)
    requires Gathered(ok, m, parent, inputs) && |m.g| >= 3 && parent != map[]
    ensures ok && Built(m) && Collected(m, parent, inputs)
  {
  }

  lemma GatheredWithin(ok: bool, m: Matrix, parent: map<Node, Node>, inputs: seq<Node>)
    requires Gathered(ok, m, parent, inputs)
    ensures Within(parent, AllOf(m), m.s)
  {
    if |m.g| >= 3 && parent != map[] {
      CollectedWithin(m, parent, inputs);
    }
  }

  /** Another matrix of the same graph, when nothing was collected from the one before or it is the same. */
  lemma GatheredAgain(ok0: bool, m0: Matrix, ok: bool, m: Matrix, parent: map<Node, Node>, inputs: seq<Node>)
    requires Gathered(ok0, m0, parent, inputs) && m.g == m0.g && m.s == m0.s && (ok0 ==> ok && m == m0)
    ensures Gathered(ok, m, parent, inputs)
  {
    if |m.g| >= 3 && parent != map[] {
      GatheredBuilt(ok0, m0, parent, inputs);
    }
  }

  lemma PathFollows(m: Matrix, e: Node, path: seq<Node>)
    requires e in m.g && e != m.s
    requires if |m.g| < 3 then path == [m.s, e]
             else Built(m) && Answer(m.g, m.s, e, m.inf, path) && path != [] && |m.rows| == |m.g| && path == Trail(m, e, |m.g| - 2)
    ensures Follows(path, AllOf(m), m.s) && path != [] && path[|path| - 1] == e
  {
    if |m.g| >= 3 {
      hide Follows, Trail, Answer, Predecessors, Built;
      Reached(m, e, path);
      TrailFollows(m, e);
    }
  }

  lemma GatheredMore(ok: bool, m: Matrix, parent0: map<Node, Node>, parent: map<Node, Node>, inputs: seq<Node>, e: Node, path: seq<Node>)
    requires Gathered(ok, m, parent0, inputs) && Within(parent, AllOf(m), m.s) && e in inputs && e in parent && e in m.g
    requires if |m.g| < 3 then path == [m.s, e]
             else ok && Built(m) && |m.rows| == |m.g| && path == Trail(m, e, |m.g| - 2)
    requires parent0.Keys <= parent.Keys && forall v :: v in parent ==> v in parent0 || v in path
    ensures Gathered(ok, m, parent, inputs)
  {
    if |m.g| >= 3 {
      CollectedNone(m, inputs);
      hide Collected, Within, Predecessors, Trail, Built;
      CollectedMore(m, parent0, parent, inputs, e, path);
    }
  }

  lemma LoneRooted(g: Graph, s: Node, parent: map<Node, Node>)
    requires s in g && Within(parent, Lone(g, s), s)
    ensures Rooted(parent, s, map v | v in g :: if v == s then 0 else 1) && s !in parent
  {
  }

  /** In the tree of a graph of fewer than three nodes the only node below the root is the other one. */
  lemma LoneChild(g: Graph, s: Node, inf: int, parent: map<Node, Node>, tree: seq<Entry>, i: nat)
    requires Sound(g) && s in g && |g| < 3 && Within(parent, Lone(g, s), s) && Grown(tree, |tree|, parent, s) && 0 < i < |tree|
    ensures (forall j :: 0 < j < |tree| ==> tree[j].parent < j) && tree[i].parent == 0
    ensures var v := tree[i].data; v in parent && v in g && v != s && g.Keys == {s, v} && RootPath(tree, i) == [s, v]
    ensures var v := tree[i].data; Answer(g, s, v, inf, [s, v]) <==> Edge(g, s, v) && g[s][v] < inf
  {
    var v := tree[i].data;
    assert tree[tree[i].parent].data == s;
    OnlyPair(g.Keys, s, v);
    TwoNodes(g, s, v, inf);
    hide Answer, Edge, Sound, Grown;
    assert RootPath(tree, 0) == [s];
  }

  lemma OnlyPair(nodes: set<Node>, s: Node, v: Node)
    requires s in nodes && v in nodes && s != v && |nodes| < 3
    ensures nodes == {s, v}
  {
    assert nodes - {s} - {v} != {} ==> |nodes - {s} - {v}| >= 1;
  }

  /** The input's edge from the start is what a shortest path takes. */
  ghost predicate Near(g: Graph, s: Node, inf: int, v: Node) {
    v in g && v != s ==> Edge(g, s, v) && g[s][v] < inf
  }

  /** With fewer than three nodes the tree is right exactly when every input is joined to the start below the given infinity. */
  lemma LoneTree(g: Graph, s: Node, inf: int, parent: map<Node, Node>, inputs: seq<Node>, tree: seq<Entry>)
    requires Sound(g) && s in g && |g| < 3 && Within(parent, Lone(g, s), s) && Grown(tree, |tree|, parent, s)
    requires forall v :: v in parent ==> v in inputs && Has(tree, v)
    requires forall x :: 0 <= x < |inputs| && inputs[x] in g && inputs[x] != s ==> inputs[x] in parent
    ensures ShortestPathTree(g, s, inf, inputs, tree) <==> forall x :: 0 <= x < |inputs| ==> Near(g, s, inf, inputs[x])
  {
    hide *;
    GrownTree(tree, parent, s);
    if forall x :: 0 <= x < |inputs| ==> Near(g, s, inf, inputs[x]) {
      forall i | 0 < i < |tree|
        ensures tree[i].parent < i && tree[i].data in g && Edge(g, tree[tree[i].parent].data, tree[i].data)
        ensures RootPath(tree, i) != [] && Answer(g, s, tree[i].data, inf, RootPath(tree, i)) && OnTheWay(tree, i, inputs)
      {
        LoneChild(g, s, inf, parent, tree, i);
        InputNear(g, s, inf, inputs, tree[i].data);
        OnTheWayIs(tree, i, i, inputs);
      }
      TreeIs(g, s, inf, inputs, tree);
    }
    if ShortestPathTree(g, s, inf, inputs, tree) {
      forall x | 0 <= x < |inputs| ensures Near(g, s, inf, inputs[x]) {
        var v := inputs[x];
        NearIs(g, s, inf, v);
        if v in g && v != s {
          var i := PlaceOf(tree, v);
          LoneChild(g, s, inf, parent, tree, i);
          TreeAnswer(g, s, inf, inputs, tree, i);
        }
      }
    }
  }

  lemma NearIs(g: Graph, s: Node, inf: int, v: Node)
    ensures Near(g, s, inf, v) <==> (v in g && v != s ==> Edge(g, s, v) && g[s][v] < inf)
  {
  }

  lemma InputNear(g: Graph, s: Node, inf: int, inputs: seq<Node>, v: Node)
    requires v in inputs && v in g && v != s && forall x :: 0 <= x < |inputs| ==> Near(g, s, inf, inputs[x])
    ensures Edge(g, s, v) && g[s][v] < inf
  {
  }

  lemma TreeAnswer(g: Graph, s: Node, inf: int, inputs: seq<Node>, tree: seq<Entry>, i: nat)
    requires ShortestPathTree(g, s, inf, inputs, tree) && 0 < i < |tree| && forall j :: 0 < j < |tree| ==> tree[j].parent < j
    ensures tree[i].data in g && Answer(g, s, tree[i].data, inf, RootPath(tree, i))
  {
  }

  // ---------------------------------------------------------------- collecting the paths

  ghost function MatrixFrom(graph: WeightedGraph, s: Node, inf: int): Matrix
    reads graph
  {
    Matrix(graph.adjacencyLists, s, inf, graph.costMatrix, graph.leastNodeArray, graph.order, graph.k)
  }

  /** The path to one input, if there is one, joins the graph of the paths. */
  method AddInput(graph: WeightedGraph, outGraph: WeightedGraph, startNode: Node, e: Node, inf: int,
          ghost parent0: map<Node, Node>, ghost inputs: seq<Node>)
    returns (ghost parent: map<Node, Node>)
    requires graph != outGraph && Sound(graph.adjacencyLists) && startNode in graph.adjacencyLists
    requires 0 < inf && graph.UpToDate(inf) && e in inputs
    requires Sound(outGraph.adjacencyLists) && Spanned(outGraph.adjacencyLists, parent0)
    requires (startNode in outGraph.adjacencyLists <==> parent0 != map[])
    requires Gathered(graph.isValidPath && graph.rootNode == startNode, MatrixFrom(graph, startNode, inf), parent0, inputs)
    modifies graph, outGraph`adjacencyLists
    ensures graph.adjacencyLists == old(graph.adjacencyLists) && graph.UpToDate(inf)
    ensures Sound(outGraph.adjacencyLists) && Spanned(outGraph.adjacencyLists, parent)
    ensures (startNode in outGraph.adjacencyLists <==> parent != map[])
    ensures Gathered(graph.isValidPath && graph.rootNode == startNode, MatrixFrom(graph, startNode, inf), parent, inputs)
    ensures parent0.Keys <= parent.Keys
    ensures e in graph.adjacencyLists && e != startNode ==>
      e in parent || (|graph.adjacencyLists| >= 3 && AtLeast(graph.adjacencyLists, startNode, e, inf))
  {
    hide *;
    parent := parent0;
    ghost var ok0, m0 := graph.isValidPath && graph.rootNode == startNode, MatrixFrom(graph, startNode, inf);
    MatrixFromIs(graph, startNode, inf);
    var path, res := graph.GetShortestPath(startNode, e, inf);
    graph.Current(inf);
    ghost var ok, m := graph.isValidPath && graph.rootNode == startNode, MatrixFrom(graph, startNode, inf);
    MatrixFromIs(graph, startNode, inf);
    GatheredAgain(ok0, m0, ok, m, parent0, inputs);
    if res && |path| > 0 {
      GatheredWithin(ok, m, parent0, inputs);
      if startNode != e {
        PathFollows(m, e, path);
      }
      parent := AddPath(outGraph, path, inf, startNode, AllOf(m), parent0);
      if startNode != e {
        FollowsFrom(path, AllOf(m), startNode);
        LastOf(path, e, startNode);
        GatheredMore(ok, m, parent0, parent, inputs, e, path);
      }
    } else if res {
      NothingBelow(graph.adjacencyLists, startNode, e, inf, path);
    }
    MatrixFromIs(graph, startNode, inf);
  }

  lemma MatrixFromIs(graph: WeightedGraph, s: Node, inf: int)
    ensures MatrixFrom(graph, s, inf) == Matrix(graph.adjacencyLists, s, inf, graph.costMatrix, graph.leastNodeArray, graph.order, graph.k)
  {
  }

  lemma LastOf(path: seq<Node>, e: Node, s: Node)
    requires path != [] && path[|path| - 1] == e && path[0] == s && e != s
    ensures |path| > 1
  {
  }

  lemma NothingSpanned(out: Graph)
    requires out == map[]
    ensures Sound(out) && Spanned(out, map[])
  {
  }

  /** A tree of the start alone, when no input is within reach. */
  lemma LoneRoot(g: Graph, s: Node, inf: int, inputs: seq<Node>)
    requires s in g && forall x :: 0 <= x < |inputs| && inputs[x] in g && inputs[x] != s ==> AtLeast(g, s, inputs[x], inf)
    ensures ShortestPathTree(g, s, inf, inputs, [Entry(s, 0)])
  {
  }

  /** Shortest paths to all the inputs, put together and read off breadth first. */
  method GetSpanningTree(graph: WeightedGraph, inputNodes: seq<Node>, startNode: Node, inf: int) returns (outTree: seq<Entry>, result: bool)
    requires Sound(graph.adjacencyLists) && startNode in graph.adjacencyLists && 0 < inf && graph.UpToDate(inf)
    modifies graph
    ensures graph.adjacencyLists == old(graph.adjacencyLists) && graph.UpToDate(inf) && (result <==> |outTree| > 1)
    ensures |graph.adjacencyLists| >= 3 ==> ShortestPathTree(graph.adjacencyLists, startNode, inf, inputNodes, outTree)
    ensures |graph.adjacencyLists| < 3 ==>
      (ShortestPathTree(graph.adjacencyLists, startNode, inf, inputNodes, outTree) <==>
        forall x :: 0 <= x < |inputNodes| ==> Near(graph.adjacencyLists, startNode, inf, inputNodes[x]))
  {
    hide *;
    var outGraph := new WeightedGraph();
    ghost var parent: map<Node, Node> := map[];
    NothingSpanned(outGraph.adjacencyLists);
    GatheredNone(graph.isValidPath && graph.rootNode == startNode, MatrixFrom(graph, startNode, inf), inputNodes);
    var i := 0;
    while i < |inputNodes|
      invariant 0 <= i <= |inputNodes| && fresh(outGraph) && graph.adjacencyLists == old(graph.adjacencyLists) && graph.UpToDate(inf)
      invariant Sound(outGraph.adjacencyLists) && Spanned(outGraph.adjacencyLists, parent)
      invariant (startNode in outGraph.adjacencyLists <==> parent != map[])
      invariant Gathered(graph.isValidPath && graph.rootNode == startNode, MatrixFrom(graph, startNode, inf), parent, inputNodes)
      invariant forall x :: 0 <= x < i && inputNodes[x] in graph.adjacencyLists && inputNodes[x] != startNode ==>
        inputNodes[x] in parent || (|graph.adjacencyLists| >= 3 && AtLeast(graph.adjacencyLists, startNode, inputNodes[x], inf))
    {
      parent := AddInput(graph, outGraph, startNode, inputNodes[i], inf, parent, inputNodes);
      i := i + 1;
    }
    outTree, result := [Entry(startNode, 0)], false;
    ghost var g, m := graph.adjacencyLists, MatrixFrom(graph, startNode, inf);
    MatrixFromIs(graph, startNode, inf);
    if startNode !in outGraph.adjacencyLists {
      LoneRoot(g, startNode, inf, inputNodes);
      NoneNear(g, startNode, inf, inputNodes);
      return;
    }
    ghost var rank := RankFor(graph.isValidPath && graph.rootNode == startNode, m, parent, inputNodes);
    outTree := BuildTree(outGraph.adjacencyLists, startNode, parent, rank);
    forall v | v in parent ensures Has(outTree, v) {
      AllInTree(outTree, parent, startNode, rank, v);
    }
    MoreThanRoot(outTree, parent, startNode, rank);
    if |g| >= 3 {
      GatheredBuilt(graph.isValidPath && graph.rootNode == startNode, m, parent, inputNodes);
      CollectedWithin(m, parent, inputNodes);
      TreeDone(m, parent, outTree, inputNodes);
    } else {
      GatheredLone(graph.isValidPath && graph.rootNode == startNode, m, parent, inputNodes);
      LoneTree(g, startNode, inf, parent, inputNodes, outTree);
    }
    result := true;
  }

  lemma NoneNear(g: Graph, s: Node, inf: int, inputs: seq<Node>)
    ensures (forall x :: 0 <= x < |inputs| ==> !(inputs[x] in g && inputs[x] != s)) ==> forall x :: 0 <= x < |inputs| ==> Near(g, s, inf, inputs[x])
  {
  }

  lemma GatheredLone(ok: bool, m: Matrix, parent: map<Node, Node>, inputs: seq<Node>)
    requires Gathered(ok, m, parent, inputs) && |m.g| < 3
    ensures Within(parent, Lone(m.g, m.s), m.s) && forall v :: v in parent ==> v in inputs
  {
  }

  /** A rank that rises from the root down. */
  lemma RankFor(ok: bool, m: Matrix, parent: map<Node, Node>, inputs: seq<Node>) returns (rank: map<Node, int>)
    requires Gathered(ok, m, parent, inputs) && parent != map[] && m.s in m.g
    ensures Rooted(parent, m.s, rank) && m.s !in parent
  {
    hide *;
    if |m.g| >= 3 {
      GatheredBuilt(ok, m, parent, inputs);
      CollectedWithin(m, parent, inputs);
      WithinParents(m, parent);
      ParentsRooted(m, parent);
      rank := RankOf(m);
    } else {
      GatheredLone(ok, m, parent, inputs);
      LoneRooted(m.g, m.s, parent);
      rank := map v | v in m.g :: if v == m.s then 0 else 1;
    }
  }

  lemma MoreThanRoot(tree: seq<Entry>, parent: map<Node, Node>, s: Node, rank: map<Node, int>)
    requires Grown(tree, |tree|, parent, s) && Rooted(parent, s, rank) && parent != map[]
    ensures |tree| > 1
  {
    assert parent.Keys == {} ==> parent == map[];
    SomeIn(parent.Keys);
    var v: Node :| v in parent.Keys;
    AllInTree(tree, parent, s, rank, v);
  }
}
