/** The weighted graph: the matrix of costs, the order in which nodes are settled, and the path read back out of them. */
module WeightedGraph {
  import opened ShortestPaths
  import H = Heap

  // ---------------------------------------------------------------- the rows of the matrix

  /** The first `r` nodes settled. */
  ghost function Settled(order: seq<Node>, r: nat): (done: set<Node>)
    requires r <= |order|
  {
    set i | 0 <= i < r :: order[i]
  }

  /** The costs row `r` starts from. */
  ghost function Before(g: Graph, s: Node, inf: int, rows: seq<Costs>, r: nat): Costs
    requires r <= |rows|
  {
    if r == 0 then Start(g, s, inf) else rows[r - 1]
  }

  /** Row `r` holds the costs after node `order[r]` was chosen and its edges tried. */
  ghost predicate Row(g: Graph, s: Node, inf: int, rows: seq<Costs>, order: seq<Node>, r: nat)
    requires r < |rows| && r < |order| && forall i :: 0 <= i < |rows| ==> rows[i].Keys == g.Keys
  {
    && Chosen(g, Before(g, s, inf, rows, r), Settled(order, r), order[r], s, inf)
    && rows[r] == Relaxed(g, Before(g, s, inf, rows, r), order[r])
  }

  ghost predicate Rows(g: Graph, s: Node, inf: int, rows: seq<Costs>, order: seq<Node>, k: nat) {
    && Sound(g) && s in g && 0 < inf && k <= |rows| && k <= |order| && (order != [] ==> order[0] == s)
    && (forall i :: 0 <= i < |rows| ==> rows[i].Keys == g.Keys)
    && (forall r :: 0 <= r < k ==> Row(g, s, inf, rows, order, r))
  }

  lemma SettledNext(order: seq<Node>, r: nat)
    requires r < |order|
    ensures Settled(order, r + 1) == Settled(order, r) + {order[r]}
  {
  }

  lemma RowAt(g: Graph, s: Node, inf: int, rows: seq<Costs>, order: seq<Node>, k: nat, r: nat)
    requires Rows(g, s, inf, rows, order, k) && r < k
    ensures r < |rows| && r < |order| && Before(g, s, inf, rows, r).Keys == g.Keys && order[r] in g
    ensures Chosen(g, Before(g, s, inf, rows, r), Settled(order, r), order[r], s, inf)
    ensures rows[r] == Relaxed(g, Before(g, s, inf, rows, r), order[r]) && Before(g, s, inf, rows, r + 1) == rows[r]
  {
    assert Row(g, s, inf, rows, order, r);
  }

  lemma RowsStart(g: Graph, s: Node, inf: int, rows: seq<Costs>, order: seq<Node>, k: nat)
    requires Rows(g, s, inf, rows, order, k)
    ensures k <= |rows| && k <= |order| && Settled(order, 0) == {} && Before(g, s, inf, rows, 0) == Start(g, s, inf)
    ensures Sound(g) && s in g && 0 < inf && (order != [] ==> order[0] == s)
  {
  }

  lemma {:induction false} RowsAccurate(g: Graph, s: Node, inf: int, rows: seq<Costs>, order: seq<Node>, k: nat, r: nat)
    requires Rows(g, s, inf, rows, order, k) && r <= k <= |rows| && k <= |order|
    ensures Accurate(g, s, inf, Before(g, s, inf, rows, r), Settled(order, r))
    decreases r
  {
    hide *;
    RowsStart(g, s, inf, rows, order, k);
    if r == 0 {
      StartAccurate(g, s, inf);
    } else {
      RowsAccurate(g, s, inf, rows, order, k, r - 1);
      RowAt(g, s, inf, rows, order, k, r - 1);
      SettledNext(order, r - 1);
      RelaxedAccurate(g, s, inf, Before(g, s, inf, rows, r - 1), Settled(order, r - 1), order[r - 1]);
    }
  }

  /** No row is dearer than the one before it, in any column. */
  lemma RowsFall(g: Graph, s: Node, inf: int, rows: seq<Costs>, order: seq<Node>, k: nat, r: nat, v: Node)
    requires Rows(g, s, inf, rows, order, k) && r < k && v in g
    ensures v in Before(g, s, inf, rows, r) && rows[r][v] <= Before(g, s, inf, rows, r)[v]
  {
    RowAt(g, s, inf, rows, order, k, r);
  }

  /** Nodes are settled in order of distance. */
  lemma SettledInOrder(g: Graph, s: Node, inf: int, rows: seq<Costs>, order: seq<Node>, k: nat, r: nat)
    requires Rows(g, s, inf, rows, order, k) && r + 1 < k
    ensures order[r] in g && order[r + 1] in g
    ensures Before(g, s, inf, rows, r)[order[r]] <= Before(g, s, inf, rows, r + 1)[order[r + 1]]
  {
    hide *;
    RowsStart(g, s, inf, rows, order, k);
    RowAt(g, s, inf, rows, order, k, r);
    RowAt(g, s, inf, rows, order, k, r + 1);
    RowsAccurate(g, s, inf, rows, order, k, r);
    SettledStay(g, s, inf, Before(g, s, inf, rows, r), Settled(order, r), order[r]);
    SettledNext(order, r);
    ChosenDearest(g, rows[r], Settled(order, r + 1), order[r + 1], s, inf, order[r]);
  }

  lemma ChosenDearest(g: Graph, d: Costs, done: set<Node>, c: Node, s: Node, inf: int, u: Node)
    requires d.Keys == g.Keys && Chosen(g, d, done, c, s, inf) && u in done
    ensures c in g && u in g && d[u] <= d[c]
  {
  }

  /** The cost of a node never changes once it is settled. */
  lemma SettledFixed(g: Graph, s: Node, inf: int, rows: seq<Costs>, order: seq<Node>, k: nat, r: nat, v: Node)
    requires Rows(g, s, inf, rows, order, k) && r < k && v in Settled(order, r + 1)
    ensures v in g && rows[r][v] == Before(g, s, inf, rows, r)[v]
  {
    hide *;
    RowsStart(g, s, inf, rows, order, k);
    RowAt(g, s, inf, rows, order, k, r);
    RowsAccurate(g, s, inf, rows, order, k, r);
    SettledNext(order, r);
    SettledInGraph(g, s, inf, rows, order, k, r + 1);
    SettledStay(g, s, inf, Before(g, s, inf, rows, r), Settled(order, r), order[r]);
  }

  lemma SettledInGraph(g: Graph, s: Node, inf: int, rows: seq<Costs>, order: seq<Node>, k: nat, r: nat)
    requires Rows(g, s, inf, rows, order, k) && r <= k
    ensures k <= |order| && Settled(order, r) <= g.Keys
  {
    SettledSize(g, s, inf, rows, order, k, r);
  }

  lemma {:induction false} SettledSize(g: Graph, s: Node, inf: int, rows: seq<Costs>, order: seq<Node>, k: nat, r: nat)
    requires Rows(g, s, inf, rows, order, k) && r <= k
    ensures |Settled(order, r)| == r && Settled(order, r) <= g.Keys
    decreases r
  {
    if r > 0 {
      SettledSize(g, s, inf, rows, order, k, r - 1);
      RowAt(g, s, inf, rows, order, k, r - 1);
      SettledNext(order, r - 1);
    }
  }

  // ---------------------------------------------------------------- the finished matrix

  /** A matrix: the graph, the start and the cost that stands for none, its rows, the table of settled nodes, the nodes in
      the order they were settled, and how many rows were worked out. */
  datatype Matrix = Matrix(g: Graph, s: Node, inf: int, rows: seq<Costs>, least: map<nat, Node>, order: seq<Node>, k: nat)

  /** The matrix is finished: `k` rows were worked out, the rows after them repeat the last, and either nothing
      was left open or the one node left was settled last of all.  `least[r]` is the node settled after row `r`. */
  ghost predicate Built(m: Matrix) {
    && Rows(m.g, m.s, m.inf, m.rows, m.order, m.k) && 1 <= m.k < |m.rows| == |m.g|
    && (forall r :: m.k <= r < |m.rows| ==> m.rows[r] == m.rows[m.k - 1])
    && (forall r :: 0 <= r < |m.order| - 1 ==> r in m.least && m.least[r] == m.order[r + 1])
    && if |m.order| == m.k then forall v :: v in m.g && v !in Settled(m.order, m.k) ==> m.rows[m.k - 1][v] == m.inf
       else |m.order| == |m.g| == m.k + 1 && Chosen(m.g, m.rows[m.k - 1], Settled(m.order, m.k), m.order[m.k], m.s, m.inf)
  }

  /** The last row holds the distance of every node within reach, and `inf` for every other. */
  lemma BuiltDistance(m: Matrix, v: Node)
    requires Built(m) && v in m.g
    ensures v in m.rows[|m.g| - 2] && AtLeast(m.g, m.s, v, m.rows[|m.g| - 2][v]) && m.rows[|m.g| - 2][v] <= m.inf
    ensures m.rows[|m.g| - 2][v] != m.inf ==> Reaches(m.g, m.s, v, m.rows[|m.g| - 2][v])
  {
    hide *;
    BuiltLast(m);
    RowsAccurate(m.g, m.s, m.inf, m.rows, m.order, m.k, m.k);
    var d, done := m.rows[m.k - 1], Settled(m.order, m.k);
    AccurateAt(m.g, m.s, m.inf, d, done, v);
    if v !in done {
      if |m.order| == m.k {
        NothingOpen(m.g, m.s, m.inf, d, done, v);
      } else {
        OneLeft(m.g, m.s, m.inf, m.rows, m.order, m.k, v);
        ChosenLowest(m.g, m.s, m.inf, d, done, v);
      }
    }
  }

  lemma AccurateAt(g: Graph, s: Node, inf: int, d: Costs, done: set<Node>, v: Node)
    requires Accurate(g, s, inf, d, done) && v in g
    ensures v in d && d[v] <= inf && (d[v] != inf ==> Reaches(g, s, v, d[v])) && (v in done ==> AtLeast(g, s, v, d[v]))
  {
    hide AtLeast, Reaches;
  }

  lemma BuiltLast(m: Matrix)
    requires Built(m)
    ensures 1 <= m.k < |m.rows| == |m.g| && |m.g| >= 2 && m.rows[|m.g| - 2] == m.rows[m.k - 1] == Before(m.g, m.s, m.inf, m.rows, m.k)
    ensures m.rows[m.k - 1].Keys == m.g.Keys && Rows(m.g, m.s, m.inf, m.rows, m.order, m.k) && m.k <= |m.rows| && m.k <= |m.order|
    ensures m.s in Settled(m.order, m.k)
    ensures if |m.order| == m.k then forall u :: u in m.g && u !in Settled(m.order, m.k) ==> m.rows[m.k - 1][u] == m.inf
      else
        && |m.order| == |m.g| == m.k + 1 && m.order[m.k] in m.g && m.order[m.k] !in Settled(m.order, m.k)
        && Chosen(m.g, m.rows[m.k - 1], Settled(m.order, m.k), m.order[m.k], m.s, m.inf)
  {
    assert m.order[0] in Settled(m.order, m.k);
  }

  /** All nodes but one are settled. */
  lemma OneLeft(g: Graph, s: Node, inf: int, rows: seq<Costs>, order: seq<Node>, k: nat, v: Node)
    requires Rows(g, s, inf, rows, order, k) && k + 1 == |order| == |g| && v in g && v !in Settled(order, k)
    requires order[k] in g && order[k] !in Settled(order, k)
    ensures v == order[k]
  {
    SettledSize(g, s, inf, rows, order, k, k);
    var rest := g.Keys - Settled(order, k);
    assert |rest| == |g.Keys| - k;
    if v != order[k] {
      assert {v, order[k]} <= rest;
      TwoOfOne({v, order[k]}, rest);
    }
  }

  lemma TwoOfOne(a: set<Node>, b: set<Node>)
    requires a <= b
    ensures |a| <= |b|
  {
    assert b == a + (b - a);
  }

  // ---------------------------------------------------------------- reading a path back

  /** The cost of `v` fell in row `r + 1`: the node settled after row `r` is its neighbour, and explains the cost. */
  lemma StepBack(g: Graph, s: Node, inf: int, rows: seq<Costs>, order: seq<Node>, k: nat, r: nat, v: Node)
    requires Rows(g, s, inf, rows, order, k) && r + 1 < k && v in g && rows[r + 1][v] != rows[r][v]
    ensures var c := order[r + 1];
      Edge(g, c, v) && c in g && c != s && rows[r][c] + g[c][v] == rows[r + 1][v] && rows[r][c] == rows[r + 1][c] && rows[r][c] < inf
  {
    var c := order[r + 1];
    RowAt(g, s, inf, rows, order, k, r + 1);
    RowsStart(g, s, inf, rows, order, k);
    assert order[0] in Settled(order, r + 1);
    assert Edge(g, c, c) ==> false;
  }

  /** The cost of `v` was set in the first row: the start is its neighbour. */
  lemma FirstStep(g: Graph, s: Node, inf: int, rows: seq<Costs>, order: seq<Node>, k: nat, v: Node)
    requires Rows(g, s, inf, rows, order, k) && 0 < k && v in g && v != s && rows[0][v] != inf
    ensures Edge(g, s, v) && g[s][v] == rows[0][v]
  {
    RowAt(g, s, inf, rows, order, k, 0);
    RowsStart(g, s, inf, rows, order, k);
  }

  /** Rows that differ were both worked out, and a node was settled between them. */
  lemma RowsDiffer(m: Matrix, r: nat, v: Node)
    requires Built(m) && r + 1 < |m.rows| && v in m.g && v in m.rows[r] && v in m.rows[r + 1] && m.rows[r + 1][v] != m.rows[r][v]
    ensures r + 1 < m.k && r in m.least && m.least[r] == m.order[r + 1]
  {
  }

  lemma BuiltRows(m: Matrix)
    requires Built(m)
    ensures Rows(m.g, m.s, m.inf, m.rows, m.order, m.k) && 1 <= m.k <= |m.order| && m.k < |m.rows| == |m.g| && Sound(m.g) && m.s in m.g
    ensures forall i :: 0 <= i < |m.rows| ==> m.rows[i].Keys == m.g.Keys
  {
  }

  /** The last row up to `r` in which the cost of `v` fell. */
  ghost function LastChange(rows: seq<Costs>, v: Node, r: nat): (c: nat)
    requires r < |rows| && forall i :: 0 <= i < |rows| ==> v in rows[i]
    ensures c <= r && (c > 0 ==> rows[c][v] != rows[c - 1][v]) && forall i :: c <= i <= r ==> rows[i][v] == rows[c][v]
  {
    if r == 0 || rows[r][v] != rows[r - 1][v] then r else LastChange(rows, v, r - 1)
  }

  /** The node settled when the cost of `v` last fell: its predecessor, which no table holds. */
  ghost function Predecessor(m: Matrix, v: Node, r: nat): (u: Node)
    requires Built(m) && v in m.g && r < |m.rows|
    ensures u in m.g
  {
    BuiltRows(m);
    var c := LastChange(m.rows, v, r);
    if c == 0 then m.s else
      RowsDiffer(m, c - 1, v);
      RowAt(m.g, m.s, m.inf, m.rows, m.order, m.k, c);
      m.order[c]
  }

  /** From predecessor to predecessor, back to the start. */
  ghost function Trail(m: Matrix, v: Node, r: nat): (p: seq<Node>)
    requires Built(m) && v in m.g && r < |m.rows|
    decreases r
  {
    BuiltRows(m);
    var c := LastChange(m.rows, v, r);
    if c > 0 then Trail(m, Predecessor(m, v, r), c - 1) + [v]
    else if v == m.s then [m.s] else [m.s, v]
  }

  lemma ChangeStep(rows: seq<Costs>, v: Node, r: nat)
    requires r < |rows| && forall i :: 0 <= i < |rows| ==> v in rows[i]
    ensures r == 0 ==> LastChange(rows, v, r) == 0
    ensures r > 0 ==> LastChange(rows, v, r) == if rows[r][v] != rows[r - 1][v] then r else LastChange(rows, v, r - 1)
  {
  }

  lemma PredecessorIs(m: Matrix, v: Node, r: nat)
    requires Built(m) && v in m.g && r < |m.rows|
    ensures forall i :: 0 <= i < |m.rows| ==> v in m.rows[i]
    ensures var c := LastChange(m.rows, v, r);
      if c == 0 then Predecessor(m, v, r) == m.s else c < |m.order| && m.order[c] in m.g && Predecessor(m, v, r) == m.order[c]
  {
    BuiltRows(m);
    var c := LastChange(m.rows, v, r);
    if c > 0 {
      RowsDiffer(m, c - 1, v);
      RowAt(m.g, m.s, m.inf, m.rows, m.order, m.k, c);
    }
    hide Built, Rows, LastChange;
  }

  lemma TrailIs(m: Matrix, v: Node, r: nat)
    requires Built(m) && v in m.g && r < |m.rows|
    ensures forall i :: 0 <= i < |m.rows| ==> v in m.rows[i]
    ensures var c := LastChange(m.rows, v, r);
      Trail(m, v, r) == if c > 0 then Trail(m, Predecessor(m, v, r), c - 1) + [v] else if v == m.s then [m.s] else [m.s, v]
  {
    hide Built, Rows, LastChange, Predecessor, Row, Sound, Edge, Path;
    PredecessorIs(m, v, r);
  }

  lemma TrailStep(m: Matrix, v: Node, r: nat)
    requires Built(m) && v in m.g && r < |m.rows|
    ensures v in m.rows[r] && (r > 0 ==> v in m.rows[r - 1])
    ensures r == 0 ==> Trail(m, v, r) == if v == m.s then [m.s] else [m.s, v]
    ensures r > 0 && m.rows[r][v] == m.rows[r - 1][v] ==> Trail(m, v, r) == Trail(m, v, r - 1)
    ensures r > 0 && m.rows[r][v] != m.rows[r - 1][v] ==> r < |m.order| && m.order[r] in m.g && Trail(m, v, r) == Trail(m, m.order[r], r - 1) + [v]
  {
    hide *;
    TrailIs(m, v, r);
    PredecessorIs(m, v, r);
    ChangeStep(m.rows, v, r);
    if r > 0 {
      TrailIs(m, v, r - 1);
      PredecessorIs(m, v, r - 1);
    }
  }

  /** A node's cost is the same in every row from the one it was settled in. */
  lemma SettledNoChange(m: Matrix, c: nat, i: nat)
    requires Built(m) && c < m.k && c <= i < |m.rows| && i > 0
    ensures m.order[c] in m.rows[i] && m.order[c] in m.rows[i - 1] && m.rows[i][m.order[c]] == m.rows[i - 1][m.order[c]]
  {
    hide *;
    BuiltRows(m);
    RowAt(m.g, m.s, m.inf, m.rows, m.order, m.k, c);
    if i < m.k {
      InSettled(m.order, c, i + 1);
      SettledFixed(m.g, m.s, m.inf, m.rows, m.order, m.k, i, m.order[c]);
      RowAt(m.g, m.s, m.inf, m.rows, m.order, m.k, i - 1);
    } else {
      RowsRepeat(m, i);
    }
  }

  lemma InSettled(order: seq<Node>, c: nat, r: nat)
    requires c < r <= |order|
    ensures order[c] in Settled(order, r)
  {
  }

  lemma RowsRepeat(m: Matrix, i: nat)
    requires Built(m) && m.k <= i < |m.rows| && i > 0
    ensures m.rows[i] == m.rows[i - 1]
  {
    hide Rows, Chosen, Settled;
  }

  /** So its last change, and the trail to it, can be read off from the row before. */
  lemma {:induction false} SettledTrail(m: Matrix, c: nat, r: nat)
    requires Built(m) && c < m.k && c <= r + 1 && r < |m.rows|
    ensures m.order[c] in m.g && LastChange(m.rows, m.order[c], r) <= (if c == 0 then 0 else c - 1)
    ensures Trail(m, m.order[c], r) == Trail(m, m.order[c], if c == 0 then 0 else c - 1)
    decreases r
  {
    hide *;
    BuiltRows(m);
    RowAt(m.g, m.s, m.inf, m.rows, m.order, m.k, c);
    var base := if c == 0 then 0 else c - 1;
    if r > base {
      SettledNoChange(m, c, r);
      ChangeStep(m.rows, m.order[c], r);
      TrailStep(m, m.order[c], r);
      SettledTrail(m, c, r - 1);
    }
  }

  lemma StartTrail(m: Matrix)
    requires Built(m)
    ensures m.s in m.g && |m.g| >= 2 && Trail(m, m.s, |m.g| - 2) == [m.s] && forall i :: 0 <= i < |m.rows| ==> m.s in m.rows[i]
  {
    hide *;
    BuiltRows(m);
    BuiltStart(m);
    SettledTrail(m, 0, |m.g| - 2);
    TrailStep(m, m.s, 0);
  }

  /** A node's trail is its predecessor's trail and the node; the predecessor's cost last fell earlier. */
  lemma TrailOfPredecessor(m: Matrix, v: Node)
    requires Built(m) && v in m.g && v != m.s && |m.g| >= 2
    ensures forall i :: 0 <= i < |m.rows| ==> v in m.rows[i] && m.s in m.rows[i]
    ensures Trail(m, m.s, |m.g| - 2) == [m.s]
    ensures var u := Predecessor(m, v, |m.g| - 2);
      && u in m.g && (forall i :: 0 <= i < |m.rows| ==> u in m.rows[i])
      && Trail(m, v, |m.g| - 2) == Trail(m, u, |m.g| - 2) + [v]
      && (u == m.s || LastChange(m.rows, u, |m.g| - 2) < LastChange(m.rows, v, |m.g| - 2))
  {
    hide *;
    BuiltRows(m);
    StartTrail(m);
    PredecessorIs(m, v, |m.g| - 2);
    TrailIs(m, v, |m.g| - 2);
    ChangedIn(m, v, |m.g| - 2);
    var c := LastChange(m.rows, v, |m.g| - 2);
    if c > 0 {
      SettledTrail(m, c, |m.g| - 2);
    } else {
      assert [m.s] + [v] == [m.s, v];
    }
  }

  lemma BuiltStart(m: Matrix)
    requires Built(m)
    ensures m.k >= 1 && |m.order| >= 1 && m.order[0] == m.s && |m.g| == |m.rows| >= 2
  {
  }

  lemma ChangedIn(m: Matrix, v: Node, r: nat)
    requires Built(m) && v in m.g && r < |m.rows|
    ensures forall i :: 0 <= i < |m.rows| ==> v in m.rows[i]
    ensures LastChange(m.rows, v, r) < m.k
  {
    BuiltRows(m);
    var c := LastChange(m.rows, v, r);
    if c > 0 {
      RowsDiffer(m, c - 1, v);
    }
    hide Built, Rows, LastChange;
  }

  /** From the row after it was settled on, a node's cost is the same in any two rows. */
  lemma {:induction false} SettledCost(m: Matrix, c: nat, i: nat)
    requires Built(m) && c < m.k && c <= i < |m.rows|
    ensures m.order[c] in m.rows[i] && m.order[c] in m.rows[c] && m.rows[i][m.order[c]] == m.rows[c][m.order[c]]
    decreases i
  {
    hide *;
    BuiltRows(m);
    RowAt(m.g, m.s, m.inf, m.rows, m.order, m.k, c);
    if i > c {
      SettledNoChange(m, c, i);
      SettledCost(m, c, i - 1);
    }
  }

  lemma StartCost(m: Matrix, i: nat)
    requires Built(m) && i < |m.rows|
    ensures m.s in m.rows[i] && m.rows[i][m.s] == 0
  {
    hide *;
    BuiltRows(m);
    BuiltStart(m);
    SettledCost(m, 0, i);
    FirstRow(m.g, m.s, m.inf, m.rows, m.order, m.k);
  }

  lemma FirstRow(g: Graph, s: Node, inf: int, rows: seq<Costs>, order: seq<Node>, k: nat)
    requires Rows(g, s, inf, rows, order, k) && 0 < k
    ensures |rows| > 0 && s in rows[0] && rows[0][s] == 0
  {
    RowsAccurate(g, s, inf, rows, order, k, 1);
  }

  /** The edge from a node's predecessor makes up the difference of their costs. */
  lemma PredecessorEdge(m: Matrix, v: Node)
    requires Built(m) && v in m.g && v != m.s && |m.g| - 2 >= 0 && v in m.rows[|m.g| - 2] && m.rows[|m.g| - 2][v] != m.inf
    ensures var u := Predecessor(m, v, |m.g| - 2);
      Edge(m.g, u, v) && u in m.rows[|m.g| - 2] && m.rows[|m.g| - 2][u] != m.inf && m.rows[|m.g| - 2][u] + m.g[u][v] == m.rows[|m.g| - 2][v]
  {
    hide *;
    BuiltRows(m);
    PredecessorIs(m, v, |m.g| - 2);
    ChangedIn(m, v, |m.g| - 2);
    var c := LastChange(m.rows, v, |m.g| - 2);
    assert m.rows[c][v] == m.rows[|m.g| - 2][v];
    if c == 0 {
      FirstEdge(m, v);
    } else {
      LaterEdge(m, v, c);
    }
  }

  /** The edge by which the cost was set in the first row. */
  lemma FirstEdge(m: Matrix, v: Node)
    requires Built(m) && v in m.g && v != m.s && |m.rows| == |m.g| >= 2 && v in m.rows[0] && m.rows[0][v] != m.inf
    ensures Edge(m.g, m.s, v) && m.s in m.rows[|m.g| - 2] && m.rows[|m.g| - 2][m.s] == 0 != m.inf && m.g[m.s][v] == m.rows[0][v]
  {
    hide *;
    BuiltRows(m);
    StartCost(m, |m.g| - 2);
    FirstStep(m.g, m.s, m.inf, m.rows, m.order, m.k, v);
    PositiveLimit(m);
  }

  /** The edge by which the cost fell in row `c`, as the last row shows it. */
  lemma LaterEdge(m: Matrix, v: Node, c: nat)
    requires Built(m) && v in m.g && 0 < c < m.k && |m.rows| == |m.g| >= 2 && forall i :: 0 <= i < |m.rows| ==> m.rows[i].Keys == m.g.Keys
    requires m.rows[c][v] != m.rows[c - 1][v]
    ensures c < |m.order| && m.order[c] in m.g
    ensures var u := m.order[c];
      && Edge(m.g, u, v) && u in m.rows[|m.g| - 2] && m.rows[|m.g| - 2][u] != m.inf
      && m.rows[|m.g| - 2][u] + m.g[u][v] == m.rows[c][v]
  {
    hide *;
    BuiltRows(m);
    StepBack(m.g, m.s, m.inf, m.rows, m.order, m.k, c - 1, v);
    SettledCost(m, c, |m.g| - 2);
  }

  lemma PositiveLimit(m: Matrix)
    requires Built(m)
    ensures 0 < m.inf
  {
  }

  /** A node's trail is a shortest path to it. */
  lemma {:induction false} TrailShortest(m: Matrix, v: Node)
    requires Built(m) && v in m.g && |m.g| - 2 >= 0 && v in m.rows[|m.g| - 2] && m.rows[|m.g| - 2][v] != m.inf
    requires forall i :: 0 <= i < |m.rows| ==> v in m.rows[i]
    ensures Joins(m.g, m.s, v, Trail(m, v, |m.g| - 2)) && Path(m.g, Trail(m, v, |m.g| - 2))
    ensures Weight(m.g, Trail(m, v, |m.g| - 2)) == m.rows[|m.g| - 2][v]
    decreases if v == m.s then -1 else LastChange(m.rows, v, |m.g| - 2)
  {
    hide *;
    BuiltRows(m);
    if v == m.s {
      StartTrail(m);
      StartCost(m, |m.g| - 2);
      OneNode(m.g, m.s);
    } else {
      var u := Predecessor(m, v, |m.g| - 2);
      TrailOfPredecessor(m, v);
      PredecessorEdge(m, v);
      TrailShortest(m, u);
      OneMore(m.g, m.s, u, v, Trail(m, u, |m.g| - 2));
    }
  }

  lemma OneMore(g: Graph, s: Node, u: Node, v: Node, p: seq<Node>)
    requires Joins(g, s, u, p) && Edge(g, u, v)
    ensures Path(g, p) && Joins(g, s, v, p + [v]) && Path(g, p + [v]) && Weight(g, p + [v]) == Weight(g, p) + g[u][v]
  {
    var q := p + [v];
    assert q[..|q| - 1] == p;
  }

  lemma QueueTails(t: seq<Node>, v: Node, c: Node, q: seq<Node>)
    requires q != [] && q[0] == v
    ensures t + [v] + q[1..] == t + ([c] + q)[1..] && [c, v] + q[1..] == [c] + q && t + [v][1..] == t
  {
    assert q == [v] + q[1..] && ([c] + q)[1..] == q;
  }

  /** What is gathered so far: a path from `v` on, with the cost of `v` still to explain, and the end of the whole trail. */
  ghost predicate Gathered(m: Matrix, v: Node, r: nat, e: Node, q: seq<Node>, whole: seq<Node>, total: int)
    requires Built(m) && v in m.g && r < |m.rows|
  {
    BuiltRows(m);
    Joins(m.g, v, e, q) && Weight(m.g, q) + m.rows[r][v] == total && m.rows[r][v] != m.inf && v != m.s && Trail(m, v, r) + q[1..] == whole
  }

  lemma GatheredFirst(m: Matrix, e: Node, r: nat)
    requires Built(m) && e in m.g && r < |m.rows| && e != m.s
    ensures e in m.rows[r] && (m.rows[r][e] != m.inf ==> Gathered(m, e, r, e, [e], Trail(m, e, r), m.rows[r][e]))
  {
    BuiltRows(m);
    OneNode(m.g, e);
    hide Built, Rows, Trail;
  }

  /** The cost was the same in the row before. */
  lemma GatheredUp(m: Matrix, v: Node, r: nat, e: Node, q: seq<Node>, whole: seq<Node>, total: int)
    requires Built(m) && v in m.g && 0 < r < |m.rows| && Gathered(m, v, r, e, q, whole, total)
    requires v in m.rows[r] && v in m.rows[r - 1] && m.rows[r][v] == m.rows[r - 1][v]
    ensures Gathered(m, v, r - 1, e, q, whole, total)
  {
    TrailStep(m, v, r);
    hide Built, Rows, Trail;
  }

  lemma GatheredIs(m: Matrix, v: Node, r: nat, e: Node, q: seq<Node>, whole: seq<Node>, total: int)
    requires Built(m) && v in m.g && r < |m.rows|
    ensures v in m.rows[r]
    ensures Gathered(m, v, r, e, q, whole, total) ==> Joins(m.g, v, e, q) && Path(m.g, q) && q != [] && q[0] == v && v != m.s
    ensures Joins(m.g, v, e, q) ==> Path(m.g, q) && q != []
    ensures Gathered(m, v, r, e, q, whole, total) ==> Weight(m.g, q) + m.rows[r][v] == total && Trail(m, v, r) + q[1..] == whole
    ensures
      Joins(m.g, v, e, q) && Weight(m.g, q) + m.rows[r][v] == total && m.rows[r][v] != m.inf && v != m.s && Trail(m, v, r) + q[1..] == whole ==>
      Gathered(m, v, r, e, q, whole, total)
  {
    BuiltRows(m);
    hide Built, Rows, Trail, Weight;
  }

  /** The cost fell in this row: the node settled before comes in front. */
  lemma GatheredBack(m: Matrix, v: Node, r: nat, e: Node, q: seq<Node>, whole: seq<Node>, total: int)
    requires Built(m) && v in m.g && r + 1 < |m.rows| && Gathered(m, v, r + 1, e, q, whole, total)
    requires v in m.rows[r] && v in m.rows[r + 1] && m.rows[r + 1][v] != m.rows[r][v]
    ensures r in m.least && m.least[r] in m.g && m.least[r] in m.rows[r] && m.least[r] in m.rows[r + 1]
    ensures m.rows[r][m.least[r]] == m.rows[r + 1][m.least[r]] != m.inf
    ensures Gathered(m, m.least[r], r, e, [m.least[r]] + q, whole, total)
    ensures Gathered(m, m.least[r], r + 1, e, [m.least[r]] + q, whole, total)
  {
    hide *;
    BuiltRows(m);
    RowsDiffer(m, r, v);
    StepBack(m.g, m.s, m.inf, m.rows, m.order, m.k, r, v);
    var c := m.least[r];
    TrailStep(m, v, r + 1);
    TrailStep(m, c, r + 1);
    GatheredIs(m, v, r + 1, e, q, whole, total);
    QueueTails(Trail(m, c, r), v, c, q);
    PrependJoins(m.g, c, v, e, q);
    GatheredIs(m, c, r, e, [c] + q, whole, total);
    GatheredIs(m, c, r + 1, e, [c] + q, whole, total);
  }

  /** Only the start is left to put in front. */
  lemma GatheredAll(m: Matrix, v: Node, e: Node, q: seq<Node>, whole: seq<Node>, total: int)
    requires Built(m) && v in m.g && 0 < |m.rows| && Gathered(m, v, 0, e, q, whole, total)
    ensures [m.s] + q == whole && Joins(m.g, m.s, e, [m.s] + q) && Weight(m.g, [m.s] + q) == total
  {
    BuiltRows(m);
    FirstStep(m.g, m.s, m.inf, m.rows, m.order, m.k, v);
    TrailStep(m, v, 0);
    hide Built, Rows, Trail;
    QueueTails([], v, m.s, q);
    PrependJoins(m.g, m.s, v, e, q);
  }

  lemma JoinsPath(g: Graph, s: Node, e: Node, p: seq<Node>)
    requires Joins(g, s, e, p)
    ensures p != [] && Path(g, p)
  {
  }

  /** Walk from the last row to the first, stepping to the node that explains each change of cost. */
  method ReadBack(g: Graph, s: Node, inf: int, rows: seq<Costs>, least: map<nat, Node>, ghost order: seq<Node>, ghost k: nat, e: Node)
    returns (path: seq<Node>)
    requires Built(Matrix(g, s, inf, rows, least, order, k)) && |g| >= 3 && e in g && e != s
    ensures path == [] <==> e in rows[|g| - 2] && rows[|g| - 2][e] == inf
    ensures path != [] ==> Path(g, path) && Joins(g, s, e, path) && e in rows[|g| - 2] && Weight(g, path) == rows[|g| - 2][e]
    ensures path != [] ==> path == Trail(Matrix(g, s, inf, rows, least, order, k), e, |g| - 2)
  {
    hide *;
    BuiltRows(Matrix(g, s, inf, rows, least, order, k));
    path := [];
    var row := |g| - 2;
    ghost var whole, total := Trail(Matrix(g, s, inf, rows, least, order, k), e, row), rows[row][e];
    var currentWeight := rows[row][e];
    if currentWeight == inf {
      return;
    }
    var vertex := e;
    var outputQueue := [vertex];
    GatheredFirst(Matrix(g, s, inf, rows, least, order, k), e, row);
    row := row - 1;
    while true
      invariant 0 <= row <= |g| - 3 && vertex in g && rows[row + 1][vertex] == currentWeight
      invariant Gathered(Matrix(g, s, inf, rows, least, order, k), vertex, row + 1, e, outputQueue, whole, total)
      decreases 2 * row + if rows[row][vertex] == currentWeight then 0 else 1
    {
      while rows[row][vertex] == currentWeight
        invariant 0 <= row <= |g| - 3 && rows[row + 1][vertex] == currentWeight
        invariant Gathered(Matrix(g, s, inf, rows, least, order, k), vertex, row + 1, e, outputQueue, whole, total)
        decreases row
      {
        GatheredUp(Matrix(g, s, inf, rows, least, order, k), vertex, row + 1, e, outputQueue, whole, total);
        if row == 0 {
          GatheredAll(Matrix(g, s, inf, rows, least, order, k), vertex, e, outputQueue, whole, total);
          path := [s] + outputQueue;
          JoinsPath(g, s, e, path);
          return;
        }
        row := row - 1;
      }
      GatheredBack(Matrix(g, s, inf, rows, least, order, k), vertex, row, e, outputQueue, whole, total);
      vertex := least[row];
      outputQueue := [vertex] + outputQueue;
      if row == 0 {
        break;
      }
      currentWeight := rows[row][vertex];
    }
    GatheredAll(Matrix(g, s, inf, rows, least, order, k), vertex, e, outputQueue, whole, total);
    path := [s] + outputQueue;
    JoinsPath(g, s, e, path);
  }

  lemma OneNode(g: Graph, e: Node)
    requires e in g
    ensures Path(g, [e]) && Joins(g, e, e, [e]) && Weight(g, [e]) == 0
  {
  }

  // ---------------------------------------------------------------- filling the matrix

  /** The nodes the search has met but not settled, with their costs. */
  ghost function Open(g: Graph, d: Costs, done: set<Node>, inf: int): map<Node, int>
    requires d.Keys == g.Keys
  {
    map v | v in g && v !in done && d[v] != inf :: d[v]
  }

  /** Every row from `row` on gets cost `x` for node `v`. */
  method FillRows(rows: seq<Costs>, row: nat, v: Node, x: int) returns (r: seq<Costs>)
    requires row <= |rows|
    ensures |r| == |rows|
    ensures forall i :: 0 <= i < row ==> r[i] == rows[i]
    ensures forall i :: row <= i < |rows| ==> r[i] == rows[i][v := x]
  {
    r := rows;
    var row2 := row;
    while row2 < |rows|
      invariant row <= row2 <= |rows| == |r|
      invariant forall i :: 0 <= i < row || row2 <= i < |r| ==> r[i] == rows[i]
      invariant forall i :: row <= i < row2 ==> r[i] == rows[i][v := x]
    {
      r := r[row2 := r[row2][v := x]];
      row2 := row2 + 1;
    }
  }

  /** The costs once the edges from `c` to the nodes in `tried` have been tried. */
  ghost function Tried(g: Graph, d: Costs, c: Node, tried: set<Node>): (r: Costs)
    requires c in g && d.Keys == g.Keys
    ensures r.Keys == g.Keys
  {
    map v | v in g :: if v in tried && v in g[c] && d[c] + g[c][v] < d[v] then d[c] + g[c][v] else d[v]
  }

  lemma TriedAll(g: Graph, d: Costs, c: Node)
    requires c in g && d.Keys == g.Keys
    ensures Tried(g, d, c, {}) == d && Tried(g, d, c, g[c].Keys) == Relaxed(g, d, c)
  {
  }

  lemma TryOne(g: Graph, s: Node, inf: int, d: Costs, done: set<Node>, c: Node, tried: set<Node>, v: Node)
    requires Accurate(g, s, inf, d, done) && Chosen(g, d, done, c, s, inf) && Edge(g, c, v) && v !in tried
    ensures v in g && Tried(g, d, c, tried)[v] == d[v] && Tried(g, d, c, tried)[c] == d[c]
    ensures d[c] + g[c][v] < d[v] ==>
      && Tried(g, d, c, tried + {v}) == Tried(g, d, c, tried)[v := d[c] + g[c][v]]
      && Open(g, Tried(g, d, c, tried + {v}), done + {c}, inf) == Open(g, Tried(g, d, c, tried), done + {c}, inf)[v := d[c] + g[c][v]]
    ensures d[c] + g[c][v] >= d[v] ==> Tried(g, d, c, tried + {v}) == Tried(g, d, c, tried)
  {
    hide *;
    TryFacts(g, s, inf, d, done, c, v);
    TriedStep(g, d, c, tried, v);
    if d[c] + g[c][v] < d[v] {
      OpenStep(g, Tried(g, d, c, tried), done + {c}, inf, v, d[c] + g[c][v]);
    }
  }

  lemma TryFacts(g: Graph, s: Node, inf: int, d: Costs, done: set<Node>, c: Node, v: Node)
    requires Accurate(g, s, inf, d, done) && Chosen(g, d, done, c, s, inf) && Edge(g, c, v)
    ensures c in g && v in g && v in g[c] && c !in g[c] && d.Keys == g.Keys
    ensures d[c] + g[c][v] < d[v] ==> v !in done + {c} && d[c] + g[c][v] < inf
  {
    hide AtLeast, Reaches, Tight;
    assert Edge(g, c, c) ==> false;
  }

  lemma TriedStep(g: Graph, d: Costs, c: Node, tried: set<Node>, v: Node)
    requires c in g && d.Keys == g.Keys && v in g && v in g[c] && v !in tried && c !in g[c]
    ensures Tried(g, d, c, tried)[v] == d[v] && Tried(g, d, c, tried)[c] == d[c]
    ensures Tried(g, d, c, tried + {v}) ==
      if d[c] + g[c][v] < d[v] then Tried(g, d, c, tried)[v := d[c] + g[c][v]] else Tried(g, d, c, tried)
  {
  }

  lemma OpenStep(g: Graph, d: Costs, done: set<Node>, inf: int, v: Node, x: int)
    requires d.Keys == g.Keys && v in g && v !in done && x != inf
    ensures d[v := x].Keys == g.Keys && Open(g, d[v := x], done, inf) == Open(g, d, done, inf)[v := x]
  {
  }

  /** Try every edge out of `c`, in whatever order, keeping the rows from `row` on and the open set in step. */
  method TryEdges(g: Graph, s: Node, inf: int, rows: seq<Costs>, row: nat, c: Node, weight: int,
          open: map<Node, int>, ghost done: set<Node>)
    returns (rows1: seq<Costs>, open1: map<Node, int>)
    requires row < |rows| && rows[row].Keys == g.Keys && forall i :: row <= i < |rows| ==> rows[i] == rows[row]
    requires Accurate(g, s, inf, rows[row], done) && Chosen(g, rows[row], done, c, s, inf) && c in g && weight == rows[row][c]
    requires open == Open(g, rows[row], done + {c}, inf)
    ensures |rows1| == |rows| && forall i :: 0 <= i < row ==> rows1[i] == rows[i]
    ensures forall i :: row <= i < |rows| ==> rows1[i] == Relaxed(g, rows[row], c)
    ensures open1 == Open(g, Relaxed(g, rows[row], c), done + {c}, inf)
  {
    hide *;
    ghost var d: Costs, tried: set<Node> := rows[row], {};
    rows1, open1 := rows, open;
    var left: set<Node> := g[c].Keys;
    TriedAll(g, d, c);
    while left != {}
      invariant |rows1| == |rows| && tried + left == g[c].Keys && tried !! left
      invariant forall i :: 0 <= i < row ==> rows1[i] == rows[i]
      invariant forall i :: row <= i < |rows| ==> rows1[i] == Tried(g, d, c, tried)
      invariant open1 == Open(g, Tried(g, d, c, tried), done + {c}, inf)
      decreases |left|
    {
      SomeIn(left);
      var adjacentKey: Node :| adjacentKey in left;
      var edgeWeight := g[c][adjacentKey];
      EdgeOf(g, c, adjacentKey);
      TryOne(g, s, inf, d, done, c, tried, adjacentKey);
      if weight + edgeWeight < rows1[row][adjacentKey] {
        rows1 := FillRows(rows1, row, adjacentKey, weight + edgeWeight);
        open1 := open1[adjacentKey := weight + edgeWeight];
      }
      tried, left := tried + {adjacentKey}, left - {adjacentKey};
    }
    assert tried == g[c].Keys;
  }

  lemma SomeIn(left: set<Node>)
    ensures left == {} || exists v :: v in left
  {
    if forall v :: v !in left {
      assert left == {};
    }
  }

  lemma EdgeOf(g: Graph, c: Node, v: Node)
    requires c in g && v in g[c]
    ensures Edge(g, c, v)
  {
  }

  /** The cheapest open node, by way of the heap. */
  method FindLowest(open: map<Node, int>) returns (found: bool, c: Node, weight: int)
    ensures found <==> open != map[]
    ensures found ==> c in open && open[c] == weight && forall v :: v in open ==> weight <= open[v]
  {
    var minHeap := new H.Heap<Node>(false);
    var left: set<Node> := open.Keys;
    while left != {}
      invariant fresh(minHeap) && !minHeap.isMaxHeap && H.Ordered(false, minHeap.heap) && left <= open.Keys
      invariant forall x :: x in minHeap.heap ==> x.data in open && open[x.data] == x.weight
      invariant forall v :: v in open && v !in left ==> H.HeapNode(open[v], v) in multiset(minHeap.heap)
      invariant |minHeap.heap| + |left| == |open.Keys|
      decreases |left|
    {
      SomeIn(left);
      var key: Node :| key in left;
      ghost var before := minHeap.heap;
      minHeap.Push(open[key], key);
      assert |multiset(minHeap.heap)| == |multiset(before)| + 1;
      forall x | x in minHeap.heap ensures x.data in open && open[x.data] == x.weight {
        assert x in multiset(minHeap.heap);
      }
      left := left - {key};
    }
    found, c, weight := |minHeap.heap| > 0, 0, 0;
    if found {
      weight := minHeap.PeekWeight();
      ghost var first := minHeap.heap[0];
      forall v | v in open ensures weight <= open[v] {
        assert H.HeapNode(open[v], v) in minHeap.heap;
      }
      c := minHeap.Pop();
    }
  }

  lemma RowsExtend(g: Graph, s: Node, inf: int, rows: seq<Costs>, order: seq<Node>, k: nat, rows1: seq<Costs>)
    requires Rows(g, s, inf, rows, order, k) && k < |rows| == |rows1| && |order| == k + 1
    requires Chosen(g, Before(g, s, inf, rows, k), Settled(order, k), order[k], s, inf)
    requires forall i :: 0 <= i < k ==> rows1[i] == rows[i]
    requires forall i :: k <= i < |rows1| ==> rows1[i] == Relaxed(g, Before(g, s, inf, rows, k), order[k])
    ensures Rows(g, s, inf, rows1, order, k + 1)
  {
    forall r | 0 <= r < k + 1 ensures r < |order| && (forall i :: 0 <= i < |rows1| ==> rows1[i].Keys == g.Keys) && Row(g, s, inf, rows1, order, r) {
      if r < k {
        assert Row(g, s, inf, rows, order, r);
      }
    }
  }

  lemma SettledPrefix(order: seq<Node>, o: seq<Node>, r: nat)
    requires r <= |order| <= |o| && forall i :: 0 <= i < |order| ==> o[i] == order[i]
    ensures Settled(o, r) == Settled(order, r)
  {
    forall x ensures x in Settled(o, r) <==> x in Settled(order, r) {
      if x in Settled(o, r) {
        var i :| 0 <= i < r && o[i] == x;
        assert order[i] == x;
      }
      if x in Settled(order, r) {
        var i :| 0 <= i < r && order[i] == x;
        assert o[i] == x;
      }
    }
  }

  lemma RowsAppend(g: Graph, s: Node, inf: int, rows: seq<Costs>, order: seq<Node>, k: nat, c: Node)
    requires Rows(g, s, inf, rows, order, k) && |order| == k > 0
    ensures Rows(g, s, inf, rows, order + [c], k) && Settled(order + [c], k) == Settled(order, k)
    ensures Settled(order + [c], k + 1) == Settled(order, k) + {c}
  {
    var o := order + [c];
    forall r | 0 <= r < k ensures Row(g, s, inf, rows, o, r) {
      assert Row(g, s, inf, rows, order, r);
      SettledPrefix(order, o, r);
    }
    SettledNext(o, k);
    SettledPrefix(order, o, k);
  }

  /** The cheapest open node may be settled next. */
  lemma OpenChosen(g: Graph, s: Node, inf: int, d: Costs, done: set<Node>, c: Node, c1: Node)
    requires Accurate(g, s, inf, d, done) && Chosen(g, d, done, c, s, inf)
    requires var r := Relaxed(g, d, c); var open := Open(g, r, done + {c}, inf);
      c1 in open && forall v :: v in open ==> open[c1] <= open[v]
    ensures var r := Relaxed(g, d, c);
      && c1 in g && Chosen(g, r, done + {c}, c1, s, inf) && Open(g, r, done + {c}, inf)[c1] == r[c1]
      && Open(g, r, done + {c} + {c1}, inf) == Open(g, r, done + {c}, inf) - {c1}
  {
    hide *;
    AccurateKeys(g, s, inf, d, done);
    SettledStay(g, s, inf, d, done, c);
    var r, done1 := Relaxed(g, d, c), done + {c};
    OpenIs(g, r, done1, inf);
    ChosenParts(g, d, done, c, s, inf);
    ChosenIs(g, r, done1, c1, s, inf);
    OpenWithout(g, r, done1, inf, c1);
  }

  lemma AccurateKeys(g: Graph, s: Node, inf: int, d: Costs, done: set<Node>)
    requires Accurate(g, s, inf, d, done)
    ensures d.Keys == g.Keys
  {
  }

  lemma OpenIs(g: Graph, d: Costs, done: set<Node>, inf: int)
    requires d.Keys == g.Keys
    ensures forall v :: v in Open(g, d, done, inf) <==> v in g && v !in done && d[v] != inf
    ensures forall v :: v in Open(g, d, done, inf) ==> Open(g, d, done, inf)[v] == d[v]
  {
  }

  lemma OpenWithout(g: Graph, d: Costs, done: set<Node>, inf: int, c: Node)
    requires d.Keys == g.Keys
    ensures Open(g, d, done + {c}, inf) == Open(g, d, done, inf) - {c}
  {
  }

  lemma ChosenParts(g: Graph, d: Costs, done: set<Node>, c: Node, s: Node, inf: int)
    requires d.Keys == g.Keys && Chosen(g, d, done, c, s, inf)
    ensures c in g && done <= g.Keys && forall u :: u in done ==> d[u] <= d[c]
  {
  }

  lemma ChosenIs(g: Graph, d: Costs, done: set<Node>, c: Node, s: Node, inf: int)
    requires d.Keys == g.Keys && c in g && c !in done && d[c] < inf && done <= g.Keys && done != {}
    requires forall v :: v in g && v !in done ==> d[c] <= d[v]
    requires forall u :: u in done ==> d[u] <= d[c]
    ensures Chosen(g, d, done, c, s, inf)
  {
  }

  lemma NoneOpen(g: Graph, d: Costs, done: set<Node>, inf: int)
    requires d.Keys == g.Keys && Open(g, d, done, inf) == map[]
    ensures forall v :: v in g && v !in done ==> d[v] == inf
  {
    assert forall v :: v in g && v !in done && d[v] != inf ==> v in Open(g, d, done, inf);
  }

  lemma StartRows(g: Graph, s: Node, inf: int, rows: seq<Costs>)
    requires Sound(g) && s in g && 0 < inf && forall i :: 0 <= i < |rows| ==> rows[i] == Start(g, s, inf)
    ensures Rows(g, s, inf, rows, [s], 0) && Before(g, s, inf, rows, 0) == Start(g, s, inf) && Settled([s], 0) == {}
    ensures Open(g, Start(g, s, inf), Settled([s], 0) + {s}, inf) == map[] && |g| >= 1 && Start(g, s, inf)[s] == 0 && Settled([s], 1) == {s}
  {
    assert s in g.Keys;
  }

  /** A matrix of unknown costs, with the column of the start cleared. */
  method FreshMatrix(g: Graph, s: Node, inf: int) returns (rows: seq<Costs>)
    requires s in g
    ensures |rows| == |g| && forall i :: 0 <= i < |rows| ==> rows[i] == Start(g, s, inf)
  {
    var blank: Costs := map v | v in g :: inf;
    assert blank[s := 0] == Start(g, s, inf);
    rows := seq(|g|, i => blank);
    rows := FillRows(rows, 0, s, 0);
  }

  /** Rows up to `row` are worked out and the rest are as the last of them; `c` is to be settled next. */
  ghost predicate Filling(g: Graph, s: Node, inf: int, rows: seq<Costs>, least: map<nat, Node>, order: seq<Node>, row: nat, c: Node,
                          weight: int, open: map<Node, int>)
  {
    && row < |g| == |rows| && |order| == row + 1 && c == order[row] && Rows(g, s, inf, rows, order, row)
    && (forall i :: row <= i < |rows| ==> rows[i] == Before(g, s, inf, rows, row))
    && (forall r :: 0 <= r < row ==> r in least && least[r] == order[r + 1])
    && Before(g, s, inf, rows, row).Keys == g.Keys && Chosen(g, Before(g, s, inf, rows, row), Settled(order, row), c, s, inf)
    && c in g && weight == Before(g, s, inf, rows, row)[c]
    && open == Open(g, Before(g, s, inf, rows, row), Settled(order, row) + {c}, inf)
  }

  lemma FillingStart(g: Graph, s: Node, inf: int, rows: seq<Costs>)
    requires Sound(g) && s in g && 0 < inf && |rows| == |g| && forall i :: 0 <= i < |rows| ==> rows[i] == Start(g, s, inf)
    ensures Filling(g, s, inf, rows, map[], [s], 0, s, 0, map[])
  {
    hide Chosen, Rows, Open;
    StartRows(g, s, inf, rows);
    StartAccurate(g, s, inf);
  }

  /** What trying the edges needs to know. */
  lemma FillingRow(g: Graph, s: Node, inf: int, rows: seq<Costs>, least: map<nat, Node>, order: seq<Node>, row: nat, c: Node,
                   weight: int, open: map<Node, int>)
    requires Filling(g, s, inf, rows, least, order, row, c, weight, open)
    ensures row < |rows| == |g| && |order| == row + 1 && c == order[row] && c in g && rows[row].Keys == g.Keys
    ensures forall i :: row <= i < |rows| ==> rows[i] == rows[row]
    ensures rows[row] == Before(g, s, inf, rows, row) && Rows(g, s, inf, rows, order, row) && weight == rows[row][c]
    ensures Accurate(g, s, inf, rows[row], Settled(order, row)) && Chosen(g, rows[row], Settled(order, row), c, s, inf)
    ensures open == Open(g, rows[row], Settled(order, row) + {c}, inf)
  {
    hide Rows, Before, Chosen, Settled, Open, Accurate;
    RowsAccurate(g, s, inf, rows, order, row, row);
  }

  /** The row worked out, and the rows after it. */
  ghost predicate Filled(g: Graph, s: Node, inf: int, rows: seq<Costs>, order: seq<Node>, k: nat) {
    && 0 < k <= |rows| && |order| == k && Rows(g, s, inf, rows, order, k) && rows[k - 1].Keys == g.Keys
    && forall i :: k - 1 <= i < |rows| ==> rows[i] == rows[k - 1]
  }

  lemma FilledRow(g: Graph, s: Node, inf: int, was: seq<Costs>, order: seq<Node>, row: nat, rows: seq<Costs>)
    requires row < |was| == |rows| && |order| == row + 1 && order[row] in g && was[row].Keys == g.Keys
    requires was[row] == Before(g, s, inf, was, row) && Rows(g, s, inf, was, order, row)
    requires Chosen(g, was[row], Settled(order, row), order[row], s, inf)
    requires forall i :: 0 <= i < row ==> rows[i] == was[i]
    requires forall i :: row <= i < |rows| ==> rows[i] == Relaxed(g, was[row], order[row])
    ensures Filled(g, s, inf, rows, order, row + 1) && rows[row] == Relaxed(g, was[row], order[row])
  {
    hide Rows, Before, Chosen, Settled, Relaxed;
    RowsExtend(g, s, inf, was, order, row, rows);
  }

  /** Nothing is open: the matrix is finished early. */
  lemma FillingStops(g: Graph, s: Node, inf: int, rows: seq<Costs>, least: map<nat, Node>, order: seq<Node>, row: nat)
    requires Filled(g, s, inf, rows, order, row + 1) && row + 1 < |rows| == |g| && Open(g, rows[row], Settled(order, row + 1), inf) == map[]
    requires forall r :: 0 <= r < row ==> r in least && least[r] == order[r + 1]
    ensures Built(Matrix(g, s, inf, rows, least, order, row + 1))
  {
    hide Rows, Settled, Open;
    NoneOpen(g, rows[row], Settled(order, row + 1), inf);
    hide Built;
    BuiltEarly(Matrix(g, s, inf, rows, least, order, row + 1));
  }

  /** The cheapest open node is next. */
  lemma FillingNext(g: Graph, s: Node, inf: int, rows: seq<Costs>, least: map<nat, Node>, order: seq<Node>, row: nat, lowest: Node, w: int)
    requires Filled(g, s, inf, rows, order, row + 1) && row + 1 < |rows| == |g|
    requires forall r :: 0 <= r < row ==> r in least && least[r] == order[r + 1]
    requires lowest in g && Chosen(g, rows[row], Settled(order, row) + {order[row]}, lowest, s, inf) && w == rows[row][lowest]
    ensures var open := Open(g, rows[row], Settled(order, row) + {order[row]}, inf);
      Filling(g, s, inf, rows, least[row := lowest], order + [lowest], row + 1, lowest, w, open - {lowest})
  {
    hide Rows, Settled, Open, Chosen;
    SettledNext(order, row);
    RowsAppend(g, s, inf, rows, order, row + 1, lowest);
    OpenWithout(g, rows[row], Settled(order, row) + {order[row]}, inf, lowest);
  }

  lemma FillingDone(g: Graph, s: Node, inf: int, rows: seq<Costs>, least: map<nat, Node>, order: seq<Node>, row: nat, c: Node,
                    weight: int, open: map<Node, int>)
    requires Filling(g, s, inf, rows, least, order, row, c, weight, open) && row == |g| - 1 >= 1
    ensures Built(Matrix(g, s, inf, rows, least, order, row))
  {
    hide Rows, Before, Chosen, Settled, Open, Built;
    BuiltFully(Matrix(g, s, inf, rows, least, order, row));
  }

  lemma FillingLeast(g: Graph, s: Node, inf: int, rows: seq<Costs>, least: map<nat, Node>, order: seq<Node>, row: nat, c: Node,
                     weight: int, open: map<Node, int>)
    requires Filling(g, s, inf, rows, least, order, row, c, weight, open)
    ensures row < |g| == |rows| && |order| == row + 1 && forall r :: 0 <= r < row ==> r in least && least[r] == order[r + 1]
  {
    hide Rows, Before, Chosen, Settled, Open;
  }

  method GenerateMatrix(g: Graph, s: Node, inf: int)
    returns (rows: seq<Costs>, least: map<nat, Node>, ghost order: seq<Node>, ghost k: nat)
    requires Sound(g) && s in g && 0 < inf
    ensures |rows| == |g| && (|g| >= 2 ==> Built(Matrix(g, s, inf, rows, least, order, k)))
  {
    hide *;
    rows := FreshMatrix(g, s, inf);
    FillingStart(g, s, inf, rows);
    var currentNode, row, weight := s, 0, 0;
    var open: map<Node, int> := map[];
    order, least := [s], map[];
    FillingLeast(g, s, inf, rows, least, order, row, currentNode, weight, open);
    while row < |g| - 1
      invariant 0 <= row < |g| == |rows| && Filling(g, s, inf, rows, least, order, row, currentNode, weight, open)
    {
      FillingLeast(g, s, inf, rows, least, order, row, currentNode, weight, open);
      FillingRow(g, s, inf, rows, least, order, row, currentNode, weight, open);
      ghost var was, done := rows, Settled(order, row);
      rows, open := TryEdges(g, s, inf, rows, row, currentNode, weight, open, done);
      FilledRow(g, s, inf, was, order, row, rows);
      var found, lowest, w := FindLowest(open);
      if !found {
        SettledNext(order, row);
        k := row + 1;
        FillingStops(g, s, inf, rows, least, order, row);
        return;
      }
      OpenChosen(g, s, inf, was[row], done, currentNode, lowest);
      FillingNext(g, s, inf, rows, least, order, row, lowest, w);
      weight, least, currentNode := w, least[row := lowest], lowest;
      open := open - {lowest};
      row, order := row + 1, order + [lowest];
    }
    k := row;
    if |g| >= 2 {
      FillingDone(g, s, inf, rows, least, order, row, currentNode, weight, open);
    }
  }

  lemma BuiltEarly(m: Matrix)
    requires Rows(m.g, m.s, m.inf, m.rows, m.order, m.k) && 1 <= m.k < |m.rows| == |m.g| && |m.order| == m.k
    requires forall i :: m.k - 1 <= i < |m.rows| ==> m.rows[i] == m.rows[m.k - 1]
    requires forall r :: 0 <= r < m.k - 1 ==> r in m.least && m.least[r] == m.order[r + 1]
    requires m.rows[m.k - 1].Keys == m.g.Keys && forall v :: v in m.g && v !in Settled(m.order, m.k) ==> m.rows[m.k - 1][v] == m.inf
    ensures Built(m)
  {
  }

  lemma BuiltFully(m: Matrix)
    requires Rows(m.g, m.s, m.inf, m.rows, m.order, m.k) && 1 <= m.k == |m.g| - 1 && |m.order| == |m.rows| == |m.g|
    requires forall i :: m.k <= i < |m.rows| ==> m.rows[i] == Before(m.g, m.s, m.inf, m.rows, m.k)
    requires forall r :: 0 <= r < m.k ==> r in m.least && m.least[r] == m.order[r + 1]
    requires Before(m.g, m.s, m.inf, m.rows, m.k).Keys == m.g.Keys
    requires Chosen(m.g, Before(m.g, m.s, m.inf, m.rows, m.k), Settled(m.order, m.k), m.order[m.k], m.s, m.inf)
    ensures Built(m)
  {
  }

  /** What a call for the shortest path must return. */
  ghost predicate Answer(g: Graph, s: Node, e: Node, inf: int, path: seq<Node>)
    requires e in g
  {
    if path == [] then AtLeast(g, s, e, inf)
    else Joins(g, s, e, path) && Weight(g, path) < inf && AtLeast(g, s, e, Weight(g, path))
  }

  lemma AnswerRead(m: Matrix, e: Node, path: seq<Node>)
    requires Built(m) && e in m.g && |m.g| >= 3 && |m.rows| == |m.g| && e in m.rows[|m.g| - 2]
    requires path == [] <==> m.rows[|m.g| - 2][e] == m.inf
    requires path != [] ==> Path(m.g, path) && Joins(m.g, m.s, e, path) && Weight(m.g, path) == m.rows[|m.g| - 2][e]
    ensures Answer(m.g, m.s, e, m.inf, path)
  {
    BuiltDistance(m, e);
  }

  lemma BuiltSize(m: Matrix)
    requires Built(m)
    ensures |m.rows| == |m.g| >= 2 && m.s in m.g && forall i :: 0 <= i < |m.rows| ==> m.rows[i].Keys == m.g.Keys
  {
  }

  ghost function WithArc(g: Graph, u: Node, v: Node, w: int): Graph {
    g[u := (if u in g then g[u] else map[])[v := w]]
  }

  lemma ArcAdded(g: Graph, u: Node, v: Node, w: int)
    ensures WithArc(g, u, v, w).Keys == g.Keys + {u}
    ensures forall x, y :: Edge(WithArc(g, u, v, w), x, y) <==> (x == u && y == v) || Edge(g, x, y)
    ensures forall x, y :: Edge(WithArc(g, u, v, w), x, y) ==> WithArc(g, u, v, w)[x][y] == if x == u && y == v then w else g[x][y]
  {
  }

  lemma Connected(g: Graph, n1: Node, n2: Node, w: int)
    requires Sound(g) && 0 <= w && n1 != n2
    ensures var g1 := WithArc(WithArc(g, n1, n2, w), n2, n1, w);
      && Sound(g1) && g1.Keys == g.Keys + {n1, n2}
      && (forall u, v :: Edge(g1, u, v) <==> (u == n1 && v == n2) || (u == n2 && v == n1) || Edge(g, u, v))
      && forall u, v :: Edge(g1, u, v) ==> g1[u][v] == if {u, v} == {n1, n2} then w else g[u][v]
  {
    var h := WithArc(g, n1, n2, w);
    var g1 := WithArc(h, n2, n1, w);
    ArcAdded(g, n1, n2, w);
    ArcAdded(h, n2, n1, w);
    hide WithArc;
    forall u, v | Edge(g1, u, v) ensures v in g1 && v != u && 0 <= g1[u][v] {
      assert Edge(g, u, v) || (u == n1 && v == n2) || (u == n2 && v == n1);
    }
    forall u, v | Edge(g1, u, v) ensures g1[u][v] == if {u, v} == {n1, n2} then w else g[u][v] {
      assert Edge(h, u, v) || (u == n2 && v == n1);
    }
  }

  class WeightedGraph {
    var adjacencyLists: Graph
    var isValidPath: bool
    var rootNode: Node
    var costMatrixIndices: set<Node>
    var costMatrix: seq<Costs>
    var leastNodeArray: map<nat, Node>
    ghost var order: seq<Node>
    ghost var k: nat

    constructor ()
      ensures adjacencyLists == map[] && !isValidPath
    {
      adjacencyLists, isValidPath, costMatrix := map[], false, [];
      rootNode, costMatrixIndices, leastNodeArray, order, k := 0, {}, map[], [], 0;
    }

    /** The matrix, if there is one, was made from the graph as it is now.  `AddNode` and `AddConnection` do not keep this. */
    ghost predicate UpToDate(inf: int)
      reads this
    {
      isValidPath ==>
        && costMatrixIndices == adjacencyLists.Keys && |costMatrix| == |adjacencyLists|
        && (|adjacencyLists| >= 2 ==> Built(Matrix(adjacencyLists, rootNode, inf, costMatrix, leastNodeArray, order, k)))
    }

    method AddNode(node: Node)
      requires Sound(adjacencyLists) && node !in adjacencyLists
      modifies this`adjacencyLists
      ensures Sound(adjacencyLists) && adjacencyLists == old(adjacencyLists)[node := map[]]
    {
      adjacencyLists := adjacencyLists[node := map[]];
      assert forall u, v :: Edge(adjacencyLists, u, v) ==> Edge(old(adjacencyLists), u, v);
    }

    /** Afterwards the two nodes are joined both ways with this weight, and every other edge is as it was. */
    method AddConnection(node1: Node, node2: Node, weight: int)
      requires Sound(adjacencyLists) && 0 <= weight
      modifies this`adjacencyLists
      ensures Sound(adjacencyLists)
      ensures node1 == node2 ==> adjacencyLists == old(adjacencyLists)
      ensures node1 != node2 ==>
        && adjacencyLists.Keys == old(adjacencyLists).Keys + {node1, node2}
        && forall u, v :: Edge(adjacencyLists, u, v) <==> (u == node1 && v == node2) || (u == node2 && v == node1) || Edge(old(adjacencyLists), u, v)
      ensures node1 != node2 ==> forall u, v :: Edge(adjacencyLists, u, v) ==>
        adjacencyLists[u][v] == if {u, v} == {node1, node2} then weight else old(adjacencyLists)[u][v]
    {
      if node1 == node2 {
        return;
      }
      ghost var was := adjacencyLists;
      if node1 !in adjacencyLists {
        AddNode(node1);
      }
      adjacencyLists := adjacencyLists[node1 := adjacencyLists[node1][node2 := weight]];
      assert adjacencyLists == WithArc(was, node1, node2, weight);
      if node2 !in adjacencyLists {
        adjacencyLists := adjacencyLists[node2 := map[]];
      }
      adjacencyLists := adjacencyLists[node2 := adjacencyLists[node2][node1 := weight]];
      assert adjacencyLists == WithArc(WithArc(was, node1, node2, weight), node2, node1, weight);
      hide WithArc, Edge, Sound;
      Connected(was, node1, node2, weight);
    }

    method GetShortestPath(startNode: Node, endNode: Node, inf: int) returns (path: seq<Node>, result: bool)
      requires Sound(adjacencyLists) && startNode in adjacencyLists && 0 < inf && UpToDate(inf)
      modifies this
      ensures adjacencyLists == old(adjacencyLists) && UpToDate(inf)
      ensures startNode == endNode ==> result && path == [startNode, endNode] && !Path(adjacencyLists, path)
      ensures startNode != endNode ==> (result <==> endNode in adjacencyLists) && (!result ==> path == [])
      ensures startNode != endNode && result && |adjacencyLists| >= 3 ==> Answer(adjacencyLists, startNode, endNode, inf, path)
      ensures startNode != endNode && result && |adjacencyLists| < 3 ==>
        && |adjacencyLists| == 2 && path == [startNode, endNode]
        && (Answer(adjacencyLists, startNode, endNode, inf, path) <==>
            Edge(adjacencyLists, startNode, endNode) && adjacencyLists[startNode][endNode] < inf)
      ensures startNode != endNode && result ==> isValidPath && rootNode == startNode
      ensures startNode != endNode && result && |adjacencyLists| >= 3 && path != [] ==>
        (path == Trail(Matrix(adjacencyLists, rootNode, inf, costMatrix, leastNodeArray, order, k), endNode, |adjacencyLists| - 2))
      ensures old(isValidPath) && old(rootNode) == startNode ==> isValidPath && rootNode == startNode
      ensures old(isValidPath) && old(rootNode) == startNode ==>
        costMatrix == old(costMatrix) && leastNodeArray == old(leastNodeArray) && order == old(order) && k == old(k)
    {
      hide *;
      path, result := [], false;
      if startNode == endNode {
        path, result := [startNode, endNode], true;
        SelfNoPath(adjacencyLists, startNode);
        return;
      }
      Refresh(startNode, inf);
      Current(inf);
      if |costMatrixIndices| < 2 {
        OneNodeOnly(adjacencyLists.Keys, startNode, endNode);
        return;
      }
      if endNode !in costMatrixIndices {
        return;
      }
      result := true;
      if |costMatrixIndices| - 2 == 0 {
        path := [startNode, endNode];
        OnlyTwo(adjacencyLists.Keys, startNode, endNode);
        TwoNodes(adjacencyLists, startNode, endNode, inf);
        return;
      }
      ghost var m := Matrix(adjacencyLists, rootNode, inf, costMatrix, leastNodeArray, order, k);
      BuiltSize(m);
      path := ReadBack(adjacencyLists, rootNode, inf, costMatrix, leastNodeArray, order, k, endNode);
      AnswerRead(m, endNode, path);
    }

    /** The matrix is made once for a start. */
    method Refresh(startNode: Node, inf: int)
      requires Sound(adjacencyLists) && startNode in adjacencyLists && 0 < inf && UpToDate(inf)
      modifies this
      ensures adjacencyLists == old(adjacencyLists) && UpToDate(inf) && isValidPath && rootNode == startNode
      ensures old(isValidPath) && old(rootNode) == startNode ==>
        costMatrix == old(costMatrix) && leastNodeArray == old(leastNodeArray) && order == old(order) && k == old(k)
    {
      hide *;
      Current(inf);
      if !isValidPath || rootNode != startNode {
        costMatrix, leastNodeArray, order, k := GenerateMatrix(adjacencyLists, startNode, inf);
        rootNode, costMatrixIndices, isValidPath := startNode, adjacencyLists.Keys, true;
      }
      Refreshed(inf);
    }

    lemma Current(inf: int)
      requires UpToDate(inf)
      ensures isValidPath ==>
        && costMatrixIndices == adjacencyLists.Keys && |costMatrix| == |adjacencyLists|
        && (|adjacencyLists| >= 2 ==> Built(Matrix(adjacencyLists, rootNode, inf, costMatrix, leastNodeArray, order, k)))
        && |costMatrixIndices| == |adjacencyLists|
    {
    }

    lemma Refreshed(inf: int)
      requires isValidPath && costMatrixIndices == adjacencyLists.Keys && |costMatrix| == |adjacencyLists|
      requires |adjacencyLists| >= 2 ==> Built(Matrix(adjacencyLists, rootNode, inf, costMatrix, leastNodeArray, order, k))
      ensures UpToDate(inf)
    {
    }
  }

  lemma OneNodeOnly(nodes: set<Node>, s: Node, e: Node)
    requires s in nodes && e != s && |nodes| < 2
    ensures e !in nodes
  {
    if e in nodes {
      TwoOfOne({s, e}, nodes);
    }
  }

  lemma OnlyTwo(nodes: set<Node>, s: Node, e: Node)
    requires s in nodes && e in nodes && s != e && |nodes| == 2
    ensures nodes == {s, e}
  {
    assert |nodes - {s} - {e}| == 0;
  }

  /** Every path from one of two nodes to the other ends with the edge between them. */
  lemma LastEdge(g: Graph, s: Node, e: Node, p: seq<Node>)
    requires Sound(g) && g.Keys == {s, e} && s != e && Joins(g, s, e, p)
    ensures Edge(g, s, e) && g[s][e] <= Weight(g, p)
  {
    var q, u := p[..|p| - 1], p[|p| - 2];
    assert Edge(g, u, e) && u in g.Keys;
    WeightNonNegative(g, q);
  }

  lemma TwoNodePath(g: Graph, s: Node, e: Node)
    requires s in g && Edge(g, s, e)
    ensures Joins(g, s, e, [s, e]) && Weight(g, [s, e]) == g[s][e]
  {
    assert [s, e][..1] == [s] && Path(g, [s]) && Weight(g, [s]) == 0;
  }

  /** With two nodes the answer is right exactly when they are joined by a weight below the given infinity. */
  lemma TwoNodes(g: Graph, s: Node, e: Node, inf: int)
    requires Sound(g) && g.Keys == {s, e} && s != e
    ensures e in g && s in g && (Answer(g, s, e, inf, [s, e]) <==> Edge(g, s, e) && g[s][e] < inf)
  {
    assert e in g.Keys && s in g.Keys;
    if Edge(g, s, e) {
      TwoNodePath(g, s, e);
      forall p | Joins(g, s, e, p) ensures g[s][e] <= Weight(g, p) {
        LastEdge(g, s, e, p);
      }
    } else if Joins(g, s, e, [s, e]) {
      LastEdge(g, s, e, [s, e]);
    }
  }

  /** Two nodes that are not joined, and two joined by a weight above the given infinity: the path handed back is no answer. */
  lemma TwoNodesExamples()
    ensures var g := map[1 := map[], 2 := map[]]; Sound(g) && !Answer(g, 1, 2, 5, [1, 2])
    ensures var g := map[1 := map[2 := 7], 2 := map[1 := 7]]; Sound(g) && Edge(g, 1, 2) && !Answer(g, 1, 2, 5, [1, 2])
  {
    TwoNodes(map[1 := map[], 2 := map[]], 1, 2, 5);
    TwoNodes(map[1 := map[2 := 7], 2 := map[1 := 7]], 1, 2, 5);
  }

  /** From a node to itself the answer names the node twice, and that is no path. */
  lemma SelfNoPath(g: Graph, s: Node)
    requires Sound(g)
    ensures !Path(g, [s, s])
  {
  }
}
