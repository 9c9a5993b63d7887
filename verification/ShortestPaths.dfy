/** Paths and distances in a weighted graph, and why settling the cheapest open node is right. */
module ShortestPaths {
  type Node = int

  type Graph = map<Node, map<Node, int>>

  /** Neighbours are nodes, no node is its own neighbour, and no weight is negative. */
  ghost predicate Sound(g: Graph) {
    forall u, v :: Edge(g, u, v) ==> v in g && v != u && 0 <= g[u][v]
  }

  ghost predicate Edge(g: Graph, u: Node, v: Node) {
    u in g && v in g[u]
  }

  ghost predicate Path(g: Graph, p: seq<Node>) {
    p != [] && if |p| == 1 then p[0] in g else Edge(g, p[|p| - 2], p[|p| - 1]) && Path(g, p[..|p| - 1])
  }

  ghost function Weight(g: Graph, p: seq<Node>): int
    requires Path(g, p)
  {
    if |p| == 1 then 0 else Weight(g, p[..|p| - 1]) + g[p[|p| - 2]][p[|p| - 1]]
  }

  ghost predicate Joins(g: Graph, s: Node, v: Node, p: seq<Node>) {
    Path(g, p) && p[0] == s && p[|p| - 1] == v
  }

  /** No path from `s` to `v` weighs less than `d`. */
  ghost predicate AtLeast(g: Graph, s: Node, v: Node, d: int) {
    forall p :: Joins(g, s, v, p) ==> d <= Weight(g, p)
  }

  /** Some path from `s` to `v` weighs `d`. */
  ghost predicate Reaches(g: Graph, s: Node, v: Node, d: int) {
    exists p :: Joins(g, s, v, p) && Weight(g, p) == d
  }

  lemma Extend(g: Graph, s: Node, u: Node, v: Node, d: int)
    requires Sound(g) && Reaches(g, s, u, d) && u in g && v in g[u]
    ensures Reaches(g, s, v, d + g[u][v])
  {
    var p :| Joins(g, s, u, p) && Weight(g, p) == d;
    var q := p + [v];
    assert q[..|q| - 1] == p;
    assert Joins(g, s, v, q);
  }

  lemma {:induction false} WeightNonNegative(g: Graph, p: seq<Node>)
    requires Sound(g) && Path(g, p)
    ensures 0 <= Weight(g, p)
    decreases |p|
  {
    if |p| > 1 {
      var u, v := p[|p| - 2], p[|p| - 1];
      assert Edge(g, u, v) && 0 <= g[u][v];
      WeightNonNegative(g, p[..|p| - 1]);
    }
  }

  // ---------------------------------------------------------------- costs

  type Costs = map<Node, int>

  /** Before any edge is used: the start costs nothing, every other node is out of reach. */
  ghost function Start(g: Graph, s: Node, inf: int): (d: Costs)
    ensures d.Keys == g.Keys
  {
    map v | v in g :: if v == s then 0 else inf
  }

  /** The costs after every edge out of `c` has been tried. */
  ghost function Relaxed(g: Graph, d: Costs, c: Node): (r: Costs)
    requires c in g && d.Keys == g.Keys
    ensures r.Keys == g.Keys
  {
    map v | v in g :: if v in g[c] && d[c] + g[c][v] < d[v] then d[c] + g[c][v] else d[v]
  }

  /** No edge out of a settled node leads on more cheaply. */
  ghost predicate Tight(g: Graph, d: Costs, done: set<Node>)
    requires Sound(g) && d.Keys == g.Keys && done <= g.Keys
  {
    forall u, v :: u in done && Edge(g, u, v) ==> v in d && d[v] <= d[u] + g[u][v]
  }

  /** What the costs mean once the nodes in `done` have been settled and their edges tried. */
  ghost predicate Accurate(g: Graph, s: Node, inf: int, d: Costs, done: set<Node>) {
    && Sound(g) && s in g && 0 < inf && d.Keys == g.Keys && done <= g.Keys && d[s] == 0 && (s in done || done == {})
    && (forall v :: v in g ==> d[v] <= inf)
    && (forall v :: v in g && d[v] != inf ==> Reaches(g, s, v, d[v]))
    && (forall u :: u in done ==> d[u] < inf && AtLeast(g, s, u, d[u]))
    && Tight(g, d, done)
  }

  /** `c` is an open node none of the others is cheaper than, and no settled node is dearer. */
  ghost predicate Chosen(g: Graph, d: Costs, done: set<Node>, c: Node, s: Node, inf: int)
    requires d.Keys == g.Keys
  {
    && c in g && c !in done && d[c] < inf && done <= g.Keys && (done == {} ==> c == s)
    && (forall v :: v in g && v !in done ==> d[c] <= d[v])
    && (forall u :: u in done ==> d[u] <= d[c])
  }

  /** A path that leaves the settled nodes costs at least the cheapest open node. */
  lemma {:induction false} LeavesDone(g: Graph, s: Node, inf: int, d: Costs, done: set<Node>, m: int, p: seq<Node>)
    requires Accurate(g, s, inf, d, done) && s in done && Path(g, p) && p[0] == s && p[|p| - 1] !in done
    requires forall v :: v in g && v !in done ==> m <= d[v]
    ensures m <= Weight(g, p)
    decreases |p|
  {
    var q, u, v := p[..|p| - 1], p[|p| - 2], p[|p| - 1];
    assert Edge(g, u, v);
    if u in done {
      assert Joins(g, s, u, q);
    } else {
      LeavesDone(g, s, inf, d, done, m, q);
    }
  }

  lemma ChosenLowest(g: Graph, s: Node, inf: int, d: Costs, done: set<Node>, c: Node)
    requires Accurate(g, s, inf, d, done) && Chosen(g, d, done, c, s, inf)
    ensures AtLeast(g, s, c, d[c])
  {
    forall p | Joins(g, s, c, p) ensures d[c] <= Weight(g, p) {
      if done == {} {
        WeightNonNegative(g, p);
      } else {
        LeavesDone(g, s, inf, d, done, d[c], p);
      }
    }
  }

  /** Settling the chosen node and trying its edges keeps the costs accurate. */
  lemma RelaxedAccurate(g: Graph, s: Node, inf: int, d: Costs, done: set<Node>, c: Node)
    requires Accurate(g, s, inf, d, done) && Chosen(g, d, done, c, s, inf)
    ensures Accurate(g, s, inf, Relaxed(g, d, c), done + {c})
  {
    var r := Relaxed(g, d, c);
    ChosenLowest(g, s, inf, d, done, c);
    SettledStay(g, s, inf, d, done, c);
    RelaxedReaches(g, s, inf, d, done, c);
    RelaxedEdges(g, s, inf, d, done, c);
    hide AtLeast, Reaches, Chosen, Sound;
  }

  lemma SettledStay(g: Graph, s: Node, inf: int, d: Costs, done: set<Node>, c: Node)
    requires Accurate(g, s, inf, d, done) && Chosen(g, d, done, c, s, inf)
    ensures c in g && d[s] == Relaxed(g, d, c)[s] && d[c] < inf && s in done + {c}
    ensures forall u :: u in done + {c} ==> Relaxed(g, d, c)[u] == d[u]
    ensures forall v :: v in g ==> Relaxed(g, d, c)[v] <= d[v] <= inf
    ensures forall v :: v in g && v !in done + {c} ==> d[c] <= Relaxed(g, d, c)[v]
  {
    hide AtLeast, Reaches;
  }

  lemma RelaxedReaches(g: Graph, s: Node, inf: int, d: Costs, done: set<Node>, c: Node)
    requires Accurate(g, s, inf, d, done) && Chosen(g, d, done, c, s, inf)
    ensures forall v :: v in g && Relaxed(g, d, c)[v] != inf ==> Reaches(g, s, v, Relaxed(g, d, c)[v])
  {
    var r := Relaxed(g, d, c);
    assert Reaches(g, s, c, d[c]);
    hide Reaches, AtLeast;
    forall v | v in g && r[v] != inf ensures Reaches(g, s, v, r[v]) {
      if r[v] != d[v] {
        Extend(g, s, c, v, d[c]);
      }
    }
  }

  lemma RelaxedEdges(g: Graph, s: Node, inf: int, d: Costs, done: set<Node>, c: Node)
    requires Accurate(g, s, inf, d, done) && Chosen(g, d, done, c, s, inf)
    ensures Sound(g) && done + {c} <= g.Keys && Tight(g, Relaxed(g, d, c), done + {c})
  {
    hide AtLeast, Reaches, Chosen;
    SettledStay(g, s, inf, d, done, c);
    var r := Relaxed(g, d, c);
    forall u, v | u in done + {c} && Edge(g, u, v) ensures v in r && r[v] <= r[u] + g[u][v] {
      assert v in g;
    }
  }

  /** When nothing is left open, an unsettled node is out of reach. */
  lemma NothingOpen(g: Graph, s: Node, inf: int, d: Costs, done: set<Node>, v: Node)
    requires Accurate(g, s, inf, d, done) && s in done && v in g && v !in done
    requires forall u :: u in g && u !in done ==> d[u] == inf
    ensures AtLeast(g, s, v, inf)
  {
    forall p | Joins(g, s, v, p) ensures inf <= Weight(g, p) {
      LeavesDone(g, s, inf, d, done, inf, p);
    }
  }

  lemma StartAccurate(g: Graph, s: Node, inf: int)
    requires Sound(g) && s in g && 0 < inf
    ensures Accurate(g, s, inf, Start(g, s, inf), {}) && Chosen(g, Start(g, s, inf), {}, s, s, inf)
  {
    assert Joins(g, s, s, [s]) && Weight(g, [s]) == 0;
  }

  /** An edge put before a path. */
  lemma {:induction false} Prepend(g: Graph, u: Node, p: seq<Node>)
    requires Path(g, p) && Edge(g, u, p[0])
    ensures Path(g, [u] + p) && Weight(g, [u] + p) == g[u][p[0]] + Weight(g, p)
    decreases |p|
  {
    var q := [u] + p;
    if |p| == 1 {
      assert q[..1] == [u] && Weight(g, [u]) == 0;
    } else {
      Prepend(g, u, p[..|p| - 1]);
      assert q[..|q| - 1] == [u] + p[..|p| - 1];
    }
  }

  lemma PrependJoins(g: Graph, u: Node, v: Node, e: Node, p: seq<Node>)
    requires Joins(g, v, e, p) && Edge(g, u, v)
    ensures Joins(g, u, e, [u] + p) && Weight(g, [u] + p) == g[u][v] + Weight(g, p)
  {
    Prepend(g, u, p);
  }
}
