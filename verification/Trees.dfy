/** Undirected trees: rootings at an arbitrary node, and what a walk must cross. */
module Trees {
  import opened Assignments

  datatype Edge = Edge(u: nat, v: nat)
  datatype Graph = Graph(n: nat, edges: seq<Edge>)

  predicate Touches(e: Edge, i: nat)
  {
    e.u == i || e.v == i
  }

  predicate Joins(e: Edge, i: nat, j: nat)
  {
    e == Edge(i, j) || e == Edge(j, i)
  }

  function Opposite(e: Edge, i: nat): (j: nat)
  {
    if e.u == i then e.v else e.u
  }

  /** No loops, no parallel edges, every end in range. */
  ghost predicate WellFormed(g: Graph)
  {
    && (forall k :: 0 <= k < |g.edges| ==> g.edges[k].u < g.n && g.edges[k].v < g.n && g.edges[k].u != g.edges[k].v)
    && (forall k, l :: 0 <= k < |g.edges| && 0 <= l < |g.edges| && k != l
                       ==> !Joins(g.edges[k], g.edges[l].u, g.edges[l].v))
  }

  function Neighbours(g: Graph, i: nat): (s: set<nat>)
    ensures forall j ::
              j in s <==> exists k :: 0 <= k < |g.edges| && Touches(g.edges[k], i) && j == Opposite(g.edges[k], i)
  {
    set k | 0 <= k < |g.edges| && Touches(g.edges[k], i) :: Opposite(g.edges[k], i)
  }

  /** `edge(join_tree, i, j)`. */
  function EdgeBetween(g: Graph, i: nat, j: nat): (k: nat)
    requires WellFormed(g)
    requires j in Neighbours(g, i)
    ensures k < |g.edges| && Joins(g.edges[k], i, j)
    ensures forall l :: 0 <= l < |g.edges| && Joins(g.edges[l], i, j) ==> l == k
  {
    var k: nat :| k < |g.edges| && Joins(g.edges[k], i, j);
    k
  }

  lemma NeighboursSymmetric(g: Graph, i: nat, j: nat)
    requires WellFormed(g) && j in Neighbours(g, i)
    ensures i in Neighbours(g, j)
    ensures i != j && i < g.n && j < g.n
    ensures EdgeBetween(g, i, j) == EdgeBetween(g, j, i)
  {
    var k := EdgeBetween(g, i, j);
    assert Touches(g.edges[k], j) && i == Opposite(g.edges[k], j);
  }

  lemma JoinsNeighbours(g: Graph, k: nat, i: nat, j: nat)
    requires WellFormed(g) && k < |g.edges| && Joins(g.edges[k], i, j)
    ensures j in Neighbours(g, i) && EdgeBetween(g, i, j) == k
  {
    assert Touches(g.edges[k], i) && j == Opposite(g.edges[k], i);
  }

  // ---------------------------------------------------------------- walks and trees

  ghost function Nodes(g: Graph): (s: set<nat>)
  {
    Below(g.n)
  }

  /** There is a walk of `len` steps from `i` to `j` that stays inside `within`. */
  ghost predicate Walk(g: Graph, within: set<nat>, i: nat, j: nat, len: nat)
    decreases len
  {
    && j in within
    && if len == 0 then i == j else exists m :: Walk(g, within, i, m, len - 1) && j in Neighbours(g, m)
  }

  ghost predicate ConnectedWithin(g: Graph, within: set<nat>)
  {
    forall i, j :: i in within && j in within ==> exists len :: Walk(g, within, i, j, len)
  }

  /** A closed way over three or more different nodes. */
  ghost predicate IsCycle(g: Graph, c: seq<nat>)
  {
    && |c| >= 3
    && (forall i, j :: 0 <= i < j < |c| ==> c[i] != c[j])
    && (forall i :: 0 <= i < |c| - 1 ==> c[i + 1] in Neighbours(g, c[i]))
    && c[0] in Neighbours(g, c[|c| - 1])
  }

  ghost predicate IsConnected(g: Graph)
  {
    WellFormed(g) && 0 < g.n && ConnectedWithin(g, Nodes(g))
  }

  /** A tree: connected and without cycles. */
  ghost predicate IsTree(g: Graph)
  {
    IsConnected(g) && forall c :: !IsCycle(g, c)
  }

  // ---------------------------------------------------------------- rootings

  /** `parent[i]` is the next node on the way to the root, reached over edge `via[i]`. */
  datatype Rooting = Rooting(depth: seq<nat>, parent: seq<nat>, via: seq<nat>)

  ghost predicate ParentLink(g: Graph, r: Rooting, i: nat)
    requires i < |r.depth| && i < |r.parent| && i < |r.via|
  {
    && r.parent[i] < |r.depth|
    && r.via[i] < |g.edges|
    && Joins(g.edges[r.via[i]], i, r.parent[i])
    && r.depth[i] == r.depth[r.parent[i]] + 1
  }

  ghost predicate HasChild(r: Rooting, root: nat, k: nat, i: nat)
  {
    i < |r.via| && i != root && r.via[i] == k
  }

  ghost predicate IsUsed(r: Rooting, root: nat, k: nat)
  {
    exists i :: HasChild(r, root, k, i)
  }

  /** Every edge is the way up from exactly one node other than the root. */
  ghost predicate IsRooting(g: Graph, root: nat, r: Rooting)
  {
    && |r.depth| == |r.parent| == |r.via| == g.n
    && root < g.n
    && r.depth[root] == 0
    && (forall i :: 0 <= i < g.n && i != root ==> ParentLink(g, r, i))
    && (forall k: nat :: k < |g.edges| ==> IsUsed(r, root, k))
  }

  ghost predicate IsDistance(g: Graph, root: nat, i: nat, d: nat)
  {
    && Walk(g, Nodes(g), root, i, d)
    && forall l :: 0 <= l < d ==> !Walk(g, Nodes(g), root, i, l)
  }

  lemma {:induction false} ShortestWalk(g: Graph, root: nat, i: nat, len: nat) returns (d: nat)
    requires Walk(g, Nodes(g), root, i, len)
    ensures IsDistance(g, root, i, d)
  {
    if l: nat :| l < len && Walk(g, Nodes(g), root, i, l) {
      d := ShortestWalk(g, root, i, l);
    } else {
      d := len;
    }
  }

  ghost function Distance(g: Graph, root: nat, i: nat): (d: nat)
    requires IsConnected(g) && root < g.n && i < g.n
    ensures IsDistance(g, root, i, d)
  {
    assert exists d :: IsDistance(g, root, i, d) by {
      assert root in Nodes(g) && i in Nodes(g);
      var len :| Walk(g, Nodes(g), root, i, len);
      var d := ShortestWalk(g, root, i, len);
    }
    var d :| IsDistance(g, root, i, d);
    d
  }

  ghost predicate IsCloser(g: Graph, root: nat, i: nat, p: nat)
    requires IsConnected(g) && root < g.n && i < g.n
  {
    p < g.n && i in Neighbours(g, p) && Distance(g, root, i) == Distance(g, root, p) + 1
  }

  lemma CloserExists(g: Graph, root: nat, i: nat) returns (p: nat)
    requires IsConnected(g) && root < g.n && i < g.n && i != root
    ensures IsCloser(g, root, i, p)
  {
    hide Distance, Neighbours, ConnectedWithin, WellFormed;
    var d := Distance(g, root, i);
    assert d != 0;
    p :| Walk(g, Nodes(g), root, p, d - 1) && i in Neighbours(g, p);
    var e := Distance(g, root, p);
    assert Walk(g, Nodes(g), root, i, e + 1);
  }

  /** A node other than the root has a neighbour one step closer. */
  ghost function Closer(g: Graph, root: nat, i: nat): (p: nat)
    requires IsConnected(g) && root < g.n && i < g.n && i != root
    ensures IsCloser(g, root, i, p)
  {
    assert exists p :: IsCloser(g, root, i, p) by {
      var p := CloserExists(g, root, i);
    }
    var p :| IsCloser(g, root, i, p);
    p
  }

  ghost function RootingAt(g: Graph, root: nat): (r: Rooting)
    requires IsConnected(g) && root < g.n
  {
    Rooting(
      seq(g.n, i requires 0 <= i < g.n => Distance(g, root, i)),
      seq(g.n, i requires 0 <= i < g.n => if i == root then root else Closer(g, root, i)),
      seq(g.n, i requires 0 <= i < g.n => if i == root then 0 else EdgeBetween(g, Closer(g, root, i), i)))
  }

  lemma RootingAtLinks(g: Graph, root: nat, i: nat)
    requires IsConnected(g) && root < g.n && i < g.n && i != root
    ensures var r := RootingAt(g, root); |r.depth| == |r.parent| == |r.via| == g.n && ParentLink(g, r, i)
  {
    hide IsConnected, Distance, Closer, Neighbours;
    assert i in Neighbours(g, Closer(g, root, i));
  }

  lemma RootingAtRoot(g: Graph, root: nat)
    requires IsConnected(g) && root < g.n
    ensures var r := RootingAt(g, root); |r.depth| == |r.parent| == |r.via| == g.n && r.depth[root] == 0
  {
    hide IsConnected, Distance;
    assert root in Nodes(g) && Walk(g, Nodes(g), root, root, 0);
  }

  lemma SubsetOfSameSize(a: set<nat>, b: set<nat>)
    requires a <= b && |a| == |b|
    ensures a == b
  {
    assert |b| == |a| + |b - a| by {
      assert b == a + (b - a);
    }
  }

  // ---------------------------------------------------------------- an edge off the rooting closes a cycle

  ghost predicate Linked(r: Rooting, root: nat, a: nat, b: nat)
  {
    && a < |r.parent| && b < |r.parent|
    && ((a != root && r.parent[a] == b) || (b != root && r.parent[b] == a))
  }

  ghost predicate HasLinks(g: Graph, root: nat, r: Rooting)
  {
    && |r.depth| == |r.parent| == |r.via| == g.n && root < g.n && r.depth[root] == 0
    && (forall i :: 0 <= i < g.n && i != root ==> ParentLink(g, r, i))
  }

  /** A way from `u` to `v` over parent links, up from each end: all other nodes on it are less deep than the
      deeper end. */
  ghost predicate LinkPath(r: Rooting, root: nat, u: nat, v: nat, path: seq<nat>)
    requires u < |r.depth| && v < |r.depth|
  {
    && |path| >= 2 && path[0] == u && path[|path| - 1] == v
    && (forall i, j :: 0 <= i < j < |path| ==> path[i] != path[j])
    && (forall i :: 0 <= i < |path| - 1 ==> Linked(r, root, path[i], path[i + 1]))
    && (forall i :: 0 <= i < |path| ==> path[i] < |r.depth|
                                        && (path[i] == u || path[i] == v || r.depth[path[i]] < r.depth[u]
                                            || r.depth[path[i]] < r.depth[v]))
  }

  lemma ExtendAbove(r: Rooting, root: nat, u: nat, up: nat, v: nat, rest: seq<nat>)
    requires u < |r.depth| && up < |r.depth| && v < |r.depth| && u != v
    requires Linked(r, root, u, up) && r.depth[up] < r.depth[u] && r.depth[v] <= r.depth[u]
             && LinkPath(r, root, up, v, rest)
    ensures LinkPath(r, root, u, v, [u] + rest)
  {
  }

  lemma ExtendBelow(r: Rooting, root: nat, u: nat, up: nat, v: nat, rest: seq<nat>)
    requires u < |r.depth| && up < |r.depth| && v < |r.depth| && u != v
    requires Linked(r, root, up, v) && r.depth[up] < r.depth[v] && r.depth[u] <= r.depth[v]
             && LinkPath(r, root, u, up, rest)
    ensures LinkPath(r, root, u, v, rest + [v])
  {
  }

  lemma {:induction false} LinkPathExists(g: Graph, root: nat, r: Rooting, u: nat, v: nat) returns (path: seq<nat>)
    requires HasLinks(g, root, r) && u < g.n && v < g.n && u != v
    ensures LinkPath(r, root, u, v, path)
    decreases r.depth[u] + r.depth[v]
  {
    if r.depth[u] >= r.depth[v] {
      assert v != root ==> ParentLink(g, r, v);
      assert u != root && ParentLink(g, r, u);
      var up := r.parent[u];
      if up == v {
        path := [u, v];
      } else {
        var rest := LinkPathExists(g, root, r, up, v);
        ExtendAbove(r, root, u, up, v, rest);
        path := [u] + rest;
      }
    } else {
      assert v != root && ParentLink(g, r, v);
      var up := r.parent[v];
      if up == u {
        path := [u, v];
      } else {
        var rest := LinkPathExists(g, root, r, u, up);
        ExtendBelow(r, root, u, up, v, rest);
        path := rest + [v];
      }
    }
  }

  lemma LinkedNeighbours(g: Graph, root: nat, r: Rooting, a: nat, b: nat)
    requires WellFormed(g) && HasLinks(g, root, r) && Linked(r, root, a, b)
    ensures b in Neighbours(g, a) && IsUsed(r, root, EdgeBetween(g, a, b))
  {
    if a != root && r.parent[a] == b {
      assert ParentLink(g, r, a);
      JoinsNeighbours(g, r.via[a], a, b);
      assert HasChild(r, root, r.via[a], a);
    } else {
      assert ParentLink(g, r, b);
      JoinsNeighbours(g, r.via[b], a, b);
      assert HasChild(r, root, r.via[b], b);
    }
  }

  lemma UnusedClosesCycle(g: Graph, root: nat, r: Rooting, k: nat) returns (c: seq<nat>)
    requires WellFormed(g) && HasLinks(g, root, r) && k < |g.edges| && !IsUsed(r, root, k)
    ensures IsCycle(g, c)
  {
    hide HasLinks, IsUsed, Neighbours;
    var u, v := g.edges[k].u, g.edges[k].v;
    c := LinkPathExists(g, root, r, u, v);
    JoinsNeighbours(g, k, u, v);
    JoinsNeighbours(g, k, v, u);
    forall i | 0 <= i < |c| - 1 ensures c[i + 1] in Neighbours(g, c[i]) {
      LinkedNeighbours(g, root, r, c[i], c[i + 1]);
    }
    if |c| == 2 {
      LinkedNeighbours(g, root, r, c[0], c[1]);
    }
  }

  /** A tree can be rooted anywhere, and then its edges are exactly the parent links. */
  lemma RootingExists(g: Graph, root: nat) returns (r: Rooting)
    requires IsTree(g) && root < g.n
    ensures IsRooting(g, root, r)
  {
    hide RootingAt, ParentLink, IsUsed, Walk, Neighbours;
    r := RootingAt(g, root);
    RootingAtRoot(g, root);
    forall i: nat | i < g.n && i != root ensures ParentLink(g, r, i) {
      RootingAtLinks(g, root, i);
    }
    forall k: nat | k < |g.edges| ensures IsUsed(r, root, k) {
      if !IsUsed(r, root, k) {
        var c := UnusedClosesCycle(g, root, r, k);
      }
    }
  }

  lemma ViaInjective(g: Graph, root: nat, r: Rooting, i: nat, j: nat)
    requires IsRooting(g, root, r)
    requires i < g.n && j < g.n && i != root && j != root && r.via[i] == r.via[j]
    ensures i == j
  {
    assert ParentLink(g, r, i) && ParentLink(g, r, j);
  }

  /** Neighbours are parent and child, one way round. */
  lemma NeighbourIsParentOrChild(g: Graph, root: nat, r: Rooting, i: nat, j: nat)
    requires WellFormed(g) && IsRooting(g, root, r) && j in Neighbours(g, i)
    ensures i < g.n && j < g.n
    ensures (i != root && r.parent[i] == j) || (j != root && r.parent[j] == i)
  {
    NeighboursSymmetric(g, i, j);
    var k := EdgeBetween(g, i, j);
    assert IsUsed(r, root, k);
    var m :| HasChild(r, root, k, m);
    assert ParentLink(g, r, m);
  }

  /** `m` is `k` or a descendant of `k`. */
  ghost predicate Under(g: Graph, root: nat, r: Rooting, k: nat, m: nat)
    requires IsRooting(g, root, r) && m < g.n
    decreases r.depth[m]
  {
    m == k || (m != root && (assert ParentLink(g, r, m); Under(g, root, r, k, r.parent[m])))
  }

  lemma {:induction false} UnderIsDeeper(g: Graph, root: nat, r: Rooting, k: nat, m: nat)
    requires IsRooting(g, root, r) && m < g.n && k < g.n
    requires Under(g, root, r, k, m) && m != k
    ensures r.depth[k] < r.depth[m]
    decreases r.depth[m]
  {
    assert ParentLink(g, r, m);
    if r.parent[m] != k {
      UnderIsDeeper(g, root, r, k, r.parent[m]);
    }
  }

  /** A walk that leaves the subtree of `k` passes through the parent of `k`. */
  lemma {:induction false} LeavingPassesParent(g: Graph, root: nat, r: Rooting, within: set<nat>, k: nat, m: nat,
                                               len: nat)
    requires WellFormed(g) && IsRooting(g, root, r)
    requires k < g.n && k != root && m < g.n
    requires Walk(g, within, k, m, len)
    requires !Under(g, root, r, k, m)
    ensures r.parent[k] in within
    decreases len
  {
    var j :| Walk(g, within, k, j, len - 1) && m in Neighbours(g, j);
    NeighbourIsParentOrChild(g, root, r, j, m);
    if !Under(g, root, r, k, j) {
      LeavingPassesParent(g, root, r, within, k, j, len - 1);
    }
  }

  /** If a connected set of nodes holds `k` and a node no deeper than `k`, it holds the parent of `k`. */
  lemma HoldsParent(g: Graph, root: nat, r: Rooting, within: set<nat>, k: nat, m: nat)
    requires WellFormed(g) && IsRooting(g, root, r) && ConnectedWithin(g, within)
    requires k in within && m in within && k < g.n && m < g.n && k != root && m != k
    requires r.depth[m] <= r.depth[k]
    ensures r.parent[k] in within
  {
    if Under(g, root, r, k, m) {
      UnderIsDeeper(g, root, r, k, m);
    }
    var len :| Walk(g, within, k, m, len);
    LeavingPassesParent(g, root, r, within, k, m, len);
  }
}
