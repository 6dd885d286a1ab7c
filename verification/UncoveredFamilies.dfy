/** A join tree that leaves out a table of its network, and the wrong answer that follows. */
module UncoveredFamilies {
  import opened Assignments
  import opened Sums
  import opened Tables
  import opened Trees
  import opened Messages
  import opened Beliefs
  import opened Networks
  import opened Inference

  /** A node 1 that copies its parent 0, which is known to be 0. */
  function CopyingNetwork(): (bn: Network)
  {
    Network([2, 2], [[], [0]],
            [map[(0, map[]) := 0.5, (1, map[]) := 0.5],
             map[(0, map[0 := 0]) := 1.0, (1, map[0 := 0]) := 0.0, (0, map[0 := 1]) := 0.0, (1, map[0 := 1]) := 1.0]],
            [true, false], [0, 0])
  }

  /** The cliques {0} and {1}: node 1 and its parent are not in one clique. */
  function SplitTree(): (jt: JoinTree)
  {
    JoinTree(Graph(2, [Edge(0, 1)]), [{0}, {1}], [2, 2])
  }

  // ---------------------------------------------------------------- the join tree

  lemma OneEdge(g: Graph, m: nat)
    requires g == Graph(2, [Edge(0, 1)])
    ensures WellFormed(g) && Nodes(g) == {0, 1}
    ensures Neighbours(g, 0) == {1} && Neighbours(g, 1) == {0}
    ensures m != 0 && m != 1 ==> Neighbours(g, m) == {}
  {
    assert Touches(g.edges[0], 0) && Touches(g.edges[0], 1);
  }

  lemma OneEdgeIsTree(g: Graph)
    requires g == Graph(2, [Edge(0, 1)])
    ensures IsTree(g)
  {
    hide Neighbours;
    OneEdge(g, 0);
    var ns := Nodes(g);
    assert Walk(g, ns, 0, 0, 0) && Walk(g, ns, 1, 1, 0);
    assert Walk(g, ns, 0, 1, 1) && Walk(g, ns, 1, 0, 1);
    forall c ensures !IsCycle(g, c) {
      if |c| >= 3 {
        NotCycle(g, c);
      }
    }
  }

  lemma NotCycle(g: Graph, c: seq<nat>)
    requires g == Graph(2, [Edge(0, 1)]) && |c| >= 3
    ensures !IsCycle(g, c)
  {
    hide Neighbours;
    OneEdge(g, c[0]);
    OneEdge(g, c[1]);
    assert c[1] in Neighbours(g, c[0]) && c[1 + 1] in Neighbours(g, c[1]) ==> c[0] == c[2];
  }

  lemma SplitTreeIsJoinTree()
    ensures IsJoinTree(SplitTree())
  {
    hide IsTree, Neighbours, WellFormed;
    var jt := SplitTree();
    OneEdge(jt.graph, 0);
    OneEdgeIsTree(jt.graph);
    assert Holding(jt, 0) == {0} && Holding(jt, 1) == {1};
    assert Walk(jt.graph, {0}, 0, 0, 0) && Walk(jt.graph, {1}, 1, 1, 0);
  }

  /** `is_join_tree` accepts the cliques, and only the table of node 0 is taken in. */
  lemma UncoveredIsLost()
    ensures IsSite(CopyingNetwork(), SplitTree())
    ensures Covered(CopyingNetwork(), SplitTree()) == {0}
  {
    hide IsJoinTree;
    var bn, jt := CopyingNetwork(), SplitTree();
    CopyingFamilies(bn);
    SplitTreeIsJoinTree();
    assert Proper(jt) by {
      assert IsJoinTree(jt);
      OneEdge(jt.graph, 0);
    }
    assert Covers(bn, jt, 0, 0) && !IsCovered(bn, jt, 1);
  }

  // ---------------------------------------------------------------- the weights

  lemma CopyingFamilies(bn: Network)
    requires bn == CopyingNetwork()
    ensures ProperNetwork(bn) && ParentSet(bn, 0) == {} && ParentSet(bn, 1) == {0}
  {
    assert bn.parents[1][0] == 0;
  }

  function Both(i: nat, j: nat): (x: Assignment)
  {
    map[0 := i, 1 := j]
  }

  lemma BothRestricted(i: nat, j: nat)
    ensures Restrict(Both(i, j), {}) == map[] && Restrict(Both(i, j), {0}) == map[0 := i]
    ensures Restrict(Both(i, j), {1}) == Single(1, j)
  {
  }

  lemma CopyingValues(bn: Network, i: nat, j: nat)
    requires bn == CopyingNetwork() && i < 2 && j < 2
    ensures FamilyValue(bn, 0, Both(i, j)) == 0.5
    ensures FamilyValue(bn, 1, Both(i, j)) == if i == j then 1.0 else 0.0
  {
    CopyingFamilies(bn);
    BothRestricted(i, j);
  }

  lemma CopyingAgreement(bn: Network, i: nat, j: nat)
    requires bn == CopyingNetwork()
    ensures Agreement(bn, Below(2), Both(i, j)) == if i == 0 then 1.0 else 0.0
  {
    if i != 0 {
      assert 0 in Below(2) && Contradicts(bn, 0, Both(i, j));
    }
  }

  /** Without its table, node 1 may take either value; with it, only that of node 0. */
  lemma CopyingWeights(bn: Network, i: nat, j: nat)
    requires bn == CopyingNetwork() && i < 2 && j < 2
    ensures ProperNetwork(bn)
    ensures JointOf(bn, {0}, Both(i, j)) == if i == 0 then 0.5 else 0.0
    ensures JointOf(bn, Below(2), Both(i, j)) == if i == 0 && j == 0 then 0.5 else 0.0
  {
    hide FamilyValue, Agreement, ProperNetwork;
    CopyingFamilies(bn);
    CopyingValues(bn, i, j);
    CopyingAgreement(bn, i, j);
    var x := Both(i, j);
    assert FamilyProduct(bn, {0}, x, 1) == 0.5 && FamilyProduct(bn, Below(2), x, 1) == 0.5;
  }

  ghost function Rows(i: nat): (s: set<Assignment>)
  {
    {Both(i, 0), Both(i, 1)}
  }

  lemma RowIs(a: Assignment)
    ensures Legal([2, 2], {0, 1}, a) <==> a in Rows(0) || a in Rows(1)
  {
    if Legal([2, 2], {0, 1}, a) {
      assert a.Keys == {0, 1} && a[0] < 2 && a[1] < 2;
      assert a == Both(a[0], a[1]);
    }
  }

  lemma FourRows()
    ensures All([2, 2], Below(2)) == Rows(0) + Rows(1)
  {
    hide All, Rows, Legal;
    assert Below(2) == {0, 1};
    forall a ensures a in All([2, 2], Below(2)) <==> a in Rows(0) + Rows(1) {
      RowIs(a);
    }
  }

  lemma SumOfTwo(s: set<Assignment>, t: Table, a: Assignment, b: Assignment)
    requires s == {a, b} && a != b
    ensures Sum(s, t) == Entry(t, a) + Entry(t, b)
  {
    SumRemove(s, t, a);
    assert s - {a} == {b};
    SumRemove({b}, t, b);
    assert {b} - {b} == {};
  }

  lemma SumOfFour(s: set<Assignment>, t: Table, a: Assignment, b: Assignment, c: Assignment, d: Assignment)
    requires s == {a, b} + {c, d} && a != b && c != d && a != c && a != d && b != c && b != d
    ensures Sum(s, t) == Entry(t, a) + Entry(t, b) + (Entry(t, c) + Entry(t, d))
  {
    hide Sum, Entry;
    SumSplit(s, {a, b}, t);
    assert s - {a, b} == {c, d};
    SumOfTwo({a, b}, t, a, b);
    SumOfTwo({c, d}, t, c, d);
  }

  /** Rows that come in two kinds `k` and `l`, two of each. */
  lemma MarginalsOfTwo(t: Table, vars: set<nat>, k: Assignment, l: Assignment, a: Assignment, b: Assignment,
                       c: Assignment, d: Assignment)
    requires t.Keys == {a, c} + {b, d} && a != b && c != d && k != l
    requires Restrict(a, vars) == Restrict(b, vars) == k && Restrict(c, vars) == Restrict(d, vars) == l
    ensures Marginal(t, vars, k) == Entry(t, a) + Entry(t, b)
    ensures Marginal(t, vars, l) == Entry(t, c) + Entry(t, d)
  {
    hide Restrict, Sum, Entry;
    assert Fibre(t.Keys, vars, k) == {a, b} && Fibre(t.Keys, vars, l) == {c, d};
    SumOfTwo({a, b}, t, a, b);
    SumOfTwo({c, d}, t, c, d);
  }

  /** The total over the four rows. */
  lemma Total(t: Table)
    requires t.Keys == All([2, 2], Below(2))
    ensures Sum(t.Keys, t)
            == Entry(t, Both(0, 0)) + Entry(t, Both(0, 1)) + (Entry(t, Both(1, 0)) + Entry(t, Both(1, 1)))
  {
    hide All, Sum, Both, Entry;
    FourRows();
    RowsDiffer();
    SumOfFour(t.Keys, t, Both(0, 0), Both(0, 1), Both(1, 0), Both(1, 1));
  }

  /** The parts of it with node 1 at 0 and at 1. */
  lemma PartTotals(t: Table)
    requires t.Keys == All([2, 2], Below(2))
    ensures Marginal(t, {1}, Single(1, 0)) == Entry(t, Both(0, 0)) + Entry(t, Both(1, 0))
    ensures Marginal(t, {1}, Single(1, 1)) == Entry(t, Both(0, 1)) + Entry(t, Both(1, 1))
  {
    hide All, Both, Entry, Restrict, Single, Marginal;
    FourRows();
    RowsDiffer();
    SinglesDiffer();
    BothRestricted(0, 0);
    BothRestricted(0, 1);
    BothRestricted(1, 0);
    BothRestricted(1, 1);
    MarginalsOfTwo(t, {1}, Single(1, 0), Single(1, 1), Both(0, 0), Both(1, 0), Both(0, 1), Both(1, 1));
  }

  lemma BothDiffer(i: nat, j: nat, k: nat, l: nat)
    requires i != k || j != l
    ensures Both(i, j) != Both(k, l)
  {
    assert Both(i, j)[0] == i && Both(k, l)[0] == k && Both(i, j)[1] == j && Both(k, l)[1] == l;
  }

  lemma RowsDiffer()
    ensures Both(0, 0) != Both(0, 1) && Both(0, 0) != Both(1, 0) && Both(0, 0) != Both(1, 1)
    ensures Both(0, 1) != Both(1, 0) && Both(0, 1) != Both(1, 1) && Both(1, 0) != Both(1, 1)
  {
    hide Both;
    BothDiffer(0, 0, 0, 1);
    BothDiffer(0, 0, 1, 0);
    BothDiffer(0, 0, 1, 1);
    BothDiffer(0, 1, 1, 0);
    BothDiffer(0, 1, 1, 1);
    BothDiffer(1, 0, 1, 1);
  }

  lemma SinglesDiffer()
    ensures Single(1, 0) != Single(1, 1)
  {
    assert Single(1, 0)[1] == 0 && Single(1, 1)[1] == 1;
  }

  /** Evidence and weights in terms of the four rows. */
  lemma RowsAnswer(bn: Network, fs: set<nat>)
    requires ProperNetwork(bn) && bn.card == [2, 2]
    ensures EvidenceProbability(bn, fs)
            == JointOf(bn, fs, Both(0, 0)) + JointOf(bn, fs, Both(0, 1))
              + (JointOf(bn, fs, Both(1, 0)) + JointOf(bn, fs, Both(1, 1)))
    ensures Weight(bn, fs, 1, 0) == JointOf(bn, fs, Both(0, 0)) + JointOf(bn, fs, Both(1, 0))
    ensures Weight(bn, fs, 1, 1) == JointOf(bn, fs, Both(0, 1)) + JointOf(bn, fs, Both(1, 1))
  {
    hide JointOf, ProperNetwork, Marginal, Sum, All, Both, NetworkTable;
    FourRows();
    Total(NetworkTable(bn, fs));
    PartTotals(NetworkTable(bn, fs));
  }

  lemma CopyingAnswers(bn: Network)
    requires bn == CopyingNetwork()
    ensures ProperNetwork(bn)
    ensures EvidenceProbability(bn, {0}) == 1.0 && Weight(bn, {0}, 1, 0) == Weight(bn, {0}, 1, 1) == 0.5
    ensures EvidenceProbability(bn, Below(2)) == 0.5 && Weight(bn, Below(2), 1, 1) == 0.0
  {
    hide JointOf, ProperNetwork, EvidenceProbability, Weight, Both;
    CopyingWeights(bn, 0, 0);
    CopyingWeights(bn, 0, 1);
    CopyingWeights(bn, 1, 0);
    CopyingWeights(bn, 1, 1);
    RowsAnswer(bn, {0});
    RowsAnswer(bn, Below(2));
  }

  /** The evidence makes it impossible that node 1 is 1, and the query gives one half. */
  method UncoveredMisleads() returns (ok: bool, dist: seq<real>)
    ensures IsSite(CopyingNetwork(), SplitTree())
    ensures ok && dist == [0.5, 0.5]
    ensures EvidenceProbability(CopyingNetwork(), Below(2)) == 0.5 && Weight(CopyingNetwork(), Below(2), 1, 1) == 0.0
  {
    hide IsSite, Covered, EvidenceProbability, Weight, Exact;
    var bn, jt := CopyingNetwork(), SplitTree();
    UncoveredIsLost();
    CopyingAnswers(bn);
    var tree := CreateJoinTree(bn, jt);
    ok, dist := Probability(bn, tree, 1);
    assert dist[0] == 0.5 && dist[1] == 0.5;
  }
}
