/** Exact inference: the join-tree algorithm computes the posterior of the Bayesian network. */
module Inference {
  import opened Basics
  import opened Assignments
  import opened Sums
  import opened Tables
  import opened Trees
  import opened Messages
  import opened Propagation
  import opened Beliefs
  import opened Networks

  // ---------------------------------------------------------------- who takes in which node table

  ghost predicate Covers(bn: Network, jt: JoinTree, j: nat, v: nat)
    requires v < |bn.parents| && j < |jt.cliques|
  {
    Family(bn, v) <= jt.cliques[j]
  }

  /** After the first `m` cliques, a node belongs to the first of them that covers its family. */
  ghost predicate OwnersOk(bn: Network, jt: JoinTree, owner: seq<nat>, m: nat)
    requires ProperNetwork(bn)
  {
    && |owner| == |bn.card| && m <= |jt.cliques|
    && (forall v :: 0 <= v < |owner| ==> owner[v] < m || owner[v] == |jt.cliques|)
    && (forall v :: 0 <= v < |owner| && owner[v] < m ==> Covers(bn, jt, owner[v], v))
    && (forall v, j :: 0 <= v < |owner| && 0 <= j < m && j < owner[v] ==> !Covers(bn, jt, j, v))
  }

  ghost predicate Fits(bn: Network, jt: JoinTree)
  {
    ProperNetwork(bn) && Proper(jt) && jt.card == bn.card
      && forall i :: 0 <= i < |jt.cliques| ==> jt.cliques[i] <= Below(|bn.card|)
  }

  ghost predicate StartsOk(bn: Network, jt: JoinTree, tables: seq<Table>, owner: seq<nat>, m: nat)
    requires Fits(bn, jt) && |owner| == |bn.card|
  {
    |tables| == m <= |jt.cliques|
      && forall i :: 0 <= i < m ==> StartTable(bn, jt.cliques[i], OwnedBy(bn, owner, i), tables[i])
  }

  /** What clique `m` takes in is exactly what it owns afterwards, and earlier cliques keep what they had. */
  lemma TakesIsOwned(bn: Network, jt: JoinTree, owner: seq<nat>, owner': seq<nat>, m: nat)
    requires Fits(bn, jt) && m < |jt.cliques| && OwnersOk(bn, jt, owner, m)
    requires OwnersAfter(Takes(bn, jt.cliques[m], owner, m, |jt.cliques|), m, owner, owner')
    ensures OwnersOk(bn, jt, owner', m + 1)
    ensures OwnedBy(bn, owner', m) == Takes(bn, jt.cliques[m], owner, m, |jt.cliques|)
    ensures forall i :: 0 <= i < m ==> OwnedBy(bn, owner', i) == OwnedBy(bn, owner, i)
  {
    var takes := Takes(bn, jt.cliques[m], owner, m, |jt.cliques|);
    forall v | 0 <= v < |owner| && owner[v] == |jt.cliques| && Covers(bn, jt, m, v) ensures v in takes {
    }
  }

  /** The initialisation loop over the cliques. */
  method StartTables(bn: Network, jt: JoinTree) returns (tables: seq<Table>, owner: seq<nat>)
    requires Fits(bn, jt)
    ensures OwnersOk(bn, jt, owner, |jt.cliques|)
    ensures StartsOk(bn, jt, tables, owner, |jt.cliques|)
  {
    var n := |jt.cliques|;
    tables, owner := [], seq(|bn.card|, v => n);
    for i := 0 to n
      invariant OwnersOk(bn, jt, owner, i)
      invariant StartsOk(bn, jt, tables, owner, i)
    {
      var t, owner' := StartClique(bn, jt.cliques[i], owner, i, n);
      TakesIsOwned(bn, jt, owner, owner', i);
      tables, owner := tables + [t], owner';
    }
  }

  // ---------------------------------------------------------------- the initial product

  ghost function FirstVars(jt: JoinTree, m: nat): (s: set<nat>)
    requires m <= |jt.cliques|
  {
    if m == 0 then {} else FirstVars(jt, m - 1) + jt.cliques[m - 1]
  }

  ghost function OwnedBelow(bn: Network, owner: seq<nat>, m: nat): (s: set<nat>)
    requires |owner| == |bn.card|
  {
    set v | v in Below(|bn.card|) && owner[v] < m
  }

  lemma TimesInterchange(a: real, b: real, c: real, d: real)
    ensures Times(Times(a, b), Times(c, d)) == Times(Times(c, a), Times(d, b))
  {
  }

  /** The row of clique `i` that `x` selects holds the evidence in the clique and the node tables it owns. */
  lemma StartRowAt(bn: Network, jt: JoinTree, tables: seq<Table>, owner: seq<nat>, x: Assignment, i: nat)
    requires Fits(bn, jt) && OwnersOk(bn, jt, owner, |jt.cliques|) && StartsOk(bn, jt, tables, owner, |jt.cliques|)
    requires Legal(bn.card, Below(|bn.card|), x) && i < |jt.cliques|
    ensures CliqueValue(jt, tables, i, x)
            == Times(Agreement(bn, jt.cliques[i], x), FamilyProduct(bn, OwnedBy(bn, owner, i), x, |bn.card|))
  {
    var clique, own := jt.cliques[i], OwnedBy(bn, owner, i);
    var a := Restrict(x, clique);
    RestrictLegal(bn.card, Below(|bn.card|), x, clique);
    assert StartTable(bn, clique, own, tables[i]);
    assert a in tables[i];
    AgreementLocal(bn, clique, x);
    forall v | 0 <= v < |bn.card| && v in own ensures FamilyValue(bn, v, a) == FamilyValue(bn, v, x) {
      assert Covers(bn, jt, i, v);
      FamilyValueLocal(bn, v, x, clique);
    }
    FamilyProductAgree(bn, own, a, own, x, |bn.card|);
  }

  lemma OwnedStep(bn: Network, owner: seq<nat>, x: Assignment, m: nat)
    requires ProperNetwork(bn) && |owner| == |bn.card|
    ensures FamilyProduct(bn, OwnedBelow(bn, owner, m + 1), x, |bn.card|)
            == Times(FamilyProduct(bn, OwnedBelow(bn, owner, m), x, |bn.card|),
                     FamilyProduct(bn, OwnedBy(bn, owner, m), x, |bn.card|))
  {
    var own, below := OwnedBy(bn, owner, m), OwnedBelow(bn, owner, m);
    assert OwnedBelow(bn, owner, m + 1) == below + own;
    FamilyProductUnion(bn, below, own, x, |bn.card|);
  }

  lemma NothingStarted(bn: Network, jt: JoinTree, owner: seq<nat>, x: Assignment)
    requires ProperNetwork(bn) && |owner| == |bn.card|
    ensures Times(Agreement(bn, FirstVars(jt, 0), x), FamilyProduct(bn, OwnedBelow(bn, owner, 0), x, |bn.card|)) == 1.0
  {
    assert OwnedBelow(bn, owner, 0) == {} && FirstVars(jt, 0) == {};
    FamilyProductEmpty(bn, x, |bn.card|);
  }

  lemma FirstVarsStep(jt: JoinTree, m: nat)
    requires m < |jt.cliques|
    ensures FirstVars(jt, m + 1) == FirstVars(jt, m) + jt.cliques[m]
  {
  }

  lemma {:induction false} StartProduct(bn: Network, jt: JoinTree, tables: seq<Table>, owner: seq<nat>, x: Assignment,
                                        m: nat)
    requires Fits(bn, jt) && OwnersOk(bn, jt, owner, |jt.cliques|) && StartsOk(bn, jt, tables, owner, |jt.cliques|)
    requires Legal(bn.card, Below(|bn.card|), x) && m <= |jt.cliques|
    ensures CliqueProduct(jt, tables, Nodes(jt.graph), x, m)
            == Times(Agreement(bn, FirstVars(jt, m), x), FamilyProduct(bn, OwnedBelow(bn, owner, m), x, |bn.card|))
  {
    hide Times, Agreement, FamilyProduct, OwnedBelow, OwnedBy, FirstVars, Legal, CliqueValue;
    if m == 0 {
      NothingStarted(bn, jt, owner, x);
    } else {
      StartProduct(bn, jt, tables, owner, x, m - 1);
      StartRowAt(bn, jt, tables, owner, x, m - 1);
      OwnedStep(bn, owner, x, m - 1);
      FirstVarsStep(jt, m - 1);
      AgreementSplits(bn, FirstVars(jt, m - 1), jt.cliques[m - 1], x);
      TimesInterchange(Agreement(bn, jt.cliques[m - 1], x), FamilyProduct(bn, OwnedBy(bn, owner, m - 1), x, |bn.card|),
                       Agreement(bn, FirstVars(jt, m - 1), x),
                       FamilyProduct(bn, OwnedBelow(bn, owner, m - 1), x, |bn.card|));
    }
  }

  ghost predicate IsCovered(bn: Network, jt: JoinTree, v: nat)
    requires v < |bn.parents|
  {
    exists j: nat :: j < |jt.cliques| && Covers(bn, jt, j, v)
  }

  /** The nodes whose family fits into some clique. */
  ghost function Covered(bn: Network, jt: JoinTree): (s: set<nat>)
    requires ProperNetwork(bn)
  {
    set v | v in Below(|bn.card|) && IsCovered(bn, jt, v)
  }

  lemma OwnedIsCovered(bn: Network, jt: JoinTree, owner: seq<nat>)
    requires Fits(bn, jt) && OwnersOk(bn, jt, owner, |jt.cliques|)
    ensures OwnedBelow(bn, owner, |jt.cliques|) == Covered(bn, jt)
  {
    forall v | v in Below(|bn.card|) ensures owner[v] < |jt.cliques| <==> IsCovered(bn, jt, v) {
      if owner[v] < |jt.cliques| {
        assert Covers(bn, jt, owner[v], v);
      }
    }
  }

  lemma {:induction false} FirstVarsMembers(jt: JoinTree, m: nat)
    requires m <= |jt.cliques|
    ensures forall v :: v in FirstVars(jt, m) <==> exists i :: 0 <= i < m && v in jt.cliques[i]
  {
    if m > 0 {
      FirstVarsMembers(jt, m - 1);
    }
  }

  lemma AllVarsMentioned(bn: Network, jt: JoinTree)
    requires Fits(bn, jt) && forall v: nat :: v < |jt.card| ==> Holding(jt, v) != {}
    ensures FirstVars(jt, |jt.cliques|) == Below(|bn.card|)
  {
    FirstVarsMembers(jt, |jt.cliques|);
    forall v: nat | v < |jt.card| ensures v in FirstVars(jt, |jt.cliques|) {
      var i :| i in Holding(jt, v);
    }
  }

  /** Before propagation, the product of the clique tables at any full assignment is the product of the node
      tables whose family some clique covers, each exactly once, and zero against the evidence. */
  lemma InitialProduct(bn: Network, jt: JoinTree, tables: seq<Table>, owner: seq<nat>, x: Assignment)
    requires Fits(bn, jt) && OwnersOk(bn, jt, owner, |jt.cliques|) && StartsOk(bn, jt, tables, owner, |jt.cliques|)
    requires forall v: nat :: v < |jt.card| ==> Holding(jt, v) != {}
    requires Legal(bn.card, Below(|bn.card|), x)
    ensures CliqueProduct(jt, tables, Nodes(jt.graph), x, |jt.cliques|)
            == JointOf(bn, Covered(bn, jt), x)
  {
    StartProduct(bn, jt, tables, owner, x, |jt.cliques|);
    OwnedIsCovered(bn, jt, owner);
    AllVarsMentioned(bn, jt);
  }

  // ---------------------------------------------------------------- the joint of the whole run

  /** What `is_join_tree` checks. */
  ghost predicate IsSite(bn: Network, jt: JoinTree)
  {
    Fits(bn, jt) && IsJoinTree(jt)
  }

  /** Where every family fits into a clique, as in a join tree made from the moral graph, no table is left out. */
  lemma AllCovered(bn: Network, jt: JoinTree)
    requires IsSite(bn, jt)
    ensures Covered(bn, jt) == Below(|bn.card|) <==> forall v: nat :: v < |bn.card| ==> IsCovered(bn, jt, v)
  {
    if Covered(bn, jt) == Below(|bn.card|) {
      forall v: nat | v < |bn.card| ensures IsCovered(bn, jt, v) {
        assert v in Covered(bn, jt);
      }
    }
  }

  lemma {:induction false} BlankSeparators(jt: JoinTree, p: Potentials, s: set<nat>, x: Assignment, m: nat)
    requires Proper(jt) && IsBlank(jt, p) && m <= |jt.graph.edges|
    ensures SepProduct(jt, p.sep, s, x, m) == 1.0
  {
    if m > 0 {
      BlankSeparators(jt, p, s, x, m - 1);
    }
  }

  lemma StartJoint(bn: Network, jt: JoinTree, p: Potentials, owner: seq<nat>, x: Assignment)
    requires Fits(bn, jt) && OwnersOk(bn, jt, owner, |jt.cliques|) && StartsOk(bn, jt, p.clique, owner, |jt.cliques|)
    requires forall v: nat :: v < |jt.card| ==> Holding(jt, v) != {}
    requires IsBlank(jt, p) && Legal(bn.card, Below(|bn.card|), x)
    ensures Joint(jt, p, x) == JointOf(bn, Covered(bn, jt), x)
  {
    InitialProduct(bn, jt, p.clique, owner, x);
    BlankSeparators(jt, p, Below(|jt.graph.edges|), x, |jt.graph.edges|);
  }

  lemma StartCliqueOk(bn: Network, jt: JoinTree, tables: seq<Table>, owner: seq<nat>, i: nat)
    requires Fits(bn, jt) && |owner| == |bn.card| && StartsOk(bn, jt, tables, owner, |jt.cliques|) && i < |jt.cliques|
    ensures CliqueOk(jt, tables[i], i)
  {
    var own := OwnedBy(bn, owner, i);
    assert StartTable(bn, jt.cliques[i], own, tables[i]);
    forall a | a in tables[i] ensures 0.0 <= tables[i][a] {
      StartValueNonneg(bn, jt.cliques[i], own, a);
    }
  }

  /** The value of every full assignment with the evidence, by the tables of the nodes in `fs`. */
  ghost function NetworkTable(bn: Network, fs: set<nat>): (t: Table)
    requires ProperNetwork(bn)
    ensures t.Keys == All(bn.card, Below(|bn.card|))
    ensures forall x :: x in t ==> t[x] == JointOf(bn, fs, x)
  {
    map x | x in All(bn.card, Below(|bn.card|)) :: JointOf(bn, fs, x)
  }

  /** Every clique table is the marginal of the joint of the tables in `fs` with the evidence. */
  ghost predicate Exact(bn: Network, fs: set<nat>, jt: JoinTree, clique: seq<Table>)
    requires ProperNetwork(bn)
  {
    |clique| == |jt.cliques|
      && forall c, a ::
          0 <= c < |clique| && a in clique[c] ==> clique[c][a] == Marginal(NetworkTable(bn, fs), jt.cliques[c], a)
  }

  lemma SameTable(bn: Network, fs: set<nat>, jt: JoinTree, start: Potentials, p: Potentials)
    requires IsSite(bn, jt) && ShapeOk(jt, start) && TablesCalibrated(jt, p) && SameJoint(jt, start, p)
    requires forall x :: Legal(bn.card, Below(|bn.card|), x) ==> Joint(jt, start, x) == JointOf(bn, fs, x)
    ensures JointTable(jt, p) == NetworkTable(bn, fs)
  {
    hide Joint, JointOf, IsJoinTree, Calibrated, CliqueOk, SepOk, Supported, ZerosOk;
  }

  lemma CalibratedIsExact(bn: Network, fs: set<nat>, jt: JoinTree, start: Potentials, p: Potentials)
    requires IsSite(bn, jt) && ShapeOk(jt, start) && TablesCalibrated(jt, p) && SameJoint(jt, start, p)
    requires forall x :: Legal(bn.card, Below(|bn.card|), x) ==> Joint(jt, start, x) == JointOf(bn, fs, x)
    ensures Exact(bn, fs, jt, p.clique)
  {
    hide IsJoinTree, Calibrated, NetworkTable, JointTable, Joint, JointOf, Marginal, Legal, All, CliqueOk, SepOk,
         Supported, ZerosOk;
    SameTable(bn, fs, jt, start, p);
    forall c, a | 0 <= c < |p.clique| && a in p.clique[c]
      ensures p.clique[c][a] == Marginal(NetworkTable(bn, fs), jt.cliques[c], a) {
      CliquesAreMarginals(jt, p, c, a);
    }
  }

  /** `create_bayesian_network_join_tree`: initialise, propagate, and end with exact beliefs in every clique, as far
      as the families fit into cliques. */
  method CreateJoinTree(bn: Network, jt: JoinTree) returns (tree: Propagator)
    requires IsSite(bn, jt)
    ensures fresh(tree) && tree.Valid() && tree.jt == jt
    ensures Exact(bn, Covered(bn, jt), jt, tree.clique)
  {
    var tables, owner := StartTables(bn, jt);
    forall i | 0 <= i < |jt.cliques| ensures CliqueOk(jt, tables[i], i) {
      StartCliqueOk(bn, jt, tables, owner, i);
    }
    tree := new Propagator(jt, tables);
    forall x | Legal(bn.card, Below(|bn.card|), x) ensures Joint(jt, tree.start, x) == JointOf(bn, Covered(bn, jt), x) {
      StartJoint(bn, jt, tree.start, owner, x);
    }
    tree.Propagate();
    CalibratedIsExact(bn, Covered(bn, jt), jt, tree.start, tree.Pots());
  }

  // ---------------------------------------------------------------- queries

  /** The smallest clique that contains `idx`, the first of them if there are several. */
  method SmallestClique(jt: JoinTree, idx: nat) returns (c: nat)
    requires exists i: nat :: i < |jt.cliques| && idx in jt.cliques[i]
    ensures c < |jt.cliques| && idx in jt.cliques[c]
    ensures forall i: nat :: i < |jt.cliques| && idx in jt.cliques[i] ==> |jt.cliques[c]| <= |jt.cliques[i]|
    ensures forall i: nat :: i < c && idx in jt.cliques[i] ==> |jt.cliques[c]| < |jt.cliques[i]|
  {
    c := 0;
    var found := false;
    for n := 0 to |jt.cliques|
      invariant !found ==> c == 0 && forall i: nat :: i < n ==> idx !in jt.cliques[i]
      invariant found ==> c < n && idx in jt.cliques[c]
      invariant found ==> forall i: nat :: i < n && idx in jt.cliques[i] ==> |jt.cliques[c]| <= |jt.cliques[i]|
      invariant forall i: nat :: i < c && idx in jt.cliques[i] ==> |jt.cliques[c]| < |jt.cliques[i]|
    {
      if idx in jt.cliques[n] && (!found || |jt.cliques[n]| < |jt.cliques[c]|) {
        c, found := n, true;
      }
    }
  }

  function Single(v: nat, i: nat): (a: Assignment)
  {
    map[v := i]
  }

  /** The weight of value `i` of node `idx` together with the evidence. */
  ghost function Weight(bn: Network, fs: set<nat>, idx: nat, i: nat): (w: real)
    requires ProperNetwork(bn)
  {
    Marginal(NetworkTable(bn, fs), {idx}, Single(idx, i))
  }

  /** The probability of the evidence. */
  ghost function EvidenceProbability(bn: Network, fs: set<nat>): (w: real)
    requires ProperNetwork(bn)
  {
    Sum(NetworkTable(bn, fs).Keys, NetworkTable(bn, fs))
  }

  ghost predicate ExactTable(bn: Network, fs: set<nat>, clique: set<nat>, t: Table)
    requires ProperNetwork(bn) && clique <= Below(|bn.card|)
  {
    t.Keys == All(bn.card, clique) && forall a :: a in t ==> t[a] == Marginal(NetworkTable(bn, fs), clique, a)
  }

  /** Marginalising an exact clique table further is marginalising the network. */
  lemma CliqueAnswers(bn: Network, fs: set<nat>, clique: set<nat>, t: Table, idx: nat, out: Table)
    requires ProperNetwork(bn) && clique <= Below(|bn.card|) && idx in clique
    requires ExactTable(bn, fs, clique, t) && IsMarginal(t, {idx}, out)
    ensures ExactTable(bn, fs, {idx}, out)
  {
    var net := NetworkTable(bn, fs);
    MarginalIsFull(bn.card, clique, t, {idx}, out);
    forall x | x in net ensures Restrict(x, clique) in t {
      RestrictLegal(bn.card, Below(|bn.card|), x, clique);
    }
    forall k | k in out ensures out[k] == Marginal(net, {idx}, k) {
      MarginalTower(net, clique, {idx}, t, k);
    }
  }

  /** An exact table adds up to the probability of the evidence. */
  lemma ExactTotal(bn: Network, fs: set<nat>, clique: set<nat>, t: Table)
    requires ProperNetwork(bn) && clique <= Below(|bn.card|) && ExactTable(bn, fs, clique, t)
    ensures Sum(t.Keys, t) == EvidenceProbability(bn, fs)
  {
    var net := NetworkTable(bn, fs);
    forall x | x in net ensures Restrict(x, clique) in t {
      RestrictLegal(bn.card, Below(|bn.card|), x, clique);
    }
    SumByFibres(net.Keys, net, clique, t.Keys, t);
  }

  method ReadRow(t: Table, idx: nat, n: nat) returns (dist: seq<real>)
    requires forall i: nat :: i < n ==> Single(idx, i) in t
    ensures |dist| == n && forall i: nat :: i < n ==> dist[i] == t[Single(idx, i)]
  {
    dist := [];
    for i := 0 to n
      invariant |dist| == i && forall j: nat :: j < i ==> dist[j] == t[Single(idx, j)]
    {
      dist := dist + [t[Single(idx, i)]];
    }
  }

  method NormalizedRow(table: Table, idx: nat, n: nat) returns (ok: bool, dist: seq<real>)
    requires forall i: nat :: i < n ==> Single(idx, i) in table
    ensures ok <==> Sum(table.Keys, table) != 0.0
    ensures ok ==> |dist| == n
    ensures ok ==> forall i: nat :: i < n ==> dist[i] == Share(table[Single(idx, i)], Sum(table.Keys, table))
  {
    var normal;
    ok, normal := Normalize(table);
    dist := [];
    if ok {
      dist := ReadRow(normal, idx, n);
    }
  }

  lemma SinglesLegal(bn: Network, fs: set<nat>, idx: nat, t: Table)
    requires ProperNetwork(bn) && idx < |bn.card| && ExactTable(bn, fs, {idx}, t)
    ensures forall i: nat :: i < bn.card[idx] ==> Single(idx, i) in t && t[Single(idx, i)] == Weight(bn, fs, idx, i)
  {
    forall i: nat | i < bn.card[idx] ensures Single(idx, i) in t {
      assert Legal(bn.card, {idx}, Single(idx, i));
    }
  }

  /** The body of `probability`: marginalise one clique table, normalise, and read off the row. */
  method ReadDistribution(bn: Network, ghost fs: set<nat>, clique: set<nat>, t: Table, idx: nat)
    returns (ok: bool, dist: seq<real>)
    requires ProperNetwork(bn) && clique <= Below(|bn.card|) && idx in clique && ExactTable(bn, fs, clique, t)
    ensures ok <==> EvidenceProbability(bn, fs) != 0.0
    ensures ok ==> |dist| == bn.card[idx]
    ensures ok ==> forall i: nat :: i < |dist| ==> dist[i] == Share(Weight(bn, fs, idx, i), EvidenceProbability(bn, fs))
  {
    hide ExactTable, EvidenceProbability, Weight, IsMarginal, Share;
    var table := Marginalize(t, {idx});
    CliqueAnswers(bn, fs, clique, t, idx, table);
    ExactTotal(bn, fs, {idx}, table);
    SinglesLegal(bn, fs, idx, table);
    ok, dist := NormalizedRow(table, idx, bn.card[idx]);
  }

  lemma HoldingClique(bn: Network, jt: JoinTree, idx: nat) returns (i: nat)
    requires IsSite(bn, jt) && idx < |bn.card|
    ensures i < |jt.cliques| && idx in jt.cliques[i]
  {
    assert Holding(jt, idx) != {};
    i :| i in Holding(jt, idx);
  }

  /** `bayesian_network_join_tree::probability`: the distribution of node `idx` given the evidence, whenever the
      evidence is possible at all, by the tables whose families fit into cliques. */
  method Probability(bn: Network, tree: Propagator, idx: nat) returns (ok: bool, dist: seq<real>)
    requires IsSite(bn, tree.jt) && tree.Valid() && Exact(bn, Covered(bn, tree.jt), tree.jt, tree.clique)
             && idx < |bn.card|
    ensures ok <==> EvidenceProbability(bn, Covered(bn, tree.jt)) != 0.0
    ensures ok ==> |dist| == bn.card[idx]
    ensures ok ==> forall i: nat :: i < |dist| ==>
              dist[i] == Share(Weight(bn, Covered(bn, tree.jt), idx, i), EvidenceProbability(bn, Covered(bn, tree.jt)))
  {
    ghost var some := HoldingClique(bn, tree.jt, idx);
    var c := SmallestClique(tree.jt, idx);
    assert CliqueOk(tree.jt, tree.clique[c], c);
    ok, dist := ReadDistribution(bn, Covered(bn, tree.jt), tree.jt.cliques[c], tree.clique[c], idx);
  }

  /** The posterior of the network: with every family in some clique, the tables are all of the network's. */
  method Posterior(bn: Network, jt: JoinTree, idx: nat) returns (ok: bool, dist: seq<real>)
    requires IsSite(bn, jt) && idx < |bn.card| && forall v: nat :: v < |bn.card| ==> IsCovered(bn, jt, v)
    ensures ok <==> EvidenceProbability(bn, Below(|bn.card|)) != 0.0
    ensures ok ==> |dist| == bn.card[idx]
    ensures ok ==> forall i: nat :: i < |dist| ==>
              dist[i] == Share(Weight(bn, Below(|bn.card|), idx, i), EvidenceProbability(bn, Below(|bn.card|)))
  {
    AllCovered(bn, jt);
    var tree := CreateJoinTree(bn, jt);
    ok, dist := Probability(bn, tree, idx);
  }
}
