/** Why calibration is enough: in a calibrated join tree every clique table is the marginal of the
    represented joint. The proof eliminates the cliques one leaf at a time. */
module Beliefs {
  import opened Basics
  import opened Assignments
  import opened Sums
  import opened Tables
  import opened Trees
  import opened Messages
  import opened Propagation

  /** The cliques that contain variable `v`. */
  ghost function Holding(jt: JoinTree, v: nat): (s: set<nat>)
    requires Proper(jt)
  {
    set i | i in Nodes(jt.graph) && v in jt.cliques[i]
  }

  ghost predicate RunningIntersection(jt: JoinTree)
    requires Proper(jt)
  {
    forall v: nat :: v < |jt.card| ==> ConnectedWithin(jt.graph, Holding(jt, v))
  }

  /** `is_join_tree`: a tree in which the cliques of each variable hang together, and which mentions
      every variable. */
  ghost predicate IsJoinTree(jt: JoinTree)
  {
    && Proper(jt) && PositiveCards(jt) && IsTree(jt.graph)
    && RunningIntersection(jt)
    && (forall v: nat :: v < |jt.card| ==> Holding(jt, v) != {})
  }

  ghost predicate TablesCalibrated(jt: JoinTree, p: Potentials)
    requires Proper(jt)
  {
    TablesOk(jt, p) && Calibrated(jt, p)
  }

  // ---------------------------------------------------------------- parts of the tree

  ghost function Vars(jt: JoinTree, s: set<nat>): (vs: set<nat>)
    requires Proper(jt) && s <= Nodes(jt.graph)
    ensures forall v :: v in vs <==> exists i :: i in s && v in jt.cliques[i]
    ensures forall v :: v in vs ==> v < |jt.card|
  {
    set i, v | i in s && v in jt.cliques[i] :: v
  }

  /** The edges that lead up from the nodes of `s`. */
  ghost function UpEdges(r: Rooting, root: nat, s: set<nat>): (es: set<nat>)
    requires forall i :: i in s ==> i < |r.via|
    ensures forall k :: k in es <==> exists i :: i in s && i != root && r.via[i] == k
  {
    set i | i in s && i != root :: r.via[i]
  }

  /** `s` contains the root and, with a node, its parent. */
  ghost predicate IsTop(jt: JoinTree, root: nat, r: Rooting, s: set<nat>)
    requires Proper(jt) && IsRooting(jt.graph, root, r)
  {
    && s <= Nodes(jt.graph)
    && root in s
    && forall i :: i in s && i != root ==> r.parent[i] in s
  }

  ghost function PartJoint(jt: JoinTree, p: Potentials, s: set<nat>, es: set<nat>, y: Assignment): (x: real)
    requires Proper(jt) && |p.clique| == jt.graph.n && |p.sep| == |jt.graph.edges|
  {
    Over(CliqueProduct(jt, p.clique, s, y, jt.graph.n), SepProduct(jt, p.sep, es, y, |jt.graph.edges|))
  }

  ghost function PartTable(jt: JoinTree, p: Potentials, s: set<nat>, es: set<nat>): (t: Table)
    requires Proper(jt) && |p.clique| == jt.graph.n && |p.sep| == |jt.graph.edges| && s <= Nodes(jt.graph)
    ensures t.Keys == All(jt.card, Vars(jt, s))
    ensures forall y :: y in t ==> t[y] == PartJoint(jt, p, s, es, y)
  {
    map y | y in All(jt.card, Vars(jt, s)) :: PartJoint(jt, p, s, es, y)
  }

  /** The represented joint as a table over all variables. */
  ghost function JointTable(jt: JoinTree, p: Potentials): (t: Table)
    requires Proper(jt) && |p.clique| == jt.graph.n && |p.sep| == |jt.graph.edges|
    ensures t.Keys == All(jt.card, Below(|jt.card|))
    ensures forall x :: x in t ==> t[x] == Joint(jt, p, x)
  {
    map x | x in All(jt.card, Below(|jt.card|)) :: Joint(jt, p, x)
  }

  // ---------------------------------------------------------------- the running intersection

  /** Node `k` hangs on the rest of the part `s` by the edge `e` to `up` alone. */
  ghost predicate IsLeaf(jt: JoinTree, s: set<nat>, es: set<nat>, k: nat, e: nat, up: nat)
    requires Proper(jt)
  {
    && s <= Nodes(jt.graph) && k in s && up in s - {k}
    && e in es && es <= Below(|jt.graph.edges|) && Joins(jt.graph.edges[e], k, up)
    && Vars(jt, s) == Vars(jt, s - {k}) + jt.cliques[k]
    && jt.cliques[k] * Vars(jt, s - {k}) == SepVars(jt, e)
    && forall l :: l in es - {e} ==> SepVars(jt, l) <= Vars(jt, s - {k})
  }

  /** What a deepest node shares with the rest of a top part, it shares with its parent. */
  lemma SharedWithParent(jt: JoinTree, root: nat, r: Rooting, s: set<nat>, k: nat, v: nat)
    requires Proper(jt) && IsRooting(jt.graph, root, r) && s <= Nodes(jt.graph)
    requires k in s && k != root && forall i :: i in s ==> r.depth[i] <= r.depth[k]
    requires v in jt.cliques[k] && v in Vars(jt, s - {k})
    requires ConnectedWithin(jt.graph, Holding(jt, v))
    ensures r.parent[k] < jt.graph.n && v in jt.cliques[r.parent[k]]
  {
    var m :| m in s - {k} && v in jt.cliques[m];
    HoldsParent(jt.graph, root, r, Holding(jt, v), k, m);
  }

  lemma TopWithoutLeaf(jt: JoinTree, root: nat, r: Rooting, s: set<nat>, k: nat)
    requires Proper(jt) && IsRooting(jt.graph, root, r) && IsTop(jt, root, r, s)
    requires k in s && k != root && forall i :: i in s ==> r.depth[i] <= r.depth[k]
    ensures IsTop(jt, root, r, s - {k})
  {
    forall i | i in s - {k} && i != root ensures r.parent[i] in s - {k} {
      assert ParentLink(jt.graph, r, i);
    }
  }

  lemma LeafVars(jt: JoinTree, root: nat, r: Rooting, s: set<nat>, k: nat)
    requires Proper(jt) && IsRooting(jt.graph, root, r) && IsTop(jt, root, r, s)
    requires RunningIntersection(jt)
    requires k in s && k != root && forall i :: i in s ==> r.depth[i] <= r.depth[k]
    ensures r.via[k] < |jt.graph.edges|
    ensures Vars(jt, s) == Vars(jt, s - {k}) + jt.cliques[k]
    ensures jt.cliques[k] * Vars(jt, s - {k}) == SepVars(jt, r.via[k])
  {
    assert ParentLink(jt.graph, r, k);
    var up := r.parent[k];
    assert SepVars(jt, r.via[k]) == jt.cliques[k] * jt.cliques[up];
    forall v | v in SepVars(jt, r.via[k]) ensures v in Vars(jt, s - {k}) {
      assert up in s - {k} && v in jt.cliques[up];
    }
    forall v | v in jt.cliques[k] * Vars(jt, s - {k}) ensures v in jt.cliques[up] {
      SharedWithParent(jt, root, r, s, k, v);
    }
  }

  lemma LeafEdges(jt: JoinTree, root: nat, r: Rooting, s: set<nat>, k: nat)
    requires Proper(jt) && IsRooting(jt.graph, root, r) && IsTop(jt, root, r, s)
    requires k in s && k != root
    ensures r.via[k] in UpEdges(r, root, s) && UpEdges(r, root, s) <= Below(|jt.graph.edges|)
    ensures UpEdges(r, root, s) - {r.via[k]} == UpEdges(r, root, s - {k})
    ensures forall l :: l in UpEdges(r, root, s - {k}) ==> l < |jt.graph.edges| && SepVars(jt, l) <= Vars(jt, s - {k})
  {
    var es := UpEdges(r, root, s);
    forall l | l in es ensures l < |jt.graph.edges| {
      var i :| i in s && i != root && r.via[i] == l;
      assert ParentLink(jt.graph, r, i);
    }
    forall i | i in s - {k} && i != root ensures r.via[i] != r.via[k] {
      if r.via[i] == r.via[k] {
        ViaInjective(jt.graph, root, r, i, k);
      }
    }
    forall l | l in UpEdges(r, root, s - {k}) ensures l < |jt.graph.edges| && SepVars(jt, l) <= Vars(jt, s - {k}) {
      var i :| i in s - {k} && i != root && r.via[i] == l;
      assert ParentLink(jt.graph, r, i);
      assert SepVars(jt, l) <= jt.cliques[i];
    }
  }

  /** A deepest node of a top part is a leaf of it. */
  lemma DeepestIsLeaf(jt: JoinTree, root: nat, r: Rooting, s: set<nat>, k: nat)
    requires Proper(jt) && IsRooting(jt.graph, root, r) && IsTop(jt, root, r, s)
    requires RunningIntersection(jt)
    requires k in s && k != root && forall i :: i in s ==> r.depth[i] <= r.depth[k]
    ensures IsLeaf(jt, s, UpEdges(r, root, s), k, r.via[k], r.parent[k])
  {
    assert ParentLink(jt.graph, r, k);
    LeafVars(jt, root, r, s, k);
    LeafEdges(jt, root, r, s, k);
  }

  // ---------------------------------------------------------------- summing out one leaf

  lemma ExtensionIsRow(card: seq<nat>, rest: set<nat>, leaf: set<nat>, b: Assignment, y: Assignment)
    requires Legal(card, rest + leaf, y) && Restrict(y, rest) == b
    ensures Legal(card, leaf, Restrict(y, leaf))
    ensures Restrict(Restrict(y, leaf), leaf * rest) == Restrict(b, leaf * rest)
  {
    RestrictTwice(y, leaf, leaf * rest);
    RestrictTwice(y, rest, leaf * rest);
  }

  lemma ExtensionDetermined(rest: set<nat>, leaf: set<nat>, y: Assignment, z: Assignment)
    requires y.Keys == rest + leaf == z.Keys
    requires Restrict(y, rest) == Restrict(z, rest) && Restrict(y, leaf) == Restrict(z, leaf)
    ensures y == z
  {
    forall v | v in y ensures y[v] == z[v] {
      if v in leaf {
        assert Restrict(y, leaf)[v] == Restrict(z, leaf)[v];
      } else {
        assert Restrict(y, rest)[v] == Restrict(z, rest)[v];
      }
    }
  }

  lemma RowExtends(card: seq<nat>, rest: set<nat>, leaf: set<nat>, b: Assignment, a: Assignment) returns (y: Assignment)
    requires Legal(card, rest, b) && Legal(card, leaf, a) && Restrict(a, leaf * rest) == Restrict(b, leaf * rest)
    ensures Legal(card, rest + leaf, y) && Restrict(y, rest) == b && Restrict(y, leaf) == a
  {
    y := b + a;
    forall v | v in leaf * rest ensures a[v] == b[v] {
      assert Restrict(a, leaf * rest)[v] == Restrict(b, leaf * rest)[v];
    }
  }

  /** Restriction to the leaf clique is one-to-one from the extensions of `b` onto the leaf's rows that match `b`. */
  lemma ExtensionsAreRows(card: seq<nat>, rest: set<nat>, leaf: set<nat>, b: Assignment, f: set<Assignment>,
                          rows: set<Assignment>)
    requires Legal(card, rest, b)
    requires forall y :: y in f <==> Legal(card, rest + leaf, y) && Restrict(y, rest) == b
    requires forall a :: a in rows <==> Legal(card, leaf, a) && Restrict(a, leaf * rest) == Restrict(b, leaf * rest)
    ensures OneToOneOnto(f, leaf, rows)
  {
    forall y | y in f ensures Restrict(y, leaf) in rows {
      ExtensionIsRow(card, rest, leaf, b, y);
    }
    forall y, z | y in f && z in f && Restrict(y, leaf) == Restrict(z, leaf) ensures y == z {
      ExtensionDetermined(rest, leaf, y, z);
    }
    forall a | a in rows ensures exists y :: y in f && Restrict(y, leaf) == a {
      var y := RowExtends(card, rest, leaf, b, a);
      assert y in f;
    }
  }

  /** Summing the leaf's own table over the extensions of `b` gives the leaf's marginal on the separator. */
  lemma LeafMass(card: seq<nat>, rest: set<nat>, leaf: set<nat>, b: Assignment, f: set<Assignment>, t: Table, u: Table)
    requires Legal(card, rest, b)
    requires forall y :: y in f <==> Legal(card, rest + leaf, y) && Restrict(y, rest) == b
    requires forall a :: a in t <==> Legal(card, leaf, a)
    requires forall y :: y in f ==> Entry(u, y) == Entry(t, Restrict(y, leaf))
    ensures Sum(f, u) == Marginal(t, leaf * rest, Restrict(b, leaf * rest))
  {
    var rows := Fibre(t.Keys, leaf * rest, Restrict(b, leaf * rest));
    ExtensionsAreRows(card, rest, leaf, b, f, rows);
    SumReindex(f, u, leaf, rows, t);
  }

  lemma OverTimes(v: real, n: real, s: real, q: real)
    ensures Over(Times(v, n), Times(s, q)) == Times(Over(n, Times(s, q)), v)
  {
  }

  lemma OverCancels(n: real, s: real, q: real)
    requires s == 0.0 ==> n == 0.0
    ensures Times(Over(n, Times(s, q)), s) == Over(n, q)
  {
    if s != 0.0 && q != 0.0 {
      assert n / (s * q) * s == n / q;
    }
  }

  /** The clique product of the rest, and the separator product of the rest, see only `b`. */
  lemma RestSeesOnly(jt: JoinTree, p: Potentials, s: set<nat>, es: set<nat>, k: nat, e: nat, up: nat, b: Assignment,
                     y: Assignment)
    requires Proper(jt) && |p.clique| == jt.graph.n && |p.sep| == |jt.graph.edges| && IsLeaf(jt, s, es, k, e, up)
    requires Restrict(y, Vars(jt, s - {k})) == b
    ensures CliqueProduct(jt, p.clique, s - {k}, y, jt.graph.n) == CliqueProduct(jt, p.clique, s - {k}, b, jt.graph.n)
    ensures SepProduct(jt, p.sep, es - {e}, y, |jt.graph.edges|) == SepProduct(jt, p.sep, es - {e}, b, |jt.graph.edges|)
    ensures SepValue(jt, p.sep, e, y) == SepValue(jt, p.sep, e, b)
  {
    var rest, vars := s - {k}, Vars(jt, s - {k});
    forall i | 0 <= i < jt.graph.n && i in rest ensures Restrict(y, jt.cliques[i]) == Restrict(b, jt.cliques[i]) {
      assert jt.cliques[i] <= vars;
      RestrictTwice(y, vars, jt.cliques[i]);
    }
    CliqueProductAgree(jt, p.clique, rest, y, p.clique, rest, b, jt.graph.n);
    forall l | 0 <= l < |jt.graph.edges| && l in es - {e}
      ensures Restrict(y, SepVars(jt, l)) == Restrict(b, SepVars(jt, l)) {
      RestrictTwice(y, vars, SepVars(jt, l));
    }
    SepProductAgree(jt, p.sep, es - {e}, y, p.sep, es - {e}, b, |jt.graph.edges|);
    RestrictTwice(y, vars, SepVars(jt, e));
  }

  /** On the extensions of `b`, everything but the leaf's own row is constant. */
  lemma PartAtExtension(jt: JoinTree, p: Potentials, s: set<nat>, es: set<nat>, k: nat, e: nat, up: nat, b: Assignment,
                        y: Assignment)
    requires Proper(jt) && |p.clique| == jt.graph.n && |p.sep| == |jt.graph.edges| && IsLeaf(jt, s, es, k, e, up)
    requires Restrict(y, Vars(jt, s - {k})) == b
    ensures var n, m := jt.graph.n, |jt.graph.edges|;
            PartJoint(jt, p, s, es, y)
            == Times(Over(CliqueProduct(jt, p.clique, s - {k}, b, n),
                          Times(SepValue(jt, p.sep, e, b), SepProduct(jt, p.sep, es - {e}, b, m))),
                     CliqueValue(jt, p.clique, k, y))
  {
    var n, m := jt.graph.n, |jt.graph.edges|;
    CliqueProductRemove(jt, p.clique, s, y, n, k);
    SepProductRemove(jt, p.sep, es, y, m, e);
    RestSeesOnly(jt, p, s, es, k, e, up, b, y);
    OverTimes(CliqueValue(jt, p.clique, k, y), CliqueProduct(jt, p.clique, s - {k}, b, n), SepValue(jt, p.sep, e, b),
              SepProduct(jt, p.sep, es - {e}, b, m));
  }

  /** Where the separator is zero the rest of the product is zero too, through the parent's clique. */
  lemma ZeroThroughParent(jt: JoinTree, p: Potentials, s: set<nat>, es: set<nat>, k: nat, e: nat, up: nat,
                          b: Assignment)
    requires Proper(jt) && ShapeOk(jt, p) && IsLeaf(jt, s, es, k, e, up)
    requires Legal(jt.card, Vars(jt, s - {k}), b)
    requires p.sep[e] != map[] && Supported(p.clique[up], p.sep[e], SepVars(jt, e))
    requires SepValue(jt, p.sep, e, b) == 0.0
    ensures CliqueProduct(jt, p.clique, s - {k}, b, jt.graph.n) == 0.0
  {
    var rest := s - {k};
    assert jt.cliques[up] <= Vars(jt, rest);
    RestrictTwice(b, jt.cliques[up], SepVars(jt, e));
    assert CliqueValue(jt, p.clique, up, b) == 0.0;
    CliqueProductRemove(jt, p.clique, rest, b, jt.graph.n, up);
    TimesZero(CliqueValue(jt, p.clique, up, b), CliqueProduct(jt, p.clique, rest - {up}, b, jt.graph.n));
  }

  /** The leaf's own table, read at the assignments of the whole part. */
  ghost function LeafTable(jt: JoinTree, p: Potentials, s: set<nat>, k: nat): (t: Table)
    requires Proper(jt) && s <= Nodes(jt.graph) && k < jt.graph.n == |p.clique|
    ensures t.Keys == All(jt.card, Vars(jt, s))
    ensures forall y :: y in t ==> t[y] == CliqueValue(jt, p.clique, k, y)
  {
    map y | y in All(jt.card, Vars(jt, s)) :: CliqueValue(jt, p.clique, k, y)
  }

  /** The leaf's rows over the extensions of `b` add up to the separator entry. */
  lemma LeafAddsUp(jt: JoinTree, p: Potentials, s: set<nat>, es: set<nat>, k: nat, e: nat, up: nat, b: Assignment)
    requires Proper(jt) && ShapeOk(jt, p) && IsLeaf(jt, s, es, k, e, up)
    requires PositiveCards(jt) && Legal(jt.card, Vars(jt, s - {k}), b)
    requires p.sep[e] != map[] && IsMarginal(p.clique[k], SepVars(jt, e), p.sep[e])
    ensures Marginal(LeafTable(jt, p, s, k), Vars(jt, s - {k}), b) == SepValue(jt, p.sep, e, b)
  {
    var rest, leaf, vars, own := Vars(jt, s - {k}), jt.cliques[k], SepVars(jt, e), LeafTable(jt, p, s, k);
    assert CliqueOk(jt, p.clique[k], k);
    LeafMass(jt.card, rest, leaf, b, Fibre(own.Keys, rest, b), p.clique[k], own);
    assert Restrict(b, vars) in p.sep[e] by {
      MarginalIsFull(jt.card, leaf, p.clique[k], vars, p.sep[e]);
      RestrictLegal(jt.card, rest, b, vars);
    }
  }

  /** The factor common to all extensions of `b`. */
  ghost function Common(jt: JoinTree, p: Potentials, s: set<nat>, es: set<nat>, k: nat, e: nat,
                        b: Assignment): (c: real)
    requires Proper(jt) && |p.clique| == jt.graph.n && |p.sep| == |jt.graph.edges| && e < |jt.graph.edges|
  {
    Over(CliqueProduct(jt, p.clique, s - {k}, b, jt.graph.n),
         Times(SepValue(jt, p.sep, e, b), SepProduct(jt, p.sep, es - {e}, b, |jt.graph.edges|)))
  }

  /** Over the extensions of `b` the part is a constant multiple of the leaf's own table. */
  lemma PartIsScaled(jt: JoinTree, p: Potentials, s: set<nat>, es: set<nat>, k: nat, e: nat, up: nat, b: Assignment)
    requires Proper(jt) && |p.clique| == jt.graph.n && |p.sep| == |jt.graph.edges| && IsLeaf(jt, s, es, k, e, up)
    ensures Marginal(PartTable(jt, p, s, es), Vars(jt, s - {k}), b)
            == Times(Common(jt, p, s, es, k, e, b), Marginal(LeafTable(jt, p, s, k), Vars(jt, s - {k}), b))
  {
    var whole, own, c := PartTable(jt, p, s, es), LeafTable(jt, p, s, k), Common(jt, p, s, es, k, e, b);
    var f := Fibre(own.Keys, Vars(jt, s - {k}), b);
    forall y | y in f ensures Entry(whole, y) == Times(c, Entry(own, y)) {
      PartAtExtension(jt, p, s, es, k, e, up, b, y);
    }
    SumScale(f, own, whole, c);
  }

  lemma CommonCancels(jt: JoinTree, p: Potentials, s: set<nat>, es: set<nat>, k: nat, e: nat, up: nat, b: Assignment)
    requires Proper(jt) && ShapeOk(jt, p) && IsLeaf(jt, s, es, k, e, up)
    requires Legal(jt.card, Vars(jt, s - {k}), b)
    requires p.sep[e] != map[] && Supported(p.clique[up], p.sep[e], SepVars(jt, e))
    ensures Times(Common(jt, p, s, es, k, e, b), SepValue(jt, p.sep, e, b)) == PartJoint(jt, p, s - {k}, es - {e}, b)
  {
    var v := SepValue(jt, p.sep, e, b);
    if v == 0.0 {
      ZeroThroughParent(jt, p, s, es, k, e, up, b);
    }
    OverCancels(CliqueProduct(jt, p.clique, s - {k}, b, jt.graph.n), v,
                SepProduct(jt, p.sep, es - {e}, b, |jt.graph.edges|));
  }

  /** Summing a leaf out of a part leaves the smaller part. */
  lemma SumOutLeaf(jt: JoinTree, p: Potentials, s: set<nat>, es: set<nat>, k: nat, e: nat, up: nat, b: Assignment)
    requires Proper(jt) && ShapeOk(jt, p) && IsLeaf(jt, s, es, k, e, up)
    requires PositiveCards(jt) && Legal(jt.card, Vars(jt, s - {k}), b)
    requires p.sep[e] != map[] && IsMarginal(p.clique[k], SepVars(jt, e), p.sep[e])
    requires Supported(p.clique[up], p.sep[e], SepVars(jt, e))
    ensures Marginal(PartTable(jt, p, s, es), Vars(jt, s - {k}), b) == PartJoint(jt, p, s - {k}, es - {e}, b)
  {
    PartIsScaled(jt, p, s, es, k, e, up, b);
    LeafAddsUp(jt, p, s, es, k, e, up, b);
    CommonCancels(jt, p, s, es, k, e, up, b);
  }

  // ---------------------------------------------------------------- the theorem

  lemma {:induction false} DeepestOf(r: Rooting, s: set<nat>) returns (k: nat)
    requires s != {} && forall i :: i in s ==> i < |r.depth|
    ensures k in s && forall i :: i in s ==> r.depth[i] <= r.depth[k]
  {
    k :| k in s;
    var rest := s - {k};
    if rest != {} {
      var d := DeepestOf(r, rest);
      if r.depth[d] > r.depth[k] {
        k := d;
      }
    }
    assert forall i :: i in s ==> i in rest || i in s - rest;
  }

  lemma {:induction false} EmptyProducts(jt: JoinTree, p: Potentials, a: Assignment, n: nat, m: nat)
    requires Proper(jt) && |p.clique| == jt.graph.n && |p.sep| == |jt.graph.edges|
    requires n <= jt.graph.n && m <= |jt.graph.edges|
    ensures CliqueProduct(jt, p.clique, {}, a, n) == 1.0
    ensures SepProduct(jt, p.sep, {}, a, m) == 1.0
  {
    if n > 0 {
      EmptyProducts(jt, p, a, n - 1, m);
    } else if m > 0 {
      EmptyProducts(jt, p, a, n, m - 1);
    }
  }

  lemma AloneJoint(jt: JoinTree, p: Potentials, root: nat, a: Assignment)
    requires Proper(jt) && |p.clique| == jt.graph.n && |p.sep| == |jt.graph.edges| && root < jt.graph.n
    ensures PartJoint(jt, p, {root}, {}, a) == CliqueValue(jt, p.clique, root, a)
  {
    CliqueProductRemove(jt, p.clique, {root}, a, jt.graph.n, root);
    assert {root} - {root} == {};
    EmptyProducts(jt, p, a, jt.graph.n, |jt.graph.edges|);
  }

  lemma SelfFibre(card: seq<nat>, vars: set<nat>, s: set<Assignment>, a: Assignment)
    requires a in s && forall y :: y in s ==> Legal(card, vars, y)
    ensures Fibre(s, vars, a) == {a}
  {
    forall y | y in s ensures Restrict(y, vars) == y {
    }
  }

  lemma RootAlone(jt: JoinTree, p: Potentials, root: nat, a: Assignment)
    requires Proper(jt) && ShapeOk(jt, p) && root < jt.graph.n
    requires a in p.clique[root]
    ensures Marginal(PartTable(jt, p, {root}, {}), jt.cliques[root], a) == p.clique[root][a]
  {
    hide PartTable, PartJoint, SepOk, All, Fibre;
    var t := PartTable(jt, p, {root}, {});
    assert Vars(jt, {root}) == jt.cliques[root];
    assert CliqueOk(jt, p.clique[root], root);
    SelfFibre(jt.card, jt.cliques[root], t.Keys, a);
    SumRemove({a}, t, a);
    assert {a} - {a} == {};
    AloneJoint(jt, p, root, a);
  }

  /** One elimination step: the smaller part is the marginal of the larger one. */
  lemma EliminateLeaf(jt: JoinTree, p: Potentials, s: set<nat>, es: set<nat>, k: nat, e: nat, up: nat, inner: set<nat>,
                      a: Assignment)
    requires Proper(jt) && PositiveCards(jt) && TablesCalibrated(jt, p) && IsLeaf(jt, s, es, k, e, up)
    requires inner <= Vars(jt, s - {k})
    ensures Marginal(PartTable(jt, p, s - {k}, es - {e}), inner, a) == Marginal(PartTable(jt, p, s, es), inner, a)
  {
    var vars := Vars(jt, s - {k});
    var big, small := PartTable(jt, p, s, es), PartTable(jt, p, s - {k}, es - {e});
    forall y | y in big ensures Restrict(y, vars) in small {
      RestrictLegal(jt.card, Vars(jt, s), y, vars);
    }
    assert Touches(jt.graph.edges[e], up) && (k == jt.graph.edges[e].u || k == jt.graph.edges[e].v);
    forall b | b in small ensures small[b] == Marginal(big, vars, b) {
      SumOutLeaf(jt, p, s, es, k, e, up, b);
    }
    MarginalTower(big, vars, inner, small, a);
  }

  lemma NextLeaf(jt: JoinTree, root: nat, r: Rooting, s: set<nat>) returns (k: nat)
    requires Proper(jt) && RunningIntersection(jt) && IsRooting(jt.graph, root, r)
    requires IsTop(jt, root, r, s) && s != {root}
    ensures k in s && IsTop(jt, root, r, s - {k})
    ensures IsLeaf(jt, s, UpEdges(r, root, s), k, r.via[k], r.parent[k])
    ensures UpEdges(r, root, s) - {r.via[k]} == UpEdges(r, root, s - {k})
  {
    k := DeepestOf(r, s - {root});
    forall i | i in s ensures r.depth[i] <= r.depth[k] {
      assert i == root || i in s - {root};
    }
    TopWithoutLeaf(jt, root, r, s, k);
    DeepestIsLeaf(jt, root, r, s, k);
    LeafEdges(jt, root, r, s, k);
  }

  lemma CliqueWithinVars(jt: JoinTree, s: set<nat>, i: nat)
    requires Proper(jt) && s <= Nodes(jt.graph) && i in s
    ensures jt.cliques[i] <= Vars(jt, s)
  {
  }

  lemma NoUpEdges(r: Rooting, root: nat)
    requires root < |r.via|
    ensures UpEdges(r, root, {root}) == {}
  {
  }

  /** Eliminating all cliques but the root's leaves the root's table. */
  lemma {:induction false} Eliminate(jt: JoinTree, p: Potentials, root: nat, r: Rooting, s: set<nat>, a: Assignment)
    requires Proper(jt) && PositiveCards(jt) && RunningIntersection(jt) && TablesCalibrated(jt, p)
    requires IsRooting(jt.graph, root, r) && IsTop(jt, root, r, s)
    requires a in p.clique[root]
    ensures Marginal(PartTable(jt, p, s, UpEdges(r, root, s)), jt.cliques[root], a) == p.clique[root][a]
    decreases |s|
  {
    hide RunningIntersection, Marginal, PartTable, PartJoint, UpEdges, Vars, IsLeaf;
    if s == {root} {
      NoUpEdges(r, root);
      RootAlone(jt, p, root, a);
    } else {
      var k := NextLeaf(jt, root, r, s);
      Eliminate(jt, p, root, r, s - {k}, a);
      CliqueWithinVars(jt, s - {k}, root);
      EliminateLeaf(jt, p, s, UpEdges(r, root, s), k, r.via[k], r.parent[k], jt.cliques[root], a);
    }
  }

  lemma WholeVars(jt: JoinTree)
    requires Proper(jt) && forall v: nat :: v < |jt.card| ==> Holding(jt, v) != {}
    ensures Vars(jt, Nodes(jt.graph)) == Below(|jt.card|)
  {
    forall v: nat | v < |jt.card| ensures v in Vars(jt, Nodes(jt.graph)) {
      var i :| i in Holding(jt, v);
    }
  }

  lemma WholeEdges(jt: JoinTree, root: nat, r: Rooting)
    requires Proper(jt) && IsRooting(jt.graph, root, r)
    ensures IsTop(jt, root, r, Nodes(jt.graph))
    ensures UpEdges(r, root, Nodes(jt.graph)) == Below(|jt.graph.edges|)
  {
    var s := Nodes(jt.graph);
    forall i | i in s && i != root ensures r.parent[i] in s && r.via[i] < |jt.graph.edges| {
      assert ParentLink(jt.graph, r, i);
    }
    forall k: nat | k < |jt.graph.edges| ensures k in UpEdges(r, root, s) {
      assert IsUsed(r, root, k);
      var i :| HasChild(r, root, k, i);
      assert i in s;
    }
  }

  /** The whole tree, seen from any root, is a part whose table is the joint. */
  lemma WholeTree(jt: JoinTree, p: Potentials, root: nat, r: Rooting)
    requires Proper(jt) && |p.clique| == jt.graph.n && |p.sep| == |jt.graph.edges| && IsRooting(jt.graph, root, r)
    requires forall v: nat :: v < |jt.card| ==> Holding(jt, v) != {}
    ensures IsTop(jt, root, r, Nodes(jt.graph))
    ensures PartTable(jt, p, Nodes(jt.graph), UpEdges(r, root, Nodes(jt.graph))) == JointTable(jt, p)
  {
    WholeVars(jt);
    WholeEdges(jt, root, r);
  }

  /** In a calibrated join tree every clique table is the marginal of the represented joint. */
  lemma CliquesAreMarginals(jt: JoinTree, p: Potentials, c: nat, a: Assignment)
    requires IsJoinTree(jt) && TablesCalibrated(jt, p)
    requires c < jt.graph.n && a in p.clique[c]
    ensures p.clique[c][a] == Marginal(JointTable(jt, p), jt.cliques[c], a)
  {
    var r := RootingExists(jt.graph, c);
    WholeTree(jt, p, c, r);
    Eliminate(jt, p, c, r, Nodes(jt.graph), a);
  }
}
