/** What one join-tree message does to the clique and separator tables, and what it keeps. */
module Messages {
  import opened Basics
  import opened Assignments
  import opened Sums
  import opened Tables
  import opened Trees

  /** The join tree: a graph of cliques, and the number of values of each network variable. */
  datatype JoinTree = JoinTree(graph: Graph, cliques: seq<set<nat>>, card: seq<nat>)

  /** The tables of the join tree being computed. An empty separator table stands for all ones. */
  datatype Potentials = Potentials(clique: seq<Table>, sep: seq<Table>)

  ghost predicate Proper(jt: JoinTree)
  {
    && WellFormed(jt.graph)
    && |jt.cliques| == jt.graph.n
    && (forall i, v :: 0 <= i < |jt.cliques| && v in jt.cliques[i] ==> v < |jt.card|)
  }

  /** An edge of a join tree carries the intersection of its two cliques. */
  function SepVars(jt: JoinTree, k: nat): (s: set<nat>)
    requires |jt.cliques| == jt.graph.n && k < |jt.graph.edges|
    requires jt.graph.edges[k].u < jt.graph.n && jt.graph.edges[k].v < jt.graph.n
  {
    jt.cliques[jt.graph.edges[k].u] * jt.cliques[jt.graph.edges[k].v]
  }

  ghost predicate CliqueOk(jt: JoinTree, t: Table, i: nat)
    requires Proper(jt) && i < jt.graph.n
  {
    t.Keys == All(jt.card, jt.cliques[i]) && Nonneg(t)
  }

  ghost predicate SepOk(jt: JoinTree, t: Table, k: nat)
    requires Proper(jt) && k < |jt.graph.edges|
  {
    t == map[] || (t.Keys == All(jt.card, SepVars(jt, k)) && Nonneg(t))
  }

  /** Where a separator entry is zero, so are the rows of `t` that project onto it. */
  ghost predicate Supported(t: Table, sep: Table, vars: set<nat>)
  {
    sep != map[] ==> forall a :: a in t && Entry(sep, Restrict(a, vars)) == 0.0 ==> t[a] == 0.0
  }

  ghost predicate ShapeOk(jt: JoinTree, p: Potentials)
    requires Proper(jt)
  {
    && |p.clique| == jt.graph.n
    && |p.sep| == |jt.graph.edges|
    && (forall i :: 0 <= i < jt.graph.n ==> CliqueOk(jt, p.clique[i], i))
    && (forall k :: 0 <= k < |jt.graph.edges| ==> SepOk(jt, p.sep[k], k))
  }

  ghost predicate ZerosOk(jt: JoinTree, p: Potentials)
    requires Proper(jt) && ShapeOk(jt, p)
  {
    forall k: nat, i: nat ::
        k < |jt.graph.edges| && Touches(jt.graph.edges[k], i) ==> Supported(p.clique[i], p.sep[k], SepVars(jt, k))
  }

  ghost predicate TablesOk(jt: JoinTree, p: Potentials)
    requires Proper(jt)
  {
    ShapeOk(jt, p) && ZerosOk(jt, p)
  }

  // ---------------------------------------------------------------- the effect of a message

  /** The factor a row is multiplied by: the new separator entry over the old one. */
  function Factor(newS: Table, oldS: Table, k: Assignment): (f: real)
  {
    if oldS == map[] then Entry(newS, k) else Ratio(Entry(newS, k), Entry(oldS, k))
  }

  ghost predicate Rescaled(d: Table, r: Table, newS: Table, oldS: Table, vars: set<nat>)
  {
    r.Keys == d.Keys && forall a :: a in d ==> r[a] == Times(d[a], Factor(newS, oldS, Restrict(a, vars)))
  }

  ghost predicate SameExcept(p: Potentials, q: Potentials, to: nat, k: nat)
  {
    && |q.clique| == |p.clique| && |q.sep| == |p.sep|
    && (forall i :: 0 <= i < |p.clique| && i != to ==> q.clique[i] == p.clique[i])
    && (forall l :: 0 <= l < |p.sep| && l != k ==> q.sep[l] == p.sep[l])
  }

  /** `pass_join_tree_message(from, to)` as a relation between the tables before and after. */
  ghost predicate Message(jt: JoinTree, p: Potentials, from: nat, to: nat, q: Potentials)
    requires Proper(jt) && TablesOk(jt, p)
    requires to in Neighbours(jt.graph, from)
  {
    var k := EdgeBetween(jt.graph, from, to);
    NeighboursSymmetric(jt.graph, from, to);
    && SameExcept(p, q, to, k)
    && IsMarginal(p.clique[from], SepVars(jt, k), q.sep[k])
    && Rescaled(p.clique[to], q.clique[to], q.sep[k], p.sep[k], SepVars(jt, k))
  }

  /** Every row of a clique table selects a row of a separator table. */
  lemma SelectsRows(card: seq<nat>, vars: set<nat>, t: Table, sub: set<nat>, u: Table)
    requires (forall v :: v in vars ==> v < |card|) && sub <= vars
    requires t.Keys == All(card, vars) && u.Keys == All(card, sub)
    ensures forall a :: a in t ==> Restrict(a, sub) in u
  {
    hide All, Restrict;
    forall a | a in t ensures Restrict(a, sub) in u {
      RestrictLegal(card, vars, a, sub);
    }
  }

  /** Marginalising, dividing by the old separator and multiplying in make a message. */
  lemma MessageMade(jt: JoinTree, p: Potentials, from: nat, to: nat, newS: Table, temp: Table, d: Table)
    requires Proper(jt) && TablesOk(jt, p) && to in Neighbours(jt.graph, from) && from < jt.graph.n && to < jt.graph.n
    requires var k := EdgeBetween(jt.graph, from, to);
             && IsMarginal(p.clique[from], SepVars(jt, k), newS)
             && temp.Keys == newS.Keys && (p.sep[k] == map[] || p.sep[k].Keys == newS.Keys)
             && (forall b ::
                   b in temp ==> temp[b] == if p.sep[k] == map[] then newS[b] else Ratio(newS[b], p.sep[k][b]))
             && (forall a :: a in p.clique[to] ==> Restrict(a, SepVars(jt, k)) in temp)
             && d.Keys == p.clique[to].Keys
             && (forall a :: a in d ==> d[a] == Times(p.clique[to][a], temp[Restrict(a, SepVars(jt, k))]))
    ensures var k := EdgeBetween(jt.graph, from, to);
            Message(jt, p, from, to, Potentials(p.clique[to := d], p.sep[k := newS]))
  {
    hide All, Marginal, IsMarginal, CliqueOk, SepOk, Supported, Restrict, Times, Ratio, SepVars;
  }

  lemma SepVarsWithin(jt: JoinTree, from: nat, to: nat)
    requires Proper(jt) && to in Neighbours(jt.graph, from)
    ensures from < jt.graph.n && to < jt.graph.n && from != to
    ensures var k := EdgeBetween(jt.graph, from, to);
            SepVars(jt, k) == jt.cliques[from] * jt.cliques[to]
  {
    NeighboursSymmetric(jt.graph, from, to);
  }

  /** A legal assignment to fewer variables extends to more. */
  lemma ExtendLegal(card: seq<nat>, vars: set<nat>, sub: set<nat>, k: Assignment) returns (a: Assignment)
    requires forall v :: v in vars ==> v < |card| && 0 < card[v]
    requires sub <= vars && Legal(card, sub, k)
    ensures Legal(card, vars, a) && Restrict(a, sub) == k
  {
    a := map v | v in vars :: if v in sub then k[v] else 0;
  }

  /** The marginal of a full clique table has one entry per legal separator assignment. */
  lemma MarginalIsFull(card: seq<nat>, vars: set<nat>, t: Table, sub: set<nat>, out: Table)
    requires forall v :: v in vars ==> v < |card| && 0 < card[v]
    requires sub <= vars
    requires t.Keys == All(card, vars) && IsMarginal(t, sub, out)
    ensures out.Keys == All(card, sub)
  {
    hide All, Marginal;
    forall k | k in out ensures k in All(card, sub) {
      var a :| a in t && Restrict(a, sub) == k;
      assert Legal(card, vars, a);
      RestrictLegal(card, vars, a, sub);
    }
    forall k | k in All(card, sub) ensures k in out {
      var a := ExtendLegal(card, vars, sub, k);
      assert a in t;
    }
  }

  ghost predicate PositiveCards(jt: JoinTree)
  {
    forall v :: 0 <= v < |jt.card| ==> 0 < jt.card[v]
  }

  /** Everything `TablesOk` says about one clique and one separator of the message. */
  lemma MessageParts(jt: JoinTree, p: Potentials, from: nat, to: nat)
    requires Proper(jt) && TablesOk(jt, p) && to in Neighbours(jt.graph, from)
    ensures from < jt.graph.n && to < jt.graph.n && from != to
    ensures var k := EdgeBetween(jt.graph, from, to); var vars := SepVars(jt, k);
            && vars <= jt.cliques[from] && vars <= jt.cliques[to]
            && CliqueOk(jt, p.clique[from], from) && CliqueOk(jt, p.clique[to], to) && SepOk(jt, p.sep[k], k)
            && Supported(p.clique[from], p.sep[k], vars) && Supported(p.clique[to], p.sep[k], vars)
  {
    SepVarsWithin(jt, from, to);
    var e := jt.graph.edges[EdgeBetween(jt.graph, from, to)];
    assert Touches(e, from) && Touches(e, to);
  }

  lemma RatioNonneg(p: real, q: real)
    requires 0.0 <= p && 0.0 <= q
    ensures 0.0 <= Ratio(p, q)
  {
  }

  lemma TimesNonneg(p: real, q: real)
    requires 0.0 <= p && 0.0 <= q
    ensures 0.0 <= Times(p, q)
  {
  }

  lemma TimesZero(p: real, q: real)
    ensures p == 0.0 || q == 0.0 ==> Times(p, q) == 0.0
  {
  }

  lemma RescaledNonneg(d: Table, r: Table, newS: Table, oldS: Table, vars: set<nat>)
    requires Nonneg(d) && Nonneg(newS) && Nonneg(oldS) && Rescaled(d, r, newS, oldS, vars)
    ensures Nonneg(r)
  {
    forall a | a in r ensures 0.0 <= r[a] {
      var k := Restrict(a, vars);
      RatioNonneg(Entry(newS, k), Entry(oldS, k));
      TimesNonneg(d[a], Factor(newS, oldS, k));
    }
  }

  lemma RescaledSupported(d: Table, r: Table, newS: Table, oldS: Table, vars: set<nat>, sep: Table, sepVars: set<nat>)
    requires Rescaled(d, r, newS, oldS, vars) && Supported(d, sep, sepVars)
    ensures Supported(r, sep, sepVars)
  {
    forall a | a in r && sep != map[] && Entry(sep, Restrict(a, sepVars)) == 0.0 ensures r[a] == 0.0 {
      TimesZero(d[a], Factor(newS, oldS, Restrict(a, vars)));
    }
  }

  lemma RescaledByOwnZeros(d: Table, r: Table, newS: Table, oldS: Table, vars: set<nat>)
    requires Rescaled(d, r, newS, oldS, vars) && Supported(d, oldS, vars)
    ensures Supported(r, newS, vars)
  {
    forall a | a in r && Entry(newS, Restrict(a, vars)) == 0.0 ensures r[a] == 0.0 {
      var k := Restrict(a, vars);
      assert Ratio(0.0, Entry(oldS, k)) == 0.0;
      TimesZero(d[a], Factor(newS, oldS, k));
    }
  }

  lemma MarginalSupported(t: Table, vars: set<nat>, out: Table)
    requires Nonneg(t) && IsMarginal(t, vars, out)
    ensures Supported(t, out, vars)
  {
    forall a | a in t && Entry(out, Restrict(a, vars)) == 0.0 ensures t[a] == 0.0 {
      MarginalZero(t, vars, a);
    }
  }

  /** The two tables a message writes are full, non-negative, and vanish where the new separator does. */
  lemma MessageWrites(jt: JoinTree, p: Potentials, from: nat, to: nat, q: Potentials)
    requires Proper(jt) && PositiveCards(jt) && TablesOk(jt, p) && to in Neighbours(jt.graph, from)
    requires Message(jt, p, from, to, q)
    ensures to < jt.graph.n && from < jt.graph.n && from != to
    ensures var k := EdgeBetween(jt.graph, from, to);
            && CliqueOk(jt, q.clique[to], to) && SepOk(jt, q.sep[k], k) && q.sep[k] != map[]
            && Supported(q.clique[from], q.sep[k], SepVars(jt, k))
            && Supported(q.clique[to], q.sep[k], SepVars(jt, k))
  {
    var k := EdgeBetween(jt.graph, from, to);
    var vars := SepVars(jt, k);
    MessageParts(jt, p, from, to);
    var newS, oldS := q.sep[k], p.sep[k];
    MarginalTableNonneg(p.clique[from], vars, newS);
    MarginalIsFull(jt.card, jt.cliques[from], p.clique[from], vars, newS);
    var zero := ExtendLegal(jt.card, vars, {}, map[]);
    assert zero in newS;
    RescaledNonneg(p.clique[to], q.clique[to], newS, oldS, vars);
    MarginalSupported(p.clique[from], vars, newS);
    RescaledByOwnZeros(p.clique[to], q.clique[to], newS, oldS, vars);
  }

  lemma ShapeAfterWrites(jt: JoinTree, p: Potentials, q: Potentials, to: nat, k: nat)
    requires Proper(jt) && ShapeOk(jt, p) && SameExcept(p, q, to, k)
    requires to < jt.graph.n && k < |jt.graph.edges|
    requires CliqueOk(jt, q.clique[to], to) && SepOk(jt, q.sep[k], k)
    ensures ShapeOk(jt, q)
  {
  }

  lemma MessageKeepsShape(jt: JoinTree, p: Potentials, from: nat, to: nat, q: Potentials)
    requires Proper(jt) && PositiveCards(jt) && TablesOk(jt, p) && to in Neighbours(jt.graph, from)
    requires Message(jt, p, from, to, q)
    ensures ShapeOk(jt, q)
    ensures q.sep[EdgeBetween(jt.graph, from, to)] != map[]
  {
    MessageWrites(jt, p, from, to, q);
    ShapeAfterWrites(jt, p, q, to, EdgeBetween(jt.graph, from, to));
  }

  lemma MessageKeepsSupport(jt: JoinTree, p: Potentials, from: nat, to: nat, q: Potentials, l: nat, i: nat)
    requires Proper(jt) && PositiveCards(jt) && TablesOk(jt, p) && to in Neighbours(jt.graph, from)
    requires Message(jt, p, from, to, q)
    requires l < |jt.graph.edges| && Touches(jt.graph.edges[l], i)
    ensures Supported(q.clique[i], q.sep[l], SepVars(jt, l))
  {
    var k := EdgeBetween(jt.graph, from, to);
    MessageWrites(jt, p, from, to, q);
    if l == k {
      assert i == from || i == to;
    } else if i != to {
      assert q.clique[i] == p.clique[i] && q.sep[l] == p.sep[l];
      assert Supported(p.clique[i], p.sep[l], SepVars(jt, l));
    } else {
      assert Supported(p.clique[to], p.sep[l], SepVars(jt, l));
      RescaledSupported(p.clique[to], q.clique[to], q.sep[k], p.sep[k], SepVars(jt, k), p.sep[l], SepVars(jt, l));
    }
  }

  /** A message keeps every table full and non-negative, and keeps zero separators explained. */
  lemma MessageKeepsTables(jt: JoinTree, p: Potentials, from: nat, to: nat, q: Potentials)
    requires Proper(jt) && PositiveCards(jt) && TablesOk(jt, p) && to in Neighbours(jt.graph, from)
    requires Message(jt, p, from, to, q)
    ensures TablesOk(jt, q)
    ensures q.sep[EdgeBetween(jt.graph, from, to)] != map[]
  {
    MessageKeepsShape(jt, p, from, to, q);
    forall l: nat, i: nat | l < |jt.graph.edges| && Touches(jt.graph.edges[l], i)
      ensures Supported(q.clique[i], q.sep[l], SepVars(jt, l))
    {
      MessageKeepsSupport(jt, p, from, to, q, l, i);
    }
  }

  // ---------------------------------------------------------------- calibration

  lemma RatioCancels(newV: real, oldV: real)
    requires oldV == 0.0 ==> newV == 0.0
    ensures Times(Ratio(newV, oldV), oldV) == newV
  {
  }

  /** If the receiving clique agreed with the old separator, it now agrees with the new one. */
  lemma MessageCalibrates(jt: JoinTree, p: Potentials, from: nat, to: nat, q: Potentials)
    requires Proper(jt) && PositiveCards(jt) && TablesOk(jt, p) && to in Neighbours(jt.graph, from)
    requires Message(jt, p, from, to, q)
    requires var k := EdgeBetween(jt.graph, from, to);
             p.sep[k] != map[] && (to < |p.clique|) && IsMarginal(p.clique[to], SepVars(jt, k), p.sep[k])
    ensures var k := EdgeBetween(jt.graph, from, to);
            to < |q.clique| && IsMarginal(q.clique[to], SepVars(jt, k), q.sep[k])
  {
    var k := EdgeBetween(jt.graph, from, to);
    var vars := SepVars(jt, k);
    MessageParts(jt, p, from, to);
    var newS, oldS, d, r := q.sep[k], p.sep[k], p.clique[to], q.clique[to];
    MarginalIsFull(jt.card, jt.cliques[from], p.clique[from], vars, newS);
    forall b | b in newS ensures newS[b] == Marginal(r, vars, b) {
      MarginalOfProduct(d, r, vars, b, Ratio(newS[b], oldS[b]));
      if oldS[b] == 0.0 {
        MarginalOfZeroRows(p.clique[from], vars, b);
      }
      RatioCancels(newS[b], oldS[b]);
    }
    forall b | b in newS ensures exists a :: a in r && Restrict(a, vars) == b {
      assert b in oldS;
      var a :| a in d && Restrict(a, vars) == b;
      assert a in r;
    }
  }

  // ---------------------------------------------------------------- the represented joint

  function CliqueValue(jt: JoinTree, clique: seq<Table>, i: nat, x: Assignment): (r: real)
    requires i < |jt.cliques| && i < |clique|
  {
    Entry(clique[i], Restrict(x, jt.cliques[i]))
  }

  ghost function SepValue(jt: JoinTree, sep: seq<Table>, k: nat, x: Assignment): (r: real)
    requires Proper(jt) && k < |jt.graph.edges| && k < |sep|
  {
    if sep[k] == map[] then 1.0 else Entry(sep[k], Restrict(x, SepVars(jt, k)))
  }

  /** The product at `x` of the first `m` clique tables whose index is in `s`. */
  ghost function CliqueProduct(jt: JoinTree, clique: seq<Table>, s: set<nat>, x: Assignment, m: nat): (r: real)
    requires m <= |jt.cliques| && m <= |clique|
  {
    if m == 0 then 1.0
    else if m - 1 in s then Times(CliqueValue(jt, clique, m - 1, x), CliqueProduct(jt, clique, s, x, m - 1))
    else CliqueProduct(jt, clique, s, x, m - 1)
  }

  ghost function SepProduct(jt: JoinTree, sep: seq<Table>, s: set<nat>, x: Assignment, m: nat): (r: real)
    requires Proper(jt) && m <= |jt.graph.edges| && m <= |sep|
  {
    if m == 0 then 1.0
    else if m - 1 in s then Times(SepValue(jt, sep, m - 1, x), SepProduct(jt, sep, s, x, m - 1))
    else SepProduct(jt, sep, s, x, m - 1)
  }

  lemma TimesSwap(x: real, y: real, z: real)
    ensures Times(x, Times(y, z)) == Times(y, Times(x, z))
  {
  }

  lemma {:induction false} CliqueProductRemove(jt: JoinTree, clique: seq<Table>, s: set<nat>, x: Assignment, m: nat,
                                               i: nat)
    requires m <= |jt.cliques| && m <= |clique| && i < m && i in s
    ensures CliqueProduct(jt, clique, s, x, m)
            == Times(CliqueValue(jt, clique, i, x), CliqueProduct(jt, clique, s - {i}, x, m))
  {
    if i == m - 1 {
      CliqueProductAgree(jt, clique, s, x, clique, s - {i}, x, m - 1);
    } else {
      CliqueProductRemove(jt, clique, s, x, m - 1, i);
      TimesSwap(CliqueValue(jt, clique, m - 1, x), CliqueValue(jt, clique, i, x),
                CliqueProduct(jt, clique, s - {i}, x, m - 1));
    }
  }

  lemma {:induction false} CliqueProductAgree(jt: JoinTree, c: seq<Table>, s: set<nat>, x: Assignment, d: seq<Table>,
                                              r: set<nat>, y: Assignment, m: nat)
    requires m <= |jt.cliques| && m <= |c| && m <= |d|
    requires forall i :: 0 <= i < m ==> (i in s <==> i in r)
    requires forall i ::
               0 <= i < m && i in s ==> c[i] == d[i] && Restrict(x, jt.cliques[i]) == Restrict(y, jt.cliques[i])
    ensures CliqueProduct(jt, c, s, x, m) == CliqueProduct(jt, d, r, y, m)
  {
    if m > 0 {
      CliqueProductAgree(jt, c, s, x, d, r, y, m - 1);
    }
  }

  lemma {:induction false} SepProductRemove(jt: JoinTree, sep: seq<Table>, s: set<nat>, x: Assignment, m: nat, k: nat)
    requires Proper(jt) && m <= |jt.graph.edges| && m <= |sep| && k < m && k in s
    ensures SepProduct(jt, sep, s, x, m) == Times(SepValue(jt, sep, k, x), SepProduct(jt, sep, s - {k}, x, m))
  {
    if k == m - 1 {
      SepProductAgree(jt, sep, s, x, sep, s - {k}, x, m - 1);
    } else {
      SepProductRemove(jt, sep, s, x, m - 1, k);
      TimesSwap(SepValue(jt, sep, m - 1, x), SepValue(jt, sep, k, x), SepProduct(jt, sep, s - {k}, x, m - 1));
    }
  }

  lemma {:induction false} SepProductAgree(jt: JoinTree, c: seq<Table>, s: set<nat>, x: Assignment, d: seq<Table>,
                                           r: set<nat>, y: Assignment, m: nat)
    requires Proper(jt) && m <= |jt.graph.edges| && m <= |c| && m <= |d|
    requires forall i :: 0 <= i < m ==> (i in s <==> i in r)
    requires forall i ::
               0 <= i < m && i in s ==> c[i] == d[i] && Restrict(x, SepVars(jt, i)) == Restrict(y, SepVars(jt, i))
    ensures SepProduct(jt, c, s, x, m) == SepProduct(jt, d, r, y, m)
  {
    if m > 0 {
      SepProductAgree(jt, c, s, x, d, r, y, m - 1);
    }
  }

  /** A quotient that is zero where the denominator is. */
  function Over(p: real, q: real): (r: real)
  {
    if q == 0.0 then 0.0 else p / q
  }

  /** What the tables represent at `x`: cliques over separators, zero where a separator is zero. */
  ghost function Joint(jt: JoinTree, p: Potentials, x: Assignment): (r: real)
    requires Proper(jt) && |p.clique| == jt.graph.n && |p.sep| == |jt.graph.edges|
  {
    Over(CliqueProduct(jt, p.clique, Nodes(jt.graph), x, jt.graph.n),
         SepProduct(jt, p.sep, Below(|jt.graph.edges|), x, |jt.graph.edges|))
  }

  lemma QuotientKept(v: real, rest: real, oldV: real, newV: real, seps: real)
    requires oldV == 0.0 ==> newV == 0.0
    requires newV == 0.0 ==> Times(v, rest) == 0.0
    ensures Over(Times(Times(v, Ratio(newV, oldV)), rest), Times(newV, seps)) == Over(Times(v, rest), Times(oldV, seps))
  {
    if newV == 0.0 || seps == 0.0 {
      assert Times(newV, seps) == 0.0;
      if Times(oldV, seps) != 0.0 {
        assert Times(v, rest) == 0.0;
      }
    } else {
      CommonFactor(v, rest, oldV, newV, seps);
    }
  }

  lemma CommonFactor(v: real, rest: real, oldV: real, newV: real, seps: real)
    requires oldV != 0.0 && newV != 0.0 && seps != 0.0
    ensures Times(Times(v, Ratio(newV, oldV)), rest) / Times(newV, seps) == Times(v, rest) / Times(oldV, seps)
  {
    var n, q := v * rest, newV / oldV;
    assert v * q * rest == n * q;
    assert q * oldV == newV;
    SameQuotient(n * q, newV * seps, n, oldV * seps, q);
  }

  lemma SameQuotient(a: real, b: real, c: real, d: real, q: real)
    requires b != 0.0 && d != 0.0 && a == c * q && b == d * q
    ensures a / b == c / d
  {
    var x := c / d;
    assert x * d == c;
    assert x * b == a by {
      assert x * (d * q) == (x * d) * q;
    }
  }

  /** How the rows that `x` selects change: the receiver is scaled by new over old, and zeros are explained. */
  lemma MessageAt(jt: JoinTree, p: Potentials, from: nat, to: nat, q: Potentials, x: Assignment)
    requires Proper(jt) && TablesOk(jt, p) && to in Neighbours(jt.graph, from)
    requires Message(jt, p, from, to, q)
    requires Legal(jt.card, Below(|jt.card|), x)
    ensures from < jt.graph.n && to < jt.graph.n && from != to
    ensures var k := EdgeBetween(jt.graph, from, to);
            var oldV, newV := SepValue(jt, p.sep, k, x), SepValue(jt, q.sep, k, x);
            && CliqueValue(jt, q.clique, to, x) == Times(CliqueValue(jt, p.clique, to, x), Ratio(newV, oldV))
            && (oldV == 0.0 ==> newV == 0.0)
            && (newV == 0.0 ==> CliqueValue(jt, p.clique, from, x) == 0.0)
  {
    var k := EdgeBetween(jt.graph, from, to);
    var vars := SepVars(jt, k);
    MessageParts(jt, p, from, to);
    var b := Restrict(x, vars);
    var a, c := Restrict(x, jt.cliques[to]), Restrict(x, jt.cliques[from]);
    RestrictLegal(jt.card, Below(|jt.card|), x, jt.cliques[to]);
    RestrictLegal(jt.card, Below(|jt.card|), x, jt.cliques[from]);
    RestrictTwice(x, jt.cliques[to], vars);
    RestrictTwice(x, jt.cliques[from], vars);
    assert a in p.clique[to] && c in p.clique[from];
    assert b in q.sep[k] && q.sep[k][b] == Marginal(p.clique[from], vars, b);
    if SepValue(jt, p.sep, k, x) == 0.0 {
      MarginalOfZeroRows(p.clique[from], vars, b);
    }
    if q.sep[k][b] == 0.0 {
      MarginalZero(p.clique[from], vars, c);
    }
  }

  /** The joint is kept by any change of one clique row and one separator entry in that proportion. */
  lemma ProportionalChange(jt: JoinTree, p: Potentials, q: Potentials, from: nat, to: nat, k: nat, x: Assignment)
    requires Proper(jt) && |p.clique| == jt.graph.n && |p.sep| == |jt.graph.edges|
    requires SameExcept(p, q, to, k)
    requires from < jt.graph.n && to < jt.graph.n && from != to && k < |jt.graph.edges|
    requires var oldV, newV := SepValue(jt, p.sep, k, x), SepValue(jt, q.sep, k, x);
             && CliqueValue(jt, q.clique, to, x) == Times(CliqueValue(jt, p.clique, to, x), Ratio(newV, oldV))
             && (oldV == 0.0 ==> newV == 0.0)
             && (newV == 0.0 ==> CliqueValue(jt, p.clique, from, x) == 0.0)
    ensures Joint(jt, q, x) == Joint(jt, p, x)
  {
    var n, m, nodes, seps := jt.graph.n, |jt.graph.edges|, Nodes(jt.graph), Below(|jt.graph.edges|);
    SepProductRemove(jt, p.sep, seps, x, m, k);
    SepProductRemove(jt, q.sep, seps, x, m, k);
    SepProductAgree(jt, p.sep, seps - {k}, x, q.sep, seps - {k}, x, m);
    var rest := CliqueProduct(jt, p.clique, nodes - {to}, x, n);
    CliqueProductRemove(jt, p.clique, nodes, x, n, to);
    CliqueProductRemove(jt, q.clique, nodes, x, n, to);
    CliqueProductAgree(jt, p.clique, nodes - {to}, x, q.clique, nodes - {to}, x, n);
    var v, oldV, newV := CliqueValue(jt, p.clique, to, x), SepValue(jt, p.sep, k, x), SepValue(jt, q.sep, k, x);
    assert newV == 0.0 ==> Times(v, rest) == 0.0 by {
      CliqueProductRemove(jt, p.clique, nodes - {to}, x, n, from);
      TimesZero(CliqueValue(jt, p.clique, from, x), CliqueProduct(jt, p.clique, nodes - {to} - {from}, x, n));
      TimesZero(v, rest);
    }
    QuotientKept(v, rest, oldV, newV, SepProduct(jt, p.sep, seps - {k}, x, m));
  }

  /** Every message keeps the represented joint at every full assignment. */
  lemma MessageKeepsJoint(jt: JoinTree, p: Potentials, from: nat, to: nat, q: Potentials, x: Assignment)
    requires Proper(jt) && TablesOk(jt, p) && to in Neighbours(jt.graph, from)
    requires Message(jt, p, from, to, q)
    requires Legal(jt.card, Below(|jt.card|), x)
    ensures Joint(jt, q, x) == Joint(jt, p, x)
  {
    MessageAt(jt, p, from, to, q, x);
    ProportionalChange(jt, p, q, from, to, EdgeBetween(jt.graph, from, to), x);
  }
}
