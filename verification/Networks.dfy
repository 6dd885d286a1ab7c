/** Bayesian networks with evidence, and the initial clique tables of their join tree. */
module Networks {
  import opened Basics
  import opened Assignments
  import opened Sums
  import opened Messages
  import opened Odometer

  /** Node v takes `card[v]` values; `cpt[v][(x, pa)]` is the probability of value x given parents pa;
      an observed node is evidence and its value is `value[v]`. */
  datatype Network = Network(
    card: seq<nat>,
    parents: seq<seq<nat>>,
    cpt: seq<map<(nat, Assignment), real>>,
    observed: seq<bool>,
    value: seq<nat>)

  ghost predicate ProperNetwork(bn: Network)
  {
    && |bn.parents| == |bn.cpt| == |bn.observed| == |bn.value| == |bn.card|
    && (forall v :: 0 <= v < |bn.card| ==> 0 < bn.card[v])
    && (forall v, j :: 0 <= v < |bn.card| && 0 <= j < |bn.parents[v]| ==> bn.parents[v][j] < |bn.card|)
    && (forall v, e :: 0 <= v < |bn.card| && e in bn.cpt[v] ==> 0.0 <= bn.cpt[v][e])
  }

  function ParentSet(bn: Network, v: nat): (s: set<nat>)
    requires v < |bn.parents|
  {
    set j | 0 <= j < |bn.parents[v]| :: bn.parents[v][j]
  }

  /** The set a clique must contain to take in the table of node v. */
  function Family(bn: Network, v: nat): (s: set<nat>)
    requires v < |bn.parents|
  {
    ParentSet(bn, v) + {v}
  }

  /** `node_probability` of v at the values in `a`; zero where the table has no entry. */
  function FamilyValue(bn: Network, v: nat, a: Assignment): (p: real)
    requires v < |bn.parents| && v < |bn.cpt|
  {
    var key := (if v in a then a[v] else 0, Restrict(a, ParentSet(bn, v)));
    if key in bn.cpt[v] then bn.cpt[v][key] else 0.0
  }

  /** The product of the node tables of `s` below `m`. */
  ghost function FamilyProduct(bn: Network, s: set<nat>, a: Assignment, m: nat): (p: real)
    requires m <= |bn.parents| && m <= |bn.cpt|
  {
    if m == 0 then 1.0
    else if m - 1 in s then Times(FamilyValue(bn, m - 1, a), FamilyProduct(bn, s, a, m - 1))
    else FamilyProduct(bn, s, a, m - 1)
  }

  predicate Contradicts(bn: Network, v: nat, a: Assignment)
  {
    v < |bn.observed| && v < |bn.value| && bn.observed[v] && v in a && a[v] != bn.value[v]
  }

  /** One if `a` agrees with the evidence in `vars`, zero otherwise. */
  ghost function Agreement(bn: Network, vars: set<nat>, a: Assignment): (p: real)
  {
    if exists v :: v in vars && Contradicts(bn, v, a) then 0.0 else 1.0
  }

  /** The product of the tables of the nodes in `fs`, zero against the evidence. With all nodes this is the joint
      probability of the assignment and the evidence. */
  ghost function JointOf(bn: Network, fs: set<nat>, x: Assignment): (p: real)
    requires ProperNetwork(bn)
  {
    Times(Agreement(bn, Below(|bn.card|), x), FamilyProduct(bn, fs, x, |bn.card|))
  }

  // ---------------------------------------------------------------- products of families

  lemma {:induction false} FamilyProductAdd(bn: Network, s: set<nat>, a: Assignment, m: nat, v: nat)
    requires m <= |bn.parents| && m <= |bn.cpt| && v < m && v !in s
    ensures FamilyProduct(bn, s + {v}, a, m) == Times(FamilyProduct(bn, s, a, m), FamilyValue(bn, v, a))
  {
    if v == m - 1 {
      FamilyProductAgree(bn, s + {v}, a, s, a, m - 1);
    } else {
      FamilyProductAdd(bn, s, a, m - 1, v);
    }
  }

  lemma {:induction false} FamilyProductAgree(bn: Network, s: set<nat>, a: Assignment, t: set<nat>, b: Assignment,
                                              m: nat)
    requires m <= |bn.parents| && m <= |bn.cpt|
    requires forall v :: 0 <= v < m ==> (v in s <==> v in t)
    requires forall v :: 0 <= v < m && v in s ==> FamilyValue(bn, v, a) == FamilyValue(bn, v, b)
    ensures FamilyProduct(bn, s, a, m) == FamilyProduct(bn, t, b, m)
  {
    if m > 0 {
      FamilyProductAgree(bn, s, a, t, b, m - 1);
    }
  }

  lemma {:induction false} FamilyProductUnion(bn: Network, s: set<nat>, t: set<nat>, a: Assignment, m: nat)
    requires m <= |bn.parents| && m <= |bn.cpt| && s !! t
    ensures FamilyProduct(bn, s + t, a, m) == Times(FamilyProduct(bn, s, a, m), FamilyProduct(bn, t, a, m))
  {
    if m > 0 {
      FamilyProductUnion(bn, s, t, a, m - 1);
    }
  }

  lemma {:induction false} FamilyProductNonneg(bn: Network, s: set<nat>, a: Assignment, m: nat)
    requires ProperNetwork(bn) && m <= |bn.card|
    ensures 0.0 <= FamilyProduct(bn, s, a, m)
  {
    if m > 0 {
      FamilyProductNonneg(bn, s, a, m - 1);
      TimesNonneg(FamilyValue(bn, m - 1, a), FamilyProduct(bn, s, a, m - 1));
    }
  }

  lemma FamilyValueLocal(bn: Network, v: nat, x: Assignment, vars: set<nat>)
    requires v < |bn.parents| && v < |bn.cpt| && Family(bn, v) <= vars
    ensures FamilyValue(bn, v, Restrict(x, vars)) == FamilyValue(bn, v, x)
  {
    RestrictTwice(x, vars, ParentSet(bn, v));
  }

  lemma AgreementSplits(bn: Network, s: set<nat>, t: set<nat>, x: Assignment)
    ensures Agreement(bn, s + t, x) == Times(Agreement(bn, s, x), Agreement(bn, t, x))
  {
    if v :| v in s + t && Contradicts(bn, v, x) {
      assert v in s || v in t;
    }
  }

  lemma AgreementLocal(bn: Network, vars: set<nat>, x: Assignment)
    ensures Agreement(bn, vars, Restrict(x, vars)) == Agreement(bn, vars, x)
  {
    assert forall v :: v in vars ==> (Contradicts(bn, v, Restrict(x, vars)) <==> Contradicts(bn, v, x));
  }

  // ---------------------------------------------------------------- initial clique tables

  /** What a clique that owns the node tables `own` starts with at `a`. */
  ghost function StartValue(bn: Network, clique: set<nat>, own: set<nat>, a: Assignment): (p: real)
    requires ProperNetwork(bn)
  {
    Times(Agreement(bn, clique, a), FamilyProduct(bn, own, a, |bn.card|))
  }

  lemma StartValueNonneg(bn: Network, clique: set<nat>, own: set<nat>, a: Assignment)
    requires ProperNetwork(bn)
    ensures 0.0 <= StartValue(bn, clique, own, a)
  {
    FamilyProductNonneg(bn, own, a, |bn.card|);
    TimesNonneg(Agreement(bn, clique, a), FamilyProduct(bn, own, a, |bn.card|));
  }

  /** `owner[v]` is the clique that took in node v, or at least `n` while nobody has. */
  ghost function OwnedBy(bn: Network, owner: seq<nat>, i: nat): (s: set<nat>)
    requires |owner| == |bn.card|
  {
    set v | v in Below(|bn.card|) && owner[v] == i
  }

  /** The nodes clique `i` may take in: their family fits, and nobody else has them. */
  ghost function Takes(bn: Network, clique: set<nat>, owner: seq<nat>, i: nat, n: nat): (s: set<nat>)
    requires ProperNetwork(bn) && |owner| == |bn.card|
  {
    set v | v in Below(|bn.card|) && v in clique && Family(bn, v) <= clique && (owner[v] == i || owner[v] == n)
  }

  lemma TimesAssoc(x: real, y: real, z: real)
    ensures Times(Times(x, y), z) == Times(x, Times(y, z))
  {
  }

  /** The body of the initialisation loop for one assignment: evidence first, then the node tables. */
  method StartRow(bn: Network, clique: set<nat>, a: Assignment, owner: seq<nat>, i: nat, n: nat)
    returns (p: real, owner': seq<nat>)
    requires ProperNetwork(bn) && |owner| == |bn.card| && i < n
    requires clique <= Below(|bn.card|) && Legal(bn.card, clique, a)
    ensures p == StartValue(bn, clique, Takes(bn, clique, owner, i, n), a)
    ensures OwnersAfter(Takes(bn, clique, owner, i, n), i, owner, owner')
  {
    p := EvidenceFactor(bn, clique, a);
    owner' := owner;
    var rest := clique;
    ghost var done: set<nat> := {};
    ghost var takes := Takes(bn, clique, owner, i, n);
    assert FamilyProduct(bn, {}, a, |bn.card|) == 1.0 by { FamilyProductEmpty(bn, a, |bn.card|); }
    assert takes * done == {};
    while rest != {}
      invariant done + rest == clique && done !! rest
      invariant p == Times(Agreement(bn, clique, a), FamilyProduct(bn, takes * done, a, |bn.card|))
      invariant |owner'| == |owner|
      invariant forall v :: 0 <= v < |owner| ==> owner'[v] == if v in takes && v in done then i else owner[v]
    {
      var v := Least(rest);
      assert v in takes <==> Family(bn, v) <= clique && (owner'[v] == i || owner'[v] == n);
      if Family(bn, v) <= clique && (i == owner'[v] || owner'[v] == n) {
        owner' := owner'[v := i];
        FamilyProductAdd(bn, takes * done, a, |bn.card|, v);
        assert takes * done + {v} == takes * (done + {v});
        TimesAssoc(Agreement(bn, clique, a), FamilyProduct(bn, takes * done, a, |bn.card|), FamilyValue(bn, v, a));
        p := Times(p, FamilyValue(bn, v, a));
      } else {
        assert takes * done == takes * (done + {v});
      }
      rest, done := rest - {v}, done + {v};
    }
    assert takes * done == takes;
  }

  lemma {:induction false} FamilyProductEmpty(bn: Network, a: Assignment, m: nat)
    requires m <= |bn.parents| && m <= |bn.cpt|
    ensures FamilyProduct(bn, {}, a, m) == 1.0
  {
    if m > 0 {
      FamilyProductEmpty(bn, a, m - 1);
    }
  }

  /** One, set to zero by any clique node whose value contradicts the evidence. */
  method EvidenceFactor(bn: Network, clique: set<nat>, a: Assignment) returns (p: real)
    requires ProperNetwork(bn)
    ensures p == Agreement(bn, clique, a)
  {
    p := 1.0;
    var rest := clique;
    ghost var done: set<nat> := {};
    while rest != {}
      invariant done + rest == clique && done !! rest
      invariant p == Agreement(bn, done, a)
    {
      var v := Least(rest);
      if Contradicts(bn, v, a) {
        p := 0.0;
      }
      rest, done := rest - {v}, done + {v};
    }
    assert done == clique;
  }

  ghost predicate StartTable(bn: Network, clique: set<nat>, own: set<nat>, t: Table)
    requires ProperNetwork(bn) && clique <= Below(|bn.card|)
  {
    t.Keys == All(bn.card, clique) && forall a :: a in t ==> t[a] == StartValue(bn, clique, own, a)
  }

  /** The nodes up to the odometer have their rows, and no row is written twice. */
  ghost predicate FilledBelow(bn: Network, clique: set<nat>, t: Table, bound: nat)
    requires clique <= Below(|bn.card|)
  {
    forall a :: a in t <==> Legal(bn.card, clique, a) && Rank(bn.card, clique, a) < bound
  }

  lemma FillNext(bn: Network, clique: set<nat>, t: Table, value: Assignment, p: real)
    requires clique <= Below(|bn.card|) && Legal(bn.card, clique, value)
    requires FilledBelow(bn, clique, t, Rank(bn.card, clique, value))
    ensures value !in t
    ensures FilledBelow(bn, clique, t[value := p], Rank(bn.card, clique, value) + 1)
  {
    forall a | Legal(bn.card, clique, a) && Rank(bn.card, clique, a) == Rank(bn.card, clique, value)
      ensures a == value {
      RankInjective(bn.card, clique, a, value);
    }
  }

  lemma FilledAll(bn: Network, clique: set<nat>, t: Table, value: Assignment)
    requires clique <= Below(|bn.card|) && Legal(bn.card, clique, value) && AllMax(bn.card, clique, value)
    requires FilledBelow(bn, clique, t, Rank(bn.card, clique, value) + 1)
    ensures t.Keys == All(bn.card, clique)
  {
    forall a | Legal(bn.card, clique, a) ensures a in t {
      MaxIsLast(bn.card, clique, a, value);
    }
  }

  /** Taking in the nodes of `takes` leaves the set of nodes clique `i` may take in unchanged. */
  ghost predicate OwnersAfter(takes: set<nat>, i: nat, owner: seq<nat>, owner': seq<nat>)
  {
    |owner'| == |owner| && forall v :: 0 <= v < |owner| ==> owner'[v] == if v in takes then i else owner[v]
  }

  lemma TakesStable(bn: Network, clique: set<nat>, owner: seq<nat>, owner': seq<nat>, i: nat, n: nat)
    requires ProperNetwork(bn) && |owner| == |bn.card|
    requires OwnersAfter(Takes(bn, clique, owner, i, n), i, owner, owner')
    ensures Takes(bn, clique, owner', i, n) == Takes(bn, clique, owner, i, n)
  {
  }

  /** The rows written so far are the rows below the odometer, each with its starting value. */
  ghost predicate Filling(bn: Network, clique: set<nat>, takes: set<nat>, t: Table, more: bool, value: Assignment)
    requires ProperNetwork(bn) && clique <= Below(|bn.card|)
  {
    && Legal(bn.card, clique, value)
    && (if more then FilledBelow(bn, clique, t, Rank(bn.card, clique, value)) else t.Keys == All(bn.card, clique))
    && forall a :: a in t ==> t[a] == StartValue(bn, clique, takes, a)
  }

  /** One turn of the initialisation loop: write the row of `value`, then advance the odometer. */
  method FillRow(bn: Network, clique: set<nat>, t: Table, owner: seq<nat>, i: nat, n: nat, value: Assignment)
    returns (t': Table, owner': seq<nat>, more: bool, next: Assignment)
    requires ProperNetwork(bn) && |owner| == |bn.card| && i < n && clique <= Below(|bn.card|)
    requires Filling(bn, clique, Takes(bn, clique, owner, i, n), t, true, value)
    ensures Filling(bn, clique, Takes(bn, clique, owner, i, n), t', more, next)
    ensures more ==> Rank(bn.card, clique, next) == Rank(bn.card, clique, value) + 1
    ensures OwnersAfter(Takes(bn, clique, owner, i, n), i, owner, owner')
  {
    var p;
    p, owner' := StartRow(bn, clique, value, owner, i, n);
    FillNext(bn, clique, t, value, p);
    t' := t[value := p];
    more, next := Advance(bn.card, clique, value);
    if !more {
      FilledAll(bn, clique, t', value);
    }
  }

  /** The initial table of clique `i`: the odometer visits every legal assignment exactly once. */
  method StartClique(bn: Network, clique: set<nat>, owner: seq<nat>, i: nat, n: nat)
    returns (t: Table, owner': seq<nat>)
    requires ProperNetwork(bn) && |owner| == |bn.card| && i < n
    requires clique <= Below(|bn.card|)
    ensures StartTable(bn, clique, Takes(bn, clique, owner, i, n), t)
    ensures OwnersAfter(Takes(bn, clique, owner, i, n), i, owner, owner')
  {
    hide Takes, Rank, StartValue;
    var value: Assignment := map v | v in clique :: 0;
    ZeroIsFirst(bn.card, clique, value);
    ghost var takes := Takes(bn, clique, owner, i, n);
    ghost var top: Assignment := map v | v in clique :: bn.card[v] - 1;
    t, owner' := map[], owner;
    var more := true;
    while more
      invariant Filling(bn, clique, takes, t, more, value)
      invariant |owner'| == |owner| && Takes(bn, clique, owner', i, n) == takes
      invariant OwnersAfter(takes, i, owner, owner') || (more && owner' == owner)
      decreases more, Rank(bn.card, clique, top) - Rank(bn.card, clique, value)
    {
      MaxIsLast(bn.card, clique, value, top);
      ghost var was := owner';
      t, owner', more, value := FillRow(bn, clique, t, owner', i, n, value);
      TakesStable(bn, clique, was, owner', i, n);
    }
  }
}
