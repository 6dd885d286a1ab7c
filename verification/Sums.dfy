/** Finite sums of table entries: the algebra behind marginalisation. */
module Sums {
  import opened Basics
  import opened Assignments

  /** `joint_probability_table`: one entry per assignment. */
  type Table = map<Assignment, real>

  function Entry(t: Table, a: Assignment): (p: real)
  {
    if a in t then t[a] else 0.0
  }

  ghost function Sum(s: set<Assignment>, t: Table): (r: real)
    decreases |s|
  {
    if s == {} then 0.0 else
      var a :| a in s;
      Entry(t, a) + Sum(s - {a}, t)
  }

  /** The order of summation does not matter: any element can be taken out first. */
  lemma {:induction false} SumRemove(s: set<Assignment>, t: Table, a: Assignment)
    requires a in s
    ensures Sum(s, t) == Entry(t, a) + Sum(s - {a}, t)
    decreases |s|
  {
    var b :| b in s && Sum(s, t) == Entry(t, b) + Sum(s - {b}, t);
    if a != b {
      SumRemove(s - {b}, t, a);
      SumRemove(s - {a}, t, b);
      assert s - {a} - {b} == s - {b} - {a};
    }
  }

  lemma TimesPlus(c: real, x: real, y: real)
    ensures Times(c, x + y) == Times(c, x) + Times(c, y)
  {
  }

  lemma {:induction false} SumScale(s: set<Assignment>, t: Table, u: Table, c: real)
    requires forall a :: a in s ==> Entry(u, a) == Times(c, Entry(t, a))
    ensures Sum(s, u) == Times(c, Sum(s, t))
    decreases |s|
  {
    if s != {} {
      var a :| a in s;
      SumRemove(s, t, a);
      SumRemove(s, u, a);
      SumScale(s - {a}, t, u, c);
      TimesPlus(c, Entry(t, a), Sum(s - {a}, t));
    }
  }

  lemma {:induction false} SumSplit(s: set<Assignment>, part: set<Assignment>, t: Table)
    requires part <= s
    ensures Sum(s, t) == Sum(part, t) + Sum(s - part, t)
    decreases |part|
  {
    if part == {} {
      assert s - part == s;
    } else {
      var a :| a in part;
      SumRemove(s, t, a);
      SumRemove(part, t, a);
      SumSplit(s - {a}, part - {a}, t);
      assert s - {a} - (part - {a}) == s - part;
    }
  }

  ghost predicate Nonneg(t: Table)
  {
    forall a :: a in t ==> 0.0 <= t[a]
  }

  lemma {:induction false} SumNonneg(s: set<Assignment>, t: Table)
    requires Nonneg(t)
    ensures 0.0 <= Sum(s, t)
    decreases |s|
  {
    if s != {} {
      var a :| a in s;
      SumRemove(s, t, a);
      SumNonneg(s - {a}, t);
    }
  }

  /** A sum of non-negative entries vanishes only if every entry does. */
  lemma SumZero(s: set<Assignment>, t: Table, a: Assignment)
    requires Nonneg(t) && a in s && Sum(s, t) == 0.0
    ensures Entry(t, a) == 0.0
  {
    SumRemove(s, t, a);
    SumNonneg(s - {a}, t);
  }

  // ---------------------------------------------------------------- marginals

  /** The rows of `s` that look like `k` on `vars`. */
  ghost function Fibre(s: set<Assignment>, vars: set<nat>, k: Assignment): (f: set<Assignment>)
    ensures forall a :: a in f <==> a in s && Restrict(a, vars) == k
  {
    set a | a in s && Restrict(a, vars) == k
  }

  /** The marginal of `t` on `vars` at `k`. */
  ghost function Marginal(t: Table, vars: set<nat>, k: Assignment): (r: real)
  {
    Sum(Fibre(t.Keys, vars, k), t)
  }

  lemma MarginalNonneg(t: Table, vars: set<nat>, k: Assignment)
    requires Nonneg(t)
    ensures 0.0 <= Marginal(t, vars, k)
  {
    SumNonneg(Fibre(t.Keys, vars, k), t);
  }

  lemma MarginalZero(t: Table, vars: set<nat>, a: Assignment)
    requires Nonneg(t) && a in t
    requires Marginal(t, vars, Restrict(a, vars)) == 0.0
    ensures t[a] == 0.0
  {
    SumZero(Fibre(t.Keys, vars, Restrict(a, vars)), t, a);
  }

  /** Summing fibre by fibre: `u` holds one entry per fibre of `s` over `ks`. */
  lemma {:induction false} SumByFibres(s: set<Assignment>, t: Table, vars: set<nat>, ks: set<Assignment>, u: Table)
    requires forall a :: a in s ==> Restrict(a, vars) in ks
    requires forall k :: k in ks ==> Entry(u, k) == Sum(Fibre(s, vars, k), t)
    ensures Sum(ks, u) == Sum(s, t)
    decreases |ks|
  {
    if ks == {} {
      assert s == {};
    } else {
      var k :| k in ks;
      var part := Fibre(s, vars, k);
      SumRemove(ks, u, k);
      SumSplit(s, part, t);
      forall j | j in ks - {k} ensures Entry(u, j) == Sum(Fibre(s - part, vars, j), t) {
        assert Fibre(s - part, vars, j) == Fibre(s, vars, j);
      }
      SumByFibres(s - part, t, vars, ks - {k}, u);
    }
  }

  /** Marginalising in two stages is marginalising once. */
  lemma MarginalTower(t: Table, outer: set<nat>, inner: set<nat>, u: Table, k: Assignment)
    requires inner <= outer
    requires forall a :: a in t ==> Restrict(a, outer) in u
    requires forall b :: b in u ==> u[b] == Marginal(t, outer, b)
    ensures Marginal(u, inner, k) == Marginal(t, inner, k)
  {
    var s, ks := Fibre(t.Keys, inner, k), Fibre(u.Keys, inner, k);
    forall a | a in s ensures Restrict(a, outer) in ks {
      RestrictTwice(a, outer, inner);
    }
    forall b | b in ks ensures Entry(u, b) == Sum(Fibre(s, outer, b), t) {
      forall a | a in Fibre(t.Keys, outer, b) ensures a in s {
        RestrictTwice(a, outer, inner);
      }
      assert Fibre(s, outer, b) == Fibre(t.Keys, outer, b);
    }
    SumByFibres(s, t, outer, ks, u);
  }

  ghost predicate OneToOneOnto(s: set<Assignment>, vars: set<nat>, r: set<Assignment>)
  {
    && (forall a :: a in s ==> Restrict(a, vars) in r)
    && (forall a, b :: a in s && b in s && Restrict(a, vars) == Restrict(b, vars) ==> a == b)
    && (forall k :: k in r ==> exists a :: a in s && Restrict(a, vars) == k)
  }

  /** Reindexing: restriction to `vars` is one-to-one from `s` onto `r`. */
  lemma {:induction false} SumReindex(s: set<Assignment>, t: Table, vars: set<nat>, r: set<Assignment>, u: Table)
    requires OneToOneOnto(s, vars, r)
    requires forall a :: a in s ==> Entry(t, a) == Entry(u, Restrict(a, vars))
    ensures Sum(s, t) == Sum(r, u)
    decreases |s|
  {
    if s == {} {
      assert r == {};
    } else {
      hide Sum, Entry, Restrict;
      var a :| a in s;
      var k := Restrict(a, vars);
      OneToOneWithout(s, vars, r, a);
      SumRemove(s, t, a);
      SumRemove(r, u, k);
      SumReindex(s - {a}, t, vars, r - {k}, u);
    }
  }

  lemma OneToOneWithout(s: set<Assignment>, vars: set<nat>, r: set<Assignment>, a: Assignment)
    requires OneToOneOnto(s, vars, r) && a in s
    ensures Restrict(a, vars) in r && OneToOneOnto(s - {a}, vars, r - {Restrict(a, vars)})
  {
    hide Restrict;
    var k := Restrict(a, vars);
    forall j | j in r - {k} ensures exists b :: b in s - {a} && Restrict(b, vars) == j {
      var b :| b in s && Restrict(b, vars) == j;
      assert b in s - {a};
    }
  }
}
