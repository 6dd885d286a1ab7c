/** The table operations a message is made of: marginalise, divide entry by entry in a parallel
    enumeration, multiply in, normalise. */
module Tables {
  import opened Basics
  import opened Assignments
  import opened Sums

  // ---------------------------------------------------------------- marginalize

  ghost predicate IsMarginal(t: Table, vars: set<nat>, out: Table)
  {
    && (forall a :: a in t ==> Restrict(a, vars) in out)
    && (forall k :: k in out ==> exists a :: a in t && Restrict(a, vars) == k)
    && (forall k :: k in out ==> out[k] == Marginal(t, vars, k))
  }

  lemma MarginalTableNonneg(t: Table, vars: set<nat>, out: Table)
    requires Nonneg(t) && IsMarginal(t, vars, out)
    ensures Nonneg(out)
  {
    forall k | k in out ensures 0.0 <= out[k] {
      MarginalNonneg(t, vars, k);
    }
  }

  lemma FibreGrows(done: set<Assignment>, a: Assignment, t: Table, vars: set<nat>)
    requires a !in done
    ensures Sum(Fibre(done + {a}, vars, Restrict(a, vars)), t)
            == Sum(Fibre(done, vars, Restrict(a, vars)), t) + Entry(t, a)
    ensures forall k :: k != Restrict(a, vars) ==> Fibre(done + {a}, vars, k) == Fibre(done, vars, k)
  {
    var k := Restrict(a, vars);
    var s := Fibre(done + {a}, vars, k);
    SumRemove(s, t, a);
    assert s - {a} == Fibre(done, vars, k);
  }

  lemma EmptyFibre(done: set<Assignment>, t: Table, vars: set<nat>, k: Assignment)
    requires forall a :: a in done ==> Restrict(a, vars) != k
    ensures Sum(Fibre(done, vars, k), t) == 0.0
  {
    assert Fibre(done, vars, k) == {};
  }

  /** `joint_probability_table::marginalize`: one pass over the rows, accumulating with `add_probability`. */
  method Marginalize(t: Table, vars: set<nat>) returns (out: Table)
    ensures IsMarginal(t, vars, out)
  {
    out := map[];
    var rest := t.Keys;
    ghost var done: set<Assignment> := {};
    while rest != {}
      invariant rest !! done && rest + done == t.Keys
      invariant forall a :: a in done ==> Restrict(a, vars) in out
      invariant forall k :: k in out ==> exists a :: a in done && Restrict(a, vars) == k
      invariant forall k :: k in out ==> out[k] == Sum(Fibre(done, vars, k), t)
    {
      var src :| src in rest;
      rest := rest - {src};
      var a := Restrict(src, vars);
      FibreGrows(done, src, t, vars);
      if a in out {
        out := out[a := out[a] + t[src]];
      } else {
        EmptyFibre(done, t, vars, a);
        out := out[a := t[src]];
      }
      done := done + {src};
    }
    assert done == t.Keys;
  }

  // ---------------------------------------------------------------- divide and multiply

  /** The guarded division of a message: a zero denominator leaves the numerator alone. */
  function Ratio(p: real, q: real): (r: real)
  {
    if q != 0.0 then p / q else p
  }

  /** The division loop of `pass_join_tree_message`. Both tables are enumerated in step; the two cursors
      meet the same keys because each enumeration is ascending. An empty `oldS` stands for all ones. */
  method Divide(newS: Table, oldS: Table) returns (temp: Table)
    requires oldS == map[] || oldS.Keys == newS.Keys
    ensures temp.Keys == newS.Keys
    ensures forall k :: k in temp ==> temp[k] == if oldS == map[] then newS[k] else Ratio(newS[k], oldS[k])
  {
    temp := newS;
    if |oldS| > 0 {
      var mine, theirs := temp.Keys, oldS.Keys;
      while mine != {}
        invariant mine == theirs <= newS.Keys == temp.Keys
        invariant forall k :: k in newS ==> temp[k] == if k in mine then newS[k] else Ratio(newS[k], oldS[k])
      {
        FirstExists(mine);
        var k :| IsFirst(mine, k);
        var l :| IsFirst(theirs, l);
        FirstUnique(mine, k, l);
        mine, theirs := mine - {k}, theirs - {l};
        if oldS[l] != 0.0 {
          temp := temp[k := temp[k] / oldS[l]];
        }
      }
    } else {
      assert oldS == map[];
    }
  }

  /** The multiplication loop of `pass_join_tree_message`. */
  method MultiplyIn(d: Table, temp: Table, vars: set<nat>) returns (r: Table)
    requires forall a :: a in d ==> Restrict(a, vars) in temp
    ensures r.Keys == d.Keys
    ensures forall a :: a in d ==> r[a] == Times(d[a], temp[Restrict(a, vars)])
  {
    r := d;
    var rest := d.Keys;
    while rest != {}
      invariant rest <= d.Keys == r.Keys
      invariant forall a :: a in d ==> r[a] == if a in rest then d[a] else Times(d[a], temp[Restrict(a, vars)])
    {
      var a :| a in rest;
      rest := rest - {a};
      r := r[a := Times(r[a], temp[Restrict(a, vars)])];
    }
  }

  /** Multiplying rows by a factor that depends only on `vars` multiplies the marginal on `vars`. */
  lemma MarginalOfProduct(d: Table, r: Table, vars: set<nat>, k: Assignment, c: real)
    requires r.Keys == d.Keys
    requires forall a :: a in d && Restrict(a, vars) == k ==> r[a] == Times(d[a], c)
    ensures Marginal(r, vars, k) == Times(c, Marginal(d, vars, k))
  {
    SumScale(Fibre(d.Keys, vars, k), d, r, c);
  }

  lemma MarginalOfZeroRows(t: Table, vars: set<nat>, k: Assignment)
    requires forall a :: a in t && Restrict(a, vars) == k ==> t[a] == 0.0
    ensures Marginal(t, vars, k) == 0.0
  {
    SumScale(Fibre(t.Keys, vars, k), t, t, 0.0);
  }

  // ---------------------------------------------------------------- normalize

  function Share(p: real, total: real): (r: real)
    requires total != 0.0
  {
    p / total
  }

  lemma ShareIsProduct(p: real, total: real)
    requires total != 0.0
    ensures Share(p, total) == Times(Share(1.0, total), p)
    ensures Times(Share(1.0, total), total) == 1.0
  {
  }

  lemma SharesSumToOne(t: Table, r: Table, total: real)
    requires total == Sum(t.Keys, t) != 0.0
    requires r.Keys == t.Keys && forall a :: a in t ==> r[a] == Share(t[a], total)
    ensures Sum(r.Keys, r) == 1.0
  {
    var c := Share(1.0, total);
    forall a | a in t ensures Entry(r, a) == Times(c, Entry(t, a)) {
      ShareIsProduct(t[a], total);
    }
    SumScale(t.Keys, t, r, c);
    ShareIsProduct(total, total);
  }

  method Total(t: Table) returns (total: real)
    ensures total == Sum(t.Keys, t)
  {
    total := 0.0;
    var rest := t.Keys;
    while rest != {}
      invariant rest <= t.Keys
      invariant total + Sum(rest, t) == Sum(t.Keys, t)
    {
      var a :| a in rest;
      SumRemove(rest, t, a);
      rest := rest - {a};
      total := total + t[a];
    }
  }

  /** `joint_probability_table::normalize`; over doubles a zero total yields NaN, here it is reported. */
  method Normalize(t: Table) returns (ok: bool, r: Table)
    ensures ok <==> Sum(t.Keys, t) != 0.0
    ensures ok ==> r.Keys == t.Keys && forall a :: a in t ==> r[a] == Share(t[a], Sum(t.Keys, t))
    ensures ok ==> Sum(r.Keys, r) == 1.0
  {
    var total := Total(t);
    ok, r := total != 0.0, t;
    if ok {
      var rest := t.Keys;
      while rest != {}
        invariant rest <= t.Keys == r.Keys
        invariant forall a :: a in t ==> r[a] == if a in rest then t[a] else Share(t[a], total)
      {
        var a :| a in rest;
        rest := rest - {a};
        r := r[a := Share(r[a], total)];
      }
      SharesSumToOne(t, r, total);
    }
  }
}
