/** Partial assignments of values to variables (`dlib::assignment`), the strict total order that
    `dlib::map` keeps its keys in, and the finite space of legal assignments to a set of variables. */
module Assignments {

  type Assignment = map<nat, nat>

  // ---------------------------------------------------------------- restriction

  /** The part of `a` that talks about `vars`: the copy loops of `marginalize` and
      `pass_join_tree_message` build exactly this. */
  function Restrict(a: Assignment, vars: set<nat>): (r: Assignment)
    ensures r.Keys == a.Keys * vars
    ensures forall v :: v in r ==> r[v] == a[v]
  {
    map v | v in a && v in vars :: a[v]
  }

  lemma RestrictTwice(a: Assignment, outer: set<nat>, inner: set<nat>)
    requires a.Keys * inner <= outer
    ensures Restrict(Restrict(a, outer), inner) == Restrict(a, inner)
  {
  }

  // ---------------------------------------------------------------- least elements

  lemma {:induction false} FindLeast(s: set<nat>) returns (m: nat)
    requires s != {}
    ensures m in s
    ensures forall v :: v in s ==> m <= v
  {
    m :| m in s;
    var rest := s - {m};
    if rest != {} {
      var least := FindLeast(rest);
      if least < m {
        m := least;
      }
    }
    assert forall v :: v in s ==> v in rest || v in s - rest;
  }

  lemma LeastExists(s: set<nat>)
    requires s != {}
    ensures exists m :: m in s && forall v :: v in s ==> m <= v
  {
    var m := FindLeast(s);
  }

  function Least(s: set<nat>): (m: nat)
    requires s != {}
    ensures m in s
    ensures forall v :: v in s ==> m <= v
  {
    LeastExists(s);
    var m :| m in s && forall v :: v in s ==> m <= v;
    m
  }

  // ---------------------------------------------------------------- the order on assignments

  lemma DropShrinks(a: Assignment, k: nat)
    requires k in a
    ensures |a - {k}| == |a| - 1
  {
    assert (a - {k}).Keys == a.Keys - {k};
    assert |a.Keys| == |a| && |(a - {k}).Keys| == |a - {k}|;
  }

  /** `assignment::operator<`: shorter first, then the (key, value) pairs in ascending key order. */
  predicate Less(a: Assignment, b: Assignment)
  {
    |a| < |b| || (|a| == |b| && LessFrom(a, b))
  }

  predicate LessFrom(a: Assignment, b: Assignment)
    requires |a| == |b|
    decreases |a|
  {
    if |a| == 0 then
      false
    else
      var i, j := Least(a.Keys), Least(b.Keys);
      DropShrinks(a, i);
      DropShrinks(b, j);
      i < j || (i == j && (a[i] < b[j] || (a[i] == b[j] && LessFrom(a - {i}, b - {j}))))
  }

  lemma {:induction false} LessFromTotal(a: Assignment, b: Assignment)
    requires |a| == |b|
    ensures a == b || LessFrom(a, b) || LessFrom(b, a)
    ensures !(LessFrom(a, b) && LessFrom(b, a))
    decreases |a|
  {
    if |a| == 0 {
      assert a == map[] && b == map[];
    } else {
      var i, j := Least(a.Keys), Least(b.Keys);
      DropShrinks(a, i);
      DropShrinks(b, j);
      LessFromTotal(a - {i}, b - {j});
      if i == j && a[i] == b[j] && a - {i} == b - {j} {
        assert a == (a - {i})[i := a[i]];
        assert b == (b - {j})[j := b[j]];
      }
    }
  }

  lemma {:induction false} LessFromTransitive(a: Assignment, b: Assignment, c: Assignment)
    requires |a| == |b| == |c|
    requires LessFrom(a, b) && LessFrom(b, c)
    ensures LessFrom(a, c)
    decreases |a|
  {
    var i, j, k := Least(a.Keys), Least(b.Keys), Least(c.Keys);
    DropShrinks(a, i);
    DropShrinks(b, j);
    DropShrinks(c, k);
    if i == j == k && a[i] == b[j] == c[k] {
      LessFromTransitive(a - {i}, b - {j}, c - {k});
    }
  }

  /** `operator<` is a strict total order, so a `dlib::map` keyed by assignments is well defined. */
  lemma LessIsStrictTotalOrder(a: Assignment, b: Assignment, c: Assignment)
    ensures !Less(a, a)
    ensures a == b || Less(a, b) || Less(b, a)
    ensures !(Less(a, b) && Less(b, a))
    ensures Less(a, b) && Less(b, c) ==> Less(a, c)
  {
    LessFromTotal(a, a);
    if |a| == |b| {
      LessFromTotal(a, b);
      if |b| == |c| && LessFrom(a, b) && LessFrom(b, c) {
        LessFromTransitive(a, b, c);
      }
    }
  }

  /** The element the enumeration of a map visits first among the keys `s`. */
  predicate IsFirst(s: set<Assignment>, a: Assignment)
  {
    a in s && forall b :: b in s && b != a ==> Less(a, b)
  }

  lemma {:induction false} FirstExists(s: set<Assignment>)
    requires s != {}
    ensures exists a :: IsFirst(s, a)
  {
    var x :| x in s;
    if s == {x} {
      assert IsFirst(s, x);
    } else {
      FirstExists(s - {x});
      var m :| IsFirst(s - {x}, m);
      LessIsStrictTotalOrder(x, m, m);
      if Less(x, m) {
        forall b | b in s && b != x ensures Less(x, b) {
          LessIsStrictTotalOrder(x, m, b);
        }
        assert IsFirst(s, x);
      } else {
        assert IsFirst(s, m);
      }
    }
  }

  lemma FirstUnique(s: set<Assignment>, a: Assignment, b: Assignment)
    requires IsFirst(s, a) && IsFirst(s, b)
    ensures a == b
  {
    LessIsStrictTotalOrder(a, b, b);
  }

  // ---------------------------------------------------------------- legal assignments

  predicate Legal(card: seq<nat>, vars: set<nat>, a: Assignment)
  {
    a.Keys == vars && forall v :: v in vars ==> v < |card| && a[v] < card[v]
  }

  ghost function Below(n: nat): (s: set<nat>)
    ensures forall x: nat :: x in s <==> x < n
  {
    if n == 0 then {} else Below(n - 1) + {n - 1}
  }

  /** Every legal assignment to `vars`. */
  ghost function All(card: seq<nat>, vars: set<nat>): (s: set<Assignment>)
    requires forall v :: v in vars ==> v < |card|
    ensures forall a :: a in s <==> Legal(card, vars, a)
    decreases |vars|
  {
    if vars == {} then
      {map[]}
    else
      var v := Least(vars);
      var rest := All(card, vars - {v});
      var s := set a, x | a in rest && x in Below(card[v]) :: a[v := x];
      assert forall a :: a in s <==> Legal(card, vars, a) by {
        forall a ensures a in s <==> Legal(card, vars, a) {
          SplitLegal(card, vars, v, rest, a);
        }
      }
      s
  }

  /** A legal assignment is one of the other variables with a legal value for `v` put in. */
  lemma SplitLegal(card: seq<nat>, vars: set<nat>, v: nat, rest: set<Assignment>, a: Assignment)
    requires v in vars && forall w :: w in vars ==> w < |card|
    requires forall b :: b in rest <==> Legal(card, vars - {v}, b)
    ensures a in (set b, x | b in rest && x in Below(card[v]) :: b[v := x]) <==> Legal(card, vars, a)
  {
    if Legal(card, vars, a) {
      var b, x := a - {v}, a[v];
      assert Legal(card, vars - {v}, b);
      assert b in rest && x in Below(card[v]);
      assert a == b[v := x];
    }
  }

  lemma RestrictLegal(card: seq<nat>, vars: set<nat>, a: Assignment, sub: set<nat>)
    requires Legal(card, vars, a)
    requires sub <= vars
    ensures Legal(card, sub, Restrict(a, sub))
  {
  }
}
