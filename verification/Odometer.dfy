/** Counting through all legal assignments by adding one with carry, least key first. */
module Odometer {
  import opened Basics
  import opened Assignments

  lemma ProductMonotone(c: nat, r: nat, s: nat)
    requires r <= s
    ensures Product(c, r) <= Product(c, s)
  {
  }

  lemma ProductNext(c: nat, r: nat)
    ensures Product(c, r + 1) == Product(c, r) + c
  {
  }

  lemma DigitsUnique(c: nat, x: nat, r: nat, y: nat, s: nat)
    requires x < c && y < c && x + Product(c, r) == y + Product(c, s)
    ensures x == y && r == s
  {
    ProductNext(c, r);
    ProductNext(c, s);
    if r < s {
      ProductMonotone(c, r + 1, s);
    } else if s < r {
      ProductMonotone(c, s + 1, r);
    }
  }

  /** The position in the count of the digits `a[v]` with `v` in `vars`: the least key is the least significant. */
  function Rank(card: seq<nat>, vars: set<nat>, a: Assignment): (n: nat)
    requires forall v :: v in vars ==> v in a && v < |card|
    decreases |vars|
  {
    if vars == {} then 0
    else
      var k := Least(vars);
      a[k] + Product(card[k], Rank(card, vars - {k}, a))
  }

  ghost predicate InRange(card: seq<nat>, vars: set<nat>, a: Assignment)
  {
    forall v :: v in vars ==> v in a && v < |card| && a[v] < card[v]
  }

  lemma {:induction false} RankInjective(card: seq<nat>, vars: set<nat>, a: Assignment, b: Assignment)
    requires InRange(card, vars, a) && InRange(card, vars, b) && Rank(card, vars, a) == Rank(card, vars, b)
    ensures forall v :: v in vars ==> a[v] == b[v]
    decreases |vars|
  {
    if vars != {} {
      var k := Least(vars);
      DigitsUnique(card[k], a[k], Rank(card, vars - {k}, a), b[k], Rank(card, vars - {k}, b));
      RankInjective(card, vars - {k}, a, b);
      assert forall v :: v in vars ==> v == k || v in vars - {k};
    }
  }

  ghost predicate AllMax(card: seq<nat>, vars: set<nat>, a: Assignment)
  {
    forall v :: v in vars ==> v in a && v < |card| && a[v] + 1 == card[v]
  }

  lemma {:induction false} MaxIsLast(card: seq<nat>, vars: set<nat>, a: Assignment, top: Assignment)
    requires InRange(card, vars, a) && AllMax(card, vars, top)
    ensures Rank(card, vars, a) <= Rank(card, vars, top)
    decreases |vars|
  {
    if vars != {} {
      var k := Least(vars);
      MaxIsLast(card, vars - {k}, a, top);
      ProductMonotone(card[k], Rank(card, vars - {k}, a), Rank(card, vars - {k}, top));
    }
  }

  lemma {:induction false} ZeroIsFirst(card: seq<nat>, vars: set<nat>, a: Assignment)
    requires forall v :: v in vars ==> v in a && v < |card| && a[v] == 0
    ensures Rank(card, vars, a) == 0
    decreases |vars|
  {
    if vars != {} {
      ZeroIsFirst(card, vars - {Least(vars)}, a);
    }
  }

  lemma {:induction false} RankAgrees(card: seq<nat>, vars: set<nat>, a: Assignment, b: Assignment)
    requires forall v :: v in vars ==> v in a && v in b && v < |card| && a[v] == b[v]
    ensures Rank(card, vars, a) == Rank(card, vars, b)
    decreases |vars|
  {
    if vars != {} {
      RankAgrees(card, vars - {Least(vars)}, a, b);
    }
  }

  /** `b` is `a` plus one: the digits below `k` run over to zero, digit `k` goes up, the rest stay. */
  ghost predicate CarriedTo(card: seq<nat>, vars: set<nat>, a: Assignment, b: Assignment, k: nat)
    requires forall v :: v in vars ==> v in a && v in b && v < |card|
  {
    && k in vars && a[k] + 1 < card[k] && b[k] == a[k] + 1
    && (forall v :: v in vars && v < k ==> a[v] + 1 == card[v] && b[v] == 0)
    && (forall v :: v in vars && k < v ==> b[v] == a[v])
  }

  /** Carrying moves to the next position in the count. */
  lemma {:induction false} CarryCounts(card: seq<nat>, vars: set<nat>, a: Assignment, b: Assignment, k: nat)
    requires forall v :: v in vars ==> v in a && v in b && v < |card|
    requires CarriedTo(card, vars, a, b, k)
    ensures Rank(card, vars, b) == Rank(card, vars, a) + 1
    decreases |vars|
  {
    var l := Least(vars);
    if l == k {
      RankAgrees(card, vars - {l}, a, b);
    } else {
      CarryCounts(card, vars - {l}, a, b, k);
      ProductNext(card[l], Rank(card, vars - {l}, a));
    }
  }

  /** The carry loop at the end of the clique initialisation. */
  method Advance(card: seq<nat>, vars: set<nat>, value: Assignment) returns (more: bool, next: Assignment)
    requires Legal(card, vars, value)
    ensures Legal(card, vars, next)
    ensures more ==> Rank(card, vars, next) == Rank(card, vars, value) + 1
    ensures !more ==> AllMax(card, vars, value)
  {
    next, more := value, false;
    var rest := vars;
    ghost var done: set<nat> := {};
    while rest != {}
      invariant done + rest == vars == next.Keys && done !! rest
      invariant forall v, w :: v in done && w in rest ==> v < w
      invariant forall v :: v in done ==> value[v] + 1 == card[v] && next[v] == 0
      invariant forall v :: v in rest ==> next[v] == value[v]
    {
      var k := Least(rest);
      if next[k] + 1 == card[k] {
        next := next[k := 0];
        rest, done := rest - {k}, done + {k};
      } else {
        next := next[k := next[k] + 1];
        more := true;
        CarryCounts(card, vars, value, next, k);
        return;
      }
    }
  }
}
