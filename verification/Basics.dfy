/** Bytes, optional values, products and division, as several modules use them. */
module Basics {

  type Byte = n: nat | n < 256

  datatype Option<+T> = None | Some(value: T)

  /** Division, named so that quotients stay atomic in the proofs. */
  function Quotient(x: nat, d: nat): (q: nat)
    requires d > 0
  {
    x / d
  }

  function Remainder(x: nat, d: nat): (r: nat)
    requires d > 0
    ensures r < d
  {
    x % d
  }

  /** Multiplication, named so that products stay atomic in the proofs. */
  function Product(x: nat, y: nat): (p: nat)
  {
    x * y
  }

  function Times(x: real, y: real): (z: real)
  {
    x * y
  }

  lemma ProductIs(x: nat, y: nat)
    ensures Product(x, y) == Product(y, x) == x * y
  {
  }

  /** Quotient and remainder are the only numbers that fit. */
  lemma DivisionIs(x: int, d: int, q: int, r: int)
    requires d > 0 && x == d * q + r && 0 <= r < d
    ensures x / d == q && x % d == r
  {
    var q', r' := x / d, x % d;
    assert d * (q - q') == r' - r;
    MultipleBelow(d, q - q');
  }

  lemma DivMod(x: nat, d: nat)
    requires d > 0
    ensures x == Product(Quotient(x, d), d) + Remainder(x, d)
  {
  }

  lemma QuotientIs(x: nat, d: nat, q: nat, r: nat)
    requires x == Product(q, d) + r && r < d
    ensures Quotient(x, d) == x / d == q && Remainder(x, d) == x % d == r
  {
    DivisionIs(x, d, q, r);
  }

  lemma MultipleBelow(d: int, k: int)
    requires d > 0 && -d < d * k < d
    ensures k == 0
  {
  }
}
