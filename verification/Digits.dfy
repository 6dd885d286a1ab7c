/** Little-endian base-65536 numerals and the arithmetic of carries. */
module Digits {
  import opened Basics

  const BASE: nat := 65536

  type Digit = n: nat | n < 65536

  /** `x` moved up by `i` digits. */
  function Scale(x: nat, i: nat): (r: nat)
    decreases i
  {
    if i == 0 then x else Scale(BASE * x, i - 1)
  }

  /** The number a digit string stands for, least significant digit first. */
  function Val(d: seq<Digit>): (v: nat)
  {
    if |d| == 0 then 0 else Val(d[..|d| - 1]) + Scale(d[|d| - 1], |d| - 1)
  }

  lemma {:induction false} ScaleAdd(x: nat, y: nat, i: nat)
    ensures Scale(x + y, i) == Scale(x, i) + Scale(y, i)
    decreases i
  {
    if i > 0 {
      assert BASE * (x + y) == BASE * x + BASE * y;
      ScaleAdd(BASE * x, BASE * y, i - 1);
    }
  }

  lemma {:induction false} ScaleZero(i: nat)
    ensures Scale(0, i) == 0
  {
    if i > 0 {
      ScaleZero(i - 1);
    }
  }

  lemma {:induction false} ScaleMonotone(x: nat, y: nat, i: nat)
    requires x <= y
    ensures Scale(x, i) <= Scale(y, i)
  {
    ScaleAdd(x, y - x, i);
  }

  lemma {:induction false} ScaleGrows(i: nat, j: nat)
    requires i <= j
    ensures 1 <= Scale(1, i) <= Scale(1, j)
    ensures i < j ==> BASE * Scale(1, i) <= Scale(1, j)
    decreases j
  {
    ScaleOut(1, i);
    ScaleOut(1, j);
    if i < j {
      ScaleGrows(i, j - 1);
      ScaleOut(1, j - 1);
      assert Scale(1, j) == BASE * Scale(1, j - 1);
    } else if i > 0 {
      ScaleGrows(i - 1, i - 1);
    }
  }

  lemma {:induction false} ScaleOut(x: nat, i: nat)
    ensures i > 0 ==> Scale(x, i) == BASE * Scale(x, i - 1)
    decreases i
  {
    if i > 1 {
      ScaleOut(BASE * x, i - 1);
    }
  }

  /** The state every digit loop starts from. */
  lemma NoDigits()
    ensures Val([]) == 0
    ensures forall x: nat :: Scale(x, 0) == x
  {
  }

  lemma ValAppend(d: seq<Digit>, x: Digit)
    ensures Val(d + [x]) == Val(d) + Scale(x, |d|)
  {
    assert (d + [x])[..|d|] == d;
  }

  lemma ValTake(d: seq<Digit>, i: nat)
    requires i < |d|
    ensures Val(d[..i + 1]) == Val(d[..i]) + Scale(d[i], i)
  {
    assert d[..i + 1] == d[..i] + [d[i]];
    ValAppend(d[..i], d[i]);
  }

  lemma {:induction false} ValBound(d: seq<Digit>)
    ensures Val(d) < Scale(1, |d|)
  {
    if |d| > 0 {
      var n := |d| - 1;
      ValBound(d[..n]);
      ScaleMonotone(d[n], BASE - 1, n);
      ScaleAdd(1, BASE - 1, n);
      assert Scale(1, n + 1) == Scale(BASE, n);
    }
  }

  /** A one-digit number, or one without a leading zero. */
  predicate Canonical(d: seq<Digit>)
  {
    |d| == 1 || (|d| > 1 && d[|d| - 1] != 0)
  }

  lemma ValAtLeast(d: seq<Digit>)
    requires |d| > 0 && d[|d| - 1] != 0
    ensures Scale(1, |d| - 1) <= Val(d)
  {
    ScaleMonotone(1, d[|d| - 1], |d| - 1);
  }

  /** The value tells whether the leading digit is zero. */
  lemma TopDigitNonzero(d: seq<Digit>)
    requires |d| > 0
    ensures d[|d| - 1] != 0 <==> Scale(1, |d| - 1) <= Val(d)
  {
    if d[|d| - 1] != 0 {
      ValAtLeast(d);
    } else {
      ScaleZero(|d| - 1);
      ValBound(d[..|d| - 1]);
    }
  }

  /** The digit count of a result of value `v` where `n` digits were written and a last carry may add one. */
  ghost function Grown(v: nat, n: nat): (used: nat)
  {
    if Scale(1, n) <= v then n + 1 else n
  }

  /** The digit count of a result of value `v` where `n` digits were written and one leading zero is dropped. */
  ghost function Shrunk(v: nat, n: nat): (used: nat)
  {
    if n > 1 && v < Scale(1, n - 1) then n - 1 else n
  }

  lemma ZeroIsShort(d: seq<Digit>)
    requires Canonical(d) && Val(d) == 0
    ensures |d| == 1
  {
    if |d| > 1 {
      ValAtLeast(d);
      ScaleGrows(|d| - 1, |d| - 1);
      assert false;
    }
  }

  lemma OneDigit(d: Digit)
    ensures Val([d]) == d
  {
    NoDigits();
    ValAppend([], d);
    assert [] + [d] == [d];
  }

  lemma CanonicalZero(d: seq<Digit>)
    requires Canonical(d) && Val(d) == 0
    ensures d == [0]
  {
    ZeroIsShort(d);
    OneDigit(d[0]);
    assert d == [d[0]];
  }

  /** Fewer digits, smaller number: what lets the comparisons look at the lengths first. */
  lemma ShorterIsLess(d: seq<Digit>, e: seq<Digit>)
    requires Canonical(e) && 0 < |d| < |e|
    ensures Val(d) < Val(e)
  {
    ValBound(d);
    ScaleGrows(|d|, |e| - 1);
    ValAtLeast(e);
  }

  /** Equal lengths and equal tops from position i on: the rest decides. */
  lemma {:induction false} ValSplit(d: seq<Digit>, e: seq<Digit>, i: nat)
    requires |d| == |e| && i <= |d| && d[i..] == e[i..]
    ensures Val(d) - Val(e) == Val(d[..i]) - Val(e[..i])
    decreases |d| - i
  {
    if i < |d| {
      assert d[i] == d[i..][0] == e[i..][0] == e[i];
      assert d[i + 1..] == d[i..][1..] && e[i + 1..] == e[i..][1..];
      ValSplit(d, e, i + 1);
      ValTake(d, i);
      ValTake(e, i);
    } else {
      assert d[..i] == d && e[..i] == e;
    }
  }

  lemma TopDigitDecides(d: seq<Digit>, e: seq<Digit>)
    requires |d| == |e| > 0 && d[|d| - 1] < e[|e| - 1]
    ensures Val(d) < Val(e)
  {
    var n := |d| - 1;
    ValBound(d[..n]);
    ScaleAdd(1, d[n], n);
    ScaleMonotone(d[n] + 1, e[n], n);
  }

  /** A number has one canonical numeral. */
  lemma {:induction false} CanonicalUnique(d: seq<Digit>, e: seq<Digit>)
    requires Canonical(d) && Canonical(e) && Val(d) == Val(e)
    ensures d == e
  {
    if |d| < |e| {
      ShorterIsLess(d, e);
    } else if |e| < |d| {
      ShorterIsLess(e, d);
    } else {
      SameLengthUnique(d, e);
    }
  }

  lemma {:induction false} SameLengthUnique(d: seq<Digit>, e: seq<Digit>)
    requires |d| == |e| && Val(d) == Val(e)
    ensures d == e
  {
    if |d| > 0 {
      var n := |d| - 1;
      if d[n] < e[n] {
        TopDigitDecides(d, e);
      } else if e[n] < d[n] {
        TopDigitDecides(e, d);
      } else {
        SameLengthUnique(d[..n], e[..n]);
        assert d == d[..n] + [d[n]] && e == e[..n] + [e[n]];
      }
    }
  }

  /** One step of a carry loop: digit and carry out stand for what came in. */
  lemma CarryStep(i: nat, low: nat, carry: nat, incoming: nat)
    requires low + BASE * carry == incoming
    ensures Scale(low, i) + Scale(carry, i + 1) == Scale(incoming, i)
  {
    ScaleAdd(low, BASE * carry, i);
  }

  /** One step of a borrow loop. */
  lemma BorrowStep(i: nat, low: nat, borrow: nat, taken: nat, from: nat)
    requires low + taken == from + BASE * borrow
    ensures Scale(low, i) + Scale(taken, i) == Scale(from, i) + Scale(borrow, i + 1)
  {
    ScaleAdd(low, taken, i);
    ScaleAdd(from, BASE * borrow, i);
  }

  lemma ProductAdd(x: nat, y: nat, v: nat)
    ensures Product(x + y, v) == Product(x, v) + Product(y, v)
  {
  }

  lemma ProductBase(x: nat, v: nat)
    ensures Product(BASE * x, v) == BASE * Product(x, v)
  {
  }

  lemma ProductMonotone(x: nat, a: nat, y: nat)
    requires x <= a
    ensures Product(x, y) <= Product(a, y) && Product(y, x) <= Product(y, a)
  {
  }

  lemma ProductOfDigits(x: Digit, y: Digit)
    ensures Product(x, y) <= 65535 * 65535
  {
    ProductMonotone(x, 65535, y);
    ProductMonotone(y, 65535, 65535);
  }

  lemma {:induction false} ScaleProduct(x: nat, v: nat, i: nat)
    ensures Scale(Product(x, v), i) == Product(Scale(x, i), v)
    decreases i
  {
    if i > 0 {
      ProductBase(x, v);
      ScaleProduct(BASE * x, v, i - 1);
    }
  }

  /** Reading a numeral from the other end. */
  lemma {:induction false} ValHead(d: seq<Digit>)
    requires |d| > 0
    ensures Val(d) == d[0] + BASE * Val(d[1..])
  {
    var n := |d| - 1;
    if n > 0 {
      ValHead(d[..n]);
      assert d[..n][1..] == d[1..][..n - 1];
      ScaleOut(d[n], n);
    }
  }
}
