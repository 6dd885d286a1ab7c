/** The digit-array arithmetic of `bigint_kernel_1`, in place: the result record may be an operand. */
module Kernel {
  import opened Basics
  import opened Digits

  class DataRecord {
    const size: nat
    const number: array<Digit>
    var references: nat
    var digitsUsed: nat

    ghost predicate Valid()
      reads this`digitsUsed
    {
      number.Length == size && 1 <= digitsUsed <= size
    }

    ghost function Numeral(): (d: seq<Digit>)
      requires Valid()
      reads this`digitsUsed, number
    {
      number[..digitsUsed]
    }

    ghost function Value(): (v: nat)
      requires Valid()
      reads this`digitsUsed, number
    {
      Val(Numeral())
    }

    /** A record for zero with room for `size_` digits. */
    constructor (size_: nat)
      requires 1 <= size_
      ensures Valid() && fresh(number) && size == size_ && references == 1 && Numeral() == [0]
    {
      size, references, digitsUsed := size_, 1, 1;
      number := new Digit[size_];
      new;
      number[0] := 0;
    }

    /** A copy of `item` with room for more digits. */
    constructor Copy(item: DataRecord, additionalSize: nat)
      requires item.Valid()
      ensures Valid() && fresh(number) && size == item.digitsUsed + additionalSize && references == 1
              && Numeral() == item.Numeral()
    {
      size, references, digitsUsed := item.digitsUsed + additionalSize, 1, item.digitsUsed;
      number := new Digit[item.digitsUsed + additionalSize];
      new;
      var i := 0;
      while i < digitsUsed
        invariant 0 <= i <= digitsUsed == item.digitsUsed && references == 1
        invariant number[..i] == item.number[..i]
      {
        number[i] := item.number[i];
        i := i + 1;
      }
    }
  }

  /** Two records are the same object or share nothing. */
  ghost predicate Apart(a: DataRecord, b: DataRecord)
  {
    a == b || a.number != b.number
  }

  // ---------------------------------------------------------------- steps of the loops

  /** Writing one more digit and carrying on. */
  lemma Accumulate(r: seq<Digit>, total: nat, carry: nat, add: nat, temp: nat)
    requires Val(r) + Scale(carry, |r|) == total && temp == add + carry
    ensures temp % BASE < BASE && Val(r + [temp % BASE]) + Scale(temp / BASE, |r| + 1) == total + Scale(add, |r|)
  {
    hide Val, Scale;
    var i := |r|;
    ValAppend(r, temp % BASE);
    CarryStep(i, temp % BASE, temp / BASE, temp);
    ScaleAdd(add, carry, i);
  }

  /** The last carry becomes the last digit. */
  lemma CloseCarry(r: seq<Digit>, total: nat, carry: nat)
    requires Val(r) + Scale(carry, |r|) == total && carry < BASE
    ensures Val(r + [carry]) == total
  {
    hide Val, Scale;
    ValAppend(r, carry);
  }

  /** Writing one more digit of a difference and borrowing on. */
  lemma Lend(r: seq<Digit>, x: nat, y: nat, borrow: nat, a: nat, b: nat, digit: Digit, borrow': nat)
    requires Val(r) + x == y + Scale(borrow, |r|)
    requires digit + b + borrow == a + BASE * borrow'
    ensures Val(r + [digit]) + x + Scale(b, |r|) == y + Scale(a, |r|) + Scale(borrow', |r| + 1)
  {
    hide Val, Scale;
    var i := |r|;
    ValAppend(r, digit);
    BorrowStep(i, digit, borrow', b + borrow, a);
    ScaleAdd(b, borrow, i);
  }

  /** A difference that is not negative leaves no borrow. */
  lemma NoBorrow(r: seq<Digit>, x: nat, y: nat, borrow: nat)
    requires Val(r) + x == y + Scale(borrow, |r|) && x <= y
    ensures borrow == 0 && Val(r) == y - x
  {
    hide Val, Scale;
    ValBound(r);
    ScaleZero(|r|);
    if borrow > 0 {
      ScaleMonotone(1, borrow, |r|);
    }
  }

  /** `a - b` as a 32-bit word. */
  function Word32(x: int): (w: nat)
  {
    x % 0x1_0000_0000
  }

  function LowHalf(w: nat): (d: Digit)
  {
    w % BASE
  }

  /** The top bit of a 32-bit word: set when a difference went below zero. */
  function TopBit(w: nat): (b: nat)
  {
    w / 0x8000_0000
  }

  lemma WordDifference(a: Digit, b: nat, borrow: nat)
    requires b + borrow <= BASE
    ensures var temp := Word32(a - b - borrow);
            LowHalf(temp) + b + borrow == a + BASE * TopBit(temp) && TopBit(temp) <= 1
  {
  }

  // ---------------------------------------------------------------- loops that pass a carry or a borrow on

  function Carry(temp: nat): (c: nat)
  {
    temp / BASE
  }

  /** Digits `from..n` of `src` go to `result`, with the carry in the upper half of `temp0` added in. */
  method PropagateCarry(src: DataRecord, result: DataRecord, from: nat, n: nat, temp0: nat, ghost a: seq<Digit>,
                        ghost total: nat)
    returns (temp: nat)
    requires src.number.Length == src.size && result.number.Length == result.size && Apart(src, result)
    requires from <= n == |a| <= src.size && n <= result.size && Carry(temp0) < BASE
    requires forall k :: from <= k < n ==> src.number[k] == a[k]
    requires Val(result.number[..from]) + Scale(Carry(temp0), from) == total + Val(a[..from])
    requires from > 0 ==> result.number[from - 1] == LowHalf(temp0)
    modifies result.number
    ensures Carry(temp) < BASE && Val(result.number[..n]) + Scale(Carry(temp), n) == total + Val(a)
    ensures n > 0 ==> result.number[n - 1] == LowHalf(temp)
    ensures if from < n then a[n - 1] <= temp && (from > 0 && Carry(temp0) <= 1 ==> Carry(temp) <= 1) else temp == temp0
  {
    hide Val, Scale;
    temp := temp0;
    var i := from;
    while i < n
      invariant from <= i <= n && Carry(temp) < BASE
      invariant Val(result.number[..i]) + Scale(Carry(temp), i) == total + Val(a[..i])
      invariant forall k :: i <= k < n ==> src.number[k] == a[k]
      invariant 0 < i ==> result.number[i - 1] == LowHalf(temp)
      invariant if from < i then a[i - 1] <= temp && (from > 0 && Carry(temp0) <= 1 ==> Carry(temp) <= 1)
                else temp == temp0
    {
      ghost var r, carry := result.number[..i], Carry(temp);
      temp := src.number[i] + Carry(temp);
      Accumulate(r, total + Val(a[..i]), carry, a[i], temp);
      ValTake(a, i);
      result.number[i] := LowHalf(temp);
      assert result.number[..i + 1] == r + [LowHalf(temp)];
      i := i + 1;
    }
    assert a[..n] == a;
  }

  /** Digits `from..n` of `src` go to `result`, with the borrow in the top bit of `temp0` taken out. */
  method PropagateBorrow(src: DataRecord, result: DataRecord, from: nat, n: nat, temp0: nat, ghost a: seq<Digit>,
                         ghost x: nat)
    returns (temp: nat)
    requires src.number.Length == src.size && result.number.Length == result.size && Apart(src, result)
    requires from <= n == |a| <= src.size && n <= result.size && TopBit(temp0) <= 1
    requires forall k :: from <= k < n ==> src.number[k] == a[k]
    requires Val(result.number[..from]) + x == Val(a[..from]) + Scale(TopBit(temp0), from)
    modifies result.number
    ensures TopBit(temp) <= 1 && Val(result.number[..n]) + x == Val(a) + Scale(TopBit(temp), n)
  {
    hide Val, Scale;
    temp := temp0;
    var i := from;
    while i != n
      invariant from <= i <= n && TopBit(temp) <= 1
      invariant Val(result.number[..i]) + x == Val(a[..i]) + Scale(TopBit(temp), i)
      invariant forall k :: i <= k < n ==> src.number[k] == a[k]
    {
      ghost var r, borrow := result.number[..i], TopBit(temp);
      WordDifference(src.number[i], 0, borrow);
      temp := Word32(src.number[i] - TopBit(temp));
      Lend(r, x, Val(a[..i]), borrow, a[i], 0, LowHalf(temp), TopBit(temp));
      ScaleZero(i);
      ValTake(a, i);
      result.number[i] := LowHalf(temp);
      assert result.number[..i + 1] == r + [LowHalf(temp)];
      i := i + 1;
    }
    assert a[..n] == a;
  }

  /** The end of an addition: a last carry becomes one more digit. */
  method CloseSum(result: DataRecord, n: nat, temp: nat, ghost total: nat)
    requires result.number.Length == result.size && 1 <= n <= result.size && Carry(temp) < BASE
    requires Val(result.number[..n]) + Scale(Carry(temp), n) == total
    requires Scale(1, n) <= total ==> n + 1 <= result.size
    modifies result`digitsUsed, result.number
    ensures result.Valid() && result.Value() == total
    ensures result.digitsUsed == (if Carry(temp) != 0 then n + 1 else n) == Grown(total, n)
    ensures Carry(temp) != 0 ==> Canonical(result.Numeral())
    ensures Carry(temp) == 0 ==> result.Numeral() == old(result.number[..n])
  {
    hide Val, Scale;
    if Carry(temp) != 0 {
      ScaleMonotone(1, Carry(temp), n);
      CloseCarry(result.number[..n], total, Carry(temp));
      result.digitsUsed := n + 1;
      result.number[n] := Carry(temp);
      assert result.number[..n + 1] == result.number[..n] + [Carry(temp)];
    } else {
      ScaleZero(n);
      ValBound(result.number[..n]);
      result.digitsUsed := n;
    }
  }

  // ---------------------------------------------------------------- short operands

  method ShortAdd(data: DataRecord, value: Digit, result: DataRecord)
    requires data.Valid() && result.Valid() && Apart(data, result)
    requires data.digitsUsed + 1 <= result.size
    modifies result`digitsUsed, result.number
    ensures result.Valid() && result.Value() == old(data.Value()) + value
    ensures old(Canonical(data.Numeral())) ==> Canonical(result.Numeral())
    ensures result.digitsUsed == Grown(result.Value(), old(data.digitsUsed))
  {
    hide Val, Scale;
    ghost var a := data.Numeral();
    var n := data.digitsUsed;
    NoDigits();
    assert result.number[..0] == [] && a[..0] == [];
    var temp := PropagateCarry(data, result, 0, n, value * BASE, a, value);
    CloseSum(result, n, temp, Val(a) + value);
  }

  method ShortSub(data: DataRecord, value: Digit, result: DataRecord)
    requires data.Valid() && result.Valid() && Apart(data, result)
    requires value <= data.Value()
    requires data.digitsUsed <= result.size
    modifies result`digitsUsed, result.number
    ensures result.Valid() && result.Value() == old(data.Value()) - value
    ensures old(Canonical(data.Numeral())) ==> Canonical(result.Numeral())
    ensures result.digitsUsed == Shrunk(result.Value(), old(data.digitsUsed))
  {
    hide Val, Scale;
    ghost var a := data.Numeral();
    var n := data.digitsUsed;
    NoDigits();
    assert a[..0] == [];
    WordDifference(data.number[0], value, 0);
    var temp := Word32(data.number[0] - value);
    Lend([], 0, 0, 0, a[0], value, LowHalf(temp), TopBit(temp));
    ValTake(a, 0);
    result.number[0] := LowHalf(temp);
    assert result.number[..1] == [] + [LowHalf(temp)];
    temp := PropagateBorrow(data, result, 1, n, temp, a, value);
    NoBorrow(result.number[..n], value, Val(a), TopBit(temp));
    ghost var r := result.number[..n];
    Strip(result, n);
    if Canonical(a) && n > 1 && r[n - 1] == 0 {
      LosesOneDigit(a, r, value);
    }
  }

  /** The digit count after a subtraction: one leading zero digit is dropped, if there is more than one digit. */
  method Strip(result: DataRecord, n: nat)
    requires result.number.Length == result.size && 1 <= n <= result.size
    modifies result`digitsUsed
    ensures result.Valid() && result.Value() == Val(result.number[..n])
    ensures result.digitsUsed == if result.number[n - 1] == 0 && n != 1 then n - 1 else n
    ensures result.digitsUsed == Shrunk(result.Value(), n)
    ensures result.number[..n][..result.digitsUsed] == result.Numeral()
  {
    hide Val, Scale;
    TopDigitNonzero(result.number[..n]);
    if result.number[n - 1] == 0 {
      DropZeroTop(result.number[..n]);
      assert result.number[..n][..n - 1] == result.number[..n - 1];
      if n == 1 {
        result.digitsUsed := 1;
      } else {
        result.digitsUsed := n - 1;
      }
    } else {
      result.digitsUsed := n;
    }
  }

  lemma DropZeroTop(r: seq<Digit>)
    requires |r| > 0 && r[|r| - 1] == 0
    ensures Val(r[..|r| - 1]) == Val(r)
  {
    ScaleZero(|r| - 1);
  }

  /** Taking at most 65535 from a canonical numeral shortens it by at most one digit. */
  lemma LosesOneDigit(a: seq<Digit>, r: seq<Digit>, value: Digit)
    requires Canonical(a) && |r| == |a| > 1 && r[|r| - 1] == 0 && Val(r) == Val(a) - value
    ensures Canonical(r[..|r| - 1])
  {
    hide Val, Scale;
    var n := |a|;
    if n > 2 && r[n - 2] == 0 {
      DropZeroTop(r);
      DropZeroTop(r[..n - 1]);
      assert r[..n - 1][..n - 2] == r[..n - 2];
      ValBound(r[..n - 2]);
      ValAtLeast(a);
      ScaleGrows(n - 2, n - 1);
    }
  }

  lemma MulTemp(x: Digit, v: Digit, carry: nat)
    requires carry < BASE
    ensures Carry(Product(x, v) + carry) < BASE
  {
    ProductOfDigits(x, v);
  }

  lemma MulStep(r: seq<Digit>, a: seq<Digit>, value: Digit, carry: nat)
    requires |r| < |a| && carry < BASE && Val(r) + Scale(carry, |r|) == Product(Val(a[..|r|]), value)
    ensures var temp := Product(a[|r|], value) + carry;
            && Carry(temp) < BASE && LowHalf(temp) < BASE && Product(a[|r|], value) <= temp
            && Val(r + [LowHalf(temp)]) + Scale(Carry(temp), |r| + 1) == Product(Val(a[..|r| + 1]), value)
  {
    hide Val, Scale;
    var i := |r|;
    MulTemp(a[i], value, carry);
    Accumulate(r, Product(Val(a[..i]), value), carry, Product(a[i], value), Product(a[i], value) + carry);
    ValTake(a, i);
    ScaleProduct(a[i], value, i);
    ProductAdd(Val(a[..i]), Scale(a[i], i), value);
  }

  /** The multiplication loop. */
  method MultiplyDigits(data: DataRecord, value: Digit, result: DataRecord, n: nat, ghost a: seq<Digit>)
    returns (temp: nat)
    requires data.number.Length == data.size && result.number.Length == result.size && Apart(data, result)
    requires 1 <= n == |a| <= data.size && n <= result.size && data.number[..n] == a
    modifies result.number
    ensures Carry(temp) < BASE && Val(result.number[..n]) + Scale(Carry(temp), n) == Product(Val(a), value)
    ensures result.number[n - 1] == LowHalf(temp) && Product(a[n - 1], value) <= temp
  {
    hide Val, Scale;
    temp := 0;
    var i := 0;
    NoDigits();
    assert result.number[..0] == [] && a[..0] == [];
    while i != n
      invariant 0 <= i <= n && Carry(temp) < BASE
      invariant Val(result.number[..i]) + Scale(Carry(temp), i) == Product(Val(a[..i]), value)
      invariant forall k :: i <= k < n ==> data.number[k] == a[k]
      invariant 0 < i ==> result.number[i - 1] == LowHalf(temp) && Product(a[i - 1], value) <= temp
    {
      ghost var r, carry := result.number[..i], Carry(temp);
      MulStep(r, a, value, carry);
      temp := Product(data.number[i], value) + Carry(temp);
      result.number[i] := LowHalf(temp);
      assert result.number[..i + 1] == r + [LowHalf(temp)];
      i := i + 1;
    }
    assert a[..n] == a;
  }

  method ShortMul(data: DataRecord, value: Digit, result: DataRecord)
    requires data.Valid() && result.Valid() && Apart(data, result)
    requires data.digitsUsed + 1 <= result.size
    modifies result`digitsUsed, result.number
    ensures result.Valid() && result.Value() == Product(old(data.Value()), value)
    ensures old(Canonical(data.Numeral())) ==>
              (Canonical(result.Numeral()) <==> value != 0 || old(data.digitsUsed) == 1)
    ensures result.digitsUsed == Grown(result.Value(), old(data.digitsUsed))
  {
    hide Val, Scale;
    ghost var a := data.Numeral();
    var n := data.digitsUsed;
    var temp := MultiplyDigits(data, value, result, n, a);
    if a[n - 1] != 0 && value != 0 {
      ProductPositive(a[n - 1], value);
    }
    CloseSum(result, n, temp, Product(Val(a), value));
    if value == 0 {
      ProductZero(Val(a));
      if Canonical(result.Numeral()) {
        ZeroIsShort(result.Numeral());
      }
    }
  }

  lemma ProductZeroLeft(x: nat)
    ensures Product(0, x) == 0
  {
  }

  lemma ProductZero(x: nat)
    ensures Product(x, 0) == 0
  {
  }

  lemma ProductPositive(x: nat, y: nat)
    requires x > 0 && y > 0
    ensures Product(x, y) > 0
  {
  }

  lemma QuotientFits(x: nat, v: nat, bound: nat)
    requires v > 0 && x < Product(bound, v)
    ensures Quotient(x, v) < bound
  {
    DivMod(x, v);
    if Quotient(x, v) >= bound {
      ProductMonotone(bound, Quotient(x, v), v);
      assert false;
    }
  }

  /** One step of long division by a single digit. */
  lemma DivStep(digit: Digit, rem: nat, v: Digit, high: nat, quot: nat)
    requires v > 0 && rem < v && high == Product(quot, v) + rem
    ensures var temp := digit + BASE * rem;
            && Quotient(temp, v) < BASE
            && digit + BASE * high == Product(Quotient(temp, v) + BASE * quot, v) + Remainder(temp, v)
  {
    var temp := digit + BASE * rem;
    DivMod(temp, v);
    assert Product(BASE, v) == BASE * v;
    QuotientFits(temp, v, BASE);
    ProductAdd(Quotient(temp, v), BASE * quot, v);
    ProductBase(quot, v);
  }

  /** Prepending a digit to the quotient found so far. */
  lemma DivInvariant(a: seq<Digit>, q: seq<Digit>, i: nat, rem: nat, v: Digit)
    requires v > 0 && rem < v && i < |a| && Val(a[i + 1..]) == Product(Val(q), v) + rem
    ensures var temp := a[i] + BASE * rem;
            && Quotient(temp, v) < BASE
            && Val(a[i..]) == Product(Val([Quotient(temp, v)] + q), v) + Remainder(temp, v)
  {
    hide Val, Product, Quotient, Remainder;
    var temp := a[i] + BASE * rem;
    DivStep(a[i], rem, v, Val(a[i + 1..]), Val(q));
    ValHead(a[i..]);
    assert a[i..][1..] == a[i + 1..];
    ValHead([Quotient(temp, v)] + q);
    assert ([Quotient(temp, v)] + q)[1..] == q;
  }

  /** The division loop: quotient digits from the top down. */
  method Divide(data: DataRecord, value: Digit, result: DataRecord, n: nat, ghost a: seq<Digit>) returns (rem: Digit)
    requires data.number.Length == data.size && result.number.Length == result.size && Apart(data, result)
    requires value != 0 && 1 <= n == |a| <= data.size && n <= result.size && data.number[..n] == a
    modifies result.number
    ensures Val(a) == Product(Val(result.number[..n]), value) + rem && rem < value
    ensures result.number[n - 1] == Quotient(a[n - 1], value)
  {
    hide Val, Scale, Product;
    NoDigits();
    ProductZeroLeft(value);
    assert a[n..] == [] && result.number[n..n] == [];
    rem := 0;
    var i := n;
    while i != 0
      invariant 0 <= i <= n && rem < value
      invariant Val(a[i..]) == Product(Val(result.number[i..n]), value) + rem
      invariant forall k :: 0 <= k < i ==> data.number[k] == a[k]
      invariant i == n ==> rem == 0
      invariant i < n ==> result.number[n - 1] == Quotient(a[n - 1], value)
    {
      i := i - 1;
      ghost var q := result.number[i + 1..n];
      DivInvariant(a, q, i, rem, value);
      var temp := data.number[i] + BASE * rem;
      result.number[i] := Quotient(temp, value);
      rem := Remainder(temp, value);
      assert result.number[i..n] == [result.number[i]] + q;
    }
    assert a[0..] == a && result.number[0..n] == result.number[..n];
  }

  method ShortDiv(data: DataRecord, value: Digit, result: DataRecord) returns (rem: Digit)
    requires data.Valid() && result.Valid() && Apart(data, result)
    requires value != 0
    requires data.digitsUsed <= result.size
    modifies result`digitsUsed, result.number
    ensures result.Valid() && old(data.Value()) == Product(result.Value(), value) + rem && rem < value
    ensures old(Canonical(data.Numeral())) ==> Canonical(result.Numeral())
    ensures result.digitsUsed == Shrunk(result.Value(), old(data.digitsUsed))
    ensures old(data.number[data.digitsUsed - 1]) < value && old(data.digitsUsed) > 1 ==>
              result.digitsUsed < old(data.digitsUsed)
  {
    hide Val, Scale, Product, Quotient;
    ghost var a := data.Numeral();
    var n := data.digitsUsed;
    if data.number[n - 1] < value {
      if n == 1 {
        result.digitsUsed := 1;
      } else {
        result.digitsUsed := n - 1;
      }
    } else {
      result.digitsUsed := n;
    }
    rem := Divide(data, value, result, n, a);
    QuotientTop(a[n - 1], value);
    TopDigitNonzero(result.number[..n]);
    if a[n - 1] < value && n > 1 {
      DropZeroTop(result.number[..n]);
      assert result.number[..n][..n - 1] == result.number[..n - 1];
      if Canonical(a) {
        QuotientLosesOneDigit(a, result.number[..n - 1], value, rem);
      }
    }
  }

  lemma QuotientTop(top: Digit, value: Digit)
    requires 0 < value
    ensures Quotient(top, value) == 0 <==> top < value
  {
  }

  /** Dividing a canonical numeral by less than 65536 shortens it by at most one digit. */
  lemma QuotientLosesOneDigit(a: seq<Digit>, q: seq<Digit>, value: Digit, rem: nat)
    requires Canonical(a) && |a| > 1 && |q| == |a| - 1 && rem < value && Val(a) == Product(Val(q), value) + rem
    ensures Canonical(q)
  {
    var n := |q|;
    if n > 1 && q[n - 1] == 0 {
      DropZeroTop(q);
      ValBound(q[..n - 1]);
      ValAtLeast(a);
      ScaleGrows(n - 1, n);
      QuotientTooSmall(Val(q), Scale(1, n - 1), value, rem);
      assert false;
    }
  }

  lemma QuotientTooSmall(q: nat, bound: nat, v: Digit, rem: nat)
    requires q < bound && rem < v
    ensures Product(q, v) + rem < BASE * bound
  {
    assert (q + 1) * v <= bound * v;
    assert bound * v <= bound * BASE;
    assert Product(q, v) + v == (q + 1) * v;
  }

  // ---------------------------------------------------------------- long operands

  /** What the low `i` digits of two numerals add up to. */
  ghost function SumTo(a: seq<Digit>, b: seq<Digit>, i: nat): nat
    requires i <= |a| && i <= |b|
  {
    if i == 0 then 0 else SumTo(a, b, i - 1) + Scale((a[i - 1] as nat) + b[i - 1], i - 1)
  }

  lemma {:induction false} SumToIsSum(a: seq<Digit>, b: seq<Digit>, i: nat)
    requires i <= |a| && i <= |b|
    ensures SumTo(a, b, i) == Val(a[..i]) + Val(b[..i])
  {
    if i > 0 {
      SumToIsSum(a, b, i - 1);
      ScaleAdd(a[i - 1], b[i - 1], i - 1);
      ValTake(a, i - 1);
      ValTake(b, i - 1);
    }
  }

  /** What is left of the low `i` digits of `a` when those of `b` are taken away. */
  ghost function DifferenceTo(a: seq<Digit>, b: seq<Digit>, i: nat): int
    requires i <= |a| && i <= |b|
  {
    if i == 0 then 0 else DifferenceTo(a, b, i - 1) + Scale(a[i - 1], i - 1) - Scale(b[i - 1], i - 1)
  }

  lemma {:induction false} DifferenceToIsDifference(a: seq<Digit>, b: seq<Digit>, i: nat)
    requires i <= |a| && i <= |b|
    ensures DifferenceTo(a, b, i) == Val(a[..i]) - Val(b[..i])
  {
    if i > 0 {
      DifferenceToIsDifference(a, b, i - 1);
      ValTake(a, i - 1);
      ValTake(b, i - 1);
    }
  }

  lemma NoSum(a: seq<Digit>, b: seq<Digit>)
    ensures SumTo(a, b, 0) == 0
  {
  }

  lemma SumToNext(a: seq<Digit>, b: seq<Digit>, i: nat)
    requires i < |a| && i < |b|
    ensures SumTo(a, b, i + 1) == SumTo(a, b, i) + Scale((a[i] as nat) + b[i], i)
  {
  }

  lemma SumStep(r: seq<Digit>, total: nat, carry: nat, a: Digit, b: Digit)
    requires Val(r) + Scale(carry, |r|) == total && carry <= 1
    ensures var temp := (a as nat) + b + carry;
            Carry(temp) <= 1 && b <= temp
              && Val(r + [LowHalf(temp)]) + Scale(Carry(temp), |r| + 1) == total + Scale((a as nat) + b, |r|)
  {
    hide Val, Scale;
    var x: nat := (a as nat) + b;
    Accumulate(r, total, carry, x, x + carry);
  }

  lemma DifferenceStep(r: seq<Digit>, difference: int, borrow: nat, a: Digit, b: Digit)
    requires Val(r) == difference + Scale(borrow, |r|) && borrow <= 1
    ensures var temp := Word32(a - b - borrow);
            TopBit(temp) <= 1
              && Val(r + [LowHalf(temp)]) == difference + Scale(a, |r|) - Scale(b, |r|) + Scale(TopBit(temp), |r| + 1)
  {
    hide Val, Scale;
    WordDifference(a, b, borrow);
    var temp := Word32(a - b - borrow);
    var x: nat, y: nat := if difference < 0 then -difference else 0, if difference < 0 then 0 else difference;
    Lend(r, x, y, borrow, a, b, LowHalf(temp), TopBit(temp));
  }

  /** The first loop of `long_add`: the digits both operands have. */
  method AddCommon(short: DataRecord, long: DataRecord, result: DataRecord, m: nat, ghost a: seq<Digit>,
                   ghost b: seq<Digit>) returns (temp: nat)
    requires short.number.Length == short.size && long.number.Length == long.size && result.number.Length == result.size
    requires Apart(short, result) && Apart(long, result)
    requires m == |a| <= |b| <= long.size && m <= short.size && m <= result.size
    requires short.number[..m] == a && long.number[..|b|] == b
    modifies result.number
    ensures Carry(temp) <= 1 && Val(result.number[..m]) + Scale(Carry(temp), m) == Val(a) + Val(b[..m])
    ensures m > 0 ==> result.number[m - 1] == LowHalf(temp) && b[m - 1] <= temp
    ensures forall k :: m <= k < |b| ==> long.number[k] == b[k]
  {
    hide Val, Scale, LowHalf, SumTo;
    temp := 0;
    var i := 0;
    ghost var r: seq<Digit> := [];
    NoDigits();
    NoSum(a, b);
    while i != m
      invariant 0 <= i <= m && Carry(temp) <= 1 && r == result.number[..i]
      invariant Val(r) + Scale(Carry(temp), i) == SumTo(a, b, i)
      invariant forall k :: i <= k < m ==> short.number[k] == a[k]
      invariant forall k :: i <= k < |b| ==> long.number[k] == b[k]
      invariant 0 < i ==> result.number[i - 1] == LowHalf(temp) && b[i - 1] <= temp
    {
      SumStep(r, SumTo(a, b, i), Carry(temp), a[i], b[i]);
      SumToNext(a, b, i);
      temp := short.number[i] + long.number[i] + Carry(temp);
      result.number[i] := LowHalf(temp);
      r := r + [LowHalf(temp)];
      i := i + 1;
    }
    SumToIsSum(a, b, m);
    assert a[..m] == a;
  }

  method AddOrdered(short: DataRecord, long: DataRecord, result: DataRecord)
    requires short.Valid() && long.Valid() && result.Valid() && Apart(short, result) && Apart(long, result)
    requires short.digitsUsed <= long.digitsUsed <= result.size
    requires Scale(1, long.digitsUsed) <= short.Value() + long.Value() ==> long.digitsUsed + 1 <= result.size
    modifies result`digitsUsed, result.number
    ensures result.Valid() && result.Value() == old(short.Value() + long.Value())
    ensures old(Canonical(long.Numeral())) ==> Canonical(result.Numeral())
    ensures result.digitsUsed == Grown(result.Value(), old(long.digitsUsed))
  {
    hide Val, Scale;
    ghost var a, b := short.Numeral(), long.Numeral();
    var n := long.digitsUsed;
    var m := short.digitsUsed;
    var temp := AddCommon(short, long, result, m, a, b);
    temp := PropagateCarry(long, result, m, n, temp, b, Val(a));
    if Carry(temp) != 0 {
      ScaleMonotone(1, Carry(temp), n);
    }
    CloseSum(result, n, temp, Val(a) + Val(b));
  }

  function Longer(m: nat, n: nat): (k: nat)
  {
    if m < n then n else m
  }

  /** `long_add`: `result` may be either operand, or both. */
  method LongAdd(lhs: DataRecord, rhs: DataRecord, result: DataRecord)
    requires lhs.Valid() && rhs.Valid() && result.Valid() && Apart(lhs, result) && Apart(rhs, result)
    requires lhs.digitsUsed <= result.size && rhs.digitsUsed <= result.size
    requires Grown(lhs.Value() + rhs.Value(), Longer(lhs.digitsUsed, rhs.digitsUsed)) <= result.size
    modifies result`digitsUsed, result.number
    ensures result.Valid() && result.Value() == old(lhs.Value() + rhs.Value())
    ensures old(Canonical(lhs.Numeral()) && Canonical(rhs.Numeral())) ==> Canonical(result.Numeral())
    ensures result.digitsUsed == Grown(result.Value(), old(Longer(lhs.digitsUsed, rhs.digitsUsed)))
  {
    if lhs.digitsUsed < rhs.digitsUsed {
      AddOrdered(lhs, rhs, result);
    } else {
      AddOrdered(rhs, lhs, result);
    }
  }

  /** The first loop of `long_sub`. */
  method SubCommon(lhs: DataRecord, rhs: DataRecord, result: DataRecord, m: nat, ghost a: seq<Digit>,
                   ghost b: seq<Digit>) returns (temp: nat)
    requires lhs.number.Length == lhs.size && rhs.number.Length == rhs.size && result.number.Length == result.size
    requires Apart(lhs, result) && Apart(rhs, result)
    requires m == |b| <= |a| <= lhs.size && m <= rhs.size && m <= result.size
    requires lhs.number[..|a|] == a && rhs.number[..m] == b
    modifies result.number
    ensures TopBit(temp) <= 1 && Val(result.number[..m]) + Val(b) == Val(a[..m]) + Scale(TopBit(temp), m)
    ensures forall k :: m <= k < |a| ==> lhs.number[k] == a[k]
  {
    hide Val, Scale;
    temp := 0;
    var i := 0;
    ghost var r: seq<Digit> := [];
    NoDigits();
    while i != m
      invariant 0 <= i <= m && TopBit(temp) <= 1 && r == result.number[..i]
      invariant Val(r) == DifferenceTo(a, b, i) + Scale(TopBit(temp), i)
      invariant forall k :: i <= k < m ==> rhs.number[k] == b[k]
      invariant forall k :: i <= k < |a| ==> lhs.number[k] == a[k]
    {
      DifferenceStep(r, DifferenceTo(a, b, i), TopBit(temp), a[i], b[i]);
      temp := Word32(lhs.number[i] - rhs.number[i] - TopBit(temp));
      result.number[i] := LowHalf(temp);
      r := r + [LowHalf(temp)];
      i := i + 1;
    }
    DifferenceToIsDifference(a, b, m);
    assert b[..m] == b;
  }

  /** `long_sub`: the difference is right, but only one leading zero digit is dropped. The
      result is canonical exactly when the difference is at most one digit shorter than the minuend. */
  method LongSub(lhs: DataRecord, rhs: DataRecord, result: DataRecord)
    requires lhs.Valid() && rhs.Valid() && result.Valid() && Apart(lhs, result) && Apart(rhs, result)
    requires rhs.digitsUsed <= lhs.digitsUsed <= result.size
    requires rhs.Value() <= lhs.Value()
    modifies result`digitsUsed, result.number
    ensures result.Valid() && result.Value() == old(lhs.Value() - rhs.Value())
    ensures result.digitsUsed == Shrunk(result.Value(), old(lhs.digitsUsed))
    ensures Canonical(result.Numeral())
            <==> old(lhs.digitsUsed) <= 2 || Scale(1, old(lhs.digitsUsed) - 2) <= result.Value()
  {
    hide Val, Scale;
    ghost var a, b := lhs.Numeral(), rhs.Numeral();
    var n := lhs.digitsUsed;
    var m := rhs.digitsUsed;
    var temp := SubCommon(lhs, rhs, result, m, a, b);
    temp := PropagateBorrow(lhs, result, m, n, temp, a, Val(b));
    NoBorrow(result.number[..n], Val(b), Val(a), TopBit(temp));
    ghost var r := result.number[..n];
    Strip(result, n);
    StrippedCanonical(r);
  }

  /** When one stripped digit is enough. */
  lemma StrippedCanonical(r: seq<Digit>)
    requires |r| > 0
    ensures Canonical(Stripped(r)) <==> |r| <= 2 || Scale(1, |r| - 2) <= Val(r)
  {
    hide Val, Scale;
    var n := |r|;
    if n > 2 {
      if r[n - 1] == 0 {
        DropZeroTop(r);
        TopDigitNonzero(r[..n - 1]);
      } else {
        TopDigitNonzero(r);
        PlacesGrow(n - 2);
      }
    }
  }

  lemma PlacesGrow(i: nat)
    ensures Scale(1, i) <= Scale(1, i + 1)
  {
    ScaleGrows(i, i + 1);
  }

  ghost function Stripped(r: seq<Digit>): seq<Digit>
    requires |r| > 0
  {
    if r[|r| - 1] == 0 && |r| != 1 then r[..|r| - 1] else r
  }

  /** Dropping one leading zero is not always enough. */
  lemma OneStripTooFew()
    ensures Stripped([1, 0, 0]) == [1, 0] && !Canonical(Stripped([1, 0, 0]))
    ensures Val([0, 0, 1]) - Val([65535, 65535]) == Val([1, 0, 0]) == 1 && Scale(1, 1) == 65536
  {
    assert [1, 0, 0][..2] == [1, 0];
    ValHead([0, 0, 1]);
    ValHead([0, 1]);
    ValHead([65535, 65535]);
    ValHead([1, 0, 0]);
    ValHead([0, 0]);
    assert [0, 0, 1][1..] == [0, 1] && [0, 1][1..] == [1] && [65535, 65535][1..] == [65535];
    assert [1, 0, 0][1..] == [0, 0] && [0, 0][1..] == [0];
    OneDigit(1);
    OneDigit(65535);
    OneDigit(0);
    NoDigits();
    ScaleOut(1, 1);
  }

  // ---------------------------------------------------------------- comparisons

  /** `is_less_than`: the digit counts first, then the digits from the top. On canonical numerals, and only
      there in general, this is the order of the numbers. */
  method IsLessThan(lhs: DataRecord, rhs: DataRecord) returns (less: bool)
    requires lhs.Valid() && rhs.Valid()
    ensures less <==> lhs.digitsUsed < rhs.digitsUsed || (lhs.digitsUsed == rhs.digitsUsed && lhs.Value() < rhs.Value())
    ensures Canonical(lhs.Numeral()) && Canonical(rhs.Numeral()) ==> (less <==> lhs.Value() < rhs.Value())
  {
    hide Val, Scale;
    ghost var a, b := lhs.Numeral(), rhs.Numeral();
    if lhs.digitsUsed < rhs.digitsUsed {
      if Canonical(b) {
        ShorterIsLess(a, b);
      }
      return true;
    } else if lhs.digitsUsed > rhs.digitsUsed {
      if Canonical(a) {
        ShorterIsLess(b, a);
      }
      return false;
    }
    var i := lhs.digitsUsed;
    while i != 0
      invariant 0 <= i <= |a| == |b|
      invariant a[i..] == b[i..]
    {
      i := i - 1;
      ValSplit(a, b, i + 1);
      if lhs.number[i] < rhs.number[i] {
        TopDigitDecides(a[..i + 1], b[..i + 1]);
        return true;
      } else if lhs.number[i] > rhs.number[i] {
        TopDigitDecides(b[..i + 1], a[..i + 1]);
        return false;
      }
      assert a[i..] == [a[i]] + a[i + 1..] && b[i..] == [b[i]] + b[i + 1..];
    }
    assert a == a[0..] == b[0..] == b;
    return false;
  }

  /** A record of given digits. */
  method RecordOf(d: seq<Digit>) returns (r: DataRecord)
    requires |d| >= 1
    ensures fresh(r) && fresh(r.number) && r.Valid() && r.size == |d| && r.Numeral() == d
  {
    r := new DataRecord(|d|);
    var i := 0;
    while i < |d|
      invariant 0 <= i <= |d| == r.size == r.number.Length && r.number[..i] == d[..i]
      invariant fresh(r) && fresh(r.number) && r.digitsUsed == 1
    {
      r.number[i] := d[i];
      i := i + 1;
    }
    r.digitsUsed := |d|;
  }

  /** `long_sub` on 65536^2 and 65536^2 - 1 leaves the digits 1, 0, and then `is_less_than` says that this 1 is not
      less than 2, and that 2 is less than it. */
  method LeadingZeroMisorders() returns (difference: DataRecord, two: DataRecord, less: bool, greater: bool)
    ensures difference.Valid() && difference.Value() == 1 && difference.digitsUsed == 2
    ensures two.Valid() && two.Value() == 2 && two.digitsUsed == 1
    ensures !less && greater
  {
    OneStripTooFew();
    OneDigit(2);
    var minuend := RecordOf([0, 0, 1]);
    var subtrahend := RecordOf([65535, 65535]);
    difference := new DataRecord(3);
    LongSub(minuend, subtrahend, difference);
    ScaleGrows(1, 2);
    two := RecordOf([2]);
    less := IsLessThan(difference, two);
    greater := IsLessThan(two, difference);
  }

  method IsEqualTo(lhs: DataRecord, rhs: DataRecord) returns (equal: bool)
    requires lhs.Valid() && rhs.Valid()
    ensures equal <==> lhs.Numeral() == rhs.Numeral()
    ensures Canonical(lhs.Numeral()) && Canonical(rhs.Numeral()) ==> (equal <==> lhs.Value() == rhs.Value())
  {
    ghost var a, b := lhs.Numeral(), rhs.Numeral();
    if Canonical(a) && Canonical(b) && Val(a) == Val(b) {
      CanonicalUnique(a, b);
    }
    if lhs.digitsUsed != rhs.digitsUsed {
      return false;
    }
    var i := 0;
    while i != lhs.digitsUsed
      invariant 0 <= i <= |a| == |b|
      invariant a[..i] == b[..i]
    {
      if lhs.number[i] != rhs.number[i] {
        assert a[i] != b[i];
        return false;
      }
      i := i + 1;
    }
    assert a[..i] == a && b[..i] == b;
    return true;
  }

  // ---------------------------------------------------------------- one more, one less

  /** Digits `from..n` of `src` go to `result` as they are. */
  method CopyRest(src: DataRecord, result: DataRecord, from: nat, n: nat, ghost a: seq<Digit>, ghost x: nat,
                  ghost y: nat)
    requires src.number.Length == src.size && result.number.Length == result.size && Apart(src, result)
    requires from <= n == |a| <= src.size && n <= result.size
    requires forall k :: from <= k < n ==> src.number[k] == a[k]
    requires Val(result.number[..from]) + x == Val(a[..from]) + y
    modifies result.number
    ensures Val(result.number[..n]) + x == Val(a) + y
    ensures result.number[..from] == old(result.number[..from])
    ensures forall k :: from <= k < n ==> result.number[k] == a[k]
  {
    hide Val, Scale;
    var i := from;
    while i != n
      invariant from <= i <= n
      invariant Val(result.number[..i]) + x == Val(a[..i]) + y
      invariant result.number[..from] == old(result.number[..from])
      invariant forall k :: from <= k < i ==> result.number[k] == a[k]
      invariant forall k :: i <= k < n ==> src.number[k] == a[k]
    {
      ghost var r := result.number[..i];
      ValAppend(r, a[i]);
      ValTake(a, i);
      result.number[i] := src.number[i];
      assert result.number[..i + 1] == r + [a[i]];
      i := i + 1;
    }
    assert a[..n] == a;
  }

  /** The carry makes a new top digit. */
  method CarryOut(dest: DataRecord, n: nat, ghost total: nat)
    requires dest.number.Length == dest.size && 1 <= n < dest.size && Val(dest.number[..n]) + Scale(1, n) == total
    modifies dest`digitsUsed, dest.number
    ensures dest.Valid() && dest.Value() == total && Canonical(dest.Numeral())
    ensures dest.digitsUsed == n + 1 == Grown(total, n)
  {
    hide Val, Scale;
    CloseCarry(dest.number[..n], total, 1);
    dest.digitsUsed := n + 1;
    dest.number[n] := 1;
    assert dest.number[..n + 1] == dest.number[..n] + [1];
  }

  method Increment(source: DataRecord, dest: DataRecord)
    requires source.Valid() && dest.Valid() && Apart(source, dest)
    requires source.digitsUsed + 1 <= dest.size
    modifies dest`digitsUsed, dest.number
    ensures dest.Valid() && dest.Value() == old(source.Value()) + 1
    ensures old(Canonical(source.Numeral())) ==> Canonical(dest.Numeral())
    ensures dest.digitsUsed == Grown(dest.Value(), old(source.digitsUsed))
  {
    hide Val, Scale;
    ghost var a := source.Numeral();
    var n := source.digitsUsed;
    var i := 0;
    NoDigits();
    assert dest.number[..0] == [] && a[..0] == [];
    while true
      invariant 0 <= i < n && source.digitsUsed == n
      invariant Val(dest.number[..i]) + Scale(1, i) == Val(a[..i]) + 1
      invariant forall k :: i <= k < n ==> source.number[k] == a[k]
      decreases n - i
    {
      ghost var r := dest.number[..i];
      Accumulate(r, Val(a[..i]) + 1, 1, a[i], (a[i] as nat) + 1);
      ValTake(a, i);
      dest.number[i] := LowHalf((source.number[i] as nat) + 1);
      assert dest.number[..i + 1] == r + [LowHalf((a[i] as nat) + 1)];
      if dest.number[i] != 0 {
        ScaleZero(i + 1);
        dest.digitsUsed := n;
        CopyRest(source, dest, i + 1, n, a, 0, 1);
        ValBound(dest.number[..n]);
        break;
      }
      i := i + 1;
      if i == n {
        assert a[..n] == a;
        CarryOut(dest, n, Val(a) + 1);
        break;
      }
    }
  }

  /** The digit count after `decrement`: a digit is dropped only when the borrow reaches the top and empties it. */
  ghost function Lowered(v: nat, n: nat): (used: nat)
  {
    if n > 1 && v == Scale(1, n - 1) then n - 1 else n
  }

  method Decrement(source: DataRecord, dest: DataRecord)
    requires source.Valid() && dest.Valid() && Apart(source, dest)
    requires source.digitsUsed <= dest.size && source.Value() > 0
    modifies dest`digitsUsed, dest.number
    ensures dest.Valid() && dest.Value() == old(source.Value()) - 1
    ensures old(Canonical(source.Numeral())) ==> Canonical(dest.Numeral())
    ensures dest.digitsUsed == Lowered(old(source.Value()), old(source.digitsUsed))
  {
    hide Val, Scale;
    ghost var a := source.Numeral();
    var n := source.digitsUsed;
    var i := 0;
    NoDigits();
    assert dest.number[..0] == [] && a[..0] == [];
    while true
      invariant 0 <= i < n && source.digitsUsed == n
      invariant Val(dest.number[..i]) + 1 == Val(a[..i]) + Scale(1, i)
      invariant forall k :: i <= k < n ==> source.number[k] == a[k]
      invariant i > 0 ==> dest.number[i - 1] != 0
      invariant forall k :: 0 <= k < i ==> a[k] == 0
      decreases n - i
    {
      ghost var r := dest.number[..i];
      dest.number[i] := (source.number[i] as int - 1) % 65536;
      ghost var borrow: nat := if a[i] == 0 then 1 else 0;
      Lend(r, 1, Val(a[..i]), 1, a[i], 0, dest.number[i], borrow);
      ScaleZero(i);
      ValTake(a, i);
      assert dest.number[..i + 1] == r + [dest.number[i]];
      if dest.number[i] != 0xFFFF {
        break;
      }
      LastBorrow(dest.number[..i + 1], a, borrow);
      i := i + 1;
    }
    ScaleZero(i + 1);
    FinishDecrement(source, dest, i, n, a);
  }

  /** Digit `i` took the borrow: set the digit count and copy the digits above. */
  method FinishDecrement(source: DataRecord, dest: DataRecord, i: nat, n: nat, ghost a: seq<Digit>)
    requires source.number.Length == source.size && dest.number.Length == dest.size && Apart(source, dest)
    requires i < n == |a| <= source.size && n <= dest.size
    requires forall k :: i < k < n ==> source.number[k] == a[k]
    requires Val(dest.number[..i + 1]) + 1 == Val(a[..i + 1])
    requires i > 0 ==> dest.number[i - 1] != 0
    requires forall k :: 0 <= k < i ==> a[k] == 0
    requires a[i] != 0 && dest.number[i] == a[i] - 1
    modifies dest`digitsUsed, dest.number
    ensures dest.Valid() && dest.Value() == Val(a) - 1
    ensures Canonical(a) ==> Canonical(dest.Numeral())
    ensures dest.digitsUsed == Lowered(Val(a), n)
  {
    hide Val, Scale;
    BorrowReachesTop(a, i);
    var lost := dest.number[i] == 0 && i + 1 == n;
    if lost {
      if n == 1 {
        dest.digitsUsed := 1;
      } else {
        dest.digitsUsed := n - 1;
      }
    } else {
      dest.digitsUsed := n;
    }
    CopyRest(source, dest, i + 1, n, a, 1, 0);
    if lost {
      assert dest.number[i] == dest.number[..i + 1][i];
      DropZeroTop(dest.number[..n]);
      assert dest.number[..n][..n - 1] == dest.number[..n - 1];
      assert i > 0 ==> dest.number[i - 1] == dest.number[..i + 1][i - 1];
    } else if i + 1 == n {
      assert dest.number[i] == dest.number[..i + 1][i];
    }
  }

  /** The lowest nonzero digit is the top one and is 1 exactly in a power of the base. */
  lemma BorrowReachesTop(a: seq<Digit>, i: nat)
    requires i < |a| && a[i] != 0 && forall k :: 0 <= k < i ==> a[k] == 0
    ensures Val(a) == Scale(1, |a| - 1) <==> i == |a| - 1 && a[i] == 1
  {
    var n := |a| - 1;
    if i == n {
      AllZero(a[..n]);
      if a[n] > 1 {
        ScaleMonotone(2, a[n], n);
        ScaleAdd(1, 1, n);
        ScaleGrows(n, n);
      }
    } else {
      HasValue(a[..n], i);
      ValBound(a[..n]);
      if a[n] == 0 {
        ScaleZero(n);
      } else {
        ScaleMonotone(1, a[n], n);
      }
    }
  }

  lemma {:induction false} AllZero(a: seq<Digit>)
    requires forall k :: 0 <= k < |a| ==> a[k] == 0
    ensures Val(a) == 0
  {
    if |a| > 0 {
      AllZero(a[..|a| - 1]);
      ScaleZero(|a| - 1);
    }
  }

  lemma {:induction false} HasValue(a: seq<Digit>, i: nat)
    requires i < |a| && a[i] != 0
    ensures Val(a) > 0
  {
    if i == |a| - 1 {
      ValAtLeast(a);
      ScaleGrows(i, i);
    } else {
      HasValue(a[..|a| - 1], i);
    }
  }

  /** A number that is not zero cannot lend from every digit. */
  lemma LastBorrow(r: seq<Digit>, a: seq<Digit>, borrow: nat)
    requires 0 < |r| <= |a| && Val(r) + 1 == Val(a[..|r|]) + Scale(borrow, |r|) && Val(a) > 0
    requires borrow == 1
    ensures |r| < |a|
  {
    assert a[..|a|] == a;
    ValBound(r);
  }
}
