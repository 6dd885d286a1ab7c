/** Shifting left in place, and multiplication by shift and add. */
module Products {
  import opened Basics
  import opened Digits
  import opened Kernel
  import opened Shifts

  /** The loop of `shift_left`, from the top digit down: digit `k` goes to place `k + offset`, so with
      `result == data` no digit is overwritten before it is used. */
  method ShiftDigits(data: DataRecord, result: DataRecord, s: nat, offset: nat, n: nat, ghost a: seq<Digit>)
    requires data.number.Length == data.size && result.number.Length == result.size && Apart(data, result)
    requires s < 16 && 1 <= n == |a| <= data.size && n + offset < result.size && data.number[..n] == a
    modifies result.number
    ensures forall k :: 0 <= k <= n ==> result.number[k + offset] == ShiftedDigit(a, s, k)
  {
    hide ShiftUp, ShiftDown, ShiftedDigit, BitOr;
    var i := n - 1;
    assert data.number[i] == a[i];
    TopPlace(a, s);
    result.number[n + offset] := High(data.number[i], s);
    while i != 0
      invariant 0 <= i < n
      invariant forall k :: i < k <= n ==> result.number[k + offset] == ShiftedDigit(a, s, k)
      invariant forall k :: 0 <= k <= i ==> data.number[k] == a[k]
    {
      MiddlePlace(a, s, i);
      result.number[i + offset] := BitOr(Low(data.number[i], s), High(data.number[i - 1], s));
      i := i - 1;
    }
    BottomPlace(a, s);
    result.number[offset] := Low(data.number[0], s);
  }

  lemma TopPlace(a: seq<Digit>, s: nat)
    requires s < 16 && 0 < |a|
    ensures ShiftedDigit(a, s, |a|) == High(a[|a| - 1], s)
  {
  }

  lemma MiddlePlace(a: seq<Digit>, s: nat, i: nat)
    requires s < 16 && 0 < i < |a|
    ensures ShiftedDigit(a, s, i) == BitOr(Low(a[i], s), High(a[i - 1], s))
  {
  }

  lemma BottomPlace(a: seq<Digit>, s: nat)
    requires s < 16 && 0 < |a|
    ensures ShiftedDigit(a, s, 0) == Low(a[0], s)
  {
  }

  method ZeroLow(result: DataRecord, offset: nat)
    requires offset <= result.number.Length
    modifies result.number
    ensures forall k :: 0 <= k < offset ==> result.number[k] == 0
    ensures forall k :: offset <= k < result.number.Length ==> result.number[k] == old(result.number[k])
  {
    var r := offset;
    while r != 0
      invariant 0 <= r <= offset
      invariant forall k :: r <= k < offset ==> result.number[k] == 0
      invariant forall k :: offset <= k < result.number.Length ==> result.number[k] == old(result.number[k])
    {
      r := r - 1;
      result.number[r] := 0;
    }
  }

  /** The whole of a shift: `16 * offset + s` bits. */
  lemma ShiftedResult(a: seq<Digit>, s: nat, offset: nat, r: seq<Digit>)
    requires s < 16 && 0 < |a| && |r| == |a| + offset + 1
    requires forall k :: 0 <= k < offset ==> r[k] == 0
    requires forall k :: 0 <= k <= |a| ==> r[k + offset] == ShiftedDigit(a, s, k)
    ensures Val(r) == ShiftUp(Val(a), 16 * offset + s)
  {
    hide Val, Scale, ShiftUp, ShiftedDigit;
    LowZeros(r, offset);
    ShiftedWhole(a, s, r[offset..]);
    UpDigits(ShiftUp(Val(a), s), offset);
    UpTwice(Val(a), s, 16 * offset);
  }

  method ShiftLeft(data: DataRecord, result: DataRecord, shiftAmount: nat)
    requires data.Valid() && result.Valid() && Apart(data, result)
    requires data.digitsUsed + shiftAmount / 16 + 1 <= result.size
    modifies result`digitsUsed, result.number
    ensures result.Valid() && result.Value() == ShiftUp(old(data.Value()), shiftAmount)
    ensures result.digitsUsed == Grown(result.Value(), old(data.digitsUsed) + shiftAmount / 16)
    ensures old(Canonical(data.Numeral())) && (old(data.digitsUsed) > 1 || old(data.number[0]) != 0 || shiftAmount < 16)
            ==> Canonical(result.Numeral())
  {
    hide Val, Scale, ShiftUp, ShiftedDigit;
    var offset, s := shiftAmount / 16, shiftAmount % 16;
    var n := data.digitsUsed;
    ghost var a := data.Numeral();
    ShiftDigits(data, result, s, offset, n, a);
    var top := n + offset;
    ZeroLow(result, offset);
    ghost var r := result.number[..top + 1];
    ShiftedResult(a, s, offset, r);
    TopDigitNonzero(r);
    if a[n - 1] != 0 {
      TopShifted(a, s);
    }
    if result.number[top] == 0 {
      DropZeroTop(r);
      assert r[..top] == result.number[..top];
      assert result.number[top - 1] == ShiftedDigit(a, s, n - 1);
      result.digitsUsed := top;
    } else {
      result.digitsUsed := top + 1;
    }
  }

  // ---------------------------------------------------------------- long multiplication

  /** Where `long_mul` stands after `bits` bits of the shorter operand: `result` is the longer operand times
      `done`, the part of the shorter one seen so far, and `b` is the longer operand shifted by all those bits
      but the last `pending`. `p` and `q` are the operands' digit counts. */
  ghost predicate Multiplying(b: DataRecord, result: DataRecord, x: nat, p: nat, q: nat, bits: nat, pending: nat,
                              done: nat)
    reads b, b.number, result, result.number
  {
    && b.Valid() && result.Valid() && b.number != result.number
    && p + q + 1 <= b.size && p + q <= result.size
    && pending <= bits
    && x < Scale(1, q)
    && b.Value() == ShiftUp(x, bits - pending)
    && result.Value() == Product(x, done)
    && b.digitsUsed <= q + (bits - pending) / 16 + 1
    && result.digitsUsed <= p + q
  }

  /** How many digits `long_mul` ends with, from a state in which the bits `rest` of the shorter operand are still
      to come: `b` has `bd` digits and the result `rd`. */
  ghost function DigitsAhead(rest: nat, x: nat, bits: nat, pending: nat, done: nat, bd: nat, rd: nat): (used: nat)
    decreases rest
  {
    if rest == 0 then
      rd
    else if rest % 2 == 0 then
      DigitsAhead(rest / 2, x, bits + 1, pending + 1, done, bd, rd)
    else
      var bd', done' := Grown(ShiftUp(x, bits), bd + pending / 16), done + ShiftUp(1, bits);
      DigitsAhead(rest / 2, x, bits + 1, 1, done', bd', Grown(Product(x, done'), Longer(bd', rd)))
  }

  /** The digit count of a product: `a` is the operand with fewer digits, `x` the one with `q` digits. */
  ghost function ProductDigits(a: nat, x: nat, q: nat): (used: nat)
  {
    DigitsAhead(a, x, 0, 0, 0, q, 1)
  }

  /** The same for operands in the order in which they are written. */
  ghost function LongDigits(v: nat, k: nat, w: nat, l: nat): (used: nat)
  {
    if k < l then ProductDigits(v, w, l) else ProductDigits(w, v, k)
  }

  lemma BitClear(rest: nat, x: nat, bits: nat, pending: nat, done: nat, bd: nat, rd: nat)
    requires rest % 2 == 0
    ensures DigitsAhead(rest, x, bits, pending, done, bd, rd)
            == DigitsAhead(rest / 2, x, bits + 1, pending + 1, done, bd, rd)
  {
  }

  lemma BitSet(rest: nat, x: nat, bits: nat, pending: nat, done: nat, bd: nat, rd: nat)
    requires rest % 2 == 1
    ensures var bd', done' := Grown(ShiftUp(x, bits), bd + pending / 16), done + ShiftUp(1, bits);
            DigitsAhead(rest, x, bits, pending, done, bd, rd)
            == DigitsAhead(rest / 2, x, bits + 1, 1, done', bd', Grown(Product(x, done'), Longer(bd', rd)))
  {
  }

  /** The bits of the lowest digit of a number come first. */
  lemma BitOfDigit(d: Digit, high: nat, k: nat)
    requires k < 16
    ensures ShiftDown(d + 65536 * high, k) % 2 == 1 <==> BitAnd(d, ShiftUp(1, k)) != 0
  {
    MaskTestsBit(d, k);
    DownSplit(d, high, k);
    UpOut(high, 15 - k);
  }

  lemma {:induction false} DownSplit(d: nat, high: nat, k: nat)
    requires k <= 16
    ensures ShiftDown(d + 65536 * high, k) == ShiftDown(d, k) + ShiftUp(high, 16 - k)
    decreases k
  {
    if k == 0 {
      UpSixteen(high);
    } else {
      DownSplit(d, high, k - 1);
      DownOut(d + 65536 * high, k - 1);
      DownOut(d, k - 1);
      UpOut(high, 16 - k);
    }
  }

  ghost predicate BothCanonical(b: DataRecord, result: DataRecord, x: nat, p: nat)
    reads b, b.number, result, result.number
  {
    b.Valid() && result.Valid() && Canonical(b.Numeral()) && Canonical(result.Numeral()) && (x == 0 ==> p == 1)
  }

  /** A numeral without a leading zero has no more digits than its value forces. */
  lemma DigitsForced(v: nat, x: nat, q: nat, n: nat, digits: nat)
    requires x < Scale(1, q) && v == ShiftUp(x, n) && Scale(1, digits) <= v
    ensures digits <= q + n / 16
  {
    hide Scale, ShiftUp;
    if q + n / 16 < digits {
      UpStrict(x, Scale(1, q), n);
      UpDigits(1, q);
      UpTwice(1, 16 * q, n);
      UpDigits(1, digits);
      UpTwice(1, 16 * q + n, 16 * digits - (16 * q + n));
      UpGrows(ShiftUp(1, 16 * q + n), 16 * digits - (16 * q + n));
    }
  }

  lemma RoomForProduct(x: nat, p: nat, q: nat, done: nat, n: nat)
    requires x < Scale(1, q) && done < Scale(1, p) && Scale(1, n) <= Product(x, done)
    ensures n < p + q
  {
    hide Scale;
    if p + q <= n {
      ScaleGrows(p + q, n);
      ProductMonotone(x, Scale(1, q), done);
      ProductMonotone(done, Scale(1, p), Scale(1, q));
      ScaleProduct(1, Scale(1, p), q);
      ScaleTwice(1, p, q);
      ProductOne(Scale(1, p));
      if x < Scale(1, q) && done < Scale(1, p) {
        ProductStrict(x, Scale(1, q), done, Scale(1, p));
      }
    }
  }

  lemma ProductOne(y: nat)
    ensures Product(1, y) == y
  {
  }

  lemma ProductStrict(x: nat, x': nat, y: nat, y': nat)
    requires x < x' && y < y'
    ensures Product(x, y) < Product(x', y')
  {
    ProductMonotone(x, x' - 1, y);
    ProductMonotone(y, y', x' - 1);
    ProductAdd(x' - 1, 1, y');
    ProductOne(y');
  }

  lemma ProductRight(x: nat, y: nat, z: nat)
    ensures Product(x, y + z) == Product(x, y) + Product(x, z)
  {
  }

  /** A set bit: catch up on the pending shifts, then add. */
  method AddShifted(b: DataRecord, result: DataRecord, ghost x: nat, ghost p: nat, ghost q: nat, ghost bits: nat,
                    pending: nat, ghost done: nat)
    requires Multiplying(b, result, x, p, q, bits, pending, done)
    requires bits < 16 * p && done + ShiftUp(1, bits) < Scale(1, p)
    modifies b`digitsUsed, b.number, result`digitsUsed, result.number
    ensures Multiplying(b, result, x, p, q, bits, 0, done + ShiftUp(1, bits))
    ensures b.digitsUsed == Grown(ShiftUp(x, bits), old(b.digitsUsed) + pending / 16)
    ensures result.digitsUsed
            == Grown(Product(x, done + ShiftUp(1, bits)), Longer(b.digitsUsed, old(result.digitsUsed)))
    ensures old(BothCanonical(b, result, x, p)) ==> BothCanonical(b, result, x, p)
  {
    hide Val, Scale, ShiftUp;
    CatchUp(b, x, p, q, bits, pending);
    UpProduct(x, bits);
    ProductRight(x, done, ShiftUp(1, bits));
    ghost var n := Longer(b.digitsUsed, result.digitsUsed);
    if Scale(1, n) <= b.Value() + result.Value() {
      RoomForProduct(x, p, q, done + ShiftUp(1, bits), n);
    }
    LongAdd(b, result, result);
  }

  method CatchUp(b: DataRecord, ghost x: nat, ghost p: nat, ghost q: nat, ghost bits: nat, pending: nat)
    requires b.Valid() && p + q + 1 <= b.size && pending <= bits < 16 * p
    requires x < Scale(1, q) && b.Value() == ShiftUp(x, bits - pending)
    requires b.digitsUsed <= q + (bits - pending) / 16 + 1
    modifies b`digitsUsed, b.number
    ensures b.Valid() && b.Value() == ShiftUp(x, bits) && b.digitsUsed <= q + bits / 16 + 1
    ensures b.digitsUsed == Grown(b.Value(), old(b.digitsUsed) + pending / 16)
    ensures old(Canonical(b.Numeral())) && (x == 0 ==> p == 1) ==> Canonical(b.Numeral())
  {
    hide Scale, ShiftUp;
    if x > 0 {
      UpGrows(x, bits - pending);
    }
    UpTwice(x, bits - pending, pending);
    ghost var before := b.digitsUsed;
    assert before == 1 ==> b.Value() == b.number[0] by {
      if before == 1 {
        OneDigit(b.number[0]);
        assert b.Numeral() == [b.number[0]];
      }
    }
    ShiftLeft(b, b, pending);
    if b.digitsUsed != before + pending / 16 {
      DigitsForced(b.Value(), x, q, bits, before + pending / 16);
    }
  }

  lemma BitPlace(d: Digit, i: nat, k: nat)
    ensures LowBits(d, k + 1) <= d
    ensures BitAnd(d, ShiftUp(1, k)) != 0 ==>
              Scale(LowBits(d, k + 1), i) == Scale(LowBits(d, k), i) + ShiftUp(1, 16 * i + k)
    ensures BitAnd(d, ShiftUp(1, k)) == 0 ==> LowBits(d, k + 1) == LowBits(d, k)
  {
    hide Scale, ShiftUp, ShiftDown, BitAnd;
    NextBit(d, k);
    ScaleAdd(LowBits(d, k), ShiftUp(1, k), i);
    UpDigits(ShiftUp(1, k), i);
    UpTwice(1, k, 16 * i);
  }

  lemma BitMoves(k: nat)
    requires k < 15
    ensures ShiftUp(1, k + 1) == 2 * ShiftUp(1, k) < 65536
  {
    UpOut(1, k);
    UpSixteen(1);
    UpTwice(1, 15 - k, k + 1);
    UpGrows(2, 14 - k);
    UpStrict(1, ShiftUp(1, 15 - k), k + 1);
  }

  /** One bit of the shorter operand: a clear bit only adds to the pending shifts. */
  method MultiplyByBit(isSet: bool, b: DataRecord, result: DataRecord, pending0: nat, ghost x: nat, ghost p: nat,
                       ghost q: nat, ghost bits: nat, ghost done: nat, ghost rest: nat)
    returns (pending: nat)
    requires Multiplying(b, result, x, p, q, bits, pending0, done)
    requires bits < 16 * p && (isSet ==> done + ShiftUp(1, bits) < Scale(1, p)) && (isSet <==> rest % 2 == 1)
    modifies b`digitsUsed, b.number, result`digitsUsed, result.number
    ensures var done' := if isSet then done + ShiftUp(1, bits) else done;
            && Multiplying(b, result, x, p, q, bits + 1, pending, done')
            && DigitsAhead(rest / 2, x, bits + 1, pending, done', b.digitsUsed, result.digitsUsed)
               == old(DigitsAhead(rest, x, bits, pending0, done, b.digitsUsed, result.digitsUsed))
    ensures old(BothCanonical(b, result, x, p)) ==> BothCanonical(b, result, x, p)
  {
    hide Val, Scale, ShiftUp, DigitsAhead, Grown, Product;
    pending := pending0;
    if isSet {
      BitSet(rest, x, bits, pending, done, b.digitsUsed, result.digitsUsed);
      AddShifted(b, result, x, p, q, bits, pending, done);
      pending := 0;
    } else {
      BitClear(rest, x, bits, pending, done, b.digitsUsed, result.digitsUsed);
    }
    pending := pending + 1;
  }

  /** The sixteen bits of one digit of the shorter operand. */
  method MultiplyByDigit(d: Digit, b: DataRecord, result: DataRecord, pending0: nat, ghost x: nat, ghost p: nat,
                         ghost q: nat, ghost i: nat, ghost low: nat, ghost high: nat)
    returns (pending: nat)
    requires Multiplying(b, result, x, p, q, 16 * i, pending0, low)
    requires i < p && low + Scale(d, i) < Scale(1, p)
    modifies b`digitsUsed, b.number, result`digitsUsed, result.number
    ensures Multiplying(b, result, x, p, q, 16 * (i + 1), pending, low + Scale(d, i))
    ensures DigitsAhead(high, x, 16 * (i + 1), pending, low + Scale(d, i), b.digitsUsed, result.digitsUsed)
            == old(DigitsAhead(d + 65536 * high, x, 16 * i, pending0, low, b.digitsUsed, result.digitsUsed))
    ensures old(BothCanonical(b, result, x, p)) ==> BothCanonical(b, result, x, p)
  {
    hide Val, Scale, ShiftUp, ShiftDown, BitAnd, LowBits, DigitsAhead, Grown, Product, BothCanonical, Multiplying;
    pending := pending0;
    ghost var rest := d + 65536 * high;
    ghost var used := DigitsAhead(rest, x, 16 * i, pending0, low, b.digitsUsed, result.digitsUsed);
    DownNone(rest);
    var bit := 1;
    AllBits(d);
    NoShift();
    ScaleZero(i);
    for k := 0 to 16
      invariant k < 16 ==> bit == ShiftUp(1, k)
      invariant Multiplying(b, result, x, p, q, 16 * i + k, pending, low + Scale(LowBits(d, k), i))
      invariant used
                == DigitsAhead(ShiftDown(rest, k), x, 16 * i + k, pending, low + Scale(LowBits(d, k), i), b.digitsUsed,
                               result.digitsUsed)
      invariant old(BothCanonical(b, result, x, p)) ==> BothCanonical(b, result, x, p)
    {
      BitPlace(d, i, k);
      ScaleMonotone(LowBits(d, k + 1), d, i);
      BitOfDigit(d, high, k);
      DownOut(rest, k);
      pending := MultiplyByBit(BitAnd(d, bit) != 0, b, result, pending, x, p, q, 16 * i + k,
                               low + Scale(LowBits(d, k), i), ShiftDown(rest, k));
      if k < 15 {
        BitMoves(k);
      }
      bit := 2 * bit % 65536;
    }
    DownSixteen(rest);
  }

  lemma DownNone(x: nat)
    ensures ShiftDown(x, 0) == x
  {
  }

  lemma NoShift()
    ensures ShiftUp(1, 0) == 1
  {
  }

  /** `long_mul`: the product, in a record of its own. */
  method LongMul(lhs: DataRecord, rhs: DataRecord, result: DataRecord)
    requires lhs.Valid() && rhs.Valid() && result.Valid()
    requires result.number != lhs.number && result.number != rhs.number && result != lhs && result != rhs
    requires lhs.digitsUsed + rhs.digitsUsed <= result.size
    modifies result`digitsUsed, result.number
    ensures result.Valid() && result.Value() == lhs.Value() * rhs.Value()
    ensures Canonical(lhs.Numeral()) && Canonical(rhs.Numeral()) ==> Canonical(result.Numeral())
    ensures result.digitsUsed <= lhs.digitsUsed + rhs.digitsUsed
    ensures result.digitsUsed == LongDigits(lhs.Value(), lhs.digitsUsed, rhs.Value(), rhs.digitsUsed)
  {
    if lhs.digitsUsed < rhs.digitsUsed {
      MultiplyOrdered(lhs, rhs, result);
    } else {
      MultiplyOrdered(rhs, lhs, result);
    }
  }

  const SLACK: nat := 25

  method MultiplyOrdered(aa: DataRecord, bb: DataRecord, result: DataRecord)
    requires aa.Valid() && bb.Valid() && result.Valid()
    requires result.number != aa.number && result.number != bb.number && result != aa && result != bb
    requires aa.digitsUsed <= bb.digitsUsed && aa.digitsUsed + bb.digitsUsed <= result.size
    modifies result`digitsUsed, result.number
    ensures result.Valid() && result.Value() == Product(bb.Value(), aa.Value())
    ensures Canonical(aa.Numeral()) && Canonical(bb.Numeral()) ==> Canonical(result.Numeral())
    ensures result.digitsUsed <= aa.digitsUsed + bb.digitsUsed
    ensures result.digitsUsed == ProductDigits(aa.Value(), bb.Value(), bb.digitsUsed)
  {
    hide Val, Scale, DigitsAhead, Product, Multiplying;
    result.digitsUsed := 1;
    result.number[0] := 0;
    var b := new DataRecord.Copy(bb, aa.digitsUsed + SLACK);
    StartProduct(b, result, bb.Value(), aa.digitsUsed, bb.digitsUsed);
    if Canonical(bb.Numeral()) && bb.Value() == 0 {
      ZeroIsShort(bb.Numeral());
    }
    MultiplyByDigits(aa, b, result, bb.Value(), bb.digitsUsed);
  }

  /** The digits of the shorter operand, least significant first. */
  method MultiplyByDigits(aa: DataRecord, b: DataRecord, result: DataRecord, ghost x: nat, ghost q: nat)
    requires aa.Valid() && aa != b && aa != result && aa.number != b.number && aa.number != result.number
    requires Multiplying(b, result, x, aa.digitsUsed, q, 0, 0, 0) && b.digitsUsed == q && result.digitsUsed == 1
    modifies b`digitsUsed, b.number, result`digitsUsed, result.number
    ensures result.Valid() && result.Value() == Product(x, aa.Value())
    ensures result.digitsUsed <= aa.digitsUsed + q
    ensures result.digitsUsed == ProductDigits(aa.Value(), x, q)
    ensures old(BothCanonical(b, result, x, aa.digitsUsed)) ==> Canonical(result.Numeral())
  {
    hide Val, Scale, DigitsAhead, Product, Multiplying, BothCanonical;
    ghost var a, p := aa.Numeral(), aa.digitsUsed;
    var pending, i := 0, 0;
    assert a[..0] == [] && a[0..] == a;
    NoDigits();
    while i != aa.digitsUsed
      invariant 0 <= i <= p == aa.digitsUsed && aa.number[..p] == a
      invariant Multiplying(b, result, x, p, q, 16 * i, pending, Val(a[..i]))
      invariant DigitsAhead(Val(a[i..]), x, 16 * i, pending, Val(a[..i]), b.digitsUsed, result.digitsUsed)
                == ProductDigits(Val(a), x, q)
      invariant old(BothCanonical(b, result, x, p)) ==> BothCanonical(b, result, x, p)
    {
      ValTake(a, i);
      PrefixBound(a, i + 1);
      ValHead(a[i..]);
      assert a[i..][1..] == a[i + 1..];
      pending := MultiplyByDigit(aa.number[i], b, result, pending, x, p, q, i, Val(a[..i]), Val(a[i + 1..]));
      i := i + 1;
    }
    assert a[..p] == a && a[p..] == [];
    NoBitsAhead(x, 16 * p, pending, Val(a), b.digitsUsed, result.digitsUsed);
    Multiplied(b, result, x, p, q, 16 * p, pending, Val(a));
    CanonicalResult(b, result, x, p);
  }

  lemma CanonicalResult(b: DataRecord, result: DataRecord, x: nat, p: nat)
    ensures BothCanonical(b, result, x, p) ==> result.Valid() && Canonical(result.Numeral())
  {
  }

  lemma NoBitsAhead(x: nat, bits: nat, pending: nat, done: nat, bd: nat, rd: nat)
    ensures DigitsAhead(0, x, bits, pending, done, bd, rd) == rd
  {
  }

  lemma Multiplied(b: DataRecord, result: DataRecord, x: nat, p: nat, q: nat, bits: nat, pending: nat, done: nat)
    requires Multiplying(b, result, x, p, q, bits, pending, done)
    ensures b.Valid() && result.Valid() && result.Value() == Product(x, done) && result.digitsUsed <= p + q
  {
  }

  lemma PrefixBound(a: seq<Digit>, i: nat)
    requires i <= |a|
    ensures Val(a[..i]) < Scale(1, |a|)
  {
    ValBound(a[..i]);
    ScaleGrows(i, |a|);
  }

  lemma StartProduct(b: DataRecord, result: DataRecord, x: nat, p: nat, q: nat)
    requires b.Valid() && result.Valid() && b.number != result.number && b.Value() == x
    requires p + q + 1 <= b.size && p + q <= result.size && 1 <= p
    requires b.digitsUsed == q && result.Numeral() == [0]
    ensures Multiplying(b, result, x, p, q, 0, 0, 0)
  {
    OneDigit(0);
    NoDigits();
    ValBound(b.Numeral());
    ProductZero(x);
  }

  // ---------------------------------------------------------------- no leading zeros in, none out

  /** `v` needs all of `k` digits, or there is only one. */
  ghost predicate Needed(v: nat, k: nat)
  {
    k == 1 || (k > 1 && Scale(1, k - 1) <= v)
  }

  /** Shifting up by whole digits and some bits keeps the top digit nonzero. */
  lemma ShiftNeeds(v: nat, bd: nat, pending: nat)
    requires bd >= 1 && Scale(1, bd - 1) <= v
    ensures Scale(1, bd + pending / 16 - 1) <= ShiftUp(v, pending)
  {
    hide Scale, ShiftUp;
    var whole := pending / 16;
    UpMonotone(Scale(1, bd - 1), v, pending);
    UpTwice(Scale(1, bd - 1), 16 * whole, pending - 16 * whole);
    UpGrows(ShiftUp(Scale(1, bd - 1), 16 * whole), pending - 16 * whole);
    UpDigits(Scale(1, bd - 1), whole);
    ScaleTwice(1, bd - 1, whole);
  }

  lemma GrownNeeds(v: nat, k: nat)
    requires k >= 1 && (k == 1 || Scale(1, k - 1) <= v)
    ensures Needed(v, Grown(v, k))
  {
  }

  /** While a zero operand has one digit, the other has at most sixteen bits. */
  lemma FewBits(bits: nat, pending: nat)
    requires pending <= bits && ShiftUp(1, bits) < 65536
    ensures pending / 16 == 0
  {
    if bits >= 16 {
      UpSixteen(1);
      UpTwice(1, 16, bits - 16);
      UpGrows(65536, bits - 16);
    }
  }

  lemma {:induction false} NeededAhead(rest: nat, x: nat, bits: nat, pending: nat, done: nat, bd: nat, rd: nat)
    requires pending <= bits && Needed(Product(x, done), rd)
    requires if x == 0 then bd == rd == 1 && ShiftUp(rest, bits) < 65536
             else bd >= 1 && Scale(1, bd - 1) <= ShiftUp(x, bits - pending)
    ensures Needed(Product(x, done + ShiftUp(rest, bits)), DigitsAhead(rest, x, bits, pending, done, bd, rd))
    decreases rest
  {
    hide Scale, Product, ShiftUp;
    if rest == 0 {
      ShiftUpZero(bits);
    } else if rest % 2 == 0 {
      UpHalf(rest / 2, bits);
      NeededAhead(rest / 2, x, bits + 1, pending + 1, done, bd, rd);
    } else {
      UpHalf(rest / 2, bits);
      UpAdd(2 * (rest / 2), 1, bits);
      var bd', done' := Grown(ShiftUp(x, bits), bd + pending / 16), done + ShiftUp(1, bits);
      SetBitNeeded(x, bits, pending, done, bd, rd);
      NeededAhead(rest / 2, x, bits + 1, 1, done', bd', Grown(Product(x, done'), Longer(bd', rd)));
    }
  }

  lemma UpHalf(half: nat, bits: nat)
    ensures ShiftUp(2 * half, bits) == ShiftUp(half, bits + 1)
  {
  }

  lemma SetBitNeeded(x: nat, bits: nat, pending: nat, done: nat, bd: nat, rd: nat)
    requires pending <= bits && Needed(Product(x, done), rd)
    requires if x == 0 then bd == rd == 1 && ShiftUp(1, bits) < 65536
             else bd >= 1 && Scale(1, bd - 1) <= ShiftUp(x, bits - pending)
    ensures var bd', done' := Grown(ShiftUp(x, bits), bd + pending / 16), done + ShiftUp(1, bits);
            var rd' := Grown(Product(x, done'), Longer(bd', rd));
            && Needed(Product(x, done'), rd')
            && if x == 0 then bd' == rd' == 1 else bd' >= 1 && Scale(1, bd' - 1) <= ShiftUp(x, bits)
  {
    hide Scale, Product, ShiftUp;
    var done' := done + ShiftUp(1, bits);
    if x == 0 {
      FewBits(bits, pending);
      ShiftUpZero(bits);
      ProductZeroLeft(done');
      ScaleGrows(1, 1);
    } else {
      UpTwice(x, bits - pending, pending);
      ShiftNeeds(ShiftUp(x, bits - pending), bd, pending);
      UpProduct(x, bits);
      ProductRight(x, done, ShiftUp(1, bits));
      GrownNeeds(Product(x, done'), Longer(Grown(ShiftUp(x, bits), bd + pending / 16), rd));
    }
  }

  /** The product of two numbers without leading zeros has none. */
  lemma ProductNeeded(a: nat, p: nat, x: nat, q: nat)
    requires a < Scale(1, p) && Needed(a, p) && x < Scale(1, q) && Needed(x, q) && p <= q
    ensures Needed(Product(x, a), ProductDigits(a, x, q))
  {
    hide Product;
    ProductZero(x);
    NoDigits();
    if x == 0 && q > 1 {
      ScaleGrows(q - 1, q - 1);
    }
    assert ShiftUp(a, 0) == a && ShiftUp(x, 0) == x;
    assert Scale(1, 1) == 65536;
    NeededAhead(a, x, 0, 0, 0, q, 1);
  }

  lemma GrownFits(v: nat, k: nat)
    requires v < Scale(1, k + 1)
    ensures v < Scale(1, Grown(v, k))
  {
  }

  lemma SumFits(v: nat, k: nat, w: nat, l: nat)
    requires v < Scale(1, k) && w < Scale(1, l)
    ensures v + w < Scale(1, Grown(v + w, Longer(k, l)))
  {
    hide Scale;
    var m := Longer(k, l);
    ScaleGrows(k, m);
    ScaleGrows(l, m);
    ScaleOut(1, m + 1);
    GrownFits(v + w, m);
  }

  lemma ShiftFits(v: nat, bd: nat, pending: nat)
    requires v < Scale(1, bd)
    ensures ShiftUp(v, pending) < Scale(1, Grown(ShiftUp(v, pending), bd + pending / 16))
  {
    hide Scale, ShiftUp;
    var more := 16 * (pending / 16 + 1);
    UpStrict(v, Scale(1, bd), pending);
    UpTwice(Scale(1, bd), pending, more - pending);
    UpGrows(ShiftUp(Scale(1, bd), pending), more - pending);
    UpDigits(Scale(1, bd), pending / 16 + 1);
    ScaleTwice(1, bd, pending / 16 + 1);
    GrownFits(ShiftUp(v, pending), bd + pending / 16);
  }

  lemma {:induction false} FitsAhead(rest: nat, x: nat, bits: nat, pending: nat, done: nat, bd: nat, rd: nat)
    requires pending <= bits && Product(x, done) < Scale(1, rd) && ShiftUp(x, bits - pending) < Scale(1, bd)
    ensures Product(x, done + ShiftUp(rest, bits)) < Scale(1, DigitsAhead(rest, x, bits, pending, done, bd, rd))
    decreases rest
  {
    hide Scale, Product, ShiftUp, Grown;
    if rest == 0 {
      ShiftUpZero(bits);
    } else if rest % 2 == 0 {
      UpHalf(rest / 2, bits);
      FitsAhead(rest / 2, x, bits + 1, pending + 1, done, bd, rd);
    } else {
      UpHalf(rest / 2, bits);
      UpAdd(2 * (rest / 2), 1, bits);
      var bd', done' := Grown(ShiftUp(x, bits), bd + pending / 16), done + ShiftUp(1, bits);
      UpTwice(x, bits - pending, pending);
      ShiftFits(ShiftUp(x, bits - pending), bd, pending);
      UpProduct(x, bits);
      ProductRight(x, done, ShiftUp(1, bits));
      SumFits(ShiftUp(x, bits), bd', Product(x, done), rd);
      FitsAhead(rest / 2, x, bits + 1, 1, done', bd', Grown(Product(x, done'), Longer(bd', rd)));
    }
  }

  lemma ProductFits(a: nat, x: nat, q: nat)
    requires x < Scale(1, q)
    ensures Product(x, a) < Scale(1, ProductDigits(a, x, q))
  {
    hide Product;
    ProductZero(x);
    ScaleGrows(1, 1);
    assert ShiftUp(a, 0) == a && ShiftUp(x, 0) == x;
    FitsAhead(a, x, 0, 0, 0, q, 1);
  }
}
