/** Shifts and bitwise or on natural numbers, and a digit string shifted left digit by digit. */
module Shifts {
  import opened Basics
  import opened Digits

  function ShiftUp(x: nat, n: nat): (r: nat)
    decreases n
  {
    if n == 0 then x else ShiftUp(2 * x, n - 1)
  }

  function ShiftDown(x: nat, n: nat): (r: nat)
    decreases n
  {
    if n == 0 then x else ShiftDown(x / 2, n - 1)
  }

  function BitOr(x: nat, y: nat): (r: nat)
  {
    if x == 0 then y else 2 * BitOr(x / 2, y / 2) + (if x % 2 == 1 || y % 2 == 1 then 1 else 0)
  }

  function BitAnd(x: nat, y: nat): (r: nat)
  {
    if x == 0 || y == 0 then 0 else 2 * BitAnd(x / 2, y / 2) + (if x % 2 == 1 && y % 2 == 1 then 1 else 0)
  }

  lemma {:induction false} UpAdd(x: nat, y: nat, n: nat)
    ensures ShiftUp(x + y, n) == ShiftUp(x, n) + ShiftUp(y, n)
    decreases n
  {
    if n > 0 {
      UpAdd(2 * x, 2 * y, n - 1);
    }
  }

  lemma UpMonotone(x: nat, y: nat, n: nat)
    requires x <= y
    ensures ShiftUp(x, n) <= ShiftUp(y, n)
  {
    UpAdd(x, y - x, n);
  }

  lemma UpStrict(x: nat, y: nat, n: nat)
    requires x < y
    ensures ShiftUp(x, n) < ShiftUp(y, n)
  {
    UpAdd(x, y - x, n);
    UpGrows(y - x, n);
  }

  lemma {:induction false} UpGrows(x: nat, n: nat)
    ensures x <= ShiftUp(x, n)
    decreases n
  {
    if n > 0 {
      UpGrows(2 * x, n - 1);
    }
  }

  lemma {:induction false} UpTwice(x: nat, m: nat, n: nat)
    ensures ShiftUp(ShiftUp(x, m), n) == ShiftUp(x, m + n)
    decreases m
  {
    if m > 0 {
      UpTwice(2 * x, m - 1, n);
    }
  }

  lemma {:induction false} UpOut(x: nat, n: nat)
    ensures ShiftUp(x, n + 1) == 2 * ShiftUp(x, n)
    decreases n
  {
    if n > 0 {
      UpOut(2 * x, n - 1);
    }
  }

  lemma {:induction false} UpDigits(x: nat, i: nat)
    ensures Scale(x, i) == ShiftUp(x, 16 * i)
    decreases i
  {
    if i > 0 {
      UpDigits(65536 * x, i - 1);
      UpTwice(x, 16, 16 * (i - 1));
      UpSixteen(x);
    }
  }

  lemma UpSixteen(x: nat)
    ensures ShiftUp(x, 16) == 65536 * x
  {
    UpFour(x, 12);
    UpFour(16 * x, 8);
    UpFour(256 * x, 4);
    UpFour(4096 * x, 0);
  }

  lemma UpFour(x: nat, n: nat)
    ensures ShiftUp(x, n + 4) == ShiftUp(16 * x, n)
  {
    assert ShiftUp(x, n + 4) == ShiftUp(2 * x, n + 3) == ShiftUp(4 * x, n + 2) == ShiftUp(8 * x, n + 1);
  }

  lemma DownFour(x: nat, n: nat)
    ensures ShiftDown(x, n + 4) == ShiftDown(x / 16, n)
  {
    assert ShiftDown(x, n + 4) == ShiftDown(x / 2, n + 3) == ShiftDown(x / 2 / 2, n + 2)
           == ShiftDown(x / 2 / 2 / 2, n + 1);
    assert x / 2 / 2 / 2 / 2 == x / 16;
  }

  lemma DownSixteen(x: nat)
    ensures ShiftDown(x, 16) == x / 65536
  {
    DownFour(x, 12);
    DownFour(x / 16, 8);
    DownFour(x / 16 / 16, 4);
    DownFour(x / 16 / 16 / 16, 0);
    assert x / 16 / 16 / 16 / 16 == x / 65536;
  }

  lemma {:induction false} DownUp(x: nat, n: nat, m: nat)
    requires n <= m
    ensures ShiftDown(ShiftUp(x, n), m) == ShiftDown(x, m - n)
    decreases n
  {
    if n > 0 {
      DownUp(2 * x, n - 1, m);
      assert ShiftDown(2 * x, m - n + 1) == ShiftDown(2 * x / 2, m - n);
    }
  }

  lemma {:induction false} DownBound(x: nat, n: nat, m: nat)
    requires x < ShiftUp(1, n + m)
    ensures ShiftDown(x, m) < ShiftUp(1, n)
    decreases m
  {
    if m > 0 {
      UpOut(1, n + m - 1);
      DownBound(x / 2, n, m - 1);
    }
  }

  /** Or-ing into bits that a left shift left empty is adding. */
  lemma {:induction false} OrIsAdd(x: nat, n: nat, y: nat)
    requires y < ShiftUp(1, n)
    ensures BitOr(ShiftUp(x, n), y) == ShiftUp(x, n) + y
    decreases n
  {
    if n > 0 {
      var z := ShiftUp(x, n - 1);
      UpOut(x, n - 1);
      UpOut(1, n - 1);
      OrIsAdd(x, n - 1, y / 2);
      if z > 0 {
        assert 2 * z / 2 == z;
        assert BitOr(2 * z, y) == 2 * BitOr(z, y / 2) + y % 2;
      }
    } else {
      assert y == 0;
      OrZero(x);
    }
  }

  lemma {:induction false} OrZero(x: nat)
    ensures BitOr(x, 0) == x
  {
    if x > 0 {
      OrZero(x / 2);
    }
  }

  // ---------------------------------------------------------------- one digit

  /** What stays in the digit, and what goes over into the next. */
  function Low(d: Digit, s: nat): (r: Digit)
  {
    ShiftUp(d, s) % 65536
  }

  function High(d: Digit, s: nat): (r: nat)
    requires s <= 16
  {
    ShiftDown(d, 16 - s)
  }

  lemma DigitSplit(d: Digit, s: nat)
    requires s < 16
    ensures Low(d, s) + 65536 * High(d, s) == ShiftUp(d, s)
    ensures High(d, s) < ShiftUp(1, s)
  {
    DownSixteen(ShiftUp(d, s));
    DownUp(d, s, 16);
    UpSixteen(1);
    DownBound(d, s, 16 - s);
  }

  /** The low part of a shifted digit is itself a left shift. */
  lemma LowIsShift(d: Digit, s: nat) returns (x: nat)
    requires s < 16
    ensures Low(d, s) == ShiftUp(x, s)
  {
    DigitSplit(d, s);
    var y := ShiftUp(High(d, s), 16 - s);
    UpTwice(High(d, s), 16 - s, s);
    UpSixteen(High(d, s));
    if d < y {
      UpStrict(d, y, s);
    }
    x := d - y;
    UpAdd(x, y, s);
  }

  /** One digit of the result: its own bits and those from the digit below. */
  lemma DigitJoin(d: Digit, e: Digit, s: nat)
    requires s < 16
    ensures BitOr(Low(d, s), High(e, s)) == Low(d, s) + High(e, s) < 65536
  {
    var x := LowIsShift(d, s);
    DigitSplit(e, s);
    OrIsAdd(x, s, High(e, s));
    LowHasRoom(x, s);
  }

  /** A multiple of a power of two below 65536 leaves room below the next multiple. */
  lemma LowHasRoom(x: nat, s: nat)
    requires s < 16 && ShiftUp(x, s) < 65536
    ensures ShiftUp(x, s) + ShiftUp(1, s) <= 65536
  {
    UpAdd(x, 1, s);
    UpSixteen(1);
    UpTwice(1, 16 - s, s);
    var limit := ShiftUp(1, 16 - s);
    if limit < x + 1 {
      UpMonotone(limit, x, s);
    } else {
      UpMonotone(x + 1, limit, s);
    }
  }

  // ---------------------------------------------------------------- a digit string

  /** Digit `i` of `a` shifted left by `s` bits, `s` less than a digit's width; digit `|a|` is what runs over. */
  function ShiftedDigit(a: seq<Digit>, s: nat, i: nat): (r: Digit)
    requires s < 16 && 0 < |a| && i <= |a|
  {
    if i == |a| then
      DigitSplit(a[i - 1], s);
      ShiftUpZero(s);
      LowHasRoom(0, s);
      High(a[i - 1], s)
    else if i == 0 then
      Low(a[0], s)
    else
      DigitJoin(a[i], a[i - 1], s);
      BitOr(Low(a[i], s), High(a[i - 1], s))
  }

  ghost function RunsOver(a: seq<Digit>, s: nat, i: nat): nat
    requires s < 16 && i <= |a|
  {
    if i == 0 then 0 else High(a[i - 1], s)
  }

  lemma UpScale(x: nat, i: nat, s: nat)
    ensures ShiftUp(Scale(x, i), s) == Scale(ShiftUp(x, s), i)
  {
    UpDigits(x, i);
    UpDigits(ShiftUp(x, s), i);
    UpTwice(x, 16 * i, s);
    UpTwice(x, s, 16 * i);
  }

  lemma DigitShifted(a: seq<Digit>, s: nat, i: nat)
    requires s < 16 && i < |a|
    ensures ShiftedDigit(a, s, i) + 65536 * High(a[i], s) == ShiftUp(a[i], s) + RunsOver(a, s, i)
  {
    DigitSplit(a[i], s);
    if i > 0 {
      DigitJoin(a[i], a[i - 1], s);
    }
  }

  /** The shifted digits stand for the shifted number. */
  lemma {:induction false} ShiftedValue(a: seq<Digit>, s: nat, r: seq<Digit>)
    requires s < 16 && |r| <= |a|
    requires forall k :: 0 <= k < |r| ==> r[k] == ShiftedDigit(a, s, k)
    ensures Val(r) + Scale(RunsOver(a, s, |r|), |r|) == ShiftUp(Val(a[..|r|]), s)
  {
    hide Val, Scale, ShiftUp, ShiftDown, ShiftedDigit;
    var i := |r|;
    if i == 0 {
      NoDigits();
      ShiftUpZero(s);
      assert a[..0] == [] && r == [];
    } else {
      ShiftedValue(a, s, r[..i - 1]);
      ShiftedStep(a, s, r[..i - 1], r[i - 1]);
      assert r[..i - 1] + [r[i - 1]] == r;
    }
  }

  lemma ShiftUpZero(n: nat)
    ensures ShiftUp(0, n) == 0
  {
    UpAdd(0, 0, n);
  }

  lemma ShiftedStep(a: seq<Digit>, s: nat, r: seq<Digit>, d: Digit)
    requires s < 16 && |r| < |a| && d == ShiftedDigit(a, s, |r|)
    requires Val(r) + Scale(RunsOver(a, s, |r|), |r|) == ShiftUp(Val(a[..|r|]), s)
    ensures Val(r + [d]) + Scale(High(a[|r|], s), |r| + 1) == ShiftUp(Val(a[..|r| + 1]), s)
  {
    hide Val, Scale, ShiftUp, ShiftDown, ShiftedDigit;
    var i := |r|;
    DigitShifted(a, s, i);
    ValAppend(r, d);
    ValTake(a, i);
    UpAdd(Val(a[..i]), Scale(a[i], i), s);
    UpScale(a[i], i, s);
    CarryStep(i, d, High(a[i], s), ShiftUp(a[i], s) + RunsOver(a, s, i));
    ScaleAdd(ShiftUp(a[i], s), RunsOver(a, s, i), i);
  }

  /** With the run-over as one more digit, nothing is lost. */
  lemma ShiftedWhole(a: seq<Digit>, s: nat, r: seq<Digit>)
    requires s < 16 && 0 < |a| && |r| == |a| + 1
    requires forall k :: 0 <= k < |r| ==> r[k] == ShiftedDigit(a, s, k)
    ensures Val(r) == ShiftUp(Val(a), s)
  {
    hide Val, Scale, ShiftUp, ShiftDown;
    var n := |a|;
    ShiftedValue(a, s, r[..n]);
    ValAppend(r[..n], r[n]);
    assert r[..n] + [r[n]] == r && a[..n] == a;
  }

  lemma {:induction false} ScaleTwice(x: nat, i: nat, j: nat)
    ensures Scale(Scale(x, i), j) == Scale(x, i + j)
    decreases i
  {
    if i > 0 {
      ScaleTwice(65536 * x, i - 1, j);
    }
  }

  /** Zero digits below move a number up. */
  lemma {:induction false} LowZeros(r: seq<Digit>, n: nat)
    requires n <= |r| && forall k :: 0 <= k < n ==> r[k] == 0
    ensures Val(r) == Scale(Val(r[n..]), n)
  {
    if |r| == 0 {
    } else if n == |r| {
      LowZeros(r[..n - 1], n - 1);
      assert r[n..] == [] && r[..n - 1][n - 1..] == [];
      ScaleZero(n - 1);
      ScaleZero(n);
    } else {
      var m := |r| - 1;
      LowZeros(r[..m], n);
      assert r[n..][..m - n] == r[..m][n..];
      ScaleTwice(r[m], m - n, n);
      ScaleAdd(Val(r[..m][n..]), Scale(r[m], m - n), n);
    }
  }

  /** A nonzero top digit stays nonzero, in the top digit or in what runs over. */
  lemma TopShifted(a: seq<Digit>, s: nat)
    requires s < 16 && 0 < |a| && a[|a| - 1] != 0
    ensures ShiftedDigit(a, s, |a|) != 0 || ShiftedDigit(a, s, |a| - 1) != 0
  {
    DigitShifted(a, s, |a| - 1);
    UpGrows(a[|a| - 1], s);
  }

  // ---------------------------------------------------------------- bits

  /** Masking with one bit tests that bit. */
  lemma {:induction false} MaskTestsBit(x: nat, i: nat)
    ensures BitAnd(x, ShiftUp(1, i)) != 0 <==> ShiftDown(x, i) % 2 == 1
    decreases i
  {
    if i > 0 {
      UpOut(1, i - 1);
      UpGrows(1, i - 1);
      MaskTestsBit(x / 2, i - 1);
      var bit := ShiftUp(1, i - 1);
      assert 2 * bit / 2 == bit;
      if x == 0 {
        DownZero(i);
      }
    } else {
      assert BitAnd(x / 2, 0) == 0;
    }
  }

  lemma {:induction false} DownZero(i: nat)
    ensures ShiftDown(0, i) == 0
  {
    if i > 0 {
      DownZero(i - 1);
    }
  }

  lemma {:induction false} DownOut(x: nat, i: nat)
    ensures ShiftDown(x, i + 1) == ShiftDown(x, i) / 2
    decreases i
  {
    if i > 0 {
      DownOut(x / 2, i - 1);
    }
  }

  lemma {:induction false} UpDown(x: nat, i: nat)
    ensures ShiftUp(ShiftDown(x, i), i) <= x
    decreases i
  {
    if i > 0 {
      UpDown(x / 2, i - 1);
      UpOut(ShiftDown(x, i), i - 1);
    }
  }

  /** The number the low `i` bits of `x` stand for. */
  ghost function LowBits(x: nat, i: nat): nat
  {
    UpDown(x, i);
    x - ShiftUp(ShiftDown(x, i), i)
  }

  lemma NextBit(x: nat, i: nat)
    ensures LowBits(x, i + 1) == LowBits(x, i) + if BitAnd(x, ShiftUp(1, i)) != 0 then ShiftUp(1, i) else 0
  {
    hide ShiftUp, ShiftDown, BitAnd;
    var y := ShiftDown(x, i);
    MaskTestsBit(x, i);
    DownOut(x, i);
    UpTwice(y / 2, 1, i);
    ShiftUpOnce(y / 2);
    UpAdd(2 * (y / 2), y % 2, i);
    ShiftUpZero(i);
    assert y == 2 * (y / 2) + y % 2;
  }

  lemma ShiftUpOnce(x: nat)
    ensures ShiftUp(x, 1) == 2 * x
  {
  }

  lemma AllBits(d: Digit)
    ensures LowBits(d, 0) == 0 && LowBits(d, 16) == d
  {
    DownSixteen(d);
    ShiftUpZero(16);
  }

  lemma {:induction false} UpProduct(x: nat, n: nat)
    ensures ShiftUp(x, n) == Product(x, ShiftUp(1, n))
    decreases n
  {
    if n > 0 {
      UpProduct(2 * x, n - 1);
      UpOut(1, n - 1);
      DoubleProduct(x, ShiftUp(1, n - 1));
    }
  }

  lemma DoubleProduct(x: nat, y: nat)
    ensures Product(2 * x, y) == Product(x, 2 * y)
  {
  }
}
