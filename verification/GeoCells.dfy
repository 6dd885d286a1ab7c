/** Points to cells and back: `geohashEncode`, `geohashDecode` and `geohashAlign52Bits` over the reals. */
module GeoCells {
  import opened Basics
  import opened Geohash

  function Pow2(n: nat): (r: nat)
    ensures r > 0
  {
    if n == 0 then 1 else 2 * Pow2(n - 1)
  }

  /** The machine word `k` counts as far as the number `n`. */
  predicate Counts(n: nat, k: bv64)
  {
    if n == 0 then k == 0 else k != 0 && Counts(n - 1, k - 1)
  }

  function Plus(k: bv64, l: bv64): (r: bv64)
  {
    k + l
  }

  predicate Small(k: bv64)
  {
    k <= 64
  }

  lemma {:induction false} CountsAdd(n: nat, k: bv64, m: nat, l: bv64)
    requires Counts(n, k) && Counts(m, l) && Small(k) && Small(l)
    ensures Counts(n + m, Plus(k, l))
    decreases m
  {
    hide Counts, Plus, Small;
    if m == 0 {
      NothingCounted(k, l);
    } else {
      var l' := CountDown(m, l);
      CountsAdd(n, k, m - 1, l');
      CountUp(n + m - 1, k, l, l');
    }
  }

  lemma NothingCounted(k: bv64, l: bv64)
    requires Counts(0, l)
    ensures Plus(k, l) == k
  {
  }

  lemma CountDown(m: nat, l: bv64) returns (l': bv64)
    requires m > 0 && Counts(m, l) && Small(l)
    ensures l != 0 && l' == l - 1 && Counts(m - 1, l') && Small(l')
  {
    l' := l - 1;
  }

  lemma CountUp(n: nat, k: bv64, l: bv64, l': bv64)
    requires Small(k) && Small(l) && l != 0 && l' == l - 1 && Counts(n, Plus(k, l'))
    ensures Counts(n + 1, Plus(k, l))
  {
    assert k + l != 0 && k + l - 1 == k + l';
  }

  lemma ThirtyTwo()
    ensures Counts(32, 32)
  {
    hide Counts;
    OneCounts();
    CountsAdd(1, 1, 1, 1);
    CountsAdd(2, 2, 2, 2);
    CountsAdd(4, 4, 4, 4);
    CountsAdd(8, 8, 8, 8);
    CountsAdd(16, 16, 16, 16);
  }

  lemma OneCounts()
    ensures Counts(1, 1)
  {
  }

  // ---------------------------------------------------------------- numbers and words

  function Push(a: bv64, bit: bool): (r: bv64)
  {
    (a << 1) | (if bit then 1 else 0)
  }

  function LowBit(a: bv64): (b: bool)
  {
    a & 1 == 1
  }

  predicate Narrow(a: bv64, k: bv64)
  {
    k <= 32 && a <= (1 << k) - 1
  }

  /** The `n` low bits of `x` as a word. */
  function ToWord(x: nat, n: nat): (r: bv64)
  {
    if n == 0 then 0 else Push(ToWord(x / 2, n - 1), x % 2 == 1)
  }

  /** The number the `n` low bits of `a` stand for. */
  function ToNumber(a: bv64, n: nat): (x: nat)
  {
    if n == 0 then 0 else 2 * ToNumber(Down(a), n - 1) + (if LowBit(a) then 1 else 0)
  }

  lemma PushFits(a: bv64, bit: bool, k: bv64)
    requires 1 <= k <= 32 && Narrow(a, k - 1)
    ensures Narrow(Push(a, bit), k)
  {
  }

  lemma PushThenDown(a: bv64, bit: bool, k: bv64)
    requires Narrow(a, k)
    ensures Down(Push(a, bit)) == a && LowBit(Push(a, bit)) == bit
  {
  }

  lemma ZeroNarrow()
    ensures Narrow(0, 0)
  {
  }

  lemma {:induction false} ToWordNarrow(x: nat, n: nat, k: bv64)
    requires Counts(n, k) && k <= 32
    ensures Narrow(ToWord(x, n), k)
  {
    hide Push, Narrow;
    if n == 0 {
      ZeroNarrow();
    } else {
      ToWordNarrow(x / 2, n - 1, k - 1);
      PushFits(ToWord(x / 2, n - 1), x % 2 == 1, k);
    }
  }

  /** Halving a number shifts its word. */
  lemma ToWordDown(x: nat, n: nat, k: bv64)
    requires 1 <= n && Counts(n, k) && k <= 32
    ensures Down(ToWord(x, n)) == ToWord(x / 2, n - 1) && LowBit(ToWord(x, n)) == (x % 2 == 1)
  {
    hide Push, Narrow, Down, LowBit;
    ToWordNarrow(x / 2, n - 1, k - 1);
    PushThenDown(ToWord(x / 2, n - 1), x % 2 == 1, k - 1);
  }

  lemma {:induction false} NumberOfWord(x: nat, n: nat, k: bv64)
    requires x < Pow2(n) && Counts(n, k) && k <= 32
    ensures ToNumber(ToWord(x, n), n) == x
  {
    hide Push, Down, LowBit, ToWord;
    if n > 0 {
      ToWordDown(x, n, k);
      NumberOfWord(x / 2, n - 1, k - 1);
    }
  }

  lemma DownNarrow(a: bv64, k: bv64)
    requires 1 <= k && Narrow(a, k)
    ensures Narrow(Down(a), k - 1)
  {
  }

  lemma DownPush(a: bv64)
    requires IsWord(a)
    ensures Push(Down(a), LowBit(a)) == a
  {
  }

  lemma NarrowWord(a: bv64, k: bv64)
    requires Narrow(a, k)
    ensures IsWord(a)
  {
  }

  lemma NarrowZero(a: bv64)
    requires Narrow(a, 0)
    ensures a == 0
  {
  }

  lemma {:induction false} WordOfNumber(a: bv64, n: nat, k: bv64)
    requires Narrow(a, k) && Counts(n, k)
    ensures ToWord(ToNumber(a, n), n) == a
    decreases n
  {
    hide Push, Down, LowBit, Narrow, IsWord;
    if n == 0 {
      NarrowZero(a);
    } else {
      DownNarrow(a, k);
      NarrowWord(a, k);
      DownPush(a);
      WordOfNumber(Down(a), n - 1, k - 1);
    }
  }

  lemma {:induction false} NumberBound(a: bv64, n: nat)
    ensures ToNumber(a, n) < Pow2(n)
    decreases n
  {
    hide Down, LowBit;
    if n > 0 {
      NumberBound(Down(a), n - 1);
    }
  }

  lemma WordIsWord(x: nat)
    ensures IsWord(ToWord(x, 32))
  {
    hide ToWord, IsWord, Narrow, Counts;
    ThirtyTwo();
    ToWordNarrow(x, 32, 32);
    NarrowIsWord(ToWord(x, 32));
  }

  lemma NarrowIsWord(a: bv64)
    ensures Narrow(a, 32) <==> IsWord(a)
  {
  }

  // ---------------------------------------------------------------- moves as arithmetic

  /** The `k` low bits set. */
  function Ones(k: bv64): (m: bv64)
    requires k <= 32
  {
    (1 << k) - 1
  }

  lemma MaskIsOnes(step: bv64)
    requires IsStep(step)
    ensures Mask(step) == Ones(step)
  {
  }

  lemma KeepStep(v: bv64, k: bv64)
    requires 1 <= k <= 32
    ensures Down(Keep(v, Ones(k))) == Keep(Down(v), Ones(k - 1)) && LowBit(Keep(v, Ones(k))) == LowBit(v)
  {
  }

  function Plus1(v: bv64): (r: bv64)
  {
    v + ONE
  }

  lemma PlusBit(v: bv64)
    requires IsWord(v)
    ensures LowBit(Plus1(v)) == !LowBit(v) && Down(Plus1(v)) == if LowBit(v) then Plus1(Down(v)) else Down(v)
  {
  }

  lemma KeepNone(v: bv64)
    ensures Keep(v, Ones(0)) == 0
  {
  }

  lemma {:induction false} ZeroNumber(m: nat)
    ensures ToNumber(0, m) == 0
  {
    if m > 0 {
      ZeroNumber(m - 1);
      assert Down(0) == 0 && !LowBit(0);
    }
  }

  lemma ModOne(x: nat)
    ensures Remainder(x, Pow2(0)) == 0
  {
  }

  lemma ModTwice(h: nat, p: nat, b: nat)
    requires p > 0 && b < 2
    ensures Remainder(2 * h + b, 2 * p) == 2 * Remainder(h, p) + b
  {
    hide Quotient, Remainder, Product;
    var q, r := Quotient(h, p), Remainder(h, p);
    DivMod(h, p);
    ProductDoubled(p, q);
    QuotientIs(2 * h + b, 2 * p, q, 2 * r + b);
  }

  lemma ProductDoubled(p: nat, q: nat)
    ensures Product(q, 2 * p) == 2 * Product(q, p)
  {
  }

  /** Keeping the low bits is taking the remainder. */
  lemma {:induction false} KeepIsRemainder(v: bv64, m: nat, n: nat, k: bv64)
    requires IsWord(v) && n <= m && Counts(n, k) && k <= 32
    ensures ToNumber(Keep(v, Ones(k)), m) == Remainder(ToNumber(v, m), Pow2(n))
    decreases n
  {
    hide Keep, Ones, Down, LowBit, IsWord, ToNumber, Pow2, Remainder;
    if n == 0 {
      KeepNone(v);
      ZeroNumber(m);
      ModOne(ToNumber(v, m));
    } else {
      KeepStep(v, k);
      DownIsWord(v);
      Pow2Next(n - 1);
      OneBit(v, m);
      OneBit(Keep(v, Ones(k)), m);
      KeepIsRemainder(Down(v), m - 1, n - 1, k - 1);
      ModTwice(ToNumber(Down(v), m - 1), Pow2(n - 1), Bit(LowBit(v)));
    }
  }

  lemma {:induction false} PlusIsModular(v: bv64, m: nat, n: nat, k: bv64)
    requires IsWord(v) && n <= m && Counts(n, k) && k <= 32
    ensures ToNumber(Keep(Plus1(v), Ones(k)), m) == Remainder(ToNumber(v, m) + 1, Pow2(n))
    decreases n
  {
    hide Keep, Ones, Down, LowBit, IsWord, Plus1, ToNumber, Pow2, Remainder;
    if n == 0 {
      KeepNone(Plus1(v));
      ZeroNumber(m);
      ModOne(ToNumber(v, m) + 1);
    } else {
      KeepStep(Plus1(v), k);
      PlusBit(v);
      DownIsWord(v);
      Pow2Next(n - 1);
      OneBit(v, m);
      OneBit(Keep(Plus1(v), Ones(k)), m);
      var h := ToNumber(Down(v), m - 1);
      if LowBit(v) {
        PlusIsModular(Down(v), m - 1, n - 1, k - 1);
        ModTwice(h + 1, Pow2(n - 1), 0);
      } else {
        KeepIsRemainder(Down(v), m - 1, n - 1, k - 1);
        ModTwice(h, Pow2(n - 1), 1);
      }
    }
  }

  lemma TurnIsPlus(v: bv64, m: bv64)
    ensures Turn(v, ONE, m) == Keep(Plus1(v), m)
  {
    hide Keep;
  }

  lemma KeepAll(v: bv64, m: bv64)
    requires IsOnes(m) && AtMost(v, m)
    ensures Keep(v, m) == v && IsWord(v)
  {
  }

  /** A coordinate in the grid is below the number of cells a side, and one step up is adding one modulo that. */
  lemma TurnUp(v: bv64, step: bv64, n: nat)
    requires IsStep(step) && Counts(n, step) && n <= 32 && AtMost(v, Mask(step))
    ensures ToNumber(v, 32) < Pow2(n)
    ensures ToNumber(Turn(v, ONE, Mask(step)), 32) == (ToNumber(v, 32) + 1) % Pow2(n)
  {
    hide ToNumber, Mask, MaskX, MaskY, Ones, Counts, Pow2, Turn, Keep, Plus1, IsOnes, AtMost, IsWord;
    Masks(step);
    MaskIsOnes(step);
    KeepAll(v, Mask(step));
    KeepIsRemainder(v, 32, n, step);
    PlusIsModular(v, 32, n, step);
    TurnIsPlus(v, Mask(step));
  }

  lemma OneBack(a: nat, b: nat, p: nat)
    requires a < p && b == (a + 1) % p
    ensures a == (b - 1) % p
  {
    if a + 1 == p {
      assert b == 0;
      DivisionIs(-1, p, -1, p - 1);
    } else {
      SmallRemainder(a + 1, p);
      SmallRemainder(a, p);
    }
  }

  lemma TurnDown(v: bv64, step: bv64, n: nat)
    requires IsStep(step) && Counts(n, step) && n <= 32 && AtMost(v, Mask(step))
    ensures ToNumber(Turn(v, MINUS_ONE, Mask(step)), 32) == (ToNumber(v, 32) - 1) % Pow2(n)
  {
    hide ToNumber, Mask, MaskX, MaskY, Counts, Pow2, Turn, IsOnes, AtMost;
    Masks(step);
    var u := Turn(v, MINUS_ONE, Mask(step));
    Turned(v, MINUS_ONE, Mask(step));
    OneForthAndBack(v, Mask(step));
    TurnUp(u, step, n);
    OneBack(ToNumber(u, 32), ToNumber(v, 32), Pow2(n));
  }

  /** What a unit move of the coordinates is as a number. */
  function Unit(d: bv64): (i: int)
  {
    if d == ONE then 1 else if d == MINUS_ONE then -1 else 0
  }

  lemma TurnIsModular(v: bv64, step: bv64, n: nat, d: bv64)
    requires IsStep(step) && Counts(n, step) && n <= 32 && AtMost(v, Mask(step)) && UnitMove(d)
    ensures ToNumber(Turn(v, d, Mask(step)), 32) == (ToNumber(v, 32) + Unit(d)) % Pow2(n)
  {
    hide ToNumber, Mask, MaskX, MaskY, Counts, Pow2, Turn, IsOnes, AtMost;
    Masks(step);
    Turned(v, 0, Mask(step));
    TurnUp(v, step, n);
    TurnDown(v, step, n);
    SmallRemainder(ToNumber(v, 32), Pow2(n));
  }

  /** A move by one cell adds its unit to the cell number, modulo `2^step`, and touches the other number only if it
      moves that as well. */
  lemma MovesAreModular(bits: bv64, step: bv64, n: nat, dx: bv64, dy: bv64)
    requires InGrid(bits, step) && Counts(n, step) && n <= 32 && UnitMove(dx) && UnitMove(dy)
    ensures var moved := Shifted(bits, step, dx, dy);
            && ToNumber(Lon(moved), 32) == (ToNumber(Lon(bits), 32) + Unit(dx)) % Pow2(n)
            && ToNumber(Lat(moved), 32) == (ToNumber(Lat(bits), 32) + Unit(dy)) % Pow2(n)
  {
    hide ToNumber, Mask, Counts, Pow2, Turn, AtMost, Shifted, Lat, Lon, Unit, UnitMove, Fits;
    InGridCoordinates(bits, step);
    ShiftedCoordinates(bits, step, dx, dy);
    TurnIsModular(Lon(bits), step, n, dx);
    TurnIsModular(Lat(bits), step, n, dy);
  }

  // ---------------------------------------------------------------- interleaving as a number

  /** The `n` low bits of `x` and of `y`, alternating, as a number. */
  function Morton(x: nat, y: nat, n: nat): (r: nat)
  {
    if n == 0 then 0 else x % 2 + 2 * (y % 2) + 4 * Morton(x / 2, y / 2, n - 1)
  }

  lemma InterleaveLow(a: bv64, b: bv64)
    requires IsWord(a) && IsWord(b)
    ensures LowBit(Interleave64(a, b)) == LowBit(a) && LowBit(Down(Interleave64(a, b))) == LowBit(b)
  {
  }

  lemma InterleaveDown(a: bv64, b: bv64)
    requires IsWord(a) && IsWord(b)
    ensures Down(Down(Interleave64(a, b))) == Interleave64(Down(a), Down(b))
  {
  }

  lemma DownIsWord(a: bv64)
    requires IsWord(a)
    ensures IsWord(Down(a))
  {
  }

  function Bit(b: bool): (n: nat)
  {
    if b then 1 else 0
  }

  lemma OneBit(c: bv64, n: nat)
    requires n > 0
    ensures ToNumber(c, n) == 2 * ToNumber(Down(c), n - 1) + Bit(LowBit(c))
  {
  }

  lemma {:induction false} InterleaveNumber(a: bv64, b: bv64, n: nat)
    requires IsWord(a) && IsWord(b)
    ensures ToNumber(Interleave64(a, b), 2 * n) == Morton(ToNumber(a, n), ToNumber(b, n), n)
    decreases n
  {
    hide Interleave64, Down, LowBit, IsWord, ToNumber;
    if n == 0 {
      NoBits(Interleave64(a, b));
    } else {
      var c := Interleave64(a, b);
      InterleaveLow(a, b);
      InterleaveDown(a, b);
      DownIsWord(a);
      DownIsWord(b);
      InterleaveNumber(Down(a), Down(b), n - 1);
      OneBit(c, 2 * n);
      OneBit(Down(c), 2 * n - 1);
      OneBit(a, n);
      OneBit(b, n);
    }
  }

  lemma NoBits(c: bv64)
    ensures ToNumber(c, 0) == 0
  {
  }

  /** The interleaved word of two numbers below `2^32`. */
  function Code(x: nat, y: nat): (r: bv64)
  {
    Interleave64(ToWord(x, 32), ToWord(y, 32))
  }

  lemma CodeNumber(x: nat, y: nat)
    requires x < Pow2(32) && y < Pow2(32)
    ensures ToNumber(Code(x, y), 64) == Morton(x, y, 32)
    ensures ToNumber(Lat(Code(x, y)), 32) == x && ToNumber(Lon(Code(x, y)), 32) == y
  {
    hide Interleave64, ToWord, ToNumber, Lat, Lon, IsWord, Morton, Counts, Pow2;
    ThirtyTwo();
    WordIsWord(x);
    WordIsWord(y);
    NumberOfWord(x, 32, 32);
    NumberOfWord(y, 32, 32);
    InterleaveNumber(ToWord(x, 32), ToWord(y, 32), 32);
    DeinterleaveInverts(ToWord(x, 32), ToWord(y, 32));
  }

  lemma {:induction false} MortonWider(x: nat, y: nat, n: nat)
    requires x < Pow2(n) && y < Pow2(n)
    ensures Morton(x, y, n + 1) == Morton(x, y, n)
  {
    if n > 0 {
      MortonWider(x / 2, y / 2, n - 1);
    }
  }

  function Pow4(n: nat): (r: nat)
    ensures r > 0
  {
    if n == 0 then 1 else 4 * Pow4(n - 1)
  }

  /** Dropping the low bits of both coordinates drops twice as many of the code. */
  lemma {:induction false} MortonPrefix(x: nat, y: nat, n: nat, k: nat)
    requires x < Pow2(n) && y < Pow2(n)
    ensures Quotient(x, Pow2(k)) < Pow2(n) && Quotient(y, Pow2(k)) < Pow2(n)
    ensures Morton(Quotient(x, Pow2(k)), Quotient(y, Pow2(k)), n) == Quotient(Morton(x, y, n), Pow4(k))
  {
    hide Quotient, Morton;
    if k == 0 {
      ByOne(x);
      ByOne(y);
      ByOne(Morton(x, y, n));
    } else {
      MortonPrefix(x, y, n, k - 1);
      DivideMore(x, Pow2(k - 1), 2);
      DivideMore(y, Pow2(k - 1), 2);
      MortonHalf(Quotient(x, Pow2(k - 1)), Quotient(y, Pow2(k - 1)), n);
      DivideMore(Morton(x, y, n), Pow4(k - 1), 4);
    }
  }

  lemma ByOne(x: nat)
    ensures Quotient(x, 1) == x
  {
  }

  lemma MortonHalf(x: nat, y: nat, n: nat)
    requires x < Pow2(n) && y < Pow2(n)
    ensures x / 2 < Pow2(n) && y / 2 < Pow2(n)
    ensures Morton(x / 2, y / 2, n) == Morton(x, y, n) / 4
  {
    hide Morton;
    if n == 0 {
      NoMorton(x, y);
      NoMorton(x / 2, y / 2);
    } else {
      MortonWider(x / 2, y / 2, n - 1);
      MortonStep(x, y, n);
      Quarter(x % 2, y % 2, Morton(x / 2, y / 2, n - 1));
    }
  }

  lemma NoMorton(x: nat, y: nat)
    ensures Morton(x, y, 0) == 0
  {
  }

  lemma MortonStep(x: nat, y: nat, n: nat)
    requires n > 0
    ensures Morton(x, y, n) == x % 2 + 2 * (y % 2) + 4 * Morton(x / 2, y / 2, n - 1)
  {
  }

  lemma Quarter(a: nat, b: nat, m: nat)
    requires a < 2 && b < 2
    ensures (a + 2 * b + 4 * m) / 4 == m
  {
  }

  lemma DivideMore(x: nat, p: nat, c: nat)
    requires p > 0 && (c == 2 || c == 4)
    ensures Quotient(x, c * p) == Quotient(x, p) / c
  {
    hide Quotient, Remainder, Product;
    var q, r := Quotient(x, p), Remainder(x, p);
    var s, t := q / c, q % c;
    DivMod(x, p);
    Distribute(p, c, s, t);
    Smaller(p, t, c);
    QuotientIs(x, c * p, s, Product(t, p) + r);
  }

  lemma Distribute(p: nat, c: nat, s: nat, t: nat)
    ensures Product(c * s + t, p) == Product(s, c * p) + Product(t, p)
  {
    assert (c * s) * p == s * (c * p);
  }

  lemma Smaller(p: nat, t: nat, c: nat)
    requires t < c
    ensures Product(t, p) + p <= c * p
  {
    var d := c - t - 1;
    assert c * p == p * t + p + p * d;
  }

  // ---------------------------------------------------------------- points and cells

  datatype Range = Range(min: real, max: real)
  {
    predicate IsZero()
    {
      min == 0.0 && max == 0.0
    }

    predicate Proper()
    {
      min < max
    }

    predicate Has(v: real)
    {
      min <= v <= max
    }
  }

  /** How far into the range a coordinate is, from 0 to 1. */
  function Offset(v: real, r: Range): (t: real)
    requires r.Proper()
  {
    (v - r.min) / (r.max - r.min)
  }

  /** The fixed-point cell number of a coordinate on a grid of `2^step` cells. */
  function Cell(v: real, r: Range, step: nat): (c: int)
    requires r.Proper()
  {
    Times(Offset(v, r), Pow2(step) as real).Floor
  }

  lemma OffsetBounds(v: real, r: Range)
    requires r.Proper() && r.Has(v)
    ensures 0.0 <= Offset(v, r) <= 1.0 && (Offset(v, r) == 1.0 <==> v == r.max)
    ensures Times(Offset(v, r), r.max - r.min) == v - r.min
  {
    var d, w := v - r.min, r.max - r.min;
    Fraction(d, w);
  }

  lemma Fraction(d: real, w: real)
    requires 0.0 <= d <= w && w > 0.0
    ensures 0.0 <= d / w <= 1.0 && (d / w == 1.0 <==> d == w) && d / w * w == d
  {
  }

  lemma TimesMonotone(x: real, y: real, z: real)
    requires x <= y && 0.0 <= z
    ensures Times(x, z) <= Times(y, z)
  {
  }

  lemma TimesStrict(x: real, y: real, z: real)
    requires x < y && 0.0 < z
    ensures Times(x, z) < Times(y, z)
  {
  }

  /** Cell numbers run from 0 to `2^step`, and the last one is for the upper edge alone. */
  lemma CellBounds(v: real, r: Range, step: nat)
    requires r.Proper() && r.Has(v)
    ensures 0 <= Cell(v, r, step) <= Pow2(step)
    ensures Cell(v, r, step) == Pow2(step) <==> v == r.max
  {
    hide Offset, Times, Pow2;
    OffsetBounds(v, r);
    var t, p := Offset(v, r), Pow2(step) as real;
    TimesMonotone(0.0, t, p);
    TimesMonotone(t, 1.0, p);
    TimesUnits(p);
    if v != r.max {
      TimesStrict(t, 1.0, p);
    }
  }

  lemma TimesUnits(p: real)
    ensures Times(0.0, p) == 0.0 && Times(1.0, p) == p
  {
  }

  /** A grid twice as fine splits every cell in two. */
  lemma CellHalves(v: real, r: Range, step: nat)
    requires r.Proper() && r.Has(v)
    ensures Cell(v, r, step) == Cell(v, r, step + 1) / 2
  {
    hide Offset, Times;
    var t := Offset(v, r);
    TimesDouble(t, Pow2(step) as real);
    HalfFloor(Times(t, Pow2(step) as real));
  }

  lemma TimesDouble(t: real, p: real)
    ensures Times(t, 2.0 * p) == 2.0 * Times(t, p)
  {
  }

  lemma HalfFloor(z: real)
    ensures (2.0 * z).Floor / 2 == z.Floor
  {
  }

  /** Coarser cell numbers are prefixes of finer ones. */
  lemma {:induction false} CellPrefix(v: real, r: Range, step: nat, k: nat)
    requires r.Proper() && r.Has(v)
    ensures 0 <= Cell(v, r, step + k) && Cell(v, r, step) == Quotient(Cell(v, r, step + k), Pow2(k))
    decreases k
  {
    hide Cell, Quotient;
    CellBounds(v, r, step + k);
    if k == 0 {
      ByOne(Cell(v, r, step));
    } else {
      CellBounds(v, r, step + 1);
      CellPrefix(v, r, step + 1, k - 1);
      CellHalves(v, r, step);
      DivideMore(Cell(v, r, step + k), Pow2(k - 1), 2);
    }
  }

  // ---------------------------------------------------------------- encoding

  datatype Grid = Grid(long: Range, lat: Range)
  {
    predicate Proper()
    {
      long.Proper() && lat.Proper()
    }
  }

  datatype Point = Point(longitude: real, latitude: real)

  predicate OnMap(p: Point)
  {
    -180.0 <= p.longitude <= 180.0 && -85.05112878 <= p.latitude <= 85.05112878
  }

  predicate Inside(p: Point, g: Grid)
  {
    g.lat.Has(p.latitude) && g.long.Has(p.longitude)
  }

  /** The latitude cell in the even bits, the longitude cell in the odd bits. */
  ghost function HashOf(p: Point, g: Grid, step: nat): (bits: bv64)
    requires g.Proper() && Inside(p, g)
  {
    CellBounds(p.latitude, g.lat, step);
    CellBounds(p.longitude, g.long, step);
    Code(Cell(p.latitude, g.lat, step), Cell(p.longitude, g.long, step))
  }

  /** `geohashEncode`: without a hash for a step out of range, an empty range, or a point off the map or the range. */
  method Encode(p: Point, g: Grid, step: nat) returns (ok: bool, bits: bv64)
    requires g.long.min != g.long.max || g.long.IsZero()
    requires g.lat.min != g.lat.max || g.lat.IsZero()
    requires step != 31 && step != 32
    ensures ok <==> 1 <= step <= 32 && !g.lat.IsZero() && !g.long.IsZero() && OnMap(p) && Inside(p, g)
    ensures ok ==> g.Proper() && bits == HashOf(p, g, step)
  {
    bits := 0;
    if step > 32 || step == 0 || g.lat.IsZero() || g.long.IsZero() {
      return false, bits;
    }
    if p.longitude > 180.0 || p.longitude < -180.0 || p.latitude > 85.05112878 || p.latitude < -85.05112878 {
      return false, bits;
    }
    if p.latitude < g.lat.min || p.latitude > g.lat.max || p.longitude < g.long.min || p.longitude > g.long.max {
      return false, bits;
    }
    CellBounds(p.latitude, g.lat, step);
    CellBounds(p.longitude, g.long, step);
    var latOffset := Times(Offset(p.latitude, g.lat), Pow2(step) as real);
    var longOffset := Times(Offset(p.longitude, g.long), Pow2(step) as real);
    bits := Code(latOffset.Floor, longOffset.Floor);
    ok := true;
  }

  lemma Pow2Next(n: nat)
    ensures Pow2(n + 1) == 2 * Pow2(n)
  {
  }

  lemma {:induction false} Pow2Less(m: nat, n: nat)
    requires m < n
    ensures Pow2(m) < Pow2(n)
  {
    if m < n - 1 {
      Pow2Less(m, n - 1);
    }
  }

  /** The hash of a point as a number. */
  ghost function HashNumber(p: Point, g: Grid, step: nat): (h: nat)
    requires g.Proper() && Inside(p, g)
  {
    ToNumber(HashOf(p, g, step), 64)
  }

  lemma HashIsMorton(p: Point, g: Grid, step: nat)
    requires g.Proper() && Inside(p, g) && step <= 31
    ensures var x, y := Cell(p.latitude, g.lat, step), Cell(p.longitude, g.long, step);
            && 0 <= x < Pow2(32) && 0 <= y < Pow2(32)
            && HashNumber(p, g, step) == Morton(x, y, 32)
            && ToNumber(Lat(HashOf(p, g, step)), 32) == x && ToNumber(Lon(HashOf(p, g, step)), 32) == y
  {
    hide Cell, Code, Morton, ToNumber, Pow2, Lat, Lon;
    CellBounds(p.latitude, g.lat, step);
    CellBounds(p.longitude, g.long, step);
    Pow2Less(step, 32);
    CodeNumber(Cell(p.latitude, g.lat, step), Cell(p.longitude, g.long, step));
  }

  /** The hash at a coarser step is a prefix of the hash at a finer one. */
  lemma HashPrefix(p: Point, g: Grid, step: nat, k: nat)
    requires g.Proper() && Inside(p, g) && step + k <= 30
    ensures HashNumber(p, g, step) == Quotient(HashNumber(p, g, step + k), Pow4(k))
  {
    hide Cell, Morton, HashNumber, HashOf, Quotient, ToNumber, Pow2, Pow4;
    HashIsMorton(p, g, step);
    HashIsMorton(p, g, step + k);
    CellPrefix(p.latitude, g.lat, step, k);
    CellPrefix(p.longitude, g.long, step, k);
    MortonPrefix(Cell(p.latitude, g.lat, step + k), Cell(p.longitude, g.long, step + k), 32, k);
  }

  /** `geohashAlign52Bits`: a shift of a 64-bit word to the width of step 26. */
  function Align52(h: nat, step: nat): (r: nat)
    requires step <= 26
  {
    h * Pow2(52 - 2 * step) % Pow2(64)
  }

  lemma {:induction false} Pow4IsPow2(n: nat)
    ensures Pow4(n) == Pow2(2 * n)
  {
    if n > 0 {
      Pow4IsPow2(n - 1);
      assert Pow2(2 * n) == 2 * Pow2(2 * n - 1) == 4 * Pow2(2 * n - 2);
    }
  }

  lemma {:induction false} Pow4Add(m: nat, n: nat)
    ensures Pow4(m) * Pow4(n) == Pow4(m + n)
  {
    if m > 0 {
      Pow4Add(m - 1, n);
      assert (4 * Pow4(m - 1)) * Pow4(n) == 4 * (Pow4(m - 1) * Pow4(n));
    }
  }

  lemma Align52Value(h: nat, step: nat)
    requires step <= 26 && h < Pow4(step + 1)
    ensures Align52(h, step) == h * Pow4(26 - step)
  {
    hide Pow2, Pow4;
    var q := Pow4(26 - step);
    Pow4IsPow2(26 - step);
    Pow4Add(step + 1, 26 - step);
    Pow4IsPow2(27);
    Pow2Less(54, 64);
    assert h * q <= Pow4(step + 1) * q by {
      ProductLess(h, Pow4(step + 1), q);
    }
    SmallRemainder(h * q, Pow2(64));
  }

  lemma ProductLess(h: nat, k: nat, q: nat)
    requires h <= k
    ensures h * q <= k * q
  {
  }

  lemma SmallRemainder(x: nat, d: nat)
    requires x < d
    ensures x % d == x
  {
  }

  /** Dividing lands on `h` exactly in an interval of the divisor's length. */
  lemma QuotientInterval(n: nat, d: nat, h: nat)
    requires d > 0
    ensures Quotient(n, d) == h <==> h * d <= n < h * d + d
  {
    if h * d <= n < h * d + d {
      DivisionIs(n, d, h, n - h * d);
    }
  }

  /** The points of a cell at a step up to 26 are exactly those whose step-26 hash is in one interval, which
      starts at the aligned hash of the cell and has length `4^(26 - step)`. */
  lemma CellIsInterval(p: Point, g: Grid, step: nat, h: nat)
    requires g.Proper() && Inside(p, g) && step <= 26 && h < Pow4(step + 1)
    ensures HashNumber(p, g, step) == h
            <==> Align52(h, step) <= HashNumber(p, g, 26) < Align52(h, step) + Pow4(26 - step)
  {
    hide HashNumber, Quotient, Pow4, Align52;
    HashPrefix(p, g, step, 26 - step);
    Align52Value(h, step);
    QuotientInterval(HashNumber(p, g, 26), Pow4(26 - step), h);
  }

  lemma {:induction false} MortonZero(x: nat, y: nat, n: nat)
    requires x < Pow2(n) && y < Pow2(n)
    ensures Morton(x, y, n) == 0 <==> x == 0 && y == 0
  {
    if n > 0 {
      MortonZero(x / 2, y / 2, n - 1);
    }
  }

  /** A hash fits in the bits of its step except on the upper edges, where the cell number is one too many. */
  lemma HashFitsOffEdges(p: Point, g: Grid, step: nat)
    requires g.Proper() && Inside(p, g) && step <= 30
    ensures HashNumber(p, g, step) < Pow4(step) <==> p.latitude < g.lat.max && p.longitude < g.long.max
  {
    hide Cell, Morton, HashNumber, HashOf, Quotient, ToNumber, Pow2, Pow4;
    var x, y := Cell(p.latitude, g.lat, step), Cell(p.longitude, g.long, step);
    CellBounds(p.latitude, g.lat, step);
    CellBounds(p.longitude, g.long, step);
    HashIsMorton(p, g, step);
    MortonPrefix(x, y, 32, step);
    MortonZero(Quotient(x, Pow2(step)), Quotient(y, Pow2(step)), 32);
    QuotientZero(Morton(x, y, 32), Pow4(step));
    QuotientZero(x, Pow2(step));
    QuotientZero(y, Pow2(step));
  }

  lemma QuotientZero(n: nat, d: nat)
    requires d > 0
    ensures Quotient(n, d) == 0 <==> n < d
  {
    QuotientInterval(n, d, 0);
  }

  // ---------------------------------------------------------------- decoding

  datatype Area = Area(longitude: Range, latitude: Range)

  /** The lower bound of cell `c`. */
  function Bound(r: Range, c: nat, step: nat): (b: real)
  {
    r.min + Times(c as real / Pow2(step) as real, r.max - r.min)
  }

  /** A coordinate lies in its cell, lower bound included, upper bound excluded. */
  lemma CellHolds(v: real, r: Range, step: nat)
    requires r.Proper() && r.Has(v)
    ensures 0 <= Cell(v, r, step) && Bound(r, Cell(v, r, step), step) <= v < Bound(r, Cell(v, r, step) + 1, step)
  {
    hide Offset, Times, Pow2;
    CellBounds(v, r, step);
    OffsetBounds(v, r);
    var t, p, c, w := Offset(v, r), Pow2(step) as real, Cell(v, r, step), r.max - r.min;
    Unscaled(c as real, t, p);
    UnscaledStrict(t, (c + 1) as real, p);
    TimesMonotone(c as real / p, t, w);
    TimesStrict(t, (c + 1) as real / p, w);
  }

  lemma Cancelled(x: real, y: real, p: real)
    requires p > 0.0
    ensures x * p <= y * p <==> x <= y
  {
    assert (y - x) * p == y * p - x * p;
  }

  lemma Unscaled(c: real, t: real, p: real)
    requires p > 0.0 && c <= Times(t, p)
    ensures c / p <= t
  {
    assert c / p * p == c;
    Cancelled(c / p, t, p);
  }

  lemma UnscaledStrict(t: real, c: real, p: real)
    requires p > 0.0 && Times(t, p) < c
    ensures t < c / p
  {
    assert c / p * p == c;
    Cancelled(c / p, t, p);
  }

  /** A point is in the area of a cell. */
  predicate InArea(a: Area, p: Point)
  {
    a.latitude.min <= p.latitude < a.latitude.max && a.longitude.min <= p.longitude < a.longitude.max
  }

  /** `geohashDecode`; the upper bound adds one in 32-bit arithmetic. The area holds exactly the points in the cells
      the hash names, and at the steps where a hash has room for every cell number, exactly the points with that
      hash. A cell numbered 2^32 - 1 comes out empty. */
  method Decode(g: Grid, bits: bv64, step: nat) returns (ok: bool, area: Area)
    requires step < 64
    ensures ok <==> !(bits == 0 && step == 0) && !g.lat.IsZero() && !g.long.IsZero()
    ensures ok && g.Proper() ==> forall p :: Inside(p, g) ==>
              (InArea(area, p)
               <==> (InCell(p.latitude, g.lat, ToNumber(Lat(bits), 32), step)
                     && InCell(p.longitude, g.long, ToNumber(Lon(bits), 32), step)))
    ensures ok && g.Proper() && step <= 31 ==> forall p ::
              Inside(p, g) ==> (InArea(area, p) <==> HashOf(p, g, step) == bits)
  {
    hide Lat, Lon, Bound, ToNumber, Pow2, InCell, HashOf;
    area := Area(Range(0.0, 0.0), Range(0.0, 0.0));
    if (bits == 0 && step == 0) || g.lat.IsZero() || g.long.IsZero() {
      return false, area;
    }
    var ilato := ToNumber(Lat(bits), 32);
    var ilono := ToNumber(Lon(bits), 32);
    var latitude := Range(Bound(g.lat, ilato, step), Bound(g.lat, (ilato + 1) % Pow2(32), step));
    var longitude := Range(Bound(g.long, ilono, step), Bound(g.long, (ilono + 1) % Pow2(32), step));
    ok, area := true, Area(longitude, latitude);
    NumberBound(Lat(bits), 32);
    NumberBound(Lon(bits), 32);
    if g.Proper() {
      forall p | Inside(p, g)
        ensures InArea(area, p) <==> InCell(p.latitude, g.lat, ilato, step) && InCell(p.longitude, g.long, ilono, step)
      {
        BoundsHold(p.latitude, g.lat, ilato, step);
        BoundsHold(p.longitude, g.long, ilono, step);
      }
      if step <= 31 {
        forall p | Inside(p, g) ensures InArea(area, p) <==> HashOf(p, g, step) == bits {
          HashIs(p, g, step, bits);
        }
      }
    }
  }

  /** The coordinate is in cell `c`, and the number after `c` fits into 32 bits. */
  predicate InCell(v: real, r: Range, c: nat, step: nat)
    requires r.Proper()
  {
    Cell(v, r, step) == c && c + 1 < Pow2(32)
  }

  lemma BoundMonotone(r: Range, c: nat, d: nat, step: nat)
    requires r.Proper() && c <= d
    ensures r.min <= Bound(r, c, step) <= Bound(r, d, step)
  {
    hide Times, Pow2;
    var p, w := Pow2(step) as real, r.max - r.min;
    Ordered(c as real, d as real, p);
    TimesMonotone(0.0, c as real / p, w);
    TimesMonotone(c as real / p, d as real / p, w);
    TimesUnits(w);
  }

  lemma Ordered(c: real, d: real, p: real)
    requires 0.0 <= c <= d && p > 0.0
    ensures 0.0 <= c / p <= d / p
  {
    assert c / p * p == c && d / p * p == d;
    Cancelled(c / p, d / p, p);
    Cancelled(0.0, c / p, p);
  }

  /** The two bounds of a cell hold exactly its coordinates; where the upper one wraps around, none. */
  lemma BoundsHold(v: real, r: Range, c: nat, step: nat)
    requires r.Proper() && r.Has(v) && c < Pow2(32)
    ensures Bound(r, c, step) <= v < Bound(r, (c + 1) % Pow2(32), step) <==> InCell(v, r, c, step)
  {
    hide Bound, Cell, Pow2;
    CellHolds(v, r, step);
    var d := Cell(v, r, step);
    if c + 1 == Pow2(32) {
      assert (c + 1) % Pow2(32) == 0;
      BoundMonotone(r, 0, c, step);
      BoundZero(r, step);
    } else {
      SmallRemainder(c + 1, Pow2(32));
      if c < d {
        BoundMonotone(r, c + 1, d, step);
      } else if d < c {
        BoundMonotone(r, d + 1, c, step);
      }
    }
  }

  /** The lower bound of a cell is in the range, and in the cell. */
  lemma BoundInCell(r: Range, c: nat, step: nat)
    requires r.Proper() && c < Pow2(step) && c + 1 < Pow2(32)
    ensures r.Has(Bound(r, c, step)) && Cell(Bound(r, c, step), r, step) == c
  {
    hide Bound, Cell, Pow2;
    BoundStrict(r, c, step);
    BoundMonotone(r, c, Pow2(step), step);
    BoundFull(r, step);
    SmallRemainder(c + 1, Pow2(32));
    BoundsHold(Bound(r, c, step), r, c, step);
  }

  lemma BoundStrict(r: Range, c: nat, step: nat)
    requires r.Proper()
    ensures Bound(r, c, step) < Bound(r, c + 1, step)
  {
    hide Times, Pow2;
    var p := Pow2(step) as real;
    OrderedStrict(c as real, (c + 1) as real, p);
    TimesStrict(c as real / p, (c + 1) as real / p, r.max - r.min);
  }

  lemma OrderedStrict(c: real, d: real, p: real)
    requires c < d && p > 0.0
    ensures c / p < d / p
  {
    assert c / p * p == c && d / p * p == d;
    Cancelled(d / p, c / p, p);
  }

  lemma BoundFull(r: Range, step: nat)
    ensures Bound(r, Pow2(step), step) == r.max
  {
    hide Pow2;
    var p := Pow2(step) as real;
    assert p / p == 1.0;
    TimesUnits(r.max - r.min);
  }

  lemma TwoBits(n: nat)
    ensures n == n % 2 + 2 * (n / 2 % 2) + 4 * (n / 4)
  {
  }

  lemma Doubled(x: nat, b: nat)
    requires b < 2
    ensures (2 * x + b) / 2 == x && (2 * x + b) % 2 == b
  {
  }

  lemma {:induction false} MortonSplit(n: nat, k: nat) returns (x: nat, y: nat)
    requires n < Pow4(k)
    ensures x < Pow2(k) && y < Pow2(k) && Morton(x, y, k) == n
    decreases k
  {
    if k == 0 {
      x, y := 0, 0;
    } else {
      var x', y' := MortonSplit(n / 4, k - 1);
      x, y := 2 * x' + n % 2, 2 * y' + n / 2 % 2;
      TwoBits(n);
      Doubled(x', n % 2);
      Doubled(y', n / 2 % 2);
    }
  }

  lemma {:induction false} MortonWiden(x: nat, y: nat, n: nat, m: nat)
    requires x < Pow2(n) && y < Pow2(n) && n <= m
    ensures x < Pow2(m) && y < Pow2(m) && Morton(x, y, m) == Morton(x, y, n)
    decreases m
  {
    hide Morton;
    if n < m {
      MortonWiden(x, y, n, m - 1);
      MortonWider(x, y, m - 1);
    }
  }

  /** Every number of the bits of a step is the hash of some point. */
  lemma EveryHashTaken(g: Grid, step: nat, n: nat) returns (p: Point)
    requires g.Proper() && step <= 30 && n < Pow4(step)
    ensures Inside(p, g) && HashNumber(p, g, step) == n
  {
    hide Cell, Morton, HashNumber, HashOf, Bound, ToNumber, Pow2, Pow4, Lat, Lon;
    var x, y := MortonSplit(n, step);
    Pow2Gap(step);
    BoundInCell(g.lat, x, step);
    BoundInCell(g.long, y, step);
    p := Point(Bound(g.long, y, step), Bound(g.lat, x, step));
    HashIsMorton(p, g, step);
    MortonWiden(x, y, step, 32);
  }

  /** With `CellIsInterval`: the step-26 hashes of the points of a cell are the whole interval. */
  lemma IntervalIsTaken(g: Grid, step: nat, h: nat, n: nat) returns (p: Point)
    requires g.Proper() && step <= 26 && h < Pow4(step) && Align52(h, step) <= n < Align52(h, step) + Pow4(26 - step)
    ensures Inside(p, g) && HashNumber(p, g, step) == h && HashNumber(p, g, 26) == n
  {
    hide HashNumber, Pow4, Align52;
    Pow4Next(step);
    Align52Value(h, step);
    Pow4Add(step, 26 - step);
    IntervalEnd(h, Pow4(step), Pow4(26 - step));
    p := EveryHashTaken(g, 26, n);
    CellIsInterval(p, g, step, h);
  }

  lemma Pow4Next(n: nat)
    ensures Pow4(n + 1) == 4 * Pow4(n)
  {
  }

  lemma IntervalEnd(h: nat, k: nat, q: nat)
    requires h < k
    ensures h * q + q <= k * q
  {
    ProductLess(h + 1, k, q);
    assert (h + 1) * q == h * q + q;
  }

  lemma BoundZero(r: Range, step: nat)
    ensures Bound(r, 0, step) == r.min
  {
    TimesUnits(r.max - r.min);
  }

  /** A hash is that of a point exactly if its two halves are the point's cell numbers. */
  lemma HashIs(p: Point, g: Grid, step: nat, bits: bv64)
    requires g.Proper() && Inside(p, g) && step <= 31
    ensures HashOf(p, g, step) == bits
            <==> (InCell(p.latitude, g.lat, ToNumber(Lat(bits), 32), step)
                  && InCell(p.longitude, g.long, ToNumber(Lon(bits), 32), step))
  {
    hide Cell, ToNumber, ToWord, Lat, Lon, Pow2, Interleave64, IsWord, Narrow, Counts, HashNumber, Morton;
    HashIsMorton(p, g, step);
    CellBounds(p.latitude, g.lat, step);
    CellBounds(p.longitude, g.long, step);
    Pow2Gap(step);
    Coordinates(bits);
    InterleaveInverts(bits);
    ThirtyTwo();
    NarrowIsWord(Lat(bits));
    NarrowIsWord(Lon(bits));
    WordOfNumber(Lat(bits), 32, 32);
    WordOfNumber(Lon(bits), 32, 32);
  }

  lemma Pow2Gap(step: nat)
    requires step <= 31
    ensures Pow2(step) + 1 < Pow2(32)
  {
    hide Pow2;
    Pow2Next(31);
    Pow2Less(30, 31);
    if step < 31 {
      Pow2Less(step, 31);
    }
  }

  /** Encoding and decoding: the area of the hash of a point holds exactly the points with the same hash. */
  method EncodeDecode(p: Point, g: Grid, step: nat) returns (area: Area)
    requires g.Proper() && OnMap(p) && Inside(p, g) && 1 <= step <= 30
    ensures InArea(area, p)
    ensures forall q :: Inside(q, g) ==> (InArea(area, q) <==> HashOf(q, g, step) == HashOf(p, g, step))
  {
    hide Cell, ToNumber, Lat, Lon, Pow2, HashOf, InCell, InArea;
    var ok, bits := Encode(p, g, step);
    ok, area := Decode(g, bits, step);
  }
}
