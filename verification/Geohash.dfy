/** Geohash bits: two 32-bit coordinates interleaved by masks, and moves to neighbouring cells by carries. */
module Geohash {

  /** The 32 low bits of `v` in the even places: the five mask steps of `interleave64`. */
  function Spread(v: bv64): (r: bv64)
  {
    var v4 := (v | (v << 16)) & 0x0000FFFF0000FFFF;
    var v3 := (v4 | (v4 << 8)) & 0x00FF00FF00FF00FF;
    var v2 := (v3 | (v3 << 4)) & 0x0F0F0F0F0F0F0F0F;
    var v1 := (v2 | (v2 << 2)) & 0x3333333333333333;
    (v1 | (v1 << 1)) & 0x5555555555555555
  }

  /** Even places and odd places together. */
  function Join(even: bv64, odd: bv64): (r: bv64)
  {
    Merge(Odd(odd), even)
  }

  function Odd(v: bv64): (r: bv64)
  {
    v << 1
  }

  function Merge(x: bv64, y: bv64): (r: bv64)
  {
    x | y
  }

  function Down(v: bv64): (r: bv64)
  {
    v >> 1
  }

  predicate IsWord(v: bv64)
  {
    v <= 0xFFFFFFFF
  }

  predicate AtMost(v: bv64, w: bv64)
  {
    v <= w
  }

  function Interleave64(xlo: bv64, ylo: bv64): (r: bv64)
  {
    Join(Spread(xlo), Spread(ylo))
  }

  /** The even places of `v` packed into the 32 low bits: the six mask steps of `deinterleave64`. */
  function Pack(v: bv64): (r: bv64)
  {
    var v0 := (v | (v >> 0)) & 0x5555555555555555;
    var v1 := (v0 | (v0 >> 1)) & 0x3333333333333333;
    var v2 := (v1 | (v1 >> 2)) & 0x0F0F0F0F0F0F0F0F;
    var v3 := (v2 | (v2 >> 4)) & 0x00FF00FF00FF00FF;
    var v4 := (v3 | (v3 >> 8)) & 0x0000FFFF0000FFFF;
    (v4 | (v4 >> 16)) & 0x00000000FFFFFFFF
  }

  function Deinterleave64(interleaved: bv64): (r: bv64)
  {
    Pack(interleaved) | (Pack(Down(interleaved)) << 32)
  }

  /** Latitude in the low half of the deinterleaved hash, longitude in the high half. */
  function Lat(bits: bv64): (v: bv64)
  {
    Deinterleave64(bits) & 0xFFFFFFFF
  }

  function Lon(bits: bv64): (v: bv64)
  {
    Deinterleave64(bits) >> 32
  }

  lemma PackSpread(v: bv64, w: bv64)
    requires IsWord(v) && IsWord(w)
    ensures Pack(Join(Spread(v), Spread(w))) == v
    ensures Pack(Down(Join(Spread(v), Spread(w)))) == w
  {
  }

  lemma DeinterleaveInverts(x: bv64, y: bv64)
    requires IsWord(x) && IsWord(y)
    ensures Lat(Interleave64(x, y)) == x && Lon(Interleave64(x, y)) == y
  {
    hide Pack, Spread, Join, Lat, Lon, Down, IsWord;
    PackSpread(x, y);
    Coordinates(Interleave64(x, y));
  }

  lemma InterleaveInverts(bits: bv64)
    ensures Interleave64(Lat(bits), Lon(bits)) == bits
    ensures IsWord(Lat(bits)) && IsWord(Lon(bits))
  {
  }

  /** Bit `2 * i` is bit `i` of the first coordinate, bit `2 * i + 1` bit `i` of the second. */
  lemma InterleavePlaces(x: bv64, y: bv64, i: bv64)
    requires IsWord(x) && IsWord(y) && i < 32
    ensures (Interleave64(x, y) >> (2 * i)) & 1 == (x >> i) & 1
    ensures (Interleave64(x, y) >> (2 * i + 1)) & 1 == (y >> i) & 1
  {
  }

  // ---------------------------------------------------------------- neighbours

  predicate IsStep(step: bv64)
  {
    1 <= step <= 32
  }

  /** All coordinates of a grid of `2^step` cells a side. */
  function Mask(step: bv64): (m: bv64)
    requires IsStep(step)
  {
    0xFFFFFFFF >> (32 - step)
  }

  predicate Fits(bits: bv64, step: bv64)
    requires IsStep(step)
  {
    bits <= 0xFFFFFFFFFFFFFFFF >> (64 - 2 * step)
  }

  predicate InGrid(bits: bv64, step: bv64)
  {
    IsStep(step) && Fits(bits, step)
  }

  function Keep(v: bv64, m: bv64): (r: bv64)
  {
    v & m
  }

  /** One coordinate moved by `d`, modulo the size of the grid. */
  function Turn(v: bv64, d: bv64, m: bv64): (r: bv64)
  {
    Keep(v + d, m)
  }

  /** The cell `dx` columns and `dy` rows away on the torus: coordinates modulo `2^step`. */
  function Shifted(bits: bv64, step: bv64, dx: bv64, dy: bv64): (r: bv64)
    requires IsStep(step)
  {
    Interleave64(Turn(Lat(bits), dy, Mask(step)), Turn(Lon(bits), dx, Mask(step)))
  }

  const ONE: bv64 := 1

  const MINUS_ONE: bv64 := 0xFFFFFFFFFFFFFFFF

  function Word(d: int): (w: bv64)
  {
    if d == 0 then 0 else if d > 0 then ONE else MINUS_ONE
  }

  function MaskX(step: bv64): (m: bv64)
    requires IsStep(step)
  {
    0xaaaaaaaaaaaaaaaa >> (64 - step * 2)
  }

  function MaskY(step: bv64): (m: bv64)
    requires IsStep(step)
  {
    0x5555555555555555 >> (64 - step * 2)
  }

  function OddPlaces(bits: bv64): (r: bv64)
  {
    bits & 0xaaaaaaaaaaaaaaaa
  }

  function EvenPlaces(bits: bv64): (r: bv64)
  {
    bits & 0x5555555555555555
  }

  /** Add one in the places of `mask`: the places of `zz` between them are ones, so that the carry runs through. */
  function CarryUp(v: bv64, zz: bv64, mask: bv64): (r: bv64)
  {
    (v + (zz + 1)) & mask
  }

  /** Take one away in the places of `mask`: the borrow runs through the ones of `zz`. */
  function BorrowDown(v: bv64, zz: bv64, mask: bv64): (r: bv64)
  {
    ((v | zz) - (zz + 1)) & mask
  }

  class GeoHashBits {
    var bits: bv64
    var step: bv64

    constructor (bits_: bv64, step_: bv64)
      ensures bits == bits_ && step == step_
    {
      bits, step := bits_, step_;
    }

    method MoveX(d: int)
      requires InGrid(bits, step)
      modifies this`bits
      ensures bits == Shifted(old(bits), step, Word(d), 0) && InGrid(bits, step)
    {
      hide Shifted, Fits, MaskX, MaskY, OddPlaces, EvenPlaces, CarryUp, BorrowDown, Merge;
      ShiftedInGrid(bits, step, Word(d), 0);
      if d == 0 {
        StayPut(bits, step);
        return;
      }
      var x, y := OddPlaces(bits), EvenPlaces(bits);
      var zz := MaskY(step);
      if d > 0 {
        EastIsPlusOne(bits, step);
        x := CarryUp(x, zz, MaskX(step));
      } else {
        WestIsMinusOne(bits, step);
        x := BorrowDown(x, zz, MaskX(step));
      }
      bits := Merge(x, y);
    }

    method MoveY(d: int)
      requires InGrid(bits, step)
      modifies this`bits
      ensures bits == Shifted(old(bits), step, 0, Word(d)) && InGrid(bits, step)
    {
      hide Shifted, Fits, MaskX, MaskY, OddPlaces, EvenPlaces, CarryUp, BorrowDown, Merge;
      ShiftedInGrid(bits, step, 0, Word(d));
      if d == 0 {
        StayPut(bits, step);
        return;
      }
      var x, y := OddPlaces(bits), EvenPlaces(bits);
      var zz := MaskX(step);
      if d > 0 {
        NorthIsPlusOne(bits, step);
        y := CarryUp(y, zz, MaskY(step));
      } else {
        SouthIsMinusOne(bits, step);
        y := BorrowDown(y, zz, MaskY(step));
      }
      bits := Merge(x, y);
    }
  }

  // ---------------------------------------------------------------- one coordinate at a time

  /** A string of ones from bit 0 up. */
  predicate IsOnes(m: bv64)
  {
    m <= 0xFFFFFFFF && m & (m + 1) == 0
  }

  lemma Masks(step: bv64)
    requires IsStep(step)
    ensures IsOnes(Mask(step))
    ensures MaskX(step) == Odd(Spread(Mask(step))) && MaskY(step) == Spread(Mask(step))
  {
  }

  lemma FullMask(bits: bv64, step: bv64)
    requires IsStep(step)
    ensures Fits(bits, step) <==> Below(bits, Mask(step))
  {
  }

  predicate Below(bits: bv64, m: bv64)
  {
    AtMost(bits, Join(Spread(m), Spread(m)))
  }

  lemma PlusInOdd(x: bv64, m: bv64)
    requires IsOnes(m) && AtMost(x, m)
    ensures CarryUp(Odd(Spread(x)), Spread(m), Odd(Spread(m))) == Odd(Spread(Turn(x, ONE, m)))
  {
  }

  lemma MinusInOdd(x: bv64, m: bv64)
    requires IsOnes(m) && AtMost(x, m)
    ensures BorrowDown(Odd(Spread(x)), Spread(m), Odd(Spread(m))) == Odd(Spread(Turn(x, MINUS_ONE, m)))
  {
  }

  lemma PlusInEven(y: bv64, m: bv64)
    requires IsOnes(m) && AtMost(y, m)
    ensures CarryUp(Spread(y), Odd(Spread(m)), Spread(m)) == Spread(Turn(y, ONE, m))
  {
  }

  lemma MinusInEven(y: bv64, m: bv64)
    requires IsOnes(m) && AtMost(y, m)
    ensures BorrowDown(Spread(y), Odd(Spread(m)), Spread(m)) == Spread(Turn(y, MINUS_ONE, m))
  {
  }

  lemma Coordinates(bits: bv64)
    ensures Lat(bits) == Pack(bits) && IsWord(Lat(bits)) && Lon(bits) == Pack(Down(bits)) && IsWord(Lon(bits))
  {
  }

  lemma SpreadPack(bits: bv64)
    ensures Spread(Pack(bits)) == EvenPlaces(bits)
  {
  }

  lemma OddFromEven(bits: bv64)
    ensures OddPlaces(bits) == Odd(EvenPlaces(Down(bits)))
  {
  }

  lemma OddAndEven(bits: bv64)
    ensures OddPlaces(bits) == Odd(Spread(Lon(bits))) && EvenPlaces(bits) == Spread(Lat(bits))
  {
    hide Spread, Pack, Lat, Lon, OddPlaces, EvenPlaces, Odd, Down, IsWord;
    Coordinates(bits);
    SpreadPack(bits);
    SpreadPack(Down(bits));
    OddFromEven(bits);
  }

  lemma WithinOnes(bits: bv64, m: bv64)
    requires IsOnes(m) && Below(bits, m)
    ensures AtMost(Pack(bits), m) && AtMost(Pack(Down(bits)), m)
  {
  }

  lemma InGridCoordinates(bits: bv64, step: bv64)
    requires InGrid(bits, step)
    ensures AtMost(Lat(bits), Mask(step)) && AtMost(Lon(bits), Mask(step))
  {
    hide Spread, Pack, Lat, Lon, Mask, MaskX, MaskY, Below, Fits, IsOnes, Down, IsWord, AtMost;
    Masks(step);
    FullMask(bits, step);
    Coordinates(bits);
    WithinOnes(bits, Mask(step));
  }

  predicate Within(v: bv64, m: bv64)
  {
    v & m == v
  }

  predicate EvenOnly(v: bv64)
  {
    v & 0x5555555555555555 == v
  }

  lemma SpreadWithin(y: bv64, m: bv64)
    requires IsOnes(m) && AtMost(y, m)
    ensures Within(Spread(y), Spread(m))
  {
  }

  lemma JoinWithin(y: bv64, x: bv64, m: bv64)
    requires Within(y, m) && Within(x, m) && EvenOnly(m)
    ensures AtMost(Join(y, x), Join(m, m))
  {
  }

  lemma SpreadEven(v: bv64)
    ensures EvenOnly(Spread(v))
  {
  }

  lemma InterleaveBelow(y: bv64, x: bv64, m: bv64)
    requires IsOnes(m) && AtMost(x, m) && AtMost(y, m)
    ensures Below(Interleave64(y, x), m)
  {
    hide Spread, Join, IsOnes, EvenOnly, Within, AtMost;
    SpreadWithin(y, m);
    SpreadWithin(x, m);
    SpreadEven(m);
    JoinWithin(Spread(y), Spread(x), Spread(m));
  }

  lemma CoordinatesInGrid(y: bv64, x: bv64, step: bv64)
    requires IsStep(step) && AtMost(x, Mask(step)) && AtMost(y, Mask(step))
    ensures InGrid(Interleave64(y, x), step)
  {
    hide Interleave64, Mask, MaskX, MaskY, Fits, Below, IsOnes, AtMost;
    Masks(step);
    FullMask(Interleave64(y, x), step);
    InterleaveBelow(y, x, Mask(step));
  }

  lemma Turned(v: bv64, d: bv64, m: bv64)
    requires IsOnes(m)
    ensures AtMost(Turn(v, d, m), m) && (AtMost(v, m) ==> Turn(v, 0, m) == v)
  {
  }

  lemma ShiftedInGrid(bits: bv64, step: bv64, dx: bv64, dy: bv64)
    requires InGrid(bits, step)
    ensures InGrid(Shifted(bits, step, dx, dy), step)
  {
    hide Spread, Pack, Lat, Lon, Mask, Interleave64, Fits, Turn, IsOnes, MaskX, MaskY, AtMost;
    Masks(step);
    Turned(Lat(bits), dy, Mask(step));
    Turned(Lon(bits), dx, Mask(step));
    CoordinatesInGrid(Turn(Lat(bits), dy, Mask(step)), Turn(Lon(bits), dx, Mask(step)), step);
  }

  lemma StayPut(bits: bv64, step: bv64)
    requires InGrid(bits, step)
    ensures Shifted(bits, step, 0, 0) == bits
  {
    hide Spread, Pack, Lat, Lon, Mask, Interleave64, Fits, Turn, IsOnes, MaskX, MaskY, AtMost;
    Masks(step);
    InGridCoordinates(bits, step);
    Turned(Lat(bits), 0, Mask(step));
    Turned(Lon(bits), 0, Mask(step));
    InterleaveInverts(bits);
  }

  lemma EastIsPlusOne(bits: bv64, step: bv64)
    requires InGrid(bits, step)
    ensures Merge(CarryUp(OddPlaces(bits), MaskY(step), MaskX(step)), EvenPlaces(bits)) == Shifted(bits, step, ONE, 0)
  {
    hide Spread, Pack, Lat, Lon, Mask, MaskX, MaskY, Fits, IsOnes, Turn, OddPlaces, EvenPlaces, CarryUp, Merge, Odd,
         AtMost;
    Masks(step);
    OddAndEven(bits);
    InGridCoordinates(bits, step);
    PlusInOdd(Lon(bits), Mask(step));
    Turned(Lat(bits), 0, Mask(step));
  }

  lemma WestIsMinusOne(bits: bv64, step: bv64)
    requires InGrid(bits, step)
    ensures Merge(BorrowDown(OddPlaces(bits), MaskY(step), MaskX(step)), EvenPlaces(bits))
            == Shifted(bits, step, MINUS_ONE, 0)
  {
    hide Spread, Pack, Lat, Lon, Mask, MaskX, MaskY, Fits, IsOnes, Turn, OddPlaces, EvenPlaces, BorrowDown, Merge, Odd,
         AtMost;
    Masks(step);
    OddAndEven(bits);
    InGridCoordinates(bits, step);
    MinusInOdd(Lon(bits), Mask(step));
    Turned(Lat(bits), 0, Mask(step));
  }

  lemma NorthIsPlusOne(bits: bv64, step: bv64)
    requires InGrid(bits, step)
    ensures Merge(OddPlaces(bits), CarryUp(EvenPlaces(bits), MaskX(step), MaskY(step))) == Shifted(bits, step, 0, ONE)
  {
    hide Spread, Pack, Lat, Lon, Mask, MaskX, MaskY, Fits, IsOnes, Turn, OddPlaces, EvenPlaces, CarryUp, Merge, Odd,
         AtMost;
    Masks(step);
    OddAndEven(bits);
    InGridCoordinates(bits, step);
    PlusInEven(Lat(bits), Mask(step));
    Turned(Lon(bits), 0, Mask(step));
  }

  lemma SouthIsMinusOne(bits: bv64, step: bv64)
    requires InGrid(bits, step)
    ensures Merge(OddPlaces(bits), BorrowDown(EvenPlaces(bits), MaskX(step), MaskY(step)))
            == Shifted(bits, step, 0, MINUS_ONE)
  {
    hide Spread, Pack, Lat, Lon, Mask, MaskX, MaskY, Fits, IsOnes, Turn, OddPlaces, EvenPlaces, BorrowDown, Merge, Odd,
         AtMost;
    Masks(step);
    OddAndEven(bits);
    InGridCoordinates(bits, step);
    MinusInEven(Lat(bits), Mask(step));
    Turned(Lon(bits), 0, Mask(step));
  }

  // ---------------------------------------------------------------- moves together

  predicate UnitMove(d: bv64)
  {
    d == 0 || d == ONE || d == MINUS_ONE
  }

  function Opposite(d: bv64): (e: bv64)
  {
    if d == ONE then MINUS_ONE else if d == MINUS_ONE then ONE else d
  }

  lemma OneForthAndBack(v: bv64, m: bv64)
    requires IsOnes(m) && AtMost(v, m)
    ensures Turn(Turn(v, ONE, m), MINUS_ONE, m) == v && Turn(Turn(v, MINUS_ONE, m), ONE, m) == v
  {
  }

  lemma TurnBack(v: bv64, d: bv64, m: bv64)
    requires IsOnes(m) && AtMost(v, m) && UnitMove(d)
    ensures Turn(Turn(v, d, m), Opposite(d), m) == v
  {
    hide Turn, IsOnes, AtMost;
    OneForthAndBack(v, m);
    Turned(v, 0, m);
  }

  lemma WordsOf(v: bv64, d: bv64, m: bv64)
    requires IsOnes(m)
    ensures IsWord(Turn(v, d, m))
  {
  }

  /** Coordinates of a moved cell. */
  lemma ShiftedCoordinates(bits: bv64, step: bv64, dx: bv64, dy: bv64)
    requires IsStep(step)
    ensures Lat(Shifted(bits, step, dx, dy)) == Turn(Lat(bits), dy, Mask(step))
    ensures Lon(Shifted(bits, step, dx, dy)) == Turn(Lon(bits), dx, Mask(step))
  {
    hide Interleave64, Lat, Lon, Mask, Turn, IsOnes, IsWord, MaskX, MaskY, Spread;
    Masks(step);
    WordsOf(Lat(bits), dy, Mask(step));
    WordsOf(Lon(bits), dx, Mask(step));
    DeinterleaveInverts(Turn(Lat(bits), dy, Mask(step)), Turn(Lon(bits), dx, Mask(step)));
  }

  lemma OppositesCancel(bits: bv64, step: bv64, dx: bv64, dy: bv64)
    requires InGrid(bits, step) && UnitMove(dx) && UnitMove(dy)
    ensures Shifted(Shifted(bits, step, dx, dy), step, Opposite(dx), Opposite(dy)) == bits
  {
    hide Interleave64, Lat, Lon, Mask, Turn, IsOnes, MaskX, MaskY, Spread, Fits, AtMost, UnitMove, Opposite;
    Masks(step);
    InGridCoordinates(bits, step);
    ShiftedCoordinates(bits, step, dx, dy);
    TurnBack(Lat(bits), dy, Mask(step));
    TurnBack(Lon(bits), dx, Mask(step));
    InterleaveInverts(bits);
  }

  lemma MovesCommute(bits: bv64, step: bv64, dx: bv64, dy: bv64)
    requires InGrid(bits, step)
    ensures Shifted(Shifted(bits, step, dx, 0), step, 0, dy) == Shifted(bits, step, dx, dy)
    ensures Shifted(Shifted(bits, step, 0, dy), step, dx, 0) == Shifted(bits, step, dx, dy)
  {
    hide Interleave64, Lat, Lon, Mask, Turn, IsOnes, MaskX, MaskY, Spread, Fits, AtMost;
    Masks(step);
    InGridCoordinates(bits, step);
    ShiftedCoordinates(bits, step, dx, 0);
    ShiftedCoordinates(bits, step, 0, dy);
    Turned(Lat(bits), dy, Mask(step));
    Turned(Lon(bits), dx, Mask(step));
    Turned(Turn(Lat(bits), dy, Mask(step)), 0, Mask(step));
    Turned(Turn(Lon(bits), dx, Mask(step)), 0, Mask(step));
  }

  datatype Neighbours = Neighbours(north: bv64, east: bv64, west: bv64, south: bv64,
                                   northEast: bv64, southEast: bv64, northWest: bv64, southWest: bv64)

  method Moved(hash: GeoHashBits, dx: int, dy: int) returns (bits: bv64)
    requires InGrid(hash.bits, hash.step)
    ensures bits == Shifted(hash.bits, hash.step, Word(dx), Word(dy)) && InGrid(bits, hash.step)
  {
    hide Shifted, Fits;
    var copy := new GeoHashBits(hash.bits, hash.step);
    copy.MoveX(dx);
    copy.MoveY(dy);
    MovesCommute(hash.bits, hash.step, Word(dx), Word(dy));
    bits := copy.bits;
  }

  method GetNeighbours(hash: GeoHashBits) returns (n: Neighbours)
    requires InGrid(hash.bits, hash.step)
    ensures n.east == Shifted(hash.bits, hash.step, ONE, 0) && n.west == Shifted(hash.bits, hash.step, MINUS_ONE, 0)
    ensures n.north == Shifted(hash.bits, hash.step, 0, ONE) && n.south == Shifted(hash.bits, hash.step, 0, MINUS_ONE)
    ensures n.northEast == Shifted(hash.bits, hash.step, ONE, ONE)
            && n.northWest == Shifted(hash.bits, hash.step, MINUS_ONE, ONE)
    ensures n.southEast == Shifted(hash.bits, hash.step, ONE, MINUS_ONE)
            && n.southWest == Shifted(hash.bits, hash.step, MINUS_ONE, MINUS_ONE)
  {
    hide Shifted, Fits;
    var east := Moved(hash, 1, 0);
    var west := Moved(hash, -1, 0);
    var south := Moved(hash, 0, -1);
    var north := Moved(hash, 0, 1);
    var northWest := Moved(hash, -1, 1);
    var northEast := Moved(hash, 1, 1);
    var southEast := Moved(hash, 1, -1);
    var southWest := Moved(hash, -1, -1);
    n := Neighbours(north, east, west, south, northEast, southEast, northWest, southWest);
  }

  lemma TurnsDiffer(v: bv64, d: bv64, e: bv64, m: bv64)
    requires IsOnes(m) && AtMost(3, m) && UnitMove(d) && UnitMove(e) && Turn(v, d, m) == Turn(v, e, m)
    ensures d == e
  {
  }

  lemma WideMask(step: bv64)
    requires IsStep(step) && step != 1
    ensures AtMost(3, Mask(step))
  {
  }

  /** From four cells a side on, a cell and its eight neighbours are nine different cells. */
  lemma NeighboursDistinct(bits: bv64, step: bv64, dx: bv64, dy: bv64, ex: bv64, ey: bv64)
    requires InGrid(bits, step) && step != 1
    requires UnitMove(dx) && UnitMove(dy) && UnitMove(ex) && UnitMove(ey)
    requires Shifted(bits, step, dx, dy) == Shifted(bits, step, ex, ey)
    ensures dx == ex && dy == ey
  {
    hide Shifted, Lat, Lon, Mask, Turn, IsOnes, MaskX, MaskY, Spread, Fits, AtMost, UnitMove;
    Masks(step);
    WideMask(step);
    ShiftedCoordinates(bits, step, dx, dy);
    ShiftedCoordinates(bits, step, ex, ey);
    TurnsDiffer(Lat(bits), dy, ey, Mask(step));
    TurnsDiffer(Lon(bits), dx, ex, Mask(step));
  }
}
