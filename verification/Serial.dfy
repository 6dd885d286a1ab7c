/** Serial-number arithmetic on 32-bit sequence numbers, after sections 3.1 and 3.2 of RFC 1982. */
module Serial {

  const WORD := 0x1_0000_0000
  const HALF := 0x8000_0000
  /** The modulus the additions use: the largest word, not the number of words. */
  const ADDITION_MODULO := 0xFFFF_FFFF

  type Word = n: nat | n < WORD

  /** `add_sequence_numbers`. */
  function Add(a: Word, b: Word): (r: Word)
  {
    (a + b) % ADDITION_MODULO
  }

  /** `subtract_sequence_numbers`, with the 32-bit wrap of the second branch written out. */
  function Subtract(a: Word, b: Word): (r: Word)
  {
    if a > b then a - b else (ADDITION_MODULO - b + a + 1) % WORD
  }

  /** `compare_seq_numbers`. */
  function Compare(a: Word, b: Word): (r: int)
  {
    if a == b then 0
    else if a < b then (if b - a < HALF then -1 else 1)
    else (if a - b > HALF then -1 else 1)
  }

  /** Addition is the addition of RFC 1982 exactly while the sum stays below 2^32 - 1. */
  lemma AddIsSerialIff(a: Word, b: Word)
    ensures Add(a, b) == (a + b) % WORD <==> a + b < ADDITION_MODULO
  {
    var s := a + b;
    if s < ADDITION_MODULO {
      assert s % ADDITION_MODULO == s && s % WORD == s;
    } else if s < WORD {
      assert s % ADDITION_MODULO == 0 && s % WORD == s;
    } else if s < 2 * ADDITION_MODULO {
      assert s % ADDITION_MODULO == s - ADDITION_MODULO && s % WORD == s - WORD;
    } else {
      assert s % ADDITION_MODULO == 0 && s % WORD == s - WORD;
    }
  }

  /** Subtraction undoes 32-bit addition, for all numbers. */
  lemma SubtractInvertsAdd(a: Word, d: Word)
    ensures Subtract((a + d) % WORD, a) == d
  {
    var s := a + d;
    assert s % WORD == if s < WORD then s else s - WORD;
  }

  /** Moving forward by `d` compares as later exactly while `d` is less than half the number space. */
  lemma CompareIsForwardDistance(a: Word, d: Word)
    ensures Compare(a, (a + d) % WORD) == if d == 0 then 0 else if d < HALF then -1 else 1
  {
    var s := a + d;
    assert s % WORD == if s < WORD then s else s - WORD;
  }

  /** Comparison is antisymmetric except across exactly half the number space, where section 3.2 leaves it undefined. */
  lemma CompareAntisymmetricIff(a: Word, b: Word)
    ensures Compare(a, b) == -Compare(b, a) <==> a - b != HALF && b - a != HALF
  {
  }

  /** Inside a window of less than 2^31 that does not reach 2^32 - 1, all three are the integer operations. */
  lemma WindowIsLinear(base: nat, length: nat, a: nat, b: nat)
    requires base + length < ADDITION_MODULO && length < HALF
    requires base <= a <= base + length && base <= b <= base + length
    ensures Compare(a, b) == if a < b then -1 else if a == b then 0 else 1
    ensures b <= a ==> Subtract(a, b) == a - b
    ensures forall n: nat :: a + n <= base + length ==> Add(a, n) == a + n
  {
  }

  /** `add_sequence_numbers` as 32-bit addition with the error the modulus causes. */
  lemma AddOverPays(q: Word, len: nat)
    requires len < HALF
    ensures Add(q, len) == if q + len < ADDITION_MODULO then q + len else (q + len + 1) % WORD
  {
    var s := q + len;
    if s >= ADDITION_MODULO {
      assert s % ADDITION_MODULO == s - ADDITION_MODULO;
      assert (s + 1) % WORD == s + 1 - WORD;
    }
  }

  /** An arriving segment of `len` bytes at `q` whose end does not compare as earlier than the expected number `e`,
      while its start does, is cut by the distance between the two. The cut goes past the end of the segment exactly
      when the segment reaches 2^32 - 1 and ended one byte short of the expected number. */
  lemma CutOverrunsIff(q: Word, len: nat, e: Word)
    requires len + 1 < HALF
    ensures (Compare(Add(q, len), e) >= 0 && Compare(q, e) < 0 && Subtract(e, q) > len)
            <==> (q + len >= ADDITION_MODULO && Subtract(e, q) == len + 1)
  {
    AddOverPays(q, len);
    var d := Subtract(e, q);
    var n := if q + len < ADDITION_MODULO then len else len + 1;
    assert (q + n) % WORD == if q + n < WORD then q + n else q + n - WORD;
    assert (q + d) % WORD == e;
  }

  /** Such a segment: one byte at 2^32 - 2 when 0 is expected is cut by two bytes. */
  lemma CutOverrunsAt()
    ensures var q: Word, e: Word := 0xFFFF_FFFE, 0;
            Add(q, 1) == 0 && Compare(Add(q, 1), e) == 0 && Compare(q, e) == -1 && Subtract(e, q) == 2
  {
  }

  /** The loop over fragments asks for an end that compares as later, and never cuts past the end. */
  lemma LoopCutStaysInside(q: Word, len: nat, e: Word)
    requires len + 1 < HALF
    requires Compare(q, e) < 0 && Compare(Add(q, len), e) > 0
    ensures Subtract(e, q) <= len
  {
    AddOverPays(q, len);
    var d := Subtract(e, q);
    var n := if q + len < ADDITION_MODULO then len else len + 1;
    assert (q + n) % WORD == if q + n < WORD then q + n else q + n - WORD;
    assert (q + d) % WORD == e;
  }
}
