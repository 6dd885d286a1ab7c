/** Integers as a length byte and their significant bytes, and containers of whatever can be serialized. */
module Serialization {
  import opened Basics

  /** An integral type: whether it has a sign, and its size in bytes. */
  datatype IntType = IntType(signed: bool, size: nat)
  {
    predicate Valid()
    {
      1 <= size <= 8
    }

    /** The values of the type. */
    predicate Holds(v: int)
    {
      if signed then -(Half(size) as int) <= v < Half(size) else 0 <= v < Pow256(size)
    }

    /** The values that are written. The least value of a signed type is left out: it has no positive counterpart. */
    predicate Has(v: int)
    {
      if signed then Magnitude(v) < Half(size) else 0 <= v < Pow256(size)
    }
  }

  function Pow256(n: nat): (r: nat)
    ensures r > 0 && (n > 0 ==> r % 256 == 0)
  {
    if n == 0 then 1 else 256 * Pow256(n - 1)
  }

  function Half(n: nat): (r: nat)
    ensures n > 0 ==> 2 * r == Pow256(n)
  {
    if n == 0 then 0 else 128 * Pow256(n - 1)
  }

  function Magnitude(v: int): (m: nat)
  {
    if v < 0 then -v else v
  }

  // ---------------------------------------------------------------- bytes of a magnitude

  /** The significant bytes, lowest first; at least one. */
  function Bytes(m: nat): (b: seq<Byte>)
    ensures |b| >= 1
  {
    if m < 256 then [m] else [m % 256] + Bytes(m / 256)
  }

  function Amount(b: seq<Byte>): (m: nat)
  {
    if |b| == 0 then 0 else b[0] + 256 * Amount(b[1..])
  }

  lemma {:induction false} AmountOfBytes(m: nat)
    ensures Amount(Bytes(m)) == m
  {
    if m < 256 {
      assert [m][1..] == [];
    } else {
      AmountOfBytes(m / 256);
      assert Bytes(m)[1..] == Bytes(m / 256);
    }
  }

  /** A number below `256^n` needs no more than `n` bytes, and needs all of those it gets. */
  lemma {:induction false} BytesLength(m: nat, n: nat)
    requires n >= 1
    ensures |Bytes(m)| <= n <==> m < Pow256(n)
  {
    if m >= 256 {
      if n == 1 {
        assert Pow256(1) == 256 * Pow256(0);
      } else {
        BytesLength(m / 256, n - 1);
        assert m < 256 * Pow256(n - 1) <==> m / 256 < Pow256(n - 1);
      }
    } else {
      PowGrows(n);
    }
  }

  lemma {:induction false} PowGrows(n: nat)
    requires n >= 1
    ensures Pow256(n) >= 256
  {
    if n > 1 {
      PowGrows(n - 1);
    }
  }

  lemma AmountLast(b: seq<Byte>, i: nat)
    requires i < |b|
    ensures Amount(b[i..]) == b[i] + 256 * Amount(b[i + 1..])
  {
    assert b[i..][1..] == b[i + 1..];
  }

  // ---------------------------------------------------------------- packing

  /** What `pack_int` writes: the byte count, with the top bit for the sign, and the bytes of the magnitude. */
  function Packed(v: int): (out: seq<Byte>)
    requires |Bytes(Magnitude(v))| <= 8
  {
    [|Bytes(Magnitude(v))| + (if v < 0 then 128 else 0)] + Bytes(Magnitude(v))
  }

  lemma FitsEight(t: IntType, v: int)
    requires t.Valid() && t.Has(v)
    ensures Magnitude(v) < Pow256(t.size) && |Bytes(Magnitude(v))| <= t.size
  {
    BytesLength(Magnitude(v), t.size);
  }

  method PackInt(t: IntType, value: int) returns (out: seq<Byte>)
    requires t.Valid() && t.Has(value)
    ensures |Bytes(Magnitude(value))| <= t.size && out == Packed(value)
  {
    hide Pow256, Half, Bytes;
    FitsEight(t, value);
    var item, neg := value, 0;
    if item < 0 {
      neg := 128;
      item := item * -1;
    }
    var buf: seq<Byte>, size := [], 0;
    ghost var m := item;
    for i := 0 to t.size
      invariant |buf| == i && item >= 0 && buf + Bytes(item) == Bytes(m)
    {
      var low: Byte := item % 256;
      BytesStep(item);
      assert buf + ([low] + Bytes(item / 256)) == buf + [low] + Bytes(item / 256);
      buf := buf + [low];
      item := item / 256;
      if item == 0 {
        size := i + 1;
        break;
      }
    }
    if size == 0 {
      size := t.size;
    }
    out := [size + neg] + buf;
  }

  lemma BytesStep(m: nat)
    ensures m >= 256 ==> Bytes(m) == [m % 256] + Bytes(m / 256)
    ensures m < 256 ==> Bytes(m) == [m % 256] && m / 256 == 0
  {
  }

  // ---------------------------------------------------------------- unpacking

  /** `x` reduced to the width of a type, in two's complement. */
  function Wrap(t: IntType, x: int): (r: int)
    requires t.Valid()
  {
    var low := x % Pow256(t.size);
    if t.signed && Half(t.size) <= low then low - Pow256(t.size) else low
  }

  /** The length byte: bits 4 to 6 are reserved and ignored. A type without a sign keeps the sign bit as part of
      the length, which makes it too large. */
  function Length(t: IntType, b: Byte): (n: nat)
  {
    if t.signed then b % 16 else b / 128 * 128 + b % 16
  }

  /** What `unpack_int` reads: the value and the rest of the stream, or nothing. */
  function Unpacked(t: IntType, input: seq<Byte>): (r: Option<(int, seq<Byte>)>)
    requires t.Valid()
  {
    if |input| == 0 then None
    else
      var n := Length(t, input[0]);
      if n == 0 || n > t.size || |input| - 1 < n then None
      else
        var magnitude := Wrap(t, Amount(input[1..1 + n]));
        Some((if t.signed && input[0] >= 128 then Wrap(t, -magnitude) else magnitude, input[1 + n..]))
  }

  lemma WrapSmall(t: IntType, x: int)
    requires t.Valid() && t.Has(x)
    ensures Wrap(t, x) == x
  {
    hide Pow256, Half;
    var p := Pow256(t.size);
    DivisionIs(x, p, if x < 0 then -1 else 0, if x < 0 then x + p else x);
  }

  /** Reducing early or late makes no difference. */
  lemma WrapStep(t: IntType, x: int, b: Byte)
    requires t.Valid()
    ensures Wrap(t, Wrap(t, x) * 256 + b) == Wrap(t, x * 256 + b)
  {
    hide Wrap, Pow256;
    var p := Pow256(t.size);
    var k := WrapDiffers(t, x);
    assert (x + k * p) * 256 == x * 256 + (256 * k) * p;
    ModShift(x * 256 + b, 256 * k, p);
    WrapByRemainder(t, x * 256 + b + (256 * k) * p, x * 256 + b);
  }

  lemma WrapByRemainder(t: IntType, x: int, y: int)
    requires t.Valid() && x % Pow256(t.size) == y % Pow256(t.size)
    ensures Wrap(t, x) == Wrap(t, y)
  {
  }

  lemma WrapDiffers(t: IntType, x: int) returns (k: int)
    requires t.Valid()
    ensures Wrap(t, x) == x + k * Pow256(t.size)
  {
    var p := Pow256(t.size);
    var q := x / p;
    assert x % p == x + (-q) * p;
    k := if t.signed && Half(t.size) <= x % p then -q - 1 else -q;
    assert (-q - 1) * p == (-q) * p - p;
  }

  lemma ModShift(x: int, k: int, p: int)
    requires p > 0
    ensures (x + k * p) % p == x % p
  {
    var q, r := x / p, x % p;
    assert x + k * p == p * (q + k) + r;
    DivisionIs(x + k * p, p, q + k, r);
  }

  lemma WrapHolds(t: IntType, x: int)
    requires t.Valid()
    ensures t.Holds(Wrap(t, x))
  {
  }

  /** The magnitude of a value of the type and its sign make the value again, in the least value's case by wrapping
      twice. */
  lemma WrapMagnitude(u: IntType, v: int)
    requires u.Valid() && u.Holds(v)
    ensures Magnitude(v) < Pow256(u.size)
    ensures (if v < 0 then Wrap(u, -Wrap(u, Magnitude(v))) else Wrap(u, Magnitude(v))) == v
  {
    hide Wrap, Pow256, Half;
    if u.Has(v) {
      WrapSmall(u, Magnitude(v));
      WrapSmall(u, v);
    } else {
      WrapLeast(u);
    }
  }

  lemma WrapLeast(u: IntType)
    requires u.Valid() && u.signed
    ensures Wrap(u, Half(u.size)) + Half(u.size) == 0
  {
    DivisionIs(Half(u.size), Pow256(u.size), 0, Half(u.size));
  }

  lemma UnpackPackedAs(t: IntType, u: IntType, v: int, rest: seq<Byte>)
    requires t.Valid() && u.Valid() && t.Has(v) && Magnitude(v) < Pow256(u.size) && (v < 0 ==> u.signed)
    ensures |Bytes(Magnitude(v))| <= 8
    ensures Unpacked(u, Packed(v) + rest)
            == Some((if v < 0 then Wrap(u, -Wrap(u, Magnitude(v))) else Wrap(u, Magnitude(v)), rest))
  {
    hide Wrap, Pow256, Half, Bytes, Amount;
    var m := Magnitude(v);
    var n := |Bytes(m)|;
    FitsEight(t, v);
    BytesLength(m, u.size);
    var input := Packed(v) + rest;
    assert input[1..1 + n] == Bytes(m) && input[1 + n..] == rest;
    AmountOfBytes(m);
  }

  /** What was written for any type is recovered by reading as another exactly if the value is one of that type;
      then exactly the bytes written are consumed. */
  lemma UnpackPacked(t: IntType, u: IntType, v: int, rest: seq<Byte>)
    requires t.Valid() && u.Valid() && t.Has(v)
    ensures |Bytes(Magnitude(v))| <= 8
    ensures Unpacked(u, Packed(v) + rest) == Some((v, rest)) <==> u.Holds(v)
  {
    hide Wrap, Pow256, Half, Bytes, Amount, Packed, Unpacked;
    FitsEight(t, v);
    UnpackFails(t, u, v, rest);
    if u.Holds(v) {
      WrapMagnitude(u, v);
      UnpackPackedAs(t, u, v, rest);
    } else if Magnitude(v) < Pow256(u.size) && (v < 0 ==> u.signed) {
      UnpackPackedAs(t, u, v, rest);
      WrapHolds(u, Magnitude(v));
      WrapHolds(u, -Wrap(u, Magnitude(v)));
    }
  }

  /** Reading as another type fails exactly when the bytes are too many or a sign has no place to go. */
  lemma UnpackFails(t: IntType, u: IntType, v: int, rest: seq<Byte>)
    requires t.Valid() && u.Valid() && t.Has(v)
    ensures |Bytes(Magnitude(v))| <= 8
    ensures Unpacked(u, Packed(v) + rest) == None <==> Magnitude(v) >= Pow256(u.size) || (v < 0 && !u.signed)
  {
    hide Wrap, Pow256, Half, Bytes, Amount;
    FitsEight(t, v);
    BytesLength(Magnitude(v), u.size);
    var input := Packed(v) + rest;
    assert input[0] == Packed(v)[0];
  }

  method UnpackInt(t: IntType, input: seq<Byte>) returns (failed: bool, item: int, rest: seq<Byte>)
    requires t.Valid() && (|input| > 0 ==> Length(t, input[0]) != 0)
    ensures failed <==> Unpacked(t, input) == None
    ensures !failed ==> Unpacked(t, input) == Some((item, rest))
  {
    hide Wrap, Amount;
    item, rest := 0, input;
    if |input| == 0 {
      return true, item, rest;
    }
    var isNegative := t.signed && input[0] >= 128;
    var size := Length(t, input[0]);
    rest := input[1..];
    if size > t.size || |rest| < size {
      return true, item, rest;
    }
    var buf := rest[..size];
    assert buf == input[1..1 + size];
    rest := rest[size..];
    assert rest == input[1 + size..];
    item := ReadBytes(t, buf);
    if isNegative {
      item := Wrap(t, item * -1);
    }
    failed := false;
  }

  method ReadBytes(t: IntType, buf: seq<Byte>) returns (item: int)
    requires t.Valid() && |buf| > 0
    ensures item == Wrap(t, Amount(buf))
  {
    hide Wrap, Amount;
    item := 0;
    var i := |buf| - 1;
    WrapZero(t);
    NoBytes();
    assert buf[|buf|..] == [];
    while true
      invariant 0 <= i < |buf|
      invariant item == Wrap(t, Amount(buf[i + 1..]))
      decreases i
    {
      AmountLast(buf, i);
      WrapStep(t, Amount(buf[i + 1..]), buf[i]);
      item := Wrap(t, item * 256 + buf[i]);
      if i == 0 {
        break;
      }
      i := i - 1;
    }
    assert buf[0..] == buf;
  }

  lemma NoBytes()
    ensures Amount([]) == 0
  {
  }

  lemma WrapZero(t: IntType)
    requires t.Valid()
    ensures Wrap(t, 0) == 0
  {
  }

  // ---------------------------------------------------------------- containers

  /** A way to write values and to read them back off the front of a stream: which values can be written, and which
      values the reader has room for. */
  datatype Codec<!T> =
    Codec(has: T -> bool, holds: T -> bool, write: T -> seq<Byte>, read: seq<Byte> -> Option<(T, seq<Byte>)>)

  /** What `w` writes, `r` reads back, and consumes exactly that much. */
  ghost predicate ReadsBack<T(!new)>(w: Codec<T>, r: Codec<T>)
  {
    forall v, rest :: w.has(v) && r.holds(v) ==> r.read(w.write(v) + rest) == Some((v, rest))
  }

  function IntCodec(t: IntType): (c: Codec<int>)
    requires t.Valid()
  {
    Codec(v => t.Has(v),
          v => t.Holds(v),
          v => if |Bytes(Magnitude(v))| <= 8 then Packed(v) else [],
          input => Unpacked(t, input))
  }

  lemma IntReadsBack(t: IntType, u: IntType)
    requires t.Valid() && u.Valid()
    ensures ReadsBack(IntCodec(t), IntCodec(u))
  {
    var w, r := IntCodec(t), IntCodec(u);
    forall v, rest | w.has(v) && r.holds(v) ensures r.read(w.write(v) + rest) == Some((v, rest)) {
      UnpackPacked(t, u, v, rest);
    }
  }

  /** The type of a container's size. */
  const LENGTH: IntType := IntType(false, 8)

  predicate Sized(n: nat)
  {
    LENGTH.Has(n)
  }

  function WriteLength(n: nat): (out: seq<Byte>)
  {
    IntCodec(LENGTH).write(n)
  }

  lemma LengthReadsBack(n: nat, rest: seq<Byte>)
    requires Sized(n)
    ensures Unpacked(LENGTH, WriteLength(n) + rest) == Some((n, rest))
  {
    hide Unpacked, Packed;
    UnpackPacked(LENGTH, LENGTH, n, rest);
  }

  /** The items one after the other. */
  function WriteAll<T>(c: Codec<T>, items: seq<T>): (out: seq<Byte>)
  {
    if |items| == 0 then [] else c.write(items[0]) + WriteAll(c, items[1..])
  }

  function ReadAll<T>(c: Codec<T>, n: nat, input: seq<Byte>): (r: Option<(seq<T>, seq<Byte>)>)
    ensures r.Some? ==> |r.value.0| == n
  {
    if n == 0 then Some(([], input))
    else
      match c.read(input)
      case None => None
      case Some((item, rest)) =>
        match ReadAll(c, n - 1, rest)
        case None => None
        case Some((items, rest')) => Some(([item] + items, rest'))
  }

  predicate All<T>(p: T -> bool, items: seq<T>)
  {
    forall i :: 0 <= i < |items| ==> p(items[i])
  }

  lemma {:induction false} ReadsAllBack<T(!new)>(w: Codec<T>, r: Codec<T>, items: seq<T>, rest: seq<Byte>)
    requires ReadsBack(w, r) && All(w.has, items) && All(r.holds, items)
    ensures ReadAll(r, |items|, WriteAll(w, items) + rest) == Some((items, rest))
  {
    if |items| == 0 {
      assert WriteAll(w, items) + rest == rest && items == [];
    } else {
      var first, others := items[0], items[1..];
      ReadsAllBack(w, r, others, rest);
      assert WriteAll(w, items) + rest == w.write(first) + (WriteAll(w, others) + rest);
      assert r.read(w.write(first) + (WriteAll(w, others) + rest)) == Some((first, WriteAll(w, others) + rest));
      assert [first] + others == items;
    }
  }

  function VectorCodec<T>(c: Codec<T>): (v: Codec<seq<T>>)
  {
    Codec(items => Sized(|items|) && All(c.has, items),
          items => Sized(|items|) && All(c.holds, items),
          items => WriteLength(|items|) + WriteAll(c, items),
          input => match Unpacked(LENGTH, input)
                   case None => None
                   case Some((n, rest)) => if n < 0 then None else ReadAll(c, n, rest))
  }

  /** A vector written with one item codec is read back with another that reads the items back. */
  lemma VectorReadsBack<T(!new)>(w: Codec<T>, r: Codec<T>)
    requires ReadsBack(w, r)
    ensures ReadsBack(VectorCodec(w), VectorCodec(r))
  {
    hide Unpacked, Sized, All, WriteLength;
    var vw, vr := VectorCodec(w), VectorCodec(r);
    forall items, rest | vw.has(items) && vr.holds(items)
      ensures vr.read(vw.write(items) + rest) == Some((items, rest)) {
      assert vw.write(items) + rest == WriteLength(|items|) + (WriteAll(w, items) + rest);
      LengthReadsBack(|items|, WriteAll(w, items) + rest);
      ReadsAllBack(w, r, items, rest);
    }
  }

  /** Two values one after the other. */
  function PairCodec<A, B>(a: Codec<A>, b: Codec<B>): (c: Codec<(A, B)>)
  {
    Codec((p: (A, B)) => a.has(p.0) && b.has(p.1),
          (p: (A, B)) => a.holds(p.0) && b.holds(p.1),
          (p: (A, B)) => a.write(p.0) + b.write(p.1),
          input => match a.read(input)
                   case None => None
                   case Some((x, rest)) =>
                     match b.read(rest)
                     case None => None
                     case Some((y, rest')) => Some(((x, y), rest')))
  }

  lemma PairReadsBack<A(!new), B(!new)>(a: Codec<A>, b: Codec<B>, a': Codec<A>, b': Codec<B>)
    requires ReadsBack(a, a') && ReadsBack(b, b')
    ensures ReadsBack(PairCodec(a, b), PairCodec(a', b'))
  {
    var w, r := PairCodec(a, b), PairCodec(a', b');
    forall p: (A, B), rest | w.has(p) && r.holds(p) ensures r.read(w.write(p) + rest) == Some((p, rest)) {
      assert w.write(p) + rest == a.write(p.0) + (b.write(p.1) + rest);
      assert a'.read(a.write(p.0) + (b.write(p.1) + rest)) == Some((p.0, b.write(p.1) + rest));
      assert b'.read(b.write(p.1) + rest) == Some((p.1, rest));
    }
  }

  // ---------------------------------------------------------------- maps

  /** The order in which a map is walked through names every key once. */
  ghost predicate Walks<K(!new)>(order: set<K> -> seq<K>)
  {
    forall keys :: |order(keys)| == |keys| && forall k :: k in order(keys) <==> k in keys
  }

  /** Some order in which a set can be walked through. */
  ghost function Enumeration<K(!new)>(keys: set<K>): (e: seq<K>)
    ensures |e| == |keys| && forall k :: k in e <==> k in keys
    decreases |keys|
  {
    if keys == {} then []
    else
      var k :| k in keys;
      [k] + Enumeration(keys - {k})
  }

  lemma SomeOrderWalks<K(!new)>() returns (order: set<K> -> seq<K>)
    ensures Walks(order)
  {
    order := Enumeration;
  }

  lemma WalksOver<K(!new)>(order: set<K> -> seq<K>, keys: set<K>)
    requires Walks(order)
    ensures |order(keys)| == |keys| && forall k :: k in order(keys) <==> k in keys
  {
  }

  function Entries<K(!new), V>(order: set<K> -> seq<K>, m: map<K, V>): (e: seq<(K, V)>)
    requires Walks(order)
    ensures |e| == |m| && Agrees(e, m)
    ensures forall k :: k in m ==> Names(e, k)
  {
    var keys := order(m.Keys);
    WalksOver(order, m.Keys);
    assert forall i :: 0 <= i < |keys| ==> keys[i] in m;
    var e := seq(|keys|, i requires 0 <= i < |keys| => (keys[i], m[keys[i]]));
    assert forall k :: k in m ==> Names(e, k) by {
      forall k | k in m ensures Names(e, k) {
        assert k in keys;
        var i :| 0 <= i < |keys| && keys[i] == k;
        assert e[i].0 == k;
      }
    }
    e
  }

  ghost predicate Agrees<K, V>(e: seq<(K, V)>, m: map<K, V>)
  {
    forall i :: 0 <= i < |e| ==> e[i].0 in m && e[i].1 == m[e[i].0]
  }

  ghost predicate Names<K, V>(e: seq<(K, V)>, k: K)
  {
    exists i :: 0 <= i < |e| && e[i].0 == k
  }

  /** Entries put into an empty map one after the other. */
  function Filled<K, V>(entries: seq<(K, V)>): (m: map<K, V>)
  {
    if |entries| == 0 then map[] else
      var last := entries[|entries| - 1];
      Filled(entries[..|entries| - 1])[last.0 := last.1]
  }

  lemma {:induction false} FilledHas<K, V>(e: seq<(K, V)>, m: map<K, V>, k: K)
    requires Agrees(e, m)
    ensures k in Filled(e) <==> Names(e, k)
    ensures k in Filled(e) ==> k in m && Filled(e)[k] == m[k]
  {
    if |e| > 0 {
      var n := |e| - 1;
      var d := e[..n];
      assert forall i :: 0 <= i < n ==> d[i] == e[i];
      FilledHas(d, m, k);
      if Names(d, k) {
        var i :| 0 <= i < |d| && d[i].0 == k;
        assert e[i].0 == k;
      }
      if i :| 0 <= i < |e| && e[i].0 == k && i < n {
        assert d[i].0 == k;
      }
      if e[n].0 == k {
        assert Names(e, k);
      }
    }
  }

  lemma FilledEntries<K(!new), V>(order: set<K> -> seq<K>, m: map<K, V>)
    requires Walks(order)
    ensures Filled(Entries(order, m)) == m
  {
    hide Filled, Entries, Names, Agrees, Walks;
    var e := Entries(order, m);
    forall k ensures (k in Filled(e) <==> k in m) && (k in m ==> Filled(e)[k] == m[k]) {
      FilledHas(e, m, k);
    }
    assert Filled(e).Keys == m.Keys;
  }

  /** A size, that many pairs, and the map they fill. */
  function ReadMap<K, V>(pair: Codec<(K, V)>, input: seq<Byte>): (r: Option<(map<K, V>, seq<Byte>)>)
  {
    match Unpacked(LENGTH, input)
    case None => None
    case Some((n, rest)) =>
      if n < 0 then None else
        match ReadAll(pair, n, rest)
        case None => None
        case Some((entries, rest')) => Some((Filled(entries), rest'))
  }

  function MapCodec<K(!new), V>(order: set<K> -> seq<K>, a: Codec<K>, b: Codec<V>): (r: Codec<map<K, V>>)
    requires Walks(order)
  {
    var pair := PairCodec(a, b);
    Codec((m: map<K, V>) => Sized(|m|) && All(pair.has, Entries(order, m)),
          (m: map<K, V>) => Sized(|m|) && All(pair.holds, Entries(order, m)),
          (m: map<K, V>) => WriteLength(|m|) + WriteAll(pair, Entries(order, m)),
          input => ReadMap(pair, input))
  }

  lemma MapReadsBackAt<K(!new), V(!new)>(order: set<K> -> seq<K>, w: Codec<(K, V)>, r: Codec<(K, V)>, m: map<K, V>,
                                         rest: seq<Byte>)
    requires Walks(order) && ReadsBack(w, r) && Sized(|m|) && All(w.has, Entries(order, m))
             && All(r.holds, Entries(order, m))
    ensures ReadMap(r, WriteLength(|m|) + WriteAll(w, Entries(order, m)) + rest) == Some((m, rest))
  {
    hide Unpacked, Sized, All, WriteLength, WriteAll, ReadAll, Filled, Walks, Entries, ReadsBack;
    var e := Entries(order, m);
    assert WriteLength(|m|) + WriteAll(w, e) + rest == WriteLength(|m|) + (WriteAll(w, e) + rest);
    LengthReadsBack(|m|, WriteAll(w, e) + rest);
    ReadsAllBack(w, r, e, rest);
    FilledEntries(order, m);
  }

  /** Likewise a map, whatever order it is walked in. */
  lemma MapReadsBack<K(!new), V(!new)>(order: set<K> -> seq<K>, a: Codec<K>, b: Codec<V>, a': Codec<K>, b': Codec<V>)
    requires Walks(order) && ReadsBack(a, a') && ReadsBack(b, b')
    ensures ReadsBack(MapCodec(order, a, b), MapCodec(order, a', b'))
  {
    hide Sized, All, WriteLength, WriteAll, PairCodec, Walks, Entries, ReadMap;
    var pw, pr := PairCodec(a, b), PairCodec(a', b');
    var w, r := MapCodec(order, a, b), MapCodec(order, a', b');
    PairReadsBack(a, b, a', b');
    forall m: map<K, V>, rest | w.has(m) && r.holds(m) ensures r.read(w.write(m) + rest) == Some((m, rest)) {
      MapReadsBackAt(order, pw, pr, m, rest);
    }
  }

  // ---------------------------------------------------------------- any nesting

  /** Values of any nesting. */
  datatype Value =
    | IntV(n: int)
    | VectorV(items: seq<Value>)
    | PairV(both: (Value, Value))
    | MapV(entries: map<Value, Value>)

  /** A type: integers of some width, and vectors, pairs and maps of types. */
  datatype Schema =
    | IntS(t: IntType)
    | VectorS(item: Schema)
    | PairS(first: Schema, second: Schema)
    | MapS(key: Schema, value: Schema)

  predicate ValidSchema(s: Schema)
  {
    match s
    case IntS(t) => t.Valid()
    case VectorS(item) => ValidSchema(item)
    case PairS(first, second) => ValidSchema(first) && ValidSchema(second)
    case MapS(key, value) => ValidSchema(key) && ValidSchema(value)
  }

  /** The same nesting, with integers of any widths and signs. */
  predicate SameShape(s: Schema, t: Schema)
  {
    match s
    case IntS(_) => t.IntS?
    case VectorS(item) => t.VectorS? && SameShape(item, t.item)
    case PairS(first, second) => t.PairS? && SameShape(first, t.first) && SameShape(second, t.second)
    case MapS(key, value) => t.MapS? && SameShape(key, t.key) && SameShape(value, t.value)
  }

  /** A codec seen through an injection of its values. */
  function Adapted<T, U>(c: Codec<T>, wrap: T -> U, unwrap: U -> Option<T>): (r: Codec<U>)
  {
    Codec(u => match unwrap(u) case None => false case Some(t) => c.has(t),
          u => match unwrap(u) case None => false case Some(t) => c.holds(t),
          u => match unwrap(u) case None => [] case Some(t) => c.write(t),
          input => match c.read(input) case None => None case Some((t, rest)) => Some((wrap(t), rest)))
  }

  lemma AdaptedReadsBack<T(!new), U(!new)>(w: Codec<T>, r: Codec<T>, wrap: T -> U, unwrap: U -> Option<T>)
    requires ReadsBack(w, r) && forall u :: unwrap(u).Some? ==> wrap(unwrap(u).value) == u
    ensures ReadsBack(Adapted(w, wrap, unwrap), Adapted(r, wrap, unwrap))
  {
    var aw, ar := Adapted(w, wrap, unwrap), Adapted(r, wrap, unwrap);
    forall u, rest | aw.has(u) && ar.holds(u) ensures ar.read(aw.write(u) + rest) == Some((u, rest)) {
      var t := unwrap(u).value;
      assert r.read(w.write(t) + rest) == Some((t, rest));
    }
  }

  function MakeInt(n: int): (v: Value)
  {
    IntV(n)
  }

  function MakeVector(items: seq<Value>): (v: Value)
  {
    VectorV(items)
  }

  function MakePair(both: (Value, Value)): (v: Value)
  {
    PairV(both)
  }

  function MakeMap(entries: map<Value, Value>): (v: Value)
  {
    MapV(entries)
  }

  function UnInt(v: Value): (r: Option<int>)
  {
    if v.IntV? then Some(v.n) else None
  }

  function UnVector(v: Value): (r: Option<seq<Value>>)
  {
    if v.VectorV? then Some(v.items) else None
  }

  function UnPair(v: Value): (r: Option<(Value, Value)>)
  {
    if v.PairV? then Some(v.both) else None
  }

  function UnMap(v: Value): (r: Option<map<Value, Value>>)
  {
    if v.MapV? then Some(v.entries) else None
  }

  function SchemaCodec(order: set<Value> -> seq<Value>, s: Schema): (c: Codec<Value>)
    requires Walks(order) && ValidSchema(s)
    decreases s
  {
    match s
    case IntS(t) => Adapted(IntCodec(t), MakeInt, UnInt)
    case VectorS(item) => Adapted(VectorCodec(SchemaCodec(order, item)), MakeVector, UnVector)
    case PairS(first, second) =>
      Adapted(PairCodec(SchemaCodec(order, first), SchemaCodec(order, second)), MakePair, UnPair)
    case MapS(key, value) =>
      Adapted(MapCodec(order, SchemaCodec(order, key), SchemaCodec(order, value)), MakeMap, UnMap)
  }

  /** However vectors, pairs and maps are nested: what was written with some integer types is read back with others,
      for every value that both have room for, and exactly the bytes written are consumed. */
  lemma {:induction false} AnyNestingReadsBack(order: set<Value> -> seq<Value>, s: Schema, t: Schema)
    requires Walks(order) && ValidSchema(s) && ValidSchema(t) && SameShape(s, t)
    ensures ReadsBack(SchemaCodec(order, s), SchemaCodec(order, t))
    decreases s
  {
    hide ReadsBack, Walks, Adapted, IntCodec, VectorCodec, PairCodec, MapCodec;
    match s
    case IntS(it) =>
      IntReadsBack(it, t.t);
      AdaptedReadsBack(IntCodec(it), IntCodec(t.t), MakeInt, UnInt);
    case VectorS(item) =>
      AnyNestingReadsBack(order, item, t.item);
      var w, r := SchemaCodec(order, item), SchemaCodec(order, t.item);
      VectorReadsBack(w, r);
      AdaptedReadsBack(VectorCodec(w), VectorCodec(r), MakeVector, UnVector);
    case PairS(first, second) =>
      AnyNestingReadsBack(order, first, t.first);
      AnyNestingReadsBack(order, second, t.second);
      var w1, w2 := SchemaCodec(order, first), SchemaCodec(order, second);
      var r1, r2 := SchemaCodec(order, t.first), SchemaCodec(order, t.second);
      PairReadsBack(w1, w2, r1, r2);
      AdaptedReadsBack(PairCodec(w1, w2), PairCodec(r1, r2), MakePair, UnPair);
    case MapS(key, value) =>
      AnyNestingReadsBack(order, key, t.key);
      AnyNestingReadsBack(order, value, t.value);
      var w1, w2 := SchemaCodec(order, key), SchemaCodec(order, value);
      var r1, r2 := SchemaCodec(order, t.key), SchemaCodec(order, t.value);
      MapReadsBack(order, w1, w2, r1, r2);
      AdaptedReadsBack(MapCodec(order, w1, w2), MapCodec(order, r1, r2), MakeMap, UnMap);
  }

  // ---------------------------------------------------------------- the loops

  method SerializeVector<T>(c: Codec<T>, items: seq<T>) returns (out: seq<Byte>)
    ensures out == WriteLength(|items|) + WriteAll(c, items)
  {
    hide WriteLength;
    out := WriteLength(|items|);
    for i := 0 to |items|
      invariant out + WriteAll(c, items[i..]) == WriteLength(|items|) + WriteAll(c, items)
    {
      assert items[i..][0] == items[i] && items[i..][1..] == items[i + 1..];
      assert out + (c.write(items[i]) + WriteAll(c, items[i + 1..]))
             == out + c.write(items[i]) + WriteAll(c, items[i + 1..]);
      out := out + c.write(items[i]);
    }
    assert items[|items|..] == [];
    assert out + [] == out;
  }

  /** What remains to be read after `items`. */
  function Resume<T>(c: Codec<T>, items: seq<T>, n: nat, input: seq<Byte>): (r: Option<(seq<T>, seq<Byte>)>)
  {
    match ReadAll(c, n, input)
    case None => None
    case Some((more, rest)) => Some((items + more, rest))
  }

  lemma ResumeStep<T>(c: Codec<T>, items: seq<T>, n: nat, input: seq<Byte>)
    requires n > 0
    ensures c.read(input).None? ==> Resume(c, items, n, input) == None
    ensures c.read(input).Some? ==>
      var (item, rest) := c.read(input).value; Resume(c, items, n, input) == Resume(c, items + [item], n - 1, rest)
  {
    if c.read(input).Some? {
      var (item, rest) := c.read(input).value;
      match ReadAll(c, n - 1, rest)
      case None =>
      case Some((more, rest')) =>
        assert items + ([item] + more) == items + [item] + more;
    }
  }

  method DeserializeVector<T>(c: Codec<T>, input: seq<Byte>) returns (r: Option<(seq<T>, seq<Byte>)>)
    ensures r == VectorCodec(c).read(input)
  {
    hide Unpacked, ReadAll;
    var header := Unpacked(LENGTH, input);
    if header.None? || header.value.0 < 0 {
      return None;
    }
    var (n, start) := header.value;
    var items: seq<T>, rest := [], start;
    ResumeStart(c, n, start);
    for i := 0 to n
      invariant Resume(c, [], n, start) == Resume(c, items, n - i, rest)
    {
      ResumeStep(c, items, n - i, rest);
      match c.read(rest) {
        case None =>
          return None;
        case Some((item, rest')) =>
          items, rest := items + [item], rest';
      }
    }
    ResumeEnd(c, items, rest);
    r := Some((items, rest));
  }

  lemma ResumeStart<T>(c: Codec<T>, n: nat, input: seq<Byte>)
    ensures Resume(c, [], n, input) == ReadAll(c, n, input)
  {
    match ReadAll(c, n, input)
    case None =>
    case Some((more, rest)) =>
      assert [] + more == more;
  }

  lemma ResumeEnd<T>(c: Codec<T>, items: seq<T>, input: seq<Byte>)
    ensures Resume(c, items, 0, input) == Some((items, input))
  {
    assert items + [] == items;
  }

  /** What a pair codec reads: a first value, then a second one. */
  lemma PairReads<A, B>(a: Codec<A>, b: Codec<B>, input: seq<Byte>)
    ensures a.read(input).None? ==> PairCodec(a, b).read(input) == None
    ensures a.read(input).Some? && b.read(a.read(input).value.1).None? ==> PairCodec(a, b).read(input) == None
    ensures a.read(input).Some? && b.read(a.read(input).value.1).Some? ==>
              PairCodec(a, b).read(input)
              == Some(((a.read(input).value.0, b.read(a.read(input).value.1).value.0),
                       b.read(a.read(input).value.1).value.1))
  {
  }

  /** Keys and values in turn, each pair put into the map as it is read. */
  method ReadPairs<K(==), V>(a: Codec<K>, b: Codec<V>, n: nat, start: seq<Byte>)
    returns (r: Option<(map<K, V>, seq<Byte>)>)
    ensures r == match ReadAll(PairCodec(a, b), n, start)
                 case None => None
                 case Some((entries, rest)) => Some((Filled(entries), rest))
  {
    hide PairCodec, Resume, ReadAll, Filled;
    ghost var pair := PairCodec(a, b);
    var item: map<K, V>, rest := map[], start;
    ghost var entries: seq<(K, V)> := [];
    ResumeStart(pair, n, start);
    FilledNone<K, V>();
    for i := 0 to n
      invariant Resume(pair, [], n, start) == Resume(pair, entries, n - i, rest)
      invariant item == Filled(entries)
    {
      ResumeStep(pair, entries, n - i, rest);
      PairReads(a, b, rest);
      var first := a.read(rest);
      if first.None? {
        return None;
      }
      var (d, rest') := first.value;
      var second := b.read(rest');
      if second.None? {
        return None;
      }
      var (v, rest'') := second.value;
      FilledMore(entries, d, v);
      item, rest, entries := item[d := v], rest'', entries + [(d, v)];
    }
    ResumeEnd(pair, entries, rest);
    r := Some((item, rest));
  }

  method DeserializeMap<K(!new, ==), V>(ghost order: set<K> -> seq<K>, a: Codec<K>, b: Codec<V>, input: seq<Byte>)
    returns (r: Option<(map<K, V>, seq<Byte>)>)
    requires Walks(order)
    ensures r == MapCodec(order, a, b).read(input)
  {
    hide Unpacked, ReadAll, Walks, Filled, PairCodec;
    var header := Unpacked(LENGTH, input);
    if header.None? || header.value.0 < 0 {
      return None;
    }
    r := ReadPairs(a, b, header.value.0, header.value.1);
  }

  lemma FilledNone<K, V>()
    ensures Filled<K, V>([]) == map[]
  {
  }

  lemma FilledMore<K, V>(entries: seq<(K, V)>, d: K, v: V)
    ensures Filled(entries + [(d, v)]) == Filled(entries)[d := v]
  {
    assert (entries + [(d, v)])[..|entries|] == entries;
  }
}
