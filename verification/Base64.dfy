/** Base64 text of byte strings, in lines of at most 76 characters (section 6.8 of RFC 2045). */
module Base64 {
  import opened Basics
  import opened Shifts

  const BAD_VALUE: nat := 100

  // ---------------------------------------------------------------- the alphabet

  /** The character that stands for a six-bit value. */
  function CharOf(v: nat): (c: char)
    requires v < 64
    ensures (c as int) < 128
  {
    if v < 26 then ('A' as int + v) as char
    else if v < 52 then ('a' as int + v - 26) as char
    else if v < 62 then ('0' as int + v - 52) as char
    else if v == 62 then '+'
    else '/'
  }

  /** The six-bit value of a character, or the mark of a character outside the alphabet. */
  function Place(c: char): (v: nat)
  {
    if 'A' <= c <= 'Z' then c as int - 'A' as int
    else if 'a' <= c <= 'z' then c as int - 'a' as int + 26
    else if '0' <= c <= '9' then c as int - '0' as int + 52
    else if c == '+' then 62
    else if c == '/' then 63
    else BAD_VALUE
  }

  lemma PlaceOfChar(v: nat)
    requires v < 64
    ensures Place(CharOf(v)) == v && CharOf(v) != '='
  {
  }

  lemma CharOfPlace(c: char)
    requires Place(c) != BAD_VALUE
    ensures Place(c) < 64 && CharOf(Place(c)) == c
  {
  }

  predicate IsEol(c: char)
  {
    c == '\r' || c == '\n'
  }

  /** Characters that carry data; all others are skipped. */
  predicate Counts(c: char)
  {
    Place(c) != BAD_VALUE || c == '='
  }

  // ---------------------------------------------------------------- groups

  /** All characters have an entry in the decoding table. */
  predicate Plain(s: string)
  {
    forall k :: 0 <= k < |s| ==> (s[k] as int) < 255
  }

  // The four six-bit fields of three bytes.

  function Six0(b0: Byte): (v: nat)
    ensures v < 64
  {
    b0 / 4
  }

  function Six1(b0: Byte, b1: Byte): (v: nat)
    ensures v == b0 % 4 * 16 + b1 / 16 < 64
  {
    OrByFour(b0 % 4, b1 / 16);
    BitOr(b0 % 4 * 16, b1 / 16)
  }

  function Six2(b1: Byte, b2: Byte): (v: nat)
    ensures v == b1 % 16 * 4 + b2 / 64 < 64
  {
    OrByTwo(b1 % 16, b2 / 64);
    BitOr(b1 % 16 * 4, b2 / 64)
  }

  function Six3(b2: Byte): (v: nat)
    ensures v < 64
  {
    b2 % 64
  }

  // The three bytes of four fields, in 8-bit arithmetic.

  function Byte0(v0: nat, v1: nat): (b: Byte)
  {
    BitOr(v0 * 4 % 256, v1 / 16) % 256
  }

  function Byte1(v1: nat, v2: nat): (b: Byte)
  {
    BitOr(v1 * 16 % 256, v2 / 4) % 256
  }

  function Byte2(v2: nat, v3: nat): (b: Byte)
  {
    BitOr(v2 * 64 % 256, v3) % 256
  }

  /** One to three bytes as four characters. */
  function GroupText(b: seq<Byte>): (s: string)
    requires 1 <= |b| <= 3
    ensures |s| == 4 && Plain(s)
  {
    var b1: Byte, b2: Byte := if |b| > 1 then b[1] else 0, if |b| > 2 then b[2] else 0;
    [CharOf(Six0(b[0])), CharOf(Six1(b[0], b1)),
     if |b| > 1 then CharOf(Six2(b1, b2)) else '=',
     if |b| > 2 then CharOf(Six3(b2)) else '=']
  }

  /** The bytes of four characters, by the padding at the end. */
  function GroupBytes(s: string): (b: seq<Byte>)
    requires |s| == 4
  {
    var v0, v1, v2, v3 := Place(s[0]), Place(s[1]), Place(s[2]), Place(s[3]);
    if s[3] != '=' then [Byte0(v0, v1), Byte1(v1, v2), Byte2(v2, v3)]
    else if s[2] != '=' then [Byte0(v0, v1), Byte1(v1, v2)]
    else [Byte0(v0, v1)]
  }

  lemma OrByTwo(x: nat, y: nat)
    requires y < 4
    ensures BitOr(x * 4, y) == x * 4 + y
  {
    assert ShiftUp(1, 2) == ShiftUp(2, 1) == ShiftUp(4, 0) == 4;
    assert ShiftUp(x, 2) == ShiftUp(2 * x, 1) == ShiftUp(4 * x, 0) == x * 4;
    OrIsAdd(x, 2, y);
  }

  lemma OrByFour(x: nat, y: nat)
    requires y < 16
    ensures BitOr(x * 16, y) == x * 16 + y
  {
    UpFour(1, 0);
    UpFour(x, 0);
    OrIsAdd(x, 4, y);
  }

  lemma OrBySix(x: nat, y: nat)
    requires y < 64
    ensures BitOr(x * 64, y) == x * 64 + y
  {
    UpFour(1, 2);
    UpFour(x, 2);
    assert ShiftUp(16, 2) == ShiftUp(32, 1) == ShiftUp(64, 0) == 64;
    assert ShiftUp(16 * x, 2) == ShiftUp(32 * x, 1) == ShiftUp(64 * x, 0) == x * 64;
    OrIsAdd(x, 6, y);
  }

  lemma FirstByte(b0: Byte, b1: Byte)
    ensures Byte0(Six0(b0), Six1(b0, b1)) == b0
  {
    hide BitOr;
    var h, l, m := b0 / 4, b0 % 4, b1 / 16;
    assert (l * 16 + m) / 16 == l;
    assert h * 4 % 256 == h * 4;
    OrByTwo(h, l);
  }

  lemma SecondByte(b0: Byte, b1: Byte, b2: Byte)
    ensures Byte1(Six1(b0, b1), Six2(b1, b2)) == b1
  {
    hide BitOr;
    var k, h, l, m := b0 % 4, b1 / 16, b1 % 16, b2 / 64;
    assert (l * 4 + m) / 4 == l;
    assert (k * 16 + h) * 16 == 256 * k + 16 * h;
    assert (k * 16 + h) * 16 % 256 == h * 16;
    OrByFour(h, l);
  }

  lemma ThirdByte(b1: Byte, b2: Byte)
    ensures Byte2(Six2(b1, b2), Six3(b2)) == b2
  {
    hide BitOr;
    var k, h, l := b1 % 16, b2 / 64, b2 % 64;
    assert (k * 4 + h) * 64 == 256 * k + 64 * h;
    assert (k * 4 + h) * 64 % 256 == h * 64;
    OrBySix(h, l);
  }

  lemma GroupRoundTrip(b: seq<Byte>)
    requires 1 <= |b| <= 3
    ensures GroupBytes(GroupText(b)) == b
    ensures forall k :: 0 <= k < 4 ==> Counts(GroupText(b)[k]) && !IsEol(GroupText(b)[k])
    ensures GroupText(b)[0] != '='
  {
    hide BitOr, CharOf, Place, Six0, Six1, Six2, Six3, Byte0, Byte1, Byte2;
    var b1: Byte, b2: Byte := if |b| > 1 then b[1] else 0, if |b| > 2 then b[2] else 0;
    FirstByte(b[0], b1);
    SecondByte(b[0], b1, b2);
    ThirdByte(b1, b2);
    GoodChar(Six0(b[0]));
    GoodChar(Six1(b[0], b1));
    GoodChar(Six2(b1, b2));
    GoodChar(Six3(b2));
  }

  lemma GoodChar(v: nat)
    requires v < 64
    ensures Place(CharOf(v)) == v && CharOf(v) != '=' && !IsEol(CharOf(v)) && Place(CharOf(v)) != BAD_VALUE
  {
  }

  // ---------------------------------------------------------------- whole texts

  /** The characters of an encoding without its line ends. */
  function Body(x: seq<Byte>): (s: string)
  {
    if |x| == 0 then "" else if |x| <= 3 then GroupText(x) else GroupText(x[..3]) + Body(x[3..])
  }

  lemma {:induction false} BodyWhole(x: seq<Byte>)
    ensures |Body(x)| % 4 == 0
  {
    hide GroupText;
    if |x| > 3 {
      BodyWhole(x[3..]);
    }
  }

  /** The bytes of the whole groups of a text. */
  function AllBytes(t: string): (x: seq<Byte>)
  {
    if |t| < 4 then [] else GroupBytes(t[..4]) + AllBytes(t[4..])
  }

  function Kept(s: string): (t: string)
  {
    if |s| == 0 then "" else Kept(s[..|s| - 1]) + (if Counts(s[|s| - 1]) then [s[|s| - 1]] else "")
  }

  /** The characters the decoder takes: a padding character in the very first place does not count. */
  function Significant(s: string): (t: string)
  {
    if |s| > 0 && s[0] == '=' then Kept(s[1..]) else Kept(s)
  }

  /** Decoding takes an encoding off the front of any text. */
  lemma {:induction false} BodyDecodes(x: seq<Byte>, t: string)
    ensures AllBytes(Body(x) + t) == x + AllBytes(t)
    decreases |x|
  {
    hide GroupText, GroupBytes, Counts, IsEol, Body, AllBytes;
    if |x| == 0 {
      EmptyText();
      assert x == [] && Body(x) + t == t;
    } else {
      var n := if |x| <= 3 then |x| else 3;
      var g, rest := GroupText(x[..n]), Body(x[n..]) + t;
      GroupRoundTrip(x[..n]);
      BodyDecodes(x[n..], t);
      BodySplit(x, n);
      assert Body(x) + t == g + rest;
      BytesOfFirst(g, rest);
      assert x[..n] + (x[n..] + AllBytes(t)) == x + AllBytes(t);
    }
  }

  lemma BytesOfFirst(g: string, t: string)
    requires |g| == 4
    ensures AllBytes(g + t) == GroupBytes(g) + AllBytes(t)
  {
    hide GroupBytes;
    assert (g + t)[..4] == g && (g + t)[4..] == t;
  }

  lemma BodySplit(x: seq<Byte>, n: nat)
    requires |x| > 0 && n == if |x| <= 3 then |x| else 3
    ensures Body(x) == GroupText(x[..n]) + Body(x[n..])
  {
    if |x| <= 3 {
      assert x[..n] == x && x[n..] == [];
    }
  }

  lemma {:induction false} BytesAppend(t: string, g: string)
    requires |t| % 4 == 0 && |g| == 4
    ensures AllBytes(t + g) == AllBytes(t) + GroupBytes(g)
    decreases |t|
  {
    hide GroupBytes;
    if |t| == 0 {
      assert t + g == g && g[..4] == g && g[4..] == "";
    } else {
      BytesAppend(t[4..], g);
      assert (t + g)[..4] == t[..4] && (t + g)[4..] == t[4..] + g;
    }
  }

  lemma {:induction false} KeptConcat(s: string, t: string)
    ensures Kept(s + t) == Kept(s) + Kept(t)
    decreases |t|
  {
    if |t| == 0 {
      assert s + t == s;
    } else {
      KeptConcat(s, t[..|t| - 1]);
      assert (s + t)[..|s + t| - 1] == s + t[..|t| - 1];
    }
  }

  lemma {:induction false} KeptAll(s: string)
    requires forall k :: 0 <= k < |s| ==> Counts(s[k])
    ensures Kept(s) == s
  {
    if |s| > 0 {
      KeptAll(s[..|s| - 1]);
    }
  }

  lemma {:induction false} KeptNone(s: string)
    requires forall k :: 0 <= k < |s| ==> IsEol(s[k])
    ensures Kept(s) == ""
  {
    if |s| > 0 {
      KeptNone(s[..|s| - 1]);
    }
  }

  lemma SignificantStep(s: string, i: nat)
    requires i < |s|
    ensures Significant(s[..i + 1])
            == Significant(s[..i]) + if Counts(s[i]) && !(i == 0 && s[i] == '=') then [s[i]] else ""
  {
    hide Counts;
    if i > 0 && s[0] == '=' {
      var t, u := s[..i + 1], s[..i];
      assert t[1..][..i - 1] == u[1..];
    } else if i > 0 {
      assert s[..i + 1][..i] == s[..i];
    } else if s[0] == '=' {
      assert s[..1][1..] == "" && s[..0] == "";
    } else {
      assert s[..1][..0] == "" && s[..0] == "";
    }
  }

  /** A text that carries the encoding of `x`, however it is broken into lines. */
  ghost predicate Encodes(s: string, x: seq<Byte>)
  {
    Kept(s) == Body(x) && (|s| > 0 ==> s[0] != '=')
  }

  /** All parts one after the other. */
  function Flat<T>(parts: seq<seq<T>>): (whole: seq<T>)
  {
    if |parts| == 0 then [] else parts[0] + Flat(parts[1..])
  }

  ghost function Bodies(inputs: seq<seq<Byte>>): (s: string)
  {
    if |inputs| == 0 then "" else Body(inputs[0]) + Bodies(inputs[1..])
  }

  lemma {:induction false} BodiesDecode(inputs: seq<seq<Byte>>)
    ensures |Bodies(inputs)| % 4 == 0 && AllBytes(Bodies(inputs)) == Flat(inputs)
  {
    hide Body, AllBytes;
    if |inputs| == 0 {
      NoText();
    } else {
      BodiesDecode(inputs[1..]);
      BodyWhole(inputs[0]);
      BodyDecodes(inputs[0], Bodies(inputs[1..]));
    }
  }

  lemma {:induction false} KeptTexts(texts: seq<string>, inputs: seq<seq<Byte>>)
    requires |texts| == |inputs| && forall i :: 0 <= i < |texts| ==> Encodes(texts[i], inputs[i])
    ensures Kept(Flat(texts)) == Bodies(inputs) && (|Flat(texts)| > 0 ==> Flat(texts)[0] != '=')
  {
    hide Body, Kept;
    if |texts| == 0 {
      EmptyText();
    } else {
      KeptTexts(texts[1..], inputs[1..]);
      KeptConcat(texts[0], Flat(texts[1..]));
      assert Encodes(texts[0], inputs[0]);
    }
  }

  /** Any number of encodings one after the other, whatever their line ends, decode to their inputs one after the
      other. */
  lemma ConcatenationDecodes(texts: seq<string>, inputs: seq<seq<Byte>>)
    requires |texts| == |inputs| && forall i :: 0 <= i < |texts| ==> Encodes(texts[i], inputs[i])
    ensures |Significant(Flat(texts))| % 4 == 0 && AllBytes(Significant(Flat(texts))) == Flat(inputs)
  {
    hide Body, AllBytes, Kept, Encodes, Flat;
    KeptTexts(texts, inputs);
    BodiesDecode(inputs);
  }

  lemma NoText()
    ensures AllBytes("") == []
  {
  }

  // ---------------------------------------------------------------- lines

  /** How many characters there are after the last line end. */
  function Column(s: string): (n: nat)
  {
    if |s| == 0 || IsEol(s[|s| - 1]) then 0 else Column(s[..|s| - 1]) + 1
  }

  /** No line is longer than 76 characters. */
  ghost predicate LinesOk(s: string)
  {
    forall k :: 0 <= k <= |s| ==> Column(s[..k]) <= 76
  }

  lemma OneMore(s: string, c: char)
    requires LinesOk(s) && (IsEol(c) || Column(s) < 76)
    ensures LinesOk(s + [c]) && Column(s + [c]) == if IsEol(c) then 0 else Column(s) + 1
  {
    var t := s + [c];
    assert t[..|s|] == s;
    forall k | 0 <= k <= |t| ensures Column(t[..k]) <= 76 {
      if k <= |s| {
        assert t[..k] == s[..k];
      } else {
        assert t[..k] == t;
        assert s[..|s|] == s;
      }
    }
  }

  lemma GroupOnLine(s: string, g: string)
    requires LinesOk(s) && Column(s) <= 72 && |g| == 4 && forall k :: 0 <= k < 4 ==> !IsEol(g[k])
    ensures LinesOk(s + g) && Column(s + g) == Column(s) + 4
  {
    hide LinesOk, Column;
    OneMore(s, g[0]);
    OneMore(s + [g[0]], g[1]);
    OneMore(s + [g[0]] + [g[1]], g[2]);
    OneMore(s + [g[0]] + [g[1]] + [g[2]], g[3]);
    assert s + g == s + [g[0]] + [g[1]] + [g[2]] + [g[3]];
  }

  datatype EolStyle = CR | LF | CRLF

  function Eol(style: EolStyle): (s: string)
    ensures 1 <= |s| <= 2 && forall k :: 0 <= k < |s| ==> IsEol(s[k])
  {
    match style
    case CR => "\r"
    case LF => "\n"
    case CRLF => "\r\n"
  }

  /** A text cut into lines of 76 characters, with line ends between them and none at the end. */
  function Wrapped(s: string, eol: string): (t: string)
  {
    if |s| <= 76 then s else s[..76] + eol + Wrapped(s[76..], eol)
  }

  /** Four more characters on a line with room. */
  lemma {:induction false} WrapSameLine(b: string, g: string, eol: string)
    requires |g| == 4 && |b| % 4 == 0 && (|b| == 0 || |b| % 76 != 0)
    ensures Wrapped(b + g, eol) == Wrapped(b, eol) + g
    decreases |b|
  {
    if |b| > 76 {
      WrapSameLine(b[76..], g, eol);
      assert (b + g)[..76] == b[..76] && (b + g)[76..] == b[76..] + g;
      assert b[..76] + eol + (Wrapped(b[76..], eol) + g) == b[..76] + eol + Wrapped(b[76..], eol) + g;
    }
  }

  /** Four more characters after a full line. */
  lemma {:induction false} WrapNewLine(b: string, g: string, eol: string)
    requires |g| == 4 && |b| > 0 && |b| % 76 == 0
    ensures Wrapped(b + g, eol) == Wrapped(b, eol) + eol + g
    decreases |b|
  {
    assert (b + g)[..76] == b[..76] && (b + g)[76..] == b[76..] + g;
    if |b| > 76 {
      WrapNewLine(b[76..], g, eol);
      assert b[..76] + eol + (Wrapped(b[76..], eol) + eol + g) == b[..76] + eol + Wrapped(b[76..], eol) + eol + g;
    } else {
      assert b[76..] + g == g && b[..76] == b;
    }
  }

  // ---------------------------------------------------------------- the coder

  class Coder {
    const encodeTable: array<char>
    const decodeTable: array<nat>
    var eolStyle: EolStyle

    ghost predicate Valid()
      reads encodeTable, decodeTable
    {
      && encodeTable.Length == 64 && (forall v :: 0 <= v < 64 ==> encodeTable[v] == CharOf(v))
      && decodeTable.Length == 255 && (forall c: char :: (c as int) < 255 ==> decodeTable[c as int] == Place(c))
    }

    constructor ()
      ensures Valid() && eolStyle == LF
    {
      eolStyle := LF;
      encodeTable := new char[64](v => if 0 <= v < 64 then CharOf(v) else '=');
      decodeTable := new nat[255];
      new;
      var i := 0;
      while i < 255
        invariant 0 <= i <= 255 && encodeTable.Length == 64 && decodeTable.Length == 255 && eolStyle == LF
        invariant forall v :: 0 <= v < 64 ==> encodeTable[v] == CharOf(v)
        invariant forall k :: 0 <= k < i ==> decodeTable[k] == BAD_VALUE
      {
        decodeTable[i] := BAD_VALUE;
        i := i + 1;
      }
      i := 0;
      while i < 64
        invariant 0 <= i <= 64 && encodeTable.Length == 64 && decodeTable.Length == 255 && eolStyle == LF
        invariant forall v :: 0 <= v < 64 ==> encodeTable[v] == CharOf(v)
        invariant forall c: char ::
                    (c as int) < 255 ==> decodeTable[c as int] == if Place(c) < i then Place(c) else BAD_VALUE
      {
        PlaceOfChar(i);
        forall c: char | Place(c) == i ensures c == CharOf(i) {
          CharOfPlace(c);
        }
        decodeTable[encodeTable[i] as int] := i;
        i := i + 1;
      }
      forall c: char | (c as int) < 255 ensures decodeTable[c as int] == Place(c) {
        if Place(c) != BAD_VALUE {
          CharOfPlace(c);
        }
      }
    }

    method WriteEol(out0: string) returns (out: string)
      requires LinesOk(out0)
      ensures LinesOk(out) && Column(out) == 0 && Kept(out) == Kept(out0) && out == out0 + Eol(eolStyle)
      ensures Plain(out0) ==> Plain(out)
    {
      hide LinesOk, Column, Kept, Counts;
      var ch;
      match eolStyle {
        case CR =>
          ch := "\r";
        case LF =>
          ch := "\n";
        case CRLF =>
          ch := "\r\n";
      }
      EolEnds(out0, ch);
      out := out0 + ch;
    }

    /** The characters of one group, by table. */
    method WriteGroup(inbuf: seq<Byte>) returns (outbuf: string)
      requires Valid() && 1 <= |inbuf| <= 3
      ensures outbuf == GroupText(inbuf)
    {
      hide CharOf, Place;
      if |inbuf| == 3 {
        outbuf := [encodeTable[Six0(inbuf[0])], encodeTable[Six1(inbuf[0], inbuf[1])],
                   encodeTable[Six2(inbuf[1], inbuf[2])], encodeTable[Six3(inbuf[2])]];
      } else if |inbuf| == 2 {
        outbuf := [encodeTable[Six0(inbuf[0])], encodeTable[Six1(inbuf[0], inbuf[1])],
                   encodeTable[Six2(inbuf[1], 0)], '='];
      } else {
        outbuf := [encodeTable[Six0(inbuf[0])], encodeTable[Six1(inbuf[0], 0)], '=', '='];
      }
    }

    method Encode(x: seq<Byte>) returns (out: string)
      requires Valid()
      ensures out == Wrapped(Body(x), Eol(eolStyle))
      ensures Kept(out) == Body(x) && LinesOk(out) && Plain(out)
      ensures |out| > 0 ==> out[0] != '='
    {
      hide CharOf, Place, GroupText, LinesOk, Column, Kept, Body, Valid, Counts, IsEol, Wrapped, Eol;
      out := "";
      EmptyText();
      var counter, i := 19, 0;
      ghost var lines := 1;
      assert x[..0] == [];
      while i != |x|
        invariant 0 <= i <= |x| && (i == |x| || i % 3 == 0)
        invariant 0 <= counter <= 19 && LinesOk(out) && Column(out) == 4 * (19 - counter)
        invariant Kept(out) == Body(x[..i]) && Plain(out)
        invariant |out| > 0 ==> out[0] != '='
        invariant out == Wrapped(Body(x[..i]), Eol(eolStyle)) && OnLine(|Body(x[..i])|, lines, counter)
      {
        var n := if |x| - i < 3 then |x| - i else 3;
        GroupWrapped(out, x, i, n, Eol(eolStyle), lines, counter);
        if counter == 0 {
          counter, lines := 19, lines + 1;
          out := WriteEol(out);
        }
        counter := counter - 1;
        var g := WriteGroup(x[i..i + n]);
        GroupWritten(out, x, i, n);
        out := out + g;
        i := i + n;
      }
      assert x[..i] == x;
    }

    /** The bytes of one group, by table. */
    method DecodeGroup(inbuf: string) returns (outbuf: seq<Byte>)
      requires Valid() && |inbuf| == 4 && Plain(inbuf)
      ensures outbuf == GroupBytes(inbuf)
    {
      hide Place, CharOf, Byte0, Byte1, Byte2;
      var outsize := 3;
      if inbuf[3] == '=' {
        if inbuf[2] == '=' {
          outsize := 1;
        } else {
          outsize := 2;
        }
      }
      var v0, v1 := decodeTable[inbuf[0] as int], decodeTable[inbuf[1] as int];
      var v2, v3 := decodeTable[inbuf[2] as int], decodeTable[inbuf[3] as int];
      outbuf := [Byte0(v0, v1), Byte1(v1, v2), Byte2(v2, v3)][..outsize];
    }

    /** Whether a character is taken; a padding character is not, as the very first one. */
    method Takes(c: char, first: bool) returns (takes: bool)
      requires Valid() && (c as int) < 255
      ensures takes == (Counts(c) && !(first && c == '='))
    {
      takes := decodeTable[c as int] != BAD_VALUE || (!first && c == '=');
    }

    /** Reads one character at a time into a buffer of four; what is left in the buffer at the end is an error. */
    method Decode(s: string) returns (ok: bool, out: seq<Byte>)
      requires Valid() && Plain(s)
      ensures ok <==> |Significant(s)| % 4 == 0
      ensures ok ==> out == AllBytes(Significant(s))
    {
      hide Significant, AllBytes, GroupBytes, Counts, Valid;
      var inbuf := "";
      ghost var done := "";
      out := [];
      NoText();
      NothingSignificant();
      var i, more := 0, |s| > 0;
      assert s[..0] == "";
      if more {
        SignificantStep(s, 0);
        var takes := Takes(s[0], true);
        if takes {
          inbuf := [s[0]];
        }
        i := 1;
      }
      while more
        invariant 0 <= i <= |s| && |inbuf| <= 4 && |done| % 4 == 0
        invariant Significant(s[..i]) == done + inbuf && out == AllBytes(done)
        invariant more ==> i > 0
        invariant !more ==> i == |s| && |inbuf| < 4
        invariant Plain(inbuf)
        decreases more, |s| - i
      {
        if |inbuf| == 4 {
          var bytes := DecodeGroup(inbuf);
          BytesAppend(done, inbuf);
          done, out, inbuf := done + inbuf, out + bytes, "";
          assert done + inbuf == done;
        }
        more := i < |s|;
        if more {
          SignificantStep(s, i);
          var takes := Takes(s[i], false);
          if takes {
            assert done + (inbuf + [s[i]]) == done + inbuf + [s[i]];
            inbuf := inbuf + [s[i]];
          }
          i := i + 1;
        }
      }
      assert s[..i] == s && done + "" == done;
      ok := |inbuf| == 0;
    }
  }

  lemma NothingSignificant()
    ensures Significant("") == ""
  {
  }

  lemma GroupWritten(out: string, x: seq<Byte>, i: nat, n: nat)
    requires i % 3 == 0 && i < |x| && n == if |x| - i < 3 then |x| - i else 3
    requires LinesOk(out) && Column(out) <= 72 && Kept(out) == Body(x[..i]) && (|out| > 0 ==> out[0] != '=')
    ensures var out' := out + GroupText(x[i..i + n]);
            && LinesOk(out') && Column(out') == Column(out) + 4 && Kept(out') == Body(x[..i + n])
            && |out'| > 0 && out'[0] != '='
  {
    hide CharOf, Place, GroupText, LinesOk, Column, Kept, Body, IsEol, Counts;
    var g := GroupText(x[i..i + n]);
    GroupRoundTrip(x[i..i + n]);
    GroupOnLine(out, g);
    KeptConcat(out, g);
    KeptAll(g);
    BodyAppend(x, i, n);
  }

  /** `n` characters on so many lines, with room for `counter` more groups on the last. */
  predicate OnLine(n: nat, lines: nat, counter: nat)
  {
    lines >= 1 && counter <= 19 && n == 76 * lines - 4 * counter && (counter == 19 ==> lines == 1)
  }

  lemma LineFull(n: nat, lines: nat, counter: nat)
    requires OnLine(n, lines, counter)
    ensures n % 4 == 0 && (counter == 0 ==> n > 0 && n % 76 == 0) && (counter != 0 ==> n == 0 || n % 76 != 0)
  {
    if counter == 0 {
      DivisionIs(n, 76, lines, 0);
    } else {
      DivisionIs(n, 76, lines - 1, 76 - 4 * counter);
    }
    DivisionIs(n, 4, 19 * lines - counter, 0);
  }

  /** One turn of the encoding loop keeps the text wrapped. */
  lemma GroupWrapped(out: string, x: seq<Byte>, i: nat, n: nat, eol: string, lines: nat, counter: nat)
    requires i % 3 == 0 && i < |x| && n == if |x| - i < 3 then |x| - i else 3
    requires out == Wrapped(Body(x[..i]), eol) && OnLine(|Body(x[..i])|, lines, counter)
    ensures Wrapped(Body(x[..i + n]), eol) == (if counter == 0 then out + eol else out) + GroupText(x[i..i + n])
    ensures if counter == 0 then OnLine(|Body(x[..i + n])|, lines + 1, 18)
            else OnLine(|Body(x[..i + n])|, lines, counter - 1)
  {
    hide GroupText, Body, Wrapped;
    var b, g := Body(x[..i]), GroupText(x[i..i + n]);
    BodyAppend(x, i, n);
    LineFull(|b|, lines, counter);
    if counter == 0 {
      WrapNewLine(b, g, eol);
    } else {
      WrapSameLine(b, g, eol);
    }
  }

  lemma EmptyText()
    ensures Kept("") == "" && LinesOk("") && Column("") == 0 && Body([]) == "" && forall eol :: Wrapped("", eol) == ""
  {
  }

  lemma EolEnds(out: string, eol: string)
    requires LinesOk(out) && 1 <= |eol| <= 2 && forall k :: 0 <= k < |eol| ==> IsEol(eol[k])
    ensures LinesOk(out + eol) && Column(out + eol) == 0 && Kept(out + eol) == Kept(out)
  {
    hide LinesOk, Column, Kept, Counts, IsEol;
    KeptConcat(out, eol);
    KeptNone(eol);
    OneMore(out, eol[0]);
    if |eol| == 2 {
      OneMore(out + [eol[0]], eol[1]);
      assert out + eol == out + [eol[0]] + [eol[1]];
    } else {
      assert out + eol == out + [eol[0]];
    }
  }

  /** One more group at the end. */
  lemma {:induction false} BodyAppend(x: seq<Byte>, i: nat, n: nat)
    requires i % 3 == 0 && i < |x| && n == if |x| - i < 3 then |x| - i else 3
    ensures Body(x[..i + n]) == Body(x[..i]) + GroupText(x[i..i + n])
    decreases i
  {
    hide GroupText;
    if i == 0 {
      assert x[..0] == [] && x[..n] == x[0..n];
      assert Body(x[..n]) == GroupText(x[..n]);
    } else {
      var y := x[3..];
      BodyAppend(y, i - 3, n);
      BodySplit(x[..i + n], 3);
      BodySplit(x[..i], 3);
      assert x[..i + n][..3] == x[..3] == x[..i][..3];
      assert x[..i + n][3..] == y[..i - 3 + n] && x[..i][3..] == y[..i - 3];
      assert y[i - 3..i - 3 + n] == x[i..i + n];
      assert Body(x[..i + n]) == GroupText(x[..3]) + (Body(y[..i - 3]) + GroupText(x[i..i + n]));
    }
  }

  /** Any number of encodings, each with its own line ends, one after the other: decoding gives back all inputs. */
  method RoundTrip(coder: Coder, inputs: seq<seq<Byte>>, styles: seq<EolStyle>) returns (ok: bool, out: seq<Byte>)
    requires coder.Valid() && |styles| == |inputs|
    modifies coder`eolStyle
    ensures ok && out == Flat(inputs)
  {
    hide Kept, Body, AllBytes, Significant, LinesOk, Place, Flat, Wrapped;
    var texts: seq<string>, all := [], "";
    FlatNone<char>();
    for i := 0 to |inputs|
      invariant |texts| == i && all == Flat(texts) && Plain(all)
      invariant forall k :: 0 <= k < i ==> Encodes(texts[k], inputs[k])
    {
      coder.eolStyle := styles[i];
      var s := coder.Encode(inputs[i]);
      FlatMore(texts, s);
      texts, all := texts + [s], all + s;
    }
    ConcatenationDecodes(texts, inputs);
    ok, out := coder.Decode(all);
  }

  lemma FlatNone<T>()
    ensures Flat<T>([]) == []
  {
  }

  lemma {:induction false} FlatMore<T>(parts: seq<seq<T>>, last: seq<T>)
    ensures Flat(parts + [last]) == Flat(parts) + last
  {
    if |parts| == 0 {
      assert parts + [last] == [last] && [last][1..] == [];
    } else {
      FlatMore(parts[1..], last);
      assert (parts + [last])[1..] == parts[1..] + [last];
      assert parts[0] + (Flat(parts[1..]) + last) == parts[0] + Flat(parts[1..]) + last;
    }
  }
}
