/** `operator<<`: the decimal text of a number, written from the back of a buffer in groups of four digits. */
module Printing {
  import opened Basics
  import opened Digits
  import opened Kernel
  import opened Decimal

  function DigitChar(d: nat): (c: char)
    requires d < 10
    ensures IsDigit(c)
  {
    (d + '0' as int) as char
  }

  function FourDigits(r: nat): (s: string)
    requires r < 10000
    ensures |s| == 4 && AllDigits(s)
  {
    var q1 := r / 10;
    var q2 := q1 / 10;
    var q3 := q2 / 10;
    [DigitChar(q3), DigitChar(q2 % 10), DigitChar(q1 % 10), DigitChar(r % 10)]
  }

  lemma FourDigitsValue(r: nat)
    requires r < 10000
    ensures Numeric(FourDigits(r)) == r
  {
    var s := FourDigits(r);
    var q1 := r / 10;
    var q2 := q1 / 10;
    var q3 := q2 / 10;
    assert s[..3][..2] == s[..2] && s[..2][..1] == s[..1] && s[..1][..0] == "";
    assert Numeric(s[..1]) == q3;
    assert Numeric(s[..2]) == q2;
    assert Numeric(s[..3]) == q1;
  }

  /** The decimal digits of a remainder, lowest first. */
  method PullDigits(remainder: nat) returns (a: char, b: char, c: char, d: char)
    requires remainder < 10000
    ensures FourDigits(remainder) == [d, c, b, a]
  {
    var r := remainder;
    a := DigitChar(r % 10);
    r := r / 10;
    b := DigitChar(r % 10);
    r := r / 10;
    c := DigitChar(r % 10);
    r := r / 10;
    d := DigitChar(r % 10);
  }

  /** Four characters ending at `p`. */
  method PutGroup(str: array<char>, p: nat, remainder: nat)
    requires 3 <= p < str.Length && remainder < 10000
    modifies str
    ensures str[p - 3..p + 1] == FourDigits(remainder)
    ensures forall k :: 0 <= k < str.Length && !(p - 3 <= k <= p) ==> str[k] == old(str[k])
  {
    hide DigitChar;
    var a, b, c, d := PullDigits(remainder);
    str[p] := a;
    str[p - 1] := b;
    str[p - 2] := c;
    str[p - 3] := d;
  }

  /** The text so far, from the back of the buffer, and the quotient still to be printed. */
  ghost predicate Printed(text: string, temp: DataRecord, v: nat, u: nat, g: nat)
    reads temp, temp.number
  {
    && temp.Valid() && |text| == 4 * g && AllDigits(text)
    && Numeric(text) + Tens(temp.Value(), 4 * g) == v
    && (Canonical(temp.Numeral()) || temp.digitsUsed + g <= u)
  }

  /** There is room for one more group as long as anything is left to print. */
  lemma RoomForGroup(text: string, temp: DataRecord, v: nat, u: nat, g: nat)
    requires Printed(text, temp, v, u, g) && v < Scale(1, u)
    requires temp.digitsUsed != 1 || temp.number[0] != 0
    ensures 4 * g < 5 * u && (Canonical(temp.Numeral()) ==> temp.Value() > 0)
  {
    hide Val, Scale, Tens, Numeric;
    var left := temp.Value();
    if left == 0 && Canonical(temp.Numeral()) {
      CanonicalZero(temp.Numeral());
    }
    if left > 0 && 5 * u <= 4 * g {
      TensMonotone(1, left, 4 * g);
      TextFits(u);
      TensGrow(4 * ((5 * u + 3) / 4), 4 * g);
    }
  }

  lemma GroupInFront(text: string, quotient: nat, r: nat, before: nat, g: nat)
    requires r < 10000 && AllDigits(text) && |text| == 4 * g && before == Product(quotient, 10000) + r
    ensures AllDigits(FourDigits(r) + text)
    ensures Numeric(FourDigits(r) + text) + Tens(quotient, 4 * g + 4) == Numeric(text) + Tens(before, 4 * g)
  {
    hide Numeric, Tens, FourDigits;
    FourDigitsValue(r);
    NumericConcat(FourDigits(r), text);
    TensFour(quotient, 4 * g);
    ProductIs(quotient, 10000);
    TensAdd(10000 * quotient, r, 4 * g);
  }

  /** One group: divide, and put the remainder in front of the text. */
  method PrintGroup(str: array<char>, p: nat, end: nat, temp: DataRecord, ghost v: nat, ghost u: nat, ghost g: nat)
    returns (ghost r: nat)
    requires 3 <= p < end <= str.Length && end == p + 1 + 4 * g
    requires Printed(str[p + 1..end], temp, v, u, g)
    modifies str, temp`digitsUsed, temp.number
    ensures Printed(str[p - 3..end], temp, v, u, g + 1)
    ensures r < 10000 && str[p - 3..p + 1] == FourDigits(r)
    ensures old(temp.Value()) == Product(temp.Value(), 10000) + r
    ensures old(Canonical(temp.Numeral())) ==> Canonical(temp.Numeral())
    ensures temp.digitsUsed <= old(temp.digitsUsed)
    ensures old(!Canonical(temp.Numeral())) ==> temp.digitsUsed < old(temp.digitsUsed)
  {
    hide Val, Scale, Numeric, Tens, FourDigits;
    ghost var text, before := str[p + 1..end], temp.Value();
    var remainder := ShortDiv(temp, 10000, temp);
    r := remainder;
    PutGroup(str, p, remainder);
    GroupInFront(text, temp.Value(), r, before, g);
    assert str[p - 3..end] == str[p - 3..p + 1] + str[p + 1..end];
    assert str[p + 1..end] == text;
  }

  lemma QuotientShrinks(before: nat, quotient: nat, r: nat)
    requires before == Product(quotient, 10000) + r
    ensures quotient <= before && (before > 0 ==> quotient < before)
    ensures quotient == 0 ==> r == before
  {
    ProductIs(quotient, 10000);
  }

  lemma NothingPrinted(temp: DataRecord, u: nat)
    requires temp.Valid() && temp.digitsUsed <= u
    ensures Printed("", temp, temp.Value(), u, 0)
  {
  }

  lemma {:induction false} TensZero(n: nat)
    ensures Tens(0, n) == 0
  {
    TensAdd(0, 0, n);
  }

  /** At most three zeros in front are skipped. */
  method SkipZeros(str: array<char>, start: nat, end: nat) returns (text: string, ghost k: nat)
    requires start + 4 <= end <= str.Length
    ensures k <= 3 && text == str[start + k..end]
    ensures (forall i :: start <= i < start + k ==> str[i] == '0') && (k < 3 ==> text[0] != '0')
  {
    var p := start;
    if str[p] == '0' {
      p := p + 1;
    }
    if str[p] == '0' {
      p := p + 1;
    }
    if str[p] == '0' {
      p := p + 1;
    }
    text, k := str[p..end], p - start;
  }

  lemma {:induction false} ZerosInFront(s: string, k: nat)
    requires AllDigits(s) && k <= |s| && forall i :: 0 <= i < k ==> s[i] == '0'
    ensures Numeric(s[k..]) == Numeric(s)
  {
    if |s| == k {
      if k > 0 {
        ZerosInFront(s[..k - 1], k - 1);
        assert s[..k - 1][k - 1..] == "" && s[k..] == "";
      }
    } else {
      var n := |s| - 1;
      ZerosInFront(s[..n], k);
      assert s[k..][..n - k] == s[..n][k..];
    }
  }

  /** Skipping at most three zeros leaves a plain numeral when the first group is not all zeros, or is all. */
  lemma SkippedPlain(s: string, r: nat, k: nat)
    requires AllDigits(s) && 4 <= |s| && r < 10000 && s[..4] == FourDigits(r) && (|s| > 4 ==> r > 0)
    requires k <= 3 && (forall i :: 0 <= i < k ==> s[i] == '0') && (k < 3 ==> s[k] != '0')
    ensures Plain(s[k..])
  {
    if k == 3 && s[3] == '0' {
      assert s[0] == s[..4][0] && s[1] == s[..4][1] && s[2] == s[..4][2] && s[3] == s[..4][3];
      assert r == 0;
    }
  }

  lemma PrintedAll(text: string, temp: DataRecord, v: nat, u: nat, g: nat)
    requires Printed(text, temp, v, u, g) && temp.Value() == 0
    ensures Numeric(text) == v
  {
    TensZero(4 * g);
  }

  /** One more group while anything is left: there is room for it, and less is left afterwards. */
  method PrintMore(str: array<char>, start0: nat, end: nat, temp: DataRecord, ghost v: nat, ghost u: nat, ghost g: nat)
    returns (start: nat, ghost r: nat)
    requires start0 + 4 * g == end <= str.Length && end == 5 * u + 9 && g >= 1 && v < Scale(1, u)
    requires Printed(str[start0..end], temp, v, u, g) && (temp.digitsUsed != 1 || temp.number[0] != 0)
    modifies str, temp`digitsUsed, temp.number
    ensures start + 4 == start0 && Printed(str[start..end], temp, v, u, g + 1)
    ensures r < 10000 && str[start..start + 4] == FourDigits(r)
    ensures old(Canonical(temp.Numeral())) ==> Canonical(temp.Numeral()) && (temp.Value() == 0 ==> r > 0)
    ensures temp.Value() + temp.digitsUsed < old(temp.Value() + temp.digitsUsed)
  {
    hide Val, Scale, Numeric, Tens, FourDigits, Product, AllDigits, Canonical;
    ghost var before := temp.Value();
    RoomForGroup(str[start0..end], temp, v, u, g);
    r := PrintGroup(str, start0 - 1, end, temp, v, u, g);
    QuotientShrinks(before, temp.Value(), r);
    start := start0 - 4;
  }

  /** All groups, from the back of the buffer: their text starts at the returned place. */
  method PrintGroups(str: array<char>, end: nat, u: nat, temp: DataRecord, ghost v: nat)
    returns (start: nat, ghost r: nat)
    requires end == 5 * u + 9 <= str.Length && temp.Valid() && temp.digitsUsed == u && temp.Value() == v
    modifies str, temp`digitsUsed, temp.number
    ensures start + 4 <= end && AllDigits(str[start..end]) && Numeric(str[start..end]) == v
    ensures r < 10000 && str[start..start + 4] == FourDigits(r)
    ensures old(Canonical(temp.Numeral())) && start + 4 < end ==> r > 0
  {
    hide Val, Scale, Numeric, Tens, FourDigits, Product, AllDigits, Canonical;
    ghost var canonical := Canonical(temp.Numeral());
    ghost var g := 1;
    ValBound(temp.Numeral());
    NothingPrinted(temp, u);
    assert str[end..end] == "";
    r := PrintGroup(str, end - 1, end, temp, v, u, 0);
    start := end - 4;
    while temp.digitsUsed != 1 || temp.number[0] != 0
      invariant g >= 1 && start + 4 * g == end
      invariant Printed(str[start..end], temp, v, u, g)
      invariant r < 10000 && str[start..start + 4] == FourDigits(r)
      invariant canonical ==> Canonical(temp.Numeral()) && (g > 1 && temp.Value() == 0 ==> r > 0)
      decreases temp.Value() + temp.digitsUsed
    {
      start, r := PrintMore(str, start, end, temp, v, u, g);
      g := g + 1;
    }
    OneDigit(0);
    assert temp.Numeral() == [0];
    PrintedAll(str[start..end], temp, v, u, g);
  }

  method Print(data: DataRecord) returns (text: string)
    requires data.Valid()
    ensures |text| > 0 && AllDigits(text) && Numeric(text) == data.Value()
    ensures Canonical(data.Numeral()) ==> Plain(text)
  {
    hide Val, Scale, Numeric, Tens, FourDigits;
    var temp := new DataRecord.Copy(data, 0);
    var u := data.digitsUsed;
    var str := new char[u * 5 + 10];
    var end := u * 5 + 9;
    str[end] := '\0';
    var start;
    ghost var r, k;
    start, r := PrintGroups(str, end, u, temp, data.Value());
    text, k := SkipZeros(str, start, end);
    ghost var all := str[start..end];
    assert text == all[k..];
    ZerosInFront(all, k);
    if Canonical(data.Numeral()) {
      assert all[..4] == str[start..start + 4];
      SkippedPlain(all, r, k);
    }
  }
}
