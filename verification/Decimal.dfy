/** Decimal text of natural numbers. */
module Decimal {
  import opened Digits

  predicate IsDigit(c: char)
  {
    '0' <= c <= '9'
  }

  predicate AllDigits(s: string)
  {
    forall k :: 0 <= k < |s| ==> IsDigit(s[k])
  }

  /** The number a decimal digit string stands for. */
  function Numeric(s: string): (v: nat)
    requires AllDigits(s)
  {
    if |s| == 0 then 0 else 10 * Numeric(s[..|s| - 1]) + (s[|s| - 1] as int - '0' as int)
  }

  /** `x` followed by `n` zeros. */
  function Tens(x: nat, n: nat): (r: nat)
    decreases n
  {
    if n == 0 then x else Tens(10 * x, n - 1)
  }

  lemma {:induction false} TensAdd(x: nat, y: nat, n: nat)
    ensures Tens(x + y, n) == Tens(x, n) + Tens(y, n)
    decreases n
  {
    if n > 0 {
      TensAdd(10 * x, 10 * y, n - 1);
    }
  }

  lemma TensMonotone(x: nat, y: nat, n: nat)
    requires x <= y
    ensures Tens(x, n) <= Tens(y, n)
  {
    TensAdd(x, y - x, n);
  }

  lemma {:induction false} TensOut(x: nat, n: nat)
    ensures Tens(x, n + 1) == 10 * Tens(x, n)
    decreases n
  {
    if n > 0 {
      TensOut(10 * x, n - 1);
    }
  }

  lemma {:induction false} TensGrow(m: nat, n: nat)
    requires m <= n
    ensures 1 <= Tens(1, m) <= Tens(1, n)
    decreases n
  {
    if m < n {
      TensGrow(m, n - 1);
      TensOut(1, n - 1);
    } else if n > 0 {
      TensGrow(n - 1, n - 1);
      TensOut(1, n - 1);
    }
  }

  lemma TensFour(x: nat, n: nat)
    ensures Tens(x, n + 4) == Tens(10000 * x, n)
  {
    assert Tens(x, n + 4) == Tens(10 * x, n + 3) == Tens(100 * x, n + 2) == Tens(1000 * x, n + 1);
  }

  /** Text before text: the first part moves up. */
  lemma {:induction false} NumericConcat(s: string, t: string)
    requires AllDigits(s) && AllDigits(t)
    ensures AllDigits(s + t) && Numeric(s + t) == Tens(Numeric(s), |t|) + Numeric(t)
  {
    if |t| == 0 {
      assert s + t == s;
    } else {
      var t' := t[..|t| - 1];
      NumericConcat(s, t');
      assert (s + t)[..|s + t| - 1] == s + t';
      TensOut(Numeric(s), |t'|);
    }
  }

  lemma {:induction false} NumericBound(s: string)
    requires AllDigits(s)
    ensures Numeric(s) < Tens(1, |s|)
  {
    if |s| > 0 {
      NumericBound(s[..|s| - 1]);
      TensOut(1, |s| - 1);
    }
  }

  /** No zero in front, except for zero itself. */
  predicate Plain(s: string)
  {
    |s| == 1 || (|s| > 1 && s[0] != '0')
  }

  lemma PlainAtLeast(s: string)
    requires AllDigits(s) && |s| > 0 && s[0] != '0'
    ensures Tens(1, |s| - 1) <= Numeric(s)
  {
    var first := s[..1];
    assert first + s[1..] == s && first[..0] == "";
    NumericConcat(first, s[1..]);
    TensMonotone(1, Numeric(first), |s| - 1);
  }

  /** A number has one plain decimal numeral. */
  lemma {:induction false} PlainUnique(s: string, t: string)
    requires AllDigits(s) && AllDigits(t) && Plain(s) && Plain(t) && Numeric(s) == Numeric(t)
    ensures s == t
  {
    if |s| < |t| {
      ShorterText(s, t);
    } else if |t| < |s| {
      ShorterText(t, s);
    } else {
      SameLengthText(s, t);
    }
  }

  lemma ShorterText(s: string, t: string)
    requires AllDigits(s) && AllDigits(t) && 0 < |s| < |t| && t[0] != '0'
    ensures Numeric(s) < Numeric(t)
  {
    NumericBound(s);
    PlainAtLeast(t);
    TensGrow(|s|, |t| - 1);
  }

  lemma {:induction false} SameLengthText(s: string, t: string)
    requires AllDigits(s) && AllDigits(t) && |s| == |t| && Numeric(s) == Numeric(t)
    ensures s == t
  {
    if |s| > 0 {
      var n := |s| - 1;
      SameLengthText(s[..n], t[..n]);
      assert s == s[..n] + [s[n]] && t == t[..n] + [t[n]];
    }
  }

  // ---------------------------------------------------------------- how much room the text needs

  /** Four base-65536 digits hold less than twenty decimal digits. */
  lemma {:induction false} TextFits(u: nat)
    ensures Scale(1, u) <= Tens(1, 4 * ((5 * u + 3) / 4))
  {
    if u >= 4 {
      TextFits(u - 4);
      var m := 4 * ((5 * (u - 4) + 3) / 4);
      assert 4 * ((5 * u + 3) / 4) == m + 20;
      assert Scale(1, u) == 65536 * 65536 * 65536 * 65536 * Scale(1, u - 4) by {
        ScaleOut(1, u);
        ScaleOut(1, u - 1);
        ScaleOut(1, u - 2);
        ScaleOut(1, u - 3);
      }
      TensTwenty(m);
    } else {
      TextFitsSmall(u);
    }
  }

  lemma TensTwenty(m: nat)
    ensures Tens(1, m + 20) == 100000000000000000000 * Tens(1, m)
  {
    TensFour(1, m + 16);
    TensFour(10000, m + 12);
    TensFour(100000000, m + 8);
    TensFour(1000000000000, m + 4);
    TensFour(10000000000000000, m);
    TensScale(100000000000000000000, m);
  }

  lemma {:induction false} TensScale(x: nat, n: nat)
    ensures Tens(x, n) == x * Tens(1, n)
    decreases n
  {
    if n > 0 {
      TensOut(x, n - 1);
      TensOut(1, n - 1);
      TensScale(x, n - 1);
      assert 10 * (x * Tens(1, n - 1)) == x * (10 * Tens(1, n - 1));
    }
  }

  lemma TextFitsSmall(u: nat)
    requires u < 4
    ensures Scale(1, u) <= Tens(1, 4 * ((5 * u + 3) / 4))
  {
    TensFour(1, 0);
    TensFour(1, 4);
    TensFour(1, 8);
    TensFour(1, 12);
    TensFour(10000, 0);
    TensFour(10000, 4);
    TensFour(10000, 8);
    TensFour(100000000, 0);
    TensFour(100000000, 4);
    TensFour(1000000000000, 0);
    ScaleOut(1, 1);
    ScaleOut(1, 2);
    ScaleOut(1, 3);
    if u == 0 {
    } else if u == 1 {
      assert 4 * ((5 * u + 3) / 4) == 8;
    } else if u == 2 {
      assert 4 * ((5 * u + 3) / 4) == 12;
    } else {
      assert 4 * ((5 * u + 3) / 4) == 16;
    }
  }
}
