/** `operator>>`: reading a decimal number, four characters at a time. */
module Parsing {
  import opened Basics
  import opened Digits
  import opened CopyOnWrite
  import opened Decimal
  import opened Printing

  predicate IsSpace(c: char)
  {
    c == ' ' || c == '\t' || c == '\n'
  }

  /** How many leading characters satisfy a test. */
  function Run(s: string, test: char -> bool): (n: nat)
    ensures n <= |s|
    ensures forall k :: 0 <= k < n ==> test(s[k])
    ensures n < |s| ==> !test(s[n])
  {
    if |s| > 0 && test(s[0]) then 1 + Run(s[1..], test) else 0
  }

  method SkipSpaces(s: string) returns (i: nat)
    ensures i == Run(s, IsSpace)
  {
    i := 0;
    while i < |s| && IsSpace(s[i])
      invariant i <= |s|
      invariant forall k :: 0 <= k < i ==> IsSpace(s[k])
    {
      i := i + 1;
    }
    RunIs(s, IsSpace, i);
  }

  lemma RunIs(s: string, test: char -> bool, n: nat)
    requires n <= |s| && (forall k :: 0 <= k < n ==> test(s[k])) && (n < |s| ==> !test(s[n]))
    ensures Run(s, test) == n
  {
    var m := Run(s, test);
  }

  /** One more digit of a group, if there is one. */
  method ReadDigit(s: string, i: nat, j0: nat, numRead0: nat, num0: nat) returns (j: nat, numRead: nat, num: nat)
    requires i <= j0 <= |s| && AllDigits(s[i..j0])
    requires numRead0 == Tens(1, j0 - i) && num0 == Numeric(s[i..j0])
    ensures j0 <= j <= |s| && j <= j0 + 1 && AllDigits(s[i..j])
    ensures j == j0 <==> j0 == |s| || !IsDigit(s[j0])
    ensures numRead == Tens(1, j - i) && num == Numeric(s[i..j])
  {
    j, numRead, num := j0, numRead0, num0;
    if j < |s| && IsDigit(s[j]) {
      TensOut(1, j - i);
      assert s[i..j + 1][..j - i] == s[i..j];
      numRead := numRead * 10;
      num := num * 10 + (s[j] as int - '0' as int);
      j := j + 1;
    }
  }

  /** Up to four digits from place `i`: their count as a power of ten, and the number they stand for. */
  method ReadGroup(s: string, i: nat) returns (j: nat, numRead: nat, num: nat)
    requires i <= |s|
    ensures i <= j <= |s| && j <= i + 4 && AllDigits(s[i..j])
    ensures j < i + 4 ==> j == |s| || !IsDigit(s[j])
    ensures 1 <= numRead == Tens(1, j - i) <= 10000 && num == Numeric(s[i..j]) < 10000
    ensures numRead == 10000 <==> j == i + 4
    ensures numRead == 1 <==> j == i
  {
    hide Tens, Numeric;
    assert s[i..i] == "";
    NoText();
    j, numRead, num := ReadDigit(s, i, i, 1, 0);
    j, numRead, num := ReadDigit(s, i, j, numRead, num);
    j, numRead, num := ReadDigit(s, i, j, numRead, num);
    j, numRead, num := ReadDigit(s, i, j, numRead, num);
    NumericBound(s[i..j]);
    SmallTens(j - i);
  }

  lemma NoText()
    ensures Numeric("") == 0 && Tens(1, 0) == 1
  {
  }

  lemma SmallTens(n: nat)
    requires n <= 4
    ensures Tens(1, n)
            == if n == 0 then 1 else if n == 1 then 10 else if n == 2 then 100 else if n == 3 then 1000 else 10000
  {
    TensFour(1, 0);
    TensOut(1, 0);
    TensOut(1, 1);
    TensOut(1, 2);
    TensOut(1, 3);
  }

  /** Reading on: the digits so far times a power of ten, plus the new group. */
  lemma GroupAppended(s: string, start: nat, i: nat, j: nat)
    requires start <= i <= j <= |s| && AllDigits(s[start..i]) && AllDigits(s[i..j])
    ensures AllDigits(s[start..j])
    ensures Numeric(s[start..j]) == Product(Numeric(s[start..i]), Tens(1, j - i)) + Numeric(s[i..j])
  {
    hide Numeric, Tens;
    assert s[start..j] == s[start..i] + s[i..j];
    NumericConcat(s[start..i], s[i..j]);
    TensScale(Numeric(s[start..i]), j - i);
  }

  method AppendGroup(temp: Bigint, numRead: nat, num: nat, ghost heap: Heap)
    requires temp.In(heap) && Canonical(temp.data.Numeral()) && 1 <= numRead <= 10000 && num < 10000
    modifies temp, heap, temp.data`references, temp.data`digitsUsed, temp.data.number
    ensures temp.In(heap) && heap.owner == old(heap.owner)[temp := temp.data] && OthersKept(heap, temp)
    ensures temp.data != old(temp.data) ==> fresh(temp.data) && fresh(temp.data.number)
    ensures temp.Value() == Product(old(temp.Value()), numRead) + num && Canonical(temp.data.Numeral())
  {
    hide Val, Product, Counted;
    temp.MultiplyShort(numRead, heap);
    ghost var between := temp.data;
    temp.AddShort(num, heap);
    UpdateTwice(old(heap.owner), temp, between, temp.data);
  }

  lemma UpdateTwice<K, V>(m: map<K, V>, k: K, w: V, v: V)
    ensures m[k := w][k := v] == m[k := v]
  {
  }

  /** One more group, if there is a digit. */
  method ReadMore(s: string, start: nat, i: nat, temp: Bigint, ghost heap: Heap) returns (j: nat, more: bool)
    requires temp.In(heap) && start <= i <= |s| && AllDigits(s[start..i])
    requires temp.Value() == Numeric(s[start..i]) && Canonical(temp.data.Numeral())
    modifies temp, heap, temp.data`references, temp.data`digitsUsed, temp.data.number
    ensures temp.In(heap) && heap.owner == old(heap.owner)[temp := temp.data] && OthersKept(heap, temp)
    ensures temp.data != old(temp.data) ==> fresh(temp.data) && fresh(temp.data.number)
    ensures i <= j <= |s| && AllDigits(s[start..j]) && (if more then i < j else j == |s| || !IsDigit(s[j]))
    ensures temp.Value() == Numeric(s[start..j]) && Canonical(temp.data.Numeral())
  {
    hide Numeric, Tens, Val, Product, Counted, Canonical;
    var numRead, num;
    j, numRead, num := ReadGroup(s, i);
    GroupAppended(s, start, i, j);
    if numRead != 1 {
      AppendGroup(temp, numRead, num, heap);
    } else {
      assert heap.owner == heap.owner[temp := temp.data];
    }
    more := numRead == 10000;
  }

  /** The digits from `start` on, into `temp`. */
  method ReadNumber(s: string, start: nat, temp: Bigint, ghost heap: Heap) returns (i: nat)
    requires temp.In(heap) && temp.data.Numeral() == [0] && start <= |s|
    modifies temp, heap, temp.data`references, temp.data`digitsUsed, temp.data.number
    ensures temp.In(heap) && heap.owner == old(heap.owner)[temp := temp.data] && OthersKept(heap, temp)
    ensures temp.data != old(temp.data) ==> fresh(temp.data) && fresh(temp.data.number)
    ensures i == start + Run(s[start..], IsDigit) && AllDigits(s[start..i])
    ensures temp.Value() == Numeric(s[start..i]) && Canonical(temp.data.Numeral())
  {
    hide Numeric, Val, Run, Counted, AllDigits;
    NoText();
    OneDigit(0);
    i := start;
    var more := true;
    assert s[start..start] == "";
    EmptyDigits();
    assert heap.owner == heap.owner[temp := temp.data];
    while more
      invariant start <= i <= |s| && AllDigits(s[start..i])
      invariant temp.In(heap) && heap.owner == old(heap.owner)[temp := temp.data] && OthersKept(heap, temp)
      invariant temp.data != old(temp.data) ==> fresh(temp.data) && fresh(temp.data.number)
      invariant temp.Value() == Numeric(s[start..i]) && Canonical(temp.data.Numeral())
      invariant !more ==> i == |s| || !IsDigit(s[i])
      decreases more, |s| - i
    {
      ghost var before := temp.data;
      i, more := ReadMore(s, start, i, temp, heap);
      UpdateTwice(old(heap.owner), temp, before, temp.data);
    }
    RunOfDigits(s, start, i);
  }

  lemma EmptyDigits()
    ensures AllDigits("")
  {
  }

  lemma RunOfDigits(s: string, start: nat, i: nat)
    requires start <= i <= |s| && AllDigits(s[start..i]) && (i == |s| || !IsDigit(s[i]))
    ensures Run(s[start..], IsDigit) == i - start
  {
    forall k | 0 <= k < i - start ensures IsDigit(s[start..][k]) {
      assert s[start..][k] == s[start..i][k];
    }
    RunIs(s[start..], IsDigit, i - start);
  }

  /** What is read from `input`: nothing without a digit after the white space, else all the digits there. */
  method Parse(input: string, rhs: Bigint, ghost heap: Heap) returns (ok: bool, rest: string)
    requires rhs.In(heap)
    modifies rhs, heap, rhs.data`references
    ensures rhs.In(heap) && heap.owner == old(heap.owner)[rhs := rhs.data] && OthersKept(heap, rhs)
    ensures var text := input[Run(input, IsSpace)..];
            var n := Run(text, IsDigit);
            && ok == (n > 0)
            && rest == text[n..]
            && (ok ==> AllDigits(text[..n]) && rhs.Value() == Numeric(text[..n]) && Canonical(rhs.data.Numeral()))
            && (!ok ==> rhs.data == old(rhs.data) && rhs.data.Numeral() == old(rhs.data.Numeral()))
  {
    hide Numeric, Tens, Val, Scale, Run, Holders, Separate;
    var start := SkipSpaces(input);
    ghost var text := input[start..];
    if start == |input| || !IsDigit(input[start]) {
      RunIs(text, IsDigit, 0);
      Present(heap, rhs);
      assert heap.owner == heap.owner[rhs := rhs.data];
      return false, input[start..];
    }
    var i := ParseDigits(input, start, rhs, heap);
    assert text[..i - start] == input[start..i] && text[i - start..] == input[i..];
    ok, rest := true, input[i..];
  }

  /** Read into a number of its own, then assign; the number read into is destroyed. */
  method ParseDigits(input: string, start: nat, rhs: Bigint, ghost heap: Heap) returns (i: nat)
    requires rhs.In(heap) && start <= |input|
    modifies rhs, heap, rhs.data`references
    ensures rhs.In(heap) && heap.owner == old(heap.owner)[rhs := rhs.data] && OthersKept(heap, rhs)
    ensures i == start + Run(input[start..], IsDigit) && AllDigits(input[start..i])
    ensures rhs.Value() == Numeric(input[start..i]) && Canonical(rhs.data.Numeral())
  {
    hide Numeric, Val, Run, Sound, Canonical;
    Usable(heap, rhs);
    var temp;
    temp, i := ReadNew(input, start, heap);
    Live(heap, rhs);
    HandOn(temp, rhs, heap);
    OwnersBack(old(heap.owner), temp, temp.data, rhs, rhs.data);
  }

  lemma OwnersBack<K, V>(m: map<K, V>, k: K, v: V, h: K, w: V)
    requires k !in m && h != k
    ensures m[k := v][h := w] - {k} == m[h := w]
  {
  }

  method ReadNew(input: string, start: nat, ghost heap: Heap) returns (temp: Bigint, i: nat)
    requires Sound(heap) && start <= |input|
    modifies heap
    ensures temp.In(heap) && heap.owner == old(heap.owner)[temp := temp.data] && OthersKept(heap, temp)
    ensures fresh(temp) && temp !in old(heap.owner) && fresh(temp.data) && fresh(temp.data.number)
    ensures i == start + Run(input[start..], IsDigit) && AllDigits(input[start..i])
    ensures temp.Value() == Numeric(input[start..i]) && Canonical(temp.data.Numeral())
  {
    hide Numeric, Val, Run, Counted;
    temp := new Bigint(heap);
    ghost var before := temp.data;
    i := ReadNumber(input, start, temp, heap);
    UpdateTwice(old(heap.owner), temp, before, temp.data);
  }

  method HandOn(temp: Bigint, rhs: Bigint, ghost heap: Heap)
    requires temp.In(heap) && rhs.In(heap) && temp != rhs
    modifies rhs, heap, rhs.data`references, temp.data`references
    ensures rhs.In(heap) && heap.owner == old(heap.owner)[rhs := rhs.data] - {temp}
    ensures rhs.data == old(temp.data) && rhs.data.Numeral() == old(temp.data.Numeral())
    ensures forall h :: h in old(heap.owner) && h != rhs && h != temp ==>
      h.data == old(h.data) && unchanged(h.data`digitsUsed) && unchanged(h.data.number)
  {
    hide Counted;
    rhs.Assign(temp, heap);
    temp.Destroy(heap);
  }

  /** What is printed reads back as the same number; a canonical number gets back its own digits. */
  method RoundTrip(x: Bigint, y: Bigint, ghost heap: Heap) returns (text: string)
    requires x.In(heap) && y.In(heap)
    modifies y, heap, y.data`references
    ensures y.In(heap) && heap.owner == old(heap.owner)[y := y.data] && OthersKept(heap, y)
    ensures y.Value() == old(x.Value()) && Canonical(y.data.Numeral())
    ensures old(Canonical(x.data.Numeral())) ==> y.data.Numeral() == old(x.data.Numeral())
  {
    hide Numeric, Val, Run, Counted;
    Present(heap, x);
    ghost var digits := x.data.Numeral();
    text := Print(x.data);
    RunIs(text, IsSpace, 0);
    RunIs(text, IsDigit, |text|);
    assert text[0..] == text && text[..|text|] == text;
    var ok, rest := Parse(text, y, heap);
    Present(heap, y);
    if Canonical(digits) {
      CanonicalUnique(digits, y.data.Numeral());
    }
  }
}
