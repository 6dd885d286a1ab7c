/** Programs over any number of `bigint` objects: what they compute is what the same program computes on numbers. */
module BigintRuns {
  import opened Basics
  import opened Digits
  import opened Kernel
  import opened Products
  import opened CopyOnWrite

  /** What can be seen of an object: its value and its digit count, leading zeros included. */
  datatype Number = Number(value: nat, digits: nat)

  /** A change of one object; the index is that of the other operand. */
  datatype Action =
    | Assign(j: nat)
    | Add(j: nat)
    | Subtract(j: nat)
    | Multiply(j: nat)
    | AddWord(d: Digit)
    | SubtractWord(d: Digit)
    | MultiplyWord(d: Digit)
    | DivideWord(d: Digit)
    | RemainderWord(d: Digit)
    | Up
    | Down

  datatype Op =
    | Make
    | Duplicate(i: nat)
    | Change(i: nat, act: Action)
    | UpAfter(i: nat)
    | DownAfter(i: nat)
    | Drop(i: nat)

  // ---------------------------------------------------------------- the operations on numbers

  /** Nothing is taken below zero or divided by zero, and a subtrahend has no more digits than the minuend. */
  predicate CanAct(act: Action, n: Number, m: Number)
  {
    match act
    case Subtract(_) => m.value <= n.value && m.digits <= n.digits
    case SubtractWord(d) => d <= n.value
    case DivideWord(d) => d != 0
    case RemainderWord(d) => d != 0
    case Down => n.value > 0
    case _ => true
  }

  function OutcomeValue(act: Action, n: nat, m: nat): (v: int)
  {
    match act
    case Assign(_) => m
    case Add(_) => n + m
    case Subtract(_) => n - m
    case Multiply(_) => Product(n, m)
    case AddWord(d) => n + d
    case SubtractWord(d) => n - d
    case MultiplyWord(d) => Product(n, d)
    case DivideWord(d) => if d == 0 then 0 else Quotient(n, d)
    case RemainderWord(d) => if d == 0 then 0 else Remainder(n, d)
    case Up => n + 1
    case Down => n - 1
  }

  /** The digit count the code leaves, as a function of values and counts alone. */
  ghost function OutcomeDigits(act: Action, n: Number, m: Number): (k: nat)
    requires CanAct(act, n, m)
  {
    var v := OutcomeValue(act, n.value, m.value);
    match act
    case Assign(_) => m.digits
    case Add(_) => Grown(v, Longer(n.digits, m.digits))
    case Subtract(_) => Shrunk(v, n.digits)
    case Multiply(_) => LongDigits(n.value, n.digits, m.value, m.digits)
    case AddWord(_) => Grown(v, n.digits)
    case SubtractWord(_) => Shrunk(v, n.digits)
    case MultiplyWord(_) => Grown(v, n.digits)
    case DivideWord(_) => Shrunk(v, n.digits)
    case RemainderWord(_) => 1
    case Up => Grown(v, n.digits)
    case Down => Lowered(n.value, n.digits)
  }

  ghost function Outcome(act: Action, n: Number, m: Number): (r: Number)
    requires CanAct(act, n, m)
  {
    Number(OutcomeValue(act, n.value, m.value), OutcomeDigits(act, n, m))
  }

  /** The other operand, the object itself if there is none. */
  function OperandOf(act: Action, i: nat): (j: nat)
  {
    match act
    case Assign(j) => j
    case Add(j) => j
    case Subtract(j) => j
    case Multiply(j) => j
    case _ => i
  }

  predicate Legal(nums: seq<Number>, op: Op)
  {
    match op
    case Make => true
    case Duplicate(i) => i < |nums|
    case Change(i, act) =>
      i < |nums| && OperandOf(act, i) < |nums| && CanAct(act, nums[i], nums[OperandOf(act, i)])
    case UpAfter(i) => i < |nums|
    case DownAfter(i) => i < |nums| && nums[i].value > 0
    case Drop(i) => i < |nums|
  }

  function Without<T>(s: seq<T>, i: nat): (t: seq<T>)
    requires i < |s|
  {
    s[..i] + s[i + 1..]
  }

  ghost function Next(nums: seq<Number>, op: Op): (r: seq<Number>)
    requires Legal(nums, op)
  {
    match op
    case Make => nums + [Number(0, 1)]
    case Duplicate(i) => nums + [nums[i]]
    case Change(i, act) => nums[i := Outcome(act, nums[i], nums[OperandOf(act, i)])]
    case UpAfter(i) => nums[i := Outcome(Up, nums[i], nums[i])] + [nums[i]]
    case DownAfter(i) => nums[i := Outcome(Down, nums[i], nums[i])] + [nums[i]]
    case Drop(i) => Without(nums, i)
  }

  ghost predicate LegalRun(nums: seq<Number>, ops: seq<Op>)
    decreases |ops|
  {
    |ops| == 0 || (Legal(nums, ops[0]) && LegalRun(Next(nums, ops[0]), ops[1..]))
  }

  ghost function Result(nums: seq<Number>, ops: seq<Op>): (r: seq<Number>)
    requires LegalRun(nums, ops)
    decreases |ops|
  {
    if |ops| == 0 then nums else Result(Next(nums, ops[0]), ops[1..])
  }

  // ---------------------------------------------------------------- leading zeros

  /** No leading zero: one digit, or a value that needs all of them. */
  ghost predicate Minimal(n: Number)
  {
    n.value < Scale(1, n.digits) && Needed(n.value, n.digits)
  }

  /** From numbers without leading zeros, a number with leading zeros is made exactly by a subtraction that takes
      two or more digits away, and by multiplying a longer number by the word zero. */
  ghost predicate LeavesZeros(act: Action, n: Number, m: Number)
  {
    match act
    case Subtract(_) => n.digits > 2 && n.value - m.value < Scale(1, n.digits - 2)
    case MultiplyWord(d) => d == 0 && n.digits > 1
    case _ => false
  }

  lemma ShrunkMinimal(v: nat, k: nat)
    requires k >= 1 && v < Scale(1, k)
    ensures v < Scale(1, Shrunk(v, k)) && (Needed(v, Shrunk(v, k)) <==> k <= 2 || Scale(1, k - 2) <= v)
  {
    hide Scale;
    if k > 2 {
      ScaleGrows(k - 2, k - 1);
    }
  }

  lemma WordProductFits(v: nat, d: Digit, k: nat)
    requires v < Scale(1, k)
    ensures Product(v, d) < Scale(1, k + 1) && (d != 0 ==> v <= Product(v, d))
  {
    hide Scale;
    ScaleOut(1, k + 1);
    ProductMonotone(d, 65535, v);
    assert Product(v, 65535) == 65535 * v;
    if d != 0 {
      ProductMonotone(1, d, v);
      assert Product(v, 1) == v;
    }
  }

  lemma DigitFits(d: Digit, k: nat)
    requires k >= 1
    ensures d < Scale(1, k)
  {
    NoDigits();
    ScaleOut(1, 1);
    ScaleGrows(1, k);
  }

  lemma QuotientBelow(v: nat, d: nat)
    requires d > 0
    ensures Quotient(v, d) <= v
  {
    DivMod(v, d);
    ProductMonotone(1, d, Quotient(v, d));
    assert Product(Quotient(v, d), 1) == Quotient(v, d);
  }

  lemma LoweredMinimal(v: nat, k: nat)
    requires v > 0 && v < Scale(1, k) && Needed(v, k)
    ensures v - 1 < Scale(1, Lowered(v, k)) && Needed(v - 1, Lowered(v, k))
  {
    hide Scale;
    if k > 2 {
      ScaleGrows(k - 2, k - 1);
      ScaleGrows(0, k - 2);
    }
    if k > 1 {
      ScaleGrows(0, k - 1);
    }
  }

  lemma SumMinimal(v: nat, k: nat, w: nat, l: nat)
    requires v < Scale(1, k) && Needed(v, k) && w < Scale(1, l) && (l == 1 || Needed(w, l))
    ensures Minimal(Number(v + w, Grown(v + w, Longer(k, l))))
  {
    hide Scale;
    SumFits(v, k, w, l);
    GrownNeeds(v + w, Longer(k, l));
  }

  /** One action on numbers without leading zeros: exactly when one with leading zeros comes out. */
  lemma OutcomeMinimal(act: Action, n: Number, m: Number)
    requires CanAct(act, n, m) && Minimal(n) && Minimal(m)
    ensures Minimal(Outcome(act, n, m)) <==> !LeavesZeros(act, n, m)
  {
    hide Scale, Product, Quotient, Remainder, LongDigits, Lowered, Grown, Shrunk;
    var v := OutcomeValue(act, n.value, m.value);
    match act
    case Assign(_) =>
    case Add(_) =>
      SumMinimal(n.value, n.digits, m.value, m.digits);
    case Subtract(_) =>
      ShrunkMinimal(v, n.digits);
    case Multiply(_) =>
      MultiplyMinimal(n, m);
    case AddWord(d) =>
      DigitFits(d, 1);
      SumMinimal(n.value, n.digits, d, 1);
    case SubtractWord(d) =>
      ShrunkMinimal(v, n.digits);
      WordTaken(n, d);
    case MultiplyWord(d) =>
      WordMultiplied(n, d);
    case DivideWord(d) =>
      QuotientBelow(n.value, d);
      ShrunkMinimal(v, n.digits);
      WordDivided(n, d);
    case RemainderWord(d) =>
      DigitFits(v, 1);
    case Up =>
      DigitFits(1, 1);
      SumMinimal(n.value, n.digits, 1, 1);
    case Down =>
      LoweredMinimal(n.value, n.digits);
  }

  lemma MultiplyMinimal(n: Number, m: Number)
    requires Minimal(n) && Minimal(m)
    ensures Minimal(Number(Product(n.value, m.value), LongDigits(n.value, n.digits, m.value, m.digits)))
  {
    hide Scale, ProductDigits;
    ProductIs(n.value, m.value);
    if n.digits < m.digits {
      ProductFits(n.value, m.value, m.digits);
      ProductNeeded(n.value, n.digits, m.value, m.digits);
    } else {
      ProductFits(m.value, n.value, n.digits);
      ProductNeeded(m.value, m.digits, n.value, n.digits);
    }
  }

  lemma WordTaken(n: Number, d: Digit)
    requires Minimal(n) && d <= n.value
    ensures n.digits > 2 ==> Scale(1, n.digits - 2) <= n.value - d
  {
    hide Scale;
    if n.digits > 2 {
      ScaleGrows(n.digits - 2, n.digits - 1);
      DigitFits(d, n.digits - 2);
    }
  }

  lemma WordMultiplied(n: Number, d: Digit)
    requires Minimal(n)
    ensures var v := Product(n.value, d); Minimal(Number(v, Grown(v, n.digits))) <==> d != 0 || n.digits == 1
  {
    hide Scale, Product;
    var v := Product(n.value, d);
    WordProductFits(n.value, d, n.digits);
    GrownFits(v, n.digits);
    if d != 0 || n.digits == 1 {
      GrownNeeds(v, n.digits);
    } else {
      ProductZero(n.value);
      ScaleGrows(n.digits - 1, n.digits);
    }
  }

  lemma WordDivided(n: Number, d: Digit)
    requires Minimal(n) && d != 0
    ensures n.digits > 2 ==> Scale(1, n.digits - 2) <= Quotient(n.value, d)
  {
    hide Scale, Quotient, Remainder, Product;
    if n.digits > 2 {
      var low, q := Scale(1, n.digits - 2), Quotient(n.value, d);
      DivMod(n.value, d);
      ScaleOut(1, n.digits - 1);
      if q < low {
        QuotientTooSmall(q, low, d, Remainder(n.value, d));
      }
    }
  }

  // ---------------------------------------------------------------- whole programs on numbers

  ghost predicate AllMinimal(nums: seq<Number>)
  {
    forall k :: 0 <= k < |nums| ==> Minimal(nums[k])
  }

  /** No step of the program takes two or more digits away, or multiplies a longer number by the word zero. */
  ghost predicate Tidy(nums: seq<Number>, ops: seq<Op>)
    requires LegalRun(nums, ops)
    decreases |ops|
  {
    |ops| == 0 || (!(ops[0].Change? && var Change(i, act) := ops[0]; LeavesZeros(act, nums[i], nums[OperandOf(act, i)]))
                   && Tidy(Next(nums, ops[0]), ops[1..]))
  }

  lemma {:induction false} TidyStaysMinimal(nums: seq<Number>, ops: seq<Op>)
    requires LegalRun(nums, ops) && Tidy(nums, ops) && AllMinimal(nums)
    ensures AllMinimal(Result(nums, ops))
    decreases |ops|
  {
    if |ops| > 0 {
      StepMinimal(nums, ops[0]);
      TidyStaysMinimal(Next(nums, ops[0]), ops[1..]);
    }
  }

  lemma StepMinimal(nums: seq<Number>, op: Op)
    requires Legal(nums, op) && AllMinimal(nums)
    requires op.Change? ==> !LeavesZeros(op.act, nums[op.i], nums[OperandOf(op.act, op.i)])
    ensures AllMinimal(Next(nums, op))
  {
    hide Minimal, LeavesZeros, OutcomeDigits;
    match op
    case Make =>
      ZeroMinimal();
    case Duplicate(i) =>
    case Change(i, act) =>
      OutcomeMinimal(act, nums[i], nums[OperandOf(act, i)]);
    case UpAfter(i) =>
      OutcomeMinimal(Up, nums[i], nums[i]);
      NeverLeaves(nums[i]);
    case DownAfter(i) =>
      OutcomeMinimal(Down, nums[i], nums[i]);
      NeverLeaves(nums[i]);
    case Drop(i) =>
  }

  lemma ZeroMinimal()
    ensures Minimal(Number(0, 1))
  {
    DigitFits(0, 1);
  }

  lemma NeverLeaves(n: Number)
    ensures !LeavesZeros(Up, n, n) && !LeavesZeros(Down, n, n)
  {
  }

  /** Between numbers without leading zeros, enough value means enough digits: `-=` asks for nothing more. */
  lemma EnoughDigits(n: Number, m: Number)
    requires Minimal(n) && Minimal(m) && m.value <= n.value
    ensures m.digits <= n.digits
  {
    if n.digits < m.digits {
      ScaleGrows(n.digits, m.digits - 1);
    }
  }

  lemma SmallScales()
    ensures Scale(1, 1) == 65536 && Scale(1, 2) == 4294967296 && Scale(1, 3) == 281474976710656
  {
    assert Scale(1, 2) == Scale(65536, 1);
    assert Scale(1, 3) == Scale(65536, 2) == Scale(4294967296, 1);
  }

  /** With leading zeros it does not: 65536^2 - (65536^2 - 1) is a 1 of two digits, one more than 2 has. */
  lemma SubtrahendTooLong() returns (one: Number)
    ensures var n, m := Number(4294967296, 3), Number(4294967295, 2);
            && Minimal(n) && Minimal(m) && CanAct(Subtract(1), n, m)
            && one == Outcome(Subtract(1), n, m) == Number(1, 2)
    ensures var two := Number(2, 1); Minimal(two) && one.value <= two.value && !CanAct(Subtract(1), two, one)
  {
    hide Scale;
    SmallScales();
    one := Outcome(Subtract(1), Number(4294967296, 3), Number(4294967295, 2));
  }

  // ---------------------------------------------------------------- the objects

  /** The objects are exactly the live handles, none of them twice. */
  ghost predicate Listed(regs: seq<Bigint>, heap: Heap)
    reads heap
  {
    Lists(regs, heap.owner.Keys)
  }

  ghost predicate Lists(regs: seq<Bigint>, handles: set<Bigint>)
  {
    && (forall i :: 0 <= i < |regs| ==> regs[i] in handles)
    && (forall h :: h in handles ==> h in regs)
    && (forall i, j :: 0 <= i < j < |regs| ==> regs[i] != regs[j])
  }

  lemma ListsWithout(regs: seq<Bigint>, handles: set<Bigint>, i: nat)
    requires Lists(regs, handles) && i < |regs|
    ensures Lists(Without(regs, i), handles - {regs[i]})
  {
    var rest := Without(regs, i);
    assert forall k :: 0 <= k < |rest| ==> rest[k] == regs[if k < i then k else k + 1];
    forall h | h in handles - {regs[i]} ensures h in rest {
      var k :| 0 <= k < |regs| && regs[k] == h;
      assert rest[if k < i then k else k - 1] == h;
    }
  }

  ghost predicate Stands(r: DataRecord, n: Number)
    reads r`digitsUsed, r.number
  {
    r.Valid() && r.Value() == n.value && r.digitsUsed == n.digits
  }

  /** Each object stands for its number. */
  ghost predicate Shows(regs: seq<Bigint>, heap: Heap, nums: seq<Number>)
    requires Sound(heap) && Listed(regs, heap)
    reads heap, heap.owner.Keys`data, heap.records, set r | r in heap.records :: r.number
  {
    |regs| == |nums| && forall i :: 0 <= i < |regs| ==> Stands(regs[i].data, nums[i])
  }

  ghost function Records(regs: seq<Bigint>): (d: set<DataRecord>)
    reads regs
  {
    set h | h in regs :: h.data
  }

  ghost function Arrays(regs: seq<Bigint>): (d: set<array<Digit>>)
    reads regs
  {
    set h | h in regs :: h.data.number
  }

  /** One change of one object; `y` is the other operand. */
  method Act(x: Bigint, y: Bigint, act: Action, ghost heap: Heap, ghost n: Number, ghost m: Number)
    requires x.In(heap) && y.In(heap) && Stands(x.data, n) && Stands(y.data, m) && CanAct(act, n, m)
    modifies x, heap, x.data`references, x.data`digitsUsed, x.data.number, y.data`references
    ensures x.In(heap) && heap.owner == old(heap.owner)[x := x.data] && OthersKept(heap, x)
    ensures Stands(x.data, Outcome(act, n, m))
    ensures x.data in {old(x.data), old(y.data)} || (fresh(x.data) && fresh(x.data.number))
  {
    hide Val, Counted, Canonical, Product, LongDigits, Grown, Shrunk, Lowered, OthersKept;
    match act {
      case Assign(_) => x.Assign(y, heap);
      case Add(_) => x.AddAssign(y, heap);
      case Subtract(_) => x.SubtractAssign(y, heap);
      case Multiply(_) =>
        ProductIs(n.value, m.value);
        x.MultiplyAssign(y, heap);
      case _ => ActAlone(x, act, heap, n, m);
    }
  }

  method ActAlone(x: Bigint, act: Action, ghost heap: Heap, ghost n: Number, ghost m: Number)
    requires x.In(heap) && Stands(x.data, n) && CanAct(act, n, m)
    requires !act.Assign? && !act.Add? && !act.Subtract? && !act.Multiply?
    modifies x, heap, x.data`references, x.data`digitsUsed, x.data.number
    ensures x.In(heap) && heap.owner == old(heap.owner)[x := x.data] && OthersKept(heap, x)
    ensures Stands(x.data, Outcome(act, n, m))
    ensures x.data == old(x.data) || (fresh(x.data) && fresh(x.data.number))
  {
    hide Val, Counted, Canonical, Product, LongDigits, Grown, Shrunk, Lowered, OthersKept;
    match act {
      case AddWord(d) => x.AddShort(d, heap);
      case SubtractWord(d) => x.SubtractShort(d, heap);
      case MultiplyWord(d) => x.MultiplyShort(d, heap);
      case DivideWord(d) => x.DivideShort(d, heap);
      case RemainderWord(d) => x.RemainderShort(d, heap);
      case Up => x.PreIncrement(heap);
      case Down => x.PreDecrement(heap);
    }
  }

  lemma ListedAt(regs: seq<Bigint>, heap: Heap, i: nat)
    requires Sound(heap) && Listed(regs, heap) && i < |regs|
    ensures regs[i].In(heap)
  {
  }

  lemma ListedHandle(regs: seq<Bigint>, handles: set<Bigint>, i: nat)
    requires Lists(regs, handles) && i < |regs|
    ensures regs[i] in handles
  {
  }

  lemma ListsWith(regs: seq<Bigint>, handles: set<Bigint>, h: Bigint)
    requires Lists(regs, handles) && h !in handles
    ensures Lists(regs + [h], handles + {h})
  {
  }

  lemma ListedApart(regs: seq<Bigint>, handles: set<Bigint>, i: nat, j: nat)
    requires Lists(regs, handles) && i < |regs| && j < |regs| && i != j
    ensures regs[i] != regs[j] && regs[j] in handles
  {
  }

  /** A change of one object leaves the numbers of all others alone. */
  method RunChange(regs: seq<Bigint>, i: nat, j: nat, act: Action, ghost heap: Heap, ghost nums: seq<Number>)
    requires Sound(heap) && Listed(regs, heap) && Shows(regs, heap, nums)
    requires i < |regs| && j < |regs| && CanAct(act, nums[i], nums[j])
    modifies heap, regs, Records(regs), Arrays(regs)
    ensures Sound(heap) && Listed(regs, heap) && Shows(regs, heap, nums[i := Outcome(act, nums[i], nums[j])])
    ensures forall h :: h in regs ==> h.data in old(Records(regs)) || (fresh(h.data) && fresh(h.data.number))
  {
    hide Sound, Lists, Stands, CanAct, Outcome;
    ListedAt(regs, heap, i);
    ListedAt(regs, heap, j);
    ghost var n := Outcome(act, nums[i], nums[j]);
    Act(regs[i], regs[j], act, heap, nums[i], nums[j]);
    assert heap.owner.Keys == old(heap.owner.Keys);
    forall k | 0 <= k < |regs| ensures Stands(regs[k].data, nums[i := n][k]) {
      if k != i {
        ListedApart(regs, heap.owner.Keys, i, k);
        assert old(Stands(regs[k].data, nums[k]));
      }
    }
  }

  lemma StandsForZero(r: DataRecord)
    requires r.Valid() && r.Numeral() == [0]
    ensures Stands(r, Number(0, 1))
  {
    OneDigit(0);
  }

  method RunMake(regs: seq<Bigint>, ghost heap: Heap, ghost nums: seq<Number>) returns (regs': seq<Bigint>)
    requires Sound(heap) && Listed(regs, heap) && Shows(regs, heap, nums)
    modifies heap
    ensures Sound(heap) && Listed(regs', heap) && Shows(regs', heap, nums + [Number(0, 1)])
    ensures forall h ::
              h in regs' ==>
                  (h in regs || fresh(h)) && (h.data in old(Records(regs)) || (fresh(h.data) && fresh(h.data.number)))
  {
    hide Sound, Lists, Stands;
    var h := new Bigint(heap);
    Usable(heap, h);
    StandsForZero(h.data);
    regs' := regs + [h];
    ListsWith(regs, old(heap.owner.Keys), h);
    assert heap.owner.Keys == old(heap.owner.Keys) + {h};
    forall k | 0 <= k < |regs'| ensures Stands(regs'[k].data, (nums + [Number(0, 1)])[k]) {
      if k < |regs| {
        ListedHandle(regs, old(heap.owner.Keys), k);
        assert old(Stands(regs[k].data, nums[k]));
      }
    }
  }

  method RunDuplicate(regs: seq<Bigint>, i: nat, ghost heap: Heap, ghost nums: seq<Number>) returns (regs': seq<Bigint>)
    requires Sound(heap) && Listed(regs, heap) && Shows(regs, heap, nums) && i < |regs|
    modifies heap, Records(regs)
    ensures Sound(heap) && Listed(regs', heap) && Shows(regs', heap, nums + [nums[i]])
    ensures forall h ::
              h in regs' ==>
                  (h in regs || fresh(h)) && (h.data in old(Records(regs)) || (fresh(h.data) && fresh(h.data.number)))
  {
    hide Sound, Lists, Stands;
    ListedAt(regs, heap, i);
    assert Stands(regs[i].data, nums[i]);
    var h := new Bigint.Copy(regs[i], heap);
    assert Stands(h.data, nums[i]);
    regs' := regs + [h];
    ListsWith(regs, old(heap.owner.Keys), h);
    assert heap.owner.Keys == old(heap.owner.Keys) + {h};
    forall k | 0 <= k < |regs'| ensures Stands(regs'[k].data, (nums + [nums[i]])[k]) {
      if k < |regs| {
        ListedHandle(regs, old(heap.owner.Keys), k);
        assert old(Stands(regs[k].data, nums[k]));
      }
    }
  }

  ghost function Stepped(up: bool, n: Number): (r: Number)
    requires up || n.value > 0
  {
    Outcome(if up then Up else Down, n, n)
  }

  /** The postfix operators: the object changes and a new one holds what it was. */
  method After(x: Bigint, up: bool, ghost heap: Heap, ghost n: Number) returns (was: Bigint)
    requires x.In(heap) && Stands(x.data, n) && (up || n.value > 0)
    modifies x, heap
    ensures x.In(heap) && fresh(was) && heap.owner == old(heap.owner)[was := was.data][x := x.data]
            && OthersKept(heap, x)
    ensures Stands(x.data, Stepped(up, n)) && fresh(x.data) && fresh(x.data.number)
    ensures was.data == old(x.data) && Stands(was.data, n)
  {
    hide Val, Counted, Grown, Lowered, OthersKept;
    if up {
      was := x.PostIncrement(heap);
    } else {
      was := x.PostDecrement(heap);
    }
  }

  method RunAfter(regs: seq<Bigint>, i: nat, up: bool, ghost heap: Heap, ghost nums: seq<Number>)
    returns (regs': seq<Bigint>)
    requires Sound(heap) && Listed(regs, heap) && Shows(regs, heap, nums) && i < |regs| && (up || nums[i].value > 0)
    modifies heap, regs, Records(regs)
    ensures Sound(heap) && Listed(regs', heap)
    ensures Shows(regs', heap, nums[i := Stepped(up, nums[i])] + [nums[i]])
    ensures forall h ::
              h in regs' ==>
                  (h in regs || fresh(h)) && (h.data in old(Records(regs)) || (fresh(h.data) && fresh(h.data.number)))
  {
    hide Sound, Lists, Stands, Stepped;
    ListedAt(regs, heap, i);
    ghost var n := Stepped(up, nums[i]);
    var h := After(regs[i], up, heap, nums[i]);
    regs' := regs + [h];
    ListsWith(regs, old(heap.owner.Keys), h);
    assert heap.owner.Keys == old(heap.owner.Keys) + {h};
    forall k | 0 <= k < |regs'| ensures Stands(regs'[k].data, (nums[i := n] + [nums[i]])[k]) {
      if k < |regs| && k != i {
        ListedApart(regs, old(heap.owner.Keys), i, k);
        assert old(Stands(regs[k].data, nums[k]));
      }
    }
  }

  method RunDrop(regs: seq<Bigint>, i: nat, ghost heap: Heap, ghost nums: seq<Number>) returns (regs': seq<Bigint>)
    requires Sound(heap) && Listed(regs, heap) && Shows(regs, heap, nums) && i < |regs|
    modifies heap, Records(regs)
    ensures Sound(heap) && Listed(regs', heap) && Shows(regs', heap, Without(nums, i))
    ensures forall h ::
              h in regs' ==>
                  (h in regs || fresh(h)) && (h.data in old(Records(regs)) || (fresh(h.data) && fresh(h.data.number)))
  {
    hide Sound, Lists, Stands;
    ListedAt(regs, heap, i);
    ListsWithout(regs, heap.owner.Keys, i);
    regs[i].Destroy(heap);
    regs' := Without(regs, i);
    assert heap.owner.Keys == old(heap.owner.Keys) - {regs[i]};
    forall k | 0 <= k < |regs'| ensures Stands(regs'[k].data, Without(nums, i)[k]) {
      var m := if k < i then k else k + 1;
      assert regs'[k] == regs[m] && Without(nums, i)[k] == nums[m] && regs[m] != regs[i];
      assert old(Stands(regs[m].data, nums[m]));
    }
  }

  method Step(regs: seq<Bigint>, op: Op, ghost heap: Heap, ghost nums: seq<Number>) returns (regs': seq<Bigint>)
    requires Sound(heap) && Listed(regs, heap) && Shows(regs, heap, nums) && Legal(nums, op)
    modifies heap, regs, Records(regs), Arrays(regs)
    ensures Sound(heap) && Listed(regs', heap) && Shows(regs', heap, Next(nums, op))
    ensures forall h ::
              h in regs' ==>
                  (h in regs || fresh(h)) && (h.data in old(Records(regs)) || (fresh(h.data) && fresh(h.data.number)))
  {
    hide Sound, Lists, Stands, Records, OutcomeDigits, CanAct;
    match op {
      case Make =>
        regs' := RunMake(regs, heap, nums);
      case Duplicate(i) =>
        regs' := RunDuplicate(regs, i, heap, nums);
      case Change(i, act) =>
        RunChange(regs, i, OperandOf(act, i), act, heap, nums);
        regs' := regs;
      case UpAfter(i) =>
        regs' := RunAfter(regs, i, true, heap, nums);
      case DownAfter(i) =>
        regs' := RunAfter(regs, i, false, heap, nums);
      case Drop(i) =>
        regs' := RunDrop(regs, i, heap, nums);
    }
  }

  /** `operator<` and `operator==` at any point of a program: the digit counts decide first, so the answer is that
      of the numbers when neither has a leading zero. */
  method Compare(regs: seq<Bigint>, i: nat, j: nat, ghost heap: Heap, ghost nums: seq<Number>)
    returns (less: bool, equal: bool)
    requires Sound(heap) && Listed(regs, heap) && Shows(regs, heap, nums) && i < |regs| && j < |regs|
    ensures less
            <==> nums[i].digits < nums[j].digits || (nums[i].digits == nums[j].digits && nums[i].value < nums[j].value)
    ensures equal <==> nums[i] == nums[j]
    ensures Minimal(nums[i]) && Minimal(nums[j]) ==>
              (less <==> nums[i].value < nums[j].value) && (equal <==> nums[i].value == nums[j].value)
  {
    hide Val, Counted, Canonical, Minimal;
    assert Stands(regs[i].data, nums[i]) && Stands(regs[j].data, nums[j]);
    less := IsLessThan(regs[i].data, regs[j].data);
    equal := IsEqualTo(regs[i].data, regs[j].data);
    if nums[i] == nums[j] {
      SameLengthUnique(regs[i].data.Numeral(), regs[j].data.Numeral());
    }
    if Minimal(nums[i]) && Minimal(nums[j]) {
      if nums[i].value <= nums[j].value {
        EnoughDigits(nums[j], nums[i]);
      }
      if nums[j].value <= nums[i].value {
        EnoughDigits(nums[i], nums[j]);
      }
    }
  }

  /** Any program of constructions, copies, assignments, arithmetic, prefix and postfix steps and destructions: the
      objects stand for what the program computes on numbers, every record counts its handles, and none is lost or
      freed early. */
  method Execute(ops: seq<Op>) returns (regs: seq<Bigint>, heap: Heap)
    requires LegalRun([], ops)
    ensures Sound(heap) && Listed(regs, heap) && Shows(regs, heap, Result([], ops))
    ensures Tidy([], ops) ==> AllMinimal(Result([], ops))
  {
    hide Stands, Counted, Minimal;
    heap := new Heap();
    regs := [];
    ghost var nums: seq<Number> := [];
    assert ops[0..] == ops;
    for k := 0 to |ops|
      invariant Sound(heap) && Listed(regs, heap) && Shows(regs, heap, nums)
      invariant LegalRun(nums, ops[k..]) && Result(nums, ops[k..]) == Result([], ops)
      invariant fresh(heap) && forall h :: h in regs ==> fresh(h) && fresh(h.data) && fresh(h.data.number)
    {
      assert ops[k..][0] == ops[k] && ops[k..][1..] == ops[k + 1..];
      regs := Step(regs, ops[k], heap, nums);
      nums := Next(nums, ops[k]);
    }
    assert ops[|ops|..] == [];
    if Tidy([], ops) {
      TidyStaysMinimal([], ops);
    }
  }
}
