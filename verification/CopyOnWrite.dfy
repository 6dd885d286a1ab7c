/** `bigint_kernel_1` objects: handles that share reference-counted digit records. */
module CopyOnWrite {
  import opened Basics
  import opened Digits
  import opened Kernel
  import opened Products

  /** What is alive: the handles a program holds, each with its record, and the records allocated and not freed. */
  class Heap {
    ghost var owner: map<Bigint, DataRecord>
    ghost var records: set<DataRecord>

    constructor ()
      ensures Sound(this) && owner == map[] && records == {}
    {
      owner, records := map[], {};
    }
  }

  ghost function Holders(owner: map<Bigint, DataRecord>, r: DataRecord): (s: set<Bigint>)
  {
    set h | h in owner && owner[h] == r
  }

  /** Some handle is on the record. */
  ghost predicate Held(owner: map<Bigint, DataRecord>, r: DataRecord)
  {
    exists h :: h in owner && owner[h] == r
  }

  lemma HeldWith(owner: map<Bigint, DataRecord>, h: Bigint, g: Bigint, r: DataRecord)
    requires h !in owner && g in owner
    ensures Held(owner[h := owner[g]], r) <==> Held(owner, r)
  {
    if k :| k in owner && owner[k] == r {
      assert owner[h := owner[g]][k] == r;
    }
  }

  /** Every handle points at a record that has not been freed; every record not freed has a handle, and counts
      its handles; no two records share digits. */
  ghost predicate Counted(heap: Heap)
    reads heap, heap.owner.Keys`data, heap.records`references
  {
    && (forall h :: h in heap.owner ==> h.data == heap.owner[h] && h.data in heap.records)
    && (forall r :: r in heap.records ==> 1 <= r.references == |Holders(heap.owner, r)|)
    && Separate(heap.records)
  }

  ghost predicate Sound(heap: Heap)
    reads heap, heap.owner.Keys`data, heap.records
  {
    Counted(heap) && forall r :: r in heap.records ==> r.Valid()
  }

  ghost predicate Separate(records: set<DataRecord>)
  {
    forall r, t :: r in records && t in records && r != t ==> r.number != t.number
  }

  lemma SeparateWith(records: set<DataRecord>, temp: DataRecord)
    requires Separate(records) && forall r :: r in records ==> r.number != temp.number
    ensures Separate(records + {temp})
  {
  }

  lemma SeparateWithout(records: set<DataRecord>, gone: DataRecord)
    requires Separate(records)
    ensures Separate(records - {gone})
  {
  }

  /** All handles but `but` are still there and stand for the numbers they stood for. */
  twostate predicate OthersKept(heap: Heap, new but: Bigint)
    requires old(Sound(heap)) && Sound(heap)
    reads *
  {
    forall h :: h in old(heap.owner) && h != but ==>
      h in heap.owner && h.data == old(h.data) && unchanged(h.data`digitsUsed) && unchanged(h.data.number)
  }

  // ---------------------------------------------------------------- counting

  lemma HoldersJoin(owner: map<Bigint, DataRecord>, h: Bigint, r: DataRecord, t: DataRecord)
    requires h !in owner
    ensures |Holders(owner[h := r], t)| == |Holders(owner, t)| + if t == r then 1 else 0
  {
    assert Holders(owner[h := r], t) == if t == r then Holders(owner, t) + {h} else Holders(owner, t);
  }

  lemma HoldersLeave(owner: map<Bigint, DataRecord>, h: Bigint, t: DataRecord)
    requires h in owner
    ensures |Holders(owner, t)| == |Holders(owner - {h}, t)| + if t == owner[h] then 1 else 0
  {
    HoldersJoin(owner - {h}, h, owner[h], t);
    assert (owner - {h})[h := owner[h]] == owner;
  }

  lemma NoHolders(owner: map<Bigint, DataRecord>, r: DataRecord)
    requires forall h :: h in owner ==> owner[h] != r
    ensures Holders(owner, r) == {}
  {
  }

  /** A count of one means that nobody else is looking. */
  lemma OnlyHolder(owner: map<Bigint, DataRecord>, h: Bigint, other: Bigint)
    requires h in owner && other in owner && other != h && |Holders(owner, owner[h])| == 1
    ensures owner[other] != owner[h]
  {
    var rest := owner - {h};
    HoldersLeave(owner, h, owner[h]);
    assert other in rest && rest[other] == owner[other];
    assert other in Holders(rest, owner[other]);
  }

  /** The sum in a record of its own. */
  method NewSum(lhs: DataRecord, rhs: DataRecord, longer: nat) returns (temp: DataRecord)
    requires lhs.Valid() && rhs.Valid() && lhs.digitsUsed <= longer && rhs.digitsUsed <= longer
    ensures fresh(temp) && fresh(temp.number) && temp.Valid() && temp.references == 1
    ensures temp.Value() == lhs.Value() + rhs.Value()
    ensures temp.digitsUsed == Grown(temp.Value(), Longer(lhs.digitsUsed, rhs.digitsUsed))
    ensures Canonical(lhs.Numeral()) && Canonical(rhs.Numeral()) ==> Canonical(temp.Numeral())
  {
    hide Val, Scale;
    temp := new DataRecord(longer + SLACK);
    LongAdd(lhs, rhs, temp);
  }

  /** The difference in a record of its own. */
  method NewDifference(lhs: DataRecord, rhs: DataRecord) returns (temp: DataRecord)
    requires lhs.Valid() && rhs.Valid() && rhs.Value() <= lhs.Value() && rhs.digitsUsed <= lhs.digitsUsed
    ensures fresh(temp) && fresh(temp.number) && temp.Valid() && temp.references == 1
    ensures temp.Value() == lhs.Value() - rhs.Value()
    ensures temp.digitsUsed == Shrunk(temp.Value(), lhs.digitsUsed)
    ensures Canonical(temp.Numeral()) <==> lhs.digitsUsed <= 2 || Scale(1, lhs.digitsUsed - 2) <= temp.Value()
  {
    hide Val, Scale;
    temp := new DataRecord(lhs.digitsUsed + SLACK);
    LongSub(lhs, rhs, temp);
  }

  /** The product in a record of its own. */
  method NewProduct(lhs: DataRecord, rhs: DataRecord) returns (temp: DataRecord)
    requires lhs.Valid() && rhs.Valid()
    ensures fresh(temp) && fresh(temp.number) && temp.Valid() && temp.references == 1
    ensures temp.Value() == lhs.Value() * rhs.Value()
    ensures temp.digitsUsed == LongDigits(lhs.Value(), lhs.digitsUsed, rhs.Value(), rhs.digitsUsed)
    ensures Canonical(lhs.Numeral()) && Canonical(rhs.Numeral()) ==> Canonical(temp.Numeral())
  {
    hide Val, LongDigits;
    temp := new DataRecord(rhs.digitsUsed + lhs.digitsUsed + SLACK);
    LongMul(lhs, rhs, temp);
  }

  /** The same with a 16-bit operand. */
  method NewShortSum(data: DataRecord, d: Digit) returns (temp: DataRecord)
    requires data.Valid()
    ensures fresh(temp) && fresh(temp.number) && temp.Valid() && temp.references == 1
    ensures temp.Value() == data.Value() + d
    ensures temp.digitsUsed == Grown(temp.Value(), data.digitsUsed)
    ensures Canonical(data.Numeral()) ==> Canonical(temp.Numeral())
  {
    hide Val, Scale;
    temp := new DataRecord(data.digitsUsed + SLACK);
    ShortAdd(data, d, temp);
  }

  method NewShortProduct(data: DataRecord, d: Digit) returns (temp: DataRecord)
    requires data.Valid()
    ensures fresh(temp) && fresh(temp.number) && temp.Valid() && temp.references == 1
    ensures temp.Value() == Product(data.Value(), d)
    ensures temp.digitsUsed == Grown(temp.Value(), data.digitsUsed)
    ensures Canonical(data.Numeral()) ==> (Canonical(temp.Numeral()) <==> d != 0 || data.digitsUsed == 1)
  {
    hide Val, Scale;
    temp := new DataRecord(data.digitsUsed + SLACK);
    ShortMul(data, d, temp);
  }

  method NewShortDifference(data: DataRecord, d: Digit) returns (temp: DataRecord)
    requires data.Valid() && d <= data.Value()
    ensures fresh(temp) && fresh(temp.number) && temp.Valid() && temp.references == 1
    ensures temp.Value() == data.Value() - d
    ensures temp.digitsUsed == Shrunk(temp.Value(), data.digitsUsed)
    ensures Canonical(data.Numeral()) ==> Canonical(temp.Numeral())
  {
    hide Val, Scale;
    temp := new DataRecord(data.digitsUsed + SLACK);
    ShortSub(data, d, temp);
  }

  method NewQuotient(data: DataRecord, d: Digit) returns (temp: DataRecord, rem: Digit)
    requires data.Valid() && d != 0
    ensures fresh(temp) && fresh(temp.number) && temp.Valid() && temp.references == 1
    ensures data.Value() == Product(temp.Value(), d) + rem && rem < d
    ensures temp.digitsUsed == Shrunk(temp.Value(), data.digitsUsed)
    ensures Canonical(data.Numeral()) ==> Canonical(temp.Numeral())
  {
    hide Val, Scale;
    temp := new DataRecord(data.digitsUsed + SLACK);
    rem := ShortDiv(data, d, temp);
  }

  method NewSuccessor(data: DataRecord) returns (temp: DataRecord)
    requires data.Valid()
    ensures fresh(temp) && fresh(temp.number) && temp.Valid() && temp.references == 1
    ensures temp.Value() == data.Value() + 1
    ensures temp.digitsUsed == Grown(temp.Value(), data.digitsUsed)
    ensures Canonical(data.Numeral()) ==> Canonical(temp.Numeral())
  {
    hide Val, Scale;
    temp := new DataRecord(data.digitsUsed + SLACK);
    Increment(data, temp);
  }

  method NewPredecessor(data: DataRecord) returns (temp: DataRecord)
    requires data.Valid() && data.Value() != 0
    ensures fresh(temp) && fresh(temp.number) && temp.Valid() && temp.references == 1
    ensures temp.Value() == data.Value() - 1
    ensures temp.digitsUsed == Lowered(data.Value(), data.digitsUsed)
    ensures Canonical(data.Numeral()) ==> Canonical(temp.Numeral())
  {
    hide Val, Scale;
    temp := new DataRecord(data.digitsUsed + SLACK);
    Decrement(data, temp);
  }

  class Bigint {
    var data: DataRecord

    ghost predicate In(heap: Heap)
      reads this`data, heap, heap.owner.Keys`data, heap.records
    {
      Sound(heap) && this in heap.owner && data == heap.owner[this] && data in heap.records
    }

    ghost function Value(): (v: nat)
      requires data.Valid()
      reads this`data, data`digitsUsed, data.number
    {
      data.Value()
    }

    /** Zero, in a record of its own. */
    constructor (ghost heap: Heap)
      requires Sound(heap)
      modifies heap
      ensures In(heap) && heap.owner == old(heap.owner)[this := data] && OthersKept(heap, this)
      ensures this !in old(heap.owner) && fresh(data) && fresh(data.number) && data.Numeral() == [0]
    {
      data := new DataRecord(SLACK);
      new;
      Take(data, heap);
    }

    /** A second handle on the record of `item`. */
    constructor Copy(item: Bigint, ghost heap: Heap)
      requires item.In(heap)
      modifies heap, item.data`references
      ensures In(heap) && heap.owner == old(heap.owner)[this := item.data] && OthersKept(heap, this)
      ensures this !in old(heap.owner) && data == item.data && data.Numeral() == old(item.data.Numeral())
    {
      data := item.data;
      new;
      Join(item.data, heap);
    }

    /** Take over a record that nobody holds. */
    method Take(temp: DataRecord, ghost heap: Heap)
      requires Sound(heap) && this !in heap.owner
      requires temp !in heap.records && temp.Valid() && temp.references == 1
      requires forall r :: r in heap.records ==> r.number != temp.number
      modifies this, heap
      ensures In(heap) && data == temp && heap.owner == old(heap.owner)[this := temp] && OthersKept(heap, this)
      ensures heap.records == old(heap.records) + {temp}
    {
      hide Holders, Separate, DataRecord.Valid;
      NoHolders(heap.owner, temp);
      SeparateWith(heap.records, temp);
      data := temp;
      heap.owner, heap.records := heap.owner[this := temp], heap.records + {temp};
      assert forall h :: h in heap.owner ==> h.data == heap.owner[h] && h.data in heap.records;
      assert forall r :: r in heap.records ==> r.Valid();
      forall r | r in heap.records ensures 1 <= r.references == |Holders(heap.owner, r)| {
        HoldersJoin(old(heap.owner), this, temp, r);
      }
    }

    /** Share a record that is in use. */
    method Join(r: DataRecord, ghost heap: Heap)
      requires Sound(heap) && this !in heap.owner && r in heap.records
      modifies this, heap, r`references
      ensures In(heap) && data == r && heap.owner == old(heap.owner)[this := r] && OthersKept(heap, this)
      ensures heap.records == old(heap.records)
    {
      hide Holders, Separate, DataRecord.Valid;
      data := r;
      r.references := r.references + 1;
      heap.owner := heap.owner[this := r];
      assert forall h :: h in heap.owner ==> h.data == heap.owner[h] && h.data in heap.records;
      assert forall t :: t in heap.records ==> t.Valid();
      forall t | t in heap.records ensures 1 <= t.references == |Holders(heap.owner, t)| {
        HoldersJoin(old(heap.owner), this, r, t);
      }
    }

    /** The destructor: the last handle on a record frees it, and only the last. */
    method Destroy(ghost heap: Heap)
      requires In(heap)
      modifies heap, data`references
      ensures Sound(heap) && heap.owner == old(heap.owner) - {this} && OthersKept(heap, this)
      ensures heap.records == if Held(heap.owner, data) then old(heap.records) else old(heap.records) - {data}
    {
      if data.references == 1 {
        DestroySole(heap);
      } else {
        DestroyShared(heap);
      }
    }

    method DestroySole(ghost heap: Heap)
      requires In(heap) && data.references == 1
      modifies heap
      ensures Sound(heap) && heap.owner == old(heap.owner) - {this} && OthersKept(heap, this)
      ensures heap.records == old(heap.records) - {data} && forall h :: h in heap.owner ==> heap.owner[h] != data
    {
      hide Holders, Separate;
      forall h | h in heap.owner && h != this ensures heap.owner[h] != data {
        OnlyHolder(heap.owner, this, h);
      }
      SeparateWithout(heap.records, data);
      heap.records := heap.records - {data};
      heap.owner := heap.owner - {this};
      forall r | r in heap.records ensures 1 <= r.references == |Holders(heap.owner, r)| {
        HoldersLeave(old(heap.owner), this, r);
      }
    }

    method DestroyShared(ghost heap: Heap)
      requires In(heap) && data.references != 1
      modifies heap, data`references
      ensures Sound(heap) && heap.owner == old(heap.owner) - {this} && OthersKept(heap, this)
      ensures heap.records == old(heap.records) && Held(heap.owner, data)
    {
      hide Holders, Separate;
      data.references := data.references - 1;
      heap.owner := heap.owner - {this};
      forall r | r in heap.records ensures 1 <= r.references == |Holders(heap.owner, r)| {
        HoldersLeave(old(heap.owner), this, r);
      }
      SomeHolder(heap.owner, data);
    }

    /** Let go of the present record and take over `temp`. */
    method Adopt(temp: DataRecord, ghost heap: Heap)
      requires In(heap) && temp !in heap.records && temp.Valid() && temp.references == 1
      requires forall r :: r in heap.records ==> r.number != temp.number
      modifies this, heap, data`references
      ensures In(heap) && data == temp && heap.owner == old(heap.owner)[this := temp] && OthersKept(heap, this)
      ensures data.references == 1
    {
      hide Counted;
      Present(heap, this);
      Destroy(heap);
      Take(temp, heap);
      OwnerMoved(old(heap.owner), this, temp);
    }

    /** `operator=`: this handle moves over to the record of `rhs`. */
    method Assign(rhs: Bigint, ghost heap: Heap)
      requires In(heap) && rhs.In(heap)
      modifies this, heap, data`references, rhs.data`references
      ensures In(heap) && heap.owner == old(heap.owner)[this := data] && OthersKept(heap, this)
      ensures data == old(rhs.data) && data.Numeral() == old(rhs.data.Numeral())
      ensures heap.records == if Held(heap.owner, old(data)) then old(heap.records) else old(heap.records) - {old(data)}
    {
      if this == rhs {
        assert heap.owner[this := data] == heap.owner;
        return;
      }
      Move(rhs, heap);
    }

    method Move(rhs: Bigint, ghost heap: Heap)
      requires In(heap) && rhs.In(heap) && this != rhs
      modifies this, heap, data`references, rhs.data`references
      ensures In(heap) && heap.owner == old(heap.owner)[this := data] && OthersKept(heap, this)
      ensures data == old(rhs.data) && data.Numeral() == old(rhs.data.Numeral())
      ensures heap.records == if Held(heap.owner, old(data)) then old(heap.records) else old(heap.records) - {old(data)}
    {
      hide Sound, Held;
      Usable(heap, rhs);
      Destroy(heap);
      Live(heap, rhs);
      HeldWith(heap.owner, this, rhs, old(data));
      Join(rhs.data, heap);
      OwnerMoved(old(heap.owner), this, data);
    }

    // -------------------------------------------------------------- operators

    /** `operator+=`. */
    method AddAssign(rhs: Bigint, ghost heap: Heap)
      requires In(heap) && rhs.In(heap)
      modifies this, heap, data`references, data`digitsUsed, data.number
      ensures In(heap) && heap.owner == old(heap.owner)[this := data] && OthersKept(heap, this)
      ensures Value() == old(Value() + rhs.Value())
      ensures data.digitsUsed == Grown(Value(), old(Longer(data.digitsUsed, rhs.data.digitsUsed)))
      ensures data != old(data) ==> fresh(data) && fresh(data.number)
      ensures old(Canonical(data.Numeral()) && Canonical(rhs.data.Numeral())) ==> Canonical(data.Numeral())
    {
      var longer := if data.digitsUsed < rhs.data.digitsUsed then rhs.data.digitsUsed else data.digitsUsed;
      if data.references != 1 || data.size <= longer {
        AddInNew(rhs, longer, heap);
      } else {
        AddInPlace(rhs, longer, heap);
      }
    }

    method AddInNew(rhs: Bigint, longer: nat, ghost heap: Heap)
      requires In(heap) && rhs.In(heap) && data.digitsUsed <= longer && rhs.data.digitsUsed <= longer
      modifies this, heap, data`references
      ensures In(heap) && heap.owner == old(heap.owner)[this := data] && OthersKept(heap, this)
      ensures Value() == old(Value() + rhs.Value())
      ensures data.digitsUsed == Grown(Value(), old(Longer(data.digitsUsed, rhs.data.digitsUsed)))
      ensures data != old(data) ==> fresh(data) && fresh(data.number)
      ensures old(Canonical(data.Numeral()) && Canonical(rhs.data.Numeral())) ==> Canonical(data.Numeral())
    {
      hide Val, Sound, Canonical, Grown;
      Usable(heap, this);
      Usable(heap, rhs);
      var temp := NewSum(data, rhs.data, longer);
      Adopt(temp, heap);
    }

    method AddInPlace(rhs: Bigint, ghost longer: nat, ghost heap: Heap)
      requires In(heap) && rhs.In(heap) && data.digitsUsed <= longer && rhs.data.digitsUsed <= longer
      requires data.references == 1 && longer < data.size
      modifies data`digitsUsed, data.number
      ensures In(heap) && heap.owner == old(heap.owner)[this := data] && OthersKept(heap, this)
      ensures Value() == old(Value() + rhs.Value())
      ensures data.digitsUsed == Grown(Value(), old(Longer(data.digitsUsed, rhs.data.digitsUsed)))
      ensures data != old(data) ==> fresh(data) && fresh(data.number)
      ensures old(Canonical(data.Numeral()) && Canonical(rhs.data.Numeral())) ==> Canonical(data.Numeral())
    {
      hide Val, Scale, Counted;
      Present(heap, this);
      Present(heap, rhs);
      SoleOwner(heap, this);
      LongAdd(data, rhs.data, data);
    }

    /** `operator-=`. */
    method SubtractAssign(rhs: Bigint, ghost heap: Heap)
      requires In(heap) && rhs.In(heap) && rhs.Value() <= Value() && rhs.data.digitsUsed <= data.digitsUsed
      modifies this, heap, data`references, data`digitsUsed, data.number
      ensures In(heap) && heap.owner == old(heap.owner)[this := data] && OthersKept(heap, this)
      ensures Value() == old(Value() - rhs.Value())
      ensures data.digitsUsed == Shrunk(Value(), old(data.digitsUsed))
      ensures data != old(data) ==> fresh(data) && fresh(data.number)
      ensures Canonical(data.Numeral()) <==> old(data.digitsUsed) <= 2 || Scale(1, old(data.digitsUsed) - 2) <= Value()
    {
      if data.references != 1 {
        SubtractInNew(rhs, heap);
      } else {
        SubtractInPlace(rhs, heap);
      }
    }

    method SubtractInNew(rhs: Bigint, ghost heap: Heap)
      requires In(heap) && rhs.In(heap) && rhs.Value() <= Value() && rhs.data.digitsUsed <= data.digitsUsed
      modifies this, heap, data`references
      ensures In(heap) && heap.owner == old(heap.owner)[this := data] && OthersKept(heap, this)
      ensures Value() == old(Value() - rhs.Value())
      ensures data.digitsUsed == Shrunk(Value(), old(data.digitsUsed))
      ensures data != old(data) ==> fresh(data) && fresh(data.number)
      ensures Canonical(data.Numeral()) <==> old(data.digitsUsed) <= 2 || Scale(1, old(data.digitsUsed) - 2) <= Value()
    {
      hide Val, Scale, Sound, Canonical, Shrunk;
      Usable(heap, this);
      Usable(heap, rhs);
      var temp := NewDifference(data, rhs.data);
      Adopt(temp, heap);
    }

    method SubtractInPlace(rhs: Bigint, ghost heap: Heap)
      requires In(heap) && rhs.In(heap) && rhs.Value() <= Value() && rhs.data.digitsUsed <= data.digitsUsed
      requires data.references == 1
      modifies data`digitsUsed, data.number
      ensures In(heap) && heap.owner == old(heap.owner)[this := data] && OthersKept(heap, this)
      ensures Value() == old(Value() - rhs.Value())
      ensures data.digitsUsed == Shrunk(Value(), old(data.digitsUsed))
      ensures data != old(data) ==> fresh(data) && fresh(data.number)
      ensures Canonical(data.Numeral()) <==> old(data.digitsUsed) <= 2 || Scale(1, old(data.digitsUsed) - 2) <= Value()
    {
      hide Val, Scale, Counted;
      Present(heap, this);
      Present(heap, rhs);
      SoleOwner(heap, this);
      LongSub(data, rhs.data, data);
    }

    /** `operator*=`. */
    method MultiplyAssign(rhs: Bigint, ghost heap: Heap)
      requires In(heap) && rhs.In(heap)
      modifies this, heap, data`references
      ensures In(heap) && heap.owner == old(heap.owner)[this := data] && OthersKept(heap, this)
      ensures Value() == old(Value()) * old(rhs.Value())
      ensures data.digitsUsed == old(LongDigits(Value(), data.digitsUsed, rhs.Value(), rhs.data.digitsUsed))
      ensures data != old(data) ==> fresh(data) && fresh(data.number)
      ensures old(Canonical(data.Numeral()) && Canonical(rhs.data.Numeral())) ==> Canonical(data.Numeral())
    {
      hide Val, Sound, LongDigits, Canonical;
      Usable(heap, this);
      Usable(heap, rhs);
      var temp := NewProduct(data, rhs.data);
      Adopt(temp, heap);
    }

    /** `operator+=` with a 16-bit operand. */
    method AddShort(rhs: Digit, ghost heap: Heap)
      requires In(heap)
      modifies this, heap, data`references, data`digitsUsed, data.number
      ensures In(heap) && heap.owner == old(heap.owner)[this := data] && OthersKept(heap, this)
      ensures Value() == old(Value()) + rhs
      ensures data.digitsUsed == Grown(Value(), old(data.digitsUsed))
      ensures data != old(data) ==> fresh(data) && fresh(data.number)
      ensures old(Canonical(data.Numeral())) ==> Canonical(data.Numeral())
    {
      hide Val, Scale, Counted;
      Present(heap, this);
      if data.references != 1 || data.digitsUsed == data.size {
        var temp := NewShortSum(data, rhs);
        Adopt(temp, heap);
      } else {
        SoleOwner(heap, this);
        ShortAdd(data, rhs, data);
      }
    }

    /** `operator*=` with a 16-bit operand. */
    method MultiplyShort(rhs: Digit, ghost heap: Heap)
      requires In(heap)
      modifies this, heap, data`references, data`digitsUsed, data.number
      ensures In(heap) && heap.owner == old(heap.owner)[this := data] && OthersKept(heap, this)
      ensures Value() == Product(old(Value()), rhs)
      ensures data.digitsUsed == Grown(Value(), old(data.digitsUsed))
      ensures data != old(data) ==> fresh(data) && fresh(data.number)
      ensures old(Canonical(data.Numeral())) ==> (Canonical(data.Numeral()) <==> rhs != 0 || old(data.digitsUsed) == 1)
    {
      hide Val, Scale, Counted;
      Present(heap, this);
      if data.references != 1 || data.digitsUsed == data.size {
        var temp := NewShortProduct(data, rhs);
        Adopt(temp, heap);
      } else {
        SoleOwner(heap, this);
        ShortMul(data, rhs, data);
      }
    }

    /** `operator-=` with a 16-bit operand. */
    method SubtractShort(rhs: Digit, ghost heap: Heap)
      requires In(heap) && rhs <= Value()
      modifies this, heap, data`references, data`digitsUsed, data.number
      ensures In(heap) && heap.owner == old(heap.owner)[this := data] && OthersKept(heap, this)
      ensures Value() == old(Value()) - rhs
      ensures data.digitsUsed == Shrunk(Value(), old(data.digitsUsed))
      ensures data != old(data) ==> fresh(data) && fresh(data.number)
      ensures old(Canonical(data.Numeral())) ==> Canonical(data.Numeral())
    {
      hide Val, Scale, Counted;
      Present(heap, this);
      if data.references != 1 {
        var temp := NewShortDifference(data, rhs);
        Adopt(temp, heap);
      } else {
        SoleOwner(heap, this);
        ShortSub(data, rhs, data);
      }
    }

    /** The division by a 16-bit operand that `operator/=` and `operator%=` share. */
    method DivideBy(rhs: Digit, ghost heap: Heap) returns (remainder: Digit)
      requires In(heap) && rhs != 0
      modifies this, heap, data`references, data`digitsUsed, data.number
      ensures In(heap) && heap.owner == old(heap.owner)[this := data] && OthersKept(heap, this)
      ensures old(Value()) == Product(Value(), rhs) + remainder && remainder < rhs
      ensures data.digitsUsed == Shrunk(Value(), old(data.digitsUsed))
      ensures data.references == 1
      ensures data != old(data) ==> fresh(data) && fresh(data.number)
      ensures old(Canonical(data.Numeral())) ==> Canonical(data.Numeral())
    {
      hide Val, Scale, Counted, Product;
      Present(heap, this);
      if data.references != 1 {
        var temp;
        temp, remainder := NewQuotient(data, rhs);
        Adopt(temp, heap);
      } else {
        SoleOwner(heap, this);
        remainder := ShortDiv(data, rhs, data);
      }
    }

    /** `operator/=` with a 16-bit operand. */
    method DivideShort(rhs: Digit, ghost heap: Heap)
      requires In(heap) && rhs != 0
      modifies this, heap, data`references, data`digitsUsed, data.number
      ensures In(heap) && heap.owner == old(heap.owner)[this := data] && OthersKept(heap, this)
      ensures Value() == old(Value()) / rhs
      ensures data.digitsUsed == Shrunk(Value(), old(data.digitsUsed))
      ensures data != old(data) ==> fresh(data) && fresh(data.number)
      ensures old(Canonical(data.Numeral())) ==> Canonical(data.Numeral())
    {
      hide Val, Counted, Product;
      var remainder := DivideBy(rhs, heap);
      QuotientIs(old(Value()), rhs, Value(), remainder);
    }

    /** `operator%=` with a 16-bit operand. */
    method RemainderShort(rhs: Digit, ghost heap: Heap)
      requires In(heap) && rhs != 0
      modifies this, heap, data`references, data`digitsUsed, data.number
      ensures In(heap) && heap.owner == old(heap.owner)[this := data] && OthersKept(heap, this)
      ensures Value() == old(Value()) % rhs && Canonical(data.Numeral())
      ensures data.digitsUsed == 1
      ensures data != old(data) ==> fresh(data) && fresh(data.number)
    {
      hide Val, Counted, Product;
      var remainder := DivideBy(rhs, heap);
      QuotientIs(old(Value()), rhs, Value(), remainder);
      SetDigit(remainder, heap);
    }

    /** One digit in a record of this handle alone. */
    method SetDigit(d: Digit, ghost heap: Heap)
      requires In(heap) && data.references == 1
      modifies data`digitsUsed, data.number
      ensures In(heap) && OthersKept(heap, this) && data.Numeral() == [d] && Value() == d
    {
      hide Val, Counted;
      SoleOwner(heap, this);
      OneDigit(d);
      data.digitsUsed := 1;
      data.number[0] := d;
    }

    /** Prefix `operator++`. */
    method PreIncrement(ghost heap: Heap)
      requires In(heap)
      modifies this, heap, data`references, data`digitsUsed, data.number
      ensures In(heap) && heap.owner == old(heap.owner)[this := data] && OthersKept(heap, this)
      ensures Value() == old(Value()) + 1
      ensures data.digitsUsed == Grown(Value(), old(data.digitsUsed))
      ensures data != old(data) ==> fresh(data) && fresh(data.number)
      ensures old(Canonical(data.Numeral())) ==> Canonical(data.Numeral())
    {
      hide Val, Scale, Counted;
      Present(heap, this);
      if data.references != 1 || data.digitsUsed == data.size {
        var temp := NewSuccessor(data);
        Adopt(temp, heap);
      } else {
        SoleOwner(heap, this);
        Increment(data, data);
      }
    }

    /** Prefix `operator--`. */
    method PreDecrement(ghost heap: Heap)
      requires In(heap) && Value() != 0
      modifies this, heap, data`references, data`digitsUsed, data.number
      ensures In(heap) && heap.owner == old(heap.owner)[this := data] && OthersKept(heap, this)
      ensures Value() == old(Value()) - 1
      ensures data.digitsUsed == Lowered(old(Value()), old(data.digitsUsed))
      ensures data != old(data) ==> fresh(data) && fresh(data.number)
      ensures old(Canonical(data.Numeral())) ==> Canonical(data.Numeral())
    {
      hide Val, Scale, Counted;
      Present(heap, this);
      if data.references != 1 {
        var temp := NewPredecessor(data);
        Adopt(temp, heap);
      } else {
        SoleOwner(heap, this);
        Decrement(data, data);
      }
    }

    /** A handle on a record whose count already includes it. */
    constructor Hold(r: DataRecord)
      ensures data == r
    {
      data := r;
    }

    /** Postfix `operator++`: the old record goes to the handle that is returned, the count does not change. */
    method PostIncrement(ghost heap: Heap) returns (was: Bigint)
      requires In(heap)
      modifies this, heap
      ensures In(heap) && fresh(was) && heap.owner == old(heap.owner)[was := was.data][this := data]
              && OthersKept(heap, this)
      ensures Value() == old(Value()) + 1 && fresh(data) && fresh(data.number)
      ensures data.digitsUsed == Grown(Value(), old(data.digitsUsed))
      ensures was.data == old(data) && was.data.Valid() && was.data.Numeral() == old(data.Numeral())
      ensures old(Canonical(data.Numeral())) ==> Canonical(data.Numeral())
    {
      hide Val, Scale, Counted;
      Present(heap, this);
      var temp := NewSuccessor(data);
      was := Swap(temp, heap);
    }

    /** Postfix `operator--` of a positive number. */
    method PostDecrement(ghost heap: Heap) returns (was: Bigint)
      requires In(heap) && Value() != 0
      modifies this, heap
      ensures In(heap) && fresh(was) && heap.owner == old(heap.owner)[was := was.data][this := data]
              && OthersKept(heap, this)
      ensures Value() == old(Value()) - 1 && fresh(data) && fresh(data.number)
      ensures data.digitsUsed == Lowered(old(Value()), old(data.digitsUsed))
      ensures was.data == old(data) && was.data.Valid() && was.data.Numeral() == old(data.Numeral())
      ensures old(Canonical(data.Numeral())) ==> Canonical(data.Numeral())
    {
      hide Val, Scale, Counted;
      Present(heap, this);
      var temp := NewPredecessor(data);
      was := Swap(temp, heap);
    }

    method Swap(temp: DataRecord, ghost heap: Heap) returns (was: Bigint)
      requires In(heap) && temp !in heap.records && temp.Valid() && temp.references == 1
      requires forall r :: r in heap.records ==> r.number != temp.number
      modifies this, heap
      ensures In(heap) && fresh(was) && heap.owner == old(heap.owner)[was := was.data][this := data]
              && OthersKept(heap, this)
      ensures data == temp && was.data == old(data)
    {
      hide Counted;
      was := new Bigint.Hold(data);
      HandOver(was, heap);
      Take(temp, heap);
      OwnerSwapped(old(heap.owner), this, was, was.data, temp);
    }

    /** `was` stands in for this handle. */
    ghost method HandOver(was: Bigint, heap: Heap)
      requires In(heap) && was !in heap.owner && was.data == data
      modifies heap
      ensures Sound(heap) && heap.owner == (old(heap.owner) - {this})[was := data] && heap.records == old(heap.records)
      ensures OthersKept(heap, this)
    {
      hide Holders, Separate;
      heap.owner := (heap.owner - {this})[was := data];
      forall r | r in heap.records ensures 1 <= r.references == |Holders(heap.owner, r)| {
        HoldersLeave(old(heap.owner), this, r);
        HoldersJoin(old(heap.owner) - {this}, was, data, r);
      }
    }
  }

  /** Work on a record with a single handle is seen by no other handle. */
  lemma SoleOwner(heap: Heap, h: Bigint)
    requires Counted(heap) && h in heap.owner && h.data.references == 1
    ensures forall g :: g in heap.owner && g != h ==> g.data != h.data && g.data.number != h.data.number
    ensures heap.owner == heap.owner[h := h.data]
  {
    hide Holders;
    forall g | g in heap.owner && g != h ensures g.data != h.data && g.data.number != h.data.number {
      OnlyHolder(heap.owner, h, g);
    }
  }

  lemma Usable(heap: Heap, h: Bigint)
    requires h.In(heap)
    ensures h.data == heap.owner[h] && h.data in heap.records && h.data.Valid()
  {
  }

  lemma Live(heap: Heap, h: Bigint)
    requires Sound(heap) && h in heap.owner
    ensures h.In(heap)
  {
  }

  lemma Present(heap: Heap, h: Bigint)
    requires Counted(heap) && h in heap.owner
    ensures h.data == heap.owner[h] && h.data in heap.records
  {
  }

  lemma OwnerMoved<K, V>(m: map<K, V>, k: K, v: V)
    ensures (m - {k})[k := v] == m[k := v]
  {
  }

  lemma OwnerSwapped<K, V>(m: map<K, V>, k: K, j: K, w: V, v: V)
    ensures (m - {k})[j := w][k := v] == m[j := w][k := v]
  {
  }

  lemma SomeHolder(owner: map<Bigint, DataRecord>, r: DataRecord)
    requires |Holders(owner, r)| > 0
    ensures Held(owner, r)
  {
    var h :| h in Holders(owner, r);
  }
}
