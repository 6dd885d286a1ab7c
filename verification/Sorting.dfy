/** The in-place sorts of `sort.h`: insertion sort, heap sort, and quick sort with a depth budget. */
module Sorting {

  /** A strict weak order: asymmetric, and not being greater is transitive. */
  ghost predicate IsOrder<T(!new)>(less: (T, T) -> bool)
  {
    && (forall a, b :: less(a, b) ==> !less(b, a))
    && (forall a, b, c :: !less(b, a) && !less(c, b) ==> !less(c, a))
  }

  lemma Trans<T(!new)>(less: (T, T) -> bool, a: T, b: T, c: T)
    requires IsOrder(less) && !less(b, a) && !less(c, b)
    ensures !less(c, a)
  {
  }

  lemma Asym<T(!new)>(less: (T, T) -> bool, a: T, b: T)
    requires IsOrder(less) && less(a, b)
    ensures !less(b, a)
  {
  }

  /** Places `lo` to `hi`, `hi` excluded, are in order. */
  ghost predicate Sorted<T>(s: seq<T>, less: (T, T) -> bool, lo: nat, hi: nat)
    requires lo <= hi <= |s|
  {
    forall i, j :: lo <= i < j < hi ==> !less(s[j], s[i])
  }

  /** `t` is `s` with the places from `lo` to `hi`, `hi` excluded, in another order. */
  ghost predicate Rearranged<T>(s: seq<T>, t: seq<T>, lo: nat, hi: nat)
  {
    && lo <= hi <= |s| == |t|
    && s[..lo] == t[..lo] && s[hi..] == t[hi..]
    && multiset(s[lo..hi]) == multiset(t[lo..hi])
  }

  lemma RearrangedSelf<T>(s: seq<T>, lo: nat, hi: nat)
    requires lo <= hi <= |s|
    ensures Rearranged(s, s, lo, hi)
  {
  }

  lemma RearrangedTrans<T>(s: seq<T>, t: seq<T>, u: seq<T>, lo: nat, hi: nat)
    requires Rearranged(s, t, lo, hi) && Rearranged(t, u, lo, hi)
    ensures Rearranged(s, u, lo, hi)
  {
  }

  /** A change inside a smaller range is one inside a larger range. */
  lemma RearrangedWiden<T>(s: seq<T>, t: seq<T>, lo: nat, hi: nat, lo': nat, hi': nat)
    requires Rearranged(s, t, lo, hi) && lo' <= lo && hi <= hi' <= |s|
    ensures Rearranged(s, t, lo', hi')
  {
    assert s[..lo'] == s[..lo][..lo'] == t[..lo][..lo'] == t[..lo'];
    assert s[hi'..] == s[hi..][hi' - hi..] == t[hi..][hi' - hi..] == t[hi'..];
    assert s[lo'..lo] == s[..lo][lo'..] == t[..lo][lo'..] == t[lo'..lo];
    assert s[hi..hi'] == s[hi..][..hi' - hi] == t[hi..][..hi' - hi] == t[hi..hi'];
    assert s[lo'..hi'] == s[lo'..lo] + s[lo..hi] + s[hi..hi'];
    assert t[lo'..hi'] == t[lo'..lo] + t[lo..hi] + t[hi..hi'];
  }

  lemma RearrangedSwap<T>(s: seq<T>, i: nat, j: nat, lo: nat, hi: nat)
    requires lo <= i < hi <= |s| && lo <= j < hi
    ensures Rearranged(s, s[i := s[j]][j := s[i]], lo, hi)
  {
    var t := s[i := s[j]][j := s[i]];
    var a, b := s[lo..hi], t[lo..hi];
    assert b == a[i - lo := a[j - lo]][j - lo := a[i - lo]];
  }

  lemma RearrangedOutside<T>(s: seq<T>, t: seq<T>, lo: nat, hi: nat, k: nat)
    requires Rearranged(s, t, lo, hi) && k < |s| && !(lo <= k < hi)
    ensures s[k] == t[k]
  {
    if k < lo {
      assert s[k] == s[..lo][k] == t[..lo][k];
    } else {
      assert s[k] == s[hi..][k - hi] == t[hi..][k - hi];
    }
  }

  /** Where an item of a rearranged range was before. */
  lemma RearrangedFrom<T>(s: seq<T>, t: seq<T>, lo: nat, hi: nat, k: nat) returns (i: nat)
    requires Rearranged(s, t, lo, hi) && lo <= k < hi
    ensures lo <= i < hi && s[i] == t[k]
  {
    assert t[k] == t[lo..hi][k - lo];
    assert t[k] in multiset(t[lo..hi]);
    assert t[k] in s[lo..hi];
    var m: nat :| m < hi - lo && s[lo..hi][m] == t[k];
    i := lo + m;
  }

  method Swap<T>(a: array<T>, i: nat, j: nat, ghost lo: nat, ghost hi: nat)
    requires lo <= i < hi <= a.Length && lo <= j < hi
    modifies a
    ensures a[..] == old(a[..])[i := old(a[j])][j := old(a[i])]
    ensures Rearranged(old(a[..]), a[..], lo, hi)
  {
    RearrangedSwap(a[..], i, j, lo, hi);
    var x := a[i];
    a[i] := a[j];
    a[j] := x;
    assert a[..] == old(a[..])[i := old(a[j])][j := old(a[i])];
  }

  /** One more exchange in a range of `s` that is being rearranged. */
  method Exchange<T>(a: array<T>, i: nat, j: nat, ghost s: seq<T>, ghost lo: nat, ghost hi: nat)
    requires lo <= i < hi <= a.Length && lo <= j < hi && Rearranged(s, a[..], lo, hi)
    modifies a
    ensures a[..] == old(a[..])[i := old(a[j])][j := old(a[i])]
    ensures Rearranged(s, a[..], lo, hi)
  {
    hide Rearranged;
    Swap(a, i, j, lo, hi);
    RearrangedTrans(s, old(a[..]), a[..], lo, hi);
  }

  // ---------------------------------------------------------------- insertion sort

  /** In order up to `i` included, but for the item at `pos`, which is on its way down. */
  ghost predicate Inserting<T>(s: seq<T>, less: (T, T) -> bool, lo: nat, pos: nat, i: nat)
    requires lo <= pos <= i < |s|
  {
    && (forall x, y :: lo <= x < y <= i && x != pos && y != pos ==> !less(s[y], s[x]))
    && (forall y :: pos < y <= i ==> !less(s[y], s[pos]))
  }

  lemma InsertStep<T(!new)>(s: seq<T>, less: (T, T) -> bool, lo: nat, pos: nat, i: nat)
    requires lo < pos <= i < |s| && Inserting(s, less, lo, pos, i) && IsOrder(less) && less(s[pos], s[pos - 1])
    ensures Inserting(s[pos := s[pos - 1]][pos - 1 := s[pos]], less, lo, pos - 1, i)
  {
    var t := s[pos := s[pos - 1]][pos - 1 := s[pos]];
    assert !less(t[pos], t[pos - 1]);
    forall x, y | lo <= x < y <= i && x != pos - 1 && y != pos - 1 ensures !less(t[y], t[x]) {
      if x == pos {
        assert !less(s[y], s[pos - 1]);
      } else if y == pos {
        assert !less(s[pos - 1], s[x]);
      }
    }
    forall y | pos - 1 < y <= i ensures !less(t[y], t[pos - 1]) {
      if y > pos {
        assert !less(s[y], s[pos]);
      }
    }
  }

  lemma InsertDone<T(!new)>(s: seq<T>, less: (T, T) -> bool, lo: nat, pos: nat, i: nat)
    requires lo <= pos <= i < |s| && Inserting(s, less, lo, pos, i) && IsOrder(less)
    requires pos == lo || !less(s[pos], s[pos - 1])
    ensures Sorted(s, less, lo, i + 1)
  {
    forall x, y | lo <= x < y < i + 1 ensures !less(s[y], s[x]) {
      if y == pos && x < pos - 1 {
        Trans(less, s[x], s[pos - 1], s[pos]);
      }
    }
  }

  method InsertionSort<T(!new)>(a: array<T>, left: nat, right: nat, less: (T, T) -> bool)
    requires IsOrder(less) && left <= right < a.Length
    modifies a
    ensures Sorted(a[..], less, left, right + 1)
    ensures Rearranged(old(a[..]), a[..], left, right + 1)
  {
    hide Rearranged, IsOrder, Inserting;
    RearrangedSelf(a[..], left, right + 1);
    var i := left + 1;
    while i <= right
      invariant left + 1 <= i <= right + 1
      invariant Sorted(a[..], less, left, i)
      invariant Rearranged(old(a[..]), a[..], left, right + 1)
    {
      ghost var before := a[..];
      Insert(a, left, i, less);
      RearrangedWiden(before, a[..], left, i + 1, left, right + 1);
      RearrangedTrans(old(a[..]), before, a[..], left, right + 1);
      i := i + 1;
    }
  }

  /** The inner loop: item `i` goes down to its place. */
  method Insert<T(!new)>(a: array<T>, left: nat, i: nat, less: (T, T) -> bool)
    requires IsOrder(less) && left < i < a.Length && Sorted(a[..], less, left, i)
    modifies a
    ensures Sorted(a[..], less, left, i + 1)
    ensures Rearranged(old(a[..]), a[..], left, i + 1)
  {
    hide Rearranged, IsOrder;
    RearrangedSelf(a[..], left, i + 1);
    var pos, j := i, i - 1;
    while less(a[pos], a[j])
      invariant left <= j == pos - 1 < i
      invariant Inserting(a[..], less, left, pos, i)
      invariant Rearranged(old(a[..]), a[..], left, i + 1)
      decreases j
    {
      InsertStep(a[..], less, left, pos, i);
      Exchange(a, pos, j, old(a[..]), left, i + 1);
      pos := j;
      if j == left {
        break;
      }
      j := j - 1;
    }
    InsertDone(a[..], less, left, pos, i);
  }

  // ---------------------------------------------------------------- heap sort

  /** The tree laid over the places from `start` on. */
  function Parent(start: nat, k: nat): (p: nat)
    requires start < k
    ensures start <= p < k
  {
    start + (k - start - 1) / 2
  }

  lemma Children(start: nat, c: nat, k: nat)
    requires start <= c && start < k
    ensures Parent(start, k) == c <==> k == 2 * c + 1 - start || k == 2 * c + 2 - start
  {
  }

  /** No child is greater than its parent, for the parents from place `from` on. */
  ghost predicate HeapFrom<T>(s: seq<T>, less: (T, T) -> bool, start: nat, end: nat, from: nat)
    requires end < |s|
  {
    forall k :: start < k <= end && Parent(start, k) >= from ==> !less(s[Parent(start, k)], s[k])
  }

  /** The same, but for the item at `c`, which is on its way down. */
  ghost predicate Sifting<T>(s: seq<T>, less: (T, T) -> bool, start: nat, end: nat, from: nat, c: nat)
    requires start <= from && end < |s|
  {
    && (c == from || (start < c <= end && Parent(start, c) >= from))
    && (forall k ::
          start < k <= end && Parent(start, k) >= from && Parent(start, k) != c ==> !less(s[Parent(start, k)], s[k]))
    && (c != from ==> forall k :: start < k <= end && Parent(start, k) == c ==> !less(s[Parent(start, c)], s[k]))
  }

  /** `m` is `c` or one of its children, and no smaller than any of them. */
  ghost predicate Largest<T>(s: seq<T>, less: (T, T) -> bool, start: nat, end: nat, c: nat, m: nat)
    requires start <= c <= end < |s|
  {
    && (m == c || (start < m <= end && Parent(start, m) == c && less(s[c], s[m])))
    && (forall k :: start < k <= end && Parent(start, k) == c ==> !less(s[m], s[k]))
  }

  lemma SiftStep<T(!new)>(s: seq<T>, less: (T, T) -> bool, start: nat, end: nat, from: nat, c: nat, m: nat)
    requires IsOrder(less) && start <= from <= c <= end < |s| && m != c
    requires Sifting(s, less, start, end, from, c) && Largest(s, less, start, end, c, m)
    ensures Sifting(s[c := s[m]][m := s[c]], less, start, end, from, m)
  {
    var t := s[c := s[m]][m := s[c]];
    Asym(less, s[c], s[m]);
    forall k | start < k <= end && Parent(start, k) >= from && Parent(start, k) != m
      ensures !less(t[Parent(start, k)], t[k]) {
      if k == c {
        assert !less(s[Parent(start, c)], s[m]);
      }
    }
    forall k | start < k <= end && Parent(start, k) == m ensures !less(t[Parent(start, m)], t[k]) {
      assert !less(s[Parent(start, k)], s[k]);
    }
  }

  method FindLargest<T(!new)>(a: array<T>, start: nat, end: nat, i: nat, less: (T, T) -> bool) returns (largest: nat)
    requires IsOrder(less) && start <= i <= end < a.Length
    ensures Largest(a[..], less, start, end, i, largest)
  {
    var left := 2 * i + 1 - start;
    var right := left + 1;
    if left <= end && less(a[i], a[left]) {
      largest := left;
    } else {
      largest := i;
    }
    if right <= end && less(a[largest], a[right]) {
      if largest == i {
        Asym(less, a[i], a[right]);
        if left <= end {
          Trans(less, a[left], a[i], a[right]);
        }
      }
      largest := right;
    }
    forall k | start < k <= end && Parent(start, k) == i ensures !less(a[largest], a[k]) {
      Children(start, i, k);
    }
  }

  method Heapify<T(!new)>(a: array<T>, start: nat, end: nat, from: nat, less: (T, T) -> bool)
    requires IsOrder(less) && start <= from <= end < a.Length && HeapFrom(a[..], less, start, end, from + 1)
    modifies a
    ensures HeapFrom(a[..], less, start, end, from)
    ensures Rearranged(old(a[..]), a[..], start, end + 1)
  {
    hide Rearranged, IsOrder;
    RearrangedSelf(a[..], start, end + 1);
    var i := from;
    var keepGoing := true;
    while keepGoing
      invariant from <= i <= end
      invariant Sifting(a[..], less, start, end, from, i)
      invariant !keepGoing ==> HeapFrom(a[..], less, start, end, from)
      invariant Rearranged(old(a[..]), a[..], start, end + 1)
      decreases keepGoing, end - i
    {
      keepGoing := false;
      var largest := FindLargest(a, start, end, i, less);
      if largest != i {
        SiftStep(a[..], less, start, end, from, i, largest);
        Exchange(a, i, largest, old(a[..]), start, end + 1);
        i := largest;
        keepGoing := true;
      }
    }
  }

  /** The root of a heap is its greatest item. */
  lemma {:induction false} RootGreatest<T(!new)>(s: seq<T>, less: (T, T) -> bool, start: nat, end: nat, k: nat)
    requires IsOrder(less) && start <= k <= end < |s| && HeapFrom(s, less, start, end, start)
    ensures !less(s[start], s[k])
    decreases k
  {
    if k > start {
      RootGreatest(s, less, start, end, Parent(start, k));
      Trans(less, s[k], s[Parent(start, k)], s[start]);
    }
  }

  /** The places after `i` hold what they will hold in the end. */
  ghost predicate TailSorted<T>(s: seq<T>, less: (T, T) -> bool, left: nat, i: nat, right: nat)
    requires right < |s|
  {
    forall x, y :: left <= x < y <= right && i < y ==> !less(s[y], s[x])
  }

  lemma TailKept<T>(s: seq<T>, t: seq<T>, less: (T, T) -> bool, left: nat, i: nat, right: nat)
    requires right < |s| && left <= i <= right && TailSorted(s, less, left, i, right) && Rearranged(s, t, left, i + 1)
    ensures TailSorted(t, less, left, i, right)
  {
    hide Rearranged;
    RearrangedLength(s, t, left, i + 1);
    forall x, y | left <= x < y <= right && i < y ensures !less(t[y], t[x]) {
      RearrangedOutside(s, t, left, i + 1, y);
      if x <= i {
        var x' := RearrangedFrom(s, t, left, i + 1, x);
        assert !less(s[y], s[x']);
      } else {
        RearrangedOutside(s, t, left, i + 1, x);
      }
    }
  }

  lemma RearrangedLength<T>(s: seq<T>, t: seq<T>, lo: nat, hi: nat)
    requires Rearranged(s, t, lo, hi)
    ensures |s| == |t|
  {
  }

  /** The greatest item goes behind the others. */
  lemma RootToBack<T(!new)>(s: seq<T>, less: (T, T) -> bool, left: nat, i: nat, right: nat)
    requires IsOrder(less) && left < i <= right < |s|
    requires HeapFrom(s, less, left, i, left) && TailSorted(s, less, left, i, right)
    ensures var t := s[i := s[left]][left := s[i]];
            HeapFrom(t, less, left, i - 1, left + 1) && TailSorted(t, less, left, i - 1, right)
  {
    var t := s[i := s[left]][left := s[i]];
    forall x, y | left <= x < y <= right && i - 1 < y ensures !less(t[y], t[x]) {
      if y == i {
        RootGreatest(s, less, left, i, if x == left then i else x);
      } else if x == i {
        assert !less(s[y], s[left]);
      } else if x == left {
        assert !less(s[y], s[i]);
      }
    }
    forall k | left < k <= i - 1 && Parent(left, k) >= left + 1 ensures !less(t[Parent(left, k)], t[k]) {
      assert !less(s[Parent(left, k)], s[k]);
    }
  }

  method BuildHeap<T(!new)>(a: array<T>, left: nat, right: nat, less: (T, T) -> bool)
    requires IsOrder(less) && left <= right < a.Length
    modifies a
    ensures HeapFrom(a[..], less, left, right, left)
    ensures Rearranged(old(a[..]), a[..], left, right + 1)
  {
    hide Rearranged, IsOrder;
    RearrangedSelf(a[..], left, right + 1);
    var i := left + (right - left) / 2;
    while true
      invariant left <= i <= right
      invariant HeapFrom(a[..], less, left, right, i + 1)
      invariant Rearranged(old(a[..]), a[..], left, right + 1)
      decreases i
    {
      ghost var before := a[..];
      Heapify(a, left, right, i, less);
      RearrangedTrans(old(a[..]), before, a[..], left, right + 1);
      if i == left {
        break;
      }
      i := i - 1;
    }
  }

  method HeapSort<T(!new)>(a: array<T>, left: nat, right: nat, less: (T, T) -> bool)
    requires IsOrder(less) && left <= right < a.Length
    modifies a
    ensures Sorted(a[..], less, left, right + 1)
    ensures Rearranged(old(a[..]), a[..], left, right + 1)
  {
    hide Rearranged, IsOrder, HeapFrom;
    if right - left < 30 {
      InsertionSort(a, left, right, less);
      return;
    }
    BuildHeap(a, left, right, less);
    var i := right;
    while i > left
      invariant left <= i <= right
      invariant HeapFrom(a[..], less, left, i, left)
      invariant TailSorted(a[..], less, left, i, right)
      invariant Rearranged(old(a[..]), a[..], left, right + 1)
    {
      ghost var before := a[..];
      PopRoot(a, left, i, right, less);
      i := i - 1;
      RearrangedTrans(old(a[..]), before, a[..], left, right + 1);
    }
  }

  method PopRoot<T(!new)>(a: array<T>, left: nat, i: nat, ghost right: nat, less: (T, T) -> bool)
    requires IsOrder(less) && left < i <= right < a.Length
    requires HeapFrom(a[..], less, left, i, left) && TailSorted(a[..], less, left, i, right)
    modifies a
    ensures HeapFrom(a[..], less, left, i - 1, left) && TailSorted(a[..], less, left, i - 1, right)
    ensures Rearranged(old(a[..]), a[..], left, right + 1)
  {
    hide Rearranged, IsOrder, HeapFrom, TailSorted;
    RootToBack(a[..], less, left, i, right);
    Swap(a, i, left, left, right + 1);
    ghost var between := a[..];
    Heapify(a, left, i - 1, left, less);
    RootPopped(old(a[..]), between, a[..], less, left, i, right);
  }

  lemma RootPopped<T>(s: seq<T>, t: seq<T>, u: seq<T>, less: (T, T) -> bool, left: nat, i: nat, right: nat)
    requires left < i <= right < |t| && TailSorted(t, less, left, i - 1, right)
    requires Rearranged(s, t, left, right + 1) && Rearranged(t, u, left, i)
    ensures right < |u| && TailSorted(u, less, left, i - 1, right) && Rearranged(s, u, left, right + 1)
  {
    hide Rearranged, TailSorted;
    RearrangedLength(t, u, left, i);
    TailKept(t, u, less, left, i - 1, right);
    RearrangedWiden(t, u, left, i, left, right + 1);
    RearrangedTrans(s, t, u, left, right + 1);
  }

  // ---------------------------------------------------------------- quick sort

  /** Nothing before `p` is greater than the item there, nothing after it is less. */
  ghost predicate Parted<T>(s: seq<T>, less: (T, T) -> bool, left: nat, p: nat, right: nat)
    requires p <= right < |s|
  {
    && (forall k :: left <= k < p ==> !less(s[p], s[k]))
    && (forall k :: p < k <= right ==> !less(s[k], s[p]))
  }

  method Partition<T(!new)>(a: array<T>, left: nat, right: nat, less: (T, T) -> bool) returns (p: nat)
    requires IsOrder(less) && left < right < a.Length
    modifies a
    ensures left <= p <= right && Rearranged(old(a[..]), a[..], left, right + 1)
    ensures forall k :: left <= k < p ==> less(a[k], a[p])
    ensures forall k :: p < k <= right ==> !less(a[k], a[p])
  {
    hide Rearranged, IsOrder, Splitting;
    Swap(a, (right - left) / 2 + left, right, left, right + 1);
    p := left;
    SplitStart(a[..], less, left, right);
    for j := left to right
      invariant left <= p <= j
      invariant Splitting(a[..], less, left, p, j, right)
      invariant Rearranged(old(a[..]), a[..], left, right + 1)
    {
      if less(a[j], a[right]) {
        SplitStep(a[..], less, left, p, j, right);
        Exchange(a, p, j, old(a[..]), left, right + 1);
        p := p + 1;
      } else {
        SplitSkip(a[..], less, left, p, j, right);
      }
    }
    SplitDone(a[..], less, left, p, right);
    Exchange(a, p, right, old(a[..]), left, right + 1);
  }

  /** Of the places up to `j`, those before `p` hold what is less than the pivot, which waits at `right`. */
  ghost predicate Splitting<T>(s: seq<T>, less: (T, T) -> bool, left: nat, p: nat, j: nat, right: nat)
    requires p <= j <= right < |s|
  {
    && (forall k :: left <= k < p ==> less(s[k], s[right]))
    && (forall k :: p <= k < j ==> !less(s[k], s[right]))
  }

  lemma SplitStart<T>(s: seq<T>, less: (T, T) -> bool, left: nat, right: nat)
    requires left <= right < |s|
    ensures Splitting(s, less, left, left, left, right)
  {
  }

  lemma SplitSkip<T>(s: seq<T>, less: (T, T) -> bool, left: nat, p: nat, j: nat, right: nat)
    requires left <= p <= j < right < |s| && Splitting(s, less, left, p, j, right) && !less(s[j], s[right])
    ensures Splitting(s, less, left, p, j + 1, right)
  {
  }

  lemma SplitStep<T>(s: seq<T>, less: (T, T) -> bool, left: nat, p: nat, j: nat, right: nat)
    requires left <= p <= j < right < |s| && Splitting(s, less, left, p, j, right) && less(s[j], s[right])
    ensures Splitting(s[p := s[j]][j := s[p]], less, left, p + 1, j + 1, right)
  {
  }

  lemma SplitDone<T(!new)>(s: seq<T>, less: (T, T) -> bool, left: nat, p: nat, right: nat)
    requires IsOrder(less) && left <= p <= right < |s| && Splitting(s, less, left, p, right, right)
    ensures var t := s[p := s[right]][right := s[p]];
            (forall k :: left <= k < p ==> less(t[k], t[p])) && (forall k :: p < k <= right ==> !less(t[k], t[p]))
  {
    NotLessSelf(less, s[right]);
  }

  lemma NotLessSelf<T(!new)>(less: (T, T) -> bool, x: T)
    requires IsOrder(less)
    ensures !less(x, x)
  {
  }

  /** Sorting one side changes nothing about the split. */
  lemma PartedKept<T>(s: seq<T>, t: seq<T>, less: (T, T) -> bool, left: nat, p: nat, right: nat, lo: nat, hi: nat)
    requires left <= p <= right < |s| && Parted(s, less, left, p, right)
    requires Rearranged(s, t, lo, hi) && ((lo == left && hi == p) || (lo == p + 1 && hi == right + 1))
    ensures |s| == |t| && Parted(t, less, left, p, right)
  {
    hide Rearranged;
    RearrangedLength(s, t, lo, hi);
    RearrangedOutside(s, t, lo, hi, p);
    forall k | left <= k <= right && k != p ensures if k < p then !less(t[p], t[k]) else !less(t[k], t[p]) {
      if lo <= k < hi {
        var k' := RearrangedFrom(s, t, lo, hi, k);
        assert s[k'] == t[k];
      } else {
        RearrangedOutside(s, t, lo, hi, k);
      }
    }
  }

  lemma PartsSorted<T(!new)>(s: seq<T>, less: (T, T) -> bool, left: nat, p: nat, right: nat)
    requires IsOrder(less) && left <= p <= right < |s| && Parted(s, less, left, p, right)
    requires Sorted(s, less, left, p) && Sorted(s, less, p + 1, right + 1)
    ensures Sorted(s, less, left, right + 1)
  {
    forall x, y | left <= x < y < right + 1 ensures !less(s[y], s[x]) {
      if x < p < y {
        Trans(less, s[x], s[p], s[y]);
      }
    }
  }

  lemma SortedElsewhere<T>(s: seq<T>, t: seq<T>, less: (T, T) -> bool, lo: nat, hi: nat, lo': nat, hi': nat)
    requires lo <= hi <= |s| && Sorted(s, less, lo, hi) && Rearranged(s, t, lo', hi') && hi <= lo'
    ensures |s| == |t| && Sorted(t, less, lo, hi)
  {
    hide Rearranged;
    RearrangedLength(s, t, lo', hi');
    forall k | lo <= k < hi ensures s[k] == t[k] {
      RearrangedOutside(s, t, lo', hi', k);
    }
  }

  /** The depth budget of a nested call. */
  function NextBudget(d: nat): (r: nat)
    ensures d > 0 ==> r < d
    ensures 32 * r <= 17 * d
  {
    d / 2 + d / 2 / 16
  }

  /** How deep calls can nest on a budget. */
  function Levels(d: nat): (n: nat)
  {
    if d == 0 then 1 else 1 + Levels(NextBudget(d))
  }

  method QuickSortMain<T(!new)>(a: array<T>, left: nat, right: nat, depthCheck: nat, less: (T, T) -> bool)
    returns (ghost depth: nat)
    requires IsOrder(less) && left <= right + 1 <= a.Length
    modifies a
    ensures Sorted(a[..], less, left, right + 1)
    ensures Rearranged(old(a[..]), a[..], left, right + 1)
    ensures 1 <= depth <= Levels(depthCheck)
    decreases right - left, 2
  {
    hide Rearranged, IsOrder, Sorted;
    depth := 1;
    if left < right {
      if right - left < 30 || depthCheck == 0 {
        HeapSort(a, left, right, less);
      } else {
        var budget := NextBudget(depthCheck);
        var p := Partition(a, left, right, less);
        ghost var before := a[..];
        forall k | left <= k < p ensures !less(a[p], a[k]) {
          Asym(less, a[k], a[p]);
        }
        depth := SortParts(a, left, p, right, budget, less);
        RearrangedTrans(old(a[..]), before, a[..], left, right + 1);
        depth := depth + 1;
      }
    } else {
      RearrangedSelf(a[..], left, right + 1);
      SortedShort(a[..], less, left, right + 1);
    }
  }

  lemma SortedShort<T>(s: seq<T>, less: (T, T) -> bool, lo: nat, hi: nat)
    requires lo <= hi <= |s| && hi <= lo + 1
    ensures Sorted(s, less, lo, hi)
  {
  }

  /** The two recursive calls. */
  method SortParts<T(!new)>(a: array<T>, left: nat, p: nat, right: nat, budget: nat, less: (T, T) -> bool)
    returns (ghost depth: nat)
    requires IsOrder(less) && left <= p <= right < a.Length && Parted(a[..], less, left, p, right)
    modifies a
    ensures Sorted(a[..], less, left, right + 1)
    ensures Rearranged(old(a[..]), a[..], left, right + 1)
    ensures 1 <= depth <= Levels(budget)
    decreases right - left, 1
  {
    hide Rearranged, IsOrder, Sorted, Parted;
    ghost var first := SortBefore(a, left, p, right, budget, less);
    ghost var t := a[..];
    ghost var second := SortAfter(a, left, p, right, budget, less);
    RearrangedTrans(old(a[..]), t, a[..], left, right + 1);
    depth := if first < second then second else first;
  }

  method SortBefore<T(!new)>(a: array<T>, left: nat, p: nat, ghost right: nat, budget: nat, less: (T, T) -> bool)
    returns (ghost depth: nat)
    requires IsOrder(less) && left <= p <= right < a.Length && Parted(a[..], less, left, p, right)
    modifies a
    ensures Parted(a[..], less, left, p, right) && Sorted(a[..], less, left, p)
    ensures Rearranged(old(a[..]), a[..], left, right + 1)
    ensures 1 <= depth <= Levels(budget)
    decreases right - left, 0
  {
    hide Rearranged, IsOrder, Sorted, Parted;
    depth := 1;
    if p > 0 {
      depth := QuickSortMain(a, left, p - 1, budget, less);
    } else {
      RearrangedSelf(a[..], left, p);
      SortedShort(a[..], less, left, p);
    }
    PartedKept(old(a[..]), a[..], less, left, p, right, left, p);
    RearrangedWiden(old(a[..]), a[..], left, p, left, right + 1);
  }

  method SortAfter<T(!new)>(a: array<T>, ghost left: nat, p: nat, right: nat, budget: nat, less: (T, T) -> bool)
    returns (ghost depth: nat)
    requires IsOrder(less) && left <= p <= right < a.Length
    requires Parted(a[..], less, left, p, right) && Sorted(a[..], less, left, p)
    modifies a
    ensures Sorted(a[..], less, left, right + 1)
    ensures Rearranged(old(a[..]), a[..], left, right + 1)
    ensures 1 <= depth <= Levels(budget)
    decreases right - left, 0
  {
    hide Rearranged, IsOrder, Sorted, Parted;
    depth := QuickSortMain(a, p + 1, right, budget, less);
    PartedKept(old(a[..]), a[..], less, left, p, right, p + 1, right + 1);
    SortedElsewhere(old(a[..]), a[..], less, left, p, p + 1, right + 1);
    RearrangedWiden(old(a[..]), a[..], p + 1, right + 1, left, right + 1);
    PartsSorted(a[..], less, left, p, right);
  }

  /** `qsort_array`: sorted, a rearrangement of what was there, the rest untouched, on a budget of `right - left`. */
  method QuickSort<T(!new)>(a: array<T>, left: nat, right: nat, less: (T, T) -> bool) returns (ghost depth: nat)
    requires IsOrder(less) && left <= right < a.Length
    modifies a
    ensures Sorted(a[..], less, left, right + 1)
    ensures Rearranged(old(a[..]), a[..], left, right + 1)
    ensures 1 <= depth <= Levels(right - left)
  {
    depth := QuickSortMain(a, left, right, right - left, less);
  }

  // ---------------------------------------------------------------- the depth is logarithmic

  function Power(b: nat, k: nat): (r: nat)
    ensures b > 0 ==> r > 0
  {
    if k == 0 then 1 else b * Power(b, k - 1)
  }

  /** Every level leaves at most 17/32 of the budget. */
  lemma {:induction false} LevelsBound(d: nat, k: nat)
    requires Power(17, k) * d < Power(32, k)
    ensures Levels(d) <= k + 1
    decreases k
  {
    if d > 0 && k > 0 {
      var e, p, q := NextBudget(d), Power(17, k - 1), Power(32, k - 1);
      LevelStep(p, d, e);
      LevelsBound(e, k - 1);
    }
  }

  lemma LevelStep(p: nat, d: nat, e: nat)
    requires 32 * e <= 17 * d
    ensures 32 * (p * e) <= (17 * p) * d
  {
    Scaled(p, 32 * e, 17 * d);
    Regroup(p, 32, e);
    Regroup(p, 17, d);
    Regroup(32, p, e);
  }

  lemma Scaled(p: nat, x: nat, y: nat)
    requires x <= y
    ensures p * x <= p * y
  {
  }

  /** Ten doublings of the range cost at most eleven levels. */
  lemma LevelsLogarithmic(d: nat, m: nat)
    requires d < Power(1024, m)
    ensures Levels(d) <= 11 * m + 1
  {
    ElevenLevels(m);
    var p := Power(17, 11 * m);
    assert p * d < p * Power(1024, m) by {
      Scaled(p, d + 1, Power(1024, m));
    }
    LevelsBound(d, 11 * m);
  }

  lemma {:induction false} ElevenLevels(m: nat)
    ensures Power(17, 11 * m) * Power(1024, m) <= Power(32, 11 * m)
  {
    if m > 0 {
      ElevenLevels(m - 1);
      PowerEleven(17, 11 * (m - 1));
      PowerEleven(32, 11 * (m - 1));
      var p, q, r := Power(17, 11 * (m - 1)), Power(1024, m - 1), Power(32, 11 * (m - 1));
      EleventhPowers(p, q, r);
    }
  }

  lemma PowerEleven(b: nat, k: nat)
    ensures Power(b, k + 11) == Power(b, 11) * Power(b, k)
  {
    PowerAdd(b, 11, k);
  }

  lemma {:induction false} PowerAdd(b: nat, j: nat, k: nat)
    ensures Power(b, k + j) == Power(b, j) * Power(b, k)
    decreases j
  {
    if j > 0 {
      PowerAdd(b, j - 1, k);
      Regroup(b, Power(b, j - 1), Power(b, k));
    }
  }

  lemma Regroup(b: nat, p: nat, q: nat)
    ensures b * (p * q) == (b * p) * q
  {
  }

  lemma EleventhPowers(p: nat, q: nat, r: nat)
    requires p * q <= r
    ensures (Power(17, 11) * p) * (1024 * q) <= Power(32, 11) * r
  {
    var a, b := Power(17, 11), Power(32, 11);
    assert a * 1024 <= b by {
      assert Power(17, 3) == 4913 && Power(32, 3) == 32768;
      PowerAdd(17, 3, 3);
      PowerAdd(32, 3, 3);
      PowerAdd(17, 5, 6);
      PowerAdd(32, 5, 6);
      assert Power(17, 5) == 1419857 && Power(32, 5) == 33554432;
      assert Power(17, 6) == 24137569 && Power(32, 6) == 1073741824;
    }
    assert (a * p) * (1024 * q) == (a * 1024) * (p * q);
    Scaled(a * 1024, p * q, r);
    assert (a * 1024) * r <= b * r;
  }
}
