/** Reassembly of one direction of a TCP stream from segments in any order. */
module Reassembly {
  import opened Basics
  import opened Serial
  import opened Assignments

  /** One direction: the next expected sequence number, the bytes not yet handed out, the fragments waiting. */
  datatype Half = Half(seqno: Word, payload: seq<Byte>, frags: map<Word, seq<Byte>>)

  datatype Segment = Segment(seqno: Word, data: seq<Byte>)

  /** The bytes one peer sends, and the sequence number of the first. */
  datatype Wire = Wire(base: nat, bytes: seq<Byte>)

  /** Positions stay below 2^32 - 1 and distances below 2^31. */
  ghost predicate FitsWindow(w: Wire)
  {
    w.base + |w.bytes| < ADDITION_MODULO && |w.bytes| < HALF
  }

  /** The segment was cut from the stream. */
  ghost predicate Genuine(w: Wire, q: nat, data: seq<Byte>)
  {
    w.base <= q && q + |data| <= w.base + |w.bytes| && data == w.bytes[q - w.base..q - w.base + |data|]
  }

  ghost predicate FragsGenuine(w: Wire, frags: map<Word, seq<Byte>>)
  {
    forall q :: q in frags ==> Genuine(w, q, frags[q])
  }

  // ---------------------------------------------------------------- fragment map

  /** `safe_insert`: of two fragments at one position the longer stays, the newer on a tie. */
  function SafeInsert(frags: map<Word, seq<Byte>>, q: Word, raw: seq<Byte>): (r: map<Word, seq<Byte>>)
  {
    if q in frags && |frags[q]| > |raw| then frags else frags[q := raw]
  }

  lemma LeastKey(frags: map<Word, seq<Byte>>)
    requires frags != map[]
    ensures exists k :: IsLeastKey(frags, k)
  {
    var keys: set<nat> := set k | k in frags.Keys;
    var any :| any in frags;
    assert any in keys;
    var m := FindLeast(keys);
    forall l | l in frags ensures m <= l {
      assert l in keys;
    }
    assert IsLeastKey(frags, m);
  }

  predicate IsLeastKey(frags: map<Word, seq<Byte>>, k: Word)
  {
    k in frags && forall l :: l in frags ==> k <= l
  }

  function Begin(frags: map<Word, seq<Byte>>): (it: Option<Word>)
    ensures it.None? <==> frags == map[]
    ensures it.Some? ==> IsLeastKey(frags, it.value)
  {
    if frags == map[] then None
    else
      LeastKey(frags);
      var k :| IsLeastKey(frags, k);
      Some(k)
  }

  function After(frags: map<Word, seq<Byte>>, k: Word): (r: map<Word, seq<Byte>>)
    ensures forall l :: l in r <==> l in frags && k < l
  {
    map l | l in frags && k < l :: frags[l]
  }

  /** `erase_iterator`: the next key after `k`, wrapping to the first; the end only when nothing is left. */
  function EraseIterator(frags: map<Word, seq<Byte>>, k: Word): (r: (map<Word, seq<Byte>>, Option<Word>))
    requires k in frags
  {
    var rest := frags - {k};
    var next := Begin(After(frags, k));
    (rest, if next.Some? then next else Begin(rest))
  }

  /** Erasing the first key leaves the iterator on the first of the rest. */
  lemma EraseFirst(frags: map<Word, seq<Byte>>, k: Word)
    requires IsLeastKey(frags, k)
    ensures EraseIterator(frags, k).0 == frags - {k}
    ensures EraseIterator(frags, k).1 == Begin(frags - {k})
  {
    assert After(frags, k) == frags - {k};
  }

  // ---------------------------------------------------------------- coverage

  ghost predicate InFragment(w: Wire, frags: map<Word, seq<Byte>>, q: Word, o: nat)
  {
    q in frags && q <= w.base + o < q + |frags[q]|
  }

  /** Byte `o` of the stream has arrived: it is among the first `n`, or in some waiting fragment. */
  ghost predicate Arrived(w: Wire, n: nat, frags: map<Word, seq<Byte>>, o: nat)
  {
    o < n || exists q :: InFragment(w, frags, q, o)
  }

  ghost predicate SameArrived(w: Wire, n: nat, frags: map<Word, seq<Byte>>, m: nat, frags': map<Word, seq<Byte>>)
  {
    forall o: nat :: Arrived(w, n, frags, o) <==> Arrived(w, m, frags', o)
  }

  ghost predicate InSegment(w: Wire, q: nat, data: seq<Byte>, o: nat)
  {
    q <= w.base + o < q + |data|
  }

  /** Inserting a fragment adds exactly the bytes of the fragment. */
  lemma InsertArrives(w: Wire, n: nat, frags: map<Word, seq<Byte>>, q: Word, raw: seq<Byte>, o: nat)
    ensures Arrived(w, n, SafeInsert(frags, q, raw), o) <==> Arrived(w, n, frags, o) || InSegment(w, q, raw, o)
  {
    var r := SafeInsert(frags, q, raw);
    forall p | p in frags ensures InFragment(w, frags, p, o) ==> InFragment(w, r, p, o) {
    }
    if InSegment(w, q, raw, o) {
      assert InFragment(w, r, q, o);
    }
    if p :| InFragment(w, r, p, o) {
      assert InFragment(w, frags, p, o) || p == q;
    }
  }

  /** Removing a fragment loses only its own bytes. */
  lemma RemoveArrives(w: Wire, n: nat, frags: map<Word, seq<Byte>>, q: Word, o: nat)
    requires q in frags
    ensures Arrived(w, n, frags, o) <==> Arrived(w, n, frags - {q}, o) || InSegment(w, q, frags[q], o)
  {
    if InSegment(w, q, frags[q], o) {
      assert InFragment(w, frags, q, o);
    }
    if p :| InFragment(w, frags, p, o) {
      assert p == q || InFragment(w, frags - {q}, p, o);
    }
    if p :| InFragment(w, frags - {q}, p, o) {
      assert InFragment(w, frags, p, o);
    }
  }

  // ---------------------------------------------------------------- the invariant of a direction

  /** `n` bytes have been taken in order; everything waiting lies strictly ahead. */
  ghost predicate HalfOk(w: Wire, h: Half, n: nat)
  {
    && n <= |w.bytes| && h.seqno == w.base + n
    && FragsGenuine(w, h.frags)
    && forall q :: q in h.frags ==> h.seqno < q
  }

  /** With everything waiting strictly ahead, the next byte has not arrived. */
  lemma NextMissing(w: Wire, h: Half, n: nat)
    requires HalfOk(w, h, n)
    ensures !Arrived(w, n, h.frags, n)
  {
  }

  // ---------------------------------------------------------------- the loop

  /** The state of the merging loop: the iterator stands on the first fragment. */
  ghost predicate Merging(w: Wire, n: nat, seqno: Word, frags: map<Word, seq<Byte>>, it: Option<Word>)
  {
    n <= |w.bytes| && seqno == w.base + n && FragsGenuine(w, frags) && it == Begin(frags)
  }

  ghost function Behind(frags: map<Word, seq<Byte>>, seqno: Word): (s: set<Word>)
  {
    set q | q in frags && q < seqno
  }

  lemma MergingKeys(w: Wire, n: nat, seqno: Word, frags: map<Word, seq<Byte>>, q: Word)
    requires FitsWindow(w) && Merging(w, n, seqno, frags, Some(q))
    ensures q in frags && Genuine(w, q, frags[q])
    ensures Compare(q, seqno) == if q < seqno then -1 else if q == seqno then 0 else 1
    ensures Add(q, |frags[q]|) == q + |frags[q]|
    ensures Compare(q + |frags[q]|, seqno)
            == if q + |frags[q]| < seqno then -1 else if q + |frags[q]| == seqno then 0 else 1
    ensures q <= seqno ==> Subtract(seqno, q) == seqno - q
  {
    WindowIsLinear(w.base, |w.bytes|, q, seqno);
    WindowIsLinear(w.base, |w.bytes|, q + |frags[q]|, seqno);
    WindowIsLinear(w.base, |w.bytes|, seqno, q);
  }

  /** Cutting off what is already behind keeps the fragment genuine. */
  lemma SliceGenuine(w: Wire, q: nat, data: seq<Byte>, at: nat)
    requires Genuine(w, q, data) && q <= at <= q + |data|
    ensures Genuine(w, at, data[at - q..])
  {
  }

  /** A fragment that starts behind and ends ahead is re-inserted at the current position. */
  lemma SliceStep(w: Wire, n: nat, seqno: Word, frags: map<Word, seq<Byte>>, q: Word)
    requires FitsWindow(w) && Merging(w, n, seqno, frags, Some(q))
    requires q < seqno < q + |frags[q]|
    ensures var inserted := SafeInsert(frags, seqno, frags[q][seqno - q..]);
            && q in inserted
            && Merging(w, n, seqno, EraseIterator(inserted, q).0, EraseIterator(inserted, q).1)
            && SameArrived(w, n, frags, n, EraseIterator(inserted, q).0)
            && |EraseIterator(inserted, q).0| <= |frags|
            && |Behind(EraseIterator(inserted, q).0, seqno)| < |Behind(frags, seqno)|
  {
    var cut := frags[q][seqno - q..];
    var inserted := SafeInsert(frags, seqno, cut);
    var rest := inserted - {q};
    SliceGenuine(w, q, frags[q], seqno);
    EraseFirst(inserted, q);
    forall o: nat ensures Arrived(w, n, frags, o) <==> Arrived(w, n, rest, o) {
      InsertArrives(w, n, frags, seqno, cut, o);
      RemoveArrives(w, n, inserted, q, o);
      RemoveArrives(w, n, frags, q, o);
      if InSegment(w, q, frags[q], o) && o >= n {
        assert InSegment(w, seqno, cut, o);
        assert InFragment(w, rest, seqno, o);
      }
    }
    assert Behind(rest, seqno) == Behind(frags, seqno) - {q};
    SmallerAfterSlice(frags, inserted, q, seqno);
  }

  lemma SmallerAfterSlice(frags: map<Word, seq<Byte>>, inserted: map<Word, seq<Byte>>, q: Word, seqno: Word)
    requires q in frags && inserted.Keys == frags.Keys + {seqno} && q != seqno
    ensures |inserted - {q}| <= |frags|
  {
    assert (inserted - {q}).Keys == (frags.Keys - {q}) + {seqno};
    assert |(inserted - {q}).Keys| <= |frags.Keys - {q}| + 1;
  }

  lemma DropSmaller(frags: map<Word, seq<Byte>>, q: Word)
    requires q in frags
    ensures |frags - {q}| < |frags|
  {
    assert (frags - {q}).Keys == frags.Keys - {q};
  }

  /** A fragment wholly behind is dropped; nothing is lost. */
  lemma StaleStep(w: Wire, n: nat, seqno: Word, frags: map<Word, seq<Byte>>, q: Word)
    requires FitsWindow(w) && Merging(w, n, seqno, frags, Some(q))
    requires q + |frags[q]| <= seqno
    ensures Merging(w, n, seqno, EraseIterator(frags, q).0, EraseIterator(frags, q).1)
    ensures SameArrived(w, n, frags, n, EraseIterator(frags, q).0)
    ensures |EraseIterator(frags, q).0| < |frags|
  {
    EraseFirst(frags, q);
    DropSmaller(frags, q);
    forall o: nat ensures Arrived(w, n, frags, o) <==> Arrived(w, n, frags - {q}, o) {
      RemoveArrives(w, n, frags, q, o);
    }
  }

  /** The fragment at the current position is taken. */
  lemma TakeStep(w: Wire, n: nat, seqno: Word, frags: map<Word, seq<Byte>>)
    requires FitsWindow(w) && Merging(w, n, seqno, frags, Some(seqno))
    ensures n + |frags[seqno]| <= |w.bytes| && (seqno + |frags[seqno]|) % WORD == seqno + |frags[seqno]|
    ensures frags[seqno] == w.bytes[n..n + |frags[seqno]|]
    ensures Merging(w, n + |frags[seqno]|, seqno + |frags[seqno]|, EraseIterator(frags, seqno).0,
                    EraseIterator(frags, seqno).1)
    ensures SameArrived(w, n, frags, n + |frags[seqno]|, EraseIterator(frags, seqno).0)
    ensures |EraseIterator(frags, seqno).0| < |frags|
  {
    var m := n + |frags[seqno]|;
    EraseFirst(frags, seqno);
    DropSmaller(frags, seqno);
    assert Genuine(w, seqno, frags[seqno]);
    forall o: nat ensures Arrived(w, n, frags, o) <==> Arrived(w, m, frags - {seqno}, o) {
      RemoveArrives(w, n, frags, seqno, o);
    }
  }

  /** What one turn of the merging loop achieves: `m` bytes taken now, nothing lost, and the loop nearer its end. */
  ghost predicate Turned(w: Wire, n: nat, h: Half, m: nat, h': Half, it: Option<Word>)
    requires n <= m
  {
    && Merging(w, m, h'.seqno, h'.frags, it)
    && h'.payload == h.payload + w.bytes[n..m]
    && SameArrived(w, n, h.frags, m, h'.frags)
    && (|h'.frags| < |h.frags|
        || (|h'.frags| == |h.frags| && |Behind(h'.frags, h'.seqno)| < |Behind(h.frags, h.seqno)|))
  }

  method Slice(ghost w: Wire, ghost n: nat, h: Half, q: Word) returns (h': Half, it: Option<Word>)
    requires FitsWindow(w) && Merging(w, n, h.seqno, h.frags, Some(q)) && q < h.seqno < q + |h.frags[q]|
    ensures Turned(w, n, h, n, h', it) && h'.payload == h.payload
  {
    hide EraseIterator, SafeInsert, SameArrived, FragsGenuine, Behind;
    SliceStep(w, n, h.seqno, h.frags, q);
    MergingKeys(w, n, h.seqno, h.frags, q);
    var sliced := h.frags[q][Subtract(h.seqno, q)..];
    var (rest, next) := EraseIterator(SafeInsert(h.frags, h.seqno, sliced), q);
    h', it := h.(frags := rest), next;
  }

  method Drop(ghost w: Wire, ghost n: nat, h: Half, q: Word) returns (h': Half, it: Option<Word>)
    requires FitsWindow(w) && Merging(w, n, h.seqno, h.frags, Some(q)) && q + |h.frags[q]| <= h.seqno
    ensures Turned(w, n, h, n, h', it) && h'.payload == h.payload
  {
    hide EraseIterator, SameArrived, FragsGenuine, Behind;
    StaleStep(w, n, h.seqno, h.frags, q);
    var (rest, next) := EraseIterator(h.frags, q);
    h', it := h.(frags := rest), next;
  }

  method Take(ghost w: Wire, ghost n: nat, h: Half) returns (h': Half, it: Option<Word>, ghost m: nat)
    requires FitsWindow(w) && Merging(w, n, h.seqno, h.frags, Some(h.seqno))
    ensures n <= m && Turned(w, n, h, m, h', it)
  {
    hide EraseIterator, Arrived, SameArrived, FragsGenuine, Behind;
    TakeStep(w, n, h.seqno, h.frags);
    var data := h.frags[h.seqno];
    var (rest, next) := EraseIterator(h.frags, h.seqno);
    h', it, m := Half((h.seqno + |data|) % WORD, h.payload + data, rest), next, n + |data|;
  }

  /** One turn of the merging loop: slice, drop, or take the fragment under the iterator. */
  method MergeOne(ghost w: Wire, ghost n: nat, h: Half, q: Word)
    returns (h': Half, it: Option<Word>, took: bool, ghost m: nat)
    requires FitsWindow(w) && Merging(w, n, h.seqno, h.frags, Some(q)) && q <= h.seqno
    ensures n <= m && Turned(w, n, h, m, h', it)
    ensures !took ==> h'.payload == h.payload && m == n
  {
    m, took := n, false;
    MergingKeys(w, n, h.seqno, h.frags, q);
    if Compare(q, h.seqno) < 0 {
      var fragmentEnd := Add(q, |h.frags[q]|);
      if Compare(fragmentEnd, h.seqno) > 0 {
        h', it := Slice(w, n, h, q);
      } else {
        h', it := Drop(w, n, h, q);
      }
    } else {
      h', it, m := Take(w, n, h);
      took := true;
    }
  }

  /** All turns so far, from the start of the loop. */
  ghost predicate Merged(w: Wire, n: nat, start: Half, m: nat, h: Half)
  {
    && n <= m <= |w.bytes|
    && h.payload == start.payload + w.bytes[n..m]
    && SameArrived(w, n, start.frags, m, h.frags)
  }

  lemma SameArrivedChain(w: Wire, n: nat, f: map<Word, seq<Byte>>, m: nat, g: map<Word, seq<Byte>>, m': nat,
                         g': map<Word, seq<Byte>>)
    requires SameArrived(w, n, f, m, g) && SameArrived(w, m, g, m', g')
    ensures SameArrived(w, n, f, m', g')
  {
  }

  lemma PayloadChain(bytes: seq<Byte>, first: seq<Byte>, n: nat, m: nat, m': nat)
    requires n <= m <= m' <= |bytes|
    ensures first + bytes[n..m] + bytes[m..m'] == first + bytes[n..m']
  {
    assert bytes[n..m] + bytes[m..m'] == bytes[n..m'];
  }

  lemma MergedStep(w: Wire, n: nat, start: Half, m: nat, h: Half, m': nat, h': Half)
    requires Merged(w, n, start, m, h) && m <= m' <= |w.bytes|
    requires h'.payload == h.payload + w.bytes[m..m'] && SameArrived(w, m, h.frags, m', h'.frags)
    ensures Merged(w, n, start, m', h')
  {
    SameArrivedChain(w, n, start.frags, m, h.frags, m', h'.frags);
    PayloadChain(w.bytes, start.payload, n, m, m');
  }

  /** When the loop stops, everything that waits lies ahead. */
  lemma MergeStops(w: Wire, m: nat, h: Half, it: Option<Word>)
    requires FitsWindow(w) && Merging(w, m, h.seqno, h.frags, it)
    requires it.None? || Compare(it.value, h.seqno) > 0
    ensures HalfOk(w, h, m)
  {
    if it.Some? {
      MergingKeys(w, m, h.seqno, h.frags, it.value);
    }
  }

  /** The merging loop of `generic_process`, started at the expected position. */
  method Merge(ghost w: Wire, ghost n: nat, start: Half) returns (h: Half, added: bool, ghost m: nat)
    requires FitsWindow(w) && n <= |w.bytes| && start.seqno == w.base + n && FragsGenuine(w, start.frags)
    requires forall q :: q in start.frags ==> start.seqno <= q
    ensures HalfOk(w, h, m) && Merged(w, n, start, m, h)
    ensures !added ==> h.payload == start.payload && m == n
  {
    h, m, added := start, n, false;
    if start.seqno !in start.frags {
      return;
    }
    var it: Option<Word> := Some(start.seqno);
    while it.Some? && Compare(it.value, h.seqno) <= 0
      invariant Merging(w, m, h.seqno, h.frags, it) && Merged(w, n, start, m, h)
      invariant !added ==> h.payload == start.payload && m == n
      decreases |h.frags|, |Behind(h.frags, h.seqno)|
    {
      MergingKeys(w, m, h.seqno, h.frags, it.value);
      ghost var was, before := m, h;
      var took;
      h, it, took, m := MergeOne(w, m, h, it.value);
      MergedStep(w, n, start, was, before, m, h);
      added := added || took;
      if h.frags == map[] {
        break;
      }
    }
    MergeStops(w, m, h, it);
  }

  // ---------------------------------------------------------------- segments

  ghost predicate Gains(w: Wire, n: nat, h: Half, m: nat, h': Half, s: Segment)
  {
    forall o: nat :: Arrived(w, m, h'.frags, o) <==> Arrived(w, n, h.frags, o) || InSegment(w, s.seqno, s.data, o)
  }

  lemma SegmentKeys(w: Wire, n: nat, h: Half, s: Segment)
    requires FitsWindow(w) && HalfOk(w, h, n) && Genuine(w, s.seqno, s.data)
    ensures Add(s.seqno, |s.data|) == s.seqno + |s.data|
    ensures Compare(s.seqno + |s.data|, h.seqno) >= 0 <==> h.seqno <= s.seqno + |s.data|
    ensures Compare(s.seqno, h.seqno) < 0 <==> s.seqno < h.seqno
    ensures s.seqno <= h.seqno ==> Subtract(h.seqno, s.seqno) == h.seqno - s.seqno
  {
    WindowIsLinear(w.base, |w.bytes|, s.seqno, h.seqno);
    WindowIsLinear(w.base, |w.bytes|, s.seqno + |s.data|, h.seqno);
    WindowIsLinear(w.base, |w.bytes|, h.seqno, s.seqno);
  }

  /** Inserting the new part of a segment that does not end behind the current position. */
  lemma InsertSegment(w: Wire, n: nat, h: Half, s: Segment, q: Word, raw: seq<Byte>)
    requires FitsWindow(w) && HalfOk(w, h, n) && Genuine(w, s.seqno, s.data) && h.seqno <= s.seqno + |s.data|
    requires if s.seqno < h.seqno then q == h.seqno && raw == s.data[h.seqno - s.seqno..]
             else q == s.seqno && raw == s.data
    ensures FragsGenuine(w, SafeInsert(h.frags, q, raw))
    ensures forall p :: p in SafeInsert(h.frags, q, raw) ==> h.seqno <= p
    ensures Gains(w, n, h, n, h.(frags := SafeInsert(h.frags, q, raw)), s)
  {
    if s.seqno < h.seqno {
      SliceGenuine(w, s.seqno, s.data, h.seqno);
    }
    forall o: nat
      ensures Arrived(w, n, SafeInsert(h.frags, q, raw), o)
              <==> Arrived(w, n, h.frags, o) || InSegment(w, s.seqno, s.data, o)
    {
      InsertArrives(w, n, h.frags, q, raw, o);
    }
  }

  /** `generic_process` on a segment with data: afterwards exactly the bytes of the segment have arrived in
      addition, the payload has grown by stream bytes in order, and the next byte is missing. */
  method Process(ghost w: Wire, ghost n: nat, h: Half, s: Segment) returns (h': Half, added: bool, ghost m: nat)
    requires FitsWindow(w) && HalfOk(w, h, n) && Genuine(w, s.seqno, s.data)
    ensures HalfOk(w, h', m) && n <= m && h'.payload == h.payload + w.bytes[n..m]
    ensures Gains(w, n, h, m, h', s)
    ensures !Arrived(w, m, h'.frags, m)
    ensures !added ==> h'.payload == h.payload && m == n
  {
    h', added, m := h, false, n;
    SegmentKeys(w, n, h, s);
    var chunkEnd := Add(s.seqno, |s.data|);
    if Compare(chunkEnd, h.seqno) >= 0 {
      var q, raw := s.seqno, s.data;
      if Compare(q, h.seqno) < 0 {
        raw := raw[Subtract(h.seqno, q)..];
        q := h.seqno;
      }
      InsertSegment(w, n, h, s, q, raw);
      h', added, m := Merge(w, n, h.(frags := SafeInsert(h.frags, q, raw)));
    }
    NextMissing(w, h', m);
  }

  ghost predicate Covered(w: Wire, segs: seq<Segment>, o: nat)
  {
    exists i :: 0 <= i < |segs| && InSegment(w, segs[i].seqno, segs[i].data, o)
  }

  /** `m` is the length of the longest prefix of the stream all of whose bytes some segment carried. */
  ghost predicate LongestPrefix(w: Wire, segs: seq<Segment>, m: nat)
  {
    (forall o: nat :: o < m ==> Covered(w, segs, o)) && !Covered(w, segs, m)
  }

  /** Any number of genuine segments, in any order, with any repetition and overlap: the payload is exactly
      the longest prefix of the stream that they cover. */
  method Reassemble(w: Wire, segs: seq<Segment>) returns (h: Half)
    requires FitsWindow(w)
    requires forall i :: 0 <= i < |segs| ==> Genuine(w, segs[i].seqno, segs[i].data)
    ensures h.payload <= w.bytes && LongestPrefix(w, segs, |h.payload|)
  {
    h := Half(w.base, [], map[]);
    ghost var m := 0;
    for i := 0 to |segs|
      invariant HalfOk(w, h, m) && h.payload == w.bytes[..m]
      invariant forall o: nat :: Arrived(w, m, h.frags, o) <==> Covered(w, segs[..i], o)
    {
      ghost var was, before := m, h;
      var added;
      h, added, m := Process(w, m, h, segs[i]);
      forall o: nat ensures Arrived(w, m, h.frags, o) <==> Covered(w, segs[..i + 1], o) {
        CoveredStep(w, segs, i, o);
      }
    }
    assert segs[..|segs|] == segs;
    NextMissing(w, h, m);
    forall o: nat | o < m ensures Covered(w, segs, o) {
      assert Arrived(w, m, h.frags, o);
    }
  }

  lemma CoveredStep(w: Wire, segs: seq<Segment>, i: nat, o: nat)
    requires i < |segs|
    ensures Covered(w, segs[..i + 1], o) <==> Covered(w, segs[..i], o) || InSegment(w, segs[i].seqno, segs[i].data, o)
  {
    var longer, shorter := segs[..i + 1], segs[..i];
    if InSegment(w, segs[i].seqno, segs[i].data, o) {
      assert longer[i] == segs[i];
    }
    if j :| 0 <= j < |shorter| && InSegment(w, shorter[j].seqno, shorter[j].data, o) {
      assert longer[j] == shorter[j];
    }
    if j :| 0 <= j < |longer| && InSegment(w, longer[j].seqno, longer[j].data, o) {
      assert longer[j] == if j < i then shorter[j] else segs[i];
    }
  }

  lemma CoveredBy(w: Wire, segs: seq<Segment>, segs': seq<Segment>, o: nat)
    requires (forall s :: s in segs ==> s in segs') && Covered(w, segs, o)
    ensures Covered(w, segs', o)
  {
    var i :| 0 <= i < |segs| && InSegment(w, segs[i].seqno, segs[i].data, o);
    assert segs[i] in segs';
    var j :| 0 <= j < |segs'| && segs'[j] == segs[i];
  }

  /** The same segments in another order, or with other repetitions: the payload comes out the same. */
  method ArrivalOrderIrrelevant(w: Wire, segs: seq<Segment>, segs': seq<Segment>) returns (h: Half, h': Half)
    requires FitsWindow(w)
    requires forall i :: 0 <= i < |segs| ==> Genuine(w, segs[i].seqno, segs[i].data)
    requires forall s :: s in segs <==> s in segs'
    ensures h.payload == h'.payload && h.payload <= w.bytes && LongestPrefix(w, segs, |h.payload|)
  {
    hide InSegment, Genuine;
    h := Reassemble(w, segs);
    forall i | 0 <= i < |segs'| ensures Genuine(w, segs'[i].seqno, segs'[i].data) {
      assert segs'[i] in segs;
    }
    h' := Reassemble(w, segs');
    forall o: nat ensures Covered(w, segs, o) <==> Covered(w, segs', o) {
      if Covered(w, segs, o) {
        CoveredBy(w, segs, segs', o);
      }
      if Covered(w, segs', o) {
        CoveredBy(w, segs', segs, o);
      }
    }
    assert |h.payload| == |h'.payload|;
    assert h.payload == w.bytes[..|h.payload|] == h'.payload;
  }
}
