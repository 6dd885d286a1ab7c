/** Following TCP connections: a table of sessions, and what the callbacks get to see. */
module Follower {
  import opened Basics
  import opened Serial
  import opened Reassembly

  datatype Flags = Flags(fin: bool, syn: bool, rst: bool, psh: bool, ack: bool, urg: bool, ece: bool, cwr: bool)

  datatype Info = Info(clientAddr: nat, serverAddr: nat, clientPort: nat, serverPort: nat)

  datatype Packet = Packet(info: Info, seqno: Word, ackno: Word, flags: Flags, data: Option<seq<Byte>>)

  datatype Stream = Stream(client: Half, server: Half, info: Info, id: nat, synAckSent: bool, finSent: bool)

  datatype Side = Client | Server

  /** The calls of the user's functions: `data_fun` with what both buffers hold, `end_fun` at the end. */
  datatype Event = Data(id: nat, client: seq<Byte>, server: seq<Byte>) | End(id: nat)

  /** The two byte streams of a connection. */
  datatype Talk = Talk(client: Wire, server: Wire)

  function Flip(i: Info): (r: Info)
  {
    Info(i.serverAddr, i.clientAddr, i.serverPort, i.clientPort)
  }

  function SideOf(s: Stream, p: Packet): (d: Side)
  {
    if p.info.clientAddr == s.info.clientAddr && p.info.clientPort == s.info.clientPort then Client else Server
  }

  function HalfOf(s: Stream, d: Side): (h: Half)
  {
    if d.Client? then s.client else s.server
  }

  function WithHalf(s: Stream, d: Side, h: Half): (r: Stream)
  {
    if d.Client? then s.(client := h) else s.(server := h)
  }

  function WireOf(t: Talk, d: Side): (w: Wire)
  {
    if d.Client? then t.client else t.server
  }

  // ---------------------------------------------------------------- what the callbacks have seen

  /** Everything `data_fun` was given for one direction of one connection, in order. */
  ghost function Delivered(log: seq<Event>, id: nat, d: Side): (bytes: seq<Byte>)
  {
    if log == [] then []
    else
      var last := log[|log| - 1];
      var before := Delivered(log[..|log| - 1], id, d);
      if last.Data? && last.id == id then before + (if d.Client? then last.client else last.server) else before
  }

  lemma DeliveredAppend(log: seq<Event>, e: Event, id: nat, d: Side)
    ensures Delivered(log + [e], id, d)
            == if e.Data? && e.id == id then Delivered(log, id, d) + (if d.Client? then e.client else e.server)
               else Delivered(log, id, d)
  {
    assert (log + [e])[..|log|] == log;
  }

  // ---------------------------------------------------------------- one stream

  ghost predicate TalkFits(t: Talk)
  {
    FitsWindow(t.client) && FitsWindow(t.server)
  }

  /** `given` bytes of one direction have been handed out; the buffer continues them. */
  ghost predicate SideOk(w: Wire, h: Half, given: seq<Byte>)
  {
    exists n: nat :: HalfOk(w, h, n) && given + h.payload == w.bytes[..n]
  }

  ghost predicate StreamOk(t: Talk, s: Stream, clientGiven: seq<Byte>, serverGiven: seq<Byte>)
  {
    if s.synAckSent then
      SideOk(t.client, s.client, clientGiven) && SideOk(t.server, s.server, serverGiven)
    else
      clientGiven == [] && serverGiven == [] && s.client.payload == [] && s.server.payload == []
      && s.client.frags == map[] && s.server.frags == map[]
  }

  function IsSynAck(f: Flags): (b: bool)
  {
    f == Flags(false, true, false, false, true, false, false, false)
  }

  /** What the packet must be for the stream to be the reassembly of `t`: the handshake announces the two
      first sequence numbers, and data is cut from the sender's bytes. */
  ghost predicate PacketOk(t: Talk, s: Stream, p: Packet)
  {
    if !s.synAckSent then
      IsSynAck(p.flags) ==> (p.seqno + 1) % WORD == t.server.base && p.ackno == t.client.base
    else
      p.data.Some? ==> Genuine(WireOf(t, SideOf(s, p)), p.seqno, p.data.value)
  }

  function Other(d: Side): (r: Side)
  {
    if d.Client? then Server else Client
  }

  function Handshaken(s: Stream, p: Packet): (r: Stream)
  {
    s.(server := s.server.(seqno := (p.seqno + 1) % WORD), client := s.client.(seqno := p.ackno), synAckSent := true)
  }

  /** How a direction takes in a segment: the buffer grows by stream bytes in order, exactly the bytes of the
      segment have arrived in addition, and `added` tells of any growth. */
  ghost predicate Absorbed(w: Wire, h: Half, g: Segment, h': Half, added: bool, n: nat, m: nat)
  {
    && HalfOk(w, h, n) && HalfOk(w, h', m) && n <= m
    && h'.payload == h.payload + w.bytes[n..m]
    && Gains(w, n, h, m, h', g)
    && (!added ==> m == n)
  }

  ghost predicate Absorbs(w: Wire, h: Half, g: Segment, h': Half, added: bool)
  {
    exists n: nat, m: nat :: Absorbed(w, h, g, h', added, n, m)
  }

  /** What `update` does. */
  ghost predicate Updated(t: Talk, s: Stream, p: Packet, s': Stream, changed: bool)
  {
    if !s.synAckSent then
      s' == (if IsSynAck(p.flags) then Handshaken(s, p) else s) && !changed
    else
      var d := SideOf(s, p);
      && s' == WithHalf(s, d, HalfOf(s', d)).(finSent := s.finSent || p.flags.fin || p.flags.rst)
      && if p.data.None? then HalfOf(s', d) == HalfOf(s, d) && !changed
         else Absorbs(WireOf(t, d), HalfOf(s, d), Segment(p.seqno, p.data.value), HalfOf(s', d), changed)
  }

  /** `TCPCapStream::update`. */
  method Update(ghost t: Talk, ghost clientGiven: seq<Byte>, ghost serverGiven: seq<Byte>, s: Stream, p: Packet)
    returns (s': Stream, changed: bool)
    requires TalkFits(t) && StreamOk(t, s, clientGiven, serverGiven) && PacketOk(t, s, p)
    ensures Updated(t, s, p, s', changed)
  {
    s', changed := s, false;
    if !s.synAckSent {
      if IsSynAck(p.flags) {
        s' := Handshaken(s, p);
      }
    } else {
      var d := SideOf(s, p);
      s' := s.(finSent := s.finSent || p.flags.fin || p.flags.rst);
      if p.data.Some? {
        ghost var given := if d.Client? then clientGiven else serverGiven;
        ghost var n: nat
          :| HalfOk(WireOf(t, d), HalfOf(s, d), n) && given + HalfOf(s, d).payload == WireOf(t, d).bytes[..n];
        ghost var m;
        var h;
        h, changed, m := Process(WireOf(t, d), n, HalfOf(s, d), Segment(p.seqno, p.data.value));
        assert Absorbed(WireOf(t, d), HalfOf(s, d), Segment(p.seqno, p.data.value), h, changed, n, m);
        s' := WithHalf(s', d, h);
      }
    }
  }

  lemma AbsorbKeepsSide(w: Wire, h: Half, g: Segment, h': Half, added: bool, given: seq<Byte>)
    requires SideOk(w, h, given) && Absorbs(w, h, g, h', added)
    ensures SideOk(w, h', given)
    ensures !added ==> h'.payload == h.payload
  {
    var k: nat :| HalfOk(w, h, k) && given + h.payload == w.bytes[..k];
    var n: nat, m: nat :| Absorbed(w, h, g, h', added, n, m);
    assert k == n;
    assert given + h'.payload == (given + h.payload) + w.bytes[n..m] == w.bytes[..m];
  }

  lemma UpdateKeepsStream(t: Talk, s: Stream, p: Packet, s': Stream, changed: bool, clientGiven: seq<Byte>,
                          serverGiven: seq<Byte>)
    requires TalkFits(t) && StreamOk(t, s, clientGiven, serverGiven) && PacketOk(t, s, p)
             && Updated(t, s, p, s', changed)
    ensures StreamOk(t, s', clientGiven, serverGiven)
    ensures s'.info == s.info && s'.id == s.id && (changed ==> s'.synAckSent)
    ensures HalfOf(s', Other(SideOf(s, p))).payload == HalfOf(s, Other(SideOf(s, p))).payload
    ensures !changed ==> s'.client.payload == s.client.payload && s'.server.payload == s.server.payload
  {
    if !s.synAckSent {
      if IsSynAck(p.flags) {
        assert HalfOk(t.client, s'.client, 0) && [] + s'.client.payload == t.client.bytes[..0];
        assert HalfOk(t.server, s'.server, 0) && [] + s'.server.payload == t.server.bytes[..0];
      }
    } else if p.data.Some? {
      var d := SideOf(s, p);
      AbsorbKeepsSide(WireOf(t, d), HalfOf(s, d), Segment(p.seqno, p.data.value), HalfOf(s', d), changed,
                      if d.Client? then clientGiven else serverGiven);
    }
  }

  /** `TCPCapStream::cap`: the buffer and the waiting fragments of the packet's direction are thrown away. */
  function Cap(s: Stream, p: Packet): (r: Stream)
  {
    var d := SideOf(s, p);
    WithHalf(s, d, HalfOf(s, d).(payload := [], frags := map[]))
  }

  /** Capping after the buffers were handed out keeps what was handed out in step with the stream. */
  lemma CapKeeps(t: Talk, s: Stream, p: Packet, clientGiven: seq<Byte>, serverGiven: seq<Byte>)
    requires s.synAckSent && StreamOk(t, s, clientGiven, serverGiven)
    requires HalfOf(s, Other(SideOf(s, p))).payload == []
    ensures StreamOk(t, Cap(s, p), clientGiven + s.client.payload, serverGiven + s.server.payload)
    ensures Cap(s, p).client.payload == [] && Cap(s, p).server.payload == []
  {
    var r := Cap(s, p);
    var n: nat :| HalfOk(t.client, s.client, n) && clientGiven + s.client.payload == t.client.bytes[..n];
    var m: nat :| HalfOk(t.server, s.server, m) && serverGiven + s.server.payload == t.server.bytes[..m];
    assert HalfOk(t.client, r.client, n) && clientGiven + s.client.payload + r.client.payload == t.client.bytes[..n];
    assert HalfOk(t.server, r.server, m) && serverGiven + s.server.payload + r.server.payload == t.server.bytes[..m];
  }

  // ---------------------------------------------------------------- the session table

  type Sessions = map<Info, Stream>

  /** Between callbacks: no connection is held in both orientations, identifiers are unique and below the
      counter, and both buffers of every stream are empty. */
  ghost predicate TableOk(sessions: Sessions, lastId: nat)
  {
    && (forall k :: k in sessions && Flip(k) in sessions ==> Flip(k) == k)
    && (forall k :: k in sessions ==> sessions[k].id < lastId && sessions[k].info == Flip(k))
    && (forall k, l :: k in sessions && l in sessions && sessions[k].id == sessions[l].id ==> k == l)
    && (forall k :: k in sessions ==> sessions[k].client.payload == [] && sessions[k].server.payload == [])
  }

  ghost predicate StreamsOk(talks: seq<Talk>, sessions: Sessions, log: seq<Event>)
  {
    forall k :: k in sessions ==>
      && sessions[k].id < |talks|
      && StreamOk(talks[sessions[k].id], sessions[k], Delivered(log, sessions[k].id, Client),
                  Delivered(log, sessions[k].id, Server))
  }

  /** Whatever was handed out for a connection is a prefix of what its peers sent. */
  ghost predicate PrefixesOk(talks: seq<Talk>, lastId: nat, log: seq<Event>)
  {
    && (forall id: nat ::
          id < |talks| ==>
              Delivered(log, id, Client) <= talks[id].client.bytes
                && Delivered(log, id, Server) <= talks[id].server.bytes)
    && (forall id: nat, d: Side :: lastId <= id ==> Delivered(log, id, d) == [])
  }

  /** The callbacks `log'` adds to `log` concern connection `id` only. */
  ghost predicate OnlyAbout(log: seq<Event>, log': seq<Event>, id: nat)
  {
    forall other: nat, d: Side :: other != id ==> Delivered(log', other, d) == Delivered(log, other, d)
  }

  lemma AppendOnlyAbout(log: seq<Event>, e: Event)
    ensures OnlyAbout(log, log + [e], e.id)
  {
    forall other: nat, d: Side | other != e.id ensures Delivered(log + [e], other, d) == Delivered(log, other, d) {
      DeliveredAppend(log, e, other, d);
    }
  }

  /** The stream that takes the place of the one under `k`. */
  ghost predicate Continues(talks: seq<Talk>, sessions: Sessions, log': seq<Event>, k: Info, it: Stream)
  {
    && k in sessions && it.id == sessions[k].id < |talks| && it.info == sessions[k].info
    && it.client.payload == [] && it.server.payload == []
    && StreamOk(talks[it.id], it, Delivered(log', it.id, Client), Delivered(log', it.id, Server))
  }

  lemma ReplaceKeepsTable(talks: seq<Talk>, sessions: Sessions, lastId: nat, log': seq<Event>, k: Info, it: Stream)
    requires TableOk(sessions, lastId) && Continues(talks, sessions, log', k, it)
    ensures TableOk(sessions[k := it], lastId)
  {
    assert sessions[k := it].Keys == sessions.Keys;
  }

  lemma ReplaceKeepsStreams(talks: seq<Talk>, sessions: Sessions, lastId: nat, log: seq<Event>, log': seq<Event>,
                            k: Info, it: Stream)
    requires TableOk(sessions, lastId) && StreamsOk(talks, sessions, log)
    requires Continues(talks, sessions, log', k, it) && OnlyAbout(log, log', it.id)
    ensures StreamsOk(talks, sessions[k := it], log')
  {
    var after := sessions[k := it];
    forall l | l in after
      ensures after[l].id < |talks|
      ensures StreamOk(talks[after[l].id], after[l], Delivered(log', after[l].id, Client),
                       Delivered(log', after[l].id, Server))
    {
      if l != k {
        assert after[l] == sessions[l] && sessions[l].id != it.id;
      }
    }
  }

  lemma StreamIsPrefix(t: Talk, s: Stream, clientGiven: seq<Byte>, serverGiven: seq<Byte>)
    requires StreamOk(t, s, clientGiven, serverGiven)
    ensures clientGiven <= t.client.bytes && serverGiven <= t.server.bytes
  {
    if s.synAckSent {
      var n: nat :| HalfOk(t.client, s.client, n) && clientGiven + s.client.payload == t.client.bytes[..n];
      assert clientGiven == t.client.bytes[..n][..|clientGiven|];
      var m: nat :| HalfOk(t.server, s.server, m) && serverGiven + s.server.payload == t.server.bytes[..m];
      assert serverGiven == t.server.bytes[..m][..|serverGiven|];
    }
  }

  lemma ReplaceKeepsPrefixes(talks: seq<Talk>, sessions: Sessions, lastId: nat, log: seq<Event>, log': seq<Event>,
                             k: Info, it: Stream)
    requires TableOk(sessions, lastId) && PrefixesOk(talks, lastId, log)
    requires Continues(talks, sessions, log', k, it) && OnlyAbout(log, log', it.id)
    ensures PrefixesOk(talks, lastId, log')
  {
    StreamIsPrefix(talks[it.id], it, Delivered(log', it.id, Client), Delivered(log', it.id, Server));
  }

  lemma EndSaysNothing(log: seq<Event>, id: nat)
    ensures forall other: nat, d: Side :: Delivered(log + [End(id)], other, d) == Delivered(log, other, d)
  {
    forall other: nat, d: Side ensures Delivered(log + [End(id)], other, d) == Delivered(log, other, d) {
      DeliveredAppend(log, End(id), other, d);
    }
  }

  lemma CloseKeepsTable(sessions: Sessions, lastId: nat, k: Info)
    requires TableOk(sessions, lastId)
    ensures TableOk(sessions - {k}, lastId)
  {
  }

  lemma CloseKeepsStreams(talks: seq<Talk>, sessions: Sessions, log: seq<Event>, log': seq<Event>, k: Info)
    requires StreamsOk(talks, sessions, log)
    requires forall other: nat, d: Side :: Delivered(log', other, d) == Delivered(log, other, d)
    ensures StreamsOk(talks, sessions - {k}, log')
  {
    var after := sessions - {k};
    forall l | l in after
      ensures after[l].id < |talks|
      ensures StreamOk(talks[after[l].id], after[l], Delivered(log', after[l].id, Client),
                       Delivered(log', after[l].id, Server))
    {
      assert after[l] == sessions[l];
    }
  }

  lemma OpenKeeps(talks: seq<Talk>, sessions: Sessions, lastId: nat, log: seq<Event>, p: Packet, s: Stream)
    requires TableOk(sessions, lastId) && StreamsOk(talks, sessions, log) && PrefixesOk(talks, lastId, log)
    requires Lookup(sessions, p.info) == None && lastId < |talks|
    requires s == Stream(Half(p.seqno, [], map[]), Half(0, [], map[]), p.info, lastId, false, false)
    ensures TableOk(sessions[Flip(p.info) := s], lastId + 1)
    ensures StreamsOk(talks, sessions[Flip(p.info) := s], log) && PrefixesOk(talks, lastId + 1, log)
  {
  }

  /** Where a packet is looked up: as it is, then with the peers exchanged. */
  function Lookup(sessions: Sessions, i: Info): (r: Option<Info>)
    ensures r.Some? ==> r.value in sessions && (r.value == i || r.value == Flip(i))
    ensures r.None? ==> i !in sessions && Flip(i) !in sessions
  {
    if i in sessions then Some(i) else if Flip(i) in sessions then Some(Flip(i)) else None
  }

  // ---------------------------------------------------------------- runs

  /** The follower between two callbacks, with the callbacks made so far. */
  datatype State = State(sessions: Sessions, lastId: nat, log: seq<Event>)

  ghost predicate StateOk(talks: seq<Talk>, st: State)
  {
    && (forall id :: 0 <= id < |talks| ==> TalkFits(talks[id]))
    && TableOk(st.sessions, st.lastId) && StreamsOk(talks, st.sessions, st.log) && PrefixesOk(talks, st.lastId, st.log)
  }

  /** What the follower relies on: a packet that reaches a stream belongs to the stream's connection, and a
      packet that opens one has a connection to open. */
  ghost predicate Expected(talks: seq<Talk>, st: State, p: Packet)
  {
    match Lookup(st.sessions, p.info)
    case Some(k) => st.sessions[k].id < |talks| && PacketOk(talks[st.sessions[k].id], st.sessions[k], p)
    case None => p.flags.syn && !p.flags.ack ==> st.lastId < |talks|
  }

  function DataEvents(it: Stream, changed: bool): (es: seq<Event>)
  {
    if changed then [Data(it.id, it.client.payload, it.server.payload)] else []
  }

  function EndEvents(it: Stream): (es: seq<Event>)
  {
    if it.finSent then [End(it.id)] else []
  }

  function Capped(it: Stream, p: Packet, changed: bool): (r: Stream)
  {
    if changed then Cap(it, p) else it
  }

  /** A packet of the connection under `k`: the stream is updated to `it`; if anything was added it is handed out
      and capped; if the stream is finished it is reported and removed. */
  function Served(st: State, k: Info, p: Packet, it: Stream, changed: bool): (r: State)
  {
    State(
      if it.finSent then st.sessions - {k} else st.sessions[k := Capped(it, p, changed)],
      st.lastId,
      st.log + DataEvents(it, changed) + EndEvents(it))
  }

  function Opened(st: State, p: Packet): (r: State)
  {
    st.(sessions := st.sessions[Flip(p.info) := Stream(Half(p.seqno, [], map[]), Half(0, [], map[]), p.info, st.lastId,
                                                       false, false)],
        lastId := st.lastId + 1)
  }

  /** One callback as a relation between states. */
  ghost predicate CallbackStep(talks: seq<Talk>, st: State, p: Packet, st': State)
    requires Expected(talks, st, p)
  {
    match Lookup(st.sessions, p.info)
    case Some(k) =>
      exists it: Stream, changed: bool ::
          Updated(talks[st.sessions[k].id], st.sessions[k], p, it, changed) && st' == Served(st, k, p, it, changed)
    case None =>
      st' == if p.flags.syn && !p.flags.ack then Opened(st, p) else st
  }

  lemma ServedParts(st: State, k: Info, p: Packet, it: Stream, changed: bool)
    ensures Served(st, k, p, it, changed).log
            == (if it.finSent then st.log + DataEvents(it, changed) + [End(it.id)]
                else st.log + DataEvents(it, changed))
    ensures st.log + DataEvents(it, changed)
            == if changed then st.log + [Data(it.id, it.client.payload, it.server.payload)] else st.log
    ensures Served(st, k, p, it, changed).sessions
            == if it.finSent then st.sessions[k := Capped(it, p, changed)] - {k}
              else st.sessions[k := Capped(it, p, changed)]
  {
    assert st.sessions[k := Capped(it, p, changed)] - {k} == st.sessions - {k};
  }

  lemma HandOut(t: Talk, it: Stream, p: Packet, log: seq<Event>)
    requires it.synAckSent && StreamOk(t, it, Delivered(log, it.id, Client), Delivered(log, it.id, Server))
    requires HalfOf(it, Other(SideOf(it, p))).payload == []
    ensures var log' := log + DataEvents(it, true);
            && StreamOk(t, Cap(it, p), Delivered(log', it.id, Client), Delivered(log', it.id, Server))
            && OnlyAbout(log, log', it.id)
    ensures Cap(it, p).client.payload == [] && Cap(it, p).server.payload == []
  {
    var e := Data(it.id, it.client.payload, it.server.payload);
    CapKeeps(t, it, p, Delivered(log, it.id, Client), Delivered(log, it.id, Server));
    DeliveredAppend(log, e, it.id, Client);
    DeliveredAppend(log, e, it.id, Server);
    AppendOnlyAbout(log, e);
  }

  lemma ServedStream(talks: seq<Talk>, st: State, p: Packet, k: Info, it: Stream, changed: bool)
    requires StateOk(talks, st) && Lookup(st.sessions, p.info) == Some(k) && Expected(talks, st, p)
    requires Updated(talks[st.sessions[k].id], st.sessions[k], p, it, changed)
    ensures Continues(talks, st.sessions, st.log + DataEvents(it, changed), k, Capped(it, p, changed))
    ensures OnlyAbout(st.log, st.log + DataEvents(it, changed), it.id)
  {
    var id := st.sessions[k].id;
    var c, s := Delivered(st.log, id, Client), Delivered(st.log, id, Server);
    UpdateKeepsStream(talks[id], st.sessions[k], p, it, changed, c, s);
    if changed {
      HandOut(talks[id], it, p, st.log);
    } else {
      assert st.log + DataEvents(it, changed) == st.log;
    }
  }

  lemma ReplacedOk(talks: seq<Talk>, st: State, log': seq<Event>, k: Info, it: Stream)
    requires StateOk(talks, st) && Continues(talks, st.sessions, log', k, it) && OnlyAbout(st.log, log', it.id)
    ensures StateOk(talks, State(st.sessions[k := it], st.lastId, log'))
  {
    ReplaceKeepsTable(talks, st.sessions, st.lastId, log', k, it);
    ReplaceKeepsStreams(talks, st.sessions, st.lastId, st.log, log', k, it);
    ReplaceKeepsPrefixes(talks, st.sessions, st.lastId, st.log, log', k, it);
  }

  lemma ClosedOk(talks: seq<Talk>, st: State, k: Info, id: nat)
    requires StateOk(talks, st)
    ensures StateOk(talks, State(st.sessions - {k}, st.lastId, st.log + [End(id)]))
  {
    EndSaysNothing(st.log, id);
    CloseKeepsTable(st.sessions, st.lastId, k);
    CloseKeepsStreams(talks, st.sessions, st.log, st.log + [End(id)], k);
  }

  lemma ServedOk(talks: seq<Talk>, st: State, p: Packet, k: Info, it: Stream, changed: bool)
    requires StateOk(talks, st) && Lookup(st.sessions, p.info) == Some(k) && Expected(talks, st, p)
    requires Updated(talks[st.sessions[k].id], st.sessions[k], p, it, changed)
    ensures StateOk(talks, Served(st, k, p, it, changed))
  {
    hide StreamsOk, PrefixesOk, TableOk, Updated;
    var log', r := st.log + DataEvents(it, changed), Capped(it, p, changed);
    ServedStream(talks, st, p, k, it, changed);
    ReplacedOk(talks, st, log', k, r);
    if it.finSent {
      ClosedOk(talks, State(st.sessions[k := r], st.lastId, log'), k, it.id);
      assert st.sessions[k := r] - {k} == st.sessions - {k};
    } else {
      assert log' + EndEvents(it) == log';
    }
  }

  /** Every callback keeps the invariant, and the record of callbacks only grows. */
  lemma CallbackKeepsState(talks: seq<Talk>, st: State, p: Packet, st': State)
    requires StateOk(talks, st) && Expected(talks, st, p) && CallbackStep(talks, st, p, st')
    ensures StateOk(talks, st') && st.log <= st'.log
  {
    hide TableOk, StreamsOk, PrefixesOk, Updated, Lookup;
    match Lookup(st.sessions, p.info)
    case Some(k) =>
      var it: Stream, changed: bool
        :| Updated(talks[st.sessions[k].id], st.sessions[k], p, it, changed) && st' == Served(st, k, p, it, changed);
      ServedOk(talks, st, p, k, it, changed);
    case None =>
      if p.flags.syn && !p.flags.ack {
        OpenKeeps(talks, st.sessions, st.lastId, st.log, p, st'.sessions[Flip(p.info)]);
      }
  }

  ghost predicate IsRun(talks: seq<Talk>, states: seq<State>, packets: seq<Packet>)
  {
    && |states| == |packets| + 1
    && states[0] == State(map[], 0, [])
    && forall i ::
        0 <= i < |packets| ==>
            Expected(talks, states[i], packets[i]) && CallbackStep(talks, states[i], packets[i], states[i + 1])
  }

  /** Over every run: at every moment, what was handed out for each direction of each connection is a prefix of
      what the peer sent, buffers are empty, orientations do not clash and identifiers are unique. */
  lemma {:induction false} RunIsSafe(talks: seq<Talk>, states: seq<State>, packets: seq<Packet>, i: nat)
    requires (forall id :: 0 <= id < |talks| ==> TalkFits(talks[id])) && IsRun(talks, states, packets) && i < |states|
    ensures StateOk(talks, states[i])
  {
    if i > 0 {
      RunIsSafe(talks, states, packets, i - 1);
      CallbackKeepsState(talks, states[i - 1], packets[i - 1], states[i]);
    }
  }

  class TCPStreamFollower {
    var sessions: Sessions
    var lastIdentifier: nat
    ghost var log: seq<Event>
    /** The byte streams of the connections, in the order in which they are opened. */
    ghost const talks: seq<Talk>

    ghost function Now(): (st: State)
      reads this
    {
      State(sessions, lastIdentifier, log)
    }

    constructor (ghost ts: seq<Talk>)
      requires forall id :: 0 <= id < |ts| ==> TalkFits(ts[id])
      ensures StateOk(talks, Now()) && Now() == State(map[], 0, []) && talks == ts
    {
      sessions, lastIdentifier, log, talks := map[], 0, [], ts;
    }

    /** A packet of the connection under `k`. */
    method Serve(k: Info, p: Packet)
      requires StateOk(talks, Now()) && Lookup(sessions, p.info) == Some(k) && Expected(talks, Now(), p)
      modifies this`sessions, this`log
      ensures CallbackStep(talks, old(Now()), p, Now())
    {
      ghost var st, id := Now(), sessions[k].id;
      var it, changed := Update(talks[id], Delivered(log, id, Client), Delivered(log, id, Server), sessions[k], p);
      if changed {
        log := log + [Data(it.id, it.client.payload, it.server.payload)];
      }
      sessions := sessions[k := if changed then Cap(it, p) else it];
      if it.finSent {
        log := log + [End(it.id)];
        sessions := sessions - {k};
      }
      ServedParts(st, k, p, it, changed);
      assert Now() == Served(st, k, p, it, changed);
    }

    /** `TCPCapStreamFollower::callback`; a packet without an IP or TCP layer is passed as None. */
    method Callback(pdu: Option<Packet>) returns (more: bool)
      requires StateOk(talks, Now()) && (pdu.Some? ==> Expected(talks, Now(), pdu.value))
      modifies this
      ensures more && StateOk(talks, Now())
      ensures if pdu.None? then Now() == old(Now()) else CallbackStep(talks, old(Now()), pdu.value, Now())
    {
      more := true;
      if pdu.None? {
        return;
      }
      var p := pdu.value;
      ghost var st := Now();
      match Lookup(sessions, p.info) {
        case Some(k) =>
          Serve(k, p);
        case None =>
          if p.flags.syn && !p.flags.ack {
            sessions := sessions[Flip(p.info) := Stream(Half(p.seqno, [], map[]), Half(0, [], map[]), p.info,
                                                        lastIdentifier, false, false)];
            lastIdentifier := lastIdentifier + 1;
          }
      }
      CallbackKeepsState(talks, st, p, Now());
    }
  }
}
