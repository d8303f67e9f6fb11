/**
 * Properties of the connection's operations: which exceptions they can raise,
 * that a disconnect always closes the connection, how the outbound buffer is
 * filled and flushed, the identification and CPE handshake, and the receive
 * loop.
 */
module ConnectionProperties {
  import opened Common
  import opened Protocol
  import opened Network

  lemma AppendAssoc<T>(a: seq<T>, b: seq<T>, c: seq<T>)
    ensures a + b + c == a + (b + c)
  {
  }

  // ---------------------------------------------------------------------------
  // Exceptions and closing

  /** A packet the server builds itself can only fail to be sent because the
      connection was torn down while flushing to make room; the server is told
      the connection is gone by then. */
  lemma {:induction false} SendRaisesOnlyDisposal(c: Conn, m: Message)
    requires WellFormed(c.codec) && c.Lifecycle()
    ensures var r := SendF(c, Build(c.codec, m), true);
            r.error.Some? ==> r.error == Some(ObjectDisposed) && ConnectionRemoved in r.conn.events
    decreases |c.sendResults|, 2
  {
    var p := Build(c.codec, m);
    if c.connected && Overflows(c.outBuffer, p) {
      FlushRaisesOnlyDisposal(c);
    }
  }

  /** A flush can only fail because the connection was torn down; if it tore
      the connection down, the server was told. */
  lemma {:induction false} FlushRaisesOnlyDisposal(c: Conn)
    requires WellFormed(c.codec) && c.Lifecycle()
    ensures var r := FlushF(c);
            (r.error.Some? ==> r.error == Some(ObjectDisposed))
            && (c.connected && r.conn.disposed ==> ConnectionRemoved in r.conn.events)
    decreases |c.sendResults|, 1
  {
    if c.connected && |c.outBuffer| >= 1 {
      var outcome := NextResult(c);
      var rest := TakeResult(c);
      if outcome != Ok && outcome != WouldBlock {
        if ClientGone(outcome) {
          DisconnectCloses(rest.(connected := false), CLIENT_DISCONNECTED);
        } else {
          DisconnectCloses(rest, SocketErrorReason(outcome));
        }
      }
    }
  }

  /** Whatever happens on the way, a disconnect leaves the connection closed
      and disposed of and removed from the server; the only exception it can
      raise is the one from writing to a buffer already disposed of. */
  lemma {:induction false} DisconnectCloses(c: Conn, reason: string)
    requires WellFormed(c.codec) && c.Lifecycle()
    ensures var r := DisconnectF(c, reason);
            !r.conn.connected && r.conn.disposed && ConnectionRemoved in r.conn.events
            && (r.error.Some? ==> r.error == Some(ObjectDisposed))
    decreases |c.sendResults|, 3
  {
    var r := DisconnectF(c, reason);
    if c.connected {
      var dc := Build(c.codec, DisconnectPlayer(reason));
      SendRaisesOnlyDisposal(c, DisconnectPlayer(reason));
      var s := SendF(c, dc, true);
      if s.error.None? {
        FlushRaisesOnlyDisposal(s.conn);
        var f := FlushF(s.conn);
        if f.error.Some? {
          assert r == f;
        }
      }
    }
    if r.error.None? {
      assert r.conn.events[|r.conn.events| - 2] == ConnectionRemoved;
    }
  }

  // ---------------------------------------------------------------------------
  // The outbound buffer

  /** With room in the buffer, a packet the server builds is appended at its end. */
  lemma SendAppends(c: Conn, m: Message)
    requires c.connected && c.Lifecycle() && WellFormed(c.codec)
    requires !Overflows(c.outBuffer, Build(c.codec, m))
    ensures var p := Build(c.codec, m);
            SendF(c, p, true) == Outcome(c.(outBuffer := c.outBuffer + p.Bytes(), sent := c.sent + [p]), None)
  {
  }

  /** A packet that would take the buffer past 1 MiB is held back until the
      buffer has been handed to the socket; on success the buffer then holds
      just that packet. */
  lemma SendFlushesBeforeOverflow(c: Conn, m: Message)
    requires c.connected && c.Lifecycle() && WellFormed(c.codec) && c.outBuffer != []
    requires Overflows(c.outBuffer, Build(c.codec, m)) && NextResult(c) == Ok
    ensures var p := Build(c.codec, m);
            var r := SendF(c, p, true);
            r.error.None? && r.conn.written == c.written + [c.outBuffer]
            && r.conn.outBuffer == p.Bytes() && r.conn.sent == c.sent + [p]
  {
    var f := FlushF(c);
    assert f == Outcome(TakeResult(c).(written := c.written + [c.outBuffer], outBuffer := []), None);
  }

  /** A send that succeeds keeps the buffer within 1 MiB, for packets within it. */
  lemma SendKeepsBufferBound(c: Conn, p: Packet)
    requires c.connected && |c.outBuffer| <= MAX_OUT_BUF_SIZE && |p.Bytes()| <= MAX_OUT_BUF_SIZE
    ensures var r := SendF(c, p, true);
            r.error.None? ==> |r.conn.outBuffer| <= MAX_OUT_BUF_SIZE
  {
  }

  /** Without the size check, a packet whose header the table knows is appended
      whatever its length. */
  lemma UncheckedSendSkipsSizeCheck(c: Conn, p: Packet)
    requires c.connected && c.Lifecycle() && c.codec.packetSize(p.tag).Some? && !Overflows(c.outBuffer, p)
    ensures SendF(c, p, false) == Outcome(c.(outBuffer := c.outBuffer + p.Bytes(), sent := c.sent + [p]), None)
  {
  }

  /** When the client has gone, the flush closes the connection without
      sending it the reason: no packet is added and nothing more is written. */
  lemma FlushToGoneClientCloses(c: Conn)
    requires c.connected && c.outBuffer != [] && ClientGone(NextResult(c))
    ensures var r := FlushF(c);
            r.error.None? && !r.conn.connected && r.conn.disposed
            && r.conn.sent == c.sent && r.conn.written == c.written && r.conn.events != []
            && r.conn.events[|r.conn.events| - 1] == Broadcast(DepartureNotice(c.clientName, CLIENT_DISCONNECTED))
  {
    var rest := TakeResult(c);
    assert FlushF(c) == SendFailedF(rest, NextResult(c));
    assert SendFailedF(rest, NextResult(c)) == DisconnectF(rest.(connected := false), CLIENT_DISCONNECTED);
  }

  /** A send that goes through hands the whole buffer to the socket and empties it. */
  lemma FlushSucceeds(c: Conn)
    requires c.connected && c.outBuffer != [] && NextResult(c) == Ok
    ensures var r := FlushF(c);
            r.error.None? && r.conn.connected && r.conn.outBuffer == [] && r.conn.sent == c.sent
            && r.conn.written == c.written + [c.outBuffer]
  {
  }

  /** A send that would block empties the buffer without writing it. */
  lemma FlushWouldBlockDiscards(c: Conn)
    requires c.connected && c.outBuffer != [] && NextResult(c) == WouldBlock
    ensures var r := FlushF(c);
            r.error.None? && r.conn.connected && r.conn.outBuffer == [] && r.conn.written == c.written
  {
  }

  /** Any other socket error closes the connection with a reason that names it,
      and the client is sent that reason first. */
  lemma FlushOtherErrorNamesIt(c: Conn, code: string)
    requires c.connected && c.outBuffer != [] && NextResult(c) == OtherError(code)
    ensures FlushF(c) == DisconnectF(TakeResult(c), "An unexpected socket error occured (" + code + ")")
  {
  }

  function Repeat<T>(x: T, n: nat): (r: seq<T>)
    ensures |r| == n && forall i :: 0 <= i < n ==> r[i] == x
  {
    if n == 0 then [] else [x] + Repeat(x, n - 1)
  }

  /** A socket whose sends fail n times in a row with an error other than a
      reset, an abort or a shutdown: the failed flush disconnects while the
      connection is still marked connected, so the disconnect sends its frame
      and flushes again, which fails again and disconnects again. The client
      is sent the reason n times before a send goes through; a socket that
      keeps failing makes this recursion unbounded. */
  lemma {:induction false} FailingSocketNestsDisconnects(c: Conn, code: string, n: nat)
    requires c.connected && c.Lifecycle() && WellFormed(c.codec) && c.outBuffer != []
    requires c.sendResults == Repeat(OtherError(code), n)
    requires RoomFor(|c.outBuffer|, |Build(c.codec, DisconnectPlayer(SocketErrorReason(OtherError(code)))).Bytes()|, n)
    ensures var r := FlushF(c);
            r.error.None? && (r.conn.connected <==> n == 0)
            && r.conn.sent == c.sent + Repeat(Build(c.codec, DisconnectPlayer(SocketErrorReason(OtherError(code)))), n)
    decreases n
  {
    var reason := SocketErrorReason(OtherError(code));
    var dc := Build(c.codec, DisconnectPlayer(reason));
    if n == 0 {
      FlushSucceeds(c);
    } else {
      var rest := TakeResult(c);
      assert rest.sendResults == Repeat(OtherError(code), n - 1);
      FlushOtherErrorNamesIt(c, code);
      var s := rest.(outBuffer := rest.outBuffer + dc.Bytes(), sent := rest.sent + [dc]);
      RoomForOneMore(|c.outBuffer|, |dc.Bytes()|, n);
      FailingSocketNestsDisconnects(s, code, n - 1);
      DisconnectAfterFlush(rest, reason, s);
      RepeatCons(c.sent, dc, n);
      var r := FlushF(c);
      assert r == DisconnectF(rest, reason);
      assert r.conn.sent == FlushF(s).conn.sent == s.sent + Repeat(dc, n - 1);
      assert s.sent == c.sent + [dc];
    }
  }

  /** Room in a buffer holding `used` bytes for n more frames of `size` bytes. */
  ghost predicate RoomFor(used: nat, size: nat, n: nat)
  {
    used + n * size <= MAX_OUT_BUF_SIZE
  }

  lemma RoomForOneMore(used: nat, size: nat, n: nat)
    requires n > 0 && RoomFor(used, size, n)
    ensures used + size <= MAX_OUT_BUF_SIZE && RoomFor(used + size, size, n - 1)
  {
    assert n * size == (n - 1) * size + size;
  }

  lemma RepeatCons<T>(before: seq<T>, x: T, n: nat)
    requires n > 0
    ensures before + [x] + Repeat(x, n - 1) == before + Repeat(x, n)
  {
  }

  /** A disconnect with room for its frame appends it and then flushes; if the
      flush raises nothing, the disconnect ends closed with what the flush sent. */
  lemma DisconnectAfterFlush(c: Conn, reason: string, s: Conn)
    requires c.connected && c.Lifecycle() && WellFormed(c.codec)
    requires !Overflows(c.outBuffer, Build(c.codec, DisconnectPlayer(reason)))
    requires s == c.(outBuffer := c.outBuffer + Build(c.codec, DisconnectPlayer(reason)).Bytes(),
                     sent := c.sent + [Build(c.codec, DisconnectPlayer(reason))])
    requires FlushF(s).error.None?
    ensures var r := DisconnectF(c, reason);
            r.error.None? && !r.conn.connected && r.conn.sent == FlushF(s).conn.sent
  {
    SendFits(c, Build(c.codec, DisconnectPlayer(reason)));
  }

  // ---------------------------------------------------------------------------
  // Sending several packets

  /** The bytes of packets laid end to end. */
  function Concat(packets: seq<Packet>): (r: seq<byte>)
    ensures packets != [] ==> r == packets[0].Bytes() + Concat(packets[1..])
  {
    if packets == [] then [] else packets[0].Bytes() + Concat(packets[1..])
  }

  /** A packet that matches the size table and fits is appended. */
  lemma SendFits(c: Conn, p: Packet)
    requires c.connected && c.Lifecycle()
    requires c.codec.packetSize(p.tag) == Some(|p.payload|) && !Overflows(c.outBuffer, p)
    ensures SendF(c, p, true) == Outcome(c.(outBuffer := c.outBuffer + p.Bytes(), sent := c.sent + [p]), None)
  {
  }

  lemma ConcatCons(buffer: seq<byte>, sent: seq<Packet>, packets: seq<Packet>)
    requires packets != []
    ensures buffer + packets[0].Bytes() + Concat(packets[1..]) == buffer + Concat(packets)
    ensures sent + [packets[0]] + packets[1..] == sent + packets
  {
    var head, tail := packets[0].Bytes(), Concat(packets[1..]);
    assert Concat(packets) == head + tail;
    assert buffer + head + tail == buffer + (head + tail);
    assert [packets[0]] + packets[1..] == packets;
  }

  /** Packets that match the size table and fit in the buffer are appended in
      order, with nothing handed to the socket. */
  lemma {:induction false} SendAllAppends(c: Conn, packets: seq<Packet>)
    requires c.connected && c.Lifecycle()
    requires forall i :: 0 <= i < |packets| ==> c.codec.packetSize(packets[i].tag) == Some(|packets[i].payload|)
    requires |c.outBuffer| + |Concat(packets)| <= MAX_OUT_BUF_SIZE
    ensures SendAll(c, packets)
            == Outcome(c.(outBuffer := c.outBuffer + Concat(packets), sent := c.sent + packets), None)
    decreases |packets|
  {
    if packets != [] {
      var p := packets[0];
      SendFits(c, p);
      var next := c.(outBuffer := c.outBuffer + p.Bytes(), sent := c.sent + [p]);
      assert SendAll(c, packets) == SendAll(next, packets[1..]);
      SendAllAppends(next, packets[1..]);
      ConcatCons(c.outBuffer, c.sent, packets);
    }
  }

  // ---------------------------------------------------------------------------
  // The handshake

  /** An identification packet of the given fields. */
  ghost predicate IsIdent(c: Conn, p: Packet, id: Ident)
  {
    p.tag == PLAYER_IDENT && c.codec.readIdent(p.payload) == id
  }

  /** An identification that fails a check closes the connection with that
      check's reason; the client is sent the reason if it is still connected. */
  lemma IdentRejected(c: Conn, p: Packet, id: Ident, reason: string)
    requires WellFormed(c.codec) && c.Lifecycle() && IsIdent(c, p, id)
    requires IdentRejection(c.server, id) == Some(reason)
    ensures var r := HandleF(c, p);
            r == DisconnectF(c.(clientName := id.name), reason)
            && !r.conn.connected && ConnectionRemoved in r.conn.events
            && (c.connected && r.error.None? ==>
                  r.conn.sent[|c.sent|] == Build(c.codec, DisconnectPlayer(reason)))
  {
    DisconnectCloses(c.(clientName := id.name), reason);
  }

  /** Every packet of the CPE announcement matches the size table. */
  lemma AnnouncementMatchesTable(codec: Codec, software: string, extensions: seq<Extension>)
    requires WellFormed(codec)
    ensures var ann := CpeAnnouncement(codec, software, extensions);
            forall i :: 0 <= i < |ann| ==> codec.packetSize(ann[i].tag) == Some(|ann[i].payload|)
  {
    var ann := CpeAnnouncement(codec, software, extensions);
    forall i | 0 <= i < |ann|
      ensures codec.packetSize(ann[i].tag) == Some(|ann[i].payload|)
    {
      if i > 0 {
        assert ann[i] == EntryFrames(codec, extensions)[i - 1];
      }
    }
  }

  /** An accepted CPE client is sent the server's ExtInfo and then one ExtEntry
      per extension, in order, and has no player yet. */
  lemma CpeClientGetsAnnouncement(c: Conn, p: Packet, id: Ident)
    requires c.connected && c.Lifecycle() && WellFormed(c.codec) && IsIdent(c, p, id)
    requires IdentRejection(c.server, id).None? && id.unused == CPE_MAGIC
    requires var ann := CpeAnnouncement(c.codec, c.server.software, c.server.extensions);
             |c.outBuffer| + |Concat(ann)| <= MAX_OUT_BUF_SIZE
    ensures var ann := CpeAnnouncement(c.codec, c.server.software, c.server.extensions);
            var r := HandleF(c, p);
            r.error.None? && r.conn.sent == c.sent + ann
            && r.conn.hasPlayer == c.hasPlayer && r.conn.events == c.events
            && ann[0] == Build(c.codec, ExtInfo(c.server.software, ToInt16(|c.server.extensions|)))
  {
    var named := c.(clientName := id.name);
    var ann := CpeAnnouncement(c.codec, c.server.software, c.server.extensions);
    AnnouncementMatchesTable(c.codec, c.server.software, c.server.extensions);
    SendAllAppends(named, ann);
    assert IdentF(c, id) == SendAll(named, ann);
    assert HandleF(c, p) == IdentF(c, id);
  }

  /** An accepted client that does not ask for CPE goes straight to the server
      identification. */
  lemma ClassicClientBeginsIdent(c: Conn, p: Packet, id: Ident)
    requires IsIdent(c, p, id) && IdentRejection(c.server, id).None? && id.unused != CPE_MAGIC
    ensures HandleF(c, p) == BeginIdentF(c.(clientName := id.name))
  {
  }

  /** The server identification carries the protocol version, the server's name
      and message of the day, and the operator user type exactly for operators;
      the player is then created. */
  lemma BeginIdentSendsServerIdent(c: Conn)
    requires c.connected && c.Lifecycle() && WellFormed(c.codec)
    requires var op := c.server.isOp(c.clientName);
             !Overflows(c.outBuffer, Build(c.codec, ServerIdent(PROTOCOL_VERSION, c.server.serverName, c.server.motd,
                                                                if op then USER_TYPE_OP else USER_TYPE_NORMAL)))
    ensures var op := c.server.isOp(c.clientName);
            var r := BeginIdentF(c);
            r.error.None? && r.conn.hasPlayer
            && r.conn.sent == c.sent + [Build(c.codec, ServerIdent(PROTOCOL_VERSION, c.server.serverName, c.server.motd,
                                                                    if op then USER_TYPE_OP else USER_TYPE_NORMAL))]
            && r.conn.events == c.events + [PlayerCreated(c.clientName, op)]
  {
  }

  /** An ExtInfo frame sets the capacity of the client's extension list to the
      declared count, or raises when that is below the count already held. */
  lemma ExtInfoDeclares(c: Conn, p: Packet)
    requires p.tag == CPE_EXT_INFO
    ensures var (software, declared) := c.codec.readExtInfo(p.payload);
            var r := HandleF(c, p);
            r.conn.clientSoftware == software
            && (declared < |c.extensions| ==> r.error == Some(CapacityOutOfRange) && r.conn.extCapacity == c.extCapacity)
            && (declared >= |c.extensions| ==> r.error.None? && r.conn.extCapacity == declared)
            && r.conn.sent == c.sent && r.conn.events == c.events
  {
  }

  /** An ExtEntry frame is recorded after the earlier ones; until the count
      meets the capacity, nothing is sent. */
  lemma ExtEntryRecorded(c: Conn, p: Packet)
    requires p.tag == CPE_EXT_ENTRY && c.Inv()
    ensures var entry := c.codec.readExtEntry(p.payload);
            var r := HandleF(c, p);
            r.conn.extensions == c.extensions + [entry]
            && (r.conn.supportCustomBlocks <==> HasCustomBlocks(c.extensions + [entry]))
            && (|c.extensions| + 1 != CapacityAfterAdd(|c.extensions|, c.extCapacity) ==>
                  r.error.None? && r.conn.sent == c.sent && r.conn.events == c.events)
  {
    HasCustomBlocksAppend(c.extensions, c.codec.readExtEntry(p.payload));
  }

  /** When the entries meet the declared count, the CustomBlocks support level
      is sent exactly when the client has that extension, then the server
      identification, and the player is created. */
  lemma NegotiationCompletes(c: Conn, p: Packet)
    requires p.tag == CPE_EXT_ENTRY && c.Inv() && c.connected && WellFormed(c.codec)
    requires |c.extensions| + 1 == CapacityAfterAdd(|c.extensions|, c.extCapacity)
    requires RoomToComplete(c)
    ensures var entry := c.codec.readExtEntry(p.payload);
            var cb := HasCustomBlocks(c.extensions + [entry]);
            var op := c.server.isOp(c.clientName);
            var r := HandleF(c, p);
            r.error.None? && r.conn.connected && r.conn.hasPlayer && r.conn.extensions == c.extensions + [entry]
            && r.conn.sent == c.sent + (if cb then [Build(c.codec, CustomBlockSupportLevel(1))] else [])
                              + [Build(c.codec, ServerIdent(PROTOCOL_VERSION, c.server.serverName, c.server.motd,
                                                            if op then USER_TYPE_OP else USER_TYPE_NORMAL))]
  {
    var entry := c.codec.readExtEntry(p.payload);
    HasCustomBlocksAppend(c.extensions, entry);
  }

  /** Whether every frame is an ExtEntry frame. */
  predicate AllEntries(frames: seq<seq<byte>>)
  {
    forall f :: f in frames ==> |f| >= 1 && f[0] == CPE_EXT_ENTRY
  }

  /** The extensions a run of ExtEntry frames carries, in order. */
  function EntriesOf(codec: Codec, frames: seq<seq<byte>>): (r: seq<Extension>)
    requires AllEntries(frames)
    ensures |r| == |frames|
  {
    if frames == [] then [] else [codec.readExtEntry(ToPacket(frames[0]).payload)] + EntriesOf(codec, frames[1..])
  }

  /** The connection after an entry has been recorded. */
  ghost function Recorded(c: Conn, entry: Extension): Conn
  {
    c.(extensions := c.extensions + [entry], supportCustomBlocks := HasCustomBlocks(c.extensions + [entry]))
  }

  /** An ExtEntry packet that leaves the count below the capacity is only recorded. */
  lemma EntryRecordedOnly(c: Conn, p: Packet)
    requires c.Inv() && p.tag == CPE_EXT_ENTRY && |c.extensions| + 1 < c.extCapacity
    ensures var r := HandleF(c, p);
            r == Outcome(Recorded(c, c.codec.readExtEntry(p.payload)), None) && r.conn.Inv()
  {
    HasCustomBlocksAppend(c.extensions, c.codec.readExtEntry(p.payload));
  }

  /** An ExtEntry frame that leaves the count below the capacity is recorded
      and the remaining frames follow. */
  lemma EntryStep(c: Conn, frames: seq<seq<byte>>)
    requires c.Inv() && c.connected && AllEntries(frames) && frames != []
    requires |c.extensions| + 1 < c.extCapacity
    ensures var next := Recorded(c, c.codec.readExtEntry(ToPacket(frames[0]).payload));
            && next.Inv() && AllEntries(frames[1..])
            && ProcessFrames(HandleF, c, frames, false) == ProcessFrames(HandleF, next, frames[1..], false)
            && c.extensions + EntriesOf(c.codec, frames) == next.extensions + EntriesOf(c.codec, frames[1..])
  {
    assert frames[0] in frames;
    var p := ToPacket(frames[0]);
    var next := Recorded(c, c.codec.readExtEntry(p.payload));
    EntryRecordedOnly(c, p);
    assert forall f :: f in frames[1..] ==> f in frames;
    ContinueAfter(HandleF, c, frames, next);
    EntriesOfCons(c.codec, c.extensions, frames);
  }

  lemma EntriesOfCons(codec: Codec, before: seq<Extension>, frames: seq<seq<byte>>)
    requires AllEntries(frames) && frames != []
    ensures AllEntries(frames[1..])
    ensures before + EntriesOf(codec, frames)
            == (before + [codec.readExtEntry(ToPacket(frames[0]).payload)]) + EntriesOf(codec, frames[1..])
  {
    assert forall f :: f in frames[1..] ==> f in frames;
    var first := codec.readExtEntry(ToPacket(frames[0]).payload);
    var rest := EntriesOf(codec, frames[1..]);
    assert EntriesOf(codec, frames) == [first] + rest;
    assert before + ([first] + rest) == (before + [first]) + rest;
  }

  /** While fewer entries than declared have arrived, each ExtEntry frame is
      only recorded: nothing is sent, no player is created and the declared
      count stays the capacity. */
  lemma {:induction false} NegotiationWaits(c: Conn, frames: seq<seq<byte>>)
    requires c.Inv() && c.connected && AllEntries(frames)
    requires |c.extensions| + |frames| < c.extCapacity
    ensures var all := c.extensions + EntriesOf(c.codec, frames);
            ProcessFrames(HandleF, c, frames, false)
            == Outcome(c.(inBuffer := [], extensions := all, supportCustomBlocks := HasCustomBlocks(all)), None)
    decreases |frames|
  {
    if frames != [] {
      EntryStep(c, frames);
      NegotiationWaits(Recorded(c, c.codec.readExtEntry(ToPacket(frames[0]).payload)), frames[1..]);
    }
  }

  /** Room in the outbound buffer for the frames that end the negotiation. */
  ghost predicate RoomToComplete(c: Conn)
  {
    |c.outBuffer| + 2 * 1 + |c.codec.encode(CustomBlockSupportLevel(1))|
    + |c.codec.encode(ServerIdent(PROTOCOL_VERSION, c.server.serverName, c.server.motd, USER_TYPE_OP))|
    + |c.codec.encode(ServerIdent(PROTOCOL_VERSION, c.server.serverName, c.server.motd, USER_TYPE_NORMAL))|
    <= MAX_OUT_BUF_SIZE
  }

  /** How a negotiation that recorded `all` ends, seen from the connection `c`
      it started in: still open, with a player, and sent the CustomBlocks
      support level if `all` has CustomBlocks, then the server identification. */
  ghost predicate CompletedFrom(c: Conn, all: seq<Extension>, r: Outcome)
  {
    var op := c.server.isOp(c.clientName);
    r.error.None? && r.conn.connected && r.conn.hasPlayer && r.conn.extensions == all
    && r.conn.sent == c.sent + (if HasCustomBlocks(all) then [Build(c.codec, CustomBlockSupportLevel(1))] else [])
                      + [Build(c.codec, ServerIdent(PROTOCOL_VERSION, c.server.serverName, c.server.motd,
                                                    if op then USER_TYPE_OP else USER_TYPE_NORMAL))]
  }

  /** The frame that meets the declared count, processed on its own: the
      negotiation completes as NegotiationCompletes says and the input is
      consumed. */
  lemma LastEntryCompletes(c: Conn, frame: seq<byte>)
    requires |frame| >= 1 && frame[0] == CPE_EXT_ENTRY && c.Inv() && c.connected && WellFormed(c.codec)
    requires |c.extensions| + 1 == c.extCapacity && RoomToComplete(c)
    ensures CompletedFrom(c, c.extensions + [c.codec.readExtEntry(ToPacket(frame).payload)],
                          ProcessFrames(HandleF, c, [frame], false))
  {
    var p := ToPacket(frame);
    NegotiationCompletes(c, p);
    var h := HandleF(c, p);
    ProcessStep(HandleF, c, frame, [], false);
    assert [frame] + [] == [frame];
    assert AfterFrame(HandleF, h, [], false) == Outcome(h.conn.(inBuffer := []), None);
  }

  /** A client that declared n extensions and has sent none yet gets its player
      exactly with the n-th ExtEntry frame: the CustomBlocks support level if
      one of the n entries is CustomBlocks, then the server identification. */
  lemma {:induction false} NegotiationCompletesAfterDeclared(c: Conn, frames: seq<seq<byte>>)
    requires c.Inv() && c.connected && WellFormed(c.codec) && AllEntries(frames)
    requires frames != [] && |c.extensions| + |frames| == c.extCapacity && RoomToComplete(c)
    ensures CompletedFrom(c, c.extensions + EntriesOf(c.codec, frames), ProcessFrames(HandleF, c, frames, false))
    decreases |frames|
  {
    assert frames[0] in frames;
    if |frames| == 1 {
      assert frames == [frames[0]];
      assert EntriesOf(c.codec, frames) == [c.codec.readExtEntry(ToPacket(frames[0]).payload)];
      LastEntryCompletes(c, frames[0]);
    } else {
      EntryStep(c, frames);
      var next := Recorded(c, c.codec.readExtEntry(ToPacket(frames[0]).payload));
      assert next.connected && next.codec == c.codec && next.server == c.server && next.clientName == c.clientName;
      assert next.sent == c.sent && next.outBuffer == c.outBuffer;
      NegotiationCompletesAfterDeclared(next, frames[1..]);
    }
  }

  // ---------------------------------------------------------------------------
  // Receiving

  /** A disconnected connection receives nothing. */
  lemma ReceiveWhenClosed(c: Conn, chunks: seq<ReadResult>)
    requires !c.connected
    ensures ReceiveF(c, chunks) == Outcome(c, None)
  {
  }

  /** Whether a frame goes to the player rather than to the handshake. */
  predicate ForPlayer(frame: seq<byte>)
  {
    |frame| >= 1 && frame[0] != PLAYER_IDENT && frame[0] != CPE_EXT_INFO && frame[0] != CPE_EXT_ENTRY
  }

  function ForwardAll(frames: seq<seq<byte>>): (r: seq<ServerEvent>)
    requires forall f :: f in frames ==> |f| >= 1
    ensures |r| == |frames|
    ensures forall i :: 0 <= i < |frames| ==> r[i] == Forwarded(ToPacket(frames[i]))
  {
    if frames == [] then [] else [Forwarded(ToPacket(frames[0]))] + ForwardAll(frames[1..])
  }

  /** Once there is a player, a packet that is not part of the handshake goes to it. */
  lemma HandleForwards(c: Conn, p: Packet)
    requires c.hasPlayer && p.tag != PLAYER_IDENT && p.tag != CPE_EXT_INFO && p.tag != CPE_EXT_ENTRY
    ensures HandleF(c, p) == Outcome(c.(events := c.events + [Forwarded(p)]), None)
  {
  }

  /** A first frame the handler takes without exception, leaving the
      connection open, is followed by the remaining frames. */
  lemma ContinueAfter(handle: Handler, c: Conn, frames: seq<seq<byte>>, next: Conn)
    requires frames != [] && forall f :: f in frames ==> |f| >= 1
    requires handle(c, ToPacket(frames[0])) == Outcome(next, None) && next.connected
    ensures forall f :: f in frames[1..] ==> |f| >= 1
    ensures ProcessFrames(handle, c, frames, false) == ProcessFrames(handle, next, frames[1..], false)
  {
    assert forall f :: f in frames[1..] ==> f in frames;
  }

  lemma ForwardStep(c: Conn, frames: seq<seq<byte>>)
    requires c.connected && c.hasPlayer && frames != [] && ForPlayer(frames[0])
    requires forall f :: f in frames ==> |f| >= 1
    ensures forall f :: f in frames[1..] ==> |f| >= 1
    ensures ProcessFrames(HandleF, c, frames, false)
            == ProcessFrames(HandleF, c.(events := c.events + [Forwarded(ToPacket(frames[0]))]), frames[1..], false)
  {
    var p := ToPacket(frames[0]);
    HandleForwards(c, p);
    ContinueAfter(HandleF, c, frames, c.(events := c.events + [Forwarded(p)]));
  }

  /** Once there is a player, the frames that are not part of the handshake go
      to it in the order they arrived. */
  lemma {:induction false} ProcessForwardsInOrder(c: Conn, frames: seq<seq<byte>>)
    requires c.connected && c.hasPlayer
    requires forall f :: f in frames ==> |f| >= 1 && ForPlayer(f)
    ensures ProcessFrames(HandleF, c, frames, false)
            == Outcome(c.(inBuffer := [], events := c.events + ForwardAll(frames)), None)
    decreases |frames|
  {
    if frames != [] {
      assert frames[0] in frames;
      ForwardStep(c, frames);
      var p := ToPacket(frames[0]);
      var next := c.(events := c.events + [Forwarded(p)]);
      assert forall f :: f in frames[1..] ==> f in frames;
      ProcessForwardsInOrder(next, frames[1..]);
      assert ForwardAll(frames) == [Forwarded(p)] + ForwardAll(frames[1..]);
      AppendAssoc(c.events, [Forwarded(p)], ForwardAll(frames[1..]));
    }
  }

  /** One read that returns bytes: its frames are processed from an input
      buffer holding just those bytes. */
  lemma ReceiveOneRead(c: Conn, bytes: seq<byte>)
    requires c.connected
    ensures var split := SplitFrames(c.codec.packetSize, bytes);
            ReceiveF(c, [Data(bytes)]) == ProcessFrames(HandleF, c.(inBuffer := bytes), split.frames, split.unknownTag)
  {
    var start := c.(inBuffer := []);
    assert [Data(bytes)][1..] == [];
    assert start.inBuffer + bytes == bytes;
    assert Gather([], [Data(bytes)]) == Gathered(bytes, 1);
  }

  /** A run of bytes drained in one read whose frames all go to the player is
      forwarded frame by frame, and the input buffer is left empty. */
  lemma ReceiveForwardsInOrder(c: Conn, bytes: seq<byte>)
    requires c.connected && c.Lifecycle() && c.hasPlayer
    requires var split := SplitFrames(c.codec.packetSize, bytes);
             !split.unknownTag && forall f :: f in split.frames ==> ForPlayer(f)
    ensures var split := SplitFrames(c.codec.packetSize, bytes);
            ReceiveF(c, [Data(bytes)])
            == Outcome(c.(inBuffer := [], events := c.events + ForwardAll(split.frames)), None)
  {
    ReceiveOneRead(c, bytes);
    ProcessForwardsInOrder(c.(inBuffer := bytes), SplitFrames(c.codec.packetSize, bytes).frames);
  }

  /** Input that starts with a header the table does not know is a read error. */
  lemma ReceiveUnknownHeader(c: Conn, bytes: seq<byte>)
    requires c.connected && bytes != [] && c.codec.packetSize(bytes[0]).None?
    ensures ReceiveF(c, [Data(bytes)]) == DisconnectF(c.(inBuffer := bytes), READ_ERROR)
  {
    ReceiveOneRead(c, bytes);
  }

  /** The drain loop stops at the first read that fails other than by
      blocking, having appended the data of every read before it, in order. */
  lemma {:induction false} GatherCollects(buffer: seq<byte>, chunks: seq<ReadResult>)
    ensures var g := Gather(buffer, chunks);
            g.buffer == buffer + DataOf(chunks[..g.stop])
            && forall k :: 0 <= k < g.stop ==> !Fails(chunks[k])
    decreases |chunks|
  {
    var g := Gather(buffer, chunks);
    if chunks == [] || Fails(chunks[0]) {
      assert chunks[..0] == [];
    } else {
      var d := if chunks[0].Data? then chunks[0].bytes else [];
      var next := if chunks[0].Data? then buffer + chunks[0].bytes else buffer;
      GatherCollects(next, chunks[1..]);
      var h := Gather(next, chunks[1..]);
      assert g == Gathered(h.buffer, h.stop + 1);
      assert next == buffer + d;
      var taken := chunks[..g.stop];
      assert taken[0] == chunks[0] && taken[1..] == chunks[1..][..h.stop];
      assert DataOf(taken) == d + DataOf(chunks[1..][..h.stop]);
      AppendAssoc(buffer, d, DataOf(chunks[1..][..h.stop]));
      forall k | 0 <= k < g.stop
        ensures !Fails(chunks[k])
      {
        if k > 0 {
          assert chunks[k] == chunks[1..][k - 1];
        }
      }
    }
  }

  /** A reset or aborted read closes the connection without sending the client
      anything, while a read that fails because the socket was shut down is an
      unexpected error whose reason the client is sent. */
  lemma ReceiveFaults(c: Conn, e: SocketResult)
    requires c.connected
    ensures e.ConnectionReset? || e.ConnectionAborted? ==>
              var r := ReceiveF(c, [Failed(e)]);
              r.error.None? && !r.conn.connected && r.conn.sent == c.sent && r.conn.written == c.written
    ensures e == Shutdown ==>
              ReceiveF(c, [Failed(e)]) == DisconnectF(c.(inBuffer := []), "An unexpected socket error occured (Shutdown)")
  {
    assert SocketErrorReason(Shutdown) == "An unexpected socket error occured (Shutdown)";
  }

  /** Any failed read other than "nothing available" leaves the connection
      closed, and an error the drain loop does not single out disconnects the
      client with a reason that names the error. */
  lemma ReadFailureCloses(c: Conn, e: SocketResult)
    requires WellFormed(c.codec) && c.Lifecycle() && c.connected && e != Ok && e != WouldBlock
    ensures !DroppedF(c, e).conn.connected
    ensures e.OtherError? ==> ReceiveF(c, [Failed(e)]) == DisconnectF(c.(inBuffer := []), SocketErrorReason(e))
  {
    if e.ConnectionReset? || e.ConnectionAborted? {
      DisconnectCloses(c.(connected := false), CLIENT_DISCONNECTED);
    } else {
      DisconnectCloses(c, SocketErrorReason(e));
    }
  }

  /** Frames processed with the connection's own handler end with the connection
      either still open, with nothing raised and the input consumed, or closed. */
  lemma {:induction false} ProcessCompletesOrCloses(c: Conn, frames: seq<seq<byte>>, unknownTag: bool)
    requires WellFormed(c.codec) && c.Lifecycle() && c.connected
    requires forall f :: f in frames ==> |f| >= 1
    ensures var r := ProcessFrames(HandleF, c, frames, unknownTag);
            r.conn.connected ==> r.error.None? && r.conn.inBuffer == []
    decreases |frames|
  {
    if frames == [] {
      if unknownTag {
        DisconnectCloses(c, READ_ERROR);
      }
    } else {
      var h := HandleF(c, ToPacket(frames[0]));
      assert forall f :: f in frames[1..] ==> f in frames;
      if h.error.Some? {
        DisconnectCloses(h.conn, READ_ERROR);
      } else if h.conn.connected {
        ProcessCompletesOrCloses(h.conn, frames[1..], unknownTag);
      }
    }
  }

  /** After a receive, a connection that is still open raised nothing and, if
      anything was read, has consumed its input buffer. */
  lemma {:induction false} ReceiveCompletesOrCloses(c: Conn, chunks: seq<ReadResult>)
    requires WellFormed(c.codec) && c.Lifecycle()
    ensures var r := ReceiveF(c, chunks);
            r.conn.connected ==> r.error.None? && (chunks != [] ==> r.conn.inBuffer == [])
  {
    if c.connected && chunks != [] {
      DrainCompletesOrCloses(c.(inBuffer := []), chunks);
    }
  }

  lemma DrainCompletesOrCloses(c: Conn, chunks: seq<ReadResult>)
    requires WellFormed(c.codec) && c.Lifecycle() && c.connected
    ensures var r := DrainF(c, chunks);
            r.conn.connected ==> r.error.None? && r.conn.inBuffer == []
  {
    var g := Gather(c.inBuffer, chunks);
    var drained := c.(inBuffer := g.buffer);
    if g.stop < |chunks| {
      var e := chunks[g.stop].error;
      if e.ConnectionReset? || e.ConnectionAborted? {
        DisconnectCloses(drained.(connected := false), CLIENT_DISCONNECTED);
      } else {
        DisconnectCloses(drained, SocketErrorReason(e));
      }
    } else {
      var split := SplitFrames(c.codec.packetSize, g.buffer);
      ProcessCompletesOrCloses(drained, split.frames, split.unknownTag);
    }
  }

  /** The connection's invariant holds from the start; every operation keeps it
      (their own contracts state that). */
  lemma InvariantKept(codec: Codec, server: ServerView, sendResults: seq<SocketResult>)
    ensures Initial(codec, server, sendResults).Inv()
  {
  }
}
