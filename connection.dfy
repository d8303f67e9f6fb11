/**
 * The per-connection state machine of the server: identification, CPE
 * negotiation, the outbound buffer and its flushing, and the disconnect
 * sequence.
 *
 * The socket is replaced by its outcomes: `Receive` is given what each read of
 * the drain loop returned, and each `socket.Send` takes the next outcome from
 * the connection's `sendResults` script (a script that has run out means every
 * further send succeeds). The server's collaborators are the oracle fields of
 * `ServerView`; what the connection does to the server (creating and destroying
 * the player, removing itself, broadcasting, forwarding frames to the player)
 * is recorded as `ServerEvent`s, and what is handed to the socket as `written`.
 *
 * Each operation is specified by a function from the connection's state
 * (`Conn`) to its new state and the exception it raises, if any; the class
 * `ClientConnection` implements the operations imperatively and is proved to
 * follow those functions.
 */
module Network {
  import opened Common
  import opened Protocol

  /** How a socket call ended. */
  datatype SocketResult =
    | Ok
    | WouldBlock
    | ConnectionReset
    | ConnectionAborted
    | Shutdown
    | OtherError(code: string)

  /** The name .NET gives the socket error code. */
  function ErrorName(e: SocketResult): string
  {
    match e
    case Ok => "Success"
    case WouldBlock => "WouldBlock"
    case ConnectionReset => "ConnectionReset"
    case ConnectionAborted => "ConnectionAborted"
    case Shutdown => "Shutdown"
    case OtherError(code) => code
  }

  /** One read of the drain loop: the bytes it returned, or the error it raised. */
  datatype ReadResult = Data(bytes: seq<byte>) | Failed(error: SocketResult)

  /** The exceptions the operations can raise. */
  datatype Exception =
    | UnknownPacketType    // the size table does not know the header byte
    | PacketSizeMismatch   // the payload is not the table's size for its header
    | ObjectDisposed       // a write to the buffer after the connection was torn down
    | CapacityOutOfRange   // the declared extension count is below the count already held

  /** What the connection makes the server do. */
  datatype ServerEvent =
    | PlayerCreated(name: string, isOp: bool)
    | PlayerDestroyed
    | ConnectionRemoved
    | Broadcast(message: string)
    | Forwarded(packet: Packet)

  /** The server as the connection sees it. */
  datatype ServerView = ServerView(
    /** Whether a player of that name is online. */
    isOnline: string -> bool,
    /** Whether the name and key authenticate. */
    authenticate: (string, string) -> bool,
    whitelistEnforced: bool,
    whitelisted: string -> bool,
    isOp: string -> bool,
    serverName: string,
    motd: string,
    /** The server software's full name. */
    software: string,
    /** The protocol extensions the server supports. */
    extensions: seq<Extension>)

  // Disconnect reasons.
  const INVALID_VERSION: string := "Invalid version"
  const DUPLICATE_NAME: string := "There is already a player with that name!"
  const AUTHENTICATION_FAILURE: string := "Authentication failure"
  const NOT_WHITELISTED: string := "You are not on the whitelist!"
  const READ_ERROR: string := "Unexpected error reading packets."
  const CLIENT_DISCONNECTED: string := "Client disconnected"

  function SocketErrorReason(e: SocketResult): string
  {
    "An unexpected socket error occured (" + ErrorName(e) + ")"
  }

  /** What everyone is told when a connection closes. */
  function DepartureNotice(name: string, reason: string): string
  {
    name + " has disconnected. (" + reason + ")"
  }

  /** The identification checks, in order; the first that fails gives the
      disconnect reason, and an identification that passes them all gets None. */
  function IdentRejection(server: ServerView, id: Ident): (r: Option<string>)
    ensures r.None? <==>
              id.version == PROTOCOL_VERSION && !server.isOnline(id.name)
              && server.authenticate(id.name, id.key)
              && (server.whitelistEnforced ==> server.whitelisted(id.name))
    ensures r == Some(INVALID_VERSION) <==> id.version != PROTOCOL_VERSION
    ensures r == Some(DUPLICATE_NAME) <==> id.version == PROTOCOL_VERSION && server.isOnline(id.name)
    ensures r == Some(AUTHENTICATION_FAILURE) <==>
              id.version == PROTOCOL_VERSION && !server.isOnline(id.name)
              && !server.authenticate(id.name, id.key)
    ensures r == Some(NOT_WHITELISTED) <==>
              id.version == PROTOCOL_VERSION && !server.isOnline(id.name)
              && server.authenticate(id.name, id.key)
              && server.whitelistEnforced && !server.whitelisted(id.name)
  {
    if id.version != PROTOCOL_VERSION then Some(INVALID_VERSION)
    else if server.isOnline(id.name) then Some(DUPLICATE_NAME)
    else if !server.authenticate(id.name, id.key) then Some(AUTHENTICATION_FAILURE)
    else if server.whitelistEnforced && !server.whitelisted(id.name) then Some(NOT_WHITELISTED)
    else None
  }

  // ---------------------------------------------------------------------------
  // The state of a connection and how each operation changes it

  datatype Conn = Conn(
    codec: Codec,
    server: ServerView,
    connected: bool,
    /** The socket and both buffers have been disposed of. */
    disposed: bool,
    inBuffer: seq<byte>,
    outBuffer: seq<byte>,
    /** The outcomes of the socket's coming sends. */
    sendResults: seq<SocketResult>,
    /** The client's extensions in arrival order. */
    extensions: seq<Extension>,
    /** The capacity of the client's extension list, which holds the count it declared. */
    extCapacity: nat,
    supportCustomBlocks: bool,
    clientName: string,
    clientSoftware: string,
    hasPlayer: bool,
    /** The bytes handed to the socket, one entry per successful send. */
    written: seq<seq<byte>>,
    /** The packets appended to the outbound buffer. */
    sent: seq<Packet>,
    events: seq<ServerEvent>)
  {
    /** A torn-down connection is no longer connected. */
    predicate Lifecycle()
    {
      disposed ==> !connected
    }

    /** What holds of every connection between operations. */
    ghost predicate Inv()
    {
      Lifecycle()
      && |extensions| <= extCapacity
      && (supportCustomBlocks <==> HasCustomBlocks(extensions))
    }
  }

  /** The result of an operation: the new state and the exception it raised. */
  datatype Outcome = Outcome(conn: Conn, error: Option<Exception>)

  /** A fresh connection. */
  function Initial(codec: Codec, server: ServerView, sendResults: seq<SocketResult>): (c: Conn)
    ensures c.connected && c.Inv()
  {
    Conn(codec, server, true, false, [], [], sendResults, [], 0, false, "", "", false, [], [], [])
  }

  /** What holds between any state and a later one: the collaborators stay,
      a closed connection never reopens, a disposed one stays disposed, no
      socket outcome is taken back and the logs only grow. */
  ghost predicate Evolves(a: Conn, b: Conn)
  {
    b.codec == a.codec && b.server == a.server
    && (b.connected ==> a.connected)
    && (a.disposed ==> b.disposed)
    && (a.Lifecycle() ==> b.Lifecycle())
    && |b.sendResults| <= |a.sendResults|
    && a.written <= b.written && a.sent <= b.sent && a.events <= b.events
  }

  /** The handshake state is left as it was. */
  ghost predicate SameSession(a: Conn, b: Conn)
  {
    b.inBuffer == a.inBuffer && b.extensions == a.extensions && b.extCapacity == a.extCapacity
    && b.supportCustomBlocks == a.supportCustomBlocks && b.clientName == a.clientName
    && b.clientSoftware == a.clientSoftware && b.hasPlayer == a.hasPlayer
  }

  /** Evolving twice, with the handshake state kept, is evolving once. */
  lemma EvolvesTrans(a: Conn, b: Conn, c: Conn)
    requires Evolves(a, b) && Evolves(b, c)
    ensures Evolves(a, c)
    ensures SameSession(a, b) && SameSession(b, c) ==> SameSession(a, c)
  {
  }

  /** Whether appending the packet would take the outbound buffer past its ceiling. */
  function Overflows(outBuffer: seq<byte>, p: Packet): bool
  {
    |outBuffer| + |p.Bytes()| > MAX_OUT_BUF_SIZE
  }

  /** Appending a packet to the outbound buffer: no-op when disconnected, an
      exception when the size table does not know the header, or, with
      `checkPacketSize`, when the payload is not the table's size; a flush
      first when the buffer would overflow. */
  function SendF(c: Conn, p: Packet, checkPacketSize: bool): (r: Outcome)
    ensures Evolves(c, r.conn) && SameSession(c, r.conn)
    ensures !c.connected ==> r == Outcome(c, None)
    ensures c.connected && c.codec.packetSize(p.tag).None? ==> r == Outcome(c, Some(UnknownPacketType))
    ensures c.connected && checkPacketSize && c.codec.packetSize(p.tag).Some?
              && c.codec.packetSize(p.tag) != Some(|p.payload|) ==>
              r == Outcome(c, Some(PacketSizeMismatch))
    ensures c.connected && r.error.None? ==>
              r.conn.connected && r.conn.sent == c.sent + [p] && r.conn.events == c.events
              && r.conn.outBuffer == (if Overflows(c.outBuffer, p) then [] else c.outBuffer) + p.Bytes()
    ensures r.error == Some(ObjectDisposed) ==> r.conn.disposed
    decreases |c.sendResults|, 2
  {
    if !c.connected then Outcome(c, None)
    else if c.codec.packetSize(p.tag).None? then Outcome(c, Some(UnknownPacketType))
    else if c.codec.packetSize(p.tag).value != |p.payload| && checkPacketSize then Outcome(c, Some(PacketSizeMismatch))
    else
      var f := if Overflows(c.outBuffer, p) then FlushF(c) else Outcome(c, None);
      if f.error.Some? then f
      else if f.conn.disposed then Outcome(f.conn, Some(ObjectDisposed))
      else Outcome(f.conn.(outBuffer := f.conn.outBuffer + p.Bytes(), sent := f.conn.sent + [p]), None)
  }

  /** The next send outcome; an exhausted script succeeds. */
  function NextResult(c: Conn): SocketResult
  {
    if c.sendResults == [] then Ok else c.sendResults[0]
  }

  function TakeResult(c: Conn): (r: Conn)
    ensures |r.sendResults| == if c.sendResults == [] then 0 else |c.sendResults| - 1
  {
    c.(sendResults := if c.sendResults == [] then [] else c.sendResults[1..])
  }

  /** Whether a send failing this way means the client has gone. */
  predicate ClientGone(e: SocketResult)
  {
    e.ConnectionReset? || e.ConnectionAborted? || e.Shutdown?
  }

  /** Handing the outbound buffer to the socket. */
  function FlushF(c: Conn): (r: Outcome)
    ensures Evolves(c, r.conn) && SameSession(c, r.conn)
    ensures !c.connected || c.outBuffer == [] ==> r == Outcome(c, None)
    ensures c.connected && r.error.None? && !r.conn.disposed ==>
              r.conn.connected && r.conn.outBuffer == [] && r.conn.sent == c.sent && r.conn.events == c.events
              && (r.conn.written == c.written || r.conn.written == c.written + [c.outBuffer])
    ensures r.error == Some(ObjectDisposed) ==> r.conn.disposed
    decreases |c.sendResults|, 1
  {
    if !c.connected || |c.outBuffer| < 1 then Outcome(c, None)
    else
      var outcome := NextResult(c);
      var rest := TakeResult(c);
      if outcome == Ok then Outcome(rest.(written := rest.written + [c.outBuffer], outBuffer := []), None)
      else if outcome == WouldBlock then Outcome(rest.(outBuffer := []), None)
      else
        var d := SendFailedF(rest, outcome);
        EvolvesTrans(c, rest, d.conn);
        d
  }

  /** A send that failed because the client has gone, or with another socket
      error: the connection is closed, with a reason that says which. */
  function SendFailedF(c: Conn, e: SocketResult): (r: Outcome)
    ensures Evolves(c, r.conn) && SameSession(c, r.conn)
    ensures r.error.None? ==> r.conn.disposed
    ensures r.error == Some(ObjectDisposed) ==> r.conn.disposed
    decreases |c.sendResults|, 5
  {
    var closing := if ClientGone(e) then c.(connected := false) else c;
    var d := DisconnectF(closing, if ClientGone(e) then CLIENT_DISCONNECTED else SocketErrorReason(e));
    EvolvesTrans(c, closing, d.conn);
    d
  }

  /** Tearing the connection down: the player is destroyed if there is one and
      the connection removes itself from the server. */
  function Destroyed(c: Conn): (r: Conn)
    ensures !r.connected && r.disposed && r.Lifecycle()
    ensures r.events == c.events + (if c.hasPlayer then [PlayerDestroyed] else []) + [ConnectionRemoved]
    ensures Evolves(c, r) && SameSession(c, r)
    ensures r.sent == c.sent && r.written == c.written && r.outBuffer == c.outBuffer
  {
    c.(connected := false, disposed := true,
       events := c.events + (if c.hasPlayer then [PlayerDestroyed] else []) + [ConnectionRemoved])
  }

  /** Closing the connection: a still-connected client is sent the reason and
      the buffer is flushed; then the connection is torn down and everyone is
      told. An exception from the send or the flush is passed on. */
  function DisconnectF(c: Conn, reason: string): (r: Outcome)
    ensures Evolves(c, r.conn) && SameSession(c, r.conn)
    ensures r.error.None? ==>
              !r.conn.connected && r.conn.disposed && |r.conn.events| >= 2
              && r.conn.events[|r.conn.events| - 2..] == [ConnectionRemoved, Broadcast(DepartureNotice(c.clientName, reason))]
    ensures !c.connected ==> r.error.None? && r.conn.sent == c.sent && r.conn.written == c.written
    ensures c.connected && r.error.None? ==>
              |r.conn.sent| > |c.sent| && r.conn.sent[|c.sent|] == Build(c.codec, DisconnectPlayer(reason))
    ensures r.error == Some(ObjectDisposed) ==> r.conn.disposed
    decreases |c.sendResults|, 4
  {
    var closing := Farewell(c, Build(c.codec, DisconnectPlayer(reason)));
    if closing.error.Some? then closing
    else
      var e := Departed(closing.conn, DepartureNotice(c.clientName, reason));
      EvolvesTrans(c, closing.conn, e);
      Outcome(e, None)
  }

  /** The first half of closing: a still-connected client is sent the
      farewell packet and the buffer is flushed. */
  function Farewell(c: Conn, dc: Packet): (r: Outcome)
    ensures Evolves(c, r.conn) && SameSession(c, r.conn)
    ensures !c.connected ==> r == Outcome(c, None)
    ensures c.connected && r.error.None? ==> |r.conn.sent| > |c.sent| && r.conn.sent[|c.sent|] == dc
    ensures r.error == Some(ObjectDisposed) ==> r.conn.disposed
    decreases |c.sendResults|, 3
  {
    if !c.connected then Outcome(c, None)
    else
      var s := SendF(c, dc, true);
      if s.error.Some? then s
      else
        var f := FlushF(s.conn);
        EvolvesTrans(c, s.conn, f.conn);
        SentAfter(c.sent, s.conn.sent, f.conn.sent, dc);
        f
  }

  /** Torn down, with everyone told the notice last. */
  function Departed(c: Conn, notice: string): (r: Conn)
    ensures !r.connected && r.disposed
    ensures Evolves(c, r) && SameSession(c, r)
    ensures |r.events| >= 2 && r.events[|r.events| - 2..] == [ConnectionRemoved, Broadcast(notice)]
    ensures r.sent == c.sent && r.written == c.written
  {
    var d := Destroyed(c);
    var r := d.(events := d.events + [Broadcast(notice)]);
    assert r.events[|r.events| - 2..] == [d.events[|d.events| - 1], Broadcast(notice)];
    r
  }

  /** A packet appended to the log stays at its place as the log grows. */
  lemma SentAfter(before: seq<Packet>, middle: seq<Packet>, after: seq<Packet>, p: Packet)
    requires middle == before + [p] && middle <= after
    ensures |after| > |before| && after[|before|] == p
  {
    assert after[|before|] == middle[|before|];
  }

  /** Sending packets one after the other, stopping at the first exception. */
  function SendAll(c: Conn, packets: seq<Packet>): (r: Outcome)
    ensures Evolves(c, r.conn) && SameSession(c, r.conn)
    decreases |packets|
  {
    if packets == [] then Outcome(c, None)
    else
      var s := SendF(c, packets[0], true);
      if s.error.Some? then s else SendAll(s.conn, packets[1..])
  }

  /** The server identification, then the player is created. */
  function BeginIdentF(c: Conn): (r: Outcome)
    ensures Evolves(c, r.conn)
    ensures r.conn.inBuffer == c.inBuffer && r.conn.extensions == c.extensions
    ensures r.conn.extCapacity == c.extCapacity && r.conn.supportCustomBlocks == c.supportCustomBlocks
    ensures c.connected && r.error.None? ==> r.conn.connected
    ensures r.error.None? ==>
              r.conn.hasPlayer && |r.conn.events| > 0
              && r.conn.events[|r.conn.events| - 1] == PlayerCreated(c.clientName, c.server.isOp(c.clientName))
  {
    var op := c.server.isOp(c.clientName);
    var s := SendF(c, Build(c.codec, ServerIdent(PROTOCOL_VERSION, c.server.serverName, c.server.motd,
                                                 if op then USER_TYPE_OP else USER_TYPE_NORMAL)), true);
    if s.error.Some? then s
    else Outcome(s.conn.(hasPlayer := true, events := s.conn.events + [PlayerCreated(c.clientName, op)]), None)
  }

  /** The player identification: the checks, then the CPE announcement for a
      CPE client or the server identification for any other. */
  function IdentF(c: Conn, id: Ident): (r: Outcome)
    ensures Evolves(c, r.conn)
    ensures r.conn.inBuffer == c.inBuffer && r.conn.extensions == c.extensions
    ensures r.conn.extCapacity == c.extCapacity && r.conn.supportCustomBlocks == c.supportCustomBlocks
    ensures r.conn.clientName == id.name
  {
    var named := c.(clientName := id.name);
    match IdentRejection(c.server, id)
    case Some(reason) => DisconnectF(named, reason)
    case None =>
      if id.unused == CPE_MAGIC then SendAll(named, CpeAnnouncement(c.codec, c.server.software, c.server.extensions))
      else BeginIdentF(named)
  }

  /** ExtInfo: the client's software and the extension count it declares, which
      becomes the capacity of its extension list. */
  function ExtInfoF(c: Conn, software: string, declared: int16): (r: Outcome)
    ensures r.error.None? <==> |c.extensions| <= declared
    ensures r.error.None? ==> r.conn.extCapacity == declared
    ensures r.error.Some? ==> r.conn.extCapacity == c.extCapacity
    ensures r.conn == c.(clientSoftware := software, extCapacity := r.conn.extCapacity)
  {
    var named := c.(clientSoftware := software);
    if declared < |c.extensions| then Outcome(named, Some(CapacityOutOfRange))
    else Outcome(named.(extCapacity := declared), None)
  }

  /** ExtEntry: the entry is recorded; once the count meets the capacity the
      CustomBlocks support level is sent if the client has that extension, and
      the server identification follows. */
  function ExtEntryF(c: Conn, entry: Extension): (r: Outcome)
    ensures Evolves(c, r.conn)
    ensures r.conn.inBuffer == c.inBuffer && r.conn.extensions == c.extensions + [entry]
    ensures r.conn.supportCustomBlocks == (c.supportCustomBlocks || entry.name == CUSTOM_BLOCKS)
    ensures |r.conn.extensions| <= r.conn.extCapacity
  {
    var added := c.(extensions := c.extensions + [entry],
                    extCapacity := CapacityAfterAdd(|c.extensions|, c.extCapacity),
                    supportCustomBlocks := c.supportCustomBlocks || entry.name == CUSTOM_BLOCKS);
    if |added.extensions| == added.extCapacity then
      var s := if added.supportCustomBlocks then SendF(added, Build(c.codec, CustomBlockSupportLevel(1)), true)
               else Outcome(added, None);
      if s.error.Some? then s else BeginIdentF(s.conn)
    else Outcome(added, None)
  }

  /** One received packet, dispatched on its header byte. */
  function HandleF(c: Conn, packet: Packet): (r: Outcome)
    ensures Evolves(c, r.conn)
    ensures r.conn.inBuffer == c.inBuffer
    ensures c.Inv() ==> r.conn.Inv()
  {
    if packet.tag == PLAYER_IDENT then IdentF(c, c.codec.readIdent(packet.payload))
    else if packet.tag == CPE_EXT_INFO then
      var (software, declared) := c.codec.readExtInfo(packet.payload);
      ExtInfoF(c, software, declared)
    else if packet.tag == CPE_EXT_ENTRY then
      HasCustomBlocksAppend(c.extensions, c.codec.readExtEntry(packet.payload));
      ExtEntryF(c, c.codec.readExtEntry(packet.payload))
    else if c.hasPlayer then Outcome(c.(events := c.events + [Forwarded(packet)]), None)
    else Outcome(c, None)
  }

  lemma HasCustomBlocksAppend(extensions: seq<Extension>, entry: Extension)
    ensures HasCustomBlocks(extensions + [entry]) <==> HasCustomBlocks(extensions) || entry.name == CUSTOM_BLOCKS
  {
    var all := extensions + [entry];
    if HasCustomBlocks(extensions) {
      var i :| 0 <= i < |extensions| && extensions[i].name == CUSTOM_BLOCKS;
      assert all[i] == extensions[i];
    }
    if entry.name == CUSTOM_BLOCKS {
      assert all[|extensions|] == entry;
    }
    if HasCustomBlocks(all) {
      var i :| 0 <= i < |all| && all[i].name == CUSTOM_BLOCKS;
      if i < |extensions| {
        assert all[i] == extensions[i];
      }
    }
  }

  // ---------------------------------------------------------------------------
  // The receive loop, for any handler of the packets it cuts out

  /** What handles one received packet. */
  type Handler = (Conn, Packet) -> Outcome

  /** A frame's bytes as a packet: its header byte and the rest. */
  function ToPacket(frame: seq<byte>): (p: Packet)
    requires |frame| >= 1
    ensures p.Bytes() == frame
  {
    Packet(frame[0], frame[1..])
  }

  /** The frames of one drained run, in order, stopping as soon as one leaves
      the connection closed; an exception, or a header the table does not know,
      closes the connection as a read error. */
  function ProcessFrames(handle: Handler, c: Conn, frames: seq<seq<byte>>, unknownTag: bool): (r: Outcome)
    requires forall f :: f in frames ==> |f| >= 1
    ensures r.error.None? && r.conn.connected ==> r.conn.inBuffer == []
    decreases |frames|, 1
  {
    if frames == [] then
      if unknownTag then DisconnectF(c, READ_ERROR) else Outcome(c.(inBuffer := []), None)
    else AfterFrame(handle, handle(c, ToPacket(frames[0])), frames[1..], unknownTag)
  }

  /** What follows the handling of one frame: a read error on an exception, a
      stop if the connection closed, the remaining frames otherwise. */
  function AfterFrame(handle: Handler, h: Outcome, frames: seq<seq<byte>>, unknownTag: bool): (r: Outcome)
    requires forall f :: f in frames ==> |f| >= 1
    ensures r.error.None? && r.conn.connected ==> r.conn.inBuffer == []
    decreases |frames| + 1, 0
  {
    if h.error.Some? then DisconnectF(h.conn, READ_ERROR)
    else if !h.conn.connected then h
    else ProcessFrames(handle, h.conn, frames, unknownTag)
  }

  /** Processing the frames with the connection's own handler keeps the
      lifecycle and the invariant. */
  lemma {:induction false} ProcessFramesEvolves(c: Conn, frames: seq<seq<byte>>, unknownTag: bool)
    requires forall f :: f in frames ==> |f| >= 1
    ensures Evolves(c, ProcessFrames(HandleF, c, frames, unknownTag).conn)
    ensures c.Inv() ==> ProcessFrames(HandleF, c, frames, unknownTag).conn.Inv()
    decreases |frames|
  {
    if frames != [] {
      var h := HandleF(c, ToPacket(frames[0]));
      assert forall f :: f in frames[1..] ==> f in frames;
      if h.error.None? && h.conn.connected {
        ProcessFramesEvolves(h.conn, frames[1..], unknownTag);
      }
    }
  }

  /** How many payload bytes are left in `buffer` for a frame whose header is at `position`. */
  function Available(buffer: seq<byte>, position: nat, size: nat): (r: nat)
    requires position < |buffer|
    ensures r <= size && position + 1 + r <= |buffer|
  {
    Min(size, |buffer| - position - 1)
  }

  /** The bytes of the frame whose header is at `position`: what is left of
      its payload, then zero bytes for what is missing. */
  function FrameBytes(buffer: seq<byte>, position: nat, size: nat): (f: seq<byte>)
    requires position < |buffer|
    ensures |f| == 1 + size && f[0] == buffer[position]
  {
    var available := Available(buffer, position, size);
    buffer[position..position + 1 + available] + Zeros(size - available)
  }

  /** The packet whose header is at `position`. */
  function FrameAt(buffer: seq<byte>, position: nat, size: nat): (p: Packet)
    requires position < |buffer|
    ensures p.tag == buffer[position] && |p.payload| == size
  {
    ToPacket(FrameBytes(buffer, position, size))
  }

  /** Cutting from `position` at a header the table knows. */
  lemma SplitAt(packetSize: byte -> Option<nat>, buffer: seq<byte>, position: nat, size: nat)
    requires position < |buffer| && packetSize(buffer[position]) == Some(size)
    ensures var next := SplitFrames(packetSize, buffer[position + 1 + Available(buffer, position, size)..]);
            SplitFrames(packetSize, buffer[position..])
              == Split([FrameBytes(buffer, position, size)] + next.frames, next.unknownTag)
  {
    var input := buffer[position..];
    var available := Available(buffer, position, size);
    assert input[0] == buffer[position];
    assert input[..1 + available] == buffer[position..position + 1 + available];
    assert input[1 + available..] == buffer[position + 1 + available..];
  }

  /** Cutting from `position` at a header the table does not know. */
  lemma SplitAtUnknown(packetSize: byte -> Option<nat>, buffer: seq<byte>, position: nat)
    requires position < |buffer| && packetSize(buffer[position]).None?
    ensures SplitFrames(packetSize, buffer[position..]) == Split([], true)
  {
    assert buffer[position..][0] == buffer[position];
  }

  lemma ProcessStep(handle: Handler, c: Conn, frame: seq<byte>, frames: seq<seq<byte>>, unknownTag: bool)
    requires |frame| >= 1 && forall f :: f in frames ==> |f| >= 1
    ensures ProcessFrames(handle, c, [frame] + frames, unknownTag)
            == AfterFrame(handle, handle(c, ToPacket(frame)), frames, unknownTag)
  {
    assert ([frame] + frames)[0] == frame;
    assert ([frame] + frames)[1..] == frames;
  }

  /** The parse loop read from `position` of the drained buffer on, with the
      size table `packetSize`: each frame is handled in turn until the buffer
      is used up, the connection closes, or an exception or an unknown header
      makes it a read error. */
  function ParseFrom(handle: Handler, packetSize: byte -> Option<nat>, c: Conn, buffer: seq<byte>, position: nat): (r: Outcome)
    requires position <= |buffer|
    ensures r.error.None? && r.conn.connected ==> r.conn.inBuffer == []
    decreases |buffer| - position, 1
  {
    if position == |buffer| then Outcome(c.(inBuffer := []), None)
    else match packetSize(buffer[position])
      case None => DisconnectF(c, READ_ERROR)
      case Some(size) =>
        ParseAfter(handle, packetSize, handle(c, FrameAt(buffer, position, size)), buffer,
                   position + 1 + Available(buffer, position, size))
  }

  /** The parse loop after one frame has been handled, `next` being where the
      following frame starts. */
  function ParseAfter(handle: Handler, packetSize: byte -> Option<nat>, h: Outcome, buffer: seq<byte>, next: nat): (r: Outcome)
    requires 0 < next <= |buffer|
    ensures r.error.None? && r.conn.connected ==> r.conn.inBuffer == []
    decreases |buffer| - next + 1, 0
  {
    if h.error.Some? then DisconnectF(h.conn, READ_ERROR)
    else if !h.conn.connected then h
    else ParseFrom(handle, packetSize, h.conn, buffer, next)
  }

  lemma ParseStep(handle: Handler, packetSize: byte -> Option<nat>, c: Conn, buffer: seq<byte>, position: nat, size: nat,
                  h: Outcome)
    requires position < |buffer| && packetSize(buffer[position]) == Some(size)
    requires h == handle(c, FrameAt(buffer, position, size))
    ensures ParseFrom(handle, packetSize, c, buffer, position)
            == ParseAfter(handle, packetSize, h, buffer, position + 1 + Available(buffer, position, size))
  {
  }

  /** The parse loop handles exactly the frames the buffer is cut into, in order. */
  lemma {:induction false} ParseFollowsSplit(handle: Handler, packetSize: byte -> Option<nat>, c: Conn,
                                             buffer: seq<byte>, position: nat)
    requires position <= |buffer|
    ensures var split := SplitFrames(packetSize, buffer[position..]);
            ParseFrom(handle, packetSize, c, buffer, position) == ProcessFrames(handle, c, split.frames, split.unknownTag)
    decreases |buffer| - position
  {
    if position == |buffer| {
      assert buffer[position..] == [];
    } else if packetSize(buffer[position]).None? {
      SplitAtUnknown(packetSize, buffer, position);
    } else {
      var size := packetSize(buffer[position]).value;
      var after := position + 1 + Available(buffer, position, size);
      var next := SplitFrames(packetSize, buffer[after..]);
      SplitAt(packetSize, buffer, position, size);
      ProcessStep(handle, c, FrameBytes(buffer, position, size), next.frames, next.unknownTag);
      var h := handle(c, FrameAt(buffer, position, size));
      ParseStep(handle, packetSize, c, buffer, position, size, h);
      if h.error.None? && h.conn.connected {
        ParseFollowsSplit(handle, packetSize, h.conn, buffer, after);
      }
      AfterStepsAgree(handle, packetSize, h, buffer, after, next);
    }
  }

  /** The parse loop and the frame processing continue alike after a frame, given
      that they agree on the rest. */
  lemma AfterStepsAgree(handle: Handler, packetSize: byte -> Option<nat>, h: Outcome, buffer: seq<byte>, after: nat, next: Split)
    requires 0 < after <= |buffer| && forall f :: f in next.frames ==> |f| >= 1
    requires h.error.None? && h.conn.connected ==>
               ParseFrom(handle, packetSize, h.conn, buffer, after) == ProcessFrames(handle, h.conn, next.frames, next.unknownTag)
    ensures ParseAfter(handle, packetSize, h, buffer, after) == AfterFrame(handle, h, next.frames, next.unknownTag)
  {
  }

  /** Whether a read result ends the drain loop: a failure other than blocking. */
  predicate Fails(r: ReadResult)
  {
    r.Failed? && r.error != WouldBlock
  }

  /** The bytes a run of reads returned, in order. */
  function DataOf(chunks: seq<ReadResult>): seq<byte>
  {
    if chunks == [] then [] else (if chunks[0].Data? then chunks[0].bytes else []) + DataOf(chunks[1..])
  }

  /** Where the drain loop stops, and the input buffer it leaves there. */
  datatype Gathered = Gathered(buffer: seq<byte>, stop: nat)

  /** The drain loop's reads up to the first that fails other than by
      blocking: each one's data is appended to the input buffer. */
  function Gather(buffer: seq<byte>, chunks: seq<ReadResult>): (r: Gathered)
    ensures r.stop <= |chunks| && (r.stop < |chunks| ==> Fails(chunks[r.stop]))
    decreases |chunks|
  {
    if chunks == [] || Fails(chunks[0]) then Gathered(buffer, 0)
    else
      var g := Gather(if chunks[0].Data? then buffer + chunks[0].bytes else buffer, chunks[1..]);
      Gathered(g.buffer, g.stop + 1)
  }

  /** The drain loop over the socket's reads, then the frames of what it drained. */
  function DrainF(c: Conn, chunks: seq<ReadResult>): (r: Outcome)
    ensures Evolves(c, r.conn)
    ensures c.Inv() ==> r.conn.Inv()
  {
    var g := Gather(c.inBuffer, chunks);
    var drained := c.(inBuffer := g.buffer);
    if g.stop < |chunks| then DroppedF(drained, chunks[g.stop].error) else ParsedF(drained)
  }

  /** The parse loop over the drained input buffer. */
  function ParsedF(c: Conn): (r: Outcome)
    ensures Evolves(c, r.conn)
    ensures c.Inv() ==> r.conn.Inv()
  {
    var split := SplitFrames(c.codec.packetSize, c.inBuffer);
    ProcessFramesEvolves(c, split.frames, split.unknownTag);
    ProcessFrames(HandleF, c, split.frames, split.unknownTag)
  }

  /** A read that failed other than by blocking closes the connection; a
      reset or aborted connection counts as the client having left. */
  function DroppedF(c: Conn, e: SocketResult): (r: Outcome)
    ensures Evolves(c, r.conn)
    ensures c.Inv() ==> r.conn.Inv()
  {
    if e.ConnectionReset? || e.ConnectionAborted? then DisconnectF(c.(connected := false), CLIENT_DISCONNECTED)
    else DisconnectF(c, SocketErrorReason(e))
  }

  /** Receiving: nothing when disconnected or when nothing is available;
      otherwise the input buffer is emptied and refilled by the drain loop. */
  function ReceiveF(c: Conn, chunks: seq<ReadResult>): (r: Outcome)
    ensures Evolves(c, r.conn)
    ensures c.Inv() ==> r.conn.Inv()
    ensures !c.connected || chunks == [] ==> r == Outcome(c, None)
  {
    if !c.connected || chunks == [] then Outcome(c, None)
    else DrainF(c.(inBuffer := []), chunks)
  }

  // ---------------------------------------------------------------------------
  // The connection object

  class ClientConnection {
    const codec: Codec
    const server: ServerView

    var Connected: bool
    /** The socket and both buffers have been disposed of. */
    var disposed: bool
    var inBuffer: seq<byte>
    var outBuffer: seq<byte>
    /** The outcomes of the socket's coming sends. */
    var sendResults: seq<SocketResult>
    var clientSupportedExtensions: seq<Extension>
    /** The capacity of `clientSupportedExtensions`. */
    var extCapacity: nat
    var SupportCustomBlocks: bool
    var clientName: string
    var ClientSoftware: string
    /** Whether the connection has a player. */
    var hasPlayer: bool

    ghost var Written: seq<seq<byte>>
    ghost var Sent: seq<Packet>
    ghost var Events: seq<ServerEvent>

    ghost function State(): Conn
      reads this
    {
      Conn(codec, server, Connected, disposed, inBuffer, outBuffer, sendResults,
           clientSupportedExtensions, extCapacity, SupportCustomBlocks, clientName, ClientSoftware,
           hasPlayer, Written, Sent, Events)
    }

    /** A connection is connected from the moment it is made. */
    constructor(codec: Codec, server: ServerView, sendResults: seq<SocketResult>)
      ensures State() == Initial(codec, server, sendResults)
    {
      this.codec := codec;
      this.server := server;
      this.sendResults := sendResults;
      Connected := true;
      disposed := false;
      inBuffer, outBuffer := [], [];
      clientSupportedExtensions, extCapacity, SupportCustomBlocks := [], 0, false;
      clientName, ClientSoftware, hasPlayer := "", "", false;
      Written, Sent, Events := [], [], [];
    }

    method Receive(chunks: seq<ReadResult>) returns (ex: Option<Exception>)
      modifies this
      ensures Outcome(State(), ex) == ReceiveF(old(State()), chunks)
    {
      if !Connected {
        return None;
      }
      if chunks == [] {
        return None;
      }
      inBuffer := [];
      ex := Drain(chunks);
    }

    /** The drain loop of `Receive`, then what ends it: a failed read or the parse loop. */
    method Drain(chunks: seq<ReadResult>) returns (ex: Option<Exception>)
      modifies this
      ensures Outcome(State(), ex) == DrainF(old(State()), chunks)
    {
      ghost var start := State();
      var i := TakeReads(chunks);
      assert State() == start.(inBuffer := inBuffer);
      if i < |chunks| {
        ex := Dropped(chunks[i].error);
      } else {
        ex := ParseBuffer();
      }
    }

    /** The reads up to the first failure: data is appended to the input buffer. */
    method TakeReads(chunks: seq<ReadResult>) returns (i: nat)
      modifies this`inBuffer
      ensures Gathered(inBuffer, i) == Gather(old(inBuffer), chunks)
    {
      ghost var goal := Gather(inBuffer, chunks);
      i := 0;
      while i < |chunks| && !Fails(chunks[i])
        invariant i <= goal.stop
        invariant Gather(inBuffer, chunks[i..]) == Gathered(goal.buffer, goal.stop - i)
      {
        assert chunks[i..][1..] == chunks[i + 1..];
        if chunks[i].Data? {
          inBuffer := inBuffer + chunks[i].bytes;
        }
        i := i + 1;
      }
      if i < |chunks| {
        assert chunks[i..][0] == chunks[i];
      } else {
        assert chunks[i..] == [];
      }
    }

    /** A failed read closes the connection. */
    method Dropped(e: SocketResult) returns (ex: Option<Exception>)
      modifies this
      ensures Outcome(State(), ex) == DroppedF(old(State()), e)
    {
      if e.ConnectionReset? || e.ConnectionAborted? {
        Connected := false;
        ex := Disconnect(CLIENT_DISCONNECTED);
      } else {
        ex := Disconnect(SocketErrorReason(e));
      }
    }

    /** Once every read is drained, the frames in the input buffer are handled. */
    method ParseBuffer() returns (ex: Option<Exception>)
      modifies this
      ensures Outcome(State(), ex) == ParsedF(old(State()))
    {
      ParseFollowsSplit(HandleF, codec.packetSize, State(), inBuffer, 0);
      assert inBuffer[0..] == inBuffer;
      ex := ParseFrames();
    }

    /** The parse loop of `Receive` over the drained input buffer. */
    method ParseFrames() returns (ex: Option<Exception>)
      modifies this
      ensures Outcome(State(), ex) == ParseFrom(HandleF, codec.packetSize, old(State()), old(inBuffer), 0)
    {
      var buffer := inBuffer;
      var position := 0;
      while position < |buffer|
        invariant position <= |buffer|
        invariant ParseFrom(HandleF, codec.packetSize, State(), buffer, position)
                  == ParseFrom(HandleF, codec.packetSize, old(State()), buffer, 0)
        decreases |buffer| - position
      {
        var next, done;
        next, ex, done := ParseFrame(buffer, position);
        if done {
          return;
        }
        position := next;
      }
      inBuffer := [];
      return None;
    }

    /** One pass of the parse loop: the frame whose header is at `position`. */
    method ParseFrame(buffer: seq<byte>, position: nat) returns (next: nat, ex: Option<Exception>, done: bool)
      requires position < |buffer|
      modifies this
      ensures !done ==> position < next <= |buffer|
                        && ParseFrom(HandleF, codec.packetSize, State(), buffer, next)
                           == ParseFrom(HandleF, codec.packetSize, old(State()), buffer, position)
      ensures done ==> Outcome(State(), ex) == ParseFrom(HandleF, codec.packetSize, old(State()), buffer, position)
    {
      match codec.packetSize(buffer[position]) {
        case None =>
          ex := Disconnect(READ_ERROR);
          return position, ex, true;
        case Some(size) =>
          var available := Min(size, |buffer| - position - 1);
          var packet := Packet(buffer[position], buffer[position + 1..position + 1 + available] + Zeros(size - available));
          assert packet == FrameAt(buffer, position, size) by {
            assert FrameBytes(buffer, position, size)[1..] == packet.payload;
          }
          ghost var before := State();
          var e := HandlePacket(packet);
          ParseStep(HandleF, codec.packetSize, before, buffer, position, size, Outcome(State(), e));
          next := position + 1 + available;
          if e.Some? {
            ex := Disconnect(READ_ERROR);
            return next, ex, true;
          }
          if !Connected {
            return next, None, true;
          }
          return next, None, false;
      }
    }

    method HandlePacket(packet: Packet) returns (ex: Option<Exception>)
      modifies this
      ensures Outcome(State(), ex) == HandleF(old(State()), packet)
    {
      if packet.tag == PLAYER_IDENT {
        ex := HandleIdent(codec.readIdent(packet.payload));
      } else if packet.tag == CPE_EXT_INFO {
        var (software, declared) := codec.readExtInfo(packet.payload);
        ClientSoftware := software;
        if declared < |clientSupportedExtensions| {
          return Some(CapacityOutOfRange);
        }
        extCapacity := declared;
        return None;
      } else if packet.tag == CPE_EXT_ENTRY {
        ex := HandleExtEntry(codec.readExtEntry(packet.payload));
      } else if hasPlayer {
        Events := Events + [Forwarded(packet)];
        return None;
      } else {
        return None;
      }
    }

    method HandleIdent(id: Ident) returns (ex: Option<Exception>)
      modifies this
      ensures Outcome(State(), ex) == IdentF(old(State()), id)
    {
      clientName := id.name;
      var rejection := IdentRejection(server, id);
      if rejection.Some? {
        ex := Disconnect(rejection.value);
        return;
      }
      if id.unused == CPE_MAGIC {
        ex := SendAnnouncement();
      } else {
        ex := BeginIdent();
      }
    }

    /** The CPE announcement: ExtInfo, then one ExtEntry per server extension,
        stopping at the first exception. */
    method SendAnnouncement() returns (ex: Option<Exception>)
      modifies this
      ensures Outcome(State(), ex) == SendAll(old(State()), CpeAnnouncement(codec, server.software, server.extensions))
    {
      ghost var announcement := CpeAnnouncement(codec, server.software, server.extensions);
      ghost var entries := EntryFrames(codec, server.extensions);
      ghost var goal := SendAll(State(), announcement);
      assert announcement[1..] == entries;
      ghost var start := State();
      var info := Build(codec, ExtInfo(server.software, ToInt16(|server.extensions|)));
      assert goal == (var s := SendF(start, info, true); if s.error.Some? then s else SendAll(s.conn, entries));
      ex := Send(info, true);
      if ex.Some? {
        return;
      }
      ex := SendEntries();
    }

    /** One ExtEntry per server extension, in order, stopping at the first exception. */
    method SendEntries() returns (ex: Option<Exception>)
      modifies this
      ensures Outcome(State(), ex) == SendAll(old(State()), EntryFrames(codec, server.extensions))
    {
      ghost var entries := EntryFrames(codec, server.extensions);
      ghost var goal := SendAll(State(), entries);
      assert entries[0..] == entries;
      ex := None;
      var i := 0;
      while i < |server.extensions|
        invariant 0 <= i <= |server.extensions|
        invariant ex.None?
        invariant SendAll(State(), entries[i..]) == goal
      {
        assert entries[i..][1..] == entries[i + 1..];
        assert entries[i..][0] == Build(codec, ExtEntry(server.extensions[i].name, server.extensions[i].version));
        ex := Send(Build(codec, ExtEntry(server.extensions[i].name, server.extensions[i].version)), true);
        if ex.Some? {
          return;
        }
        i := i + 1;
      }
    }

    method HandleExtEntry(entry: Extension) returns (ex: Option<Exception>)
      modifies this
      ensures Outcome(State(), ex) == ExtEntryF(old(State()), entry)
    {
      extCapacity := CapacityAfterAdd(|clientSupportedExtensions|, extCapacity);
      clientSupportedExtensions := clientSupportedExtensions + [entry];
      if entry.name == CUSTOM_BLOCKS {
        SupportCustomBlocks := true;
      }
      if |clientSupportedExtensions| == extCapacity {
        if SupportCustomBlocks {
          ex := Send(Build(codec, CustomBlockSupportLevel(1)), true);
          if ex.Some? {
            return;
          }
        }
        ex := BeginIdent();
      } else {
        ex := None;
      }
    }

    method BeginIdent() returns (ex: Option<Exception>)
      modifies this
      ensures Outcome(State(), ex) == BeginIdentF(old(State()))
    {
      var op := server.isOp(clientName);
      ex := Send(Build(codec, ServerIdent(PROTOCOL_VERSION, server.serverName, server.motd,
                                         if op then USER_TYPE_OP else USER_TYPE_NORMAL)), true);
      if ex.Some? {
        return;
      }
      hasPlayer := true;
      Events := Events + [PlayerCreated(clientName, op)];
    }

    method Send(packet: Packet, checkPacketSize: bool) returns (ex: Option<Exception>)
      modifies this
      ensures Outcome(State(), ex) == SendF(old(State()), packet, checkPacketSize)
      decreases |sendResults|, 2
    {
      if !Connected {
        return None;
      }
      match codec.packetSize(packet.tag) {
        case None =>
          return Some(UnknownPacketType);
        case Some(size) =>
          if size != |packet.payload| && checkPacketSize {
            return Some(PacketSizeMismatch);
          }
      }
      var bytes := packet.Bytes();
      if |outBuffer| + |bytes| > MAX_OUT_BUF_SIZE {
        ex := Flush();
        if ex.Some? {
          return;
        }
      }
      if disposed {
        return Some(ObjectDisposed);
      }
      outBuffer := outBuffer + bytes;
      Sent := Sent + [packet];
      return None;
    }

    method Flush() returns (ex: Option<Exception>)
      modifies this
      ensures Outcome(State(), ex) == FlushF(old(State()))
      decreases |sendResults|, 1
    {
      if !Connected || |outBuffer| < 1 {
        return None;
      }
      ghost var c := State();
      var outcome := if sendResults == [] then Ok else sendResults[0];
      if sendResults != [] {
        sendResults := sendResults[1..];
      }
      assert State() == TakeResult(c);
      if outcome == Ok {
        Written := Written + [outBuffer];
      } else if outcome == WouldBlock {
      } else {
        ex := SendFailed(outcome);
        return;
      }
      outBuffer := [];
      return None;
    }

    /** The send failed: the connection is closed, and a client that has gone
        is marked disconnected first. */
    method SendFailed(e: SocketResult) returns (ex: Option<Exception>)
      modifies this
      ensures Outcome(State(), ex) == SendFailedF(old(State()), e)
      decreases |sendResults|, 4
    {
      if ClientGone(e) {
        Connected := false;
        ex := Disconnect(CLIENT_DISCONNECTED);
      } else {
        ex := Disconnect(SocketErrorReason(e));
      }
    }

    method Disconnect(reason: string) returns (ex: Option<Exception>)
      modifies this
      ensures Outcome(State(), ex) == DisconnectF(old(State()), reason)
      decreases |sendResults|, 3
    {
      if Connected {
        ex := Send(Build(codec, DisconnectPlayer(reason)), true);
        if ex.Some? {
          return;
        }
        ex := Flush();
        if ex.Some? {
          return;
        }
      }
      DestroyClient();
      Events := Events + [Broadcast(DepartureNotice(clientName, reason))];
      return None;
    }

    method DestroyClient()
      modifies this
      ensures State() == Destroyed(old(State()))
    {
      Connected := false;
      if hasPlayer {
        Events := Events + [PlayerDestroyed];
      }
      Events := Events + [ConnectionRemoved];
      disposed := true;
    }
  }
}
