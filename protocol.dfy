/**
 * The wire vocabulary a client connection speaks: packets (a header byte and a
 * fixed-size payload), the messages the connection builds itself, the packet
 * codec it relies on, how a drained run of bytes splits into frames, how the
 * server announces its protocol extensions (CPE) and how the list of the
 * client's extensions grows.
 *
 * The size table and the field encoders and decoders are collaborators that
 * are not part of this model: they appear as the function fields of `Codec`.
 */
module Protocol {
  import opened Common

  // Header bytes of the Classic protocol and of its CPE extension set.
  const PLAYER_IDENT: byte := 0x00
  const SERVER_IDENT: byte := 0x00
  const DISCONNECT_PLAYER: byte := 0x0e
  const CPE_EXT_INFO: byte := 0x10
  const CPE_EXT_ENTRY: byte := 0x11
  const CPE_CUSTOM_BLOCK_SUPPORT_LEVEL: byte := 0x13

  /** The protocol version a client must announce. */
  const PROTOCOL_VERSION: byte := 0x07
  /** The value of the identification's unused byte by which a client asks for CPE. */
  const CPE_MAGIC: byte := 0x42
  /** The user type sent to operators in the server identification. */
  const USER_TYPE_OP: byte := 0x64
  const USER_TYPE_NORMAL: byte := 0x00

  const CUSTOM_BLOCKS: string := "CustomBlocks"

  /** The outbound buffer's ceiling, 1 MiB. */
  const MAX_OUT_BUF_SIZE: nat := 1 * 1024 * 1024

  /** A packet: its header byte and the payload written after it. */
  datatype Packet = Packet(tag: byte, payload: seq<byte>)
  {
    /** The bytes that go on the wire. */
    function Bytes(): (r: seq<byte>)
      ensures |r| == 1 + |payload| && r[0] == tag && r[1..] == payload
    {
      [tag] + payload
    }
  }

  /** One protocol extension: its name and version. */
  datatype Extension = Extension(name: string, version: int)

  /** The messages the connection builds itself. */
  datatype Message =
    | ExtInfo(software: string, count: int16)
    | ExtEntry(name: string, version: int)
    | CustomBlockSupportLevel(level: byte)
    | ServerIdent(protocolVersion: byte, serverName: string, motd: string, userType: byte)
    | DisconnectPlayer(reason: string)

  function Tag(m: Message): byte
  {
    match m
    case ExtInfo(_, _) => CPE_EXT_INFO
    case ExtEntry(_, _) => CPE_EXT_ENTRY
    case CustomBlockSupportLevel(_) => CPE_CUSTOM_BLOCK_SUPPORT_LEVEL
    case ServerIdent(_, _, _, _) => SERVER_IDENT
    case DisconnectPlayer(_) => DISCONNECT_PLAYER
  }

  /** The fields of a client's identification frame. */
  datatype Ident = Ident(version: byte, name: string, key: string, unused: byte)

  /** The packet size table and the field encoders and decoders. */
  datatype Codec = Codec(
    /** The payload size of each known header byte; None for a header the table does not know. */
    packetSize: byte -> Option<nat>,
    /** The payload the field writes of a message produce. */
    encode: Message -> seq<byte>,
    readIdent: seq<byte> -> Ident,
    readExtInfo: seq<byte> -> (string, int16),
    readExtEntry: seq<byte> -> Extension)

  /** The frames the server builds itself match the size table. */
  ghost predicate WellFormed(codec: Codec)
  {
    forall m: Message :: codec.packetSize(Tag(m)) == Some(|codec.encode(m)|)
  }

  /** The packet the connection builds for a message. */
  function Build(codec: Codec, m: Message): (p: Packet)
    ensures p.tag == Tag(m)
    ensures WellFormed(codec) ==> codec.packetSize(p.tag) == Some(|p.payload|)
  {
    Packet(Tag(m), codec.encode(m))
  }

  /** C#'s unchecked `(short)` conversion. */
  function ToInt16(n: int): (r: int16)
    ensures (n - r) % 0x1_0000 == 0
    ensures -0x8000 <= n < 0x8000 ==> r == n
  {
    (n + 0x8000) % 0x1_0000 - 0x8000
  }

  // ---------------------------------------------------------------------------
  // Framing of drained input

  function Zeros(n: nat): (r: seq<byte>)
    ensures |r| == n && forall i :: 0 <= i < n ==> r[i] == 0
  {
    seq(n, _ => 0)
  }

  function Min(a: int, b: int): int
  {
    if a <= b then a else b
  }

  /** The frames a run of drained bytes is cut into, and whether the cutting
      stopped at a header byte the size table does not know. */
  datatype Split = Split(frames: seq<seq<byte>>, unknownTag: bool)

  /** Each frame is its header byte followed by exactly the table's payload size
      in bytes; a final frame cut short by the end of the input is completed
      with zero bytes. */
  function SplitFrames(packetSize: byte -> Option<nat>, input: seq<byte>): (r: Split)
    ensures forall f :: f in r.frames ==> |f| >= 1 && packetSize(f[0]) == Some(|f| - 1)
    ensures input == [] ==> r == Split([], false)
    decreases |input|
  {
    if input == [] then Split([], false)
    else match packetSize(input[0])
      case None => Split([], true)
      case Some(size) =>
        var available := Min(size, |input| - 1);
        var frame := input[..1 + available] + Zeros(size - available);
        var rest := SplitFrames(packetSize, input[1 + available..]);
        Split([frame] + rest.frames, rest.unknownTag)
  }

  function Flatten(frames: seq<seq<byte>>): seq<byte>
  {
    if frames == [] then [] else frames[0] + Flatten(frames[1..])
  }

  /** The frames laid end to end give back the input: followed by the zero
      padding of a truncated last frame, or up to the unknown header byte. */
  lemma {:induction false} SplitFramesCoversInput(packetSize: byte -> Option<nat>, input: seq<byte>)
    ensures Covers(packetSize, input, SplitFrames(packetSize, input))
    decreases |input|
  {
    if input != [] && packetSize(input[0]).Some? {
      var size := packetSize(input[0]).value;
      var available := Min(size, |input| - 1);
      var frame := input[..1 + available] + Zeros(size - available);
      var tail := input[1 + available..];
      var rest := SplitFrames(packetSize, tail);
      var r := SplitFrames(packetSize, input);
      assert r == Split([frame] + rest.frames, rest.unknownTag);
      FlattenCons(frame, rest.frames);
      if available < size {
        assert tail == [];
        assert Flatten(r.frames) == frame;
        assert frame[..|input|] == input;
      } else {
        assert input == frame + tail;
        SplitFramesCoversInput(packetSize, tail);
        PrefixThenRest(packetSize, frame, tail, rest);
      }
    }
  }

  /** The coverage property of a split of `input`. */
  ghost predicate Covers(packetSize: byte -> Option<nat>, input: seq<byte>, r: Split)
  {
    var flat := Flatten(r.frames);
    if r.unknownTag then
      |flat| < |input| && flat == input[..|flat|] && packetSize(input[|flat|]) == None
    else
      |flat| >= |input| && flat[..|input|] == input
      && forall i :: |input| <= i < |flat| ==> flat[i] == 0
  }

  lemma FlattenCons(frame: seq<byte>, frames: seq<seq<byte>>)
    ensures Flatten([frame] + frames) == frame + Flatten(frames)
  {
    assert ([frame] + frames)[1..] == frames;
  }

  /** A whole first frame followed by a covering split of the rest covers the lot. */
  lemma PrefixThenRest(packetSize: byte -> Option<nat>, frame: seq<byte>, tail: seq<byte>, rest: Split)
    requires Covers(packetSize, tail, rest)
    ensures Covers(packetSize, frame + tail, Split([frame] + rest.frames, rest.unknownTag))
  {
    FlattenCons(frame, rest.frames);
    var input := frame + tail;
    var restFlat := Flatten(rest.frames);
    var flat := frame + restFlat;
    if rest.unknownTag {
      assert flat == input[..|flat|];
      assert input[|flat|] == tail[|restFlat|];
    } else {
      assert flat[..|input|] == frame + restFlat[..|tail|];
      forall i | |input| <= i < |flat|
        ensures flat[i] == 0
      {
        assert flat[i] == restFlat[i - |frame|];
      }
    }
  }

  // ---------------------------------------------------------------------------
  // The server's CPE announcement

  /** The ExtEntry packets for a list of extensions, in list order. */
  function EntryFrames(codec: Codec, extensions: seq<Extension>): (r: seq<Packet>)
    ensures |r| == |extensions|
    ensures forall i :: 0 <= i < |extensions| ==>
              r[i] == Build(codec, ExtEntry(extensions[i].name, extensions[i].version))
  {
    if extensions == [] then []
    else
      var last := extensions[|extensions| - 1];
      EntryFrames(codec, extensions[..|extensions| - 1]) + [Build(codec, ExtEntry(last.name, last.version))]
  }

  /** What a CPE client is sent after its identification is accepted: one
      ExtInfo carrying the server software's name and the (short) count of its
      extensions, then one ExtEntry per extension. */
  function CpeAnnouncement(codec: Codec, software: string, extensions: seq<Extension>): (r: seq<Packet>)
    ensures |r| == |extensions| + 1
    ensures r[0] == Build(codec, ExtInfo(software, ToInt16(|extensions|)))
    ensures r[0].tag == CPE_EXT_INFO && forall i :: 1 <= i < |r| ==> r[i].tag == CPE_EXT_ENTRY
    ensures r[1..] == EntryFrames(codec, extensions)
  {
    [Build(codec, ExtInfo(software, ToInt16(|extensions|)))] + EntryFrames(codec, extensions)
  }

  // ---------------------------------------------------------------------------
  // The client's extension list (a .NET List<T>, whose Capacity holds the
  // declared extension count)

  /** A List<T> with no room left grows to 4 when empty and doubles otherwise. */
  const LIST_DEFAULT_CAPACITY: nat := 4

  /** The capacity of a List<T> after one Add: unchanged while there is room;
      otherwise 4 for an empty backing array, else twice the old capacity, and
      never less than the new count. */
  function CapacityAfterAdd(count: nat, capacity: nat): (r: nat)
    ensures count + 1 <= r
    ensures count < capacity ==> r == capacity
    ensures count == capacity ==> r == if capacity == 0 then LIST_DEFAULT_CAPACITY else 2 * capacity
  {
    if count < capacity then capacity
    else
      var grown := if capacity == 0 then LIST_DEFAULT_CAPACITY else 2 * capacity;
      if grown < count + 1 then count + 1 else grown
  }

  /** The capacity after k more Adds to a list of `count` entries and capacity `capacity`. */
  function CapacityAfterAdds(count: nat, capacity: nat, k: nat): (r: nat)
    requires count <= capacity
    ensures count + k <= r
    decreases k
  {
    if k == 0 then capacity
    else CapacityAfterAdds(count + 1, CapacityAfterAdd(count, capacity), k - 1)
  }

  /** The negotiation of a client declaring n >= 1 extensions: while the entries
      arrive, the capacity stays n, so the count meets it first at the n-th entry. */
  lemma {:induction false} DeclaredCountHeld(n: nat, k: nat)
    requires 1 <= n && k <= n
    ensures CapacityAfterAdds(0, n, k) == n
    ensures (k == CapacityAfterAdds(0, n, k)) <==> k == n
  {
    HeldWhileBelow(0, n, k);
  }

  lemma {:induction false} HeldWhileBelow(count: nat, capacity: nat, k: nat)
    requires count + k <= capacity
    ensures CapacityAfterAdds(count, capacity, k) == capacity
    decreases k
  {
    if k > 0 {
      HeldWhileBelow(count + 1, capacity, k - 1);
    }
  }

  /** A client declaring no extension leaves the capacity at 0; its first entry
      grows the list to 4, so the count meets the capacity only at the 4th entry. */
  lemma DeclaredZeroMeetsAtFour(k: nat)
    requires 1 <= k <= 4
    ensures CapacityAfterAdds(0, 0, k) == 4
    ensures (k == CapacityAfterAdds(0, 0, k)) <==> k == 4
  {
    HeldWhileBelow(1, 4, k - 1);
  }

  /** One entry beyond the n declared doubles the capacity, so the count meets it
      again once 2n entries have arrived. */
  lemma OverfullDoubles(n: nat)
    requires 1 <= n
    ensures CapacityAfterAdds(0, n, n + 1) == 2 * n
  {
    HeldWhileBelow(0, n, n);
    AddsSplit(0, n, n, 1);
  }

  lemma {:induction false} AddsSplit(count: nat, capacity: nat, j: nat, k: nat)
    requires count <= capacity
    ensures CapacityAfterAdds(count, capacity, j) >= count + j
    ensures CapacityAfterAdds(count, capacity, j + k)
            == CapacityAfterAdds(count + j, CapacityAfterAdds(count, capacity, j), k)
    decreases j
  {
    if j > 0 {
      AddsSplit(count + 1, CapacityAfterAdd(count, capacity), j - 1, k);
    }
  }

  /** Whether an extension list holds the CustomBlocks extension. */
  ghost predicate HasCustomBlocks(extensions: seq<Extension>)
  {
    exists i :: 0 <= i < |extensions| && extensions[i].name == CUSTOM_BLOCKS
  }
}
