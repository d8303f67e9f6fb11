# MCarmada world grid and client connection, modelled in Dafny

This project models two parts of MCarmada, a server for the Minecraft Classic
protocol and its CPE ("Classic Protocol Extension") negotiation.

- **The world grid** (`World.Level`, in `world.dfy`). This is a class over an
  `array<Block>` with fixed dimensions. Width is x, Depth is y (vertical) and
  Height is z. The cell (x, y, z) is stored at index `(y*Height + z)*Width + x`.
  The model covers:
  - the bounds predicate and the index formula;
  - reads that return air outside the grid;
  - writes that fail outside the grid;
  - the player-driven slab-stacking rule of `ChangeBlock`;
  - allocation to all-air and the `Generated` flag that silences side effects
    during generation;
  - the downward column scan `FindTopBlock` and the spawn point built on it;
  - the byte export.

  Calls that leave the grid are appended to a ghost event log: tick
  scheduling, block-change broadcasts, the plugin hook, the correction frame
  sent to the changing player, and the level-loaded hook.
- **The client connection** (`Network`, in `connection.dfy`). Each operation
  is a function from a connection state `Conn` to an `Outcome`: the new state
  plus the exception it raised, if any. The class `Network.ClientConnection`
  implements the same operations imperatively, with fields, loops and
  `modifies this`. Each method's `ensures` ties its effect to the matching
  function. The model covers:
  - the `Connected` lifecycle;
  - the drain loop and the fixed-size frame loop of `Receive`;
  - the identification checks and the CPE negotiation;
  - the 1 MiB outbound buffer with `Send` and `Flush`;
  - the disconnect sequence.

  The socket becomes data. `Receive` is given the outcome of each read of its
  drain loop. Each `socket.Send` takes the next outcome from a finite script,
  and once the script is used up every send succeeds. The server's
  collaborators are oracle fields of `ServerView`: name lookup,
  authentication, the whitelist, the op list and the extension list. What the
  connection does to the server is logged as `ServerEvent`s. Packets appended
  to the outbound buffer are logged in `sent`, and bytes handed to the socket
  in `written`.
- **The wire vocabulary** (`Protocol`, in `protocol.dfy`). It covers:
  - packets;
  - the packet size table and field codec, as oracle functions;
  - how a drained byte run is cut into frames;
  - the server's CPE announcement;
  - the growth rule of the .NET `List` whose `Capacity` holds the client's
    declared extension count.
- `connection_properties.dfy` proves properties that span several operations
  of the connection.

Some behaviour of the code differs from what the protocol suggests. The model
follows the code in each case:
- A frame cut short by the end of the drained input is not dropped. `Stream.Read`
  leaves the missing payload bytes zero, and the frame is handled like any
  other (`Protocol.SplitFrames`).
- A send that fails with WouldBlock empties the outbound buffer, just like a
  successful one. The bytes are lost, not queued.
- The client's declared extension count is the `Capacity` of its extension
  list. The list doubles when an entry arrives with no room left. As a result:
  - a client that declares 0 extensions never completes the negotiation
    unless it sends 4 entries;
  - a declared count below the entries already recorded raises an exception.
- A send that fails with an error other than a reset, an abort or a shutdown
  disconnects while `Connected` is still true. The disconnect then sends its
  own frame and flushes again, so each failing send nests one more
  disconnect.

## Model

| member | source | states |
|---|---|---|
| `World.ToByte` | MCarmada/World/Level.cs:252 | The `(byte)` cast keeps the value modulo 256. |
| `World.Level.IsValidBlock` | MCarmada/World/Level.cs:147-150 | A coordinate is inside the grid iff 0 <= x < Width, 0 <= y < Depth and 0 <= z < Height: y is the vertical axis, bounded by Depth. |
| `World.Level.GetBlockIndex` | MCarmada/World/Level.cs:152-155 | For every coordinate inside the grid, the y-major index lies in [0, Width*Height*Depth), the size of the block array. |
| `World.Level.Cell` | MCarmada/World/Level.cs:147-155 | What a read of (x, y, z) sees: the block at the coordinate's index inside the grid, and air outside it. `ReadAfterWrite` relates it to `Write`. |
| `World.Level.Write` | MCarmada/World/Level.cs:157-176 | A write inside the grid stores the block at the coordinate's index and leaves every other index as it was; a write outside the grid changes nothing. |
| `World.Level.CoordinateOf` | MCarmada/World/Level.cs:152-155 | Every index of the array is the index of exactly one in-bounds coordinate, which this returns. |
| `World.Level.IndexRoundTrip` | MCarmada/World/Level.cs:152-155 | Decoding the index of an in-bounds coordinate gives the coordinate back. |
| `World.Level.IndexInjective` | MCarmada/World/Level.cs:147-155 | Distinct in-bounds coordinates get distinct indices. |
| `World.Level.ReadAfterWrite` | MCarmada/World/Level.cs:157-176 | After a write, its own coordinate reads the written block when in bounds; every other coordinate reads what it read before. |
| `World.Level.GenerationOnlyHooks` | MCarmada/World/Level.cs:136-145 | While the level is not yet generated, writes fire only the plugin hook: no tick and no broadcast. |
| `World.Level.constructor` | MCarmada/World/Level.cs:75-100 | A new level has the given dimensions, all-air cells overwritten by the generator's writes, `Generated` set, and the generation hooks then the level-loaded hook in its log. |
| `World.Level.FromSaved` | MCarmada/World/Level.cs:102-121 | A loaded level uses the saved block array, is already generated, and fires only the level-loaded hook. |
| `World.Level.Init` | MCarmada/World/Level.cs:123-134 | Allocates Width*Height*Depth cells, all air, then runs generation with `Generated` cleared. |
| `World.Level.Generate` | MCarmada/World/Level.cs:136-145 | Applies the generator's writes in order while not generated, then sets `Generated`. |
| `World.Level.SetBlock` | MCarmada/World/Level.cs:157-176 | Returns true iff the coordinate is in bounds. It writes only that cell, updates the modification time, schedules a tick and broadcasts only when generated, and always calls the plugin hook. Out of bounds nothing changes. |
| `World.Level.StacksSlab` | MCarmada/World/Level.cs:181-207 | The slab-stacking condition: the placed block is a slab and the cell below it reads as a slab. `ChangeBlock`'s contract states what follows from it. |
| `World.Level.ChangeBlock` | MCarmada/World/Level.cs:181-207 | Out of bounds: false, no effect. Slab on slab: the changer gets the former value of (x,y,z), the cell below becomes the full slab type through SetBlock, and (x,y,z) is unchanged. The modification time becomes `now` exactly when the cell below is in bounds. Otherwise it is SetBlock(x, y, z, block), with the access time set to `now` by the two reads. |
| `World.Level.GetBlock` | MCarmada/World/Level.cs:209-218 | Out of bounds: air, with the access time untouched. In bounds: the cell at `(y*Height+z)*Width+x`, with the access time updated. |
| `World.Level.GetPlayerSpawn` | MCarmada/World/Level.cs:220-232 | Given draws the random source could produce and a drawn column that holds a block, the spawn is within 9 of the horizontal centre, two cells above the column's top block. |
| `World.Level.FindTopBlock` | MCarmada/World/Level.cs:234-244 | On a column with a block, returns the greatest y whose cell is not air. Every cell from there up to y = Depth reads air. |
| `World.Level.NarrowWorldDrawsOffGrid` | MCarmada/World/Level.cs:220-241 | On a world narrower than 18 cells in x or z, radius 9 allows a draw one or more cells off the grid. Every cell of that column reads air, so the top-block scan never stops. |
| `World.Level.BlocksAsByteArray` | MCarmada/World/Level.cs:246-256 | A fresh array of the same length with `output[i] == (byte)Blocks[i]` for every i. |
| `Protocol.ToInt16` | MCarmada/Network/ClientConnection.cs:171 | The `(short)` cast agrees with its argument modulo 2^16 and is the identity on the short range. |
| `Protocol.SplitFrames` | MCarmada/Network/ClientConnection.cs:100-116 | Every frame is a known header byte followed by exactly the table's payload size. Empty input gives no frames. |
| `Protocol.SplitFramesCoversInput` | MCarmada/Network/ClientConnection.cs:100-116 | The frames laid end to end give back the input. Either zero padding completes a truncated last frame, or the frames stop just before a header the table does not know. |
| `Protocol.EntryFrames` | MCarmada/Network/ClientConnection.cs:174-180 | One ExtEntry packet per server extension, in list order. |
| `Protocol.CpeAnnouncement` | MCarmada/Network/ClientConnection.cs:167-181 | One ExtInfo carrying the software name and the count of extensions, then exactly that many ExtEntry packets in list order. |
| `Protocol.CapacityAfterAdd` | MCarmada/Network/ClientConnection.cs:201 | An Add keeps the capacity while there is room. Otherwise it grows to 4 from empty, or doubles. It is always at least the new count. |
| `Protocol.DeclaredCountHeld` | MCarmada/Network/ClientConnection.cs:194-208 | With n >= 1 declared, the capacity stays n while entries arrive, so the count meets it exactly at the n-th entry. |
| `Protocol.DeclaredZeroMeetsAtFour` | MCarmada/Network/ClientConnection.cs:194-208 | With 0 declared, the count meets the capacity only at the 4th entry. |
| `Protocol.OverfullDoubles` | MCarmada/Network/ClientConnection.cs:201-208 | An entry beyond the n declared doubles the capacity to 2n. |
| `Network.IdentRejection` | MCarmada/Network/ClientConnection.cs:143-165 | The checks run in a fixed order: version 0x07, name not online, authentication, whitelist when enforced. The first failure gives its reason, and None means all passed. |
| `Network.Initial` | MCarmada/Network/ClientConnection.cs:40-51 | A new connection is connected and satisfies the connection invariant. |
| `Network.SendF` | MCarmada/Network/ClientConnection.cs:240-262 | No-op when disconnected. It raises on an unknown header, or on a size mismatch when checking. It flushes first when the buffer would pass 1 MiB, then appends the packet's bytes at the end of the buffer. |
| `Network.FlushF` | MCarmada/Network/ClientConnection.cs:272-313 | No-op when disconnected or empty. After a send or WouldBlock the buffer is empty. Reset, abort or shutdown clear `Connected` and disconnect. |
| `Network.SendFailedF` | MCarmada/Network/ClientConnection.cs:297-309 | A failed send closes the connection. When the client has gone, `Connected` is cleared first. Once closed, the connection is disposed unless an exception was raised. |
| `Network.Destroyed` | MCarmada/Network/ClientConnection.cs:332-346 | Tear-down clears `Connected`, destroys the player if there is one, and removes the connection from the server. |
| `Network.DisconnectF` | MCarmada/Network/ClientConnection.cs:315-330 | A connected client is sent the DisconnectPlayer frame carrying the reason. Then the connection is torn down and the departure notice is broadcast. |
| `Network.Farewell` | MCarmada/Network/ClientConnection.cs:317-323 | A connected client is sent the farewell packet and the buffer is flushed. The packet sits right after what was sent before. A closed connection is left unchanged. |
| `Network.Departed` | MCarmada/Network/ClientConnection.cs:325-329 | Tear-down leaves the connection closed and disposed. The last two events are the removal from the server and then the departure notice. |
| `Network.BeginIdentF` | MCarmada/Network/ClientConnection.cs:226-238 | Sends the server identification, then creates the player with the operator flag from the op list. |
| `Network.IdentF` | MCarmada/Network/ClientConnection.cs:132-186 | Records the name. Extension state and the input buffer are unchanged. |
| `Network.ExtInfoF` | MCarmada/Network/ClientConnection.cs:187-195 | Records the client software. The declared count becomes the capacity, or raises when it is below the entries held. Nothing else changes. |
| `Network.ExtEntryF` | MCarmada/Network/ClientConnection.cs:196-219 | Appends the entry in arrival order. CustomBlocks support becomes true iff this or an earlier entry is CustomBlocks. |
| `Network.HandleF` | MCarmada/Network/ClientConnection.cs:130-224 | Dispatch on the header byte keeps the connection invariant. Once closed, a connection stays closed. |
| `Network.HasCustomBlocksAppend` | MCarmada/Network/ClientConnection.cs:201-206 | After appending an entry, the list has CustomBlocks iff it had it before or the new entry is CustomBlocks. |
| `Network.ProcessFramesEvolves` | MCarmada/Network/ClientConnection.cs:100-116 | Handling frames in order keeps the connection invariant and never reopens a closed connection. |
| `Network.Gather` | MCarmada/Network/ClientConnection.cs:67-93 | The drain loop stops at the first read that fails other than by blocking, or after the last read. |
| `Network.DroppedF` | MCarmada/Network/ClientConnection.cs:81-91 | A failed read keeps the invariant and never reopens a closed connection; that it closes the connection is `ReadFailureCloses`. |
| `Network.ParsedF` | MCarmada/Network/ClientConnection.cs:94-127 | Parsing the drained buffer keeps the invariant and never reopens a closed connection. |
| `Network.ProcessFrames` | MCarmada/Network/ClientConnection.cs:98-124 | For any packet handler: a run that ends with nothing raised and the connection open has consumed the whole input buffer. |
| `Network.AfterFrame` | MCarmada/Network/ClientConnection.cs:110-124 | After one handled frame: an exception becomes a read-error disconnect, a closed connection stops the run, and a run that ends open has consumed the input buffer. |
| `Network.ParseFrom` | MCarmada/Network/ClientConnection.cs:98-124 | The position-based parse loop, for any handler: a run that ends with nothing raised and the connection open has consumed the whole input buffer. |
| `Network.ParseAfter` | MCarmada/Network/ClientConnection.cs:110-124 | The parse loop after one frame: a run that ends with nothing raised and the connection open has consumed the input buffer. |
| `Network.ParseFollowsSplit` | MCarmada/Network/ClientConnection.cs:94-124 | The position-based parse loop handles exactly the frames `SplitFrames` cuts, in order. It stops at the first frame that closes the connection. |
| `Network.DrainF` | MCarmada/Network/ClientConnection.cs:66-124 | Draining keeps the invariant and never reopens a closed connection; what each kind of read does is stated by `GatherCollects`, `ReceiveFaults` and `ReadFailureCloses`. |
| `Network.ReceiveF` | MCarmada/Network/ClientConnection.cs:53-128 | No-op when disconnected or when nothing is available. Otherwise it empties the input buffer, drains and parses. It keeps the invariant. |
| `Network.ClientConnection.constructor` | MCarmada/Network/ClientConnection.cs:40-51 | The object starts in the initial connected state. |
| `Network.ClientConnection.Receive` | MCarmada/Network/ClientConnection.cs:53-128 | The drain loop's new state and exception are those of `ReceiveF`. |
| `Network.ClientConnection.Drain` | MCarmada/Network/ClientConnection.cs:67-127 | The new state and exception are those of `DrainF`. |
| `Network.ClientConnection.TakeReads` | MCarmada/Network/ClientConnection.cs:67-93 | The loop leaves the input buffer and the stopping read as `Gather` says. Nothing else changes. |
| `Network.ClientConnection.Dropped` | MCarmada/Network/ClientConnection.cs:81-91 | The new state and exception are those of `DroppedF`. |
| `Network.ClientConnection.ParseBuffer` | MCarmada/Network/ClientConnection.cs:94-127 | The new state and exception are those of `ParsedF`. |
| `Network.ClientConnection.ParseFrames` | MCarmada/Network/ClientConnection.cs:94-127 | The frame loop over the drained buffer follows the parse specification from position 0. |
| `Network.ClientConnection.ParseFrame` | MCarmada/Network/ClientConnection.cs:100-116 | One pass reads a header, the table's payload size (zero-filled past the end) and handles the packet. |
| `Network.ClientConnection.HandlePacket` | MCarmada/Network/ClientConnection.cs:130-224 | The new state and exception are those of `HandleF`. |
| `Network.ClientConnection.HandleIdent` | MCarmada/Network/ClientConnection.cs:132-186 | The checks, then the CPE announcement for a CPE client, otherwise BeginIdent. The result is that of `IdentF`. |
| `Network.ClientConnection.SendAnnouncement` | MCarmada/Network/ClientConnection.cs:167-180 | ExtInfo, then the entries. The result is that of sending the CPE announcement packet by packet, stopping at the first exception. |
| `Network.ClientConnection.SendEntries` | MCarmada/Network/ClientConnection.cs:174-180 | One ExtEntry per server extension, in table order. The result is that of `SendAll` over the entry frames. |
| `Network.ClientConnection.HandleExtEntry` | MCarmada/Network/ClientConnection.cs:196-219 | The new state and exception are those of `ExtEntryF`. |
| `Network.ClientConnection.BeginIdent` | MCarmada/Network/ClientConnection.cs:226-238 | The new state and exception are those of `BeginIdentF`. |
| `Network.ClientConnection.Send` | MCarmada/Network/ClientConnection.cs:240-262 | The new state and exception are those of `SendF`. |
| `Network.ClientConnection.Flush` | MCarmada/Network/ClientConnection.cs:272-313 | The new state and exception are those of `FlushF`. |
| `Network.ClientConnection.SendFailed` | MCarmada/Network/ClientConnection.cs:297-309 | The new state and exception are those of `SendFailedF`. |
| `Network.ClientConnection.Disconnect` | MCarmada/Network/ClientConnection.cs:315-330 | The new state and exception are those of `DisconnectF`. |
| `Network.ClientConnection.DestroyClient` | MCarmada/Network/ClientConnection.cs:332-346 | The new state is that of `Destroyed`. |
| `ConnectionProperties.SendRaisesOnlyDisposal` | MCarmada/Network/ClientConnection.cs:247-261 | A packet the server builds can fail only with ObjectDisposed. That happens when the flush tore the connection down, and the server was told. |
| `ConnectionProperties.FlushRaisesOnlyDisposal` | MCarmada/Network/ClientConnection.cs:279-312 | A flush can raise only ObjectDisposed. A flush that tears down a connected session removes it from the server. |
| `ConnectionProperties.DisconnectCloses` | MCarmada/Network/ClientConnection.cs:315-346 | A disconnect always ends with `Connected` false, the connection disposed and removed from the server. |
| `ConnectionProperties.SendAppends` | MCarmada/Network/ClientConnection.cs:253-261 | With room in the buffer, a packet is appended at its end and nothing else changes. |
| `ConnectionProperties.SendFlushesBeforeOverflow` | MCarmada/Network/ClientConnection.cs:256-261 | A packet that would pass 1 MiB first hands the old buffer to the socket. The buffer then holds just that packet. |
| `ConnectionProperties.SendKeepsBufferBound` | MCarmada/Network/ClientConnection.cs:18 | A successful send of a packet within 1 MiB keeps the buffer within 1 MiB. |
| `ConnectionProperties.UncheckedSendSkipsSizeCheck` | MCarmada/Network/ClientConnection.cs:247 | With `checkPacketSize` false, a packet of a known header is appended whatever its length. |
| `ConnectionProperties.FailingSocketNestsDisconnects` | MCarmada/Network/ClientConnection.cs:304-323 | n failed sends of another kind make n nested disconnects. The client is sent the reason n times, and the connection ends closed iff n > 0. |
| `ConnectionProperties.DisconnectAfterFlush` | MCarmada/Network/ClientConnection.cs:317-325 | A connected disconnect appends its frame and flushes. It ends closed with what the flush sent. |
| `ConnectionProperties.FlushToGoneClientCloses` | MCarmada/Network/ClientConnection.cs:297-303 | When the client is gone, the flush closes the connection without sending anything more, and broadcasts the departure. |
| `ConnectionProperties.FlushWouldBlockDiscards` | MCarmada/Network/ClientConnection.cs:293-296 | WouldBlock empties the buffer without writing it and keeps the connection open. |
| `ConnectionProperties.FlushOtherErrorNamesIt` | MCarmada/Network/ClientConnection.cs:304-309 | Any other socket error disconnects with a reason that names the error code. |
| `Network.SendAll` | MCarmada/Network/ClientConnection.cs:172-180 | Sending packets one after the other, stopping at the first exception, keeps the invariant, never reopens a closed connection, and stays in the same session. |
| `ConnectionProperties.SendAllAppends` | MCarmada/Network/ClientConnection.cs:172-180 | Packets that match the table and fit are appended in order, and nothing is written to the socket. |
| `ConnectionProperties.IdentRejected` | MCarmada/Network/ClientConnection.cs:143-165 | An identification that fails a check closes the connection with that check's reason, which is sent first. |
| `ConnectionProperties.AnnouncementMatchesTable` | MCarmada/Network/ClientConnection.cs:167-181 | Every packet of the CPE announcement matches the size table. |
| `ConnectionProperties.CpeClientGetsAnnouncement` | MCarmada/Network/ClientConnection.cs:139-181 | An accepted client with unused byte 0x42 is sent ExtInfo with the extension count, then one ExtEntry per extension. No player is created yet. |
| `ConnectionProperties.ClassicClientBeginsIdent` | MCarmada/Network/ClientConnection.cs:182-185 | An accepted client without CPE goes straight to BeginIdent. |
| `ConnectionProperties.BeginIdentSendsServerIdent` | MCarmada/Network/ClientConnection.cs:226-238 | The server identification carries version 7, name and MOTD, and user type 0x64 for operators, else 0. The player is then created. |
| `ConnectionProperties.ExtInfoDeclares` | MCarmada/Network/ClientConnection.cs:187-195 | ExtInfo sets the software and capacity, or raises when the count is below the entries held. It sends nothing. |
| `ConnectionProperties.ExtEntryRecorded` | MCarmada/Network/ClientConnection.cs:196-207 | The entry is recorded after the earlier ones. Until the count meets the capacity nothing is sent. |
| `ConnectionProperties.NegotiationCompletes` | MCarmada/Network/ClientConnection.cs:208-218 | When the count meets the capacity, one CustomBlockSupportLevel frame (level 1) is sent iff CustomBlocks was seen, then the server identification, and the player is created. |
| `ConnectionProperties.EntryRecordedOnly` | MCarmada/Network/ClientConnection.cs:196-208 | An entry that leaves the count below the capacity is only recorded. |
| `ConnectionProperties.NegotiationWaits` | MCarmada/Network/ClientConnection.cs:196-218 | Fewer entries than declared are only recorded: nothing is sent and no player is created. |
| `ConnectionProperties.NegotiationCompletesAfterDeclared` | MCarmada/Network/ClientConnection.cs:194-218 | Exactly the declared number of entries completes the negotiation with the support level iff CustomBlocks is among them, then the server identification. |
| `ConnectionProperties.ReceiveWhenClosed` | MCarmada/Network/ClientConnection.cs:55-59 | A disconnected connection's receive changes nothing. |
| `ConnectionProperties.HandleForwards` | MCarmada/Network/ClientConnection.cs:220-223 | Once there is a player, non-handshake packets go to it. |
| `ConnectionProperties.ProcessForwardsInOrder` | MCarmada/Network/ClientConnection.cs:100-116 | Player frames are forwarded in arrival order and the input buffer is emptied. |
| `ConnectionProperties.ReceiveForwardsInOrder` | MCarmada/Network/ClientConnection.cs:53-127 | One read of player frames forwards them frame by frame and leaves the input empty. |
| `ConnectionProperties.ReceiveUnknownHeader` | MCarmada/Network/ClientConnection.cs:102-123 | Input whose first header the table does not know disconnects with "Unexpected error reading packets.". |
| `ConnectionProperties.ReceiveFaults` | MCarmada/Network/ClientConnection.cs:75-91 | A reset or aborted read closes without sending anything. A shutdown read is an unexpected error whose reason is sent. |
| `ConnectionProperties.ReadFailureCloses` | MCarmada/Network/ClientConnection.cs:75-91 | Every failed read other than WouldBlock leaves the connection closed, and any other socket error disconnects with the reason "An unexpected socket error occured (<error>)". |
| `ConnectionProperties.ProcessCompletesOrCloses` | MCarmada/Network/ClientConnection.cs:98-127 | After the frame loop, the connection is either closed, or open with nothing raised and the input consumed. |
| `ConnectionProperties.ReceiveCompletesOrCloses` | MCarmada/Network/ClientConnection.cs:53-128 | After a receive, an open connection raised nothing and has consumed its input. |
| `ConnectionProperties.DrainCompletesOrCloses` | MCarmada/Network/ClientConnection.cs:66-127 | The same holds from any point of the drain loop. |
| `ConnectionProperties.GatherCollects` | MCarmada/Network/ClientConnection.cs:67-93 | No read before the stopping one fails. The buffer holds the old contents followed by the data of every read before the stop, in order. |
| `ConnectionProperties.InvariantKept` | MCarmada/Network/ClientConnection.cs:40-51 | The invariant holds of a new connection: entries never exceed the capacity, and CustomBlocks support matches the entries. |

## Left out

- Socket I/O is replaced by data: the drain loop's read outcomes and a finite script of send outcomes. Partial sends are not modelled; the source ignores the count `socket.Send` returns too.
- Network.ClientConnection.Flush: the finite send script bounds the Send, Flush and Disconnect recursion. A socket that fails forever would make the source recurse without bound, and the model cannot express that; `FailingSocketNestsDisconnects` shows the recursion for any finite n.
- World.Level.FindTopBlock: requires a column that holds a block. On an all-air or out-of-bounds column every read, including those below y = 0, sees air, so the source's scan never ends; `NarrowWorldDrawsOffGrid` shows the spawn point can draw such a column.
- World.Level.GetPlayerSpawn: the draws of `Rng.Next` are parameters constrained to the ranges `Random.Next` returns; the random source itself is not modelled. The member also requires the drawn column to hold a block, because on a column without one the source's top-block scan never stops. This includes an all-air column inside the grid. It also includes off-grid draws, which the ranges allow on worlds narrower than 18 cells in x or z (`World.Level.NarrowWorldDrawsOffGrid`).
- The timestamps from `TimeUtil` are a `now` parameter. The seed, GUID, name, settings and the elapsed-time log of generation are not modelled.
- The world generator strategies are a list of placements written through `SetBlock`.
- `BlockConfig.IsBlockSlab` and `BlockConfig.GetFullSlabType` are function parameters.
- `ScheduleBlockTick`, the broadcast, the plugin hooks and the correction frame sent to the changer are ghost log entries. The scheduled-tick queue and persistence live in other parts of `Level` that are not part of this model.
- The environment packets (`InformPlayerOfEnvironment`, `InformEveryoneOfEnvironment`) and the `Weather` setter only build and broadcast packets; they are not modelled.
- `PacketType.GetPacketSize` is a partial table. An unknown header raises, in both `Receive` and `Send`. The field writers and readers of `Packet` are oracle functions, and the frames the server builds are assumed to match the table (`WellFormed`).
- `Player` is a flag plus log entries: its creation, its destruction and the packets forwarded to it. What `player.SendLevel()` sends is not modelled. The player's own packet handling is assumed never to touch the connection: a forwarded packet only appends a log entry, so in the model it can neither send, raise nor close the connection. The re-check of `Connected` after each handled packet (ClientConnection.cs:111-115) is modelled, but a player closing the connection never triggers it. `ConnectionProperties.ProcessForwardsInOrder` and `ConnectionProperties.ReceiveForwardsInOrder` rely on this assumption.
- The server's `isOnline` lookup is a fixed oracle for the connection's whole life. The player created by `CreatePlayer` does not join it, so a second identification on the same connection is not rejected as a duplicate name, although the server would reject it.
- World.Level.constructor: requires non-negative dimensions whose product fits in an int32. Level.cs:75-125 checks neither. The source's failure paths are not modelled: C# `Width * Height * Depth` wraps past the int32 range, a negative size makes `new Block[...]` throw OverflowException, and a wrapped positive size makes `SetBlock` throw IndexOutOfRange during generation.
- World.Level.FromSaved: requires the same dimension bounds as the constructor, and a block array of exactly `w*h*d` cells. Level.cs:102-121 checks neither. A saved array of another length is not modelled. In the source, a shorter array makes in-bounds reads and writes throw IndexOutOfRange. A longer one has cells no coordinate reaches, and the byte export still includes them.
- The ObjectDisposed exceptions of disposed streams are modelled only for the outbound buffer write in `Send`, the one place the code can reach it.
- The `List` growth rule leaves out .NET's maximum array length.
- Logging (NLog), `Program.cs` and `Settings.cs` are not part of this model.
