# SupportProxy, modelled and proved in Dafny

SupportProxy connects a vehicle or ground station (the user side) with support engineers over UDP, TCP and
WebSocket, one process per port pair. This project models its stateful parts and proves what they keep in every
run. `dafny verify dfyconfig.toml` checks all of it.

Each part is written twice: as steps on values, with the properties proved as lemmas over arbitrary runs, and
as a class whose fields are changed in place like the program's, each method proved to refine its step. The drop
protocol, which several processes share, is a state machine over its interleaved steps; its database transactions
are methods too.

| files | part |
|---|---|
| `BinlogSpec`, `BinlogInvariants`, `BinlogResults`, `BinlogFiles`, `BinlogRotation`, `BinlogQuota`, `BinlogVehicle`, `BinlogPump`, `BinlogReboot`, `BinlogWriter` | the receiver of dataflash logs over MAVLink: sparse file, bitmap of seen blocks, ACK queue, NACK map, size caps, rotation on reboot |
| `Sha256Spec`, `Sha256Example`, `Sha256Constants`, `Sha256` | FIPS 180-4, its worked example and the origin of its constants, and the streaming hash that refines it |
| `WebSocketFrame`, `WebSocketBytes`, `WebSocketStream`, `WebSocket` | RFC 6455 frames, the same byte by byte, reassembly over any split into reads, and the endpoint with its 1024-byte buffer |
| `Slots`, `SlotReach`, `SlotLimits`, `SlotTable` | the support-engineer slots of the event loop |
| `Drops`, `ConnDb` | drop requests between the web UI and the processes |
| `Ports`, `PortList` | the parent's port list: reload, connection, child exit |
| `Signing`, `SigningLinks` | signing timestamps over links, saves and sessions |
| `Cleanup` | log retention and the 1 GiB quota of a port pair |
| `Registry`, `RegistryDb` | the database of port pairs and the web UI's add, edit and delete |
| `Bytes` | bytes, bits, numbers in network order and options |

## How to read the model

- Times are integers: microseconds for the binlog and signing clocks, which are past the epoch, and seconds
  elsewhere. 32-bit and 8-bit arithmetic is written out where the program relies on it; the 64-bit addition
  of the signing guard too.
- What a step cannot choose is its argument: the date, the outcome of an open, seek, write, send, bind, fork or
  unlink, the bytes a read returns, directory listings, and the iteration order of hash maps and databases.
- A binlog history records accepted blocks, ACKs, NACKs, STARTs and abandoned chases. It is what "ever" and
  "in order" refer to in the statements; the program does not keep it.
- `reaped` and `outside` (slots), `broken` (WebSocket), `held` and `termed` (ports), `marks`, `closes` and `signalled` (drops) and `top` (signing) are
  bookkeeping of the same kind.

## Where code and documentation differ

The model follows the code.

- `binlog.h:79-86` promises a rotation on a backward jump of at least 10 s and a new file at once. The comparison is
  32-bit, so a reading in the last ten seconds of the 49.7-day range can rotate too
  (`BinlogRotation.DetectsBackwardJumpExactlyWhen`), and the new file is opened only by the next seqno-0 block.
- The gate is meant to make every file begin with block 0; a failed opening write breaks that
  (`BinlogFiles.FirstBlockBreaksExactlyWhen`).
- `next_session_n` is meant to exceed all earlier numbers; session 4294967295 makes it return 0
  (`BinlogRotation.NextSessionExceeds`).
- `README.md:18` speaks of 8 engineers; the table has 100 slots. `conntdb.h:12` and `supportproxy.cpp:313` speak of a
  10 s heartbeat; the code uses 5 s.
- An engineer on UDP that times out is closed but not counted off, so the "BUG" exit, meant to be unreachable, is
  reachable (`SlotLimits.BugReachable`); `SlotLimits.BugExactlyWhen` says when. The check comes after a loop that
  has used `conn2[100]` already (`SlotLimits.BugAfterOutside`, `SlotLimits.InsideExactlyWhen`).
- A hangup can leave a live engineer out of reach of the loops (`SlotReach.ReachIsLost`).
- `decode` is meant to report an incomplete frame as -1. Its test adds in 64 bits, so a declared length within 14 of
  2^64 passes it, and the copy that follows leaves the buffer (`WebSocketFrame.LongestOverruns`,
  `WebSocketFrame.ProgramDecodesExactlyWhen`).
- A short write is not acknowledged, so that the vehicle sends the block again (`binlog.cpp:257`); when it repeats a
  block that was acknowledged before, it damages that block (`BinlogFiles.ShortWriteDamages`,
  `BinlogFiles.ShortWriteKeepsExactlyWhen`).
- A failed fork stores -1 as the entry's child. The entry is never served again (`Ports.FailedForkIsFinal`), and
  telling that child to end addresses every process (`Ports.FailedForkTellsAll`).
- The guard of 15 s is meant to rule out a replay after a restart; it does exactly while no link is advanced beyond
  it (`Signing.NoReplayExactlyWhen`, `Signing.BeyondTheGuard`).
- `sha256.cpp` is not in the list of files that `Makefile:15` compiles; it is modelled as it stands.

## Model

| member | source | states |
|---|---|---|
| BinlogResults.GapAccounting | binlog.cpp:270-332 | After any run every seqno from 1 to `highest_seen` is in the file, chased or given up; a chased seqno is below `highest_seen`, not in the file and not given up; a seqno is noticed missing at most once per session file |
| BinlogResults.BookChases | binlog.cpp:273-312 | Booking a block stops the chase for it and starts one for exactly the seqnos it jumped over, with the time of the block and "never sent" |
| BinlogResults.AckConservation | binlog.cpp:288-292 | In every run the accepted blocks of a session are, in order, the ACKs handed to the link followed by the queue or by what its rotation threw away; the totals over all sessions balance |
| BinlogResults.AckSoundness | binlog.cpp:246-291 | Only seqnos that are in the open file are ever queued or ACKed |
| BinlogResults.AcceptedExactlyWhen | binlog.cpp:197-292 | A block is accepted if and only if a file is open or seqno 0 opens one, it grows the file by at most 100 MiB, the port pair stays within 1 GiB, and all 200 bytes are written; otherwise history and ACK queue are untouched |
| BinlogResults.NackSpacing | binlog.cpp:418-436 | Within a session file, NACKs of one seqno that went out are at least 0.1 s apart, and STARTs at least 1 s, over any run |
| BinlogResults.TickBudget | binlog.cpp:420-436 | One tick sends at most 10 NACKs successfully, whatever the map order and the failures |
| BinlogResults.TickKeys | binlog.cpp:398-418 | A tick with the file open empties the ACK queue and leaves the chased seqnos minus the stale ones |
| BinlogResults.TickWindow | binlog.cpp:314-332 | After a tick the chased seqnos are exactly those noticed at most 60 s ago and at most 200 behind `highest_seen`, and there are at most 200 |
| BinlogResults.ResourceBounds | binlog.cpp:215-234 | For all 32-bit seqnos and all runs: tracked size within 1 GiB and equal to 200 * (highest + 1) or 0, accepted seqnos at most 5368708, `highest_seen + 1` never wraps |
| BinlogResults.GrowthPerBlock | binlog.cpp:215-253 | One block grows the open file by at most 100 MiB even when its write is cut short, and touches no other file |
| BinlogInvariants.RunInv | binlog.cpp:181-521 | The invariant (seen set, size, `highest_seen`, ACK queue, NACK map, pacing, finished sessions) holds after any run of blocks, ticks, observations and foreign file changes |
| BinlogInvariants.HandleBlockInv | binlog.cpp:181-293 | A block of any content and any outcome keeps the invariant |
| BinlogInvariants.HandleOpenOutcome | binlog.cpp:208-292 | What a block that passed the gate does to the history, the queue and the tracked state: all of it or none of it |
| BinlogInvariants.TickInv | binlog.cpp:362-437 | A tick keeps the invariant for every order of the hash map and every pattern of failing sends |
| BinlogInvariants.PruneInv | binlog.cpp:314-332 | Dropping stale NACK entries keeps the accounting: what is dropped is seen or recorded as given up |
| BinlogInvariants.SendNackInv | binlog.cpp:418-436 | A NACK that goes out past its throttle keeps the 0.1 s spacing |
| BinlogInvariants.ObserveInv | binlog.cpp:461-521 | A rotation keeps the invariant and closes the books of the session it ends |
| BinlogInvariants.SeqnoBound | binlog.h:172-176 | The quota keeps `highest_seen` at or below 5368708, so the 32-bit `highest_seen + 1` is exact |
| BinlogFiles.FileRefinement | binlog.cpp:246-293 | After any run, whatever is written short: the open file holds the last payload of every accepted block at seqno * 200 and zeros in the holes, apart from blocks whose last write was cut short, and is as long as the tracked size or ends in such a block; with no file open, bitmap, ACK queue and NACK map are empty |
| BinlogFiles.WholeWritesRefine | binlog.cpp:246-260 | With all-or-nothing writes the open file is exactly the accepted blocks and as long as the tracked size |
| BinlogFiles.ShortWriteKeepsExactlyWhen | binlog.cpp:253-259 | A short write leaves an exact file exact if and only if the bytes it wrote were there already |
| BinlogFiles.ShortWriteDamages | binlog.cpp:253-259 | A concrete run in which the cut-short repetition of an accepted block destroys its first half |
| BinlogFiles.WholeWriteIntact | binlog.cpp:246-253 | A complete write, also past the end, puts its block in place, mends it if torn, and leaves all others as they were |
| BinlogFiles.ShortWriteIntact | binlog.cpp:253-259 | A short write tears its own block only |
| BinlogFiles.HandleOpenFile | binlog.cpp:208-292 | A block of any outcome keeps the open file equal to the accepted blocks apart from the torn ones |
| BinlogFiles.RunFile | binlog.cpp:181-521 | The file invariant holds over every run |
| BinlogFiles.NoDamage | binlog.cpp:253-259 | Without short writes no block of any session is torn |
| BinlogFiles.TickFile | binlog.cpp:362-437 | A tick writes no file and accepts nothing |
| BinlogFiles.FirstBlockLaw | binlog.cpp:197-268 | When no write fails, the first block accepted in any session file is seqno 0, and an opened but empty file is over quota |
| BinlogFiles.CanBeginOtherwiseExactlyWhen | binlog.cpp:215-234 | With an empty open file, a block other than 0 can be the first one if and only if the counter leaves room for two blocks |
| BinlogFiles.FirstBlockBreaksExactlyWhen | binlog.cpp:197-268 | After an opening block, a later block other than 0 can be the first one accepted if and only if the opening write failed and the scan leaves room for two blocks |
| BinlogRotation.DetectsBackwardJumpExactlyWhen | binlog.cpp:474-477 | The 32-bit comparison agrees with "went back by at least 10 s" if and only if the new reading is below 2^32 - 10000 or its wrapped sum is still beyond the last reading |
| BinlogRotation.ForwardJumpRotates | binlog.cpp:474-477 | A concrete forward step near the end of the 32-bit range that rotates the file |
| BinlogRotation.SilentUntilFreshStart | binlog.cpp:197-206 | After a rotation nothing is written, queued or marked until a seqno-0 block opens the next file |
| BinlogRotation.NextSessionExceeds | session.cpp:45-64 | The next number is above every session number of the day if and only if the highest is not 2^32 - 1 |
| BinlogRotation.ClosedFilesNeverChange | binlog.cpp:39-91 | In an orderly run a file that is not the open one is never written, truncated or reopened |
| BinlogRotation.OldFilesNeverChange | binlog.cpp:487-521 | With no file open, all existing files are a prefix of the files after any orderly run |
| BinlogRotation.InitFresh | supportproxy.cpp:258-262 | A process that starts with the next session number of its day cannot open an existing file |
| BinlogRotation.RotationIsolation | binlog.cpp:487-521 | Over a whole orderly run with any number of reboots and any failing writes, the file of every finished session still holds the blocks that session accepted apart from torn ones, of which there are none with all-or-nothing writes; files from before the run are unchanged |
| BinlogRotation.StepArchived | binlog.cpp:487-521 | No step touches the file of a finished session, and a rotation hands the open file over as it is |
| BinlogQuota.DirectoryWithinQuota | binlog.cpp:226-234 | Over any run with truthful scans in which no other file appears, all session files in the directory together stay within 1 GiB once the open file holds a byte, whatever fails and whatever is unlinked |
| BinlogQuota.AcceptedByDirectoryExactlyWhen | binlog.cpp:197-292 | With truthful scans, the quota that decides the acceptance of a block is that of the files in the directory |
| BinlogQuota.TotalIsOthersAndOwn | binlog.cpp:132-142 | The files of the directory are at most the scanned others and the open file |
| BinlogQuota.StepQuota | binlog.cpp:208-268 | Every step keeps the scanned counter above the directory and the written bytes within the quota |
| BinlogRotation.NextOpenIsNewExactlyWhen | binlog.cpp:517-517 | Right after a rotation the next open on the same day makes a new file if and only if the highest number of the day is below 2^32 - 1 or the process's own first file is gone |
| Binlog.BinlogWriter.SeqnoSeen | binlog.cpp:159-166 | The packed bitmap answers membership in the set it denotes |
| Binlog.BinlogWriter.MarkSeqnoSeen | binlog.cpp:168-179 | Marking adds exactly one seqno to the denoted set through chunked growth, and keeps the bitmap at most 720896 bytes |
| Binlog.DenotedZeros | binlog.cpp:171-177 | Growing the bitmap by zero bytes does not change the set it denotes |
| Binlog.DenotedSet | binlog.cpp:178-178 | Setting one bit adds exactly that seqno to the denoted set |
| Binlog.BinlogWriter.QueueGapNacks | binlog.cpp:295-312 | The walk over the gap adds exactly the unseen and unchased seqnos strictly between, each with the given time and "never sent" |
| Binlog.WalkQueues | binlog.cpp:302-311 | The one-by-one walk equals the set-wise definition of the gap |
| Binlog.BinlogWriter.UpdateSeen | binlog.cpp:270-286 | Bitmap, NACK map and `highest_seen` after one accepted block |
| Binlog.BinlogWriter.CountWrite | binlog.cpp:260-268 | Tracked size and the every-10000-writes refresh of the quota baseline |
| Binlog.BinlogWriter.OpenFile | binlog.cpp:39-91 | Opening truncates or creates the named file and resets size and quota baseline; failing leaves everything as it was |
| Binlog.BinlogWriter.HandleOpenBlock | binlog.cpp:208-292 | The caps, the seek, the write and all bookkeeping refine the step on values |
| Binlog.BinlogWriter.HandleBlock | binlog.cpp:181-293 | `handle_block` refines the step on values for every block and every outcome, and keeps the invariant, with a bitmap of at most 720896 bytes |
| Binlog.BinlogWriter.DropStaleNackState | binlog.cpp:314-332 | The erase loop removes exactly the stale entries |
| Binlog.BinlogWriter.DrainPendingAcks | binlog.cpp:412-416 | The queue is handed over in order and emptied, whether or not the sends succeed |
| Binlog.BinlogWriter.Renack | binlog.cpp:420-436 | The re-NACK loop refines the step on values: budget, throttle, and stamping only what went out |
| Binlog.BinlogWriter.Tick | binlog.cpp:362-437 | `tick` refines the step on values and keeps the invariant |
| Binlog.BinlogWriter.RotateForReboot | binlog.cpp:487-521 | Rotation clears the per-file state, keeps the vehicle, and arms the next session number |
| Binlog.BinlogWriter.RotateSession | binlog.cpp:487-521 | The rotation as one step on values |
| Binlog.BinlogWriter.Observe | binlog.cpp:461-485 | `observe` refines the step on values and keeps the invariant |
| Binlog.NextSessionN | session.cpp:50-64 | The directory loop returns one more than the highest number listed, in 32 bits |
| Sha256Stream.HashChunks | sha256.cpp:71-196 | For any list of chunks, `init`, one `update` each and `final` give the FIPS 180-4 hash of the concatenation (chunks below 2^29 bytes, total below 2^61) |
| Sha256Stream.Context.Update | sha256.cpp:132-167 | Any chunk whose length is a 32-bit number is absorbed as if appended to the message; the bit counter grows by the low 32 bits of eight times the length |
| Sha256Stream.CountsExactlyWhen | sha256.cpp:138-140 | The bit counter follows the message exactly when the chunk is shorter than 2^29 bytes |
| Sha256Stream.Context.Final | sha256.cpp:172-196 | The result is the hash of everything absorbed with the counted number of bits, hence the standard hash while the count is exact |
| Sha256Stream.Context.AddToCount | sha256.cpp:135-140 | The two 32-bit words with their carry count modulo 2^64 |
| Sha256Stream.Context.BuildPadding | sha256.cpp:174-187 | The 72-byte buffer and the closed-form offset hold exactly the padding of section 5.1.1 of FIPS 180-4 |
| Sha256Stream.PaddedLength | sha256.cpp:174-189 | The padding completes a block and fits the 72-byte buffer |
| Sha256Stream.OffsetIsTail | sha256.cpp:141-141 | The low counter word is enough to find the place in the save buffer |
| Sha256Stream.Context.Absorb | sha256.cpp:142-166 | A chunk that fits the block either lengthens the tail or completes a block and hashes it |
| Sha256Stream.AbsorbBlock | sha256.cpp:151-165 | Completing a block appends it to the hashed prefix and empties the tail |
| Sha256Stream.Context.FlushBlock | sha256.cpp:151-164 | The swapped words of a full buffer go through the compression function |
| Sha256Stream.Context.Calc | sha256.cpp:85-130 | The in-place calculation is the compression function of section 6.2.2 of FIPS 180-4 |
| Sha256Stream.ExpandBlock | sha256.cpp:100-104 | The array loop computes the message schedule |
| Sha256Stream.RunRounds | sha256.cpp:106-120 | The rotating variables compute the sixty-four rounds |
| Sha256Stream.CountStaysExact | sha256.cpp:138-140 | Below the limits of the standard no carry is lost |
| Sha256Spec.HashBlocksSplit | sha256.cpp:142-166 | Hashing block by block can be cut at any block boundary |
| Sha256Spec.PadZeros | sha256.cpp:176-176 | The number of zero bytes is the least that leaves room for the length |
| WebSocketFrame.DecodeWire | websocket.cpp:179-219 | A frame of any width, masked or not, followed by any bytes, decodes to its payload and exact length (sections 5.2 and 5.3 of RFC 6455) |
| WebSocketFrame.DecodePrefix | websocket.cpp:181-212 | No proper prefix of a frame decodes |
| WebSocketFrame.DecodeOnlyFrames | websocket.cpp:179-219 | Whatever the decoder of the standard takes, with sums in unbounded integers, is the wire form of a frame with that payload |
| WebSocketFrame.PassesExactlyWhen | websocket.cpp:199-212 | The program's 64-bit test agrees with the true one if and only if there is no header, the declared length leaves room for the sum in 64 bits, or the buffer is shorter than the wrapped sum |
| WebSocketFrame.PassesExactlyWhenMaskIsThere | websocket.cpp:199-212 | Once header and mask are buffered, the two tests agree if and only if the declared length is below 2^64 less what precedes the payload |
| WebSocketFrame.ProgramDecodesExactlyWhen | websocket.cpp:179-219 | The program decodes every complete frame as the standard does, and its copy leaves the buffer exactly when the declared length wraps its test |
| WebSocketFrame.LongestOverruns | websocket.cpp:199-212 | Ten bytes, and fourteen with a mask, pass the program's test although no frame is complete |
| WebSocketFrame.MaskedHeaderAlone | websocket.cpp:199-202 | The largest declared length with its mask still missing is refused by both tests |
| WebSocketFrame.ProgramDecodesOnlyFrames | websocket.cpp:179-219 | What the program decodes without leaving its buffer is the wire form of a frame with that payload |
| WebSocketFrame.FramesNeverOverrun | websocket.cpp:199-212 | On a frame that the standard allows, complete, cut short or followed by more, the program never leaves its buffer |
| WebSocketFrame.SendRoundTrip | websocket.cpp:302-323 | What `send` frames, `decode` reads back: payload and exact length, for every payload below 2^63 bytes |
| WebSocketFrame.MaskTwice | websocket.cpp:206-208 | Unmasking inverts masking |
| Bytes.NetworkRoundTrip | websocket.cpp:308-319 | A length written in network order is read back |
| Bytes.NetworkOfBytes | websocket.cpp:191-195 | A length field is the network order of the number it is read as |
| WebSocketStream.Reassembly | websocket.cpp:356-378 | However the stream is cut into reads, the payloads delivered are the first ones sent, in order and once each, and pending plus unread bytes are exactly the undelivered frames |
| WebSocketStream.NeverWedged | websocket.cpp:114-118 | A full buffer begins with a complete frame and the next call delivers it |
| WebSocketStream.NeverBroken | websocket.cpp:356-378 | Frames that fit never make the program leave its buffer, however they are cut into reads |
| WebSocketStream.LongestBreaks | websocket.cpp:356-378 | One read of ten bytes after which it does |
| WebSocketStream.Completeness | websocket.cpp:356-378 | With enough calls that may read, every payload is delivered |
| WebSocketStream.DeliverableExactlyWhen | websocket.cpp:116-118 | A frame can be delivered if and only if it takes at most 1023 bytes on the wire |
| WebSocketStream.LargeFrameWedges | websocket.cpp:114-118 | A larger frame is never delivered, however its bytes arrive |
| WebSocketStream.HeadDecodes | websocket.cpp:365-369 | The pending bytes decode exactly when the next frame is complete in them, and then to it |
| WebSocketStream.RecvStep | websocket.cpp:356-378 | One call delivers the next frame or nothing, and keeps the rest |
| WebSocketStream.Progress | websocket.cpp:356-378 | A call that may read delivers a frame, reads a byte, or nothing is due |
| WebSocketEndpoint.Unmask | websocket.cpp:203-208 | The forward loop over the overlapping buffer gives the unmasked payload although it overwrites its input |
| WebSocketEndpoint.ReadLength | websocket.cpp:181-197 | The three length forms, and which buffers are too short for them |
| WebSocketEndpoint.Examine | websocket.cpp:181-212 | Header, mask bit and the 64-bit test, as the program makes it |
| WebSocketEndpoint.MovePayload | websocket.cpp:199-218 | The payload of a complete frame ends up at the start of the buffer, and everything after it is as it was |
| WebSocketEndpoint.DecodeInPlace | websocket.cpp:179-219 | For every buffer: nothing yet, the decoded payload in place, or the outcome that the copy leaves the buffer |
| WebSocketEndpoint.WebSocket.FillPending | websocket.cpp:114-173 | Filling appends what one read gives, never past 1023 bytes, and closes at the end of the stream |
| WebSocketEndpoint.WebSocket.Deliver | websocket.cpp:365-377 | The payload is copied out, cut to the caller's buffer, and exactly the frame is removed |
| WebSocketEndpoint.WebSocket.Recv | websocket.cpp:356-378 | `recv` refines the call on values: result, copied bytes, remaining bytes |
| WebSocketEndpoint.WebSocket.Send | websocket.cpp:302-351 | What reaches the wire, what is reported and when the connection closes, for a full, partial, refused or failed send |
| WebSocketEndpoint.BuildFrame | websocket.cpp:304-323 | The packet is the wire form of a final binary frame with the shortest length form |
| Slots.Accounting | supportproxy.cpp:393-806 | In every run the counter is the number of live engineers plus those reaped, never above `max`, `max` is at most 101, and sockets are open exactly for live engineers on TCP |
| Slots.ExactExactlyWhenQuiet | supportproxy.cpp:438-454 | The counter equals the number of live engineers if and only if no engineer on UDP ever timed out; then `max` is at most 100 and the "BUG" exit is not taken |
| SlotLimits.BugExactlyWhen | supportproxy.cpp:438-441 | A run takes the "BUG" exit if and only if something is ready in a turn that finds `max` past the table |
| SlotLimits.InsideExactlyWhen | supportproxy.cpp:422-427 | Every index that the loops of a run use is in the table if and only if no turn waits with `max` past it, and no served turn has a packet that overfills it followed by a loop that closes nobody |
| SlotLimits.TakeExactlyWhen | supportproxy.cpp:393-806 | For one turn, exactly when it takes the "BUG" exit, leaves the table, and ends with `max` past it |
| SlotLimits.PacketOverfillsExactlyWhen | supportproxy.cpp:549-575 | A packet lifts `max` past the table if and only if the counter is 100, the sender has no slot in reach, and some slot is free |
| SlotLimits.ServePastExactlyWhen | supportproxy.cpp:456-783 | A served turn ends with `max` past the table if and only if its packet overfills and nobody hangs up after it |
| SlotLimits.ForwardPast | supportproxy.cpp:672-686 | With `max` past the table, a loop leaves the table if and only if it closes nobody, and one hangup brings `max` back |
| SlotLimits.BugAfterOutside | supportproxy.cpp:422-441 | The check comes too late: before the "BUG" exit a loop has left the table already |
| SlotLimits.RunExactlyWhen | supportproxy.cpp:393-806 | The exact guards of a turn carry over to whole runs |
| SlotLimits.BugReachable | supportproxy.cpp:438-454 | A run with a single time-out that ends in the "BUG" exit |
| Slots.HangupCounted | supportproxy.cpp:504-508 | Closing a live slot decrements without wrapping and keeps the accounting |
| Slots.ReapCounted | supportproxy.cpp:446-454 | The dead-UDP loop closes without counting off; it changes nothing exactly when nobody in reach is silent |
| Slots.PacketCounted | supportproxy.cpp:534-576 | A packet from an engineer on UDP keeps the accounting, whether known, new or refused |
| Slots.AcceptCounted | supportproxy.cpp:702-736 | Accepting or turning away an engineer on TCP keeps the accounting |
| Slots.DropsCounted | supportproxy.cpp:369-391 | Processing any list of drop indices keeps the accounting |
| Slots.ForwardAllCounted | supportproxy.cpp:672-687 | Forwarding any messages with any failing sends keeps the accounting |
| Slots.ReadCounted | supportproxy.cpp:743-783 | Any set of engineers at their end of stream keeps the accounting |
| Slots.TakeSafe | supportproxy.cpp:393-738 | One turn of the event loop keeps the accounting; it reaps nobody exactly when nobody is silent |
| Slots.RunSafe | supportproxy.cpp:393-887 | Every run keeps the accounting |
| SlotReach.HangupKeepsReachExactlyWhen | supportproxy.cpp:504-508 | A hangup keeps every live engineer below `max` if and only if the counter is below `max`, the slot is the last one, or the last slot is not live |
| SlotReach.ForwardCloses | supportproxy.cpp:672-686 | Forwarding closes only slots in reach whose send failed, and leaves no such slot open that is still in reach at the end |
| Slots.ReadingIsForwarding | supportproxy.cpp:743-783 | Ends of stream close engineers exactly as failing sends on TCP would |
| SlotReach.PacketServedExactlyWhen | supportproxy.cpp:534-576 | After a packet its sender has a slot in reach if and only if it had one or some slot was free |
| SlotReach.PeersStayDistinctExactlyWhen | supportproxy.cpp:534-576 | A packet gives no engineer a second slot if and only if it has one in reach, has none at all, or no slot is free |
| SlotReach.ReachIsLost | supportproxy.cpp:767-767 | A run without time-outs after which a live engineer has an index at or above `max` |
| SlotReach.OccupyKeepsReach | supportproxy.cpp:710-736 | A new engineer takes the first free slot, which is below the new `max` |
| SlotReach.DropKeepsReach | supportproxy.cpp:375-388 | A drop request never puts a live engineer out of reach |
| SlotTable.Engineers.HangUp | supportproxy.cpp:504-508 | Close, shrink `max` if equal, count off, in eight bits |
| SlotTable.Engineers.ForwardMessage | supportproxy.cpp:672-686 | The loop below the shrinking `max` refines the step on values |
| SlotTable.Engineers.ReadTcpEngineers | supportproxy.cpp:743-783 | The end-of-stream loop refines the step on values |
| SlotTable.Engineers.ReapDead | supportproxy.cpp:446-454 | The time-out loop refines the step on values |
| SlotTable.Engineers.HandleEngineerPacket | supportproxy.cpp:534-576 | Known engineers are refreshed, new ones take the first free slot |
| SlotTable.Engineers.AcceptEngineer | supportproxy.cpp:698-737 | A new engineer takes the first free slot unless the counter says full |
| SlotTable.Engineers.ProcessDrops | supportproxy.cpp:369-391 | Closing the requested slots refines the step on values |
| SlotTable.Engineers.CollectSockets | supportproxy.cpp:422-427 | The loop before the wait collects the open sockets in reach, and leaves the table exactly when `max` is past it |
| SlotTable.Engineers.ReceiveTurn | supportproxy.cpp:443-576 | The steps of a turn up to the packet of an engineer on UDP refine the step on values |
| SlotTable.Engineers.RunOnce | supportproxy.cpp:393-806 | One turn of the loop in the order of the source refines the step on values |
| Drops.OneClosePerRequest | supportproxy.cpp:330-400 | Over all interleavings, drops close a connection index at most once per request for it, so never without one |
| Drops.SignalledMarkIsSeen | supportproxy.cpp:394-399 | Over all interleavings in which scans can open the database, a signalled mark still standing in the record of a running process has its flag up or a scan yet to read |
| Drops.FailedScanKeepsExactlyWhen | supportproxy.cpp:359-362 | A scan that cannot open the database keeps every wakeup if and only if the flag is up again or no signalled mark is the process's |
| Drops.WakeupIsLost | supportproxy.cpp:359-362 | A run from the start (connect, heartbeat, mark, signal, failed scan) that loses a wakeup |
| Drops.ScanServes | supportproxy.cpp:363-391 | A scan leaves no mark of its port, closes exactly the marked live connections, ends the session exactly for index 0, and leaves other ports alone |
| Drops.HeartbeatForgetsExactly | supportproxy.cpp:830-882 | A heartbeat forgets exactly the marks of its own port |
| Drops.RequestWakes | conntdb_lib.py:177-246 | A request marks the record and puts up the flag of the process that wrote it, changing nothing else |
| Drops.AwakeServes | supportproxy.cpp:394-399 | An awake process that clears and scans closes the marked engineer once and removes its record |
| Drops.StepPaid | conntdb_lib.py:177-222 | Every step keeps closes plus standing marks within the requests, key by key |
| Drops.StepKeepsWakeup | supportproxy.cpp:393-399 | Clearing before scanning and every other step but a failed scan keep all wakeups |
| Drops.StepOwned | supportproxy.cpp:830-853 | A record is written by a process of its own port |
| Ports.Reconciled | supportproxy.cpp:117-189 | Every run keeps one entry per second port, no sockets where a child runs or the entry is removed, sockets bound to the current ports, system numbers in eight bits; a child of a removed or re-ported entry has been told to end |
| Ports.ReloadMatches | supportproxy.cpp:1046-1088 | Right after a reload the entries in use are exactly the database records, with port, flags and low eight bits of the system number |
| Ports.ReloadServesExactly | supportproxy.cpp:1082-1087 | If nothing fails to bind, after a reload exactly the idle entries in use hold all four sockets on their current ports |
| Ports.FailedForkIsFinal | supportproxy.cpp:1028-1044 | An entry whose fork failed is never listened on again, whatever follows |
| Ports.FailedForkTellsAll | supportproxy.cpp:1070-1080 | For every record whose entry listens: one failed fork and a reload without the record tell every process (-1) to end |
| Ports.RunTells | supportproxy.cpp:1028-1088 | While every fork succeeds, only children are ever told to end |
| Ports.UpsertTellsExactlyWhen | supportproxy.cpp:132-140 | Meeting a record tells only children to end if and only if it does not change the first port of an entry whose fork failed |
| Ports.RetireTellsExactlyWhen | supportproxy.cpp:1070-1080 | Removing unseen entries tells only children to end if and only if none of them is left from a failed fork |
| Ports.UpsertInv | supportproxy.cpp:117-170 | Meeting a record keeps the invariant in each of the four cases |
| Ports.UpdatedOk | supportproxy.cpp:120-151 | An updated entry keeps its child, closes what is bound to an old port, and tells an outdated child to end |
| Ports.RetireInv | supportproxy.cpp:1070-1080 | Removing unseen entries keeps the invariant |
| Ports.ReloadInv | supportproxy.cpp:1046-1088 | A reload keeps the invariant |
| Ports.ConnectInv | supportproxy.cpp:1028-1044 | A connection keeps the invariant, also when the fork fails |
| Ports.ReapInv | supportproxy.cpp:965-1000 | A child exit keeps the invariant and frees the entry |
| Ports.RunInv | supportproxy.cpp:1137-1171 | The invariant holds over all interleavings of connections, exits and reloads |
| Ports.UpsertAllMatches | supportproxy.cpp:1063-1063 | Traversing the records leaves exactly their entries seen, each carrying its record |
| PortList.Listeners.OpenSockets | supportproxy.cpp:934-960 | Each closed socket is bound to its own port unless binding fails |
| PortList.Listeners.UpdateEntry | supportproxy.cpp:120-151 | The in-place update of an entry refines the step on values |
| PortList.Listeners.UpsertPort | supportproxy.cpp:117-170 | The list search, the update and the new head entry refine the step on values |
| PortList.Listeners.RetireUnseen | supportproxy.cpp:1070-1080 | The removal loop refines the step on values |
| PortList.Listeners.ReloadPorts | supportproxy.cpp:1046-1088 | A reload refines the step on values |
| PortList.Listeners.HandleConnection | supportproxy.cpp:1028-1044 | The child takes the entry and the parent closes its sockets |
| PortList.Listeners.ReapChild | supportproxy.cpp:979-995 | The exited child's entry is freed and reopened unless removed |
| Signing.StoredNeverAhead | mavlink.cpp:389-438 | Over any loads, updates, saves, restarts and peer advances the stored value never decreases and never exceeds the clock, unless it did at the start |
| Signing.NoReplay | mavlink.cpp:314-323 | While advances stay within the guard, a load starts at or above every value ever used and at most 15 s past the clock or the first value |
| Signing.NoReplayExactlyWhen | mavlink.cpp:314-323 | Over any run: in every state a load would start at or above every value ever used if and only if every advance stayed within the guard when it was made |
| Signing.AdvanceKeepsExactlyWhen | mavlink.cpp:314-323 | An advance keeps all used values below what a load would give if and only if it is at most 15 s past the stored value, or behind the clock |
| Signing.LocalStepsStayWithin | mavlink.cpp:350-383 | The program's own loads, raises, saves and restarts always stay within the guard |
| Signing.BeyondTheGuard | mavlink.cpp:402-424 | A concrete advance beyond the guard after which a fresh load starts below a used value |
| Signing.ClocksAgreeExactlyWhen | mavlink.cpp:357-365 | Raising uses the same clock as loading and saving if and only if the clock is past 2015 or in its first second |
| Signing.SavedIsLeast | mavlink.cpp:417-430 | A save stores the least value that is at least the stored one and every signing link's value capped at the clock |
| Signing.SavesCommute | mavlink.cpp:389-438 | The stored value does not depend on the order in which two forked saves write |
| Signing.StepStored | mavlink.cpp:389-438 | No step lowers the stored value or lifts it past the clock |
| Signing.StepCovered | mavlink.cpp:314-376 | Every step within the guard keeps all used values below what a load would give |
| SigningLinks.SaveSigningTimestamp | mavlink.cpp:417-437 | The save loop computes the saved value, and writes exactly when it is higher |
| SigningLinks.Links.LoadSigningKey | mavlink.cpp:277-344 | A load sets the link to the guarded value, clears it without a key, or turns signing off for an empty key |
| SigningLinks.Links.UpdateSigningTimestamp | mavlink.cpp:350-383 | At most every ten seconds all signing links are raised to the clock and copied for a save |
| Cleanup.OldestFirst | cleanup.cpp:111-128 | No deleted file is newer than one that stays, unless that one could not be deleted |
| Cleanup.OnlyWhileOver | cleanup.cpp:114-117 | Every deletion happens while the total is still over 1 GiB |
| Cleanup.WithinQuotaExactlyWhen | cleanup.cpp:111-128 | The pass brings the total within the quota if and only if the files that cannot be deleted fit in it |
| Cleanup.QuotaIsKept | cleanup.cpp:111-128 | If every deletion succeeds the surviving total is at most 1 GiB |
| Cleanup.CleanedExactlyWhen | cleanup.cpp:56-129 | The files that stay are exactly the visible session files still in the directory, and fit in the quota if and only if the undeletable ones do |
| Cleanup.SweepParts | cleanup.cpp:114-128 | Deleted and kept files together are the listed ones, each once |
| Cleanup.SweepFrom | cleanup.cpp:118-123 | Only listed files whose deletion succeeds are deleted |
| Cleanup.LogDir.RetentionPass | cleanup.cpp:131-195 | Exactly the visible session files past the cut-off that can be deleted go, and exactly the openable date directories left empty |
| Cleanup.LogDir.Gather | cleanup.cpp:74-105 | The list holds every visible session file once, and the total is the sum of their sizes |
| Cleanup.LogDir.DeleteWhileOver | cleanup.cpp:114-128 | The deleting loop removes exactly the swept files, and their directories when left empty |
| Cleanup.LogDir.EnforceQuota | cleanup.cpp:56-129 | The quota pass removes exactly the sweep over the visible session files sorted by age |
| Cleanup.LogDir.CleanupForPort2 | cleanup.cpp:197-209 | Retention first, then the quota over what retention left, whatever the retention is |
| Registry.RunKeeps | webadmin/routes_admin.py:98-254 | Over any serial run of add, edit and delete requests no two entries come to share a port, and at least one administrator remains if there was one |
| Registry.AddedExactlyWhen | keydb_lib.py:247-258 | A plan is added if and only if all its ports are free and its pairs share none |
| Registry.AddedContents | webadmin/routes_admin.py:129-134 | A successful batch adds exactly the planned pairs and leaves every other record as it was |
| Registry.DerivedPairsDistinct | webadmin/forms.py:101-105 | Up to the largest batch the derived pairs never collide with each other |
| Registry.FindsOwner | keydb_lib.py:225-236 | A lookup finds the one entry that uses the port as first or second one, and nothing exactly when nobody does |
| Registry.EditDisjoint | webadmin/routes_admin.py:166-175 | An accepted edit keeps the ports of different entries disjoint |
| Registry.AddAllDisjoint | keydb_lib.py:247-258 | Adding keeps the ports of different entries disjoint |
| Registry.ServeKeepsAdmin | webadmin/routes_admin.py:157-163 | No request takes the last administrator away |
| Registry.EditEffect | webadmin/routes_admin.py:157-210 | An accepted edit grants or takes exactly what the form says, keeps unknown flags, sets name, first port and given fc_sysid, changes the passphrase only to a non-empty one and the timestamp only to 0 on request, and touches no other record |
| Registry.RetentionAfterEdit | webadmin/routes_admin.py:196-205 | Switching a recording on never leaves the entry with logs kept forever; exactly when the retention ends up as 0 |
| RegistryDb.Database.ListEntries | keydb_lib.py:192-213 | All valid entries in increasing order of second port, whatever order the database gives |
| RegistryDb.Database.GetPortSets | keydb_lib.py:216-222 | The first and second ports of all valid entries |
| RegistryDb.Database.CountAdmins | keydb_lib.py:239-241 | The number of valid entries with the admin flag |
| RegistryDb.Database.FindByPort | keydb_lib.py:225-236 | Second ports first, then the first entry in order with this first port |
| RegistryDb.Database.Add | keydb_lib.py:247-258 | One pair is added unless one of its ports is taken |
| RegistryDb.Database.AddRequest | webadmin/routes_admin.py:111-142 | The whole batch or nothing: out-of-range ports and conflicts leave the database as it was |
| RegistryDb.Database.EditRequest | webadmin/routes_admin.py:152-210 | The guarded edit: not found, last administrator and port in use change nothing; otherwise exactly this entry changes |
| RegistryDb.Database.DeleteRequest | webadmin/routes_admin.py:240-247 | The guarded delete |
| RegistryDb.Apply | webadmin/routes_admin.py:176-210 | The field-by-field form, with the default retention when recording is first enabled |
| Binlog.BinlogWriter.LatchVehicle | binlog.cpp:236-244 | The first block fixes the vehicle that ACKs and NACKs address; later ones leave it |
| Binlog.BinlogWriter.Track | binlog.cpp:270-286 | Bitmap, NACK map, `highest_seen` and history after one accepted block, as one step on values |
| Binlog.BinlogWriter.QueueAck | binlog.cpp:288-292 | Every accepted block, also a repeated one, queues an ACK |
| Binlog.BinlogWriter.BookBlock | binlog.cpp:260-292 | All bookkeeping of a written block refines the step on values |
| Binlog.BinlogWriter.HandleGatedBlock | binlog.cpp:197-206 | The strict-start gate: without a file only seqno 0 opens one, under the armed session number if there is one |
| Binlog.BinlogWriter.MaybeSendStart | binlog.cpp:378-396 | A START goes out when its period has passed, and only a sent one restarts the period |
| Binlog.BinlogWriter.Pump | binlog.cpp:398-436 | The part of a tick with the file open refines the step on values |
| Binlog.BinlogWriter.Watch | binlog.cpp:474-484 | A detected reboot rotates, and the reading becomes the new watermark |
| Sha256Stream.Context.WriteCount | sha256.cpp:180-187 | The eight shifted bytes are the bit count, most significant first |
| Sha256Stream.Context.Output | sha256.cpp:191-195 | The result is the eight hash words, most significant byte first |
| SlotTable.Engineers.FindPeer | supportproxy.cpp:534-547 | The first slot in reach of a live engineer on UDP with this address |
| SlotTable.Engineers.FindFree | supportproxy.cpp:711-715 | The first slot not in use |
| SlotTable.Engineers.OccupySlot | supportproxy.cpp:735-736 | Occupying a slot counts it and lifts `max` to the counter |
| SlotTable.Engineers.DropSlot | supportproxy.cpp:370-388 | One drop index refines the step on values |
| SlotTable.Engineers.ServeTurn | supportproxy.cpp:443-689 | The steps of a turn up to the engineers' own data refine the steps on values |
| Cleanup.LogDir.RetainDir | cleanup.cpp:159-193 | One date directory loses exactly its expired files, and is removed exactly when nothing is left in it |
| Cleanup.LogDir.GatherDir | cleanup.cpp:85-103 | One date directory contributes each visible session file once |
| Cleanup.KeptRemain | cleanup.cpp:111-128 | The files that stay are the visible session files still in the directory |
| PortList.Listeners.UpsertRecords | supportproxy.cpp:1063-1063 | Meeting the records one after the other refines the step on values |
| PortList.Listeners.ForgetSeen | supportproxy.cpp:1052-1054 | All entries start a reload as not seen |
| PortList.Listeners.ReopenIdle | supportproxy.cpp:1082-1087 | Idle entries in use open what they lack |
| Drops.RunKeepsWakeup | supportproxy.cpp:393-399 | No wakeup is lost over any interleaving in which scans can open the database |
| Drops.RunPaid | supportproxy.cpp:330-391 | Closes and standing marks stay within the requests over any interleaving |
| Signing.RunStored | mavlink.cpp:389-438 | The bounds on the stored value hold over any run |
| Signing.RunCovered | mavlink.cpp:314-376 | The bound on all used values holds over any run within the guard |
| RegistryDb.Database.AddPlan | webadmin/routes_admin.py:131-137 | A conflict on any pair rolls the whole batch back |
| RegistryDb.ApplyFlags | webadmin/routes_admin.py:178-195 | The flags of the form replace the known ones |
| ConnDb.Connections.FlipDropFlag | conntdb_lib.py:177-222 | The transaction marks exactly the requested record, and gives the process to signal; a missing record changes nothing |
| ConnDb.Connections.Traverse | supportproxy.cpp:337-363 | The marked indices of the port, each once, in whatever order the database gives its records |
| ConnDb.Connections.CollectDrops | supportproxy.cpp:359-367 | Exactly the marked records of the port are collected and deleted |
| ConnDb.Connections.WriteHeartbeat | supportproxy.cpp:831-881 | All records of the port are replaced by fresh unmarked ones |
| BinlogVehicle.BlockLatches | binlog.cpp:181-244 | A block latches if and only if it passes gate and both caps, whether or not it can be written: the first one gives target system = its sysid and target component = its compid, and no later one changes them |
| BinlogVehicle.AnswersFirstVehicle | binlog.cpp:236-244 | Over any run the target is the sysid and compid of the first block that passed gate and caps, and 0/0 until then, through later blocks of other vehicles, failed writes, ticks and rotations |
| BinlogVehicle.FirstThroughFrom | binlog.cpp:236-244 | The same from any state in which no vehicle is latched yet |
| BinlogPump.TickStarts | binlog.cpp:378-396 | A tick attempts a START if and only if 1 s (no block yet) or 5 s (afterwards) have passed since the last one that went out; at most one, before all else; exactly a successful one sets the clock to the time of the tick |
| BinlogPump.TickIdle | binlog.cpp:362-402 | Before the first block, and with no file open, a tick does nothing beside that START |
| BinlogPump.TickAsksAgain | binlog.cpp:418-436 | With a file open and an order that covers the map, a tick tries only chased seqnos at most 200 behind and 60 s old that were never asked for or 0.1 s ago at least; either ten NACKs go out or every such seqno is tried; exactly those that went out are stamped with the time of the tick; when all sends succeed their number is min(10, number due) |
| BinlogPump.RenackDone | binlog.cpp:420-436 | The loop over the map for any order, budget and outcomes: what it tries, what goes out, and what it stamps |
| BinlogQuota.RescannedExactlyWhen | binlog.cpp:260-268 | A written block grows the tracked size to its end, and rescans the other sessions if and only if it is the ten-thousandth since the last scan |
| BinlogRotation.OpensUnderNextNumber | binlog.cpp:39-91 | The block that opens a file adds the entry of its day with the armed session number, or the caller's if none is armed, and uses the number up |
| BinlogRotation.NextSessionIsOneMore | session.cpp:45-64 | The next number is the largest of the day plus one in 32 bits, and 1 on a day without sessions |
| BinlogReboot.ReadingKept | binlog.cpp:461-484 | A SYSTEM_TIME of the autopilot that passes the filter (0 or equal) becomes the last reading whether or not it rotated; any other message changes nothing |
| BinlogReboot.ClockIsLastReading | binlog.cpp:461-484 | Over any run the remembered value is the last such reading, also across rotations |
| BinlogReboot.EndsSessionExactlyWhen | binlog.cpp:474-521 | Over any run a reading ends the session if and only if a file is open, the reading before it was not 0, and the new one plus 10000 in 32 bits does not exceed it; then every per-file field is cleared, a START is due at once and the vehicle is kept; otherwise only the reading changes |
| BinlogReboot.LastOf | binlog.cpp:461-484 | The reading that counts is the last one, whatever blocks, ticks and other messages lie between |
| BinlogReboot.RebootRotates | binlog.cpp:474-521 | A concrete run: block 0, ten minutes, five seconds; the session is archived with its file and session 2 is armed |
| Sha256Example.HashOfAbc | sha256.cpp:41-196 | The hash of "abc" is the 32 literal bytes of the standard's example |
| Sha256Constants.KeysAreCubeRoots | sha256.cpp:54-69 | Each of the 64 round constants is the first 32 bits of the fraction of the cube root of the prime in its place, with exact integer bounds |
| Sha256Constants.InitialHashIsSquareRoots | sha256.cpp:75-82 | Each of the eight initial words is the first 32 bits of the fraction of the square root of a prime, 2 to 19 |
| Sha256Constants.FirstPrimes | sha256.cpp:54-69 | The table of primes holds exactly the primes up to 311, in increasing order |
| Sha256Spec.BlockByBlock | sha256.cpp:150-165 | Each further block is compressed into the hash of those before it |
| Sha256Spec.LengthValue | sha256.cpp:180-187 | The eight length bytes, read most significant first, are the number |
| WebSocketBytes.DecodesBytes | websocket.cpp:179-219 | A buffer decodes if and only if all octets its header announces are there (seven bits, 256 * b2 + b3, or the eight-byte sum); payload octet i is buf[p + i], or buf[p + 4 + i] xor buf[p + i mod 4] with a mask at p |
| WebSocketBytes.HeaderIsReadExactlyWhen | websocket.cpp:181-197 | A header is read if and only if two bytes are there, or the four or ten that the second one asks for |
| WebSocketBytes.WholeBytes | websocket.cpp:179-219 | The same octets for what the program takes off the front of its buffer |
| WebSocketBytes.HelloDecodes | websocket.cpp:199-219 | The masked "Hello" of section 5.7 of RFC 6455 decodes to its five letters and eleven bytes |
| WebSocketBytes.HelloArrives | websocket.cpp:356-378 | One read of these eleven bytes hands the five letters to the caller |
| WebSocketBytes.SentBytes | websocket.cpp:304-323 | Each octet `send` puts on the wire: 0x82, the length in its shortest form without a mask bit, and the payload |
| WebSocketBytes.Sent5 | websocket.cpp:304-309 | Five bytes of payload go out behind 82 05 |
| WebSocketBytes.Sent256 | websocket.cpp:310-313 | 256 bytes of payload go out behind 82 7e 01 00 |
| WebSocketBytes.Sent65536 | websocket.cpp:314-318 | 65536 bytes of payload go out behind 82 7f and eight length bytes |
| WebSocketStream.ReadMoves | websocket.cpp:112-169 | A read appends the next bytes of the stream, all it may up to 1023 pending bytes, and only the end of the stream closes the connection |
| SlotReach.PacketRefreshes | supportproxy.cpp:534-547 | A packet of an engineer in reach sets the time it was last heard of, and nothing else |
| SlotReach.PacketJoins | supportproxy.cpp:548-576 | A packet of anybody else takes the first free slot, counted in eight bits, and is ignored when all 100 are in use |
| SlotReach.AcceptJoins | supportproxy.cpp:698-737 | A connection takes the first free slot if fewer than 100 engineers are counted, and is turned away otherwise |
| SlotReach.ReapCloses | supportproxy.cpp:446-454 | A slot is closed for silence if and only if it is in reach, in use, on UDP and silent for more than ten seconds; no counter changes |
| SlotReach.PacketKeepsAlive | supportproxy.cpp:446-547 | An engineer in reach that has sent within the last ten seconds keeps its slot |
| SlotReach.DropCloses | supportproxy.cpp:370-388 | Index 0 ends the process; index k closes and counts off slot k - 1 if it is live; any other index does nothing |
| SlotLimits.TakeEndsExactlyWhen | supportproxy.cpp:369-441 | A turn ends the process without the "BUG" exit if and only if the user is dropped or the wait lasts too long; an interrupted wait leaves the table as the drops made it |
| Ports.ConnectHandsOver | supportproxy.cpp:1028-1044 | A connection closes the parent's four sockets of the entry and stores the child |
| Ports.ReapGivesBack | supportproxy.cpp:979-995 | An exit frees the child's entry, which opens all four sockets on its current ports but for failing ones, unless its record is gone; no other entry changes |
| Ports.ReapOfStranger | supportproxy.cpp:979-998 | The exit of a process that serves no entry changes nothing |
| Ports.UpsertOpens | supportproxy.cpp:117-170 | An idle entry that is new, back, or has a new first port opens all four sockets when its record is met; one that stays keeps what it has; one with a child has none |
| Drops.PurgeForgetsExactly | conntdb.cpp:148-185 | When a child has exited, all records of its port go and no other |
| Signing.ClockIs | mavlink.cpp:357-365 | Past 2015 the clock as a timestamp is (seconds - 1420070400) * 100000 |
| Signing.LoadGives | mavlink.cpp:277-344 | A load gives max(stored + 1500000, clock), clears the value without a key, turns signing off for a key without secret and timestamp, and touches no other link |
| Signing.UpdateRaises | mavlink.cpp:350-383 | At most every ten seconds every signing link is raised to the clock, and exactly the raised values are copied for a save |
| Signing.SaveStores | mavlink.cpp:389-438 | A save stores the largest of the stored value and the copied ones, each cut to the clock |
| Cleanup.RetainedExactlyWhen | cleanup.cpp:36-52 | Retention keeps a file if and only if it was written within the cut-off, is not named <stem>.tlog or <stem>.bin, is out of sight, or cannot be deleted |
| Registry.EditedExactlyWhen | webadmin/routes_admin.py:152-175 | An edit is accepted if and only if the record exists, the last administrator stays one, and a changed first port is in use nowhere, not even as the own second port; otherwise nothing changes |
| Registry.DeletedExactlyWhen | webadmin/routes_admin.py:236-250 | A record is deleted if and only if it exists and is not that of the last administrator; no other is touched |
| Registry.BatchAddedExactlyWhen | webadmin/routes_admin.py:106-137 | A batch is added if and only if all its derived ports lie in 10000 to 60000, none is in use and no two pairs share one; the derived pairs are stated port by port |
| Registry.DecimalReadsBack | webadmin/routes_admin.py:117-119 | The number appended to a derived name reads back as its place in the batch |

## Left out

- BinlogFiles.FirstBlockLaw: assumes that no write fails; `BinlogFiles.FirstBlockBreaksExactlyWhen` says exactly when a failed write breaks the law.
- BinlogRotation.RotationIsolation: assumes dates that do not go back, and that no rotation meets session number 4294967295 (`BinlogRotation.NextOpenIsNewExactlyWhen`).
- Binlog.BinlogWriter.OpenFile: making the directory is part of the outcome of the open; the port pair is fixed for a writer.
- Binlog.BinlogWriter.RefreshOtherSessionsBytes: the sum over the directories is given; `BinlogQuota.DirectoryWithinQuota` assumes that it is true to the directory and that no other file grows meanwhile.
- Binlog.NextSessionN: takes the numbers that the names in the directory yield; reading them out of the names is left out.
- Sha256Stream.Context.FlushBlock: swapping the bytes of a word on a little-endian host is modelled as reading it big-endian.
- WebSocketEndpoint.DecodeInPlace: what the program does once its copy has left the buffer.
- WebSocketEndpoint.WebSocket.Recv: a result of 0 stands for "no frame yet" as well as for an empty payload, as in the program; it is not called again once decoding has left the buffer.
- WebSocketStream.Reassembly: is about a caller whose buffer takes any payload; a smaller one loses the rest of a payload (`WebSocketEndpoint.WebSocket.Recv`). Opcodes and fragmentation are ignored, as in the program.
- SlotTable.Engineers.ForwardMessage: what the program does with `conn2[100]` once a loop has left the table; the loop of the model ends there.
- SlotTable.Engineers.RunOnce: the contents of messages, and the handling of the user side beyond its effect on the slots, are left out.
- Drops.SignalledMarkIsSeen: process numbers are not reused within a run, and a process that is signalled has its handler installed, which holds for every process that has written a record.
- Ports.Reconciled: entries are values in a list, so the linked list's pointers are not captured; removing connection records and respawning the clean-up process are left out.
- Signing.StoredNeverAhead: the clock does not go back, is past 2015, and together with the guard fits in 64 bits; operator resets and SETUP_SIGNING messages are left out.
- Signing.NoReplay: advances by the MAVLink library (one per packet signed or accepted) are arbitrary advances here, limited to the guard; `Signing.BeyondTheGuard` shows the limit is needed.
- Cleanup.SortByAge: stands for `std::sort`; ties may come in any order.
- Cleanup.LogDir.RetentionPass: the cut-off is a whole number of seconds; nobody else changes the directory during a pass.
- RegistryDb.Apply: a passphrase stands for its hash; packing records, form validation beyond the ports, sessions and the tail of newer records are left out.
- Eventual delivery of a drop request does not hold, because a heartbeat rewrites its records without marks (`Drops.HeartbeatForgetsExactly`).
- Sockets, select and epoll, TLS, the HTTP upgrade and the MAVLink library (parsing, checksums, signature checks).
- The owner's self-service pages, log-in throttle, log listing, templates, scripts and service units.
- The command-line mutators of `keydb_lib.py`, which skip the registry's checks.
- `tlog.cpp`, which writes frames with a time stamp: appended bytes only.
