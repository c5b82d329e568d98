# LTX/1 in Dafny

A verified model of Lattice's LTX/1 protocol core: the frame codec with its checksum, message
reassembly and generation-tagged channels, the outbound scheduler, the replay window with its
snapshot text, HELLO negotiation, the two executors, and the connection engine that joins them.

Each object of the program is a class here, and each of its operations a method that changes the
same fields in the same order of checks. A method is proved against a function on plain values
(`InsertSpec`, `DrainSpec`, `PostSpec`, ...) that gives the new state and the answer; what the
protocol promises is then proved about those functions, over all inputs and over whole runs. A connection also
carries `handed`, the frames handed out so far, and `families`, the plugin family each delivery named: they only
record, and nothing reads them but theorems.

| files | content |
|---|---|
| `Types`, `Sorting`, `Bits` | fixed-width integers, errors, stable sorting, bitwise words |
| `Wire`, `Crc`, `Extensions`, `FrameCodec`, `CodecTheorems` | integers on the wire, CRC32C (section 12.1 of RFC 3720), extensions, frames, and the laws of the codec |
| `Reassembler`, `Channels` | fragments under a shared budget; credit and generation-tagged slots |
| `Scheduler`, `SchedulerTheorems` | control and data queues; conservation, fairness, stalling |
| `Replay`, `ReplayText`, `Timers` | the replay window, its text, and the timer wheel |
| `Hello` | HELLO payloads and negotiation |
| `Executors`, `Deterministic` | the worker pool as atomic steps; the executor without threads |
| `EngineModel`, `Engine` | what each call on a connection does, and the class that does it |
| `EngineSteps`, `EngineRuns`, `EngineReplay`, `EngineNumbers`, `EngineLedger`, `EngineLate`, `EngineClock` | every call as small steps, and what all runs of calls keep: numbers, deliveries, deadlines |
| `EngineChecks` | what each call and frame needs, and that a refusal changes nothing |
| `EngineSend`, `EngineReceive`, `EngineTalk`, `EngineChunks`, `EnginePair`, `EngineMeet` | two ends, joined by bytes: one message, many, cut anyhow; opening, closing, acknowledging, resuming; from the handshake to a conversation |
| `Fixture` | the published HELLO frame, byte for byte |

`dafny verify dfyconfig.toml` checks the project.

Where the code differs from its documentation, or from what one would expect of it, the model follows the code:

- `docs/REQUIREMENTS_TRACEABILITY.md` lists rejection of generation wrap. `allocate` does reject it, but
  `accept_remote` accepts generation 0 after 255 (`Channels.WrapRevives`). The engine never retires a
  tombstone, so a connection cannot reach that state.
- `docs/ARCHITECTURE.md` says data queues preserve per-channel sequence order. The gate of the scheduler
  expects consecutive sequences, while the engine numbers frames across the whole connection. A channel
  that has sent and then sees any other frame numbered never sends again (`EngineRuns.ShutForever`).
- `docs/DECISIONS.md` speaks of credit conservation. It holds because no CREDIT frame is ever accepted
  (`EngineSteps.CreditRefused`).
- Frame numbers rise while each accepted load continues above what was handed out (`EngineNumbers.HandedRise`,
  `EngineNumbers.RiseIff`), and not otherwise: `ping` is allowed before the start and a load sets the number back, so
  number 1 can go out twice (`EngineNumbers.NumberTwice`).
- A load that fails is not always without effect: a snapshot whose newest frame has the last number is refused after it
  has replaced the window (`EngineNumbers.FailedLoadChangesIff`, `EngineNumbers.RefusedLoadSticks`).
- A snapshot of any epoch from 1 to 65535 loads, but frames are recorded under epoch 1, so with any other in place no
  frame is let out, the HELLO included (`EngineNumbers.EmitsIff`, `EngineNumbers.EpochTwoLoads`).
- `send` accepts an empty message, takes a number for it and hands out nothing. The peer then refuses all later messages
  of that channel as out of order (`EngineTalk.EmptySend`, `EngineTalk.EmptySendSilences`).
- A message is answered at most once, and only after its delivery, by the plugin it was dispatched to
  (`EngineLedger.AnsweredAtMostOnce`, `EngineLedger.RightAnswers`). `complete_plugin` checks none of that: called from
  outside it answers any number of a live channel, any number of times (`EngineMeet.AnsweredUnasked`,
  `EngineLedger.ClaimBalancedIff`).
- The gap timer of an unfinished message is never taken back. A message of more than one fragment is delivered, and a
  second later its channel is reset all the same (`EngineClock.DeliveredThenReset`).
- `advance_time` stops at the first timer that fails, and the timers due behind it are gone: a draining connection can be
  left without its drain timer (`EngineClock.DrainForgotten`).
- Both ends of a handshake are meant to hold the same capability set. A limit of 2^32 or more is cut on the wire, and then
  they may not (`Hellos.AgreeIff`, `Hellos.WideLimitsSplit`).

## Model

| member | source | states |
|---|---|---|
| `Crc.Crc32cSliced` | src/format/frame_codec.cpp:237-258 | the eight-table, eight-bytes-a-time loop with its byte tail returns the bit-at-a-time reflected CRC32C (polynomial 0x82F63B78) of every byte string |
| `Crc.BuildTable` | src/format/frame_codec.cpp:219-236 | entry `i` of table `k` is the register after `8 * (k + 1)` bit steps from `i`, for all eight tables |
| `Crc.BlockStep` | src/format/frame_codec.cpp:239-253 | XOR of eight table entries over one little-endian block is 64 bit steps of the definition |
| `Crc.BurstDetected` | src/format/frame_codec.cpp:222-258 | two equal-length strings that differ only inside at most four consecutive bytes never have the same checksum |
| `CodecTheorems.DamageDetected` | src/format/frame_codec.cpp:576-588 | an encoded frame altered inside one window of at most four bytes in its channel, sequence, extension or payload bytes decodes to a CRC mismatch, never to a frame |
| `CodecTheorems.HeaderDamage` | src/format/frame_codec.cpp:471-499 | an encoded frame with another byte in its magic, a type nobody has or a flag set is refused with the error that names it |
| `CodecTheorems.TooLarge` | src/format/frame_codec.cpp:500-556 | an encoded frame whose extensions or whose whole size the reader does not take is refused as too large, the extensions first |
| `CodecTheorems.Truncation` | src/format/frame_codec.cpp:450-570 | a proper part of an encoded frame is waited for; where no more will come it is a truncated frame |
| `Crc.OddDetected` | src/format/frame_codec.cpp:222-258 | two strings of one length that differ in an odd number of bits, wherever they are, never have the same checksum |
| `Fixture.CheckValue` | src/format/frame_codec.cpp:237-258 | the digits 1 to 9 have the checksum 0xE3069283, the check value by which the CRC32C is known |
| `Wire.EncodeUleb128` | src/format/frame_codec.cpp:261-276 | returns the shortest base-128 form of every 32-bit value, so the length error is never taken |
| `Wire.DecodeUleb128` | src/format/frame_codec.cpp:278-301 | the shifting loop gives the value, the length and each of its three errors as `UlebParse` defines them |
| `Wire.UlebRoundTrip` | src/format/frame_codec.cpp:261-301 | the decoder inverts the encoder wherever the encoding sits in a buffer |
| `Wire.UlebCanonical` | src/format/frame_codec.cpp:278-301 | whatever is accepted is exactly the canonical encoding of the value returned |
| `Wire.UlebMeaning` | src/format/frame_codec.cpp:261-276 | the bytes written have the value in base 128, low group first, all but the last going on, and none too many |
| `Wire.UlebErrorIff` | src/format/frame_codec.cpp:278-301 | more data is needed exactly when fewer than five bytes are there and all go on, too long exactly when five do, anything else refused is not canonical |
| `Wire.BigEndian` | docs/LTX_PROTOCOL.md:3-17 | each fixed-width integer is written most significant byte first |
| `Extensions.WriteExtensions` | src/format/frame_codec.cpp:350-374 | writes the stably sorted list, or fails exactly when some type exceeds 15 bits |
| `Extensions.CanonicalOrder` | src/format/frame_codec.cpp:350-358 | on the wire types ascend, required before optional within a type, otherwise in the given order |
| `Extensions.ParseExtensions` | src/format/frame_codec.cpp:303-348 | the cursor loop returns the list or the first of its errors as `ParseFrom` defines them |
| `Extensions.ParseWritten` | src/format/frame_codec.cpp:303-374 | parsing what was written gives the list back, or the unknown-required error exactly when one is not known |
| `Extensions.ParsedRewrites` | src/format/frame_codec.cpp:303-374 | an accepted extension block is byte for byte the written form of the list it yields |
| `FrameCodec.Codec.Encode` | src/format/frame_codec.cpp:396-440 | the encoder produces the sealed frame of `EncodeSpec`, or the same error at the same check |
| `FrameCodec.Codec.Next` | src/format/frame_codec.cpp:450-607 | one pass of the decoder loop: need more, the error of the first failing check, or the frame and its length |
| `FrameCodec.Codec.Feed` | src/format/frame_codec.cpp:442-614 | the events and the kept buffer are those of draining old buffer plus new bytes; the loop terminates |
| `CodecTheorems.FrameLayout` | docs/LTX_PROTOCOL.md:5-17 | where everything in an encoded frame is: the magic LTX1, the numbered type, zero flags, the lengths, channel, generation and number in network byte order, the parts in order, and the checksum of all before it |
| `CodecTheorems.ExtensionLayout` | docs/LTX_PROTOCOL.md:19-25 | an extension is its type with the high bit for a required one, its length in base 128, and its value |
| `Fixture.StartsWithFixture` | fixtures/ltx1/memory_hello.trace:2 | a connection with the default policy and the echo plugin starts with exactly the 73 published bytes |
| `CodecTheorems.EncodeDecode` | src/format/frame_codec.cpp:396-607 | encoded bytes, whatever follows them, decode to the frame with extensions in canonical order exactly when all required types are known |
| `CodecTheorems.FeedEncoded` | src/format/frame_codec.cpp:396-614 | feeding one encoded frame to an idle decoder yields exactly that frame and keeps no byte |
| `CodecTheorems.DecodeEncode` | src/format/frame_codec.cpp:396-607 | re-encoding an accepted frame reproduces its bytes exactly when its equal-type extensions were required-first; it never fails |
| `CodecTheorems.DrainReads` | src/format/frame_codec.cpp:442-614 | frames, first error and residue of one `feed` are those of the stream read from the front |
| `CodecTheorems.ChunkIndependence` | src/format/frame_codec.cpp:442-614 | every way of cutting a stream into `feed` calls, end of input on the last or not, gives the same frames and the same first error as one call |
| `CodecTheorems.ResidueBound` | src/format/frame_codec.cpp:450-475 | the kept bytes are exactly the undecoded suffix, at most `max(20, max_frame - 1)` of them, and none after an error |
| `Reassembling.Reassembler.Insert` | src/channel/channel_state.cpp:64-146 | the loops over the stored ranges, the sort and the copy change the state and answer as `InsertSpec` says, errors included, and keep the store valid |
| `Reassembling.Reassembler.ResetMessage` | src/channel/channel_state.cpp:148-157 | drops one message and gives its bytes back to the shared budget |
| `Reassembling.InsertRefusals` | src/channel/channel_state.cpp:64-108 | for any store and fragment: refused for its numbers without change; a changed total and, exactly when some byte differs from a stored one at the same position, a conflict forget the message, give back its bytes and touch nothing else; other refusals are for want of budget |
| `Reassembling.InsertAccepts` | src/channel/channel_state.cpp:108-146 | any other fragment: held already, it changes nothing; otherwise it costs its size, and the message is delivered, with the stored bytes, exactly when every position is stored |
| `Reassembling.SliceStep` | src/channel/channel_state.cpp:64-146 | one true slice of `m`: refused only for want of budget and then without change; delivers exactly `m` if it completes the coverage, and otherwise just extends the coverage |
| `Reassembling.ExactDelivery` | src/channel/channel_state.cpp:64-157 | on any run with slices of `m` in any order, duplicated, overlapping and mixed with other messages, `m` is delivered at exactly the calls where coverage becomes complete |
| `Reassembling.EveryRun` | src/channel/channel_state.cpp:64-157 | on every run stored ranges agree on overlaps, lie inside their message, and `retained_` is their total size, within the limit |
| `Reassembling.ReachesIff` | src/channel/channel_state.cpp:126-137 | the coverage loop reports completion exactly when every position lies in a stored range |
| `Reassembling.ArrangementIrrelevant` | src/channel/channel_state.cpp:122-124 | how the unstable sort orders ranges with equal offsets changes no answer |
| `Channels.FlowAccount.Reserve` | src/channel/channel_state.cpp:20-31 | moves credit from available to reserved, or refuses without change |
| `Channels.FlowAccount.Release` | src/channel/channel_state.cpp:33-46 | gives reserved credit back; a failing release has already lowered the reservation |
| `Channels.FlowAccount.Grant` | src/channel/channel_state.cpp:48-60 | adds credit within the window, with the 64-bit wrap of the comparison |
| `Channels.ReserveRelease` | src/channel/channel_state.cpp:20-46 | a reservation succeeds exactly when the credit is there, and releasing it restores the account |
| `Channels.GrantIff` | src/channel/channel_state.cpp:48-60 | on a balanced account a credit is accepted exactly when `window + amount` reaches 2^64 while the sum of available and amount does not; with 32-bit values never |
| `Channels.ChannelTable.constructor` | src/channel/channel_state.cpp:159-170 | all slots free, numbered from 1, generation 0 |
| `Channels.ChannelTable.Allocate` | src/channel/channel_state.cpp:172-191 | the first free slot decides: next generation, or the error when its generations are used up |
| `Channels.ChannelTable.AcceptRemote` | src/channel/channel_state.cpp:193-214 | accepts exactly the next generation (modulo 256) of a free slot in range |
| `Channels.ChannelTable.Activate` | src/channel/channel_state.cpp:216-223 | only an opening channel becomes open |
| `Channels.ChannelTable.ReserveSendSequence` | src/channel/channel_state.cpp:225-236 | hands out the next send number and refuses at the last one |
| `Channels.ChannelTable.HalfClose` | src/channel/channel_state.cpp:238-255 | closes one direction; the second one makes the channel closing |
| `Channels.ChannelTable.Reset` | src/channel/channel_state.cpp:257-266 | turns a live channel into a tombstone with fresh credit and no fragments |
| `Channels.ChannelTable.RetireTombstone` | src/channel/channel_state.cpp:268-278 | frees exactly a tombstone of the given id |
| `Channels.ChannelTable.CountLive` | src/channel/channel_state.cpp:304-308 | the number of slots neither free nor tombstone |
| `Channels.AllocateIff` | src/channel/channel_state.cpp:172-191 | allocation succeeds exactly when the first free slot has a generation left; it takes that slot for a fresh lifetime whose id resolves then and did not before; nothing else changes |
| `Channels.AcceptIff` | src/channel/channel_state.cpp:193-214 | a remote OPEN is taken exactly on a free slot for its next generation modulo 256 |
| `Channels.EndIff` | src/channel/channel_state.cpp:257-278 | exactly a live id can be reset and exactly its tombstone retired; nothing else changes |
| `Channels.Lifecycle` | src/channel/channel_state.cpp:172-278 | allocated, activated, reset and retired, an id resolves exactly in between, and its slot is then free for the next generation only |
| `Channels.LiveCountIs` | src/channel/channel_state.cpp:304-308 | the number of slots whose own id resolves |
| `Channels.FindIff` | src/channel/channel_state.cpp:172-290 | on every run an id minted for lifetime `k` of a slot resolves exactly when the slot is live in a lifetime equal to `k` modulo 256 |
| `Channels.StaleNeverResolves` | src/channel/channel_state.cpp:172-290 | if no remote OPEN is taken at generation 255, an id of an ended lifetime never resolves |
| `Channels.WrapRevives` | src/channel/channel_state.cpp:201 | after 256 lifetimes a remote OPEN makes the id of the first one resolve again, so the condition above is needed |
| `Channels.StatesAlwaysMatch` | src/channel/channel_state.cpp:238-266 | on every run a live channel state says exactly which directions are closed |
| `Scheduler.OutboundScheduler.Enqueue` | src/schedule/outbound_scheduler.cpp:9-32 | accepts, or refuses without any change, as `EnqueueSpec` says |
| `Scheduler.OutboundScheduler.Drain` | src/schedule/outbound_scheduler.cpp:34-115 | both loops, the rotation and the final sweep change the queues and write the chunks of `DrainSpec` |
| `Scheduler.OutboundScheduler.IsEmpty` | src/schedule/outbound_scheduler.cpp:117-123 | looks at the queues, and is true exactly when the byte counter is 0 |
| `SchedulerTheorems.EnqueueIff` | src/schedule/outbound_scheduler.cpp:9-32 | accepted exactly with bytes, room beside all that is queued, and a number above those waiting on its channel; then last of its queue and nothing else changed; the error names the first that fails |
| `SchedulerTheorems.DrainWrites` | src/schedule/outbound_scheduler.cpp:34-115 | a drain writes exactly the smaller of what it may and of the control bytes plus the heads of all ready channels; if that is all, control is empty and each ready channel has given up its head, whole |
| `SchedulerTheorems.EmptyIffAllWritten` | src/schedule/outbound_scheduler.cpp:117-123 | on every run from an empty scheduler it is empty again exactly when, lane by lane, the bytes written are the bytes accepted |
| `Scheduler.DrainKeeps` | src/schedule/outbound_scheduler.cpp:34-115 | one drain writes at most `writable` bytes, control first, data only once control is empty, and lowers the counter by what it wrote |
| `SchedulerTheorems.AlwaysValid` | src/schedule/outbound_scheduler.cpp:9-115 | on every run `queued_bytes_` is the true total and within the limit |
| `SchedulerTheorems.Conservation` | src/schedule/outbound_scheduler.cpp:9-115 | on every run, per data channel and for control: bytes held plus bytes accepted equal bytes written followed by bytes held, in order |
| `SchedulerTheorems.RoundRobin` | src/schedule/outbound_scheduler.cpp:59-106 | while the head of a channel is ready no other channel is served twice before it, across partial writes, wrap-around, stalled and new channels |
| `SchedulerTheorems.StalledForever` | src/schedule/outbound_scheduler.cpp:81-85 | a channel whose head is not the expected sequence is never served again in any run |
| `SchedulerTheorems.DrainsToRest` | src/schedule/outbound_scheduler.cpp:34-115 | after `queued_bytes` drains of at least one byte only stalled data is left |
| `SchedulerTheorems.ConsecutiveDrains` | src/schedule/outbound_scheduler.cpp:81-105 | if the sequences accepted on each channel are consecutive, whatever else was refused, none stalls and `queued_bytes` such drains empty the scheduler |
| `SchedulerTheorems.PassOrStall` | src/schedule/outbound_scheduler.cpp:9-115 | queues at rest, one item, one full drain: the item comes out whole exactly when the gate lets it pass, and the queues are at rest again |
| `Replay.ReplayWindow.Record` | src/replay/replay_window.cpp:94-108 | appends, dropping the front of a full window, or refuses without change |
| `Replay.ReplayWindow.Acknowledge` | src/replay/replay_window.cpp:110-146 | the sort, the checks and the erasing loop retire and keep what `AcknowledgeSpec` says |
| `Replay.ReplayWindow.DueForRetry` | src/replay/replay_window.cpp:148-159 | counts entries up from the front until one is exhausted |
| `Replay.ReplayWindow.RetainedFrom` | src/replay/replay_window.cpp:161-199 | the entries from a number on, or the resume error |
| `Replay.RecordIff` | src/replay/replay_window.cpp:94-108 | recorded exactly in the epoch of the window and under a number not there; last, with the oldest entry given up exactly when the window is full |
| `Replay.AcknowledgeExact` | src/replay/replay_window.cpp:110-146 | accepted exactly for a matching epoch and well-formed, pairwise disjoint ranges not beyond the newest frame; then exactly their union is retired, else nothing changes |
| `Replay.AcknowledgeAgainIff` | src/replay/replay_window.cpp:127-131 | repeating an acknowledgement is accepted exactly when it emptied the window or left the newest frame; it never retires more |
| `Replay.ExactlyOnePlace` | src/replay/replay_window.cpp:94-146 | with rising records every recorded frame is in exactly one of retained, acknowledged and evicted, and evictions took the smallest |
| `Replay.RetryIff` | src/replay/replay_window.cpp:148-159 | fails exactly when some entry is exhausted; a failing call has changed counts exactly when the front entry was not |
| `Replay.RetryAllOrNothing` | src/replay/replay_window.cpp:94-159 | on every run from an empty window a retry counts up and returns every entry, or fails and changes nothing |
| `ReplayText.RetryCanBePartial` | src/replay/replay_window.cpp:148-159 | a window that a snapshot restores and on which a failing retry has counted the front up, so the restriction to empty starts is needed |
| `Replay.ResumeIff` | src/replay/replay_window.cpp:161-199 | accepted exactly within `[earliest, latest + 1]`, also at the top of 32 bits; the answer is the suffix from there |
| `Replay.ResumeComplete` | src/replay/replay_window.cpp:94-199 | with rising records an accepted resume returns exactly the frames recorded from there on that were not acknowledged: it never skips an eviction |
| `Replay.EncodeAck` | src/replay/replay_window.cpp:334-359 | the payload of the sorted ranges, or the error of its checks |
| `Replay.DecodeAck` | src/replay/replay_window.cpp:361-391 | the ranges in payload order, checked by re-encoding |
| `Replay.AckEncodeDecode` | src/replay/replay_window.cpp:334-391 | encoding accepts exactly well-formed disjoint ranges, at most 65535; decoding gives them back ascending |
| `Replay.AckDecodeEncode` | src/replay/replay_window.cpp:334-391 | exactly which payloads are accepted; re-encoding reproduces the bytes exactly when the ranges came ascending |
| `Replay.AckLayout` | src/replay/replay_window.cpp:334-359 | where epoch, count and the ends of each range are, in network byte order |
| `ReplayText.ParseU64` | src/replay/replay_window.cpp:69-88 | the digit loop with its overflow guard |
| `ReplayText.ParseU64Iff` | src/replay/replay_window.cpp:69-88 | accepts a non-empty digit string exactly when its value fits 64 bits, and returns that value |
| `ReplayText.ParseHex` | src/replay/replay_window.cpp:38-67 | two characters a byte, or the error |
| `ReplayText.ParseHexIff` | src/replay/replay_window.cpp:38-67 | accepts exactly even strings of hexadecimal digits of either case; printing the result gives the text in lower case |
| `ReplayText.Serialize` | src/replay/replay_window.cpp:201-211 | header, capacity, epoch and one line an entry |
| `ReplayText.Restore` | src/replay/replay_window.cpp:213-276 | the line by line reader: same lines skipped, same rejections |
| `ReplayText.RestoreByLines` | src/replay/replay_window.cpp:213-276 | a snapshot is its header, capacity and epoch lines and then entries; blank lines among the entries mean nothing, anything else is refused |
| `ReplayText.RoundTripIff` | src/replay/replay_window.cpp:201-276 | restoring a serialized window gives it back exactly when capacity and epoch are positive, sequences ascend within capacity, bytes are non-empty and epochs match |
| `ReplayText.SnapshotReads` | src/replay/replay_window.cpp:201-211 | a snapshot of one entry, letter for letter |
| `ReplayText.AcceptedIsPortable` | src/replay/replay_window.cpp:213-276 | every accepted text restores to such a window |
| `ReplayText.SnapshotFixedPoint` | src/replay/replay_window.cpp:201-276 | serializing an accepted snapshot gives a text that restores to the same window and serializes to itself |
| `Timers.TimerWheel.Schedule` | src/replay/replay_window.cpp:297-311 | a new id, and the timers kept by due time then id |
| `Timers.TimerWheel.Cancel` | src/replay/replay_window.cpp:313-323 | removes the timer or reports that it is not live |
| `Timers.TimerWheel.Expire` | src/replay/replay_window.cpp:325-332 | the loop removes the due front |
| `Timers.CancelIff` | src/replay/replay_window.cpp:313-323 | cancelling succeeds exactly for an id some timer carries, and takes exactly those away |
| `Timers.ExpiresExactlyDue` | src/replay/replay_window.cpp:297-332 | on every run exactly the due timers expire, soonest first, and all others stay |
| `Hellos.EncodeHello` | src/connection/negotiator.cpp:98-128 | the payload with plugins by family, or its errors |
| `Hellos.DecodeHello` | src/connection/negotiator.cpp:130-169 | the cursor readers give the message exactly when the length fits the count |
| `Hellos.Negotiate` | src/connection/negotiator.cpp:171-215 | the checks in order, the nested plugin loops, the sort and the hash |
| `Hellos.MatchPlugins` | src/connection/negotiator.cpp:194-205 | the common plugins of two lists, or none at the first schema mismatch |
| `Hellos.HelloRoundTrip` | src/connection/negotiator.cpp:98-169 | a HELLO encodes exactly for a non-empty version range and distinct families; the peer reads it back with limits cut to 32 bits, or fails when there are more than 65535 plugins |
| `Hellos.HelloDecodeEncode` | src/connection/negotiator.cpp:98-169 | an accepted payload is reproduced exactly when its versions are in order and its families ascend |
| `Hellos.NegotiateSymmetric` | src/connection/negotiator.cpp:171-215 | negotiation gives both sides the same result, errors included |
| `Hellos.BothEndsAgree` | src/connection/negotiator.cpp:65-215 | after the HELLOs crossed both ends hold the same error or the same capability set and transcript hash, for limits below 2^32 |
| `Hellos.AgreeIff` | src/connection/negotiator.cpp:98-215 | for limits of any size, where at least one end goes ahead after the HELLOs crossed, both hold the same capability set exactly when each pair of limits survives the cut to 32 bits |
| `Hellos.WideLimitsDisagree` | src/connection/negotiator.cpp:105-107 | a limit of 2^32 + 200 against one of 300: the two ends settle on different frame sizes |
| `Hellos.WideLimitsSplit` | src/connection/negotiator.cpp:105-107 | a limit of 2^32 + 50 against one of 300: one end goes ahead and the other rejects |
| `Hellos.OrderSettledIff` | src/connection/negotiator.cpp:194-214 | what the unstable sort returns is determined exactly when no two matches of one family differ, as when neither end offers a family twice |
| `Hellos.RepeatedFamily` | src/connection/negotiator.cpp:155-169 | a payload that names a family twice is read, and then the order of the matches, and with it the hash, is open |
| `Hellos.NegotiateMeaning` | src/connection/negotiator.cpp:171-215 | exactly when a session is agreed; the chosen major lies in both ranges, required features are kept, and the plugins are exactly the common ones |
| `Hellos.AgreedMeaning` | src/connection/negotiator.cpp:175-193 | the agreed version is the highest both speak, each limit the greatest within both offers, and a feature is agreed exactly when each end requires or offers it |
| `Hellos.AgreedPlugins` | src/connection/negotiator.cpp:194-209 | the plugins agreed are exactly the common ones, each with the schema both name and the greatest depth within both offers |
| `Hellos.NegotiateErrors` | src/connection/negotiator.cpp:171-209 | which error a failed negotiation has |
| `Hellos.HashInputInjective` | src/connection/negotiator.cpp:65-96 | sets with limits below 2^32 have the same hash input only if they agree in every field, the order of plugins included |
| `Hellos.HashWords` | src/connection/negotiator.cpp:65-96 | the four words of the hash: the checksum of the input, that of the input with A5 behind it, the bits in which they differ, and their sum modulo 2^32 |
| `Hellos.HelloLayout` | src/connection/negotiator.cpp:98-128 | where everything in the fixed part of a HELLO is, in network byte order |
| `Hellos.DescriptorLayout` | src/connection/negotiator.cpp:121-126 | and in each plugin descriptor |
| `Executors.ThreadedExecutor.Submit` | src/connection/event_loop.cpp:145-165 | the section under the lock: accept with the next id, or the first applicable error |
| `Executors.ThreadedExecutor.Enter` | src/connection/event_loop.cpp:107-122 | a worker with the lock takes its front task, leaves or sleeps |
| `Executors.ThreadedExecutor.Finish` | src/connection/event_loop.cpp:126-135 | records the first error, lowers `active`, and says whether idleness is announced |
| `Executors.AcceptedIff` | src/connection/event_loop.cpp:145-165 | on every run a task is accepted exactly when it is not empty, shutdown has not begun, its shard exists and fewer than `capacity` accepted tasks are neither running nor finished; it is then last on its shard; the error names the first that fails |
| `Executors.ShutdownDrains` | src/connection/event_loop.cpp:176-191 | from the moment shutdown begins nothing more is accepted, whatever the threads do; when none can move, every task accepted before has finished and every worker has left |
| `Executors.AlwaysSound` | src/connection/event_loop.cpp:101-191 | under every interleaving `queued` is the sum of the shard queues within capacity, `active` counts running workers, and no sleeper is forgotten |
| `Executors.ExactlyOnce` | src/connection/event_loop.cpp:101-165 | under every interleaving an accepted task is finished, running on its shard or queued there, in one place and once |
| `Executors.SerialPerShard` | src/connection/event_loop.cpp:104-165 | tasks of a shard finish in submission order with at most the next one running |
| `Executors.WaitIdleReturnsIff` | src/connection/event_loop.cpp:167-174 | `wait_idle` returns at a step exactly when everything accepted so far has finished, with the first failure |
| `Executors.NothingLeftBehind` | src/connection/event_loop.cpp:112-117 | once all workers have left, no accepted task is left and none can be accepted |
| `Executors.Settles` | src/connection/event_loop.cpp:104-191 | however scheduled, the pool comes to rest within a bounded number of its own steps |
| `Executors.RestIsQuiet` | src/connection/event_loop.cpp:104-191 | at rest every accepted task is finished, nobody is inside `wait_idle`, and a stopping pool has no worker left: no wake-up is lost |
| `Deterministic.DeterministicExecutor.Submit` | src/connection/event_loop.cpp:20-34 | appends with the next id, or the first applicable error |
| `Deterministic.DeterministicExecutor.Cancel` | src/connection/event_loop.cpp:36-45 | removes a queued task, or reports that there is none of that id |
| `Deterministic.AcceptedIff` | src/connection/event_loop.cpp:20-34 | on every run a task is accepted exactly when it is not empty, its shard exists and fewer than `capacity` accepted tasks have neither run nor been cancelled |
| `Deterministic.CancelIff` | src/connection/event_loop.cpp:36-45 | cancelling succeeds exactly for a queued number, and takes exactly that task out |
| `Deterministic.DeterministicExecutor.DrainOne` | src/connection/event_loop.cpp:47-54 | removes the front task and runs it; the calls it makes on the executor meanwhile take effect |
| `Deterministic.DeterministicExecutor.DrainAll` | src/connection/event_loop.cpp:56-64 | the loop, with tasks that submit and cancel while they run; it answers as `DrainAllSpec` says, or not within the given number of tasks |
| `Deterministic.DrainAllMeaning` | src/connection/event_loop.cpp:56-64 | success exactly when the queue was emptied and every task run succeeded; an error exactly when the last task run was the first to fail, and then that one |
| `Deterministic.DrainAllRuns` | src/connection/event_loop.cpp:47-64 | a full drain is a run of single steps, so the account below covers it |
| `Deterministic.DrainAllEnds` | src/connection/event_loop.cpp:56-64 | a drain still running after `n` tasks has seen `n` tasks queued at the start or accepted since |
| `Deterministic.MoreFuel` | src/connection/event_loop.cpp:56-64 | the bound decides nothing else: an answer reached within it is the answer for every larger one |
| `Deterministic.Resubmits` | src/connection/event_loop.cpp:56-64 | a task that submits its successor keeps the loop running forever |
| `Deterministic.TasksAccounted` | src/connection/event_loop.cpp:20-54 | on every run each accepted task ran, was cancelled or is queued, once, in submission order |
| `Engine.ConnectionEngine.constructor` | src/connection/engine.cpp:92-99 | a new connection for any policy; with a replay window of at least 1 it keeps everything the run theorems promise (`Valid`), which every public method preserves |
| `Engine.ConnectionEngine.Start` | src/connection/engine.cpp:101-121 | the HELLO goes out once, from the created state |
| `Engine.ConnectionEngine.Receive` | src/connection/engine.cpp:123-145 | decoded events are handled in order; the first failure ends the call and may close the connection |
| `Engine.ConnectionEngine.OpenChannel` | src/connection/engine.cpp:147-180 | allocates, activates, announces |
| `Engine.ConnectionEngine.Send` | src/connection/engine.cpp:182-234 | the checks, the reservation, the fragment loop and the release on every path |
| `Engine.ConnectionEngine.Acknowledge` | src/connection/engine.cpp:246-256 | emits an ACK frame for ranges that encode |
| `Engine.ConnectionEngine.CompletePlugin` | src/connection/engine.cpp:278-289 | a response counts only while its channel is live |
| `Engine.ConnectionEngine.AdvanceTime` | src/connection/engine.cpp:291-356 | the expired timers in order, until one fails |
| `Engine.ConnectionEngine.FlushOutbound` | src/connection/engine.cpp:358-364 | between calls there is never anything to write |
| `Engine.ConnectionEngine.ExportReplaySnapshot` | src/connection/engine.cpp:366-368 | the text of the window, which restores to it exactly when the window is portable |
| `Engine.ConnectionEngine.LoadReplaySnapshot` | src/connection/engine.cpp:370-391 | replaces the window before start; an exhausted one is refused after it was put in place |
| `Engine.ConnectionEngine.HalfClose` | src/connection/engine.cpp:393-408 | closes one direction and announces it |
| `Engine.ConnectionEngine.Reset` | src/connection/engine.cpp:410-424 | resets a live channel and announces it |
| `Engine.ConnectionEngine.GoAway` | src/connection/engine.cpp:426-434 | starts draining |
| `Engine.ConnectionEngine.HandleFrame` | src/connection/engine.cpp:447-485 | one handler a frame type |
| `Engine.ConnectionEngine.HandleHello` | src/connection/engine.cpp:487-512 | negotiates once and builds the channel table |
| `Engine.ConnectionEngine.HandleOpen` | src/connection/engine.cpp:514-537 | accepts a negotiated family on the next generation |
| `Engine.ConnectionEngine.HandleData` | src/connection/engine.cpp:539-575 | checks, credit and reassembly of one fragment |
| `Engine.ConnectionEngine.Deliver` | src/connection/engine.cpp:575-587 | timer, order check and delivery event |
| `Engine.ConnectionEngine.Dispatch` | src/connection/engine.cpp:587-631 | the plugin, through the executor or at once, its answer taken as a function of family and message |
| `Engine.ConnectionEngine.HandleCredit` | src/connection/engine.cpp:634-653 | grants credit to a live channel |
| `Engine.ConnectionEngine.HandleAck` | src/connection/engine.cpp:655-669 | retires acknowledged frames |
| `Engine.ConnectionEngine.HandlePing` | src/connection/engine.cpp:671-685 | answers with the token |
| `Engine.ConnectionEngine.HandlePong` | src/connection/engine.cpp:687-702 | lifts the deadline for the matching token |
| `Engine.ConnectionEngine.HandleResume` | src/connection/engine.cpp:704-737 | hands out the retained suffix and revives the connection |
| `Engine.ConnectionEngine.Emit` | src/connection/engine.cpp:739-753 | encode, record, queue, write out |
| `EngineSteps.CallSteps` | src/connection/engine.cpp:101-762 | every call but two is a sequence of fourteen kinds of small steps that ends in the state the call leaves, with a bound on the frames it numbers |
| `EngineSteps.CreditRefused` | src/connection/engine.cpp:634-653 | on any reachable state a CREDIT frame is refused and changes nothing |
| `EngineRuns.EmitOutcome` | src/connection/engine.cpp:739-762 | with a settled outbox an emitted frame is handed out whole, byte for byte what was recorded, exactly when the gate lets it pass; otherwise nothing is |
| `EngineRuns.AlwaysSettled` | src/connection/engine.cpp:739-762 | on every run, between calls no control frame waits, waiting data is stalled and flushing yields nothing |
| `EngineRuns.ShutForever` | src/connection/engine.cpp:755-762 | once another frame has taken the number a channel of a started connection waits for, no later `send` on it ever hands out a byte, whatever calls come between, loads included |
| `EngineRuns.OpenOrShut` | src/connection/engine.cpp:755-762 | on every run, snapshots loaded or not, a channel gate is open, or shut for good |
| `EngineRuns.GateShuts` | src/connection/engine.cpp:755-762 | how that happens: the channel has sent, and then any other frame is numbered |
| `EngineRuns.CapabilitiesOnce` | src/connection/engine.cpp:487-512 | on every run capabilities are set at most once and never altered, lie within the policy, and the connection is active only with them |
| `EngineReplay.FramesInOrder` | src/connection/engine.cpp:436-445 | on every run that does not exhaust the frame numbers, restored or not, the window holds frames in strictly increasing order, all below the next number |
| `EngineNumbers.HandedRise` | src/connection/engine.cpp:436-445 | on every such run whose accepted loads continue above what was handed out, the frames handed out have strictly increasing numbers |
| `EngineNumbers.RiseIff` | src/connection/engine.cpp:370-391 | a load keeps them rising on every continuation exactly when it continues above what was handed out |
| `EngineNumbers.NoLowerIsForward` | src/connection/engine.cpp:381-389 | a load that does not lower the next frame number is such a load |
| `EngineNumbers.NumberTwice` | src/connection/engine.cpp:258-264 | PING, load of an empty snapshot, PING: number 1 is handed out twice, so that condition is needed |
| `EngineNumbers.CallAnswers` | src/connection/engine.cpp:101-434 | a successful call answers with exactly the encodings of the frames it newly handed out |
| `EngineNumbers.FrameAnswers` | src/connection/engine.cpp:447-737 | so does every handler but RESUME, which hands out no new frame |
| `EngineNumbers.TimerAnswers` | src/connection/engine.cpp:291-356 | so does every timer but a retry, which hands out no new frame |
| `EngineNumbers.LoadFailsIff` | src/connection/engine.cpp:370-391 | a load fails exactly outside the created state, for a text that does not restore, or for a newest number of 2^32 - 1 |
| `EngineNumbers.FailedLoadChangesIff` | src/connection/engine.cpp:370-391 | a failed load has still replaced the window exactly when the connection is new and the text restores to another window; nothing else changes |
| `EngineNumbers.RefusedLoadSticks` | src/connection/engine.cpp:381-389 | a text that is refused and whose window stays |
| `EngineNumbers.EmitsIff` | src/connection/engine.cpp:739-753 | a frame that encodes and has room is let out exactly when the epoch of the window is 1 |
| `EngineNumbers.StartsIff` | src/connection/engine.cpp:739-753 | so a restored connection can start exactly for a snapshot of epoch 1 |
| `EngineNumbers.EpochTwoLoads` | src/connection/engine.cpp:370-391 | a snapshot of epoch 2 that loads, after which the start fails |
| `EngineNumbers.MuteForever` | src/connection/engine.cpp:739-753 | a connection with a window of another epoch that has left the created state never hands out a frame again |
| `EngineNumbers.OutboxOnlyGrows` | src/connection/engine.cpp:755-762 | stalled data never leaves the outbox: on no run do its bytes become fewer |
| `EngineNumbers.StalledAdds` | src/connection/engine.cpp:739-762 | a frame that is taken and meets a shut gate adds its whole encoding to them |
| `EngineNumbers.LockedOut` | src/connection/engine.cpp:739-753 | so a frame there is no room for, control frames included, is refused for good |
| `EngineReplay.ResumeHonoured` | src/connection/engine.cpp:704-737 | on such runs a RESUME is honoured exactly for the right hash and epoch within the window, and answered with exactly the retained suffix |
| `EngineLedger.DeliveryAccount` | src/connection/engine.cpp:539-631 | on every run, per channel id, deliveries are numbered 1, 2, 3, ..., and at every moment the responses that were not claimed by a call of `complete_plugin` from outside answer distinct earlier deliveries, whatever order jobs run in |
| `EngineLedger.ResponsesCovered` | src/connection/engine.cpp:278-289 | on every run, per channel id, responses given and still due are covered by the deliveries and the numbers claimed from outside |
| `EngineLedger.ClaimBalancedIff` | src/connection/engine.cpp:278-289 | a completion from outside keeps the responses within the deliveries exactly when it is ignored or refused, or some delivery of its number is neither answered nor about to be |
| `EngineMeet.AnsweredUnasked` | src/connection/engine.cpp:278-289 | a reachable channel without any delivery on which `complete_plugin` from outside answers a number of its choice, and again |
| `EngineLedger.AnsweredAtMostOnce` | src/connection/engine.cpp:587-631 | for fewer than 2^32 deliveries on a channel id, a message is answered at most once, and only if delivered, but for the answers claimed from outside, which are counted one by one |
| `EngineLedger.RightAnswers` | src/connection/engine.cpp:587-631 | on every run, whatever order jobs run in, each response not claimed from outside carries what the plugin named by the DATA frame of an earlier delivery answers to that very message, with its channel and number |
| `EngineLedger.DataNames` | src/connection/engine.cpp:539-586 | the family noted for a delivery is the one in the DATA frame that completed the message |
| `EngineLedger.SilentAfterReset` | src/connection/engine.cpp:278-289 | after an id was reset no call and no late job delivers or answers on it again |
| `EngineLedger.ResetSilences` | src/connection/engine.cpp:410-424 | the same from any reachable state after a successful reset |
| `EngineSend.PiecesTile` | src/connection/engine.cpp:211-214 | the fragments tile the payload |
| `EngineSend.SentAt` | src/connection/engine.cpp:205-221 | fragment `k` is the `k`-th stretch of half an agreed frame, numbered in turn, with its place in the message and the size of the whole |
| `EngineSend.FragmentFits` | src/connection/engine.cpp:210-220 | a fragment of half the negotiated frame encodes within it, from the 128-byte minimum on |
| `EngineSend.SendHandsOut` | src/connection/engine.cpp:182-234 | on an open gate with room `send` hands out all fragments, each within the negotiated frame, and leaves the connection settled, the gate open at the next number |
| `EngineSend.SendAllOrNothing` | src/connection/engine.cpp:182-234 | with all else in place `send` hands out the whole message exactly when the gate is open, and nothing otherwise |
| `EngineReceive.SendThenReceive` | src/connection/engine.cpp:182-234 | fragments sent, encoded, decoded and reassembled by an in-step peer end in one dispatch of the same message under the same number; the receiver then waits for the next number, with its credit and its other fragments as they were |
| `EngineReceive.SendOutOfStep` | src/connection/engine.cpp:575-586 | at a peer that waits for an earlier number the message is taken in and refused: no event of it, and the peer still waits |
| `EngineLate.DataRefusals` | src/connection/engine.cpp:539-564 | which DATA frames are refused unlooked at, with which error, and that the connection stays as it was, a message already delivered among them |
| `EngineLate.NothingStale` | src/connection/engine.cpp:539-586 | on every run no channel holds a fragment of a message it has already delivered, so all that counts against the budget can still become a message |
| `EngineLate.SendTooLate` | src/connection/engine.cpp:561-564 | the bytes of a message at a peer that is past its number are refused and nothing of them is kept |
| `EngineLate.ArrivesOnce` | src/connection/engine.cpp:539-586 | the bytes of a message that has arrived, received again, are refused, deliver nothing and leave all but the diagnostic as it was |
| `EngineReceive.ExactlyOneMessage` | src/connection/engine.cpp:539-586 | the peer delivers exactly one message, with the bytes that were sent |
| `EngineReceive.FreshChannelReceives` | src/connection/engine.cpp:539-586 | a channel at the start of its lifetime is in step for every message within the caps |
| `EngineTalk.SenderKeeps` | src/connection/engine.cpp:182-234 | what `send` leaves at the sender: settled, the channel waiting for exactly the next frame number, its send number one higher, room and capabilities as before |
| `EngineTalk.MessagesArrive` | src/connection/engine.cpp:182-234 | message after message, each sent and received as bytes, where the plugin asks over none of them to close the connection: those before the first empty one arrive, whole, in order, once each, under consecutive numbers, and no other does; with none empty both ends are ready for more |
| `EngineTalk.EmptySend` | src/connection/engine.cpp:205-214 | an empty `send` takes a number and hands out nothing |
| `EngineTalk.EmptySendSilences` | src/connection/engine.cpp:575-586 | after one, no later message on that channel is ever delivered, however many are sent, empty or not |
| `EngineMeet.Handshake` | src/connection/engine.cpp:487-512 | the HELLOs of two new connections cross as bytes: both become active with the same capability set, or both report the same error and neither is active |
| `EngineMeet.FirstPairs` | src/connection/engine.cpp:147-180 | after a handshake that succeeds, opening a channel of an offered family succeeds, its bytes open it at the other side, and the two are ready for messages |
| `EngineMeet.Conversation` | src/connection/engine.cpp:101-234 | from two new connections, all as bytes: handshake, channel, and any messages within the agreed limits; those before the first empty one arrive, whole, in order, once each, numbered from 1, where the plugin asks over none of them to close the connection |
| `EngineTalk.SendThenOtherShuts` | src/connection/engine.cpp:755-762 | once a message has gone out, the next frame for anything else shuts the gate of its channel |
| `EngineTalk.OneMessageOnly` | src/connection/engine.cpp:755-762 | a message, a PING, and then nothing more on that channel, whatever is called and whatever is sent |
| `EngineChunks.ReceiveInTwo` | src/connection/engine.cpp:123-145 | receiving a stream in two calls, the first without failure, is receiving it in one: same state, same answers, same failure |
| `EngineChunks.ReceiveChunked` | src/connection/engine.cpp:123-145 | the same for every way of cutting the stream, end of input on the last piece or not; after a failure answers, failure and connection are the same too, but for the undecoded bytes |
| `EngineChunks.OneMessageHoweverCut` | src/connection/engine.cpp:123-145 | a message sent and cut up in any manner is delivered once, whole, whatever the plugin answers |
| `EnginePair.BareFrameCrosses` | src/format/frame_codec.cpp:396-607 | a frame without extensions, as all but DATA frames are, reaches the other end as it was made |
| `EngineChecks.PeerOpenIff` | src/connection/engine.cpp:514-537 | an OPEN is accepted exactly in the active state, with eight bytes naming an agreed family, for the next lifetime of a free slot; otherwise nothing changes |
| `EngineChecks.OpenChannelIff` | src/connection/engine.cpp:147-180 | `open_channel` starts a lifetime exactly when active, for an agreed family, with a slot to allocate; it is then open whether or not its OPEN could be emitted; otherwise nothing changes |
| `EngineChecks.SendIff` | src/connection/engine.cpp:182-234 | `send` takes a number exactly when active, for a live channel not closed for sending, a message within the agreed size and the window, with a number left; otherwise it fails with the first of these and changes nothing |
| `EngineChecks.DispatchIff` | src/connection/engine.cpp:587-631 | a delivered message waits in the executor exactly when there is room, or is answered at once; which errors, and when a token is used up |
| `EngineChecks.OutOfPlaceRefused` | src/connection/engine.cpp:447-702 | a frame on the wrong channel or of the wrong size, or a HELLO at the wrong time, fails without any change |
| `EngineChecks.DataLayout` | docs/LTX_PROTOCOL.md:29-34 | a fragment names message, offset, size and plugin in required extensions 1 to 4, in network byte order |
| `EngineChecks.ResumeLayout` | src/connection/engine.cpp:266-270 | a RESUME carries hash, epoch and number, in network byte order |
| `EngineClock.AgreedSets` | src/connection/engine.cpp:509 | a session that is agreed is probed thirty seconds on |
| `EngineClock.ProbeSets` | src/connection/engine.cpp:319-330 | a probe that goes out is followed by a deadline in five seconds and the next probe in thirty |
| `EngineClock.HandshakeDeadline` | src/connection/engine.cpp:300-308 | on every run a connection still without the HELLO of its peer is closed by the passing of time exactly from five seconds after its start on, whatever is called in between |
| `EngineClock.GoAwaySets` | src/connection/engine.cpp:426-434 | going away, at either end, is draining with a timer one second ahead |
| `EngineClock.GoAwayCrosses` | src/connection/engine.cpp:426-434 | the bytes of a GOAWAY leave both ends draining, each for one second of its own clock |
| `EngineClock.DrainIff` | src/connection/engine.cpp:341-346 | time closes a draining connection exactly when a drain timer expires, where no timer fails |
| `EngineClock.DrainForgotten` | src/connection/engine.cpp:291-356 | a PING that fails ends `advance_time` and the timers behind it are gone: a draining connection is left without its drain timer |
| `EngineClock.GapResets` | src/connection/engine.cpp:347-352 | a gap timer that expires resets its channel, where no timer fails and the connection stays open |
| `EngineClock.DeliveredThenReset` | src/connection/engine.cpp:575-586 | a message of more than one fragment is delivered, and its channel is reset all the same when the gap timers of its fragments expire |
| `EngineClock.FireRetry` | src/connection/engine.cpp:309-318 | a retry hands out all retained frames again and counts each up, exactly while none has been tried three times |
| `EnginePair.Crosses` | src/connection/engine.cpp:123-145 | receiving the bytes of a control frame is handling the frame that was made |
| `EnginePair.OpenIsAccepted` | src/connection/engine.cpp:147-180 | the bytes of an opened channel are accepted by the peer under the same id, and both ends start its lifetime alike |
| `EnginePair.HalfCloseMirrors` | src/connection/engine.cpp:457-469 | the bytes of a closed half are accepted by the peer, and the two views stay mirror images |
| `EnginePair.ClosedHalfIsShut` | src/connection/engine.cpp:191-194 | after that, `send` fails without change and late fragments are refused |
| `EnginePair.ResetCrosses` | src/connection/engine.cpp:470-476 | the bytes of a reset leave the channel live at neither end and every other channel as it was, also at a peer that had it not live |
| `EnginePair.AcknowledgementCrosses` | src/connection/engine.cpp:655-669 | the bytes of an acknowledgement retire at the peer exactly the frames the ranges name, exactly when its window can take them, and otherwise its window stays |
| `EnginePair.ResumeCrosses` | src/connection/engine.cpp:266-276 | the bytes of a RESUME are honoured exactly when hash and epoch are the peer's own and it retains what is asked for; its answer is exactly the recorded encodings from there on |
| `EnginePair.CreditCrosses` | src/connection/engine.cpp:236-244 | the bytes of a granted credit are refused by every peer, whose table stays as it was |
| `EnginePair.PingCrosses` | src/connection/engine.cpp:671-685 | the bytes of a PING are answered with a PONG for its token |
| `EnginePair.KeepAlive` | src/connection/engine.cpp:319-340 | the PING of the idle timer, the PONG that answers it and its way back, all as bytes: the deadline is lifted; without that PONG, or with that of another token, the deadline closes the connection |

## Left out

- The SSE4.2 checksum path and processor detection: hardware instructions; the table path is modelled. Its
  eight-byte load is read as little-endian, as on the hosts the program supports.
- Transports, tools, the replay file store, diagnostics, inspection and health reports: I/O, files and formatting.
- The gateway, route policy and trace files: lookups and text forms of the same shape as the snapshot.
- Error texts and the channel and sequence numbers attached to errors: an error is its scope, code and action.
- `std::sort` is modelled by a stable sort. `Reassembling.ArrangementIrrelevant` shows that the order of equal offsets
  does not matter, and acknowledgement ranges with equal starts are errors. A HELLO from a peer may name a family twice,
  as only the encoder refuses that; `Hellos.OrderSettledIff` says when the order of the matches is then determined.
- Credit accounts and reassemblers inside a channel slot are values of the slot; `FlowAccount` and `Reassembler` are
  also modelled as objects, but aliasing of a slot's parts is not.
- The executor a connection is given is its own: tasks other owners put into the same executor, its shard numbers and
  its ids are not part of a connection's state. Jobs may run in any order, which covers the queue's order.
- `Deterministic.DeterministicExecutor.DrainAll`: runs at most a given number of tasks, because the loop need not end;
  `Deterministic.DrainAllEnds` and `Deterministic.MoreFuel` say what the bound does. A task that drains the executor from
  inside is not modelled.
- `Engine.ConnectionEngine.Dispatch`: does not model factories, leases and plugins with state, because their code is
  supplied from outside; it takes a plugin's answer as a function of family and message.
- The worker pool is a state machine over its lock-protected sections; memory ordering below the mutex, thread creation
  and the 2^64 wrap of task ids are not modelled, and joining is the state in which every worker has left.
- Sizes are unbounded naturals where the program could only fail to allocate; 16-, 32- and 64-bit fields wrap or
  truncate as in the code.
- `Replay.ReplayWindow.Record`: requires a capacity of at least one, as the code does: it pops from an empty queue otherwise.
- `EngineReplay.FramesInOrder`: is stated for runs that do not reach the end of the 32-bit frame numbers, because numbers
  repeat after that; the bound counts the frames each call may number. Its runs also leave out the loads of
  `EngineNumbers.FailedLoadChangesIff` that fail and still replace the window.
- `EngineNumbers.HandedRise`: carries the same bound on frame numbers.
- `EngineRuns.ShutForever`: carries the same bound, as does `EngineRuns.OpenOrShut`, because a wrapped number could meet a waiting channel again.
- `EngineLedger.AnsweredAtMostOnce`: is stated for fewer than 2^32 deliveries on a channel id, because message numbers repeat
  after that.
