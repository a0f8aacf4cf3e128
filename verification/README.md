# Verified models of an mTCP core loop, pktgen and two binary encodings

The repository bundles the core loop of an mTCP stack (`example_code/core.c`), Intel's packet
generator pktgen 2.8.6 with the DPDK command-line library it uses, and a serialisation benchmark.
This project models the parts of them that hold state machines, rings, concurrent counters, codecs
and printers, and proves what each is for over all inputs, all histories or all interleavings.
`dafny verify dfyconfig.toml` checks everything.

| module | models |
|---|---|
| `Basics`, `Seqs` | shared types and small facts; sequences without duplicates, splicing |
| `StreamQueues`, `StreamManager`, `StreamRuns` | `HandleApplicationCalls`: the specification of one call, the loops as a class, and runs of calls interleaved with the application and the network |
| `EpollFlush` | `FlushEpollEvents` on two circular event queues |
| `CaptureStore`, `CaptureOwnership` | the packet capture store and who may capture on which socket |
| `Words`, `RandomBits`, `RandomApply`, `MaskText` | the random bitfield compiler, its application to packets, its printer and the command filter |
| `TxCounter` | the shared transmit counter under interleaved lcores |
| `RangeStep` | range stepping and the range setters |
| `LogRing`, `DumpList` | the message ring with its page, and the list of dumped packets |
| `XorShift` | the xorshift128+ generator |
| `Cmdline` | tokens of a command line |
| `PortList`, `PortListText`, `PortListParse` | port masks as runs, their printer, and the parser that reads them |
| `Codec`, `CodecBuffers`, `CodecUnsafe` | the two binary encodings: layout, `ByteBuffer`, `UnsafeMemory` |

## How the sources are modelled

**Streams.** A stream pointer is a key into the flow pool and every dereference is a map lookup, so
use after free would be a failed proof. The helpers that the source calls but does not contain
(`StreamDequeue`, `StreamInternalEnqueue`, `AddtoControlList`, `AddtoSendList`, `EnqueueACK`,
`RemoveFromTimeoutList`, `DestroyTCPStream`) take or add one queue entry, set or clear the one list
membership they are named after, or remove the stream from the pool, and do nothing else.
`StreamManager` runs the eight loops in the order of the code; `AfterCall` says what a call does
stream by stream. Between calls (`StreamRuns.Event`) the application may enqueue, streams may be
created and released, and the network may change any record without touching the queue flags or
leaving CLOSED. What a run may contain (`Allowed`) rests on these assumptions: a live stream is put on the close,
reset or destroy queue only while none of the three is pending for it; only live streams are
enqueued at all; a stream is released outside a call only when it is on no queue; a new stream has
a name that was never used, so that "a freed stream never lives again" is about names and not
about memory; and there are never more than max_concurrency streams. The first one is needed:
`SecondRequestDangles` says exactly when breaking it leaves a destroyed stream on a queue.
The code makes the two moves of the CLOSE call of RFC 9293 (section 3.10.4) that it knows,
ESTABLISHED to FIN-WAIT-1 and CLOSE-WAIT to LAST-ACK. The RFC also moves SYN-RECEIVED to FIN-WAIT-1;
the code leaves that state as it is, and so does the model.

**Capture.** Packets are unsegmented. Header fields are 16 bits wide and stored by a little-endian
host. The dump shows exactly what was stored if and only if every stored packet has 1 to 65534
bytes: an empty packet looks like the end of data (`EmptyPacketIsLost`), and a packet of 65535
bytes is stored with a data length that wraps to zero (`LongestPacketIsMisread`).

**Random bitfields.** Words are natural numbers below 2^32 with bits defined by division; masks are
kept in network order on a little-endian host, as `htonl` makes them. Random values are an
arbitrary stream of words. Two entries of a batch that point to the same packet are left out.
The mask argument of the command is one token, so the page text with its blanks does not reach the
filter whole (`PageTextAsArgument`).

**Transmit counter.** Any number of lcores, each between its read of the counter and its
compare-and-set at any time. A burst is at least 1 because `pktgen_set_tx_burst`
(pktgen-2.8.6/app/pktgen-cmds.c:1602) clamps it.

**Ranges.** The sum is computed modulo the width of the C variable. The closed form is proved
together with the exact condition under which it holds; `EarlyWrap` is a range for which it fails.
`pktgen_set_vlanid` (pktgen-2.8.6/app/pktgen-cmds.c:1111) does not clamp and `pktgen_range_setup`
copies the value; `pktgen_reset` sets the default first, so stepped packets stay in range.

**Log and dump.** A log message is taken in the form the page shows. The reset of the dump list
looks at its first entry in every turn of its loop, so the other entries keep their buffers until
they are used again; no buffer is freed twice or lost from the list.

**Port lists.** A mask is the set of its bits, with bit 63 clear because the inner loop of the
printer shifts past the word otherwise. The printer stops early when the text is longer than
`len - 5`, computed in 32 bits; `Fits` is the exact condition for the whole list to be printed. The
printer takes 64-bit masks while the parser accepts ports up to 31, so reading back what was
printed works exactly for non-empty masks of such ports.

**Encodings.** A double is its 64 bits. `ByteBuffer` is big-endian and checks its limit,
`UnsafeMemory` is little-endian and checks nothing, so that its callers must provide the room. The
32-bit shift `length << 3` is modelled and never overflows for an array that fits.

## Model

| member | source | states |
|---|---|---|
| `StreamQueues.StagesCompose` | example_code/core.c:582-778 | eight loops over shared records amount to one independent verdict per stream: every stage finds live streams, no duplicates and room to delay them, and together they reach the state `AfterCall` describes |
| `StreamQueues.AfterPairIs` | example_code/core.c:608-706 | draining a queue into its internal queue and rotating that queue once treats each stream exactly once, in order |
| `StreamQueues.PairQueues` | example_code/core.c:608-706 | the internal queue afterwards is its old contents filtered to the blocked streams, followed by the newly delayed ones in order |
| `StreamQueues.StageStep` | example_code/core.c:608-675 | one more dequeued stream still has its original record, and extends the pool, the delayed and the freed streams by exactly its verdict |
| `StreamQueues.JustDelayed` | example_code/core.c:633-684 | a stream delayed by the drain is still blocked when the rotation that follows meets it |
| `StreamQueues.RotationFreesNone` | example_code/core.c:678-770 | the rotations never destroy a stream |
| `StreamQueues.InternalQueuesNeverFull` | example_code/core.c:1181-1196 | with at most max_concurrency live streams both internal queues have room for everything waiting for them |
| `StreamManager.Manager.DrainConnect` | example_code/core.c:589-591 | the loop puts exactly the queued streams on the control list |
| `StreamManager.Manager.DrainSend` | example_code/core.c:593-596 | the loop clears on_sendq and puts exactly the queued streams on the send list |
| `StreamManager.Manager.DrainAck` | example_code/core.c:599-602 | the loop clears on_ackq and puts exactly the queued streams on the ack list |
| `StreamManager.Manager.Settle` | example_code/core.c:622-640 | the verdict is written back to the pool, the internal queue (which never meets its capacity) or the free list |
| `StreamManager.Manager.DrainClose` | example_code/core.c:606-675 | pool, internal queue and freed streams after the close loop, whose branches reach the specified verdict on every stream |
| `StreamManager.Manager.RotateCloseInt` | example_code/core.c:678-705 | the bounded rotate ends, leaves exactly the still blocked streams in the same order and acts once on every other |
| `StreamManager.Manager.DrainReset` | example_code/core.c:708-743 | pool, internal queue and freed streams after the reset loop, whose branches reach the specified verdict on every stream |
| `StreamManager.Manager.RotateResetInt` | example_code/core.c:746-770 | the same for the internal reset queue |
| `StreamManager.Manager.DrainDestroy` | example_code/core.c:773-775 | exactly the queued streams are destroyed, each once |
| `StreamManager.Manager.HandleNew` | example_code/core.c:588-602 | the first three loops together |
| `StreamManager.Manager.HandleCloses` | example_code/core.c:604-705 | close loop and rotation together |
| `StreamManager.Manager.HandleResets` | example_code/core.c:708-770 | reset loop and rotation together |
| `StreamManager.Manager.HandleApplicationCalls` | example_code/core.c:582-778 | the imperative call refines the per-stream specification `AfterCall` from every state that satisfies the invariant, empties the queues of the application and clears the wake-up flag |
| `StreamManager.Manager.constructor` | example_code/core.c:1161-1200 | the initial manager satisfies the invariant |
| `StreamRuns.OutcomeFlags` | example_code/core.c:604-775 | after a call a stream's on_closeq_int and on_resetq_int flags say exactly which internal queue it was put on |
| `StreamRuns.AfterCallQueues` | example_code/core.c:604-770 | which streams are on the internal queues after a call |
| `StreamRuns.AfterCallFreed` | example_code/core.c:604-775 | no stream is destroyed twice and none that was destroyed is alive |
| `StreamRuns.CallKeepsInv` | example_code/core.c:582-778 | a call keeps the invariant: flags and queues agree, nothing is queued twice or in two places, only live streams are queued |
| `StreamRuns.StepKeepsInv` | example_code/core.c:582-778 | so does everything the application and the network may do in between |
| `StreamRuns.InvAlways` | example_code/core.c:582-778 | the invariant holds after every legal run |
| `StreamRuns.FromStart` | example_code/core.c:1103-1200 | every legal run from the initial manager keeps the invariant and never needs more than max_concurrency entries in an internal queue |
| `StreamRuns.JudgeChanges` | example_code/core.c:620-769 | the only state changes are ESTABLISHED to FIN_WAIT_1, CLOSE_WAIT to LAST_ACK, and any other state to CLOSED, and only close and reset stages make them |
| `StreamRuns.CloseMoves` | example_code/core.c:647-665 | a close moves ESTABLISHED to FIN_WAIT_1 and CLOSE_WAIT to LAST_ACK and leaves every other state |
| `StreamRuns.DrainedClose` | example_code/core.c:620-674 | what the close loop decides about a stream and which state, reason and list it leaves it with |
| `StreamRuns.DrainedCloseFields` | example_code/core.c:608-618 | the last sequence number is the end of the send buffer modulo 2^32 or the next to send, the stream leaves the timeout list if timeouts are on, and no other field changes |
| `StreamRuns.DrainedReset` | example_code/core.c:716-742 | what the reset loop decides about a stream and which state, reason and list it leaves it with |
| `StreamRuns.DrainedResetFields` | example_code/core.c:709-742 | the timeout list, the flags, and no other field |
| `StreamRuns.RotatedReset` | example_code/core.c:751-769 | what the rotation does to a delayed reset, and that no other field changes |
| `StreamRuns.ChangeUsesRequest` | example_code/core.c:620-769 | a change needs a pending close or reset and uses it up; a stream destroyed by a request dies in CLOSED |
| `StreamRuns.ChangesPerRequest` | example_code/core.c:604-770 | over every run the state changes of a stream are at most its close and reset requests, whether acted on at once or after a delay |
| `StreamRuns.ClosedStep` | example_code/core.c:582-778 | one event does not leave CLOSED and does not revive a freed stream |
| `StreamRuns.ClosedIsFinal` | example_code/core.c:582-778 | over every run CLOSED is never left and a freed stream never lives again |
| `StreamRuns.FreshClose` | example_code/core.c:606-675 | a new close destroys a stream its peer has reset, waits exactly while the control list holds it, and otherwise moves ESTABLISHED to FIN_WAIT_1, CLOSE_WAIT to LAST_ACK and no other state, and puts the stream on the control list, at once or after pending data |
| `StreamRuns.FreshReset` | example_code/core.c:708-743 | a new reset destroys a stream its peer has reset, waits exactly while one of the three lists holds it, and otherwise closes it |
| `StreamRuns.DelayedClose` | example_code/core.c:678-705 | a delayed close is acted on, with those same moves, in the first call that finds the stream off the control list, and stays queued exactly until then |
| `StreamRuns.DelayedReset` | example_code/core.c:746-770 | a delayed reset is acted on in the first call that finds the stream off all three lists |
| `StreamRuns.BlockedCloseWaits` | example_code/core.c:678-705 | a close that every call finds blocked is neither lost nor acted on, over any run |
| `StreamRuns.BlockedResetWaits` | example_code/core.c:746-770 | the same for a reset that every call finds blocked |
| `StreamRuns.DelayedCloseActedOn` | example_code/core.c:678-705 | after any run that blocks a delayed close throughout, the call that first finds it unblocked acts on it: no state change before, and exactly one then if the stream is in ESTABLISHED (to FIN_WAIT_1) or CLOSE_WAIT (to LAST_ACK) |
| `StreamRuns.DelayedResetActedOn` | example_code/core.c:746-770 | the same for a delayed reset, which makes exactly one change, to CLOSED, unless the stream is closed already |
| `StreamRuns.SecondRequestDangles` | example_code/core.c:678-743 | were a stream reset while its close is delayed, the reset loop would destroy it and leave it on the internal close queue exactly when its peer has reset it, it is not closed and the control list holds it |
| `EpollFlush.EventQueue.Take` | example_code/core.c:558-567 | taking at the start index with wrap-around removes the oldest event |
| `EpollFlush.EventQueue.Put` | example_code/core.c:558-563 | storing at the end index with wrap-around appends an event and overwrites none |
| `EpollFlush.Epoll.MoveOne` | example_code/core.c:558-567 | one turn keeps the sequence of pending events across both rings |
| `EpollFlush.Epoll.MoveEvents` | example_code/core.c:556-568 | the loop moves as many events as there are and as fit and keeps their order |
| `EpollFlush.Epoll.FlushEpollEvents` | example_code/core.c:546-580 | user events followed by stack events are the same sequence before and after; the stack's ring is empty or the user's full; the signal condition, the wake counter and the time stamp |
| `CaptureStore.WalkFrom` | pktgen-2.8.6/app/pktgen-capture.c:246-257 | the walk shows the stored packets and stops at the sentinel if and only if each of them has 1 to 65534 bytes |
| `CaptureStore.PeekGood` | pktgen-2.8.6/app/pktgen-capture.c:248-257 | a record of such a length is found as it was stored and the next header behind it |
| `CaptureStore.PeekBad` | pktgen-2.8.6/app/pktgen-capture.c:248-257 | a record of any other length is never shown as the packet |
| `CaptureStore.FitIsLongest` | pktgen-2.8.6/app/pktgen-capture.c:330-337 | what a batch stores is its longest prefix that fits, and only that |
| `CaptureStore.LayoutAppend` | pktgen-2.8.6/app/pktgen-capture.c:339-345 | header and data written at the tail append one record and change none before it |
| `CaptureStore.EmptyPacketIsLost` | pktgen-2.8.6/app/pktgen-capture.c:246-257 | the dump shows the packets before the first one without data, and neither that one nor any behind it |
| `CaptureStore.LongestPacketIsMisread` | pktgen-2.8.6/app/pktgen-capture.c:328-345 | a packet of 65535 bytes is shown without data, and its data is taken for the next header |
| `CaptureStore.EmptyPacketIsStored` | pktgen-2.8.6/app/pktgen-capture.c:320-346 | a packet without data is stored nevertheless |
| `CaptureStore.Store.Enable` | pktgen-2.8.6/app/pktgen-capture.c:175-185 | an empty store with zeroed headers at both ends of the zone, also when they overlap |
| `CaptureStore.Store.Append` | pktgen-2.8.6/app/pktgen-capture.c:339-345 | one record more, the tail behind it |
| `CaptureStore.Store.AppendAll` | pktgen-2.8.6/app/pktgen-capture.c:320-346 | the loop stops after the longest fitting prefix and the tail never passes the end |
| `CaptureStore.Store.EndOfData` | pktgen-2.8.6/app/pktgen-capture.c:348-350 | the sentinel stands at the tail and no record changes |
| `CaptureStore.Store.CaptureBulk` | pktgen-2.8.6/app/pktgen-capture.c:310-351 | a batch appends its longest fitting prefix, `used` is the tail offset, the tail stays within the zone |
| `CaptureStore.Store.DumpWalk` | pktgen-2.8.6/app/pktgen-capture.c:246-257 | the dump loop is the reader `Walk` of the format, from the start of the zone |
| `CaptureStore.Store.Disable` | pktgen-2.8.6/app/pktgen-capture.c:222-284 | the dump is complete and shows exactly the captured packets if and only if all have a storable length |
| `CaptureStore.Session` | pktgen-2.8.6/app/pktgen-capture.c:130-351 | for every sequence of batches the dump shows the concatenation of the longest fitting prefixes, under exactly that condition |
| `CaptureOwnership.FindRxLcore` | pktgen-2.8.6/app/pktgen-capture.c:145-153 | the nested search finds the first lcore that receives from the port, or none |
| `CaptureOwnership.FirstReceiving` | pktgen-2.8.6/app/pktgen-capture.c:147-153 | the lcore found is the first that receives from the port; none found means none does |
| `CaptureOwnership.ExactlyOneSlot` | pktgen-2.8.6/app/pktgen-capture.c:130-288 | a port's capture flag is set exactly when one and only one initialised slot names it; a slot's lcore is free exactly when its port is |
| `CaptureOwnership.OnePortPerSocket` | pktgen-2.8.6/app/pktgen-capture.c:113-128 | two capturing ports use different sockets |
| `CaptureOwnership.EnableKeeps` | pktgen-2.8.6/app/pktgen-capture.c:175-187 | enabling keeps the ownership invariant |
| `CaptureOwnership.DisableKeeps` | pktgen-2.8.6/app/pktgen-capture.c:281-286 | so does disabling, which always finds the lcore |
| `CaptureOwnership.Control.constructor` | pktgen-2.8.6/app/pktgen-capture.c:96-110 | after initialisation every slot is free |
| `CaptureOwnership.Control.Enable` | pktgen-2.8.6/app/pktgen-capture.c:130-197 | each of the six outcomes occurs exactly under its condition; success changes one flag and one slot, anything else nothing |
| `CaptureOwnership.Control.Disable` | pktgen-2.8.6/app/pktgen-capture.c:198-287 | neither exit marked as impossible is taken; one flag and one slot are released |
| `CaptureOwnership.History` | pktgen-2.8.6/app/pktgen-capture.c:130-288 | for every history of commands the impossible exits never occur and flags and slots agree |
| `TxCounter.StepKeeps` | pktgen-2.8.6/app/pktgen-port-cfg.h:276-282 | every read and every compare-and-set of any lcore keeps the conservation and retry invariant |
| `TxCounter.RunKeeps` | pktgen-2.8.6/app/pktgen-port-cfg.h:270-285 | so does every interleaving |
| `TxCounter.GrantBounds` | pktgen-2.8.6/app/pktgen-port-cfg.h:280-284 | every grant lies between 1 and its burst, and is the whole burst or takes all that the grants before it have left |
| `TxCounter.CmpSetEffect` | pktgen-2.8.6/app/pktgen-port-cfg.h:280-282 | a successful compare-and-set takes a burst or all that is left for its lcore, a failed one nothing |
| `TxCounter.FullBeforeLast` | pktgen-2.8.6/app/pktgen-port-cfg.h:280-284 | only the last grant can be less than its burst |
| `TxCounter.FewestGrants` | pktgen-2.8.6/app/pktgen-port-cfg.h:270-285 | lcores with equal bursts use the counter up in the fewest grants possible, start / burst rounded up |
| `TxCounter.EveryInterleaving` | pktgen-2.8.6/app/pktgen-port-cfg.h:270-285 | counter plus grants is the starting count, every grant is a whole burst or all that is left, 0 is returned only when all is granted, and at most (n - 1) * start attempts fail |
| `RandomBits.FillBit` | pktgen-2.8.6/app/pktgen-random.c:199-212 | each bit of a mask word says whether the mask has that character at that place |
| `RandomBits.FillShift` | pktgen-2.8.6/app/pktgen-random.c:214-222 | the final shift is padding the mask with ignored bits |
| `RandomBits.SpecBits` | pktgen-2.8.6/app/pktgen-random.c:228-249 | the three words of a compiled mask, bit by bit in network and host order |
| `RandomBits.ReadMask` | pktgen-2.8.6/app/pktgen-random.c:197-222 | the loop accepts exactly the masks over 0, 1, '.' and X and computes their three words |
| `RandomBits.RndBits.SetRandomBitfield` | pktgen-2.8.6/app/pktgen-random.c:174-253 | valid masks are compiled into their slot and activated, an empty mask deactivates, anything else changes nothing |
| `RandomApply.StoreKeeps` | pktgen-2.8.6/app/pktgen-random.c:288-302 | storing a word changes no byte outside the four |
| `RandomApply.MixBit` | pktgen-2.8.6/app/pktgen-random.c:290-302 | each bit of the new word from the old bit, the masks and the random bit |
| `RandomApply.ApplyMeaning` | pktgen-2.8.6/app/pktgen-random.c:284-304 | each mask character gives bit 0, bit 1, the random bit or the old bit; bits past the mask and all other bytes keep their value |
| `RandomApply.ActiveMember` | pktgen-2.8.6/app/pktgen-random.c:284-308 | the specs applied are exactly the active ones |
| `RandomApply.ActiveIncreasing` | pktgen-2.8.6/app/pktgen-random.c:306-307 | they are applied in index order |
| `RandomApply.FoldKeeps` | pktgen-2.8.6/app/pktgen-random.c:282-308 | what every spec keeps, the fold of all of them keeps |
| `RandomApply.ApplyAll` | pktgen-2.8.6/app/pktgen-random.c:282-308 | the inner loop is the fold of the active specs, also when their windows overlap, and uses as many random values as there are active specs with a random mask |
| `RandomApply.Apply` | pktgen-2.8.6/app/pktgen-random.c:268-312 | every packet of a batch is folded independently of the others; packet j starts j times that many values behind the first |
| `RandomApply.DrawsInOrder` | pktgen-2.8.6/app/pktgen-random.c:281-311 | equal strides add up to that |
| `RandomApply.FoldUses` | pktgen-2.8.6/app/pktgen-random.c:293-303 | spec i is applied with the random value whose number counts the specs before it that have a random mask |
| `RandomApply.DrawsByBits` | pktgen-2.8.6/app/pktgen-random.c:284-308 | the values a packet uses up are the set bits of the active vector whose spec has a random mask |
| `RandomApply.DrawsDiffer` | pktgen-2.8.6/app/pktgen-random.c:281-311 | two specs with a random mask never share a random value, on one packet or on two |
| `RandomApply.PickAt` | pktgen-2.8.6/app/pktgen-random.c:282-306 | the specs applied are those at the active indices |
| `RandomApply.FoldFrame` | pktgen-2.8.6/app/pktgen-random.c:282-308 | a byte outside every window survives the whole fold |
| `MaskText.PrintMask` | pktgen-2.8.6/app/pktgen-random.c:335-368 | the printing loop shows the 32 characters of a spec grouped by eight |
| `MaskText.BitChar` | pktgen-2.8.6/app/pktgen-random.c:359-367 | the character of one bit |
| `MaskText.PrintCompiled` | pktgen-2.8.6/app/pktgen-random.c:357-368 | printing a compiled mask gives the mask padded with '.' |
| `MaskText.FilterMask` | pktgen-2.8.6/app/commands.c:874-883 | the filter keeps the first 32 mask characters in order |
| `MaskText.KeptOne` | pktgen-2.8.6/app/commands.c:879-881 | the filter keeps 0, 1, '.' and X and drops any other character |
| `MaskText.FilteredIs` | pktgen-2.8.6/app/commands.c:874-883 | it keeps the first 32 of them, and none of "off" |
| `MaskText.FilterGrouped` | pktgen-2.8.6/app/commands.c:875-883 | the filter undoes the grouping |
| `MaskText.TextRoundTrip` | pktgen-2.8.6/app/pktgen-random.c:354-375 | for every mask compile, print, filter and compile again give the same spec |
| `MaskText.TypedMask` | dpdk-2.0.0/lib/librte_cmdline/cmdline_parse_string.c:151-162 | a mask typed as one token reaches the compiler as it is |
| `MaskText.PageTextAsArgument` | dpdk-2.0.0/lib/librte_cmdline/cmdline_parse_string.c:151-162 | text copied from the page is cut at its first blank: the command compiles the first eight characters, the same spec exactly when the mask ignores every bit behind them |
| `RangeStep.StepPort` | pktgen-2.8.6/app/pktgen-range.c:92-102 | testing the port maximum again after replacing a low value makes no difference |
| `RangeStep.StepLands` | pktgen-2.8.6/app/pktgen-range.c:92-162 | one step from any value lands within the bounds even when the sum wraps; with crossed bounds it lands on one of them |
| `RangeStep.StepGoes` | pktgen-2.8.6/app/pktgen-range.c:92-162 | a sum between the bounds is taken as it is, one beyond a bound goes on at the opposite one; without increment the start value is taken |
| `RangeStep.StepInside` | pktgen-2.8.6/app/pktgen-range.c:116-124 | within a pass a step adds the increment |
| `RangeStep.StepAtEnd` | pktgen-2.8.6/app/pktgen-range.c:116-124 | the last value of a pass is followed by the minimum exactly when `Returns` holds |
| `RangeStep.ClosedForm` | pktgen-2.8.6/app/pktgen-range.c:92-162 | the n-th value is min + inc * (n mod ((max - min) / inc + 1)) |
| `RangeStep.NthIndex` | pktgen-2.8.6/app/pktgen-range.c:92-162 | the n-th value in terms of a counter that starts again after each pass |
| `RangeStep.ClosedFormExact` | pktgen-2.8.6/app/pktgen-range.c:92-162 | it is so for all n if and only if `Returns` holds |
| `RangeStep.EarlyWrap` | pktgen-2.8.6/app/pktgen-range.c:92-102 | a range whose sum wraps and for which the closed form fails |
| `RangeStep.Port.Reset` | pktgen-2.8.6/app/pktgen-cmds.c:1465-1489 | after a reset the VLAN and size ranges are the defaults |
| `RangeStep.Port.RangeSetup` | pktgen-2.8.6/app/pktgen-range.c:390-425 | the default ranges of a port |
| `RangeStep.Port.SetVlanId` | pktgen-2.8.6/app/pktgen-cmds.c:1925-1944 | each word sets its own VLAN field to the nearest valid id, or the increment to at most 64, and no other; an unknown word sets none |
| `RangeStep.Port.SetRangePktSize` | pktgen-2.8.6/app/pktgen-cmds.c:1958-1980 | each word sets its own size field to the nearest valid size without the checksum, or the increment to at most 64, and no other; an unknown word sets none |
| `RangeStep.Port.RangeCtor` | pktgen-2.8.6/app/pktgen-range.c:84-162 | the six stepped fields of the next packet, all within their widths |
| `RangeStep.History` | pktgen-2.8.6/app/pktgen-range.c:84-162 | for every history of resets, setters and steps every packet's VLAN id and size lie within the limits, also with the minimum above the maximum |
| `RangeStep.HistoryWithVlan` | pktgen-2.8.6/app/pktgen-cmds.c:1925-1944 | after setting minimum and maximum, every packet made by commands that leave the VLAN range alone has an id between them |
| `RangeStep.HistoryWithSize` | pktgen-2.8.6/app/pktgen-cmds.c:1958-1980 | the same for the packet size |
| `LogRing.PageStartUnique` | pktgen-2.8.6/app/pktgen-log.c:241-261 | the shortest suffix that fills the page is unique |
| `LogRing.TotalMono` | pktgen-2.8.6/app/pktgen-log.c:254-260 | a longer suffix takes more lines |
| `LogRing.NewlinesCount` | pktgen-2.8.6/app/pktgen-log.c:250-258 | the newline loop counts exactly the newlines of an entry |
| `LogRing.TotalCounts` | pktgen-2.8.6/app/pktgen-log.c:254-258 | the lines of a suffix, entry by entry |
| `LogRing.PlacedAt` | pktgen-2.8.6/app/pktgen-log.c:263-275 | the page shows the entries in chronological order, each on the row behind the lines of those before it |
| `LogRing.NewestAt` | pktgen-2.8.6/app/pktgen-log.c:243-261 | the collected lines are the entries from the newest back |
| `LogRing.Log.constructor` | pktgen-2.8.6/app/pktgen-log.c:119-126 | the ring starts empty |
| `LogRing.Log.Append` | pktgen-2.8.6/app/pktgen-log.c:136-188 | a message, cut to 1023 characters, becomes the newest of at most 63, behind the newest of those there were |
| `LogRing.Log.MoveHead` | pktgen-2.8.6/app/pktgen-log.c:167-175 | head and tail move so that the ring holds the last 63 entries |
| `LogRing.Log.Back` | pktgen-2.8.6/app/pktgen-log.c:244-245 | one slot back around the end of the array is the entry before |
| `LogRing.Log.CopyLine` | pktgen-2.8.6/app/pktgen-log.c:247-260 | the entry is copied and its lines counted |
| `LogRing.Log.Collect` | pktgen-2.8.6/app/pktgen-log.c:241-261 | the backward loop collects exactly the shortest suffix whose lines reach 28, or all entries, and stays within its 28 lines |
| `LogRing.Log.Page` | pktgen-2.8.6/app/pktgen-log.c:221-275 | that suffix is shown from row 3 when the page has to be drawn |
| `LogRing.Session` | pktgen-2.8.6/app/pktgen-log.c:136-188 | after n messages the ring holds exactly the last min(n, 63), in order |
| `DumpList.Port.Free` | pktgen-2.8.6/app/pktgen-dump.c:207-208 | only an allocated buffer is freed, and its pointer cleared |
| `DumpList.Port.SetPortDump` | pktgen-2.8.6/app/pktgen-cmds.c:1569-1588 | a new request for at most 32 packets with both indices at the start; the first entry is released, the others keep their buffers, none is lost from the list or freed twice |
| `DumpList.Port.Vacate` | pktgen-2.8.6/app/pktgen-dump.c:91-93 | a buffer left from an earlier request is freed before its entry is used again |
| `DumpList.Port.PacketDump` | pktgen-2.8.6/app/pktgen-dump.c:84-108 | the entry at the tail holds a copy of the packet and the entries before it are unchanged |
| `DumpList.Port.DumpBulk` | pktgen-2.8.6/app/pktgen-dump.c:122-142 | the pending entries become the first packets received up to the number asked for; the overflow clamp never bites |
| `DumpList.Port.PrintOne` | pktgen-2.8.6/app/pktgen-dump.c:172-209 | the oldest pending packet is shown, with its own bytes and its length with checksum, and its buffer freed |
| `DumpList.Port.PrintDump` | pktgen-2.8.6/app/pktgen-dump.c:156-211 | exactly the pending packets are shown, in order, and none is left |
| `DumpList.History` | pktgen-2.8.6/app/pktgen-dump.c:84-209 | for any interleaving of requests, batches and prints, printed plus pending packets are the first ones received since the last request, in order, head <= tail and tail plus the remaining count is at most 32 |
| `XorShift.MixUndone` | pktgen-2.8.6/app/xorshift128plus.h:31-32 | the old word can be computed from the new one |
| `XorShift.MixRedone` | pktgen-2.8.6/app/xorshift128plus.h:31-32 | and the other way round |
| `XorShift.MixIs` | pktgen-2.8.6/app/xorshift128plus.h:31-32 | the new word with the three shifts of the source |
| `XorShift.StepIs` | pktgen-2.8.6/app/xorshift128plus.h:27-33 | the second word moves up, the new one takes its place, and their sum is returned |
| `XorShift.StepThenBack` | pktgen-2.8.6/app/xorshift128plus.h:27-33 | the state step is injective |
| `XorShift.BackThenStep` | pktgen-2.8.6/app/xorshift128plus.h:27-33 | and surjective |
| `XorShift.SeedsStayApart` | pktgen-2.8.6/app/xorshift128plus.h:27-33 | two different seeds never meet at the same step |
| `XorShift.NeverZero` | pktgen-2.8.6/app/xorshift128plus.h:21-33 | a non-zero seed never reaches the zero state |
| `XorShift.CycleThroughSeed` | pktgen-2.8.6/app/xorshift128plus.h:27-33 | if a state comes up again after p steps, the seed does |
| `XorShift.SeedReturns` | pktgen-2.8.6/app/xorshift128plus.h:27-33 | every seed comes up again after some number of steps: the sequence is a cycle |
| `XorShift.Generator.Next` | pktgen-2.8.6/app/xorshift128plus.h:27-33 | the in-place update of the two words is the step, and the value returned |
| `PortList.RunsDenote` | pktgen-2.8.6/app/commands.c:135-159 | the runs denote exactly the ports of the mask and are increasing, disjoint, separated and maximal |
| `PortList.RunEnd` | pktgen-2.8.6/app/commands.c:145-147 | the last port of a run: all ports up to it are set, the next is not |
| `PortList.ValueOfDec` | dpdk-2.0.0/lib/librte_cmdline/cmdline_parse_portlist.c:102 | a printed number has its value |
| `PortList.ValueDigits` | pktgen-2.8.6/app/commands.c:148-151 | the value of decimal digits, the most significant first |
| `PortList.DecStarts` | pktgen-2.8.6/app/commands.c:148-151 | a printed number has no leading zero |
| `PortList.DashForRange` | pktgen-2.8.6/app/commands.c:148-151 | a dash is printed exactly for a range of more than one port |
| `PortListText.SkipSet` | pktgen-2.8.6/app/commands.c:146-147 | the inner loop stops behind the run |
| `PortListText.PrintRun` | pktgen-2.8.6/app/commands.c:145-153 | the run that starts here is printed behind the text, and its bits are skipped |
| `PortListText.PrintRuns` | pktgen-2.8.6/app/commands.c:142-157 | the loop prints the runs in order and stops before the last only when the text has come too near to the end of the buffer |
| `PortListText.Display` | pktgen-2.8.6/app/commands.c:135-159 | the text is the list of runs or a beginning of it, the whole list exactly when it is shorter than the buffer and its text without the last run at most `len - 5` in 32 bits, otherwise the buffer is full or the text beyond that; 389 bytes are always enough |
| `PortListText.TextAfterPrinted` | pktgen-2.8.6/app/commands.c:148-156 | the pieces printed one behind the other are the joined list, cut to the buffer |
| `PortListText.LargeEnough` | pktgen-2.8.6/app/commands.c:135-159 | 389 bytes hold the list of every mask |
| `PortListParse.ParseSetList` | dpdk-2.0.0/lib/librte_cmdline/cmdline_parse_portlist.c:80-86 | exactly the ports of the range are added |
| `PortListParse.AddEntry` | dpdk-2.0.0/lib/librte_cmdline/cmdline_parse_portlist.c:99-123 | one entry of the list |
| `PortListParse.ParsePorts` | dpdk-2.0.0/lib/librte_cmdline/cmdline_parse_portlist.c:88-126 | the loop accepts exactly the texts `Parsed` accepts and collects their ports |
| `PortListParse.NumberBack` | dpdk-2.0.0/lib/librte_cmdline/cmdline_parse_portlist.c:101-105 | a numeral is read with its value, up to the next character that is no digit, and refused when out of range |
| `PortListParse.RunBack` | dpdk-2.0.0/lib/librte_cmdline/cmdline_parse_portlist.c:101-117 | a printed run is read back as the run |
| `PortListParse.StepBack` | dpdk-2.0.0/lib/librte_cmdline/cmdline_parse_portlist.c:95-123 | the loop on a run in text adds its ports and goes on behind the comma |
| `PortListParse.ListBack` | dpdk-2.0.0/lib/librte_cmdline/cmdline_parse_portlist.c:88-126 | for every list of runs, the printed list is read as the ports it denotes exactly when it has an entry and all entries are ranges below 32; otherwise it is refused |
| `PortListParse.ParsePortlist` | dpdk-2.0.0/lib/librte_cmdline/cmdline_parse_portlist.c:128-162 | the token loop, the size limit, `all`, and the list |
| `PortListParse.AllPorts` | dpdk-2.0.0/lib/librte_cmdline/cmdline_parse_portlist.c:155-156 | the word "all" stands for the ports 0 to 31 |
| `PortListParse.LongToken` | dpdk-2.0.0/lib/librte_cmdline/cmdline_parse_portlist.c:144-149 | a token of 128 characters or more is refused |
| `PortListParse.PrintedMaskBack` | dpdk-2.0.0/lib/librte_cmdline/cmdline_parse_portlist.c:128-162 | a printed mask, whatever ends the token, is read back as the same mask if and only if it is non-empty and has no port above 31 |
| `Codec.ValueBack` | benchmarks/serializing/TestSerialisationPerf.java:173-206 | bytes and number determine each other in both byte orders |
| `Codec.BytesAt` | benchmarks/serializing/TestSerialisationPerf.java:173-188 | which byte of a number stands where in each of the two orders |
| `Codec.EncodeLayout` | benchmarks/serializing/TestSerialisationPerf.java:173-188 | where every field of an object stands, in both encodings |
| `Codec.CatAt` | benchmarks/serializing/TestSerialisationPerf.java:180-188 | the elements of an array and their bytes determine each other |
| `Codec.WordsBack` | benchmarks/serializing/TestSerialisationPerf.java:179-206 | an array is read where it was written |
| `Codec.WordsForth` | benchmarks/serializing/TestSerialisationPerf.java:196-206 | bytes read as an array are its encoding |
| `Codec.Encode` | benchmarks/serializing/TestSerialisationPerf.java:173-189 | an object takes exactly 25 + 8 * (prices + quantities) bytes |
| `Codec.ObjectBack` | benchmarks/serializing/TestSerialisationPerf.java:173-229 | in both encodings and whatever surrounds it, a written object is read back and reading ends where writing did |
| `Codec.ObjectForth` | benchmarks/serializing/TestSerialisationPerf.java:190-209 | bytes read as an object are its encoding if and only if the byte of the flag is 0 or 1 |
| `Codec.DecodeFails` | benchmarks/serializing/TestSerialisationPerf.java:190-209 | a failed reading stops with less than a number left or just behind a negative array length |
| `Codec.EncodeInjective` | benchmarks/serializing/TestSerialisationPerf.java:173-189 | different objects are written differently |
| `CodecBuffers.ByteBuffer.Put` | benchmarks/serializing/TestSerialisationPerf.java:174-183 | a number is written whole or, without room, not at all |
| `CodecBuffers.WriteWords` | benchmarks/serializing/TestSerialisationPerf.java:180-188 | the element loops write the elements as far as there is room |
| `CodecBuffers.Write` | benchmarks/serializing/TestSerialisationPerf.java:173-189 | the encoding is written exactly when it fits; an overflow leaves a beginning of it and room for less than a number |
| `CodecBuffers.ReadWords` | benchmarks/serializing/TestSerialisationPerf.java:196-206 | the element loops read the elements, or stop behind the last whole one |
| `CodecBuffers.Read` | benchmarks/serializing/TestSerialisationPerf.java:190-209 | reading decodes at the position and leaves it where decoding stops, also in both error cases |
| `CodecBuffers.TestWrite` | benchmarks/serializing/TestSerialisationPerf.java:70-75 | repeated clear and write succeed exactly when the item fits and leave it in the buffer |
| `CodecBuffers.TestRead` | benchmarks/serializing/TestSerialisationPerf.java:77-84 | any number of flips and reads gives the same item and leaves the buffer as it was |
| `CodecUnsafe.UnsafeMemory.Put` | benchmarks/serializing/TestSerialisationPerf.java:300-325 | the bytes are stored at the position and nothing else changes |
| `CodecUnsafe.UnsafeMemory.PutArray` | benchmarks/serializing/TestSerialisationPerf.java:333-354 | length and elements are stored |
| `CodecUnsafe.UnsafeMemory.GetArray` | benchmarks/serializing/TestSerialisationPerf.java:340-363 | the array at the position is read, a negative length refused |
| `CodecUnsafe.Write` | benchmarks/serializing/TestSerialisationPerf.java:211-218 | the little-endian encoding is written |
| `CodecUnsafe.Read` | benchmarks/serializing/TestSerialisationPerf.java:220-229 | the object at the position is read |
| `CodecUnsafe.TestWrite` | benchmarks/serializing/TestSerialisationPerf.java:89-94 | repeated reset and write leave the item at the start |
| `CodecUnsafe.TestRead` | benchmarks/serializing/TestSerialisationPerf.java:96-103 | any number of resets and reads gives the same item |

## Left out

- `RunMainLoop`, the devices, timers, threads, locks, statistics and tracing of example_code/core.c, including the counters `handled` and `delayed` that only feed the trace.
- Runs in which the application breaks the protocol stated above, apart from the one case of `SecondRequestDangles`.
- Packets in several segments: the capture copies `pkt_len` bytes but advances by the first segment's length, and the dump uses the first segment's offset for all.
- The start and SEND_FOREVER handshake around the transmit counter; memory reordering (each read and compare-and-set is one step).
- MAC address ranges and IPv6 in the range constructor; the IPv4 address setters, which only assign.
- Random slots that were never set by the user (their initial mask of question marks is refused by the compiler), and batches in which two entries are the same packet.
- The formatting of log messages (level, time, function) and of dumped packets as hexadecimal text; log files; the uninitialised checksum bytes behind a dumped packet are printed by the source and ignored here.
- Port masks with bit 63 set, for which the printer's inner loop shifts by 64.
- Reading a huge array length for which the allocation runs out of memory.
- NaN payloads that a JVM may change when it moves a double; Java's own object serialisation, the third test case.
- The length of the xorshift cycle; that there is one is proved.
- Display pages, themes, Lua bindings, command tables, configuration files, PCAP reading, header constructors, ARP and ping: user interface, file I/O or field assignment.
- dpdk-2.0.0 apart from the port-list parser and the end of a token; the JNI benchmarks, plots and scripts.
