# HostARQ core, modelled in Dafny

HostARQ is the host side of a reliable transport for slow-control packets
exchanged with an FPGA over Ethernet. This project models its sequential
core and proves properties of that model:

- the wire frame (`arq_frame`) and its header accessors, which keep ACK, SEQ,
  PTYPE and LEN in network byte order (`Frames`, `ByteOrder`), and the
  user-level `packet` record with its Python item access (`Packets`);
- the sliding window (`sctp_window`, C++ and C variants): window membership
  modulo `max_frames`, transmit insertion, out-of-order receive with in-order
  sliding, cumulative-ACK release and timeout-driven resend selection
  (`Window`);
- the shared-memory ring FIFO and the batching of up to `PARALLEL_FRAMES`
  frame offsets per queue entry (`Fifo`, `Batching`), and the user API's
  frame assembly (`init_buf`, `append_words`), `SCTP_Send` chunking and
  `SCTP_Recv` (`UserIf`);
- the core's timing and acknowledgement arithmetic: the RTO estimator
  (the smoothed-RTT update of section 2.3 of RFC 6298), the resend-tick
  countdown, the delayed-ACK rule and the reset-answer parameter check
  (`Core`);
- the simulation's reference ARQ: sequence helpers, the `window_buffer` ring
  and `ARQStreamImpl`'s sequence assignment, acknowledgement and reorder
  cache (`SimSeq`, `SimBuffer`, `SimStream`);
- the loopback tool's mode parsers, packet-length and payload generators
  and checkers (`LoopbackModes`, `Loopback`);
- small parsers and printers: MAC addresses (`Mac`, on `Text`), the FPGA IP
  list (`IpList`), the duration option (`DurationOpt`), the `libhostarq`
  handle (`HostArq`) and the Xilinx `.bit` header walk and serial-bitstream
  size words (`Bitfile`).

Objects whose fields the code updates in place are classes with `modifies`
and `reads` frames (the window, the FIFO, the allocation cache, the RTO
estimator, the simulated stream, the loopback tester, the handle); pure
helpers are functions with lemmas. C's unsigned wrap-around is written out
where it matters (`Base.SubU32`, `Base.SubU64`, `UserIf.AppendCountAsWritten`,
`Bitfile.ForwardSize`). Frames are modelled with the C++ parameters
(`MAX_NRFRAMES` 256, `MAX_WINSIZ` 128, `MAX_PDUWORDS` 180); the window
arithmetic relies on 256 dividing 2^32, which `Base.ModOfMod` states.
Files, shared memory and environment variables become parameters: a file is
a byte sequence, a relative pointer an integer offset, and an environment variable its
value as a string.

## Model

| member | source | states |
|---|---|---|
| `Base.SubU32` | src/sctp_window.cpp:39-41 | C's unsigned 32-bit difference: equals `(a - b) mod 2^32`, and `a - b` exactly when `b <= a` |
| `Base.DivTrunc` | src/us_sctp_core.cpp:873 | C's signed `/` truncates toward zero: the Euclidean quotient for non-negative operands, the negated quotient of the magnitude otherwise |
| `Base.LowByte` | src/packets.cpp:17-18 | storing an integer into a `__u8` keeps it modulo 256 |
| `ByteOrder.SwapInvolution` | include/sctrltp/packets.h:119-123 | swapping the bytes of an `n`-byte value twice gives the value back |
| `ByteOrder.SwapStoresBigEndian` | include/sctrltp/packets.h:93-99 | a byte-swapped value stored little-endian lays its bytes down most significant first (network order) |
| `ByteOrder.Bswap16IsSwap` | include/sctrltp/packets.h:87-89 | `htons` on a little-endian host is the general 2-byte swap |
| `ByteOrder.Bswap32IsSwap` | include/sctrltp/packets.h:93-95 | `htonl` on a little-endian host is the general 4-byte swap |
| `ByteOrder.Bswap16Involution` | include/sctrltp/packets.h:105-108 | `ntohs(htons(x)) == x`, and `htons(x)` stored in memory is `x` in big-endian order |
| `ByteOrder.Bswap32Involution` | include/sctrltp/packets.h:125-127 | `ntohl(htonl(x)) == x`, and `htonl(x)` stored in memory is `x` in big-endian order |
| `ByteOrder.WordsLeAt` | include/sctrltp/packets.h:61 | byte `j` of payload word `i` lies at offset `8*i + j` of the packed payload |
| `ByteOrder.FromLeOfLeBytes` | include/sctrltp/packets.h:56-62 | reading back the little-endian memory image of a value gives the value |
| `ByteOrder.LeBytesOfFromLe` | include/sctrltp/packets.h:56-61 | storing the value of a byte image reproduces the image |
| `Frames.FrameSize` | include/sctrltp/packets.h:111-117 | the frame size is at least MIN_PACKET_SIZE and exceeds the 12 header bytes by 8 bytes per payload word |
| `Frames.ArqFrame.constructor` | include/sctrltp/packets.h:56-62 | a frame has room for exactly MAX_PDUWORDS payload words |
| `Frames.ArqFrame.GetLen` | include/sctrltp/packets.h:106-108 | `sctpreq_get_len` returns the host value whose network-order form is the stored LEN |
| `Frames.ArqFrame.GetTyp` | include/sctrltp/packets.h:129-131 | `sctpreq_get_typ` returns the host value whose network-order form is the stored PTYPE |
| `Frames.ArqFrame.GetSeq` | include/sctrltp/packets.h:119-123 | `sctpreq_get_seq` returns the host value whose network-order form is the stored SEQ |
| `Frames.ArqFrame.GetAck` | include/sctrltp/packets.h:125-127 | `sctpreq_get_ack` returns the host value whose network-order form is the stored ACK |
| `Frames.ArqFrame.GetSize` | include/sctrltp/packets.h:110-117 | `sctpreq_get_size` is 12 header bytes plus 8 per payload word, never below MIN_PACKET_SIZE |
| `Frames.ArqFrame.SomethingGetSize` | include/sctrltp/packets.h:142-150 | a read of at most MIN_PACKET_SIZE bytes is sized as an ack frame; a longer one by its LEN field |
| `Frames.ArqFrame.SetHeader` | include/sctrltp/packets.h:87-90 | after `sctpreq_set_header` the getters return the given LEN and PTYPE; ACK and SEQ are untouched |
| `Frames.ArqFrame.SetSeq` | include/sctrltp/packets.h:92-95 | after `sctpreq_set_seq` the getter returns the given SEQ; the other header fields are untouched |
| `Frames.ArqFrame.SetAck` | include/sctrltp/packets.h:97-99 | after `sctpreq_set_ack` the getter returns the given ACK; the other header fields are untouched |
| `Frames.ArqFrame.Image` | include/sctrltp/packets.h:62 | the packed frame occupies 12 header bytes plus 8 bytes per payload slot, without padding |
| `Frames.HeaderInNetworkOrder` | include/sctrltp/packets.h:56-61 | in the packed frame, ACK, SEQ, PTYPE and LEN sit at offsets 0, 4, 8 and 10 in network order, and payload word `i` at offset 12 + 8*i |
| `Frames.AckFrame.SetAck` | include/sctrltp/packets.h:101-103 | `sctpack_set_ack` stores ACK so that it reads back and goes on the wire big-endian |
| `Frames.ResetFrame.Init` | include/sctrltp/packets.h:137-139 | `sctpreset_init` stores the magic word 0xABABABAB, big-endian on the wire |
| `Frames.MagicWordIsSymmetric` | include/sctrltp/sctrltp_defines.h:46 | the magic word 0xABABABAB is the same in both byte orders |
| `Packets.LayoutMatchesFrame` | include/sctrltp/ARQFrame.h:22-34 | the user `packet` places ack, seq, pid, len and the payload at the same offsets as `arq_frame` |
| `Packets.Packet.constructor` | include/sctrltp/ARQFrame.h:58-61 | a fresh packet has pid 0xDEAD and len 1 |
| `Packets.Packet.Size` | include/sctrltp/ARQFrame.h:48-56 | `size()` is the header field sizes plus 8 bytes per payload word, the same count as `sctpreq_get_size` for that LEN |
| `Packets.Packet.RawPdu` | include/sctrltp/ARQFrame.h:31-34 | the raw byte view covers exactly the payload words, 8 bytes each |
| `Packets.Packet.At` | include/sctrltp/ARQFrame.h:40-42 | word `idx` of the payload is raw bytes `8*idx .. 8*idx+7` of the same union |
| `Packets.Packet.SetAt` | include/sctrltp/ARQFrame.h:44-46 | assignment through `operator[]` changes exactly that payload word |
| `Packets.RawAliasesWord` | include/sctrltp/ARQFrame.h:31-33 | `pdu` and `rawpdu` alias: word `idx` and bytes `8*idx ..` are the same memory |
| `Packets.Packet.GetItem` | pysctrltp/pysctrltp.cpp:68-73 | `__getitem__` raises IndexError exactly when `idx >= len`, and otherwise returns that payload word |
| `Packets.Packet.SetItem` | pysctrltp/pysctrltp.cpp:75-81 | `__setitem__` raises IndexError exactly when `idx >= len` and then changes nothing; otherwise it changes exactly one word, which `__getitem__` then returns |
| `Packets.Packet.SetLen` | pysctrltp/pysctrltp.cpp:67 | the `len` property setter changes only `len` |
| `Packets.Packet.SetPid` | pysctrltp/pysctrltp.cpp:66 | the `pid` property setter changes only `pid` |
| `Packets.PacketTestScenario` | pysctrltp/tests/test-packet.py:7-14 | a fresh packet has len 1 and pid 0xDEAD; after `len = 3`, indices 0, 1, 2 are writable and index 3 raises |
| `Base.SubU64` | src/sctp_window.cpp:312 | C's unsigned 64-bit difference: `(a - b) mod 2^64`, and `a - b` exactly when `b <= a` |
| `Core.SizeT` | src/us_sctp_core.cpp:877 | `size_t(x)` of a signed 64-bit value keeps non-negative values and sends negative ones to the upper half of the unsigned range |
| `Core.FloorRulesAgree` | src/us_sctp_core.c:852-854 | the C floor `dev < TO_RES` and the C++ floor `size_t(dev) < TO_RES` agree on every non-negative deviation, and disagree on every negative one |
| `Core.ClampRto` | src/us_sctp_core.c:855-859 | the estimate is clamped into [MIN_RTO, MAX_RTO] and left alone inside it |
| `Core.RtoIsConstant` | include/sctrltp/us_sctp_defs.h:37-38 | MIN_RTO and MAX_RTO are the same expression, so every clamped estimate is 756 |
| `Core.NextAverage` | src/us_sctp_core.cpp:872-873 | the average moves toward the measurement by an eighth of the error (truncating) and never passes it |
| `Core.NextDeviation` | src/us_sctp_core.cpp:874-878 | the deviation moves by a quarter of the difference, is floored at TO_RES, and the C++ floor gives the C rule's value |
| `Core.RttEstimator.constructor` | src/us_sctp_core.cpp:715-716 | the estimator starts at average MAX_RTO, deviation TO_RES, published RTT MAX_RTO |
| `Core.RttEstimator.Update` | src/us_sctp_core.cpp:869-886 | one measurement: the new average lies between the old one and the measurement, the deviation follows the floored quarter-step rule, and the published RTT is the clamped estimate, always MAX_RTO |
| `Core.Countdown` | src/us_sctp_core.cpp:946-949 | one tick lowers the remaining wait by TO_RES, stopping at 0 |
| `Core.TicksUntilDue` | src/us_sctp_core.cpp:943-956 | every wait runs out after at least one tick |
| `Core.TicksUntilDueIsCeiling` | src/us_sctp_core.c:918-931 | a wait of `w` runs out after `ceil(w / TO_RES)` ticks, one tick for a wait of 0 |
| `Core.ResendTimer.constructor` | src/us_sctp_core.cpp:917 | the RESEND thread starts with MAX_RTO to wait |
| `Core.ResendTimer.Tick` | src/us_sctp_core.cpp:942-956 | each tick advances the clock by TO_RES; the window is due exactly when the remaining wait was at most TO_RES, and the wait is then reloaded from the published RTT; otherwise one fewer tick remains |
| `Core.AckAfterSlide` | src/us_sctp_core.cpp:649 | the published ACK `(low_seq - 1) % max_frames` is a valid sequence number |
| `Core.AckIsLastInOrder` | src/us_sctp_core.c:626 | the ACK is the sequence number just before the new window start, `max_frames - 1` when that start is 0, so one more than the ACK is the start |
| `Core.AckState.constructor` | src/us_sctp_core.cpp:479-482 | the RX thread starts with ACK and rACK at MAX_NRFRAMES - 1 |
| `Core.AckState.Reset` | src/us_sctp_core.cpp:309-311 | the reset restores ACK to MAX_NRFRAMES - 1, clears REQ and sets rACK to ACK |
| `Core.AckState.Slid` | src/us_sctp_core.c:625-626 | after a slide only ACK changes, to the ACK of the new window start |
| `Core.AckState.DelayedAck` | src/us_sctp_core.cpp:655-659 | an acknowledgement is requested exactly when DELAY_ACK has passed since the last request, and then the request time becomes now |
| `Core.CheckedIndicesAsWritten` | src/us_sctp_core.cpp:591-599 | as written, the check reads one table entry per payload word of the answer |
| `Core.CheckReadsPastTable` | src/us_sctp_core.c:571-580 | as written, the check reads past a table of `size` entries exactly when the answer carries more than `size` words (the three names in both builds, the three C++ values) |
| `Core.CheckedCount` | src/us_sctp_core.cpp:591-597 | the corrected loop compares no more words than the table and the answer hold, every word of an answer that fits and every entry of a table that is covered, touching only indices inside the table |
| `Core.TablesSize` | src/us_sctp_core.c:571 | the entries both the names table and the values table hold: no more than either, and all of the shorter one |
| `Core.CheckTablesAgree` | src/packets.c:7-11 | the C table (declared with six entries, three initialised) and the C++ table give the corrected check the same three parameters |
| `Core.CheckResetAnswer` | src/us_sctp_core.cpp:588-613 | the reset answer is rejected exactly when one of its compared words, read from network order, differs from the host's MAX_NRFRAMES, MAX_WINSIZ or MAX_PDUWORDS |
| `Core.ScanForAnswer` | src/us_sctp_core.cpp:583-617 | the pass over the released frames ends at once, passing nothing up, exactly when frames were released and the frame just received is a reset answer; otherwise every released frame is passed up |
| `Window.Off` | src/sctp_window.cpp:39-41 | the distance of a number ahead of a base, taken modulo the ring, is a valid offset below `max_frames` |
| `Window.Emitted` | src/sctp_window.cpp:193-198 | the out buffer holds the `n` slots from the window start, in sequence order |
| `Window.MapRun` | src/sctp_window.cpp:245-248 | the `n` slots from the window start are updated, and every other slot is left as it was |
| `Window.ResendScanComplete` | src/sctp_window.cpp:303-329 | the scan of the first `k` window positions aborts exactly when a due outstanding frame (elapsed time over `rto` at least its transmission count) reaches MAX_TRANS with one more transmission; otherwise it resends exactly the due frames, in window order, each with its count raised by one, and every other slot keeps its contents and count |
| `Window.ScanAbortSticks` | src/sctp_window.c:302-306 | once a frame reaches MAX_TRANS the scan has returned, and visiting more positions changes nothing |
| `Window.ResendScanSound` | src/sctp_window.c:296-317 | the scan resends at most one copy per visited position, only outstanding frames with fewer than MAX_TRANS transmissions, never releases or acquires a frame nor changes its time, and sets the flag exactly when it resends something |
| `Window.WindowTest` | src/sctp_window.c:28-38 | the two 32-bit distance tests of `is_in_window` hold exactly when the number lies fewer steps ahead of `low_seq` than `high_seq` does |
| `Window.SlidingWindow.constructor` | include/sctrltp/sctp_window.h:21-37 | a window object before `win_init` has no slot buffer |
| `Window.SlidingWindow.Occupancy` | src/sctp_window.cpp:39 | the 32-bit `(high_seq - low_seq) % max_frames` is the number of steps from `low_seq` to `high_seq` on the ring |
| `Window.SlidingWindow.IsInWindow` | src/sctp_window.cpp:31-43 | `is_in_window` holds exactly for the numbers in [low_seq, high_seq) on the ring, so an empty window holds nothing |
| `Window.SlidingWindow.IsWinFull` | src/sctp_window.cpp:45-52 | the window is full exactly when it spans `max_wsize` numbers |
| `Window.SlidingWindow.Init` | src/sctp_window.cpp:55-88 | `win_init`: SC_INVAL for a missing window, SC_NOMEM for a failed allocation with nothing changed, else 1 with the given sizes, side, zeroed slots, and the transmit or receive invariant |
| `Window.SlidingWindow.Reset` | src/sctp_window.cpp:91-114 | `win_reset` restores the initial geometry for the window's side, zeroes every slot, keeps the sizes, and re-establishes the side's invariant |
| `Window.SlidingWindow.NewFrameTx` | src/sctp_window.cpp:116-159 | 0 exactly when the window is full; 1 when the slot at `high_seq` was free: it then holds the frame, the time and one transmission, the frame carries SEQ `high_seq`, and the window grows by one; SC_ABORT only for an occupied slot, which the transmit invariant rules out |
| `Window.SlidingWindow.NewFrameRx` | src/sctp_window.cpp:161-215 | SC_INVAL with nothing changed unless the number is in the window and unmarked; a number other than `low_seq` is marked and 0 returned; at `low_seq` the maximal marked run is handed out in order and cleared, the window slides past it, reopens to `max_wsize`, and the run length is returned; the receive invariant is kept |
| `Window.SlidingWindow.Slide` | src/sctp_window.cpp:186-209 | the slide hands out at least one and at most the window's span of marked slots, stopping at the first unmarked one, moves `low_seq` past them and sets `high_seq` `max_wsize` further |
| `Window.SlidingWindow.MarkFrame` | src/sctp_window.cpp:217-290 | an ACK outside the window is SC_INVAL and changes nothing; otherwise every slot from `low_seq` through the ACK is handed out in order and released, `low_seq` moves past the ACK, the window shrinks by that count, and every handed-out slot held a frame |
| `Window.SlidingWindow.Release` | src/sctp_window.cpp:235-257 | for an in-window ACK: releases exactly the `Off(ack) + 1` slots from `low_seq` and keeps the transmit invariant |
| `Window.SlidingWindow.ResendFrame` | src/sctp_window.cpp:292-332 | `resend_frame` returns -1 exactly when a due outstanding frame of [low_seq, high_seq) reaches MAX_TRANS; otherwise it returns the number of frames copied into the resend buffer, which are exactly the due frames of the window in window order with one more transmission counted, every slot not due is unchanged, `flag` is set when something is resent, and the transmit invariant is kept |
| `Window.ResendRun` | src/sctp_window.c:283-321 | the C loop of `resend_frame` leaves the slots, resend buffer, abort and flag exactly as the scan specifies, hence (by `Window.ResendScanComplete`) resends exactly the due frames in window order |
| `Window.ReleaseRun` | src/sctp_window.c:228-245 | the loop of `mark_frame` hands out and releases exactly the `n` slots from `low_seq`, in order |
| `Window.AckEnd` | src/sctp_window.c:228-229 | the 32-bit `(rACK + 1) % max_frames` is the slot just after the acknowledged run |
| `Window.ShrinkOcc` | src/sctp_window.c:247 | moving `low_seq` forward by `n` shrinks the window by `n` |
| `Window.SlideRun` | src/sctp_window.c:180-194 | the loop of `new_frame_rx` hands out and clears the maximal marked run from `low_seq`, at least one slot and at most the window |
| `Window.RxSlideEnd` | src/sctp_window.c:182 | the slide loop stops after at least one slot, at the window end or at the first unmarked slot |
| `Window.RxIndexAsWritten` | src/sctp_window.cpp:175-177 | as written, the slot read is `frames + seq` with the unreduced wire SEQ, inside the array only when SEQ is below `max_frames` |
| `Window.RxOutOfRangeSeqPassesWindowCheck` | src/sctp_window.c:166-171 | with a window [0, 128) on the 256-slot ring, wire SEQ 261 passes the window test but indexes past the slot array; the corrected check rejects it |
| `Window.RxAcceptsInBounds` | src/sctp_window.cpp:177-180 | the corrected check only touches slots inside the array and agrees with the written test on every in-range SEQ |
| `Window.TxGrowPreserves` | src/sctp_window.c:128-147 | filling the free slot at `high_seq` of a non-full window keeps "exactly the in-window slots hold a frame" and the bound `max_wsize` |
| `Window.InitialGeometry` | src/sctp_window.c:50-79 | the initial transmit window [0, 0) is empty and the initial receive window [0, max_ws) spans `max_ws` numbers |
| `Window.GrowByOne` | src/sctp_window.c:143-146 | advancing `high_seq` by one grows the window by one and adds exactly the old `high_seq` |
| `Window.MarkSlot` | src/sctp_window.c:174-175 | marking slot `seq` stores the response and sets its mark |
| `Window.RxMarkPreserves` | src/sctp_window.c:171-176 | marking an in-window slot other than `low_seq` keeps "only in-window slots after `low_seq` are marked" |
| `Window.RxSlidePreserves` | src/sctp_window.c:195-197 | after the slide, marked slots still all lie in the new window and after its start |
| `Window.TxShrinkPreserves` | src/sctp_window.c:233-247 | releasing the first `n` slots keeps "exactly the in-window slots hold a frame" for the shrunk window, and every released slot held a frame |
| `Window.SameRequests` | src/sctp_window.c:299-315 | a scan that changes no slot's request keeps the transmit invariant |
| `Fifo.GetAbsPtr` | src/sctp_fifo.cpp:9-18 | `get_abs_ptr` adds the offset to the base, exactly when no 64-bit wrap occurs |
| `Fifo.GetRelPtr` | src/sctp_fifo.cpp:20-29 | `get_rel_ptr` is the distance of a pointer from a base below it |
| `Fifo.AbsOfRel` | src/sctp_fifo.cpp:9-29 | converting a pointer to an offset and back, or the other way round, gives it back for every base |
| `Fifo.Ring` | include/sctrltp/sctp_fifo.h:19-24 | the queue is the `nr_full` slots after `last_out`, in ring order |
| `Fifo.RingPush` | src/sctp_fifo.cpp:181-192 | writing the slot after the last filled one appends the element to the back of the queue |
| `Fifo.RingPop` | src/sctp_fifo.cpp:215-225 | advancing `last_out` by one drops the front of the queue |
| `Fifo.Fifo.Contents` | include/sctrltp/sctp_fifo.h:19-27 | the queue holds exactly `nr_full` elements |
| `Fifo.Fifo.constructor` | include/sctrltp/sctp_fifo.h:15-33 | a fifo in fresh shared memory is zeroed: no buffer, nothing full, no signals |
| `Fifo.Fifo.InitWbuf` | src/sctp_fifo.cpp:55-76 | a fifo that already has a buffer is refused with -1 and left alone; otherwise the buffer is zeroed, the fifo is empty over it with the given sizes, and the buffer is stored relative to the base when one is given |
| `Fifo.Fifo.Reset` | src/sctp_fifo.cpp:79-89 | `fif_reset` empties the queue and clears both semaphores, keeping the buffer and sizes |
| `Fifo.Fifo.TryPush` | src/sctp_fifo.cpp:168-200 | a full fifo answers SC_FULL and nothing changes; otherwise the element joins the back of the queue and 0 is returned |
| `Fifo.Fifo.TryPop` | src/sctp_fifo.cpp:202-233 | an empty fifo answers SC_EMPTY and nothing changes; otherwise the front element is returned and removed |
| `Fifo.Fifo.Push` | src/sctp_fifo.cpp:91-128 | `fif_push` on a fifo with room appends the element and returns 0 |
| `Fifo.Fifo.Pop` | src/sctp_fifo.cpp:130-166 | `fif_pop` on a non-empty fifo returns and removes the front element |
| `Batching.Carried` | include/sctrltp/us_sctp_defs.h:105-108 | an entry carries exactly its first `num` frame pointers |
| `Batching.FlattenAppend` | src/us_sctp_core.c:153-188 | pushing one more entry appends its pointers to those the queue already carries |
| `Batching.RelAll` | src/us_sctp_core.cpp:177 | every pointer is stored as its offset from the shared-memory base |
| `Batching.AbsAll` | src/us_sctp_if.cpp:65-67 | every fetched offset is turned back into a pointer from the base |
| `Batching.BatchRoundTrip` | src/us_sctp_if.c:62-66 | pointers pushed as offsets are fetched back unchanged, for every base |
| `Batching.AllocCache.constructor` | src/us_sctp_core.cpp:476-477 | a zeroed cache has nothing pending and nothing to hand out |
| `Batching.AllocCache.Snapshot` | include/sctrltp/us_sctp_defs.h:105-110 | the entry copied into a queue is well formed and carries the cache's pointer array |
| `Batching.AllocCache.Pending` | src/us_sctp_if.cpp:87-90 | the sending side has exactly `next` pointers registered and not yet pushed |
| `Batching.AllocCache.PushFrames` | src/us_sctp_if.cpp:73-109 | `push_frames`: the pointers in the queue followed by those pending grow by exactly the new pointer's offset (nothing for NULL), at most one non-empty entry is pushed, a NULL pointer without a pending flush changes nothing, and a flush leaves nothing pending |
| `Batching.AllocCache.PushOne` | src/us_sctp_core.cpp:174-195 | one non-NULL pointer is appended to the queued-then-pending pointers, a full cache being pushed first |
| `Batching.AllocCache.Flush` | src/us_sctp_core.cpp:165-172 | the pending pointers are pushed as one entry, in order, and nothing stays pending |
| `Batching.AllocCache.Register` | src/us_sctp_if.c:84-94 | a cache with room stores the offset in the next slot and, when flushing, pushes everything pending at once |
| `Batching.AllocCache.Append` | src/us_sctp_core.c:203-204 | the offset joins the back of the pending pointers |
| `Batching.AllocCache.PushEntry` | src/us_sctp_core.c:216 | the entry joins the back of the queue with its `num` pointers |
| `Batching.AllocCache.FetchFrames` | src/us_sctp_if.cpp:56-71 | `fetch_frames` hands out the next cached pointer when one is left; otherwise it pops the front entry, turns its offsets back into pointers and hands out the first, keeping the rest in order |
| `Batching.AllocCache.TakeCached` | src/us_sctp_if.c:56-59 | the cached pointer handed out is the front of those not yet handed out |
| `Batching.AllocCache.Refill` | src/us_sctp_if.c:60-68 | the front entry leaves the queue and its pointers, made absolute, are handed out from the first |
| `Batching.AllocCache.Load` | src/us_sctp_if.cpp:64-68 | the popped entry's `num` offsets become pointers in order, the rest is copied as is, and `next` is 1 |
| `Batching.AllocCache.PutBack` | src/us_sctp_if.cpp:287-293 | a send frame released unused goes back to the front of the cache it came from |
| `UserIf.InitBuf` | src/us_sctp_if.cpp:630-636 | `init_buf` leaves an empty frame of type 0 and returns 1, sequence and ack untouched |
| `UserIf.AppendCount` | src/us_sctp_if.cpp:668-671 | the number of words appended never exceeds the words asked for nor the room left in the frame, and is one of the two |
| `UserIf.AppendCountAsWritten` | src/us_sctp_if.c:535-538 | the 32-bit count as written agrees with `AppendCount` whenever `len + num` does not wrap |
| `UserIf.AppendCountWraps` | src/us_sctp_if.cpp:668-671 | appending 2^32-1 words to a one-word frame yields the count 2^32-1 as written, against 179 intended |
| `UserIf.AppendWords` | src/us_sctp_if.cpp:639-682 | `append_words`: a non-empty frame of another type is SC_CORRUPT and untouched; otherwise the frame takes `ptype`, keeps its words, gains exactly the next `AppendCount` values (zeros without values), LEN grows by that count and the count is returned |
| `UserIf.CopyWords` | src/us_sctp_if.c:541-544 | the copy writes exactly the given words at the given offset and nothing else |
| `UserIf.ChunkLen` | src/us_sctp_if.c:591-594 | every frame `SCTP_Send` fills carries between 1 and MAX_PDUWORDS words |
| `UserIf.ChunkStep` | src/us_sctp_if.c:591-598 | the send position after frame `c` is `min(180c, num)`, and the loop runs exactly while frames remain |
| `UserIf.JoinedIsPrefix` | src/us_sctp_if.c:563-611 | the first `k` frames carry exactly the first `min(180k, num)` payload words, in order |
| `UserIf.ChunksCoverPayload` | src/us_sctp_if.cpp:714-736 | the frames together carry the whole payload, in order, with nothing added |
| `UserIf.Send` | src/us_sctp_if.cpp:699-743 | `SCTP_Send`: no descriptor is -1; otherwise `num` is returned and `ceil(num/180)` frames, taken in order, each carry type `typ` and their chunk of the payload |
| `UserIf.FillFrame` | src/us_sctp_if.c:596-597 | a filled frame has type `typ`, LEN equal to its word count and those words as payload |
| `UserIf.Recv` | src/us_sctp_if.cpp:749-772 | `SCTP_Recv`: a missing descriptor, type, length or buffer is -1 and nothing changes; otherwise the received frame's length, type and LEN words are handed out, the rest of the buffer untouched, the frame's offset joins the receive side's recycled frames after all earlier ones, and 0 is returned |
| `UserIf.BufArgCheck` | src/us_sctp_if.cpp:347 | `send_buf`/`rel_buf` refuse with SC_INVAL exactly a missing buffer without MODE_FLUSH |
| `UserIf.TxQueuesEmpty` | src/us_sctp_if.c:400-408 | `tx_queues_empty` returns 1 exactly when no transmit queue holds an entry, else 0 |
| `HostArq.Handle.constructor` | include/sctrltp/libhostarq.h:15-22 | a zero-initialised handle has no pid and none of its three strings |
| `HostArq.Handle.Free` | src/libhostarq.cpp:96-104 | `hostarq_free_handle` clears the name, path and IP strings and nothing else |
| `HostArq.Handle.OpenCheck` | src/libhostarq.cpp:117-136 | `hostarq_open` proceeds exactly when no pid is set and name, path and IP are all set; a set pid is the first abort reason |
| `HostArq.Handle.CloseCheck` | src/libhostarq.cpp:237-245 | `hostarq_close` proceeds exactly when a pid and a path are set; a missing pid is the first abort reason |
| `HostArq.CreateCheck` | src/libhostarq.cpp:43-61 | creation proceeds exactly with a handle, a name whose `strlen` in bytes is below NAME_MAX and an IP; a missing handle and an over-long name abort with their own reasons |
| `HostArq.ShmPath` | src/libhostarq.cpp:72-78 | the shared-memory path starts with `/dev/shm/` and never exceeds the prefix plus NAME_MAX bytes |
| `HostArq.ShmPathNotTruncated` | src/libhostarq.c:60-66 | a name that passed the length check is copied whole into the path, which with its terminator fits the buffer |
| `HostArq.CreateHandle` | src/libhostarq.cpp:33-91 | `hostarq_create_handle` aborts, changing nothing, exactly when `CreateCheck` fails; otherwise the handle has pid 0, the name, the IP, the path `/dev/shm/<name>`, the three ports and `init` |
| `HostArq.CreateHandleC` | src/libhostarq.c:27-76 | the C `hostarq_create_handle`: the same checks and strings, with the ports left alone |
| `HostArq.CreatedHandleOpens` | include/sctrltp/libhostarq.h:46-53 | a freshly created handle passes the open checks and fails the close checks for lack of a pid |
| `HostArq.FreedHandleIsDead` | include/sctrltp/libhostarq.h:38-43 | a freed handle can be neither opened nor closed: without a pid its name is missing, with one its path is |
| `SimSeq.NextSeq` | simulation/helpers.h:27-35 | `next_seq` is the successor modulo SEQ_SIZE, the 32-bit wrap of `s + 1` notwithstanding |
| `SimSeq.Ahead` | simulation/helpers.h:38 | the forward distance on the circle of SEQ_SIZE numbers is below SEQ_SIZE |
| `SimSeq.InWindowAsWritten` | simulation/helpers.h:39-53 | `in_window` as written: empty when the ends meet, `a < x <= b mod SEQ_SIZE` in the plain case, `a < x` or `x <= b mod SEQ_SIZE` in the wrapped case |
| `SimSeq.InWindowAcceptsOutOfRange` | simulation/helpers.h:49-51 | the wrapped case accepts 70000, which is no sequence number, for the window starting at SEQ_MAX |
| `SimSeq.InWindow` | simulation/helpers.h:43 | membership holds only for sequence numbers, and for them agrees with `in_window` as written |
| `SimSeq.InWindowIsCircular` | simulation/helpers.h:38-53 | a sequence number is in the window exactly when it lies strictly ahead of `a` and no further than the window end |
| `SimSeq.DistWindowIsCircular` | simulation/helpers.h:56-65 | `dist_window` is the circular distance from `a` to `x`, a full turn when they meet, always between 1 and SEQ_SIZE |
| `SimSeq.DistOfNextSeq` | simulation/helpers.h:27-35 | the successor of a sequence number lies one step ahead of it |
| `SimBuffer.WindowOf` | simulation/ARQStreamWrap.h:104 | the window's `k`-th element sits in slot `(first + k) mod WS` |
| `SimBuffer.WindowPush` | simulation/ARQStreamWrap.h:128-130 | writing the slot after the newest element appends to the window and keeps its other elements |
| `SimBuffer.WindowPop` | simulation/ARQStreamWrap.h:113-114 | moving the start one slot on drops the oldest element and keeps the others in order |
| `SimBuffer.WindowBuffer.constructor` | simulation/ARQStreamWrap.h:133-139 | a new buffer holds no valid data |
| `SimBuffer.WindowBuffer.WindowIdx` | simulation/ARQStreamWrap.h:88 | the index of the window's first slot |
| `SimBuffer.WindowBuffer.WindowSize` | simulation/ARQStreamWrap.h:90 | the number of elements in the window |
| `SimBuffer.WindowBuffer.WindowSpace` | simulation/ARQStreamWrap.h:92 | free slots and elements add up to WS |
| `SimBuffer.WindowBuffer.WindowEmpty` | simulation/ARQStreamWrap.h:94 | empty exactly when the window holds no element |
| `SimBuffer.WindowBuffer.WindowFull` | simulation/ARQStreamWrap.h:96 | full exactly when the window holds WS elements |
| `SimBuffer.WindowBuffer.WindowNotFull` | simulation/ARQStreamWrap.h:98 | not full exactly when the window holds fewer than WS elements |
| `SimBuffer.WindowBuffer.WindowAt` | simulation/ARQStreamWrap.h:100-105 | `window_at` throws exactly past the window's end and otherwise gives the element that many places in |
| `SimBuffer.WindowBuffer.PopFront` | simulation/ARQStreamWrap.h:108-116 | `pop_front` throws on an empty buffer, changing nothing; otherwise it returns the oldest element and the window loses exactly it |
| `SimBuffer.WindowBuffer.DropFront` | simulation/ARQStreamWrap.h:118-122 | `drop_front(N)` removes the N oldest elements; asking for more empties the window and throws |
| `SimBuffer.WindowBuffer.PushBack` | simulation/ARQStreamWrap.h:124-131 | `push_back` throws on a full buffer, changing nothing; otherwise the element joins the back of the window |
| `SimStream.AheadOfSeqAt` | simulation/ARQStream.cpp:424 | the number reached after `j` successor steps from `l0` lies exactly `j` ahead of it |
| `SimStream.Cached` | simulation/ARQStream.cpp:428 | the drained frames are the cached frames of the numbers after the start, one after the other |
| `SimStream.ClearRun` | simulation/ARQStream.cpp:427 | after taking `n` numbers, exactly the flags of the `n` numbers after the start are cleared and no other flag changes |
| `SimStream.ClearRunStep` | simulation/ARQStream.cpp:424-427 | clearing the next number's flag extends the cleared run by exactly that number |
| `SimStream.ReceiveCache.constructor` | simulation/ARQStreamWrap.h:149-153 | a new receive cache marks every sequence number as not cached |
| `SimStream.Drain` | simulation/ARQStream.cpp:423-432 | the hole-filling loop takes at most WINDOW_SIZE successive cached numbers, clears each flag and appends each frame in order; it stops at the first number not cached, or throws on a full receive buffer after clearing that number's flag |
| `SimStream.TakeFlag` | simulation/ARQStream.cpp:424-427 | one round looks at the successor, reports whether it is cached, and clears exactly its flag when it is |
| `SimStream.DrainStep` | simulation/ARQStream.cpp:424-431 | one round either stops at an uncached number, takes a cached frame, or throws with the buffer full |
| `SimStream.ConsecutiveSteps` | simulation/ARQStream.cpp:198-201 | in the send window the `k`-th frame's number is `k` steps after the first's |
| `SimStream.ArqStream.constructor` | simulation/ARQStream.cpp:47-59 | every counter starts at SEQ_MAX, both buffers and the cache are empty, and the sequence space is at least twice the window |
| `SimStream.ArqStream.Send` | simulation/ARQStream.cpp:191-204 | `send` refuses exactly when the send window is full, changing nothing; otherwise the packet gets the next sequence number and joins the window, which keeps consecutive numbers |
| `SimStream.ArqStream.Receive` | simulation/ARQStream.cpp:206-215 | `receive` throws when not running, yields nothing from an empty buffer, and otherwise removes and returns the oldest frame |
| `SimStream.ArqStream.TakeAck` | simulation/ARQStream.cpp:385-391 | an acknowledgement inside the send window moves `rack` to it; any other leaves `rack` alone |
| `SimStream.ArqStream.TakeData` | simulation/ARQStream.cpp:409-440 | the expected frame is delivered with its cached successors unless the buffer is full; a frame inside the receive window is cached under its number; anything else is ignored |
| `SimStream.ArqStream.TakeInOrder` | simulation/ARQStream.cpp:410-432 | the expected frame is appended, then the run of cached successors; `rseq` is the last number delivered, also when the drain throws, and on a normal end the run stops at the first frame not cached |
| `SimStream.ArqStream.TriggerReceive` | simulation/ARQStream.cpp:370-440 | `trigger_receive` clears `acked`, processes the acknowledgement, and for frames of 4 bytes or fewer touches no data state |
| `LoopbackModes.ParsePacketModeIsValue` | tools/LoopbackTest.h:33-41 | the packet-mode reader accepts exactly the one-letter token of a mode's value, and yields that mode |
| `LoopbackModes.ParsePayloadModeIsValue` | tools/LoopbackTest.h:48-53 | the payload-mode reader accepts exactly the one-letter token of a mode's value, and yields that mode |
| `LoopbackModes.ReadPacketMode` | tools/LoopbackTest.h:176-195 | reading a packet mode sets failbit exactly for an unknown token and then keeps the target; otherwise the target's value is the token |
| `LoopbackModes.ReadPayloadMode` | tools/LoopbackTest.h:199-212 | the same for payload modes |
| `Loopback.StepOffset` | tools/LoopbackTest.cpp:128-138 | one more step of the payload counter reaches the next word of the 2^64-wrapping sequence |
| `Loopback.Words` | tools/LoopbackTest.cpp:145-152 | the generated payload is the run of words counting from the start, wrapping at 2^64 |
| `Loopback.GeneratedPayloadChecksClean` | tools/LoopbackTest.cpp:229-253 | the checkers count no error in a payload the matching generator produced from the same start |
| `Loopback.IncrementalLen` | tools/LoopbackTest.cpp:147 | incremental packets are between 1 and `packet_length - 1` words long |
| `Loopback.DecrementalLenAsWritten` | tools/LoopbackTest.cpp:156-157 | the decremental length as written ranges from 3 to `packet_length + 1` |
| `Loopback.DecrementalLenOverflows` | tools/LoopbackTest.cpp:156-157 | with the default packet length the first decremental packet is 181 words, one more than the payload holds |
| `Loopback.DecrementalLen` | tools/LoopbackTest.cpp:154-161 | the corrected decremental length lies between 2 and `packet_length`, one less than as written |
| `Loopback.LengthsStep` | tools/LoopbackTest.cpp:145-161 | within a period each incremental packet is a word longer and each decremental packet a word shorter than the one before |
| `Loopback.PacketLen` | tools/LoopbackTest.cpp:145-199 | the next packet's length per mode: `packet_length` for max, 1 for min, 180 or 1 for corner, one less than the as-written decremental length (the corrected rule), and never more than MAX_PDUWORDS for a valid `packet_length` outside corner mode |
| `Loopback.LoopbackTest.constructor` | tools/LoopbackTest.cpp:23-39 | the test packet is a loopback packet of MAX_PDUWORDS words, the settings are applied and all statistics start at zero |
| `Loopback.LoopbackTest.StatsReset` | tools/LoopbackTest.cpp:286-297 | `stats_reset` zeroes every counter, sets the bandwidth to -1 and lets both loops run, changing nothing else |
| `Loopback.LoopbackTest.SetSettings` | tools/LoopbackTest.cpp:42-97 | `set_settings` stores the settings, starts a sequential payload at 0 or 2^64-1, and throws exactly for a packet length above MAX_PDUWORDS, before binding the packet maker |
| `Loopback.LoopbackTest.MakePacket` | tools/LoopbackTest.cpp:145-202 | a deterministic packet maker sets the length by its rule (the corrected one in decremental mode), fills that many successive payload words, counts them as sent and leaves the received counter alone |
| `Loopback.LoopbackTest.FillPayload` | tools/LoopbackTest.cpp:148-151 | the fill loop writes the next `len` payload words, leaves the rest of the payload alone, advances the sent counter by `len` and leaves the received counter unchanged |
| `Loopback.LoopbackTest.NextWord` | tools/LoopbackTest.cpp:128-138 | the payload generator returns the current word and steps the counter up or down, wrapping at 2^64 |
| `Loopback.LoopbackTest.CheckPayload` | tools/LoopbackTest.cpp:229-253 | a checker adds one error per word that differs from the expected one, expects next the successor of the last word received, and counts every word as received |
| `Text.UpTo` | src/packets.c:19 | a field is the longest prefix free of the separator, and is followed by the separator when it ends early |
| `Text.Tokens` | src/packets.cpp:16-19 | the `strtok` tokens are non-empty and free of the separator |
| `Text.Fields` | src/fpga_ip_list.cpp:13-15 | the `getline` fields are free of the separator, and an empty text has none |
| `Text.JoinFields` | src/fpga_ip_list.cpp:11-15 | splitting a text that does not end in the separator and joining the fields restores it |
| `Text.TokensOfJoin` | src/packets.c:19-24 | non-empty tokens joined by separators tokenize back to themselves |
| `Text.DecimalRoundTrip` | tools/bpo_parser_helper.h:20-22 | the decimal digits written for a number read back as that number |
| `Mac.HexRun` | src/packets.cpp:18 | `strtol` reads the longest prefix of hexadecimal digits |
| `Mac.Saturate` | src/packets.c:21 | an out-of-range `strtol` result saturates to the range of `long`, and an in-range one is unchanged |
| `Mac.Strtol16` | src/packets.cpp:18 | the value `strtol(…, 16)` returns lies in the range of `long` |
| `Mac.MacBytes` | src/packets.cpp:10-21 | `parse_mac` stores one byte per `strtok` token, the token's `strtol` value modulo 256, in order |
| `Mac.Strtok` | src/packets.c:19-22 | each `strtok` call returns the next token and moves past the separator that ended it; none is left exactly when no tokens remain |
| `Mac.ParseMac` | src/packets.c:13-25 | `parse_mac` writes exactly `MacBytes(s)` to the first `n` bytes, `n` being the number of tokens, and leaves the rest of `out` alone |
| `Mac.TokensSkipEmptyField` | src/packets.cpp:16 | an empty field between two colons yields no byte |
| `Mac.HexFields` | src/packets.c:28-34 | the six bytes become six two-digit lowercase hexadecimal fields |
| `Mac.MacText` | src/packets.cpp:24-30 | the printed address is 17 characters long |
| `Mac.PrintMac` | src/packets.cpp:23-31 | `print_mac` writes the prefix, `": "`, the 17-character address and a newline |
| `Mac.Strtol16OfHex2` | src/packets.c:21 | `strtol` reads a printed byte back as that byte |
| `Mac.ParsePrinted` | src/packets.cpp:10-31 | parsing a printed address gives back its six bytes |
| `Mac.PrintParsed` | src/packets.c:13-35 | printing the bytes parsed from a canonical address reproduces the text |
| `DurationOpt.PrintDuration` | tools/bpo_parser_helper.h:15-23 | a duration of a minute or more prints with unit `m`, anything shorter with unit `s` |
| `DurationOpt.Factor` | tools/bpo_parser_helper.h:39 | every unit stands for a positive length of time |
| `DurationOpt.DigitRun` | tools/bpo_parser_helper.h:41 | `qi::int_` reads the longest run of digits, stopping at the first non-digit |
| `DurationOpt.ParseInt` | tools/bpo_parser_helper.h:41 | a parsed integer consumes its optional sign and at least one digit, and never more than the text |
| `DurationOpt.ParseDurationAccepts` | tools/bpo_parser_helper.h:41-42 | the grammar `int_ >> unit >> eoi` accepts exactly a sign, digits within the range of `int` and one unit, and its value is the number times the unit |
| `DurationOpt.AcceptedIsParsed` | tools/bpo_parser_helper.h:41-42 | every text of the accepted language parses, to the number times the unit |
| `DurationOpt.ParsedIsAccepted` | tools/bpo_parser_helper.h:41-44 | every text that parses belongs to the accepted language |
| `DurationOpt.Validate` | tools/bpo_parser_helper.h:26-45 | `validate` refuses a second occurrence, more than one token and no token, and otherwise succeeds exactly on an accepted token, reporting the token when it fails |
| `DurationOpt.ParseIntOfSignedDecimal` | tools/bpo_parser_helper.h:35-41 | `qi::int_` reads back a printed `int` and stops right after it |
| `DurationOpt.UnitsRead` | tools/bpo_parser_helper.h:38-39 | `<n>s`, `<n>m` and `<n>h` read as n seconds, minutes and hours |
| `DurationOpt.PrintRoundTrip` | tools/bpo_parser_helper.h:15-45 | whole seconds under a minute and whole minutes print to text that reads back as the same duration |
| `DurationOpt.PrintDropsSeconds` | tools/bpo_parser_helper.h:17-20 | past a minute, what is printed reads back as the duration rounded down to whole minutes |
| `DurationOpt.OneHourPrintsMinutes` | tools/bpo_parser_helper.h:19-20 | `1h` parses to one hour, which prints as `60m` |
| `IpList.Getline` | src/fpga_ip_list.cpp:13 | one `getline(…, ',')` call fails exactly when nothing is left, and otherwise reads the next field and consumes its comma |
| `IpList.GetFpgaIpList` | src/fpga_ip_list.cpp:7-18 | `get_fpga_ip_list` returns exactly the comma-separated fields of the variable, in order |
| `IpList.ConsecutiveCommasGiveEmptyField` | src/fpga_ip_list.cpp:13-14 | two commas in a row yield an empty address |
| `IpList.TrailingCommaAddsNoField` | src/fpga_ip_list.cpp:13-15 | a comma at the very end adds no address |
| `IpList.JoinIpList` | include/sctrltp/fpga_ip_list.h:7-11 | the addresses joined with commas give back a variable that does not end in a comma, and no address contains a comma |
| `Bitfile.SwapWordWritesBigEndian` | src/bitfiles.c:3-8 | `fwriteswap` writes the word's bytes most significant first, and swapping twice restores the word |
| `Bitfile.Fread` | src/bitfiles.c:32 | a read returns at most the bytes asked for, namely the bytes of the file from the current position on, none past its end, advances the position by what it got and sets the end-of-file flag on a short read |
| `Bitfile.ReadU16` | src/bitfiles.c:35 | a complete 2-byte read stores a little-endian 16-bit value; a read that gets nothing leaves `len` unchanged |
| `Bitfile.SwapLenReadsBigEndian` | src/bitfiles.c:33 | the byte exchange applied to a little-endian read yields the big-endian length stored in the file |
| `Bitfile.HeaderEstablishes` | src/bitfiles.c:32-37 | after skipping the first field and reading the second word, the walk stands at the first record, or at end of file only when the file holds no bitstream |
| `Bitfile.StepShape` | src/bitfiles.c:40-47 | one loop pass reads a type byte and a big-endian length and skips the body of every record but 0x65 |
| `Bitfile.StepTruncated` | src/bitfiles.c:40-41 | with fewer than three bytes left a loop pass reaches end of file |
| `Bitfile.StepPreserves` | src/bitfiles.c:38-48 | each loop pass keeps the walk on the chain of records that leads to the 0x65 record the file describes |
| `Bitfile.AsWrittenNeverEndsAtEof` | src/bitfiles.c:38-48 | with the condition `typ != 0x65` or `feof(file)`, once end of file is reached no pass ends the loop and nothing more is read |
| `Bitfile.TruncatedFileHangsAsWritten` | src/bitfiles.c:32-48 | a 4-byte file with no records keeps the loop as written running for every number of passes |
| `Bitfile.FindSync` | src/bitfiles.c:38-48 | the record found has type 0x65, starts at or after the walk's position and has its type and length inside the file |
| `Bitfile.SyncEnd` | src/bitfiles.c:49-53 | standing past the 0x65 record's type and length, the count is that length shifted up by 16 over the byte-swapped word read next, complete or not, and the offset is the position after that read |
| `Bitfile.BitstreamInfoComplete` | src/bitfiles.c:49-51 | when the file holds the whole second word, the count is the record's big-endian length over the next big-endian word, at offset five bytes past the record's start |
| `Bitfile.ShortLengthWordKeepsStaleLen` | src/bitfiles.c:49-53 | a file ending right after the 0x65 record's length 0x1234 yields the count 0x12343412 from the stale `len`, at offset 7, with no end-of-file check |
| `Bitfile.ReadLength` | src/bitfiles.c:49-53 | reading the second length word returns the count and offset the file describes, also when that word is cut short |
| `Bitfile.ParseBitfile` | src/bitfiles.c:16-59 | no name or a file that cannot be opened gives -1; otherwise -1 exactly when the walk reaches the end of the file before a 0x65 record, and else the count and offset the file describes |
| `Bitfile.TruncatedFileRejected` | src/bitfiles.c:38-48 | the file on which the loop as written hangs is reported as holding no bitstream |
| `Bitfile.ForwardLengthStep` | src/bitfiles.c:124-125 | the words device `i` forwards are those device `i + 1` forwards plus that device's stream and its 21 command words, and for the last but one device the last stream plus 4 |
| `Bitfile.ForwardWordOfSmall` | src/bitfiles.c:126 | for lengths below 2^28, OR-ing 0x50000000 into `size` is the header 0x5 above the unchanged length |
| `Bitfile.ForwardSize` | src/bitfiles.c:124-125 | the `unsigned int` sum is the forwarded length modulo 2^32 |
| `Bitfile.StreamSizes` | src/bitfiles.c:83-88 | the sizing loop succeeds exactly when every file parses, and then gives each stream's size as its byte count over 4, rounded toward zero |
| `Bitfile.CreateSerialBitstream` | src/bitfiles.c:68-128 | returns 0 exactly when the output opens and every file parses, and then gives each stream's size in words (rounded toward zero) and one forwarding word per device but the last |

## Left out

- Threads and their loop control (`SCTP_RX`, `SCTP_TX`, `SCTP_RESEND`, `SCTP_PREALLOC`, `do_reset`, core up/down): only the sequential pieces they call are modelled.
- Locks, atomics, the `MODE_SAFE` mutex paths and the semaphores' blocking waits: the model is single-threaded.
- Fifo.Fifo.Push: covers only the path that does not wait (the FIFO is not full); the blocking wait is concurrency.
- Fifo.Fifo.Pop: covers only the path that does not wait (the FIFO is not empty).
- Batching.AllocCache.PushFrames: covers only the non-blocking case of the underlying FIFO push.
- Batching.AllocCache.FetchFrames: covers only the non-blocking case of the underlying FIFO pop.
- Null-pointer checks of the FIFO functions and `malloc` failure are not modelled: references in Dafny are never null and allocation does not fail.
- Pointer width on i386 builds is not modelled; offsets are unbounded integers.
- The `WITH_CONGAV` slow-start branch of `mark_frame` and builds without `WITH_RTTADJ` are not modelled; the default build is.
- Core.CheckResetAnswer: models the check with the corrected loop bound; as written, the C build also compares words 4 to 6 of a longer answer with the zero entries of its six-entry table, and both builds read past their tables beyond that (see Findings).
- Core.SizeT: requires its argument to lie in the signed 64-bit range, which the deviation computed from 64-bit timestamps always does.
- Shared memory (`shm_open`, `mmap`, `flock`), sockets, raw packet rings, timers and the HPET are I/O and are not modelled.
- `hostarq_open`/`hostarq_close` fork, exec, signal and wait for the daemon; only their preconditions on the handle are modelled.
- `SCTP_Send` takes its frames from the allocator; the model is given a supply of free frames.
- The resend tick's `currtime` is unbounded; its 64-bit wrap is not modelled.
- The byte-order conversions (`htonl`, `ntohl`, `ntohs`) of the simulated stream's packets are left out: the model keeps every field in host order, so each conversion pair cancels.
- Random drops in the simulation (`rand()` against the drop rates) are taken with drop rate 0; SystemC timing, `trigger_send` and the Ethernet simulator are left out.
- The loopback tester's random packet mode, `check_random_payload`, `approximate_bandwidth`, the timer, progress and run threads are left out (randomness, floating point, threads).
- Loopback.LoopbackTest.constructor: requires a packet length of at most `MAX_PDUWORDS`; for a longer one the source throws `overflow_error` from `set_settings`, which `SetSettings` models as an error result.
- Loopback.PacketLen: the decremental length is the corrected `DecrementalLen`, one word less than `packet_length - counter % (packet_length - 1) + 1` as written, for every packet length and not only the default one where the written rule overflows `pdu` (see Findings).
- Loopback.LoopbackTest.MakePacket: requires a packet length of at least 2 in the two sequence modes: with length 1 the source computes `% (packet_length - 1)`, a division by zero, and with length 0, which `set_settings` accepts, the unsigned `packet_length - 1` wraps to 2^64 - 1, so the incremental length grows with the packet counter past MAX_PDUWORDS and the decremental length `0 - counter + 1` wraps to nearly 2^64 from the third packet on, both writing past `pdu`; it also leaves out the random mode.
- Loopback.LoopbackTest.MakePacket: decremental packets are one word shorter than `make_decremental_sequence_packet` makes them, because the model uses the corrected length rule `DecrementalLen` (see Findings), so the packet sizes and payload counters of that mode differ from the program's by one word per packet.
- Mac.ParseMac: requires `out` to hold every token and at most 256 tokens, which the source leaves to its caller (`out` is not bounds-checked and the index is an 8-bit counter); C strings with an embedded NUL are not represented.
- IpList.GetFpgaIpList: takes the value of `SLURM_FPGA_IPS` as a parameter; an unset variable, which the source passes as a null pointer to `istringstream`, is not modelled.
- DurationOpt.Validate: the 64-bit nanosecond overflow of very large durations is not modelled.
- Verbose printing and logging (`fprintf`, `LOG_*`, `print_stats`) are left out.
- Bitfile.ParseBitfile: a record longer than the 255-byte `buf` overflows it in the source; the model reads the record without storing it.
- Bitfile.ParseBitfile: a count of 0xFFFFFFFF is returned as -1 and so is indistinguishable from an error, as in the source; the model does not separate them.
- Bitfile.CreateSerialBitstream: the copying of the streams and the configuration command words written around them are not modelled, only the sizes and forwarding words; it requires at most 16 files, the size of the source's arrays.
- Floating-point statistics and bandwidth printing are left out.

## Findings

| source | as written | input that shows it | evidently intended | confidence | as-written member | corrected member |
|---|---|---|---|---|---|---|
| src/sctp_window.cpp:177-180 | `new_frame_rx` reads the slot `frames + seq` with the unreduced wire sequence number before the window check | sequence number 261 in a 256-slot window with `low_seq` 0 and `high_seq` 128 passes `is_in_window` (261 is 5 modulo 256) and the slot read lies past the array | reject sequence numbers that are not slot indices before touching the slot | not executed | `Window.RxOutOfRangeSeqPassesWindowCheck` | `Window.RxAcceptsInBounds` |
| tools/LoopbackTest.cpp:156-157 | decremental length `packet_length - counter % (packet_length - 1) + 1` | `packet_length` 180 and counter 0 give 181 words, one more than `MAX_PDUWORDS` | lengths from `packet_length` down to 2 | not executed | `Loopback.DecrementalLenOverflows` | `Loopback.DecrementalLen` |
| src/us_sctp_core.cpp:591-603 | the C++ reset-answer check compares each of the answer's `len` words with its local three-entry values table | an answer of 4 words reads values entry 3, past the table | compare at most the three parameters | not executed | `Core.CheckReadsPastTable` | `Core.CheckResetAnswer` |
| src/us_sctp_core.c:571-580 | the C check logs each of the answer's `len` words under its entry of the three-entry names table (the values table has six entries, the last three zero) | an answer of 4 words reads names entry 3, past the table | stop at the end of the shorter table, i.e. after three words | not executed | `Core.CheckReadsPastTable` | `Core.CheckResetAnswer` |
| simulation/helpers.h:49-51 | wrapped-window case `(a < x)` or `(x <= bc)` has no upper bound on `x` | `x` 70000, `a` 65535, `b` 65535 + 512 is accepted although 70000 is no sequence number | accept only `x < SEQ_SIZE` | not executed | `SimSeq.InWindowAcceptsOutOfRange` | `SimSeq.InWindowIsCircular` |
| src/bitfiles.c:38 | loop condition `(typ != 0x65)` or `feof(file)` | a 4-byte file holding only an empty first field and a second word loops for ever at end of file | stop at end of file and report an error | not executed | `Bitfile.TruncatedFileHangsAsWritten` | `Bitfile.TruncatedFileRejected` |
| src/us_sctp_if.c:535-538 | `max_num = curr_num + num` is a 32-bit sum that wraps before the clamp | a frame of 1 word and `num` 2^32 - 1: the sum wraps to 0 and the count becomes 2^32 - 1 | clamp the count to the room left in the frame | not executed | `UserIf.AppendCountWraps` | `UserIf.AppendCount` |
