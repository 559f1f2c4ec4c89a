# Verification of the network model, the Z80 slice and DLSPEED

A Dafny model of the parts of the repository that carry its network tests, and proofs of what they
promise. `dafny verify dfyconfig.toml` checks all of it.

* **The RTL8019 card** (`NicSpec`, `Rtl8019`, `PageRing`, `ReceiveRing`, `RingRuns`,
  `ReceiveAccounting`, `DataPath`, `AddressFilter`, `Registers`). The card is a class with its
  registers and a RAM array; each method is proved equal to a function on a record of the same
  fields. The receive ring is shown to be a bounded FIFO of frames over whole runs, the address
  filter, the overflow halt and the counters are exact, a frame survives remote DMA, loopback and
  read-back byte for byte, and the driver's initialisation makes any card receive.
* **The TCP peers** (`StreamSender`, `GoBackN`, `StreamRuns`, `FastRetransmit`, `StreamTiming`,
  `EventQueue`, `BackoffRuns`, `StreamPeer`, `ReplaySender`, `ReplayReplies`). The window-filling
  sender with its retransmission timer is composed with the in-order acceptor over a network that
  loses, duplicates, delays and reorders, modulo 2^32. It completes without losses, and recovers from
  them by repeated acknowledgements or by the timer. The event queue keeps a stream in order. The
  replay sender never leaves a hole, and when it answers, how much and with what progress is exactly
  said.
* **TFTP** (`Tftp`, `TftpTransfer`, `TftpRecovery`). Both ends as machines and as loops, joined by
  channels that lose and duplicate, with block numbers modulo 2^16; what they recover from, and when
  they give up.
* **The Z80** (`Z80`, `Z80Flags`, `Z80Cpu`, `DelayLoop`, `RunLoop`, `BlockCopy`, `DlspeedClock`,
  `DlspeedRate`, `Z80View`, `DlspeedUrlCode`). The instructions that the delay loop, LDIR and
  DLSPEED's arithmetic and URL parser need, the harness's shortcut for the delay loop, and DLSPEED's
  machine code run on them. `Z80View` is the interpreter as the parser's code sees it, one lemma an
  instruction, and `DlspeedUrlCode` runs the 145 bytes of PARSE_URL with COPY_ASCIIZ and STARTSWITH.
* **Codecs and checks** (`Crc32`, `Crc32Division`, `InetChecksum`, `Wire`, `WireLayout`, `TuneWindow`,
  `DlspeedUrl`).

`Bytes` and `SeqSpace` hold bytes, words and sequence numbers. A method that throws in the source
returns `ok == false` and its specification is `Thrown`; what the state is after a throw is not said.

## Where the code differs from its comments or from what was wanted

* The retransmission timer is described as an exponential backoff. It is computed with a 32-bit
  shift, so from 31 consecutive losses on it may be shorter, even 0
  (`StreamSender.BackoffIsExponential` gives the exact condition). The limit of losses does not
  prevent this: a later acknowledgement that brings nothing new arms the timer again with the count
  that the sender gave up at (`BackoffRuns.BackoffBreaks` is such a run on the card's clock, for every
  limit).
* `receive_file` packs the number of the block before the expected one at line 183 without the mask that
  line 199 has. When 0 is expected a timeout raises an exception and ends the transfer
  (`TftpTransfer.TimeoutRaisesIff`; `TftpTransfer.ExceptionIsReached` is a run that gets there). The
  model does what the code does; the transfer is safe all the same.
* `putChecksum` verifies for a field at an odd distance into its region only if the two bytes of the
  checksum are equal (`InetChecksum.PutVerifiesIff`; `InetChecksum.OddFieldFails` is a failing packet).
* `buildTcpSegment` truncates the total length to 16 bits without a check, so a longer payload comes
  back shortened (`Wire.TcpRoundTripIff`), at worst empty (`Wire.LongPayloadIsLost`).
* `tcpReliableNext` with `oversizeFirst` does not clamp the first flight to the response. If the first
  acknowledgement it answers is premature, that reply or a later replayed overlap may bring nothing
  (`ReplaySender.EveryReplyAdvancesIff` gives the exact condition over every run,
  `ReplaySender.PrematureTotalStalls` and `ReplaySender.PrematurePartStalls` the two kinds of input).
  Without a premature acknowledgement every reply advances (`ReplaySender.TimelyRepliesAdvance`).

## Model

| member | source | states |
|---|---|---|
| PageRing.DecodeConcat | tools/exe-harness/rtl8019-model.js:553-576 | following the headers over two adjacent page ranges gives the frames of the first and then of the second |
| PageRing.DecodeDrop | tools/exe-harness/rtl8019-model.js:553-576 | starting the walk `k` frames later decodes the same frames without the first `k` |
| PageRing.DecodePages | tools/exe-harness/rtl8019-model.js:555-556 | the pages between the two ends of a walk are exactly the pages its frames need |
| PageRing.DecodeSame | tools/exe-harness/rtl8019-model.js:564-576 | a walk depends only on the bytes of the unread pages |
| PageRing.LaidOutFrameDecodes | tools/exe-harness/rtl8019-model.js:562-573 | a header with status, next page and length, followed by the frame, decodes to that frame, also across the wrap at PSTOP |
| ReceiveRing.GapIs | tools/exe-harness/rtl8019-model.js:553-557 | the free pages the card computes from BNRY and CURR are the capacity less the unread pages |
| ReceiveRing.StoreRunEffect | tools/exe-harness/rtl8019-model.js:570-573 | writing a run of bytes overlays exactly those cyclic positions of the ring and nothing outside it |
| ReceiveRing.DeliveryOverwritesNothing | tools/exe-harness/rtl8019-model.js:542-579 | a delivery changes no byte of an unread page, of the BNRY page, or outside the ring |
| ReceiveRing.DeliveryKeepsRest | tools/exe-harness/rtl8019-model.js:570-573 | a stored frame takes its `length + 4` bytes from CURR on and no other byte of the ring |
| ReceiveRing.DeliveryPushes | tools/exe-harness/rtl8019-model.js:542-579 | a delivery appends the frame to the queue exactly if the filter takes it and its pages fit; otherwise the queue stays as it is |
| ReceiveRing.FitsIs | tools/exe-harness/rtl8019-model.js:556-557 | the overflow test is the page count of the queue against the capacity |
| AddressFilter.OneFrame | tools/exe-harness/rtl8019-model.js:529-562 | one frame is stored, halts reception or is counted as filtered, each exactly in its case: the bits of RCR, the group bit, the station address and the free pages decide, also for frames of fewer than six bytes |
| AddressFilter.WireFrameQueues | tools/exe-harness/rtl8019-model.js:529-579 | a frame from the wire to a running card joins the queue exactly if RCR and the station address want it and its pages fit, with status 0x21 for group addresses and 0x01 else |
| ReceiveRing.ReleasePops | tools/exe-harness/rtl8019-model.js:460 | moving BNRY to the page before a frame boundary pops exactly the frames before it |
| RingRuns.StepIsFifo | tools/exe-harness/rtl8019-model.js:431-579 | every frame from the wire, register write, data-port read and BNRY advance is one step of a bounded FIFO of frames |
| RingRuns.RunIsFifo | tools/exe-harness/rtl8019-model.js:542-579 | over every run, the walk from the page after BNRY to CURR decodes exactly the delivered, not yet released frames, in order and byte for byte, and `rxDelivered` counts them |
| RingRuns.EmptyRing | tools/exe-harness/rtl8019-model.js:553-557 | the ring is empty exactly if CURR is the page after BNRY, and full exactly if CURR is BNRY |
| Rtl8019.Card.RamReadNic | tools/exe-harness/rtl8019-model.js:316-321 | reads the PROM below 0x4000, RAM below 0x8000, and counts everything beyond as out of bounds |
| Rtl8019.Card.RamWriteNic | tools/exe-harness/rtl8019-model.js:323-328 | the write in place is the write of the specification, with its out-of-bounds count |
| Rtl8019.Card.WriteRing | tools/exe-harness/rtl8019-model.js:570-573 | the write loop with its wrap at PSTOP stores the run and leaves the address of the next byte |
| Rtl8019.Card.DeliverFrame | tools/exe-harness/rtl8019-model.js:542-579 | reception in place is `NicSpec.Deliver`, about which the ring lemmas speak: filter, halt, overflow, layout and CURR |
| Rtl8019.Card.DoTransmit | tools/exe-harness/rtl8019-model.js:492-526 | transmission in place: the throw for a bad TPSR, loopback to the ring or FIFO, and the wire |
| Rtl8019.Card.WriteCommand | tools/exe-harness/rtl8019-model.js:246-269 | a CR write in place: stop, restart, remote DMA command and transmission in the order of the source |
| Rtl8019.Card.ReadDataPort | tools/exe-harness/rtl8019-model.js:285-301 | one byte of a remote read in place, with its RDC on the last byte and its throw without a transfer |
| Rtl8019.Card.WriteDataPort | tools/exe-harness/rtl8019-model.js:303-314 | one byte of a remote write in place, with its RDC on the last byte and its throw without a transfer |
| Rtl8019.Card.WriteRegister | tools/exe-harness/rtl8019-model.js:431-489 | a register write in place on pages 0, 1, 2 and 3, with the throws for illegal ones |
| NicSpec.DeliverKeeps | tools/exe-harness/rtl8019-model.js:542-579 | reception touches RAM, CURR, ISR, the halt and its three counters, and nothing else |
| NicSpec.TransmitIs | tools/exe-harness/rtl8019-model.js:246-269 | a CR write with TXP is one loopback delivery or a transmission, after the stop, start and DMA effects of the same write |
| Registers.IsrWriteClears | tools/exe-harness/rtl8019-model.js:464 | writing ISR clears exactly the bits that are set in the value |
| Registers.WordRegisters | tools/exe-harness/rtl8019-model.js:462-468 | TBCR, RSAR and RBCR take their two bytes in either order |
| Registers.ThrowsIff | tools/exe-harness/rtl8019-model.js:455-488 | a register write throws exactly for unknown offsets, page 2, most of page 3 and 16-bit transfers |
| Registers.CommandIs | tools/exe-harness/rtl8019-model.js:246-267 | a command without TXP: when the card stops, starts and takes frames again, and what becomes of the remote DMA |
| Registers.TransmissionIs | tools/exe-harness/rtl8019-model.js:492-526 | a command with TXP throws exactly where TPSR is not below PSTOP, and else the bytes from TPSR on leave by exactly one of four ways, also from a page below the RAM |
| Registers.ReadsAnywhere | tools/exe-harness/rtl8019-model.js:285-321 | a remote read over any addresses returns the PROM over and over, the RAM, and the open bus beyond, which it counts |
| Registers.ReadsNoMore | tools/exe-harness/rtl8019-model.js:285-314 | a byte behind the last one, or in the other direction, throws |
| Registers.WritesAnywhere | tools/exe-harness/rtl8019-model.js:303-328 | a remote write over any addresses changes exactly the RAM bytes it has a byte for, and counts the rest |
| Registers.InitNormalIs | src/lib/rtl8019.asm:1396-1451 | the register writes of INIT_NORMAL leave every register at its value, whatever the card was doing |
| Registers.InitialisedReceives | src/lib/rtl8019.asm:1396-1451 | after INIT_NORMAL the card is running with an empty ring of 25 free pages, and queues the first frame exactly if RCR and the station address want it and it fits |
| ReceiveAccounting.RunCounts | tools/exe-harness/rtl8019-model.js:542-579 | over every run, deliveries are `filteredRx` + `overflowEvents` + `rxDelivered` |
| ReceiveAccounting.StepHalts | tools/exe-harness/rtl8019-model.js:246-257 | the receiver is halted after a step exactly if it was and the step does not restart it, or the step overflowed |
| ReceiveAccounting.HaltedIffOverflowed | tools/exe-harness/rtl8019-model.js:558-563 | over every run, reception is halted exactly if there was an overflow that no restart followed |
| ReceiveAccounting.HaltRefusesFrames | tools/exe-harness/rtl8019-model.js:543-546 | from an overflow to the restart a frame from the wire changes nothing but the count of filtered frames |
| ReceiveAccounting.RestartNeedsStop | tools/exe-harness/rtl8019-model.js:250-257 | a stopped receiver was stopped by a CR write with STP that no write with STA and without STP followed |
| DataPath.WriteBurstIs | tools/exe-harness/rtl8019-model.js:303-314 | a remote write stores its bytes in a row, and raises RDC exactly with the last of the programmed count |
| DataPath.ReadBurstIs | tools/exe-harness/rtl8019-model.js:285-301 | a remote read returns the RAM in a row, and raises RDC exactly with the last of the programmed count |
| DataPath.StartDmaIs | tools/exe-harness/rtl8019-model.js:258-267 | the five register writes of a transfer leave the DMA at its address with its count |
| DataPath.ReadRingIs | tools/exe-harness/rtl8019-model.js:285-301 | at most two linear bursts split at PSTOP read any stretch of the ring in cyclic order |
| DataPath.LoopbackRoundTrip | tools/exe-harness/rtl8019-model.js:492-579 | a frame written at TPSR, transmitted with loopback to the ring and read back is returned unchanged behind its header, and RAM changes in the transmit buffer and in the stored frame's own bytes only |
| StreamSender.BurstIs | tools/exe-harness/net-builders.js:568-592 | the segments of a burst carry the response end to end from `sentOffset`, none beyond the window, due in order, at most `maxBurst` of them |
| StreamSender.BackoffIsExponential | tools/exe-harness/net-builders.js:613-626 | the timer delay is the capped exponential backoff exactly up to 30 consecutive losses; beyond, where the 32-bit shift wraps, exactly if the wrapped value reaches the cap too |
| StreamPeer.Peer.StreamEmit | tools/exe-harness/net-builders.js:568-605 | the emission loop in place is the burst and the armed timer of the specification |
| StreamPeer.Peer.ArmRto | tools/exe-harness/net-builders.js:619-626 | arming in place: nothing if a timer is armed or nothing is in flight |
| StreamPeer.Peer.TcpStreamAhead | tools/exe-harness/net-builders.js:532-561 | an acknowledgement in place: progress, FIN, duplicate count and rewind, emission |
| StreamPeer.Peer.RtoExpired | tools/exe-harness/net-builders.js:627-642 | the timer callback in place: progress, end, giving up, or going back by one segment |
| StreamPeer.Card.Partition | tools/exe-harness/rtl8019-model.js:221-223 | the loop separates what is due from what is not, each in the order it was scheduled |
| StreamPeer.Peer.PumpScheduled | tools/exe-harness/rtl8019-model.js:216-230 | the pump in place: at most 64 rounds of partition, stable sort and hand-over |
| GoBackN.Acceptor.Receive | tools/exe-harness/net-builders.js:814-865 | the acceptor in place: in-sequence data and FIN only |
| GoBackN.AckedByIs | tools/exe-harness/net-builders.js:537-539 | an acknowledgement of the response reads back as its own offset, and a stale one from before it lands beyond the total |
| GoBackN.TakenOk | tools/exe-harness/net-builders.js:537-539 | no acknowledgement in the network, stale ones included, moves `ackedOffset` back or beyond what the acceptor has |
| GoBackN.StepKeeps | tools/exe-harness/net-builders.js:532-642 | every step of sender, timer, acceptor and network keeps the invariant, `ackedOffset` and the accepted bytes only grow |
| GoBackN.TransferIsSafe | tools/exe-harness/net-builders.js:532-642 | over every run with loss, duplication, delay and reordering: accepted bytes are a prefix of the response, `ackedOffset` is within them, FIN goes out at most once and only when all was accepted |
| GoBackN.TimerIsDisciplined | tools/exe-harness/net-builders.js:619-642 | in every reachable state at most one timer is pending, and bytes in flight have one unless the loss limit was passed |
| GoBackN.AckBurstFitsWindow | tools/exe-harness/net-builders.js:568-579 | every segment an acknowledgement triggers ends at or before `ackedOffset` plus its window |
| GoBackN.ExpiryResendsOldest | tools/exe-harness/net-builders.js:627-642 | an expiry without progress resends exactly the oldest unacknowledged segment, if the limit and the captured window admit it, and nothing otherwise |
| GoBackN.RecoveryProgresses | tools/exe-harness/net-builders.js:606-642 | in every reachable state with a timer pending since the last progress, the loss limit not passed and a captured window of an MSS, the expiry, the arrival of its segment and the acknowledgement move `ackedOffset` on |
| FastRetransmit.EarlyRepeatsSendNew | tools/exe-harness/net-builders.js:555-561 | no repeat of an acknowledgement before number max(1, dupAckRetransmit) sends anything below what was sent |
| FastRetransmit.LastRepeatResends | tools/exe-harness/net-builders.js:555-561 | that repeat resends the oldest unacknowledged segment if its window admits a full one, sends nothing otherwise, and starts the count again |
| FastRetransmit.OtherAckStartsAgain | tools/exe-harness/net-builders.js:557-560 | an acknowledgement that was not the last one heard starts the count |
| FastRetransmit.FastRecoveryProgresses | tools/exe-harness/net-builders.js:555-561 | from every reachable state with bytes in flight the repeats, the arrival of what the last one resends and its acknowledgement move `ackedOffset` on without a timer |
| StreamTiming.BurstIsPaced | tools/exe-harness/net-builders.js:571-592 | the segments of a burst are due one gap apart, the first after the delay and not before the previous burst |
| StreamTiming.BurstFills | tools/exe-harness/net-builders.js:568-592 | every segment is full but the response's last, and a burst ends only at the end of the response, the window or `maxBurst` |
| StreamTiming.ProgressResets | tools/exe-harness/net-builders.js:629 | a timer that finds progress forgets the backoff and starts again exactly if bytes are in flight |
| StreamTiming.GivesUpAtLimit | tools/exe-harness/net-builders.js:630-633 | without progress every expiry counts one loss more, and from `maxRetransmits` losses on it does nothing else |
| StreamTiming.ExpirySchedules | tools/exe-harness/net-builders.js:630-641 | before that it schedules the oldest segment after the configured delay, and a timer with one loss more |
| StreamTiming.FinGoesOutOnce | tools/exe-harness/net-builders.js:546-553 | the FIN is scheduled once, when everything is acknowledged |
| GoBackN.AcksDecodeIffResponseFits | tools/exe-harness/net-builders.js:537 | cumulative acknowledgements read back as their own offsets if and only if the response is shorter than 2^32 bytes |
| StreamRuns.RoundIsRun | tools/exe-harness/net-builders.js:532-605 | a round in which everything sent arrives in order is a run of the system |
| StreamRuns.LosslessCompletes | tools/exe-harness/net-builders.js:532-605 | without losses and with windows of at least one MSS, the response and the FIN are accepted after one round a segment and one more |
| BackoffRuns.BackoffBreaks | tools/exe-harness/net-builders.js:619-640 | on the card's clock, with every timer fired when it is due: every configuration with a byte to send, and a positive MSS, burst and delays, has with every window of at least an MSS a run of 31 losses in a row to an armed timer without delay, whatever the loss limit, since acknowledgements that bring nothing new arm the timer again after the sender gave up |
| BackoffRuns.PumpStops | tools/exe-harness/rtl8019-model.js:216-230 | with timers that have no delay one advance of the clock resends 64 times and leaves the next timer due |
| EventQueue.StableSortIs | tools/exe-harness/rtl8019-model.js:226-227 | sorting keeps every event, orders by due time and keeps the order of equal due times |
| EventQueue.StableSortIsUnique | tools/exe-harness/rtl8019-model.js:226-227 | any ordered arrangement with the same order of equal due times is the same one |
| EventQueue.SortKeepsStream | tools/exe-harness/rtl8019-model.js:225-227 | a stable sort leaves a stream alone that is in order already |
| EventQueue.StreamStaysInOrder | tools/exe-harness/net-builders.js:563-592 | for every sequence of acknowledgements and clock advances without a timeout: what was delivered is a prefix of what was emitted and exactly the rest is pending, in order |
| EventQueue.AdvanceDeliversDue | tools/exe-harness/rtl8019-model.js:216-230 | after such an advance no due segment is left |
| ReplaySender.Peer.TcpReliableNext | tools/exe-harness/net-builders.js:481-521 | the call in place is the specification of the replay sender |
| ReplaySender.NextIsSane | tools/exe-harness/net-builders.js:485-511 | whatever is acknowledged, the flight starts at or before `ackedOffset` and is no longer than the MSS |
| ReplaySender.NextIsSound | tools/exe-harness/net-builders.js:500-511 | unless an oversized first reply answers a premature acknowledgement, the flight does not pass the total either |
| ReplaySender.ReplyAdvancesIff | tools/exe-harness/net-builders.js:497-517 | a reply carries a new byte or the final FIN if and only if: the MSS is at least 1 where bytes are missing; `finWithData` is set where only the FIN is left and an overlap is replayed; and else the reply is not an oversized first one |
| ReplaySender.EveryReplyAdvancesIff | tools/exe-harness/net-builders.js:481-521 | the same over every run of any acknowledgements, and every reply starts at or before `ackedOffset` with the response's own bytes |
| ReplaySender.TimelyRepliesAdvance | tools/exe-harness/net-builders.js:481-521 | in every run without a premature acknowledgement and with an MSS of at least 1, every reply advances |
| ReplaySender.PrematureTotalStalls | tools/exe-harness/net-builders.js:496-500 | a first acknowledgement of the whole response gets an oversized reply without a byte or a FIN |
| ReplaySender.PrematurePartStalls | tools/exe-harness/net-builders.js:496-505 | after a first acknowledgement of 80 of 100 bytes the flight ends at 130, and an acknowledgement of all 100 gets 20 old bytes and no FIN |
| ReplaySender.ReplayLeavesNoHole | tools/exe-harness/net-builders.js:481-521 | over every run of a client that acknowledges only what it has: every reply ever sent extends the client's file without a hole, and one with FIN completes it |
| ReplaySender.LockstepCompletes | tools/exe-harness/net-builders.js:481-521 | a client that acknowledges every reply with an open window has the whole response and its FIN acknowledged after at most total + 2 rounds |
| ReplayReplies.SessionIs | tools/exe-harness/net-builders.js:481-520 | over every run: the session knows whether it answered, whether a FIN went out and was acknowledged after that, and the greatest offset acknowledged |
| ReplayReplies.SilentIff | tools/exe-harness/net-builders.js:488-493 | an acknowledgement gets no answer exactly if its window is closed or the FIN is acknowledged |
| ReplayReplies.EveryReplyFits | tools/exe-harness/net-builders.js:494-511 | every reply of every run carries at most the MSS and, unless it is an oversized first one, ends within the advertised window; it starts at the greatest acknowledged offset, or at the previous flight where that was acknowledged in part and overlaps are replayed, and its size is exactly what MSS, window and response admit |
| ReplayReplies.EveryReplyIsMarked | tools/exe-harness/net-builders.js:502-520 | flags, acknowledgement number and delay of every reply, and the extra acknowledgement behind an early first one |
| Tftp.ServeFile | tools/dev/tftp_serve.py:85-115 | the nested loops compute the run of the sender machine and send its packets |
| Tftp.ReceiveFile | tools/dev/tftp_serve.py:149-209 | the start phase and the steady loop compute the run of the receiver machine and send its acknowledgements |
| TftpTransfer.StepKeeps | tools/dev/tftp_serve.py:85-115 | every step of either end or of a channel that loses or repeats keeps the invariant of the alternation modulo 2^16 |
| TftpTransfer.TransferIsSafe | tools/dev/tftp_serve.py:149-209 | for files of any length: the written file is always a prefix of the data, a finished receiver has all of it, a finished sender means a finished receiver, also with an empty last block |
| TftpTransfer.LosslessFinishes | tools/dev/tftp_serve.py:85-115 | without losses both ends finish after one exchange a block, the shorter or empty last one included |
| TftpTransfer.TimeoutRaisesIff | tools/dev/tftp_serve.py:183 | a timeout raises instead of re-acknowledging exactly if the number of blocks taken is 65535 modulo 65536 |
| TftpTransfer.ExceptionIsReached | tools/dev/tftp_serve.py:183 | every transfer of 65535 full blocks or more has a run in which one late block raises |
| TftpRecovery.SenderRecovers | tools/dev/tftp_serve.py:85-107 | whichever packet was lost last, the sender's timeout, the resent block and its acknowledgement bring the transfer a block on or to its end |
| TftpRecovery.ReceiverRecovers | tools/dev/tftp_serve.py:180-200 | where the acknowledgement was lost the receiver's timeout does too, except at the block after which it raises |
| TftpRecovery.LossyTransferFinishes | tools/dev/tftp_serve.py:85-209 | a file of any length goes through with up to two failed attempts for every block, whichever packets they lose, and with the receiver's timeouts, the acknowledgement of the last block aside |
| TftpRecovery.SenderTriesThrice | tools/dev/tftp_serve.py:88-107 | a block is sent three times, and then the sender gives up |
| TftpRecovery.ReceiverOffersFiveTimes | tools/dev/tftp_serve.py:154-178 | the start packet goes out five times, and then the receiver gives up |
| TftpRecovery.ReceiverWaitsFiveTimes | tools/dev/tftp_serve.py:181-205 | for a later block the receiver waits five times, with one reminder for each timeout and each repeat of the block before |
| Z80Cpu.Cpu.RunInstruction | tools/exe-harness/Z80core.js:232-280 | one instruction in place is `Z80.Step` |
| Z80Cpu.Cpu.AluOp | tools/exe-harness/Z80core.js:655-770 | the eight operations on A in place, with all flags |
| Z80Cpu.Cpu.Ldi | tools/exe-harness/Z80core.js:891-913 | one byte of a block copy in place |
| Z80.SumFlagsMean | tools/exe-harness/Z80core.js:655-691 | after ADD and ADC: C is the unsigned carry, H the nibble carry, P the signed overflow, Z and S those of the result |
| Z80.DifferenceFlagsMean | tools/exe-harness/Z80core.js:693-733 | after SUB, SBC and CP: C is the unsigned borrow, H the nibble borrow, P the signed overflow, Z and S those of the result |
| Z80.BitwiseAt | tools/exe-harness/Z80core.js:735-770 | each bit of AND, XOR and OR depends on the same bit of the operands alone |
| Z80Flags.ArithmeticIs | tools/exe-harness/Z80core.js:655-770 | each of the 64 instructions of arithmetic on A, by its code: operand, result and every flag |
| Z80Flags.LoadMoves | tools/exe-harness/Z80core.js:386-408 | each LD r,r' moves one operand and changes nothing else |
| Z80Flags.ShiftIs | tools/exe-harness/Z80core.js:1075-1153 | SRL and RR halve any operand, with all flags |
| Z80Flags.HlSumIs | tools/exe-harness/Z80core.js:805-819 | ADD HL,BC and ADD HL,DE modulo 2^16, with all flags |
| Z80Flags.DecIs | tools/exe-harness/Z80core.js:788-803 | DEC C modulo 2^8, with all flags |
| Z80Flags.ScfIs | tools/exe-harness/Z80core.js:1564-1571 | SCF sets the carry and changes no other documented flag but H and N |
| DelayLoop.PassIs | tools/exe-harness/Z80core.js:602-619 | four instructions of the loop count BC down and jump back unless it is 0 |
| DelayLoop.LoopRuns | tools/exe-harness/harness.js:23-26 | interpreting all BC passes ends behind the loop with A, B, C 0 and the flags of 0 |
| DelayLoop.CollapseRefinesLoop | tools/exe-harness/harness.js:727-734 | for every BC from 2 on the shortcut leaves the registers, flags, program counter and memory of the full loop, and the clock exactly 1 ms later |
| DelayLoop.ShortcutAppliesIff | tools/exe-harness/harness.js:727-734 | the shortcut applies exactly at a loop top with two passes or more to go, and throws there with the ISA window open |
| DelayLoop.FastRunRefinesInterpreter | tools/exe-harness/harness.js:727-734 | a run with the shortcut that does not stop inside a collapsed pass ends in a state of the plain interpreter, with one millisecond and one pump for each collapsed loop |
| DelayLoop.EveryRunRefinesInterpreter | tools/exe-harness/harness.js:727-734 | every run with the shortcut, wherever it is stopped, is at most three turns before such a state |
| DelayLoop.ZeroCollapsesAfterOnePass | tools/exe-harness/harness.js:727-734 | a loop entered with BC = 0 counts 65536 passes and is collapsed after the first |
| RunLoop.Runner.IsDelayLoopTop | tools/exe-harness/harness.js:23-26 | recognises exactly the five bytes of the loop |
| RunLoop.Runner.OneTurn | tools/exe-harness/harness.js:727-763 | one turn of the run loop in place |
| RunLoop.Runner.Run | tools/exe-harness/harness.js:727-763 | the run loop in place makes that many turns, or throws after fewer of them |
| BlockCopy.LdirCopies | tools/exe-harness/Z80core.js:2635-2643 | LDIR takes one instruction a byte, 65536 for BC = 0, copies forward modulo 2^16, and ends with HL and DE behind their ranges, BC = 0, the stated flags and the next PC, as long as its own bytes stay intact |
| BlockCopy.LdirAlwaysCopies | tools/exe-harness/Z80core.js:2635-2643 | whatever machine the interpreter reaches after that many instructions holds the copy and these registers |
| BlockCopy.MissedStaysIntact | tools/exe-harness/Z80core.js:891-913 | a destination that misses the instruction leaves it intact |
| BlockCopy.CopyIsBlockMove | tools/exe-harness/Z80core.js:891-913 | where no byte is overwritten before it is read, the destination holds the source as it was |
| BlockCopy.CopyIsFill | tools/exe-harness/Z80core.js:891-913 | with DE = HL + 1 the range is filled with its first byte |
| BlockCopy.CopyKeepsOthers | tools/exe-harness/Z80core.js:891-913 | no byte outside the destination changes |
| DlspeedClock.Difference | src/apps/dlspeed.asm:349-360 | SUB and two SBC leave the 24-bit difference and its borrow |
| DlspeedClock.AddDay | src/apps/dlspeed.asm:362-366 | ADD HL and ADC add 86400 modulo 2^24, for every 24-bit number |
| DlspeedClock.ElapsedTime | src/apps/dlspeed.asm:346-373 | for all times of day the machine code stores (stop - start) mod 86400 in 24 bits, changes no other byte, and goes to .TOO_SHORT exactly if it is 0 |
| DlspeedClock.ElapsedTimeAlways | src/apps/dlspeed.asm:346-373 | whatever machine the interpreter reaches after the 22 instructions, or 27 across midnight, has (stop - start) mod 86400 stored and is where the test for 0 says |
| DlspeedRate.KibFrom1024 | src/apps/dlspeed.asm:403-411 | the three byte tests choose KiB exactly from a rate of 1024 |
| DlspeedRate.KibIsRateOver1024 | src/apps/dlspeed.asm:418-430 | the byte move and the shifts leave floor(rate / 1024) in DE:HL |
| Crc32.Compute | tools/exe-harness/test-util.js:25-32 | the nested loops compute the CRC of the specification |
| Crc32.FeedByte | tools/exe-harness/test-util.js:28-29 | the inner loop shifts one byte in |
| Crc32.BitStepIsBijective | tools/exe-harness/test-util.js:29 | a bit step can be undone |
| Crc32.RunIsLinear | tools/exe-harness/test-util.js:25-32 | the register is linear over XOR in its start value and the message |
| Crc32.RunOfWord | tools/exe-harness/test-util.js:25-32 | feeding up to four bytes is shifting them out as one word |
| Crc32.WindowIsDetected | tools/exe-harness/test-util.js:25-32 | messages of equal length that differ only within four consecutive bytes, wherever these lie, have different checksums |
| Crc32Division.CrcIsRemainder | tools/exe-harness/test-util.js:25-32 | the checksum of every message is the complemented remainder of long division over GF(2) by the CRC-32 generator, of degree 32 with the terms 26, 23, 22, 16, 12, 11, 10, 8, 7, 5, 4, 2, 1 and 0, of the message with its first 32 bits complemented |
| Crc32Division.ResidueIsConstant | tools/exe-harness/test-util.js:25-32 | every message with its checksum behind it, low byte first, leaves the register at 0xDEBB20E3 |
| InetChecksum.ComputeChecksum | tools/exe-harness/net-builders.js:11-18 | the loop computes the checksum of the specification |
| InetChecksum.RunningFits | tools/exe-harness/net-builders.js:13-16 | the running sum stays within 16 bits |
| InetChecksum.RunningIsResidue | tools/exe-harness/net-builders.js:13-16 | carrying around at once gives the end-around residue of the unbounded sum, for every length including odd ones |
| InetChecksum.DeferredSum | tools/test-exe-net.js:179-184 | adding up and folding at the end gives the same sum as the running carry |
| InetChecksum.PutChecksum | tools/exe-harness/net-builders.js:20-24 | the two stores in place |
| InetChecksum.PutVerifiesIff | tools/exe-harness/net-builders.js:20-24 | the region's recomputed checksum is 0 if and only if the field lies an even distance into the region or the two bytes of the checksum with the field cleared are equal |
| InetChecksum.OddFieldFails | tools/exe-harness/net-builders.js:20-24 | a four-byte region with its field at place 1 that does not verify |
| Wire.TcpComesBack | tools/exe-harness/net-builders.js:397-440 | parsing a built segment returns addresses, ports, numbers, flags, window, MSS option and the payload as far as the 16-bit length covers it |
| Wire.TcpRoundTripIff | tools/exe-harness/net-builders.js:397-440 | the payload comes back whole if and only if the datagram has at most 65535 bytes |
| Wire.LongPayloadIsLost | tools/exe-harness/net-builders.js:401-440 | a payload of 65496 bytes without options comes back empty |
| Wire.TcpVerifies | tools/exe-harness/net-builders.js:431-433 | the segment's checksum over the pseudo header verifies |
| Wire.IpVerifies | tools/exe-harness/net-builders.js:434-438 | the IP header checksum verifies |
| Wire.UdpRoundTrip | tools/exe-harness/net-builders.js:120-158 | parsing a built reply returns addresses, ports and payload despite the padding to 60 bytes |
| Wire.UdpVerifies | tools/exe-harness/net-builders.js:145-148 | the datagram's checksum over the pseudo header verifies, also where 0 is sent as 0xFFFF |
| WireLayout.TcpFrameIs | tools/exe-harness/net-builders.js:421-440 | the fixed bytes of a built segment, and its two checksums over the pseudo header and the IP header as they lie in the frame |
| WireLayout.UdpFrameIs | tools/exe-harness/net-builders.js:136-157 | the same of a built datagram, its padding with zeros, and a checksum field that is never 0 |
| WireLayout.TcpParsesIff | tools/exe-harness/net-builders.js:397-401 | a frame is taken for a segment exactly by its type and protocol fields |
| WireLayout.TcpBehindOptions | tools/exe-harness/net-builders.js:397-419 | a segment behind an IP header of any length is read from its own offsets, its payload from the header lengths and the total |
| WireLayout.UdpParsesIff | tools/exe-harness/net-builders.js:120-134 | a frame is taken for a datagram exactly if its two lengths agree and fit it, and the payload is what they span |
| TuneWindow.CheckTuneWindows | tools/test-exe-tcp.js:325-346 | the loop passes exactly on more than four acknowledgements whose advertised windows are the rule's and within the maximum |
| TuneWindow.AdvanceIsGrow | tools/test-exe-tcp.js:330-340 | the comparisons modulo 2^32 agree with unbounded arithmetic across the wrap |
| TuneWindow.EdgeNeverRetreats | tools/test-exe-tcp.js:325-346 | in a run that passes, the advertised edge never retreats, grows with an advancing ACK by 2920 or up to the maximum and not otherwise, and stays within the maximum of the acknowledgement |
| TuneWindow.TakenForNewIff | tools/test-exe-tcp.js:332-333 | an old acknowledgement is taken for a new one if and only if it is more than 2^31 behind |
| TuneWindow.AdvancingAckGrows | tools/test-exe-tcp.js:333-338 | an advancing ACK opens the window by two segments or up to the maximum |
| TuneWindow.FirstWindowIs4380 | tools/test-exe-tcp.js:328-343 | the first window of a run that passes is 4380 |
| TuneWindow.PreviousIsGreatest | tools/test-exe-tcp.js:331-341 | the edge is counted from the greatest acknowledgement so far |
| DlspeedUrl.ParseIsGrammar | src/apps/dlspeed.asm:581-680 | the parser succeeds with given parts if and only if they reprint the input by the grammar: scheme, host, optional port, optional path, within the buffer sizes |
| DlspeedUrl.Buffers.ParseUrl | src/apps/dlspeed.asm:581-680 | the loops over the buffers compute that parse and leave its parts NUL-terminated |
| DlspeedUrlCode.CodeParses | src/apps/dlspeed.asm:581-680 | on the interpreter, the assembled PARSE_URL with its two routines, placed anywhere, returns to its caller with the parts of `Parse` NUL-terminated in the three buffers and carry clear, or with carry set exactly if there are none; no byte outside the buffers changes but the four below the stack pointer |
| DlspeedUrlCode.CodeParsesGrammar | src/apps/dlspeed.asm:581-680 | so the machine code returns with carry set if and only if no parts reprint the text by the grammar, and otherwise with the one set of parts that does |
| DlspeedUrlCode.HostLoop | src/apps/dlspeed.asm:590-606 | the host loop's instructions copy up to the first slash or colon, and go to .ERR exactly if there is no room for that |
| DlspeedUrlCode.PortLoop | src/apps/dlspeed.asm:625-643 | the port loop's instructions copy up to the first slash, and go to .ERR exactly if there is no room for that or a character of it is not a digit |
| DlspeedUrlCode.PathLoop | src/apps/dlspeed.asm:660-672 | the path loop's instructions copy the rest, and go to .ERR exactly if there is no room for it |
| DlspeedUrlCode.CopyAsciiz | src/apps/dlspeed.asm:715-722 | the routine copies a text with its NUL and returns |
| DlspeedUrlCode.StartsWithIs | src/apps/dlspeed.asm:724-743 | the routine returns with the zero flag set exactly for a prefix, HL restored and only two bytes of the stack changed |
| DlspeedUrl.CopyHost | src/apps/dlspeed.asm:587-606 | the host loop copies up to the first slash or colon and fails exactly if that is 64 characters or more |
| DlspeedUrl.CopyPort | src/apps/dlspeed.asm:619-649 | the port loop succeeds exactly on 1 to 7 digits up to a slash or the end |
| DlspeedUrl.CopyPath | src/apps/dlspeed.asm:657-676 | the path loop copies the rest exactly if it has fewer than 192 characters |
| DlspeedUrl.StartsWith | src/apps/dlspeed.asm:724-743 | true exactly for a prefix |
| DlspeedUrl.StrEq | src/apps/dlspeed.asm:745-755 | true exactly for equal strings |
| DlspeedUrl.AppendStr | src/apps/dlspeed.asm:706-713 | appends the string with its NUL and returns where the NUL is |
| DlspeedUrl.Buffers.BuildHttpRequest | src/apps/dlspeed.asm:682-704 | the request buffer holds the specified concatenation, NUL-terminated, the default port left out |
| DlspeedUrl.RequestFits | src/apps/dlspeed.asm:682-704 | parts that fit their buffers make a request of at most 338 characters, within the 384 of its buffer |
| DlspeedUrl.RequestText | src/apps/dlspeed.asm:682-704 | the request is this text, with a port other than 80 in the Host field |

## Left out

- RingRuns.RunIsFifo: for a host that moves BNRY only to the page before a frame boundary, leaves PSTART, PSTOP and CURR alone and writes no ring page by remote DMA, with 0x40 <= PSTART < PSTOP <= 0x80; this is the driver's protocol.
- DataPath.LoopbackRoundTrip: for a non-empty frame that fits the free pages, a transmit buffer outside the ring and below PSTOP, and an idle DMA.
- GoBackN.TransferIsSafe: for a response shorter than 2^32 bytes less how far back stale acknowledgements reach; beyond that acknowledgements are ambiguous (`GoBackN.AcksDecodeIffResponseFits`).
- EventQueue.StreamStaysInOrder: without the `oooOrder` option, which reorders on purpose, and between retransmission timeouts, which start the due times afresh.
- ReplaySender.ReplayLeavesNoHole: for a response of at most 2^32 - 2 bytes and a client that acknowledges only bytes it has, stale numbers aside.
- TftpTransfer.TransferIsSafe: without the option exchange; the receiver starts with ACK 0.
- Wire.UdpRoundTrip: for datagrams of at most 65535 bytes; longer ones do not consist of bytes in the source's arrays.
- DlspeedClock.ElapsedTime: for code and variables that do not overlap where the result is stored.
- Registers.InitNormalIs: without the read-back and the retries of SELECT_PAGE, which matter only where writes are lost, and without the multicast registers.
- TftpRecovery.LossyTransferFinishes: with nothing but the block and its acknowledgement on the wire; a lost acknowledgement of the last block cannot be recovered, since the receiver has returned.
- DlspeedUrlCode.CodeParses: for buffers and four stack bytes that overlap neither each other nor the code, constants and text, all short of the last byte of memory, and a text of characters below 256.
- DlspeedUrl.Buffers.BuildHttpRequest: as array loops; its machine code is not run.
- DlspeedUrl.ParseIsGrammar: an empty host is accepted before a port, as in the code.
- TuneWindow.EdgeNeverRetreats: for acknowledgements at or left of the edge and at most 2^31 old (an older one is taken for a new one, `TuneWindow.TakenForNewIff`), and a maximum below 2^31.
- StreamSender.BurstIs: without the `oooOrder` option.
- StreamPeer.Peer.StreamEmit: without the `oooOrder` option and the list `generated`, which is kept for introspection.
- StreamPeer.Peer.PumpScheduled: for the events of one session, handed to a log of segments; what the card does with a frame is `Rtl8019.Card.DeliverFrame`.
- GoBackN.Acceptor.Receive: the FIN and the data of an established session; SYN and RST are not modelled, and acknowledging is a step of the system.
- GoBackN.RecoveryProgresses: for the states its row names; without losses `StreamRuns.LosslessCompletes` needs no such condition.
- Tftp.ReceiveFile: starts with ACK 0, without the option reply.
- Rtl8019.Card.DoTransmit: without `txError`, the attempt count, the responder hook and the delayed loopback status.
- Rtl8019.Card.WriteCommand: without the statistic `stopEdges`.
- Rtl8019.Card.WriteRegister: without the cycle statistics, the multicast filter and the page 3 values, none of which any property here reads.
- Z80Cpu.Cpu.RunInstruction: the instructions the delay loop, LDIR and DLSPEED's clock, rate and URL parser need, without R, HALT and cycles.
- RunLoop.Runner.OneTurn: without DSS and BIOS entries, the frame timer and probes.
- RunLoop.Runner.Run: without the stop conditions; reaching the limit ends the run where the source throws.
- Injected card faults, quirks other than the loopback kinds and the STP flag, delayed loopback status, PROM layouts, register reads, the reset port and page 3 configuration: not modelled.
- The responders for ARP, ICMP, DNS, NTP, DHCP, FTP and TFTP, handshake, RST and greeting handling of `respondTcp`: mostly branching without state.
- The clock of the card and one peer's session stand for the whole schedule; events of several sessions in one queue are not modelled.
- Cycle counts, R, interrupts, HALT, paging and DSS calls of the Z80 harness; memory is a flat 64 KiB, and an instruction outside the slice ends a run.
- `DIV32_BY_DE`, `PRINT_DEC_32` and `DELAY_1MS` of util.asm: not part of this model; the rate is whatever the division left in memory.
- Command line, console, files, sockets and real time: a timeout is a step that may happen at any time.
