/**
 Whole runs of the card: frames arrive, the host releases frames and writes other registers,
 and the queue in packet RAM stays the FIFO of what was stored and not yet released.
 */
module RingRuns {
  import opened Bytes
  import opened PageRing
  import opened NicSpec
  import opened ReceiveRing

  datatype RingOp =
    | Arrive(frame: Frame)
    | Release(count: nat)
    | HostWrite(offset: nat, value: Byte)
    | HostRead                               // one byte through the data port

  /** Register writes that neither move the ring's own registers nor write into its pages. */
  predicate SparesRing(n: Nic, offset: nat) {
    && (n.cr / 64 == 0 ==> offset !in {1, 2, 3})
    && (n.cr / 64 == 1 ==> offset != 7)
    && (offset == 0x10 ==> !(n.pstart * 256 <= n.crda < n.pstop * 256))
  }

  predicate Legal(n: Nic, op: RingOp)
    requires RingOk(n)
  {
    match op
    case Arrive(_) => true
    case Release(k) => n.cr / 64 == 0 && Queue(n).Some? && k <= |Queue(n).value|
    case HostWrite(offset, value) => SparesRing(n, offset) && WriteReg(n, offset, value).Done?
    case HostRead => ReadData(n).Done?
  }

  function Apply(n: Nic, op: RingOp): (n': Nic)
    requires RingOk(n) && Legal(n, op)
    ensures WellFormed(n')
  {
    match op
    case Arrive(frame) => Deliver(n, frame, false)
    case Release(k) =>
      ReleaseDrops(n, Queue(n).value, k);
      WriteReg(n, 3, ReleasePage(n, Queue(n).value, k)).value
    case HostWrite(offset, value) => WriteReg(n, offset, value).value
    case HostRead => ReadData(n).value.0
  }

  /** The frame a step offers to the ring, if any: from the wire, or looped back by TXP. */
  function Offered(n: Nic, op: RingOp): Option<Frame> {
    match op
    case Arrive(frame) => if Filtered(n, frame, false) then None else Some(frame)
    case Release(_) => None
    case HostWrite(offset, value) =>
      if offset == 0 && Bit(value, 4) && LoopsToRing(n) then Some(TransmitFrame(n))
      else None
    case HostRead => None
  }

  /** What a bounded FIFO holding `q`, with room for `capacity` pages, takes in. */
  function Taken(q: seq<Received>, capacity: nat, offered: Option<Frame>): seq<Received> {
    match offered
    case None => []
    case Some(frame) =>
      if Pages(q) + PagesNeeded(frame) <= capacity then [Received(Status(frame), frame)] else []
  }

  function Freed(op: RingOp): nat {
    if op.Release? then op.count else 0
  }

  predicate SameRing(n: Nic, n': Nic)
    requires RingOk(n) && WellFormed(n')
  {
    && n'.pstart == n.pstart && n'.pstop == n.pstop && n'.bnry == n.bnry && n'.curr == n.curr
    && n'.ram[RamIndex(n.pstart)..RamIndex(n.pstop)] == n.ram[RamIndex(n.pstart)..RamIndex(n.pstop)]
  }

  lemma SameRingSameQueue(n: Nic, n': Nic)
    requires RingOk(n) && WellFormed(n') && SameRing(n, n')
    ensures RingOk(n') && Capacity(n') == Capacity(n) && Queue(n') == Queue(n)
  {
    hide Decode;
    assert RingOf(n') == RingOf(n);
  }

  /** TXP either hands its frame to the ring or leaves the ring alone. */
  lemma TransmitSpares(n: Nic, value: Byte)
    requires RingOk(n) && Bit(value, 4) && WriteCr(n, value).Done?
    ensures var sent, n' := AboutToSend(n, value), WriteCr(n, value).value;
            && WellFormed(sent) && SameRing(n, sent) && sent.rxDelivered == n.rxDelivered
            && (if LoopsToRing(n) then n' == Deliver(sent, TransmitFrame(n), true).(cr := n'.cr)
                else SameRing(n, n') && n'.rxDelivered == n.rxDelivered)
  {
    hide Deliver, WriteCr, AboutToSend, TransmitFrame, Bit;
    TransmitIs(n, value);
    AboutToSendIs(n, value);
  }

  lemma WriteSpares(n: Nic, offset: nat, value: Byte)
    requires RingOk(n) && Legal(n, HostWrite(offset, value)) && !(offset == 0 && Bit(value, 4))
    ensures var n' := WriteReg(n, offset, value).value;
            SameRing(n, n') && n'.rxDelivered == n.rxDelivered
  {
    hide WriteCr, WriteData, WritePage0, WritePage1, RingOk, SameRing;
    RingIsSame(n);
    if offset == 0 {
      CommandSpares(n, value);
    } else if offset == 0x10 {
      WriteDataSpares(n, value);
    } else if offset != 0x1f && n.cr / 64 == 0 {
      WritePage0Spares(n, offset, value);
    } else if offset != 0x1f && n.cr / 64 == 1 {
      WritePage1Spares(n, offset, value);
    }
  }

  lemma RingIsSame(n: Nic)
    requires RingOk(n)
    ensures WellFormed(n) && SameRing(n, n)
  {
  }

  lemma CommandSpares(n: Nic, value: Byte)
    requires RingOk(n) && !Bit(value, 4)
    ensures WriteCr(n, value).Done?
    ensures var n' := WriteCr(n, value).value;
            SameRing(n, n') && n'.rxDelivered == n.rxDelivered
  {
    hide StartStop, RemoteDmaCommand, Bit;
    StartStopIs(n, value);
    RemoteDmaCommandIs(StartStop(n.(cr := value), value), value);
  }

  lemma WritePage0Spares(n: Nic, offset: nat, value: Byte)
    requires RingOk(n) && WritePage0(n, offset, value).Done? && offset !in {1, 2, 3}
    ensures var n' := WritePage0(n, offset, value).value;
            SameRing(n, n') && n'.rxDelivered == n.rxDelivered
  {
    hide IsrBits, Bit, SetLow, SetHigh;
  }

  lemma WritePage1Spares(n: Nic, offset: nat, value: Byte)
    requires RingOk(n) && WritePage1(n, offset, value).Done? && offset != 7
    ensures var n' := WritePage1(n, offset, value).value;
            SameRing(n, n') && n'.rxDelivered == n.rxDelivered
  {
  }

  lemma WriteDataSpares(n: Nic, value: Byte)
    requires RingOk(n) && WriteData(n, value).Done? && !(n.pstart * 256 <= n.crda < n.pstop * 256)
    ensures var n' := WriteData(n, value).value;
            SameRing(n, n') && n'.rxDelivered == n.rxDelivered
  {
  }

  lemma ReadDataSpares(n: Nic)
    requires RingOk(n) && ReadData(n).Done?
    ensures SameRing(n, ReadData(n).value.0) && ReadData(n).value.0.rxDelivered == n.rxDelivered
  {
  }

  lemma DeliveredCount(n: Nic, frame: Frame, loopback: bool, q: seq<Received>)
    requires RingOk(n) && Queue(n) == Some(q)
    ensures Deliver(n, frame, loopback).rxDelivered == n.rxDelivered +
              |Taken(q, Capacity(n), if Filtered(n, frame, loopback) then None else Some(frame))|
  {
    FitsIs(n, frame, q);
    hide Filtered, Gap, Queue, Pages, StoreRun, Header, NextPage, PagesNeeded, Decode;
  }

  /** What a step does to the queue: it takes in what the FIFO takes in and loses what the host released. */
  ghost predicate FifoStep(n: Nic, op: RingOp, q: seq<Received>, n': Nic)
    requires RingOk(n) && WellFormed(n')
  {
    var taken := Taken(q, Capacity(n), Offered(n, op));
    && RingOk(n') && Capacity(n') == Capacity(n)
    && Freed(op) <= |q| && Queue(n') == Some((q + taken)[Freed(op)..])
    && n'.rxDelivered == n.rxDelivered + |taken|
  }

  lemma ArriveStep(n: Nic, frame: Frame, q: seq<Received>)
    requires RingOk(n) && Queue(n) == Some(q)
    ensures FifoStep(n, Arrive(frame), q, Deliver(n, frame, false))
  {
    hide Deliver, Queue, Filtered, Pages, PagesNeeded, Status;
    DeliveryPushes(n, frame, false, q);
    DeliveredCount(n, frame, false, q);
    NothingFreed(q, Taken(q, Capacity(n), Offered(n, Arrive(frame))));
  }

  lemma NothingFreed(q: seq<Received>, taken: seq<Received>)
    ensures (q + taken)[0..] == q + taken && q + [] == q
  {
  }

  lemma LoopbackStep(n: Nic, sent: Nic, value: Byte, q: seq<Received>)
    requires RingOk(n) && Queue(n) == Some(q) && WellFormed(sent) && SameRing(n, sent)
    requires sent.rxDelivered == n.rxDelivered && Offered(n, HostWrite(0, value)).Some?
    ensures var n' := Deliver(sent, TransmitFrame(n), true);
            forall cr: Byte :: FifoStep(n, HostWrite(0, value), q, n'.(cr := cr))
  {
    hide Deliver, Queue, Pages, PagesNeeded, Status, TransmitFrame, LoopbackActive, SameRing;
    var frame := TransmitFrame(n);
    NothingFreed(q, Taken(q, Capacity(n), Offered(n, HostWrite(0, value))));
    SameRingSameQueue(n, sent);
    DeliveryPushes(sent, frame, true, q);
    DeliveredCount(sent, frame, true, q);
    forall cr: Byte
      ensures FifoStep(n, HostWrite(0, value), q, Deliver(sent, frame, true).(cr := cr))
    {
      ChangeCr(Deliver(sent, frame, true), cr);
    }
  }

  lemma ChangeCr(n: Nic, cr: Byte)
    requires RingOk(n)
    ensures RingOk(n.(cr := cr)) && Capacity(n.(cr := cr)) == Capacity(n) && Queue(n.(cr := cr)) == Queue(n)
  {
    SameRingSameQueue(n, n.(cr := cr));
  }

  lemma QuietStep(n: Nic, op: RingOp, n': Nic, q: seq<Received>)
    requires RingOk(n) && Queue(n) == Some(q) && WellFormed(n') && SameRing(n, n')
    requires n'.rxDelivered == n.rxDelivered && Offered(n, op).None? && Freed(op) == 0
    ensures FifoStep(n, op, q, n')
  {
    hide Queue, Offered, SameRing;
    NothingFreed(q, []);
    SameRingSameQueue(n, n');
  }

  lemma HostWriteStep(n: Nic, offset: nat, value: Byte, q: seq<Received>)
    requires RingOk(n) && Queue(n) == Some(q) && Legal(n, HostWrite(offset, value))
    ensures FifoStep(n, HostWrite(offset, value), q, WriteReg(n, offset, value).value)
  {
    hide WriteCr, Queue, FifoStep, SameRing, AboutToSend, LoopbackActive, Deliver;
    hide TransmitFrame, WritePage0, WritePage1;
    var n' := WriteReg(n, offset, value).value;
    if offset == 0 && Bit(value, 4) {
      TransmitSpares(n, value);
      if Offered(n, HostWrite(0, value)).Some? {
        LoopbackStep(n, AboutToSend(n, value), value, q);
      } else {
        QuietStep(n, HostWrite(offset, value), n', q);
      }
    } else {
      WriteSpares(n, offset, value);
      QuietStep(n, HostWrite(offset, value), n', q);
    }
  }

  lemma ReleaseStep(n: Nic, k: nat, q: seq<Received>)
    requires RingOk(n) && Queue(n) == Some(q) && Legal(n, Release(k))
    ensures FifoStep(n, Release(k), q, Apply(n, Release(k)))
  {
    hide Queue, Decode, Pages;
    NothingFreed(q, []);
    ReleasePops(n, q, k);
  }

  /** The ring refines the FIFO in every single step. */
  lemma StepIsFifo(n: Nic, op: RingOp, q: seq<Received>)
    requires RingOk(n) && Queue(n) == Some(q) && Legal(n, op)
    ensures FifoStep(n, op, q, Apply(n, op))
  {
    hide FifoStep, Queue, Deliver, WriteReg, ReadData, SameRing, Decode;
    match op
    case Arrive(frame) => ArriveStep(n, frame, q);
    case Release(k) => ReleaseStep(n, k, q);
    case HostWrite(offset, value) => HostWriteStep(n, offset, value, q);
    case HostRead =>
      ReadDataSpares(n);
      QuietStep(n, HostRead, ReadData(n).value.0, q);
  }

  // ---- whole runs ----

  ghost predicate LegalRun(n: Nic, ops: seq<RingOp>)
    requires RingOk(n)
    decreases |ops|
  {
    ops != [] ==> Legal(n, ops[0]) && RingOk(Apply(n, ops[0])) && LegalRun(Apply(n, ops[0]), ops[1..])
  }

  ghost function Run(n: Nic, ops: seq<RingOp>): Nic
    requires RingOk(n) && LegalRun(n, ops)
    decreases |ops|
  {
    if ops == [] then n else Run(Apply(n, ops[0]), ops[1..])
  }

  /** Everything a bounded FIFO takes in over a run that starts with `q` queued. */
  ghost function Log(n: Nic, q: seq<Received>, ops: seq<RingOp>): seq<Received>
    requires RingOk(n) && LegalRun(n, ops)
    decreases |ops|
  {
    if ops == [] then []
    else
      var taken := Taken(q, Capacity(n), Offered(n, ops[0]));
      var left := if Freed(ops[0]) <= |q| then (q + taken)[Freed(ops[0])..] else [];
      taken + Log(Apply(n, ops[0]), left, ops[1..])
  }

  ghost function FreedBy(ops: seq<RingOp>): nat {
    if ops == [] then 0 else Freed(ops[0]) + FreedBy(ops[1..])
  }

  /**
   The receive ring refines a FIFO queue: after every legal run the headers in packet RAM decode
   to exactly the frames that were stored and not yet released, in order and byte for byte.
   */
  lemma {:induction false} RunIsFifo(n: Nic, q: seq<Received>, ops: seq<RingOp>)
    requires RingOk(n) && Queue(n) == Some(q) && LegalRun(n, ops)
    ensures var log := Log(n, q, ops);
            && RingOk(Run(n, ops))
            && FreedBy(ops) <= |q + log|
            && Queue(Run(n, ops)) == Some((q + log)[FreedBy(ops)..])
            && Run(n, ops).rxDelivered == n.rxDelivered + |log|
    decreases |ops|
  {
    hide Queue, Apply, Taken, Offered, Capacity, Freed, RingOk, Legal;
    if ops == [] {
      assert q + [] == q;
    } else {
      StepIsFifo(n, ops[0], q);
      var taken := Taken(q, Capacity(n), Offered(n, ops[0]));
      var left := (q + taken)[Freed(ops[0])..];
      RunIsFifo(Apply(n, ops[0]), left, ops[1..]);
      var log := Log(Apply(n, ops[0]), left, ops[1..]);
      assert q + (taken + log) == (q + taken) + log;
      assert ((q + taken) + log)[Freed(ops[0])..] == left + log;
      assert ((q + taken) + log)[Freed(ops[0]) + FreedBy(ops[1..])..] == (left + log)[FreedBy(ops[1..])..];
    }
  }

  /** A ring whose CURR is the page after BNRY is the empty queue every run can start from. */
  lemma EmptyRing(n: Nic)
    requires RingOk(n)
    ensures CurrPos(n) == First(n) <==> Queue(n) == Some([])
    ensures Gap(n) == 0 <==> n.bnry == n.curr
  {
    GapIs(n);
  }
}
