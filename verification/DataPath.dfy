/**
 The whole data path of the card: a frame written by remote DMA, sent with TXP in loopback mode
 and read back from the ring by at most two remote-DMA bursts comes back byte for byte.
 */
module DataPath {
  import opened Bytes
  import opened PageRing
  import opened NicSpec
  import opened ReceiveRing

  // ---- a burst through the data port ----

  function WriteBurst(n: Nic, bytes: seq<Byte>): (r: Outcome<Nic>)
    requires WellFormed(n)
    ensures r.Done? ==> WellFormed(r.value)
    decreases |bytes|
  {
    if bytes == [] then Done(n)
    else
      match WriteBurst(n, bytes[..|bytes| - 1])
      case Thrown => Thrown
      case Done(n') => WriteData(n', bytes[|bytes| - 1])
  }

  function ReadBurst(n: Nic, count: nat): (r: Outcome<(Nic, seq<Byte>)>)
    requires WellFormed(n)
    ensures r.Done? ==> WellFormed(r.value.0)
  {
    if count == 0 then Done((n, []))
    else
      match ReadBurst(n, count - 1)
      case Thrown => Thrown
      case Done((n', bytes)) =>
        match ReadData(n')
        case Thrown => Thrown
        case Done((n'', byte)) => Done((n'', bytes + [byte]))
  }

  /** A remote-DMA transfer of `count` bytes from `addr` is about to start. */
  predicate DmaReady(n: Nic, dma: Dma, addr: nat, count: nat) {
    && n.dma == dma && dma != Idle && n.crda == addr && n.rbcr == count
    && RAM_BASE <= addr && addr + count <= RAM_BASE + RAM_SIZE
  }

  /** The DMA registers after `done` of `count` bytes: RDC comes with the last byte and not before. */
  function AfterDma(n: Nic, addr: nat, count: nat, done: nat): Nic
    requires done <= count && addr + count < 0x1_0000
  {
    var moved := n.(crda := addr + done, rbcr := if done < count then count - done else 0);
    if done < count then moved else moved.(isr := n.isr + {Rdc}, dma := Idle)
  }

  lemma WriteStep(n: Nic, addr: nat, count: nat, k: nat, ram: seq<Byte>, value: Byte)
    requires WellFormed(n) && DmaReady(n, Writing, addr, count) && k < count < 0x1_0000 && |ram| == RAM_SIZE
    ensures WriteData(AfterDma(n, addr, count, k).(ram := ram), value) ==
            Done(AfterDma(n, addr, count, k + 1).(ram := ram[addr - RAM_BASE + k := value]))
  {
  }

  lemma ReadStep(n: Nic, addr: nat, count: nat, k: nat)
    requires WellFormed(n) && DmaReady(n, Reading, addr, count) && k < count < 0x1_0000
    ensures ReadData(AfterDma(n, addr, count, k)) ==
            Done((AfterDma(n, addr, count, k + 1), n.ram[addr - RAM_BASE + k]))
  {
  }

  lemma NothingMoved(n: Nic, addr: nat, count: nat)
    requires (DmaReady(n, Reading, addr, count) || DmaReady(n, Writing, addr, count)) && 0 < count < 0x1_0000
    ensures AfterDma(n, addr, count, 0) == n
  {
  }

  lemma {:induction false} WriteBurstIs(n: Nic, addr: nat, count: nat, bytes: seq<Byte>)
    requires WellFormed(n) && DmaReady(n, Writing, addr, count) && count < 0x1_0000 && |bytes| <= count && 0 < count
    ensures WriteBurst(n, bytes) == Done(AfterDma(n, addr, count, |bytes|).(ram :=
              n.ram[..addr - RAM_BASE] + bytes + n.ram[addr - RAM_BASE + |bytes|..]))
    decreases |bytes|
  {
    hide WriteData, AfterDma;
    if bytes == [] {
      NothingMoved(n, addr, count);
      assert n.ram[..addr - RAM_BASE] + bytes + n.ram[addr - RAM_BASE..] == n.ram;
    } else {
      var init, k := bytes[..|bytes| - 1], |bytes| - 1;
      WriteBurstIs(n, addr, count, init);
      var at := addr - RAM_BASE;
      var before := n.ram[..at] + init + n.ram[at + k..];
      WriteStep(n, addr, count, k, before, bytes[k]);
      assert before[at + k := bytes[k]] == n.ram[..at] + bytes + n.ram[at + |bytes|..];
    }
  }

  lemma NothingRead(n: Nic)
    requires WellFormed(n)
    ensures ReadBurst(n, 0) == Done((n, []))
  {
  }

  lemma ReadBurstNext(n: Nic, addr: nat, count: nat, k: nat)
    requires WellFormed(n) && DmaReady(n, Reading, addr, count) && k < count < 0x1_0000
    requires ReadBurst(n, k) == Done((AfterDma(n, addr, count, k), n.ram[addr - RAM_BASE..addr - RAM_BASE + k]))
    ensures ReadBurst(n, k + 1) ==
            Done((AfterDma(n, addr, count, k + 1), n.ram[addr - RAM_BASE..addr - RAM_BASE + k + 1]))
  {
    hide ReadData, AfterDma;
    ReadStep(n, addr, count, k);
    var at := addr - RAM_BASE;
    assert n.ram[at..at + k + 1] == n.ram[at..at + k] + [n.ram[at + k]];
  }

  lemma {:induction false} ReadBurstIs(n: Nic, addr: nat, count: nat, k: nat)
    requires WellFormed(n) && DmaReady(n, Reading, addr, count) && count < 0x1_0000 && k <= count && 0 < count
    ensures ReadBurst(n, k) == Done((AfterDma(n, addr, count, k), n.ram[addr - RAM_BASE..addr - RAM_BASE + k]))
  {
    hide AfterDma, ReadBurst;
    if k == 0 {
      NothingMoved(n, addr, count);
      NothingRead(n);
      assert n.ram[addr - RAM_BASE..addr - RAM_BASE] == [];
    } else {
      ReadBurstIs(n, addr, count, k - 1);
      ReadBurstNext(n, addr, count, k - 1);
    }
  }

  // ---- the register writes around a burst ----

  function Program(n: Nic, writes: seq<(nat, Byte)>): (r: Outcome<Nic>)
    requires WellFormed(n)
    ensures r.Done? ==> WellFormed(r.value)
    decreases |writes|
  {
    if writes == [] then Done(n)
    else
      match WriteReg(n, writes[0].0, writes[0].1)
      case Thrown => Thrown
      case Done(n') => Program(n', writes[1..])
  }

  const CR_REMOTE_READ: Byte := 0x0a
  const CR_REMOTE_WRITE: Byte := 0x12
  const CR_TRANSMIT: Byte := 0x26

  /** RSAR, RBCR and the command that starts the transfer. */
  function StartDma(addr: Word, count: Word, command: Byte): seq<(nat, Byte)> {
    [(0x08, addr % 256), (0x09, addr / 256), (0x0a, count % 256), (0x0b, count / 256), (0x00, command)]
  }

  /** TPSR, TBCR and TXP. */
  function StartTransmit(page: Byte, count: Word): seq<(nat, Byte)> {
    [(0x04, page), (0x05, count % 256), (0x06, count / 256), (0x00, CR_TRANSMIT)]
  }

  /** A running card with page 0 selected and no transfer in progress. */
  predicate Ready(n: Nic) {
    n.cr / 64 == 0 && !n.stopped && n.dma.Idle?
  }

  lemma StartDmaIs(n: Nic, addr: Word, count: Word, command: Byte)
    requires WellFormed(n) && Ready(n) && count > 0 && command in {CR_REMOTE_READ, CR_REMOTE_WRITE}
    ensures Program(n, StartDma(addr, count, command)) ==
            Done(n.(rsar := addr, rbcr := count, crda := addr, cr := command,
                    dma := if command == CR_REMOTE_READ then Reading else Writing))
  {
    var n1 := n.(rsar := SetLow(n.rsar, addr % 256));
    var n2 := n1.(rsar := addr);
    var n3 := n2.(rbcr := SetLow(n.rbcr, count % 256));
    var n4 := n3.(rbcr := count);
    assert SetHigh(n1.rsar, addr / 256) == addr && SetHigh(n3.rbcr, count / 256) == count;
    ProgramFive(n, StartDma(addr, count, command), n1, n2, n3, n4);
    StartCommandIs(n4, command);
  }

  lemma ProgramOne(n: Nic, w: (nat, Byte))
    requires WellFormed(n)
    ensures Program(n, [w]) == WriteReg(n, w.0, w.1)
  {
    hide WriteReg;
    assert [w][1..] == [];
  }

  lemma ProgramFive(n: Nic, w: seq<(nat, Byte)>, n1: Nic, n2: Nic, n3: Nic, n4: Nic)
    requires WellFormed(n) && WellFormed(n1) && WellFormed(n2) && WellFormed(n3) && WellFormed(n4) && |w| == 5
    requires WriteReg(n, w[0].0, w[0].1) == Done(n1) && WriteReg(n1, w[1].0, w[1].1) == Done(n2)
    requires WriteReg(n2, w[2].0, w[2].1) == Done(n3) && WriteReg(n3, w[3].0, w[3].1) == Done(n4)
    ensures Program(n, w) == WriteReg(n4, w[4].0, w[4].1)
  {
    hide WriteReg;
    assert w[1..][1..] == w[2..] && w[2..][1..] == w[3..] && w[3..][1..] == [w[4]];
    ProgramOne(n4, w[4]);
    assert Program(n3, w[3..]) == Program(n4, [w[4]]);
    assert Program(n2, w[2..]) == Program(n3, w[3..]);
  }

  lemma StartCommandIs(n: Nic, command: Byte)
    requires WellFormed(n) && Ready(n) && n.rbcr > 0 && command in {CR_REMOTE_READ, CR_REMOTE_WRITE}
    ensures WriteReg(n, 0, command) ==
            Done(n.(cr := command, crda := n.rsar, dma := if command == CR_REMOTE_READ then Reading else Writing))
  {
  }

  // ---- reading the ring ----

  /** One read burst: program the DMA registers, then read `count` bytes. */
  function ReadTransfer(n: Nic, addr: Word, count: Word): (r: Outcome<(Nic, seq<Byte>)>)
    requires WellFormed(n)
    ensures r.Done? ==> WellFormed(r.value.0)
  {
    match Program(n, StartDma(addr, count, CR_REMOTE_READ))
    case Thrown => Thrown
    case Done(n') => ReadBurst(n', count)
  }

  function AfterRead(n: Nic, addr: Word, count: Word): Nic
    requires addr + count < 0x1_0000
  {
    n.(rsar := addr, rbcr := 0, crda := addr + count, cr := CR_REMOTE_READ, isr := n.isr + {Rdc})
  }

  lemma ReadTransferIs(n: Nic, addr: Word, count: Word)
    requires WellFormed(n) && Ready(n) && count > 0 && RAM_BASE <= addr && addr + count <= RAM_BASE + RAM_SIZE
    ensures ReadTransfer(n, addr, count) ==
            Done((AfterRead(n, addr, count), n.ram[addr - RAM_BASE..addr - RAM_BASE + count]))
    ensures Ready(AfterRead(n, addr, count))
  {
    hide Program, ReadBurst, StartDma;
    StartDmaIs(n, addr, count, CR_REMOTE_READ);
    var started := n.(rsar := addr, rbcr := count, crda := addr, cr := CR_REMOTE_READ, dma := Reading);
    ReadBurstIs(started, addr, count, count);
  }

  /** Reads `total` bytes from `addr` on, going on at PSTART when the first burst reaches PSTOP. */
  function ReadRing(n: Nic, addr: Word, total: Word): (r: Outcome<(Nic, seq<Byte>)>)
    requires WellFormed(n)
  {
    var first := if addr < n.pstop * 256 then Min(total, n.pstop * 256 - addr) else total;
    match ReadTransfer(n, addr, first)
    case Thrown => Thrown
    case Done((n', bytes)) =>
      if first == total then Done((n', bytes))
      else
        match ReadTransfer(n', n.pstart * 256, total - first)
        case Thrown => Thrown
        case Done((n'', more)) => Done((n'', bytes + more))
  }

  lemma ReadRingIs(n: Nic, p: nat, total: Word)
    requires RingOk(n) && Ready(n) && p < RingSize(n) && 0 < total <= 256 * RingSize(n)
    ensures var r := ReadRing(n, (n.pstart + p) * 256, total);
            && r.Done? && r.value.0.ram == n.ram && Rdc in r.value.0.isr && Ready(r.value.0)
            && WellFormed(r.value.0) && RingOk(r.value.0) && r.value.0.pstart == n.pstart && r.value.0.pstop == n.pstop
            && |r.value.1| == total
            && forall t :: 0 <= t < total ==> r.value.1[t] == AreaByte(RingOf(n), p, t)
  {
    hide *;
    RingBounds(n, p);
    TwoBursts(n, (n.pstart + p) * 256, total);
    var bytes := ReadRing(n, (n.pstart + p) * 256, total).value.1;
    forall t | 0 <= t < total
      ensures bytes[t] == AreaByte(RingOf(n), p, t)
    {
      AreaByteIs(n, p, t);
    }
  }

  /** Byte `t` of a ring read is the byte of RAM at `addr + t`, one turn back once that passes PSTOP. */
  lemma TwoBursts(n: Nic, addr: Word, total: Word)
    requires RingOk(n) && Ready(n) && n.pstart * 256 <= addr < n.pstop * 256 && 0 < total <= 256 * RingSize(n)
    ensures var r := ReadRing(n, addr, total);
            && r.Done? && r.value.0.ram == n.ram && Rdc in r.value.0.isr && Ready(r.value.0)
            && WellFormed(r.value.0) && RingOk(r.value.0) && r.value.0.pstart == n.pstart && r.value.0.pstop == n.pstop
            && |r.value.1| == total && |n.ram| == RAM_SIZE
            && forall t :: 0 <= t < total ==>
                 r.value.1[t] ==
                 n.ram[(if addr + t < n.pstop * 256 then addr + t else addr + t - 256 * RingSize(n)) - RAM_BASE]
  {
    hide ReadTransfer, Ready;
    var first := Min(total, n.pstop * 256 - addr);
    ReadTransferIs(n, addr, first);
    AfterReadOk(n, addr, first);
    if first < total {
      ReadTransferIs(AfterRead(n, addr, first), n.pstart * 256, total - first);
      AfterReadOk(AfterRead(n, addr, first), n.pstart * 256, total - first);
    }
  }

  lemma AfterReadOk(n: Nic, addr: Word, count: Word)
    requires RingOk(n) && addr + count < 0x1_0000
    ensures WellFormed(AfterRead(n, addr, count)) && RingOk(AfterRead(n, addr, count))
  {
  }

  lemma RingBounds(n: Nic, p: nat)
    requires RingOk(n) && p < RingSize(n)
    ensures WellFormed(n) && 256 * RingSize(n) < 0x1_0000
    ensures RAM_BASE <= n.pstart * 256 <= (n.pstart + p) * 256 < n.pstop * 256 <= RAM_BASE + RAM_SIZE
  {
  }

  lemma AreaByteIs(n: Nic, p: nat, t: nat)
    requires RingOk(n) && p < RingSize(n) && t < 256 * RingSize(n)
    ensures var x := (n.pstart + p) * 256 + t;
            var y := if x < n.pstop * 256 then x else x - 256 * RingSize(n);
            0 <= y - RAM_BASE < RAM_SIZE && |n.ram| == RAM_SIZE && AreaByte(RingOf(n), p, t) == n.ram[y - RAM_BASE]
  {
  }

  // ---- the frame goes round ----

  /** A transmit buffer for `frame` at page `page`: inside RAM and clear of the ring. */
  predicate TxBuffer(n: Nic, page: Byte, frame: Frame) {
    0x40 <= page && page * 256 + |frame| <= n.pstart * 256
  }

  function Loaded(ram: seq<Byte>, page: Byte, frame: Frame): seq<Byte>
    requires |ram| == RAM_SIZE && 0x40 <= page && page * 256 + |frame| <= RAM_BASE + RAM_SIZE
  {
    var at := page * 256 - RAM_BASE;
    ram[..at] + frame + ram[at + |frame|..]
  }

  function WriteTransfer(n: Nic, page: Byte, frame: Frame): (r: Outcome<Nic>)
    requires WellFormed(n) && |frame| < 0x1_0000
    ensures r.Done? ==> WellFormed(r.value)
  {
    match Program(n, StartDma(page * 256, |frame|, CR_REMOTE_WRITE))
    case Thrown => Thrown
    case Done(n') => WriteBurst(n', frame)
  }

  lemma WriteTransferIs(n: Nic, page: Byte, frame: Frame)
    requires RingOk(n) && Ready(n) && 0 < |frame| && TxBuffer(n, page, frame)
    ensures WriteTransfer(n, page, frame) ==
            Done(n.(rsar := page * 256, rbcr := 0, crda := page * 256 + |frame|, cr := CR_REMOTE_WRITE,
                    isr := n.isr + {Rdc}, ram := Loaded(n.ram, page, frame)))
  {
    hide Program, WriteBurst, StartDma, RingOk;
    RamBounds(n);
    StartDmaIs(n, page * 256, |frame|, CR_REMOTE_WRITE);
    var started := n.(rsar := page * 256, rbcr := |frame|, crda := page * 256, cr := CR_REMOTE_WRITE, dma := Writing);
    WriteBurstIs(started, page * 256, |frame|, frame);
  }

  lemma RamBounds(n: Nic)
    requires RingOk(n)
    ensures WellFormed(n) && n.pstart * 256 < RAM_BASE + RAM_SIZE
  {
  }

  /** TPSR, TBCR and TXP in loopback mode put the bytes of the transmit buffer into the ring. */
  lemma SendIs(n: Nic, page: Byte, frame: Frame) returns (sent: Nic)
    requires RingOk(n) && n.cr / 64 == 0 && !n.stopped && LoopsToRing(n)
    requires TxBuffer(n, page, frame) && |frame| < 0x1_0000 && Loaded(n.ram, page, frame) == n.ram
    ensures WellFormed(sent) && SentFrom(n, sent, page, |frame|)
    ensures Program(n, StartTransmit(page, |frame|)) == Done(Deliver(sent, frame, true).(cr := 0x22))
  {
    hide Program, Deliver, Loaded, TransmitFrame, SentFrom, WriteCr;
    var n1 := n.(tpsr := page);
    var n2 := n1.(tbcr := SetLow(n1.tbcr, |frame| % 256));
    var n3 := n1.(tbcr := |frame|);
    assert SetHigh(n2.tbcr, |frame| / 256) == |frame|;
    ProgramFour(n, StartTransmit(page, |frame|), n1, n2, n3);
    TransmitsLoaded(n3, frame);
    TxpIs(n3, frame);
    sent := AboutToSend(n3, CR_TRANSMIT);
    SentFromTrans(n, n3, sent, page, |frame|);
  }

  lemma SentFromTrans(n: Nic, n3: Nic, sent: Nic, page: Byte, count: Word)
    requires n3 == n.(tpsr := page, tbcr := count) && SentFrom(n3, sent, page, count)
    ensures SentFrom(n, sent, page, count)
  {
  }

  lemma TransmitsLoaded(n: Nic, frame: Frame)
    requires WellFormed(n) && 0x40 <= n.tpsr && n.tpsr * 256 + |frame| <= RAM_BASE + RAM_SIZE && n.tbcr == |frame|
    requires Loaded(n.ram, n.tpsr, frame) == n.ram
    ensures TransmitFrame(n) == frame
  {
    LoadedSlice(n.ram, n.tpsr, frame);
  }

  /** `sent` differs from `n` only in transmit, command and DMA registers and in ISR. */
  ghost predicate SentFrom(n: Nic, sent: Nic, page: Byte, count: Word) {
    && sent == n.(tpsr := page, tbcr := count, cr := sent.cr, isr := sent.isr, crda := sent.crda, dma := sent.dma,
                  stopped := sent.stopped, rxHalted := sent.rxHalted, tsr := sent.tsr)
    && sent.dma.Idle? && !sent.stopped
  }

  lemma LoadedSlice(ram: seq<Byte>, page: Byte, frame: Frame)
    requires |ram| == RAM_SIZE && 0x40 <= page && page * 256 + |frame| <= RAM_BASE + RAM_SIZE
    requires Loaded(ram, page, frame) == ram
    ensures JsSlice(ram, page * 256 - RAM_BASE, page * 256 - RAM_BASE + |frame|) == frame
  {
    var at := page * 256 - RAM_BASE;
    assert Loaded(ram, page, frame)[at..at + |frame|] == frame;
  }

  lemma TxpIs(n: Nic, frame: Frame)
    requires WellFormed(n) && !n.stopped && LoopsToRing(n) && n.tpsr < n.pstop && TransmitFrame(n) == frame
    ensures var sent := AboutToSend(n, CR_TRANSMIT);
            && WellFormed(sent) && SentFrom(n, sent, n.tpsr, n.tbcr)
            && WriteReg(n, 0, CR_TRANSMIT) == Done(Deliver(sent, frame, true).(cr := 0x22))
  {
    hide Deliver, JsSlice;
    assert Bit(CR_TRANSMIT, 4);
    AboutToSendIs(n, CR_TRANSMIT);
    TransmitIs(n, CR_TRANSMIT);
    DeliverKeeps(AboutToSend(n, CR_TRANSMIT), frame, true);
  }

  lemma ProgramFour(n: Nic, w: seq<(nat, Byte)>, n1: Nic, n2: Nic, n3: Nic)
    requires WellFormed(n) && WellFormed(n1) && WellFormed(n2) && WellFormed(n3) && |w| == 4
    requires WriteReg(n, w[0].0, w[0].1) == Done(n1) && WriteReg(n1, w[1].0, w[1].1) == Done(n2)
    requires WriteReg(n2, w[2].0, w[2].1) == Done(n3)
    ensures Program(n, w) == WriteReg(n3, w[3].0, w[3].1)
  {
    hide WriteReg;
    assert w[1..][1..] == w[2..] && w[2..][1..] == [w[3]];
    ProgramOne(n3, w[3]);
    assert Program(n2, w[2..]) == Program(n3, [w[3]]);
  }

  lemma LoadedKeepsRing(n: Nic, page: Byte, frame: Frame, w: Nic)
    requires RingOk(n) && TxBuffer(n, page, frame)
    requires w == n.(rsar := w.rsar, rbcr := w.rbcr, crda := w.crda, cr := w.cr, isr := w.isr,
                     ram := Loaded(n.ram, page, frame))
    ensures RingOk(w) && RingOf(w) == RingOf(n) && Loaded(w.ram, page, frame) == w.ram
    ensures w.ram[RamIndex(n.pstop)..] == n.ram[RamIndex(n.pstop)..]
  {
    var at := page * 256 - RAM_BASE;
    assert w.ram[..at] == n.ram[..at] && w.ram[at + |frame|..] == n.ram[at + |frame|..];
    assert RingOf(w).bytes == RingOf(n).bytes;
  }

  lemma SentKeepsRing(n: Nic, sent: Nic, page: Byte, count: Word)
    requires RingOk(n) && WellFormed(sent) && SentFrom(n, sent, page, count)
    ensures RingOk(sent) && RingOf(sent) == RingOf(n) && Gap(sent) == Gap(n) && sent.curr == n.curr
    ensures First(sent) == First(n) && Used(sent) == Used(n)
  {
    GapIs(n);
    GapIs(sent);
  }

  /** A frame that loopback stored is read back from where CURR was, with its header in front. */
  lemma ReadBack(sent: Nic, frame: Frame)
    requires RingOk(sent) && Fits(sent, frame) && sent.dma.Idle? && !sent.stopped
    ensures |frame| + 4 < 0x1_0000
    ensures var stored := Deliver(sent, frame, true).(cr := 0x22);
            && RingOk(stored)
            && var r := ReadRing(stored, sent.curr * 256, |frame| + 4);
            && r.Done? && r.value.0.ram == stored.ram && Rdc in r.value.0.isr
            && WellFormed(r.value.0) && RingOk(r.value.0)
            && SameBounds(stored, r.value.0) && SameBounds(Deliver(sent, frame, true), r.value.0)
            && |r.value.1| == |frame| + 4 && r.value.1[0] == Status(frame) && r.value.1[4..] == frame
  {
    hide Deliver, ReadRing, AreaByte, Stored, RingOf, Fits, RingOk, WellFormed, Status, Ready;
    StoredCr(sent, frame);
    var stored := Deliver(sent, frame, true).(cr := 0x22);
    ReadRingIs(stored, CurrPos(sent), |frame| + 4);
    ReadLaidOut(sent, frame, ReadRing(stored, sent.curr * 256, |frame| + 4).value.1);
  }

  lemma ReadLaidOut(sent: Nic, frame: Frame, bytes: seq<Byte>)
    requires RingOk(sent) && Fits(sent, frame) && RingOk(Stored(sent, frame))
    requires RingSize(Stored(sent, frame)) == RingSize(sent) && |bytes| == |frame| + 4 <= 256 * RingSize(sent)
    requires forall t :: 0 <= t < |bytes| ==> bytes[t] == AreaByte(RingOf(Stored(sent, frame)), CurrPos(sent), t)
    ensures bytes[0] == Status(frame) && bytes[4..] == frame
  {
    hide AreaByte, Stored, RingOf, Fits, Gap, Header, NextPage, PagesNeeded, Status;
    forall t | 0 <= t < |frame| + 4
      ensures bytes[t] == Layout(sent, frame)[t]
    {
      StoredLaidOut(sent, frame, t);
    }
    assert bytes[4..] == frame;
  }

  lemma StoredCr(sent: Nic, frame: Frame)
    requires RingOk(sent) && Fits(sent, frame) && sent.dma.Idle? && !sent.stopped
    ensures var stored := Deliver(sent, frame, true).(cr := 0x22);
            && RingOk(stored) && RingOk(Stored(sent, frame)) && RingOf(stored) == RingOf(Stored(sent, frame))
            && RingSize(stored) == RingSize(sent) && stored.pstart == sent.pstart && CurrPos(sent) < RingSize(stored)
            && Ready(stored) && |frame| + 4 <= 256 * RingSize(sent) < 0x1_0000
            && WellFormed(sent) && WellFormed(stored) && SameBounds(Deliver(sent, frame, true), stored)
  {
    hide Deliver, Stored, Gap, Header, NextPage;
    LayoutIs(sent, frame);
    StoredRing(sent, frame, true);
    DeliverKeeps(sent, frame, true);
  }

  /** Write the frame at `page`, send it, and read the ring from where CURR was. */
  function RoundTrip(n: Nic, page: Byte, frame: Frame): Outcome<(Nic, seq<Byte>)>
    requires WellFormed(n) && |frame| + 4 < 0x1_0000
  {
    match WriteTransfer(n, page, frame)
    case Thrown => Thrown
    case Done(written) =>
      match Program(written, StartTransmit(page, |frame|))
      case Thrown => Thrown
      case Done(stored) => ReadRing(stored, n.curr * 256, |frame| + 4)
  }

  /**
   The data path end to end. A frame that fits in the ring is written at `page` by remote DMA,
   sent with TXP in loopback mode, and read back with two linear bursts at most: the bytes after
   the header are the bytes written, and RAM changes in the transmit buffer and the ring only.
   */
  lemma LoopbackRoundTrip(n: Nic, page: Byte, frame: Frame)
    requires RingOk(n) && Ready(n) && LoopsToRing(n)
    requires 0 < |frame| && Fits(n, frame) && TxBuffer(n, page, frame)
    ensures |frame| + 4 < 0x1_0000
    ensures var r := RoundTrip(n, page, frame);
            && r.Done?
            && |r.value.1| == |frame| + 4 && r.value.1[0] == Status(frame) && r.value.1[4..] == frame
            && Rdc in r.value.0.isr
            && WellFormed(r.value.0) && RamKept(n, page, frame, r.value.0)
  {
    hide *;
    RingReach(n, page, frame);
    WriteTransferIs(n, page, frame);
    var written := WriteTransfer(n, page, frame).value;
    LoadedKeepsRing(n, page, frame, written);
    WrittenReady(n, page, frame, written);
    var sent := SendIs(written, page, frame);
    SentReady(n, written, sent, page, frame);
    ReadBack(sent, frame);
    RoundTripIs(n, page, frame, written, sent);
    RoundTripKeeps(n, page, frame, written, sent, RoundTrip(n, page, frame).value.0);
  }

  lemma RoundTripIs(n: Nic, page: Byte, frame: Frame, written: Nic, sent: Nic)
    requires WellFormed(n) && |frame| + 4 < 0x1_0000 && WellFormed(sent) && WellFormed(written) && sent.curr == n.curr
    requires WriteTransfer(n, page, frame) == Done(written)
    requires Program(written, StartTransmit(page, |frame|)) == Done(Deliver(sent, frame, true).(cr := 0x22))
    ensures RoundTrip(n, page, frame) ==
            ReadRing(Deliver(sent, frame, true).(cr := 0x22), sent.curr * 256, |frame| + 4)
  {
    hide WriteTransfer, Program, ReadRing, Deliver, StartTransmit;
  }

  lemma RingReach(n: Nic, page: Byte, frame: Frame)
    requires RingOk(n) && TxBuffer(n, page, frame)
    ensures WellFormed(n) && |frame| + 4 < 0x1_0000 && 0x40 <= page && page * 256 + |frame| <= RAM_BASE + RAM_SIZE
  {
  }

  lemma WrittenReady(n: Nic, page: Byte, frame: Frame, w: Nic)
    requires RingOk(n) && Ready(n) && LoopsToRing(n) && TxBuffer(n, page, frame)
    requires w == n.(rsar := w.rsar, rbcr := w.rbcr, crda := w.crda, cr := CR_REMOTE_WRITE, isr := w.isr, ram := w.ram)
    ensures w.cr / 64 == 0 && !w.stopped && LoopsToRing(w) && TxBuffer(w, page, frame)
  {
  }

  lemma SentReady(n: Nic, w: Nic, sent: Nic, page: Byte, frame: Frame)
    requires RingOk(n) && RingOk(w) && SameBounds(n, w) && w.bnry == n.bnry && w.curr == n.curr
    requires Fits(n, frame) && |frame| < 0x1_0000 && WellFormed(sent) && SentFrom(w, sent, page, |frame|)
    ensures RingOk(sent) && Fits(sent, frame) && sent.dma.Idle? && !sent.stopped && sent.curr == n.curr
  {
    GapIs(n);
    GapIs(w);
    SentKeepsRing(w, sent, page, |frame|);
  }

  /** Outside the ring only the transmit buffer changed, and in the ring only the frame's own bytes from CURR on. */
  ghost predicate RamKept(n: Nic, page: Byte, frame: Frame, n': Nic)
    requires RingOk(n) && WellFormed(n') && TxBuffer(n, page, frame)
  {
    && n'.ram[..RamIndex(n.pstart)] == Loaded(n.ram, page, frame)[..RamIndex(n.pstart)]
    && n'.ram[RamIndex(n.pstop)..] == n.ram[RamIndex(n.pstop)..]
    && RingOk(n') && RingSize(n') == RingSize(n)
    && SameArea(RingOf(n), RingOf(n'), First(n), Used(n))
    && CurrPos(n) < RingSize(n)
    && forall t :: |frame| + 4 <= t < 256 * RingSize(n) ==>
         AreaByte(RingOf(n'), CurrPos(n), t) == AreaByte(RingOf(n), CurrPos(n), t)
  }

  lemma RoundTripKeeps(n: Nic, page: Byte, frame: Frame, w: Nic, sent: Nic, n': Nic)
    requires RingOk(n) && TxBuffer(n, page, frame) && |frame| < 0x1_0000
    requires w == n.(rsar := w.rsar, rbcr := w.rbcr, crda := w.crda, cr := w.cr, isr := w.isr,
                     ram := Loaded(n.ram, page, frame))
    requires RingOk(w) && RingOf(w) == RingOf(n) && WellFormed(sent) && SentFrom(w, sent, page, |frame|)
    requires w.ram[RamIndex(n.pstop)..] == n.ram[RamIndex(n.pstop)..] && RingOk(sent) && Fits(sent, frame)
    requires RingOk(n') && SameBounds(Deliver(sent, frame, true), n') && n'.ram == Deliver(sent, frame, true).ram
    ensures RamKept(n, page, frame, n')
  {
    hide Deliver, Loaded, Used, First, SameArea, AreaByte, Fits;
    SentKeepsRing(w, sent, page, |frame|);
    DeliveryOverwritesNothing(sent, frame, true);
    DeliveryKeepsRest(sent, frame);
    SameFirst(n, w);
  }

  lemma SameFirst(n: Nic, w: Nic)
    requires RingOk(n) && RingOk(w) && SameBounds(n, w) && w.bnry == n.bnry && w.curr == n.curr
    ensures First(w) == First(n) && Used(w) == Used(n)
  {
  }

  ghost predicate SameBounds(n: Nic, n': Nic) {
    n'.pstart == n.pstart && n'.pstop == n.pstop
  }
}
