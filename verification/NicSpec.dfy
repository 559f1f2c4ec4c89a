/**
 The RTL8019/DP8390 card as a value: one record of registers and packet RAM, and one
 function for every register operation and for the arrival of a frame.
 The class in Rtl8019.dfy is proved to compute these functions in place.
 */
module NicSpec {
  import opened Bytes
  import PageRing

  datatype IsrBit = Prx | Ptx | Rxe | Txe | Ovw | Cnt | Rdc | Rst

  /** The remote-DMA engine: `dmaActive` together with `dmaDirection`. */
  datatype Dma = Idle | Reading | Writing

  type Frame = PageRing.Frame

  const RAM_BASE := 0x4000
  const RAM_SIZE := 0x4000

  datatype Quirks = Quirks(loopbackToRing: bool, loopbackSilent: bool, isrRstOnStop: bool, openBusValue: Byte)

  datatype Nic = Nic(
    quirks: Quirks,
    prom: seq<Byte>,
    ram: seq<Byte>,
    par: seq<Byte>,
    cr: Byte,
    isr: set<IsrBit>,
    imr: Byte,
    dcr: Byte,
    tcr: Byte,
    rcr: Byte,
    pstart: Byte,
    pstop: Byte,
    bnry: Byte,
    curr: Byte,
    tpsr: Byte,
    tbcr: Word,
    rsar: Word,
    rbcr: Word,
    crda: Word,
    tsr: Byte,
    rsr: Byte,
    fifo: Byte,
    dma: Dma,
    rxHalted: bool,
    stopped: bool,
    transmitted: seq<Frame>,
    filteredRx: nat,
    overflowEvents: nat,
    rxDelivered: nat,
    oobDma: nat)

  ghost predicate WellFormed(n: Nic) {
    |n.ram| == RAM_SIZE && |n.prom| == 32 && |n.par| == 6
  }

  // ---- packet RAM ----

  function RamRead(n: Nic, addr: nat): Byte
    requires WellFormed(n)
  {
    if addr < RAM_BASE then n.prom[addr % |n.prom|]
    else if addr < RAM_BASE + RAM_SIZE then n.ram[addr - RAM_BASE]
    else n.quirks.openBusValue
  }

  function RamReadCount(n: Nic, addr: nat): Nic {
    if addr < RAM_BASE + RAM_SIZE then n else n.(oobDma := n.oobDma + 1)
  }

  function RamWrite(n: Nic, addr: nat, value: Byte): (n': Nic)
    requires WellFormed(n)
    ensures WellFormed(n')
  {
    if RAM_BASE <= addr < RAM_BASE + RAM_SIZE then n.(ram := n.ram[addr - RAM_BASE := value])
    else n.(oobDma := n.oobDma + 1)
  }

  // ---- receive ----

  function RingSize(n: Nic): int {
    n.pstop - n.pstart
  }

  function PosOf(n: Nic, page: int): nat
    requires RingSize(n) > 0
  {
    (page - n.pstart) % RingSize(n)
  }

  function Destination(frame: Frame): Frame {
    frame[..Min(6, |frame|)]
  }

  predicate Broadcast(frame: Frame) {
    forall i :: 0 <= i < |Destination(frame)| ==> Destination(frame)[i] == 0xff
  }

  predicate Multicast(frame: Frame) {
    |frame| > 0 && Bit(frame[0], 1)
  }

  predicate Monitor(n: Nic) {
    Bit(n.rcr, 0x20)
  }

  predicate Accepts(n: Nic, frame: Frame) {
    if Monitor(n) then false
    else if Broadcast(frame) then Bit(n.rcr, 0x04)
    else if Multicast(frame) then Bit(n.rcr, 0x08) || Bit(n.rcr, 0x10)
    else Bit(n.rcr, 0x10) || Destination(frame) == n.par
  }

  predicate Filtered(n: Nic, frame: Frame, loopback: bool) {
    !loopback && (n.rxHalted || Monitor(n) || !Accepts(n, frame))
  }

  /** Free pages from CURR up to, and not including, the BNRY page. */
  function Gap(n: Nic): nat
    requires RingSize(n) > 0
  {
    (PosOf(n, n.bnry) - PosOf(n, n.curr)) % RingSize(n)
  }

  function Status(frame: Frame): Byte {
    if Broadcast(frame) || Multicast(frame) then 0x21 else 0x01
  }

  function NextPage(n: Nic, frame: Frame): int
    requires RingSize(n) > 0
  {
    n.pstart + (PosOf(n, n.curr) + PageRing.PagesNeeded(frame)) % RingSize(n)
  }

  function Header(n: Nic, frame: Frame): seq<Byte>
    requires RingSize(n) > 0
  {
    [Status(frame), NextPage(n, frame) % 256, (|frame| + 4) % 256, (|frame| + 4) / 256 % 256]
  }

  function WrapAddr(n: Nic, addr: nat): nat {
    if addr >= n.pstop * 256 then n.pstart * 256 else addr
  }

  /** Writes `bytes` one after the other from `addr`, jumping from PSTOP to PSTART. */
  function StoreRun(n: Nic, addr: nat, bytes: seq<Byte>): (n': Nic)
    requires WellFormed(n)
    ensures WellFormed(n') && n' == n.(ram := n'.ram, oobDma := n'.oobDma)
    decreases |bytes|
  {
    if bytes == [] then n
    else RamWrite(StoreRun(n, addr, bytes[..|bytes| - 1]), StoreAddr(n, addr, |bytes| - 1), bytes[|bytes| - 1])
  }

  /** Where the byte number `k` of such a run goes. */
  function StoreAddr(n: Nic, addr: nat, k: nat): nat {
    if k == 0 then addr else WrapAddr(n, StoreAddr(n, addr, k - 1) + 1)
  }

  function Deliver(n: Nic, frame: Frame, loopback: bool): (n': Nic)
    requires WellFormed(n)
    ensures WellFormed(n')
  {
    if Filtered(n, frame, loopback) || RingSize(n) <= 0 then
      n.(filteredRx := n.filteredRx + 1)
    else if PageRing.PagesNeeded(frame) > Gap(n) then
      n.(isr := n.isr + {Ovw}, rxHalted := true, overflowEvents := n.overflowEvents + 1)
    else
      StoreRun(n, n.curr * 256, Header(n, frame) + frame)
      .(curr := NextPage(n, frame), isr := n.isr + {Prx}, rxDelivered := n.rxDelivered + 1)
  }

  /** Reception touches the ring, CURR, ISR and the counters, and no other register. */
  lemma DeliverKeeps(n: Nic, frame: Frame, loopback: bool)
    requires WellFormed(n)
    ensures var n' := Deliver(n, frame, loopback);
            n' == n.(ram := n'.ram, curr := n'.curr, isr := n'.isr, rxHalted := n'.rxHalted,
                     filteredRx := n'.filteredRx, overflowEvents := n'.overflowEvents,
                     rxDelivered := n'.rxDelivered, oobDma := n'.oobDma)
  {
    hide Filtered, Gap, Header, NextPage;
  }

  // ---- transmit ----

  /** `slice(start, end)` of a JavaScript array: negative positions count from the end. */
  function JsSlice(s: seq<Byte>, start: int, end: int): seq<Byte> {
    var from := if start < 0 then Max(|s| + start, 0) else Min(start, |s|);
    var to := if end < 0 then Max(|s| + end, 0) else Min(end, |s|);
    if from <= to then s[from..to] else []
  }

  function TransmitFrame(n: Nic): Frame {
    JsSlice(n.ram, n.tpsr * 256 - RAM_BASE, n.tpsr * 256 - RAM_BASE + n.tbcr)
  }

  predicate LoopbackActive(n: Nic) {
    (Bit(n.tcr, 2) || Bit(n.tcr, 4)) && !Bit(n.dcr, 8)
  }

  function ClearTxp(cr: Byte): Byte {
    if Bit(cr, 4) then cr - 4 else cr
  }

  /** Where a frame goes that TXP sends: onto the wire, into the ring, or into the loopback FIFO. */
  function Route(n: Nic, frame: Frame): (n': Nic)
    requires WellFormed(n)
    ensures WellFormed(n')
  {
    if !LoopbackActive(n) then n.(transmitted := n.transmitted + [frame])
    else if n.quirks.loopbackToRing then Deliver(n, frame, true)
    else if n.quirks.loopbackSilent then n.(isr := n.isr + {Cnt})
    else n.(isr := n.isr + {Rxe}, rsr := 1, fifo := if frame == [] then 0 else frame[|frame| - 1])
  }

  function Transmit(n: Nic): (r: Outcome<Nic>)
    requires WellFormed(n)
    ensures r.Done? ==> WellFormed(r.value)
  {
    if n.pstop <= n.tpsr then Thrown
    else
      var after := Route(n.(isr := n.isr + {Ptx}, tsr := 1), TransmitFrame(n));
      Done(after.(cr := ClearTxp(after.cr)))
  }

  // ---- command register and remote DMA ----

  function StartStop(n: Nic, value: Byte): Nic {
    if Bit(value, 1) then n.(stopped := true, isr := if n.quirks.isrRstOnStop then n.isr + {Rst} else n.isr)
    else if Bit(value, 2) && n.stopped then n.(stopped := false, rxHalted := false)
    else n
  }

  function RemoteDmaCommand(n: Nic, value: Byte): Nic {
    var rd := value / 8 % 8;
    if rd == 1 || rd == 2 then
      var started := n.(crda := if n.dma.Idle? then n.rsar else n.crda);
      if n.rbcr == 0 then started.(isr := n.isr + {Rdc}, dma := Idle)
      else started.(dma := if rd == 1 then Reading else Writing)
    else if rd == 4 then n.(dma := Idle)
    else n
  }

  function WriteCr(n: Nic, value: Byte): (r: Outcome<Nic>)
    requires WellFormed(n)
    ensures r.Done? ==> WellFormed(r.value)
  {
    var n' := RemoteDmaCommand(StartStop(n.(cr := value), value), value);
    if Bit(value, 4) then Transmit(n') else Done(n')
  }

  /** The card of a CR write with TXP at the moment its frame leaves. */
  function AboutToSend(n: Nic, value: Byte): Nic {
    var ready := RemoteDmaCommand(StartStop(n.(cr := value), value), value);
    ready.(isr := ready.isr + {Ptx}, tsr := 1)
  }

  predicate LoopsToRing(n: Nic) {
    LoopbackActive(n) && n.quirks.loopbackToRing
  }

  lemma AboutToSendIs(n: Nic, value: Byte)
    requires WellFormed(n)
    ensures var sent := AboutToSend(n, value);
            && WellFormed(sent)
            && sent == n.(cr := sent.cr, isr := sent.isr, crda := sent.crda, dma := sent.dma,
                          stopped := sent.stopped, rxHalted := sent.rxHalted, tsr := sent.tsr)
            && sent.rxHalted == StartStop(n, value).rxHalted && sent.stopped == StartStop(n, value).stopped
  {
    hide Bit, StartStop, RemoteDmaCommand;
    StartStopIs(n, value);
    RemoteDmaCommandIs(StartStop(n.(cr := value), value), value);
  }

  lemma StartStopIs(n: Nic, value: Byte)
    ensures var n' := StartStop(n.(cr := value), value);
            && n' == n.(cr := value, isr := n'.isr, stopped := n'.stopped, rxHalted := n'.rxHalted)
            && n'.rxHalted == StartStop(n, value).rxHalted && n'.stopped == StartStop(n, value).stopped
  {
    hide Bit;
  }

  lemma RemoteDmaCommandIs(n: Nic, value: Byte)
    ensures var n' := RemoteDmaCommand(n, value); n' == n.(isr := n'.isr, crda := n'.crda, dma := n'.dma)
  {
  }

  /** A frame that TXP sends arrives in the ring, or only the transmit-side registers change. */
  lemma TransmitIs(n: Nic, value: Byte)
    requires WellFormed(n) && Bit(value, 4) && WriteCr(n, value).Done?
    ensures var sent, n' := AboutToSend(n, value), WriteCr(n, value).value;
            && WellFormed(sent)
            && (if LoopsToRing(n) then n' == Deliver(sent, TransmitFrame(n), true).(cr := n'.cr)
                else n' == sent.(cr := n'.cr, isr := n'.isr, transmitted := n'.transmitted,
                                 rsr := n'.rsr, fifo := n'.fifo))
  {
    hide Bit, JsSlice, Deliver, ClearTxp, AboutToSend, StartStop, RemoteDmaCommand;
    AboutToSendIs(n, value);
    var ready := RemoteDmaCommand(StartStop(n.(cr := value), value), value);
    TransmitFrameSame(n, value);
    assert Transmit(ready).Done?;
  }

  lemma TransmitFrameSame(n: Nic, value: Byte)
    requires WellFormed(n)
    ensures var ready := RemoteDmaCommand(StartStop(n.(cr := value), value), value);
            && WellFormed(ready) && ready.quirks == n.quirks
            && LoopbackActive(ready) == LoopbackActive(n) && TransmitFrame(ready) == TransmitFrame(n)
            && AboutToSend(n, value) == ready.(isr := ready.isr + {Ptx}, tsr := 1)
  {
    hide Bit, JsSlice;
  }

  /** What every data-port access does after the byte has moved. */
  function DmaAdvance(n: Nic): Nic
    requires n.rbcr > 0
  {
    var n' := n.(crda := (n.crda + 1) % 0x1_0000, rbcr := n.rbcr - 1);
    if n'.rbcr == 0 then n'.(isr := n'.isr + {Rdc}, dma := Idle) else n'
  }

  function ReadData(n: Nic): (r: Outcome<(Nic, Byte)>)
    requires WellFormed(n)
    ensures r.Done? ==> WellFormed(r.value.0)
  {
    if !n.dma.Reading? || n.rbcr <= 0 then Thrown
    else Done((DmaAdvance(RamReadCount(n, n.crda)), RamRead(n, n.crda)))
  }

  function WriteData(n: Nic, value: Byte): (r: Outcome<Nic>)
    requires WellFormed(n)
    ensures r.Done? ==> WellFormed(r.value)
  {
    if !n.dma.Writing? || n.rbcr <= 0 then Thrown
    else Done(DmaAdvance(RamWrite(n, n.crda, value)))
  }

  // ---- register file ----

  function IsrBits(value: Byte): set<IsrBit> {
    (if Bit(value, 0x01) then {Prx} else {}) + (if Bit(value, 0x02) then {Ptx} else {}) +
    (if Bit(value, 0x04) then {Rxe} else {}) + (if Bit(value, 0x08) then {Txe} else {}) +
    (if Bit(value, 0x10) then {Ovw} else {}) + (if Bit(value, 0x20) then {Cnt} else {}) +
    (if Bit(value, 0x40) then {Rdc} else {}) + (if Bit(value, 0x80) then {Rst} else {})
  }

  function SetLow(w: Word, value: Byte): Word {
    w / 256 * 256 + value
  }

  function SetHigh(w: Word, value: Byte): Word {
    value * 256 + w % 256
  }

  /** The register file at 0x00..0x0f, the data port 0x10 and the reset port 0x1f. */
  function WriteReg(n: Nic, offset: nat, value: Byte): (r: Outcome<Nic>)
    requires WellFormed(n)
    ensures r.Done? ==> WellFormed(r.value)
  {
    if offset == 0x00 then WriteCr(n, value)
    else if offset == 0x10 then WriteData(n, value)
    else if offset == 0x1f then Done(n)
    else if n.cr / 64 == 0 then WritePage0(n, offset, value)
    else if n.cr / 64 == 1 then WritePage1(n, offset, value)
    else if n.cr / 64 == 3 && 1 <= offset <= 2 then Done(n)
    else Thrown
  }

  function WritePage0(n: Nic, offset: nat, value: Byte): (r: Outcome<Nic>)
    requires WellFormed(n)
    ensures r.Done? ==> WellFormed(r.value)
  {
    match offset
    case 0x01 => Done(n.(pstart := value))
    case 0x02 => Done(n.(pstop := value))
    case 0x03 => Done(n.(bnry := value))
    case 0x04 => Done(n.(tpsr := value))
    case 0x05 => Done(n.(tbcr := SetLow(n.tbcr, value)))
    case 0x06 => Done(n.(tbcr := SetHigh(n.tbcr, value)))
    case 0x07 => Done(n.(isr := n.isr - IsrBits(value)))
    case 0x08 => Done(n.(rsar := SetLow(n.rsar, value)))
    case 0x09 => Done(n.(rsar := SetHigh(n.rsar, value)))
    case 0x0a => Done(n.(rbcr := SetLow(n.rbcr, value)))
    case 0x0b => Done(n.(rbcr := SetHigh(n.rbcr, value)))
    case 0x0c => Done(n.(rcr := value))
    case 0x0d => Done(n.(tcr := value))
    case 0x0e => if Bit(value, 1) then Thrown else Done(n.(dcr := value))
    case 0x0f => Done(n.(imr := value))
    case _ => Thrown
  }

  function WritePage1(n: Nic, offset: nat, value: Byte): (r: Outcome<Nic>)
    requires WellFormed(n)
    ensures r.Done? ==> WellFormed(r.value)
  {
    if 1 <= offset <= 6 then Done(n.(par := n.par[offset - 1 := value]))
    else if offset == 7 then Done(n.(curr := value))
    else if 8 <= offset <= 0x0f then Done(n)
    else Thrown
  }
}
