/**
 What the card's register writes mean: the two halves of the word registers, ISR, the command register,
 transmission, the data port over the whole address space, and the driver's initialisation.
 */
module Registers {
  import opened Bytes
  import opened PageRing
  import opened NicSpec
  import opened ReceiveRing
  import opened DataPath
  import opened AddressFilter

  // ---- page 0 ----

  /** The weight of a status bit in the ISR byte. */
  function Weight(b: IsrBit): nat {
    match b
    case Prx => 0x01
    case Ptx => 0x02
    case Rxe => 0x04
    case Txe => 0x08
    case Ovw => 0x10
    case Cnt => 0x20
    case Rdc => 0x40
    case Rst => 0x80
  }

  /** Writing ISR clears exactly the status bits whose bit is set in the value. */
  lemma IsrWriteClears(n: Nic, value: Byte)
    requires WellFormed(n) && n.cr / 64 == 0
    ensures WriteReg(n, 0x07, value).Done?
    ensures var n' := WriteReg(n, 0x07, value).value;
            && n' == n.(isr := n'.isr)
            && forall b :: b in n'.isr <==> b in n.isr && value / Weight(b) % 2 == 0
  {
  }

  lemma TwoWrites(n: Nic, a: (nat, Byte), b: (nat, Byte))
    requires WellFormed(n) && WriteReg(n, a.0, a.1).Done?
    ensures Program(n, [a, b]) == WriteReg(WriteReg(n, a.0, a.1).value, b.0, b.1)
  {
    hide WriteReg;
    assert [a, b][1..] == [b];
    ProgramOne(WriteReg(n, a.0, a.1).value, b);
  }

  lemma Halves(w: Word, low: Byte, high: Byte)
    ensures SetHigh(SetLow(w, low), high) == SetLow(SetHigh(w, high), low) == high * 256 + low
  {
  }

  lemma LowHigh(n: Nic, offset: nat, low: Byte, high: Byte)
    requires WellFormed(n) && n.cr / 64 == 0 && offset in {0x05, 0x08, 0x0a}
    ensures var x := high * 256 + low;
            Program(n, [(offset, low), (offset + 1, high)]) ==
            Done(if offset == 0x05 then n.(tbcr := x) else if offset == 0x08 then n.(rsar := x) else n.(rbcr := x))
  {
    hide Program, SetLow, SetHigh;
    Halves(if offset == 0x05 then n.tbcr else if offset == 0x08 then n.rsar else n.rbcr, low, high);
    TwoWrites(n, (offset, low), (offset + 1, high));
  }

  lemma HighLow(n: Nic, offset: nat, low: Byte, high: Byte)
    requires WellFormed(n) && n.cr / 64 == 0 && offset in {0x05, 0x08, 0x0a}
    ensures var x := high * 256 + low;
            Program(n, [(offset + 1, high), (offset, low)]) ==
            Done(if offset == 0x05 then n.(tbcr := x) else if offset == 0x08 then n.(rsar := x) else n.(rbcr := x))
  {
    hide Program, SetLow, SetHigh;
    Halves(if offset == 0x05 then n.tbcr else if offset == 0x08 then n.rsar else n.rbcr, low, high);
    TwoWrites(n, (offset + 1, high), (offset, low));
  }

  /** TBCR, RSAR and RBCR take their two bytes in either order. */
  lemma WordRegisters(n: Nic, low: Byte, high: Byte)
    requires WellFormed(n) && n.cr / 64 == 0
    ensures Program(n, [(0x05, low), (0x06, high)]) == Program(n, [(0x06, high), (0x05, low)]) ==
            Done(n.(tbcr := high * 256 + low))
    ensures Program(n, [(0x08, low), (0x09, high)]) == Program(n, [(0x09, high), (0x08, low)]) ==
            Done(n.(rsar := high * 256 + low))
    ensures Program(n, [(0x0a, low), (0x0b, high)]) == Program(n, [(0x0b, high), (0x0a, low)]) ==
            Done(n.(rbcr := high * 256 + low))
  {
    hide Program;
    LowHigh(n, 0x05, low, high);
    HighLow(n, 0x05, low, high);
    LowHigh(n, 0x08, low, high);
    HighLow(n, 0x08, low, high);
    LowHigh(n, 0x0a, low, high);
    HighLow(n, 0x0a, low, high);
  }

  /** Where a write is an error of the driver: page 2, most of page 3, 16-bit transfers, offsets that do not exist. */
  lemma ThrowsIff(n: Nic, offset: nat, value: Byte)
    requires WellFormed(n) && offset !in {0x00, 0x10}
    ensures WriteReg(n, offset, value).Thrown? <==>
            offset != 0x1f &&
            (offset > 0x0f || n.cr / 64 == 2 || (n.cr / 64 == 3 && offset > 2)
             || (n.cr / 64 == 0 && offset == 0x0e && value % 2 == 1))
  {
    hide SetLow, SetHigh, IsrBits;
  }

  // ---- the command register ----

  /** The card after a command, before any transmission: stop and start, and what becomes of the remote DMA. */
  function Commanded(n: Nic, value: Byte): Nic {
    var stop, start, moves := value % 2 == 1, value / 2 % 2 == 1, value / 8 % 8 in {1, 2};
    n.(cr := value,
       stopped := stop || (n.stopped && !start),
       rxHalted := n.rxHalted && (stop || !start || !n.stopped),
       isr := n.isr + (if stop && n.quirks.isrRstOnStop then {Rst} else {})
                    + (if moves && n.rbcr == 0 then {Rdc} else {}),
       crda := if moves && n.dma == Idle then n.rsar else n.crda,
       dma := if moves then (if n.rbcr == 0 then Idle else if value / 8 % 8 == 1 then Reading else Writing)
              else if value / 8 % 8 == 4 then Idle else n.dma)
  }

  lemma CommandParts(n: Nic, value: Byte)
    ensures RemoteDmaCommand(StartStop(n.(cr := value), value), value) == Commanded(n, value)
  {
    var stop := value % 2 == 1;
    var isr := n.isr + (if stop && n.quirks.isrRstOnStop then {Rst} else {});
    assert n.isr + {} == n.isr && isr + {} == isr;
  }

  /** A command without TXP does this. */
  lemma CommandIs(n: Nic, value: Byte)
    requires WellFormed(n) && value / 4 % 2 == 0
    ensures WriteReg(n, 0x00, value) == Done(Commanded(n, value))
  {
    hide Transmit, Commanded, StartStop, RemoteDmaCommand;
    CommandParts(n, value);
  }

  // ---- transmission ----

  /** The bytes of RAM from TPSR on; a page below the RAM counts from its end, as in JavaScript. */
  function Outgoing(n: Nic): Frame
    requires WellFormed(n)
  {
    var from, to := n.tpsr * 256 - 0x4000, n.tpsr * 256 - 0x4000 + n.tbcr;
    if from >= 0 then n.ram[Min(from, 0x4000)..Min(to, 0x4000)]
    else if to < 0 then n.ram[0x4000 + from..0x4000 + to]
    else if 0x4000 + from <= Min(to, 0x4000) then n.ram[0x4000 + from..Min(to, 0x4000)]
    else []
  }

  lemma OutgoingIs(n: Nic)
    requires WellFormed(n)
    ensures TransmitFrame(n) == Outgoing(n)
  {
  }

  /** Where the frame goes: onto the wire, into the ring, nowhere, or its last byte into the FIFO. */
  function Gone(n: Nic, frame: Frame): (n': Nic)
    requires WellFormed(n)
  {
    var loops := (n.tcr / 2 % 2 == 1 || n.tcr / 4 % 2 == 1) && n.dcr / 8 % 2 == 0;
    if !loops then n.(transmitted := n.transmitted + [frame])
    else if n.quirks.loopbackToRing then Deliver(n, frame, true)
    else if n.quirks.loopbackSilent then n.(isr := n.isr + {Cnt})
    else n.(isr := n.isr + {Rxe}, rsr := 1, fifo := if frame == [] then 0 else frame[|frame| - 1])
  }

  lemma RouteIs(n: Nic, frame: Frame)
    requires WellFormed(n)
    ensures Route(n, frame) == Gone(n, frame) && Gone(n, frame).cr == n.cr
  {
    hide Deliver;
    DeliverKeeps(n, frame, true);
  }

  /** The command, and then the frame leaves and TXP clears itself. */
  function Transmitted(n: Nic, value: Byte): Nic
    requires WellFormed(n) && value >= 4
  {
    var before := Commanded(n, value);
    Gone(before.(isr := before.isr + {Ptx}, tsr := 1), Outgoing(n)).(cr := value - 4)
  }

  /** A command with TXP does this, where TPSR lies below PSTOP, and is an error elsewhere. */
  lemma TransmissionIs(n: Nic, value: Byte)
    requires WellFormed(n) && value / 4 % 2 == 1
    ensures WriteReg(n, 0x00, value) == if n.pstop <= n.tpsr then Thrown else Done(Transmitted(n, value))
  {
    hide Route, Gone, JsSlice, Outgoing, StartStop, RemoteDmaCommand, TransmitFrame, LoopbackActive;
    OutgoingIs(n);
    CommandParts(n, value);
    TransmitFrameSame(n, value);
    var before := Commanded(n, value);
    if n.pstop > n.tpsr {
      RouteIs(before.(isr := before.isr + {Ptx}, tsr := 1), Outgoing(n));
      SameFrame(before, n);
    }
  }

  lemma SameFrame(n: Nic, m: Nic)
    requires WellFormed(n) && WellFormed(m) && n.ram == m.ram && n.tpsr == m.tpsr && n.tbcr == m.tbcr
    ensures TransmitFrame(n.(isr := n.isr + {Ptx}, tsr := 1)) == TransmitFrame(n) == TransmitFrame(m)
  {
    hide JsSlice;
  }

  // ---- the data port over the whole address space ----

  /** What the card has at an address of remote DMA: the PROM over and over, the RAM, and nothing beyond. */
  function MemoryAt(n: Nic, addr: nat): Byte
    requires WellFormed(n)
  {
    if addr < 0x4000 then n.prom[addr % 32]
    else if addr < 0x8000 then n.ram[addr - 0x4000]
    else n.quirks.openBusValue
  }

  function Place(addr: nat, i: nat): Word {
    (addr + i) % 0x1_0000
  }

  function Contents(n: Nic, addr: nat, k: nat): seq<Byte>
    requires WellFormed(n)
  {
    seq(k, i requires 0 <= i < k => MemoryAt(n, Place(addr, i)))
  }

  /** How many of the first `k` bytes lie where the card has nothing. */
  function Beyond(addr: nat, k: nat): nat {
    if k == 0 then 0 else Beyond(addr, k - 1) + if Place(addr, k - 1) >= 0x8000 then 1 else 0
  }

  /** Bytes outside RAM cannot be written. */
  function Unwritable(addr: nat, k: nat): nat {
    if k == 0 then 0
    else Unwritable(addr, k - 1) + if 0x4000 <= Place(addr, k - 1) < 0x8000 then 0 else 1
  }

  /** The DMA registers after `k` of `count` bytes, `lost` of which met nothing. */
  function Moved(n: Nic, addr: nat, count: Word, k: nat, lost: nat): Nic
    requires k <= count
  {
    n.(crda := Place(addr, k), rbcr := count - k, oobDma := n.oobDma + lost,
       isr := if k == count then n.isr + {Rdc} else n.isr, dma := if k == count then Idle else n.dma)
  }

  predicate Started(n: Nic, dma: Dma, addr: Word, count: Word) {
    n.dma == dma && dma != Idle && n.crda == addr && n.rbcr == count && count > 0
  }

  lemma ReadNext(n: Nic, addr: Word, count: Word, k: nat)
    requires WellFormed(n) && Started(n, Reading, addr, count) && k < count
    ensures ReadData(Moved(n, addr, count, k, Beyond(addr, k))) ==
            Done((Moved(n, addr, count, k + 1, Beyond(addr, k + 1)), MemoryAt(n, Place(addr, k))))
  {
    NextPlace(addr, k);
  }

  lemma NextPlace(addr: nat, k: nat)
    ensures (Place(addr, k) + 1) % 0x1_0000 == Place(addr, k + 1)
  {
  }

  lemma NoneMoved(n: Nic, addr: Word, count: Word)
    requires Started(n, n.dma, addr, count)
    ensures Moved(n, addr, count, 0, 0) == n
  {
  }

  /** A remote read returns what is there, wherever it starts and ends, and counts what is nowhere. */
  lemma {:induction false} ReadsAnywhere(n: Nic, addr: Word, count: Word, k: nat)
    requires WellFormed(n) && Started(n, Reading, addr, count) && k <= count
    ensures ReadBurst(n, k) ==
            Done((Moved(n, addr, count, k, Beyond(addr, k)), Contents(n, addr, k)))
    decreases k
  {
    hide ReadData, Moved, MemoryAt, Place;
    if k == 0 {
      NoneMoved(n, addr, count);
    } else {
      ReadsAnywhere(n, addr, count, k - 1);
      ReadNext(n, addr, count, k - 1);
      assert Contents(n, addr, k) == Contents(n, addr, k - 1) + [MemoryAt(n, Place(addr, k - 1))];
    }
  }

  /** No byte is read behind the last one, nor by a write transfer. */
  lemma ReadsNoMore(n: Nic, addr: Word, count: Word)
    requires WellFormed(n)
    ensures Started(n, Reading, addr, count) ==> ReadBurst(n, count + 1) == Thrown
    ensures n.dma != Reading ==> ReadBurst(n, 1) == Thrown
    ensures n.dma != Writing ==> forall value :: WriteBurst(n, [value]) == Thrown
  {
    if Started(n, Reading, addr, count) {
      ReadsAnywhere(n, addr, count, count);
      hide MemoryAt;
    }
    if n.dma != Writing {
      forall value: Byte
        ensures WriteBurst(n, [value]) == Thrown
      {
        assert [value][..0] == [];
      }
    }
  }

  /** Which of `k` bytes from `addr` on, if any, goes to byte `x` of RAM. */
  function Source(addr: nat, x: nat): nat {
    (0x4000 + x - addr) % 0x1_0000
  }

  /** RAM after the bytes were written. */
  function Overwritten(n: Nic, addr: nat, bytes: seq<Byte>): (ram: seq<Byte>)
    requires WellFormed(n)
    ensures |ram| == RAM_SIZE
  {
    seq(RAM_SIZE, x requires 0 <= x < RAM_SIZE =>
          if Source(addr, x) < |bytes| then bytes[Source(addr, x)] else n.ram[x])
  }

  lemma SourceIs(addr: Word, x: nat, k: nat)
    requires x < 0x4000 && k < 0x1_0000
    ensures Source(addr, x) == k <==> Place(addr, k) == 0x4000 + x
  {
  }

  lemma WriteNext(n: Nic, addr: Word, count: Word, k: nat, ram: seq<Byte>, value: Byte)
    requires WellFormed(n) && Started(n, Writing, addr, count) && k < count && |ram| == RAM_SIZE
    ensures WriteData(Moved(n, addr, count, k, Unwritable(addr, k)).(ram := ram), value) ==
            Done(Moved(n, addr, count, k + 1, Unwritable(addr, k + 1)).(
                   ram := if 0x4000 <= Place(addr, k) < 0x8000 then ram[Place(addr, k) - 0x4000 := value] else ram))
  {
    NextPlace(addr, k);
  }

  /** A remote write stores every byte that has a place in RAM there, and changes no other. */
  lemma {:induction false} WritesAnywhere(n: Nic, addr: Word, count: Word, bytes: seq<Byte>)
    requires WellFormed(n) && Started(n, Writing, addr, count) && |bytes| <= count
    ensures WriteBurst(n, bytes) ==
            Done(Moved(n, addr, count, |bytes|, Unwritable(addr, |bytes|)).(ram := Overwritten(n, addr, bytes)))
    decreases |bytes|
  {
    hide WriteData, Moved, Place, Source;
    if bytes == [] {
      NoneMoved(n, addr, count);
      assert Overwritten(n, addr, []) == n.ram;
    } else {
      var init, k := bytes[..|bytes| - 1], |bytes| - 1;
      WritesAnywhere(n, addr, count, init);
      var before := Overwritten(n, addr, init);
      WriteNext(n, addr, count, k, before, bytes[k]);
      forall x | 0 <= x < 0x4000
        ensures Source(addr, x) == k <==> Place(addr, k) == 0x4000 + x
      {
        SourceIs(addr, x, k);
      }
      assert Overwritten(n, addr, bytes) ==
             if 0x4000 <= Place(addr, k) < 0x8000 then before[Place(addr, k) - 0x4000 := bytes[k]] else before;
    }
  }

  // ---- the driver's initialisation ----

  /** INIT_NORMAL as far as the station address. */
  function Setup(): seq<(nat, Byte)> {
    [(0x00, 0x21), (0x0e, 0x48), (0x0a, 0), (0x0b, 0), (0x0c, 0x20)] +
    [(0x0d, 0x02), (0x04, 0x40), (0x01, 0x46), (0x02, 0x60), (0x03, 0x46)] +
    [(0x07, 0xFF), (0x0f, 0), (0x00, 0x61)]
  }

  /** The station address goes into the first registers of page 1, CURR behind it, and no multicast is wanted. */
  function Addresses(mac: seq<Byte>): (w: seq<(nat, Byte)>)
    ensures |w| == |mac|
  {
    seq(|mac|, i requires 0 <= i < |mac| => (i + 1, mac[i]))
  }

  function Multicasts(): seq<(nat, Byte)> {
    seq(8, i requires 0 <= i < 8 => (i + 8, 0))
  }

  function InitNormal(mac: seq<Byte>, rcr: Byte): seq<(nat, Byte)> {
    Setup() + Addresses(mac) + [(0x07, 0x47)] + Multicasts() + [(0x00, 0x22), (0x0d, 0), (0x0c, rcr)]
  }

  lemma {:induction false} ProgramConcat(n: Nic, a: seq<(nat, Byte)>, b: seq<(nat, Byte)>)
    requires WellFormed(n) && Program(n, a).Done?
    ensures Program(n, a + b) == Program(Program(n, a).value, b)
    decreases |a|
  {
    hide WriteReg;
    if a == [] {
      assert a + b == b;
    } else {
      assert (a + b)[1..] == a[1..] + b;
      ProgramConcat(WriteReg(n, a[0].0, a[0].1).value, a[1..], b);
    }
  }

  /** One register write that is an assignment. */
  lemma AddressWritten(n: Nic, i: nat, value: Byte)
    requires WellFormed(n) && n.cr / 64 == 1 && i < 6
    ensures WriteReg(n, i + 1, value) == Done(n.(par := n.par[i := value]))
  {
  }

  lemma {:induction false} AddressesAre(n: Nic, mac: seq<Byte>)
    requires WellFormed(n) && n.cr / 64 == 1 && |mac| <= 6
    ensures Program(n, Addresses(mac)) == Done(n.(par := mac + n.par[|mac|..]))
    decreases |mac|
  {
    hide WriteReg;
    if mac == [] {
      assert mac + n.par[0..] == n.par;
      NothingWritten(n);
    } else {
      var k, init := |mac| - 1, mac[..|mac| - 1];
      AddressesAre(n, init);
      assert Addresses(mac) == Addresses(init) + [(k + 1, mac[k])];
      ProgramConcat(n, Addresses(init), [(k + 1, mac[k])]);
      var before := n.(par := init + n.par[k..]);
      ProgramOne(before, (k + 1, mac[k]));
      AddressWritten(before, k, mac[k]);
      assert before.par[k := mac[k]] == mac + n.par[|mac|..];
    }
  }

  lemma NothingWritten(n: Nic)
    requires WellFormed(n)
    ensures Program(n, []) == Done(n)
  {
  }

  /** Any CR value that selects a page, stops the card and ends the remote DMA. */
  lemma StopIs(n: Nic, page: nat)
    requires WellFormed(n) && page < 4
    ensures WriteReg(n, 0x00, page * 0x40 + 0x21) == Done(n.(
              cr := page * 0x40 + 0x21, stopped := true, dma := Idle,
              isr := if n.quirks.isrRstOnStop then n.isr + {Rst} else n.isr))
  {
    hide Transmit;
    CommandIs(n, page * 0x40 + 0x21);
    assert n.isr + {} == n.isr;
  }

  lemma FirstFive(n: Nic)
    requires WellFormed(n)
    ensures Program(n, Setup()[..5]) == Done(n.(
              cr := 0x21, stopped := true, dma := Idle, isr := if n.quirks.isrRstOnStop then n.isr + {Rst} else n.isr,
              dcr := 0x48, rbcr := 0, rcr := 0x20))
  {
    hide Program;
    StopIs(n, 0);
    var n1 := WriteReg(n, 0x00, 0x21).value;
    var n2 := n1.(dcr := 0x48);
    var n3 := n2.(rbcr := SetLow(n2.rbcr, 0));
    var n4 := n3.(rbcr := 0);
    ProgramFive(n, Setup()[..5], n1, n2, n3, n4);
  }

  lemma NextFive(n: Nic)
    requires WellFormed(n) && n.cr == 0x21
    ensures Program(n, Setup()[5..10]) ==
            Done(n.(tcr := 0x02, tpsr := 0x40, pstart := 0x46, pstop := 0x60, bnry := 0x46))
  {
    hide Program;
    var n1 := n.(tcr := 0x02);
    var n2 := n1.(tpsr := 0x40);
    var n3 := n2.(pstart := 0x46);
    var n4 := n3.(pstop := 0x60);
    ProgramFive(n, Setup()[5..10], n1, n2, n3, n4);
  }

  lemma LastThree(n: Nic)
    requires WellFormed(n) && n.cr == 0x21 && n.stopped && n.dma == Idle
    ensures Program(n, Setup()[10..]) ==
            Done(n.(isr := if n.quirks.isrRstOnStop then {Rst} else {}, imr := 0, cr := 0x61))
  {
    hide Program, WriteReg;
    var n1, n2 := n.(isr := {}), n.(isr := {}, imr := 0);
    IsrWriteClears(n, 0xFF);
    AllCleared(n, WriteReg(n, 0x07, 0xFF).value);
    ImrWritten(n1);
    StopIs(n2, 1);
    assert {} + {Rst} == {Rst};
    TwoWrites(n, (0x07, 0xFF), (0x0f, 0));
    ProgramOne(n2, (0x00, 0x61));
    ProgramConcat(n, [(0x07, 0xFF), (0x0f, 0)], [(0x00, 0x61)]);
    assert Setup()[10..] == [(0x07, 0xFF), (0x0f, 0)] + [(0x00, 0x61)];
  }

  lemma ImrWritten(n: Nic)
    requires WellFormed(n) && n.cr == 0x21
    ensures WriteReg(n, 0x0f, 0) == Done(n.(imr := 0))
  {
  }

  lemma AllCleared(n: Nic, n': Nic)
    requires n' == n.(isr := n'.isr) && forall b :: b in n'.isr <==> b in n.isr && 0xFF / Weight(b) % 2 == 0
    ensures n' == n.(isr := {})
  {
    forall b
      ensures b !in n'.isr
    {
      assert 0xFF / Weight(b) % 2 == 1;
    }
  }

  function AfterSetup(n: Nic): Nic {
    n.(cr := 0x61, stopped := true, dma := Idle, isr := if n.quirks.isrRstOnStop then {Rst} else {},
       dcr := 0x48, rbcr := 0, rcr := 0x20, tcr := 0x02, tpsr := 0x40, pstart := 0x46, pstop := 0x60, bnry := 0x46,
       imr := 0)
  }

  lemma SetupIs(n: Nic)
    requires WellFormed(n)
    ensures Program(n, Setup()) == Done(AfterSetup(n))
  {
    hide Program;
    FirstFive(n);
    var n1 := Program(n, Setup()[..5]).value;
    NextFive(n1);
    var n2 := Program(n1, Setup()[5..10]).value;
    LastThree(n2);
    assert Setup()[..10] == Setup()[..5] + Setup()[5..10] && Setup() == Setup()[..10] + Setup()[10..];
    ProgramConcat(n, Setup()[..5], Setup()[5..10]);
    ProgramConcat(n, Setup()[..10], Setup()[10..]);
  }

  lemma {:induction false} MulticastsAre(n: Nic, k: nat)
    requires WellFormed(n) && n.cr / 64 == 1 && k <= 8
    ensures Program(n, Multicasts()[..k]) == Done(n)
    decreases k
  {
    hide WriteReg;
    if k == 0 {
      NothingWritten(n);
    } else {
      MulticastsAre(n, k - 1);
      assert Multicasts()[..k] == Multicasts()[..k - 1] + [(k + 7, 0)];
      ProgramConcat(n, Multicasts()[..k - 1], [(k + 7, 0)]);
      ProgramOne(n, (k + 7, 0));
      MulticastWritten(n, k + 7);
    }
  }

  lemma MulticastWritten(n: Nic, offset: nat)
    requires WellFormed(n) && n.cr / 64 == 1 && 8 <= offset <= 15
    ensures WriteReg(n, offset, 0) == Done(n)
  {
  }

  /** CURR, and then the card is started. */
  lemma StartIs(n: Nic, rcr: Byte)
    requires WellFormed(n) && n.cr == 0x22
    ensures Program(n, [(0x0d, 0), (0x0c, rcr)]) == Done(n.(tcr := 0, rcr := rcr))
  {
    hide Program;
    TwoWrites(n, (0x0d, 0), (0x0c, rcr));
  }

  lemma CurrWritten(n: Nic)
    requires WellFormed(n) && n.cr / 64 == 1
    ensures WriteReg(n, 0x07, 0x47) == Done(n.(curr := 0x47))
  {
  }

  /** The card after INIT_NORMAL. */
  function Initialised(n: Nic, mac: seq<Byte>, rcr: Byte): Nic {
    AfterSetup(n).(cr := 0x22, stopped := false, rxHalted := false, par := mac, curr := 0x47, tcr := 0, rcr := rcr)
  }

  lemma InitNormalIs(n: Nic, mac: seq<Byte>, rcr: Byte)
    requires WellFormed(n) && |mac| == 6
    ensures Program(n, InitNormal(mac, rcr)) == Done(Initialised(n, mac, rcr))
  {
    hide Program, WriteReg, Commanded;
    SetupIs(n);
    var n1 := AfterSetup(n);
    AddressesAre(n1, mac);
    var n2 := n1.(par := mac);
    assert mac + n1.par[6..] == mac;
    CurrWritten(n2);
    ProgramOne(n2, (0x07, 0x47));
    var n3 := n2.(curr := 0x47);
    MulticastsAre(n3, 8);
    assert Multicasts()[..8] == Multicasts();
    CommandIs(n3, 0x22);
    Started22(n3);
    ProgramOne(n3, (0x00, 0x22));
    var n4 := n3.(cr := 0x22, stopped := false, rxHalted := false);
    StartIs(n4, rcr);
    ProgramConcat(n, Setup(), Addresses(mac));
    ProgramConcat(n, Setup() + Addresses(mac), [(0x07, 0x47)]);
    ProgramConcat(n, Setup() + Addresses(mac) + [(0x07, 0x47)], Multicasts());
    var most := Setup() + Addresses(mac) + [(0x07, 0x47)] + Multicasts();
    ProgramConcat(n, most, [(0x00, 0x22)]);
    ProgramConcat(n, most + [(0x00, 0x22)], [(0x0d, 0), (0x0c, rcr)]);
    assert InitNormal(mac, rcr) == most + [(0x00, 0x22)] + [(0x0d, 0), (0x0c, rcr)];
  }

  lemma Started22(n: Nic)
    requires n.stopped && n.dma == Idle
    ensures Commanded(n, 0x22) == n.(cr := 0x22, stopped := false, rxHalted := false)
  {
    assert n.isr + {} == n.isr;
  }

  /**
   An initialised card receives: its ring is empty with room for 25 pages, it is not halted whatever it was
   before, and the first frame is queued exactly if RCR and the station address want it and it fits.
   */
  lemma InitialisedReceives(n: Nic, mac: seq<Byte>, rcr: Byte, frame: Frame)
    requires WellFormed(n) && |mac| == 6
    ensures Program(n, InitNormal(mac, rcr)).Done?
    ensures var card := Program(n, InitNormal(mac, rcr)).value;
            && RingOk(card) && Queue(card) == Some([]) && !card.rxHalted && !card.stopped && Capacity(card) == 25
            && Queue(Deliver(card, frame, false)) ==
               Some(if Wanted(rcr, mac, frame) && Size(frame) <= 25 then
                      [Received(if ForAll(frame) || ForGroup(frame) then 0x21 else 0x01, frame)]
                    else [])
  {
    hide Program, InitNormal, Deliver, Wanted, ForAll, ForGroup, Size;
    InitNormalIs(n, mac, rcr);
    var card := Initialised(n, mac, rcr);
    assert Used(card) == 0;
    assert Queue(card) == Some([]);
    WireFrameQueues(card, frame, []);
    var received := Received(if ForAll(frame) || ForGroup(frame) then 0x21 else 0x01, frame);
    assert Pages([]) == 0 && [] + [received] == [received];
  }
}
