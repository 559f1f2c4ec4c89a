/**
 The card as the object it is: registers and packet RAM updated in place.
 Every method is proved to compute the function of the same purpose in NicSpec.
 */
module Rtl8019 {
  import opened Bytes
  import opened NicSpec
  import PageRing

  class Card {
    const quirks: Quirks
    const prom: seq<Byte>
    const ram: array<Byte>
    var par: seq<Byte>
    var cr: Byte
    var isr: set<IsrBit>
    var imr: Byte
    var dcr: Byte
    var tcr: Byte
    var rcr: Byte
    var pstart: Byte
    var pstop: Byte
    var bnry: Byte
    var curr: Byte
    var tpsr: Byte
    var tbcr: Word
    var rsar: Word
    var rbcr: Word
    var crda: Word
    var tsr: Byte
    var rsr: Byte
    var fifo: Byte
    var dma: Dma
    var rxHalted: bool
    var stopped: bool
    var transmitted: seq<Frame>
    var filteredRx: nat
    var overflowEvents: nat
    var rxDelivered: nat
    var oobDma: nat

    ghost predicate Valid() reads this {
      ram.Length == RAM_SIZE && |prom| == 32 && |par| == 6
    }

    ghost function State(): (n: Nic)
      reads this, ram
      requires Valid()
      ensures WellFormed(n)
    {
      Nic(quirks, prom, ram[..], par, cr, isr, imr, dcr, tcr, rcr, pstart, pstop, bnry, curr, tpsr, tbcr, rsar, rbcr,
          crda, tsr, rsr, fifo, dma, rxHalted, stopped, transmitted, filteredRx, overflowEvents, rxDelivered, oobDma)
    }

    constructor (quirks: Quirks, prom: seq<Byte>, mac: seq<Byte>, poison: Byte)
      requires |prom| == 32 && |mac| == 6
      ensures Valid() && fresh(ram)
      ensures State() == Nic(quirks, prom, seq(RAM_SIZE, _ => poison), mac, 0x21, {},
                             0, 0, 0, 0, 0, 0, 0, 0, 0, 0, 0, 0, 0, 0, 0, 0, Idle, false, false, [], 0, 0, 0, 0)
    {
      this.quirks, this.prom, par := quirks, prom, mac;
      ram := new Byte[RAM_SIZE](_ => poison);
      cr, isr, imr, dcr, tcr, rcr := 0x21, {}, 0, 0, 0, 0;
      pstart, pstop, bnry, curr, tpsr, tbcr := 0, 0, 0, 0, 0, 0;
      rsar, rbcr, crda, tsr, rsr, fifo := 0, 0, 0, 0, 0, 0;
      dma, rxHalted, stopped, transmitted := Idle, false, false, [];
      filteredRx, overflowEvents, rxDelivered, oobDma := 0, 0, 0, 0;
      new;
      assert ram[..] == seq(RAM_SIZE, _ => poison);
    }

    // ---- packet RAM ----

    method RamReadNic(addr: nat) returns (value: Byte)
      requires Valid()
      modifies this`oobDma
      ensures Valid() && value == RamRead(old(State()), addr) && State() == RamReadCount(old(State()), addr)
    {
      if addr < RAM_BASE {
        value := prom[addr % |prom|];
      } else if addr < RAM_BASE + RAM_SIZE {
        value := ram[addr - RAM_BASE];
      } else {
        oobDma := oobDma + 1;
        value := quirks.openBusValue;
      }
    }

    method RamWriteNic(addr: nat, value: Byte)
      requires Valid()
      modifies this`oobDma, ram
      ensures Valid() && State() == RamWrite(old(State()), addr, value)
    {
      if RAM_BASE <= addr < RAM_BASE + RAM_SIZE {
        ram[addr - RAM_BASE] := value;
        assert ram[..] == old(ram[..])[addr - RAM_BASE := value];
      } else {
        oobDma := oobDma + 1;
      }
    }

    // ---- receive ----

    /** Writes `bytes` from `addr` on, wrapping from PSTOP to PSTART; returns the address after the last one. */
    method WriteRing(start: nat, bytes: seq<Byte>) returns (addr: nat)
      requires Valid()
      modifies this`oobDma, ram
      ensures Valid() && State() == StoreRun(old(State()), start, bytes)
      ensures addr == StoreAddr(old(State()), start, |bytes|)
    {
      addr := start;
      for i := 0 to |bytes|
        invariant Valid() && State() == StoreRun(old(State()), start, bytes[..i])
        invariant addr == StoreAddr(old(State()), start, i)
      {
        RamWriteNic(addr, bytes[i]);
        assert bytes[..i + 1][..i] == bytes[..i];
        addr := addr + 1;
        if addr >= pstop * 256 {
          addr := pstart * 256;
        }
      }
      assert bytes[..|bytes|] == bytes;
    }

    /** The address filter of RCR. */
    predicate AcceptsFrame(frame: Frame)
      reads this
    {
      if Bit(rcr, 0x20) then false
      else if Broadcast(frame) then Bit(rcr, 0x04)
      else if Multicast(frame) then Bit(rcr, 0x08) || Bit(rcr, 0x10)
      else Bit(rcr, 0x10) || Destination(frame) == par
    }

    predicate Refuses(frame: Frame, loopback: bool)
      reads this, ram
      requires Valid()
      ensures Refuses(frame, loopback) == Filtered(State(), frame, loopback)
    {
      hide Broadcast, Multicast, Destination, Bit;
      !loopback && (rxHalted || Bit(rcr, 0x20) || !AcceptsFrame(frame))
    }

    function CurrPos(): nat
      reads this
      requires pstop > pstart
    {
      (curr - pstart) % (pstop - pstart)
    }

    function FreePages(): nat
      reads this, ram
      requires Valid() && pstop > pstart
      ensures FreePages() == Gap(State())
    {
      ((bnry - pstart) % (pstop - pstart) - CurrPos()) % (pstop - pstart)
    }

    function PageAfter(frame: Frame): (page: Byte)
      reads this, ram
      requires Valid() && pstop > pstart
      ensures page == NextPage(State(), frame)
    {
      pstart + (CurrPos() + PageRing.PagesNeeded(frame)) % (pstop - pstart)
    }

    method CountFiltered()
      requires Valid()
      modifies this`filteredRx
      ensures Valid() && State() == old(State()).(filteredRx := old(filteredRx) + 1)
    {
      filteredRx := filteredRx + 1;
    }

    method HaltOnOverflow()
      requires Valid()
      modifies this`isr, this`rxHalted, this`overflowEvents
      ensures Valid()
      ensures State() == old(State()).(isr := old(isr) + {Ovw}, rxHalted := true,
                                       overflowEvents := old(overflowEvents) + 1)
    {
      isr := isr + {Ovw};
      rxHalted := true;
      overflowEvents := overflowEvents + 1;
    }

    method DeliverFrame(frame: Frame, loopback: bool)
      requires Valid()
      modifies this, ram
      ensures Valid() && State() == Deliver(old(State()), frame, loopback)
    {
      hide StoreRun, Header, Filtered, Gap, NextPage, PageAfter, FreePages, Refuses;
      if Refuses(frame, loopback) {
        CountFiltered();
      } else if pstop - pstart <= 0 {
        CountFiltered();
      } else if PageRing.PagesNeeded(frame) > FreePages() {
        HaltOnOverflow();
      } else {
        StoreFrame(frame, PageAfter(frame));
      }
    }

    /** The accepting end of `deliverFrame`: header, bytes, CURR, PRX. */
    method StoreFrame(frame: Frame, nextPage: Byte)
      requires Valid() && RingSize(State()) > 0 && nextPage == NextPage(State(), frame)
      modifies this, ram
      ensures Valid()
      ensures State() == StoreRun(old(State()), old(curr) * 256, Header(old(State()), frame) + frame)
                         .(curr := nextPage, isr := old(isr) + {Prx}, rxDelivered := old(rxDelivered) + 1)
    {
      var totalLen := |frame| + 4;
      var status := if Broadcast(frame) || Multicast(frame) then 0x21 else 0x01;
      var header := [status, nextPage % 256, totalLen % 256, totalLen / 256 % 256];
      assert header == Header(State(), frame);
      StoreRunConcat(State(), curr * 256, header, frame);
      hide StoreRun, Header, NextPage, Broadcast, Multicast;
      var addr := WriteRing(curr * 256, header);
      addr := WriteRing(addr, frame);
      MoveCurr(nextPage);
    }

    method MoveCurr(page: Byte)
      requires Valid()
      modifies this`curr, this`isr, this`rxDelivered
      ensures Valid()
      ensures State() == old(State()).(curr := page, isr := old(isr) + {Prx}, rxDelivered := old(rxDelivered) + 1)
    {
      curr := page;
      isr := isr + {Prx};
      rxDelivered := rxDelivered + 1;
    }

    // ---- transmit ----

    /** False when the model throws: PSTOP must exceed TPSR. */
    method DoTransmit() returns (ok: bool)
      requires Valid()
      modifies this, ram
      ensures Valid() && ok == Transmit(old(State())).Done?
      ensures ok ==> State() == Transmit(old(State())).value
    {
      hide Route, JsSlice, ClearTxp;
      ok := pstop > tpsr;
      if ok {
        var start := tpsr * 256 - RAM_BASE;
        var frame := JsSlice(ram[..], start, start + tbcr);
        FlagTransmitted();
        SendOrLoop(frame);
        EndTransmit();
      }
    }

    method SendOrLoop(frame: Frame)
      requires Valid()
      modifies this, ram
      ensures Valid() && State() == Route(old(State()), frame)
    {
      hide Deliver, Bit;
      if !((Bit(tcr, 2) || Bit(tcr, 4)) && !Bit(dcr, 8)) {
        transmitted := transmitted + [frame];
      } else if quirks.loopbackToRing {
        DeliverFrame(frame, true);
      } else {
        LoopToFifo(frame);
      }
    }

    method FlagTransmitted()
      requires Valid()
      modifies this`isr, this`tsr
      ensures Valid() && State() == old(State()).(isr := old(isr) + {Ptx}, tsr := 1)
    {
      isr := isr + {Ptx};
      tsr := 1;
    }

    method EndTransmit()
      requires Valid()
      modifies this`cr
      ensures Valid() && State() == old(State()).(cr := ClearTxp(old(cr)))
    {
      cr := ClearTxp(cr);
    }

    /** Loopback on a card whose loopback path does not reach the ring. */
    method LoopToFifo(frame: Frame)
      requires Valid() && !quirks.loopbackToRing
      modifies this`isr, this`rsr, this`fifo
      ensures Valid()
      ensures State() == if quirks.loopbackSilent then old(State()).(isr := old(isr) + {Cnt})
                         else old(State()).(isr := old(isr) + {Rxe}, rsr := 1,
                                            fifo := if frame == [] then 0 else frame[|frame| - 1])
    {
      if quirks.loopbackSilent {
        isr := isr + {Cnt};
      } else {
        isr := isr + {Rxe};
        rsr := 1;
        fifo := if frame == [] then 0 else frame[|frame| - 1];
      }
    }

    // ---- command register and remote DMA ----

    method WriteCommand(value: Byte) returns (ok: bool)
      requires Valid()
      modifies this, ram
      ensures Valid() && ok == WriteCr(old(State()), value).Done?
      ensures ok ==> State() == WriteCr(old(State()), value).value
    {
      hide Transmit, Bit, StartStop, RemoteDmaCommand;
      SetCommand(value);
      StartOrStop(value);
      CommandDma(value);
      ok := true;
      if Bit(value, 4) {
        ok := DoTransmit();
      }
    }

    method SetCommand(value: Byte)
      requires Valid()
      modifies this`cr
      ensures Valid() && State() == old(State()).(cr := value)
    {
      cr := value;
    }

    method StartOrStop(value: Byte)
      requires Valid()
      modifies this`stopped, this`isr, this`rxHalted
      ensures Valid() && State() == StartStop(old(State()), value)
    {
      hide Bit;
      if Bit(value, 1) {
        stopped := true;
        if quirks.isrRstOnStop {
          isr := isr + {Rst};
        }
      } else if Bit(value, 2) && stopped {
        stopped := false;
        rxHalted := false;
      }
    }

    method CommandDma(value: Byte)
      requires Valid()
      modifies this`crda, this`dma, this`isr
      ensures Valid() && State() == RemoteDmaCommand(old(State()), value)
    {
      var rd := value / 8 % 8;
      if rd == 1 || rd == 2 {
        if dma.Idle? {
          crda := rsar;
        }
        dma := if rd == 1 then Reading else Writing;
        if rbcr == 0 {
          FinishDma();
        }
      } else if rd == 4 {
        dma := Idle;
      }
    }

    method FinishDma()
      requires Valid()
      modifies this`isr, this`dma
      ensures Valid() && State() == old(State()).(isr := old(isr) + {Rdc}, dma := Idle)
    {
      isr := isr + {Rdc};
      dma := Idle;
    }

    method AdvanceDma()
      requires Valid() && rbcr > 0
      modifies this`crda, this`rbcr, this`isr, this`dma
      ensures Valid() && State() == DmaAdvance(old(State()))
    {
      crda := (crda + 1) % 0x1_0000;
      rbcr := rbcr - 1;
      if rbcr == 0 {
        FinishDma();
      }
    }

    /** False when the model throws: no read transfer is active. */
    method ReadDataPort() returns (ok: bool, value: Byte)
      requires Valid()
      modifies this
      ensures Valid() && ok == ReadData(old(State())).Done?
      ensures ok ==> (State(), value) == ReadData(old(State())).value
    {
      if !dma.Reading? || rbcr <= 0 {
        return false, quirks.openBusValue;
      }
      value := RamReadNic(crda);
      AdvanceDma();
      ok := true;
    }

    /** False when the model throws: no write transfer is active. */
    method WriteDataPort(value: Byte) returns (ok: bool)
      requires Valid()
      modifies this, ram
      ensures Valid() && ok == WriteData(old(State()), value).Done?
      ensures ok ==> State() == WriteData(old(State()), value).value
    {
      if !dma.Writing? || rbcr <= 0 {
        return false;
      }
      RamWriteNic(crda, value);
      AdvanceDma();
      ok := true;
    }

    // ---- register file ----

    method WriteRegister(offset: nat, value: Byte) returns (ok: bool)
      requires Valid()
      modifies this, ram
      ensures Valid() && ok == WriteReg(old(State()), offset, value).Done?
      ensures ok ==> State() == WriteReg(old(State()), offset, value).value
    {
      hide WriteCr, WriteData, WritePage0, WritePage1;
      if offset == 0x00 {
        ok := WriteCommand(value);
      } else if offset == 0x10 {
        ok := WriteDataPort(value);
      } else if offset == 0x1f {
        ok := true;
      } else if cr / 64 == 0 {
        ok := WriteOnPage0(offset, value);
      } else if cr / 64 == 1 {
        ok := WriteOnPage1(offset, value);
      } else {
        ok := cr / 64 == 3 && 1 <= offset <= 2;
      }
    }

    method WriteOnPage0(offset: nat, value: Byte) returns (ok: bool)
      requires Valid()
      modifies this
      ensures Valid() && ok == WritePage0(old(State()), offset, value).Done?
      ensures ok ==> State() == WritePage0(old(State()), offset, value).value
    {
      if offset < 5 {
        ok := WriteRingRegister(offset, value);
      } else if offset < 0x0c {
        ok := WriteLengthRegister(offset, value);
      } else {
        ok := WriteModeRegister(offset, value);
      }
    }

    method WriteRingRegister(offset: nat, value: Byte) returns (ok: bool)
      requires Valid() && offset < 5
      modifies this
      ensures Valid() && ok == WritePage0(old(State()), offset, value).Done?
      ensures ok ==> State() == WritePage0(old(State()), offset, value).value
    {
      hide SetLow, SetHigh, IsrBits, Bit;
      ok := true;
      match offset
      case 0x01 => pstart := value;
      case 0x02 => pstop := value;
      case 0x03 => bnry := value;
      case 0x04 => tpsr := value;
      case _ => ok := false;
    }

    method WriteLengthRegister(offset: nat, value: Byte) returns (ok: bool)
      requires Valid() && 5 <= offset < 0x0c
      modifies this
      ensures Valid() && ok == WritePage0(old(State()), offset, value).Done?
      ensures ok ==> State() == WritePage0(old(State()), offset, value).value
    {
      hide SetLow, SetHigh, IsrBits;
      ok := true;
      match offset
      case 0x05 => tbcr := SetLow(tbcr, value);
      case 0x06 => tbcr := SetHigh(tbcr, value);
      case 0x07 => isr := isr - IsrBits(value);
      case 0x08 => rsar := SetLow(rsar, value);
      case 0x09 => rsar := SetHigh(rsar, value);
      case 0x0a => rbcr := SetLow(rbcr, value);
      case 0x0b => rbcr := SetHigh(rbcr, value);
      case _ => ok := false;
    }

    method WriteModeRegister(offset: nat, value: Byte) returns (ok: bool)
      requires Valid() && 0x0c <= offset
      modifies this
      ensures Valid() && ok == WritePage0(old(State()), offset, value).Done?
      ensures ok ==> State() == WritePage0(old(State()), offset, value).value
    {
      hide SetLow, SetHigh, IsrBits, Bit;
      ok := true;
      match offset
      case 0x0c => rcr := value;
      case 0x0d => tcr := value;
      case 0x0e =>
        if Bit(value, 1) {
          ok := false;
        } else {
          dcr := value;
        }
      case 0x0f => imr := value;
      case _ => ok := false;
    }

    method WriteOnPage1(offset: nat, value: Byte) returns (ok: bool)
      requires Valid()
      modifies this`par, this`curr
      ensures Valid() && ok == WritePage1(old(State()), offset, value).Done?
      ensures ok ==> State() == WritePage1(old(State()), offset, value).value
    {
      ok := true;
      if 1 <= offset <= 6 {
        par := par[offset - 1 := value];
      } else if offset == 7 {
        curr := value;
      } else {
        ok := 8 <= offset <= 0x0f;
      }
    }
  }

  /** Two runs of writes, the second from where the first one ended, are one run. */
  lemma {:induction false} StoreRunConcat(n: Nic, addr: nat, a: seq<Byte>, b: seq<Byte>)
    requires WellFormed(n)
    ensures StoreRun(StoreRun(n, addr, a), StoreAddr(n, addr, |a|), b) == StoreRun(n, addr, a + b)
    decreases |b|
  {
    if b == [] {
      assert a + b == a;
    } else {
      var init := b[..|b| - 1];
      StoreRunConcat(n, addr, a, init);
      assert (a + b)[..|a + b| - 1] == a + init;
      StoreAddrConcat(n, StoreRun(n, addr, a), addr, |a|, |init|);
    }
  }

  lemma {:induction false} StoreAddrConcat(n: Nic, n': Nic, addr: nat, i: nat, j: nat)
    requires n'.pstart == n.pstart && n'.pstop == n.pstop
    ensures StoreAddr(n', StoreAddr(n, addr, i), j) == StoreAddr(n, addr, i + j)
  {
    if j > 0 {
      StoreAddrConcat(n, n', addr, i, j - 1);
    }
  }
}
