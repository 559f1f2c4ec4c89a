/** Which frames the card keeps: RCR, the station address and the free pages decide, and nothing else. */
module AddressFilter {
  import opened Bytes
  import opened PageRing
  import opened NicSpec
  import opened ReceiveRing

  /** Every byte of the destination address is 0xFF, as far as the frame has one. */
  predicate ForAll(frame: Frame) {
    forall i :: 0 <= i < |frame| && i < 6 ==> frame[i] == 0xFF
  }

  /** The group bit of the destination address. */
  predicate ForGroup(frame: Frame) {
    frame != [] && frame[0] % 2 == 1
  }

  predicate ForStation(par: seq<Byte>, frame: Frame) {
    |frame| >= 6 && frame[..6] == par
  }

  /** What the bits of RCR ask for: 0x20 monitor, 0x10 promiscuous, 0x08 multicast, 0x04 broadcast. */
  predicate Wanted(rcr: Byte, par: seq<Byte>, frame: Frame) {
    && rcr / 0x20 % 2 == 0
    && if ForAll(frame) then rcr / 4 % 2 == 1
       else rcr / 0x10 % 2 == 1 || if ForGroup(frame) then rcr / 8 % 2 == 1 else ForStation(par, frame)
  }

  /** The pages of a frame with its header of four bytes. */
  function Size(frame: Frame): nat {
    (|frame| + 4 + 255) / 256
  }

  lemma FilterIs(n: Nic, frame: Frame)
    requires WellFormed(n)
    ensures Filtered(n, frame, false) <==> n.rxHalted || !Wanted(n.rcr, n.par, frame)
    ensures !Filtered(n, frame, true)
    ensures Status(frame) == if ForAll(frame) || ForGroup(frame) then 0x21 else 0x01
  {
    var destination := Destination(frame);
    assert ForAll(frame) <==> Broadcast(frame) by {
      assert forall i :: 0 <= i < |destination| ==> destination[i] == frame[i];
    }
  }

  lemma RoomIs(n: Nic, frame: Frame)
    requires RingSize(n) > 0
    ensures PagesNeeded(frame) == Size(frame) && Gap(n) == (n.bnry - n.curr) % RingSize(n)
  {
    hide RingSize;
    SameRemainder(n.bnry, n.curr, n.pstart, RingSize(n));
  }

  lemma SameRemainder(a: int, b: int, c: int, r: int)
    requires r > 0
    ensures ((a - c) % r - (b - c) % r) % r == (a - b) % r
  {
    var p, q, k := (a - c) / r, (b - c) / r, (a - b) / r;
    var x, y := (a - c) % r - (b - c) % r, (a - b) % r;
    assert a - c == r * p + (a - c) % r && b - c == r * q + (b - c) % r && a - b == r * k + y;
    assert x == r * (k - p + q) + y;
    RemainderIs(x, r, k - p + q, y);
  }

  lemma RemainderIs(x: int, r: int, k: int, y: int)
    requires r > 0 && 0 <= y < r && x == r * k + y
    ensures x % r == y
  {
    var j := x / r;
    assert x == r * j + x % r;
    assert r * (j - k) == y - x % r;
    assert j - k >= 1 ==> r * (j - k) >= r;
    assert j - k <= -1 ==> r * (j - k) <= -r;
  }

  /**
   What becomes of a frame: it is stored, it halts reception for want of room, or it is counted as
   filtered, and each exactly in its case.
   */
  lemma OneFrame(n: Nic, frame: Frame, loopback: bool)
    requires WellFormed(n)
    ensures var n' := Deliver(n, frame, loopback);
            var taken := (loopback || (!n.rxHalted && Wanted(n.rcr, n.par, frame))) && n.pstop > n.pstart;
            var room := taken && Size(frame) <= (n.bnry - n.curr) % (n.pstop - n.pstart);
            && n'.rxDelivered == n.rxDelivered + (if taken && room then 1 else 0)
            && n'.overflowEvents == n.overflowEvents + (if taken && !room then 1 else 0)
            && n'.filteredRx == n.filteredRx + (if !taken then 1 else 0)
            && n'.isr == n.isr + (if !taken then {} else if room then {Prx} else {Ovw})
            && n'.rxHalted == (n.rxHalted || (taken && !room))
            && ((taken && room) || (n'.ram == n.ram && n'.curr == n.curr))
  {
    hide Filtered, Wanted, Gap, PagesNeeded, Header, NextPage, Size, StoreRun;
    FilterIs(n, frame);
    if RingSize(n) > 0 {
      RoomIs(n, frame);
    }
  }

  /** The queue of a running card after a frame from the wire. */
  lemma WireFrameQueues(n: Nic, frame: Frame, q: seq<Received>)
    requires RingOk(n) && Queue(n) == Some(q) && !n.rxHalted
    ensures Queue(Deliver(n, frame, false)) ==
            Some(if Wanted(n.rcr, n.par, frame) && Pages(q) + Size(frame) < n.pstop - n.pstart then
                   q + [Received(if ForAll(frame) || ForGroup(frame) then 0x21 else 0x01, frame)]
                 else q)
  {
    hide Filtered, Deliver, Queue, Pages, Wanted, Status;
    FilterIs(n, frame);
    RoomIs(n, frame);
    DeliveryPushes(n, frame, false, q);
  }
}
