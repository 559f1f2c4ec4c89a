/**
 The receive ring of the card refines a bounded FIFO queue of frames.
 The queue is read back from packet RAM alone: start at the page after BNRY and follow the
 links of the headers until CURR.
 */
module ReceiveRing {
  import opened Bytes
  import opened PageRing
  import opened NicSpec

  /** The ring lies inside packet RAM and both of its pointers lie inside the ring. */
  ghost predicate RingOk(n: Nic) {
    && WellFormed(n)
    && 0x40 <= n.pstart < n.pstop <= 0x80
    && n.pstart <= n.bnry < n.pstop
    && n.pstart <= n.curr < n.pstop
  }

  function RamIndex(page: int): int {
    page * 256 - RAM_BASE
  }

  function RingOf(n: Nic): (g: Ring)
    requires RingOk(n)
    ensures Valid(g) && g.base == n.pstart && g.pages == RingSize(n)
  {
    Ring(n.pstart, RingSize(n), n.ram[RamIndex(n.pstart)..RamIndex(n.pstop)])
  }

  function BnryPos(n: Nic): nat
    requires RingOk(n)
  {
    n.bnry - n.pstart
  }

  function CurrPos(n: Nic): nat
    requires RingOk(n)
  {
    n.curr - n.pstart
  }

  /** The page after BNRY, where the oldest unread frame starts. */
  function First(n: Nic): nat
    requires RingOk(n)
  {
    Turn(RingSize(n), BnryPos(n) + 1)
  }

  /** Unread pages, from the page after BNRY up to CURR. */
  function Used(n: Nic): (u: nat)
    requires RingOk(n)
    ensures u < RingSize(n)
  {
    Ahead(RingSize(n), First(n), CurrPos(n))
  }

  function Queue(n: Nic): Option<seq<Received>>
    requires RingOk(n)
  {
    Decode(RingOf(n), First(n), Used(n))
  }

  lemma QueueIs(n: Nic)
    requires RingOk(n)
    ensures WellFormed(n) && First(n) < RingSize(n) && Queue(n) == Decode(RingOf(n), First(n), Used(n))
  {
  }

  function Capacity(n: Nic): nat
    requires RingOk(n)
  {
    RingSize(n) - 1
  }

  lemma GapIs(n: Nic)
    requires RingOk(n)
    ensures PosOf(n, n.bnry) == BnryPos(n) && PosOf(n, n.curr) == CurrPos(n)
    ensures Gap(n) == Ahead(RingSize(n), CurrPos(n), BnryPos(n)) == Capacity(n) - Used(n)
    ensures CurrPos(n) == Turn(RingSize(n), First(n) + Used(n))
  {
    ModuloOnce(BnryPos(n), RingSize(n));
    ModuloOnce(CurrPos(n), RingSize(n));
    ModuloOnce(n.bnry - n.curr, RingSize(n));
  }

  lemma NextPageIs(n: Nic, frame: Frame)
    requires RingOk(n) && PagesNeeded(frame) < RingSize(n)
    ensures NextPage(n, frame) == n.pstart + Turn(RingSize(n), CurrPos(n) + PagesNeeded(frame))
  {
    GapIs(n);
    ModuloOnce(CurrPos(n) + PagesNeeded(frame), RingSize(n));
  }

  // ---- what one run of writes does to packet RAM ----

  lemma {:induction false} StoreAddrIs(n: Nic, x: nat, k: nat)
    requires RingOk(n) && x < 256 * RingSize(n) && k <= 256 * RingSize(n)
    ensures StoreAddr(n, n.pstart * 256 + x, k) == n.pstart * 256 + Turn(256 * RingSize(n), x + k)
  {
    if k > 0 {
      StoreAddrIs(n, x, k - 1);
    }
  }

  /** Byte `x` of the ring after `bytes` went in from position `from` on. */
  function Overlaid(ring: seq<Byte>, from: nat, bytes: seq<Byte>, x: nat): Byte
    requires from < |ring| && x < |ring|
  {
    if Ahead(|ring|, from, x) < |bytes| then bytes[Ahead(|ring|, from, x)] else ring[x]
  }

  ghost predicate OutsideSame(n: Nic, n': Nic)
    requires RingOk(n) && |n'.ram| == RAM_SIZE
  {
    n'.ram[..RamIndex(n.pstart)] == n.ram[..RamIndex(n.pstart)] &&
    n'.ram[RamIndex(n.pstop)..] == n.ram[RamIndex(n.pstop)..]
  }

  /** Every byte of RAM after `bytes` went into the ring from position `from` on. */
  lemma {:induction false} StoreRunEffect(n: Nic, from: nat, bytes: seq<Byte>)
    requires RingOk(n) && from < 256 * RingSize(n) && |bytes| <= 256 * RingSize(n)
    ensures var n' := StoreRun(n, n.pstart * 256 + from, bytes);
            && n' == n.(ram := n'.ram)
            && OutsideSame(n, n')
            && (forall x :: 0 <= x < 256 * RingSize(n) ==>
                  RingOf(n').bytes[x] == Overlaid(RingOf(n).bytes, from, bytes, x))
    decreases |bytes|
  {
    if bytes != [] {
      var shorter := bytes[..|bytes| - 1];
      StoreRunEffect(n, from, shorter);
      StoreAddrIs(n, from, |bytes| - 1);
      StoreOne(n, StoreRun(n, n.pstart * 256 + from, shorter), from, bytes);
    }
  }

  lemma StoreOne(n: Nic, before: Nic, from: nat, bytes: seq<Byte>)
    requires RingOk(n) && from < 256 * RingSize(n) && 0 < |bytes| <= 256 * RingSize(n)
    requires WellFormed(before) && before == n.(ram := before.ram) && OutsideSame(n, before)
    requires forall x :: 0 <= x < 256 * RingSize(n) ==>
               RingOf(before).bytes[x] == Overlaid(RingOf(n).bytes, from, bytes[..|bytes| - 1], x)
    ensures var addr := n.pstart * 256 + Turn(256 * RingSize(n), from + |bytes| - 1);
            var n' := RamWrite(before, addr, bytes[|bytes| - 1]);
            && n' == n.(ram := n'.ram)
            && OutsideSame(n, n')
            && (forall x :: 0 <= x < 256 * RingSize(n) ==>
                  RingOf(n').bytes[x] == Overlaid(RingOf(n).bytes, from, bytes, x))
  {
    var at := Turn(256 * RingSize(n), from + |bytes| - 1);
    var n' := RamWrite(before, n.pstart * 256 + at, bytes[|bytes| - 1]);
    assert n'.ram == before.ram[RamIndex(n.pstart) + at := bytes[|bytes| - 1]];
    assert RingOf(n').bytes == RingOf(before).bytes[at := bytes[|bytes| - 1]];
  }

  // ---- a frame arrives ----

  predicate Fits(n: Nic, frame: Frame)
    requires RingOk(n)
  {
    PagesNeeded(frame) <= Gap(n)
  }

  function Stored(n: Nic, frame: Frame): Nic
    requires RingOk(n)
  {
    StoreRun(n, n.curr * 256, Header(n, frame) + frame)
  }

  lemma StoredBytes(n: Nic, frame: Frame, p: nat, t: nat)
    requires RingOk(n) && Fits(n, frame) && p < RingSize(n) && t < 256 * RingSize(n)
    ensures var bytes := Header(n, frame) + frame;
            && RingOk(Stored(n, frame)) && RingSize(Stored(n, frame)) == RingSize(n)
            && AreaByte(RingOf(Stored(n, frame)), p, t) ==
               Overlaid(RingOf(n).bytes, 256 * CurrPos(n), bytes, Turn(256 * RingSize(n), 256 * p + t))
  {
    GapIs(n);
    StoreRunEffect(n, 256 * CurrPos(n), Header(n, frame) + frame);
  }

  /** The unread pages and, after them, the BNRY page lie further from CURR than `room` pages reach. */
  lemma UnreadIsFar(pages: nat, first: nat, used: nat, p: nat, t: nat)
    requires first < pages && used < pages && p < pages
    requires (p == first && t < 256 * used) || (Turn(pages, p + 1) == first && t < 256)
    ensures var size, curr := 256 * pages, Turn(pages, first + used);
            Ahead(size, 256 * curr, Turn(size, 256 * p + t)) >= 256 * (pages - 1 - used)
  {
  }

  lemma StoredKeeps(n: Nic, frame: Frame, p: nat, t: nat)
    requires RingOk(n) && Fits(n, frame)
    requires (p == First(n) && t < 256 * Used(n)) || (p == BnryPos(n) && t < 256)
    ensures RingOk(Stored(n, frame)) && RingSize(Stored(n, frame)) == RingSize(n)
    ensures AreaByte(RingOf(Stored(n, frame)), p, t) == AreaByte(RingOf(n), p, t)
  {
    hide *;
    StoredElsewhere(n, frame, p, t);
    StoredBytes(n, frame, p, t);
  }

  lemma StoredElsewhere(n: Nic, frame: Frame, p: nat, t: nat)
    requires RingOk(n) && Fits(n, frame)
    requires (p == First(n) && t < 256 * Used(n)) || (p == BnryPos(n) && t < 256)
    ensures p < RingSize(n) && t < 256 * RingSize(n)
    ensures AreaByte(RingOf(n), p, t) ==
            Overlaid(RingOf(n).bytes, 256 * CurrPos(n), Header(n, frame) + frame, Turn(256 * RingSize(n), 256 * p + t))
  {
    hide RingOf;
    GapIs(n);
    UnreadIsFar(RingSize(n), First(n), Used(n), p, t);
  }

  /** A delivery never overwrites an unread page, the BNRY page or anything outside the ring. */
  lemma DeliveryOverwritesNothing(n: Nic, frame: Frame, loopback: bool)
    requires RingOk(n)
    ensures var n' := Deliver(n, frame, loopback);
            && RingOk(n') && RingSize(n') == RingSize(n) && OutsideSame(n, n')
            && SameArea(RingOf(n), RingOf(n'), First(n), Used(n))
            && (forall t :: 0 <= t < 256 ==>
                  AreaByte(RingOf(n'), BnryPos(n), t) == AreaByte(RingOf(n), BnryPos(n), t))
  {
    hide Filtered, Fits, StoreRun, AreaByte, Used, First, Gap, NextPage, Header;
    if !Filtered(n, frame, loopback) && Fits(n, frame) {
      StoredRing(n, frame, loopback);
      StoredOutside(n, frame, loopback);
      StoredUnread(n, frame);
    } else {
      DeliveryRefused(n, frame, loopback);
    }
  }

  lemma StoredOutside(n: Nic, frame: Frame, loopback: bool)
    requires RingOk(n) && !Filtered(n, frame, loopback) && Fits(n, frame)
    ensures OutsideSame(n, Deliver(n, frame, loopback))
  {
    LayoutIs(n, frame);
    GapIs(n);
    StoreRunEffect(n, 256 * CurrPos(n), Header(n, frame) + frame);
  }

  lemma StoredUnread(n: Nic, frame: Frame)
    requires RingOk(n) && Fits(n, frame)
    ensures RingOk(Stored(n, frame)) && RingSize(Stored(n, frame)) == RingSize(n)
    ensures SameArea(RingOf(n), RingOf(Stored(n, frame)), First(n), Used(n))
    ensures forall t :: 0 <= t < 256 ==>
              AreaByte(RingOf(Stored(n, frame)), BnryPos(n), t) == AreaByte(RingOf(n), BnryPos(n), t)
  {
    hide AreaByte, Stored, RingOf, Fits;
    StoredKeeps(n, frame, BnryPos(n), 0);
    var g' := RingOf(Stored(n, frame));
    forall t | 0 <= t < 256 * Used(n)
      ensures AreaByte(g', First(n), t) == AreaByte(RingOf(n), First(n), t)
    {
      StoredKeeps(n, frame, First(n), t);
    }
    forall t | 0 <= t < 256
      ensures AreaByte(g', BnryPos(n), t) == AreaByte(RingOf(n), BnryPos(n), t)
    {
      StoredKeeps(n, frame, BnryPos(n), t);
    }
  }

  function Layout(n: Nic, frame: Frame): seq<int>
    requires RingOk(n) && Fits(n, frame)
  {
    GapIs(n);
    [Status(frame), n.pstart + Turn(RingSize(n), CurrPos(n) + PagesNeeded(frame)),
     (|frame| + 4) % 256, (|frame| + 4) / 256] + frame
  }

  lemma LayoutIs(n: Nic, frame: Frame)
    requires RingOk(n) && Fits(n, frame)
    ensures PagesNeeded(frame) < RingSize(n) && |frame| + 4 <= 256 * PagesNeeded(frame)
    ensures Header(n, frame) + frame == Layout(n, frame)
  {
    hide Status, NextPage, Turn, Ahead;
    GapIs(n);
    FramePages(n, frame);
    NextPageIs(n, frame);
    HighByte(|frame| + 4);
    PageByte(n, CurrPos(n) + PagesNeeded(frame));
  }

  lemma FramePages(n: Nic, frame: Frame)
    requires RingOk(n) && Fits(n, frame)
    ensures PagesNeeded(frame) < RingSize(n) && |frame| + 4 <= 256 * PagesNeeded(frame) < 0x1_0000
  {
    GapIs(n);
  }

  lemma HighByte(x: nat)
    requires x < 0x1_0000
    ensures x / 256 % 256 == x / 256
  {
  }

  lemma PageByte(n: Nic, p: nat)
    requires RingOk(n) && p < 2 * RingSize(n)
    ensures (n.pstart + Turn(RingSize(n), p)) % 256 == n.pstart + Turn(RingSize(n), p)
  {
  }

  lemma OverlaidAt(ring: seq<Byte>, from: nat, bytes: seq<Byte>, t: nat)
    requires from < |ring| && t < |bytes| <= |ring|
    ensures Overlaid(ring, from, bytes, Turn(|ring|, from + t)) == bytes[t]
  {
  }

  lemma StoredLaidOut(n: Nic, frame: Frame, t: nat)
    requires RingOk(n) && Fits(n, frame) && t < |frame| + 4
    ensures RingOk(Stored(n, frame)) && RingSize(Stored(n, frame)) == RingSize(n)
    ensures |frame| + 4 < 256 * RingSize(n)
    ensures AreaByte(RingOf(Stored(n, frame)), CurrPos(n), t) == Layout(n, frame)[t]
  {
    LayoutIs(n, frame);
    StoredBytes(n, frame, CurrPos(n), t);
    OverlaidAt(RingOf(n).bytes, 256 * CurrPos(n), Header(n, frame) + frame, t);
    hide *;
  }

  lemma OverlaidBeyond(ring: seq<Byte>, from: nat, bytes: seq<Byte>, t: nat)
    requires from < |ring| && |bytes| <= t < |ring|
    ensures Overlaid(ring, from, bytes, Turn(|ring|, from + t)) == ring[Turn(|ring|, from + t)]
  {
  }

  lemma StoredBeyond(n: Nic, frame: Frame, t: nat)
    requires RingOk(n) && Fits(n, frame) && |frame| + 4 <= t < 256 * RingSize(n)
    ensures RingOk(Stored(n, frame)) && RingSize(Stored(n, frame)) == RingSize(n)
    ensures AreaByte(RingOf(Stored(n, frame)), CurrPos(n), t) == AreaByte(RingOf(n), CurrPos(n), t)
  {
    LayoutIs(n, frame);
    StoredBytes(n, frame, CurrPos(n), t);
    OverlaidBeyond(RingOf(n).bytes, 256 * CurrPos(n), Header(n, frame) + frame, t);
    hide Stored, Gap, NextPage, PagesNeeded, Overlaid;
  }

  /** A stored frame takes its own bytes from CURR on and no other byte of the ring. */
  lemma DeliveryKeepsRest(n: Nic, frame: Frame)
    requires RingOk(n) && Fits(n, frame)
    ensures var n' := Deliver(n, frame, true);
            && RingOk(n') && RingSize(n') == RingSize(n) && CurrPos(n) < RingSize(n)
            && forall t :: |frame| + 4 <= t < 256 * RingSize(n) ==>
                 AreaByte(RingOf(n'), CurrPos(n), t) == AreaByte(RingOf(n), CurrPos(n), t)
  {
    hide Deliver, Fits, AreaByte, Stored;
    GapIs(n);
    StoredRing(n, frame, true);
    forall t | |frame| + 4 <= t < 256 * RingSize(n)
      ensures AreaByte(RingOf(Deliver(n, frame, true)), CurrPos(n), t) == AreaByte(RingOf(n), CurrPos(n), t)
    {
      StoredBeyond(n, frame, t);
    }
  }

  lemma StoredFrameDecodes(n: Nic, frame: Frame)
    requires RingOk(n) && Fits(n, frame)
    ensures RingOk(Stored(n, frame)) && RingSize(Stored(n, frame)) == RingSize(n) && PagesNeeded(frame) < RingSize(n)
    ensures Decode(RingOf(Stored(n, frame)), CurrPos(n), PagesNeeded(frame)) == Some([Received(Status(frame), frame)])
  {
    StoredLaidOut(n, frame, 0);
    LayoutIs(n, frame);
    hide AreaByte, Decode, Stored, Gap, RingOf, Status, PagesNeeded;
    var g := RingOf(Stored(n, frame));
    var bytes := Layout(n, frame);
    forall t | 0 <= t < |bytes|
      ensures AreaByte(g, CurrPos(n), t) == bytes[t]
    {
      StoredLaidOut(n, frame, t);
    }
    LaidOutFrameDecodes(g, CurrPos(n), Status(frame), frame);
  }

  lemma StoredRing(n: Nic, frame: Frame, loopback: bool)
    requires RingOk(n) && !Filtered(n, frame, loopback) && Fits(n, frame)
    ensures var n' := Deliver(n, frame, loopback);
            && RingOk(n') && RingOk(Stored(n, frame)) && RingOf(n') == RingOf(Stored(n, frame))
            && n'.pstart == n.pstart && n'.pstop == n.pstop && n'.bnry == n.bnry
            && CurrPos(n') == Turn(RingSize(n), CurrPos(n) + PagesNeeded(frame))
  {
    LayoutIs(n, frame);
    NextPageIs(n, frame);
    StoreRunEffect(n, 256 * CurrPos(n), Header(n, frame) + frame);
  }

  lemma StoredQueue(n: Nic, frame: Frame, n': Nic)
    requires RingOk(n) && Fits(n, frame)
    requires RingOk(n') && n'.pstart == n.pstart && n'.pstop == n.pstop && n'.bnry == n.bnry
    requires PagesNeeded(frame) < RingSize(n)
    requires CurrPos(n') == Turn(RingSize(n), CurrPos(n) + PagesNeeded(frame))
    ensures RingSize(n') == RingSize(n) && Capacity(n') == Capacity(n)
    ensures Used(n) + PagesNeeded(frame) < RingSize(n)
    ensures Queue(n') == Decode(RingOf(n'), First(n), Used(n) + PagesNeeded(frame))
    ensures CurrPos(n) == Turn(RingSize(n), First(n) + Used(n))
  {
    hide Decode, PagesNeeded, RingOf, Gap;
    GapIs(n);
    GapIs(n');
  }

  lemma DeliveryAppends(n: Nic, frame: Frame, loopback: bool, q: seq<Received>)
    requires RingOk(n) && Queue(n) == Some(q) && !Filtered(n, frame, loopback) && Fits(n, frame)
    ensures var n' := Deliver(n, frame, loopback);
            && RingOk(n') && Capacity(n') == Capacity(n)
            && Queue(n') == Some(q + [Received(Status(frame), frame)])
  {
    hide *;
    QueueIs(n);
    var n' := Deliver(n, frame, loopback);
    StoredFrameDecodes(n, frame);
    StoredRing(n, frame, loopback);
    StoredQueue(n, frame, n');
    DeliveryOverwritesNothing(n, frame, loopback);
    DecodeSame(RingOf(n), RingOf(n'), First(n), Used(n));
    DecodeConcat(RingOf(n'), First(n), Used(n), PagesNeeded(frame), q, [Received(Status(frame), frame)]);
  }

  lemma DeliveryRefused(n: Nic, frame: Frame, loopback: bool)
    requires RingOk(n) && (Filtered(n, frame, loopback) || !Fits(n, frame))
    ensures var n' := Deliver(n, frame, loopback);
            && RingOk(n') && Capacity(n') == Capacity(n) && Queue(n') == Queue(n)
            && RingOf(n') == RingOf(n) && n'.ram == n.ram
  {
    hide Decode;
    assert RingOf(Deliver(n, frame, loopback)) == RingOf(n);
  }

  lemma FitsIs(n: Nic, frame: Frame, q: seq<Received>)
    requires RingOk(n) && Queue(n) == Some(q)
    ensures Fits(n, frame) <==> Pages(q) + PagesNeeded(frame) <= Capacity(n)
  {
    GapIs(n);
    DecodePages(RingOf(n), First(n), Used(n));
  }

  /** A frame that passes the filter joins the end of the queue, or finds the queue too full. */
  lemma DeliveryPushes(n: Nic, frame: Frame, loopback: bool, q: seq<Received>)
    requires RingOk(n) && Queue(n) == Some(q)
    ensures var n' := Deliver(n, frame, loopback);
            && RingOk(n') && Capacity(n') == Capacity(n)
            && Queue(n') == Some(if Filtered(n, frame, loopback) || Pages(q) + PagesNeeded(frame) > Capacity(n) then q
                                 else q + [Received(Status(frame), frame)])
  {
    hide *;
    FitsIs(n, frame, q);
    if !Filtered(n, frame, loopback) && Fits(n, frame) {
      DeliveryAppends(n, frame, loopback, q);
    } else {
      DeliveryRefused(n, frame, loopback);
    }
  }

  // ---- the host releases frames ----

  /** The BNRY value that releases the first `k` frames: the page before the next one's header. */
  function ReleasePage(n: Nic, q: seq<Received>, k: nat): int
    requires RingOk(n) && k <= |q| && Pages(q[..k]) < RingSize(n)
  {
    n.pstart + Turn(RingSize(n), BnryPos(n) + Pages(q[..k]))
  }

  lemma ReleaseMoves(n: Nic, k: nat)
    requires RingOk(n) && k <= Used(n)
    ensures var n' := n.(bnry := n.pstart + Turn(RingSize(n), BnryPos(n) + k));
            && RingOk(n') && Capacity(n') == Capacity(n)
            && Queue(n') == Decode(RingOf(n), Turn(RingSize(n), First(n) + k), Used(n) - k)
  {
    hide Decode;
    var n' := n.(bnry := n.pstart + Turn(RingSize(n), BnryPos(n) + k));
    assert RingOf(n') == RingOf(n);
  }

  /** Moving BNRY to the page before a frame boundary drops exactly the frames before that boundary. */
  lemma ReleasePops(n: Nic, q: seq<Received>, k: nat)
    requires RingOk(n) && Queue(n) == Some(q) && k <= |q|
    ensures Pages(q[..k]) < RingSize(n)
    ensures var n' := n.(bnry := ReleasePage(n, q, k));
            RingOk(n') && Capacity(n') == Capacity(n) && Queue(n') == Some(q[k..])
  {
    hide *;
    ReleaseDrops(n, q, k);
    ReleaseMoves(n, Pages(q[..k]));
  }

  lemma ReleaseDrops(n: Nic, q: seq<Received>, k: nat)
    requires RingOk(n) && Queue(n) == Some(q) && k <= |q|
    ensures Pages(q[..k]) <= Used(n) && ReleasePage(n, q, k) == n.pstart + Turn(RingSize(n), BnryPos(n) + Pages(q[..k]))
    ensures Decode(RingOf(n), Turn(RingSize(n), First(n) + Pages(q[..k])), Used(n) - Pages(q[..k])) == Some(q[k..])
  {
    hide Decode, Pages, RingOf;
    DecodeDrop(RingOf(n), First(n), Used(n), q, k);
  }
}
