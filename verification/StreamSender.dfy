/**
 The window-filling TCP peer (`tcpStreamAhead`, `streamEmit`, `armRto`) as a value: what one
 acknowledgement and one expiry of the retransmission timer do to a session, and what they
 schedule on the card. StreamPeer computes the same in place.
 */
module StreamSender {
  import opened Bytes
  import opened SeqSpace

  /** The advertised window; Unlimited is the `ignoreWindow` option. */
  datatype Window = Unlimited | Limit(bytes: nat)

  predicate Admits(window: Window, size: int) {
    window.Unlimited? || size <= window.bytes
  }

  datatype Config = Config(
    response: seq<Byte>,
    responseSeq: Dword,
    mss: nat,
    maxBurst: nat,
    dupAckRetransmit: nat,
    afterMs: nat,
    gapMs: nat,
    rtoMs: nat,
    rtoMaxMs: nat,
    maxRetransmits: nat)

  datatype Segment = Segment(seqNo: Dword, payload: seq<Byte>, fin: bool)

  /** What the callback of an armed timer has captured. */
  datatype Timer = Timer(atOffset: nat, backoff: nat, window: Window)

  /** What a session hands to the card's schedule. */
  datatype Event = Arrival(atMs: nat, segment: Segment) | Callback(atMs: nat, timer: Timer)

  datatype Session = Session(
    sentOffset: nat,
    ackedOffset: nat,
    finSent: bool,
    dupAcks: nat,
    lastAck: Option<Dword>,
    rtoArmed: bool,
    backoff: nat,
    retransmits: nat,
    nextMs: nat)

  const FRESH := Session(0, 0, false, 0, None, false, 0, 0, 0)

  function Total(c: Config): nat {
    |c.response|
  }

  function DataSegment(c: Config, offset: nat, size: nat): Segment
    requires offset + size <= Total(c)
  {
    Segment(SeqAt(c.responseSeq, offset), c.response[offset..offset + size], false)
  }

  function FinSegment(c: Config): Segment {
    Segment(SeqAt(c.responseSeq, Total(c)), [], true)
  }

  // ---- streamEmit ----

  predicate MayEmit(c: Config, s: Session, window: Window, burst: nat, emitted: nat) {
    && s.sentOffset < Total(c)
    && Admits(window, s.sentOffset - s.ackedOffset + c.mss)
    && emitted < burst
  }

  function NextSize(c: Config, s: Session): nat
    requires s.sentOffset < Total(c)
  {
    Min(c.mss, Total(c) - s.sentOffset)
  }

  function NextDue(c: Config, s: Session, now: nat, emitted: nat): nat {
    Max(s.nextMs, now + c.afterMs) + if emitted > 0 then c.gapMs else 0
  }

  /** The session after a burst that has emitted `emitted` segments already. */
  function Burst(c: Config, s: Session, now: nat, window: Window, burst: nat, emitted: nat): Session
    decreases burst - emitted
  {
    if !MayEmit(c, s, window, burst, emitted) then s
    else
      Burst(c, s.(sentOffset := s.sentOffset + NextSize(c, s), nextMs := NextDue(c, s, now, emitted)),
            now, window, burst, emitted + 1)
  }

  /** The segments of that burst, in the order they are scheduled. */
  function BurstEvents(c: Config, s: Session, now: nat, window: Window, burst: nat, emitted: nat): seq<Event>
    decreases burst - emitted
  {
    if !MayEmit(c, s, window, burst, emitted) then []
    else
      [Arrival(NextDue(c, s, now, emitted), DataSegment(c, s.sentOffset, NextSize(c, s)))] +
      BurstEvents(c, s.(sentOffset := s.sentOffset + NextSize(c, s), nextMs := NextDue(c, s, now, emitted)),
                  now, window, burst, emitted + 1)
  }

  // ---- armRto ----

  /** `1 << n` in JavaScript: the shift count is taken modulo 32 and the result is a signed 32-bit number. */
  function ShiftOne(n: nat): int {
    if n % 32 == 31 then -0x8000_0000 else Pow2(n % 32)
  }

  /** The delay of the timer; the card never schedules into the past. */
  function RtoDelay(c: Config, backoff: nat): nat {
    Max(0, Min(c.rtoMs * ShiftOne(backoff), c.rtoMaxMs))
  }

  predicate NeedsTimer(s: Session) {
    !s.rtoArmed && s.sentOffset > s.ackedOffset
  }

  function Arm(s: Session): Session {
    if NeedsTimer(s) then s.(rtoArmed := true) else s
  }

  function ArmEvents(c: Config, s: Session, now: nat, window: Window): seq<Event> {
    if NeedsTimer(s) then [Callback(now + RtoDelay(c, s.backoff), Timer(s.ackedOffset, s.backoff, window))] else []
  }

  function Emit(c: Config, s: Session, now: nat, window: Window, burst: nat): Session {
    Arm(Burst(c, s, now, window, burst, 0))
  }

  function EmitEvents(c: Config, s: Session, now: nat, window: Window, burst: nat): seq<Event> {
    BurstEvents(c, s, now, window, burst, 0) + ArmEvents(c, Burst(c, s, now, window, burst, 0), now, window)
  }

  // ---- tcpStreamAhead ----

  function TakeAck(c: Config, s: Session, ack: Dword): Session {
    var acked := AckedBy(c.responseSeq, ack);
    if s.ackedOffset < acked <= Total(c) then s.(ackedOffset := acked) else s
  }

  /** Counts duplicate ACKs and goes back to the first unacknowledged byte when there are enough. */
  function CountDuplicate(c: Config, s: Session, ack: Dword): Session {
    if s.sentOffset > s.ackedOffset && s.lastAck == Some(ack) then
      if s.dupAcks + 1 >= c.dupAckRetransmit then s.(sentOffset := s.ackedOffset, dupAcks := 0, lastAck := Some(ack))
      else s.(dupAcks := s.dupAcks + 1, lastAck := Some(ack))
    else s.(dupAcks := 0, lastAck := Some(ack))
  }

  function OnAck(c: Config, s: Session, now: nat, ack: Dword, window: Window): Session {
    var taken := TakeAck(c, s, ack);
    if taken.ackedOffset >= Total(c) then taken.(finSent := true)
    else Emit(c, CountDuplicate(c, taken, ack), now, window, c.maxBurst)
  }

  function OnAckEvents(c: Config, s: Session, now: nat, ack: Dword, window: Window): seq<Event> {
    var taken := TakeAck(c, s, ack);
    if taken.ackedOffset >= Total(c) then
      if taken.finSent then [] else [Arrival(now + c.afterMs, FinSegment(c))]
    else EmitEvents(c, CountDuplicate(c, taken, ack), now, window, c.maxBurst)
  }

  // ---- expiry of the retransmission timer ----

  predicate Progressed(s: Session, t: Timer) {
    s.ackedOffset > t.atOffset
  }

  predicate GivesUp(c: Config, t: Timer) {
    t.backoff + 1 > c.maxRetransmits
  }

  /** The session that goes back to the last acknowledged byte. */
  function Rewound(s: Session, now: nat, t: Timer): Session {
    s.(rtoArmed := false, retransmits := s.retransmits + 1, backoff := t.backoff + 1,
       sentOffset := s.ackedOffset, nextMs := now)
  }

  function OnTimer(c: Config, s: Session, now: nat, t: Timer): Session {
    var fired := s.(rtoArmed := false);
    if Progressed(s, t) then Arm(fired.(backoff := 0))
    else if s.ackedOffset >= Total(c) then fired
    else if GivesUp(c, t) then fired.(retransmits := s.retransmits + 1, backoff := t.backoff + 1)
    else Emit(c, Rewound(s, now, t), now, t.window, 1)
  }

  function OnTimerEvents(c: Config, s: Session, now: nat, t: Timer): seq<Event> {
    var fired := s.(rtoArmed := false);
    if Progressed(s, t) then ArmEvents(c, fired.(backoff := 0), now, t.window)
    else if s.ackedOffset >= Total(c) || GivesUp(c, t) then []
    else EmitEvents(c, Rewound(s, now, t), now, t.window, 1)
  }

  // ---- what a burst is made of ----

  /** A data segment that carries the response's own bytes from `offset` on. */
  ghost predicate Genuine(c: Config, e: Event, offset: nat) {
    && e.Arrival? && !e.segment.fin
    && offset + |e.segment.payload| <= Total(c)
    && e.segment == DataSegment(c, offset, |e.segment.payload|)
  }

  /** Sequence offsets where the segments of a burst start, end to end from `from` on. */
  ghost predicate Contiguous(c: Config, events: seq<Event>, from: nat, to: nat)
    decreases |events|
  {
    if events == [] then from == to
    else Genuine(c, events[0], from) && Contiguous(c, events[1..], from + |events[0].segment.payload|, to)
  }

  /** No segment of the burst ends beyond the acknowledged offset plus the window. */
  ghost predicate WithinWindow(c: Config, events: seq<Event>, from: nat, acked: nat, window: Window)
    decreases |events|
  {
    events != [] ==>
      && events[0].Arrival?
      && Admits(window, from + |events[0].segment.payload| - acked)
      && WithinWindow(c, events[1..], from + |events[0].segment.payload|, acked, window)
  }

  /** Due times start after `earliest` and never go back. */
  ghost predicate InOrder(events: seq<Event>, earliest: nat, latest: nat)
    decreases |events|
  {
    if events == [] then earliest <= latest
    else earliest <= events[0].atMs && InOrder(events[1..], events[0].atMs, latest)
  }

  lemma {:induction false} BurstIs(c: Config, s: Session, now: nat, window: Window, burst: nat, emitted: nat)
    requires s.sentOffset <= Total(c)
    ensures var s', events := Burst(c, s, now, window, burst, emitted), BurstEvents(c, s, now, window, burst, emitted);
            && s' == s.(sentOffset := s'.sentOffset, nextMs := s'.nextMs)
            && s.sentOffset <= s'.sentOffset <= Total(c)
            && Contiguous(c, events, s.sentOffset, s'.sentOffset)
            && WithinWindow(c, events, s.sentOffset, s.ackedOffset, window)
            && InOrder(events, s.nextMs, s'.nextMs)
            && |events| <= burst - Min(emitted, burst)
    decreases burst - emitted
  {
    if MayEmit(c, s, window, burst, emitted) {
      BurstIs(c, s.(sentOffset := s.sentOffset + NextSize(c, s), nextMs := NextDue(c, s, now, emitted)),
              now, window, burst, emitted + 1);
    }
  }

  /** With room for one segment a burst moves on by one at least. */
  lemma BurstMoves(c: Config, s: Session, now: nat, window: Window, burst: nat)
    requires s.sentOffset < Total(c) && burst > 0 && Admits(window, s.sentOffset - s.ackedOffset + c.mss)
    ensures Burst(c, s, now, window, burst, 0).sentOffset >= Min(s.sentOffset + c.mss, Total(c))
  {
    hide NextDue;
    var next := s.(sentOffset := s.sentOffset + NextSize(c, s), nextMs := NextDue(c, s, now, 0));
    BurstIs(c, next, now, window, burst, 1);
  }

  /** The exponential backoff is what the timer's comment promises exactly up to 30 consecutive losses. */
  lemma BackoffIsExponential(c: Config, backoff: nat)
    requires c.rtoMs > 0 && c.rtoMaxMs > 0
    ensures RtoDelay(c, backoff) == Min(c.rtoMs * Pow2(backoff), c.rtoMaxMs) <==>
              backoff <= 30 || (backoff % 32 != 31 && c.rtoMs * Pow2(backoff % 32) >= c.rtoMaxMs)
  {
    hide Pow2, RtoDelay, ShiftOne;
    if backoff > 30 {
      Pow2Grows(backoff % 32, backoff);
      if backoff > 31 {
        ProductGrows(c.rtoMs, Pow2(backoff % 32), Pow2(backoff));
      }
    }
    CappedDelay(c, backoff);
  }

  lemma CappedDelay(c: Config, backoff: nat)
    requires c.rtoMs > 0 && c.rtoMaxMs > 0
    ensures 0 < c.rtoMs * Pow2(backoff) && 0 < c.rtoMs * Pow2(backoff % 32)
    ensures RtoDelay(c, backoff) ==
            if backoff % 32 == 31 then 0 else Min(c.rtoMs * Pow2(backoff % 32), c.rtoMaxMs)
  {
    hide Pow2;
    ProductGrows(c.rtoMs, 0, Pow2(backoff));
    ProductGrows(c.rtoMs, 0, Pow2(backoff % 32));
    assert c.rtoMs * -0x8000_0000 < 0;
  }

  lemma ProductGrows(r: nat, a: nat, b: nat)
    requires r > 0 && a < b
    ensures r * a < r * b
  {
  }

  lemma {:induction false} Pow2Grows(a: nat, b: nat)
    requires a <= b
    ensures Pow2(a) <= Pow2(b)
    ensures a < b ==> Pow2(a) < Pow2(b)
    decreases b
  {
    if a < b {
      Pow2Grows(a, b - 1);
    }
  }
}
