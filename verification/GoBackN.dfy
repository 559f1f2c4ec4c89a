/**
 The window-filling sender composed with the in-order acceptor over a network that loses,
 duplicates, delays and reorders: a segment or an acknowledgement that was ever sent may arrive
 any number of times, at any time, or never. All sequence numbers are taken modulo 2^32.
 */
module GoBackN {
  import opened Bytes
  import opened SeqSpace
  import opened StreamSender

  datatype Ack = Ack(number: Dword, window: Window)

  datatype System = System(
    session: Session,
    timers: seq<Timer>,
    net: set<Segment>,
    acks: set<Ack>,
    accepted: seq<Byte>,
    eof: bool,
    next: Dword,
    finsSent: nat)

  datatype Step =
    | AckArrives(ack: Ack, now: nat)
    | TimerFires(index: nat, now: nat)
    | SegmentArrives(segment: Segment, window: Window)
    | WindowUpdate(window: Window)

  // ---- what a sender hands to the network and to its timer ----

  function Segments(events: seq<Event>): set<Segment> {
    if events == [] then {}
    else (if events[0].Arrival? then {events[0].segment} else {}) + Segments(events[1..])
  }

  function Timers(events: seq<Event>): seq<Timer> {
    if events == [] then []
    else (if events[0].Callback? then [events[0].timer] else []) + Timers(events[1..])
  }

  function Fins(events: seq<Event>): nat {
    if events == [] then 0
    else (if events[0].Arrival? && events[0].segment.fin then 1 else 0) + Fins(events[1..])
  }

  function Sent(y: System, session: Session, timers: seq<Timer>, events: seq<Event>): System {
    y.(session := session, timers := timers + Timers(events), net := y.net + Segments(events),
       finsSent := y.finsSent + Fins(events))
  }

  // ---- the acceptor ----

  /** In-sequence data is taken, in-sequence FIN ends the stream, anything else is only acknowledged. */
  function Accept(y: System, segment: Segment): System {
    if segment.seqNo != y.next then y
    else if segment.fin then y.(eof := true, next := Wrap(segment.seqNo + |segment.payload| + 1))
    else y.(accepted := y.accepted + segment.payload, next := Wrap(segment.seqNo + |segment.payload|))
  }

  function Acknowledge(y: System, window: Window): System {
    y.(acks := y.acks + {Ack(y.next, window)})
  }

  /** The acceptor's session, updated in place; `y` is the system it is part of. */
  class Acceptor {
    var clientNext: Dword
    var request: seq<Byte>
    var eof: bool

    ghost predicate IsPartOf(y: System)
      reads this
    {
      y.next == clientNext && y.accepted == request && y.eof == eof
    }

    method Receive(segment: Segment, ghost y: System)
      requires IsPartOf(y)
      modifies this
      ensures IsPartOf(Accept(y, segment))
    {
      hide Wrap;
      if segment.fin {
        if segment.seqNo == clientNext {
          eof := true;
          clientNext := Wrap(segment.seqNo + |segment.payload| + 1);
        }
      } else if segment.seqNo == clientNext {
        clientNext := Wrap(segment.seqNo + |segment.payload|);
        request := request + segment.payload;
      }
    }
  }

  // ---- steps ----

  predicate Enabled(y: System, step: Step) {
    match step
    case AckArrives(ack, _) => ack in y.acks
    case TimerFires(i, _) => i < |y.timers|
    case SegmentArrives(segment, _) => segment in y.net
    case WindowUpdate(_) => true
  }

  function Apply(c: Config, y: System, step: Step): System
    requires Enabled(y, step)
  {
    match step
    case AckArrives(ack, now) =>
      Sent(y, OnAck(c, y.session, now, ack.number, ack.window), y.timers,
           OnAckEvents(c, y.session, now, ack.number, ack.window))
    case TimerFires(i, now) =>
      Sent(y, OnTimer(c, y.session, now, y.timers[i]), y.timers[..i] + y.timers[i + 1..],
           OnTimerEvents(c, y.session, now, y.timers[i]))
    case SegmentArrives(segment, window) => Acknowledge(Accept(y, segment), window)
    case WindowUpdate(window) => Acknowledge(y, window)
  }

  // ---- the invariant ----

  /** Old acknowledgements reach at most `history` bytes back before the response. */
  ghost predicate FitsSequenceSpace(c: Config, history: nat) {
    history + Total(c) + 1 < TWO32
  }

  ghost predicate GenuineSegment(c: Config, segment: Segment) {
    if segment.fin then segment == FinSegment(c)
    else exists offset: nat :: offset + |segment.payload| <= Total(c) &&
                               segment == DataSegment(c, offset, |segment.payload|)
  }

  ghost predicate AckFor(c: Config, ack: Ack, low: int, high: int) {
    exists offset: int :: low <= offset <= high && ack.number == SeqAt(c.responseSeq, offset)
  }

  function Consumed(y: System): nat {
    |y.accepted| + if y.eof then 1 else 0
  }

  ghost predicate TimerOk(c: Config, y: System) {
    && |y.timers| == (if y.session.rtoArmed then 1 else 0)
    && (y.session.sentOffset > y.session.ackedOffset ==>
          y.session.rtoArmed || y.session.backoff > c.maxRetransmits)
  }

  ghost predicate SenderOk(c: Config, y: System) {
    && y.session.sentOffset <= Total(c)
    && y.session.ackedOffset <= |y.accepted|
    && (y.session.finSent ==> y.session.ackedOffset == Total(c))
    && y.finsSent == (if y.session.finSent then 1 else 0)
  }

  ghost predicate AcceptorOk(c: Config, y: System) {
    && y.accepted <= c.response
    && y.next == SeqAt(c.responseSeq, Consumed(y))
    && (y.eof ==> y.session.finSent)
  }

  ghost predicate NetworkOk(c: Config, history: nat, y: System) {
    && (forall segment :: segment in y.net ==> GenuineSegment(c, segment) && (segment.fin ==> y.session.finSent))
    && (forall ack :: ack in y.acks ==> AckFor(c, ack, 0 - history, Consumed(y)))
  }

  ghost predicate Inv(c: Config, history: nat, y: System) {
    SenderOk(c, y) && AcceptorOk(c, y) && NetworkOk(c, history, y) && TimerOk(c, y)
  }

  /** Nothing sent yet; the network may still hold acknowledgements from before the response. */
  ghost predicate Start(c: Config, history: nat, y: System) {
    && y.session == FRESH && y.timers == [] && y.net == {} && y.accepted == [] && !y.eof
    && y.next == c.responseSeq && y.finsSent == 0
    && forall ack :: ack in y.acks ==> AckFor(c, ack, 0 - history, 0)
  }

  lemma StartIsOk(c: Config, history: nat, y: System)
    requires Start(c, history, y)
    ensures Inv(c, history, y)
  {
    assert SeqAt(c.responseSeq, 0) == c.responseSeq;
  }

  // ---- reading acknowledgements back ----

  /** What the sender reads back from an acknowledgement of `offset`: stale ones land beyond the response. */
  lemma AckedByIs(c: Config, history: nat, number: Dword, offset: int)
    requires FitsSequenceSpace(c, history) && 0 - history <= offset <= Total(c) + 1
    requires number == SeqAt(c.responseSeq, offset)
    ensures AckedBy(c.responseSeq, number) == if offset >= 0 then offset else TWO32 + offset
    ensures offset < 0 ==> AckedBy(c.responseSeq, number) > Total(c)
  {
    OffsetReadsBack(c.responseSeq, offset);
  }

  /** Every cumulative acknowledgement reads back as its own offset exactly if the response is below 4 GiB. */
  lemma AcksDecodeIffResponseFits(c: Config)
    ensures (forall offset: nat :: offset <= Total(c) ==>
              AckedBy(c.responseSeq, SeqAt(c.responseSeq, offset)) == offset)
            <==> Total(c) < TWO32
  {
    if Total(c) < TWO32 {
      forall offset: nat | offset <= Total(c)
        ensures AckedBy(c.responseSeq, SeqAt(c.responseSeq, offset)) == offset
      {
        OffsetReadsBack(c.responseSeq, offset);
      }
    } else {
      assert AckedBy(c.responseSeq, SeqAt(c.responseSeq, TWO32)) != TWO32;
    }
  }

  // ---- one emission ----

  lemma {:induction false} SegmentsOfConcat(a: seq<Event>, b: seq<Event>)
    ensures Segments(a + b) == Segments(a) + Segments(b)
    ensures Timers(a + b) == Timers(a) + Timers(b) && Fins(a + b) == Fins(a) + Fins(b)
    decreases |a|
  {
    hide Segments, Timers, Fins;
    NoEvents();
    if a == [] {
      assert a + b == b;
    } else {
      SegmentsOfConcat(a[1..], b);
      assert (a + b)[0] == a[0] && (a + b)[1..] == a[1..] + b;
      FirstEvent(a);
      FirstEvent(a + b);
    }
  }

  lemma FirstEvent(events: seq<Event>)
    requires events != []
    ensures Segments(events) == (if events[0].Arrival? then {events[0].segment} else {}) + Segments(events[1..])
    ensures Timers(events) == (if events[0].Callback? then [events[0].timer] else []) + Timers(events[1..])
    ensures Fins(events) == (if events[0].Arrival? && events[0].segment.fin then 1 else 0) + Fins(events[1..])
  {
  }

  /** A burst puts nothing but genuine data on the network, and arms nothing. */
  lemma {:induction false} BurstIsGenuine(c: Config, events: seq<Event>, from: nat, to: nat)
    requires Contiguous(c, events, from, to)
    ensures Timers(events) == [] && Fins(events) == 0
    ensures forall s :: s in Segments(events) ==> !s.fin && GenuineSegment(c, s)
    decreases |events|
  {
    if events != [] {
      BurstIsGenuine(c, events[1..], from + |events[0].segment.payload|, to);
      assert GenuineSegment(c, events[0].segment);
    }
  }

  /** Everything an emission does, in one place. */
  lemma EmitIs(c: Config, s: Session, now: nat, window: Window, burst: nat)
    requires s.sentOffset <= Total(c)
    ensures var s', events := Emit(c, s, now, window, burst), EmitEvents(c, s, now, window, burst);
            && s' == s.(sentOffset := s'.sentOffset, nextMs := s'.nextMs, rtoArmed := s'.rtoArmed)
            && s.sentOffset <= s'.sentOffset <= Total(c)
            && (s'.sentOffset > s'.ackedOffset ==> s'.rtoArmed)
            && (s.rtoArmed ==> s'.rtoArmed)
            && |Timers(events)| == (if s'.rtoArmed && !s.rtoArmed then 1 else 0) && Fins(events) == 0
            && forall segment :: segment in Segments(events) ==> !segment.fin && GenuineSegment(c, segment)
  {
    hide Burst, BurstEvents, GenuineSegment, Contiguous, WithinWindow, InOrder;
    BurstIs(c, s, now, window, burst, 0);
    var sent, data := Burst(c, s, now, window, burst, 0), BurstEvents(c, s, now, window, burst, 0);
    BurstIsGenuine(c, data, s.sentOffset, sent.sentOffset);
    var timer := ArmEvents(c, sent, now, window);
    SegmentsOfConcat(data, timer);
    ArmIs(c, sent, now, window);
  }

  lemma ArmIs(c: Config, s: Session, now: nat, window: Window)
    ensures var events := ArmEvents(c, s, now, window);
            && |Timers(events)| == (if NeedsTimer(s) then 1 else 0)
            && Fins(events) == 0 && Segments(events) == {}
  {
    hide RtoDelay;
  }

  // ---- every step keeps the invariant ----

  /** An acknowledgement moves `ackedOffset` no further than what the acceptor has. */
  lemma TakenOk(c: Config, history: nat, y: System, ack: Ack)
    requires FitsSequenceSpace(c, history) && Inv(c, history, y) && ack in y.acks
    ensures var taken := TakeAck(c, y.session, ack.number);
            && taken == y.session.(ackedOffset := taken.ackedOffset)
            && y.session.ackedOffset <= taken.ackedOffset <= |y.accepted|
  {
    hide AckedBy, TimerOk, GenuineSegment;
    var offset: int :| 0 - history <= offset <= Consumed(y) && ack.number == SeqAt(c.responseSeq, offset);
    AckedByIs(c, history, ack.number, offset);
  }

  lemma OnAckIs(c: Config, history: nat, y: System, ack: Ack, now: nat)
    requires SenderOk(c, y) && TimerOk(c, y)
    requires var taken := TakeAck(c, y.session, ack.number);
             && taken == y.session.(ackedOffset := taken.ackedOffset)
             && y.session.ackedOffset <= taken.ackedOffset <= |y.accepted| <= Total(c)
    ensures var s, s' := y.session, OnAck(c, y.session, now, ack.number, ack.window);
            var events := OnAckEvents(c, s, now, ack.number, ack.window);
            && s.ackedOffset <= s'.ackedOffset <= |y.accepted| && s'.sentOffset <= Total(c)
            && (s.finSent ==> s'.finSent) && (s'.finSent ==> s'.ackedOffset == Total(c))
            && (s.rtoArmed ==> s'.rtoArmed) && |Timers(events)| == (if s'.rtoArmed && !s.rtoArmed then 1 else 0)
            && (s'.sentOffset > s'.ackedOffset ==> s'.rtoArmed || s'.backoff > c.maxRetransmits)
            && Fins(events) == (if s'.finSent && !s.finSent then 1 else 0)
            && forall segment :: segment in Segments(events) ==>
                 GenuineSegment(c, segment) && (segment.fin ==> s'.finSent)
  {
    hide Emit, EmitEvents, TakeAck;
    var taken := TakeAck(c, y.session, ack.number);
    if taken.ackedOffset >= Total(c) {
    } else {
      EmitIs(c, CountDuplicate(c, taken, ack.number), now, ack.window, c.maxBurst);
    }
  }

  lemma OnAckKeeps(c: Config, history: nat, y: System, ack: Ack, now: nat)
    requires FitsSequenceSpace(c, history) && Inv(c, history, y) && ack in y.acks
    ensures var y' := Apply(c, y, AckArrives(ack, now));
            && Inv(c, history, y')
            && y.session.ackedOffset <= y'.session.ackedOffset
  {
    hide OnAck, OnAckEvents, Segments, Timers, Fins, TakeAck, AckFor, GenuineSegment, SeqAt;
    TakenOk(c, history, y, ack);
    OnAckIs(c, history, y, ack, now);
  }

  lemma OnTimerIs(c: Config, y: System, t: Timer, now: nat)
    requires SenderOk(c, y) && y.session.ackedOffset <= Total(c)
    ensures var s, s' := y.session, OnTimer(c, y.session, now, t);
            var events := OnTimerEvents(c, s, now, t);
            && s'.ackedOffset == s.ackedOffset && s'.finSent == s.finSent && s'.sentOffset <= Total(c)
            && |Timers(events)| == (if s'.rtoArmed then 1 else 0) && Fins(events) == 0
            && (s'.sentOffset > s'.ackedOffset ==> s'.rtoArmed || s'.backoff > c.maxRetransmits)
            && forall segment :: segment in Segments(events) ==> !segment.fin && GenuineSegment(c, segment)
  {
    hide Emit, EmitEvents, ArmEvents, GenuineSegment, Segments, Timers, Fins;
    var fired := y.session.(rtoArmed := false);
    NoEvents();
    if Progressed(y.session, t) {
      ArmIs(c, fired.(backoff := 0), now, t.window);
    } else if y.session.ackedOffset < Total(c) && !GivesUp(c, t) {
      EmitIs(c, Rewound(y.session, now, t), now, t.window, 1);
    }
  }

  lemma NoEvents()
    ensures Segments([]) == {} && Timers([]) == [] && Fins([]) == 0
  {
  }

  lemma OnTimerKeeps(c: Config, history: nat, y: System, i: nat, now: nat)
    requires FitsSequenceSpace(c, history) && Inv(c, history, y) && i < |y.timers|
    ensures var y' := Apply(c, y, TimerFires(i, now));
            && Inv(c, history, y')
            && y'.session.ackedOffset == y.session.ackedOffset
  {
    hide OnTimer, OnTimerEvents, Segments, Timers, Fins, GenuineSegment, AckFor;
    OnTimerIs(c, y, y.timers[i], now);
  }

  /** What the acceptor has after a segment: more of the response, in sequence. */
  ghost predicate Extends(c: Config, y: System, y': System) {
    && y'.accepted <= c.response && y.accepted <= y'.accepted
    && y'.next == SeqAt(c.responseSeq, Consumed(y'))
    && (y'.eof ==> y.session.finSent) && Consumed(y) <= Consumed(y')
    && y' == y.(accepted := y'.accepted, eof := y'.eof, next := y'.next)
  }

  lemma FinIs(c: Config, history: nat, y: System)
    requires FitsSequenceSpace(c, history) && AcceptorOk(c, y) && SenderOk(c, y) && y.session.finSent
    requires SeqAt(c.responseSeq, Total(c)) == y.next
    ensures Extends(c, y, Accept(y, FinSegment(c)))
  {
    WrapInjective(c.responseSeq, Total(c), Consumed(y));
    WrapStep(c.responseSeq + Total(c), 1);
  }

  lemma DataIs(c: Config, history: nat, y: System, offset: nat, size: nat)
    requires FitsSequenceSpace(c, history) && AcceptorOk(c, y) && SenderOk(c, y)
    requires offset + size <= Total(c) && SeqAt(c.responseSeq, offset) == y.next
    ensures Extends(c, y, Accept(y, DataSegment(c, offset, size)))
  {
    WrapInjective(c.responseSeq, offset, Consumed(y));
    WrapStep(c.responseSeq + offset, size);
    hide Wrap;
    assert !y.eof || size == 0;
  }

  /** The acceptor takes a segment exactly if it starts where the accepted bytes end. */
  lemma AcceptIs(c: Config, history: nat, y: System, segment: Segment)
    requires FitsSequenceSpace(c, history) && Inv(c, history, y) && segment in y.net
    ensures Extends(c, y, Accept(y, segment))
  {
    hide AckFor, TimerOk, SeqAt, Wrap;
    if segment.seqNo == y.next {
      hide Accept, Extends;
      if segment.fin {
        FinIs(c, history, y);
      } else {
        var offset: nat :| offset + |segment.payload| <= Total(c) &&
          segment == DataSegment(c, offset, |segment.payload|);
        DataIs(c, history, y, offset, |segment.payload|);
      }
    }
  }

  lemma SegmentArrivesKeeps(c: Config, history: nat, y: System, segment: Segment, window: Window)
    requires FitsSequenceSpace(c, history) && Inv(c, history, y) && segment in y.net
    ensures var y' := Apply(c, y, SegmentArrives(segment, window));
            Inv(c, history, y') && y.accepted <= y'.accepted && y'.session == y.session
  {
    hide GenuineSegment, SeqAt;
    AcceptIs(c, history, y, segment);
    AcknowledgeKeeps(c, history, y, Accept(y, segment), window);
    hide Accept;
  }

  lemma AcknowledgeKeeps(c: Config, history: nat, y: System, y': System, window: Window)
    requires Inv(c, history, y) && AcceptorOk(c, y') && Consumed(y) <= Consumed(y') && y.accepted <= y'.accepted
    requires y' == y.(accepted := y'.accepted, eof := y'.eof, next := y'.next)
    ensures Inv(c, history, Acknowledge(y', window))
  {
    hide GenuineSegment, SeqAt;
    assert AckFor(c, Ack(y'.next, window), 0 - history, Consumed(y'));
    forall ack | ack in y.acks
      ensures AckFor(c, ack, 0 - history, Consumed(y'))
    {
      var offset: int :| 0 - history <= offset <= Consumed(y) && ack.number == SeqAt(c.responseSeq, offset);
    }
  }

  lemma StepKeeps(c: Config, history: nat, y: System, step: Step)
    requires FitsSequenceSpace(c, history) && Inv(c, history, y) && Enabled(y, step)
    ensures var y' := Apply(c, y, step);
            && Inv(c, history, y')
            && y.session.ackedOffset <= y'.session.ackedOffset && y.accepted <= y'.accepted
  {
    hide Inv, Accept, OnAck, OnAckEvents, OnTimer, OnTimerEvents;
    match step
    case AckArrives(ack, now) => OnAckKeeps(c, history, y, ack, now);
    case TimerFires(i, now) => OnTimerKeeps(c, history, y, i, now);
    case SegmentArrives(segment, window) => SegmentArrivesKeeps(c, history, y, segment, window);
    case WindowUpdate(window) => WindowUpdateKeeps(c, history, y, window);
  }

  lemma WindowUpdateKeeps(c: Config, history: nat, y: System, window: Window)
    requires Inv(c, history, y)
    ensures Inv(c, history, Acknowledge(y, window))
  {
    AcknowledgeKeeps(c, history, y, y, window);
  }

  // ---- whole runs ----

  ghost predicate LegalRun(c: Config, y: System, steps: seq<Step>)
    decreases |steps|
  {
    steps != [] ==> Enabled(y, steps[0]) && LegalRun(c, Apply(c, y, steps[0]), steps[1..])
  }

  ghost function Run(c: Config, y: System, steps: seq<Step>): System
    requires LegalRun(c, y, steps)
    decreases |steps|
  {
    if steps == [] then y else Run(c, Apply(c, y, steps[0]), steps[1..])
  }

  lemma {:induction false} RunKeeps(c: Config, history: nat, y: System, steps: seq<Step>)
    requires FitsSequenceSpace(c, history) && Inv(c, history, y) && LegalRun(c, y, steps)
    ensures var y' := Run(c, y, steps);
            && Inv(c, history, y')
            && y.session.ackedOffset <= y'.session.ackedOffset && y.accepted <= y'.accepted
    decreases |steps|
  {
    hide Inv, Apply, Enabled;
    if steps != [] {
      StepKeeps(c, history, y, steps[0]);
      RunKeeps(c, history, Apply(c, y, steps[0]), steps[1..]);
    }
  }

  /**
   Safety of the transfer over every run: the accepted bytes are a prefix of the response, the
   sender believes no more than was accepted, FIN goes out at most once and only after the
   acceptor has every byte, and the acceptor sees the end of the stream only then.
   */
  lemma TransferIsSafe(c: Config, history: nat, y: System, steps: seq<Step>)
    requires FitsSequenceSpace(c, history) && Start(c, history, y) && LegalRun(c, y, steps)
    ensures var y' := Run(c, y, steps);
            && y'.accepted <= c.response
            && y'.session.ackedOffset <= |y'.accepted|
            && y'.finsSent <= 1
            && (y'.finsSent == 1 ==> y'.accepted == c.response)
            && (y'.eof ==> y'.accepted == c.response)
  {
    StartIsOk(c, history, y);
    RunKeeps(c, history, y, steps);
  }

  /**
   The timer over every run: at most one callback is pending, and bytes in flight have one
   unless the sender has passed its limit of consecutive losses.
   */
  lemma TimerIsDisciplined(c: Config, history: nat, y: System, steps: seq<Step>)
    requires FitsSequenceSpace(c, history) && Start(c, history, y) && LegalRun(c, y, steps)
    ensures var y' := Run(c, y, steps);
            && |y'.timers| <= 1 && (|y'.timers| == 1 <==> y'.session.rtoArmed)
            && (y'.session.sentOffset > y'.session.ackedOffset && y'.timers == [] ==>
                  y'.session.backoff > c.maxRetransmits)
  {
    StartIsOk(c, history, y);
    RunKeeps(c, history, y, steps);
  }

  // ---- windows and retransmission ----

  /** Every data segment an acknowledgement triggers ends within the window that acknowledgement advertised. */
  lemma AckBurstFitsWindow(c: Config, s: Session, now: nat, ack: Dword, window: Window)
    requires s.sentOffset <= Total(c) && TakeAck(c, s, ack).ackedOffset < Total(c)
    ensures var counted := CountDuplicate(c, TakeAck(c, s, ack), ack);
            var data := BurstEvents(c, counted, now, window, c.maxBurst, 0);
            && counted.ackedOffset == OnAck(c, s, now, ack, window).ackedOffset
            && OnAckEvents(c, s, now, ack, window) ==
                 data + ArmEvents(c, Burst(c, counted, now, window, c.maxBurst, 0), now, window)
            && Contiguous(c, data, counted.sentOffset, OnAck(c, s, now, ack, window).sentOffset)
            && WithinWindow(c, data, counted.sentOffset, counted.ackedOffset, window)
            && |data| <= c.maxBurst
  {
    hide Burst, BurstEvents, ArmEvents, AckedBy, Contiguous, WithinWindow, InOrder;
    BurstIs(c, CountDuplicate(c, TakeAck(c, s, ack), ack), now, window, c.maxBurst, 0);
  }

  /** The segment with the oldest unacknowledged byte. */
  function OldestUnacked(c: Config, s: Session): Segment
    requires s.ackedOffset < Total(c)
  {
    DataSegment(c, s.ackedOffset, Min(c.mss, Total(c) - s.ackedOffset))
  }

  /**
   An expiry without progress resends one segment, the oldest unacknowledged one, exactly if the
   limit is not passed and the window captured when the timer was armed admits a full segment;
   in every other case it sends nothing.
   */
  lemma ExpiryResendsOldest(c: Config, s: Session, now: nat, t: Timer)
    requires !Progressed(s, t) && s.ackedOffset < Total(c)
    ensures Segments(OnTimerEvents(c, s, now, t)) ==
            if !GivesUp(c, t) && Admits(t.window, c.mss) then {OldestUnacked(c, s)} else {}
    ensures !GivesUp(c, t) && Admits(t.window, c.mss) && c.mss > 0 ==>
              OnTimer(c, s, now, t).rtoArmed
  {
    hide RtoDelay, NextDue;
    if !GivesUp(c, t) {
      var rewound := Rewound(s, now, t);
      SegmentsOfConcat(BurstEvents(c, rewound, now, t.window, 1, 0),
                       ArmEvents(c, Burst(c, rewound, now, t.window, 1, 0), now, t.window));
      ArmIs(c, Burst(c, rewound, now, t.window, 1, 0), now, t.window);
      OneSegment(c, rewound, now, t.window);
    }
  }

  lemma OneSegment(c: Config, s: Session, now: nat, window: Window)
    requires s.sentOffset == s.ackedOffset < Total(c)
    ensures Segments(BurstEvents(c, s, now, window, 1, 0)) ==
            if Admits(window, c.mss) then {OldestUnacked(c, s)} else {}
    ensures Burst(c, s, now, window, 1, 0).sentOffset ==
            s.sentOffset + if Admits(window, c.mss) then Min(c.mss, Total(c) - s.sentOffset) else 0
    ensures Burst(c, s, now, window, 1, 0).rtoArmed == s.rtoArmed
    ensures Burst(c, s, now, window, 1, 0).ackedOffset == s.ackedOffset
  {
    hide NextDue;
    if Admits(window, c.mss) {
      var due := NextDue(c, s, now, 0);
      var next := s.(sentOffset := s.sentOffset + NextSize(c, s), nextMs := due);
      assert !MayEmit(c, next, window, 1, 1);
      assert BurstEvents(c, s, now, window, 1, 0) == [Arrival(due, OldestUnacked(c, s))] + [];
      assert Segments([Arrival(due, OldestUnacked(c, s))]) == {OldestUnacked(c, s)} + Segments([]);
    }
  }

  /**
   One undisturbed recovery round makes progress from every reachable state: the timer expires,
   the resent segment arrives, and the acknowledgement of the acceptor comes back.
   */
  lemma RecoveryProgresses(c: Config, history: nat, y: System, now: nat, later: nat, window: Window)
    requires FitsSequenceSpace(c, history) && Inv(c, history, y) && |y.timers| == 1
    requires y.session.ackedOffset < Total(c) && !Progressed(y.session, y.timers[0])
    requires !GivesUp(c, y.timers[0]) && Admits(y.timers[0].window, c.mss) && c.mss > 0
    ensures var resent := Apply(c, y, TimerFires(0, now));
            && OldestUnacked(c, y.session) in resent.net
            && var arrived := Apply(c, resent, SegmentArrives(OldestUnacked(c, y.session), window));
            && Ack(arrived.next, window) in arrived.acks
            && var acked := Apply(c, arrived, AckArrives(Ack(arrived.next, window), later));
            && acked.session.ackedOffset > y.session.ackedOffset
  {
    hide OnTimer, OnTimerEvents, OnAck, OnAckEvents, Inv;
    var resent := Apply(c, y, TimerFires(0, now));
    var segment := OldestUnacked(c, y.session);
    ExpiryResendsOldest(c, y.session, now, y.timers[0]);
    OnTimerKeeps(c, history, y, 0, now);
    var arrived := Apply(c, resent, SegmentArrives(segment, window));
    SegmentArrivesKeeps(c, history, resent, segment, window);
    ArrivalExtends(c, history, resent, window);
    AckCatchesUp(c, history, arrived, Ack(arrived.next, window), later);
  }

  /** The oldest unacknowledged segment finds its bytes accepted, now or already. */
  lemma ArrivalExtends(c: Config, history: nat, y: System, window: Window)
    requires FitsSequenceSpace(c, history) && Inv(c, history, y) && y.session.ackedOffset < Total(c) && c.mss > 0
    requires OldestUnacked(c, y.session) in y.net
    ensures |Accept(y, OldestUnacked(c, y.session)).accepted| > y.session.ackedOffset
    ensures !Accept(y, OldestUnacked(c, y.session)).eof
  {
    hide GenuineSegment, AckFor;
    if |y.accepted| == y.session.ackedOffset {
      assert Consumed(y) == y.session.ackedOffset;
    }
  }

  lemma AckCatchesUp(c: Config, history: nat, y: System, ack: Ack, now: nat)
    requires FitsSequenceSpace(c, history) && Inv(c, history, y) && !y.eof && ack.number == y.next && ack in y.acks
    ensures OnAck(c, y.session, now, ack.number, ack.window).ackedOffset == |y.accepted|
  {
    hide GenuineSegment, AckFor, Emit;
    AckedByIs(c, history, ack.number, |y.accepted|);
    var counted := CountDuplicate(c, TakeAck(c, y.session, ack.number), ack.number);
    EmitIs(c, counted, now, ack.window, c.maxBurst);
  }
}
