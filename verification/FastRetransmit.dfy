/**
 Fast retransmission: an acknowledgement heard often enough makes the sender go back to the first
 unacknowledged byte, and that is enough to move the transfer on without the timer.
 */
module FastRetransmit {
  import opened Bytes
  import opened SeqSpace
  import opened StreamSender
  import opened GoBackN
  import StreamRuns

  /** When a repeat is heard, and the window it advertises. */
  datatype Hearing = Hearing(now: nat, window: Window)

  /** The repeat that makes the sender go back. */
  function Patience(c: Config): nat {
    Max(1, c.dupAckRetransmit)
  }

  predicate BringsNothing(c: Config, s: Session, ack: Dword) {
    !(s.ackedOffset < AckedBy(c.responseSeq, ack) <= Total(c))
  }

  /** Bytes are in flight, and the acknowledgement was heard once and not repeated yet. */
  predicate HeardOnce(c: Config, s: Session, ack: Dword) {
    && s.ackedOffset < s.sentOffset <= Total(c) && BringsNothing(c, s, ack)
    && s.dupAcks == 0 && s.lastAck == Some(ack)
  }

  /** The session after it has heard the acknowledgement so many times more. */
  function After(c: Config, s: Session, ack: Dword, heard: seq<Hearing>): Session
    decreases |heard|
  {
    if heard == [] then s
    else
      var h := heard[|heard| - 1];
      OnAck(c, After(c, s, ack, heard[..|heard| - 1]), h.now, ack, h.window)
  }

  /** What the next repeat sends. */
  function Answer(c: Config, s: Session, ack: Dword, heard: seq<Hearing>, h: Hearing): set<Segment> {
    Segments(OnAckEvents(c, After(c, s, ack, heard), h.now, ack, h.window))
  }

  /** A segment of the response that starts at `from` or behind it. */
  ghost predicate From(c: Config, segment: Segment, from: nat) {
    exists offset: nat :: from <= offset && offset + |segment.payload| <= Total(c) &&
                          segment == DataSegment(c, offset, |segment.payload|)
  }

  lemma {:induction false} BurstFrom(c: Config, events: seq<Event>, from: nat, to: nat)
    requires Contiguous(c, events, from, to)
    ensures forall segment :: segment in Segments(events) ==> From(c, segment, from)
    decreases |events|
  {
    if events != [] {
      var next := from + |events[0].segment.payload|;
      BurstFrom(c, events[1..], next, to);
      assert From(c, events[0].segment, from);
      forall segment | segment in Segments(events[1..])
        ensures From(c, segment, from)
      {
        assert From(c, segment, next);
      }
    }
  }

  lemma EmitFrom(c: Config, s: Session, now: nat, window: Window, burst: nat)
    requires s.sentOffset <= Total(c)
    ensures forall segment ::
              segment in Segments(EmitEvents(c, s, now, window, burst)) ==> From(c, segment, s.sentOffset)
  {
    hide Burst, BurstEvents, Contiguous, WithinWindow, InOrder, From;
    BurstIs(c, s, now, window, burst, 0);
    var data := BurstEvents(c, s, now, window, burst, 0);
    var sent := Burst(c, s, now, window, burst, 0);
    BurstFrom(c, data, s.sentOffset, sent.sentOffset);
    SegmentsOfConcat(data, ArmEvents(c, sent, now, window));
    ArmIs(c, sent, now, window);
  }

  /** An emission sends its first segment exactly if the window admits a full one. */
  lemma EmitFirst(c: Config, s: Session, now: nat, window: Window, burst: nat)
    requires s.sentOffset == s.ackedOffset < Total(c) && burst > 0
    ensures var sent := Segments(EmitEvents(c, s, now, window, burst));
            if Admits(window, c.mss) then OldestUnacked(c, s) in sent else sent == {}
  {
    hide NextDue;
    var data, next := BurstEvents(c, s, now, window, burst, 0), Burst(c, s, now, window, burst, 0);
    SegmentsOfConcat(data, ArmEvents(c, next, now, window));
    ArmIs(c, next, now, window);
    if Admits(window, c.mss) {
      assert data != [] && data[0].segment == OldestUnacked(c, s);
      FirstEvent(data);
    }
  }

  /** Before the last repeat the sender goes on with what it has not sent yet. */
  lemma EarlyRepeat(c: Config, s: Session, now: nat, ack: Dword, window: Window)
    requires s.ackedOffset < s.sentOffset <= Total(c) && BringsNothing(c, s, ack) && s.lastAck == Some(ack)
    requires s.dupAcks + 1 < Patience(c)
    ensures var s' := OnAck(c, s, now, ack, window);
            && s'.ackedOffset == s.ackedOffset && s.sentOffset <= s'.sentOffset <= Total(c)
            && s'.dupAcks == s.dupAcks + 1 && s'.lastAck == Some(ack)
    ensures forall segment ::
              segment in Segments(OnAckEvents(c, s, now, ack, window)) ==> From(c, segment, s.sentOffset)
  {
    hide Emit, EmitEvents, From, AckedBy;
    var counted := s.(dupAcks := s.dupAcks + 1);
    EmitFrom(c, counted, now, window, c.maxBurst);
    EmitIs(c, counted, now, window, c.maxBurst);
  }

  /** The last repeat resends the oldest unacknowledged segment. */
  lemma LastRepeat(c: Config, s: Session, now: nat, ack: Dword, window: Window)
    requires s.ackedOffset < s.sentOffset <= Total(c) && BringsNothing(c, s, ack) && s.lastAck == Some(ack)
    requires s.dupAcks + 1 >= Patience(c) && c.maxBurst > 0
    ensures var s' := OnAck(c, s, now, ack, window);
            s'.ackedOffset == s.ackedOffset && s'.dupAcks == 0 && s'.lastAck == Some(ack)
    ensures var sent := Segments(OnAckEvents(c, s, now, ack, window));
            if Admits(window, c.mss) then OldestUnacked(c, s) in sent else sent == {}
  {
    hide Emit, EmitEvents, AckedBy;
    var rewound := s.(dupAcks := 0, sentOffset := s.ackedOffset);
    EmitFirst(c, rewound, now, window, c.maxBurst);
    EmitIs(c, rewound, now, window, c.maxBurst);
  }

  /** So far the repeats were only counted. */
  lemma {:induction false} Counted(c: Config, s: Session, ack: Dword, heard: seq<Hearing>)
    requires HeardOnce(c, s, ack) && |heard| < Patience(c)
    ensures var s' := After(c, s, ack, heard);
            && s'.ackedOffset == s.ackedOffset && s.sentOffset <= s'.sentOffset <= Total(c)
            && s'.dupAcks == |heard| && s'.lastAck == Some(ack)
    decreases |heard|
  {
    hide OnAck, OnAckEvents, From;
    if heard != [] {
      var before, h := heard[..|heard| - 1], heard[|heard| - 1];
      Counted(c, s, ack, before);
      EarlyRepeat(c, After(c, s, ack, before), h.now, ack, h.window);
    }
  }

  /** No repeat before the last one sends anything below what was sent already. */
  lemma EarlyRepeatsSendNew(c: Config, s: Session, ack: Dword, heard: seq<Hearing>, h: Hearing)
    requires HeardOnce(c, s, ack) && |heard| + 1 < Patience(c)
    ensures forall segment :: segment in Answer(c, s, ack, heard, h) ==> From(c, segment, s.sentOffset)
  {
    hide OnAck, OnAckEvents, After;
    Counted(c, s, ack, heard);
    EarlyRepeat(c, After(c, s, ack, heard), h.now, ack, h.window);
  }

  /** The repeat number `dupAckRetransmit`, or the first, resends exactly if its window admits a full segment. */
  lemma LastRepeatResends(c: Config, s: Session, ack: Dword, heard: seq<Hearing>, h: Hearing)
    requires HeardOnce(c, s, ack) && |heard| + 1 == Patience(c) && c.maxBurst > 0
    ensures if Admits(h.window, c.mss) then OldestUnacked(c, s) in Answer(c, s, ack, heard, h)
            else Answer(c, s, ack, heard, h) == {}
    ensures var s' := After(c, s, ack, heard + [h]);
            s'.ackedOffset == s.ackedOffset && s'.dupAcks == 0 && s'.lastAck == Some(ack)
  {
    hide OnAck, OnAckEvents, After;
    Counted(c, s, ack, heard);
    LastRepeat(c, After(c, s, ack, heard), h.now, ack, h.window);
    Longer(c, s, ack, heard, h);
  }

  lemma Longer(c: Config, s: Session, ack: Dword, heard: seq<Hearing>, h: Hearing)
    ensures After(c, s, ack, heard + [h]) == OnAck(c, After(c, s, ack, heard), h.now, ack, h.window)
  {
    hide OnAck;
    assert (heard + [h])[..|heard|] == heard;
  }

  /** An acknowledgement that was not the last one heard starts the count again. */
  lemma OtherAckStartsAgain(c: Config, s: Session, now: nat, ack: Dword, window: Window)
    requires s.sentOffset <= Total(c) && s.lastAck != Some(ack)
    requires BringsNothing(c, s, ack) && s.ackedOffset < s.sentOffset
    ensures HeardOnce(c, OnAck(c, s, now, ack, window), ack)
  {
    hide Emit, AckedBy;
    EmitIs(c, s.(dupAcks := 0, lastAck := Some(ack)), now, window, c.maxBurst);
  }

  // ---- the same in a run of the whole system ----

  function Hearings(number: Dword, heard: seq<Hearing>): (steps: seq<Step>)
    ensures |steps| == |heard|
  {
    seq(|heard|, i requires 0 <= i < |heard| => AckArrives(Ack(number, heard[i].window), heard[i].now))
  }

  lemma {:induction false} HearingsRun(c: Config, y: System, number: Dword, heard: seq<Hearing>)
    requires forall i :: 0 <= i < |heard| ==> Ack(number, heard[i].window) in y.acks
    ensures var steps := Hearings(number, heard);
            && LegalRun(c, y, steps)
            && var y' := Run(c, y, steps); y'.session == After(c, y.session, number, heard) && y'.acks == y.acks
    decreases |heard|
  {
    hide OnAck, OnAckEvents, LegalRun, Run, Segments, Timers, Fins;
    if heard == [] {
      NoSteps(c, y);
      assert Hearings(number, heard) == [];
    } else {
      var before, h := heard[..|heard| - 1], heard[|heard| - 1];
      HearingsRun(c, y, number, before);
      var mid := Run(c, y, Hearings(number, before));
      var last := AckArrives(Ack(number, h.window), h.now);
      StreamRuns.OneStep(c, mid, last);
      StreamRuns.RunConcat(c, y, Hearings(number, before), [last]);
      assert Hearings(number, heard) == Hearings(number, before) + [last];
    }
  }

  lemma NoSteps(c: Config, y: System)
    ensures LegalRun(c, y, []) && Run(c, y, []) == y
  {
  }

  /** Nothing leaves the network, and the acceptor does not notice the repeats. */
  lemma LastHearing(c: Config, y: System, number: Dword, heard: seq<Hearing>, h: Hearing)
    requires forall i :: 0 <= i < |heard| ==> Ack(number, heard[i].window) in y.acks
    requires Ack(number, h.window) in y.acks
    ensures var steps := Hearings(number, heard + [h]);
            && LegalRun(c, y, steps)
            && Answer(c, y.session, number, heard, h) <= Run(c, y, steps).net
            && Run(c, y, steps).session == After(c, y.session, number, heard + [h])
  {
    hide OnAck, OnAckEvents, LegalRun, Run, Segments, Timers, Fins;
    HearingsRun(c, y, number, heard);
    HearingsRun(c, y, number, heard + [h]);
    var mid := Run(c, y, Hearings(number, heard));
    var last := AckArrives(Ack(number, h.window), h.now);
    StreamRuns.OneStep(c, mid, last);
    StreamRuns.RunConcat(c, y, Hearings(number, heard), [last]);
    assert Hearings(number, heard + [h]) == Hearings(number, heard) + [last];
  }

  /**
   Without the timer: the repeats, the arrival of what the last one resends and its acknowledgement
   move the transfer on from every reachable state with bytes in flight.
   */
  lemma FastRecoveryProgresses(
    c: Config, history: nat, y: System, number: Dword, heard: seq<Hearing>, h: Hearing, window: Window, later: nat)
    requires FitsSequenceSpace(c, history) && Inv(c, history, y) && HeardOnce(c, y.session, number)
    requires |heard| + 1 == Patience(c) && c.mss > 0 && c.maxBurst > 0 && Admits(h.window, c.mss)
    requires forall i :: 0 <= i < |heard| ==> Ack(number, heard[i].window) in y.acks
    requires Ack(number, h.window) in y.acks
    ensures var steps := Hearings(number, heard + [h]);
            && LegalRun(c, y, steps)
            && var resent := Run(c, y, steps);
            && OldestUnacked(c, y.session) in resent.net
            && var arrived := Apply(c, resent, SegmentArrives(OldestUnacked(c, y.session), window));
            && Ack(arrived.next, window) in arrived.acks
            && var acked := Apply(c, arrived, AckArrives(Ack(arrived.next, window), later));
            && acked.session.ackedOffset > y.session.ackedOffset
  {
    hide OnAck, OnAckEvents, LegalRun, Run, Inv, Answer, After;
    LastHearing(c, y, number, heard, h);
    LastRepeatResends(c, y.session, number, heard, h);
    var steps := Hearings(number, heard + [h]);
    var resent := Run(c, y, steps);
    RunKeeps(c, history, y, steps);
    var segment := OldestUnacked(c, y.session);
    var arrived := Apply(c, resent, SegmentArrives(segment, window));
    SegmentArrivesKeeps(c, history, resent, segment, window);
    ArrivalExtends(c, history, resent, window);
    AckCatchesUp(c, history, arrived, Ack(arrived.next, window), later);
  }
}
