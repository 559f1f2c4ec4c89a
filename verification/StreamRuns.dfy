/** Rounds without losses of the window-filling sender and the acceptor, which complete the transfer. */
module StreamRuns {
  import opened Bytes
  import opened SeqSpace
  import opened StreamSender
  import opened GoBackN

  lemma {:induction false} RunConcat(c: Config, y: System, a: seq<Step>, b: seq<Step>)
    requires LegalRun(c, y, a) && LegalRun(c, Run(c, y, a), b)
    ensures LegalRun(c, y, a + b) && Run(c, y, a + b) == Run(c, Run(c, y, a), b)
    decreases |a|
  {
    hide Apply, Enabled;
    if a == [] {
      assert a + b == b;
    } else {
      assert (a + b)[0] == a[0] && (a + b)[1..] == a[1..] + b;
      RunConcat(c, Apply(c, y, a[0]), a[1..], b);
    }
  }

  lemma OneStep(c: Config, y: System, step: Step)
    requires Enabled(y, step)
    ensures LegalRun(c, y, [step]) && Run(c, y, [step]) == Apply(c, y, step)
  {
    hide Apply, Enabled;
    assert [step][1..] == [];
  }

  /** The segments of an emission arrive in order, and each is acknowledged. */
  function Delivered(y: System, events: seq<Event>, window: Window): System
    decreases |events|
  {
    if events == [] then y
    else
      Delivered(if events[0].Arrival? then Acknowledge(Accept(y, events[0].segment), window) else y,
                events[1..], window)
  }

  /** The acceptor acknowledges what it has, and everything the sender answers arrives. */
  function Round(c: Config, y: System, now: nat, window: Window): System {
    var told := Acknowledge(y, window);
    var events := OnAckEvents(c, told.session, now, told.next, window);
    Delivered(Sent(told, OnAck(c, told.session, now, told.next, window), told.timers, events), events, window)
  }

  lemma {:induction false} DeliveredIsRun(c: Config, y: System, events: seq<Event>, window: Window)
    returns (steps: seq<Step>)
    requires Segments(events) <= y.net
    ensures LegalRun(c, y, steps) && Run(c, y, steps) == Delivered(y, events, window)
    decreases |events|
  {
    hide Accept, Segments;
    steps := [];
    if events != [] {
      FirstEvent(events);
      NetStays(y, events[0], window);
      var rest := DeliveredIsRun(
        c, if events[0].Arrival? then Acknowledge(Accept(y, events[0].segment), window) else y, events[1..], window);
      steps := rest;
      if events[0].Arrival? {
        var step := SegmentArrives(events[0].segment, window);
        steps := [step] + rest;
        OneStep(c, y, step);
        RunConcat(c, y, [step], rest);
      }
    }
  }

  lemma NetStays(y: System, e: Event, window: Window)
    ensures e.Arrival? ==> Acknowledge(Accept(y, e.segment), window).net == y.net
  {
  }

  /** A round is a run of the system. */
  lemma RoundIsRun(c: Config, y: System, now: nat, window: Window) returns (steps: seq<Step>)
    ensures LegalRun(c, y, steps) && Run(c, y, steps) == Round(c, y, now, window)
  {
    hide OnAck, OnAckEvents, LegalRun, Run, Segments, Delivered;
    var told := Acknowledge(y, window);
    var first, second := WindowUpdate(window), AckArrives(Ack(told.next, window), now);
    var events := OnAckEvents(c, told.session, now, told.next, window);
    var sent := Apply(c, told, second);
    var rest := DeliveredIsRun(c, sent, events, window);
    OneStep(c, y, first);
    OneStep(c, told, second);
    RunConcat(c, told, [second], rest);
    RunConcat(c, y, [first], [second] + rest);
    steps := [first] + ([second] + rest);
  }

  /** The acceptor has everything that was sent, and the sender has not sent FIN. */
  ghost predicate Caught(c: Config, y: System) {
    && y.session.ackedOffset <= y.session.sentOffset <= Total(c) && !y.session.finSent && !y.eof
    && y.accepted == c.response[..y.session.sentOffset]
    && y.next == SeqAt(c.responseSeq, y.session.sentOffset)
  }

  ghost predicate Complete(c: Config, y: System) {
    && y.accepted == c.response && y.eof && y.session.finSent && y.session.ackedOffset == Total(c)
    && y.next == SeqAt(c.responseSeq, Total(c) + 1)
  }

  lemma {:induction false} DataArrives(c: Config, y: System, events: seq<Event>, from: nat, to: nat, window: Window)
    requires Contiguous(c, events, from, to) && from <= Total(c)
    requires y.accepted == c.response[..from] && !y.eof && y.next == SeqAt(c.responseSeq, from)
    ensures var y' := Delivered(y, events, window);
            && to <= Total(c) && y'.accepted == c.response[..to] && !y'.eof
            && y'.next == SeqAt(c.responseSeq, to) && y'.session == y.session
    decreases |events|
  {
    hide Wrap;
    if events != [] {
      var size := |events[0].segment.payload|;
      WrapStep(c.responseSeq + from, size);
      assert c.response[..from] + c.response[from..from + size] == c.response[..from + size];
      DataArrives(c, Acknowledge(Accept(y, events[0].segment), window), events[1..], from + size, to, window);
    }
  }

  lemma {:induction false} TimersDoNotArrive(y: System, events: seq<Event>, timers: seq<Event>, window: Window)
    requires forall e :: e in timers ==> e.Callback?
    ensures Delivered(y, events + timers, window) == Delivered(y, events, window)
    decreases |events| + |timers|
  {
    hide Accept;
    if events != [] {
      assert (events + timers)[0] == events[0] && (events + timers)[1..] == events[1..] + timers;
      TimersDoNotArrive(if events[0].Arrival? then Acknowledge(Accept(y, events[0].segment), window) else y,
                        events[1..], timers, window);
    } else if timers != [] {
      assert events + timers == timers && timers[0] in timers;
      assert [] + timers[1..] == timers[1..];
      TimersDoNotArrive(y, [], timers[1..], window);
    } else {
      assert events + timers == events;
    }
  }

  lemma ArmIsCallback(c: Config, s: Session, now: nat, window: Window)
    ensures forall e :: e in ArmEvents(c, s, now, window) ==> e.Callback?
  {
    hide RtoDelay;
  }

  /** The first half of a round: the acknowledgement brings the sender up to date, and it answers. */
  lemma AnswerIs(c: Config, s: Session, now: nat, window: Window) returns (taken: Session)
    requires Total(c) + 1 < TWO32 && s.ackedOffset <= s.sentOffset <= Total(c)
    ensures taken == s.(ackedOffset := s.sentOffset)
    ensures taken == TakeAck(c, s, SeqAt(c.responseSeq, s.sentOffset))
    ensures s.sentOffset < Total(c) ==>
              CountDuplicate(c, taken, SeqAt(c.responseSeq, s.sentOffset)) ==
              taken.(dupAcks := 0, lastAck := Some(SeqAt(c.responseSeq, s.sentOffset)))
  {
    hide AckedBy, SeqAt;
    OffsetReadsBack(c.responseSeq, s.sentOffset);
    taken := s.(ackedOffset := s.sentOffset);
  }

  lemma DataRound(c: Config, y: System, now: nat, window: Window)
    requires Total(c) + 1 < TWO32 && Caught(c, y) && c.mss > 0 && c.maxBurst > 0 && Admits(window, c.mss)
    requires y.session.sentOffset < Total(c)
    ensures var y' := Round(c, y, now, window);
            Caught(c, y') && y'.session.sentOffset >= Min(y.session.sentOffset + c.mss, Total(c))
  {
    hide Burst, BurstEvents, ArmEvents, Delivered, SeqAt, Contiguous, WithinWindow, InOrder, TakeAck, CountDuplicate;
    var ack := SeqAt(c.responseSeq, y.session.sentOffset);
    var taken := AnswerIs(c, y.session, now, window);
    var counted := CountDuplicate(c, taken, ack);
    var sent := Burst(c, counted, now, window, c.maxBurst, 0);
    var data := BurstEvents(c, counted, now, window, c.maxBurst, 0);
    var timers := ArmEvents(c, sent, now, window);
    BurstIs(c, counted, now, window, c.maxBurst, 0);
    BurstMoves(c, counted, now, window, c.maxBurst);
    ArmIsCallback(c, sent, now, window);
    var told := Acknowledge(y, window);
    var answered := Sent(told, OnAck(c, told.session, now, ack, window), told.timers, data + timers);
    DataArrives(c, answered, data, counted.sentOffset, sent.sentOffset, window);
    TimersDoNotArrive(answered, data, timers, window);
  }

  lemma FinRound(c: Config, y: System, now: nat, window: Window)
    requires Total(c) + 1 < TWO32 && Caught(c, y) && y.session.sentOffset == Total(c)
    ensures Complete(c, Round(c, y, now, window))
  {
    hide AckedBy, Wrap;
    var taken := AnswerIs(c, y.session, now, window);
    WrapStep(c.responseSeq + Total(c), 1);
    var told := Acknowledge(y, window);
    var e := Arrival(now + c.afterMs, FinSegment(c));
    assert OnAckEvents(c, told.session, now, told.next, window) == [e];
    var sent := Sent(told, OnAck(c, told.session, now, told.next, window), told.timers, [e]);
    assert Delivered(sent, [e], window) == Delivered(Acknowledge(Accept(sent, FinSegment(c)), window), [], window);
  }

  lemma QuietRound(c: Config, y: System, now: nat, window: Window)
    requires Total(c) + 1 < TWO32 && Complete(c, y)
    ensures Complete(c, Round(c, y, now, window))
  {
    hide AckedBy, SeqAt;
    OffsetReadsBack(c.responseSeq, Total(c) + 1);
    NoEvents();
  }

  /** Rounds with these clock readings and windows. */
  ghost function Rounds(c: Config, y: System, rounds: seq<(nat, Window)>): System
    decreases |rounds|
  {
    if rounds == [] then y else Rounds(c, Round(c, y, rounds[0].0, rounds[0].1), rounds[1..])
  }

  lemma {:induction false} RoundsAreRun(c: Config, y: System, rounds: seq<(nat, Window)>) returns (steps: seq<Step>)
    ensures LegalRun(c, y, steps) && Run(c, y, steps) == Rounds(c, y, rounds)
    decreases |rounds|
  {
    hide Round;
    steps := [];
    if rounds != [] {
      var first := RoundIsRun(c, y, rounds[0].0, rounds[0].1);
      var rest := RoundsAreRun(c, Round(c, y, rounds[0].0, rounds[0].1), rounds[1..]);
      RunConcat(c, y, first, rest);
      steps := first + rest;
    }
  }

  lemma {:induction false} CompleteStays(c: Config, y: System, rounds: seq<(nat, Window)>)
    requires Total(c) + 1 < TWO32 && Complete(c, y)
    ensures Complete(c, Rounds(c, y, rounds))
    decreases |rounds|
  {
    hide Round, Complete;
    if rounds != [] {
      QuietRound(c, y, rounds[0].0, rounds[0].1);
      CompleteStays(c, Round(c, y, rounds[0].0, rounds[0].1), rounds[1..]);
    }
  }

  lemma {:induction false} CaughtCompletes(c: Config, y: System, rounds: seq<(nat, Window)>)
    requires Total(c) + 1 < TWO32 && Caught(c, y) && c.mss > 0 && c.maxBurst > 0
    requires forall i :: 0 <= i < |rounds| ==> Admits(rounds[i].1, c.mss)
    requires |rounds| > 0 && (|rounds| - 1) * c.mss >= Total(c) - y.session.sentOffset
    ensures Complete(c, Rounds(c, y, rounds))
    decreases |rounds|
  {
    hide Round, Complete, Admits;
    var next := Round(c, y, rounds[0].0, rounds[0].1);
    if y.session.sentOffset == Total(c) {
      FinRound(c, y, rounds[0].0, rounds[0].1);
      CompleteStays(c, next, rounds[1..]);
    } else {
      DataRound(c, y, rounds[0].0, rounds[0].1);
      OneRoundLess(|rounds|, c.mss, Total(c) - y.session.sentOffset, Total(c) - next.session.sentOffset);
      CaughtCompletes(c, next, rounds[1..]);
    }
  }

  lemma OneRoundLess(n: nat, mss: nat, left: nat, after: nat)
    requires n > 0 && mss > 0 && left > 0 && (n - 1) * mss >= left && after <= Max(0, left - mss)
    ensures n > 1 && (n - 2) * mss >= after
  {
    assert n == 1 ==> (n - 1) * mss == 0;
    assert (n - 2) * mss == (n - 1) * mss - mss;
    assert n >= 2 ==> (n - 2) * mss >= 0;
  }

  /**
   Without losses the transfer completes: after as many rounds as there are segments, and one for the FIN,
   each with a window of an MSS at least, the acceptor has the whole response and its end.
   */
  lemma LosslessCompletes(c: Config, history: nat, y: System, rounds: seq<(nat, Window)>) returns (steps: seq<Step>)
    requires FitsSequenceSpace(c, history) && Start(c, history, y) && c.mss > 0 && c.maxBurst > 0
    requires forall i :: 0 <= i < |rounds| ==> Admits(rounds[i].1, c.mss)
    requires |rounds| > 0 && (|rounds| - 1) * c.mss >= Total(c)
    ensures LegalRun(c, y, steps) && Run(c, y, steps) == Rounds(c, y, rounds)
    ensures Rounds(c, y, rounds).accepted == c.response && Rounds(c, y, rounds).eof
  {
    hide Rounds, LegalRun, Run, Admits;
    assert SeqAt(c.responseSeq, 0) == c.responseSeq;
    steps := RoundsAreRun(c, y, rounds);
    CaughtCompletes(c, y, rounds);
  }
}
