/**
 When the window-filling peer sends: a burst fills the window at the configured pace, and an expiry of
 the retransmission timer starts the pace, the timer and the backoff afresh.
 */
module StreamTiming {
  import opened Bytes
  import opened SeqSpace
  import opened StreamSender
  import opened GoBackN

  /** When the next burst starts. */
  function Begins(c: Config, s: Session, now: nat): nat {
    Max(s.nextMs, now + c.afterMs)
  }

  lemma {:induction false} PacedFrom(c: Config, s: Session, now: nat, window: Window, burst: nat, emitted: nat)
    requires emitted > 0 && s.nextMs >= now + c.afterMs
    ensures var events := BurstEvents(c, s, now, window, burst, emitted);
            && (forall k :: 0 <= k < |events| ==> events[k].atMs == s.nextMs + (k + 1) * c.gapMs)
            && Burst(c, s, now, window, burst, emitted).nextMs == s.nextMs + |events| * c.gapMs
    decreases burst - emitted
  {
    if MayEmit(c, s, window, burst, emitted) {
      var next := s.(sentOffset := s.sentOffset + NextSize(c, s), nextMs := s.nextMs + c.gapMs);
      PacedFrom(c, next, now, window, burst, emitted + 1);
      var events := BurstEvents(c, s, now, window, burst, emitted);
      var rest := BurstEvents(c, next, now, window, burst, emitted + 1);
      forall k | 0 <= k < |events|
        ensures events[k].atMs == s.nextMs + (k + 1) * c.gapMs
      {
        OneMoreGap(k, c.gapMs);
        if k > 0 {
          assert events[k] == rest[k - 1];
        }
      }
      OneMoreGap(|rest|, c.gapMs);
    }
  }

  lemma OneMoreGap(k: nat, gap: nat)
    ensures (k + 1) * gap == k * gap + gap
  {
  }

  /** The segments of a burst are due one gap apart, the first after the delay and not before the burst before. */
  lemma BurstIsPaced(c: Config, s: Session, now: nat, window: Window, burst: nat)
    ensures var events := BurstEvents(c, s, now, window, burst, 0);
            && (forall k :: 0 <= k < |events| ==> events[k].atMs == Begins(c, s, now) + k * c.gapMs)
            && Burst(c, s, now, window, burst, 0).nextMs ==
               if events == [] then s.nextMs else Begins(c, s, now) + (|events| - 1) * c.gapMs
  {
    if MayEmit(c, s, window, burst, 0) {
      var next := s.(sentOffset := s.sentOffset + NextSize(c, s), nextMs := Begins(c, s, now));
      PacedFrom(c, next, now, window, burst, 1);
      var events, rest := BurstEvents(c, s, now, window, burst, 0), BurstEvents(c, next, now, window, burst, 1);
      hide MayEmit, BurstEvents;
      assert events == [events[0]] + rest && events[0].atMs == Begins(c, s, now);
    }
  }

  /** Every segment is full but the response's last, and the burst ends only where window, burst or response do. */
  lemma {:induction false} BurstFills(c: Config, s: Session, now: nat, window: Window, burst: nat, emitted: nat)
    requires s.sentOffset <= Total(c) && emitted <= burst
    ensures var s', events := Burst(c, s, now, window, burst, emitted), BurstEvents(c, s, now, window, burst, emitted);
            && (s'.sentOffset == Total(c) || emitted + |events| == burst
                || !Admits(window, s'.sentOffset - s'.ackedOffset + c.mss))
            && (forall k :: 0 <= k < |events| ==> events[k].Arrival? && |events[k].segment.payload| <= c.mss)
            && (forall k :: 0 <= k < |events| && k + 1 < |events| ==> |events[k].segment.payload| == c.mss)
            && (s'.sentOffset < Total(c) ==> forall k :: 0 <= k < |events| ==> |events[k].segment.payload| == c.mss)
    decreases burst - emitted
  {
    hide NextDue;
    if MayEmit(c, s, window, burst, emitted) {
      var next := s.(sentOffset := s.sentOffset + NextSize(c, s), nextMs := NextDue(c, s, now, emitted));
      BurstFills(c, next, now, window, burst, emitted + 1);
      BurstIs(c, next, now, window, burst, emitted + 1);
      var events := BurstEvents(c, s, now, window, burst, emitted);
      var rest := BurstEvents(c, next, now, window, burst, emitted + 1);
      hide Contiguous, WithinWindow, InOrder;
      if next.sentOffset == Total(c) {
        assert rest == [];
      }
      assert forall k :: 0 < k < |events| ==> events[k] == rest[k - 1];
    }
  }

  /** A timer that finds progress starts again without backoff, as long as bytes are in flight. */
  lemma ProgressResets(c: Config, s: Session, now: nat, t: Timer)
    requires s.ackedOffset > t.atOffset
    ensures var inFlight := s.sentOffset > s.ackedOffset;
            && OnTimer(c, s, now, t) == s.(rtoArmed := inFlight, backoff := 0)
            && OnTimerEvents(c, s, now, t) ==
               if inFlight then [Callback(now + Min(c.rtoMs, c.rtoMaxMs), Timer(s.ackedOffset, 0, t.window))] else []
  {
  }

  /** The sender gives up with its limit of losses, and not before. */
  lemma GivesUpAtLimit(c: Config, s: Session, now: nat, t: Timer)
    requires s.ackedOffset <= t.atOffset && s.ackedOffset < Total(c)
    ensures t.backoff >= c.maxRetransmits ==>
              && OnTimer(c, s, now, t) ==
                 s.(rtoArmed := false, retransmits := s.retransmits + 1, backoff := t.backoff + 1)
              && OnTimerEvents(c, s, now, t) == []
    ensures OnTimer(c, s, now, t).retransmits == s.retransmits + 1
    ensures OnTimer(c, s, now, t).backoff == t.backoff + 1
  {
    hide NextDue;
    if t.backoff < c.maxRetransmits {
      hide Burst;
      BurstKeeps(c, Rewound(s, now, t), now, t.window);
    }
  }

  lemma BurstKeeps(c: Config, s: Session, now: nat, window: Window)
    requires s.sentOffset <= Total(c)
    ensures Burst(c, s, now, window, 1, 0).retransmits == s.retransmits
    ensures Burst(c, s, now, window, 1, 0).backoff == s.backoff
  {
    hide Contiguous, WithinWindow, InOrder;
    BurstIs(c, s, now, window, 1, 0);
  }

  /** Before that it resends the oldest segment as soon as any other, and waits for it with one loss more. */
  lemma ExpirySchedules(c: Config, s: Session, now: nat, t: Timer)
    requires s.ackedOffset <= t.atOffset && s.ackedOffset < Total(c) && t.backoff < c.maxRetransmits
    requires Admits(t.window, c.mss) && c.mss > 0
    ensures OnTimerEvents(c, s, now, t) ==
            [Arrival(now + c.afterMs, OldestUnacked(c, s)),
             Callback(now + RtoDelay(c, t.backoff + 1), Timer(s.ackedOffset, t.backoff + 1, t.window))]
    ensures OnTimer(c, s, now, t) ==
            s.(rtoArmed := true, retransmits := s.retransmits + 1, backoff := t.backoff + 1,
               sentOffset := s.ackedOffset + Min(c.mss, Total(c) - s.ackedOffset), nextMs := now + c.afterMs)
  {
    hide RtoDelay;
    var rewound := Rewound(s, now, t);
    var next := rewound.(sentOffset := rewound.sentOffset + NextSize(c, rewound), nextMs := now + c.afterMs);
    assert !MayEmit(c, next, t.window, 1, 1);
    assert Burst(c, rewound, now, t.window, 1, 0) == next;
    assert BurstEvents(c, rewound, now, t.window, 1, 0) == [Arrival(now + c.afterMs, OldestUnacked(c, s))] + [];
  }

  /** With everything acknowledged it does nothing more. */
  lemma FinishedStops(c: Config, s: Session, now: nat, t: Timer)
    requires Total(c) <= s.ackedOffset <= t.atOffset
    ensures OnTimer(c, s, now, t) == s.(rtoArmed := false) && OnTimerEvents(c, s, now, t) == []
  {
  }

  /** The FIN goes out once, when everything is acknowledged, and a configured delay later. */
  lemma FinGoesOutOnce(c: Config, s: Session, now: nat, ack: Dword, window: Window)
    requires s.ackedOffset == Total(c) || (s.ackedOffset < Total(c) && AckedBy(c.responseSeq, ack) == Total(c))
    ensures OnAckEvents(c, s, now, ack, window) ==
            if s.finSent then [] else [Arrival(now + c.afterMs, Segment(SeqAt(c.responseSeq, Total(c)), [], true))]
    ensures OnAck(c, s, now, ack, window) == s.(ackedOffset := Total(c), finSent := true)
  {
    hide AckedBy;
  }
}
