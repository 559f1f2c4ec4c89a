/**
 Losses without end, on the card's own clock: the window-filling sender resends and waits, gives up
 and is woken again, until its timer has no delay left.
 */
module BackoffRuns {
  import opened Bytes
  import opened SeqSpace
  import opened StreamSender
  import opened EventQueue

  // ---- the timers among the scheduled events ----

  function Callbacks(events: seq<Event>): seq<Event> {
    if events == [] then []
    else (if events[0].Callback? then [events[0]] else []) + Callbacks(events[1..])
  }

  lemma CallbacksHead(events: seq<Event>)
    ensures events == [] ==> Callbacks(events) == []
    ensures events != [] ==>
              && Callbacks(events) == Callbacks(events[..1]) + Callbacks(events[1..])
              && Callbacks(events[..1]) == if events[0].Callback? then [events[0]] else []
  {
  }

  lemma {:induction false} CallbacksOfConcat(a: seq<Event>, b: seq<Event>)
    ensures Callbacks(a + b) == Callbacks(a) + Callbacks(b)
    decreases |a|
  {
    hide Callbacks;
    CallbacksHead(a);
    if a == [] {
      assert a + b == b;
    } else {
      assert (a + b)[0] == a[0] && (a + b)[..1] == a[..1] && (a + b)[1..] == a[1..] + b;
      CallbacksHead(a + b);
      CallbacksOfConcat(a[1..], b);
      Associates(Callbacks(a[..1]), Callbacks(a[1..]), Callbacks(b));
    }
  }

  lemma {:induction false} BurstHasNone(c: Config, events: seq<Event>, from: nat, to: nat)
    requires Contiguous(c, events, from, to)
    ensures Callbacks(events) == []
    decreases |events|
  {
    if events != [] {
      BurstHasNone(c, events[1..], from + |events[0].segment.payload|, to);
    }
  }

  /** What is due and what is not, of a schedule with one timer or none. */
  lemma {:induction false} DueCallbacks(events: seq<Event>, now: nat)
    ensures Callbacks(Due(events, now)) == Due(Callbacks(events), now)
    ensures Callbacks(NotYet(events, now)) == NotYet(Callbacks(events), now)
    decreases |events|
  {
    hide Callbacks, Due, NotYet;
    DueHead(events, now);
    CallbacksHead(events);
    if events != [] {
      var head, tail := events[..1], events[1..];
      DueCallbacks(tail, now);
      CallbacksHead(head);
      CallbacksOfConcat([events[0]], Due(tail, now));
      CallbacksOfConcat([events[0]], NotYet(tail, now));
      DueOfConcat(Callbacks(head), Callbacks(tail), now);
      DueOfOne(events[0], now);
      DueOfNone(now);
      assert head == [events[0]];
    } else {
      DueOfNone(now);
    }
  }

  lemma DueOfNone(now: nat)
    ensures Due([], now) == [] && NotYet([], now) == []
  {
  }

  lemma DueOfOne(e: Event, now: nat)
    ensures Due([e], now) == (if e.atMs <= now then [e] else [])
    ensures NotYet([e], now) == (if e.atMs <= now then [] else [e])
  {
  }

  lemma DueOfConcat(a: seq<Event>, b: seq<Event>, now: nat)
    requires |a| <= 1
    ensures Due(a + b, now) == Due(a, now) + Due(b, now) && NotYet(a + b, now) == NotYet(a, now) + NotYet(b, now)
  {
    hide Due, NotYet;
    DueOfNone(now);
    if a == [] {
      assert a + b == b;
    } else {
      assert (a + b)[0] == a[0] && (a + b)[1..] == b && a == [a[0]];
      DueHead(a + b, now);
      DueOfOne(a[0], now);
    }
  }

  lemma CallbackOrNot(e: Event)
    ensures Callbacks([e]) == if e.Callback? then [e] else []
  {
    hide Callbacks;
    CallbacksHead([e]);
    CallbacksHead([]);
    assert [e][..1] == [e] && [e][1..] == [];
  }

  lemma {:induction false} InsertedCallbacks(e: Event, sorted: seq<Event>)
    requires e.Callback? ==> Callbacks(sorted) == []
    ensures Callbacks(Insert(e, sorted)) == Callbacks([e]) + Callbacks(sorted)
    decreases |sorted|
  {
    hide Callbacks;
    if sorted == [] || e.atMs <= sorted[0].atMs {
      CallbacksOfConcat([e], sorted);
    } else {
      CallbacksHead(sorted);
      assert sorted[..1] == [sorted[0]];
      CallbacksOfConcat([sorted[0]], Insert(e, sorted[1..]));
      CallbackOrNot(e);
      assert |Callbacks(sorted)| == |Callbacks([sorted[0]])| + |Callbacks(sorted[1..])|;
      InsertedCallbacks(e, sorted[1..]);
    }
  }

  /** Sorting a schedule with one timer at most keeps that timer. */
  lemma {:induction false} SortedCallbacks(events: seq<Event>)
    requires |Callbacks(events)| <= 1
    ensures Callbacks(StableSort(events)) == Callbacks(events)
    decreases |events|
  {
    hide Callbacks;
    CallbacksHead(events);
    if events != [] {
      assert events[..1] == [events[0]];
      CallbackOrNot(events[0]);
      SortedCallbacks(events[1..]);
      InsertedCallbacks(events[0], StableSort(events[1..]));
    }
  }

  // ---- what a round of the pump does to the session ----

  /** The session and the timers of a world. */
  ghost predicate Holds(w: World, session: Session, callbacks: seq<Event>) {
    w.session == session && Callbacks(w.pending) == callbacks
  }

  /** Arrivals leave the session and its timers alone. */
  lemma {:induction false} ArrivalsOnly(c: Config, w: World, ready: seq<Event>)
    requires Callbacks(ready) == []
    ensures var w' := FireAll(c, w, ready); w'.session == w.session && w'.pending == w.pending && w'.now == w.now
    decreases |ready|
  {
    hide OnTimer, OnTimerEvents, Callbacks;
    CallbacksHead(ready);
    if ready != [] {
      ArrivalsOnly(c, Fire(c, w, ready[0]), ready[1..]);
    }
  }

  /** Among arrivals one timer fires. */
  lemma {:induction false} OneFires(c: Config, w: World, ready: seq<Event>, e: Event)
    requires Callbacks(ready) == [e] && e.Callback?
    ensures var w' := FireAll(c, w, ready);
            && w'.session == OnTimer(c, w.session, w.now, e.timer) && w'.now == w.now
            && w'.pending == w.pending + OnTimerEvents(c, w.session, w.now, e.timer)
    decreases |ready|
  {
    hide OnTimer, OnTimerEvents, Callbacks;
    CallbacksHead(ready);
    if ready[0].Callback? {
      assert |Callbacks(ready)| == 1 + |Callbacks(ready[1..])|;
      assert Callbacks(ready[1..]) == [] && Callbacks(ready)[0] == ready[0];
      ArrivalsOnly(c, Fire(c, w, ready[0]), ready[1..]);
    } else {
      OneFires(c, Fire(c, w, ready[0]), ready[1..], e);
    }
  }

  lemma QuietRound(c: Config, w: World)
    requires |Callbacks(w.pending)| <= 1 && Due(Callbacks(w.pending), w.now) == []
    ensures Holds(Round(c, w), w.session, Callbacks(w.pending)) && Round(c, w).now == w.now
  {
    hide Callbacks, Due, NotYet, StableSort, FireAll;
    DueCallbacks(w.pending, w.now);
    SortedCallbacks(Due(w.pending, w.now));
    ArrivalsOnly(c, w.(pending := NotYet(w.pending, w.now)), StableSort(Due(w.pending, w.now)));
    NoneDue(Callbacks(w.pending), w.now);
  }

  lemma NoneDue(events: seq<Event>, now: nat)
    requires |events| <= 1 && Due(events, now) == []
    ensures NotYet(events, now) == events
  {
    if events != [] {
      assert events == [events[0]];
      DueOfOne(events[0], now);
    }
  }

  lemma TimerRound(c: Config, w: World, e: Event)
    requires Callbacks(w.pending) == [e] && e.Callback? && e.atMs <= w.now
    ensures var s', events := OnTimer(c, w.session, w.now, e.timer), OnTimerEvents(c, w.session, w.now, e.timer);
            Holds(Round(c, w), s', Callbacks(events)) && Round(c, w).now == w.now
    ensures Due(w.pending, w.now) != []
  {
    hide Callbacks, Due, NotYet, StableSort, FireAll, OnTimer, OnTimerEvents;
    DueCallbacks(w.pending, w.now);
    DueOfOne(e, w.now);
    SortedCallbacks(Due(w.pending, w.now));
    var rest := w.(pending := NotYet(w.pending, w.now));
    OneFires(c, rest, StableSort(Due(w.pending, w.now)), e);
    CallbacksOfConcat(rest.pending, OnTimerEvents(c, w.session, w.now, e.timer));
    CallbacksHead([]);
  }

  lemma {:induction false} QuietPump(c: Config, w: World, rounds: nat)
    requires |Callbacks(w.pending)| <= 1 && Due(Callbacks(w.pending), w.now) == []
    ensures var w' := Pump(c, w, rounds); Holds(w', w.session, Callbacks(w.pending)) && w'.now == w.now
    decreases rounds
  {
    hide Callbacks, Due, Round;
    if rounds > 0 && Due(w.pending, w.now) != [] {
      QuietRound(c, w);
      QuietPump(c, Round(c, w), rounds - 1);
    }
  }

  // ---- one loss after the other ----

  /** `k` losses in a row, nothing acknowledged: the timer was armed just now, or the sender has given up. */
  ghost predicate Lossy(c: Config, w: World, window: Window, k: nat) {
    && w.session.ackedOffset == 0 && w.session.sentOffset <= Total(c) && w.session.backoff == k
    && Callbacks(w.pending) ==
       if w.session.rtoArmed then [Callback(w.now + RtoDelay(c, k), Timer(0, k, window))] else []
  }

  /** A response, an MSS and a burst, and a window that admits a segment. */
  ghost predicate Sends(c: Config, window: Window) {
    Total(c) > 0 && c.mss > 0 && c.maxBurst > 0 && Admits(window, c.mss)
  }

  predicate Delays(c: Config) {
    c.rtoMs > 0 && c.rtoMaxMs > 0
  }

  lemma EmissionArms(c: Config, s: Session, now: nat, window: Window, burst: nat)
    requires Sends(c, window) && burst > 0 && s.ackedOffset == 0 && s.sentOffset <= Total(c)
    ensures var s' := Emit(c, s, now, window, burst);
            && s'.rtoArmed && s'.ackedOffset == 0 && s'.backoff == s.backoff && s'.sentOffset <= Total(c)
            && s'.retransmits == s.retransmits
            && Callbacks(EmitEvents(c, s, now, window, burst)) ==
               if s.rtoArmed then [] else [Callback(now + RtoDelay(c, s.backoff), Timer(0, s.backoff, window))]
  {
    hide Burst, BurstEvents, Contiguous, WithinWindow, InOrder, RtoDelay;
    BurstIs(c, s, now, window, burst, 0);
    if s.sentOffset == 0 {
      BurstMoves(c, s, now, window, burst);
    }
    var sent, data := Burst(c, s, now, window, burst, 0), BurstEvents(c, s, now, window, burst, 0);
    BurstHasNone(c, data, s.sentOffset, sent.sentOffset);
    CallbacksOfConcat(data, ArmEvents(c, sent, now, window));
  }

  /** An acknowledgement of nothing arms the timer, even after the sender has given up. */
  lemma AckArms(c: Config, w: World, window: Window, k: nat)
    requires Sends(c, window) && Lossy(c, w, window, k)
    ensures var w' := Step(c, w, Acknowledge(c.responseSeq, window));
            Lossy(c, w', window, k) && w'.session.rtoArmed && w'.now == w.now
  {
    hide Emit, EmitEvents, AckedBy, Callbacks, RtoDelay;
    assert SeqAt(c.responseSeq, 0) == c.responseSeq;
    OffsetReadsBack(c.responseSeq, 0);
    EmissionArms(c, CountDuplicate(c, w.session, c.responseSeq), w.now, window, c.maxBurst);
    CallbacksOfConcat(w.pending, OnAckEvents(c, w.session, w.now, c.responseSeq, window));
  }

  /** The timer's expiry, when it is due. */
  lemma LossIs(c: Config, s: Session, now: nat, window: Window, k: nat)
    requires Sends(c, window) && s.ackedOffset == 0 && s.sentOffset <= Total(c)
    ensures var t := Timer(0, k, window);
            var s', events := OnTimer(c, s, now, t), OnTimerEvents(c, s, now, t);
            && s'.ackedOffset == 0 && s'.sentOffset <= Total(c) && s'.backoff == k + 1
            && s'.retransmits == s.retransmits + 1
            && s'.rtoArmed == (k + 1 <= c.maxRetransmits)
            && Callbacks(events) ==
               if s'.rtoArmed then [Callback(now + RtoDelay(c, k + 1), Timer(0, k + 1, window))] else []
  {
    hide Emit, EmitEvents, RtoDelay;
    if !GivesUp(c, Timer(0, k, window)) {
      EmissionArms(c, Rewound(s, now, Timer(0, k, window)), now, window, 1);
    }
  }

  /** The world in which the timer has just come due, before the card's schedule is pumped. */
  function Expiry(c: Config, w: World, k: nat): World {
    w.(now := w.now + RtoDelay(c, k))
  }

  lemma LossRound(c: Config, w: World, window: Window, k: nat)
    requires Sends(c, window) && Lossy(c, w, window, k) && w.session.rtoArmed
    ensures var late := Expiry(c, w, k);
            && Lossy(c, Round(c, late), window, k + 1) && Due(late.pending, late.now) != []
            && Round(c, late).now == late.now && Round(c, late).session.retransmits == w.session.retransmits + 1
            && (Round(c, late).session.rtoArmed <==> k + 1 <= c.maxRetransmits)
  {
    hide Callbacks, Due, Round, OnTimer, OnTimerEvents, RtoDelay;
    var late := Expiry(c, w, k);
    TimerRound(c, late, Callback(late.now, Timer(0, k, window)));
    LossIs(c, w.session, late.now, window, k);
  }

  /** With a delay the next timer is not due yet, and the pump comes to rest with it pending. */
  lemma LossStep(c: Config, w: World, window: Window, k: nat)
    requires Sends(c, window) && Lossy(c, w, window, k) && w.session.rtoArmed
    requires k + 1 > c.maxRetransmits || RtoDelay(c, k + 1) > 0
    ensures var w' := Step(c, w, Advance(RtoDelay(c, k)));
            && Lossy(c, w', window, k + 1) && (w'.session.rtoArmed <==> k + 1 <= c.maxRetransmits)
  {
    hide Callbacks, Due, Round, RtoDelay;
    var late := Expiry(c, w, k);
    LossRound(c, w, window, k);
    var fired := Round(c, late);
    if fired.session.rtoArmed {
      DueOfOne(Callbacks(fired.pending)[0], late.now);
    } else {
      DueOfNone(late.now);
    }
    QuietPump(c, fired, ROUNDS - 1);
  }

  lemma {:induction false} RunConcat(c: Config, w: World, a: seq<Op>, b: seq<Op>)
    ensures Run(c, w, a + b) == Run(c, Run(c, w, a), b)
    decreases |a|
  {
    hide Step;
    if a == [] {
      assert a + b == b;
    } else {
      assert (a + b)[0] == a[0] && (a + b)[1..] == a[1..] + b;
      RunConcat(c, Step(c, w, a[0]), a[1..], b);
    }
  }

  lemma OneOp(c: Config, w: World, op: Op)
    ensures Run(c, w, [op]) == Step(c, w, op) && Run(c, w, []) == w
  {
    hide Step;
    assert [op][1..] == [];
    assert Run(c, Step(c, w, op), []) == Step(c, w, op);
  }

  /** The host acknowledges nothing and the clock runs to the timer, `k` times, and the host acknowledges again. */
  function Losses(c: Config, window: Window, k: nat): seq<Op> {
    if k == 0 then [Acknowledge(c.responseSeq, window)]
    else Losses(c, window, k - 1) + [Advance(RtoDelay(c, k - 1)), Acknowledge(c.responseSeq, window)]
  }

  lemma {:induction false} LossesAddUp(c: Config, w: World, window: Window, k: nat)
    requires Sends(c, window) && Delays(c) && Lossy(c, w, window, 0) && k <= 30
    ensures var w' := Run(c, w, Losses(c, window, k)); Lossy(c, w', window, k) && w'.session.rtoArmed
    decreases k
  {
    hide Step, Lossy, Run, RtoDelay;
    var ack := Acknowledge(c.responseSeq, window);
    if k == 0 {
      OneOp(c, w, ack);
      AckArms(c, w, window, 0);
    } else {
      LossesAddUp(c, w, window, k - 1);
      var before := Run(c, w, Losses(c, window, k - 1));
      var late := Advance(RtoDelay(c, k - 1));
      CappedDelay(c, k);
      DelayIsPositive(c, k);
      LossStep(c, before, window, k - 1);
      AckArms(c, Step(c, before, late), window, k);
      OneOp(c, before, late);
      OneOp(c, Step(c, before, late), ack);
      assert [late, ack] == [late] + [ack];
      RunConcat(c, before, [late], [ack]);
      RunConcat(c, w, Losses(c, window, k - 1), [late, ack]);
    }
  }

  lemma DelayIsPositive(c: Config, k: nat)
    requires c.rtoMs > 0 && c.rtoMaxMs > 0 && k <= 30
    ensures RtoDelay(c, k) > 0
  {
    hide Pow2, RtoDelay;
    CappedDelay(c, k);
  }

  /** The peer's world at the beginning of a response. */
  const QUIET := World(FRESH, [], 0, [])

  /** A timer that is due as soon as it is armed, at the count of losses where the exponential delay is longest. */
  ghost predicate NoDelay(c: Config, w: World, window: Window) {
    Callback(w.now, Timer(0, 31, window)) in w.pending
  }

  /**
   The backoff breaks in a run of every configuration that sends, on the card's own clock and whatever the limit
   of losses. After 30 losses the clock runs to the timer once more; then a timer without delay is armed: at once
   in the first round of the pump, or, where the sender gives up there, by the next acknowledgement of nothing.
   */
  lemma BackoffBreaks(c: Config, window: Window)
    requires Sends(c, window) && Delays(c)
    ensures RtoDelay(c, 31) == 0 < Min(c.rtoMs * Pow2(31), c.rtoMaxMs)
    ensures var w := Run(c, QUIET, Losses(c, window, 30));
            var next := Step(c, w, Advance(RtoDelay(c, 30)));
            if c.maxRetransmits >= 31 then NoDelay(c, Round(c, Expiry(c, w, 30)), window)
            else NoDelay(c, Step(c, next, Acknowledge(c.responseSeq, window)), window)
  {
    hide Step, Run, Round, Pow2, RtoDelay, Losses, Callbacks;
    CappedDelay(c, 31);
    CallbacksHead([]);
    LossesAddUp(c, QUIET, window, 30);
    var w := Run(c, QUIET, Losses(c, window, 30));
    if c.maxRetransmits >= 31 {
      LossRound(c, w, window, 30);
      OneOf(Round(c, Expiry(c, w, 30)).pending);
    } else {
      LossStep(c, w, window, 30);
      var next := Step(c, w, Advance(RtoDelay(c, 30)));
      AckArms(c, next, window, 31);
      OneOf(Step(c, next, Acknowledge(c.responseSeq, window)).pending);
    }
  }

  lemma {:induction false} OneOf(events: seq<Event>)
    ensures forall e :: e in Callbacks(events) ==> e in events
    decreases |events|
  {
    if events != [] {
      OneOf(events[1..]);
    }
  }

  // ---- the bound of the pump ----

  /** A timer without delay is armed and fires in every round. */
  lemma {:induction false} EveryRoundFires(c: Config, w: World, window: Window, k: nat, rounds: nat)
    requires Sends(c, window) && c.rtoMaxMs == 0 && Lossy(c, w, window, k) && w.session.rtoArmed
    requires k + rounds <= c.maxRetransmits
    ensures var w' := Pump(c, w, rounds);
            && Lossy(c, w', window, k + rounds) && w'.session.rtoArmed && w'.now == w.now
            && w'.session.retransmits == w.session.retransmits + rounds
    decreases rounds
  {
    hide Due, Round, RtoDelay, Lossy;
    if rounds > 0 {
      NoDelayAtAll(c, k);
      LossRound(c, w, window, k);
      EveryRoundFires(c, Round(c, w), window, k + 1, rounds - 1);
    }
  }

  lemma NoDelayAtAll(c: Config, k: nat)
    requires c.rtoMaxMs == 0
    ensures RtoDelay(c, k) == 0
  {
    hide ShiftOne;
  }

  /** With timers that have no delay one advance of the clock resends 64 times, and leaves the next timer due. */
  lemma PumpStops(c: Config, w: World, window: Window, k: nat)
    requires Sends(c, window) && c.rtoMaxMs == 0 && Lossy(c, w, window, k) && w.session.rtoArmed
    requires k + 64 <= c.maxRetransmits
    ensures var w' := Step(c, w, Advance(0));
            && w'.session.retransmits == w.session.retransmits + 64
            && Callbacks(w'.pending) == [Callback(w'.now, Timer(0, k + 64, window))]
  {
    hide Pump, Callbacks, RtoDelay;
    EveryRoundFires(c, w, window, k, 64);
    NoDelayAtAll(c, k + 64);
  }
}
