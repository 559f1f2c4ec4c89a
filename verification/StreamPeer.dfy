/** The window-filling peer and the card's schedule as objects that are updated in place. */
module StreamPeer {
  import opened Bytes
  import opened SeqSpace
  import opened StreamSender
  import opened EventQueue

  /** The clock of the card, what is scheduled on it and what its receiver was handed. */
  class Card {
    var currentMs: nat
    var pending: seq<Event>
    var delivered: seq<Segment>

    method Schedule(delayMs: int, segment: Segment)
      modifies this`pending
      ensures pending == old(pending) + [Arrival(currentMs + Max(0, delayMs), segment)]
    {
      pending := pending + [Arrival(currentMs + Max(0, delayMs), segment)];
    }

    method ScheduleCallback(delayMs: int, timer: Timer)
      modifies this`pending
      ensures pending == old(pending) + [Callback(currentMs + Max(0, delayMs), timer)]
    {
      pending := pending + [Callback(currentMs + Max(0, delayMs), timer)];
    }

    /** Separates what has come due from what has not, each in the order it was scheduled. */
    method Partition() returns (ready: seq<Event>, notYet: seq<Event>)
      ensures ready == Due(pending, currentMs) && notYet == NotYet(pending, currentMs)
    {
      ready, notYet := [], [];
      var i := 0;
      while i < |pending|
        invariant i <= |pending|
        invariant ready + Due(pending[i..], currentMs) == Due(pending, currentMs)
        invariant notYet + NotYet(pending[i..], currentMs) == NotYet(pending, currentMs)
      {
        Split(pending[i..], currentMs);
        if pending[i].atMs <= currentMs {
          ready := ready + [pending[i]];
        } else {
          notYet := notYet + [pending[i]];
        }
        i := i + 1;
      }
    }
  }

  lemma Split(events: seq<Event>, now: nat)
    requires events != []
    ensures Due(events, now) == (if events[0].atMs <= now then [events[0]] else []) + Due(events[1..], now)
    ensures NotYet(events, now) == (if events[0].atMs <= now then [] else [events[0]]) + NotYet(events[1..], now)
  {
  }

  class Peer {
    const config: Config
    const card: Card
    var sentOffset: nat
    var ackedOffset: nat
    var finSent: bool
    var dupAcks: nat
    var lastAck: Option<Dword>
    var rtoArmed: bool
    var backoff: nat
    var retransmits: nat
    var nextMs: nat

    constructor (config: Config, card: Card)
      ensures this.config == config && this.card == card && State() == FRESH
    {
      this.config, this.card := config, card;
      sentOffset, ackedOffset, finSent := 0, 0, false;
      dupAcks, lastAck := 0, None;
      rtoArmed, backoff, retransmits, nextMs := false, 0, 0, 0;
    }

    function State(): Session
      reads this
    {
      Session(sentOffset, ackedOffset, finSent, dupAcks, lastAck, rtoArmed, backoff, retransmits, nextMs)
    }

    function ToWorld(): World
      reads this, card
    {
      World(State(), card.pending, card.currentMs, card.delivered)
    }

    /** Emits as many segments as the window admits, each due no earlier than the one before. */
    method StreamEmit(window: Window, burst: nat)
      modifies this`sentOffset, this`nextMs, this`rtoArmed, card`pending
      ensures State() == Emit(config, old(State()), card.currentMs, window, burst)
      ensures card.pending == old(card.pending) + EmitEvents(config, old(State()), card.currentMs, window, burst)
    {
      hide NextDue, NextSize, RtoDelay, SeqAt;
      var emitted := 0;
      ghost var now := card.currentMs;
      while sentOffset < Total(config) && Admits(window, sentOffset - ackedOffset + config.mss) && emitted < burst
        invariant emitted <= burst
        invariant Burst(config, State(), now, window, burst, emitted) ==
                  Burst(config, old(State()), now, window, burst, 0)
        invariant card.pending + BurstEvents(config, State(), now, window, burst, emitted) ==
                  old(card.pending) + BurstEvents(config, old(State()), now, window, burst, 0)
        invariant old(sentOffset) <= sentOffset
        invariant rtoArmed == old(rtoArmed)
        decreases burst - emitted
      {
        EmitOne(emitted);
        emitted := emitted + 1;
      }
      assert card.pending == old(card.pending) + BurstEvents(config, old(State()), now, window, burst, 0);
      ArmRto(window);
    }

    /** One turn of the burst. */
    method EmitOne(emitted: nat)
      requires sentOffset < Total(config)
      modifies this`sentOffset, this`nextMs, card`pending
      ensures var s, now := old(State()), card.currentMs;
              && State() == s.(sentOffset := s.sentOffset + NextSize(config, s),
                               nextMs := NextDue(config, s, now, emitted))
              && card.pending == old(card.pending) +
                 [Arrival(NextDue(config, s, now, emitted), DataSegment(config, s.sentOffset, NextSize(config, s)))]
    {
      var size := Min(config.mss, Total(config) - sentOffset);
      var segment := DataSegment(config, sentOffset, size);
      sentOffset := sentOffset + size;
      nextMs := Max(nextMs, card.currentMs + config.afterMs) + if emitted > 0 then config.gapMs else 0;
      card.Schedule(nextMs - card.currentMs, segment);
    }

    method ArmRto(window: Window)
      modifies this`rtoArmed, card`pending
      ensures State() == Arm(old(State()))
      ensures card.pending == old(card.pending) + ArmEvents(config, old(State()), card.currentMs, window)
    {
      hide ShiftOne;
      if rtoArmed || sentOffset <= ackedOffset {
        return;
      }
      rtoArmed := true;
      var rto := Min(config.rtoMs * ShiftOne(backoff), config.rtoMaxMs);
      card.ScheduleCallback(rto, Timer(ackedOffset, backoff, window));
    }

    /** The part of an acknowledgement that moves `ackedOffset`. */
    method ReadAck(ack: Dword)
      modifies this`ackedOffset
      ensures State() == TakeAck(config, old(State()), ack)
    {
      hide AckedBy;
      var acked := AckedBy(config.responseSeq, ack);
      if acked <= Total(config) && acked > ackedOffset {
        ackedOffset := acked;
      }
    }

    /** Goes back to the oldest unacknowledged byte after enough duplicate acknowledgements. */
    method NoteDuplicate(ack: Dword)
      modifies this`sentOffset, this`dupAcks, this`lastAck
      ensures State() == CountDuplicate(config, old(State()), ack)
    {
      if sentOffset > ackedOffset && lastAck == Some(ack) {
        dupAcks := dupAcks + 1;
        if dupAcks >= config.dupAckRetransmit {
          sentOffset, dupAcks := ackedOffset, 0;
        }
      } else {
        dupAcks := 0;
      }
      lastAck := Some(ack);
    }

    method TcpStreamAhead(ack: Dword, window: Window)
      modifies this, card`pending
      ensures State() == OnAck(config, old(State()), card.currentMs, ack, window)
      ensures card.pending == old(card.pending) + OnAckEvents(config, old(State()), card.currentMs, ack, window)
    {
      hide TakeAck, CountDuplicate, Emit, EmitEvents;
      ReadAck(ack);
      if ackedOffset >= Total(config) {
        if !finSent {
          finSent := true;
          card.Schedule(config.afterMs, FinSegment(config));
        }
        return;
      }
      NoteDuplicate(ack);
      StreamEmit(window, config.maxBurst);
    }

    /** The callback an armed timer runs when it expires. */
    method RtoExpired(t: Timer)
      modifies this, card`pending
      ensures State() == OnTimer(config, old(State()), card.currentMs, t)
      ensures card.pending == old(card.pending) + OnTimerEvents(config, old(State()), card.currentMs, t)
    {
      hide Emit, EmitEvents, ArmEvents;
      rtoArmed := false;
      if ackedOffset > t.atOffset {
        backoff := 0;
        ArmRto(t.window);
        return;
      }
      if ackedOffset >= Total(config) {
        return;
      }
      retransmits := retransmits + 1;
      backoff := t.backoff + 1;
      if backoff > config.maxRetransmits {
        return;
      }
      sentOffset := ackedOffset;
      nextMs := card.currentMs;
      StreamEmit(t.window, 1);
    }

    /** Hands over one event that has come due. */
    method Handle(e: Event)
      modifies this, card`pending, card`delivered
      ensures ToWorld() == Fire(config, old(ToWorld()), e)
    {
      hide OnTimer, OnTimerEvents;
      match e
      case Arrival(_, segment) => card.delivered := card.delivered + [segment];
      case Callback(_, timer) => RtoExpired(timer);
    }

    method HandleAll(ready: seq<Event>)
      modifies this, card`pending, card`delivered
      ensures ToWorld() == FireAll(config, old(ToWorld()), ready)
    {
      hide Fire;
      var i := 0;
      while i < |ready|
        invariant i <= |ready|
        invariant FireAll(config, ToWorld(), ready[i..]) == FireAll(config, old(ToWorld()), ready)
      {
        Handle(ready[i]);
        i := i + 1;
      }
    }

    /** Runs the schedule up to the clock, again and again while callbacks schedule work already due. */
    method PumpScheduled()
      modifies this, card`pending, card`delivered
      ensures ToWorld() == Pump(config, old(ToWorld()), ROUNDS)
    {
      hide FireAll, Due, NotYet, StableSort;
      var guard := 0;
      while guard < ROUNDS
        invariant guard <= ROUNDS
        invariant Pump(config, ToWorld(), ROUNDS - guard) == Pump(config, old(ToWorld()), ROUNDS)
        invariant card.currentMs == old(card.currentMs)
      {
        var ready, notYet := card.Partition();
        if ready == [] {
          return;
        }
        card.pending := notYet;
        HandleAll(StableSort(ready));
        guard := guard + 1;
      }
    }
  }
}
