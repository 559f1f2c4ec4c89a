/**
 The card's schedule under one window-filling peer: arrivals and timers wait until the clock has
 reached them, and a pump hands over everything due, oldest first. Between retransmission
 timeouts a stream reaches the card in the order it was emitted, however the clock advances.
 */
module EventQueue {
  import opened Bytes
  import opened SeqSpace
  import opened StreamSender

  datatype World = World(session: Session, pending: seq<Event>, now: nat, delivered: seq<Segment>)

  /** One pump gives up after this many rounds. */
  const ROUNDS := 64

  // ---- pumpScheduled ----

  /** The events that have come due, in the order they were scheduled. */
  function Due(events: seq<Event>, now: nat): seq<Event> {
    if events == [] then []
    else (if events[0].atMs <= now then [events[0]] else []) + Due(events[1..], now)
  }

  function NotYet(events: seq<Event>, now: nat): seq<Event> {
    if events == [] then []
    else (if events[0].atMs <= now then [] else [events[0]]) + NotYet(events[1..], now)
  }

  function Insert(e: Event, sorted: seq<Event>): seq<Event> {
    if sorted == [] || e.atMs <= sorted[0].atMs then [e] + sorted
    else [sorted[0]] + Insert(e, sorted[1..])
  }

  /** The stable sort by due time; StableSortIsUnique says that there is only one. */
  function StableSort(events: seq<Event>): seq<Event> {
    if events == [] then [] else Insert(events[0], StableSort(events[1..]))
  }

  function Fire(c: Config, w: World, e: Event): World {
    match e
    case Arrival(_, segment) => w.(delivered := w.delivered + [segment])
    case Callback(_, timer) =>
      w.(session := OnTimer(c, w.session, w.now, timer),
         pending := w.pending + OnTimerEvents(c, w.session, w.now, timer))
  }

  function FireAll(c: Config, w: World, ready: seq<Event>): World
    decreases |ready|
  {
    if ready == [] then w else FireAll(c, Fire(c, w, ready[0]), ready[1..])
  }

  function Round(c: Config, w: World): World {
    FireAll(c, w.(pending := NotYet(w.pending, w.now)), StableSort(Due(w.pending, w.now)))
  }

  function Pump(c: Config, w: World, rounds: nat): World
    decreases rounds
  {
    if rounds == 0 || Due(w.pending, w.now) == [] then w else Pump(c, Round(c, w), rounds - 1)
  }

  // ---- the sort ----

  /** The events with one due time, in their order. */
  function At(events: seq<Event>, t: nat): seq<Event> {
    if events == [] then []
    else (if events[0].atMs == t then [events[0]] else []) + At(events[1..], t)
  }

  ghost predicate NonDecreasing(events: seq<Event>) {
    forall i, j :: 0 <= i < j < |events| ==> events[i].atMs <= events[j].atMs
  }

  lemma {:induction false} InsertIs(e: Event, sorted: seq<Event>, t: nat)
    requires NonDecreasing(sorted)
    ensures NonDecreasing(Insert(e, sorted))
    ensures At(Insert(e, sorted), t) == At([e] + sorted, t)
    ensures multiset(Insert(e, sorted)) == multiset([e] + sorted)
    decreases |sorted|
  {
    hide At, NonDecreasing;
    if sorted == [] || e.atMs <= sorted[0].atMs {
      FirstIsLeast(e, sorted);
    } else {
      var head, tail := sorted[0], sorted[1..];
      assert sorted == [head] + tail;
      TailIsOrdered(sorted);
      InsertIs(e, tail, t);
      InsertedAreFrom(e, tail);
      HeadStaysFirst(e, head, tail);
      LaterIsElsewhere(e, head, tail, Insert(e, tail), t);
    }
  }

  lemma FirstIsLeast(e: Event, sorted: seq<Event>)
    requires NonDecreasing(sorted) && (sorted == [] || e.atMs <= sorted[0].atMs)
    ensures NonDecreasing([e] + sorted)
  {
  }

  lemma TailIsOrdered(sorted: seq<Event>)
    requires NonDecreasing(sorted) && sorted != []
    ensures NonDecreasing(sorted[1..])
  {
  }

  lemma HeadStaysFirst(e: Event, head: Event, tail: seq<Event>)
    requires NonDecreasing([head] + tail) && head.atMs < e.atMs && NonDecreasing(Insert(e, tail))
    ensures NonDecreasing([head] + Insert(e, tail))
  {
    hide Insert;
    InsertedAreFrom(e, tail);
    forall x | x in tail
      ensures head.atMs <= x.atMs
    {
      var i :| 0 <= i < |tail| && tail[i] == x;
      assert ([head] + tail)[0] == head && ([head] + tail)[i + 1] == x;
    }
  }

  lemma InsertedAreFrom(e: Event, sorted: seq<Event>)
    ensures forall x :: x in Insert(e, sorted) ==> x == e || x in sorted
  {
  }

  lemma LaterIsElsewhere(e: Event, head: Event, tail: seq<Event>, inserted: seq<Event>, t: nat)
    requires At(inserted, t) == At([e] + tail, t) && e.atMs > head.atMs
    ensures At([head] + inserted, t) == At([e] + ([head] + tail), t)
  {
    hide At;
    AtHead(e, tail, t);
    AtHead(head, inserted, t);
    AtHead(head, tail, t);
    AtHead(e, [head] + tail, t);
  }

  lemma AtHead(e: Event, tail: seq<Event>, t: nat)
    ensures At([e] + tail, t) == (if e.atMs == t then [e] + At(tail, t) else At(tail, t))
  {
    assert ([e] + tail)[1..] == tail;
  }

  /** Sorting keeps every event, orders them by due time, and keeps the order of equal due times. */
  lemma {:induction false} StableSortIs(events: seq<Event>, t: nat)
    ensures NonDecreasing(StableSort(events))
    ensures At(StableSort(events), t) == At(events, t)
    ensures multiset(StableSort(events)) == multiset(events)
    decreases |events|
  {
    if events != [] {
      StableSortIs(events[1..], t);
      InsertIs(events[0], StableSort(events[1..]), t);
      assert events == [events[0]] + events[1..];
      assert ([events[0]] + StableSort(events[1..]))[1..] == StableSort(events[1..]);
    }
  }

  /** Any ordered arrangement that keeps the order of equal due times is the same one. */
  lemma {:induction false} StableSortIsUnique(a: seq<Event>, b: seq<Event>)
    requires NonDecreasing(a) && NonDecreasing(b)
    requires forall t: nat :: At(a, t) == At(b, t)
    ensures a == b
    decreases |a|
  {
    var t := if b == [] then 0 else b[0].atMs;
    assert At(a, t) == At(b, t);
    if a != [] {
      HeadsAgree(a, b);
      forall t: nat
        ensures At(a[1..], t) == At(b[1..], t)
      {
        assert At(a, t) == At(b, t);
        var front := if a[0].atMs == t then [a[0]] else [];
        assert At(a[1..], t) == At(a, t)[|front|..];
      }
      StableSortIsUnique(a[1..], b[1..]);
    }
  }

  lemma HeadsAgree(a: seq<Event>, b: seq<Event>)
    requires NonDecreasing(a) && NonDecreasing(b) && a != []
    requires forall t: nat :: At(a, t) == At(b, t)
    ensures b != [] && a[0] == b[0]
  {
    hide At, NonDecreasing;
    HeadIsAt(a);
    assert At(a, a[0].atMs) == At(b, a[0].atMs);
    HeadIsLeast(b, a[0].atMs);
    HeadIsAt(b);
    assert At(a, b[0].atMs) == At(b, b[0].atMs);
    HeadIsLeast(a, b[0].atMs);
  }

  /** The head is the first of the events with its own due time. */
  lemma HeadIsAt(events: seq<Event>)
    requires events != []
    ensures At(events, events[0].atMs) != [] && At(events, events[0].atMs)[0] == events[0]
  {
  }

  lemma HeadIsLeast(events: seq<Event>, t: nat)
    requires NonDecreasing(events) && At(events, t) != []
    ensures events != [] && events[0].atMs <= t
  {
    FoundIn(events, t);
    hide At;
    var i :| 0 <= i < |events| && events[i].atMs == t;
  }

  lemma {:induction false} FoundIn(events: seq<Event>, t: nat)
    ensures At(events, t) != [] ==> exists i :: 0 <= i < |events| && events[i].atMs == t
    decreases |events|
  {
    if events != [] && events[0].atMs != t {
      FoundIn(events[1..], t);
      if At(events[1..], t) != [] {
        var i :| 0 <= i < |events[1..]| && events[1..][i].atMs == t;
        assert events[i + 1].atMs == t;
      }
    }
  }

  // ---- the stream among the scheduled events ----

  predicate IsData(e: Event) {
    e.Arrival? && !e.segment.fin
  }

  /** The data segments that are on their way, in the order they were scheduled. */
  function Data(events: seq<Event>): seq<Event> {
    if events == [] then [] else (if IsData(events[0]) then [events[0]] else []) + Data(events[1..])
  }

  function Carried(events: seq<Event>): seq<Segment> {
    if events == [] then []
    else (if IsData(events[0]) then [events[0].segment] else []) + Carried(events[1..])
  }

  function Stream(segments: seq<Segment>): seq<Segment> {
    if segments == [] then []
    else (if segments[0].fin then [] else [segments[0]]) + Stream(segments[1..])
  }

  lemma {:induction false} DataOfConcat(a: seq<Event>, b: seq<Event>)
    ensures Data(a + b) == Data(a) + Data(b)
    decreases |a|
  {
    hide Data;
    DataHead(a);
    if a == [] {
      assert a + b == b;
    } else {
      assert (a + b)[0] == a[0] && (a + b)[1..] == a[1..] + b;
      DataHead(a + b);
      DataOfConcat(a[1..], b);
      Associates(Data(a[..1]), Data(a[1..]), Data(b));
    }
  }

  lemma DataHead(events: seq<Event>)
    ensures events == [] ==> Data(events) == []
    ensures events != [] ==>
              && Data(events) == Data(events[..1]) + Data(events[1..])
              && Data(events[..1]) == if IsData(events[0]) then [events[0]] else []
  {
  }

  lemma {:induction false} CarriedOfConcat(a: seq<Event>, b: seq<Event>)
    ensures Carried(a + b) == Carried(a) + Carried(b)
    decreases |a|
  {
    hide Carried;
    CarriedHead(a);
    if a == [] {
      assert a + b == b;
    } else {
      assert (a + b)[0] == a[0] && (a + b)[1..] == a[1..] + b;
      CarriedHead(a + b);
      CarriedOfConcat(a[1..], b);
      Associates(Carried(a[..1]), Carried(a[1..]), Carried(b));
    }
  }

  lemma CarriedHead(events: seq<Event>)
    ensures events == [] ==> Carried(events) == []
    ensures events != [] ==>
              && Carried(events) == Carried(events[..1]) + Carried(events[1..])
              && Carried(events[..1]) == if IsData(events[0]) then [events[0].segment] else []
  {
  }

  lemma {:induction false} StreamOfConcat(a: seq<Segment>, b: seq<Segment>)
    ensures Stream(a + b) == Stream(a) + Stream(b)
    decreases |a|
  {
    hide Stream;
    StreamHead(a);
    if a == [] {
      assert a + b == b;
    } else {
      assert (a + b)[0] == a[0] && (a + b)[1..] == a[1..] + b;
      StreamHead(a + b);
      StreamOfConcat(a[1..], b);
      Associates(Stream(a[..1]), Stream(a[1..]), Stream(b));
    }
  }

  lemma StreamHead(events: seq<Segment>)
    ensures events == [] ==> Stream(events) == []
    ensures events != [] ==>
              && Stream(events) == Stream(events[..1]) + Stream(events[1..])
              && Stream(events[..1]) == if !events[0].fin then [events[0]] else []
  {
  }

  lemma {:induction false} CarriedIsData(events: seq<Event>)
    ensures Carried(Data(events)) == Carried(events)
    decreases |events|
  {
    if events != [] {
      CarriedIsData(events[1..]);
      var front := if IsData(events[0]) then [events[0]] else [];
      CarriedOfConcat(front, Data(events[1..]));
      assert Carried([events[0]]) == if IsData(events[0]) then [events[0].segment] else [];
    }
  }

  lemma {:induction false} InOrderConcat(a: seq<Event>, b: seq<Event>, lo: nat, mid: nat, hi: nat)
    requires InOrder(a, lo, mid) && InOrder(b, mid, hi)
    ensures InOrder(a + b, lo, hi)
    decreases |a|
  {
    if a == [] {
      assert a + b == b;
      StartEarlier(b, lo, mid, hi);
    } else {
      InOrderConcat(a[1..], b, a[0].atMs, mid, hi);
      assert (a + b)[1..] == a[1..] + b;
    }
  }

  lemma StartEarlier(b: seq<Event>, lo: nat, mid: nat, hi: nat)
    requires InOrder(b, mid, hi) && lo <= mid
    ensures InOrder(b, lo, hi)
  {
    OrderedSpan(b, mid, hi);
  }

  lemma {:induction false} OrderedSpan(events: seq<Event>, lo: nat, hi: nat)
    requires InOrder(events, lo, hi)
    ensures lo <= hi
    decreases |events|
  {
    if events != [] {
      OrderedSpan(events[1..], events[0].atMs, hi);
    }
  }

  // ---- the partition and the sort keep the stream in order ----

  /** Choosing what is due commutes with choosing the stream. */
  lemma {:induction false} DueData(events: seq<Event>, now: nat)
    ensures Data(Due(events, now)) == Due(Data(events), now)
    ensures Data(NotYet(events, now)) == NotYet(Data(events), now)
    decreases |events|
  {
    if events != [] {
      var e, tail := events[0], events[1..];
      DueData(tail, now);
      SingleData(e);
      if e.atMs <= now {
        DataOfConcat([e], Due(tail, now));
        assert NotYet(events, now) == NotYet(tail, now);
      } else {
        DataOfConcat([e], NotYet(tail, now));
        assert Due(events, now) == Due(tail, now);
      }
      if IsData(e) {
        assert Data(events)[0] == e && Data(events)[1..] == Data(tail);
      } else {
        assert Data(events) == Data(tail);
      }
    }
  }

  lemma SingleData(e: Event)
    ensures Data([e]) == if IsData(e) then [e] else []
  {
  }

  /** Of an ordered stream, what is due comes first. */
  lemma {:induction false} OrderedSplits(events: seq<Event>, now: nat, lo: nat, hi: nat)
    requires InOrder(events, lo, hi)
    ensures Due(events, now) + NotYet(events, now) == events
    ensures lo > now ==> Due(events, now) == []
    decreases |events|
  {
    hide InOrder, Due, NotYet;
    DueHead(events, now);
    if events != [] {
      InOrderTail(events, lo, hi);
      OrderedSplits(events[1..], now, events[0].atMs, hi);
      assert events == [events[0]] + events[1..];
    }
  }

  lemma DueHead(events: seq<Event>, now: nat)
    ensures events == [] ==> Due(events, now) == [] && NotYet(events, now) == []
    ensures events != [] && events[0].atMs <= now ==>
              Due(events, now) == [events[0]] + Due(events[1..], now) && NotYet(events, now) == NotYet(events[1..], now)
    ensures events != [] && events[0].atMs > now ==>
              NotYet(events, now) == [events[0]] + NotYet(events[1..], now) && Due(events, now) == Due(events[1..], now)
  {
  }

  lemma {:induction false} OrderedParts(events: seq<Event>, now: nat, lo: nat, hi: nat)
    requires InOrder(events, lo, hi)
    ensures InOrder(NotYet(events, now), lo, hi) && InOrder(Due(events, now), lo, hi)
    decreases |events|
  {
    hide InOrder;
    if events != [] {
      var e, tail := events[0], events[1..];
      InOrderTail(events, lo, hi);
      OrderedParts(tail, now, e.atMs, hi);
      StartEarlier(NotYet(tail, now), lo, e.atMs, hi);
      StartEarlier(Due(tail, now), lo, e.atMs, hi);
      InOrderHead(e, Due(tail, now), lo, hi);
      InOrderHead(e, NotYet(tail, now), lo, hi);
      assert NotYet(events, now) == (if e.atMs <= now then NotYet(tail, now) else [e] + NotYet(tail, now));
      assert Due(events, now) == (if e.atMs <= now then [e] + Due(tail, now) else Due(tail, now));
    }
  }

  lemma InOrderTail(events: seq<Event>, lo: nat, hi: nat)
    requires events != [] && InOrder(events, lo, hi)
    ensures lo <= events[0].atMs && InOrder(events[1..], events[0].atMs, hi)
  {
  }

  lemma InOrderHead(e: Event, tail: seq<Event>, lo: nat, hi: nat)
    requires lo <= e.atMs && InOrder(tail, e.atMs, hi)
    ensures InOrder([e] + tail, lo, hi)
  {
    assert ([e] + tail)[1..] == tail;
  }

  lemma NothingInOrder(lo: nat, hi: nat)
    requires lo <= hi
    ensures InOrder([], lo, hi)
  {
  }

  lemma {:induction false} InsertKeepsStream(e: Event, sorted: seq<Event>, hi: nat)
    requires IsData(e) ==> InOrder(Data(sorted), e.atMs, hi)
    ensures Data(Insert(e, sorted)) == Data([e]) + Data(sorted)
    decreases |sorted|
  {
    SingleData(e);
    if sorted == [] || e.atMs <= sorted[0].atMs {
      DataOfConcat([e], sorted);
    } else {
      var head, tail := sorted[0], sorted[1..];
      DataOfConcat([head], Insert(e, tail));
      SingleData(head);
      if IsData(head) {
        assert Data(sorted)[0] == head && Data(sorted)[1..] == Data(tail);
      } else {
        assert Data(sorted) == Data(tail);
      }
      InsertKeepsStream(e, tail, hi);
    }
  }

  /** A stable sort does not touch a stream that is in order already. */
  lemma {:induction false} SortKeepsStream(events: seq<Event>, lo: nat, hi: nat)
    requires InOrder(Data(events), lo, hi)
    ensures Data(StableSort(events)) == Data(events)
    decreases |events|
  {
    if events != [] {
      var e, tail := events[0], events[1..];
      SingleData(e);
      if IsData(e) {
        assert Data(events)[0] == e && Data(events)[1..] == Data(tail);
        SortKeepsStream(tail, e.atMs, hi);
      } else {
        assert Data(events) == Data(tail);
        SortKeepsStream(tail, lo, hi);
      }
      InsertKeepsStream(e, StableSort(tail), hi);
    }
  }

  // ---- what a pump does to the stream ----

  /** Everything emitted has been delivered or is on its way, in the order of emission. */
  ghost predicate InSequence(w: World, emitted: seq<Segment>) {
    && InOrder(Data(w.pending), 0, w.session.nextMs)
    && emitted == Stream(w.delivered) + Carried(w.pending)
  }

  ghost predicate Between(w: World, ready: seq<Event>, emitted: seq<Segment>) {
    && InOrder(Data(w.pending), 0, w.session.nextMs)
    && emitted == Stream(w.delivered) + Carried(ready) + Carried(w.pending)
  }

  /** A timer that does not retransmit schedules at most another timer. */
  lemma QuietTimer(c: Config, s: Session, now: nat, t: Timer)
    ensures OnTimer(c, s, now, t).retransmits >= s.retransmits
    ensures OnTimer(c, s, now, t).retransmits == s.retransmits ==>
              && OnTimer(c, s, now, t).nextMs == s.nextMs
              && Data(OnTimerEvents(c, s, now, t)) == [] && Carried(OnTimerEvents(c, s, now, t)) == []
    ensures s.sentOffset <= Total(c) && s.ackedOffset <= Total(c) ==>
              OnTimer(c, s, now, t).sentOffset <= Total(c) && OnTimer(c, s, now, t).ackedOffset <= Total(c)
  {
    hide Burst, BurstEvents, RtoDelay;
    if !Progressed(s, t) && s.ackedOffset < Total(c) && !GivesUp(c, t) && s.ackedOffset <= Total(c) {
      BurstIs(c, Rewound(s, now, t), now, t.window, 1, 0);
    }
  }

  lemma FireKeeps(c: Config, w: World, ready: seq<Event>, emitted: seq<Segment>)
    requires ready != [] && Between(w, ready, emitted)
    requires Fire(c, w, ready[0]).session.retransmits == w.session.retransmits
    ensures Between(Fire(c, w, ready[0]), ready[1..], emitted)
    ensures Data(Fire(c, w, ready[0]).pending) == Data(w.pending)
  {
    hide OnTimer, OnTimerEvents, InOrder, Data, Carried, Stream;
    FirstCarried(ready);
    if ready[0].Callback? {
      var s, timer := w.session, ready[0].timer;
      QuietTimer(c, s, w.now, timer);
      AppendQuiet(w.pending, OnTimerEvents(c, s, w.now, timer));
    } else {
      StreamOfConcat(w.delivered, [ready[0].segment]);
    }
  }

  lemma FirstCarried(events: seq<Event>)
    requires events != []
    ensures Carried(events) == (if events[0].Arrival? then Stream([events[0].segment]) else []) + Carried(events[1..])
  {
  }

  lemma AppendQuiet(pending: seq<Event>, events: seq<Event>)
    requires Data(events) == [] && Carried(events) == []
    ensures Data(pending + events) == Data(pending) && Carried(pending + events) == Carried(pending)
  {
    hide Data, Carried;
    DataOfConcat(pending, events);
    CarriedOfConcat(pending, events);
  }

  lemma FireBounds(c: Config, w: World, e: Event)
    ensures var w' := Fire(c, w, e);
            && w'.now == w.now && w'.session.retransmits >= w.session.retransmits
            && (SentWithin(c, w.session) ==> SentWithin(c, w'.session))
  {
    if e.Callback? {
      QuietTimer(c, w.session, w.now, e.timer);
    }
    hide OnTimer, OnTimerEvents;
  }

  predicate SentWithin(c: Config, s: Session) {
    s.sentOffset <= Total(c) && s.ackedOffset <= Total(c)
  }

  lemma {:induction false} FireAllKeeps(c: Config, w: World, ready: seq<Event>, emitted: seq<Segment>)
    ensures var w' := FireAll(c, w, ready);
            && w'.now == w.now && w'.session.retransmits >= w.session.retransmits
            && (SentWithin(c, w.session) ==> SentWithin(c, w'.session))
            && (Between(w, ready, emitted) && w'.session.retransmits == w.session.retransmits ==>
                  InSequence(w', emitted) && Data(w'.pending) == Data(w.pending))
    decreases |ready|
  {
    hide Fire, SentWithin;
    if ready != [] {
      FireBounds(c, w, ready[0]);
      FireAllKeeps(c, Fire(c, w, ready[0]), ready[1..], emitted);
      if Between(w, ready, emitted) &&
         FireAll(c, Fire(c, w, ready[0]), ready[1..]).session.retransmits == w.session.retransmits {
        FireKeeps(c, w, ready, emitted);
      }
    }
  }

  /** Splitting off and sorting what is due leaves the stream where it was. */
  lemma SplitKeeps(w: World, emitted: seq<Segment>)
    requires InSequence(w, emitted)
    ensures Between(w.(pending := NotYet(w.pending, w.now)), StableSort(Due(w.pending, w.now)), emitted)
  {
    hide Due, NotYet, StableSort, Data, Carried, Stream, InOrder;
    var due, rest, hi := Due(w.pending, w.now), NotYet(w.pending, w.now), w.session.nextMs;
    DueData(w.pending, w.now);
    OrderedSplits(Data(w.pending), w.now, 0, hi);
    OrderedParts(Data(w.pending), w.now, 0, hi);
    SortKeepsStream(due, 0, hi);
    CarriedIsData(StableSort(due));
    CarriedIsData(due);
    CarriedIsData(rest);
    CarriedIsData(w.pending);
    CarriedOfConcat(Data(due), Data(rest));
  }

  lemma {:induction false} NothingDueLeft(events: seq<Event>, now: nat)
    ensures Due(NotYet(events, now), now) == []
    decreases |events|
  {
    if events != [] {
      NothingDueLeft(events[1..], now);
      if events[0].atMs > now {
        assert NotYet(events, now)[0] == events[0] && NotYet(events, now)[1..] == NotYet(events[1..], now);
      } else {
        assert NotYet(events, now) == NotYet(events[1..], now);
      }
    }
  }

  lemma NoData()
    ensures Data([]) == []
  {
  }

  lemma {:induction false} PumpKeeps(c: Config, w: World, rounds: nat, emitted: seq<Segment>)
    ensures var w' := Pump(c, w, rounds);
            && w'.now == w.now && w'.session.retransmits >= w.session.retransmits
            && (SentWithin(c, w.session) ==> SentWithin(c, w'.session))
            && (InSequence(w, emitted) && w'.session.retransmits == w.session.retransmits ==>
                  InSequence(w', emitted) && (rounds > 0 ==> Due(Data(w'.pending), w'.now) == []))
    decreases rounds
  {
    hide SentWithin, InSequence, Between, Due, NotYet, StableSort, Data, FireAll;
    DueData(w.pending, w.now);
    NothingDueLeft(Data(w.pending), w.now);
    NoData();
    if rounds > 0 && Due(w.pending, w.now) != [] {
      FireAllKeeps(c, w.(pending := NotYet(w.pending, w.now)), StableSort(Due(w.pending, w.now)), emitted);
      PumpKeeps(c, Round(c, w), rounds - 1, emitted);
      if InSequence(w, emitted) {
        SplitKeeps(w, emitted);
      }
    }
  }

  // ---- whole runs ----

  /** The host's acknowledgements reach the peer, and the clock advances by any amount. */
  datatype Op = Acknowledge(ack: Dword, window: Window) | Advance(ms: nat)

  function Step(c: Config, w: World, op: Op): World {
    match op
    case Acknowledge(ack, window) =>
      w.(session := OnAck(c, w.session, w.now, ack, window),
         pending := w.pending + OnAckEvents(c, w.session, w.now, ack, window))
    case Advance(ms) => Pump(c, w.(now := w.now + ms), ROUNDS)
  }

  /** The data segments the acknowledgements of a run make the peer emit, in order. */
  ghost function Emitted(c: Config, w: World, ops: seq<Op>): seq<Segment>
    decreases |ops|
  {
    if ops == [] then []
    else
      (if ops[0].Advance? then []
       else Carried(OnAckEvents(c, w.session, w.now, ops[0].ack, ops[0].window))) +
      Emitted(c, Step(c, w, ops[0]), ops[1..])
  }

  function Run(c: Config, w: World, ops: seq<Op>): World
    decreases |ops|
  {
    if ops == [] then w else Run(c, Step(c, w, ops[0]), ops[1..])
  }

  /** What an acknowledgement schedules comes due after all that was scheduled before. */
  lemma AckEmits(c: Config, s: Session, now: nat, ack: Dword, window: Window)
    requires SentWithin(c, s)
    ensures var s', events := OnAck(c, s, now, ack, window), OnAckEvents(c, s, now, ack, window);
            && SentWithin(c, s') && s'.retransmits == s.retransmits
            && InOrder(Data(events), s.nextMs, s'.nextMs)
  {
    hide AckedBy, Emit, EmitEvents, InOrder;
    NothingInOrder(s.nextMs, s.nextMs);
    SingleData(Arrival(now + c.afterMs, FinSegment(c)));
    var taken := TakeAck(c, s, ack);
    if taken.ackedOffset < Total(c) {
      BurstEmits(c, CountDuplicate(c, taken, ack), now, window, c.maxBurst);
    }
  }

  lemma BurstEmits(c: Config, s: Session, now: nat, window: Window, burst: nat)
    requires SentWithin(c, s)
    ensures var s', events := Emit(c, s, now, window, burst), EmitEvents(c, s, now, window, burst);
            && SentWithin(c, s') && s'.retransmits == s.retransmits
            && InOrder(Data(events), s.nextMs, s'.nextMs)
  {
    hide Burst, BurstEvents, ArmEvents, Contiguous, WithinWindow, InOrder, Data;
    BurstIs(c, s, now, window, burst, 0);
    var sent, data := Burst(c, s, now, window, burst, 0), BurstEvents(c, s, now, window, burst, 0);
    DataOfConcat(data, ArmEvents(c, sent, now, window));
    BurstIsData(c, data, s.sentOffset, sent.sentOffset);
    NoDataInArm(c, sent, now, window);
    assert data + [] == data;
  }

  lemma NoDataInArm(c: Config, s: Session, now: nat, window: Window)
    ensures Data(ArmEvents(c, s, now, window)) == []
  {
    hide RtoDelay;
  }

  lemma {:induction false} BurstIsData(c: Config, events: seq<Event>, from: nat, to: nat)
    requires Contiguous(c, events, from, to)
    ensures Data(events) == events
    decreases |events|
  {
    if events != [] {
      BurstIsData(c, events[1..], from + |events[0].segment.payload|, to);
    }
  }

  lemma StepKeeps(c: Config, w: World, op: Op, emitted: seq<Segment>)
    requires SentWithin(c, w.session)
    ensures var w' := Step(c, w, op);
            && SentWithin(c, w'.session) && w'.session.retransmits >= w.session.retransmits
            && (InSequence(w, emitted) && w'.session.retransmits == w.session.retransmits ==>
                  InSequence(w', emitted + Emitted(c, w, [op])))
  {
    hide SentWithin, OnAck, OnAckEvents, Pump, Data, InOrder;
    assert [op][1..] == [];
    match op
    case Acknowledge(ack, window) =>
      var events := OnAckEvents(c, w.session, w.now, ack, window);
      AckEmits(c, w.session, w.now, ack, window);
      if InSequence(w, emitted) {
        DataOfConcat(w.pending, events);
        CarriedOfConcat(w.pending, events);
        var latest := OnAck(c, w.session, w.now, ack, window).nextMs;
        InOrderConcat(Data(w.pending), Data(events), 0, w.session.nextMs, latest);
      }
    case Advance(ms) =>
      assert emitted + [] == emitted;
      PumpKeeps(c, w.(now := w.now + ms), ROUNDS, emitted);
  }

  lemma {:induction false} RunKeeps(c: Config, w: World, ops: seq<Op>, emitted: seq<Segment>)
    requires SentWithin(c, w.session)
    ensures var w' := Run(c, w, ops);
            && SentWithin(c, w'.session) && w'.session.retransmits >= w.session.retransmits
            && (InSequence(w, emitted) && w'.session.retransmits == w.session.retransmits ==>
                  InSequence(w', emitted + Emitted(c, w, ops)))
    decreases |ops|
  {
    hide SentWithin, Step, InSequence, Carried;
    if ops == [] {
      assert emitted + Emitted(c, w, ops) == emitted;
    } else {
      var next := Step(c, w, ops[0]);
      StepKeeps(c, w, ops[0], emitted);
      OneStep(c, w, ops);
      RunKeeps(c, next, ops[1..], emitted + Emitted(c, w, [ops[0]]));
      assert emitted + Emitted(c, w, [ops[0]]) + Emitted(c, next, ops[1..]) == emitted + Emitted(c, w, ops);
    }
  }

  lemma OneStep(c: Config, w: World, ops: seq<Op>)
    requires ops != []
    ensures Emitted(c, w, ops) == Emitted(c, w, [ops[0]]) + Emitted(c, Step(c, w, ops[0]), ops[1..])
  {
    assert [ops[0]][1..] == [];
  }

  /**
   A stream reaches the card in the order it was emitted, for every sequence of acknowledgements
   and every pattern of clock advances without a retransmission timeout: what was delivered is a
   prefix of what was emitted, and exactly the rest is still on its way, in order.
   */
  lemma StreamStaysInOrder(c: Config, w: World, ops: seq<Op>)
    requires SentWithin(c, w.session) && Data(w.pending) == [] && w.delivered == []
    requires Run(c, w, ops).session.retransmits == w.session.retransmits
    ensures var w' := Run(c, w, ops);
            && Stream(w'.delivered) + Carried(w'.pending) == Emitted(c, w, ops)
            && InOrder(Data(w'.pending), 0, w'.session.nextMs)
  {
    hide Run, Emitted;
    CarriedIsData(w.pending);
    RunKeeps(c, w, ops, []);
    assert [] + Emitted(c, w, ops) == Emitted(c, w, ops);
  }

  /** An advance of the clock without a retransmission timeout hands over every segment that has come due. */
  lemma AdvanceDeliversDue(c: Config, w: World, ms: nat)
    requires InOrder(Data(w.pending), 0, w.session.nextMs)
    requires Step(c, w, Advance(ms)).session.retransmits == w.session.retransmits
    ensures var w' := Step(c, w, Advance(ms));
            && Due(Data(w'.pending), w.now + ms) == []
            && Stream(w'.delivered) + Carried(w'.pending) == Stream(w.delivered) + Carried(w.pending)
  {
    hide Pump;
    PumpKeeps(c, w.(now := w.now + ms), ROUNDS, Stream(w.delivered) + Carried(w.pending));
  }
}
