/**
 The single-flight peer (`tcpReliableNext`): one reply an acknowledgement, a partial
 acknowledgement replays the unacknowledged suffix or an overlap of it.
 */
module ReplaySender {
  import opened Bytes
  import opened SeqSpace

  datatype Config = Config(
    response: seq<Byte>,
    responseSeq: Dword,
    mss: nat,
    oversizeFirst: bool,
    overlap: bool,
    finWithData: bool,
    earlyPayload: bool,
    responseDelayMs: nat,
    afterMs: nat,
    dataAckDelayMs: nat)

  /** An acknowledgement, with where the session's request stands when it is heard. */
  datatype Heard = Heard(ack: Dword, window: Word, requestStart: Dword, clientNext: Dword)

  datatype Session = Session(
    ackedOffset: nat,
    finSent: bool,
    finAcked: bool,
    responseStarted: bool,
    flightStart: nat,
    flightEnd: nat)

  const FRESH := Session(0, false, false, false, 0, 0)

  datatype Segment = Segment(seqNo: Dword, ackNo: Dword, push: bool, fin: bool, payload: seq<Byte>)

  datatype Scheduled = Scheduled(delayMs: nat, segment: Segment)

  function Total(c: Config): nat {
    |c.response|
  }

  // ---- one call ----

  /** Stale and future acknowledgements leave the offset alone. */
  function Acked(c: Config, s: Session, ack: Dword): nat {
    if s.ackedOffset < AckedBy(c.responseSeq, ack) <= Total(c) then AckedBy(c.responseSeq, ack) else s.ackedOffset
  }

  predicate AcksFin(c: Config, s: Session, ack: Dword) {
    s.finSent && ack == SeqAt(c.responseSeq, Total(c) + 1)
  }

  predicate Replies(c: Config, s: Session, h: Heard) {
    !s.finAcked && !AcksFin(c, s, h.ack) && h.window > 0
  }

  predicate Overlaps(c: Config, s: Session, acked: nat) {
    c.overlap && s.flightStart < acked < s.flightEnd
  }

  function Start(c: Config, s: Session, acked: nat): nat {
    if Overlaps(c, s, acked) then s.flightStart else acked
  }

  function SuffixSize(c: Config, s: Session, acked: nat, window: nat): nat
    requires acked <= Total(c)
  {
    if !s.responseStarted && c.oversizeFirst then Min(Total(c), c.mss)
    else Min(Min(c.mss, window), Total(c) - acked)
  }

  function Size(c: Config, s: Session, acked: nat, window: nat): nat
    requires acked <= Total(c)
  {
    var suffix := SuffixSize(c, s, acked, window);
    if Overlaps(c, s, acked) then Min(suffix + (acked - s.flightStart), c.mss) else suffix
  }

  predicate Finishes(c: Config, start: nat, size: nat) {
    start + size == Total(c) && (c.finWithData || size == 0)
  }

  /** `subarray` clamps both ends to the response. */
  function Slice(c: Config, start: nat, size: nat): (r: seq<Byte>) {
    c.response[Min(start, Total(c))..Min(start + size, Total(c))]
  }

  function Reply(c: Config, s: Session, start: nat, size: nat, h: Heard): Segment {
    Segment(SeqAt(c.responseSeq, start),
            if c.earlyPayload && !s.responseStarted then h.requestStart else h.clientNext,
            size > 0, Finishes(c, start, size), Slice(c, start, size))
  }

  /** The segments of one flight, with their delays. */
  function Flight(c: Config, s: Session, start: nat, size: nat, h: Heard): seq<Scheduled> {
    [Scheduled(if s.responseStarted then c.afterMs else c.responseDelayMs, Reply(c, s, start, size, h))] +
    if !s.responseStarted && c.earlyPayload then
      [Scheduled(c.dataAckDelayMs, Segment(c.responseSeq, h.clientNext, false, false, []))]
    else []
  }

  function Next(c: Config, s: Session, h: Heard): Session
    requires Acked(c, s, h.ack) <= Total(c)
  {
    var acked := Acked(c, s, h.ack);
    if s.finAcked then s.(ackedOffset := acked)
    else if AcksFin(c, s, h.ack) then s.(ackedOffset := acked, finAcked := true)
    else if h.window == 0 then s.(ackedOffset := acked)
    else
      var start, size := Start(c, s, acked), Size(c, s, acked, h.window);
      Session(acked, s.finSent || Finishes(c, start, size), false, true, start, start + size)
  }

  /** What the call schedules on the card. */
  function Sends(c: Config, s: Session, h: Heard): seq<Scheduled>
    requires Acked(c, s, h.ack) <= Total(c)
  {
    var acked := Acked(c, s, h.ack);
    if !Replies(c, s, h) then []
    else Flight(c, s, Start(c, s, acked), Size(c, s, acked, h.window), h)
  }

  // ---- the same in place ----

  class Peer {
    const config: Config
    var ackedOffset: nat
    var finSent: bool
    var finAcked: bool
    var responseStarted: bool
    var flightStart: nat
    var flightEnd: nat
    var scheduled: seq<Scheduled>

    function State(): Session
      reads this
    {
      Session(ackedOffset, finSent, finAcked, responseStarted, flightStart, flightEnd)
    }

    constructor (config: Config)
      ensures this.config == config && State() == FRESH && scheduled == []
    {
      this.config := config;
      ackedOffset, finSent, finAcked, responseStarted := 0, false, false, false;
      flightStart, flightEnd, scheduled := 0, 0, [];
    }

    method TcpReliableNext(h: Heard)
      requires Acked(config, State(), h.ack) <= Total(config)
      modifies this
      ensures State() == Next(config, old(State()), h)
      ensures scheduled == old(scheduled) + Sends(config, old(State()), h)
    {
      hide AckedBy, SeqAt, Slice;
      var acked := AckedBy(config.responseSeq, h.ack);
      if acked <= Total(config) && acked > ackedOffset {
        ackedOffset := acked;
      }
      if finAcked {
        return;
      }
      if finSent && h.ack == SeqAt(config.responseSeq, Total(config) + 1) {
        finAcked := true;
        return;
      }
      if h.window == 0 {
        return;
      }
      SendFlight(h);
    }

    /** The reply to an acknowledgement that opened the window. */
    method SendFlight(h: Heard)
      requires ackedOffset <= Total(config) && !finAcked
      modifies this`finSent, this`responseStarted, this`flightStart, this`flightEnd, this`scheduled
      ensures var s, acked := old(State()), ackedOffset;
              var start, size := Start(config, s, acked), Size(config, s, acked, h.window);
              && State() == Session(acked, s.finSent || Finishes(config, start, size), false, true, start, start + size)
              && scheduled == old(scheduled) + Flight(config, s, start, size, h)
    {
      hide Slice, SeqAt, Flight;
      var start := ackedOffset;
      var size := Min(Min(config.mss, h.window), Total(config) - start);
      if !responseStarted && config.oversizeFirst {
        size := Min(Total(config), config.mss);
      }
      if config.overlap && flightStart < start && start < flightEnd {
        size := size + (start - flightStart);
        start := flightStart;
        size := Min(size, config.mss);
      }
      var before := State();
      var fin := start + size == Total(config) && (config.finWithData || size == 0);
      finSent := finSent || fin;
      flightStart, flightEnd := start, start + size;
      scheduled := scheduled + Flight(config, before, start, size, h);
      responseStarted := true;
    }
  }

  // ---- which replies make progress ----

  /** What holds in every state, whatever was acknowledged. */
  predicate Sane(c: Config, s: Session) {
    && s.flightStart <= s.ackedOffset <= Total(c)
    && s.flightStart <= s.flightEnd && s.flightEnd - s.flightStart <= c.mss
    && (!s.responseStarted ==> s.flightEnd == 0 && !s.finSent)
  }

  lemma NextIsSane(c: Config, s: Session, h: Heard)
    requires Sane(c, s)
    ensures Sane(c, Next(c, s, h))
  {
    hide AckedBy, SeqAt;
  }

  /** A reply that carries a byte beyond the acknowledged ones, or a FIN that ends exactly at the total. */
  predicate Advances(c: Config, acked: nat, start: nat, size: nat) {
    || start + |Slice(c, start, size)| > acked
    || (Finishes(c, start, size) && start + |Slice(c, start, size)| == Total(c))
  }

  /** The reply to `h` carries the response's own bytes from at or before the acknowledged offset on. */
  predicate Suitable(c: Config, s: Session, h: Heard)
    requires Sane(c, s)
  {
    var acked := Acked(c, s, h.ack);
    var start, size := Start(c, s, acked), Size(c, s, acked, h.window);
    start <= acked && Slice(c, start, size) == c.response[start..start + |Slice(c, start, size)|]
  }

  predicate ReplyAdvances(c: Config, s: Session, h: Heard)
    requires Sane(c, s)
  {
    var acked := Acked(c, s, h.ack);
    Advances(c, acked, Start(c, s, acked), Size(c, s, acked, h.window))
  }

  /**
   The guards that decide whether a reply advances. Where bytes are missing the MSS has to admit one. Where
   only the FIN is left, an overlap that is still to be replayed carries it with `finWithData` only, and an
   oversized first reply of any size does not carry it.
   */
  predicate MayAdvance(c: Config, s: Session, h: Heard) {
    var acked := Acked(c, s, h.ack);
    if acked < Total(c) then c.mss >= 1
    else if Overlaps(c, s, acked) then c.finWithData
    else s.responseStarted || !c.oversizeFirst || c.mss == 0 || Total(c) == 0
  }

  lemma ReplyAdvancesIff(c: Config, s: Session, h: Heard)
    requires Sane(c, s) && Replies(c, s, h)
    ensures Suitable(c, s, h)
    ensures ReplyAdvances(c, s, h) <==> MayAdvance(c, s, h)
  {
    hide AckedBy, SeqAt, AcksFin;
  }

  /** The session after any acknowledgements at all, honest or not. */
  function After(c: Config, heard: seq<Heard>): (s: Session)
    ensures Sane(c, s)
    decreases |heard|
  {
    if heard == [] then FRESH
    else
      var before := After(c, heard[..|heard| - 1]);
      NextIsSane(c, before, heard[|heard| - 1]);
      Next(c, before, heard[|heard| - 1])
  }

  /** In every run, whatever was acknowledged before: a reply advances if and only if its guards let it. */
  lemma EveryReplyAdvancesIff(c: Config, heard: seq<Heard>, h: Heard)
    requires Replies(c, After(c, heard), h)
    ensures var s := After(c, heard); Suitable(c, s, h) && (ReplyAdvances(c, s, h) <==> MayAdvance(c, s, h))
  {
    hide After;
    ReplyAdvancesIff(c, After(c, heard), h);
  }

  // ---- acknowledgements that are not premature ----

  /** The flight never passes the end of the response either. */
  predicate Sound(c: Config, s: Session) {
    Sane(c, s) && s.flightEnd <= Total(c)
  }

  /** Nothing is acknowledged before an oversized first reply was sent. */
  predicate NotPremature(c: Config, s: Session, acked: nat) {
    c.oversizeFirst && !s.responseStarted ==> acked == 0
  }

  lemma NextIsSound(c: Config, s: Session, h: Heard)
    requires Sound(c, s) && NotPremature(c, s, Acked(c, s, h.ack))
    ensures Sound(c, Next(c, s, h))
  {
    hide AckedBy, SeqAt;
  }

  predicate Timely(c: Config, heard: seq<Heard>)
    decreases |heard|
  {
    heard == [] ||
    var before, h := After(c, heard[..|heard| - 1]), heard[|heard| - 1];
    NotPremature(c, before, Acked(c, before, h.ack)) && Timely(c, heard[..|heard| - 1])
  }

  lemma {:induction false} TimelyIsSound(c: Config, heard: seq<Heard>)
    requires Timely(c, heard)
    ensures Sound(c, After(c, heard))
    decreases |heard|
  {
    hide Sound, NotPremature, Next;
    if heard == [] {
      FreshIsSound(c);
    } else {
      TimelyIsSound(c, heard[..|heard| - 1]);
      NextIsSound(c, After(c, heard[..|heard| - 1]), heard[|heard| - 1]);
    }
  }

  lemma FreshIsSound(c: Config)
    ensures Sound(c, FRESH)
  {
  }

  /** In every run without a premature acknowledgement each reply advances, if the MSS is at least 1. */
  lemma TimelyRepliesAdvance(c: Config, heard: seq<Heard>, h: Heard)
    requires c.mss >= 1 && Timely(c, heard + [h]) && Replies(c, After(c, heard), h)
    ensures ReplyAdvances(c, After(c, heard), h)
  {
    hide After, AckedBy, SeqAt, AcksFin, ReplyAdvances;
    assert (heard + [h])[..|heard|] == heard;
    TimelyIsSound(c, heard);
    ReplyAdvancesIff(c, After(c, heard), h);
  }

  // ---- acknowledgements that are, and stall the transfer ----

  /** A response of 100 bytes, an MSS of 50, an oversized first reply and replayed overlaps. */
  function Oversized(): Config {
    Config(seq(100, _ => 0), 0, 50, true, true, false, false, 1, 1, 80)
  }

  /** A premature acknowledgement of everything gets 50 bytes from the end on, which are none, and no FIN. */
  lemma PrematureTotalStalls()
    ensures var c, h := Oversized(), Heard(100, 1000, 0, 0);
            Replies(c, After(c, []), h) && !ReplyAdvances(c, After(c, []), h)
  {
  }

  /** After a premature one of 80 bytes the flight ends at 130, and an acknowledgement of all gets the last 20 again. */
  lemma PrematurePartStalls()
    ensures var c, first, h := Oversized(), Heard(80, 1000, 0, 0), Heard(100, 1000, 0, 0);
            var s := After(c, [first]);
            && s.responseStarted && s.flightStart == 80 && s.flightEnd == 130
            && Replies(c, s, h) && !ReplyAdvances(c, s, h) && Size(c, s, 100, 1000) == 20
  {
    var c, first := Oversized(), Heard(80, 1000, 0, 0);
    assert [first][..0] == [];
    assert After(c, []) == FRESH;
    assert After(c, [first]) == Next(c, FRESH, first);
  }

  // ---- a whole transfer over a network that loses, duplicates and reorders ----

  datatype World = World(session: Session, net: set<Segment>, file: seq<Byte>)

  datatype Step = Hear(h: Heard) | Arrive(segment: Segment)

  function Segments(sent: seq<Scheduled>): set<Segment> {
    set x | x in sent :: x.segment
  }

  /** A client that takes the new part of a segment that starts at or before what it has. */
  function Take(c: Config, file: seq<Byte>, segment: Segment): seq<Byte> {
    var offset := AckedBy(c.responseSeq, segment.seqNo);
    if offset <= |file| < offset + |segment.payload| then file + segment.payload[|file| - offset..] else file
  }

  /** The client never acknowledges response bytes it does not have; stale and absurd numbers are allowed. */
  predicate Legal(c: Config, w: World, step: Step) {
    match step
    case Hear(h) => AckedBy(c.responseSeq, h.ack) <= |w.file| || AckedBy(c.responseSeq, h.ack) > Total(c)
    case Arrive(segment) => segment in w.net
  }

  function Apply(c: Config, w: World, step: Step): World
    requires w.session.ackedOffset <= Total(c)
  {
    match step
    case Hear(h) => w.(session := Next(c, w.session, h), net := w.net + Segments(Sends(c, w.session, h)))
    case Arrive(segment) => w.(file := Take(c, w.file, segment))
  }

  /** The segment starts within what the client has and carries the response's own bytes. */
  ghost predicate Genuine(c: Config, segment: Segment, have: nat) {
    exists offset: nat ::
      && offset <= have && offset + |segment.payload| <= Total(c)
      && segment.seqNo == SeqAt(c.responseSeq, offset)
      && segment.payload == c.response[offset..offset + |segment.payload|]
      && (segment.fin ==> offset + |segment.payload| == Total(c))
  }

  ghost predicate Inv(c: Config, w: World) {
    && Sound(c, w.session) && w.file <= c.response && w.session.ackedOffset <= |w.file|
    && (!w.session.responseStarted ==> w.net == {} && w.file == [])
    && forall segment :: segment in w.net ==> Genuine(c, segment, |w.file|)
  }

  lemma SeqDecodes(c: Config, offset: nat)
    requires offset <= Total(c) + 1 < TWO32
    ensures AckedBy(c.responseSeq, SeqAt(c.responseSeq, offset)) == offset
  {
    OffsetReadsBack(c.responseSeq, offset);
  }

  lemma FlightIsGenuine(c: Config, s: Session, h: Heard, have: nat)
    requires Sound(c, s) && Replies(c, s, h) && NotPremature(c, s, Acked(c, s, h.ack))
    requires Acked(c, s, h.ack) <= have
    ensures forall segment :: segment in Segments(Sends(c, s, h)) ==> Genuine(c, segment, have)
  {
    hide AckedBy, SeqAt, AcksFin, Slice, Genuine;
    var acked := Acked(c, s, h.ack);
    var start, size := Start(c, s, acked), Size(c, s, acked, h.window);
    NextIsSound(c, s, h);
    ReplyIsGenuine(c, s, start, size, h, have);
    EmptyIsGenuine(c, h.clientNext, have);
  }

  lemma ReplyIsGenuine(c: Config, s: Session, start: nat, size: nat, h: Heard, have: nat)
    requires start <= have && start + size <= Total(c)
    ensures Genuine(c, Reply(c, s, start, size, h), have)
  {
    hide SeqAt;
    var slice := Slice(c, start, size);
    assert slice == c.response[start..start + |slice|];
  }

  lemma EmptyIsGenuine(c: Config, ackNo: Dword, have: nat)
    ensures Genuine(c, Segment(c.responseSeq, ackNo, false, false, []), have)
  {
    assert SeqAt(c.responseSeq, 0) == c.responseSeq;
  }

  /** A genuine segment never leaves a hole: taking it gives the response up to its end. */
  lemma TakeIs(c: Config, file: seq<Byte>, segment: Segment)
    requires Total(c) + 1 < TWO32 && file <= c.response && Genuine(c, segment, |file|)
    ensures var file' := Take(c, file, segment);
            && file <= file' <= c.response
            && |file'| == Max(|file|, AckedBy(c.responseSeq, segment.seqNo) + |segment.payload|)
            && (segment.fin ==> file' == c.response)
  {
    hide AckedBy, SeqAt;
    var offset: nat :|
      && offset <= |file| && offset + |segment.payload| <= Total(c)
      && segment.seqNo == SeqAt(c.responseSeq, offset)
      && segment.payload == c.response[offset..offset + |segment.payload|]
      && (segment.fin ==> offset + |segment.payload| == Total(c));
    SeqDecodes(c, offset);
  }

  lemma HearKeeps(c: Config, w: World, h: Heard)
    requires Total(c) + 1 < TWO32 && Inv(c, w) && Legal(c, w, Hear(h))
    ensures Inv(c, Apply(c, w, Hear(h)))
  {
    hide AckedBy, SeqAt, AcksFin, Slice, Genuine, Size, Start, Finishes;
    NextIsSound(c, w.session, h);
    if Replies(c, w.session, h) {
      FlightIsGenuine(c, w.session, h, |w.file|);
    }
  }

  lemma GenuineGrows(c: Config, segment: Segment, have: nat, more: nat)
    requires Genuine(c, segment, have) && have <= more
    ensures Genuine(c, segment, more)
  {
  }

  lemma ArriveKeeps(c: Config, w: World, segment: Segment)
    requires Total(c) + 1 < TWO32 && Inv(c, w) && segment in w.net
    ensures Inv(c, Apply(c, w, Arrive(segment)))
  {
    hide Take, Genuine, AckedBy;
    TakeIs(c, w.file, segment);
    forall other | other in w.net
      ensures Genuine(c, other, |Take(c, w.file, segment)|)
    {
      GenuineGrows(c, other, |w.file|, |Take(c, w.file, segment)|);
    }
  }

  ghost predicate LegalRun(c: Config, w: World, steps: seq<Step>)
    requires w.session.ackedOffset <= Total(c)
    decreases |steps|
  {
    steps != [] ==> Legal(c, w, steps[0]) && LegalRun(c, Apply(c, w, steps[0]), steps[1..])
  }

  ghost function Run(c: Config, w: World, steps: seq<Step>): World
    requires w.session.ackedOffset <= Total(c)
    decreases |steps|
  {
    if steps == [] then w else Run(c, Apply(c, w, steps[0]), steps[1..])
  }

  lemma {:induction false} RunKeeps(c: Config, w: World, steps: seq<Step>)
    requires Total(c) + 1 < TWO32 && Inv(c, w) && LegalRun(c, w, steps)
    ensures Inv(c, Run(c, w, steps))
    decreases |steps|
  {
    hide AckedBy, Genuine, Next, Sends, Take;
    if steps != [] {
      match steps[0]
      case Hear(h) =>
        HearKeeps(c, w, h);
        RunKeeps(c, Apply(c, w, steps[0]), steps[1..]);
      case Arrive(segment) =>
        ArriveKeeps(c, w, segment);
        RunKeeps(c, Apply(c, w, steps[0]), steps[1..]);
    }
  }

  /**
   Over every run, whatever is lost, duplicated or reordered: the client's file is a prefix of the
   response, every reply still in the network extends it without a hole, and one with FIN completes it.
   */
  lemma ReplayLeavesNoHole(c: Config, steps: seq<Step>)
    requires Total(c) + 1 < TWO32 && LegalRun(c, World(FRESH, {}, []), steps)
    ensures var w := Run(c, World(FRESH, {}, []), steps);
            && w.file <= c.response && w.session.ackedOffset <= |w.file|
            && forall segment :: segment in w.net ==>
                 && w.file <= Take(c, w.file, segment) <= c.response
                 && AckedBy(c.responseSeq, segment.seqNo) <= |w.file|
                 && (segment.fin ==> Take(c, w.file, segment) == c.response)
  {
    hide Take, AckedBy, Run;
    RunKeeps(c, World(FRESH, {}, []), steps);
    var w := Run(c, World(FRESH, {}, []), steps);
    forall segment | segment in w.net
      ensures w.file <= Take(c, w.file, segment) <= c.response
      ensures AckedBy(c.responseSeq, segment.seqNo) <= |w.file|
      ensures segment.fin ==> Take(c, w.file, segment) == c.response
    {
      TakeIs(c, w.file, segment);
      StartsWithin(c, segment, |w.file|);
    }
  }

  lemma StartsWithin(c: Config, segment: Segment, have: nat)
    requires Total(c) + 1 < TWO32 && Genuine(c, segment, have)
    ensures AckedBy(c.responseSeq, segment.seqNo) <= have
  {
    hide AckedBy, SeqAt;
    var offset: nat :|
      && offset <= have && offset + |segment.payload| <= Total(c) && segment.seqNo == SeqAt(c.responseSeq, offset);
    SeqDecodes(c, offset);
  }

  // ---- a lossless client finishes ----

  /** The acknowledgement of a client that has `file`, and the FIN if `eof`. */
  function AckOf(c: Config, file: seq<Byte>, eof: bool): Dword {
    SeqAt(c.responseSeq, |file| + if eof then 1 else 0)
  }

  /** The client acknowledges what it has and takes the reply; `windows` are what it advertises. */
  ghost predicate Completes(c: Config, s: Session, file: seq<Byte>, eof: bool, windows: seq<Word>)
    requires s.ackedOffset <= Total(c)
    decreases |windows|
  {
    if windows == [] then s.finAcked && file == c.response
    else
      var h := Heard(AckOf(c, file, eof), windows[0], 0, 0);
      var s' := Next(c, s, h);
      if !Replies(c, s, h) then Completes(c, s', file, eof, windows[1..])
      else
        var reply := Sends(c, s, h)[0].segment;
        Completes(c, s', Take(c, file, reply), eof || reply.fin, windows[1..])
  }

  ghost predicate Synced(c: Config, s: Session, file: seq<Byte>, eof: bool) {
    && Sound(c, s) && file <= c.response && s.ackedOffset <= |file|
    && (!s.responseStarted ==> file == [])
    && (eof ==> s.finSent && file == c.response)
    && (s.finAcked ==> file == c.response)
  }

  /** One round with an open window brings a byte or the FIN, and the round after the FIN ends it. */
  lemma RoundAdvances(c: Config, s: Session, file: seq<Byte>, h: Heard)
    requires Total(c) + 1 < TWO32 && c.mss >= 1 && Synced(c, s, file, false) && Replies(c, s, h)
    requires h.ack == AckOf(c, file, false)
    ensures var reply := Sends(c, s, h)[0].segment;
            var file' := Take(c, file, reply);
            && Synced(c, Next(c, s, h), file', reply.fin)
            && (reply.fin || |file'| > |file|)
  {
    hide AckedBy, SeqAt, AcksFin, Slice, Size, Start, Take, Advances;
    SeqDecodes(c, |file|);
    NextIsSound(c, s, h);
    FlightIsGenuine(c, s, h, |file|);
    var sent := Sends(c, s, h);
    assert sent[0] in sent && sent[0].segment in Segments(sent);
    TakeIs(c, file, sent[0].segment);
    ReplyAdvancesIff(c, s, h);
    ReplyReaches(c, s, h);
  }

  lemma ReplyReaches(c: Config, s: Session, h: Heard)
    requires Total(c) + 1 < TWO32 && Sound(c, s) && Replies(c, s, h)
    ensures var acked, reply := Acked(c, s, h.ack), Sends(c, s, h)[0].segment;
            var start, size := Start(c, s, acked), Size(c, s, acked, h.window);
            Advances(c, acked, start, size) ==>
              reply.fin || AckedBy(c.responseSeq, reply.seqNo) + |reply.payload| > acked
  {
    hide AckedBy, SeqAt, AcksFin, Size;
    SeqDecodes(c, Start(c, s, Acked(c, s, h.ack)));
  }

  /** A client that acknowledges every reply has the whole response after at most Total + 2 open windows. */
  lemma {:induction false} LockstepCompletes(c: Config, s: Session, file: seq<Byte>, eof: bool, windows: seq<Word>)
    requires Total(c) + 1 < TWO32 && c.mss >= 1 && Synced(c, s, file, eof)
    requires forall i :: 0 <= i < |windows| ==> windows[i] > 0
    requires |windows| >= if s.finAcked then 0 else Total(c) - |file| + if eof then 1 else 2
    ensures Completes(c, s, file, eof, windows)
    decreases |windows|
  {
    hide AckedBy, SeqAt, Slice, Size, Start, Take, Sound, Finishes;
    if windows != [] {
      var h := Heard(AckOf(c, file, eof), windows[0], 0, 0);
      var s' := Next(c, s, h);
      if s.finAcked || eof {
        SeqDecodes(c, |file| + if eof then 1 else 0);
        SettledStaysSynced(c, s, file, eof, h);
        LockstepCompletes(c, s', file, eof, windows[1..]);
      } else {
        FinNotAckedYet(c, s, file);
        RoundAdvances(c, s, file, h);
        var reply := Sends(c, s, h)[0].segment;
        LockstepCompletes(c, s', Take(c, file, reply), reply.fin, windows[1..]);
      }
    }
  }

  lemma SettledStaysSynced(c: Config, s: Session, file: seq<Byte>, eof: bool, h: Heard)
    requires Total(c) + 1 < TWO32 && Synced(c, s, file, eof) && (s.finAcked || eof)
    requires h.ack == AckOf(c, file, eof)
    ensures !Replies(c, s, h) && Next(c, s, h).finAcked && Synced(c, Next(c, s, h), file, eof)
  {
    hide AckedBy;
    SeqDecodes(c, |file| + if eof then 1 else 0);
    NextIsSound(c, s, h);
  }

  lemma FinNotAckedYet(c: Config, s: Session, file: seq<Byte>)
    requires Total(c) + 1 < TWO32 && |file| <= Total(c)
    ensures !AcksFin(c, s, AckOf(c, file, false))
  {
    if SeqAt(c.responseSeq, |file|) == SeqAt(c.responseSeq, Total(c) + 1) {
      WrapInjective(c.responseSeq, |file|, Total(c) + 1);
    }
  }
}
