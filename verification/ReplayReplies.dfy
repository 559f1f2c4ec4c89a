/**
 What the single-flight peer answers over a whole run, in terms of what it heard and what it
 answered before: whether it answers, from where, how much, and with which flags and delays.
 */
module ReplayReplies {
  import opened Bytes
  import opened SeqSpace
  import opened ReplaySender

  /** The answer to the acknowledgement number `i`. */
  function Answer(c: Config, heard: seq<Heard>, i: nat): seq<Scheduled>
    requires i < |heard|
  {
    Sends(c, After(c, heard[..i]), heard[i])
  }

  ghost predicate Answered(c: Config, heard: seq<Heard>) {
    exists i: nat :: i < |heard| && Answer(c, heard, i) != []
  }

  ghost predicate FinIsOut(c: Config, heard: seq<Heard>) {
    exists i: nat :: i < |heard| && Answer(c, heard, i) != [] && Answer(c, heard, i)[0].segment.fin
  }

  /** The FIN was acknowledged after it went out. */
  ghost predicate FinIsAcked(c: Config, heard: seq<Heard>) {
    exists i: nat :: i < |heard| && FinIsOut(c, heard[..i]) && heard[i].ack == SeqAt(c.responseSeq, Total(c) + 1)
  }

  /** The greatest offset within the response that any of the acknowledgements stands for. */
  ghost predicate GreatestAcked(c: Config, heard: seq<Heard>, acked: nat) {
    && acked <= Total(c)
    && (forall i :: 0 <= i < |heard| && AckedBy(c.responseSeq, heard[i].ack) <= Total(c) ==>
          AckedBy(c.responseSeq, heard[i].ack) <= acked)
    && (acked > 0 ==> exists i :: 0 <= i < |heard| && AckedBy(c.responseSeq, heard[i].ack) == acked)
  }

  // ---- the session's fields are facts about the run ----

  lemma Prefix(heard: seq<Heard>, h: Heard, i: nat)
    requires i <= |heard|
    ensures (heard + [h])[..i] == heard[..i]
    ensures i < |heard| ==> (heard + [h])[i] == heard[i]
  {
  }

  lemma AfterMore(c: Config, heard: seq<Heard>, h: Heard)
    ensures After(c, heard + [h]) == Next(c, After(c, heard), h)
  {
    hide Next;
    assert (heard + [h])[..|heard|] == heard;
  }

  lemma AnswersMore(c: Config, heard: seq<Heard>, h: Heard)
    ensures forall i: nat :: i < |heard| ==> Answer(c, heard + [h], i) == Answer(c, heard, i)
    ensures Answer(c, heard + [h], |heard|) == Sends(c, After(c, heard), h)
  {
    hide After, Sends;
    forall i: nat | i < |heard|
      ensures Answer(c, heard + [h], i) == Answer(c, heard, i)
    {
      Prefix(heard, h, i);
    }
    Prefix(heard, h, |heard|);
    assert heard[..|heard|] == heard;
  }

  lemma AnsweredMore(c: Config, heard: seq<Heard>, h: Heard)
    ensures var sent := Sends(c, After(c, heard), h);
            && (Answered(c, heard + [h]) <==> Answered(c, heard) || sent != [])
            && (FinIsOut(c, heard + [h]) <==> FinIsOut(c, heard) || (sent != [] && sent[0].segment.fin))
  {
    hide Answer, Sends, After;
    AnswersMore(c, heard, h);
    if Answered(c, heard) {
      var i: nat :| i < |heard| && Answer(c, heard, i) != [];
      assert Answer(c, heard + [h], i) != [];
    }
    if FinIsOut(c, heard) {
      var i: nat :| i < |heard| && Answer(c, heard, i) != [] && Answer(c, heard, i)[0].segment.fin;
      assert Answer(c, heard + [h], i) != [];
    }
  }

  lemma FinIsAckedMore(c: Config, heard: seq<Heard>, h: Heard)
    ensures FinIsAcked(c, heard + [h]) <==>
              FinIsAcked(c, heard) || (FinIsOut(c, heard) && h.ack == SeqAt(c.responseSeq, Total(c) + 1))
  {
    hide FinIsOut, SeqAt;
    var more := heard + [h];
    forall i: nat | i <= |heard|
      ensures more[..i] == heard[..i]
    {
      Prefix(heard, h, i);
    }
    assert heard[..|heard|] == heard && more[|heard|] == h;
    if FinIsAcked(c, heard) {
      var i: nat :| i < |heard| && FinIsOut(c, heard[..i]) && heard[i].ack == SeqAt(c.responseSeq, Total(c) + 1);
      assert FinIsOut(c, more[..i]) && more[i] == heard[i];
    }
    if FinIsAcked(c, more) {
      var i: nat :| i < |more| && FinIsOut(c, more[..i]) && more[i].ack == SeqAt(c.responseSeq, Total(c) + 1);
      assert FinIsOut(c, heard[..i]) && (i < |heard| ==> more[i] == heard[i]);
    }
  }

  lemma GreatestMore(c: Config, heard: seq<Heard>, h: Heard, s: Session)
    requires GreatestAcked(c, heard, s.ackedOffset)
    ensures GreatestAcked(c, heard + [h], Acked(c, s, h.ack))
  {
    hide AckedBy;
    var more := heard + [h];
    assert more[|heard|] == h && forall i :: 0 <= i < |heard| ==> more[i] == heard[i];
  }

  /** What one call changes, by what it sends. */
  lemma CallIs(c: Config, s: Session, h: Heard)
    requires Sane(c, s)
    ensures var s', sent := Next(c, s, h), Sends(c, s, h);
            && s'.ackedOffset == Acked(c, s, h.ack)
            && (s'.responseStarted <==> s.responseStarted || sent != [])
            && (s'.finSent <==> s.finSent || (sent != [] && sent[0].segment.fin))
            && (s'.finAcked <==> s.finAcked || (s.finSent && h.ack == SeqAt(c.responseSeq, Total(c) + 1)))
            && (sent == [] <==> h.window == 0 || s'.finAcked)
            && (sent == [] ==> s'.flightStart == s.flightStart && s'.flightEnd == s.flightEnd)
  {
    hide SeqAt, AckedBy, Slice, Size, Start, Finishes;
  }

  /** The session remembers exactly this of its run. */
  lemma {:induction false} SessionIs(c: Config, heard: seq<Heard>)
    ensures var s := After(c, heard);
            && (s.responseStarted <==> Answered(c, heard)) && (s.finSent <==> FinIsOut(c, heard))
            && (s.finAcked <==> FinIsAcked(c, heard)) && GreatestAcked(c, heard, s.ackedOffset)
    decreases |heard|
  {
    hide Next, Sends, Acked, Answered, FinIsOut, FinIsAcked, GreatestAcked;
    if heard == [] {
      NothingHeard(c);
    } else {
      var before, h := heard[..|heard| - 1], heard[|heard| - 1];
      assert heard == before + [h];
      SessionIs(c, before);
      CallIs(c, After(c, before), h);
      AfterMore(c, before, h);
      AnsweredMore(c, before, h);
      FinIsAckedMore(c, before, h);
      GreatestMore(c, before, h, After(c, before));
    }
  }

  lemma NothingHeard(c: Config)
    ensures !Answered(c, []) && !FinIsOut(c, []) && !FinIsAcked(c, []) && GreatestAcked(c, [], 0)
  {
  }

  // ---- every answer of every run ----

  /** No answer exactly where the window is closed or the FIN was acknowledged, now or before. */
  lemma SilentIff(c: Config, heard: seq<Heard>, h: Heard)
    ensures Sends(c, After(c, heard), h) == [] <==> h.window == 0 || FinIsAcked(c, heard + [h])
  {
    hide Next, Sends, After, FinIsAcked, FinIsOut;
    CallIs(c, After(c, heard), h);
    AfterMore(c, heard, h);
    SessionIs(c, heard + [h]);
  }

  /** The answer carries the response from `start` on, and no more than there is of it. */
  predicate CarriesFrom(c: Config, reply: Segment, start: nat) {
    && reply.seqNo == SeqAt(c.responseSeq, start)
    && if reply.payload == [] then true else
         start + |reply.payload| <= Total(c) && reply.payload == c.response[start..start + |reply.payload|]
  }

  /** How much of the response an acknowledgement up to `acked` with this window admits. */
  function Admitted(c: Config, acked: nat, window: nat): int {
    Min(Min(c.mss, window), Total(c) - acked)
  }

  /** One answer, by the session it is given in. */
  ghost predicate ReplyFits(c: Config, s: Session, h: Heard, oversized: bool)
    requires Sane(c, s) && Sends(c, s, h) != []
  {
    var s' := Next(c, s, h);
    var reply, acked, start := Sends(c, s, h)[0].segment, s'.ackedOffset, s'.flightStart;
    var replays := c.overlap && s.flightStart < acked < s.flightEnd;
    && CarriesFrom(c, reply, start) && start == (if replays then s.flightStart else acked)
    && s'.flightEnd == start + (if oversized then Min(c.mss, Total(c)) else |reply.payload|)
    && |reply.payload| <= c.mss
    && (!oversized ==> start + |reply.payload| <= acked + h.window)
    && (!oversized && !replays ==> |reply.payload| == Admitted(c, acked, h.window))
    && (!oversized && replays ==> |reply.payload| == Min(acked - start + Admitted(c, acked, h.window), c.mss))
    && (oversized ==> |reply.payload| == Min(Min(c.mss, Total(c)), Total(c) - acked))
  }

  lemma OneReplyFits(c: Config, s: Session, h: Heard)
    requires Sane(c, s) && Sends(c, s, h) != []
    ensures ReplyFits(c, s, h, c.oversizeFirst && !s.responseStarted)
  {
    hide SeqAt, AckedBy, Slice;
    var acked := Acked(c, s, h.ack);
    NotReplayedFirst(c, s, h);
    SliceIs(c, Start(c, s, acked), Size(c, s, acked, h.window));
  }

  lemma SliceIs(c: Config, start: nat, size: nat)
    requires start <= Total(c)
    ensures var slice := Slice(c, start, size);
            |slice| == Min(size, Total(c) - start) && slice == c.response[start..start + |slice|]
  {
  }

  /**
   How much every answer carries: never more than the MSS, and only an oversized first one goes beyond
   the window. Without a replayed overlap it is exactly what MSS, window and response admit, counted from
   the greatest offset acknowledged so far.
   */
  lemma EveryReplyFits(c: Config, heard: seq<Heard>, h: Heard)
    requires Sends(c, After(c, heard), h) != []
    ensures ReplyFits(c, After(c, heard), h, c.oversizeFirst && !Answered(c, heard))
    ensures GreatestAcked(c, heard + [h], Next(c, After(c, heard), h).ackedOffset)
  {
    hide Answered, GreatestAcked, FinIsOut, FinIsAcked, Next, Sends, ReplyFits, After;
    SessionIs(c, heard);
    SessionIs(c, heard + [h]);
    AfterMore(c, heard, h);
    OneReplyFits(c, After(c, heard), h);
  }

  lemma NotReplayedFirst(c: Config, s: Session, h: Heard)
    requires Sane(c, s)
    ensures !s.responseStarted ==> !Overlaps(c, s, Acked(c, s, h.ack))
  {
    hide AckedBy;
  }

  /**
   The flags, numbers and delays of every answer: FIN exactly where it ends with the response and it
   carries nothing or may carry both, and the first one may be followed by an acknowledgement.
   */
  lemma EveryReplyIsMarked(c: Config, heard: seq<Heard>, h: Heard)
    requires Sends(c, After(c, heard), h) != []
    ensures var sent, s' := Sends(c, After(c, heard), h), After(c, heard + [h]);
            var reply, first, early := sent[0].segment, !Answered(c, heard), c.earlyPayload && !Answered(c, heard);
            && (reply.push <==> s'.flightEnd > s'.flightStart) && (reply.payload != [] ==> reply.push)
            && (reply.fin <==> s'.flightEnd == Total(c) && (c.finWithData || s'.flightStart == s'.flightEnd))
            && sent[0].delayMs == (if first then c.responseDelayMs else c.afterMs)
            && reply.ackNo == (if early then h.requestStart else h.clientNext)
            && |sent| == (if early then 2 else 1)
            && (early ==>
                  sent[1] == Scheduled(c.dataAckDelayMs, Segment(c.responseSeq, h.clientNext, false, false, [])))
  {
    hide Answered, GreatestAcked, FinIsOut, FinIsAcked, SeqAt, AckedBy, Size, Start;
    SessionIs(c, heard);
    AfterMore(c, heard, h);
    hide After;
  }
}
