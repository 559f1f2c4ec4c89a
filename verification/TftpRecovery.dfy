/**
 Recovery of the transfer from lost packets: one timeout brings a stalled transfer on, and a whole
 file goes through as long as no block is hit more often than the sender tries.
 */
module TftpRecovery {
  import opened Bytes
  import opened Tftp
  import opened TftpTransfer

  // ---- short runs ----

  lemma TwoSteps(t: Transfer, y: System, a: Step, b: Step)
    requires Enabled(y, a) && Enabled(Apply(t, y, a), b)
    ensures LegalRun(t, y, [a, b]) && Run(t, y, [a, b]) == Apply(t, Apply(t, y, a), b)
  {
    hide Enabled, Apply, LegalRun, Run;
    OneStep(t, y, a);
    OneStep(t, Apply(t, y, a), b);
    RunConcat(t, y, [a], [b]);
    assert [a, b] == [a] + [b];
  }

  lemma ThreeSteps(t: Transfer, y: System, a: Step, b: Step, d: Step)
    requires Enabled(y, a) && Enabled(Apply(t, y, a), b) && Enabled(Apply(t, Apply(t, y, a), b), d)
    ensures LegalRun(t, y, [a, b, d]) && Run(t, y, [a, b, d]) == Apply(t, Apply(t, Apply(t, y, a), b), d)
  {
    hide Enabled, Apply, LegalRun, Run;
    TwoSteps(t, y, a, b);
    OneStep(t, Apply(t, Apply(t, y, a), b), d);
    RunConcat(t, y, [a, b], [d]);
    assert [a, b, d] == [a, b] + [d];
  }

  // ---- one packet at a time ----

  /** Both ends wait, and nothing is on the wire: the last packet was lost. */
  ghost predicate Stalled(t: Transfer, y: System) {
    y.sender.status == Running && y.receiver.status == Running && y.data == [] && y.acks == []
  }

  ghost predicate FullBlock(t: Transfer, s: Sender) {
    |Chunk(t, s.pos)| == t.blockSize
  }

  /** The transfer is a block further on than the sender was, and the next one is on the wire. */
  ghost predicate MovedOn(t: Transfer, s: Sender, y: System) {
    && Inv(t, y) && Level(t, y) && Quiet(t, y)
    && y.sender == Sender(NextBlock(s.blockNo), s.pos + t.blockSize, 0, Running)
  }

  /** A block was taken and acknowledged: the next one is under way, or it was the last. */
  ghost predicate BlockDone(t: Transfer, s: Sender, y: System) {
    if FullBlock(t, s) then MovedOn(t, s, y) else BothFinished(t, y)
  }

  ghost predicate BothFinished(t: Transfer, y: System) {
    y.sender.status == Finished && y.receiver.status == Finished && y.receiver.file == t.data
  }

  /** A sender that still has a try resends its block. */
  lemma Resends(t: Transfer, y: System)
    requires y.sender.status == Running && y.sender.retry + 1 < SEND_RETRIES
    ensures Apply(t, y, SenderTimesOut) ==
            y.(sender := y.sender.(retry := y.sender.retry + 1), data := y.data + [Current(t, y.sender)])
  {
  }

  /** A receiver that hears the block acknowledges it, whether it takes it or has it. */
  lemma Answers(t: Transfer, y: System)
    requires Inv(t, y) && Quiet(t, y) && (Ahead(t, y) ==> y.receiver.retry + 1 < RECEIVE_RETRIES)
    ensures var y' := Apply(t, y, ReceiverHears);
            && Inv(t, y') && Ahead(t, y') && y'.sender == y.sender && y'.data == [] && y'.acks == [y.sender.blockNo]
            && (FullBlock(t, y.sender) ==> y'.receiver.status == Running)
            && (FullBlock(t, y.sender) ==> y'.receiver.retry == if Level(t, y) then 0 else y.receiver.retry + 1)
            && (!FullBlock(t, y.sender) ==> Level(t, y) && y'.receiver.status == Finished)
  {
    hide Chunk, DataThen, AllData, AllAcks, AcksThen, NextBlock, PreviousBlock;
    ReceiverHearsKeeps(t, y);
    Neighbours(y.sender.blockNo);
  }

  /** The acknowledgement brings the sender on. */
  lemma Advances(t: Transfer, y: System)
    requires Inv(t, y) && Ahead(t, y) && y.sender.status == Running && y.data == [] && y.acks == [y.sender.blockNo]
    requires FullBlock(t, y.sender) ==> y.receiver.status == Running
    ensures BlockDone(t, y.sender, Apply(t, y, SenderHears))
  {
    hide Chunk, DataThen, AllData, AllAcks, AcksThen, NextBlock, PreviousBlock;
    SenderHearsKeeps(t, y);
    Neighbours(y.sender.blockNo);
    FileGrows(t, y.sender.pos);
    SingletonsAreThen(y.sender.blockNo, Current(t, Apply(t, y, SenderHears).sender));
  }

  /** With nothing on the wire, resending the block leaves it alone there. */
  lemma Offers(t: Transfer, y: System)
    requires Inv(t, y) && Stalled(t, y) && y.sender.retry + 1 < SEND_RETRIES
    ensures var y' := Apply(t, y, SenderTimesOut);
            && Inv(t, y') && Quiet(t, y') && y'.receiver == y.receiver
            && y'.sender == y.sender.(retry := y.sender.retry + 1)
            && (Level(t, y) ==> Level(t, y')) && (Ahead(t, y) ==> Ahead(t, y'))
            && (Level(t, y') ==> Level(t, y)) && (Ahead(t, y') ==> Ahead(t, y))
  {
    hide Chunk, NextBlock, PreviousBlock;
    Resends(t, y);
    assert Current(t, Apply(t, y, SenderTimesOut).sender) == Current(t, y.sender);
  }

  // ---- one timeout brings a stalled transfer on ----

  /** Whichever packet was lost, the sender's timeout brings the transfer a block on or to its end. */
  lemma SenderRecovers(t: Transfer, y: System)
    requires Inv(t, y) && Stalled(t, y)
    requires y.sender.retry + 1 < SEND_RETRIES && y.receiver.retry + 1 < RECEIVE_RETRIES
    ensures var steps := [SenderTimesOut, ReceiverHears, SenderHears];
            LegalRun(t, y, steps) && BlockDone(t, y.sender, Run(t, y, steps))
  {
    hide Inv, Level, Ahead, Chunk, Apply, LegalRun, Run, BothFinished;
    Offers(t, y);
    var offered := Apply(t, y, SenderTimesOut);
    Answers(t, offered);
    Advances(t, Apply(t, offered, ReceiverHears));
    ThreeSteps(t, y, SenderTimesOut, ReceiverHears, SenderHears);
  }

  /** Where the acknowledgement was lost, the receiver's timeout does too, except where it raises. */
  lemma ReceiverRecovers(t: Transfer, y: System)
    requires Inv(t, y) && Stalled(t, y) && Ahead(t, y) && y.receiver.retry + 1 < RECEIVE_RETRIES
    ensures var steps := [ReceiverTimesOut, SenderHears];
            if y.sender.blockNo == 0xFFFF then Apply(t, y, ReceiverTimesOut).receiver.status == Crashed
            else LegalRun(t, y, steps) && BlockDone(t, y.sender, Run(t, y, steps))
  {
    hide Inv, Level, Chunk, Apply, LegalRun, Run, BothFinished;
    Asks(t, y);
    if y.sender.blockNo != 0xFFFF {
      Advances(t, Apply(t, y, ReceiverTimesOut));
      TwoSteps(t, y, ReceiverTimesOut, SenderHears);
    }
  }

  /** A receiver that waits for the next block acknowledges the last one again. */
  lemma Asks(t: Transfer, y: System)
    requires Inv(t, y) && Stalled(t, y) && Ahead(t, y) && y.receiver.retry + 1 < RECEIVE_RETRIES
    ensures var y' := Apply(t, y, ReceiverTimesOut);
            if y.sender.blockNo == 0xFFFF then y'.receiver.status == Crashed
            else
              && Inv(t, y') && Ahead(t, y') && y'.sender == y.sender && y'.data == [] && y'.acks == [y.sender.blockNo]
              && y'.receiver == y.receiver.(retry := y.receiver.retry + 1) && FullBlock(t, y.sender)
  {
    hide Chunk, DataThen, AllData, AllAcks, AcksThen, PreviousBlock;
    WaitKeeps(t, y, NoData);
    NotLevel(y.sender.blockNo, y.receiver.expected);
  }

  lemma NotLevel(block: Word, expected: Word)
    requires expected == NextBlock(block)
    ensures expected != block && (expected == 0 <==> block == 0xFFFF) && (expected > 0 ==> expected - 1 == block)
  {
  }

  // ---- a transfer with losses in every block ----

  /** Which packet of an attempt is lost; the sender's timeout follows. */
  datatype Loss = Block | Acknowledgement

  /** The attempts for one block that fail, and whether the last one needs the receiver's timeout. */
  datatype Trouble = Trouble(losses: seq<Loss>, asks: bool)

  function Attempt(loss: Loss): seq<Step> {
    match loss
    case Block => [LoseData(0), SenderTimesOut]
    case Acknowledgement => [ReceiverHears, LoseAck(0), SenderTimesOut]
  }

  function Attempts(losses: seq<Loss>): seq<Step> {
    if losses == [] then [] else Attempt(losses[0]) + Attempts(losses[1..])
  }

  function LastAttempt(asks: bool): seq<Step> {
    if asks then [ReceiverHears, LoseAck(0), ReceiverTimesOut, SenderHears] else [ReceiverHears, SenderHears]
  }

  function Round(trouble: Trouble): seq<Step> {
    Attempts(trouble.losses) + LastAttempt(trouble.asks)
  }

  function Rounds(troubles: seq<Trouble>): seq<Step> {
    if troubles == [] then [] else Round(troubles[0]) + Rounds(troubles[1..])
  }

  /** A block and what is left of the tries for it. */
  ghost predicate UnderWay(t: Transfer, s: Sender, y: System, tries: nat) {
    && Inv(t, y) && Quiet(t, y) && y.sender == s.(retry := y.sender.retry)
    && y.sender.retry + tries < SEND_RETRIES
    && (Ahead(t, y) ==> FullBlock(t, s) && y.receiver.retry + tries + 2 < RECEIVE_RETRIES)
  }

  lemma LosesBlock(t: Transfer, s: Sender, y: System, tries: nat)
    requires UnderWay(t, s, y, tries) && tries > 0
    ensures var steps := Attempt(Block);
            LegalRun(t, y, steps) && UnderWay(t, s, Run(t, y, steps), tries - 1)
  {
    hide Inv, Level, Ahead, Chunk, LegalRun, Run, Apply;
    var lost := Apply(t, y, LoseData(0));
    NothingLeft(t, y);
    Offers(t, lost);
    TwoSteps(t, y, LoseData(0), SenderTimesOut);
  }

  lemma NothingLeft(t: Transfer, y: System)
    requires Inv(t, y) && Quiet(t, y)
    ensures var lost := Apply(t, y, LoseData(0));
            && lost == y.(data := []) && Inv(t, lost)
            && (Level(t, lost) <==> Level(t, y)) && (Ahead(t, lost) <==> Ahead(t, y))
  {
    hide Chunk, NextBlock, PreviousBlock;
  }

  lemma LosesAcknowledgement(t: Transfer, s: Sender, y: System, tries: nat)
    requires UnderWay(t, s, y, tries) && tries > 0 && FullBlock(t, s)
    ensures var steps := Attempt(Acknowledgement);
            LegalRun(t, y, steps) && UnderWay(t, s, Run(t, y, steps), tries - 1)
  {
    hide Inv, Level, Ahead, Chunk, LegalRun, Run, Apply;
    Answers(t, y);
    var heard := Apply(t, y, ReceiverHears);
    AnswerLost(t, heard);
    var lost := Apply(t, heard, LoseAck(0));
    Offers(t, lost);
    ThreeSteps(t, y, ReceiverHears, LoseAck(0), SenderTimesOut);
    EitherWay(t, y);
  }

  lemma EitherWay(t: Transfer, y: System)
    requires Inv(t, y)
    ensures Level(t, y) || Ahead(t, y)
  {
    hide Level, Ahead;
  }

  lemma AnswerLost(t: Transfer, y: System)
    requires Inv(t, y) && Ahead(t, y) && |y.acks| == 1
    ensures var lost := Apply(t, y, LoseAck(0)); lost == y.(acks := []) && Inv(t, lost) && Ahead(t, lost)
  {
    hide Chunk, NextBlock, PreviousBlock, AllData;
  }

  lemma {:induction false} AttemptsFail(t: Transfer, s: Sender, y: System, losses: seq<Loss>)
    requires UnderWay(t, s, y, |losses|) && (Acknowledgement in losses ==> FullBlock(t, s))
    ensures LegalRun(t, y, Attempts(losses)) && UnderWay(t, s, Run(t, y, Attempts(losses)), 0)
    decreases |losses|
  {
    hide UnderWay, Attempt, LegalRun, Run, FullBlock;
    if losses == [] {
      NoSteps(t, y);
    } else {
      assert losses[0] in losses;
      match losses[0] {
        case Block => LosesBlock(t, s, y, |losses|);
        case Acknowledgement => LosesAcknowledgement(t, s, y, |losses|);
      }
      var next := Run(t, y, Attempt(losses[0]));
      AttemptsFail(t, s, next, losses[1..]);
      RunConcat(t, y, Attempt(losses[0]), Attempts(losses[1..]));
    }
  }

  lemma LastAttemptSucceeds(t: Transfer, s: Sender, y: System, asks: bool)
    requires UnderWay(t, s, y, 0) && (asks ==> FullBlock(t, s) && s.blockNo != 0xFFFF)
    ensures LegalRun(t, y, LastAttempt(asks)) && BlockDone(t, s, Run(t, y, LastAttempt(asks)))
  {
    hide Inv, Level, Ahead, Chunk, LegalRun, Run, Apply, BothFinished;
    EitherWay(t, y);
    Answers(t, y);
    var heard := Apply(t, y, ReceiverHears);
    if asks {
      AnswerLost(t, heard);
      var lost := Apply(t, heard, LoseAck(0));
      Asks(t, lost);
      var asked := Apply(t, lost, ReceiverTimesOut);
      Advances(t, asked);
      TwoSteps(t, y, ReceiverHears, LoseAck(0));
      TwoSteps(t, lost, ReceiverTimesOut, SenderHears);
      RunConcat(t, y, [ReceiverHears, LoseAck(0)], [ReceiverTimesOut, SenderHears]);
      assert LastAttempt(true) == [ReceiverHears, LoseAck(0)] + [ReceiverTimesOut, SenderHears];
    } else {
      Advances(t, heard);
      TwoSteps(t, y, ReceiverHears, SenderHears);
    }
  }

  /** Two failed attempts for a block are one less than the sender makes. */
  ghost predicate Bearable(t: Transfer, s: Sender, trouble: Trouble) {
    && |trouble.losses| < SEND_RETRIES
    && (Acknowledgement in trouble.losses ==> FullBlock(t, s))
    && (trouble.asks ==> FullBlock(t, s) && s.blockNo != 0xFFFF)
  }

  lemma RoundSucceeds(t: Transfer, y: System, trouble: Trouble)
    requires Inv(t, y) && Level(t, y) && Quiet(t, y) && y.sender.retry == 0 && Bearable(t, y.sender, trouble)
    ensures LegalRun(t, y, Round(trouble)) && BlockDone(t, y.sender, Run(t, y, Round(trouble)))
  {
    hide Inv, Chunk, LegalRun, Run, BothFinished, MovedOn, Attempts, LastAttempt;
    LevelIsNotAhead(t, y);
    AttemptsFail(t, y.sender, y, trouble.losses);
    var mid := Run(t, y, Attempts(trouble.losses));
    LastAttemptSucceeds(t, y.sender, mid, trouble.asks);
    RunConcat(t, y, Attempts(trouble.losses), LastAttempt(trouble.asks));
  }

  lemma LevelIsNotAhead(t: Transfer, y: System)
    requires Level(t, y) && y.receiver.status == Running
    ensures !Ahead(t, y)
  {
    hide Chunk;
    Neighbours(y.sender.blockNo);
  }

  /** The sender at the block `k` further on. */
  function SenderAt(t: Transfer, s: Sender, k: nat): Sender {
    Sender((s.blockNo + k) % 0x1_0000, s.pos + k * t.blockSize, 0, Running)
  }

  /**
   The file goes through if every block fails at most twice: `n - 1` full blocks, in which packets of both
   kinds are lost, and a shorter or empty last one, whose acknowledgement is not lost.
   */
  lemma {:induction false} LossyFinishes(t: Transfer, y: System, troubles: seq<Trouble>)
    requires Inv(t, y) && Level(t, y) && Quiet(t, y) && y.sender.retry == 0
    requires var n := |troubles|;
             n > 0 && (n - 1) * t.blockSize <= |t.data| - y.sender.pos < n * t.blockSize
    requires forall k: nat :: k < |troubles| ==> Bearable(t, SenderAt(t, y.sender, k), troubles[k])
    ensures LegalRun(t, y, Rounds(troubles)) && BothFinished(t, Run(t, y, Rounds(troubles)))
    decreases |troubles|
  {
    hide Inv, Level, Chunk, LegalRun, Run, BothFinished, Bearable, Round, SenderAt;
    PosWithin(t, y);
    FirstBlock(t, y.sender, troubles);
    RoundSucceeds(t, y, troubles[0]);
    ShortChunk(t, y.sender.pos);
    var next := Run(t, y, Round(troubles[0]));
    if FullBlock(t, y.sender) {
      Distribute(|troubles|, t.blockSize);
      forall k: nat | k < |troubles[1..]|
        ensures Bearable(t, SenderAt(t, next.sender, k), troubles[1..][k])
      {
        LaterBlock(t, y.sender, next.sender, k);
        assert Bearable(t, SenderAt(t, y.sender, k + 1), troubles[k + 1]);
      }
      LossyFinishes(t, next, troubles[1..]);
      RunConcat(t, y, Round(troubles[0]), Rounds(troubles[1..]));
    } else {
      OneLeft(|troubles|, t.blockSize, |t.data| - y.sender.pos);
      assert troubles[1..] == [] && Rounds([]) == [];
      assert Rounds(troubles) == Round(troubles[0]) + [] == Round(troubles[0]);
    }
  }

  lemma FirstBlock(t: Transfer, s: Sender, troubles: seq<Trouble>)
    requires s.status == Running && s.retry == 0 && troubles != []
    requires forall k: nat :: k < |troubles| ==> Bearable(t, SenderAt(t, s, k), troubles[k])
    ensures Bearable(t, s, troubles[0])
  {
    hide Bearable;
    assert SenderAt(t, s, 0) == s;
  }

  lemma LaterBlock(t: Transfer, s: Sender, next: Sender, k: nat)
    requires next == Sender(NextBlock(s.blockNo), s.pos + t.blockSize, 0, Running)
    ensures SenderAt(t, next, k) == SenderAt(t, s, k + 1)
  {
    assert (k + 1) * t.blockSize == k * t.blockSize + t.blockSize;
    SumOfBlocks(s.blockNo, k);
  }

  lemma SumOfBlocks(block: Word, k: nat)
    ensures (NextBlock(block) + k) % 0x1_0000 == (block + (k + 1)) % 0x1_0000
  {
  }

  /** From the very start, once the acknowledgement of block 0 is out of the way. */
  lemma LossyTransferFinishes(t: Transfer, troubles: seq<Trouble>)
    requires t.blockSize > 0
    requires var n := |troubles|; n > 0 && (n - 1) * t.blockSize <= |t.data| < n * t.blockSize
    requires forall k: nat :: k < |troubles| ==> Bearable(t, SenderAt(t, FIRST_SEND, k), troubles[k])
    ensures var steps := [LoseAck(0)] + Rounds(troubles);
            LegalRun(t, Start(t), steps) && BothFinished(t, Run(t, Start(t), steps))
  {
    hide LegalRun, Run, Chunk, Rounds, Bearable, BothFinished;
    var y := Apply(t, Start(t), LoseAck(0));
    StartIsOk(t);
    ChannelKeeps(t, Start(t), LoseAck(0));
    OneStep(t, Start(t), LoseAck(0));
    LossyFinishes(t, y, troubles);
    RunConcat(t, Start(t), [LoseAck(0)], Rounds(troubles));
  }

  // ---- how often each end tries ----

  function Copies<T>(x: T, n: nat): seq<T> {
    seq(n, _ => x)
  }

  /** Three tries for a block: two copies more, and then the sender gives up. */
  lemma {:induction false} SenderTriesThrice(t: Transfer, s: Sender, inputs: seq<ToSender>)
    requires s.status == Running && s.retry < 3 && AckOf(s.blockNo) !in inputs
    ensures var tries, end := s.retry + |inputs|, SendRun(t, s, inputs);
            if tries < 3 then end == s.(retry := tries) && SendOutputs(t, s, inputs) == Copies(Current(t, s), |inputs|)
            else
              && end.status == GaveUp && end.pos == s.pos
              && SendOutputs(t, s, inputs) == Copies(Current(t, s), 2 - s.retry)
    decreases |inputs|
  {
    hide Chunk;
    if inputs != [] {
      var next, rest := SendStep(t, s, inputs[0]), inputs[1..];
      assert inputs[0] in inputs && forall x :: x in rest ==> x in inputs;
      if s.retry + 1 == 3 {
        StoppedSender(t, next, rest);
      } else {
        SenderTriesThrice(t, next, rest);
        assert Current(t, next) == Current(t, s);
      }
    }
  }

  /** Before the first block the receiver offers its start packet five times in all. */
  lemma {:induction false} ReceiverOffersFiveTimes(t: Transfer, r: Receiver, inputs: seq<ToReceiver>)
    requires r.status == Running && !r.started && r.retry < 5
    requires forall x :: x in inputs ==> !(x.DataOf? && x.packet.block == r.expected)
    ensures var tries, end := r.retry + |inputs|, ReceiveRun(t, r, inputs);
            if tries < 5 then end == r.(retry := tries) && ReceiveOutputs(t, r, inputs) == Copies(0, |inputs|)
            else end.status == GaveUp && end.file == r.file && ReceiveOutputs(t, r, inputs) == Copies(0, 4 - r.retry)
    decreases |inputs|
  {
    if inputs != [] {
      var next, rest := ReceiveStep(t, r, inputs[0]), inputs[1..];
      assert inputs[0] in inputs && forall x :: x in rest ==> x in inputs;
      if r.retry + 1 == 5 {
        StoppedReceiver(t, next, rest);
      } else {
        ReceiverOffersFiveTimes(t, next, rest);
      }
    }
  }

  /** One reminder of the block before for every timeout and for every repeat of that block. */
  function Reminders(r: Receiver, inputs: seq<ToReceiver>): seq<Word> {
    if inputs == [] then []
    else
      var previous := PreviousBlock(r.expected);
      (if inputs[0].NoData? || (inputs[0].DataOf? && inputs[0].packet.block == previous) then [previous] else [])
      + Reminders(r, inputs[1..])
  }

  /** For every other block it waits five times, reminding the sender, and then gives up with what it has. */
  lemma {:induction false} ReceiverWaitsFiveTimes(t: Transfer, r: Receiver, inputs: seq<ToReceiver>)
    requires r.status == Running && r.started && r.retry < 5 && r.expected > 0 && r.retry + |inputs| <= 5
    requires forall x :: x in inputs ==> !(x.DataOf? && x.packet.block == r.expected)
    ensures var tries, end := r.retry + |inputs|, ReceiveRun(t, r, inputs);
            && end == (if tries < 5 then r.(retry := tries) else r.(retry := 5, status := GaveUp))
            && ReceiveOutputs(t, r, inputs) == Reminders(r, inputs)
    decreases |inputs|
  {
    hide PreviousBlock;
    Neighbours(r.expected);
    if inputs != [] {
      var next, rest := ReceiveStep(t, r, inputs[0]), inputs[1..];
      assert inputs[0] in inputs && forall x :: x in rest ==> x in inputs;
      if r.retry + 1 == 5 {
        StoppedReceiver(t, next, rest);
        assert rest == [];
      } else {
        ReceiverWaitsFiveTimes(t, next, rest);
        SameReminders(r, next, rest);
      }
    }
  }

  lemma {:induction false} SameReminders(r: Receiver, r': Receiver, inputs: seq<ToReceiver>)
    requires r.expected == r'.expected
    ensures Reminders(r, inputs) == Reminders(r', inputs)
    decreases |inputs|
  {
    if inputs != [] {
      SameReminders(r, r', inputs[1..]);
    }
  }
}
