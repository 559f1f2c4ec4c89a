/**
 The two ends of the transfer joined by two channels that keep the order of what they carry but
 lose and duplicate it. Block numbers wrap at 65536 and the file may have any length.
 */
module TftpTransfer {
  import opened Bytes
  import opened Tftp

  datatype System = System(sender: Sender, receiver: Receiver, data: seq<Packet>, acks: seq<Word>)

  datatype Step =
    | SenderHears          // takes the oldest acknowledgement
    | SenderTimesOut
    | SenderGetsStray
    | ReceiverHears        // takes the oldest block
    | ReceiverTimesOut
    | ReceiverGetsStray
    | LoseData(i: nat)
    | LoseAck(i: nat)
    | RepeatData(i: nat)
    | RepeatAck(i: nat)

  function Start(t: Transfer): System {
    System(FIRST_SEND, FIRST_RECEIVE, [Current(t, FIRST_SEND)], [0])
  }

  predicate Enabled(y: System, step: Step) {
    match step
    case SenderHears => y.acks != []
    case ReceiverHears => y.data != []
    case LoseData(i) => i < |y.data|
    case RepeatData(i) => i < |y.data|
    case LoseAck(i) => i < |y.acks|
    case RepeatAck(i) => i < |y.acks|
    case _ => true
  }

  function Without<T>(q: seq<T>, i: nat): seq<T>
    requires i < |q|
  {
    q[..i] + q[i + 1..]
  }

  function Repeated<T>(q: seq<T>, i: nat): seq<T>
    requires i < |q|
  {
    q[..i + 1] + q[i..]
  }

  function ToSend(t: Transfer, y: System, input: ToSender): System {
    y.(sender := SendStep(t, y.sender, input), data := y.data + SendOutput(t, y.sender, input))
  }

  function ToReceive(t: Transfer, y: System, input: ToReceiver): System {
    y.(receiver := ReceiveStep(t, y.receiver, input), acks := y.acks + ReceiveOutput(t, y.receiver, input))
  }

  function Apply(t: Transfer, y: System, step: Step): System
    requires Enabled(y, step)
  {
    match step
    case SenderHears => ToSend(t, y.(acks := y.acks[1..]), AckOf(y.acks[0]))
    case SenderTimesOut => ToSend(t, y, NoAck)
    case SenderGetsStray => ToSend(t, y, StrayAck)
    case ReceiverHears => ToReceive(t, y.(data := y.data[1..]), DataOf(y.data[0]))
    case ReceiverTimesOut => ToReceive(t, y, NoData)
    case ReceiverGetsStray => ToReceive(t, y, StrayData)
    case LoseData(i) => y.(data := Without(y.data, i))
    case RepeatData(i) => y.(data := Repeated(y.data, i))
    case LoseAck(i) => y.(acks := Without(y.acks, i))
    case RepeatAck(i) => y.(acks := Repeated(y.acks, i))
  }

  // ---- the invariant ----

  /** Copies of the block before, then copies of the current one. */
  ghost predicate DataThen(q: seq<Packet>, before: Word, current: Packet) {
    && (forall i :: 0 <= i < |q| ==> q[i].block == before || q[i] == current)
    && (forall i, j :: 0 <= i < j < |q| ==> q[i] == current ==> q[j] == current)
  }

  ghost predicate AcksThen(q: seq<Word>, before: Word, current: Word) {
    && (forall i :: 0 <= i < |q| ==> q[i] == before || q[i] == current)
    && (forall i, j :: 0 <= i < j < |q| ==> q[i] == current ==> q[j] == current)
  }

  ghost predicate AllAcks(q: seq<Word>, block: Word) {
    forall i :: 0 <= i < |q| ==> q[i] == block
  }

  ghost predicate AllData(q: seq<Packet>, packet: Packet) {
    forall i :: 0 <= i < |q| ==> q[i] == packet
  }

  /** The receiver waits for the block the sender is sending. */
  ghost predicate Level(t: Transfer, y: System) {
    && y.sender.pos <= |t.data| && y.receiver.file == t.data[..y.sender.pos]
    && y.receiver.expected == y.sender.blockNo
    && y.receiver.status != Finished && y.sender.status != Finished
    && (!y.receiver.started ==> y.receiver.expected == 1)
    && DataThen(y.data, PreviousBlock(y.sender.blockNo), Current(t, y.sender))
    && AllAcks(y.acks, PreviousBlock(y.sender.blockNo))
  }

  /** The receiver has the block the sender is sending. */
  ghost predicate Ahead(t: Transfer, y: System) {
    && y.sender.pos <= |t.data| && y.receiver.file == t.data[..y.sender.pos] + Chunk(t, y.sender.pos)
    && (y.receiver.status == Finished <==> |Chunk(t, y.sender.pos)| < t.blockSize)
    && (y.receiver.status != Finished ==> y.receiver.started && y.receiver.expected == NextBlock(y.sender.blockNo))
    && AllData(y.data, Current(t, y.sender))
    && AcksThen(y.acks, PreviousBlock(y.sender.blockNo), y.sender.blockNo)
    && (y.sender.status == Finished ==> y.receiver.status == Finished)
  }

  ghost predicate Inv(t: Transfer, y: System) {
    && t.blockSize > 0
    && (Level(t, y) || Ahead(t, y))
  }

  lemma StartIsOk(t: Transfer)
    requires t.blockSize > 0
    ensures Inv(t, Start(t)) && Level(t, Start(t))
  {
  }

  // ---- block numbers and queues ----

  lemma Neighbours(block: Word)
    ensures PreviousBlock(block) != block && NextBlock(block) != block
    ensures PreviousBlock(NextBlock(block)) == block
    ensures block > 0 ==> PreviousBlock(block) == block - 1
  {
  }

  lemma FileGrows(t: Transfer, pos: nat)
    requires pos <= |t.data|
    ensures pos + |Chunk(t, pos)| <= |t.data|
    ensures t.data[..pos] + Chunk(t, pos) == t.data[..pos + |Chunk(t, pos)|]
    ensures |Chunk(t, pos)| < t.blockSize ==> t.data[..pos] + Chunk(t, pos) == t.data
  {
  }

  /** A lossy, duplicating channel hands on nothing it was not given and changes no order. */
  lemma ChannelKeepsData(q: seq<Packet>, q': seq<Packet>, i: nat, before: Word, current: Packet)
    requires i < |q| && (q' == Without(q, i) || q' == Repeated(q, i))
    ensures DataThen(q, before, current) ==> DataThen(q', before, current)
    ensures AllData(q, current) ==> AllData(q', current)
  {
  }

  lemma ChannelKeepsAcks(q: seq<Word>, q': seq<Word>, i: nat, before: Word, current: Word)
    requires i < |q| && (q' == Without(q, i) || q' == Repeated(q, i))
    ensures AcksThen(q, before, current) ==> AcksThen(q', before, current)
    ensures AllAcks(q, before) ==> AllAcks(q', before)
  {
  }

  lemma DataSent(q: seq<Packet>, before: Word, current: Packet)
    ensures DataThen(q, before, current) ==> DataThen(q + [current], before, current)
    ensures AllData(q, current) ==> AllData(q + [current], current)
  {
  }

  lemma AcksSent(q: seq<Word>, before: Word, current: Word)
    ensures AcksThen(q, before, current) ==> AcksThen(q + [current], before, current)
    ensures AllAcks(q, before) ==> AllAcks(q + [before], before)
  {
  }

  // ---- every step keeps the invariant ----

  /** A sender that did not hear its acknowledgement sends the block again or gives up. */
  lemma ResendKeeps(t: Transfer, y: System, input: ToSender)
    requires Inv(t, y) && input != AckOf(y.sender.blockNo)
    ensures Inv(t, ToSend(t, y, input)) && ToSend(t, y, input).receiver == y.receiver
  {
    hide Chunk, DataThen, AllData, AcksThen, AllAcks, PreviousBlock, NextBlock;
    DataSent(y.data, PreviousBlock(y.sender.blockNo), Current(t, y.sender));
    var y' := ToSend(t, y, input);
    assert y'.data == y.data || y'.data == y.data + [Current(t, y.sender)];
  }

  lemma AdvanceKeeps(t: Transfer, y: System)
    requires Inv(t, y) && Ahead(t, y) && AllAcks(y.acks, y.sender.blockNo)
    ensures Inv(t, ToSend(t, y, AckOf(y.sender.blockNo)))
  {
    hide DataThen, AllData, AcksThen, AllAcks, PreviousBlock, NextBlock, Chunk;
    var s, y' := y.sender, ToSend(t, y, AckOf(y.sender.blockNo));
    FileGrows(t, s.pos);
    Neighbours(s.blockNo);
    if y'.sender.status == Running && s.status == Running {
      OldDataBecomesPrevious(y.data, Current(t, s), Current(t, y'.sender));
    } else {
      assert y'.data == y.data;
    }
  }

  lemma OldDataBecomesPrevious(q: seq<Packet>, old_: Packet, next: Packet)
    requires AllData(q, old_) && next.block != old_.block
    ensures DataThen(q + [next], old_.block, next)
  {
  }

  lemma SenderHearsKeeps(t: Transfer, y: System)
    requires Inv(t, y) && y.acks != []
    ensures Inv(t, Apply(t, y, SenderHears))
  {
    hide Chunk, DataThen, AllData, SendStep, SendOutput;
    var rest := y.(acks := y.acks[1..]);
    Neighbours(y.sender.blockNo);
    HeadOfAcks(y.acks, PreviousBlock(y.sender.blockNo), y.sender.blockNo);
    assert Inv(t, rest);
    if y.acks[0] == y.sender.blockNo {
      AdvanceKeeps(t, rest);
    } else {
      ResendKeeps(t, rest, AckOf(y.acks[0]));
    }
  }

  lemma HeadOfAcks(q: seq<Word>, before: Word, current: Word)
    requires q != [] && before != current
    ensures AcksThen(q, before, current) ==> AcksThen(q[1..], before, current)
    ensures AcksThen(q, before, current) && q[0] == current ==> AllAcks(q[1..], current)
    ensures AllAcks(q, before) ==> AllAcks(q[1..], before) && q[0] != current
  {
  }

  lemma HeadOfData(q: seq<Packet>, before: Word, current: Packet)
    requires q != [] && before != current.block
    ensures DataThen(q, before, current) ==> DataThen(q[1..], before, current)
    ensures DataThen(q, before, current) && q[0].block == current.block ==> q[0] == current && AllData(q[1..], current)
    ensures DataThen(q, before, current) && q[0].block != current.block ==> q[0].block == before
    ensures AllData(q, current) ==> AllData(q[1..], current) && q[0] == current
  {
  }

  /** A receiver that did not take a block re-acknowledges the one before, stays silent or stops. */
  lemma WaitKeeps(t: Transfer, y: System, input: ToReceiver)
    requires Inv(t, y) && !Accepts(y.receiver, input)
    ensures Inv(t, ToReceive(t, y, input)) && ToReceive(t, y, input).sender == y.sender
  {
    hide Chunk, DataThen, AllData, AcksThen, AllAcks;
    var r, block := y.receiver, y.sender.blockNo;
    Neighbours(block);
    Neighbours(r.expected);
    AcksSent(y.acks, PreviousBlock(block), block);
    var y' := ToReceive(t, y, input);
    WaitOutput(t, r, input);
    assert y'.acks == y.acks || (r.status == Running && y'.acks == y.acks + [PreviousBlock(r.expected)]);
    hide PreviousBlock, NextBlock;
    WaitState(t, r, input);
    AcksSent(y.acks, PreviousBlock(block), PreviousBlock(block));
    hide ReceiveStep, ReceiveOutput;
  }

  lemma WaitOutput(t: Transfer, r: Receiver, input: ToReceiver)
    requires !Accepts(r, input) && (r.status == Running && !r.started ==> r.expected == 1)
    ensures ReceiveOutput(t, r, input) == [] ||
            (r.status == Running && ReceiveOutput(t, r, input) == [PreviousBlock(r.expected)])
  {
  }

  lemma WaitState(t: Transfer, r: Receiver, input: ToReceiver)
    requires !Accepts(r, input)
    ensures var r' := ReceiveStep(t, r, input);
            && r' == r.(retry := r'.retry, status := r'.status)
            && (r'.status == Finished <==> r.status == Finished)
  {
  }

  lemma TakeKeeps(t: Transfer, y: System)
    requires Inv(t, y) && Level(t, y) && AllData(y.data, Current(t, y.sender)) && y.receiver.status == Running
    ensures Inv(t, ToReceive(t, y, DataOf(Current(t, y.sender))))
  {
    hide Chunk, DataThen, AllData, AllAcks, AcksThen, PreviousBlock, NextBlock;
    NewAck(y.acks, PreviousBlock(y.sender.blockNo), y.sender.blockNo);
  }

  lemma NewAck(q: seq<Word>, before: Word, current: Word)
    requires AllAcks(q, before)
    ensures AcksThen(q + [current], before, current)
  {
  }

  lemma ReceiverHearsKeeps(t: Transfer, y: System)
    requires Inv(t, y) && y.data != []
    ensures Inv(t, Apply(t, y, ReceiverHears))
  {
    hide Chunk, DataThen, AllData, AllAcks, AcksThen, PreviousBlock, NextBlock, ReceiveStep, ReceiveOutput;
    var rest, block := y.(data := y.data[1..]), y.sender.blockNo;
    Neighbours(block);
    HeadOfData(y.data, PreviousBlock(block), Current(t, y.sender));
    if Level(t, y) && Accepts(y.receiver, DataOf(y.data[0])) {
      TakeKeeps(t, rest);
    } else {
      WaitKeeps(t, rest, DataOf(y.data[0]));
    }
  }

  lemma ChannelKeeps(t: Transfer, y: System, step: Step)
    requires Inv(t, y) && Enabled(y, step)
    requires step.LoseData? || step.RepeatData? || step.LoseAck? || step.RepeatAck?
    ensures Inv(t, Apply(t, y, step))
  {
    hide Chunk, DataThen, AllData, AllAcks, AcksThen, PreviousBlock, NextBlock;
    var y', before, block := Apply(t, y, step), PreviousBlock(y.sender.blockNo), y.sender.blockNo;
    if step.LoseData? || step.RepeatData? {
      ChannelKeepsData(y.data, y'.data, step.i, before, Current(t, y.sender));
    } else {
      ChannelKeepsAcks(y.acks, y'.acks, step.i, before, block);
    }
  }

  lemma StepKeeps(t: Transfer, y: System, step: Step)
    requires Inv(t, y) && Enabled(y, step)
    ensures Inv(t, Apply(t, y, step))
  {
    hide Inv, ToSend, ToReceive;
    match step
    case SenderHears => SenderHearsKeeps(t, y);
    case SenderTimesOut => ResendKeeps(t, y, NoAck);
    case SenderGetsStray => ResendKeeps(t, y, StrayAck);
    case ReceiverHears => ReceiverHearsKeeps(t, y);
    case ReceiverTimesOut => WaitKeeps(t, y, NoData);
    case ReceiverGetsStray => WaitKeeps(t, y, StrayData);
    case _ => ChannelKeeps(t, y, step);
  }

  // ---- whole runs ----

  ghost predicate LegalRun(t: Transfer, y: System, steps: seq<Step>)
    decreases |steps|
  {
    steps != [] ==> Enabled(y, steps[0]) && LegalRun(t, Apply(t, y, steps[0]), steps[1..])
  }

  ghost function Run(t: Transfer, y: System, steps: seq<Step>): System
    requires LegalRun(t, y, steps)
    decreases |steps|
  {
    if steps == [] then y else Run(t, Apply(t, y, steps[0]), steps[1..])
  }

  lemma {:induction false} RunKeeps(t: Transfer, y: System, steps: seq<Step>)
    requires Inv(t, y) && LegalRun(t, y, steps)
    ensures Inv(t, Run(t, y, steps))
    decreases |steps|
  {
    hide Inv, Apply, Enabled;
    if steps != [] {
      StepKeeps(t, y, steps[0]);
      RunKeeps(t, Apply(t, y, steps[0]), steps[1..]);
    }
  }

  /**
   Over every run: the file written so far is a prefix of the data, a finished receiver has all of
   it, and a finished sender means a finished receiver -- also where the data is a multiple of the
   block size and the last block is empty.
   */
  lemma TransferIsSafe(t: Transfer, steps: seq<Step>)
    requires t.blockSize > 0 && LegalRun(t, Start(t), steps)
    ensures var y := Run(t, Start(t), steps);
            && y.receiver.file <= t.data
            && (y.receiver.status == Finished ==> y.receiver.file == t.data)
            && (y.sender.status == Finished ==>
                  y.receiver.status == Finished && y.sender.pos <= |t.data| < y.sender.pos + t.blockSize)
  {
    hide Run, Chunk;
    StartIsOk(t);
    RunKeeps(t, Start(t), steps);
    var y := Run(t, Start(t), steps);
    FileGrows(t, y.sender.pos);
    ShortChunk(t, y.sender.pos);
  }

  lemma ShortChunk(t: Transfer, pos: nat)
    requires pos <= |t.data|
    ensures |Chunk(t, pos)| < t.blockSize <==> |t.data| < pos + t.blockSize
  {
  }

  // ---- a transfer without losses finishes ----

  /** One block and its acknowledgement go through. */
  ghost function Exchange(t: Transfer, y: System): System
    requires y.data != []
  {
    var taken := Apply(t, y, ReceiverHears);
    if taken.acks == [] then taken else Apply(t, taken, SenderHears)
  }

  ghost predicate Quiet(t: Transfer, y: System) {
    && y.sender.status == Running && y.receiver.status == Running
    && y.data == [Current(t, y.sender)] && y.acks == []
  }

  lemma ExchangeIs(t: Transfer, y: System)
    requires Inv(t, y) && Level(t, y) && Quiet(t, y)
    ensures var y', full := Exchange(t, y), |Chunk(t, y.sender.pos)| == t.blockSize;
            && Inv(t, y')
            && (full ==> Level(t, y') && Quiet(t, y') && y'.sender.pos == y.sender.pos + t.blockSize)
            && (full ==> y'.sender.blockNo == NextBlock(y.sender.blockNo) && y'.receiver.started)
            && Apply(t, y, ReceiverHears).acks != []
            && (!full ==> y'.sender.status == Finished && y'.receiver.status == Finished)
  {
    hide Chunk, DataThen, AllData, AllAcks, AcksThen, NextBlock, PreviousBlock;
    var taken := Apply(t, y, ReceiverHears);
    ReceiverHearsKeeps(t, y);
    assert taken.acks == [y.sender.blockNo];
    SenderHearsKeeps(t, taken);
    Neighbours(y.sender.blockNo);
    SingletonsAreThen(taken.sender.blockNo, Current(t, Exchange(t, y).sender));
    FileGrows(t, y.sender.pos);
  }

  lemma SingletonsAreThen(before: Word, current: Packet)
    ensures DataThen([current], before, current) && AllAcks([], before)
  {
  }

  ghost function Exchanges(t: Transfer, y: System, n: nat): System
    decreases n
  {
    if n == 0 || y.data == [] then y else Exchanges(t, Exchange(t, y), n - 1)
  }

  /** Without losses the transfer takes one exchange a block: `n - 1` full ones and a shorter or empty last one. */
  lemma {:induction false} LosslessFinishes(t: Transfer, y: System, n: nat)
    requires Inv(t, y) && Level(t, y) && Quiet(t, y)
    requires n > 0 && (n - 1) * t.blockSize <= |t.data| - y.sender.pos < n * t.blockSize
    ensures var y' := Exchanges(t, y, n);
            && y'.sender.status == Finished && y'.receiver.status == Finished && y'.receiver.file == t.data
    decreases n
  {
    hide Inv, Level, Exchange, Chunk;
    ExchangeIs(t, y);
    PosWithin(t, y);
    ShortChunk(t, y.sender.pos);
    var next := Exchange(t, y);
    if |Chunk(t, y.sender.pos)| == t.blockSize {
      Distribute(n, t.blockSize);
      LosslessFinishes(t, next, n - 1);
    } else {
      OneLeft(n, t.blockSize, |t.data| - y.sender.pos);
      FinishedHasAll(t, next);
      assert Exchanges(t, y, 1) == Exchanges(t, next, 0);
    }
  }

  lemma Distribute(n: nat, size: nat)
    ensures (n - 1) * size == n * size - size && (n - 2) * size == (n - 1) * size - size
  {
  }

  lemma OneLeft(n: nat, size: nat, left: nat)
    requires 0 < n && (n - 1) * size <= left < size
    ensures n == 1
  {
    assert n >= 2 ==> (n - 2) * size >= 0;
    Distribute(n, size);
  }

  lemma PosWithin(t: Transfer, y: System)
    requires Inv(t, y)
    ensures t.blockSize > 0 && y.sender.pos <= |t.data|
  {
  }

  lemma FinishedHasAll(t: Transfer, y: System)
    requires Inv(t, y) && y.receiver.status == Finished
    ensures y.receiver.file == t.data
  {
    hide Chunk;
    FileGrows(t, y.sender.pos);
  }

  // ---- the timeout that raises ----

  /** Blocks a receiver takes from `inputs`. */
  ghost function Taken(t: Transfer, r: Receiver, inputs: seq<ToReceiver>): nat
    decreases |inputs|
  {
    if inputs == [] then 0
    else (if Accepts(r, inputs[0]) then 1 else 0) + Taken(t, ReceiveStep(t, r, inputs[0]), inputs[1..])
  }

  lemma StepCounts(t: Transfer, r: Receiver, input: ToReceiver)
    requires r.status != Finished
    ensures var next := ReceiveStep(t, r, input);
            next.status == Running ==>
              && next.expected == (if Accepts(r, input) then NextBlock(r.expected) else r.expected)
              && next.started == (r.started || Accepts(r, input))
    ensures ReceiveStep(t, r, input).status == Finished ==> Accepts(r, input)
  {
    hide NextBlock;
  }

  lemma NextCounts(before: nat)
    ensures NextBlock((before + 1) % 0x1_0000) == (before + 2) % 0x1_0000
  {
  }

  lemma {:induction false} ExpectedCounts(t: Transfer, r: Receiver, inputs: seq<ToReceiver>, before: nat)
    requires r.expected == (before + 1) % 0x1_0000 && (r.started <==> before > 0) && r.status != Finished
    ensures var r' := ReceiveRun(t, r, inputs);
            r'.status == Running ==>
              && r'.expected == (before + Taken(t, r, inputs) + 1) % 0x1_0000
              && (r'.started <==> before + Taken(t, r, inputs) > 0)
    decreases |inputs|
  {
    hide ReceiveStep, Accepts, NextBlock;
    if inputs != [] {
      var next := ReceiveStep(t, r, inputs[0]);
      StepCounts(t, r, inputs[0]);
      NextCounts(before);
      if next.status != Running {
        StoppedReceiver(t, next, inputs[1..]);
      } else {
        ExpectedCounts(t, next, inputs[1..], before + if Accepts(r, inputs[0]) then 1 else 0);
      }
    }
  }

  /** A timeout kills a running receiver exactly if it has taken 65535 blocks, or 65536 more, and so on. */
  lemma TimeoutRaisesIff(t: Transfer, inputs: seq<ToReceiver>)
    requires ReceiveRun(t, FIRST_RECEIVE, inputs).status == Running
    ensures ReceiveStep(t, ReceiveRun(t, FIRST_RECEIVE, inputs), NoData).status == Crashed <==>
            Taken(t, FIRST_RECEIVE, inputs) % 0x1_0000 == 0xFFFF
  {
    hide Taken, ReceiveRun;
    ExpectedCounts(t, FIRST_RECEIVE, inputs, 0);
    var taken := Taken(t, FIRST_RECEIVE, inputs);
    assert taken == taken / 0x1_0000 * 0x1_0000 + taken % 0x1_0000;
  }

  // ---- a transfer that gets there ----

  lemma {:induction false} RunConcat(t: Transfer, y: System, a: seq<Step>, b: seq<Step>)
    requires LegalRun(t, y, a) && LegalRun(t, Run(t, y, a), b)
    ensures LegalRun(t, y, a + b) && Run(t, y, a + b) == Run(t, Run(t, y, a), b)
    decreases |a|
  {
    hide Apply, Enabled;
    if a == [] {
      assert a + b == b;
    } else {
      assert (a + b)[0] == a[0] && (a + b)[1..] == a[1..] + b;
      RunConcat(t, Apply(t, y, a[0]), a[1..], b);
    }
  }

  lemma OneStep(t: Transfer, y: System, step: Step)
    requires Enabled(y, step)
    ensures LegalRun(t, y, [step]) && Run(t, y, [step]) == Apply(t, y, step)
  {
    hide Apply, Enabled;
    assert [step][1..] == [];
  }

  lemma ExchangeIsRun(t: Transfer, y: System)
    requires Inv(t, y) && Level(t, y) && Quiet(t, y)
    ensures LegalRun(t, y, [ReceiverHears, SenderHears]) && Run(t, y, [ReceiverHears, SenderHears]) == Exchange(t, y)
  {
    hide Inv, Level, Apply, LegalRun, Run;
    ExchangeIs(t, y);
    OneStep(t, y, ReceiverHears);
    OneStep(t, Apply(t, y, ReceiverHears), SenderHears);
    assert [ReceiverHears, SenderHears] == [ReceiverHears] + [SenderHears];
    RunConcat(t, y, [ReceiverHears], [SenderHears]);
  }

  /** `n` full blocks and their acknowledgements go through. */
  lemma {:induction false} FullBlocksRun(t: Transfer, y: System, n: nat) returns (steps: seq<Step>)
    requires Inv(t, y) && Level(t, y) && Quiet(t, y) && n * t.blockSize <= |t.data| - y.sender.pos
    ensures LegalRun(t, y, steps)
    ensures var y' := Run(t, y, steps);
            && Level(t, y') && Quiet(t, y') && y'.sender.blockNo == (y.sender.blockNo + n) % 0x1_0000
            && (n > 0 ==> y'.receiver.started)
    decreases n
  {
    hide Inv, Level, Exchange, Chunk, LegalRun, Run;
    if n == 0 {
      NoSteps(t, y);
      steps := [];
    } else {
      PosWithin(t, y);
      Distribute(n, t.blockSize);
      assert (n - 1) * t.blockSize >= 0;
      FullChunk(t, y.sender.pos);
      ExchangeIs(t, y);
      ExchangeIsRun(t, y);
      var next := Exchange(t, y);
      var rest := FullBlocksRun(t, next, n - 1);
      RunConcat(t, y, [ReceiverHears, SenderHears], rest);
      StartedStays(t, next, rest);
      steps := [ReceiverHears, SenderHears] + rest;
    }
  }

  lemma NoSteps(t: Transfer, y: System)
    ensures LegalRun(t, y, []) && Run(t, y, []) == y
  {
  }

  lemma FullChunk(t: Transfer, pos: nat)
    requires pos + t.blockSize <= |t.data|
    ensures |Chunk(t, pos)| == t.blockSize
  {
  }

  lemma {:induction false} StartedStays(t: Transfer, y: System, steps: seq<Step>)
    requires y.receiver.started && LegalRun(t, y, steps)
    ensures Run(t, y, steps).receiver.started
    decreases |steps|
  {
    hide SendStep, SendOutput, ReceiveOutput;
    if steps != [] {
      StartedStays(t, Apply(t, y, steps[0]), steps[1..]);
    }
  }

  /** The exception comes in every transfer of 65535 full blocks or more, if the next block is late once. */
  lemma ExceptionIsReached(t: Transfer) returns (steps: seq<Step>)
    requires t.blockSize > 0 && |t.data| >= 0xFFFF * t.blockSize
    ensures LegalRun(t, Start(t), steps) && Run(t, Start(t), steps).receiver.status == Crashed
  {
    hide LegalRun, Run, Chunk;
    var first, last := LoseAck(0), ReceiverTimesOut;
    var y := Apply(t, Start(t), first);
    StartIsOk(t);
    ChannelKeeps(t, Start(t), first);
    OneStep(t, Start(t), first);
    var blocks := FullBlocksRun(t, y, 0xFFFF);
    OneStep(t, Run(t, y, blocks), last);
    RunConcat(t, y, blocks, [last]);
    RunConcat(t, Start(t), [first], blocks + [last]);
    steps := [first] + (blocks + [last]);
  }
}
