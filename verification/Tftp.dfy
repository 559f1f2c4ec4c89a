/** The two ends of a stop-and-wait file transfer with 16-bit block numbers (RFC 1350). */
module Tftp {
  import opened Bytes

  /** The bytes of a file and the negotiated block size. */
  datatype Transfer = Transfer(data: seq<Byte>, blockSize: nat)

  datatype Packet = Packet(block: Word, body: seq<Byte>)

  /** Crashed is the exception of packing a negative block number. */
  datatype Status = Running | Finished | GaveUp | Crashed

  const SEND_RETRIES := 3
  const RECEIVE_RETRIES := 5

  function NextBlock(block: Word): Word {
    (block + 1) % 0x1_0000
  }

  function PreviousBlock(block: Word): Word {
    (block - 1) % 0x1_0000
  }

  // ---- serve_file ----

  datatype Sender = Sender(blockNo: Word, pos: nat, retry: nat, status: Status)

  const FIRST_SEND := Sender(1, 0, 0, Running)

  /** What the sender's receive call may bring; a stray is a packet of another address, length or kind. */
  datatype ToSender = AckOf(block: Word) | NoAck | StrayAck

  function Chunk(t: Transfer, pos: nat): (c: seq<Byte>)
    ensures |c| <= t.blockSize
  {
    t.data[Min(pos, |t.data|)..Min(pos + t.blockSize, |t.data|)]
  }

  function Current(t: Transfer, s: Sender): Packet {
    Packet(s.blockNo, Chunk(t, s.pos))
  }

  function SendStep(t: Transfer, s: Sender, input: ToSender): Sender {
    if s.status != Running then s
    else if input == AckOf(s.blockNo) then
      if |Chunk(t, s.pos)| < t.blockSize then s.(status := Finished)
      else Sender(NextBlock(s.blockNo), s.pos + t.blockSize, 0, Running)
    else if s.retry + 1 == SEND_RETRIES then s.(retry := SEND_RETRIES, status := GaveUp)
    else s.(retry := s.retry + 1)
  }

  /** What the step puts on the wire: the next block, or the same one again. */
  function SendOutput(t: Transfer, s: Sender, input: ToSender): seq<Packet> {
    var s' := SendStep(t, s, input);
    if s.status == Running && s'.status == Running then [Current(t, s')] else []
  }

  function SendRun(t: Transfer, s: Sender, inputs: seq<ToSender>): Sender
    decreases |inputs|
  {
    if inputs == [] then s else SendRun(t, SendStep(t, s, inputs[0]), inputs[1..])
  }

  function SendOutputs(t: Transfer, s: Sender, inputs: seq<ToSender>): seq<Packet>
    decreases |inputs|
  {
    if inputs == [] then []
    else SendOutput(t, s, inputs[0]) + SendOutputs(t, SendStep(t, s, inputs[0]), inputs[1..])
  }

  lemma {:induction false} StoppedSender(t: Transfer, s: Sender, inputs: seq<ToSender>)
    requires s.status != Running
    ensures SendRun(t, s, inputs) == s && SendOutputs(t, s, inputs) == []
    decreases |inputs|
  {
    if inputs != [] {
      StoppedSender(t, s, inputs[1..]);
    }
  }

  /** Where the sender stands inside the retry loop of one block. */
  ghost function InLoop(t: Transfer, blockNo: Word, pos: nat, retry: nat, acked: bool): Sender {
    if acked then SendStep(t, Sender(blockNo, pos, retry, Running), AckOf(blockNo))
    else Sender(blockNo, pos, retry, if retry == SEND_RETRIES then GaveUp else Running)
  }

  ghost predicate Serving(t: Transfer, s: Sender, inputs: seq<ToSender>, sent: seq<Packet>, all: seq<ToSender>) {
    && SendRun(t, s, inputs) == SendRun(t, FIRST_SEND, all)
    && sent + (if s.status == Running then [Current(t, s)] else []) + SendOutputs(t, s, inputs) ==
       [Current(t, FIRST_SEND)] + SendOutputs(t, FIRST_SEND, all)
  }

  lemma ServingStep(t: Transfer, s: Sender, inputs: seq<ToSender>, sent: seq<Packet>, all: seq<ToSender>)
    requires Serving(t, s, inputs, sent, all) && s.status == Running && inputs != []
    ensures Serving(t, SendStep(t, s, inputs[0]), inputs[1..], sent + [Current(t, s)], all)
  {
    hide SendStep, Current;
  }

  /** Sends the file, one block a cycle; the run stops early where the inputs end. */
  method ServeFile(t: Transfer, inputs: seq<ToSender>) returns (sent: seq<Packet>, end: Sender)
    requires t.blockSize > 0
    ensures end == SendRun(t, FIRST_SEND, inputs)
    ensures sent == [Current(t, FIRST_SEND)] + SendOutputs(t, FIRST_SEND, inputs)
  {
    hide Chunk, Serving, SendRun, SendOutputs;
    var blockNo: Word := 1;
    var pos: nat := 0;
    sent := [];
    var i: nat := 0;
    ServingStarts(t, inputs);
    while true
      invariant i <= |inputs|
      invariant Serving(t, Sender(blockNo, pos, 0, Running), inputs[i..], sent, inputs)
      decreases |inputs| - i
    {
      var chunk := Chunk(t, pos);
      var packet := Packet(blockNo, chunk);
      var retry, acked := 0, false;
      ghost var begun := i;
      while retry < SEND_RETRIES && !acked
        invariant begun <= i <= |inputs| && retry <= SEND_RETRIES && (acked ==> begun < i)
        invariant Serving(t, InLoop(t, blockNo, pos, retry, acked), inputs[i..], sent, inputs)
        decreases |inputs| - i
      {
        ghost var s := Sender(blockNo, pos, retry, Running);
        if i == |inputs| {
          sent := sent + [packet];
          end := Sender(blockNo, pos, retry, Running);
          ServingEnds(t, s, sent, inputs);
          return;
        }
        ServingStep(t, s, inputs[i..], sent, inputs);
        sent := sent + [packet];
        if inputs[i] == AckOf(blockNo) {
          acked := true;
        } else {
          retry := retry + 1;
        }
        i := i + 1;
      }
      if !acked {
        end := Sender(blockNo, pos, retry, GaveUp);
        ServingStops(t, end, inputs[i..], sent, inputs);
        return;
      }
      if |chunk| < t.blockSize {
        end := Sender(blockNo, pos, retry, Finished);
        ServingStops(t, end, inputs[i..], sent, inputs);
        return;
      }
      pos := pos + t.blockSize;
      blockNo := NextBlock(blockNo);
    }
  }

  lemma ServingStarts(t: Transfer, all: seq<ToSender>)
    ensures Serving(t, FIRST_SEND, all, [], all) && all[0..] == all
  {
  }

  lemma ServingEnds(t: Transfer, s: Sender, sent: seq<Packet>, all: seq<ToSender>)
    requires s.status == Running && |sent| > 0 && sent[|sent| - 1] == Current(t, s)
    requires Serving(t, s, [], sent[..|sent| - 1], all)
    ensures s == SendRun(t, FIRST_SEND, all)
    ensures sent == [Current(t, FIRST_SEND)] + SendOutputs(t, FIRST_SEND, all)
  {
  }

  lemma ServingStops(t: Transfer, s: Sender, rest: seq<ToSender>, sent: seq<Packet>, all: seq<ToSender>)
    requires s.status != Running && Serving(t, s, rest, sent, all)
    ensures s == SendRun(t, FIRST_SEND, all)
    ensures sent == [Current(t, FIRST_SEND)] + SendOutputs(t, FIRST_SEND, all)
  {
    StoppedSender(t, s, rest);
  }

  // ---- receive_file ----

  /** `started` is set once the first block was taken. */
  datatype Receiver = Receiver(started: bool, expected: Word, retry: nat, file: seq<Byte>, status: Status)

  const FIRST_RECEIVE := Receiver(false, 1, 0, [], Running)

  datatype ToReceiver = DataOf(packet: Packet) | NoData | StrayData

  predicate Accepts(r: Receiver, input: ToReceiver) {
    r.status == Running && input.DataOf? && input.packet.block == r.expected
  }

  /** The state after one more attempt for the same block. */
  function Retried(r: Receiver): Receiver {
    if r.retry + 1 == RECEIVE_RETRIES then r.(retry := RECEIVE_RETRIES, status := GaveUp)
    else r.(retry := r.retry + 1)
  }

  function Accepted(t: Transfer, r: Receiver, body: seq<Byte>): Receiver {
    if |body| < t.blockSize then r.(file := r.file + body, status := Finished)
    else Receiver(true, NextBlock(r.expected), 0, r.file + body, Running)
  }

  /** A timeout re-acknowledges the block before; packing the number before 0 raises an exception. */
  predicate Raises(r: Receiver, input: ToReceiver) {
    r.status == Running && r.started && input.NoData? && r.expected == 0
  }

  function ReceiveStep(t: Transfer, r: Receiver, input: ToReceiver): Receiver {
    if r.status != Running then r
    else if Accepts(r, input) then Accepted(t, r, input.packet.body)
    else if Raises(r, input) then r.(status := Crashed)
    else Retried(r)
  }

  /** The acknowledgements the step sends. */
  function ReceiveOutput(t: Transfer, r: Receiver, input: ToReceiver): seq<Word> {
    if r.status != Running then []
    else if Accepts(r, input) then [r.expected]
    else if Raises(r, input) then []
    else if !r.started then if r.retry + 1 < RECEIVE_RETRIES then [0] else []
    else if input.NoData? then [r.expected - 1]
    else if input.DataOf? && input.packet.block == PreviousBlock(r.expected) then [input.packet.block]
    else []
  }

  function ReceiveRun(t: Transfer, r: Receiver, inputs: seq<ToReceiver>): Receiver
    decreases |inputs|
  {
    if inputs == [] then r else ReceiveRun(t, ReceiveStep(t, r, inputs[0]), inputs[1..])
  }

  function ReceiveOutputs(t: Transfer, r: Receiver, inputs: seq<ToReceiver>): seq<Word>
    decreases |inputs|
  {
    if inputs == [] then []
    else ReceiveOutput(t, r, inputs[0]) + ReceiveOutputs(t, ReceiveStep(t, r, inputs[0]), inputs[1..])
  }

  ghost predicate Receiving(t: Transfer, r: Receiver, inputs: seq<ToReceiver>, acks: seq<Word>, all: seq<ToReceiver>) {
    && ReceiveRun(t, r, inputs) == ReceiveRun(t, FIRST_RECEIVE, all)
    && acks + ReceiveOutputs(t, r, inputs) == [0] + ReceiveOutputs(t, FIRST_RECEIVE, all)
  }

  lemma ReceivingStarts(t: Transfer, all: seq<ToReceiver>)
    ensures Receiving(t, FIRST_RECEIVE, all, [0], all) && all[0..] == all
  {
  }

  lemma ReceivingStep(t: Transfer, r: Receiver, all: seq<ToReceiver>, i: nat, acks: seq<Word>)
    requires i < |all| && Receiving(t, r, all[i..], acks, all)
    ensures Receiving(t, ReceiveStep(t, r, all[i]), all[i + 1..], acks + ReceiveOutput(t, r, all[i]), all)
  {
    hide ReceiveStep, ReceiveOutput;
    assert all[i..][0] == all[i] && all[i..][1..] == all[i + 1..];
  }

  lemma {:induction false} StoppedReceiver(t: Transfer, r: Receiver, inputs: seq<ToReceiver>)
    requires r.status != Running
    ensures ReceiveRun(t, r, inputs) == r && ReceiveOutputs(t, r, inputs) == []
    decreases |inputs|
  {
    if inputs != [] {
      StoppedReceiver(t, r, inputs[1..]);
    }
  }

  lemma ReceivingStops(t: Transfer, r: Receiver, rest: seq<ToReceiver>, acks: seq<Word>, all: seq<ToReceiver>)
    requires (r.status != Running || rest == []) && Receiving(t, r, rest, acks, all)
    ensures r == ReceiveRun(t, FIRST_RECEIVE, all)
    ensures acks == [0] + ReceiveOutputs(t, FIRST_RECEIVE, all)
  {
    if rest != [] {
      StoppedReceiver(t, r, rest);
    }
  }

  /** Receives the file from the start packet on; the run stops early where the inputs end. */
  method ReceiveFile(t: Transfer, inputs: seq<ToReceiver>) returns (acks: seq<Word>, end: Receiver)
    ensures end == ReceiveRun(t, FIRST_RECEIVE, inputs)
    ensures acks == [0] + ReceiveOutputs(t, FIRST_RECEIVE, inputs)
  {
    hide Receiving, ReceiveRun, ReceiveOutputs;
    var i: nat;
    end, acks, i := StartPhase(t, inputs);
    while end.status == Running && i < |inputs|
      invariant i <= |inputs|
      invariant end.status == Running ==> end.started || i == |inputs|
      invariant Receiving(t, end, inputs[i..], acks, inputs)
    {
      end, acks, i := ReceiveBlock(t, inputs, end, acks, i);
    }
    ReceivingStops(t, end, inputs[i..], acks, inputs);
  }

  /** Offers the start packet up to five times until the first block arrives. */
  method StartPhase(t: Transfer, inputs: seq<ToReceiver>) returns (r: Receiver, acks: seq<Word>, i: nat)
    ensures i <= |inputs| && Receiving(t, r, inputs[i..], acks, inputs)
    ensures r.status == Running ==> r.started || i == |inputs|
  {
    hide Receiving;
    var retry := 0;
    r, acks, i := FIRST_RECEIVE, [0], 0;
    ReceivingStarts(t, inputs);
    while retry < RECEIVE_RETRIES
      invariant i <= |inputs| && retry <= RECEIVE_RETRIES
      invariant r == Receiver(false, 1, retry, [], if retry == RECEIVE_RETRIES then GaveUp else Running)
      invariant Receiving(t, r, inputs[i..], acks, inputs)
    {
      if i == |inputs| {
        return;
      }
      ReceivingStep(t, r, inputs, i, acks);
      ghost var after := acks + ReceiveOutput(t, r, inputs[i]);
      if inputs[i].DataOf? && inputs[i].packet.block == r.expected {
        acks := acks + [r.expected];
        r := Accepted(t, r, inputs[i].packet.body);
        i := i + 1;
        return;
      }
      i := i + 1;
      retry := retry + 1;
      if retry < RECEIVE_RETRIES {
        acks := acks + [0];
      }
      assert acks == after;
      r := Retried(r);
    }
  }

  /** Waits up to five times for the expected block. */
  method ReceiveBlock(t: Transfer, inputs: seq<ToReceiver>, r0: Receiver, acks0: seq<Word>, i0: nat)
    returns (r: Receiver, acks: seq<Word>, i: nat)
    requires r0.status == Running && r0.started && i0 < |inputs| && Receiving(t, r0, inputs[i0..], acks0, inputs)
    ensures i0 < i <= |inputs| && Receiving(t, r, inputs[i..], acks, inputs)
    ensures r.status == Running ==> r.started
  {
    hide Receiving;
    r, acks, i := r0, acks0, i0;
    while r.status == Running && i < |inputs|
      invariant i0 <= i <= |inputs| && r.started && (r.status != Running ==> i0 < i)
      invariant Receiving(t, r, inputs[i..], acks, inputs)
    {
      ReceivingStep(t, r, inputs, i, acks);
      ghost var after := acks + ReceiveOutput(t, r, inputs[i]);
      var input := inputs[i];
      i := i + 1;
      match input {
        case NoData =>
          if r.expected == 0 {
            r := r.(status := Crashed);
            assert acks == after;
            return;
          }
          acks := acks + [r.expected - 1];
        case StrayData =>
        case DataOf(packet) =>
          if packet.block == r.expected {
            acks := acks + [r.expected];
            r := Accepted(t, r, packet.body);
            return;
          }
          if packet.block == PreviousBlock(r.expected) {
            acks := acks + [packet.block];
          }
      }
      assert acks == after;
      r := Retried(r);
    }
  }
}
