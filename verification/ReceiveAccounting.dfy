/**
 Accounting of received frames and the halt after an overflow, over whole runs of the card.
 Nothing is assumed about the ring registers here.
 */
module ReceiveAccounting {
  import opened Bytes
  import opened PageRing
  import opened NicSpec

  datatype CardOp =
    | Wire(frame: Frame)
    | HostWrite(offset: nat, value: Byte)
    | HostRead

  predicate Legal(n: Nic, op: CardOp)
    requires WellFormed(n)
  {
    match op
    case Wire(_) => true
    case HostWrite(offset, value) => WriteReg(n, offset, value).Done?
    case HostRead => ReadData(n).Done?
  }

  function Apply(n: Nic, op: CardOp): (n': Nic)
    requires WellFormed(n) && Legal(n, op)
    ensures WellFormed(n')
  {
    match op
    case Wire(frame) => Deliver(n, frame, false)
    case HostWrite(offset, value) => WriteReg(n, offset, value).value
    case HostRead => ReadData(n).value.0
  }

  /** A run that never throws. */
  ghost predicate LegalRun(n: Nic, ops: seq<CardOp>)
    requires WellFormed(n)
    decreases |ops|, 0
  {
    ops != [] ==> LegalRun(n, ops[..|ops| - 1]) && Legal(Run(n, ops[..|ops| - 1]), ops[|ops| - 1])
  }

  ghost function Run(n: Nic, ops: seq<CardOp>): (n': Nic)
    requires WellFormed(n) && LegalRun(n, ops)
    ensures WellFormed(n')
    decreases |ops|, 1
  {
    if ops == [] then n else Apply(Run(n, ops[..|ops| - 1]), ops[|ops| - 1])
  }

  lemma {:induction false} LegalPrefix(n: Nic, ops: seq<CardOp>, i: nat)
    requires WellFormed(n) && LegalRun(n, ops) && i <= |ops|
    ensures LegalRun(n, ops[..i])
    decreases |ops|
  {
    if i < |ops| {
      LegalPrefix(n, ops[..|ops| - 1], i);
      assert ops[..|ops| - 1][..i] == ops[..i];
    } else {
      assert ops[..i] == ops;
    }
  }

  /** The card before step `i` of a run. */
  ghost function Before(n: Nic, ops: seq<CardOp>, i: nat): (n': Nic)
    requires WellFormed(n) && LegalRun(n, ops) && i <= |ops|
    ensures WellFormed(n')
  {
    LegalPrefix(n, ops, i);
    Run(n, ops[..i])
  }

  // ---- every frame is accounted for ----

  /** Does the step call `deliverFrame`, for a frame from the wire or one looped back by TXP? */
  predicate Delivers(n: Nic, op: CardOp) {
    match op
    case Wire(_) => true
    case HostWrite(offset, value) =>
      offset == 0 && Bit(value, 4) && LoopsToRing(n)
    case HostRead => false
  }

  function Accounted(n: Nic): nat {
    n.filteredRx + n.overflowEvents + n.rxDelivered
  }

  lemma DeliverCounts(n: Nic, frame: Frame, loopback: bool)
    requires WellFormed(n)
    ensures Accounted(Deliver(n, frame, loopback)) == Accounted(n) + 1
  {
    hide Filtered, Gap, StoreRun, Header, NextPage;
  }

  lemma StepCounts(n: Nic, op: CardOp)
    requires WellFormed(n) && Legal(n, op)
    ensures Accounted(Apply(n, op)) == Accounted(n) + if Delivers(n, op) then 1 else 0
  {
    hide Deliver, IsrBits, Transmit, Bit, LoopsToRing, StartStop, RemoteDmaCommand;
    match op
    case Wire(frame) => DeliverCounts(n, frame, false);
    case HostWrite(offset, value) =>
      if offset == 0 {
        if Bit(value, 4) {
          TransmitCounts(n, value);
        } else {
          StartStopIs(n, value);
          RemoteDmaCommandIs(StartStop(n.(cr := value), value), value);
        }
      }
    case HostRead =>
  }

  lemma TransmitCounts(n: Nic, value: Byte)
    requires WellFormed(n) && Bit(value, 4) && WriteCr(n, value).Done?
    ensures Accounted(WriteCr(n, value).value) == Accounted(n) + if LoopsToRing(n) then 1 else 0
  {
    hide Deliver, WriteCr, AboutToSend, TransmitFrame, Bit;
    TransmitIs(n, value);
    AboutToSendIs(n, value);
    DeliverCounts(AboutToSend(n, value), TransmitFrame(n), true);
  }

  ghost function Deliveries(n: Nic, ops: seq<CardOp>): nat
    requires WellFormed(n) && LegalRun(n, ops)
    decreases |ops|
  {
    if ops == [] then 0
    else
      var init := ops[..|ops| - 1];
      Deliveries(n, init) + if Delivers(Run(n, init), ops[|ops| - 1]) then 1 else 0
  }

  /** Calls of `deliverFrame` = filtered + overflows + delivered, over every run. */
  lemma {:induction false} RunCounts(n: Nic, ops: seq<CardOp>)
    requires WellFormed(n) && LegalRun(n, ops)
    ensures Accounted(Run(n, ops)) == Accounted(n) + Deliveries(n, ops)
    decreases |ops|
  {
    hide Accounted, Apply, Legal, Delivers;
    if ops != [] {
      var init := ops[..|ops| - 1];
      RunCounts(n, init);
      StepCounts(Run(n, init), ops[|ops| - 1]);
    }
  }

  // ---- the halt after an overflow ----

  /** A CR write that starts the receiver again: STA without STP, on a stopped card. */
  predicate Restarts(n: Nic, op: CardOp) {
    op.HostWrite? && op.offset == 0 && !Bit(op.value, 1) && Bit(op.value, 2) && n.stopped
  }

  predicate Stops(op: CardOp) {
    op.HostWrite? && op.offset == 0 && Bit(op.value, 1)
  }

  predicate Overflows(n: Nic, op: CardOp)
    requires WellFormed(n) && Legal(n, op)
  {
    Apply(n, op).overflowEvents > n.overflowEvents
  }

  lemma DeliverHalts(n: Nic, frame: Frame, loopback: bool)
    requires WellFormed(n)
    ensures var n' := Deliver(n, frame, loopback);
            && n'.rxHalted == (n.rxHalted || n'.overflowEvents > n.overflowEvents)
            && n'.stopped == n.stopped
  {
    hide Filtered, Gap, StoreRun, Header, NextPage;
  }

  lemma TransmitHalts(n: Nic, value: Byte)
    requires WellFormed(n) && Bit(value, 4) && WriteCr(n, value).Done?
    ensures var n' := WriteCr(n, value).value;
            var started := StartStop(n, value);
            && n'.rxHalted == (started.rxHalted || n'.overflowEvents > n.overflowEvents)
            && n'.stopped == started.stopped
  {
    hide Deliver, WriteCr, AboutToSend, TransmitFrame, Bit;
    TransmitIs(n, value);
    AboutToSendIs(n, value);
    DeliverHalts(AboutToSend(n, value), TransmitFrame(n), true);
  }

  lemma StepHalts(n: Nic, op: CardOp)
    requires WellFormed(n) && Legal(n, op)
    ensures Apply(n, op).rxHalted == ((n.rxHalted && !Restarts(n, op)) || Overflows(n, op))
    ensures Apply(n, op).stopped == (Stops(op) || (n.stopped && !Restarts(n, op)))
  {
    hide Deliver, IsrBits, Transmit, Bit;
    match op
    case Wire(frame) => DeliverHalts(n, frame, false);
    case HostWrite(offset, value) =>
      if offset == 0 && Bit(value, 4) {
        TransmitHalts(n, value);
      }
    case HostRead =>
  }

  /** Halted at the start (`i == 0`), or by an overflow in step `i - 1`, and not restarted from `i` on. */
  ghost predicate HaltedSince(n: Nic, ops: seq<CardOp>, i: nat)
    requires WellFormed(n) && LegalRun(n, ops) && i <= |ops|
  {
    && (if i == 0 then n.rxHalted
        else Before(n, ops, i).overflowEvents > Before(n, ops, i - 1).overflowEvents)
    && Unrestarted(n, ops, i)
  }

  ghost predicate RestartAt(n: Nic, ops: seq<CardOp>, j: nat)
    requires WellFormed(n) && LegalRun(n, ops) && j < |ops|
  {
    Restarts(Before(n, ops, j), ops[j])
  }

  ghost predicate Unrestarted(n: Nic, ops: seq<CardOp>, i: nat)
    requires WellFormed(n) && LegalRun(n, ops) && i <= |ops|
  {
    forall j :: i <= j < |ops| ==> !RestartAt(n, ops, j)
  }

  lemma BeforePrefix(n: Nic, ops: seq<CardOp>, i: nat, j: nat)
    requires WellFormed(n) && LegalRun(n, ops) && j <= i <= |ops|
    ensures LegalRun(n, ops[..i]) && Before(n, ops[..i], j) == Before(n, ops, j)
  {
    LegalPrefix(n, ops, i);
    assert ops[..i][..j] == ops[..j];
  }

  /** The last step of a run is a step of the card. */
  lemma BeforeLast(n: Nic, ops: seq<CardOp>, i: nat)
    requires WellFormed(n) && LegalRun(n, ops) && i < |ops|
    ensures Legal(Before(n, ops, i), ops[i]) && Before(n, ops, i + 1) == Apply(Before(n, ops, i), ops[i])
  {
    hide Legal, Apply;
    LegalPrefix(n, ops, i + 1);
    assert ops[..i + 1][..i] == ops[..i];
  }

  lemma UnrestartedPrefix(n: Nic, ops: seq<CardOp>, i: nat)
    requires WellFormed(n) && LegalRun(n, ops) && i < |ops|
    ensures LegalRun(n, ops[..|ops| - 1])
    ensures Unrestarted(n, ops, i) <==> Unrestarted(n, ops[..|ops| - 1], i) && !RestartAt(n, ops, |ops| - 1)
  {
    hide LegalRun, RestartAt;
    var last := |ops| - 1;
    LegalPrefix(n, ops, last);
    forall j | i <= j < last
      ensures RestartAt(n, ops[..last], j) <==> RestartAt(n, ops, j)
    {
      RestartAtPrefix(n, ops, j);
    }
  }

  lemma RestartAtPrefix(n: Nic, ops: seq<CardOp>, j: nat)
    requires WellFormed(n) && LegalRun(n, ops) && j < |ops| - 1
    ensures LegalRun(n, ops[..|ops| - 1]) && (RestartAt(n, ops[..|ops| - 1], j) <==> RestartAt(n, ops, j))
  {
    hide Restarts, LegalRun, Before, Run, WellFormed;
    BeforePrefix(n, ops, |ops| - 1, j);
    assert ops[..|ops| - 1][j] == ops[j];
  }

  lemma HaltedSinceStep(n: Nic, ops: seq<CardOp>, i: nat)
    requires WellFormed(n) && LegalRun(n, ops) && i < |ops|
    ensures LegalRun(n, ops[..|ops| - 1])
    ensures HaltedSince(n, ops, i) <==> HaltedSince(n, ops[..|ops| - 1], i) && !RestartAt(n, ops, |ops| - 1)
  {
    hide Before, Unrestarted, RestartAt, LegalRun, WellFormed;
    UnrestartedPrefix(n, ops, i);
    BeforePrefix(n, ops, |ops| - 1, i);
    BeforePrefix(n, ops, |ops| - 1, Max(i, 1) - 1);
  }

  /** The receiver is halted exactly when something halted it and no restart came after. */
  lemma {:induction false} HaltedIffOverflowed(n: Nic, ops: seq<CardOp>)
    requires WellFormed(n) && LegalRun(n, ops)
    ensures Run(n, ops).rxHalted <==> exists i :: 0 <= i <= |ops| && HaltedSince(n, ops, i)
    decreases |ops|
  {
    hide Legal, Apply, Restarts, HaltedSince, Overflows;
    if ops == [] {
      HaltedSinceStart(n, ops);
    } else {
      var init := ops[..|ops| - 1];
      HaltedIffOverflowed(n, init);
      StepHalts(Run(n, init), ops[|ops| - 1]);
      HaltedSinceEnd(n, ops);
      forall i | 0 <= i < |ops|
        ensures HaltedSince(n, ops, i) <==>
                  HaltedSince(n, init, i) && !Restarts(Run(n, init), ops[|ops| - 1])
      {
        HaltedSinceStep(n, ops, i);
        assert Before(n, ops, |ops| - 1) == Run(n, init);
      }
    }
  }

  lemma HaltedSinceStart(n: Nic, ops: seq<CardOp>)
    requires WellFormed(n) && ops == []
    ensures HaltedSince(n, ops, 0) <==> n.rxHalted
  {
  }

  lemma HaltedSinceEnd(n: Nic, ops: seq<CardOp>)
    requires WellFormed(n) && LegalRun(n, ops) && ops != []
    ensures HaltedSince(n, ops, |ops|) <==> Overflows(Run(n, ops[..|ops| - 1]), ops[|ops| - 1])
  {
    hide Legal, Apply;
    BeforeLast(n, ops, |ops| - 1);
    assert ops[..|ops|] == ops;
  }

  /** Since the halt every frame from the wire is counted as filtered and changes nothing else. */
  lemma HaltRefusesFrames(n: Nic, ops: seq<CardOp>, i: nat, j: nat)
    requires WellFormed(n) && LegalRun(n, ops) && i <= j < |ops| && HaltedSince(n, ops, i) && ops[j].Wire?
    ensures Before(n, ops, j + 1) == Before(n, ops, j).(filteredRx := Before(n, ops, j).filteredRx + 1)
  {
    BeforeLast(n, ops, j);
    HaltPersists(n, ops, i, j);
    hide LegalRun, Run, HaltedSince, Gap, StoreRun, Header, NextPage;
  }

  lemma HaltPersists(n: Nic, ops: seq<CardOp>, i: nat, j: nat)
    requires WellFormed(n) && LegalRun(n, ops) && i <= j <= |ops| && HaltedSince(n, ops, i)
    ensures LegalRun(n, ops[..j]) && Run(n, ops[..j]).rxHalted
  {
    hide Restarts, Before, LegalRun;
    LegalPrefix(n, ops, j);
    forall k | 0 <= k <= j
      ensures Before(n, ops[..j], k) == Before(n, ops, k)
    {
      BeforePrefix(n, ops, j, k);
    }
    assert forall k :: i <= k < j ==> RestartAt(n, ops[..j], k) == RestartAt(n, ops, k);
    assert HaltedSince(n, ops[..j], i);
    HaltedIffOverflowed(n, ops[..j]);
  }

  /** A restart needs an earlier CR write with STP that no restart has used up. */
  lemma {:induction false} RestartNeedsStop(n: Nic, ops: seq<CardOp>)
    requires WellFormed(n) && LegalRun(n, ops) && !n.stopped && Run(n, ops).stopped
    ensures exists k :: 0 <= k < |ops| && Stops(ops[k]) &&
              Unrestarted(n, ops, k + 1)
    decreases |ops|
  {
    hide Legal, Apply, Restarts, Stops, Unrestarted;
    if ops != [] {
      var last := |ops| - 1;
      StepHalts(Run(n, ops[..last]), ops[last]);
      if Stops(ops[last]) {
        UnrestartedAtEnd(n, ops);
      } else {
        RestartNeedsStop(n, ops[..last]);
        var k :| 0 <= k < last && Stops(ops[k]) && Unrestarted(n, ops[..last], k + 1);
        UnrestartedPrefix(n, ops, k + 1);
      }
    }
  }

  lemma UnrestartedAtEnd(n: Nic, ops: seq<CardOp>)
    requires WellFormed(n) && LegalRun(n, ops)
    ensures Unrestarted(n, ops, |ops|)
  {
  }
}
