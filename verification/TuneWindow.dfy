/**
 The receive-edge rule the test kit checks DLTUNE against: the advertised right edge grows by at
 most two segments with every advancing ACK, computed modulo 2^32.
 */
module TuneWindow {
  import opened Bytes
  import opened SeqSpace

  const FIRST_WINDOW := 4380
  const EDGE_STEP := 2920
  const HALF := 0x8000_0000

  /** A sent segment with ACK set and SYN clear. */
  datatype Sent = Sent(ack: Dword, window: Word)

  datatype Edge = Edge(edge: Dword, previousAck: Dword)

  /** What the rule makes of one acknowledgement. */
  function Advance(e: Edge, ack: Dword, wmax: nat): Edge {
    var advance := Wrap(ack - e.previousAck);
    if 0 < advance < HALF then
      var stepFromEdge := Wrap(Wrap(e.edge + EDGE_STEP) - e.edge);
      var limitFromEdge := Wrap(Wrap(ack + wmax) - e.edge);
      Edge(if limitFromEdge < HALF then Wrap(e.edge + Min(stepFromEdge, limitFromEdge)) else e.edge, ack)
    else e
  }

  function First(ack: Dword): Edge {
    Edge(Wrap(ack + FIRST_WINDOW), ack)
  }

  /** The edge after the first `k` acknowledgements. */
  function After(acks: seq<Sent>, wmax: nat, k: nat): Edge
    requires k <= |acks| && |acks| > 0
  {
    if k == 0 then First(acks[0].ack) else Advance(After(acks, wmax, k - 1), acks[k - 1].ack, wmax)
  }

  predicate Right(acks: seq<Sent>, wmax: nat, k: nat)
    requires k < |acks|
  {
    acks[k].window == Wrap(After(acks, wmax, k + 1).edge - acks[k].ack) && acks[k].window <= wmax
  }

  /** Checks every advertised window; false is a failed assertion. */
  method CheckTuneWindows(acks: seq<Sent>, wmax: nat) returns (ok: bool)
    ensures ok <==> |acks| > 4 && forall k :: 0 <= k < |acks| ==> Right(acks, wmax, k)
  {
    hide Wrap;
    if |acks| <= 4 {
      return false;
    }
    var previousAck := acks[0].ack;
    var edge := Wrap(previousAck as int + FIRST_WINDOW);
    for i := 0 to |acks|
      invariant Edge(edge, previousAck) == After(acks, wmax, i)
      invariant forall k :: 0 <= k < i ==> Right(acks, wmax, k)
    {
      var ack := acks[i].ack;
      var advance := Wrap(ack as int - previousAck);
      if advance > 0 && advance < HALF {
        var stepEdge := Wrap(edge as int + EDGE_STEP);
        var limitEdge := Wrap(ack as int + wmax);
        var stepFromEdge := Wrap(stepEdge as int - edge);
        var limitFromEdge := Wrap(limitEdge as int - edge);
        if limitFromEdge < HALF {
          edge := Wrap(edge as int + Min(stepFromEdge, limitFromEdge));
        }
        previousAck := ack;
      }
      assert Edge(edge, previousAck) == After(acks, wmax, i + 1);
      if acks[i].window != Wrap(edge as int - ack) || acks[i].window > wmax {
        assert !Right(acks, wmax, i);
        return false;
      }
    }
    return true;
  }

  // ---- unbounded arithmetic ----

  datatype Exact = Exact(edge: int, previousAck: int)

  /** The rule without wrap-around. */
  function Grow(x: Exact, ack: int, wmax: nat): Exact {
    if ack > x.previousAck then Exact(Max(x.edge, Min(x.edge + EDGE_STEP, ack + wmax)), ack) else x
  }

  function Grown(acks: seq<int>, wmax: nat, k: nat): Exact
    requires k <= |acks| && |acks| > 0
  {
    if k == 0 then Exact(acks[0] + FIRST_WINDOW, acks[0]) else Grow(Grown(acks, wmax, k - 1), acks[k - 1], wmax)
  }

  /** An acknowledgement at or left of the edge, and less than half the space old. */
  ghost predicate Plausible(x: Exact, ack: int) {
    ack <= x.edge && x.previousAck - ack <= HALF
  }

  /** The first `n` acknowledgements are. */
  ghost predicate AllPlausible(acks: seq<int>, wmax: nat, n: nat)
    requires n <= |acks| && |acks| > 0
    decreases n
  {
    n == 0 || (Plausible(Grown(acks, wmax, n - 1), acks[n - 1]) && AllPlausible(acks, wmax, n - 1))
  }

  ghost predicate Ordered(x: Exact, wmax: nat) {
    x.previousAck <= x.edge <= x.previousAck + Max(FIRST_WINDOW, wmax)
  }

  function Wrapped(x: Exact): Edge {
    Edge(Wrap(x.edge), Wrap(x.previousAck))
  }

  lemma DifferenceWraps(x: int, y: int)
    ensures Wrap(Wrap(x) - Wrap(y)) == Wrap(x - y)
  {
    WrapStep(x, 0 - Wrap(y));
    WrapStep(y, 0 - x);
    var p := y / TWO32;
    assert y == p * TWO32 + Wrap(y);
    WrapTurns(x - y, p);
    assert x - y + p * TWO32 == x - Wrap(y);
  }

  lemma SmallWraps(d: int)
    ensures 0 <= d < TWO32 ==> Wrap(d) == d
    ensures -TWO32 <= d < 0 ==> Wrap(d) == d + TWO32
  {
  }

  /** The comparisons modulo 2^32 are those of unbounded arithmetic, wherever the numbers wrap. */
  lemma AdvanceIsGrow(x: Exact, ack: int, wmax: nat)
    requires Ordered(x, wmax) && Plausible(x, ack) && wmax < HALF
    ensures Advance(Wrapped(x), Wrap(ack), wmax) == Wrapped(Grow(x, ack, wmax))
    ensures Ordered(Grow(x, ack, wmax), wmax)
  {
    hide Wrap;
    DifferenceWraps(ack, x.previousAck);
    SmallWraps(ack - x.previousAck);
    WrapStep(x.edge, EDGE_STEP);
    DifferenceWraps(x.edge + EDGE_STEP, x.edge);
    SmallWraps(EDGE_STEP);
    WrapStep(ack, wmax);
    DifferenceWraps(ack + wmax, x.edge);
    SmallWraps(ack + wmax - x.edge);
    WrapStep(x.edge, Min(EDGE_STEP, ack + wmax - x.edge));
  }

  ghost predicate Carries(sent: seq<Sent>, acks: seq<int>) {
    |sent| == |acks| && forall k :: 0 <= k < |acks| ==> sent[k].ack == Wrap(acks[k])
  }

  lemma {:induction false} AfterIsGrown(sent: seq<Sent>, acks: seq<int>, wmax: nat, k: nat)
    requires k <= |acks| && |acks| > 0 && Carries(sent, acks)
    requires AllPlausible(acks, wmax, k) && wmax < HALF
    ensures After(sent, wmax, k) == Wrapped(Grown(acks, wmax, k)) && Ordered(Grown(acks, wmax, k), wmax)
    decreases k
  {
    hide Wrap;
    if k == 0 {
      WrapStep(acks[0], FIRST_WINDOW);
    } else {
      AfterIsGrown(sent, acks, wmax, k - 1);
      AdvanceIsGrow(Grown(acks, wmax, k - 1), acks[k - 1], wmax);
    }
  }

  /** The right edge a segment advertises. */
  function Advertised(sent: seq<Sent>, acks: seq<int>, k: nat): int
    requires k < |sent| && k < |acks|
  {
    acks[k] + sent[k].window
  }

  /**
   In every run that passes the check the advertised right edge never retreats, grows by at most
   2920 with an advancing ACK and not at all without, and is never more than the chosen maximum
   beyond the acknowledgement -- all in unbounded arithmetic.
   */
  lemma EdgeNeverRetreats(sent: seq<Sent>, acks: seq<int>, wmax: nat, k: nat)
    requires 0 < k < |acks| && Carries(sent, acks)
    requires AllPlausible(acks, wmax, k + 1) && wmax < HALF
    requires Right(sent, wmax, k - 1) && Right(sent, wmax, k)
    ensures var before, now := Advertised(sent, acks, k - 1), Advertised(sent, acks, k);
            && before <= now <= before + 2920
            && now == (if acks[k] <= Grown(acks, wmax, k).previousAck then before
                       else Max(before, Min(before + 2920, acks[k] + wmax)))
            && now - acks[k] <= wmax
  {
    hide Wrap, Right, After, Grow;
    EdgeIsAdvertised(sent, acks, wmax, k - 1);
    EdgeIsAdvertised(sent, acks, wmax, k);
    StepIs(Grown(acks, wmax, k), acks[k], wmax);
    ShowsWindow(sent, wmax, k);
  }

  /** The first advertised window is three segments of 1460 bytes, so a maximum below that fails the check. */
  lemma FirstWindowIs4380(sent: seq<Sent>, wmax: nat)
    requires sent != [] && Right(sent, wmax, 0)
    ensures sent[0].window == 4380 <= wmax
  {
    assert After(sent, wmax, 1) == Advance(First(sent[0].ack), sent[0].ack, wmax) == First(sent[0].ack);
    WrapStep(sent[0].ack + FIRST_WINDOW, 0 - sent[0].ack);
  }

  /** The acknowledgement the edge is counted from is the greatest so far. */
  lemma {:induction false} PreviousIsGreatest(acks: seq<int>, wmax: nat, k: nat)
    requires k <= |acks| && |acks| > 0
    ensures forall i :: 0 <= i < k ==> acks[i] <= Grown(acks, wmax, k).previousAck
    ensures Grown(acks, wmax, k).previousAck in acks
    decreases k
  {
    if k > 0 {
      PreviousIsGreatest(acks, wmax, k - 1);
    }
  }

  lemma ShowsWindow(sent: seq<Sent>, wmax: nat, k: nat)
    requires k < |sent| && Right(sent, wmax, k)
    ensures sent[k].window <= wmax
  {
  }

  lemma StepIs(x: Exact, ack: int, wmax: nat)
    ensures x.edge <= Grow(x, ack, wmax).edge <= x.edge + 2920
    ensures Grow(x, ack, wmax).edge ==
            if ack > x.previousAck then Max(x.edge, Min(x.edge + 2920, ack + wmax)) else x.edge
  {
  }

  lemma EdgeIsAdvertised(sent: seq<Sent>, acks: seq<int>, wmax: nat, k: nat)
    requires k < |acks| && Carries(sent, acks) && AllPlausible(acks, wmax, k + 1) && wmax < HALF
    requires Right(sent, wmax, k)
    ensures Advertised(sent, acks, k) == Grown(acks, wmax, k + 1).edge
  {
    hide Wrap, After, Grown, Plausible;
    PlausibleAt(acks, wmax, k);
    var x := Grown(acks, wmax, k + 1);
    AfterIsGrown(sent, acks, wmax, k);
    AfterIsGrown(sent, acks, wmax, k + 1);
    DifferenceWraps(x.edge, acks[k]);
    SmallWraps(x.edge - acks[k]);
  }

  lemma PlausibleAt(acks: seq<int>, wmax: nat, k: nat)
    requires k < |acks| && AllPlausible(acks, wmax, k + 1)
    ensures acks[k] <= Grown(acks, wmax, k).edge && Grown(acks, wmax, k).previousAck - acks[k] <= HALF
    ensures Grown(acks, wmax, k + 1) == Grow(Grown(acks, wmax, k), acks[k], wmax) && AllPlausible(acks, wmax, k)
  {
  }

  /** An advancing ACK always opens the window further: by two segments or up to the maximum. */
  lemma AdvancingAckGrows(x: Exact, ack: int, wmax: nat)
    requires x.previousAck <= x.edge <= x.previousAck + wmax && ack > x.previousAck
    ensures Grow(x, ack, wmax).edge == Min(x.edge + EDGE_STEP, ack + wmax) > x.edge
  {
  }

  /** An old acknowledgement is taken for a new one if and only if it is more than half the space old. */
  lemma TakenForNewIff(x: Exact, ack: int, wmax: nat)
    requires -TWO32 < ack - x.previousAck < HALF && ack != x.previousAck
    ensures Advance(Wrapped(x), Wrap(ack), wmax).previousAck == Wrap(ack) <==>
              ack > x.previousAck || x.previousAck - ack > HALF
  {
    hide Wrap;
    DifferenceWraps(ack, x.previousAck);
    SmallWraps(ack - x.previousAck);
    if Wrap(ack) == Wrap(x.previousAck) {
      WrapInjective(0, ack, x.previousAck);
    }
  }
}
