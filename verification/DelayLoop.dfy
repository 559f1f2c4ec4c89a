/**
 The run loop's shortcut for DELAY_1MS: at the top of the loop DEC BC / LD A,B / OR C / JR NZ it
 sets BC to 1, moves its clock on by one millisecond and runs the one pass that is left.
 */
module DelayLoop {
  import opened Bytes
  import opened Z80

  /** `isDelayLoopTop`. */
  predicate AtLoopTop(m: Machine) {
    && Fetch(m, 0) == 0x0B && Fetch(m, 1) == 0x78 && Fetch(m, 2) == 0xB1
    && Fetch(m, 3) == 0x20 && Fetch(m, 4) == 0xFB
  }

  function Bc(m: Machine): Word {
    Pair(m.b, m.c)
  }

  /** The state the shortcut puts in place of a loop about to run. */
  function Collapsed(m: Machine): Machine {
    m.(b := 0, c := 1)
  }

  predicate Collapses(m: Machine) {
    AtLoopTop(m) && Bc(m) > 1
  }

  // ---- one pass ----

  /** One pass counts BC down, leaves `B | C` in A with its flags, and jumps back unless BC is 0. */
  function Pass(m: Machine): Machine {
    var b, c := Hi(Bc(m) - 1), Lo(Bc(m) - 1);
    var a := LogicByte(Or, b, c);
    m.(a := a, b := b, c := c, flags := LogicFlags(a, 0), pc := if b == 0 && c == 0 then Word16(m.pc + 5) else m.pc)
  }

  lemma DecBc(m: Machine)
    requires Fetch(m, 0) == 0x0B
    ensures Step(m) == Some(Skip(m.(b := Hi(Bc(m) - 1), c := Lo(Bc(m) - 1)), 1))
  {
    hide Word16, Hi, Lo, Fetch;
  }

  lemma LoadAFromB(m: Machine)
    requires Fetch(m, 0) == 0x78
    ensures Step(m) == Some(Skip(m.(a := m.b), 1))
  {
    hide Word16, Fetch;
  }

  lemma OrC(m: Machine)
    requires Fetch(m, 0) == 0xB1
    ensures Step(m) == Some(Skip(m.(a := LogicByte(Or, m.a, m.c), flags := LogicFlags(LogicByte(Or, m.a, m.c), 0)), 1))
  {
    hide Word16, Fetch, LogicByte, LogicFlags, SumFlags, DifferenceFlags, XY, Lo, ExecutePlain, ExecuteCb, ExecuteEd;
  }

  lemma JumpBack(m: Machine)
    requires Fetch(m, 0) == 0x20 && Fetch(m, 1) == 0xFB
    ensures Step(m) == Some(Skip(m, if m.flags.Z == 0 then -3 else 2))
  {
    hide Word16, Fetch;
  }

  lemma FlagZ(result: Byte)
    ensures LogicFlags(result, 0).Z == FlagOf(result == 0)
  {
  }

  /** The four instructions of a pass; only the first of them is at a loop top. */
  lemma InsidePass(m: Machine) returns (m1: Machine, m2: Machine, m3: Machine)
    requires AtLoopTop(m)
    ensures Step(m) == Some(m1) && Step(m1) == Some(m2) && Step(m2) == Some(m3) && Step(m3) == Some(Pass(m))
    ensures !AtLoopTop(m1) && !AtLoopTop(m2) && !AtLoopTop(m3)
  {
    hide Step, Reaches, LogicByte, LogicFlags, Hi, Lo, Word16, Pair, AtLoopTop;
    TopBytes(m);
    var b, c := Hi(Bc(m) - 1), Lo(Bc(m) - 1);
    var a := LogicByte(Or, b, c);
    DecBc(m);
    m1 := Skip(m.(b := b, c := c), 1);
    FetchAfter(m, m1, 1, 0);
    LoadAFromB(m1);
    m2 := Skip(m1.(a := b), 1);
    Advance(m.pc, 1, 1);
    FetchAfter(m, m2, 2, 0);
    OrC(m2);
    m3 := Skip(m2.(a := a, flags := LogicFlags(a, 0)), 1);
    Advance(m.pc, 2, 1);
    FetchAfter(m, m3, 3, 0);
    FetchAfter(m, m3, 3, 1);
    JumpBack(m3);
    FlagZ(a);
    OrByteIsZero(b, c);
    Advance(m.pc, 3, -3);
    Advance(m.pc, 3, 2);
    Advance(m.pc, 0, 0);
    NotTop(m1);
    NotTop(m2);
    NotTop(m3);
  }

  lemma TopBytes(m: Machine)
    requires AtLoopTop(m)
    ensures Fetch(m, 0) == 0x0B && Fetch(m, 1) == 0x78 && Fetch(m, 2) == 0xB1
    ensures Fetch(m, 3) == 0x20 && Fetch(m, 4) == 0xFB
  {
  }

  lemma NotTop(m: Machine)
    requires Fetch(m, 0) != 0x0B
    ensures !AtLoopTop(m)
  {
  }

  /** Four instructions make one pass. */
  lemma PassIs(m: Machine)
    requires AtLoopTop(m)
    ensures Reaches(m, 4, Pass(m))
  {
    hide Step, Reaches, AtLoopTop, Pass;
    var m1, m2, m3 := InsidePass(m);
    NoSteps(Pass(m));
    Next(m3, Pass(m), 0, Pass(m));
    Next(m2, m3, 1, Pass(m));
    Next(m1, m2, 2, Pass(m));
    Next(m, m1, 3, Pass(m));
  }

  // ---- all passes ----

  /** Where the loop ends: A, B and C are 0, the flags say so, and the program counter is behind it. */
  function Ended(m: Machine): Machine {
    m.(a := 0, b := 0, c := 0, flags := LogicFlags(0, 0), pc := Word16(m.pc + 5))
  }

  lemma LastPass(m: Machine)
    requires Bc(m) == 1
    ensures Pass(m) == Ended(m)
  {
    hide LogicByte, LogicFlags, Word16;
    OrByteIsZero(0, 0);
  }

  lemma InnerPass(m: Machine)
    requires Bc(m) != 1
    ensures Pass(m).pc == m.pc && Pass(m).mem == m.mem && Ended(Pass(m)) == Ended(m)
    ensures Bc(Pass(m)) == if Bc(m) == 0 then 0xFFFF else Bc(m) - 1
  {
    hide LogicByte, LogicFlags, Word16, Hi, Lo, Pair;
    CountDown(Bc(m));
  }

  lemma CountDown(x: Word)
    ensures Pair(Hi(x - 1), Lo(x - 1)) == if x == 0 then 0xFFFF else x - 1
    ensures Hi(x - 1) == Lo(x - 1) == 0 <==> x == 1
  {
    if x > 0 {
      HiLoOf(x - 1);
    }
  }

  /** All passes of a loop that counts `BC` of them take four instructions each. */
  lemma {:induction false} LoopRuns(m: Machine)
    requires AtLoopTop(m) && Bc(m) >= 1
    ensures Reaches(m, 4 * Bc(m), Ended(m))
    decreases Bc(m)
  {
    hide Reaches, Pass, Ended, Bc;
    PassIs(m);
    if Bc(m) == 1 {
      LastPass(m);
    } else {
      InnerPass(m);
      LoopRuns(Pass(m));
      Join(m, 4, Pass(m), 4 * (Bc(m) - 1), Ended(m));
    }
  }

  /** A loop entered with BC = 0 counts 65536 passes. */
  lemma LoopRunsFromZero(m: Machine)
    requires AtLoopTop(m) && Bc(m) == 0
    ensures Reaches(m, 4 * SIZE, Ended(m))
  {
    hide Reaches, Pass, Ended, Bc;
    PassIs(m);
    InnerPass(m);
    LoopRuns(Pass(m));
    Join(m, 4, Pass(m), 4 * 0xFFFF, Ended(m));
  }

  // ---- the run loop ----

  /** The interpreter, the harness's clock and how often the card's schedule was pumped. */
  datatype Harness = Harness(cpu: Machine, logicalMs: nat, pumps: nat)

  /** One turn of the run loop; None where it throws or the instruction is not described. */
  function Turn(h: Harness, fast: bool, isaOpen: bool): Option<Harness> {
    if fast && Collapses(h.cpu) then
      if isaOpen then None
      else
        match Step(Collapsed(h.cpu))
        case None => None
        case Some(cpu) => Some(Harness(cpu, h.logicalMs + 1, h.pumps + 1))
    else
      match Step(h.cpu)
      case None => None
      case Some(cpu) => Some(h.(cpu := cpu))
  }

  /** `n` turns in a row lead from `h` to `end`. */
  ghost predicate Turns(h: Harness, fast: bool, isaOpen: bool, n: nat, end: Harness)
    decreases n
  {
    if n == 0 then h == end
    else exists next: Harness :: Turn(h, fast, isaOpen) == Some(next) && Turns(next, fast, isaOpen, n - 1, end)
  }

  lemma NoTurns(h: Harness, fast: bool, isaOpen: bool)
    ensures Turns(h, fast, isaOpen, 0, h)
  {
  }

  lemma {:induction false} JoinTurns(h: Harness, fast: bool, isaOpen: bool, n: nat, mid: Harness, k: nat, end: Harness)
    requires Turns(h, fast, isaOpen, n, mid) && Turns(mid, fast, isaOpen, k, end)
    ensures Turns(h, fast, isaOpen, n + k, end)
    decreases n
  {
    hide Turn;
    if n > 0 {
      var next: Harness :| Turn(h, fast, isaOpen) == Some(next) && Turns(next, fast, isaOpen, n - 1, mid);
      JoinTurns(next, fast, isaOpen, n - 1, mid, k, end);
    }
  }

  lemma {:induction false} TurnsOnlyOne(h: Harness, fast: bool, isaOpen: bool, n: nat, x: Harness, y: Harness)
    requires Turns(h, fast, isaOpen, n, x) && Turns(h, fast, isaOpen, n, y)
    ensures x == y
    decreases n
  {
    hide Turn;
    if n > 0 {
      var next: Harness :| Turn(h, fast, isaOpen) == Some(next) && Turns(next, fast, isaOpen, n - 1, x);
      TurnsOnlyOne(next, fast, isaOpen, n - 1, x, y);
    }
  }

  /** A turn away from a loop top is an instruction. */
  lemma TurnTo(h: Harness, m: Machine, n: nat, end: Harness)
    requires !Collapses(h.cpu) && Step(h.cpu) == Some(m) && Turns(h.(cpu := m), true, false, n, end)
    ensures Turns(h, true, false, n + 1, end)
  {
    hide Step, Collapses;
    assert Turn(h, true, false) == Some(h.(cpu := m));
  }

  /** The first turn at a loop top collapses the loop and runs its first instruction. */
  lemma CollapsingTurn(h: Harness, m: Machine, n: nat, end: Harness)
    requires Collapses(h.cpu) && Step(Collapsed(h.cpu)) == Some(m)
    requires Turns(Harness(m, h.logicalMs + 1, h.pumps + 1), true, false, n, end)
    ensures Turns(h, true, false, n + 1, end)
  {
    hide Step, Collapses;
    assert Turn(h, true, false) == Some(Harness(m, h.logicalMs + 1, h.pumps + 1));
  }

  /** Inside a pass the program counter is not at a loop top again, so a pass is not collapsed twice. */
  lemma PassInTurns(h: Harness) returns (m: Machine)
    requires AtLoopTop(h.cpu)
    ensures Step(h.cpu) == Some(m) && Turns(h.(cpu := m), true, false, 3, h.(cpu := Pass(h.cpu)))
  {
    hide Step, Turns, AtLoopTop, Pass, Bc;
    var end := h.(cpu := Pass(h.cpu));
    var m1, m2, m3 := InsidePass(h.cpu);
    NoTurns(end, true, false);
    TurnTo(h.(cpu := m3), Pass(h.cpu), 0, end);
    TurnTo(h.(cpu := m2), m3, 1, end);
    TurnTo(h.(cpu := m1), m2, 2, end);
    m := m1;
  }

  /**
   The shortcut refines the loop: four turns of the run loop leave the registers, flags, program
   counter and memory that all passes leave, and the clock one millisecond later.
   */
  lemma CollapseRefinesLoop(h: Harness)
    requires AtLoopTop(h.cpu) && Bc(h.cpu) >= 2
    ensures Reaches(h.cpu, 4 * Bc(h.cpu), Ended(h.cpu))
    ensures Turns(h, true, false, 4, Harness(Ended(h.cpu), h.logicalMs + 1, h.pumps + 1))
  {
    hide Step, Reaches, Turns, AtLoopTop, Pass, Ended;
    LoopRuns(h.cpu);
    SameTop(h.cpu);
    var m := PassInTurns(Harness(Collapsed(h.cpu), h.logicalMs + 1, h.pumps + 1));
    LastPass(Collapsed(h.cpu));
    SameEnd(h.cpu);
    CollapsingTurn(h, m, 3, Harness(Ended(h.cpu), h.logicalMs + 1, h.pumps + 1));
  }

  /** The shortcut applies exactly at a loop top with two passes or more to go; with the ISA window open that throws. */
  lemma ShortcutAppliesIff(h: Harness)
    ensures Turn(h, true, false).Some? ==>
              (Turn(h, true, false).value.logicalMs == h.logicalMs + 1 <==> AtLoopTop(h.cpu) && Bc(h.cpu) >= 2)
    ensures AtLoopTop(h.cpu) && Bc(h.cpu) >= 2 ==> Turn(h, true, true) == None
    ensures !(AtLoopTop(h.cpu) && Bc(h.cpu) >= 2) ==>
              Turn(h, true, true) == Turn(h, true, false) == Turn(h, false, true)
    ensures Turn(h, false, true) == Turn(h, false, false)
  {
    hide Step, AtLoopTop, Bc;
  }

  lemma Collapsible(m: Machine)
    requires Collapses(m)
    ensures AtLoopTop(m) && Bc(m) >= 2
  {
  }

  lemma SameTop(m: Machine)
    requires Collapses(m)
    ensures AtLoopTop(Collapsed(m)) && Bc(Collapsed(m)) == 1
  {
  }

  lemma SameEnd(m: Machine)
    ensures Ended(Collapsed(m)) == Ended(m)
  {
  }

  // ---- whole runs ----

  /**
   A run of the harness that looks at the machine between instructions, but not inside a collapsed
   pass: the instructions the interpreter runs for it without the shortcut, and the loops collapsed.
   */
  ghost predicate FastRun(h: Harness, n: nat, end: Harness, instructions: nat, collapsed: nat)
    decreases n
  {
    if n == 0 then end == h && instructions == 0 && collapsed == 0
    else if Collapses(h.cpu) then
      && 4 * Bc(h.cpu) <= instructions && collapsed > 0
      && exists next: Harness :: Turns(h, true, false, 4, next) &&
                                 FastRun(next, n - 1, end, instructions - 4 * Bc(h.cpu), collapsed - 1)
    else
      && instructions > 0
      && exists next: Harness :: Turns(h, true, false, 1, next) &&
                                 FastRun(next, n - 1, end, instructions - 1, collapsed)
  }

  lemma OneTurn(h: Harness, next: Harness)
    requires !Collapses(h.cpu) && Turns(h, true, false, 1, next)
    ensures Reaches(h.cpu, 1, next.cpu) && next == h.(cpu := next.cpu)
  {
    hide Step, Collapses;
    var h': Harness :| Turn(h, true, false) == Some(h') && Turns(h', true, false, 0, next);
    NoSteps(next.cpu);
    Next(h.cpu, next.cpu, 0, next.cpu);
  }

  /**
   Every run with the shortcut ends in the machine that plain interpretation reaches, and the clock
   has moved by exactly one millisecond and one pump for each collapsed loop.
   */
  lemma {:induction false} FastRunRefinesInterpreter(
    h: Harness, n: nat, end: Harness, instructions: nat, collapsed: nat)
    requires FastRun(h, n, end, instructions, collapsed)
    ensures Reaches(h.cpu, instructions, end.cpu)
    ensures end.logicalMs == h.logicalMs + collapsed && end.pumps == h.pumps + collapsed
    decreases n
  {
    hide Step, Reaches, Turns, Collapses, Ended, Bc;
    if n == 0 {
      NoSteps(h.cpu);
    } else if Collapses(h.cpu) {
      var loop := 4 * Bc(h.cpu);
      var next: Harness :|
        Turns(h, true, false, 4, next) && FastRun(next, n - 1, end, instructions - loop, collapsed - 1);
      Collapsible(h.cpu);
      CollapseRefinesLoop(h);
      TurnsOnlyOne(h, true, false, 4, next, Harness(Ended(h.cpu), h.logicalMs + 1, h.pumps + 1));
      FastRunRefinesInterpreter(next, n - 1, end, instructions - loop, collapsed - 1);
      Join(h.cpu, loop, next.cpu, instructions - loop, end.cpu);
    } else {
      var next: Harness :| Turns(h, true, false, 1, next) && FastRun(next, n - 1, end, instructions - 1, collapsed);
      OneTurn(h, next);
      FastRunRefinesInterpreter(next, n - 1, end, instructions - 1, collapsed);
      Join(h.cpu, 1, next.cpu, instructions - 1, end.cpu);
    }
  }

  /** The first `n` of a number of turns, and the others. */
  lemma {:induction false} SplitTurns(h: Harness, n: nat, k: nat, end: Harness) returns (mid: Harness)
    requires Turns(h, true, false, n + k, end)
    ensures Turns(h, true, false, n, mid) && Turns(mid, true, false, k, end)
    decreases n
  {
    hide Turn;
    if n == 0 {
      mid := h;
      NoTurns(h, true, false);
    } else {
      var next: Harness :| Turn(h, true, false) == Some(next) && Turns(next, true, false, n + k - 1, end);
      mid := SplitTurns(next, n - 1, k, end);
    }
  }

  lemma NoFastRun(h: Harness)
    ensures FastRun(h, 0, h, 0, 0)
  {
  }

  lemma CollapsedRun(h: Harness, done: Harness, n: nat, end: Harness, instructions: nat, collapsed: nat)
    requires Collapses(h.cpu) && Turns(h, true, false, 4, done) && FastRun(done, n, end, instructions, collapsed)
    ensures FastRun(h, n + 1, end, 4 * Bc(h.cpu) + instructions, collapsed + 1)
  {
    hide Collapses, Turns, Bc;
  }

  lemma PlainRun(h: Harness, next: Harness, n: nat, end: Harness, instructions: nat, collapsed: nat)
    requires !Collapses(h.cpu) && Turns(h, true, false, 1, next) && FastRun(next, n, end, instructions, collapsed)
    ensures FastRun(h, n + 1, end, instructions + 1, collapsed)
  {
    hide Collapses, Turns;
  }

  /** Wherever a run of the harness is stopped, at most three more turns end the pass it may be inside. */
  lemma {:induction false} TurnsEndInFastRun(h: Harness, k: nat, stopped: Harness)
    returns (more: nat, end: Harness, n: nat, instructions: nat, collapsed: nat)
    requires Turns(h, true, false, k, stopped)
    ensures more <= 3 && Turns(stopped, true, false, more, end) && FastRun(h, n, end, instructions, collapsed)
    decreases k
  {
    hide Turns, Collapses, Bc, FastRun, Ended;
    if k == 0 {
      NoTurns(h, true, false);
      NoFastRun(h);
      TurnsOnlyOne(h, true, false, 0, stopped, h);
      more, end, n, instructions, collapsed := 0, h, 0, 0, 0;
    } else if Collapses(h.cpu) {
      Collapsible(h.cpu);
      CollapseRefinesLoop(h);
      var done := Harness(Ended(h.cpu), h.logicalMs + 1, h.pumps + 1);
      if k < 4 {
        var mid := SplitTurns(h, k, 4 - k, done);
        TurnsOnlyOne(h, true, false, k, stopped, mid);
        NoFastRun(done);
        CollapsedRun(h, done, 0, done, 0, 0);
        more, end, n, instructions, collapsed := 4 - k, done, 1, 4 * Bc(h.cpu), 1;
      } else {
        var mid := SplitTurns(h, 4, k - 4, stopped);
        TurnsOnlyOne(h, true, false, 4, done, mid);
        more, end, n, instructions, collapsed := TurnsEndInFastRun(done, k - 4, stopped);
        CollapsedRun(h, done, n, end, instructions, collapsed);
        n, instructions, collapsed := n + 1, 4 * Bc(h.cpu) + instructions, collapsed + 1;
      }
    } else {
      var next := SplitTurns(h, 1, k - 1, stopped);
      more, end, n, instructions, collapsed := TurnsEndInFastRun(next, k - 1, stopped);
      PlainRun(h, next, n, end, instructions, collapsed);
      n, instructions := n + 1, instructions + 1;
    }
  }

  /**
   Every run of the harness, wherever it is stopped, is at most three turns before a machine that plain
   interpretation reaches, and by then the clock has moved by one millisecond for each collapsed loop.
   */
  lemma EveryRunRefinesInterpreter(h: Harness, k: nat, stopped: Harness)
    returns (more: nat, end: Harness, instructions: nat, collapsed: nat)
    requires Turns(h, true, false, k, stopped)
    ensures more <= 3 && Turns(stopped, true, false, more, end) && Reaches(h.cpu, instructions, end.cpu)
    ensures end.logicalMs == h.logicalMs + collapsed && end.pumps == h.pumps + collapsed
  {
    hide Turns, FastRun, Reaches;
    var n: nat;
    more, end, n, instructions, collapsed := TurnsEndInFastRun(h, k, stopped);
    FastRunRefinesInterpreter(h, n, end, instructions, collapsed);
  }

  lemma NoCount(m: Machine)
    requires m.b == 0 && m.c == 0
    ensures Bc(m) == 0
  {
  }

  /** Entered with BC = 0 the loop is collapsed after its first pass, which leaves 65535 to go. */
  lemma ZeroCollapsesAfterOnePass(h: Harness)
    requires AtLoopTop(h.cpu) && h.cpu.b == 0 && h.cpu.c == 0
    ensures Turns(h, true, false, 8, Harness(Ended(h.cpu), h.logicalMs + 1, h.pumps + 1))
    ensures Reaches(h.cpu, 4 * SIZE, Ended(h.cpu))
  {
    hide Step, Reaches, Turns, Pass, Ended, Bc;
    NoCount(h.cpu);
    LoopRunsFromZero(h.cpu);
    var m := PassInTurns(h);
    var mid := h.(cpu := Pass(h.cpu));
    TurnTo(h, m, 3, mid);
    InnerPass(h.cpu);
    CollapseRefinesLoop(mid);
    JoinTurns(h, true, false, 4, mid, 4, Harness(Ended(h.cpu), h.logicalMs + 1, h.pumps + 1));
  }
}
