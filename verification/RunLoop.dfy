/** The harness's run loop over the interpreter object. */
module RunLoop {
  import opened Bytes
  import opened Z80
  import Z80Cpu
  import opened DelayLoop

  class Runner {
    const cpu: Z80Cpu.Cpu
    var logicalMs: nat
    var pumps: nat

    constructor (cpu: Z80Cpu.Cpu)
      ensures this.cpu == cpu && logicalMs == 0 && pumps == 0
    {
      this.cpu := cpu;
      logicalMs, pumps := 0, 0;
    }

    ghost function State(): Harness
      requires cpu.Valid()
      reads this, cpu, cpu.ram
    {
      Harness(cpu.State(), logicalMs, pumps)
    }

    method IsDelayLoopTop() returns (top: bool)
      requires cpu.Valid()
      ensures top == AtLoopTop(cpu.State())
    {
      var pc := cpu.pc;
      top := cpu.ram[pc] == 0x0B && cpu.ram[Word16(pc as int + 1)] == 0x78 && cpu.ram[Word16(pc as int + 2)] == 0xB1 &&
        cpu.ram[Word16(pc as int + 3)] == 0x20 && cpu.ram[Word16(pc as int + 4)] == 0xFB;
    }

    /** One turn; false is where the loop throws or the instruction is not described. */
    method OneTurn(fast: bool, isaOpen: bool) returns (ok: bool)
      requires cpu.Valid()
      modifies this, cpu, cpu.ram
      ensures ok == Turn(old(State()), fast, isaOpen).Some?
      ensures ok ==> Turn(old(State()), fast, isaOpen) == Some(State())
    {
      hide Step, AtLoopTop;
      var top := IsDelayLoopTop();
      if fast && top && Pair(cpu.b, cpu.c) > 1 {
        if isaOpen {
          return false;
        }
        cpu.b, cpu.c := 0, 1;
        logicalMs := logicalMs + 1;
        pumps := pumps + 1;
      }
      ok := cpu.RunInstruction();
    }

    /** Runs up to `limit` turns; false is a throw after some of them. */
    method Run(fast: bool, isaOpen: bool, limit: nat) returns (ok: bool)
      requires cpu.Valid()
      modifies this, cpu, cpu.ram
      ensures ok ==> Turns(old(State()), fast, isaOpen, limit, State())
      ensures !ok ==> exists k: nat, last: Harness ::
                        k < limit && Turns(old(State()), fast, isaOpen, k, last) && Turn(last, fast, isaOpen).None?
    {
      hide Turn, Turns;
      var steps := 0;
      ok := true;
      NoTurns(State(), fast, isaOpen);
      while steps < limit
        invariant steps <= limit && ok
        invariant Turns(old(State()), fast, isaOpen, steps, State())
      {
        ghost var before := State();
        ok := OneTurn(fast, isaOpen);
        if !ok {
          return;
        }
        NextTurn(before, fast, isaOpen, State());
        JoinTurns(old(State()), fast, isaOpen, steps, before, 1, State());
        steps := steps + 1;
      }
    }
  }

  lemma NextTurn(h: Harness, fast: bool, isaOpen: bool, next: Harness)
    requires Turn(h, fast, isaOpen) == Some(next)
    ensures Turns(h, fast, isaOpen, 1, next)
  {
    hide Turn;
    NoTurns(next, fast, isaOpen);
  }
}
