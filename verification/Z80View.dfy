/**
 The interpreter as a program that copies text sees it: A, B, C, the pointers DE and HL, zero and
 carry, the stack pointer and memory. One lemma an instruction says where it leads.
 */
module Z80View {
  import opened Bytes
  import opened Z80

  datatype View = View(
    a: Byte, b: Byte, c: Byte, de: Word, hl: Word, z: bool, carry: bool, pc: Word, sp: Word, mem: Memory)

  function Seen(m: Machine): View {
    View(m.a, m.b, m.c, Pair(m.d, m.e), Pair(m.h, m.l), m.flags.Z == 1, m.flags.C == 1, m.pc, m.sp, m.mem)
  }

  /** The machine runs to one that looks like `end`. */
  ghost predicate Comes(m: Machine, end: View) {
    exists n: nat, m': Machine :: Reaches(m, n, m') && Seen(m') == end
  }

  /** Every machine that looks like `v` does. */
  ghost predicate Leads(v: View, end: View) {
    forall m: Machine {:trigger Comes(m, end)} :: Seen(m) == v ==> Comes(m, end)
  }

  lemma Stays(v: View)
    ensures Leads(v, v)
  {
    forall m: Machine | Seen(m) == v
      ensures Comes(m, v)
    {
      NoSteps(m);
    }
  }

  lemma Then(v: View, mid: View, end: View)
    requires Leads(v, mid) && Leads(mid, end)
    ensures Leads(v, end)
  {
    hide Reaches, Seen;
    forall m: Machine | Seen(m) == v
      ensures Comes(m, end)
    {
      assert Comes(m, mid);
      var n: nat, m1: Machine :| Reaches(m, n, m1) && Seen(m1) == mid;
      assert Comes(m1, end);
      var k: nat, m2: Machine :| Reaches(m1, k, m2) && Seen(m2) == end;
      Join(m, n, m1, k, m2);
    }
  }

  /** One instruction takes every machine that looks like `v` to one that looks like `next`. */
  ghost predicate Steps(v: View, next: View) {
    forall m: Machine :: Seen(m) == v ==> Step(m).Some? && Seen(Step(m).value) == next
  }

  lemma ThenStep(v: View, mid: View, next: View)
    requires Leads(v, mid) && Steps(mid, next)
    ensures Leads(v, next)
  {
    hide Steps, Leads;
    StepLeads(mid, next);
    Then(v, mid, next);
  }

  lemma StepLeads(v: View, next: View)
    requires Steps(v, next)
    ensures Leads(v, next)
  {
    hide Reaches, Seen, Step;
    forall m: Machine | Seen(m) == v
      ensures Comes(m, next)
    {
      var m' := Step(m).value;
      NoSteps(m');
      Next(m, m', 0, m');
    }
  }

  // ---- code in memory, away from its end ----

  ghost predicate Lies(mem: Memory, at: nat, bytes: seq<Byte>) {
    at + |bytes| < SIZE && mem[at..at + |bytes|] == bytes
  }

  lemma ByteOf(mem: Memory, at: nat, bytes: seq<Byte>, k: nat)
    requires Lies(mem, at, bytes) && k < |bytes|
    ensures mem[at + k] == bytes[k] && at + k + 1 < SIZE
  {
    assert mem[at..at + |bytes|][k] == bytes[k];
  }

  /** The program counter is at byte `k` of code that lies at `at`. */
  ghost predicate On(v: View, at: nat, code: seq<Byte>, k: nat) {
    v.pc == at + k && Lies(v.mem, at, code)
  }

  lemma Fetched(m: Machine, at: nat, code: seq<Byte>, k: nat, i: nat)
    requires On(Seen(m), at, code, k) && k + i < |code|
    ensures Fetch(m, i) == code[k + i] && Word16(m.pc + (i + 1)) == m.pc + (i + 1) == at + k + i + 1
  {
    hide Word16, Pair, Lies;
    ByteOf(m.mem, at, code, k + i);
    InRange(at + k + i);
    InRange(at + k + i + 1);
  }

  // ---- what the instructions compute ----

  lemma OrSame(x: Byte)
    ensures LogicByte(Or, x, x) == x && LogicFlags(x, 0).C == 0 && (LogicFlags(x, 0).Z == 1 <==> x == 0)
  {
    hide Bitwise, Parity, BitOf;
    assert Pow2(8) == 256;
    SameBits(x, 8);
  }

  lemma XorSame(x: Byte)
    ensures LogicByte(Xor, x, x) == 0 && LogicFlags(0, 0).C == 0 && LogicFlags(0, 0).Z == 1
  {
    hide Bitwise, Parity, BitOf;
    assert Pow2(8) == 256;
    SameBits(x, 8);
  }

  lemma {:induction false} SameBits(x: nat, n: nat)
    requires x < Pow2(n)
    ensures Bitwise(Or, x, x, n) == x && Bitwise(Xor, x, x, n) == 0
    decreases n
  {
    if n > 0 {
      SameBits(x / 2, n - 1);
    }
  }

  lemma CompareIs(m: Machine, operand: Byte)
    ensures var m' := DoCp(m, operand);
            && m' == m.(flags := m'.flags)
            && (m'.flags.Z == 1 <==> m.a == operand) && (m'.flags.C == 1 <==> m.a < operand)
  {
    hide DifferenceFlags;
    DifferenceFlagsMean(m, operand, 0);
    SameResidue(m.a, operand);
  }

  lemma SameResidue(x: Byte, y: Byte)
    ensures (x - y) % 0x100 == 0 <==> x == y
  {
  }

  lemma NoCarry(x: nat)
    requires x < SIZE
    ensures BitOf(x, SIZE) == 0
  {
  }

  lemma CountsDown(x: Byte)
    requires x > 0
    ensures Lo(x - 1) == x - 1
    ensures forall f: Flags :: (DecFlags(f, x).Z == 1 <==> x == 1) && DecFlags(f, x).C == f.C
  {
    hide BitOf;
  }

  /** Memory with a word on the stack. */
  function Pushed(mem: Memory, sp: nat, word: Word): Memory
    requires sp + 1 < SIZE
  {
    mem[sp + 1 := Hi(word)][sp := Lo(word)]
  }

  /** The operand of a call is not overwritten by its return address. */
  lemma Operands(m: Machine, at: nat, code: seq<Byte>, k: nat, word: Word)
    requires On(Seen(m), at, code, k) && k + 3 <= |code|
    requires m.sp >= 2 && (m.sp <= at || at + |code| <= m.sp - 2)
    ensures FetchWord(DoPush(m, word), 1) == Pair(code[k + 2], code[k + 1])
    ensures DoPush(m, word).mem == Pushed(m.mem, m.sp - 2, word) && DoPush(m, word).sp == m.sp - 2
  {
    hide Hi, Lo, Pair, Lies, Word16;
    InRange(m.sp - 1);
    InRange(m.sp - 2);
    Fetched(m, at, code, k, 0);
    Fetched(m, at, code, k, 1);
    Fetched(m, at, code, k, 2);
    var pushed := DoPush(m, word);
    StillFetched(m, pushed, 1);
    StillFetched(m, pushed, 2);
  }

  lemma StillFetched(m: Machine, pushed: Machine, i: nat)
    requires pushed.pc == m.pc && m.sp >= 2 && Word16(m.pc + i) !in {m.sp - 1, m.sp - 2}
    requires forall a: Word :: a != m.sp - 1 && a != m.sp - 2 ==> pushed.mem[a] == m.mem[a]
    ensures Fetch(pushed, i) == Fetch(m, i)
  {
    hide Word16;
  }

  // ---- instructions ----

  /** LD A,(HL). */
  lemma LoadAAtHl(v0: View, v: View, at: nat, code: seq<Byte>, k: nat) returns (v': View)
    requires Leads(v0, v) && On(v, at, code, k) && k + 1 <= |code| && code[k] == 0x7E
    ensures Leads(v0, v') && On(v', at, code, k + 1)
    ensures v' == v.(a := v.mem[v.hl], pc := v.pc + 1)
  {
    hide Leads, Lies, Word16, Fetch, Hi, Lo, XY, BitOf, Alu, ExecutePlain, ExecuteCb, ExecuteEd;
    ByteOf(v.mem, at, code, k);
    v' := v.(a := v.mem[v.hl], pc := v.pc + 1);
    forall m: Machine | Seen(m) == v
      ensures Step(m).Some? && Seen(Step(m).value) == v'
    {
      Fetched(m, at, code, k, 0);
    }
    ThenStep(v0, v, v');
  }

  /** LD A,C. */
  lemma LoadAFromC(v0: View, v: View, at: nat, code: seq<Byte>, k: nat) returns (v': View)
    requires Leads(v0, v) && On(v, at, code, k) && k + 1 <= |code| && code[k] == 0x79
    ensures Leads(v0, v') && On(v', at, code, k + 1)
    ensures v' == v.(a := v.c, pc := v.pc + 1)
  {
    hide Leads, Lies, Word16, Fetch, Hi, Lo, XY, BitOf, Alu, ExecutePlain, ExecuteCb, ExecuteEd;
    ByteOf(v.mem, at, code, k);
    v' := v.(a := v.c, pc := v.pc + 1);
    forall m: Machine | Seen(m) == v
      ensures Step(m).Some? && Seen(Step(m).value) == v'
    {
      Fetched(m, at, code, k, 0);
    }
    ThenStep(v0, v, v');
  }

  /** LD A,(DE). */
  lemma LoadAAtDe(v0: View, v: View, at: nat, code: seq<Byte>, k: nat) returns (v': View)
    requires Leads(v0, v) && On(v, at, code, k) && k + 1 <= |code| && code[k] == 0x1A
    ensures Leads(v0, v') && On(v', at, code, k + 1)
    ensures v' == v.(a := v.mem[v.de], pc := v.pc + 1)
  {
    hide Leads, Lies, Word16, Fetch, Hi, Lo, XY, BitOf, Alu, WithRegister, Operand, ExecuteCb,
         ExecuteEd, ExecuteFlow;
    ByteOf(v.mem, at, code, k);
    v' := v.(a := v.mem[v.de], pc := v.pc + 1);
    forall m: Machine | Seen(m) == v
      ensures Step(m).Some? && Seen(Step(m).value) == v'
    {
      Fetched(m, at, code, k, 0);
    }
    ThenStep(v0, v, v');
  }

  /** OR A: zero exactly for 0. */
  lemma OrA(v0: View, v: View, at: nat, code: seq<Byte>, k: nat) returns (v': View)
    requires Leads(v0, v) && On(v, at, code, k) && k + 1 <= |code| && code[k] == 0xB7
    ensures Leads(v0, v') && On(v', at, code, k + 1)
    ensures v' == v.(z := v.a == 0, carry := false, pc := v.pc + 1)
  {
    hide Leads, Lies, Word16, Fetch, Pair, LogicByte, LogicFlags, DoAdd, DoAdc, DoSub, DoSbc, DoCp,
         WithRegister, ExecutePlain, ExecuteCb, ExecuteEd;
    ByteOf(v.mem, at, code, k);
    v' := v.(z := v.a == 0, carry := false, pc := v.pc + 1);
    forall m: Machine | Seen(m) == v
      ensures Step(m).Some? && Seen(Step(m).value) == v'
    {
      Fetched(m, at, code, k, 0);
      OrSame(m.a);
    }
    ThenStep(v0, v, v');
  }

  /** XOR A. */
  lemma XorA(v0: View, v: View, at: nat, code: seq<Byte>, k: nat) returns (v': View)
    requires Leads(v0, v) && On(v, at, code, k) && k + 1 <= |code| && code[k] == 0xAF
    ensures Leads(v0, v') && On(v', at, code, k + 1)
    ensures v' == v.(a := 0, z := true, carry := false, pc := v.pc + 1)
  {
    hide Leads, Lies, Word16, Fetch, Pair, LogicByte, LogicFlags, DoAdd, DoAdc, DoSub, DoSbc, DoCp,
         WithRegister, ExecutePlain, ExecuteCb, ExecuteEd;
    ByteOf(v.mem, at, code, k);
    v' := v.(a := 0, z := true, carry := false, pc := v.pc + 1);
    forall m: Machine | Seen(m) == v
      ensures Step(m).Some? && Seen(Step(m).value) == v'
    {
      Fetched(m, at, code, k, 0);
      XorSame(m.a);
    }
    ThenStep(v0, v, v');
  }

  /** CP (HL): zero for equal bytes, carry for a lesser A. */
  lemma CompareAtHl(v0: View, v: View, at: nat, code: seq<Byte>, k: nat) returns (v': View)
    requires Leads(v0, v) && On(v, at, code, k) && k + 1 <= |code| && code[k] == 0xBE
    ensures Leads(v0, v') && On(v', at, code, k + 1)
    ensures v' == v.(z := v.a == v.mem[v.hl], carry := v.a < v.mem[v.hl], pc := v.pc + 1)
  {
    hide Leads, Lies, Word16, Fetch, Pair, DifferenceFlags, XY, DoAdd, DoAdc, DoSub, DoSbc, DoLogic;
    ByteOf(v.mem, at, code, k);
    v' := v.(z := v.a == v.mem[v.hl], carry := v.a < v.mem[v.hl], pc := v.pc + 1);
    forall m: Machine | Seen(m) == v
      ensures Step(m).Some? && Seen(Step(m).value) == v'
    {
      Fetched(m, at, code, k, 0);
      CompareIs(m, m.mem[Pair(m.h, m.l)]);
    }
    ThenStep(v0, v, v');
  }

  /** CP n. */
  lemma Compare(v0: View, v: View, at: nat, code: seq<Byte>, k: nat) returns (v': View)
    requires Leads(v0, v) && On(v, at, code, k) && k + 2 <= |code| && code[k] == 0xFE
    ensures Leads(v0, v') && On(v', at, code, k + 2)
    ensures v' == v.(z := v.a == code[k + 1], carry := v.a < code[k + 1], pc := v.pc + 2)
  {
    hide Leads, Lies, Word16, Fetch, DifferenceFlags, XY, Alu, WithRegister, Operand, ExecuteCb,
         ExecuteEd, ExecuteText, ExecuteFlow;
    ByteOf(v.mem, at, code, k + 1);
    v' := v.(z := v.a == code[k + 1], carry := v.a < code[k + 1], pc := v.pc + 2);
    forall m: Machine | Seen(m) == v
      ensures Step(m).Some? && Seen(Step(m).value) == v'
    {
      Fetched(m, at, code, k, 0);
      Fetched(m, at, code, k, 1);
      CompareIs(m, code[k + 1]);
    }
    ThenStep(v0, v, v');
  }

  /** LD BC,nn. */
  lemma LoadBc(v0: View, v: View, at: nat, code: seq<Byte>, k: nat) returns (v': View)
    requires Leads(v0, v) && On(v, at, code, k) && k + 3 <= |code| && code[k] == 0x01
    ensures Leads(v0, v') && On(v', at, code, k + 3)
    ensures v' == v.(b := code[k + 2], c := code[k + 1], pc := v.pc + 3)
  {
    hide Leads, Lies, Word16, Fetch, Hi, Lo, XY, BitOf, Alu, WithRegister, Operand, ExecuteCb,
         ExecuteEd, ExecuteFlow;
    ByteOf(v.mem, at, code, k + 2);
    v' := v.(b := code[k + 2], c := code[k + 1], pc := v.pc + 3);
    forall m: Machine | Seen(m) == v
      ensures Step(m).Some? && Seen(Step(m).value) == v'
    {
      Fetched(m, at, code, k, 0);
      Fetched(m, at, code, k, 1);
      Fetched(m, at, code, k, 2);
    }
    ThenStep(v0, v, v');
  }

  /** LD DE,nn. */
  lemma LoadDe(v0: View, v: View, at: nat, code: seq<Byte>, k: nat) returns (v': View)
    requires Leads(v0, v) && On(v, at, code, k) && k + 3 <= |code| && code[k] == 0x11
    ensures Leads(v0, v') && On(v', at, code, k + 3)
    ensures v' == v.(de := Pair(code[k + 2], code[k + 1]), pc := v.pc + 3)
  {
    hide Leads, Lies, Word16, Fetch, Hi, Lo, XY, BitOf, Alu, WithRegister, Operand, ExecuteCb,
         ExecuteEd, ExecuteText, ExecuteFlow;
    ByteOf(v.mem, at, code, k + 2);
    v' := v.(de := Pair(code[k + 2], code[k + 1]), pc := v.pc + 3);
    forall m: Machine | Seen(m) == v
      ensures Step(m).Some? && Seen(Step(m).value) == v'
    {
      Fetched(m, at, code, k, 0);
      Fetched(m, at, code, k, 1);
      Fetched(m, at, code, k, 2);
    }
    ThenStep(v0, v, v');
  }

  /** LD HL,nn. */
  lemma LoadHl(v0: View, v: View, at: nat, code: seq<Byte>, k: nat) returns (v': View)
    requires Leads(v0, v) && On(v, at, code, k) && k + 3 <= |code| && code[k] == 0x21
    ensures Leads(v0, v') && On(v', at, code, k + 3)
    ensures v' == v.(hl := Pair(code[k + 2], code[k + 1]), pc := v.pc + 3)
  {
    hide Leads, Lies, Word16, Fetch, Hi, Lo, XY, BitOf, Alu, WithRegister, Operand, ExecuteCb,
         ExecuteEd, ExecuteFlow;
    ByteOf(v.mem, at, code, k + 2);
    v' := v.(hl := Pair(code[k + 2], code[k + 1]), pc := v.pc + 3);
    forall m: Machine | Seen(m) == v
      ensures Step(m).Some? && Seen(Step(m).value) == v'
    {
      Fetched(m, at, code, k, 0);
      Fetched(m, at, code, k, 1);
      Fetched(m, at, code, k, 2);
    }
    ThenStep(v0, v, v');
  }

  /** LD C,n. */
  lemma LoadC(v0: View, v: View, at: nat, code: seq<Byte>, k: nat) returns (v': View)
    requires Leads(v0, v) && On(v, at, code, k) && k + 2 <= |code| && code[k] == 0x0E
    ensures Leads(v0, v') && On(v', at, code, k + 2)
    ensures v' == v.(c := code[k + 1], pc := v.pc + 2)
  {
    hide Leads, Lies, Word16, Fetch, Hi, Lo, XY, BitOf, Alu, WithRegister, Operand, ExecuteCb,
         ExecuteEd, ExecuteFlow;
    ByteOf(v.mem, at, code, k + 1);
    v' := v.(c := code[k + 1], pc := v.pc + 2);
    forall m: Machine | Seen(m) == v
      ensures Step(m).Some? && Seen(Step(m).value) == v'
    {
      Fetched(m, at, code, k, 0);
      Fetched(m, at, code, k, 1);
    }
    ThenStep(v0, v, v');
  }

  /** LD A,n. */
  lemma LoadA(v0: View, v: View, at: nat, code: seq<Byte>, k: nat) returns (v': View)
    requires Leads(v0, v) && On(v, at, code, k) && k + 2 <= |code| && code[k] == 0x3E
    ensures Leads(v0, v') && On(v', at, code, k + 2)
    ensures v' == v.(a := code[k + 1], pc := v.pc + 2)
  {
    hide Leads, Lies, Word16, Fetch, Hi, Lo, XY, BitOf, Alu, WithRegister, Operand, ExecuteCb,
         ExecuteEd, ExecuteFlow;
    ByteOf(v.mem, at, code, k + 1);
    v' := v.(a := code[k + 1], pc := v.pc + 2);
    forall m: Machine | Seen(m) == v
      ensures Step(m).Some? && Seen(Step(m).value) == v'
    {
      Fetched(m, at, code, k, 0);
      Fetched(m, at, code, k, 1);
    }
    ThenStep(v0, v, v');
  }

  /** LD A,(nn). */
  lemma LoadAFrom(v0: View, v: View, at: nat, code: seq<Byte>, k: nat) returns (v': View)
    requires Leads(v0, v) && On(v, at, code, k) && k + 3 <= |code| && code[k] == 0x3A
    ensures Leads(v0, v') && On(v', at, code, k + 3)
    ensures v' == v.(a := v.mem[Pair(code[k + 2], code[k + 1])], pc := v.pc + 3)
  {
    hide Leads, Lies, Word16, Fetch, Hi, Lo, XY, BitOf, Alu, WithRegister, Operand, ExecuteCb,
         ExecuteEd, ExecuteText, ExecuteFlow;
    ByteOf(v.mem, at, code, k + 2);
    v' := v.(a := v.mem[Pair(code[k + 2], code[k + 1])], pc := v.pc + 3);
    forall m: Machine | Seen(m) == v
      ensures Step(m).Some? && Seen(Step(m).value) == v'
    {
      Fetched(m, at, code, k, 0);
      Fetched(m, at, code, k, 1);
      Fetched(m, at, code, k, 2);
    }
    ThenStep(v0, v, v');
  }

  /** ADD HL,BC. */
  lemma AddHlBc(v0: View, v: View, at: nat, code: seq<Byte>, k: nat) returns (v': View)
    requires Leads(v0, v) && On(v, at, code, k) && k + 1 <= |code| && code[k] == 0x09
    requires v.hl + Pair(v.b, v.c) < SIZE
    ensures Leads(v0, v') && On(v', at, code, k + 1)
    ensures v' == v.(hl := v.hl + Pair(v.b, v.c), carry := false, pc := v.pc + 1)
  {
    hide Leads, Lies, Word16, Fetch, Hi, Lo, BitOf, Pair, Alu, WithRegister, Operand, ExecuteCb,
         ExecuteEd, ExecuteFlow;
    ByteOf(v.mem, at, code, k);
    v' := v.(hl := v.hl + Pair(v.b, v.c), carry := false, pc := v.pc + 1);
    forall m: Machine | Seen(m) == v
      ensures Step(m).Some? && Seen(Step(m).value) == v'
    {
      Fetched(m, at, code, k, 0);
      HiLo(v.hl + Pair(v.b, v.c));
      InRange(v.hl + Pair(v.b, v.c));
      NoCarry(v.hl + Pair(v.b, v.c));
    }
    ThenStep(v0, v, v');
  }

  /** INC HL. */
  lemma IncHl(v0: View, v: View, at: nat, code: seq<Byte>, k: nat) returns (v': View)
    requires Leads(v0, v) && On(v, at, code, k) && k + 1 <= |code| && code[k] == 0x23
    requires v.hl + 1 < SIZE
    ensures Leads(v0, v') && On(v', at, code, k + 1)
    ensures v' == v.(hl := v.hl + 1, pc := v.pc + 1)
  {
    hide Leads, Lies, Word16, Fetch, Hi, Lo, Pair, Alu, WithRegister, Operand, ExecuteCb, ExecuteEd,
         ExecuteFlow;
    ByteOf(v.mem, at, code, k);
    v' := v.(hl := v.hl + 1, pc := v.pc + 1);
    forall m: Machine | Seen(m) == v
      ensures Step(m).Some? && Seen(Step(m).value) == v'
    {
      Fetched(m, at, code, k, 0);
      HiLo(v.hl + 1);
      InRange(v.hl + 1);
    }
    ThenStep(v0, v, v');
  }

  /** INC DE. */
  lemma IncDe(v0: View, v: View, at: nat, code: seq<Byte>, k: nat) returns (v': View)
    requires Leads(v0, v) && On(v, at, code, k) && k + 1 <= |code| && code[k] == 0x13
    requires v.de + 1 < SIZE
    ensures Leads(v0, v') && On(v', at, code, k + 1)
    ensures v' == v.(de := v.de + 1, pc := v.pc + 1)
  {
    hide Leads, Lies, Word16, Fetch, Hi, Lo, Pair, Alu, WithRegister, Operand, ExecuteCb, ExecuteEd,
         ExecuteFlow;
    ByteOf(v.mem, at, code, k);
    v' := v.(de := v.de + 1, pc := v.pc + 1);
    forall m: Machine | Seen(m) == v
      ensures Step(m).Some? && Seen(Step(m).value) == v'
    {
      Fetched(m, at, code, k, 0);
      HiLo(v.de + 1);
      InRange(v.de + 1);
    }
    ThenStep(v0, v, v');
  }

  /** DEC C. */
  lemma DecC(v0: View, v: View, at: nat, code: seq<Byte>, k: nat) returns (v': View)
    requires Leads(v0, v) && On(v, at, code, k) && k + 1 <= |code| && code[k] == 0x0D
    requires v.c > 0
    ensures Leads(v0, v') && On(v', at, code, k + 1)
    ensures v' == v.(c := v.c - 1, z := v.c == 1, pc := v.pc + 1)
  {
    hide Leads, Lies, Word16, Fetch, Hi, Lo, Pair, DecFlags, Alu, WithRegister, Operand, ExecuteCb,
         ExecuteEd, ExecuteFlow;
    CountsDown(v.c);
    ByteOf(v.mem, at, code, k);
    v' := v.(c := v.c - 1, z := v.c == 1, pc := v.pc + 1);
    forall m: Machine | Seen(m) == v
      ensures Step(m).Some? && Seen(Step(m).value) == v'
    {
      Fetched(m, at, code, k, 0);
    }
    ThenStep(v0, v, v');
  }

  /** SCF. */
  lemma SetCarry(v0: View, v: View, at: nat, code: seq<Byte>, k: nat) returns (v': View)
    requires Leads(v0, v) && On(v, at, code, k) && k + 1 <= |code| && code[k] == 0x37
    ensures Leads(v0, v') && On(v', at, code, k + 1)
    ensures v' == v.(carry := true, pc := v.pc + 1)
  {
    hide Leads, Lies, Word16, Fetch, BitOf, Alu, WithRegister, Operand, ExecuteCb, ExecuteEd, ExecuteFlow;
    ByteOf(v.mem, at, code, k);
    v' := v.(carry := true, pc := v.pc + 1);
    forall m: Machine | Seen(m) == v
      ensures Step(m).Some? && Seen(Step(m).value) == v'
    {
      Fetched(m, at, code, k, 0);
    }
    ThenStep(v0, v, v');
  }

  /** LD (DE),A. */
  lemma StoreAtDe(v0: View, v: View, at: nat, code: seq<Byte>, k: nat) returns (v': View)
    requires Leads(v0, v) && On(v, at, code, k) && k + 1 <= |code| && code[k] == 0x12
    ensures Leads(v0, v')
    ensures v' == v.(mem := v.mem[v.de := v.a], pc := v.pc + 1)
  {
    hide Leads, Lies, Word16, Fetch, Hi, Lo, XY, BitOf, Alu, WithRegister, Operand, ExecuteCb,
         ExecuteEd, ExecuteFlow;
    ByteOf(v.mem, at, code, k);
    v' := v.(mem := v.mem[v.de := v.a], pc := v.pc + 1);
    forall m: Machine | Seen(m) == v
      ensures Step(m).Some? && Seen(Step(m).value) == v'
    {
      Fetched(m, at, code, k, 0);
    }
    ThenStep(v0, v, v');
  }

  /** JR Z over `skip` bytes. */
  lemma JumpZero(v0: View, v: View, at: nat, code: seq<Byte>, k: nat, skip: nat) returns (v': View)
    requires Leads(v0, v) && On(v, at, code, k) && k + 2 <= |code| && code[k] == 0x28
    requires code[k + 1] == skip < 0x80 && at + k + 2 + skip < SIZE
    ensures Leads(v0, v')
    ensures v' == v.(pc := if v.z then v.pc + 2 + skip else v.pc + 2)
    ensures !(v.z) ==> On(v', at, code, k + 2)
  {
    hide Leads, Lies, Word16, Fetch, Hi, Lo, Alu, WithRegister, Operand, ExecuteCb, ExecuteEd,
         ExecuteText, ExecuteFlow;
    ByteOf(v.mem, at, code, k + 1);
    v' := v.(pc := if v.z then v.pc + 2 + skip else v.pc + 2);
    forall m: Machine | Seen(m) == v
      ensures Step(m).Some? && Seen(Step(m).value) == v'
    {
      Fetched(m, at, code, k, 0);
      Fetched(m, at, code, k, 1);
      InRange(m.pc + 2 + skip);
    }
    ThenStep(v0, v, v');
  }

  /** JR NZ over `skip` bytes. */
  lemma JumpNotZero(v0: View, v: View, at: nat, code: seq<Byte>, k: nat, skip: nat) returns (v': View)
    requires Leads(v0, v) && On(v, at, code, k) && k + 2 <= |code| && code[k] == 0x20
    requires code[k + 1] == skip < 0x80 && at + k + 2 + skip < SIZE
    ensures Leads(v0, v')
    ensures v' == v.(pc := if !v.z then v.pc + 2 + skip else v.pc + 2)
    ensures !(!v.z) ==> On(v', at, code, k + 2)
  {
    hide Leads, Lies, Word16, Fetch, Hi, Lo, Alu, WithRegister, Operand, ExecuteCb, ExecuteEd,
         ExecuteText, ExecuteFlow;
    ByteOf(v.mem, at, code, k + 1);
    v' := v.(pc := if !v.z then v.pc + 2 + skip else v.pc + 2);
    forall m: Machine | Seen(m) == v
      ensures Step(m).Some? && Seen(Step(m).value) == v'
    {
      Fetched(m, at, code, k, 0);
      Fetched(m, at, code, k, 1);
      InRange(m.pc + 2 + skip);
    }
    ThenStep(v0, v, v');
  }

  /** JR C over `skip` bytes. */
  lemma JumpCarry(v0: View, v: View, at: nat, code: seq<Byte>, k: nat, skip: nat) returns (v': View)
    requires Leads(v0, v) && On(v, at, code, k) && k + 2 <= |code| && code[k] == 0x38
    requires code[k + 1] == skip < 0x80 && at + k + 2 + skip < SIZE
    ensures Leads(v0, v')
    ensures v' == v.(pc := if v.carry then v.pc + 2 + skip else v.pc + 2)
    ensures !(v.carry) ==> On(v', at, code, k + 2)
  {
    hide Leads, Lies, Word16, Fetch, Hi, Lo, Alu, WithRegister, Operand, ExecuteCb, ExecuteEd,
         ExecuteText, ExecuteFlow;
    ByteOf(v.mem, at, code, k + 1);
    v' := v.(pc := if v.carry then v.pc + 2 + skip else v.pc + 2);
    forall m: Machine | Seen(m) == v
      ensures Step(m).Some? && Seen(Step(m).value) == v'
    {
      Fetched(m, at, code, k, 0);
      Fetched(m, at, code, k, 1);
      InRange(m.pc + 2 + skip);
    }
    ThenStep(v0, v, v');
  }

  /** JR NC over `skip` bytes. */
  lemma JumpNoCarry(v0: View, v: View, at: nat, code: seq<Byte>, k: nat, skip: nat) returns (v': View)
    requires Leads(v0, v) && On(v, at, code, k) && k + 2 <= |code| && code[k] == 0x30
    requires code[k + 1] == skip < 0x80 && at + k + 2 + skip < SIZE
    ensures Leads(v0, v')
    ensures v' == v.(pc := if !v.carry then v.pc + 2 + skip else v.pc + 2)
    ensures !(!v.carry) ==> On(v', at, code, k + 2)
  {
    hide Leads, Lies, Word16, Fetch, Hi, Lo, Alu, WithRegister, Operand, ExecuteCb, ExecuteEd,
         ExecuteText, ExecuteFlow;
    ByteOf(v.mem, at, code, k + 1);
    v' := v.(pc := if !v.carry then v.pc + 2 + skip else v.pc + 2);
    forall m: Machine | Seen(m) == v
      ensures Step(m).Some? && Seen(Step(m).value) == v'
    {
      Fetched(m, at, code, k, 0);
      Fetched(m, at, code, k, 1);
      InRange(m.pc + 2 + skip);
    }
    ThenStep(v0, v, v');
  }

  /** JR by a signed offset to `target`. */
  lemma Jump(v0: View, v: View, at: nat, code: seq<Byte>, k: nat, target: Word) returns (v': View)
    requires Leads(v0, v) && On(v, at, code, k) && k + 2 <= |code| && code[k] == 0x18
    requires target == v.pc + 2 + SignedOffset(code[k + 1])
    ensures Leads(v0, v')
    ensures v' == v.(pc := target)
  {
    hide Leads, Lies, Word16, Fetch, SignedOffset, Alu, WithRegister, Operand, ExecuteCb, ExecuteEd;
    ByteOf(v.mem, at, code, k + 1);
    v' := v.(pc := target);
    forall m: Machine | Seen(m) == v
      ensures Step(m).Some? && Seen(Step(m).value) == v'
    {
      Fetched(m, at, code, k, 0);
      Fetched(m, at, code, k, 1);
      InRange(target);
    }
    ThenStep(v0, v, v');
  }

  /** JP NZ,nn. */
  lemma JumpNotZeroTo(v0: View, v: View, at: nat, code: seq<Byte>, k: nat) returns (v': View)
    requires Leads(v0, v) && On(v, at, code, k) && k + 3 <= |code| && code[k] == 0xC2
    ensures Leads(v0, v')
    ensures v' == v.(pc := if v.z then v.pc + 3 else Pair(code[k + 2], code[k + 1]))
    ensures v.z ==> On(v', at, code, k + 3)
  {
    hide Leads, Lies, Word16, Fetch, Hi, Lo, Pair, Alu, WithRegister, Operand, ExecuteCb, ExecuteEd;
    ByteOf(v.mem, at, code, k + 2);
    v' := v.(pc := if v.z then v.pc + 3 else Pair(code[k + 2], code[k + 1]));
    forall m: Machine | Seen(m) == v
      ensures Step(m).Some? && Seen(Step(m).value) == v'
    {
      Fetched(m, at, code, k, 0);
      Fetched(m, at, code, k, 1);
      Fetched(m, at, code, k, 2);
    }
    ThenStep(v0, v, v');
  }

  /** RET. */
  lemma Return(v0: View, v: View, at: nat, code: seq<Byte>, k: nat) returns (v': View)
    requires Leads(v0, v) && On(v, at, code, k) && k + 1 <= |code| && code[k] == 0xC9
    requires v.sp + 2 < SIZE
    ensures Leads(v0, v')
    ensures v' == v.(pc := Pair(v.mem[v.sp + 1], v.mem[v.sp]), sp := v.sp + 2)
  {
    hide Leads, Lies, Word16, Fetch, Hi, Lo, Pair, Alu, WithRegister, Operand, ExecuteCb, ExecuteEd;
    ByteOf(v.mem, at, code, k);
    v' := v.(pc := Pair(v.mem[v.sp + 1], v.mem[v.sp]), sp := v.sp + 2);
    forall m: Machine | Seen(m) == v
      ensures Step(m).Some? && Seen(Step(m).value) == v'
    {
      Fetched(m, at, code, k, 0);
      InRange(v.sp + 1);
      InRange(v.sp + 2);
    }
    ThenStep(v0, v, v');
  }

  /** RET Z. */
  lemma ReturnZero(v0: View, v: View, at: nat, code: seq<Byte>, k: nat) returns (v': View)
    requires Leads(v0, v) && On(v, at, code, k) && k + 1 <= |code| && code[k] == 0xC8
    requires v.sp + 2 < SIZE
    ensures Leads(v0, v')
    ensures v' == if v.z then v.(pc := Pair(v.mem[v.sp + 1], v.mem[v.sp]), sp := v.sp + 2) else v.(pc := v.pc + 1)
    ensures !v.z ==> On(v', at, code, k + 1)
  {
    hide Leads, Lies, Word16, Fetch, Hi, Lo, Pair, Alu, WithRegister, Operand, ExecuteCb, ExecuteEd;
    ByteOf(v.mem, at, code, k);
    v' := if v.z then v.(pc := Pair(v.mem[v.sp + 1], v.mem[v.sp]), sp := v.sp + 2) else v.(pc := v.pc + 1);
    forall m: Machine | Seen(m) == v
      ensures Step(m).Some? && Seen(Step(m).value) == v'
    {
      Fetched(m, at, code, k, 0);
      InRange(v.sp + 1);
      InRange(v.sp + 2);
    }
    ThenStep(v0, v, v');
  }

  /** POP HL. */
  lemma PopHl(v0: View, v: View, at: nat, code: seq<Byte>, k: nat) returns (v': View)
    requires Leads(v0, v) && On(v, at, code, k) && k + 1 <= |code| && code[k] == 0xE1
    requires v.sp + 2 < SIZE
    ensures Leads(v0, v') && On(v', at, code, k + 1)
    ensures v' == v.(hl := Pair(v.mem[v.sp + 1], v.mem[v.sp]), sp := v.sp + 2, pc := v.pc + 1)
  {
    hide Leads, Lies, Word16, Fetch, Hi, Lo, Pair, Alu, WithRegister, Operand, ExecuteCb, ExecuteEd;
    ByteOf(v.mem, at, code, k);
    v' := v.(hl := Pair(v.mem[v.sp + 1], v.mem[v.sp]), sp := v.sp + 2, pc := v.pc + 1);
    forall m: Machine | Seen(m) == v
      ensures Step(m).Some? && Seen(Step(m).value) == v'
    {
      Fetched(m, at, code, k, 0);
      InRange(v.sp + 1);
      InRange(v.sp + 2);
    }
    ThenStep(v0, v, v');
  }

  /** PUSH HL. */
  lemma PushHl(v0: View, v: View, at: nat, code: seq<Byte>, k: nat) returns (v': View)
    requires Leads(v0, v) && On(v, at, code, k) && k + 1 <= |code| && code[k] == 0xE5
    requires v.sp >= 2
    ensures Leads(v0, v')
    ensures v' == v.(sp := v.sp - 2, mem := Pushed(v.mem, v.sp - 2, v.hl), pc := v.pc + 1)
  {
    hide Leads, Lies, Word16, Fetch, Hi, Lo, Pair, Alu, WithRegister, Operand, ExecuteCb, ExecuteEd;
    ByteOf(v.mem, at, code, k);
    v' := v.(sp := v.sp - 2, mem := Pushed(v.mem, v.sp - 2, v.hl), pc := v.pc + 1);
    forall m: Machine | Seen(m) == v
      ensures Step(m).Some? && Seen(Step(m).value) == v'
    {
      Fetched(m, at, code, k, 0);
      InRange(v.sp - 1);
      InRange(v.sp - 2);
    }
    ThenStep(v0, v, v');
  }

  /** CALL nn, with the stack away from the code. */
  lemma Call(v0: View, v: View, at: nat, code: seq<Byte>, k: nat) returns (v': View)
    requires Leads(v0, v) && On(v, at, code, k) && k + 3 <= |code| && code[k] == 0xCD
    requires v.sp >= 2 && (v.sp <= at || at + |code| <= v.sp - 2)
    ensures Leads(v0, v')
    ensures v' == v.(sp := v.sp - 2, mem := Pushed(v.mem, v.sp - 2, v.pc + 3), pc := Pair(code[k + 2], code[k + 1]))
  {
    hide Leads, Lies, Word16, Fetch, Hi, Lo, Pair, FetchWord, Alu, WithRegister, Operand, ExecuteCb,
         ExecuteEd;
    ByteOf(v.mem, at, code, k + 2);
    v' := v.(sp := v.sp - 2, mem := Pushed(v.mem, v.sp - 2, v.pc + 3), pc := Pair(code[k + 2], code[k + 1]));
    forall m: Machine | Seen(m) == v
      ensures Step(m).Some? && Seen(Step(m).value) == v'
    {
      Fetched(m, at, code, k, 0);
      Fetched(m, at, code, k, 1);
      Fetched(m, at, code, k, 2);
      InRange(v.sp - 1);
      InRange(v.sp - 2);
      Operands(m, at, code, k, v.pc + 3);
    }
    ThenStep(v0, v, v');
  }
}
