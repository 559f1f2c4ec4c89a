/** The interpreter with its registers and memory updated in place. */
module Z80Cpu {
  import opened Bytes
  import opened Z80

  class Cpu {
    var a: Byte
    var b: Byte
    var c: Byte
    var d: Byte
    var e: Byte
    var h: Byte
    var l: Byte
    var flags: Flags
    var pc: Word
    var sp: Word
    const ram: array<Byte>

    constructor (ram: array<Byte>)
      requires ram.Length == SIZE
      ensures Valid() && this.ram == ram
      ensures State() == Machine(0, 0, 0, 0, 0, 0, 0, Flags(0, 0, 0, 0, 0, 0, 0, 0), 0, 0xDFF0, ram[..])
    {
      this.ram := ram;
      a, b, c, d, e, h, l := 0, 0, 0, 0, 0, 0, 0;
      flags := Flags(0, 0, 0, 0, 0, 0, 0, 0);
      pc, sp := 0, 0xDFF0;
    }

    ghost predicate Valid() {
      ram.Length == SIZE
    }

    ghost function State(): Machine
      reads this, ram
      requires Valid()
    {
      Machine(a, b, c, d, e, h, l, flags, pc, sp, ram[..])
    }

    /** What `State` is after the program counter has been moved on by one, as every instruction ends. */
    ghost function Next(): Machine
      reads this, ram
      requires Valid()
    {
      Skip(State(), 1)
    }

    // ---- operations on A ----

    method DoSum(operand: Byte, carry: Flag)
      requires Valid()
      modifies this`a, this`flags
      ensures var sum := old(a) + operand + carry;
              State() == old(State()).(a := Lo(sum), flags := XY(SumFlags(old(State()), operand, carry), sum))
    {
      hide BitOf, Lo, XY;
      var result := a + operand + carry;
      var f := Flags(BitOf(result, 0x80), FlagOf(Lo(result) == 0), 0, BitOf(operand % 0x10 + a % 0x10 + carry, 0x10), 0,
                     FlagOf(BitOf(a, 0x80) == BitOf(operand, 0x80) && BitOf(a, 0x80) != BitOf(result, 0x80)),
                     0, BitOf(result, 0x100));
      a := Lo(result);
      flags := XY(f, a);
      LowBits(f, result);
    }

    method DoDifference(operand: Byte, carry: Flag)
      requires Valid()
      modifies this`a, this`flags
      ensures var rest := old(a) - operand - carry;
              State() == old(State()).(a := Lo(rest), flags := XY(DifferenceFlags(old(State()), operand, carry), rest))
    {
      hide BitOf, Lo, XY;
      var result := a - operand - carry;
      var f := Flags(BitOf(result, 0x80), FlagOf(Lo(result) == 0), 0, BitOf(a % 0x10 - operand % 0x10 - carry, 0x10), 0,
                     FlagOf(BitOf(a, 0x80) != BitOf(operand, 0x80) && BitOf(a, 0x80) != BitOf(result, 0x80)),
                     1, BitOf(result, 0x100));
      a := Lo(result);
      flags := XY(f, a);
      LowBits(f, result);
    }

    method DoBits(op: Logic, operand: Byte)
      requires Valid()
      modifies this`a, this`flags
      ensures State() == DoLogic(old(State()), op, operand)
    {
      hide LogicByte, LogicFlags;
      a := LogicByte(op, a, operand);
      flags := LogicFlags(a, FlagOf(op == And));
    }

    /** A subtraction that does not keep its value. */
    method DoCompare(operand: Byte)
      requires Valid()
      modifies this`a, this`flags
      ensures State() == DoCp(old(State()), operand)
    {
      var temp := a;
      DoDifference(operand, 0);
      a := temp;
      flags := XY(flags, operand);
    }

    method AluOp(row: nat, operand: Byte)
      requires Valid() && row < 8
      modifies this`a, this`flags
      ensures State() == Alu(old(State()), row, operand)
    {
      hide SumFlags, DifferenceFlags, XY, Lo, DoLogic, DoCp;
      match row
      case 0 => DoSum(operand, 0);
      case 1 => DoSum(operand, flags.C);
      case 2 => DoDifference(operand, 0);
      case 3 => DoDifference(operand, flags.C);
      case 4 => DoBits(And, operand);
      case 5 => DoBits(Xor, operand);
      case 6 => DoBits(Or, operand);
      case _ => DoCompare(operand);
    }

    // ---- registers by code ----

    method GetOperand(code: nat) returns (value: Byte)
      requires Valid() && code < 8
      ensures value == Operand(State(), code)
    {
      match code
      case 0 => value := b;
      case 1 => value := c;
      case 2 => value := d;
      case 3 => value := e;
      case 4 => value := h;
      case 5 => value := l;
      case 6 => value := ram[Pair(h, l)];
      case _ => value := a;
    }

    method SetRegister(code: nat, value: Byte)
      requires Valid() && code < 8
      modifies this`a, this`b, this`c, this`d, this`e, this`h, this`l, ram
      ensures State() == WithRegister(old(State()), code, value)
    {
      match code
      case 0 => b := value;
      case 1 => c := value;
      case 2 => d := value;
      case 3 => e := value;
      case 4 => h := value;
      case 5 => l := value;
      case 6 => MemWrite(Pair(h, l), value);
      case _ => a := value;
    }

    method MemWrite(address: Word, value: Byte)
      requires Valid()
      modifies ram
      ensures State() == old(State()).(mem := old(ram[..])[address := value])
    {
      ram[address] := value;
    }

    // ---- operands after the opcode ----

    method NextByte() returns (value: Byte)
      requires Valid()
      modifies this`pc
      ensures State() == Skip(old(State()), 1) && value == Fetch(old(State()), 1)
    {
      pc := Word16(pc + 1);
      value := ram[pc];
    }

    method NextWord() returns (value: Word)
      requires Valid()
      modifies this`pc
      ensures State() == Skip(old(State()), 2) && value == FetchWord(old(State()), 1)
    {
      hide Fetch;
      ghost var m := State();
      var low := NextByte();
      var high := NextByte();
      SkipTwice(m, 1, 1);
      value := Pair(high, low);
    }

    // ---- whole instructions ----

    method HlAdd(operand: Word)
      requires Valid()
      modifies this`h, this`l, this`flags
      ensures State() == DoHlAdd(old(State()), operand)
    {
      hide XY, BitOf, Hi, Lo, Pair;
      var hl := Pair(h, l);
      var result := hl + operand;
      var f := flags.(N := 0, C := BitOf(result, SIZE), H := BitOf(hl % 0x1000 + operand % 0x1000, 0x1000));
      l := Lo(result);
      h := Hi(result);
      flags := XY(f, h);
    }

    method Shift(code: nat, into: Flag)
      requires Valid() && code < 8
      modifies this, ram
      ensures State() == ShiftRight(old(State()), code, into)
    {
      hide RotateFlags, Operand, WithRegister;
      var operand := GetOperand(code);
      var result: Byte := operand / 2 + 0x80 * into;
      SetRegister(code, result);
      flags := RotateFlags(result, operand % 2);
    }

    method CopyByte() returns (value: Byte)
      requires Valid()
      modifies ram
      ensures var m := old(State());
              && value == m.mem[Pair(m.h, m.l)]
              && State() == m.(mem := m.mem[Pair(m.d, m.e) := value])
    {
      value := ram[Pair(h, l)];
      MemWrite(Pair(d, e), value);
    }

    method CountPointers()
      requires Valid()
      modifies this`d, this`e, this`h, this`l
      ensures var m := old(State());
              State() == m.(d := Hi(Pair(m.d, m.e) + 1), e := Lo(Pair(m.d, m.e) + 1),
                            h := Hi(Pair(m.h, m.l) + 1), l := Lo(Pair(m.h, m.l) + 1))
    {
      hide Hi, Lo;
      var result := Pair(d, e) + 1;
      e, d := Lo(result), Hi(result);
      result := Pair(h, l) + 1;
      l, h := Lo(result), Hi(result);
    }

    method DecBc()
      requires Valid()
      modifies this`b, this`c
      ensures var m := old(State());
              State() == m.(b := Hi(Pair(m.b, m.c) - 1), c := Lo(Pair(m.b, m.c) - 1))
    {
      hide Hi, Lo;
      var result := Pair(b, c) - 1;
      c := Lo(result);
      b := Hi(result);
    }

    method Ldi()
      requires Valid()
      modifies this, ram
      ensures State() == DoLdi(old(State()))
    {
      hide Hi, Lo, LdiFlags, Word16, Pair;
      ghost var m := State();
      var value := CopyByte();
      CountPointers();
      DecBc();
      CountedOut(Pair(m.b, m.c));
      flags := LdiFlags(flags, a + value, FlagOf(c != 0 || b != 0));
    }

    /** JR with a condition, as the decoder sees it: one short of its final program counter. */
    method ConditionalRelativeJump(condition: bool)
      requires Valid()
      modifies this`pc
      ensures Next() == Skip(old(State()), if condition then 2 + SignedOffset(Fetch(old(State()), 1)) else 2)
    {
      hide Word16, SignedOffset;
      ghost var m := State();
      if condition {
        var offset := SignedOffset(ram[Word16(pc + 1)]);
        pc := Word16(pc + offset + 1);
        WordStep(m.pc + offset + 1, 1);
      } else {
        pc := Word16(pc + 1);
        WordStep(m.pc + 1, 1);
      }
    }

    method ConditionalAbsoluteJump(condition: bool)
      requires Valid()
      modifies this`pc
      ensures Next() == if condition then old(State()).(pc := FetchWord(old(State()), 1)) else Skip(old(State()), 3)
    {
      hide Word16, Pair;
      ghost var m := State();
      if condition {
        pc := Pair(ram[Word16(pc + 2)], ram[Word16(pc + 1)]);
        WordStep(pc - 1, 1);
        InRange(pc);
        pc := Word16(pc - 1);
      } else {
        pc := Word16(pc + 2);
        WordStep(m.pc + 2, 1);
      }
    }

    // ---- instructions with operands; each leaves the program counter on its last byte ----

    method LoadDeImmediate()
      requires Valid()
      modifies this`d, this`e, this`pc
      ensures var m := old(State()); Next() == Skip(m.(e := Fetch(m, 1), d := Fetch(m, 2)), 3)
    {
      hide Word16;
      ghost var m := State();
      e := NextByte();
      d := NextByte();
      WordStep(m.pc + 1, 1);
      WordStep(m.pc + 2, 1);
    }

    method LoadDImmediate()
      requires Valid()
      modifies this`d, this`pc
      ensures var m := old(State()); Next() == Skip(m.(d := Fetch(m, 1)), 2)
    {
      hide Word16, Fetch;
      ghost var m := State();
      d := NextByte();
      SkipTwice(m, 1, 1);
    }

    method AdcImmediate()
      requires Valid()
      modifies this`a, this`flags, this`pc
      ensures var m := old(State()); Next() == Skip(DoAdc(m, Fetch(m, 1)), 2)
    {
      hide Word16, Fetch, SumFlags, XY;
      ghost var m := State();
      var operand := NextByte();
      DoSum(operand, flags.C);
      SameSum(m, Skip(m, 1), operand);
      SkipTwice(m, 1, 1);
    }

    method CpImmediate()
      requires Valid()
      modifies this`a, this`flags, this`pc
      ensures var m := old(State()); Next() == Skip(DoCp(m, Fetch(m, 1)), 2)
    {
      hide Word16, Fetch, DifferenceFlags, XY;
      ghost var m := State();
      var operand := NextByte();
      DoCompare(operand);
      SameDifference(m, Skip(m, 1), operand);
      SkipTwice(m, 1, 1);
    }

    /** LD (nn),HL. */
    method StoreHl()
      requires Valid()
      modifies this`pc, ram
      ensures var m := old(State()); Next() == Skip(m.(mem := WriteWord(m.mem, FetchWord(m, 1), m.h, m.l)), 3)
    {
      hide Word16, FetchWord;
      ghost var m := State();
      var address := NextWord();
      MemWrite(address, l);
      MemWrite(Word16(address as int + 1), h);
      SkipTwice(m, 2, 1);
    }

    /** LD HL,(nn). */
    method LoadHl()
      requires Valid()
      modifies this`h, this`l, this`pc
      ensures var m := old(State()); var address := FetchWord(m, 1);
              Next() == Skip(m.(l := m.mem[address], h := m.mem[Word16(address + 1)]), 3)
    {
      hide Word16, FetchWord;
      ghost var m := State();
      var address := NextWord();
      l := ram[address];
      h := ram[Word16(address as int + 1)];
      SkipTwice(m, 2, 1);
    }

    /** LD DE,(nn), after its prefix. */
    method LoadDe()
      requires Valid()
      modifies this`d, this`e, this`pc
      ensures var m := old(State()); var address := FetchWord(m, 1);
              Next() == Skip(m.(e := m.mem[address], d := m.mem[Word16(address + 1)]), 3)
    {
      hide Word16, FetchWord;
      ghost var m := State();
      var address := NextWord();
      e := ram[address];
      d := ram[Word16(address as int + 1)];
      SkipTwice(m, 2, 1);
    }

    /** LD (nn),A. */
    method StoreA()
      requires Valid()
      modifies this`pc, ram
      ensures var m := old(State()); Next() == Skip(m.(mem := m.mem[FetchWord(m, 1) := m.a]), 3)
    {
      hide Word16, FetchWord;
      ghost var m := State();
      var address := NextWord();
      MemWrite(address, a);
      SkipTwice(m, 2, 1);
    }

    /** LD A,(nn). */
    method LoadA()
      requires Valid()
      modifies this`a, this`pc
      ensures var m := old(State()); Next() == Skip(m.(a := m.mem[FetchWord(m, 1)]), 3)
    {
      hide Word16, FetchWord;
      ghost var m := State();
      var address := NextWord();
      a := ram[address];
      SkipTwice(m, 2, 1);
    }

    // ---- decoding ----

    /** The instructions after the prefix ED. */
    method DecodeEd() returns (known: bool)
      requires Valid()
      modifies this, ram
      ensures var m := old(State());
              && known == ExecuteEd(m, Fetch(m, 1)).Some?
              && (known ==> ExecuteEd(m, Fetch(m, 1)) == Some(Next()))
    {
      hide DoLdi, Fetch, Word16;
      ghost var m := State();
      var opcode := NextByte();
      known := true;
      if opcode == 0x5B {
        LoadDe();
        DeAfterPrefix(m);
      } else if opcode == 0xB0 {
        Ldi();
        LdiAfterPrefix(m);
        if b != 0 || c != 0 {
          pc := Word16(pc - 2);
        }
      } else {
        known := false;
      }
    }

    /** The shifts after the prefix CB. */
    method DecodeCb() returns (known: bool)
      requires Valid()
      modifies this, ram
      ensures var m := old(State());
              && known == ExecuteCb(m, Fetch(m, 1)).Some?
              && (known ==> ExecuteCb(m, Fetch(m, 1)) == Some(Next()))
    {
      hide ShiftRight, Fetch, Word16;
      ghost var m := State();
      var opcode := NextByte();
      known := true;
      if 0x18 <= opcode < 0x20 {
        Shift(opcode % 8, flags.C);
        ShiftAfterPrefix(m, opcode % 8, m.flags.C);
      } else if 0x38 <= opcode < 0x40 {
        Shift(opcode % 8, 0);
        ShiftAfterPrefix(m, opcode % 8, 0);
      } else {
        known := false;
      }
    }

    // ---- text, stack and flow ----

    method LoadBcImmediate()
      requires Valid()
      modifies this`b, this`c, this`pc
      ensures var m := old(State()); Next() == Skip(m.(c := Fetch(m, 1), b := Fetch(m, 2)), 3)
    {
      hide Word16;
      ghost var m := State();
      c := NextByte();
      b := NextByte();
      WordStep(m.pc + 1, 1);
      WordStep(m.pc + 2, 1);
    }

    method LoadHlImmediate()
      requires Valid()
      modifies this`h, this`l, this`pc
      ensures var m := old(State()); Next() == Skip(m.(l := Fetch(m, 1), h := Fetch(m, 2)), 3)
    {
      hide Word16;
      ghost var m := State();
      l := NextByte();
      h := NextByte();
      WordStep(m.pc + 1, 1);
      WordStep(m.pc + 2, 1);
    }

    method LoadCImmediate()
      requires Valid()
      modifies this`c, this`pc
      ensures var m := old(State()); Next() == Skip(m.(c := Fetch(m, 1)), 2)
    {
      hide Word16, Fetch;
      ghost var m := State();
      c := NextByte();
      SkipTwice(m, 1, 1);
    }

    method LoadAImmediate()
      requires Valid()
      modifies this`a, this`pc
      ensures var m := old(State()); Next() == Skip(m.(a := Fetch(m, 1)), 2)
    {
      hide Word16, Fetch;
      ghost var m := State();
      a := ram[Word16(pc as int + 1)];
      pc := Word16(pc as int + 1);
      SkipTwice(m, 1, 1);
      FetchIs(m, 1);
    }

    method DecC()
      requires Valid()
      modifies this`c, this`flags
      ensures var m := old(State()); State() == m.(c := Lo(m.c - 1), flags := DecFlags(m.flags, m.c))
    {
      hide DecFlags, Lo;
      flags := DecFlags(flags, c);
      c := Lo(c as int - 1);
    }

    method IncDe()
      requires Valid()
      modifies this`d, this`e
      ensures var m := old(State());
              State() == m.(d := Hi(Pair(m.d, m.e) + 1), e := Lo(Pair(m.d, m.e) + 1))
    {
      hide Hi, Lo;
      var result := Pair(d, e) + 1;
      e := Lo(result);
      d := Hi(result);
    }

    method IncHl()
      requires Valid()
      modifies this`h, this`l
      ensures var m := old(State());
              State() == m.(h := Hi(Pair(m.h, m.l) + 1), l := Lo(Pair(m.h, m.l) + 1))
    {
      hide Hi, Lo;
      var result := Pair(h, l) + 1;
      l := Lo(result);
      h := Hi(result);
    }

    method SetCarry()
      requires Valid()
      modifies this`flags
      ensures State() == DoScf(old(State()))
    {
      flags := XY(flags.(N := 0, H := 0, C := 1), a);
    }

    method PushWord(word: Word)
      requires Valid()
      modifies this`sp, ram
      ensures State() == DoPush(old(State()), word)
    {
      hide Hi, Lo, Word16;
      WordStep(sp - 1, 0 - 1);
      sp := Word16(sp as int - 1);
      MemWrite(sp, Hi(word));
      sp := Word16(sp as int - 1);
      MemWrite(sp, Lo(word));
    }

    method PopWord() returns (word: Word)
      requires Valid()
      modifies this`sp
      ensures var m := old(State()); word == Top(m) && State() == m.(sp := Word16(m.sp + 2))
    {
      hide Word16, Pair;
      WordStep(sp + 1, 1);
      var low := ram[sp];
      sp := Word16(sp as int + 1);
      var high := ram[sp];
      sp := Word16(sp as int + 1);
      word := Pair(high, low);
    }

    method PopHl()
      requires Valid()
      modifies this`sp, this`h, this`l
      ensures var m := old(State());
              State() == m.(h := m.mem[Word16(m.sp + 1)], l := m.mem[m.sp], sp := Word16(m.sp + 2))
    {
      hide Word16, Hi, Lo, Pair;
      var result := PopWord();
      PairParts(ram[Word16(old(sp) + 1)], ram[old(sp)]);
      l := Lo(result);
      h := Hi(result);
    }

    method ConditionalReturn(condition: bool)
      requires Valid()
      modifies this`pc, this`sp
      ensures Next() == if condition then DoRet(old(State())) else Skip(old(State()), 1)
    {
      hide Word16, Pair;
      if condition {
        var target := PopWord();
        WordStep(target as int - 1, 1);
        InRange(target);
        pc := Word16(target as int - 1);
      }
    }

    method RelativeJump()
      requires Valid()
      modifies this`pc
      ensures Next() == Skip(old(State()), 2 + SignedOffset(Fetch(old(State()), 1)))
    {
      ConditionalRelativeJump(true);
    }

    /** The operand is read after the return address was pushed. */
    method Call()
      requires Valid()
      modifies this`pc, this`sp, ram
      ensures var pushed := DoPush(old(State()), Word16(old(pc) + 3)); Next() == pushed.(pc := FetchWord(pushed, 1))
    {
      hide Word16, DoPush;
      ghost var m := State();
      PushWord(Word16(pc as int + 3));
      PushKeepsPc(m, Word16(m.pc + 3));
      ConditionalAbsoluteJump(true);
    }

    method DecodeText(opcode: Byte) returns (known: bool)
      requires Valid()
      modifies this, ram
      ensures var m := old(State());
              && known == ExecuteText(m, opcode).Some?
              && (known ==> ExecuteText(m, opcode) == Some(Next()))
    {
      hide Skip, DoHlAdd, Fetch, Hi, Lo, DecFlags, DoScf, ExecuteFlow;
      known := true;
      if opcode == 0x01 {
        LoadBcImmediate();
      } else if opcode == 0x09 {
        HlAdd(Pair(b, c));
      } else if opcode == 0x0D {
        DecC();
      } else if opcode == 0x0E {
        LoadCImmediate();
      } else if opcode == 0x12 {
        MemWrite(Pair(d, e), a);
      } else if opcode == 0x13 {
        IncDe();
      } else if opcode == 0x1A {
        a := ram[Pair(d, e)];
      } else if opcode == 0x21 {
        LoadHlImmediate();
      } else if opcode == 0x23 {
        IncHl();
      } else if opcode == 0x37 {
        SetCarry();
      } else if opcode == 0x3E {
        LoadAImmediate();
      } else {
        known := DecodeFlow(opcode);
      }
    }

    method DecodeFlow(opcode: Byte) returns (known: bool)
      requires Valid()
      modifies this, ram
      ensures var m := old(State());
              && known == ExecuteFlow(m, opcode).Some?
              && (known ==> ExecuteFlow(m, opcode) == Some(Next()))
    {
      hide Skip, DoPush, DoRet, Fetch, FetchWord, Word16;
      known := true;
      if opcode == 0x18 {
        RelativeJump();
      } else if opcode == 0xC2 {
        ConditionalAbsoluteJump(flags.Z == 0);
      } else if opcode == 0xC8 {
        ConditionalReturn(flags.Z == 1);
      } else if opcode == 0xC9 {
        ConditionalReturn(true);
      } else if opcode == 0xCD {
        Call();
      } else if opcode == 0xE1 {
        PopHl();
      } else if opcode == 0xE5 {
        PushWord(Pair(h, l));
      } else {
        known := false;
      }
    }

    method DecodePlain(opcode: Byte) returns (known: bool)
      requires Valid()
      modifies this, ram
      ensures var m := old(State());
              && known == ExecutePlain(m, opcode).Some?
              && (known ==> ExecutePlain(m, opcode) == Some(Next()))
    {
      hide ExecuteText, Skip, DoHlAdd, DoAdc, DoCp, Fetch, FetchWord, WriteWord, Hi, Lo;
      known := true;
      if opcode == 0x0B {
        DecBc();
      } else if opcode == 0x11 {
        LoadDeImmediate();
      } else if opcode == 0x16 {
        LoadDImmediate();
      } else if opcode == 0x19 {
        HlAdd(Pair(d, e));
      } else if opcode == 0x20 || opcode == 0x28 || opcode == 0x30 || opcode == 0x38 {
        ConditionalRelativeJump(Condition(flags, (opcode - 0x20) / 8));
      } else if opcode == 0x22 {
        StoreHl();
      } else if opcode == 0x2A {
        LoadHl();
      } else if opcode == 0x32 {
        StoreA();
      } else if opcode == 0x3A {
        LoadA();
      } else if opcode == 0xCA {
        ConditionalAbsoluteJump(flags.Z == 1);
      } else if opcode == 0xCE {
        AdcImmediate();
      } else if opcode == 0xFE {
        CpImmediate();
      } else {
        known := DecodeText(opcode);
      }
    }

    /** Runs one instruction; false is an instruction outside the part described here. */
    method RunInstruction() returns (known: bool)
      requires Valid()
      modifies this, ram
      ensures known == Step(old(State())).Some?
      ensures known ==> Step(old(State())) == Some(State())
    {
      hide ExecuteEd, ExecuteCb, ExecutePlain, Operand, WithRegister, Alu, Word16;
      known := true;
      InRange(pc);
      var opcode := ram[pc];
      if opcode == 0x76 {
        known := false;
      } else if 0x40 <= opcode < 0x80 {
        var operand := GetOperand(opcode % 8);
        SetRegister(opcode / 8 % 8, operand);
      } else if 0x80 <= opcode < 0xC0 {
        var operand := GetOperand(opcode % 8);
        AluOp(opcode / 8 % 8, operand);
      } else if opcode == 0xCB {
        known := DecodeCb();
      } else if opcode == 0xED {
        known := DecodeEd();
      } else {
        known := DecodePlain(opcode);
      }
      pc := Word16(pc + 1);
    }
  }

  lemma SameSum(m: Machine, m': Machine, operand: Byte)
    requires m' == m.(pc := m'.pc)
    ensures SumFlags(m', operand, m.flags.C) == SumFlags(m, operand, m.flags.C)
  {
  }

  lemma SameDifference(m: Machine, m': Machine, operand: Byte)
    requires m' == m.(pc := m'.pc)
    ensures DifferenceFlags(m', operand, 0) == DifferenceFlags(m, operand, 0)
  {
  }

  lemma DeAfterPrefix(m: Machine)
    ensures var m' := Skip(m, 1); var address := FetchWord(m', 1);
            && address == FetchWord(m, 2)
            && Skip(m'.(e := m.mem[address], d := m.mem[Word16(address + 1)]), 3) ==
               Skip(m.(e := m.mem[address], d := m.mem[Word16(address + 1)]), 4)
  {
    hide Word16, Fetch;
    SkipTwice(m, 1, 1);
    SkipTwice(m, 1, 2);
    SkipTwice(m, 1, 3);
  }

  lemma LdiAfterPrefix(m: Machine)
    ensures var m' := DoLdi(Skip(m, 1));
            && m' == Skip(DoLdi(m), 1)
            && Skip(m', 1) == Skip(DoLdi(m), 2)
            && Word16(Word16(m'.pc - 2) + 1) == m.pc == DoLdi(m).pc
  {
    hide Word16, Hi, Lo, LdiFlags;
    SkipTwice(DoLdi(m), 1, 1);
    WordStep(m.pc + 1, 0 - 2);
    WordStep(m.pc - 1, 1);
    InRange(m.pc);
  }

  lemma ShiftAfterPrefix(m: Machine, code: nat, into: Flag)
    requires code < 8
    ensures Skip(ShiftRight(Skip(m, 1), code, into), 1) == Skip(ShiftRight(m, code, into), 2)
  {
    hide Word16, RotateFlags;
    SkipTwice(m, 1, 1);
  }

  lemma FetchIs(m: Machine, k: nat)
    ensures Fetch(m, k) == m.mem[Word16(m.pc + k)]
  {
    hide Word16;
  }

  lemma PairParts(hi: Byte, lo: Byte)
    ensures Hi(Pair(hi, lo)) == hi && Lo(Pair(hi, lo)) == lo
  {
  }

  lemma PushKeepsPc(m: Machine, word: Word)
    ensures DoPush(m, word).pc == m.pc
  {
  }

  lemma WordStep(x: int, k: int)
    ensures Word16(Word16(x) + k) == Word16(x + k)
  {
  }

  lemma SkipTwice(m: Machine, i: int, k: int)
    ensures Skip(Skip(m, i), k) == Skip(m, i + k)
    ensures k >= 0 && i >= 0 ==> Fetch(Skip(m, i), k) == Fetch(m, i + k)
  {
    hide Word16;
    WordStep(m.pc + i, k);
  }

  /** The undocumented flags come from the low byte. */
  lemma LowBits(f: Flags, x: int)
    ensures XY(f, Lo(x)) == XY(f, x)
  {
    var q, r := x / 0x100, x % 0x100;
    LowBit5(q, r);
    LowBit3(q, r);
  }

  lemma LowBit5(q: int, r: Byte)
    ensures (0x100 * q + r) / 0x20 % 2 == r / 0x20 % 2
  {
    var t, u := r / 0x20, r % 0x20;
    assert 0x100 * q + r == 0x20 * (8 * q + t) + u;
    Quotient(8 * q + t, u, 0x20);
    assert 8 * q + t == 2 * (4 * q) + t;
  }

  lemma LowBit3(q: int, r: Byte)
    ensures (0x100 * q + r) / 8 % 2 == r / 8 % 2
  {
    var t, u := r / 8, r % 8;
    assert 0x100 * q + r == 8 * (0x20 * q + t) + u;
    Quotient(0x20 * q + t, u, 8);
    assert 0x20 * q + t == 2 * (0x10 * q) + t;
  }

  lemma Quotient(q: int, r: nat, weight: nat)
    requires r < weight && (weight == 8 || weight == 0x20)
    ensures (weight * q + r) / weight == q
  {
  }

  lemma CountedOut(bc: Word)
    ensures Lo(bc - 1) != 0 || Hi(bc - 1) != 0 <==> Word16(bc - 1) != 0
  {
  }
}
