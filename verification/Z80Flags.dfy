/** What one instruction leaves in the registers and in every flag, in terms of arithmetic and single bits. */
module Z80Flags {
  import opened Bytes
  import opened Z80

  // ---- registers ----

  /** The eight operands of an instruction in the order of their codes. */
  function Operands(m: Machine): (r: seq<Byte>)
    ensures |r| == 8
  {
    [m.b, m.c, m.d, m.e, m.h, m.l, m.mem[m.h * 0x100 + m.l], m.a]
  }

  lemma OperandIs(m: Machine, code: nat)
    requires code < 8
    ensures Operand(m, code) == Operands(m)[code]
  {
  }

  lemma MoveIs(m: Machine, to: nat, value: Byte)
    requires to < 8
    ensures var m' := WithRegister(m, to, value);
            && m'.pc == m.pc && m'.flags == m.flags && m'.sp == m.sp
            && (to == 6 ==> m' == m.(mem := m.mem[m.h * 0x100 + m.l := value]))
            && (to != 6 ==> m'.mem == m.mem && Operands(m')[to] == value)
            && (forall k :: 0 <= k < 8 && k != to && k != 6 ==> Operands(m')[k] == Operands(m)[k])
  {
  }

  /** LD r,r': the one operand gets the value of the other, and nothing else changes. */
  lemma LoadMoves(m: Machine, to: nat, from: nat)
    requires to < 8 && from < 8 && Fetch(m, 0) == 0x40 + 8 * to + from && (to != 6 || from != 6)
    ensures Step(m).Some?
    ensures var m', value := Step(m).value, Operands(m)[from];
            && m'.pc == Word16(m.pc + 1) && m'.flags == m.flags && m'.sp == m.sp
            && (to == 6 ==> m' == m.(mem := m.mem[m.h * 0x100 + m.l := value], pc := m'.pc))
            && (to != 6 ==> m'.mem == m.mem && Operands(m')[to] == value)
            && (forall k :: 0 <= k < 8 && k != to && k != 6 ==> Operands(m')[k] == Operands(m)[k])
  {
    hide Word16, Fetch, ExecuteCb, ExecuteEd, ExecutePlain, Alu, WithRegister, Operand;
    CodesOf(0x40, to, from);
    OperandIs(m, from);
    MoveIs(m, to, Operands(m)[from]);
  }

  lemma CodesOf(base: nat, row: nat, code: nat)
    requires row < 8 && code < 8 && base in {0x40, 0x80}
    ensures (base + 8 * row + code) / 8 % 8 == row && (base + 8 * row + code) % 8 == code
    ensures base <= base + 8 * row + code < base + 0x40
    ensures base == 0x40 && base + 8 * row + code == 0x76 ==> row == 6 && code == 6
  {
  }

  // ---- flags ----

  /** The undocumented flags are bits 5 and 3 of a value. */
  predicate Undocumented(f: Flags, value: int) {
    f.Y == value / 0x20 % 2 && f.X == value / 8 % 2
  }

  function SetBits(x: Byte): nat {
    x % 2 + x / 2 % 2 + x / 4 % 2 + x / 8 % 2 + x / 0x10 % 2 + x / 0x20 % 2 + x / 0x40 % 2 + x / 0x80
  }

  /** Sign, zero and, for the operations that have it, even parity of a result. */
  predicate OfResult(f: Flags, result: Byte) {
    (f.S == 1 <==> result >= 0x80) && (f.Z == 1 <==> result == 0)
  }

  predicate EvenParity(f: Flags, result: Byte) {
    f.P == 1 <==> SetBits(result) % 2 == 0
  }

  /** The flags of `x + y + carry`. */
  predicate OfSum(f: Flags, x: Byte, y: Byte, carry: Flag) {
    var result := (x + y + carry) % 0x100;
    && OfResult(f, result) && Undocumented(f, result) && f.N == 0
    && (f.C == 1 <==> x + y + carry > 0xFF)
    && (f.H == 1 <==> x % 0x10 + y % 0x10 + carry > 0xF)
    && (f.P == 1 <==> !(-0x80 <= SignedOffset(x) + SignedOffset(y) + carry <= 0x7F))
  }

  /** The flags of `x - y - borrow`, but for the undocumented ones. */
  predicate OfDifference(f: Flags, x: Byte, y: Byte, borrow: Flag) {
    && OfResult(f, (x - y - borrow) % 0x100) && f.N == 1
    && (f.C == 1 <==> x - y - borrow < 0)
    && (f.H == 1 <==> x % 0x10 < y % 0x10 + borrow)
    && (f.P == 1 <==> !(-0x80 <= SignedOffset(x) - SignedOffset(y) - borrow <= 0x7F))
  }

  predicate OfLogic(f: Flags, result: Byte, half: bool) {
    && OfResult(f, result) && EvenParity(f, result) && Undocumented(f, result)
    && (f.H == 1 <==> half) && f.N == 0 && f.C == 0
  }

  lemma Halvings(x: Byte)
    ensures x / 2 / 2 == x / 4 && x / 4 / 2 == x / 8 && x / 8 / 2 == x / 0x10 && x / 0x10 / 2 == x / 0x20
    ensures x / 0x20 / 2 == x / 0x40 && x / 0x40 / 2 == x / 0x80 && x / 0x80 / 2 == 0 && x / 0x80 % 2 == x / 0x80
  {
  }

  lemma OneMore(x: nat, half: nat)
    requires half == x / 2
    ensures Ones(x) == x % 2 + Ones(half)
  {
  }

  lemma OnesAre(x: Byte)
    ensures Ones(x) == SetBits(x)
  {
    hide Ones;
    Halvings(x);
    OneMore(x, x / 2);
    OneMore(x / 2, x / 4);
    OneMore(x / 4, x / 8);
    OneMore(x / 8, x / 0x10);
    OneMore(x / 0x10, x / 0x20);
    OneMore(x / 0x20, x / 0x40);
    OneMore(x / 0x40, x / 0x80);
    OneMore(x / 0x80, 0);
    NoOnes();
  }

  lemma NoOnes()
    ensures Ones(0) == 0
  {
  }

  lemma WrappedBits(x: int)
    ensures BitOf(x, 0x20) == x % 0x100 / 0x20 % 2 && BitOf(x, 8) == x % 0x100 / 8 % 2
    ensures BitOf(x, 0x80) == x % 0x100 / 0x80
  {
    Bit5(x);
    Bit3(x);
    Bit7(x);
  }

  lemma Bit5(x: int)
    ensures x / 0x20 % 2 == x % 0x100 / 0x20 % 2
  {
    var q, r := x / 0x100, x % 0x100;
    By32(x, 8 * q + r / 0x20, r % 0x20);
    EvenPart(4 * q, r / 0x20);
  }

  lemma By32(x: int, q: int, r: int)
    requires x == 0x20 * q + r && 0 <= r < 0x20
    ensures x / 0x20 == q
  {
  }

  lemma Bit3(x: int)
    ensures x / 8 % 2 == x % 0x100 / 8 % 2
  {
    var q, r := x / 0x100, x % 0x100;
    By8(x, 0x20 * q + r / 8, r % 8);
    EvenPart(0x10 * q, r / 8);
  }

  lemma By8(x: int, q: int, r: int)
    requires x == 8 * q + r && 0 <= r < 8
    ensures x / 8 == q
  {
  }

  lemma EvenPart(q: int, a: int)
    ensures (2 * q + a) % 2 == a % 2
  {
  }

  lemma Bit7(x: int)
    ensures x / 0x80 % 2 == x % 0x100 / 0x80
  {
    assert x / 0x80 == 2 * (x / 0x100) + x % 0x100 / 0x80;
  }

  lemma SumIs(m: Machine, operand: Byte, carry: Flag)
    ensures OfSum(XY(SumFlags(m, operand, carry), m.a + operand + carry), m.a, operand, carry)
  {
    SumFlagsMean(m, operand, carry);
    WrappedBits(m.a + operand + carry);
    hide SignedOffset, BitOf;
  }

  lemma DifferenceIs(m: Machine, operand: Byte, borrow: Flag, shown: int)
    ensures var f := XY(DifferenceFlags(m, operand, borrow), shown);
            OfDifference(f, m.a, operand, borrow) && Undocumented(f, shown % 0x100)
  {
    DifferenceFlagsMean(m, operand, borrow);
    WrappedBits(shown);
    hide SignedOffset, BitOf;
  }

  lemma LogicFlagsAre(result: Byte, half: Flag)
    ensures OfLogic(LogicFlags(result, half), result, half == 1)
  {
    OnesAre(result);
    WrappedBits(result);
    hide SetBits, BitOf, Ones;
  }

  // ---- the eight rows of arithmetic ----

  predicate LogicOf(row: nat, x: int, y: int, z: int) {
    z == 1 <==> if row == 4 then x == 1 && y == 1 else if row == 5 then x != y else x == 1 || y == 1
  }

  /** ADD, ADC, SUB, SBC, AND, XOR, OR and CP, in the order of their codes. */
  predicate Row(row: nat, m: Machine, y: Byte, m': Machine) {
    var carry := if row == 1 || row == 3 then m.flags.C else 0;
    if row <= 1 then m'.a == (m.a + y + carry) % 0x100 && OfSum(m'.flags, m.a, y, carry)
    else if row <= 3 then
      && m'.a == (m.a - y - carry) % 0x100
      && OfDifference(m'.flags, m.a, y, carry) && Undocumented(m'.flags, m'.a)
    else if row <= 6 then
      && OfLogic(m'.flags, m'.a, row == 4)
      && forall k: nat :: k < 8 ==> LogicOf(row, m.a / Pow2(k) % 2, y / Pow2(k) % 2, m'.a / Pow2(k) % 2)
    else m'.a == m.a && OfDifference(m'.flags, m.a, y, 0) && Undocumented(m'.flags, y)
  }

  lemma LogicBitIs(op: Logic, x: Byte, y: Byte, row: nat, k: nat)
    requires row == (match op case And => 4 case Xor => 5 case Or => 6) && k < 8
    ensures LogicOf(row, x / Pow2(k) % 2, y / Pow2(k) % 2, LogicByte(op, x, y) / Pow2(k) % 2)
  {
    hide Pow2, Bitwise, LogicBit, LogicOf;
    BitwiseAt(op, x, y, 8, k);
    LogicBitMeans(op, x / Pow2(k) % 2, y / Pow2(k) % 2, row);
  }

  lemma LogicBitMeans(op: Logic, x: Flag, y: Flag, row: nat)
    requires row == match op case And => 4 case Xor => 5 case Or => 6
    ensures LogicOf(row, x, y, LogicBit(op, x, y))
  {
  }

  lemma LogicIs(m: Machine, op: Logic, operand: Byte, row: nat)
    requires row == match op case And => 4 case Xor => 5 case Or => 6
    ensures Row(row, m, operand, DoLogic(m, op, operand))
  {
    hide OfLogic, LogicFlags, Pow2, LogicOf, LogicByte;
    var result := LogicByte(op, m.a, operand);
    LogicFlagsAre(result, FlagOf(op == And));
    forall k: nat | k < 8
      ensures LogicOf(row, m.a / Pow2(k) % 2, operand / Pow2(k) % 2, result / Pow2(k) % 2)
    {
      LogicBitIs(op, m.a, operand, row, k);
    }
  }

  lemma AluIs(m: Machine, row: nat, operand: Byte)
    requires row < 8
    ensures Row(row, m, operand, Alu(m, row, operand))
    ensures Alu(m, row, operand) == m.(a := Alu(m, row, operand).a, flags := Alu(m, row, operand).flags)
  {
    hide OfSum, OfDifference, OfLogic, SumFlags, DifferenceFlags, XY, LogicFlags, LogicByte, DoLogic, LogicOf, Pow2;
    if row <= 1 {
      SumIs(m, operand, if row == 1 then m.flags.C else 0);
    } else if row <= 3 {
      var carry := if row == 3 then m.flags.C else 0;
      DifferenceIs(m, operand, carry, m.a - operand - carry);
    } else if row <= 6 {
      var op := if row == 4 then And else if row == 5 then Xor else Or;
      LogicIs(m, op, operand, row);
      LogicKeeps(m, op, operand);
    } else {
      DifferenceIs(m, operand, 0, operand);
      assert operand % 0x100 == operand;
    }
  }

  lemma LogicKeeps(m: Machine, op: Logic, operand: Byte)
    ensures var m' := DoLogic(m, op, operand); m' == m.(a := m'.a, flags := m'.flags)
  {
    hide LogicByte, LogicFlags;
  }

  /** The 64 instructions of arithmetic on A: the row by the upper code, the operand by the lower. */
  lemma ArithmeticIs(m: Machine, row: nat, code: nat)
    requires row < 8 && code < 8 && Fetch(m, 0) == 0x80 + 8 * row + code
    ensures Step(m).Some?
    ensures var m' := Step(m).value;
            && m' == m.(a := m'.a, flags := m'.flags, pc := Word16(m.pc + 1))
            && Row(row, m, Operands(m)[code], m')
  {
    hide Word16, Fetch, ExecuteCb, ExecuteEd, ExecutePlain, Alu, OfSum, OfDifference, OfLogic, LogicOf, Pow2;
    CodesOf(0x80, row, code);
    OperandIs(m, code);
    AluIs(m, row, Operands(m)[code]);
  }

  // ---- shifts, counters and the rest ----

  /** SRL and RR: half the operand, with 0 or the carry on top, and the bit that falls out in the carry. */
  lemma ShiftIs(m: Machine, code: nat, carryIn: bool)
    requires code < 8 && Fetch(m, 0) == 0xCB && Fetch(m, 1) == (if carryIn then 0x18 else 0x38) + code
    ensures var operand, into := Operands(m)[code], if carryIn then m.flags.C else 0;
            var result := operand / 2 + 0x80 * into;
            && Step(m).Some?
            && var m' := Step(m).value;
            && m' == WithRegister(m, code, result).(flags := m'.flags, pc := Word16(m.pc + 2))
            && OfResult(m'.flags, result) && EvenParity(m'.flags, result) && Undocumented(m'.flags, result)
            && m'.flags.C == operand % 2 && m'.flags.H == 0 && m'.flags.N == 0
  {
    hide Word16, Fetch, ExecuteEd, ExecutePlain, Alu, WithRegister, Operand, RotateFlags, OfResult, EvenParity,
         Undocumented;
    OperandIs(m, code);
    var result := Operands(m)[code] / 2 + 0x80 * if carryIn then m.flags.C else 0;
    ShiftKeeps(m, code, result);
    ShiftFlagsAre(result, Operands(m)[code] % 2);
  }

  lemma ShiftFlagsAre(result: Byte, carry: Flag)
    ensures var f := RotateFlags(result, carry);
            && OfResult(f, result) && EvenParity(f, result) && Undocumented(f, result)
            && f.C == carry && f.H == 0 && f.N == 0
  {
    hide SetBits, BitOf, Ones;
    WrappedBits(result);
    OnesAre(result);
  }

  lemma ShiftKeeps(m: Machine, code: nat, result: Byte)
    requires code < 8
    ensures WithRegister(m, code, result).pc == m.pc
  {
  }

  /** ADD HL,BC and ADD HL,DE: S, Z and P stay, and the half carry comes from bit 11. */
  lemma HlSumIs(m: Machine, operand: Word)
    requires Fetch(m, 0) == 0x09 || Fetch(m, 0) == 0x19
    requires operand == if Fetch(m, 0) == 0x09 then m.b * 0x100 + m.c else m.d * 0x100 + m.e
    ensures var hl := m.h * 0x100 + m.l;
            && Step(m).Some?
            && var m', f := Step(m).value, Step(m).value.flags;
            && m' == m.(h := m'.h, l := m'.l, flags := f, pc := Word16(m.pc + 1))
            && m'.h * 0x100 + m'.l == (hl + operand) % 0x1_0000
            && (f.C == 1 <==> hl + operand > 0xFFFF) && (f.H == 1 <==> hl % 0x1000 + operand % 0x1000 > 0xFFF)
            && f.N == 0 && Undocumented(f, m'.h) && f.S == m.flags.S && f.Z == m.flags.Z && f.P == m.flags.P
  {
    hide Word16, Fetch, ExecuteCb, ExecuteEd, Alu, WithRegister, Operand, DoHlAdd;
    HlAddIs(m, operand);
  }

  lemma HlAddIs(m: Machine, operand: Word)
    ensures var hl, m' := m.h * 0x100 + m.l, DoHlAdd(m, operand);
            var f := m'.flags;
            && m' == m.(h := m'.h, l := m'.l, flags := f)
            && m'.h * 0x100 + m'.l == (hl + operand) % 0x1_0000
            && (f.C == 1 <==> hl + operand > 0xFFFF) && (f.H == 1 <==> hl % 0x1000 + operand % 0x1000 > 0xFFF)
            && f.N == 0 && Undocumented(f, m'.h) && f.S == m.flags.S && f.Z == m.flags.Z && f.P == m.flags.P
  {
    hide Word16, Hi, Lo, BitOf, Undocumented;
    var hl := m.h * 0x100 + m.l;
    var result := hl + operand;
    HiLo(result);
    WordOfSum(result);
    HalfCarry(hl % 0x1000, operand % 0x1000);
    UndocumentedIs(m.flags.(N := 0, C := BitOf(result, SIZE), H := BitOf(hl % 0x1000 + operand % 0x1000, 0x1000)),
                   Hi(result));
  }

  lemma HalfCarry(x: nat, y: nat)
    requires x < 0x1000 && y < 0x1000
    ensures BitOf(x + y, 0x1000) == 1 <==> x + y > 0xFFF
  {
  }

  lemma UndocumentedIs(f: Flags, value: Byte)
    ensures Undocumented(XY(f, value), value)
  {
  }

  lemma WordOfSum(x: nat)
    requires x < 0x2_0000
    ensures Word16(x) == x % 0x1_0000 && (BitOf(x, SIZE) == 1 <==> x > 0xFFFF)
  {
  }

  /** DEC C keeps the carry. */
  lemma DecIs(m: Machine)
    requires Fetch(m, 0) == 0x0D
    ensures Step(m).Some?
    ensures var m', f := Step(m).value, Step(m).value.flags;
            && m' == m.(c := (m.c - 1) % 0x100, flags := f, pc := Word16(m.pc + 1))
            && OfResult(f, m'.c) && Undocumented(f, m'.c) && f.N == 1 && f.C == m.flags.C
            && (f.H == 1 <==> m.c % 0x10 == 0) && (f.P == 1 <==> m.c == 0x80)
  {
    hide Word16, Fetch, ExecuteCb, ExecuteEd, Alu, WithRegister, Operand, BitOf;
    WrappedBits(m.c - 1);
    WrappedBits((m.c - 1) % 0x100);
  }

  /** SCF takes the undocumented flags from A. */
  lemma ScfIs(m: Machine)
    requires Fetch(m, 0) == 0x37
    ensures Step(m).Some?
    ensures var m', f := Step(m).value, Step(m).value.flags;
            && m' == m.(flags := f, pc := Word16(m.pc + 1))
            && f == m.flags.(C := 1, H := 0, N := 0, Y := f.Y, X := f.X) && Undocumented(f, m.a)
  {
    hide Word16, Fetch, ExecuteCb, ExecuteEd, Alu, WithRegister, Operand;
  }
}
