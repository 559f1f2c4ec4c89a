/**
 The part of the Z80 interpreter that the delay loop, LDIR and DLSPEED's clock arithmetic and URL
 parser run on: one instruction as a function of the registers and a flat 64 KiB memory.
 */
module Z80 {
  import opened Bytes

  type Flag = x: int | 0 <= x <= 1

  datatype Flags = Flags(S: Flag, Z: Flag, Y: Flag, H: Flag, X: Flag, P: Flag, N: Flag, C: Flag)

  const SIZE := 0x1_0000

  type Memory = m: seq<Byte> | |m| == SIZE witness seq(SIZE, _ => 0)

  datatype Machine = Machine(
    a: Byte, b: Byte, c: Byte, d: Byte, e: Byte, h: Byte, l: Byte, flags: Flags, pc: Word, sp: Word, mem: Memory)

  // ---- bytes and flags ----

  function Pair(hi: Byte, lo: Byte): Word {
    hi * 0x100 + lo
  }

  function Hi(x: int): Byte {
    x / 0x100 % 0x100
  }

  function Lo(x: int): Byte {
    x % 0x100
  }

  /** `x & 0xffff`. */
  function Word16(x: int): Word {
    x % SIZE
  }

  lemma HiLo(x: int)
    ensures Pair(Hi(x), Lo(x)) == Word16(x)
  {
    var q, r := x / 0x100, x % 0x100;
    var p := q / 0x100;
    assert x == SIZE * p + (q % 0x100 * 0x100 + r);
  }

  lemma HiLoOf(x: Word)
    ensures Hi(x) == x / 0x100 && Pair(Hi(x), Lo(x)) == x
  {
    var hi, lo := x / 0x100, x % 0x100;
    assert x == hi * 0x100 + lo;
    assert hi % 0x100 == hi;
  }

  lemma InRange(x: Word)
    ensures Word16(x) == x
  {
  }

  function FlagOf(b: bool): Flag {
    if b then 1 else 0
  }

  /** `x & weight` as a flag; also right for negative `x`, where JavaScript sees two's complement. */
  function BitOf(x: int, weight: int): (f: Flag)
    requires weight > 0
  {
    x / weight % 2
  }

  function XY(f: Flags, result: int): Flags {
    f.(Y := BitOf(result, 0x20), X := BitOf(result, 8))
  }

  function Ones(x: nat): nat {
    if x == 0 then 0 else x % 2 + Ones(x / 2)
  }

  /** The parity table: 1 for an even number of set bits. */
  function Parity(x: Byte): Flag {
    FlagOf(Ones(x) % 2 == 0)
  }

  datatype Logic = And | Xor | Or

  function LogicBit(op: Logic, x: Flag, y: Flag): Flag {
    match op
    case And => x * y
    case Xor => (x + y) % 2
    case Or => FlagOf(x + y > 0)
  }

  /** Bit by bit, on the low `n` bits. */
  function Bitwise(op: Logic, x: nat, y: nat, n: nat): (r: nat)
    ensures r < Pow2(n)
  {
    if n == 0 then 0 else LogicBit(op, x % 2, y % 2) + 2 * Bitwise(op, x / 2, y / 2, n - 1)
  }

  function LogicByte(op: Logic, x: Byte, y: Byte): Byte {
    assert Pow2(8) == 256;
    Bitwise(op, x, y, 8)
  }

  // ---- the eight operations on A ----

  function DoAdd(m: Machine, operand: Byte): Machine {
    var result := m.a + operand;
    m.(a := Lo(result), flags := XY(SumFlags(m, operand, 0), result))
  }

  function DoAdc(m: Machine, operand: Byte): Machine {
    var result := m.a + operand + m.flags.C;
    m.(a := Lo(result), flags := XY(SumFlags(m, operand, m.flags.C), result))
  }

  function SumFlags(m: Machine, operand: Byte, carry: Flag): Flags {
    var result := m.a + operand + carry;
    Flags(BitOf(result, 0x80), FlagOf(Lo(result) == 0), 0, BitOf(operand % 0x10 + m.a % 0x10 + carry, 0x10), 0,
          FlagOf(BitOf(m.a, 0x80) == BitOf(operand, 0x80) && BitOf(m.a, 0x80) != BitOf(result, 0x80)),
          0, BitOf(result, 0x100))
  }

  function DoSub(m: Machine, operand: Byte): Machine {
    var result := m.a - operand;
    m.(a := Lo(result), flags := XY(DifferenceFlags(m, operand, 0), result))
  }

  function DoSbc(m: Machine, operand: Byte): Machine {
    var result := m.a - operand - m.flags.C;
    m.(a := Lo(result), flags := XY(DifferenceFlags(m, operand, m.flags.C), result))
  }

  function DifferenceFlags(m: Machine, operand: Byte, carry: Flag): Flags {
    var result := m.a - operand - carry;
    Flags(BitOf(result, 0x80), FlagOf(Lo(result) == 0), 0, BitOf(m.a % 0x10 - operand % 0x10 - carry, 0x10), 0,
          FlagOf(BitOf(m.a, 0x80) != BitOf(operand, 0x80) && BitOf(m.a, 0x80) != BitOf(result, 0x80)),
          1, BitOf(result, 0x100))
  }

  function DoLogic(m: Machine, op: Logic, operand: Byte): Machine {
    var result := LogicByte(op, m.a, operand);
    m.(a := result, flags := LogicFlags(result, FlagOf(op == And)))
  }

  function LogicFlags(result: Byte, half: Flag): Flags {
    XY(Flags(BitOf(result, 0x80), FlagOf(result == 0), 0, half, 0, Parity(result), 0, 0), result)
  }

  /** A compare is a subtraction that keeps A and takes the undocumented flags from the operand. */
  function DoCp(m: Machine, operand: Byte): Machine {
    m.(flags := XY(DifferenceFlags(m, operand, 0), operand))
  }

  function Alu(m: Machine, row: nat, operand: Byte): Machine
    requires row < 8
  {
    if row == 0 then DoAdd(m, operand)
    else if row == 1 then DoAdc(m, operand)
    else if row == 2 then DoSub(m, operand)
    else if row == 3 then DoSbc(m, operand)
    else if row == 4 then DoLogic(m, And, operand)
    else if row == 5 then DoLogic(m, Xor, operand)
    else if row == 6 then DoLogic(m, Or, operand)
    else DoCp(m, operand)
  }

  // ---- registers by code ----

  function Operand(m: Machine, code: nat): Byte
    requires code < 8
  {
    if code == 0 then m.b
    else if code == 1 then m.c
    else if code == 2 then m.d
    else if code == 3 then m.e
    else if code == 4 then m.h
    else if code == 5 then m.l
    else if code == 6 then m.mem[Pair(m.h, m.l)]
    else m.a
  }

  function WithRegister(m: Machine, code: nat, value: Byte): Machine
    requires code < 8
  {
    if code == 0 then m.(b := value)
    else if code == 1 then m.(c := value)
    else if code == 2 then m.(d := value)
    else if code == 3 then m.(e := value)
    else if code == 4 then m.(h := value)
    else if code == 5 then m.(l := value)
    else if code == 6 then m.(mem := m.mem[Pair(m.h, m.l) := value])
    else m.(a := value)
  }

  // ---- other operations ----

  /** ADD HL: sets H, N, C and the undocumented flags, and keeps S, Z and P. */
  function DoHlAdd(m: Machine, operand: Word): Machine {
    var hl := Pair(m.h, m.l);
    var result := hl + operand;
    m.(h := Hi(result), l := Lo(result),
       flags := XY(m.flags.(N := 0, C := BitOf(result, SIZE), H := BitOf(hl % 0x1000 + operand % 0x1000, 0x1000)),
                   Hi(result)))
  }

  function RotateFlags(result: Byte, carry: Flag): Flags {
    XY(Flags(BitOf(result, 0x80), FlagOf(result == 0), 0, 0, 0, Parity(result), 0, carry), result)
  }

  /** SRL shifts a zero into bit 7, RR the carry; bit 0 becomes the carry. */
  function ShiftRight(m: Machine, code: nat, into: Flag): Machine
    requires code < 8
  {
    var operand := Operand(m, code);
    var result := operand / 2 + 0x80 * into;
    WithRegister(m, code, result).(flags := RotateFlags(result, operand % 2))
  }

  /** One byte from (HL) to (DE), both counted up, BC down. */
  function DoLdi(m: Machine): Machine {
    var hl, de, bc := Pair(m.h, m.l), Pair(m.d, m.e), Pair(m.b, m.c);
    var value := m.mem[hl];
    m.(mem := m.mem[de := value],
       d := Hi(de + 1), e := Lo(de + 1), h := Hi(hl + 1), l := Lo(hl + 1), b := Hi(bc - 1), c := Lo(bc - 1),
       flags := LdiFlags(m.flags, m.a + value, FlagOf(Word16(bc - 1) != 0)))
  }

  function LdiFlags(f: Flags, sum: nat, more: Flag): Flags {
    f.(H := 0, P := more, N := 0, Y := BitOf(sum, 2), X := BitOf(sum, 8))
  }

  /** DEC r keeps the carry. */
  function DecFlags(f: Flags, operand: Byte): Flags {
    XY(f.(S := BitOf(operand - 1, 0x80), Z := FlagOf(operand == 1), H := FlagOf(operand % 0x10 == 0),
          P := FlagOf(operand == 0x80), N := 1), Lo(operand - 1))
  }

  function DoScf(m: Machine): Machine {
    m.(flags := XY(m.flags.(N := 0, H := 0, C := 1), m.a))
  }

  /** The high byte goes on the stack first. */
  function DoPush(m: Machine, word: Word): Machine {
    m.(sp := Word16(m.sp - 2), mem := m.mem[Word16(m.sp - 1) := Hi(word)][Word16(m.sp - 2) := Lo(word)])
  }

  function Top(m: Machine): Word {
    Pair(m.mem[Word16(m.sp + 1)], m.mem[m.sp])
  }

  function DoRet(m: Machine): Machine {
    m.(pc := Top(m), sp := Word16(m.sp + 2))
  }

  function SignedOffset(value: Byte): int {
    if value >= 0x80 then value - 0x100 else value
  }

  /** The byte `k` places after the program counter. */
  function Fetch(m: Machine, k: nat): Byte {
    m.mem[Word16(m.pc + k)]
  }

  function FetchWord(m: Machine, k: nat): Word {
    Pair(Fetch(m, k + 1), Fetch(m, k))
  }

  function WriteWord(mem: Memory, address: Word, hi: Byte, lo: Byte): Memory {
    mem[address := lo][Word16(address + 1) := hi]
  }

  function Skip(m: Machine, k: int): Machine {
    m.(pc := Word16(m.pc + k))
  }

  // ---- one instruction ----

  /** The condition of JR NZ, JR Z, JR NC and JR C, in the order of their codes. */
  predicate Condition(f: Flags, code: nat) {
    if code == 0 then f.Z == 0 else if code == 1 then f.Z == 1 else if code == 2 then f.C == 0 else f.C == 1
  }

  function ExecuteEd(m: Machine, opcode: Byte): Option<Machine> {
    if opcode == 0x5B then
      var address := FetchWord(m, 2);
      Some(Skip(m.(e := m.mem[address], d := m.mem[Word16(address + 1)]), 4))
    else if opcode == 0xB0 then
      var m' := DoLdi(m);
      Some(if m'.b != 0 || m'.c != 0 then m' else Skip(m', 2))
    else None
  }

  function ExecuteCb(m: Machine, opcode: Byte): Option<Machine> {
    if 0x18 <= opcode < 0x20 then Some(Skip(ShiftRight(m, opcode % 8, m.flags.C), 2))
    else if 0x38 <= opcode < 0x40 then Some(Skip(ShiftRight(m, opcode % 8, 0), 2))
    else None
  }

  function ExecutePlain(m: Machine, opcode: Byte): Option<Machine> {
    if opcode == 0x0B then
      var bc := Pair(m.b, m.c);
      Some(Skip(m.(b := Hi(bc - 1), c := Lo(bc - 1)), 1))
    else if opcode == 0x11 then Some(Skip(m.(e := Fetch(m, 1), d := Fetch(m, 2)), 3))
    else if opcode == 0x16 then Some(Skip(m.(d := Fetch(m, 1)), 2))
    else if opcode == 0x19 then Some(Skip(DoHlAdd(m, Pair(m.d, m.e)), 1))
    else if opcode in {0x20, 0x28, 0x30, 0x38} then
      Some(Skip(m, if Condition(m.flags, (opcode - 0x20) / 8) then 2 + SignedOffset(Fetch(m, 1)) else 2))
    else if opcode == 0x22 then Some(Skip(m.(mem := WriteWord(m.mem, FetchWord(m, 1), m.h, m.l)), 3))
    else if opcode == 0x2A then
      var address := FetchWord(m, 1);
      Some(Skip(m.(l := m.mem[address], h := m.mem[Word16(address + 1)]), 3))
    else if opcode == 0x32 then Some(Skip(m.(mem := m.mem[FetchWord(m, 1) := m.a]), 3))
    else if opcode == 0x3A then Some(Skip(m.(a := m.mem[FetchWord(m, 1)]), 3))
    else if opcode == 0xCA then Some(if m.flags.Z == 1 then m.(pc := FetchWord(m, 1)) else Skip(m, 3))
    else if opcode == 0xCE then Some(Skip(DoAdc(m, Fetch(m, 1)), 2))
    else if opcode == 0xFE then Some(Skip(DoCp(m, Fetch(m, 1)), 2))
    else ExecuteText(m, opcode)
  }

  /** Constants, pointers and counters, as a program that copies text uses them. */
  function ExecuteText(m: Machine, opcode: Byte): Option<Machine> {
    var hl, de := Pair(m.h, m.l), Pair(m.d, m.e);
    if opcode == 0x01 then Some(Skip(m.(c := Fetch(m, 1), b := Fetch(m, 2)), 3))
    else if opcode == 0x09 then Some(Skip(DoHlAdd(m, Pair(m.b, m.c)), 1))
    else if opcode == 0x0D then Some(Skip(m.(c := Lo(m.c - 1), flags := DecFlags(m.flags, m.c)), 1))
    else if opcode == 0x0E then Some(Skip(m.(c := Fetch(m, 1)), 2))
    else if opcode == 0x12 then Some(Skip(m.(mem := m.mem[de := m.a]), 1))
    else if opcode == 0x13 then Some(Skip(m.(d := Hi(de + 1), e := Lo(de + 1)), 1))
    else if opcode == 0x1A then Some(Skip(m.(a := m.mem[de]), 1))
    else if opcode == 0x21 then Some(Skip(m.(l := Fetch(m, 1), h := Fetch(m, 2)), 3))
    else if opcode == 0x23 then Some(Skip(m.(h := Hi(hl + 1), l := Lo(hl + 1)), 1))
    else if opcode == 0x37 then Some(Skip(DoScf(m), 1))
    else if opcode == 0x3E then Some(Skip(m.(a := Fetch(m, 1)), 2))
    else ExecuteFlow(m, opcode)
  }

  /** Jumps, calls and the stack. */
  function ExecuteFlow(m: Machine, opcode: Byte): Option<Machine> {
    if opcode == 0x18 then Some(Skip(m, 2 + SignedOffset(Fetch(m, 1))))
    else if opcode == 0xC2 then Some(if m.flags.Z == 0 then m.(pc := FetchWord(m, 1)) else Skip(m, 3))
    else if opcode == 0xC8 then Some(if m.flags.Z == 1 then DoRet(m) else Skip(m, 1))
    else if opcode == 0xC9 then Some(DoRet(m))
    else if opcode == 0xCD then
      var pushed := DoPush(m, Word16(m.pc + 3));
      Some(pushed.(pc := FetchWord(pushed, 1)))
    else if opcode == 0xE1 then
      Some(Skip(m.(h := m.mem[Word16(m.sp + 1)], l := m.mem[m.sp], sp := Word16(m.sp + 2)), 1))
    else if opcode == 0xE5 then Some(Skip(DoPush(m, Pair(m.h, m.l)), 1))
    else None
  }

  /** `run_instruction`; None is an instruction outside the part described here. */
  function Step(m: Machine): Option<Machine> {
    var opcode := Fetch(m, 0);
    if opcode == 0x76 then None
    else if 0x40 <= opcode < 0x80 then
      Some(Skip(WithRegister(m, opcode / 8 % 8, Operand(m, opcode % 8)), 1))
    else if 0x80 <= opcode < 0xC0 then Some(Skip(Alu(m, opcode / 8 % 8, Operand(m, opcode % 8)), 1))
    else if opcode == 0xCB then ExecuteCb(m, Fetch(m, 1))
    else if opcode == 0xED then ExecuteEd(m, Fetch(m, 1))
    else ExecutePlain(m, opcode)
  }

  /** `n` instructions in a row lead from `m` to `end`. */
  ghost predicate Reaches(m: Machine, n: nat, end: Machine)
    decreases n
  {
    if n == 0 then m == end else exists next: Machine :: Step(m) == Some(next) && Reaches(next, n - 1, end)
  }

  lemma {:induction false} Join(m: Machine, n: nat, mid: Machine, k: nat, end: Machine)
    requires Reaches(m, n, mid) && Reaches(mid, k, end)
    ensures Reaches(m, n + k, end)
    decreases n
  {
    hide Step;
    if n > 0 {
      var next: Machine :| Step(m) == Some(next) && Reaches(next, n - 1, mid);
      Join(next, n - 1, mid, k, end);
    }
  }

  /** There is only one machine to be reached. */
  lemma {:induction false} ReachesOnlyOne(m: Machine, n: nat, x: Machine, y: Machine)
    requires Reaches(m, n, x) && Reaches(m, n, y)
    ensures x == y
    decreases n
  {
    hide Step;
    if n > 0 {
      var next: Machine :| Step(m) == Some(next) && Reaches(next, n - 1, x);
      ReachesOnlyOne(next, n - 1, x, y);
    }
  }

  lemma NoSteps(m: Machine)
    ensures Reaches(m, 0, m)
  {
  }

  lemma Next(m: Machine, m1: Machine, n: nat, end: Machine)
    requires Step(m) == Some(m1) && Reaches(m1, n, end)
    ensures Reaches(m, n + 1, end)
  {
    hide Step;
  }

  lemma Advance(pc: Word, i: int, k: int)
    ensures Word16(Word16(pc + i) + k) == Word16(pc + (i + k)) && Word16(pc) == pc
  {
  }

  /** The code as seen from an instruction that lies `i` bytes further on. */
  lemma FetchAfter(m: Machine, m': Machine, i: nat, k: nat)
    requires m'.mem == m.mem && m'.pc == Word16(m.pc + i)
    ensures Fetch(m', k) == Fetch(m, i + k)
  {
    Advance(m.pc, i, k);
  }

  /** The bitwise OR of two bytes is 0 only if both are. */
  lemma {:induction false} OrIsZero(x: nat, y: nat, n: nat)
    requires x < Pow2(n) && y < Pow2(n)
    ensures Bitwise(Or, x, y, n) == 0 <==> x == 0 && y == 0
    decreases n
  {
    if n > 0 {
      OrIsZero(x / 2, y / 2, n - 1);
      assert x == 2 * (x / 2) + x % 2 && y == 2 * (y / 2) + y % 2;
    }
  }

  lemma OrByteIsZero(x: Byte, y: Byte)
    ensures LogicByte(Or, x, y) == 0 <==> x == 0 && y == 0
  {
    assert Pow2(8) == 256;
    OrIsZero(x, y, 8);
  }

  // ---- what the flags mean ----

  /** After ADD and ADC: carry, zero, sign, half carry, and the overflow of the signed sum. */
  lemma SumFlagsMean(m: Machine, operand: Byte, carry: Flag)
    ensures var f, total := SumFlags(m, operand, carry), m.a + operand + carry;
            && (f.C == 1 <==> total > 0xFF) && (f.Z == 1 <==> total % 0x100 == 0)
            && (f.S == 1 <==> total % 0x100 >= 0x80)
            && (f.H == 1 <==> m.a % 0x10 + operand % 0x10 + carry > 0xF)
            && (f.P == 1 <==> !(-0x80 <= SignedOffset(m.a) + SignedOffset(operand) + carry <= 0x7F))
  {
  }

  /** After SUB, SBC and CP: borrow, zero, sign, half borrow, and the overflow of the signed difference. */
  lemma DifferenceFlagsMean(m: Machine, operand: Byte, carry: Flag)
    ensures var f, rest := DifferenceFlags(m, operand, carry), m.a - operand - carry;
            && (f.C == 1 <==> rest < 0) && (f.Z == 1 <==> rest % 0x100 == 0)
            && (f.S == 1 <==> rest % 0x100 >= 0x80)
            && (f.H == 1 <==> m.a % 0x10 < operand % 0x10 + carry)
            && (f.P == 1 <==> !(-0x80 <= SignedOffset(m.a) - SignedOffset(operand) - carry <= 0x7F))
  {
  }

  /** Bit `k` of the result depends on bit `k` of the operands alone. */
  lemma {:induction false} BitwiseAt(op: Logic, x: nat, y: nat, n: nat, k: nat)
    requires k < n
    ensures Bitwise(op, x, y, n) / Pow2(k) % 2 == LogicBit(op, x / Pow2(k) % 2, y / Pow2(k) % 2)
    decreases k
  {
    hide Bitwise, LogicBit;
    BitwiseHalves(op, x, y, n);
    var r := Bitwise(op, x, y, n);
    if k > 0 {
      BitwiseAt(op, x / 2, y / 2, n - 1, k - 1);
      HalveFirst(r, Pow2(k - 1));
      HalveFirst(x, Pow2(k - 1));
      HalveFirst(y, Pow2(k - 1));
    }
  }

  lemma BitwiseHalves(op: Logic, x: nat, y: nat, n: nat)
    requires n > 0
    ensures Bitwise(op, x, y, n) % 2 == LogicBit(op, x % 2, y % 2)
    ensures Bitwise(op, x, y, n) / 2 == Bitwise(op, x / 2, y / 2, n - 1)
  {
    hide LogicBit;
  }

  lemma HalveFirst(x: nat, p: nat)
    requires p > 0
    ensures x / (2 * p) == x / 2 / p
  {
    var q, r := x / 2 / p, x / 2 % p;
    assert x == 2 * (x / 2) + x % 2 && x / 2 == q * p + r;
    assert x == q * (2 * p) + (2 * r + x % 2);
    QuotientIs(x, q, 2 * p, 2 * r + x % 2);
  }

  lemma QuotientIs(x: nat, q: nat, d: nat, r: nat)
    requires d > 0 && x == q * d + r && r < d
    ensures x / d == q
  {
    var p, s := x / d, x % d;
    assert x == p * d + s && 0 <= s < d;
    SameQuotient(p, q, d, s, r);
  }

  lemma SameQuotient(p: nat, q: nat, d: nat, s: nat, r: nat)
    requires p * d + s == q * d + r && s < d && r < d
    ensures p == q
  {
    Multiple(p, q, d);
    Multiple(q, p, d);
  }

  lemma Multiple(p: nat, q: nat, d: nat)
    ensures p > q ==> p * d >= q * d + d
  {
    assert p * d == (p - q - 1) * d + (q * d + d);
  }
}
