/**
 DLSPEED's elapsed time on the interpreter: the machine code of REPORT_STOPPED from its first load
 to its zero test, and the shifts that turn a rate in bytes into one in KiB.
 */
module DlspeedClock {
  import opened Bytes
  import opened Z80

  const DAY := 86400

  // ---- running assembled code ----

  function Place(base: Word, k: int): Word {
    Word16(base + k)
  }

  /** The code lies at `base`, and the machine is about to run the instruction at `offset` in it. */
  ghost predicate On(base: Word, code: seq<Byte>, m: Machine, offset: nat) {
    m.pc == Word16(base + offset) && Laid(base, code, m.mem)
  }

  ghost predicate Laid(base: Word, code: seq<Byte>, mem: Memory)
    decreases |code|
  {
    var last := |code| - 1;
    code == [] || (mem[Place(base, last)] == code[last] && Laid(base, code[..last], mem))
  }

  lemma {:induction false} LaidAt(base: Word, code: seq<Byte>, mem: Memory, k: nat)
    requires Laid(base, code, mem) && k < |code|
    ensures mem[Place(base, k)] == code[k]
    decreases |code|
  {
    hide Place;
    if k < |code| - 1 {
      LaidAt(base, code[..|code| - 1], mem, k);
    }
  }

  lemma CodeByte(base: Word, code: seq<Byte>, m: Machine, offset: nat, k: nat)
    requires On(base, code, m, offset) && offset + k < |code|
    ensures Fetch(m, k) == code[offset + k]
  {
    LaidAt(base, code, m.mem, offset + k);
    Advance(base, offset, k);
  }

  lemma Moved(base: Word, code: seq<Byte>, m: Machine, m': Machine, offset: nat, size: nat)
    requires On(base, code, m, offset) && m'.mem == m.mem && m'.pc == Word16(m.pc + size)
    ensures On(base, code, m', offset + size)
  {
    Advance(base, offset, size);
  }

  /** LD r,r'. */
  lemma Load(base: Word, code: seq<Byte>, m: Machine, offset: nat) returns (m': Machine)
    requires On(base, code, m, offset) && offset < |code|
    requires 0x40 <= code[offset] < 0x80 && code[offset] / 8 % 8 != 6
    ensures Step(m) == Some(m') && On(base, code, m', offset + 1) && m'.mem == m.mem
    ensures m' == WithRegister(m, code[offset] / 8 % 8, Operand(m, code[offset] % 8)).(pc := m'.pc)
  {
    hide On, Fetch, Word16, Operand;
    CodeByte(base, code, m, offset, 0);
    m' := Step(m).value;
    Moved(base, code, m, m', offset, 1);
  }

  /** An operation on A and a register. */
  lemma Operate(base: Word, code: seq<Byte>, m: Machine, offset: nat) returns (m': Machine)
    requires On(base, code, m, offset) && offset < |code| && 0x80 <= code[offset] < 0xC0
    ensures Step(m) == Some(m') && On(base, code, m', offset + 1) && m'.mem == m.mem
    ensures m' == Alu(m, code[offset] / 8 % 8, Operand(m, code[offset] % 8)).(pc := m'.pc)
  {
    hide On, Fetch, Word16, Operand, XY, SumFlags, DifferenceFlags, LogicByte, LogicFlags, Lo;
    CodeByte(base, code, m, offset, 0);
    m' := Step(m).value;
    Moved(base, code, m, m', offset, 1);
  }

  /** LD HL,(address). */
  lemma LoadHlFrom(base: Word, code: seq<Byte>, m: Machine, offset: nat, address: Word) returns (m': Machine)
    requires On(base, code, m, offset) && offset + 3 <= |code| && code[offset] == 0x2A
    requires Pair(code[offset + 2], code[offset + 1]) == address
    ensures Step(m) == Some(m') && On(base, code, m', offset + 3)
    ensures m' == m.(h := m.mem[Word16(address + 1)], l := m.mem[address], pc := m'.pc)
  {
    hide On, Word16, Fetch;
    CodeByte(base, code, m, offset, 0);
    CodeByte(base, code, m, offset, 1);
    CodeByte(base, code, m, offset, 2);
    m' := Step(m).value;
    Moved(base, code, m, m', offset, 3);
  }

  /** LD A,(address). */
  lemma LoadAFrom(base: Word, code: seq<Byte>, m: Machine, offset: nat, address: Word) returns (m': Machine)
    requires On(base, code, m, offset) && offset + 3 <= |code| && code[offset] == 0x3A
    requires Pair(code[offset + 2], code[offset + 1]) == address
    ensures Step(m) == Some(m') && On(base, code, m', offset + 3)
    ensures m' == m.(a := m.mem[address], pc := m'.pc)
  {
    hide On, Word16, Fetch;
    CodeByte(base, code, m, offset, 0);
    CodeByte(base, code, m, offset, 1);
    CodeByte(base, code, m, offset, 2);
    m' := Step(m).value;
    Moved(base, code, m, m', offset, 3);
  }

  /** LD DE,(address). */
  lemma LoadDeFrom(base: Word, code: seq<Byte>, m: Machine, offset: nat, address: Word) returns (m': Machine)
    requires On(base, code, m, offset) && offset + 4 <= |code| && code[offset] == 0xED && code[offset + 1] == 0x5B
    requires Pair(code[offset + 3], code[offset + 2]) == address
    ensures Step(m) == Some(m') && On(base, code, m', offset + 4)
    ensures m' == m.(d := m.mem[Word16(address + 1)], e := m.mem[address], pc := m'.pc)
  {
    hide On, Word16, Fetch;
    CodeByte(base, code, m, offset, 0);
    CodeByte(base, code, m, offset, 1);
    CodeByte(base, code, m, offset, 2);
    CodeByte(base, code, m, offset, 3);
    m' := Step(m).value;
    Moved(base, code, m, m', offset, 4);
  }

  /** LD DE,nn. */
  lemma LoadDe(base: Word, code: seq<Byte>, m: Machine, offset: nat) returns (m': Machine)
    requires On(base, code, m, offset) && offset + 3 <= |code| && code[offset] == 0x11
    ensures Step(m) == Some(m') && On(base, code, m', offset + 3)
    ensures m' == m.(d := code[offset + 2], e := code[offset + 1], pc := m'.pc)
  {
    hide On, Word16, Fetch;
    CodeByte(base, code, m, offset, 0);
    CodeByte(base, code, m, offset, 1);
    CodeByte(base, code, m, offset, 2);
    m' := Step(m).value;
    Moved(base, code, m, m', offset, 3);
  }

  /** ADD HL,DE. */
  lemma AddHlDe(base: Word, code: seq<Byte>, m: Machine, offset: nat) returns (m': Machine)
    requires On(base, code, m, offset) && offset + 1 <= |code| && code[offset] == 0x19
    ensures Step(m) == Some(m') && On(base, code, m', offset + 1) && m' == DoHlAdd(m, Pair(m.d, m.e)).(pc := m'.pc)
  {
    hide On, Word16, Fetch, XY, BitOf, SumFlags, Hi, Lo;
    CodeByte(base, code, m, offset, 0);
    m' := Step(m).value;
    Moved(base, code, m, m', offset, 1);
  }

  /** ADC A,n. */
  lemma AdcConstant(base: Word, code: seq<Byte>, m: Machine, offset: nat) returns (m': Machine)
    requires On(base, code, m, offset) && offset + 2 <= |code| && code[offset] == 0xCE
    ensures Step(m) == Some(m') && On(base, code, m', offset + 2) && m' == DoAdc(m, code[offset + 1]).(pc := m'.pc)
  {
    hide On, Word16, Fetch, XY, BitOf, SumFlags, Hi, Lo;
    CodeByte(base, code, m, offset, 0);
    CodeByte(base, code, m, offset, 1);
    m' := Step(m).value;
    Moved(base, code, m, m', offset, 2);
  }

  /** JR NC over `skip` bytes. */
  lemma JumpNoCarry(base: Word, code: seq<Byte>, m: Machine, offset: nat, skip: nat) returns (m': Machine)
    requires On(base, code, m, offset) && offset + 2 <= |code| && code[offset] == 0x30
    requires code[offset + 1] == skip && skip < 0x80
    ensures Step(m) == Some(m') && m' == m.(pc := m'.pc)
    ensures On(base, code, m', offset + if m.flags.C == 0 then 2 + skip else 2)
  {
    hide On, Word16, Fetch;
    CodeByte(base, code, m, offset, 0);
    CodeByte(base, code, m, offset, 1);
    m' := Step(m).value;
    Moved(base, code, m, m', offset, if m.flags.C == 0 then 2 + skip else 2);
  }

  /** JP Z to `target`. */
  lemma JumpZero(base: Word, code: seq<Byte>, m: Machine, offset: nat, target: Word) returns (m': Machine)
    requires On(base, code, m, offset) && offset + 3 <= |code| && code[offset] == 0xCA
    requires Pair(code[offset + 2], code[offset + 1]) == target
    ensures Step(m) == Some(m') && m' == m.(pc := m'.pc)
    ensures m'.pc == if m.flags.Z == 1 then target else Word16(base + (offset + 3))
  {
    hide Word16, Fetch;
    CodeByte(base, code, m, offset, 0);
    CodeByte(base, code, m, offset, 1);
    CodeByte(base, code, m, offset, 2);
    m' := Step(m).value;
    Advance(base, offset, 3);
  }

  /** The address is not one of the `size` from `base` on. */
  ghost predicate OutsideCode(base: Word, size: nat, address: Word)
    decreases size
  {
    size == 0 || (Place(base, size - 1) != address && OutsideCode(base, size - 1, address))
  }

  /** LD (address),HL outside the code. */
  lemma StoreHlTo(base: Word, code: seq<Byte>, m: Machine, offset: nat, address: Word) returns (m': Machine)
    requires On(base, code, m, offset) && offset + 3 <= |code| && code[offset] == 0x22
    requires Pair(code[offset + 2], code[offset + 1]) == address
    requires OutsideCode(base, |code|, address) && OutsideCode(base, |code|, Word16(address + 1))
    ensures Step(m) == Some(m') && On(base, code, m', offset + 3)
    ensures m' == m.(mem := WriteWord(m.mem, address, m.h, m.l), pc := m'.pc)
  {
    hide On, Word16, Fetch, OutsideCode;
    CodeByte(base, code, m, offset, 0);
    CodeByte(base, code, m, offset, 1);
    CodeByte(base, code, m, offset, 2);
    m' := Step(m).value;
    Moved(base, code, m, m'.(mem := m.mem), offset, 3);
    Written(base, code, m'.(mem := m.mem), address, m.l, offset + 3);
    Written(base, code, m'.(mem := m.mem[address := m.l]), Word16(address + 1), m.h, offset + 3);
  }

  /** LD (address),A outside the code. */
  lemma StoreATo(base: Word, code: seq<Byte>, m: Machine, offset: nat, address: Word) returns (m': Machine)
    requires On(base, code, m, offset) && offset + 3 <= |code| && code[offset] == 0x32
    requires Pair(code[offset + 2], code[offset + 1]) == address && OutsideCode(base, |code|, address)
    ensures Step(m) == Some(m') && On(base, code, m', offset + 3)
    ensures m' == m.(mem := m.mem[address := m.a], pc := m'.pc)
  {
    hide On, Word16, Fetch, OutsideCode;
    CodeByte(base, code, m, offset, 0);
    CodeByte(base, code, m, offset, 1);
    CodeByte(base, code, m, offset, 2);
    m' := Step(m).value;
    Moved(base, code, m, m'.(mem := m.mem), offset, 3);
    Written(base, code, m'.(mem := m.mem), address, m.a, offset + 3);
  }

  lemma Written(base: Word, code: seq<Byte>, m: Machine, address: Word, value: Byte, offset: nat)
    requires On(base, code, m, offset) && OutsideCode(base, |code|, address)
    ensures On(base, code, m.(mem := m.mem[address := value]), offset)
  {
    LaidElsewhere(base, code, m.mem, address, value);
  }

  lemma {:induction false} LaidElsewhere(base: Word, code: seq<Byte>, mem: Memory, address: Word, value: Byte)
    requires Laid(base, code, mem) && OutsideCode(base, |code|, address)
    ensures Laid(base, code, mem[address := value])
    decreases |code|
  {
    hide Place;
    if code != [] {
      LaidElsewhere(base, code[..|code| - 1], mem, address, value);
    }
  }

  /** One byte of a subtraction: the carry is the borrow. */
  lemma Borrow(x: Byte, y: Byte, c: Flag)
    ensures Lo(x - y - c) == x - y - c + 0x100 * BitOf(x - y - c, 0x100)
    ensures BitOf(x - y - c, 0x100) == 1 <==> x - y - c < 0
  {
  }

  /** SUB r and SBC A,r: the carry is the borrow into the next byte. */
  lemma Subtract(base: Word, code: seq<Byte>, m: Machine, offset: nat) returns (m': Machine)
    requires On(base, code, m, offset) && offset < |code| && 0x90 <= code[offset] < 0xA0
    ensures Step(m) == Some(m') && On(base, code, m', offset + 1)
    ensures m' == m.(a := m'.a, flags := m'.flags, pc := m'.pc)
    ensures var borrow := if code[offset] < 0x98 then 0 else m.flags.C;
            m'.a == m.a - Operand(m, code[offset] % 8) - borrow + 0x100 * m'.flags.C
  {
    hide On, Step, Word16, Lo, BitOf, Operand;
    m' := Operate(base, code, m, offset);
    Borrow(m.a, Operand(m, code[offset] % 8), if code[offset] < 0x98 then 0 else m.flags.C);
  }

  // ---- REPORT_STOPPED, up to its zero test ----

  /** The assembled bytes in five parts, for the addresses of the variables and of .TOO_SHORT. */
  function FetchCode(stop: Word, start: Word): (code: seq<Byte>)
    ensures |code| == 11
  {
    var stop2 := Word16(stop + 2);
    [0x2A, Lo(stop), Hi(stop), 0x3A, Lo(stop2), Hi(stop2), 0x47, 0xED, 0x5B, Lo(start), Hi(start)]
  }

  function SubtractCode(start: Word): (code: seq<Byte>)
    ensures |code| == 13
  {
    var start2 := Word16(start + 2);
    [0x7D, 0x93, 0x6F, 0x7C, 0x9A, 0x67, 0x3A, Lo(start2), Hi(start2), 0x5F, 0x78, 0x9B, 0x47]
  }

  const DAY_CODE: seq<Byte> := [0x30, 8, 0x11, 0x80, 0x51, 0x19, 0x78, 0xCE, 1, 0x47]

  function ReportCode(elapsed: Word, tooShort: Word): (code: seq<Byte>)
    ensures |code| == 12
  {
    var elapsed2 := Word16(elapsed + 2);
    [0x22, Lo(elapsed), Hi(elapsed), 0x78, 0x32, Lo(elapsed2), Hi(elapsed2), 0xB4, 0xB5,
     0xCA, Lo(tooShort), Hi(tooShort)]
  }

  function Number24(low: Byte, middle: Byte, high: Byte): nat {
    low + 0x100 * middle + 0x1_0000 * high
  }

  /** A 24-bit little-endian number in memory. */
  function Time(mem: Memory, address: Word): nat {
    Number24(mem[address], mem[Word16(address + 1)], mem[Word16(address + 2)])
  }

  function Bhl(m: Machine): nat {
    Number24(m.l, m.h, m.b)
  }

  /** LD HL,(STOP_TIME) / LD A,(STOP_TIME+2) / LD B,A / LD DE,(UTIL_TPUT_START). */
  lemma FetchTimes(base: Word, m: Machine, stop: Word, start: Word) returns (m': Machine)
    requires On(base, FetchCode(stop, start), m, 0)
    ensures Reaches(m, 4, m') && m'.pc == Word16(base + 11) && m'.mem == m.mem
    ensures Bhl(m') == Time(m.mem, stop) && m'.e == m.mem[start] && m'.d == m.mem[Word16(start + 1)]
  {
    hide Laid, Step, Reaches, Word16, Lo, Hi, Pair;
    var code := FetchCode(stop, start);
    HiLoOf(stop);
    HiLoOf(Word16(stop + 2));
    HiLoOf(start);
    var m1 := LoadHlFrom(base, code, m, 0, stop);
    var m2 := LoadAFrom(base, code, m1, 3, Word16(stop + 2));
    var m3 := Load(base, code, m2, 6);
    m' := LoadDeFrom(base, code, m3, 7, start);
    NoSteps(m');
    Next(m3, m', 0, m');
    Next(m2, m3, 1, m');
    Next(m1, m2, 2, m');
    Next(m, m1, 3, m');
  }

  /** LD A,L / SUB E / LD L,A. */
  lemma SubtractLow(base: Word, m: Machine, start: Word) returns (m': Machine)
    requires On(base, SubtractCode(start), m, 0)
    ensures Reaches(m, 3, m') && On(base, SubtractCode(start), m', 3)
    ensures m' == m.(a := m'.a, l := m'.l, flags := m'.flags, pc := m'.pc)
    ensures m'.l == m.l - m.e + 0x100 * m'.flags.C
  {
    hide Laid, Step, Reaches, Word16, Lo, Hi, Pair;
    var code := SubtractCode(start);
    var m1 := Load(base, code, m, 0);
    var m2 := Subtract(base, code, m1, 1);
    m' := Load(base, code, m2, 2);
    NoSteps(m');
    Next(m2, m', 0, m');
    Next(m1, m2, 1, m');
    Next(m, m1, 2, m');
  }

  /** LD A,H / SBC A,D / LD H,A. */
  lemma SubtractMiddle(base: Word, m: Machine, start: Word) returns (m': Machine)
    requires On(base, SubtractCode(start), m, 3)
    ensures Reaches(m, 3, m') && On(base, SubtractCode(start), m', 6)
    ensures m' == m.(a := m'.a, h := m'.h, flags := m'.flags, pc := m'.pc)
    ensures m'.h == m.h - m.d - m.flags.C + 0x100 * m'.flags.C
  {
    hide Laid, Step, Reaches, Word16, Lo, Hi, Pair;
    var code := SubtractCode(start);
    var m1 := Load(base, code, m, 3);
    var m2 := Subtract(base, code, m1, 4);
    m' := Load(base, code, m2, 5);
    NoSteps(m');
    Next(m2, m', 0, m');
    Next(m1, m2, 1, m');
    Next(m, m1, 2, m');
  }

  /** LD A,(UTIL_TPUT_START+2) / LD E,A / LD A,B / SBC A,E / LD B,A. */
  lemma SubtractHigh(base: Word, m: Machine, start: Word) returns (m': Machine)
    requires On(base, SubtractCode(start), m, 6)
    ensures Reaches(m, 5, m') && m'.pc == Word16(base + 13)
    ensures m' == m.(a := m'.a, b := m'.b, e := m'.e, flags := m'.flags, pc := m'.pc)
    ensures m'.b == m.b - m.mem[Word16(start + 2)] - m.flags.C + 0x100 * m'.flags.C
  {
    hide Laid, Step, Reaches, Word16, Lo, Hi, Pair;
    var code, start2 := SubtractCode(start), Word16(start + 2);
    HiLoOf(start2);
    var m1 := LoadAFrom(base, code, m, 6, start2);
    var m2 := Load(base, code, m1, 9);
    var m3 := Load(base, code, m2, 10);
    var m4 := Subtract(base, code, m3, 11);
    m' := Load(base, code, m4, 12);
    NoSteps(m');
    Next(m4, m', 0, m');
    Next(m3, m4, 1, m');
    Next(m2, m3, 2, m');
    Next(m1, m2, 3, m');
    Next(m, m1, 4, m');
  }

  lemma SumOf(x: Word, y: Word)
    ensures Lo(x + y) + 0x100 * Hi(x + y) == x + y - SIZE * BitOf(x + y, SIZE)
  {
  }

  /** LD DE,0x5180 / ADD HL,DE / LD A,B / ADC A,1 / LD B,A adds a day of seconds, modulo 2^24. */
  lemma AddDay(base: Word, m: Machine) returns (m': Machine)
    requires On(base, DAY_CODE, m, 2)
    ensures Reaches(m, 5, m') && m'.pc == Word16(base + 10) && m'.mem == m.mem
    ensures Bhl(m') == (Bhl(m) + DAY) % 0x100_0000
  {
    hide Laid, Step, Reaches, Word16, Lo, Hi, Number24, DoHlAdd, DoAdc;
    var m1 := LoadDe(base, DAY_CODE, m, 2);
    var m2 := AddHlDe(base, DAY_CODE, m1, 5);
    var m3 := Load(base, DAY_CODE, m2, 6);
    var m4 := AdcConstant(base, DAY_CODE, m3, 7);
    m' := Load(base, DAY_CODE, m4, 9);
    HlSum(m1, 0x5180);
    AdcSum(m3, 1);
    DaySum(m.l, m.h, m.b, m'.l, m'.h, m'.b, m2.flags.C);
    NoSteps(m');
    Next(m4, m', 0, m');
    Next(m3, m4, 1, m');
    Next(m2, m3, 2, m');
    Next(m1, m2, 3, m');
    Next(m, m1, 4, m');
  }

  lemma DaySum(l: Byte, h: Byte, b: Byte, l': Byte, h': Byte, b': Byte, c: Flag)
    requires l' + 0x100 * h' == Pair(h, l) + 0x5180 - SIZE * c && (b' == b + 1 + c || b' == b + 1 + c - 0x100)
    ensures Number24(l', h', b') == (Number24(l, h, b) + DAY) % 0x100_0000
  {
    if b' == b + 1 + c {
      Modulo24(Number24(l, h, b) + DAY, Number24(l', h', b'), 0);
    } else {
      Modulo24(Number24(l, h, b) + DAY, Number24(l', h', b'), 1);
    }
  }

  lemma Modulo24(sum: nat, rest: nat, turns: nat)
    requires rest < 0x100_0000 && sum == rest + turns * 0x100_0000
    ensures sum % 0x100_0000 == rest
  {
  }

  lemma HlSum(m: Machine, operand: Word)
    ensures var m' := DoHlAdd(m, operand);
            && m' == m.(h := m'.h, l := m'.l, flags := m'.flags)
            && m'.l + 0x100 * m'.h == Pair(m.h, m.l) + operand - SIZE * m'.flags.C
  {
    hide Lo, Hi, BitOf, Pair;
    SumOf(Pair(m.h, m.l), operand);
  }

  lemma AdcSum(m: Machine, operand: Byte)
    ensures var m' := DoAdc(m, operand);
            && m' == m.(a := m'.a, flags := m'.flags)
            && (m'.a == m.a + operand + m.flags.C || m'.a == m.a + operand + m.flags.C - 0x100)
  {
    hide XY, SumFlags;
  }

  /** The bytes the elapsed time is stored in, none of them part of the code. */
  ghost predicate ElapsedOutside(base: Word, code: seq<Byte>, elapsed: Word) {
    && OutsideCode(base, |code|, elapsed) && OutsideCode(base, |code|, Word16(elapsed + 1))
    && OutsideCode(base, |code|, Word16(elapsed + 2))
  }

  /** LD (STOP_ELAPSED),HL / LD A,B / LD (STOP_ELAPSED+2),A / OR H / OR L / JP Z,.TOO_SHORT. */
  lemma Report(base: Word, m: Machine, elapsed: Word, tooShort: Word) returns (m': Machine)
    requires On(base, ReportCode(elapsed, tooShort), m, 0)
    requires ElapsedOutside(base, ReportCode(elapsed, tooShort), elapsed)
    ensures Reaches(m, 6, m')
    ensures m'.mem == WriteWord(m.mem, elapsed, m.h, m.l)[Word16(elapsed + 2) := m.b]
    ensures m'.pc == if Bhl(m) == 0 then tooShort else Word16(base + 12)
  {
    hide Laid, Step, Reaches, Word16, Lo, Hi, Pair, LogicByte, Parity, XY, BitOf, OutsideCode;
    var code, elapsed2 := ReportCode(elapsed, tooShort), Word16(elapsed + 2);
    HiLoOf(elapsed);
    HiLoOf(elapsed2);
    HiLoOf(tooShort);
    var m1 := StoreHlTo(base, code, m, 0, elapsed);
    var m2 := Load(base, code, m1, 3);
    var m3 := StoreATo(base, code, m2, 4, elapsed2);
    var m4, m5 := OrOr(base, code, m3, 7);
    m' := JumpZero(base, code, m5, 9, tooShort);
    NoSteps(m');
    Next(m5, m', 0, m');
    Next(m4, m5, 1, m');
    Next(m3, m4, 2, m');
    Next(m2, m3, 3, m');
    Next(m1, m2, 4, m');
    Next(m, m1, 5, m');
  }

  /** OR H / OR L sets Z exactly if A, H and L are all 0. */
  lemma OrOr(base: Word, code: seq<Byte>, m: Machine, offset: nat) returns (m1: Machine, m2: Machine)
    requires On(base, code, m, offset) && offset + 2 <= |code| && code[offset] == 0xB4 && code[offset + 1] == 0xB5
    ensures Step(m) == Some(m1) && Step(m1) == Some(m2) && On(base, code, m2, offset + 2) && m2.mem == m.mem
    ensures m2.flags.Z == 1 <==> m.a == 0 && m.h == 0 && m.l == 0
  {
    hide On, Step, Word16, LogicByte, Parity, BitOf;
    m1 := Operate(base, code, m, offset);
    m2 := Operate(base, code, m1, offset + 1);
    OrByteIsZero(m.a, m.h);
    OrByteIsZero(m1.a, m.l);
  }

  // ---- the whole of it ----

  /** The code of the routine at `base`. */
  ghost predicate Assembled(base: Word, mem: Memory, stop: Word, start: Word, elapsed: Word, tooShort: Word) {
    && Laid(base, FetchCode(stop, start), mem)
    && Laid(Place(base, 11), SubtractCode(start), mem)
    && Laid(Place(base, 24), DAY_CODE, mem)
    && Laid(Place(base, 34), ReportCode(elapsed, tooShort), mem)
    && ElapsedOutside(Place(base, 34), ReportCode(elapsed, tooShort), elapsed)
  }

  lemma Places(base: Word)
    ensures Word16(Place(base, 11) + 13) == Place(base, 24) && Word16(Place(base, 24) + 10) == Place(base, 34)
    ensures Word16(Place(base, 34) + 12) == Place(base, 46) && Word16(base + 11) == Place(base, 11)
    ensures forall k: nat :: Word16(Place(base, k) + 0) == Place(base, k)
  {
  }

  /** From the fetched times to the carry of their difference. */
  lemma Difference(base: Word, m: Machine, start: Word) returns (m': Machine)
    requires On(base, SubtractCode(start), m, 0)
    requires m.e == m.mem[start] && m.d == m.mem[Word16(start + 1)]
    ensures Reaches(m, 11, m') && m'.pc == Word16(base + 13) && m'.mem == m.mem
    ensures Bhl(m') == Bhl(m) - Time(m.mem, start) + 0x100_0000 * m'.flags.C
    ensures m'.flags.C == 1 <==> Bhl(m) < Time(m.mem, start)
  {
    hide On, Reaches, SubtractCode, Word16;
    var m1 := SubtractLow(base, m, start);
    var m2 := SubtractMiddle(base, m1, start);
    m' := SubtractHigh(base, m2, start);
    Join(m1, 3, m2, 5, m');
    Join(m, 3, m1, 8, m');
  }

  /** JR NC over the day's correction, and the correction where there was a borrow. */
  lemma Correct(base: Word, m: Machine, was: int) returns (m': Machine, n: nat)
    requires On(base, DAY_CODE, m, 0)
    requires -DAY < was < DAY && Bhl(m) == was + 0x100_0000 * m.flags.C && (m.flags.C == 1 <==> was < 0)
    ensures Reaches(m, n, m') && m'.pc == Word16(base + 10) && m'.mem == m.mem && n == if was < 0 then 6 else 1
    ensures Bhl(m') == if was < 0 then was + DAY else was
  {
    hide Laid, Reaches, Step, Word16;
    var m1 := JumpNoCarry(base, DAY_CODE, m, 0, 8);
    if m.flags.C == 0 {
      m', n := m1, 1;
      NoSteps(m1);
      Next(m, m1, 0, m1);
    } else {
      m' := AddDay(base, m1);
      n := 6;
      Next(m, m1, 5, m');
    }
  }

  lemma ModuloDay(was: int)
    requires -DAY < was < DAY
    ensures was % DAY == if was < 0 then was + DAY else was
  {
  }

  lemma StoredTime(mem: Memory, elapsed: Word, h: Byte, l: Byte, b: Byte)
    ensures Time(WriteWord(mem, elapsed, h, l)[Word16(elapsed + 2) := b], elapsed) == Number24(l, h, b)
  {
  }

  /**
   For all times of day the routine stores the elapsed seconds modulo a day in 24 bits, changes no
   other byte, and goes to .TOO_SHORT exactly if they are 0.
   */
  lemma ElapsedTime(base: Word, m: Machine, stop: Word, start: Word, elapsed: Word, tooShort: Word)
    returns (m': Machine, n: nat)
    requires m.pc == base && Assembled(base, m.mem, stop, start, elapsed, tooShort)
    requires Time(m.mem, stop) < DAY && Time(m.mem, start) < DAY
    ensures Reaches(m, n, m') && n == if Time(m.mem, stop) < Time(m.mem, start) then 27 else 22
    ensures Time(m'.mem, elapsed) == (Time(m.mem, stop) - Time(m.mem, start)) % DAY
    ensures m'.pc == if Time(m.mem, stop) == Time(m.mem, start) then tooShort else Place(base, 46)
    ensures forall k: Word :: k != elapsed && k != Word16(elapsed + 1) && k != Word16(elapsed + 2) ==>
              m'.mem[k] == m.mem[k]
  {
    hide Laid, Reaches, Word16, FetchCode, SubtractCode, ReportCode, ElapsedOutside, Time;
    Places(base);
    Advance(base, 0, 0);
    var was := Time(m.mem, stop) - Time(m.mem, start);
    var m1 := FetchTimes(base, m, stop, start);
    var m2 := Difference(Place(base, 11), m1, start);
    var m3, k := Correct(Place(base, 24), m2, was);
    m' := Report(Place(base, 34), m3, elapsed, tooShort);
    ModuloDay(was);
    StoredTime(m.mem, elapsed, m3.h, m3.l, m3.b);
    n := 4 + (11 + (k + 6));
    Join(m2, k, m3, 6, m');
    Join(m1, 11, m2, k + 6, m');
    Join(m, 4, m1, 11 + (k + 6), m');
  }

  /** Whatever machine the interpreter reaches after that many instructions has the elapsed time stored. */
  lemma ElapsedTimeAlways(base: Word, m: Machine, stop: Word, start: Word, elapsed: Word, tooShort: Word, end: Machine)
    requires m.pc == base && Assembled(base, m.mem, stop, start, elapsed, tooShort)
    requires Time(m.mem, stop) < DAY && Time(m.mem, start) < DAY
    requires Reaches(m, if Time(m.mem, stop) < Time(m.mem, start) then 27 else 22, end)
    ensures Time(end.mem, elapsed) == (Time(m.mem, stop) - Time(m.mem, start)) % DAY
    ensures end.pc == if Time(m.mem, stop) == Time(m.mem, start) then tooShort else Place(base, 46)
  {
    hide Assembled, Reaches, Time;
    var m', n := ElapsedTime(base, m, stop, start, elapsed, tooShort);
    ReachesOnlyOne(m, n, end, m');
  }
}
