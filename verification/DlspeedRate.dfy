/** DLSPEED's choice between bytes and KiB a second, and its shifts, on the interpreter. */
module DlspeedRate {
  import opened Bytes
  import opened Z80
  import opened DlspeedClock

  /** The 32-bit little-endian rate the division left in memory. */
  function Rate(mem: Memory, address: Word): nat {
    Number32(Number24(mem[address], mem[Word16(address + 1)], mem[Word16(address + 2)]), mem[Word16(address + 3)])
  }

  function Number32(low: nat, top: Byte): nat {
    low + 0x100_0000 * top
  }

  /** The three tests of the rate's upper bytes; .KIB is 37 bytes after the first of them. */
  function TestCode(rate: Word): (code: seq<Byte>)
    ensures |code| == 19
  {
    var rate1, rate2, rate3 := Word16(rate + 1), Word16(rate + 2), Word16(rate + 3);
    [0x3A, Lo(rate3), Hi(rate3), 0xB7, 0x20, 31, 0x3A, Lo(rate2), Hi(rate2), 0xB7, 0x20, 25,
     0x3A, Lo(rate1), Hi(rate1), 0xFE, 4, 0x30, 18]
  }

  /** LD HL,(rate) / LD DE,(rate+2) and the move by one byte. */
  function MoveCode(rate: Word): (code: seq<Byte>)
    ensures |code| == 12
  {
    var rate2 := Word16(rate + 2);
    [0x2A, Lo(rate), Hi(rate), 0xED, 0x5B, Lo(rate2), Hi(rate2), 0x6C, 0x63, 0x5A, 0x16, 0]
  }

  /** SRL E / RR H / RR L. */
  const SHIFT_CODE: seq<Byte> := [0xCB, 0x3B, 0xCB, 0x1C, 0xCB, 0x1D]

  // ---- the tests ----

  /** JR NZ over `skip` bytes. */
  lemma JumpNotZero(base: Word, code: seq<Byte>, m: Machine, offset: nat, skip: nat) returns (m': Machine)
    requires On(base, code, m, offset) && offset + 2 <= |code| && code[offset] == 0x20
    requires code[offset + 1] == skip && skip < 0x80
    ensures Step(m) == Some(m') && m' == m.(pc := m'.pc)
    ensures On(base, code, m', offset + if m.flags.Z == 0 then 2 + skip else 2)
  {
    hide On, Word16, Fetch;
    CodeByte(base, code, m, offset, 0);
    CodeByte(base, code, m, offset, 1);
    m' := Step(m).value;
    Moved(base, code, m, m', offset, if m.flags.Z == 0 then 2 + skip else 2);
  }

  /** CP n leaves a carry exactly if A is less. */
  lemma Compare(base: Word, code: seq<Byte>, m: Machine, offset: nat) returns (m': Machine)
    requires On(base, code, m, offset) && offset + 2 <= |code| && code[offset] == 0xFE
    ensures Step(m) == Some(m') && On(base, code, m', offset + 2) && m' == m.(flags := m'.flags, pc := m'.pc)
    ensures m'.flags.C == 1 <==> m.a < code[offset + 1]
  {
    hide On, Word16, Fetch, Lo, BitOf;
    CodeByte(base, code, m, offset, 0);
    CodeByte(base, code, m, offset, 1);
    m' := Step(m).value;
    Moved(base, code, m, m', offset, 2);
    Borrow(m.a, code[offset + 1], 0);
  }

  /** LD A,(address) / OR A / JR NZ: jumps exactly if the byte is not 0. */
  lemma TestByte(base: Word, code: seq<Byte>, m: Machine, offset: nat, address: Word, skip: nat) returns (m': Machine)
    requires On(base, code, m, offset) && offset + 6 <= |code| && code[offset] == 0x3A
    requires Pair(code[offset + 2], code[offset + 1]) == address && code[offset + 3] == 0xB7
    requires code[offset + 4] == 0x20 && code[offset + 5] == skip && skip < 0x80
    ensures Reaches(m, 3, m') && m'.mem == m.mem
    ensures On(base, code, m', offset + if m.mem[address] != 0 then 6 + skip else 6)
  {
    hide On, Step, Reaches, Word16, Pair, LogicByte, Parity, BitOf;
    var m1 := LoadAFrom(base, code, m, offset, address);
    var m2 := Operate(base, code, m1, offset + 3);
    OrByteIsZero(m1.a, m1.a);
    m' := JumpNotZero(base, code, m2, offset + 4, skip);
    NoSteps(m');
    Next(m2, m', 0, m');
    Next(m1, m2, 1, m');
    Next(m, m1, 2, m');
  }

  /** LD A,(address) / CP 4 / JR NC. */
  lemma TestLow(base: Word, m: Machine, rate: Word) returns (m': Machine)
    requires On(base, TestCode(rate), m, 12)
    ensures Reaches(m, 3, m') && m'.mem == m.mem
    ensures On(base, TestCode(rate), m', if m.mem[Word16(rate + 1)] >= 4 then 37 else 19)
  {
    hide Laid, Step, Reaches, Word16, Pair, Lo, Hi;
    var code := TestCode(rate);
    HiLoOf(Word16(rate + 1));
    var m1 := LoadAFrom(base, code, m, 12, Word16(rate + 1));
    var m2 := Compare(base, code, m1, 15);
    m' := JumpNoCarry(base, code, m2, 17, 18);
    NoSteps(m');
    Next(m2, m', 0, m');
    Next(m1, m2, 1, m');
    Next(m, m1, 2, m');
  }

  lemma FirstTests(base: Word, m: Machine, rate: Word) returns (m': Machine, n: nat)
    requires On(base, TestCode(rate), m, 0)
    ensures Reaches(m, n, m') && m'.mem == m.mem
    ensures On(base, TestCode(rate), m',
               if m.mem[Word16(rate + 3)] != 0 || m.mem[Word16(rate + 2)] != 0 then 37 else 12)
  {
    hide Laid, Reaches, Word16, Pair, Lo, Hi;
    var code := TestCode(rate);
    HiLoOf(Word16(rate + 3));
    HiLoOf(Word16(rate + 2));
    m' := TestByte(base, code, m, 0, Word16(rate + 3), 31);
    n := 3;
    if m.mem[Word16(rate + 3)] == 0 {
      var m1 := m';
      m' := TestByte(base, code, m1, 6, Word16(rate + 2), 25);
      n := 6;
      Join(m, 3, m1, 3, m');
    }
  }

  /** The rate is printed in KiB exactly if there is at least one. */
  lemma KibFrom1024(base: Word, m: Machine, rate: Word) returns (m': Machine, n: nat)
    requires On(base, TestCode(rate), m, 0)
    ensures Reaches(m, n, m') && m'.mem == m.mem
    ensures m'.pc == if Rate(m.mem, rate) >= 1024 then Place(base, 37) else Place(base, 19)
  {
    hide Reaches, TestCode, Laid, Rate, Word16;
    RateTest(m.mem, rate);
    m', n := FirstTests(base, m, rate);
    if m.mem[Word16(rate + 3)] == 0 && m.mem[Word16(rate + 2)] == 0 {
      var m1 := m';
      m' := TestLow(base, m1, rate);
      Join(m, n, m1, 3, m');
      n := n + 3;
    }
  }

  lemma RateTest(mem: Memory, rate: Word)
    ensures Rate(mem, rate) >= 1024 <==>
              mem[Word16(rate + 3)] != 0 || mem[Word16(rate + 2)] != 0 || mem[Word16(rate + 1)] >= 4
  {
    hide Word16;
  }

  // ---- the shifts ----

  /** SRL r or RR r. */
  lemma Shift(base: Word, code: seq<Byte>, m: Machine, offset: nat) returns (m': Machine)
    requires On(base, code, m, offset) && offset + 2 <= |code| && code[offset] == 0xCB
    requires 0x18 <= code[offset + 1] < 0x20 || 0x38 <= code[offset + 1] < 0x40
    requires code[offset + 1] % 8 != 6
    ensures Step(m) == Some(m') && On(base, code, m', offset + 2)
    ensures var operand, into := Operand(m, code[offset + 1] % 8), if code[offset + 1] < 0x20 then m.flags.C else 0;
            && m' == WithRegister(m, code[offset + 1] % 8, operand / 2 + 0x80 * into).(flags := m'.flags, pc := m'.pc)
            && m'.flags.C == operand % 2
  {
    hide On, Word16, Fetch, Operand, Parity, BitOf;
    CodeByte(base, code, m, offset, 0);
    CodeByte(base, code, m, offset, 1);
    m' := Step(m).value;
    Moved(base, code, m, m', offset, 2);
  }

  function Ehl(m: Machine): nat {
    Number24(m.l, m.h, m.e)
  }

  lemma Halved(l: Byte, h: Byte, e: Byte)
    ensures Number24(l / 2 + 0x80 * (h % 2), h / 2 + 0x80 * (e % 2), e / 2) == Number24(l, h, e) / 2
  {
    assert l == 2 * (l / 2) + l % 2 && h == 2 * (h / 2) + h % 2 && e == 2 * (e / 2) + e % 2;
  }

  /** SRL E / RR H / RR L halves E:H:L. */
  lemma Halve(base: Word, m: Machine) returns (m': Machine)
    requires On(base, SHIFT_CODE, m, 0)
    ensures Reaches(m, 3, m') && m'.pc == Word16(base + 6)
    ensures Ehl(m') == Ehl(m) / 2 && m'.d == m.d && m'.mem == m.mem
  {
    hide Laid, Step, Reaches, Word16, Number24;
    var m1 := Shift(base, SHIFT_CODE, m, 0);
    var m2 := Shift(base, SHIFT_CODE, m1, 2);
    m' := Shift(base, SHIFT_CODE, m2, 4);
    Halved(m.l, m.h, m.e);
    NoSteps(m');
    Next(m2, m', 0, m');
    Next(m1, m2, 1, m');
    Next(m, m1, 2, m');
  }

  /** LD D,n. */
  lemma LoadD(base: Word, code: seq<Byte>, m: Machine, offset: nat) returns (m': Machine)
    requires On(base, code, m, offset) && offset + 2 <= |code| && code[offset] == 0x16
    ensures Step(m) == Some(m') && On(base, code, m', offset + 2) && m' == m.(d := code[offset + 1]).(pc := m'.pc)
  {
    hide On, Word16, Fetch;
    CodeByte(base, code, m, offset, 0);
    CodeByte(base, code, m, offset, 1);
    m' := Step(m).value;
    Moved(base, code, m, m', offset, 2);
  }

  /** The move by one byte drops the low byte of the rate. */
  lemma MoveByte(base: Word, m: Machine, rate: Word) returns (m': Machine)
    requires On(base, MoveCode(rate), m, 0)
    ensures Reaches(m, 6, m') && m'.pc == Word16(base + 12) && m'.mem == m.mem
    ensures m'.l == m.mem[Word16(rate + 1)] && m'.h == m.mem[Word16(rate + 2)] && m'.e == m.mem[Word16(rate + 3)]
    ensures m'.d == 0
  {
    hide Laid, Step, Reaches, Word16, Pair, Lo, Hi;
    var code, rate2 := MoveCode(rate), Word16(rate + 2);
    HiLoOf(rate);
    HiLoOf(rate2);
    Advance(rate, 2, 1);
    var m1 := LoadHlFrom(base, code, m, 0, rate);
    var m2 := LoadDeFrom(base, code, m1, 3, rate2);
    var m3 := Load(base, code, m2, 7);
    var m4 := Load(base, code, m3, 8);
    var m5 := Load(base, code, m4, 9);
    m' := LoadD(base, code, m5, 10);
    NoSteps(m');
    Next(m5, m', 0, m');
    Next(m4, m5, 1, m');
    Next(m3, m4, 2, m');
    Next(m2, m3, 3, m');
    Next(m1, m2, 4, m');
    Next(m, m1, 5, m');
  }

  lemma Quarter(low: Byte, rest: nat)
    ensures rest / 2 / 2 == (0x100 * rest + low) / 1024
  {
    var q, r := rest / 4, rest % 4;
    assert rest / 2 == 2 * q + r / 2;
    assert 0x100 * rest + low == 1024 * q + (0x100 * r + low);
  }

  lemma RateIs(mem: Memory, rate: Word)
    ensures Rate(mem, rate) ==
            0x100 * Number24(mem[Word16(rate + 1)], mem[Word16(rate + 2)], mem[Word16(rate + 3)]) + mem[rate]
  {
  }

  /** The move and the shifts leave the rate divided by 1024, rounded down, in DE:HL. */
  lemma KibIsRateOver1024(base: Word, m: Machine, rate: Word) returns (m': Machine)
    requires On(base, MoveCode(rate), m, 0)
    requires Laid(Place(base, 12), SHIFT_CODE, m.mem) && Laid(Place(base, 18), SHIFT_CODE, m.mem)
    ensures Reaches(m, 12, m') && m'.mem == m.mem && m'.pc == Place(base, 24)
    ensures m'.d == 0 && Ehl(m') == Rate(m.mem, rate) / 1024
  {
    hide Laid, Reaches, MoveCode, Word16, Number24, Rate;
    Advance(base, 12, 6);
    Advance(base, 18, 6);
    Advance(Place(base, 12), 0, 0);
    Advance(Place(base, 18), 0, 0);
    var m1 := MoveByte(base, m, rate);
    var m2 := Halve(Place(base, 12), m1);
    m' := Halve(Place(base, 18), m2);
    RateIs(m.mem, rate);
    Quarter(m.mem[rate], Ehl(m1));
    Join(m1, 3, m2, 3, m');
    Join(m, 6, m1, 6, m');
  }
}
