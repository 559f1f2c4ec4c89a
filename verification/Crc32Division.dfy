/**
 Which CRC it is: the complemented remainder of long division over GF(2) by
 x^32 + x^26 + x^23 + x^22 + x^16 + x^12 + x^11 + x^10 + x^8 + x^7 + x^5 + x^4 + x^2 + x + 1.
 */
module Crc32Division {
  import opened Crc32

  // ---- polynomials, the highest coefficient first ----

  /** The generator has the term x^k. */
  predicate Generator(k: nat) {
    k in {32, 26, 23, 22, 16, 12, 11, 10, 8, 7, 5, 4, 2, 1, 0}
  }

  /** The dividend less the generator under its leading term, which goes away. */
  function Subtracted(bits: seq<bool>): (r: seq<bool>)
    requires |bits| > 32 && bits[0]
    ensures |r| == |bits| - 1
  {
    seq(|bits| - 1, i requires 0 <= i < |bits| - 1 => if i < 32 then bits[i + 1] != Generator(31 - i) else bits[i + 1])
  }

  /** Long division down to less than degree 32. */
  function Remainder(bits: seq<bool>): seq<bool>
    decreases |bits|
  {
    if |bits| <= 32 then bits
    else Remainder(if bits[0] then Subtracted(bits) else bits[1..])
  }

  function Zeros(n: nat): seq<bool> {
    seq(n, _ => false)
  }

  /** `front` is added to the leading coefficients. */
  function Plus(bits: seq<bool>, front: seq<bool>): (r: seq<bool>)
    requires |front| <= |bits|
    ensures |r| == |bits|
  {
    seq(|bits|, i requires 0 <= i < |bits| => if i < |front| then bits[i] != front[i] else bits[i])
  }

  function Complement(bits: seq<bool>): (r: seq<bool>)
    ensures |r| == |bits|
  {
    seq(|bits|, i requires 0 <= i < |bits| => !bits[i])
  }

  // ---- words and messages as polynomials, lowest bit first ----

  function Bits(w: bv32, n: nat): (r: seq<bool>)
    ensures |r| == n
    decreases n
  {
    if n == 0 then [] else [Odd(w)] + Bits(Half(w), n - 1)
  }

  function Register(w: bv32): (r: seq<bool>)
    ensures |r| == 32
  {
    Bits(w, 32)
  }

  function Message(bytes: seq<bv8>): (r: seq<bool>)
    ensures |r| == 8 * |bytes|
    decreases |bytes|
  {
    if bytes == [] then [] else Bits(Wide(bytes[0]), 8) + Message(bytes[1..])
  }

  function Halved(w: bv32, n: nat): bv32
    decreases n
  {
    if n == 0 then w else Halved(Half(w), n - 1)
  }

  lemma {:induction false} BitsSplit(w: bv32, n: nat, k: nat)
    ensures Bits(w, n + k) == Bits(w, n) + Bits(Halved(w, n), k)
    decreases n
  {
    hide Odd, Half;
    if n > 0 {
      BitsSplit(Half(w), n - 1, k);
    }
  }

  lemma {:induction false} BitsOfXor(x: bv32, y: bv32, n: nat)
    ensures Bits(Xor(x, y), n) == Plus(Bits(x, n), Bits(y, n))
    decreases n
  {
    hide Odd, Half, Xor;
    if n > 0 {
      OddOfXor(x, y);
      HalfOfXor(x, y);
      BitsOfXor(Half(x), Half(y), n - 1);
    }
  }

  lemma {:induction false} BitsOfZero(n: nat)
    ensures Bits(0, n) == Zeros(n)
    decreases n
  {
    if n > 0 {
      BitsOfZero(n - 1);
    }
  }

  lemma {:induction false} HalvedAdds(w: bv32, n: nat, k: nat)
    ensures Halved(w, n + k) == Halved(Halved(w, n), k)
    decreases n
  {
    hide Half;
    if n > 0 {
      HalvedAdds(Half(w), n - 1, k);
    }
  }

  function ByteDown(w: bv32): bv32 {
    w >> 8
  }

  lemma EightHalves(w: bv32)
    ensures Halved(w, 8) == ByteDown(w)
  {
    Unfolded(w);
    HalvesAdd(w);
  }

  lemma Unfolded(w: bv32)
    ensures Halved(w, 8) == Half(Half(Half(Half(Half(Half(Half(Half(w))))))))
  {
    hide Half;
    var w1 := Half(w);
    var w2 := Half(w1);
    var w3 := Half(w2);
    var w4 := Half(w3);
    var w5 := Half(w4);
    assert Halved(w, 8) == Halved(w3, 5);
    assert Halved(w5, 3) == Halved(w3, 5);
  }

  lemma HalvesAdd(w: bv32)
    ensures Half(Half(Half(Half(Half(Half(Half(Half(w)))))))) == ByteDown(w)
  {
  }

  lemma NoByteLeft(w: bv32)
    ensures ByteDown(ByteDown(ByteDown(ByteDown(w)))) == 0
  {
  }

  lemma AllHalved(w: bv32)
    ensures Halved(w, 32) == 0
  {
    hide Halved, ByteDown;
    var w1 := ByteDown(w);
    var w2 := ByteDown(w1);
    var w3 := ByteDown(w2);
    EightHalves(w);
    EightHalves(w1);
    EightHalves(w2);
    EightHalves(w3);
    HalvedAdds(w, 8, 24);
    HalvedAdds(w1, 8, 16);
    HalvedAdds(w2, 8, 8);
    NoByteLeft(w);
  }

  lemma OneBit(w: bv32)
    ensures Bits(w, 1) == [Odd(w)]
  {
    assert Bits(Half(w), 0) == [];
  }

  /** A right shift drops the leading coefficient. */
  lemma RegisterOfHalf(w: bv32)
    ensures Register(Half(w)) == Register(w)[1..] + [false]
  {
    hide Odd, Half, Halved;
    BitsSplit(w, 32, 1);
    AllHalved(w);
    OneBit(0);
    ZeroIsEven();
    assert Bits(w, 33) == [Odd(w)] + Bits(Half(w), 32);
    assert Bits(w, 33)[1..] == Register(w)[1..] + [false];
  }

  lemma ZeroIsEven()
    ensures !Odd(0)
  {
  }

  lemma FirstOfRegister(w: bv32)
    ensures Register(w)[0] == Odd(w)
  {
    hide Odd, Half;
  }

  // ---- the polynomial ----

  lemma EightBits(w: bv32)
    ensures var w4 := Half(Half(Half(Half(w))));
            Bits(w, 8) == [Odd(w), Odd(Half(w)), Odd(Half(Half(w))), Odd(Half(Half(Half(w)))),
                           Odd(w4), Odd(Half(w4)), Odd(Half(Half(w4))), Odd(Half(Half(Half(w4))))]
  {
    hide Odd, Half;
    var w4 := Half(Half(Half(Half(w))));
    FourBits(w);
    FourBits(w4);
    BitsSplit(w, 4, 4);
    assert Halved(w, 4) == Halved(Half(Half(w)), 2) == w4;
  }

  lemma FourBits(w: bv32)
    ensures Bits(w, 4) == [Odd(w), Odd(Half(w)), Odd(Half(Half(w))), Odd(Half(Half(Half(w))))]
  {
    hide Odd, Half;
    OneBit(Half(Half(Half(w))));
    assert Bits(Half(Half(w)), 2) == [Odd(Half(Half(w)))] + Bits(Half(Half(Half(w))), 1);
    assert Bits(Half(w), 3) == [Odd(Half(w))] + Bits(Half(Half(w)), 2);
  }

  lemma FourBytes(w: bv32)
    ensures var w1 := ByteDown(w);
            var w2 := ByteDown(w1);
            Register(w) == Bits(w, 8) + Bits(w1, 8) + Bits(w2, 8) + Bits(ByteDown(w2), 8)
  {
    hide Bits, Halved, ByteDown;
    var w1 := ByteDown(w);
    var w2 := ByteDown(w1);
    EightHalves(w);
    EightHalves(w1);
    EightHalves(w2);
    BitsSplit(w, 8, 24);
    BitsSplit(w1, 8, 16);
    BitsSplit(w2, 8, 8);
  }

  /** The constant of the source is the generator without its leading term. */
  lemma PolynomialIsGenerator()
    ensures forall i :: 0 <= i < 32 ==> Register(POLYNOMIAL)[i] == Generator(31 - i)
  {
    hide Bits, Register;
    FourBytes(POLYNOMIAL);
    EightBits(0xEDB8_8320);
    EightBits(0x00ED_B883);
    EightBits(0x0000_EDB8);
    EightBits(0x0000_00ED);
  }

  // ---- the register divides ----

  /** One turn of the inner loop is one step of the division, with the next coefficients still to be added. */
  lemma StepDivides(crc: bv32, rest: seq<bool>)
    requires |rest| >= 32
    ensures Remainder(Plus([false] + rest, Register(crc))) == Remainder(Plus(rest, Register(BitStep(crc))))
  {
    hide Odd, Half, Xor, Register;
    var dividend := Plus([false] + rest, Register(crc));
    FirstOfRegister(crc);
    RegisterOfStep(crc);
    hide BitStep, Generator;
    var next := Plus(rest, Register(BitStep(crc)));
    if dividend[0] {
      assert Subtracted(dividend) == next;
    } else {
      assert dividend[1..] == next;
    }
  }

  lemma RegisterOfStep(crc: bv32)
    ensures forall i :: 0 <= i < 32 ==>
              Register(BitStep(crc))[i] == ((i < 31 && Register(crc)[i + 1]) != (Odd(crc) && Generator(31 - i)))
  {
    hide Odd, Half, Xor, Bits, Generator;
    RegisterOfHalf(crc);
    assert forall i :: 0 <= i < 32 ==> Register(Half(crc))[i] == (i < 31 && Register(crc)[i + 1]);
    if Odd(crc) {
      BitsOfXor(Half(crc), POLYNOMIAL, 32);
      PolynomialIsGenerator();
      assert Register(BitStep(crc)) == Plus(Register(Half(crc)), Register(POLYNOMIAL));
    } else {
      XorUnit(Half(crc));
    }
  }

  lemma {:induction false} StepsDivide(crc: bv32, rest: seq<bool>, n: nat)
    requires |rest| >= 32
    ensures Remainder(Plus(Zeros(n) + rest, Register(crc))) == Remainder(Plus(rest, Register(BitSteps(crc, n))))
    decreases n
  {
    hide Remainder, Register, BitStep;
    if n == 0 {
      assert Zeros(0) + rest == rest;
    } else {
      assert Zeros(n) + rest == [false] + (Zeros(n - 1) + rest);
      StepDivides(crc, Zeros(n - 1) + rest);
      StepsDivide(BitStep(crc), rest, n - 1);
    }
  }

  /** A byte XORed into the register is its polynomial added to the dividend. */
  lemma ByteIsAdded(crc: bv32, byte: bv8, rest: seq<bool>)
    requires |rest| >= 32
    ensures Plus(Bits(Wide(byte), 8) + rest, Register(crc)) == Plus(Zeros(8) + rest, Register(Xor(crc, Wide(byte))))
  {
    hide Odd, Half, Xor, Wide, Bits;
    BitsOfXor(crc, Wide(byte), 32);
    BitsSplit(Wide(byte), 8, 24);
    EightHalves(Wide(byte));
    OnlyOneByte(byte);
    BitsOfZero(24);
  }

  lemma OnlyOneByte(byte: bv8)
    ensures ByteDown(Wide(byte)) == 0
  {
  }

  lemma {:induction false} RunDivides(crc: bv32, bytes: seq<bv8>)
    ensures Remainder(Plus(Message(bytes) + Zeros(32), Register(crc))) == Register(Run(crc, bytes))
    decreases |bytes|
  {
    hide Remainder, Bits, Xor, Wide, BitSteps;
    if bytes == [] {
      NothingAdded(crc);
    } else {
      var first, rest := Bits(Wide(bytes[0]), 8), Message(bytes[1..]) + Zeros(32);
      assert Message(bytes) + Zeros(32) == first + rest;
      ByteIsAdded(crc, bytes[0], rest);
      StepsDivide(Xor(crc, Wide(bytes[0])), rest, 8);
      RunDivides(Feed(crc, bytes[0]), bytes[1..]);
    }
  }

  lemma NothingAdded(crc: bv32)
    ensures Remainder(Plus(Message([]) + Zeros(32), Register(crc))) == Register(crc)
  {
    assert Plus(Message([]) + Zeros(32), Register(crc)) == Register(crc);
  }

  /**
   The checksum of every message: its bits, lowest first, with the first 32 of them and zeros behind
   complemented, divided; the remainder complemented.
   */
  lemma CrcIsRemainder(bytes: seq<bv8>)
    ensures var dividend := Message(bytes) + Zeros(32);
            Register(Crc(bytes)) == Complement(Remainder(Complement(dividend[..32]) + dividend[32..]))
  {
    hide Remainder, Xor, Bits, Run;
    var dividend := Message(bytes) + Zeros(32);
    RunDivides(ALL_ONES, bytes);
    OnesAreOnes();
    assert Plus(dividend, Register(ALL_ONES)) == Complement(dividend[..32]) + dividend[32..];
    BitsOfXor(Run(ALL_ONES, bytes), ALL_ONES, 32);
    assert Register(Crc(bytes)) == Complement(Register(Run(ALL_ONES, bytes)));
  }

  lemma OnesAreOnes()
    ensures forall i :: 0 <= i < 32 ==> Register(ALL_ONES)[i]
  {
    hide Bits, Register;
    FourBytes(ALL_ONES);
    EightBits(0xFFFF_FFFF);
    EightBits(0x00FF_FFFF);
    EightBits(0x0000_FFFF);
    EightBits(0x0000_00FF);
  }

  // ---- known values ----

  /** The four bytes of a word, the lowest first. */
  function Bytes(w: bv32): (r: seq<bv8>)
    ensures |r| == 4
  {
    [(w & 0xFF) as bv8, ((w >> 8) & 0xFF) as bv8, ((w >> 16) & 0xFF) as bv8, (w >> 24) as bv8]
  }

  lemma WordOfBytes(w: bv32)
    ensures WordOf(Bytes(w)) == w
  {
    hide Above;
    var b := Bytes(w);
    assert b[3..][1..] == [] && b[2..][1..] == b[3..] && b[1..][1..] == b[2..];
    assert WordOf(b[3..]) == Above(b[3], 0);
    assert WordOf(b[2..]) == Above(b[2], WordOf(b[3..]));
    assert WordOf(b[1..]) == Above(b[1], WordOf(b[2..]));
    BytesJoin(w);
  }

  lemma BytesJoin(w: bv32)
    ensures var b := Bytes(w); Above(b[0], Above(b[1], Above(b[2], Above(b[3], 0)))) == w
  {
  }

  /** A message with its checksum behind it leaves the same residue, whatever the message. */
  lemma ResidueIsConstant(bytes: seq<bv8>)
    ensures Run(ALL_ONES, bytes + Bytes(Crc(bytes))) == 0xDEBB_20E3
  {
    hide Run, Xor, Bytes, BitSteps, WordOf;
    var crc := Run(ALL_ONES, bytes);
    RunConcat(ALL_ONES, bytes, Bytes(Crc(bytes)));
    RunOfWord(crc, Bytes(Crc(bytes)));
    WordOfBytes(Crc(bytes));
    XorAssociates(crc, crc, ALL_ONES);
    XorUnit(crc);
    XorUnit(ALL_ONES);
    OnesShiftedOut();
  }

  lemma EightSteps(crc: bv32)
    ensures BitSteps(crc, 8) == BitStep(BitStep(BitStep(BitStep(BitStep(BitStep(BitStep(BitStep(crc))))))))
  {
    hide BitStep;
    var crc4 := BitStep(BitStep(BitStep(BitStep(crc))));
    assert BitSteps(crc, 8) == BitSteps(crc4, 4);
  }

  lemma OnesShiftedOut()
    ensures BitSteps(ALL_ONES, 32) == 0xDEBB_20E3
  {
    hide BitSteps;
    BitStepsAdd(ALL_ONES, 8, 24);
    BitStepsAdd(0x2DFD_1072, 8, 16);
    BitStepsAdd(0xBE26_ED00, 8, 8);
    EightSteps(ALL_ONES);
    EightSteps(0x2DFD_1072);
    EightSteps(0xBE26_ED00);
    EightSteps(0x00BE_26ED);
  }
}
