/** The bitwise CRC-32 of the test kit, and the errors it cannot miss. */
module Crc32 {

  const POLYNOMIAL: bv32 := 0xEDB8_8320
  const ALL_ONES: bv32 := 0xFFFF_FFFF

  function Xor(x: bv32, y: bv32): bv32 {
    x ^ y
  }

  function Half(x: bv32): bv32 {
    x >> 1
  }

  predicate Odd(x: bv32) {
    x & 1 == 1
  }

  function Wide(byte: bv8): bv32 {
    byte as bv32
  }

  /** One turn of the inner loop. */
  function BitStep(crc: bv32): bv32 {
    Xor(Half(crc), if Odd(crc) then POLYNOMIAL else 0)
  }

  function BitSteps(crc: bv32, n: nat): bv32
    decreases n
  {
    if n == 0 then crc else BitSteps(BitStep(crc), n - 1)
  }

  function Feed(crc: bv32, byte: bv8): bv32 {
    BitSteps(Xor(crc, Wide(byte)), 8)
  }

  function Run(crc: bv32, bytes: seq<bv8>): bv32
    decreases |bytes|
  {
    if bytes == [] then crc else Run(Feed(crc, bytes[0]), bytes[1..])
  }

  function Crc(bytes: seq<bv8>): bv32 {
    Xor(Run(ALL_ONES, bytes), ALL_ONES)
  }

  method Compute(bytes: seq<bv8>) returns (result: bv32)
    ensures result == Crc(bytes)
  {
    var crc := ALL_ONES;
    for i := 0 to |bytes|
      invariant Run(crc, bytes[i..]) == Run(ALL_ONES, bytes)
    {
      crc := FeedByte(crc, bytes[i]);
      assert bytes[i..][1..] == bytes[i + 1..];
    }
    result := crc ^ ALL_ONES;
  }

  /** The inner loop. */
  method FeedByte(before: bv32, byte: bv8) returns (crc: bv32)
    ensures crc == Feed(before, byte)
  {
    hide Feed, BitSteps, BitStep;
    crc := before ^ (byte as bv32);
    FeedIs(before, byte);
    for bit := 0 to 8
      invariant BitSteps(crc, 8 - bit) == Feed(before, byte)
    {
      FirstBit(crc, 8 - bit);
      crc := OneBit(crc);
    }
    NoBits(crc);
  }

  method OneBit(before: bv32) returns (crc: bv32)
    ensures crc == BitStep(before)
  {
    crc := (before >> 1) ^ (if before & 1 == 1 then POLYNOMIAL else 0);
  }

  lemma FeedIs(crc: bv32, byte: bv8)
    ensures BitSteps(crc ^ (byte as bv32), 8) == Feed(crc, byte)
  {
    hide BitSteps;
  }

  lemma FirstBit(crc: bv32, n: nat)
    requires n > 0
    ensures BitSteps(crc, n) == BitSteps(BitStep(crc), n - 1)
  {
    hide BitStep;
  }

  lemma NoBits(crc: bv32)
    ensures BitSteps(crc, 0) == crc
  {
    hide BitStep;
  }

  // ---- words ----

  lemma XorAssociates(x: bv32, y: bv32, z: bv32)
    ensures Xor(Xor(x, y), z) == Xor(x, Xor(y, z)) && Xor(x, y) == Xor(y, x)
  {
  }

  lemma XorShuffles(a: bv32, b: bv32, c: bv32, d: bv32)
    ensures Xor(Xor(a, b), Xor(c, d)) == Xor(Xor(a, c), Xor(b, d))
  {
    hide Xor;
    XorAssociates(a, b, Xor(c, d));
    XorAssociates(b, c, d);
    XorAssociates(c, b, d);
    XorAssociates(a, c, Xor(b, d));
  }

  lemma XorUnit(x: bv32)
    ensures Xor(x, 0) == x && Xor(0, x) == x && Xor(x, x) == 0
  {
  }

  lemma XorCancels(x: bv32, y: bv32, z: bv32)
    ensures Xor(x, z) == Xor(y, z) ==> x == y
    ensures Xor(z, x) == Xor(z, y) ==> x == y
  {
    assert (x ^ z) ^ z == x && (y ^ z) ^ z == y;
    assert (z ^ x) ^ z == x && (z ^ y) ^ z == y;
  }

  lemma HalfOfXor(x: bv32, y: bv32)
    ensures Half(Xor(x, y)) == Xor(Half(x), Half(y))
  {
  }

  lemma OddOfXor(x: bv32, y: bv32)
    ensures Odd(Xor(x, y)) <==> Odd(x) != Odd(y)
  {
    assert (x ^ y) & 1 == (x & 1) ^ (y & 1);
    assert (x & 1 == 0 || x & 1 == 1) && (y & 1 == 0 || y & 1 == 1);
  }

  // ---- one bit is linear and loses nothing ----

  lemma BitStepIsLinear(x: bv32, y: bv32)
    ensures BitStep(Xor(x, y)) == Xor(BitStep(x), BitStep(y))
  {
    hide Xor, Half, Odd;
    HalfOfXor(x, y);
    OddOfXor(x, y);
    var p, q := if Odd(x) then POLYNOMIAL else 0, if Odd(y) then POLYNOMIAL else 0;
    XorUnit(POLYNOMIAL);
    XorUnit(0);
    XorShuffles(Half(x), p, Half(y), q);
  }

  predicate TopBit(x: bv32) {
    x & 0x8000_0000 != 0
  }

  function Doubled(x: bv32, odd: bool): bv32 {
    if odd then (x << 1) | 1 else x << 1
  }

  /** The polynomial's top bit tells which way a step went. */
  function BitBack(crc: bv32): bv32 {
    if TopBit(crc) then Doubled(Xor(crc, POLYNOMIAL), true) else Doubled(crc, false)
  }

  lemma TopOfStep(x: bv32)
    ensures !TopBit(Half(x)) && TopBit(Xor(Half(x), POLYNOMIAL))
  {
  }

  lemma ShiftBackAndForth(x: bv32)
    ensures x & 1 == 0 ==> (x >> 1) << 1 == x
    ensures x & 1 == 1 ==> ((x >> 1) << 1) | 1 == x
    ensures x & 1 == 0 || x & 1 == 1
  {
  }

  lemma DoubledHalf(x: bv32)
    ensures Doubled(Half(x), Odd(x)) == x
  {
    ShiftBackAndForth(x);
  }

  lemma HalfDoubled(x: bv32, odd: bool)
    requires !TopBit(x)
    ensures Half(Doubled(x, odd)) == x && Odd(Doubled(x, odd)) == odd
  {
  }

  lemma WithoutTop(x: bv32)
    requires TopBit(x)
    ensures !TopBit(Xor(x, POLYNOMIAL))
  {
  }

  lemma XorTwice(x: bv32)
    ensures Xor(Xor(x, POLYNOMIAL), POLYNOMIAL) == x
  {
  }

  lemma BitStepIsBijective(x: bv32)
    ensures BitBack(BitStep(x)) == x && BitStep(BitBack(x)) == x
  {
    hide Xor, Half, Odd, TopBit, Doubled;
    TopOfStep(x);
    DoubledHalf(x);
    XorUnit(Half(x));
    XorTwice(Half(x));
    if TopBit(x) {
      WithoutTop(x);
      HalfDoubled(Xor(x, POLYNOMIAL), true);
      XorTwice(x);
    } else {
      HalfDoubled(x, false);
      XorUnit(x);
    }
  }

  lemma {:induction false} BitStepsAreLinear(x: bv32, y: bv32, n: nat)
    ensures BitSteps(Xor(x, y), n) == Xor(BitSteps(x, n), BitSteps(y, n))
    decreases n
  {
    hide BitStep, Xor;
    if n > 0 {
      BitStepIsLinear(x, y);
      BitStepsAreLinear(BitStep(x), BitStep(y), n - 1);
    }
  }

  lemma {:induction false} BitStepsAreInjective(x: bv32, y: bv32, n: nat)
    requires BitSteps(x, n) == BitSteps(y, n)
    ensures x == y
    decreases n
  {
    hide BitStep, BitBack;
    if n > 0 {
      BitStepsAreInjective(BitStep(x), BitStep(y), n - 1);
      BitStepIsBijective(x);
      BitStepIsBijective(y);
    }
  }

  lemma {:induction false} BitStepsAdd(crc: bv32, n: nat, k: nat)
    ensures BitSteps(crc, n + k) == BitSteps(BitSteps(crc, n), k)
    decreases n
  {
    hide BitStep;
    if n > 0 {
      BitStepsAdd(BitStep(crc), n - 1, k);
    }
  }

  // ---- whole messages ----

  function XorBytes(p: seq<bv8>, q: seq<bv8>): (r: seq<bv8>)
    requires |p| == |q|
    ensures |r| == |p|
  {
    seq(|p|, i requires 0 <= i < |p| => XorByte(p[i], q[i]))
  }

  function XorByte(a: bv8, b: bv8): bv8 {
    a ^ b
  }

  lemma WideOfXor(a: bv8, b: bv8)
    ensures Wide(XorByte(a, b)) == Xor(Wide(a), Wide(b))
  {
  }

  lemma FeedIsLinear(x: bv32, y: bv32, a: bv8, b: bv8)
    ensures Feed(Xor(x, y), XorByte(a, b)) == Xor(Feed(x, a), Feed(y, b))
  {
    hide BitSteps, Xor, Wide;
    WideOfXor(a, b);
    XorShuffles(x, y, Wide(a), Wide(b));
    BitStepsAreLinear(Xor(x, Wide(a)), Xor(y, Wide(b)), 8);
  }

  /** The register is linear in the state it starts from and the bytes it is fed. */
  lemma {:induction false} RunIsLinear(x: bv32, y: bv32, p: seq<bv8>, q: seq<bv8>)
    requires |p| == |q|
    ensures Run(Xor(x, y), XorBytes(p, q)) == Xor(Run(x, p), Run(y, q))
    decreases |p|
  {
    hide Feed, Xor, XorByte;
    if p != [] {
      FeedIsLinear(x, y, p[0], q[0]);
      RunIsLinear(Feed(x, p[0]), Feed(y, q[0]), p[1..], q[1..]);
      assert XorBytes(p, q)[1..] == XorBytes(p[1..], q[1..]);
    }
  }

  lemma {:induction false} RunConcat(crc: bv32, p: seq<bv8>, q: seq<bv8>)
    ensures Run(crc, p + q) == Run(Run(crc, p), q)
    decreases |p|
  {
    hide Feed;
    if p == [] {
      assert p + q == q;
    } else {
      assert (p + q)[1..] == p[1..] + q;
      RunConcat(Feed(crc, p[0]), p[1..], q);
    }
  }

  /** Different states stay different whatever both are fed. */
  lemma {:induction false} RunIsInjective(x: bv32, y: bv32, bytes: seq<bv8>)
    requires Run(x, bytes) == Run(y, bytes)
    ensures x == y
    decreases |bytes|
  {
    hide BitSteps, Xor, Wide;
    if bytes != [] {
      RunIsInjective(Feed(x, bytes[0]), Feed(y, bytes[0]), bytes[1..]);
      BitStepsAreInjective(Xor(x, Wide(bytes[0])), Xor(y, Wide(bytes[0])), 8);
      XorCancels(x, y, Wide(bytes[0]));
    }
  }

  // ---- four bytes at once ----

  function Above(byte: bv8, rest: bv32): bv32 {
    (byte as bv32) | (rest << 8)
  }

  /** Up to four bytes as the low end of a word, the first byte lowest. */
  function WordOf(bytes: seq<bv8>): bv32
    decreases |bytes|
  {
    if bytes == [] then 0 else Above(bytes[0], WordOf(bytes[1..]))
  }

  /** At most `n` bytes of the word are in use. */
  predicate Fits(word: bv32, n: nat) {
    if n == 0 then word == 0 else if n == 1 then word <= 0xFF else if n == 2 then word <= 0xFFFF
    else n == 3 ==> word <= 0xFF_FFFF
  }

  lemma AboveFits(byte: bv8, rest: bv32)
    ensures rest == 0 ==> Above(byte, rest) <= 0xFF
    ensures rest <= 0xFF ==> Above(byte, rest) <= 0xFFFF
    ensures rest <= 0xFFFF ==> Above(byte, rest) <= 0xFF_FFFF
  {
  }

  lemma {:induction false} WordFits(bytes: seq<bv8>)
    requires |bytes| <= 3
    ensures Fits(WordOf(bytes), |bytes|)
    decreases |bytes|
  {
    hide Above;
    if bytes != [] {
      WordFits(bytes[1..]);
      AboveFits(bytes[0], WordOf(bytes[1..]));
    }
  }

  lemma FitsThree(word: bv32, n: nat)
    requires n <= 3 && Fits(word, n)
    ensures word <= 0xFF_FFFF
  {
  }

  function Left(x: bv32, n: nat): bv32
    decreases n
  {
    if n == 0 then x else Left(Doubled(x, false), n - 1)
  }

  /** The top `k` bits are clear. */
  predicate Room(x: bv32, k: nat) {
    if k >= 8 then x <= 0xFF_FFFF
    else if k == 7 then x <= 0x1FF_FFFF
    else if k == 6 then x <= 0x3FF_FFFF
    else if k == 5 then x <= 0x7FF_FFFF
    else if k == 4 then x <= 0xFFF_FFFF
    else if k == 3 then x <= 0x1FFF_FFFF
    else if k == 2 then x <= 0x3FFF_FFFF
    else if k == 1 then x <= 0x7FFF_FFFF
    else true
  }

  lemma ShiftRoom(x: bv32)
    ensures x <= 0xFF_FFFF ==> x << 1 <= 0x1FF_FFFF
    ensures x <= 0x1FF_FFFF ==> x << 1 <= 0x3FF_FFFF
    ensures x <= 0x3FF_FFFF ==> x << 1 <= 0x7FF_FFFF
    ensures x <= 0x7FF_FFFF ==> x << 1 <= 0xFFF_FFFF
    ensures x <= 0xFFF_FFFF ==> x << 1 <= 0x1FFF_FFFF
    ensures x <= 0x1FFF_FFFF ==> x << 1 <= 0x3FFF_FFFF
    ensures x <= 0x3FFF_FFFF ==> x << 1 <= 0x7FFF_FFFF
    ensures x <= 0x7FFF_FFFF ==> x & 0x8000_0000 == 0
  {
  }

  lemma RoomToDouble(x: bv32, k: nat)
    requires 1 <= k <= 8 && Room(x, k)
    ensures Room(Doubled(x, false), k - 1) && !TopBit(x)
  {
    ShiftRoom(x);
  }

  /** A word without low bits is only shifted. */
  lemma {:induction false} OnlyShifted(x: bv32, n: nat)
    requires n <= 8 && Room(x, n)
    ensures BitSteps(Left(x, n), n) == x
    decreases n
  {
    hide Xor, Half, Odd, Doubled, TopBit;
    if n > 0 {
      RoomToDouble(x, n);
      OnlyShifted(Doubled(x, false), n - 1);
      BitStepsAdd(Left(x, n), n - 1, 1);
      HalfDoubled(x, false);
      XorUnit(x);
      OneBitStep(Doubled(x, false));
    }
  }

  lemma OneBitStep(crc: bv32)
    ensures BitSteps(crc, 1) == BitStep(crc)
  {
    hide BitStep;
    assert BitSteps(BitStep(crc), 0) == BitStep(crc);
  }

  lemma EightDoublings(x: bv32)
    ensures Left(x, 8) == x << 8
  {
    var x1, x2, x3, x4 := x << 1, x << 2, x << 3, x << 4;
    var x5, x6, x7 := x << 5, x << 6, x << 7;
    ShiftsAdd(x);
    assert Left(x7, 1) == Left(x << 8, 0);
    assert Left(x6, 2) == Left(x7, 1);
    assert Left(x5, 3) == Left(x6, 2);
    assert Left(x4, 4) == Left(x5, 3);
    assert Left(x3, 5) == Left(x4, 4);
    assert Left(x2, 6) == Left(x3, 5);
    assert Left(x1, 7) == Left(x2, 6);
  }

  lemma ShiftsAdd(x: bv32)
    ensures (x << 1) << 1 == x << 2 && (x << 2) << 1 == x << 3 && (x << 3) << 1 == x << 4
    ensures (x << 4) << 1 == x << 5 && (x << 5) << 1 == x << 6 && (x << 6) << 1 == x << 7 && (x << 7) << 1 == x << 8
  {
  }

  lemma XorAbove(crc: bv32, byte: bv8, rest: bv32)
    ensures Xor(crc, Above(byte, rest)) == Xor(Xor(crc, Wide(byte)), Left(rest, 8))
  {
    hide Left;
    EightDoublings(rest);
  }

  /** Feeding up to four bytes is shifting them out as one word. */
  lemma {:induction false} RunOfWord(crc: bv32, bytes: seq<bv8>)
    requires |bytes| <= 4
    ensures Run(crc, bytes) == BitSteps(Xor(crc, WordOf(bytes)), 8 * |bytes|)
    decreases |bytes|
  {
    hide Xor, Wide, Above, Left, Fits, BitStep, Doubled;
    if bytes == [] {
      XorUnit(crc);
    } else {
      hide BitSteps;
      var byte, rest := bytes[0], WordOf(bytes[1..]);
      RunOfWord(Feed(crc, byte), bytes[1..]);
      WordFits(bytes[1..]);
      FitsThree(rest, |bytes[1..]|);
      XorAbove(crc, byte, rest);
      BitStepsAreLinear(Xor(crc, Wide(byte)), Left(rest, 8), 8);
      OnlyShifted(rest, 8);
      BitStepsAdd(Xor(crc, WordOf(bytes)), 8, 8 * |bytes[1..]|);
    }
  }

  lemma AboveIsInjective(a: bv8, x: bv32, b: bv8, y: bv32)
    requires x <= 0xFF_FFFF && y <= 0xFF_FFFF && Above(a, x) == Above(b, y)
    ensures a == b && x == y
  {
    LowOfAbove(a, x);
    LowOfAbove(b, y);
    hide Above;
    SameByte(a, b);
  }

  lemma LowOfAbove(a: bv8, x: bv32)
    requires x <= 0xFF_FFFF
    ensures Above(a, x) & 0xFF == Wide(a) && Above(a, x) >> 8 == x
  {
  }

  lemma SameByte(a: bv8, b: bv8)
    requires Wide(a) == Wide(b)
    ensures a == b
  {
  }

  lemma {:induction false} WordIsInjective(p: seq<bv8>, q: seq<bv8>)
    requires |p| == |q| <= 4 && WordOf(p) == WordOf(q)
    ensures p == q
    decreases |p|
  {
    hide Above, Fits;
    if p != [] {
      WordFits(p[1..]);
      WordFits(q[1..]);
      FitsThree(WordOf(p[1..]), |p[1..]|);
      FitsThree(WordOf(q[1..]), |q[1..]|);
      AboveIsInjective(p[0], WordOf(p[1..]), q[0], WordOf(q[1..]));
      WordIsInjective(p[1..], q[1..]);
      assert p == [p[0]] + p[1..] && q == [q[0]] + q[1..];
    }
  }

  /**
   Messages of equal length that differ, but only within four consecutive bytes, have different
   checksums -- wherever the window lies.
   */
  lemma WindowIsDetected(before: seq<bv8>, p: seq<bv8>, q: seq<bv8>, after: seq<bv8>)
    requires |p| == |q| <= 4 && p != q
    ensures Crc(before + p + after) != Crc(before + q + after)
  {
    hide Run, BitSteps, WordOf, Xor;
    var crc := Run(ALL_ONES, before);
    RunConcat(ALL_ONES, before + p, after);
    RunConcat(ALL_ONES, before + q, after);
    RunConcat(ALL_ONES, before, p);
    RunConcat(ALL_ONES, before, q);
    if Crc(before + p + after) == Crc(before + q + after) {
      XorCancels(Run(ALL_ONES, before + p + after), Run(ALL_ONES, before + q + after), ALL_ONES);
      RunIsInjective(Run(crc, p), Run(crc, q), after);
      RunOfWord(crc, p);
      RunOfWord(crc, q);
      BitStepsAreInjective(Xor(crc, WordOf(p)), Xor(crc, WordOf(q)), 8 * |p|);
      XorCancels(WordOf(p), WordOf(q), crc);
      WordIsInjective(p, q);
    }
  }
}
