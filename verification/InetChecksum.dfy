/** The Internet checksum: the running sum with an end-around carry, and writing it into a packet. */
module InetChecksum {
  import opened Bytes

  const MODULUS := 0xFFFF

  /** Adds the carry beyond 16 bits back in. */
  function Fold(sum: nat): nat {
    sum % 0x1_0000 + sum / 0x1_0000
  }

  function WordOf(high: Byte, low: Byte): Word {
    high * 0x100 + low
  }

  /** The 16-bit word at the front; an odd last byte is the high half of its word. */
  function Front(bytes: seq<Byte>): Word
    requires bytes != []
  {
    WordOf(bytes[0], if |bytes| > 1 then bytes[1] else 0)
  }

  function Rest(bytes: seq<Byte>): seq<Byte>
    requires bytes != []
  {
    bytes[Min(2, |bytes|)..]
  }

  /** The loop of `checksum` from `sum` on. */
  function Running(sum: nat, bytes: seq<Byte>): nat
    decreases |bytes|
  {
    if bytes == [] then sum else Running(Fold(sum + Front(bytes)), Rest(bytes))
  }

  /** `~sum & 0xffff`. */
  function Complement(sum: nat): Word
    requires sum <= 0xFFFF
  {
    0xFFFF - sum
  }

  function Checksum(bytes: seq<Byte>): Word {
    RunningFits(0, bytes);
    Complement(Running(0, bytes))
  }

  lemma FoldFits(sum: nat)
    requires sum <= 0x1_FFFE
    ensures Fold(sum) <= 0xFFFF
  {
  }

  /** The running sum stays within 16 bits. */
  lemma {:induction false} RunningFits(sum: nat, bytes: seq<Byte>)
    requires sum <= 0xFFFF
    ensures Running(sum, bytes) <= 0xFFFF
    decreases |bytes|
  {
    if bytes != [] {
      FoldFits(sum + Front(bytes));
      RunningFits(Fold(sum + Front(bytes)), Rest(bytes));
    }
  }

  method ComputeChecksum(bytes: seq<Byte>) returns (value: Word)
    ensures value == Checksum(bytes)
  {
    hide Front, Fold;
    var sum: nat := 0;
    var i: nat := 0;
    RunningFits(0, bytes);
    while i < |bytes|
      invariant Running(sum, bytes[Min(i, |bytes|)..]) == Running(0, bytes)
    {
      RestIs(bytes, i);
      sum := sum + WordOf(bytes[i], if i + 1 < |bytes| then bytes[i + 1] else 0);
      sum := Fold(sum);
      i := i + 2;
    }
    value := Complement(sum);
  }

  lemma RestIs(bytes: seq<Byte>, i: nat)
    requires i < |bytes|
    ensures Front(bytes[i..]) == WordOf(bytes[i], if i + 1 < |bytes| then bytes[i + 1] else 0)
    ensures Rest(bytes[i..]) == bytes[Min(i + 2, |bytes|)..]
  {
  }

  // ---- against unbounded arithmetic ----

  function Total(bytes: seq<Byte>): nat
    decreases |bytes|
  {
    if bytes == [] then 0 else Front(bytes) + Total(Rest(bytes))
  }

  /** The residue of `total` modulo 65535 in 1..65535, and 0 only for 0. */
  function Residue(total: nat): nat {
    if total == 0 then 0 else (total - 1) % MODULUS + 1
  }

  lemma ResidueOf(total: nat, q: nat, r: nat)
    requires total == q * MODULUS + r && 0 < r <= MODULUS
    ensures Residue(total) == r
  {
    assert total - 1 == q * MODULUS + (r - 1);
  }

  lemma ResidueParts(total: nat) returns (q: nat)
    requires total > 0
    ensures total == q * MODULUS + Residue(total) && 0 < Residue(total) <= MODULUS
  {
    q := (total - 1) / MODULUS;
  }

  lemma FoldKeepsResidue(sum: nat)
    ensures Residue(Fold(sum)) == Residue(sum)
  {
    if Fold(sum) > 0 {
      var q := ResidueParts(Fold(sum));
      assert sum == (q + sum / 0x1_0000) * MODULUS + Residue(Fold(sum));
      ResidueOf(sum, q + sum / 0x1_0000, Residue(Fold(sum)));
    }
  }

  lemma ZeroResidue(a: nat)
    ensures Residue(a) == 0 <==> a == 0
  {
  }

  lemma AddSame(a: nat, b: nat, c: nat)
    requires Residue(a) == Residue(b)
    ensures Residue(a + c) == Residue(b + c)
  {
    hide Residue;
    ZeroResidue(a);
    ZeroResidue(b);
    if a > 0 {
      var p := ResidueParts(a);
      var q := ResidueParts(b);
      var s := ResidueParts(a + c);
      var d: int := q;
      Shifted(a + c, b + c, s, d - p);
    }
  }

  lemma Shifted(x: nat, y: nat, s: nat, d: int)
    requires x > 0 && y > 0 && y == x + d * MODULUS && x == s * MODULUS + Residue(x)
    ensures Residue(y) == Residue(x)
  {
    hide Residue;
    var t := ResidueParts(y);
    var u := ResidueParts(x);
    assert (t - u - d) * MODULUS == Residue(x) - Residue(y);
  }

  lemma SmallResidue(sum: nat)
    requires sum <= 0xFFFF
    ensures Residue(sum) == sum
  {
  }

  /** Carrying around at once is adding everything up and carrying around at the end, for every length. */
  lemma {:induction false} RunningIsResidue(sum: nat, bytes: seq<Byte>)
    requires sum <= 0xFFFF
    ensures Running(sum, bytes) == Residue(sum + Total(bytes))
    decreases |bytes|
  {
    hide Residue, Fold, Front;
    SmallResidue(sum);
    if bytes != [] {
      var next := sum + Front(bytes);
      FoldFits(next);
      RunningIsResidue(Fold(next), Rest(bytes));
      FoldKeepsResidue(next);
      AddSame(Fold(next), next, Total(Rest(bytes)));
    }
  }

  /** The deferred form of the test kit: add up, then fold until 16 bits are left. */
  method DeferredSum(bytes: seq<Byte>) returns (sum: nat)
    ensures sum == Residue(Total(bytes)) && Checksum(bytes) == Complement(sum)
  {
    hide Front, Fold, Residue;
    sum := 0;
    var i: nat := 0;
    while i < |bytes|
      invariant sum + Total(bytes[Min(i, |bytes|)..]) == Total(bytes)
    {
      RestIs(bytes, i);
      sum := sum + WordOf(bytes[i], if i + 1 < |bytes| then bytes[i + 1] else 0);
      i := i + 2;
    }
    while sum > 0xFFFF
      invariant Residue(sum) == Residue(Total(bytes))
    {
      FoldKeepsResidue(sum);
      FoldShrinks(sum);
      sum := Fold(sum);
    }
    SmallResidue(sum);
    RunningIsResidue(0, bytes);
  }

  lemma FoldShrinks(sum: nat)
    requires sum > 0xFFFF
    ensures Fold(sum) < sum
  {
  }

  // ---- putChecksum ----

  /** `slice` clamps both ends. */
  function Region(bytes: seq<Byte>, offset: nat, length: nat): seq<Byte> {
    bytes[Min(offset, |bytes|)..Min(offset + length, |bytes|)]
  }

  function WithWord(bytes: seq<Byte>, field: nat, value: Word): seq<Byte>
    requires field + 1 < |bytes|
  {
    bytes[field := value / 0x100][field + 1 := value % 0x100]
  }

  /** The packet after `putChecksum`. */
  function Put(bytes: seq<Byte>, offset: nat, length: nat, field: nat): seq<Byte>
    requires field + 1 < |bytes|
  {
    var cleared := WithWord(bytes, field, 0);
    WithWord(cleared, field, Checksum(Region(cleared, offset, length)))
  }

  method PutChecksum(bytes: array<Byte>, offset: nat, length: nat, field: nat)
    requires field + 1 < bytes.Length
    modifies bytes
    ensures bytes[..] == Put(old(bytes[..]), offset, length, field)
  {
    hide Checksum;
    bytes[field], bytes[field + 1] := 0, 0;
    assert bytes[..] == WithWord(old(bytes[..]), field, 0);
    var value := ComputeChecksum(bytes[..][Min(offset, bytes.Length)..Min(offset + length, bytes.Length)]);
    bytes[field], bytes[field + 1] := value / 0x100, value % 0x100;
  }

  /** What one byte adds to the total depends on whether its place is even. */
  lemma {:induction false} TotalUpdate(bytes: seq<Byte>, k: nat, value: Byte)
    requires k < |bytes|
    ensures Total(bytes[k := value]) ==
            Total(bytes) + (value - bytes[k]) * if k % 2 == 0 then 0x100 else 1
    decreases |bytes|
  {
    if k >= 2 {
      TotalUpdate(Rest(bytes), k - 2, value);
      assert Rest(bytes[k := value]) == Rest(bytes)[k - 2 := value];
    } else {
      assert Rest(bytes[k := value]) == Rest(bytes);
    }
  }

  lemma TotalWithWord(bytes: seq<Byte>, field: nat, value: Word)
    requires field + 1 < |bytes|
    ensures Total(WithWord(bytes, field, value)) ==
            Total(WithWord(bytes, field, 0)) + if field % 2 == 0 then value else Swapped(value)
  {
    var zero := WithWord(bytes, field, 0);
    TotalUpdate(zero, field, value / 0x100);
    var half: seq<Byte> := zero[field := value / 0x100];
    TotalUpdate(half, field + 1, value % 0x100);
    assert WithWord(bytes, field, value) == half[field + 1 := value % 0x100];
  }

  function Swapped(value: Word): Word {
    value % 0x100 * 0x100 + value / 0x100
  }

  /** A field of the region is a field of the packet, two places of the same kind further on if `offset` is even. */
  lemma RegionOfWord(bytes: seq<Byte>, offset: nat, length: nat, field: nat, value: Word)
    requires offset <= field && field + 1 < Min(offset + length, |bytes|)
    ensures Region(WithWord(bytes, field, value), offset, length) ==
            WithWord(Region(bytes, offset, length), field - offset, value)
  {
  }

  /** The sum a checksum completes: all ones, unless the swapped bytes of an odd field spoil it. */
  lemma Completed(total: nat, value: Word)
    requires value == Complement(Residue(total))
    ensures Residue(total + value) == 0xFFFF
    ensures Residue(total + Swapped(value)) == 0xFFFF <==> value / 0x100 == value % 0x100
  {
    var q: int := 0;
    if total > 0 {
      q := ResidueParts(total);
    }
    hide Residue;
    assert total + value == q * MODULUS + MODULUS || (total == 0 && value == MODULUS);
    ZeroResidue(total);
    ResidueOf(total + value, if total == 0 then 0 else q, MODULUS);
    if value / 0x100 != value % 0x100 {
      SwappedDiffers(value);
      if Residue(total + Swapped(value)) == 0xFFFF {
        var s := ResidueParts(total + Swapped(value));
        var t := ResidueParts(total + value);
        NotAMultiple(Swapped(value), value, s, t);
      }
    }
  }

  lemma SwappedDiffers(value: Word)
    requires value / 0x100 != value % 0x100
    ensures -0xFFFF < Swapped(value) - value < 0xFFFF && Swapped(value) != value
  {
  }

  lemma NotAMultiple(x: Word, y: Word, s: nat, t: nat)
    requires -0xFFFF < x - y < 0xFFFF && x - y == (s - t) * MODULUS
    ensures x == y
  {
  }

  /**
   The region's checksum is 0 once the field is written exactly if the field is an even distance into
   the region, or the checksum that is written has two equal bytes.
   */
  lemma PutVerifiesIff(bytes: seq<Byte>, offset: nat, length: nat, field: nat)
    requires offset <= field && field + 1 < Min(offset + length, |bytes|)
    ensures var value := Checksum(Region(WithWord(bytes, field, 0), offset, length));
            Checksum(Region(Put(bytes, offset, length, field), offset, length)) == 0 <==>
              (field - offset) % 2 == 0 || value / 0x100 == value % 0x100
  {
    hide Residue, Total, Swapped;
    var cleared := WithWord(bytes, field, 0);
    var region := Region(cleared, offset, length);
    var value := Checksum(region);
    var after := WithWord(cleared, field, value);
    RegionOfWord(cleared, offset, length, field, value);
    RegionOfWord(cleared, offset, length, field, 0);
    assert WithWord(cleared, field, 0) == cleared;
    TotalWithWord(region, field - offset, value);
    RunningIsResidue(0, region);
    RunningIsResidue(0, Region(after, offset, length));
    Completed(Total(region), value);
  }

  /** A field at an odd place that does not verify. */
  lemma OddFieldFails()
    ensures Checksum(Region(Put([0, 0, 0, 1], 0, 4, 1), 0, 4)) == 0x00FF
  {
    hide Running, Fold, Front, Rest, Region;
    assert WithWord([0, 0, 0, 1], 1, 0) == [0, 0, 0, 1];
    WholeRegion([0, 0, 0, 1]);
    SumOfTwo(0, 0, 0, 1);
    assert Put([0, 0, 0, 1], 0, 4, 1) == [0, 0xFF, 0xFE, 1];
    WholeRegion([0, 0xFF, 0xFE, 1]);
    SumOfTwo(0, 0xFF, 0xFE, 1);
  }

  lemma WholeRegion(data: seq<Byte>)
    ensures Region(data, 0, |data|) == data
  {
  }

  lemma SumOfTwo(a: Byte, b: Byte, c: Byte, d: Byte)
    requires WordOf(a, b) + WordOf(c, d) <= 0xFFFF
    ensures Running(0, [a, b, c, d]) == WordOf(a, b) + WordOf(c, d)
  {
    hide Running, Fold;
    TwoWords(a, b, c, d);
    FirstWord(0, [a, b, c, d]);
    FirstWord(WordOf(a, b), [c, d]);
    NoWord(WordOf(a, b) + WordOf(c, d));
    FoldSmall(WordOf(a, b));
    FoldSmall(WordOf(a, b) + WordOf(c, d));
  }

  lemma TwoWords(a: Byte, b: Byte, c: Byte, d: Byte)
    ensures Front([a, b, c, d]) == WordOf(a, b) && Rest([a, b, c, d]) == [c, d]
    ensures Front([c, d]) == WordOf(c, d) && Rest([c, d]) == []
  {
  }

  lemma FirstWord(sum: nat, bytes: seq<Byte>)
    requires bytes != []
    ensures Running(sum, bytes) == Running(Fold(sum + Front(bytes)), Rest(bytes))
  {
    hide Front, Rest, Fold;
  }

  lemma NoWord(sum: nat)
    ensures Running(sum, []) == sum
  {
  }

  lemma FoldSmall(sum: nat)
    requires sum <= 0xFFFF
    ensures Fold(sum) == sum
  {
  }
}
