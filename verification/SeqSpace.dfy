/** Sequence numbers modulo 2^32. */
module SeqSpace {
  import opened Bytes

  const TWO32 := 0x1_0000_0000

  /** JavaScript's `x >>> 0` of an integer below 2^53 in size. */
  function Wrap(x: int): Dword {
    x % TWO32
  }

  /** The sequence number of the byte `offset` places after `base`. */
  function SeqAt(base: Dword, offset: int): Dword {
    Wrap(base + offset)
  }

  /** The cumulative offset from `base` that an acknowledgement stands for. */
  function AckedBy(base: Dword, ack: Dword): Dword {
    Wrap(ack - base)
  }

  /** Two offsets less than 2^32 apart with the same sequence number are the same offset. */
  lemma WrapInjective(base: int, a: int, b: int)
    requires Wrap(base + a) == Wrap(base + b) && -TWO32 < a - b < TWO32
    ensures a == b
  {
    var qa, qb := (base + a) / TWO32, (base + b) / TWO32;
    assert base + a == qa * TWO32 + Wrap(base + a) && base + b == qb * TWO32 + Wrap(base + b);
    assert a - b == (qa - qb) * TWO32;
  }

  lemma WrapStep(base: int, k: int)
    ensures Wrap(Wrap(base) + k) == Wrap(base + k)
  {
    var q := base / TWO32;
    assert base == q * TWO32 + Wrap(base);
    assert base + k == q * TWO32 + (Wrap(base) + k);
    WrapTurns(Wrap(base) + k, q);
  }

  lemma WrapTurns(x: int, q: int)
    ensures Wrap(x + q * TWO32) == Wrap(x)
  {
    var p := x / TWO32;
    assert x == p * TWO32 + Wrap(x);
    assert x + q * TWO32 == (p + q) * TWO32 + Wrap(x);
    var r, m := (x + q * TWO32) / TWO32, Wrap(x + q * TWO32);
    assert x + q * TWO32 == r * TWO32 + m;
    assert (p + q - r) * TWO32 == m - Wrap(x);
  }

  /** An acknowledgement reads back as its own offset; one from before `base` as an offset near 2^32. */
  lemma OffsetReadsBack(base: Dword, offset: int)
    requires -TWO32 < offset < TWO32
    ensures AckedBy(base, SeqAt(base, offset)) == if offset >= 0 then offset else TWO32 + offset
  {
    WrapStep(base + offset, 0 - base);
    if offset < 0 {
      WrapTurns(offset, 1);
    }
  }
}
