/** LDIR: the interpreter repeats one instruction until BC is 0. */
module BlockCopy {
  import opened Bytes
  import opened Z80

  /** Copies `n` bytes one after the other, addresses modulo 2^16; a later byte sees the earlier ones. */
  function Copied(mem: Memory, src: Word, dst: Word, n: nat): Memory
    decreases n
  {
    if n == 0 then mem else Copied(mem[dst := mem[src]], Word16(src + 1), Word16(dst + 1), n - 1)
  }

  function Hl(m: Machine): Word {
    Pair(m.h, m.l)
  }

  function De(m: Machine): Word {
    Pair(m.d, m.e)
  }

  function Bc(m: Machine): Word {
    Pair(m.b, m.c)
  }

  /** BC counts 1 to 65535 bytes, and 0 counts 65536. */
  function Count(m: Machine): (n: nat)
    ensures n > 0
  {
    if Bc(m) == 0 then SIZE else Bc(m)
  }

  predicate AtLdir(mem: Memory, pc: Word) {
    mem[pc] == 0xED && mem[Word16(pc + 1)] == 0xB0
  }

  /** The two bytes of the instruction are there whenever it is fetched. */
  ghost predicate Intact(m: Machine) {
    forall i: nat {:trigger AtLdir(Copied(m.mem, Hl(m), De(m), i), m.pc)} ::
      i < Count(m) ==> AtLdir(Copied(m.mem, Hl(m), De(m), i), m.pc)
  }

  /** The machine after the whole copy. */
  function Done(m: Machine): Machine {
    var n, mem := Count(m), Copied(m.mem, Hl(m), De(m), Count(m));
    var hl, de := Word16(Hl(m) + n), Word16(De(m) + n);
    var last := Copied(m.mem, Hl(m), De(m), n - 1)[Word16(Hl(m) + n - 1)];
    m.(mem := mem, h := Hi(hl), l := Lo(hl), d := Hi(de), e := Lo(de), b := 0, c := 0,
       flags := LdiFlags(m.flags, m.a + last, 0), pc := Word16(m.pc + 2))
  }

  lemma OneByte(m: Machine)
    requires AtLdir(m.mem, m.pc)
    ensures var m' := DoLdi(m);
            && Step(m) == Some(if Bc(m) != 1 then m' else Skip(m', 2))
            && m'.mem == Copied(m.mem, Hl(m), De(m), 1)
            && Hl(m') == Word16(Hl(m) + 1) && De(m') == Word16(De(m) + 1) && Bc(m') == Word16(Bc(m) - 1)
            && m'.flags == LdiFlags(m.flags, m.a + m.mem[Hl(m)], FlagOf(Bc(m) != 1))
            && m'.pc == m.pc && m'.a == m.a
  {
    hide Step, LdiFlags, Pair, Hi, Lo, Word16;
    StepIsLdi(m);
    OneCopied(m.mem, Hl(m), De(m));
    HiLo(Hl(m) + 1);
    HiLo(De(m) + 1);
    HiLo(Bc(m) - 1);
    CountsToZero(Bc(m));
    PairIsZero(DoLdi(m).b, DoLdi(m).c);
  }

  lemma PairIsZero(hi: Byte, lo: Byte)
    ensures Pair(hi, lo) == 0 <==> hi == 0 && lo == 0
  {
  }

  lemma CountsToZero(bc: Word)
    ensures Word16(bc - 1) == 0 <==> bc == 1
  {
  }

  lemma OneCopied(mem: Memory, src: Word, dst: Word)
    ensures Copied(mem, src, dst, 1) == mem[dst := mem[src]]
  {
    assert Copied(mem[dst := mem[src]], Word16(src + 1), Word16(dst + 1), 0) == mem[dst := mem[src]];
  }

  lemma StepIsLdi(m: Machine)
    requires AtLdir(m.mem, m.pc)
    ensures var m' := DoLdi(m); Step(m) == Some(if m'.b != 0 || m'.c != 0 then m' else Skip(m', 2))
  {
    hide DoLdi, Alu, WithRegister, Operand, ExecutePlain, ExecuteCb, Word16;
    InRange(m.pc);
  }

  lemma Pairs(x: Word)
    ensures Pair(Hi(x), Lo(x)) == x && (x == 0 ==> Hi(x) == 0 && Lo(x) == 0)
  {
  }

  /** The copy of `n` bytes is the copy of one and then of the rest, from either end. */
  lemma {:induction false} CopyLast(mem: Memory, src: Word, dst: Word, n: nat)
    ensures var most := Copied(mem, src, dst, n);
            Copied(mem, src, dst, n + 1) == most[Word16(dst + n) := most[Word16(src + n)]]
    decreases n
  {
    hide Copied, Word16;
    OneCopied(mem, src, dst);
    NoneCopied(mem, src, dst);
    Advance(src, 0, 0);
    Advance(dst, 0, 0);
    if n > 0 {
      CopyFirst(mem, src, dst, n + 1);
      CopyFirst(mem, src, dst, n);
      CopyLast(Copied(mem, src, dst, 1), Word16(src + 1), Word16(dst + 1), n - 1);
      Advance(src, 1, n - 1);
      Advance(dst, 1, n - 1);
    }
  }

  // ---- the whole copy ----

  lemma CopyFirst(mem: Memory, src: Word, dst: Word, n: nat)
    requires n > 0
    ensures Copied(mem, src, dst, n) == Copied(Copied(mem, src, dst, 1), Word16(src + 1), Word16(dst + 1), n - 1)
  {
    OneCopied(mem, src, dst);
  }

  /** After one byte the rest of the copy is the same, one address on. */
  lemma IntactNext(m: Machine, m': Machine)
    requires Intact(m) && Bc(m) != 1
    requires m'.mem == Copied(m.mem, Hl(m), De(m), 1) && m'.pc == m.pc
    requires Hl(m') == Word16(Hl(m) + 1) && De(m') == Word16(De(m) + 1) && Bc(m') == Word16(Bc(m) - 1)
    ensures Intact(m') && Count(m') == Count(m) - 1
  {
    hide AtLdir, Copied, Hl, De, Bc, Count, Word16;
    CountNext(m, m');
    forall i: nat | i < Count(m')
      ensures AtLdir(Copied(m'.mem, Hl(m'), De(m'), i), m'.pc)
    {
      CopyFirst(m.mem, Hl(m), De(m), i + 1);
      assert AtLdir(Copied(m.mem, Hl(m), De(m), i + 1), m.pc);
    }
  }

  lemma DoneNext(m: Machine, m': Machine)
    requires Bc(m) != 1 && Count(m') == Count(m) - 1
    requires m'.mem == Copied(m.mem, Hl(m), De(m), 1)
    requires Hl(m') == Word16(Hl(m) + 1) && De(m') == Word16(De(m) + 1)
    requires exists f :: m'.flags == LdiFlags(m.flags, f, 1)
    requires m' == m.(mem := m'.mem, h := m'.h, l := m'.l, d := m'.d, e := m'.e, b := m'.b, c := m'.c,
                      flags := m'.flags)
    ensures Done(m') == Done(m)
  {
    hide Copied, Hl, De, Count, Hi, Lo, Word16;
    CopyFirst(m.mem, Hl(m), De(m), Count(m));
    CopyFirst(m.mem, Hl(m), De(m), Count(m) - 1);
    Advance(Hl(m), 1, Count(m) - 1);
    Advance(De(m), 1, Count(m) - 1);
    Advance(Hl(m), 1, Count(m) - 2);
    var f :| m'.flags == LdiFlags(m.flags, f, 1);
  }

  lemma CountNext(m: Machine, m': Machine)
    requires Bc(m) != 1 && Bc(m') == Word16(Bc(m) - 1)
    ensures Count(m') == Count(m) - 1
  {
    hide Bc;
  }

  lemma LastByte(m: Machine)
    requires Bc(m) == 1
    ensures Skip(DoLdi(m), 2) == Done(m)
  {
    hide LdiFlags, Hi, Lo, Word16, Copied, Count, Pair, FlagOf;
    CountOfOne(m);
    OneCopied(m.mem, Hl(m), De(m));
    NoneCopied(m.mem, Hl(m), De(m));
    Pairs(0);
    Advance(Hl(m), 0, 0);
    WrapHiLo(Hl(m) + 1);
    WrapHiLo(De(m) + 1);
    NoMore();
  }

  lemma NoneCopied(mem: Memory, src: Word, dst: Word)
    ensures Copied(mem, src, dst, 0) == mem
  {
  }

  lemma NoMore()
    ensures Word16(0) == 0 && FlagOf(false) == 0
  {
  }

  lemma WrapHiLo(x: int)
    ensures Hi(Word16(x)) == Hi(x) && Lo(Word16(x)) == Lo(x)
  {
    var p, y := x / SIZE, x % SIZE;
    WrapParts(p, y / 0x100, y % 0x100);
  }

  lemma WrapParts(p: int, hi: Byte, lo: Byte)
    ensures Hi(SIZE * p + (0x100 * hi + lo)) == hi && Lo(SIZE * p + (0x100 * hi + lo)) == lo
  {
    var x := SIZE * p + (0x100 * hi + lo);
    assert x == 0x100 * (0x100 * p + hi) + lo;
    assert x / 0x100 == 0x100 * p + hi;
  }

  lemma {:induction false} LdirRuns(m: Machine)
    requires Intact(m)
    ensures Reaches(m, Count(m), Done(m))
    decreases Count(m)
  {
    hide Step, DoLdi, Done, Copied, LdiFlags, Hl, De, Bc, AtLdir;
    FetchedFirst(m);
    OneByte(m);
    if Bc(m) == 1 {
      LastByte(m);
      CountOfOne(m);
      NoSteps(Done(m));
      Next(m, Done(m), 0, Done(m));
    } else {
      var m' := DoLdi(m);
      LdiKeeps(m);
      IntactNext(m, m');
      DoneNext(m, m');
      LdirRuns(m');
      Next(m, m', Count(m'), Done(m));
    }
  }

  /**
   LDIR run to completion: one instruction a byte, BC counting down to its end, a forward copy
   modulo 2^16 in memory, HL and DE behind their ranges, and H, P, N clear with the undocumented
   flags of A plus the last byte.
   */
  lemma LdirCopies(m: Machine) returns (end: Machine)
    requires Intact(m)
    ensures Reaches(m, Count(m), end)
    ensures end.mem == Copied(m.mem, Hl(m), De(m), Count(m))
    ensures Hl(end) == At(Hl(m), Count(m)) && De(end) == At(De(m), Count(m)) && Bc(end) == 0
    ensures end.pc == At(m.pc, 2) && end.a == m.a
    ensures var last := Copied(m.mem, Hl(m), De(m), Count(m) - 1)[At(Hl(m), Count(m) - 1)];
            end.flags == m.flags.(H := 0, P := 0, N := 0, Y := BitOf(m.a + last, 2), X := BitOf(m.a + last, 8))
  {
    hide Word16, Hi, Lo, Pair, Copied, Count, BitOf;
    LdirRuns(m);
    end := Done(m);
    HiLoOf(At(Hl(m), Count(m)));
    HiLoOf(At(De(m), Count(m)));
    PairIsZero(0, 0);
  }

  /** Whatever machine the interpreter reaches after that many instructions, it is this one. */
  lemma LdirAlwaysCopies(m: Machine, end: Machine)
    requires Intact(m) && Reaches(m, Count(m), end)
    ensures end.mem == Copied(m.mem, Hl(m), De(m), Count(m))
    ensures Hl(end) == At(Hl(m), Count(m)) && De(end) == At(De(m), Count(m)) && Bc(end) == 0
    ensures end.pc == At(m.pc, 2)
  {
    hide Intact, Reaches, Copied, Count, Hl, De, Bc;
    var copied := LdirCopies(m);
    ReachesOnlyOne(m, Count(m), end, copied);
  }

  lemma FetchedFirst(m: Machine)
    requires Intact(m)
    ensures AtLdir(m.mem, m.pc)
  {
    assert Copied(m.mem, Hl(m), De(m), 0) == m.mem;
  }

  lemma CountOfOne(m: Machine)
    requires Bc(m) == 1
    ensures Count(m) == 1
  {
  }

  lemma LdiKeeps(m: Machine)
    ensures var m' := DoLdi(m);
            m' == m.(mem := m'.mem, h := m'.h, l := m'.l, d := m'.d, e := m'.e, b := m'.b, c := m'.c, flags := m'.flags)
  {
  }

  // ---- what a forward copy is ----

  /** The `k`-th of the addresses from `start` on. */
  function At(start: Word, k: nat): Word {
    Word16(start + k)
  }

  /** Addresses outside the destination keep their bytes. */
  lemma {:induction false} CopyKeepsOthers(mem: Memory, src: Word, dst: Word, n: nat, address: Word)
    requires forall k: nat :: k < n ==> At(dst, k) != address
    ensures Copied(mem, src, dst, n)[address] == mem[address]
    decreases n
  {
    if n > 0 {
      CopyLast(mem, src, dst, n - 1);
      assert At(dst, n - 1) != address;
      CopyKeepsOthers(mem, src, dst, n - 1, address);
    }
  }

  /** If the destination misses the instruction, the instruction stays intact. */
  lemma MissedStaysIntact(m: Machine)
    requires AtLdir(m.mem, m.pc)
    requires forall k: nat :: k < Count(m) ==> At(De(m), k) != m.pc && At(De(m), k) != Word16(m.pc + 1)
    ensures Intact(m)
  {
    hide Copied, Hl, De, Count;
    forall i: nat | i < Count(m)
      ensures AtLdir(Copied(m.mem, Hl(m), De(m), i), m.pc)
    {
      CopyKeepsOthers(m.mem, Hl(m), De(m), i, m.pc);
      CopyKeepsOthers(m.mem, Hl(m), De(m), i, Word16(m.pc + 1));
    }
  }

  /** No byte of the source is overwritten before it is read. */
  ghost predicate ReadBeforeWritten(src: Word, dst: Word, n: nat) {
    forall i: nat, j: nat :: i < j < n ==> At(dst, i) != At(src, j)
  }

  lemma AtIsInjective(start: Word, i: nat, j: nat)
    requires i < SIZE && j < SIZE && At(start, i) == At(start, j)
    ensures i == j
  {
  }

  /** A block copy: every destination byte is the source byte as it was before, and nothing else changes. */
  lemma {:induction false} CopyIsBlockMove(mem: Memory, src: Word, dst: Word, n: nat, k: nat)
    requires k < n <= SIZE && ReadBeforeWritten(src, dst, n)
    ensures Copied(mem, src, dst, n)[At(dst, k)] == mem[At(src, k)]
    decreases n
  {
    hide Copied, Word16;
    CopyLast(mem, src, dst, n - 1);
    if k == n - 1 {
      forall i: nat | i < n - 1
        ensures At(dst, i) != At(src, k)
      {
      }
      CopyKeepsOthers(mem, src, dst, n - 1, At(src, k));
    } else {
      if At(dst, n - 1) == At(dst, k) {
        AtIsInjective(dst, n - 1, k);
      }
      CopyIsBlockMove(mem, src, dst, n - 1, k);
    }
  }

  /** With DE one above HL the first byte fills the whole range. */
  lemma {:induction false} CopyIsFill(mem: Memory, src: Word, n: nat, k: nat)
    requires n < SIZE && k <= n
    ensures Copied(mem, src, At(src, 1), n)[At(src, k)] == mem[src]
    decreases n
  {
    hide Copied;
    if n == 0 {
      Nothing(mem, src);
    } else {
      CopyLast(mem, src, At(src, 1), n - 1);
      Advance(src, 1, n - 1);
      CopyIsFill(mem, src, n - 1, if k == n then n - 1 else k);
      if k < n && At(src, n) == At(src, k) {
        AtIsInjective(src, n, k);
      }
    }
  }

  lemma Nothing(mem: Memory, src: Word)
    ensures Copied(mem, src, At(src, 1), 0) == mem && At(src, 0) == src
  {
  }
}
