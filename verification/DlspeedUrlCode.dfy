/**
 The machine code of DLSPEED's URL parser on the interpreter: PARSE_URL with the two routines it
 calls, assembled anywhere in memory, parses what `DlspeedUrl.Parse` says.
 */
module DlspeedUrlCode {
  import opened Bytes
  import opened Z80
  import opened Z80View
  import opened DlspeedUrl

  // ---- text in memory ----

  function Octets(s: string): (r: seq<Byte>)
    ensures |r| == |s|
  {
    seq(|s|, i requires 0 <= i < |s| => s[i] as int % 0x100)
  }

  /** Characters of one byte, none of them NUL. */
  ghost predicate Plain(s: string) {
    forall i :: 0 <= i < |s| ==> 0 < s[i] as int < 0x100
  }

  /** The text and its NUL. */
  ghost predicate Text(mem: Memory, at: nat, s: string) {
    Lies(mem, at, Octets(s) + [0])
  }

  lemma TextHead(mem: Memory, at: nat, s: string)
    requires Text(mem, at, s) && Plain(s)
    ensures at + |s| + 1 < SIZE
    ensures s == "" ==> mem[at] == 0
    ensures s != "" ==> mem[at] == s[0] as int != 0 && Text(mem, at + 1, s[1..]) && Plain(s[1..])
  {
    ByteOf(mem, at, Octets(s) + [0], 0);
    if s != "" {
      var whole := Octets(s) + [0];
      assert whole[1..] == Octets(s[1..]) + [0];
      assert mem[at + 1..at + |whole|] == mem[at..at + |whole|][1..];
    }
  }

  /** The stretches of memory have nothing in common. */
  predicate Apart(at: int, n: int, from: int, k: int) {
    at + n <= from || from + k <= at
  }

  /** Only the `n` bytes from `from` on differ. */
  ghost predicate Changed(mem: Memory, mem': Memory, from: int, n: int) {
    forall a: Word :: a < from || a >= from + n ==> mem'[a] == mem[a]
  }

  lemma LiesKept(mem: Memory, mem': Memory, at: nat, bytes: seq<Byte>, from: int, n: int)
    requires Lies(mem, at, bytes) && Changed(mem, mem', from, n) && Apart(at, |bytes|, from, n)
    ensures Lies(mem', at, bytes)
  {
    forall i | 0 <= i < |bytes|
      ensures mem'[at + i] == bytes[i]
    {
      ByteOf(mem, at, bytes, i);
    }
    assert mem'[at..at + |bytes|] == bytes;
  }

  // ---- the loops' common copying of one character ----

  function CopyCode(back: Byte): (code: seq<Byte>)
    ensures |code| == 7
  {
    [0x7E, 0x12, 0x23, 0x13, 0x0D, 0x18, back]
  }

  /** LD A,(HL) / LD (DE),A / INC HL / INC DE / DEC C and back to the top of the loop. */
  lemma CopyOne(v0: View, v: View, at: nat, back: Byte, top: Word) returns (v': View)
    requires Leads(v0, v) && On(v, at, CopyCode(back), 0) && top == at + 7 + SignedOffset(back)
    requires v.hl + 1 < SIZE && v.de + 1 < SIZE && v.c > 0 && Apart(at, 7, v.de, 1)
    ensures Leads(v0, v')
    ensures v' == v.(a := v.mem[v.hl], c := v.c - 1, z := v.c == 1, de := v.de + 1, hl := v.hl + 1, pc := top,
                     mem := v.mem[v.de := v.mem[v.hl]])
  {
    hide Leads, Lies, SignedOffset;
    var code := CopyCode(back);
    var v1 := LoadAAtHl(v0, v, at, code, 0);
    var v2 := StoreAtDe(v0, v1, at, code, 1);
    LiesKept(v1.mem, v2.mem, at, code, v.de, 1);
    var v3 := IncHl(v0, v2, at, code, 2);
    var v4 := IncDe(v0, v3, at, code, 3);
    var v5 := DecC(v0, v4, at, code, 4);
    v' := Jump(v0, v5, at, code, 5, top);
  }

  // ---- the loops' tests ----

  function EndCode(skip: Byte, skipSlash: Byte): (code: seq<Byte>)
    ensures |code| == 8
  {
    [0x7E, 0xB7, 0x28, skip, 0xFE, 0x2F, 0x28, skipSlash]
  }

  /** LD A,(HL) / OR A / JR Z / CP '/' / JR Z. */
  lemma EndTest(v0: View, v: View, at: nat, skip: Byte, skipSlash: Byte) returns (v': View)
    requires Leads(v0, v) && On(v, at, EndCode(skip, skipSlash), 0)
    requires skip < 0x80 && skipSlash < 0x80 && at + 8 + Max(skip, skipSlash) < SIZE
    ensures Leads(v0, v') && v' == v.(a := v.mem[v.hl], z := v'.z, carry := v'.carry, pc := v'.pc)
    ensures v'.pc == if v.mem[v.hl] == 0 then at + 4 + skip
                     else if v.mem[v.hl] == 0x2F then at + 8 + skipSlash
                     else at + 8
  {
    hide Leads, Lies;
    var code := EndCode(skip, skipSlash);
    var v1 := LoadAAtHl(v0, v, at, code, 0);
    var v2 := OrA(v0, v1, at, code, 1);
    v' := JumpZero(v0, v2, at, code, 2, skip);
    if !v2.z {
      var v3 := Compare(v0, v', at, code, 4);
      v' := JumpZero(v0, v3, at, code, 6, skipSlash);
    }
  }

  const COLON_CODE: seq<Byte> := [0xFE, 0x3A, 0x28, 0x20]

  /** CP ':' / JR Z. */
  lemma ColonTest(v0: View, v: View, at: nat) returns (v': View)
    requires Leads(v0, v) && On(v, at, COLON_CODE, 0) && at + 0x24 < SIZE
    ensures Leads(v0, v') && v' == v.(z := v'.z, carry := v'.carry, pc := v'.pc)
    ensures v'.pc == if v.a == 0x3A then at + 0x24 else at + 4
  {
    hide Leads, Lies;
    var v1 := Compare(v0, v, at, COLON_CODE, 0);
    v' := JumpZero(v0, v1, at, COLON_CODE, 2, 0x20);
  }

  const DIGIT_CODE: seq<Byte> := [0xFE, 0x30, 0x38, 0x3A, 0xFE, 0x3A, 0x30, 0x36]

  /** CP '0' / JR C / CP '9'+1 / JR NC. */
  lemma DigitTest(v0: View, v: View, at: nat) returns (v': View)
    requires Leads(v0, v) && On(v, at, DIGIT_CODE, 0) && at + 0x3E < SIZE
    ensures Leads(v0, v') && v' == v.(z := v'.z, carry := v'.carry, pc := v'.pc)
    ensures v'.pc == if 0x30 <= v.a <= 0x39 then at + 8 else at + 0x3E
  {
    hide Leads, Lies;
    var v1 := Compare(v0, v, at, DIGIT_CODE, 0);
    v' := JumpCarry(v0, v1, at, DIGIT_CODE, 2, 0x3A);
    if !v1.carry {
      var v2 := Compare(v0, v', at, DIGIT_CODE, 4);
      v' := JumpNoCarry(v0, v2, at, DIGIT_CODE, 6, 0x36);
    }
  }

  function RoomCode(skip: Byte): (code: seq<Byte>)
    ensures |code| == 4
  {
    [0x79, 0xB7, 0x28, skip]
  }

  /** LD A,C / OR A / JR Z. */
  lemma RoomTest(v0: View, v: View, at: nat, skip: Byte) returns (v': View)
    requires Leads(v0, v) && On(v, at, RoomCode(skip), 0) && skip < 0x80 && at + 4 + skip < SIZE
    ensures Leads(v0, v') && v' == v.(a := v.c, z := v'.z, carry := v'.carry, pc := v'.pc)
    ensures v'.pc == if v.c == 0 then at + 4 + skip else at + 4
  {
    hide Leads, Lies;
    var code := RoomCode(skip);
    var v1 := LoadAFromC(v0, v, at, code, 0);
    var v2 := OrA(v0, v1, at, code, 1);
    v' := JumpZero(v0, v2, at, code, 2, skip);
  }

  // ---- the host loop ----

  /** The code of PARSE_URL takes this many bytes. */
  const CODE_SIZE := 145

  ghost predicate HostLaid(base: nat, mem: Memory) {
    && base + CODE_SIZE < SIZE
    && Lies(mem, base + 21, EndCode(0x13, 0x0F)) && Lies(mem, base + 29, COLON_CODE)
    && Lies(mem, base + 33, RoomCode(0x6A)) && Lies(mem, base + 37, CopyCode(0xE9))
  }

  lemma HostKept(base: nat, mem: Memory, mem': Memory, from: int, n: int)
    requires HostLaid(base, mem) && Changed(mem, mem', from, n) && Apart(base, CODE_SIZE, from, n)
    ensures HostLaid(base, mem')
  {
    hide Lies, Changed;
    LiesKept(mem, mem', base + 21, EndCode(0x13, 0x0F), from, n);
    LiesKept(mem, mem', base + 29, COLON_CODE, from, n);
    LiesKept(mem, mem', base + 33, RoomCode(0x6A), from, n);
    LiesKept(mem, mem', base + 37, CopyCode(0xE9), from, n);
  }

  /** What a loop has done that copied `part`: the pointers behind it, the rest of memory as it was. */
  ghost predicate Copied(v: View, v': View, part: string) {
    && v'.hl == v.hl + |part| && v'.de == v.de + |part| && v'.c == v.c - |part| && v'.sp == v.sp
    && Changed(v.mem, v'.mem, v.de, |part|)
    && v.de + |part| < SIZE && v'.mem[v.de..v.de + |part|] == Octets(part)
  }

  /** What a loop leaves that ran out of room or found a wrong character. */
  ghost predicate Failed(v: View, v': View, base: nat) {
    v'.pc == base + 143 && v'.sp == v.sp && Changed(v.mem, v'.mem, v.de, v.c)
  }

  lemma NothingCopied(v: View, v': View)
    requires v' == v.(a := v'.a, z := v'.z, carry := v'.carry, pc := v'.pc)
    ensures Copied(v, v', "")
  {
  }

  /** One more character in front of what the rest of the loop copies. */
  lemma OneMore(v: View, v1: View, v': View, first: char, part: string)
    requires v1.hl == v.hl + 1 && v1.de == v.de + 1 && v1.c == v.c - 1 && v1.sp == v.sp
    requires 0 < first as int < 0x100 && v1.mem == v.mem[v.de := first as int] && Copied(v1, v', part)
    ensures Copied(v, v', [first] + part)
  {
    assert v'.mem[v.de] == first as int;
    assert Octets([first] + part) == [first as int] + Octets(part);
    assert v'.mem[v.de..v.de + 1 + |part|] == [v'.mem[v.de]] + v'.mem[v.de + 1..v.de + 1 + |part|];
  }

  lemma OneMoreFailed(v: View, v1: View, v': View, base: nat, value: Byte)
    requires v1.de == v.de + 1 && v1.c == v.c - 1 && v1.sp == v.sp && v1.mem == v.mem[v.de := value]
    requires Failed(v1, v', base)
    ensures Failed(v, v', base)
  {
  }

  lemma TextKept(mem: Memory, mem': Memory, at: nat, s: string, from: int, n: int)
    requires Text(mem, at, s) && Changed(mem, mem', from, n) && Apart(at, |s| + 1, from, n)
    ensures Text(mem', at, s)
  {
    hide Lies, Changed;
    LiesKept(mem, mem', at, Octets(s) + [0], from, n);
  }

  lemma HostHead(s: string)
    ensures s == "" || s[0] == '/' || s[0] == ':' ==> HostPart(s) == ""
    ensures s != "" && s[0] != '/' && s[0] != ':' ==> HostPart(s) == [s[0]] + HostPart(s[1..])
  {
  }

  lemma OneWritten(mem: Memory, at: Word, value: Byte)
    ensures Changed(mem, mem[at := value], at, 1)
  {
  }

  lemma {:induction false} HostLoop(v0: View, v: View, base: nat, s: string) returns (v': View)
    requires Leads(v0, v) && v.pc == base + 21 && HostLaid(base, v.mem)
    requires Plain(s) && Text(v.mem, v.hl, s) && v.de + v.c + 1 < SIZE
    requires Apart(v.hl, |s| + 1, v.de, v.c) && Apart(base, CODE_SIZE, v.de, v.c)
    ensures Leads(v0, v')
    ensures var part := HostPart(s);
            if |part| > v.c then Failed(v, v', base)
            else
              && Copied(v, v', part)
              && v'.pc == base + if |s| > |part| && s[|part|] == ':' then 65 else 44
    decreases |s|
  {
    hide Leads, Lies, Text, Plain, Changed, HostPart, Copied, Failed;
    TextHead(v.mem, v.hl, s);
    HostHead(s);
    v' := EndTest(v0, v, base + 21, 0x13, 0x0F);
    if s != "" && s[0] != '/' {
      v' := ColonTest(v0, v', base + 29);
      if s[0] != ':' {
        v' := RoomTest(v0, v', base + 33, 0x6A);
        if v.c == 0 {
          NothingFailed(v, v', base);
        } else {
          var v1 := CopyOne(v0, v', base + 37, 0xE9, base + 21);
          OneWritten(v.mem, v.de, v.mem[v.hl]);
          HostKept(base, v.mem, v1.mem, v.de, 1);
          TextKept(v.mem, v1.mem, v.hl + 1, s[1..], v.de, 1);
          v' := HostLoop(v0, v1, base, s[1..]);
          if |HostPart(s)| > v.c {
            OneMoreFailed(v, v1, v', base, v.mem[v.hl]);
          } else {
            OneMore(v, v1, v', s[0], HostPart(s[1..]));
          }
        }
      } else {
        NothingCopied(v, v');
      }
    } else {
      NothingCopied(v, v');
    }
  }

  lemma NothingFailed(v: View, v': View, base: nat)
    requires v'.pc == base + 143 && v' == v.(a := v'.a, z := v'.z, carry := v'.carry, pc := v'.pc)
    ensures Failed(v, v', base)
  {
  }

  // ---- the port loop ----

  ghost predicate PortLaid(base: nat, mem: Memory) {
    && base + CODE_SIZE < SIZE
    && Lies(mem, base + 73, EndCode(0x17, 0x13)) && Lies(mem, base + 81, DIGIT_CODE)
    && Lies(mem, base + 89, RoomCode(0x32)) && Lies(mem, base + 93, CopyCode(0xE5))
  }

  lemma PortKept(base: nat, mem: Memory, mem': Memory, from: int, n: int)
    requires PortLaid(base, mem) && Changed(mem, mem', from, n) && Apart(base, CODE_SIZE, from, n)
    ensures PortLaid(base, mem')
  {
    hide Lies, Changed;
    LiesKept(mem, mem', base + 73, EndCode(0x17, 0x13), from, n);
    LiesKept(mem, mem', base + 81, DIGIT_CODE, from, n);
    LiesKept(mem, mem', base + 89, RoomCode(0x32), from, n);
    LiesKept(mem, mem', base + 93, CopyCode(0xE5), from, n);
  }

  lemma PortHead(s: string)
    ensures s == "" || s[0] == '/' ==> PortPart(s) == "" && AllDigits("")
    ensures s != "" && s[0] != '/' ==>
              && PortPart(s) == [s[0]] + PortPart(s[1..])
              && (AllDigits(PortPart(s)) <==> IsDigit(s[0]) && AllDigits(PortPart(s[1..])))
  {
    hide IsDigit;
    if s != "" && s[0] != '/' {
      var part, rest := PortPart(s), PortPart(s[1..]);
      assert part[0] == s[0] && part[1..] == rest;
      assert forall k :: 0 <= k < |rest| ==> part[k + 1] == rest[k];
    }
  }

  lemma {:induction false} PortLoop(v0: View, v: View, base: nat, s: string) returns (v': View)
    requires Leads(v0, v) && v.pc == base + 73 && PortLaid(base, v.mem)
    requires Plain(s) && Text(v.mem, v.hl, s) && v.de + v.c + 1 < SIZE
    requires Apart(v.hl, |s| + 1, v.de, v.c) && Apart(base, CODE_SIZE, v.de, v.c)
    ensures Leads(v0, v')
    ensures var part := PortPart(s);
            if |part| > v.c || !AllDigits(part) then Failed(v, v', base) else Copied(v, v', part) && v'.pc == base + 100
    decreases |s|
  {
    hide Leads, Lies, Text, Plain, Changed, PortPart, AllDigits, Copied, Failed;
    TextHead(v.mem, v.hl, s);
    PortHead(s);
    v' := EndTest(v0, v, base + 73, 0x17, 0x13);
    if s != "" && s[0] != '/' {
      v' := DigitTest(v0, v', base + 81);
      if IsDigit(s[0]) {
        v' := RoomTest(v0, v', base + 89, 0x32);
        if v.c == 0 {
          NothingFailed(v, v', base);
        } else {
          var v1 := CopyOne(v0, v', base + 93, 0xE5, base + 73);
          OneWritten(v.mem, v.de, v.mem[v.hl]);
          PortKept(base, v.mem, v1.mem, v.de, 1);
          TextKept(v.mem, v1.mem, v.hl + 1, s[1..], v.de, 1);
          v' := PortLoop(v0, v1, base, s[1..]);
          if |PortPart(s)| > v.c || !AllDigits(PortPart(s)) {
            OneMoreFailed(v, v1, v', base, v.mem[v.hl]);
          } else {
            OneMore(v, v1, v', s[0], PortPart(s[1..]));
          }
        }
      } else {
        NothingFailed(v, v', base);
      }
    } else {
      NothingCopied(v, v');
    }
  }

  // ---- the path loop ----

  const NUL_CODE: seq<Byte> := [0x7E, 0xB7, 0x28, 0x0B]

  ghost predicate PathLaid(base: nat, mem: Memory) {
    && base + CODE_SIZE < SIZE
    && Lies(mem, base + 124, NUL_CODE) && Lies(mem, base + 128, RoomCode(0x0B)) && Lies(mem, base + 132, CopyCode(0xF1))
  }

  lemma PathKept(base: nat, mem: Memory, mem': Memory, from: int, n: int)
    requires PathLaid(base, mem) && Changed(mem, mem', from, n) && Apart(base, CODE_SIZE, from, n)
    ensures PathLaid(base, mem')
  {
    hide Lies, Changed;
    LiesKept(mem, mem', base + 124, NUL_CODE, from, n);
    LiesKept(mem, mem', base + 128, RoomCode(0x0B), from, n);
    LiesKept(mem, mem', base + 132, CopyCode(0xF1), from, n);
  }

  /** LD A,(HL) / OR A / JR Z. */
  lemma NulTest(v0: View, v: View, at: nat) returns (v': View)
    requires Leads(v0, v) && On(v, at, NUL_CODE, 0) && at + 15 < SIZE
    ensures Leads(v0, v') && v' == v.(a := v.mem[v.hl], z := v'.z, carry := v'.carry, pc := v'.pc)
    ensures v'.pc == if v.mem[v.hl] == 0 then at + 15 else at + 4
  {
    hide Leads, Lies;
    var v1 := LoadAAtHl(v0, v, at, NUL_CODE, 0);
    var v2 := OrA(v0, v1, at, NUL_CODE, 1);
    v' := JumpZero(v0, v2, at, NUL_CODE, 2, 11);
  }

  lemma {:induction false} PathLoop(v0: View, v: View, base: nat, s: string) returns (v': View)
    requires Leads(v0, v) && v.pc == base + 124 && PathLaid(base, v.mem)
    requires Plain(s) && Text(v.mem, v.hl, s) && v.de + v.c + 1 < SIZE
    requires Apart(v.hl, |s| + 1, v.de, v.c) && Apart(base, CODE_SIZE, v.de, v.c)
    ensures Leads(v0, v')
    ensures if |s| > v.c then Failed(v, v', base) else Copied(v, v', s) && v'.pc == base + 139
    decreases |s|
  {
    hide Leads, Lies, Text, Plain, Changed, Copied, Failed;
    TextHead(v.mem, v.hl, s);
    v' := NulTest(v0, v, base + 124);
    if s != "" {
      v' := RoomTest(v0, v', base + 128, 0x0B);
      if v.c == 0 {
        NothingFailed(v, v', base);
      } else {
        var v1 := CopyOne(v0, v', base + 132, 0xF1, base + 124);
        OneWritten(v.mem, v.de, v.mem[v.hl]);
        PathKept(base, v.mem, v1.mem, v.de, 1);
        TextKept(v.mem, v1.mem, v.hl + 1, s[1..], v.de, 1);
        v' := PathLoop(v0, v1, base, s[1..]);
        if |s| > v.c {
          OneMoreFailed(v, v1, v', base, v.mem[v.hl]);
        } else {
          OneMore(v, v1, v', s[0], s[1..]);
          assert [s[0]] + s[1..] == s;
        }
      }
    } else {
      NothingCopied(v, v');
    }
  }

  // ---- COPY_ASCIIZ ----

  const COPY_ASCIIZ: seq<Byte> := [0x7E, 0x12, 0xB7, 0xC8, 0x23, 0x13, 0x18, 0xF8]

  /** The return address on the stack. */
  function ReturnAddress(v: View): Word
    requires v.sp + 1 < SIZE
  {
    Pair(v.mem[v.sp + 1], v.mem[v.sp])
  }

  lemma CopyStep(v0: View, v: View, at: nat) returns (v': View)
    requires Leads(v0, v) && On(v, at, COPY_ASCIIZ, 0) && v.hl + 1 < SIZE && v.de + 1 < SIZE && v.sp + 2 < SIZE
    requires Apart(at, 8, v.de, 1) && Apart(v.sp, 2, v.de, 1)
    ensures Leads(v0, v') && v'.mem == v.mem[v.de := v.mem[v.hl]]
    ensures v.mem[v.hl] == 0 ==> v'.pc == ReturnAddress(v) && v'.sp == v.sp + 2
    ensures v.mem[v.hl] != 0 ==> v'.pc == at && v'.sp == v.sp && v'.hl == v.hl + 1 && v'.de == v.de + 1
  {
    hide Leads, Lies, Pair;
    var v1 := LoadAAtHl(v0, v, at, COPY_ASCIIZ, 0);
    var v2 := StoreAtDe(v0, v1, at, COPY_ASCIIZ, 1);
    LiesKept(v1.mem, v2.mem, at, COPY_ASCIIZ, v.de, 1);
    var v3 := OrA(v0, v2, at, COPY_ASCIIZ, 2);
    v' := ReturnZero(v0, v3, at, COPY_ASCIIZ, 3);
    if v.mem[v.hl] != 0 {
      var v4 := IncHl(v0, v', at, COPY_ASCIIZ, 4);
      var v5 := IncDe(v0, v4, at, COPY_ASCIIZ, 5);
      v' := Jump(v0, v5, at, COPY_ASCIIZ, 6, at);
    }
  }

  lemma {:induction false} CopyAsciiz(v0: View, v: View, at: nat, s: string) returns (v': View)
    requires Leads(v0, v) && On(v, at, COPY_ASCIIZ, 0) && Plain(s) && Text(v.mem, v.hl, s)
    requires v.de + |s| + 1 < SIZE && v.sp + 2 < SIZE
    requires Apart(at, 8, v.de, |s| + 1) && Apart(v.sp, 2, v.de, |s| + 1) && Apart(v.hl, |s| + 1, v.de, |s| + 1)
    ensures Leads(v0, v') && v'.pc == ReturnAddress(v) && v'.sp == v.sp + 2
    ensures Changed(v.mem, v'.mem, v.de, |s| + 1) && Text(v'.mem, v.de, s)
    decreases |s|
  {
    hide Leads, Lies, Text, Plain, Changed, Pair;
    TextHead(v.mem, v.hl, s);
    v' := CopyStep(v0, v, at);
    OneWritten(v.mem, v.de, v.mem[v.hl]);
    if s == "" {
      TextOfNothing(v'.mem, v.de);
    } else {
      var v1 := v';
      LiesKept(v.mem, v1.mem, at, COPY_ASCIIZ, v.de, 1);
      TextKept(v.mem, v1.mem, v.hl + 1, s[1..], v.de, 1);
      v' := CopyAsciiz(v0, v1, at, s[1..]);
      TextLonger(v.mem, v1.mem, v'.mem, v.de, s);
    }
  }

  lemma TextOfNothing(mem: Memory, at: nat)
    requires at + 1 < SIZE && mem[at] == 0
    ensures Text(mem, at, "")
  {
    assert mem[at..at + 1] == [mem[at]];
  }

  lemma TextLonger(mem: Memory, mid: Memory, mem': Memory, at: nat, s: string)
    requires s != "" && Plain(s) && at + |s| + 1 < SIZE && mid == mem[at := s[0] as int]
    requires Changed(mid, mem', at + 1, |s|) && Text(mem', at + 1, s[1..])
    ensures Changed(mem, mem', at, |s| + 1) && Text(mem', at, s)
  {
    var whole := Octets(s) + [0];
    assert mem'[at] == s[0] as int;
    assert whole == [s[0] as int] + (Octets(s[1..]) + [0]);
    assert mem'[at..at + |whole|] == [mem'[at]] + mem'[at + 1..at + |whole|];
  }

  // ---- STARTSWITH ----

  const MATCH_LOOP: seq<Byte> := [0x1A, 0xB7, 0x28, 0x07, 0xBE, 0x20, 0x07, 0x23, 0x13, 0x18, 0xF5]
  const MATCH_CODE: seq<Byte> := [0xE1, 0xAF, 0xC9]
  const MISS_CODE: seq<Byte> := [0xE1, 0x3E, 0xFF, 0xB7, 0xC9]
  const PUSH_CODE: seq<Byte> := [0xE5]

  /** One character of the pattern at DE against one at HL. */
  lemma MatchStep(v0: View, v: View, at: nat) returns (v': View)
    requires Leads(v0, v) && On(v, at, MATCH_LOOP, 0) && v.hl + 1 < SIZE && v.de + 1 < SIZE && at + 14 < SIZE
    ensures Leads(v0, v') && v'.mem == v.mem && v'.sp == v.sp
    ensures if v.mem[v.de] == 0 then v'.pc == at + 11
            else if v.mem[v.de] != v.mem[v.hl] then v'.pc == at + 14
            else v'.pc == at && v'.hl == v.hl + 1 && v'.de == v.de + 1
  {
    hide Leads, Lies;
    var v1 := LoadAAtDe(v0, v, at, MATCH_LOOP, 0);
    var v2 := OrA(v0, v1, at, MATCH_LOOP, 1);
    v' := JumpZero(v0, v2, at, MATCH_LOOP, 2, 7);
    if v.mem[v.de] != 0 {
      var v3 := CompareAtHl(v0, v', at, MATCH_LOOP, 4);
      v' := JumpNotZero(v0, v3, at, MATCH_LOOP, 5, 7);
      if v.mem[v.de] == v.mem[v.hl] {
        var v4 := IncHl(v0, v', at, MATCH_LOOP, 7);
        var v5 := IncDe(v0, v4, at, MATCH_LOOP, 8);
        v' := Jump(v0, v5, at, MATCH_LOOP, 9, at);
      }
    }
  }

  lemma {:induction false} MatchLoop(v0: View, v: View, at: nat, s: string, pattern: string) returns (v': View)
    requires Leads(v0, v) && On(v, at, MATCH_LOOP, 0) && at + 14 < SIZE
    requires Plain(s) && Plain(pattern) && Text(v.mem, v.hl, s) && Text(v.mem, v.de, pattern)
    ensures Leads(v0, v') && v'.mem == v.mem && v'.sp == v.sp
    ensures v'.pc == if pattern <= s then at + 11 else at + 14
    decreases |pattern|
  {
    hide Leads, Lies, Text, Plain;
    TextHead(v.mem, v.hl, s);
    TextHead(v.mem, v.de, pattern);
    v' := MatchStep(v0, v, at);
    if pattern != "" && s != "" && pattern[0] == s[0] {
      v' := MatchLoop(v0, v', at, s[1..], pattern[1..]);
      assert pattern <= s <==> pattern[1..] <= s[1..];
    }
  }

  ghost predicate StartsWithLaid(at: nat, mem: Memory) {
    && at + 20 < SIZE
    && Lies(mem, at, PUSH_CODE) && Lies(mem, at + 1, MATCH_LOOP)
    && Lies(mem, at + 12, MATCH_CODE) && Lies(mem, at + 15, MISS_CODE)
  }

  lemma PushedIs(mem: Memory, sp: nat, word: Word)
    requires sp + 2 < SIZE
    ensures Changed(mem, Pushed(mem, sp, word), sp, 2)
    ensures Pair(Pushed(mem, sp, word)[sp + 1], Pushed(mem, sp, word)[sp]) == word
  {
    HiLoOf(word);
  }

  lemma StartsWithIs(v0: View, v: View, at: nat, s: string, pattern: string) returns (v': View)
    requires Leads(v0, v) && v.pc == at && StartsWithLaid(at, v.mem) && v.sp >= 2 && v.sp + 2 < SIZE
    requires Plain(s) && Plain(pattern) && Text(v.mem, v.hl, s) && Text(v.mem, v.de, pattern)
    requires Apart(at, 20, v.sp - 2, 2) && Apart(v.hl, |s| + 1, v.sp - 2, 2) && Apart(v.de, |pattern| + 1, v.sp - 2, 2)
    ensures Leads(v0, v') && v'.pc == ReturnAddress(v) && v'.sp == v.sp + 2 && v'.hl == v.hl
    ensures (v'.z <==> pattern <= s) && Changed(v.mem, v'.mem, v.sp - 2, 2)
  {
    hide Leads, Lies, Text, Plain, Pair, Hi, Lo, Pushed;
    var v1 := PushHl(v0, v, at, PUSH_CODE, 0);
    PushedIs(v.mem, v.sp - 2, v.hl);
    TextKept(v.mem, v1.mem, v.hl, s, v.sp - 2, 2);
    TextKept(v.mem, v1.mem, v.de, pattern, v.sp - 2, 2);
    LiesKept(v.mem, v1.mem, at + 1, MATCH_LOOP, v.sp - 2, 2);
    LiesKept(v.mem, v1.mem, at + 12, MATCH_CODE, v.sp - 2, 2);
    LiesKept(v.mem, v1.mem, at + 15, MISS_CODE, v.sp - 2, 2);
    var v2 := MatchLoop(v0, v1, at + 1, s, pattern);
    if pattern <= s {
      v' := Match(v0, v2, at + 12);
    } else {
      v' := Miss(v0, v2, at + 15);
    }
  }

  lemma Match(v0: View, v: View, at: nat) returns (v': View)
    requires Leads(v0, v) && On(v, at, MATCH_CODE, 0) && v.sp + 4 < SIZE
    ensures Leads(v0, v') && v'.mem == v.mem && v'.z && v'.sp == v.sp + 4 && v'.hl == ReturnAddress(v)
    ensures v'.pc == Pair(v.mem[v.sp + 3], v.mem[v.sp + 2])
  {
    hide Leads, Lies, Pair;
    var v1 := PopHl(v0, v, at, MATCH_CODE, 0);
    var v2 := XorA(v0, v1, at, MATCH_CODE, 1);
    v' := Return(v0, v2, at, MATCH_CODE, 2);
  }

  lemma Miss(v0: View, v: View, at: nat) returns (v': View)
    requires Leads(v0, v) && On(v, at, MISS_CODE, 0) && v.sp + 4 < SIZE
    ensures Leads(v0, v') && v'.mem == v.mem && !v'.z && v'.sp == v.sp + 4 && v'.hl == ReturnAddress(v)
    ensures v'.pc == Pair(v.mem[v.sp + 3], v.mem[v.sp + 2])
  {
    hide Leads, Lies, Pair;
    var v1 := PopHl(v0, v, at, MISS_CODE, 0);
    var v2 := LoadA(v0, v1, at, MISS_CODE, 1);
    var v3 := OrA(v0, v2, at, MISS_CODE, 3);
    v' := Return(v0, v3, at, MISS_CODE, 4);
  }

  // ---- PARSE_URL in memory ----

  /** Where everything is that PARSE_URL names, with the stack pointer and the return address it is entered with. */
  datatype Layout = Layout(
    base: Word, startsWith: Word, copyAsciiz: Word, scheme: Word, defaultPort: Word, defaultPath: Word,
    url: Word, host: Word, port: Word, path: Word, sp: Word, ret: Word)

  const STARTS_WITH := PUSH_CODE + MATCH_LOOP + MATCH_CODE + MISS_CODE
  const HOST_LOOP := EndCode(0x13, 0x0F) + COLON_CODE + RoomCode(0x6A) + CopyCode(0xE9)
  const PORT_LOOP := EndCode(0x17, 0x13) + DIGIT_CODE + RoomCode(0x32) + CopyCode(0xE5)
  const PATH_LOOP := NUL_CODE + RoomCode(0x0B) + CopyCode(0xF1)
  const PATH_TEST: seq<Byte> := [0x7E, 0xFE, 0x2F, 0x28, 0x06, 0xB7, 0x20, 0x1B]
  const DONE_CODE: seq<Byte> := [0xAF, 0x12, 0xB7, 0xC9]
  const FAIL_CODE: seq<Byte> := [0x37, 0xC9]

  function SchemeCode(l: Layout): (code: seq<Byte>)
    ensures |code| == 21
  {
    [0x21, Lo(l.url), Hi(l.url), 0x11, Lo(l.scheme), Hi(l.scheme), 0xCD, Lo(l.startsWith), Hi(l.startsWith),
     0xC2, Lo(l.base + 143), Hi(l.base + 143), 0x01, 0x07, 0x00, 0x09, 0x11, Lo(l.host), Hi(l.host), 0x0E, 0x3F]
  }

  /** LD (DE),0 and a jump if the buffer is empty. */
  function CloseCode(buffer: Word, skip: Byte): (code: seq<Byte>)
    ensures |code| == 8
  {
    [0xAF, 0x12, 0x3A, Lo(buffer), Hi(buffer), 0xB7, 0x28, skip]
  }

  function DefaultPortCode(l: Layout): (code: seq<Byte>)
    ensures |code| == 13
  {
    [0xE5, 0x21, Lo(l.defaultPort), Hi(l.defaultPort), 0x11, Lo(l.port), Hi(l.port),
     0xCD, Lo(l.copyAsciiz), Hi(l.copyAsciiz), 0xE1, 0x18, 0x2B]
  }

  function PortStartCode(l: Layout): (code: seq<Byte>)
    ensures |code| == 8
  {
    [0xAF, 0x12, 0x23, 0x11, Lo(l.port), Hi(l.port), 0x0E, 0x07]
  }

  function PathStartCode(l: Layout): (code: seq<Byte>)
    ensures |code| == 8
  {
    [0x21, Lo(l.defaultPath), Hi(l.defaultPath), 0x11, Lo(l.path), Hi(l.path), 0x0E, 0xBF]
  }

  function ParseUrlCode(l: Layout): (code: seq<Byte>)
    ensures |code| == CODE_SIZE
  {
    SchemeCode(l) + HOST_LOOP + CloseCode(l.host, 0x5B) + DefaultPortCode(l) + PortStartCode(l) + PORT_LOOP
    + CloseCode(l.port, 0x23) + PATH_TEST + PathStartCode(l) + PATH_LOOP + DONE_CODE + FAIL_CODE
  }

  /** Code, constants, the text and the return address are in memory. */
  ghost predicate Image(l: Layout, text: string, mem: Memory) {
    && Lies(mem, l.base, ParseUrlCode(l))
    && Lies(mem, l.startsWith, STARTS_WITH) && Lies(mem, l.copyAsciiz, COPY_ASCIIZ)
    && Text(mem, l.scheme, SCHEME) && Text(mem, l.defaultPort, DEFAULT_PORT) && Text(mem, l.defaultPath, DEFAULT_PATH)
    && Text(mem, l.url, text)
    && Lies(mem, l.sp, [Lo(l.ret), Hi(l.ret)])
  }

  /** The stretch has nothing in common with what `Image` lists for a text of `n` characters. */
  predicate Clear(l: Layout, n: nat, from: int, k: int) {
    && Apart(l.base, CODE_SIZE, from, k) && Apart(l.startsWith, 20, from, k) && Apart(l.copyAsciiz, 8, from, k)
    && Apart(l.scheme, 8, from, k) && Apart(l.defaultPort, 3, from, k) && Apart(l.defaultPath, 2, from, k)
    && Apart(l.url, n + 1, from, k) && Apart(l.sp, 2, from, k)
  }

  /** The buffers and the four bytes below the stack pointer are in memory, clear and apart. */
  predicate Valid(l: Layout, n: nat) {
    && 4 <= l.sp && l.sp + 2 < SIZE
    && l.host + HOST_SIZE < SIZE && l.port + PORT_SIZE < SIZE && l.path + PATH_SIZE < SIZE
    && Clear(l, n, l.host, HOST_SIZE) && Clear(l, n, l.port, PORT_SIZE) && Clear(l, n, l.path, PATH_SIZE)
    && Clear(l, n, l.sp - 4, 4)
    && Apart(l.host, HOST_SIZE, l.port, PORT_SIZE) && Apart(l.host, HOST_SIZE, l.path, PATH_SIZE)
    && Apart(l.port, PORT_SIZE, l.path, PATH_SIZE)
    && Apart(l.host, HOST_SIZE, l.sp - 4, 4) && Apart(l.port, PORT_SIZE, l.sp - 4, 4)
    && Apart(l.path, PATH_SIZE, l.sp - 4, 4)
  }

  /** The stretch is part of one of the buffers or of the four bytes below the stack pointer. */
  predicate Within(l: Layout, from: int, n: int) {
    || (l.host <= from && from + n <= l.host + HOST_SIZE)
    || (l.port <= from && from + n <= l.port + PORT_SIZE)
    || (l.path <= from && from + n <= l.path + PATH_SIZE)
    || (l.sp - 4 <= from && from + n <= l.sp)
  }

  /** Only the buffers and the stack differ. */
  ghost predicate Written(l: Layout, mem: Memory, mem': Memory) {
    forall a: Word :: !Within(l, a, 1) ==> mem'[a] == mem[a]
  }

  /** The parser is at work: what it reads is in place, and it wrote where it may. */
  ghost predicate Sound(l: Layout, text: string, was: Memory, mem: Memory) {
    Valid(l, |text|) && Plain(text) && Image(l, text, mem) && Written(l, was, mem)
  }

  lemma ClearWithin(l: Layout, n: nat, from: int, k: int)
    requires Valid(l, n) && Within(l, from, k) && k >= 0
    ensures Clear(l, n, from, k)
  {
  }

  lemma ImageKept(l: Layout, text: string, mem: Memory, mem': Memory, from: int, n: int)
    requires Image(l, text, mem) && Changed(mem, mem', from, n) && Clear(l, |text|, from, n)
    ensures Image(l, text, mem')
  {
    hide Lies, Text, Changed, ParseUrlCode;
    LiesKept(mem, mem', l.base, ParseUrlCode(l), from, n);
    LiesKept(mem, mem', l.startsWith, STARTS_WITH, from, n);
    LiesKept(mem, mem', l.copyAsciiz, COPY_ASCIIZ, from, n);
    TextKept(mem, mem', l.scheme, SCHEME, from, n);
    TextKept(mem, mem', l.defaultPort, DEFAULT_PORT, from, n);
    TextKept(mem, mem', l.defaultPath, DEFAULT_PATH, from, n);
    TextKept(mem, mem', l.url, text, from, n);
    LiesKept(mem, mem', l.sp, [Lo(l.ret), Hi(l.ret)], from, n);
  }

  lemma WrittenOn(l: Layout, was: Memory, mem: Memory, mem': Memory, from: int, n: int)
    requires Written(l, was, mem) && Changed(mem, mem', from, n) && Within(l, from, n)
    ensures Written(l, was, mem')
  {
  }

  lemma SoundKept(l: Layout, text: string, was: Memory, mem: Memory, mem': Memory, from: int, n: nat)
    requires Sound(l, text, was, mem) && Changed(mem, mem', from, n) && Within(l, from, n)
    ensures Sound(l, text, was, mem')
  {
    hide Image, Written, Changed, Within, Valid, Clear, Plain;
    ClearWithin(l, |text|, from, n);
    ImageKept(l, text, mem, mem', from, n);
    WrittenOn(l, was, mem, mem', from, n);
  }

  lemma SplitCode(mem: Memory, at: nat, front: seq<Byte>, back: seq<Byte>)
    requires Lies(mem, at, front + back)
    ensures Lies(mem, at, front) && Lies(mem, at + |front|, back)
  {
    var code := front + back;
    assert mem[at..at + |front|] == mem[at..at + |code|][..|front|] == front;
    assert mem[at + |front|..at + |code|] == mem[at..at + |code|][|front|..] == back;
  }

  /** The pieces between the loops. */
  ghost predicate GlueLaid(l: Layout, mem: Memory) {
    && Lies(mem, l.base, SchemeCode(l)) && Lies(mem, l.base + 44, CloseCode(l.host, 0x5B))
    && Lies(mem, l.base + 52, DefaultPortCode(l)) && Lies(mem, l.base + 65, PortStartCode(l))
    && Lies(mem, l.base + 100, CloseCode(l.port, 0x23)) && Lies(mem, l.base + 108, PATH_TEST)
    && Lies(mem, l.base + 116, PathStartCode(l)) && Lies(mem, l.base + 139, DONE_CODE)
    && Lies(mem, l.base + 143, FAIL_CODE)
  }

  /** The three loops and the routine that STARTSWITH is lie in pieces of their own. */
  lemma Loops(base: nat, at: nat, mem: Memory)
    requires base + CODE_SIZE < SIZE && Lies(mem, base + 21, HOST_LOOP) && Lies(mem, base + 73, PORT_LOOP)
    requires Lies(mem, base + 124, PATH_LOOP) && Lies(mem, at, STARTS_WITH)
    ensures HostLaid(base, mem) && PortLaid(base, mem) && PathLaid(base, mem) && StartsWithLaid(at, mem)
  {
    hide Lies, EndCode, RoomCode, CopyCode;
    SplitFour(mem, base + 21, EndCode(0x13, 0x0F), COLON_CODE, RoomCode(0x6A), CopyCode(0xE9));
    SplitFour(mem, base + 73, EndCode(0x17, 0x13), DIGIT_CODE, RoomCode(0x32), CopyCode(0xE5));
    SplitCode(mem, base + 124, NUL_CODE + RoomCode(0x0B), CopyCode(0xF1));
    SplitCode(mem, base + 124, NUL_CODE, RoomCode(0x0B));
    SplitFour(mem, at, PUSH_CODE, MATCH_LOOP, MATCH_CODE, MISS_CODE);
    InMemory(mem, at, STARTS_WITH);
  }

  lemma InMemory(mem: Memory, at: nat, code: seq<Byte>)
    requires Lies(mem, at, code)
    ensures at + |code| < SIZE
  {
  }

  lemma SplitFour(mem: Memory, at: nat, a: seq<Byte>, b: seq<Byte>, c: seq<Byte>, d: seq<Byte>)
    requires Lies(mem, at, a + b + c + d)
    ensures Lies(mem, at, a) && Lies(mem, at + |a|, b) && Lies(mem, at + |a| + |b|, c)
    ensures Lies(mem, at + |a| + |b| + |c|, d)
  {
    hide Lies;
    SplitCode(mem, at, a + b + c, d);
    SplitCode(mem, at, a + b, c);
    SplitCode(mem, at, a, b);
  }

  lemma Pieces(l: Layout, text: string, mem: Memory)
    requires Image(l, text, mem)
    ensures l.base + CODE_SIZE < SIZE && GlueLaid(l, mem)
    ensures HostLaid(l.base, mem) && PortLaid(l.base, mem) && PathLaid(l.base, mem)
    ensures StartsWithLaid(l.startsWith, mem)
  {
    hide Lies, Text, SchemeCode, CloseCode, DefaultPortCode, PortStartCode, PathStartCode;
    var upToPort := SchemeCode(l) + HOST_LOOP + CloseCode(l.host, 0x5B) + DefaultPortCode(l);
    var upToPath := upToPort + PortStartCode(l) + PORT_LOOP + CloseCode(l.port, 0x23);
    var upToLoop := upToPath + PATH_TEST + PathStartCode(l) + PATH_LOOP;
    InMemory(mem, l.base, ParseUrlCode(l));
    SplitCode(mem, l.base, upToLoop + DONE_CODE, FAIL_CODE);
    SplitCode(mem, l.base, upToLoop, DONE_CODE);
    SplitFour(mem, l.base, upToPath, PATH_TEST, PathStartCode(l), PATH_LOOP);
    SplitFour(mem, l.base, upToPort, PortStartCode(l), PORT_LOOP, CloseCode(l.port, 0x23));
    SplitFour(mem, l.base, SchemeCode(l), HOST_LOOP, CloseCode(l.host, 0x5B), DefaultPortCode(l));
    Loops(l.base, l.startsWith, mem);
  }

  // ---- the phases ----

  lemma Constants()
    ensures Plain(SCHEME) && Plain(DEFAULT_PORT) && Plain(DEFAULT_PATH)
  {
  }

  lemma TextOf(l: Layout, text: string, was: Memory, mem: Memory)
    requires Sound(l, text, was, mem)
    ensures Valid(l, |text|) && Plain(text) && Image(l, text, mem) && Text(mem, l.url, text)
    ensures Text(mem, l.scheme, SCHEME)
    ensures Text(mem, l.defaultPort, DEFAULT_PORT) && Text(mem, l.defaultPath, DEFAULT_PATH)
    ensures Lies(mem, l.copyAsciiz, COPY_ASCIIZ)
  {
    hide Valid, Plain, Text, Lies, Written;
  }

  /** The rest of a text is a text. */
  lemma TextDrop(mem: Memory, at: nat, s: string, k: nat)
    requires Text(mem, at, s) && Plain(s) && k <= |s|
    ensures Text(mem, at + k, s[k..]) && Plain(s[k..]) && at + |s| + 1 < SIZE
  {
    var whole := Octets(s) + [0];
    assert whole[k..] == Octets(s[k..]) + [0];
    assert mem[at + k..at + |whole|] == mem[at..at + |whole|][k..];
  }

  lemma SchemeTest(l: Layout, text: string, v: View) returns (v': View)
    requires Sound(l, text, v.mem, v.mem) && v.pc == l.base && v.sp == l.sp
    ensures Leads(v, v') && v'.sp == l.sp && v'.hl == l.url && Changed(v.mem, v'.mem, l.sp - 4, 4)
    ensures v'.pc == l.base + 9 && (v'.z <==> SCHEME <= text)
  {
    hide Leads, Lies, Text, Plain, Changed, Pair, Hi, Lo, Pushed, Image, Written;
    Stays(v);
    Constants();
    TextOf(l, text, v.mem, v.mem);
    Pieces(l, text, v.mem);
    HiLoOf(l.url);
    HiLoOf(l.scheme);
    HiLoOf(l.startsWith);
    var v1 := LoadHl(v, v, l.base, SchemeCode(l), 0);
    var v2 := LoadDe(v, v1, l.base, SchemeCode(l), 3);
    var v3 := Call(v, v2, l.base, SchemeCode(l), 6);
    PushedIs(v.mem, l.sp - 2, l.base + 9);
    StartsWithKept(l.startsWith, v.mem, v3.mem, l.sp - 2, 2);
    TextKept(v.mem, v3.mem, l.url, text, l.sp - 2, 2);
    TextKept(v.mem, v3.mem, l.scheme, SCHEME, l.sp - 2, 2);
    v' := StartsWithIs(v, v3, l.startsWith, text, SCHEME);
    ChangedUnder(v.mem, v3.mem, v'.mem, l.sp - 4);
  }

  lemma StartsWithKept(at: nat, mem: Memory, mem': Memory, from: int, n: int)
    requires StartsWithLaid(at, mem) && Changed(mem, mem', from, n) && Apart(at, 20, from, n)
    ensures StartsWithLaid(at, mem')
  {
    hide Lies, Changed;
    LiesKept(mem, mem', at, PUSH_CODE, from, n);
    LiesKept(mem, mem', at + 1, MATCH_LOOP, from, n);
    LiesKept(mem, mem', at + 12, MATCH_CODE, from, n);
    LiesKept(mem, mem', at + 15, MISS_CODE, from, n);
  }

  lemma ChangedUnder(mem: Memory, mid: Memory, mem': Memory, from: int)
    requires Changed(mem, mid, from + 2, 2) && Changed(mid, mem', from, 2)
    ensures Changed(mem, mem', from, 4)
  {
  }

  /** The scheme is tested and skipped, and the host's buffer is next. */
  lemma Scheme(l: Layout, text: string, v: View) returns (v': View)
    requires Sound(l, text, v.mem, v.mem) && v.pc == l.base && v.sp == l.sp
    ensures Leads(v, v') && Sound(l, text, v.mem, v'.mem) && v'.sp == l.sp
    ensures if SCHEME <= text
            then v'.pc == l.base + 21 && v'.hl == l.url + 7 && v'.de == l.host && v'.c == 63
            else v'.pc == l.base + 143
  {
    hide Leads, Lies, Text, Plain, Changed, Hi, Lo, Image, Written, Sound, Clear;
    TextOf(l, text, v.mem, v.mem);
    var v1 := SchemeTest(l, text, v);
    SoundKept(l, text, v.mem, v.mem, v1.mem, l.sp - 4, 4);
    TextOf(l, text, v.mem, v1.mem);
    Pieces(l, text, v1.mem);
    HiLoOf(l.base + 143);
    HiLoOf(l.host);
    v' := JumpNotZeroTo(v, v1, l.base, SchemeCode(l), 9);
    if SCHEME <= text {
      TextDrop(v1.mem, l.url, text, 7);
      var v2 := LoadBc(v, v', l.base, SchemeCode(l), 12);
      var v3 := AddHlBc(v, v2, l.base, SchemeCode(l), 15);
      var v4 := LoadDe(v, v3, l.base, SchemeCode(l), 16);
      v' := LoadC(v, v4, l.base, SchemeCode(l), 19);
    }
  }

  /** What follows a part that was copied is closed by its NUL. */
  lemma Closed(mem: Memory, at: nat, part: string)
    requires at + |part| + 1 < SIZE && mem[at..at + |part|] == Octets(part)
    ensures Text(mem[at + |part| := 0], at, part) && Changed(mem, mem[at + |part| := 0], at + |part|, 1)
  {
    var closed := mem[at + |part| := 0];
    assert closed[at..at + |part| + 1] == mem[at..at + |part|] + [0];
  }

  lemma FirstByte(mem: Memory, at: nat, s: string)
    requires Text(mem, at, s) && Plain(s)
    ensures at + |s| + 1 < SIZE && (mem[at] == 0 <==> s == "")
  {
    TextHead(mem, at, s);
  }

  /** XOR A / LD (DE),A / LD A,(buffer) / OR A / JR Z. */
  lemma Close(v0: View, v: View, at: nat, buffer: Word, skip: Byte, part: string) returns (v': View)
    requires Leads(v0, v) && On(v, at, CloseCode(buffer, skip), 0) && skip < 0x80 && at + 8 + skip < SIZE
    requires v.de == buffer + |part| && v.de + 1 < SIZE && v.mem[buffer..v.de] == Octets(part) && Plain(part)
    requires Apart(at, 8, v.de, 1)
    ensures Leads(v0, v') && v'.sp == v.sp && v'.hl == v.hl && Changed(v.mem, v'.mem, v.de, 1)
    ensures Text(v'.mem, buffer, part) && v'.pc == if part == "" then at + 8 + skip else at + 8
  {
    hide Leads, Lies, Text, Plain, Changed, Pair, Hi, Lo;
    var code := CloseCode(buffer, skip);
    HiLoOf(buffer);
    var v1 := XorA(v0, v, at, code, 0);
    var v2 := StoreAtDe(v0, v1, at, code, 1);
    Closed(v.mem, buffer, part);
    FirstByte(v2.mem, buffer, part);
    LiesKept(v.mem, v2.mem, at, code, v.de, 1);
    var v3 := LoadAFrom(v0, v2, at, code, 2);
    var v4 := OrA(v0, v3, at, code, 5);
    v' := JumpZero(v0, v4, at, code, 6, skip);
  }

  /** SCF / RET. */
  lemma Fail(l: Layout, v0: View, v: View, text: string) returns (v': View)
    requires Leads(v0, v) && Sound(l, text, v0.mem, v.mem) && v.pc == l.base + 143 && v.sp == l.sp
    ensures Leads(v0, v') && v' == v.(carry := true, pc := l.ret, sp := l.sp + 2)
  {
    hide Leads, Lies, Text, Plain, Hi, Lo, Pair, Written, Clear;
    Pieces(l, text, v.mem);
    Returns(l, text, v0.mem, v.mem);
    var v1 := SetCarry(v0, v, l.base + 143, FAIL_CODE, 0);
    v' := Return(v0, v1, l.base + 143, FAIL_CODE, 1);
  }

  lemma Returns(l: Layout, text: string, was: Memory, mem: Memory)
    requires Sound(l, text, was, mem)
    ensures l.sp + 2 < SIZE && Pair(mem[l.sp + 1], mem[l.sp]) == l.ret
  {
    hide Written, Text, Hi, Lo, Pair;
    ByteOf(mem, l.sp, [Lo(l.ret), Hi(l.ret)], 0);
    ByteOf(mem, l.sp, [Lo(l.ret), Hi(l.ret)], 1);
    HiLoOf(l.ret);
  }

  /** The parts are in their buffers. */
  ghost predicate Holds(l: Layout, mem: Memory, p: Parts) {
    Text(mem, l.host, p.host) && Text(mem, l.port, p.port) && Text(mem, l.path, p.path)
  }

  /** PARSE_URL has returned: carry clear and the parts in the buffers, or carry set. */
  ghost predicate Returned(l: Layout, was: Memory, v: View, outcome: Option<Parts>) {
    && v.pc == l.ret && v.sp == l.sp + 2 && Written(l, was, v.mem)
    && (v.carry <==> outcome.None?)
    && (outcome.Some? ==> Holds(l, v.mem, outcome.value))
  }

  lemma Refused(l: Layout, v0: View, v: View, text: string) returns (v': View)
    requires Leads(v0, v) && Sound(l, text, v0.mem, v.mem) && v.pc == l.base + 143 && v.sp == l.sp
    ensures Leads(v0, v') && Returned(l, v0.mem, v', None)
  {
    hide Leads, Valid, Image, Plain, Written;
    v' := Fail(l, v0, v, text);
  }

  /** XOR A / LD (DE),A / OR A / RET behind a path of fewer than 192 characters. */
  lemma PathDone(l: Layout, text: string, v0: View, v: View, host: string, port: string, s: string) returns (v': View)
    requires Leads(v0, v) && Sound(l, text, v0.mem, v.mem) && v.pc == l.base + 139 && v.sp == l.sp
    requires |host| < HOST_SIZE && |port| < PORT_SIZE && |s| < PATH_SIZE
    requires Text(v.mem, l.host, host) && Text(v.mem, l.port, port)
    requires v.de == l.path + |s| && v.de + 1 < SIZE && v.mem[l.path..v.de] == Octets(s)
    ensures Leads(v0, v') && Returned(l, v0.mem, v', Some(Parts(host, port, s)))
  {
    hide Leads, Lies, Text, Plain, Changed, Pair, Written, Image, Sound;
    TextOf(l, text, v0.mem, v.mem);
    Pieces(l, text, v.mem);
    var v1 := XorA(v0, v, l.base + 139, DONE_CODE, 0);
    var v2 := StoreAtDe(v0, v1, l.base + 139, DONE_CODE, 1);
    Closed(v.mem, l.path, s);
    LiesKept(v.mem, v2.mem, l.base + 139, DONE_CODE, v.de, 1);
    SoundKept(l, text, v0.mem, v.mem, v2.mem, v.de, 1);
    TextKept(v.mem, v2.mem, l.host, host, v.de, 1);
    TextKept(v.mem, v2.mem, l.port, port, v.de, 1);
    Returns(l, text, v0.mem, v2.mem);
    var v3 := OrA(v0, v2, l.base + 139, DONE_CODE, 2);
    v' := Return(v0, v3, l.base + 139, DONE_CODE, 3);
    WrittenOf(l, text, v0.mem, v2.mem);
  }

  lemma WrittenOf(l: Layout, text: string, was: Memory, mem: Memory)
    requires Sound(l, text, was, mem)
    ensures Written(l, was, mem)
  {
    hide Valid, Plain, Image, Written;
  }

  /** From LD DE,PATH_BUFF on. */
  lemma PathPhase(l: Layout, text: string, v0: View, v: View, host: string, port: string, s: string) returns (v': View)
    requires Leads(v0, v) && Sound(l, text, v0.mem, v.mem) && v.pc == l.base + 119 && v.sp == l.sp
    requires |host| < HOST_SIZE && |port| < PORT_SIZE && Text(v.mem, l.host, host) && Text(v.mem, l.port, port)
    requires Text(v.mem, v.hl, s) && Plain(s) && Apart(v.hl, |s| + 1, l.path, PATH_SIZE)
    ensures Leads(v0, v')
    ensures Returned(l, v0.mem, v', if |s| < PATH_SIZE then Some(Parts(host, port, s)) else None)
  {
    hide Leads, Lies, Text, Plain, Changed, Hi, Lo, Pair, Written, Image, Sound, Returned;
    TextOf(l, text, v0.mem, v.mem);
    Pieces(l, text, v.mem);
    HiLoOf(l.path);
    var v1 := LoadDe(v0, v, l.base + 116, PathStartCode(l), 3);
    var v2 := LoadC(v0, v1, l.base + 116, PathStartCode(l), 6);
    var v3 := PathLoop(v0, v2, l.base, s);
    var n := if |s| > 191 then 191 else |s|;
    SoundKept(l, text, v0.mem, v.mem, v3.mem, l.path, n);
    if |s| > 191 {
      v' := Refused(l, v0, v3, text);
    } else {
      TextKept(v.mem, v3.mem, l.host, host, l.path, n);
      TextKept(v.mem, v3.mem, l.port, port, l.path, n);
      v' := PathDone(l, text, v0, v3, host, port, s);
    }
  }

  /** LD A,(HL) / CP '/' / JR Z / OR A / JR NZ / LD HL,DEFAULT_PATH. */
  lemma PathTest(l: Layout, text: string, v0: View, v: View) returns (v': View)
    requires Leads(v0, v) && Sound(l, text, v0.mem, v.mem) && v.pc == l.base + 108
    ensures Leads(v0, v') && v'.mem == v.mem && v'.sp == v.sp
    ensures var first := v.mem[v.hl];
            if first == 0x2F then v'.pc == l.base + 119 && v'.hl == v.hl
            else if first == 0 then v'.pc == l.base + 119 && v'.hl == l.defaultPath
            else v'.pc == l.base + 143
  {
    hide Leads, Lies, Text, Plain, Hi, Lo, Pair, Written, Valid;
    Pieces(l, text, v.mem);
    HiLoOf(l.defaultPath);
    var v1 := LoadAAtHl(v0, v, l.base + 108, PATH_TEST, 0);
    var v2 := Compare(v0, v1, l.base + 108, PATH_TEST, 1);
    v' := JumpZero(v0, v2, l.base + 108, PATH_TEST, 3, 6);
    if v.mem[v.hl] != 0x2F {
      var v3 := OrA(v0, v', l.base + 108, PATH_TEST, 5);
      v' := JumpNotZero(v0, v3, l.base + 108, PATH_TEST, 6, 27);
      if v.mem[v.hl] == 0 {
        v' := LoadHl(v0, v', l.base + 116, PathStartCode(l), 0);
      }
    }
  }

  /** From .PATH_START on. */
  lemma Path(l: Layout, text: string, v0: View, v: View, host: string, port: string, k: nat) returns (v': View)
    requires Leads(v0, v) && Sound(l, text, v0.mem, v.mem) && v.pc == l.base + 108 && v.sp == l.sp
    requires |host| < HOST_SIZE && |port| < PORT_SIZE && Text(v.mem, l.host, host) && Text(v.mem, l.port, port)
    requires k <= |text| && v.hl == l.url + k
    ensures Leads(v0, v') && Returned(l, v0.mem, v', WithPath(host, port, text[k..]))
  {
    hide Leads, Lies, Text, Plain, Written, Image, Sound, Returned;
    var rest := text[k..];
    Constants();
    TextOf(l, text, v0.mem, v.mem);
    TextDrop(v.mem, l.url, text, k);
    TextHead(v.mem, v.hl, rest);
    var v1 := PathTest(l, text, v0, v);
    if rest == "" {
      v' := PathPhase(l, text, v0, v1, host, port, DEFAULT_PATH);
    } else if rest[0] == '/' {
      v' := PathPhase(l, text, v0, v1, host, port, rest);
    } else {
      v' := Refused(l, v0, v1, text);
    }
  }

  /** The parser is behind the host, which is in its buffer without its NUL. */
  ghost predicate HostCopied(l: Layout, v: View, host: string) {
    && |host| < HOST_SIZE && Plain(host) && v.sp == l.sp && v.de == l.host + |host|
    && v.de + 1 < SIZE && v.mem[l.host..v.de] == Octets(host)
  }

  /** XOR A / LD (DE),A / INC HL / LD DE,PORT_BUFF / LD C,PORT_SIZE-1. */
  lemma PortStart(l: Layout, text: string, v0: View, v: View, host: string) returns (v': View)
    requires Leads(v0, v) && Sound(l, text, v0.mem, v.mem) && v.pc == l.base + 65 && HostCopied(l, v, host)
    requires v.hl + 1 < SIZE
    ensures Leads(v0, v') && Sound(l, text, v0.mem, v'.mem) && Text(v'.mem, l.host, host)
    ensures v'.pc == l.base + 73 && v'.sp == l.sp && v'.hl == v.hl + 1 && v'.de == l.port && v'.c == 7
  {
    hide Leads, Lies, Text, Plain, Changed, Hi, Lo, Pair, Written, Image, Sound;
    TextOf(l, text, v0.mem, v.mem);
    Pieces(l, text, v.mem);
    HiLoOf(l.port);
    var v1 := XorA(v0, v, l.base + 65, PortStartCode(l), 0);
    var v2 := StoreAtDe(v0, v1, l.base + 65, PortStartCode(l), 1);
    Closed(v.mem, l.host, host);
    SoundKept(l, text, v0.mem, v.mem, v2.mem, v.de, 1);
    LiesKept(v.mem, v2.mem, l.base + 65, PortStartCode(l), v.de, 1);
    var v3 := IncHl(v0, v2, l.base + 65, PortStartCode(l), 2);
    var v4 := LoadDe(v0, v3, l.base + 65, PortStartCode(l), 3);
    v' := LoadC(v0, v4, l.base + 65, PortStartCode(l), 6);
  }

  lemma PlainPart(s: string, part: string)
    requires Plain(s) && part <= s
    ensures Plain(part)
  {
  }

  /** From .PORT on, with the text's `k`-th character next. */
  lemma Port(l: Layout, text: string, v0: View, v: View, host: string, k: nat) returns (v': View)
    requires Leads(v0, v) && Sound(l, text, v0.mem, v.mem) && v.pc == l.base + 73 && v.sp == l.sp
    requires |host| < HOST_SIZE && Text(v.mem, l.host, host)
    requires k <= |text| && v.hl == l.url + k && v.de == l.port && v.c == 7
    ensures Leads(v0, v') && Returned(l, v0.mem, v', WithPort(host, text[k..]))
  {
    hide Leads, Lies, Text, Plain, Changed, Written, Image, Sound, Returned, AllDigits, WithPath;
    var rest := text[k..];
    var port := PortPart(rest);
    TextOf(l, text, v0.mem, v.mem);
    Pieces(l, text, v.mem);
    TextDrop(v.mem, l.url, text, k);
    PlainPart(rest, port);
    var v1 := PortLoop(v0, v, l.base, rest);
    if |port| > 7 || !AllDigits(port) {
      SoundKept(l, text, v0.mem, v.mem, v1.mem, l.port, 7);
      v' := Refused(l, v0, v1, text);
    } else {
      SoundKept(l, text, v0.mem, v.mem, v1.mem, l.port, |port|);
      TextKept(v.mem, v1.mem, l.host, host, l.port, |port|);
      v' := PortDone(l, text, v0, v1, host, port, k);
    }
  }

  lemma PortDone(l: Layout, text: string, v0: View, v: View, host: string, port: string, k: nat) returns (v': View)
    requires Leads(v0, v) && Sound(l, text, v0.mem, v.mem) && v.pc == l.base + 100 && v.sp == l.sp
    requires |host| < HOST_SIZE && Text(v.mem, l.host, host) && |port| < PORT_SIZE && Plain(port)
    requires v.de == l.port + |port| && v.mem[l.port..v.de] == Octets(port)
    requires k + |port| <= |text| && v.hl == l.url + k + |port|
    ensures Leads(v0, v')
    ensures Returned(l, v0.mem, v', if port == "" then None else WithPath(host, port, text[k..][|port|..]))
  {
    hide Leads, Lies, Text, Plain, Changed, Written, Image, Sound, Returned, AllDigits, WithPath;
    TextOf(l, text, v0.mem, v.mem);
    Pieces(l, text, v.mem);
    var v1 := Close(v0, v, l.base + 100, l.port, 0x23, port);
    SoundKept(l, text, v0.mem, v.mem, v1.mem, v.de, 1);
    TextKept(v.mem, v1.mem, l.host, host, v.de, 1);
    if port == "" {
      v' := Refused(l, v0, v1, text);
    } else {
      assert text[k..][|port|..] == text[k + |port|..];
      v' := Path(l, text, v0, v1, host, port, k + |port|);
    }
  }

  /** LD HL,DEFAULT_PORT / LD DE,PORT_BUFF / CALL COPY_ASCIIZ. */
  lemma CopyDefault(l: Layout, text: string, v0: View, v: View) returns (v': View)
    requires Leads(v0, v) && Sound(l, text, v0.mem, v.mem) && v.pc == l.base + 53 && v.sp == l.sp - 2
    ensures Leads(v0, v') && Sound(l, text, v0.mem, v'.mem) && v'.pc == l.base + 62 && v'.sp == l.sp - 2
    ensures Text(v'.mem, l.port, DEFAULT_PORT)
    ensures forall a: Word :: a < l.port || a >= l.port + 3 ==> a < l.sp - 4 || a >= l.sp - 2 ==> v'.mem[a] == v.mem[a]
  {
    hide Leads, Lies, Text, Plain, Hi, Lo, Pair, Pushed, Written, Image, Sound;
    Constants();
    TextOf(l, text, v0.mem, v.mem);
    Pieces(l, text, v.mem);
    HiLoOf(l.defaultPort);
    HiLoOf(l.port);
    HiLoOf(l.copyAsciiz);
    var v1 := LoadHl(v0, v, l.base + 52, DefaultPortCode(l), 1);
    var v2 := LoadDe(v0, v1, l.base + 52, DefaultPortCode(l), 4);
    var v3 := Call(v0, v2, l.base + 52, DefaultPortCode(l), 7);
    PushedIs(v.mem, l.sp - 4, l.base + 62);
    SoundKept(l, text, v0.mem, v.mem, v3.mem, l.sp - 4, 2);
    TextOf(l, text, v0.mem, v3.mem);
    v' := CopyAsciiz(v0, v3, l.copyAsciiz, DEFAULT_PORT);
    SoundKept(l, text, v0.mem, v3.mem, v'.mem, l.port, 3);
  }

  /** PUSH HL, the default port, POP HL / JR .PATH_START. */
  lemma DefaultPort(l: Layout, text: string, v0: View, v: View, host: string) returns (v': View)
    requires Leads(v0, v) && Sound(l, text, v0.mem, v.mem) && v.pc == l.base + 52 && v.sp == l.sp
    requires |host| < HOST_SIZE && Text(v.mem, l.host, host)
    ensures Leads(v0, v') && Sound(l, text, v0.mem, v'.mem) && v'.pc == l.base + 108 && v'.sp == l.sp && v'.hl == v.hl
    ensures Text(v'.mem, l.host, host) && Text(v'.mem, l.port, DEFAULT_PORT)
  {
    hide Leads, Lies, Text, Plain, Changed, Hi, Lo, Pair, Pushed, Written, Image, Sound;
    TextOf(l, text, v0.mem, v.mem);
    Pieces(l, text, v.mem);
    var v1 := PushHl(v0, v, l.base + 52, DefaultPortCode(l), 0);
    PushedIs(v.mem, l.sp - 2, v.hl);
    SoundKept(l, text, v0.mem, v.mem, v1.mem, l.sp - 2, 2);
    var v2 := CopyDefault(l, text, v0, v1);
    TextKept(v.mem, v1.mem, l.host, host, l.sp - 2, 2);
    TextOutside(l, v1.mem, v2.mem, host);
    TextOf(l, text, v0.mem, v2.mem);
    Pieces(l, text, v2.mem);
    var v3 := PopHl(v0, v2, l.base + 52, DefaultPortCode(l), 10);
    v' := Jump(v0, v3, l.base + 52, DefaultPortCode(l), 11, l.base + 108);
  }

  lemma TextOutside(l: Layout, mem: Memory, mem': Memory, host: string)
    requires Valid(l, 0) && Text(mem, l.host, host) && |host| < HOST_SIZE
    requires forall a: Word :: a < l.port || a >= l.port + 3 ==> a < l.sp - 4 || a >= l.sp - 2 ==> mem'[a] == mem[a]
    ensures Text(mem', l.host, host)
  {
    forall i | 0 <= i <= |host|
      ensures mem'[l.host + i] == (Octets(host) + [0])[i]
    {
      ByteOf(mem, l.host, Octets(host) + [0], i);
    }
    assert mem'[l.host..l.host + |host| + 1] == Octets(host) + [0];
  }

  /** From .HOST_DONE on: the host is not empty, its port is the default. */
  lemma HostDone(l: Layout, text: string, v0: View, v: View, host: string, k: nat) returns (v': View)
    requires Leads(v0, v) && Sound(l, text, v0.mem, v.mem) && v.pc == l.base + 44 && HostCopied(l, v, host)
    requires k <= |text| && v.hl == l.url + k
    ensures Leads(v0, v')
    ensures Returned(l, v0.mem, v', if host == "" then None else WithPath(host, DEFAULT_PORT, text[k..]))
  {
    hide Leads, Lies, Text, Plain, Changed, Written, Image, Sound, Returned, WithPath;
    TextOf(l, text, v0.mem, v.mem);
    Pieces(l, text, v.mem);
    var v1 := Close(v0, v, l.base + 44, l.host, 0x5B, host);
    SoundKept(l, text, v0.mem, v.mem, v1.mem, v.de, 1);
    if host == "" {
      v' := Refused(l, v0, v1, text);
    } else {
      var v2 := DefaultPort(l, text, v0, v1, host);
      v' := Path(l, text, v0, v2, host, DEFAULT_PORT, k);
    }
  }

  /** From .HOST on, behind the scheme. */
  lemma Host(l: Layout, text: string, v0: View, v: View) returns (v': View)
    requires Leads(v0, v) && Sound(l, text, v0.mem, v.mem) && SCHEME <= text
    requires v.pc == l.base + 21 && v.sp == l.sp && v.hl == l.url + 7 && v.de == l.host && v.c == 63
    ensures Leads(v0, v') && Returned(l, v0.mem, v', Parse(text))
  {
    hide Leads, Lies, Text, Plain, Changed, Written, Image, Sound, Returned, WithPort, WithPath;
    var s := text[7..];
    var host := HostPart(s);
    var k := 7 + |host|;
    assert s[|host|..] == text[k..];
    TextOf(l, text, v0.mem, v.mem);
    Pieces(l, text, v.mem);
    TextDrop(v.mem, l.url, text, 7);
    PlainPart(s, host);
    HostPartStops(s);
    var v1 := HostLoop(v0, v, l.base, s);
    SoundKept(l, text, v0.mem, v.mem, v1.mem, l.host, Min(|host|, 63));
    if |host| > 63 {
      v' := Refused(l, v0, v1, text);
    } else if k < |text| && text[k] == ':' {
      var v2 := PortStart(l, text, v0, v1, host);
      assert text[k..][1..] == text[k + 1..];
      v' := Port(l, text, v0, v2, host, k + 1);
    } else {
      v' := HostDone(l, text, v0, v1, host, k);
    }
  }

  /** PARSE_URL parses. */
  lemma ParsesUrl(l: Layout, text: string, v: View) returns (v': View)
    requires Valid(l, |text|) && Plain(text) && Image(l, text, v.mem) && v.pc == l.base && v.sp == l.sp
    ensures Leads(v, v') && Returned(l, v.mem, v', Parse(text))
  {
    hide Leads, Valid, Plain, Image, Returned, Parse, Sound;
    SoundFirst(l, text, v.mem);
    var v1 := Scheme(l, text, v);
    if SCHEME <= text {
      v' := Host(l, text, v, v1);
    } else {
      v' := Refused(l, v, v1, text);
      NoScheme(text);
    }
  }

  lemma SoundFirst(l: Layout, text: string, mem: Memory)
    requires Valid(l, |text|) && Plain(text) && Image(l, text, mem)
    ensures Sound(l, text, mem, mem)
  {
    hide Valid, Plain, Image;
  }

  lemma NoScheme(text: string)
    requires !(SCHEME <= text)
    ensures Parse(text) == None
  {
  }

  /** The same on the interpreter: called at `base`, the machine code comes back with the parse of the text. */
  lemma CodeParses(l: Layout, text: string, m: Machine) returns (n: nat, end: Machine)
    requires Valid(l, |text|) && Plain(text) && Image(l, text, m.mem) && m.pc == l.base && m.sp == l.sp
    ensures Reaches(m, n, end)
    ensures end.pc == l.ret && end.sp == l.sp + 2 && Written(l, m.mem, end.mem)
    ensures end.flags.C == 1 <==> Parse(text).None?
    ensures Parse(text).Some? ==> Holds(l, end.mem, Parse(text).value)
  {
    hide Reaches, Valid, Plain, Image, Written, Holds, Parse;
    var v := ParsesUrl(l, text, Seen(m));
    assert Comes(m, v);
    n, end :| Reaches(m, n, end) && Seen(end) == v;
  }

  /** Whatever comes back with carry clear reprints the text; carry is set only if nothing does. */
  lemma CodeParsesGrammar(l: Layout, text: string, m: Machine) returns (n: nat, end: Machine)
    requires Valid(l, |text|) && Plain(text) && Image(l, text, m.mem) && m.pc == l.base && m.sp == l.sp
    ensures Reaches(m, n, end) && end.pc == l.ret && end.sp == l.sp + 2 && Written(l, m.mem, end.mem)
    ensures end.flags.C == 1 <==> forall p :: !Reprints(text, p)
    ensures forall p :: Reprints(text, p) ==> Holds(l, end.mem, p)
  {
    hide Reaches, Valid, Plain, Image, Written, Holds, Parse, Reprints;
    n, end := CodeParses(l, text, m);
    forall p
      ensures Parse(text) == Some(p) <==> Reprints(text, p)
    {
      ParseIsGrammar(text, p);
    }
    if Parse(text).Some? {
      ParseIsGrammar(text, Parse(text).value);
      assert Reprints(text, Parse(text).value);
    }
  }
}
