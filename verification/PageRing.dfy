/**
 A ring of 256-byte pages as a cyclic array, and the frames linked through its headers:
 byte 0 of a frame's first page is the status, byte 1 the link, bytes 2 and 3 the length.
 Pages are numbered from 0 here; a link holds `base` plus such a number.
 */
module PageRing {
  import opened Bytes

  type Frame = seq<Byte>

  datatype Received = Received(status: Byte, frame: Frame)

  datatype Ring = Ring(base: nat, pages: nat, bytes: seq<Byte>)

  ghost predicate Valid(g: Ring) {
    0 < g.pages && |g.bytes| == 256 * g.pages
  }

  /** Position `x` of a cycle of length `size`, for a position less than one turn too far. */
  function Turn(size: nat, x: nat): nat
    requires x < 2 * size
  {
    if x < size then x else x - size
  }

  /** How far `to` lies ahead of `from` on a cycle of length `size`. */
  function Ahead(size: nat, from: nat, to: nat): nat
    requires from < size && to < size
  {
    if from <= to then to - from else to + size - from
  }

  lemma ModuloOnce(x: int, r: int)
    requires r > 0 && -r <= x < 2 * r
    ensures x % r == if x < 0 then x + r else if x < r then x else x - r
  {
    var q, m := x / r, x % r;
    assert x == q * r + m && 0 <= m < r;
    assert q <= -2 ==> q * r <= -2 * r;
    assert q >= 2 ==> q * r >= 2 * r;
    assert -1 <= q <= 1;
  }

  /** Pages a frame and its four-byte header take. */
  function PagesNeeded(frame: Frame): nat {
    (|frame| + 4 + 255) / 256
  }

  /** Byte number `t` of the area that starts with page `p`. */
  function AreaByte(g: Ring, p: nat, t: nat): Byte
    requires Valid(g) && p < g.pages && t < 256 * g.pages
  {
    g.bytes[Turn(256 * g.pages, 256 * p + t)]
  }

  lemma AreaShift(g: Ring, p: nat, k: nat, t: nat)
    requires Valid(g) && p < g.pages && k < g.pages && t + 256 * k < 256 * g.pages
    ensures AreaByte(g, Turn(g.pages, p + k), t) == AreaByte(g, p, t + 256 * k)
  {
  }

  function LinkPos(g: Ring, p: nat): int
    requires Valid(g) && p < g.pages
  {
    AreaByte(g, p, 1) - g.base
  }

  function LengthField(g: Ring, p: nat): nat
    requires Valid(g) && p < g.pages
  {
    AreaByte(g, p, 2) + 256 * AreaByte(g, p, 3)
  }

  /** Pages the frame at `p` takes by its own length field. */
  function Extent(g: Ring, p: nat): nat
    requires Valid(g) && p < g.pages
  {
    (LengthField(g, p) + 255) / 256
  }

  /** The frame at `p` ends within the next `m` pages, and its link names the page after its last one. */
  predicate HeaderOk(g: Ring, p: nat, m: nat)
    requires Valid(g) && p < g.pages && m < g.pages
  {
    && LengthField(g, p) >= 4
    && Extent(g, p) <= m
    && LinkPos(g, p) == Turn(g.pages, p + Extent(g, p))
  }

  function ReadFrame(g: Ring, p: nat): (f: Frame)
    requires Valid(g) && p < g.pages && 4 <= LengthField(g, p) <= 256 * g.pages
    ensures |f| == LengthField(g, p) - 4
  {
    seq(LengthField(g, p) - 4, t requires 0 <= t < LengthField(g, p) - 4 => AreaByte(g, p, t + 4))
  }

  function HeadFrame(g: Ring, p: nat): Received
    requires Valid(g) && p < g.pages && 4 <= LengthField(g, p) <= 256 * g.pages
  {
    Received(AreaByte(g, p, 0), ReadFrame(g, p))
  }

  /** Follows the links through the `m` pages from `p` on; None when a header is malformed. */
  function Decode(g: Ring, p: nat, m: nat): Option<seq<Received>>
    requires Valid(g) && p < g.pages && m < g.pages
    decreases m
  {
    if m == 0 then Some([])
    else if !HeaderOk(g, p, m) then None
    else
      match Decode(g, LinkPos(g, p), m - Extent(g, p))
      case None => None
      case Some(rest) => Some([HeadFrame(g, p)] + rest)
  }

  function Pages(q: seq<Received>): nat {
    if q == [] then 0 else PagesNeeded(q[0].frame) + Pages(q[1..])
  }

  lemma {:induction false} DecodePages(g: Ring, p: nat, m: nat)
    requires Valid(g) && p < g.pages && m < g.pages && Decode(g, p, m).Some?
    ensures Pages(Decode(g, p, m).value) == m
    decreases m
  {
    if m > 0 {
      DecodePages(g, LinkPos(g, p), m - Extent(g, p));
    }
  }

  ghost predicate SameArea(g: Ring, g': Ring, p: nat, m: nat)
    requires Valid(g) && Valid(g') && g'.pages == g.pages && p < g.pages && m < g.pages
  {
    forall t :: 0 <= t < 256 * m ==> AreaByte(g', p, t) == AreaByte(g, p, t)
  }

  lemma SameTail(g: Ring, g': Ring, p: nat, k: nat, m: nat)
    requires Valid(g) && Valid(g') && g'.pages == g.pages && p < g.pages && k <= m < g.pages
    requires SameArea(g, g', p, m)
    ensures SameArea(g, g', Turn(g.pages, p + k), m - k)
  {
    var p' := Turn(g.pages, p + k);
    forall t | 0 <= t < 256 * (m - k)
      ensures AreaByte(g', p', t) == AreaByte(g, p', t)
    {
      AreaShift(g, p, k, t);
      AreaShift(g', p, k, t);
    }
  }

  /** Decoding looks at nothing but its own pages. */
  lemma {:induction false} DecodeSame(g: Ring, g': Ring, p: nat, m: nat)
    requires Valid(g) && Valid(g') && g'.base == g.base && g'.pages == g.pages
    requires p < g.pages && m < g.pages && SameArea(g, g', p, m)
    ensures Decode(g', p, m) == Decode(g, p, m)
    decreases m
  {
    hide AreaByte, HeadFrame, SameArea;
    if m > 0 {
      SameHeader(g, g', p, m);
      if HeaderOk(g, p, m) {
        SameFrame(g, g', p, m);
        SameTail(g, g', p, Extent(g, p), m);
        DecodeSame(g, g', LinkPos(g, p), m - Extent(g, p));
      }
    }
  }

  lemma SameHeader(g: Ring, g': Ring, p: nat, m: nat)
    requires Valid(g) && Valid(g') && g'.base == g.base && g'.pages == g.pages
    requires p < g.pages && 0 < m < g.pages && SameArea(g, g', p, m)
    ensures LinkPos(g', p) == LinkPos(g, p) && LengthField(g', p) == LengthField(g, p)
  {
    hide AreaByte;
  }

  lemma SameFrame(g: Ring, g': Ring, p: nat, m: nat)
    requires Valid(g) && Valid(g') && g'.base == g.base && g'.pages == g.pages
    requires p < g.pages && 0 < m < g.pages && SameArea(g, g', p, m) && HeaderOk(g, p, m)
    ensures LengthField(g', p) == LengthField(g, p) && HeadFrame(g', p) == HeadFrame(g, p)
  {
    hide AreaByte;
    assert ReadFrame(g', p) == ReadFrame(g, p);
  }

  lemma DropPosition(pages: nat, p: nat, step: nat, more: nat)
    requires p < pages && step + more < pages
    ensures Turn(pages, Turn(pages, p + step) + more) == Turn(pages, p + (step + more))
  {
  }

  /** One link: the frames from `p` on are the one at `p` and those from its link on. */
  lemma DecodeStep(g: Ring, p: nat, m: nat, rest: seq<Received>)
    requires Valid(g) && p < g.pages && 0 < m < g.pages && HeaderOk(g, p, m)
    requires Decode(g, LinkPos(g, p), m - Extent(g, p)) == Some(rest)
    ensures Decode(g, p, m) == Some([HeadFrame(g, p)] + rest)
  {
  }

  lemma DecodeUnfold(g: Ring, p: nat, m: nat, k: nat, q: seq<Received>)
    returns (link: nat, step: nat, rest: seq<Received>)
    requires Valid(g) && p < g.pages && 0 < m && m + k < g.pages && Decode(g, p, m) == Some(q)
    ensures HeaderOk(g, p, m) && HeaderOk(g, p, m + k) && 1 <= step == Extent(g, p) <= m
    ensures link == LinkPos(g, p) == Turn(g.pages, p + step)
    ensures 4 <= LengthField(g, p) <= 256 * g.pages && q == [HeadFrame(g, p)] + rest
    ensures link < g.pages && Decode(g, link, m - step) == Some(rest)
  {
    hide AreaByte, ReadFrame;
    link, step := LinkPos(g, p), Extent(g, p);
    rest := Decode(g, link, m - step).value;
  }

  lemma DecodeNothing(g: Ring, p: nat, q: seq<Received>)
    requires Valid(g) && p < g.pages && Decode(g, p, 0) == Some(q)
    ensures q == [] && Turn(g.pages, p + 0) == p
  {
  }

  /** Frames in `m` pages followed by frames in `k` pages are the frames in all of them, in order. */
  lemma {:induction false} DecodeConcat(g: Ring, p: nat, m: nat, k: nat, q: seq<Received>, r: seq<Received>)
    requires Valid(g) && p < g.pages && m + k < g.pages
    requires Decode(g, p, m) == Some(q) && Decode(g, Turn(g.pages, p + m), k) == Some(r)
    ensures Decode(g, p, m + k) == Some(q + r)
    decreases m
  {
    hide *;
    if m == 0 {
      DecodeNothing(g, p, q);
      assert q + r == r;
    } else {
      var link, step, rest := DecodeUnfold(g, p, m, k, q);
      DropPosition(g.pages, p, step, m - step);
      DecodeConcat(g, link, m - step, k, rest, r);
      DecodeStep(g, p, m + k, rest + r);
      assert q + r == [HeadFrame(g, p)] + (rest + r);
    }
  }

  /** Skipping the pages of the first `k` frames leaves the others. */
  lemma {:induction false} DecodeDrop(g: Ring, p: nat, m: nat, q: seq<Received>, k: nat)
    requires Valid(g) && p < g.pages && m < g.pages && Decode(g, p, m) == Some(q) && k <= |q|
    ensures Pages(q[..k]) <= m
    ensures Decode(g, Turn(g.pages, p + Pages(q[..k])), m - Pages(q[..k])) == Some(q[k..])
    decreases m
  {
    hide *;
    if k == 0 {
      NothingDropped(g, p, q);
    } else {
      if m == 0 {
        DecodeNothing(g, p, q);
      }
      var link, step, rest := DecodeUnfold(g, p, m, 0, q);
      FirstFrames(HeadFrame(g, p), rest, k);
      HeadPages(g, p);
      DecodeDrop(g, link, m - step, rest, k - 1);
      DropPosition(g.pages, p, step, Pages(rest[..k - 1]));
    }
  }

  lemma NothingDropped(g: Ring, p: nat, q: seq<Received>)
    requires Valid(g) && p < g.pages
    ensures q[0..] == q && Pages(q[..0]) == 0 && Turn(g.pages, p + 0) == p
  {
  }

  lemma HeadPages(g: Ring, p: nat)
    requires Valid(g) && p < g.pages && 4 <= LengthField(g, p) <= 256 * g.pages
    ensures PagesNeeded(HeadFrame(g, p).frame) == Extent(g, p)
  {
    hide AreaByte;
  }

  lemma FirstFrames(head: Received, rest: seq<Received>, k: nat)
    requires 0 < k <= |rest| + 1
    ensures var q := [head] + rest;
            Pages(q[..k]) == PagesNeeded(head.frame) + Pages(rest[..k - 1]) && q[k..] == rest[k - 1..]
  {
    hide PagesNeeded;
    assert ([head] + rest)[..k][1..] == rest[..k - 1];
  }

  /** The header and the bytes of one frame, laid out from page `p` on, decode to that frame. */
  lemma LaidOutFrameDecodes(g: Ring, p: nat, status: Byte, frame: Frame)
    requires Valid(g) && p < g.pages && PagesNeeded(frame) < g.pages <= 0x40 && g.base + g.pages <= 0x100
    requires var k := Turn(g.pages, p + PagesNeeded(frame));
             var bytes := [status, g.base + k, (|frame| + 4) % 256, (|frame| + 4) / 256] + frame;
             forall t :: 0 <= t < |bytes| ==> AreaByte(g, p, t) == bytes[t]
    ensures Decode(g, p, PagesNeeded(frame)) == Some([Received(status, frame)])
  {
    var link := g.base + Turn(g.pages, p + PagesNeeded(frame));
    var bytes := [status, link, (|frame| + 4) % 256, (|frame| + 4) / 256] + frame;
    assert |bytes| == |frame| + 4 && frame == bytes[4..];
    assert AreaByte(g, p, 0) == bytes[0] && AreaByte(g, p, 1) == bytes[1];
    assert AreaByte(g, p, 2) == bytes[2] && AreaByte(g, p, 3) == bytes[3];
    assert LengthField(g, p) == |frame| + 4;
    assert ReadFrame(g, p) == frame;
    assert HeaderOk(g, p, PagesNeeded(frame));
    DecodeStep(g, p, PagesNeeded(frame), []);
    assert [HeadFrame(g, p)] + [] == [Received(status, frame)];
  }
}
