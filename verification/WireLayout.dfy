/** The fixed bytes of the built frames, by their offsets in the headers, and the pseudo header. */
module WireLayout {
  import opened Bytes
  import opened InetChecksum
  import opened Wire

  lemma IpFixed(i: IpInfo)
    ensures var h := IpHeader(i);
            && h[0] == 0x45 && h[1] == 0 && h[4] == i.id / 0x100 && h[5] == i.id % 0x100
            && h[6] == i.flags && h[7] == 0 && h[8] == i.ttl && h[9] == i.protocol
  {
    hide Checksum;
  }

  lemma FrameFixed(to: Mac, from: Mac, ip: IpInfo, body: seq<Byte>)
    ensures var f := Frame(to, from, ip, body);
            && f[12] == 0x08 && f[13] == 0x00 && f[14] == 0x45 && f[15] == 0
            && f[18] == ip.id / 0x100 && f[19] == ip.id % 0x100 && f[20] == ip.flags && f[21] == 0
            && f[22] == ip.ttl && f[23] == ip.protocol && f[34..] == body
            && f[14..34] == IpHeader(ip)
  {
    hide IpHeader;
    IpFixed(ip);
    var e, h := Ethernet(to, from), IpHeader(ip);
    var f := e + h + body;
    assert f[14..34] == h && f[34..] == body;
    assert f[14] == h[0] && f[15] == h[1] && f[18] == h[4] && f[19] == h[5];
    assert f[20] == h[6] && f[21] == h[7] && f[22] == h[8] && f[23] == h[9];
  }

  /** A TCP frame: IPv4 without options, identification 0, 64 hops, protocol 6, and both checksums right. */
  lemma TcpFrameIs(s: Session, o: Sending)
    ensures var f := BuildTcp(s, o);
            && |f| == 14 + 20 + (if o.mss.Some? then 24 else 20) + |o.payload|
            && f[12] == 0x08 && f[13] == 0x00 && f[14] == 0x45 && f[15] == 0
            && f[18] == 0 && f[19] == 0 && f[20] == 0 && f[21] == 0 && f[22] == 64 && f[23] == 6
            && Checksum(f[14..34]) == 0
            && var t := f[34..];
            Checksum(s.serverIp + s.clientIp + [0, 6, |t| / 0x100 % 0x100, |t| % 0x100] + t) == 0
  {
    hide Frame, TcpBytes, Checksum, IpHeader;
    FrameFixed(s.clientMac, s.serverMac, TcpIp(s, o), TcpBytes(s, o));
    IpVerifies(TcpIp(s, o));
    TcpVerifies(s, o);
    PseudoIs(s.serverIp, s.clientIp, 6, |TcpBytes(s, o)|);
  }

  lemma PseudoIs(source: Ip, destination: Ip, protocol: Byte, length: nat)
    ensures Pseudo(source, destination, protocol, length) ==
            source + destination + [0, protocol, length / 0x100 % 0x100, length % 0x100]
  {
  }

  lemma {:induction false} PaddedWithZeros(frame: seq<Byte>)
    ensures forall k :: |frame| <= k < 60 ==> PadTo60(frame)[k] == 0
    decreases 60 - |frame|
  {
    if |frame| < 60 {
      PaddedWithZeros(frame + [0]);
      assert PadTo60(frame + [0])[|frame|] == (frame + [0])[|frame|];
    }
  }

  /** A checksum of 0 would mean that there is none. */
  lemma UdpSumIsSent(r: Route, payload: seq<Byte>)
    ensures UdpBytes(r, payload)[6] != 0 || UdpBytes(r, payload)[7] != 0
  {
    hide Checksum, UdpBare, Pseudo;
  }

  /** A UDP frame, padded to 60 bytes: identification 0x6321, don't fragment, protocol 17, both checksums right. */
  lemma UdpFrameIs(r: Route, payload: seq<Byte>)
    ensures var f := BuildUdp(r, payload);
            && |f| == Max(60, 42 + |payload|)
            && f[12] == 0x08 && f[13] == 0x00 && f[14] == 0x45 && f[15] == 0
            && f[18] == 0x63 && f[19] == 0x21 && f[20] == 0x40 && f[21] == 0 && f[22] == r.ttl && f[23] == 17
            && Checksum(f[14..34]) == 0
            && var u := f[34..42 + |payload|];
            Checksum(r.sourceIp + r.destinationIp + [0, 17, |u| / 0x100 % 0x100, |u| % 0x100] + u) == 0
    ensures forall k :: 42 + |payload| <= k < 60 ==> BuildUdp(r, payload)[k] == 0
    ensures var f := BuildUdp(r, payload); f[40] != 0 || f[41] != 0
  {
    hide Frame, UdpBytes, Checksum, IpHeader;
    var frame := Frame(r.destinationMac, r.sourceMac, UdpIp(r, payload), UdpBytes(r, payload));
    FrameFixed(r.destinationMac, r.sourceMac, UdpIp(r, payload), UdpBytes(r, payload));
    IpVerifies(UdpIp(r, payload));
    UdpVerifies(r, payload);
    PseudoIs(r.sourceIp, r.destinationIp, 17, 8 + |payload|);
    PaddedWithZeros(frame);
    UdpSumIsSent(r, payload);
    var f := BuildUdp(r, payload);
    assert f[..|frame|] == frame && f[40] == frame[34..][6] && f[41] == frame[34..][7];
    assert f[14..34] == frame[14..34] && f[34..42 + |payload|] == frame[34..];
  }

  // ---- what the parsers take, and from where ----

  /** A frame is a TCP segment by its type and protocol fields alone. */
  lemma TcpParsesIff(frame: seq<Byte>)
    ensures ParseTcp(frame).Some? <==>
              |frame| >= 34 && frame[12] == 0x08 && frame[13] == 0x00 && frame[23] == 6
  {
    hide Slice, U16, U32, ParseMss;
  }

  /** Reading behind a front part reads the back part. */
  lemma ReadsBack(front: seq<Byte>, back: seq<Byte>, i: nat)
    ensures At(front + back, |front| + i) == At(back, i)
    ensures U16(front + back, |front| + i) == U16(back, i) && U32(front + back, |front| + i) == U32(back, i)
  {
    hide WordOf, LongOf;
  }

  lemma SlicesBack(front: seq<Byte>, back: seq<Byte>, from: nat, to: nat)
    requires from <= to
    ensures Slice(front + back, |front| + from, |front| + to) == Slice(back, from, to)
  {
    var whole := front + back;
    assert whole[|front|..] == back;
    assert Slice(whole, |front| + from, |front| + to) == Slice(back, from, to);
  }

  /** The MSS option is read only where the header has room for it and its kind and length are there. */
  function MssOf(tcp: seq<Byte>): Option<Word> {
    if At(tcp, 12) / 0x10 * 4 >= 24 && At(tcp, 20) == 2 && At(tcp, 21) == 4 then Some(U16(tcp, 22)) else None
  }

  /**
   A segment behind an IP header of any length, options included: its fields come from its own offsets, and its
   payload is what lies between the two header lengths and the datagram's total.
   */
  lemma TcpBehindOptions(ether: seq<Byte>, ip: seq<Byte>, tcp: seq<Byte>)
    requires |ether| == 14 && ether[12] == 0x08 && ether[13] == 0x00
    requires |ip| >= 20 && |ip| == ip[0] % 0x10 * 4 && ip[9] == 6
    ensures var header, total := At(tcp, 12) / 0x10 * 4, U16(ip, 2);
            ParseTcp(ether + ip + tcp) == Some(TcpSegment(
              ether[6..12], ether[..6], ip[12..16], ip[16..20],
              U16(tcp, 0), U16(tcp, 2), U32(tcp, 4), U32(tcp, 8), At(tcp, 13), U16(tcp, 14), MssOf(tcp),
              Slice(tcp, header, Max(total - |ip|, header))))
  {
    hide U16, U32, At, Slice;
    var front := ether + ip;
    var frame := front + tcp;
    var header, total := At(tcp, 12) / 0x10 * 4, U16(ip, 2);
    assert frame[12] == ether[12] && frame[13] == ether[13] && frame[14] == ip[0] && frame[23] == ip[9];
    Fields(front, tcp);
    TotalIs(ether, ip, tcp);
    SlicesBack(front, tcp, header, Max(total - |ip|, header));
    AddressesAre(ether, ip, tcp);
  }

  lemma Fields(front: seq<Byte>, tcp: seq<Byte>)
    ensures var f, n := front + tcp, |front|;
            && U16(f, n) == U16(tcp, 0) && U16(f, n + 2) == U16(tcp, 2) && U32(f, n + 4) == U32(tcp, 4)
            && U32(f, n + 8) == U32(tcp, 8) && At(f, n + 12) == At(tcp, 12) && At(f, n + 13) == At(tcp, 13)
            && U16(f, n + 14) == U16(tcp, 14) && ParseMss(f, n, At(tcp, 12) / 0x10 * 4) == MssOf(tcp)
  {
    hide U16, U32, At;
    ReadsBack(front, tcp, 0);
    ReadsBack(front, tcp, 2);
    ReadsBack(front, tcp, 4);
    ReadsBack(front, tcp, 8);
    ReadsBack(front, tcp, 12);
    ReadsBack(front, tcp, 13);
    ReadsBack(front, tcp, 14);
    ReadsBack(front, tcp, 20);
    ReadsBack(front, tcp, 21);
    ReadsBack(front, tcp, 22);
  }

  lemma TotalIs(ether: seq<Byte>, ip: seq<Byte>, tcp: seq<Byte>)
    requires |ether| == 14 && |ip| >= 20
    ensures U16(ether + ip + tcp, 16) == U16(ip, 2)
  {
  }

  lemma AddressesAre(ether: seq<Byte>, ip: seq<Byte>, tcp: seq<Byte>)
    requires |ether| == 14 && |ip| >= 20
    ensures var f := ether + ip + tcp;
            && Slice(f, 6, 12) == ether[6..12] && Slice(f, 0, 6) == ether[..6]
            && Slice(f, 26, 30) == ip[12..16] && Slice(f, 30, 34) == ip[16..20]
  {
    var f := ether + ip + tcp;
    Addresses(f);
  }

  /** A frame is a datagram exactly if its lengths agree with each other and fit it; the payload is what they span. */
  lemma UdpParsesIff(frame: seq<Byte>)
    ensures ParseUdp(frame).Some? <==>
              && |frame| >= 42 && frame[12] == 0x08 && frame[13] == 0x00 && frame[14] == 0x45 && frame[23] == 17
              && 28 <= U16(frame, 16) <= |frame| - 14 && U16(frame, 38) == U16(frame, 16) - 20
    ensures ParseUdp(frame).Some? ==>
              ParseUdp(frame).value == Datagram(
                frame[6..12], frame[..6], frame[26..30], frame[30..34], U16(frame, 34), U16(frame, 36),
                frame[42..14 + U16(frame, 16)])
  {
    hide WordOf;
    if |frame| >= 42 {
      var ip := frame[14..];
      assert frame == frame[..14] + ip;
      ReadsBack(frame[..14], ip, 2);
      var total := U16(ip, 2);
      if 28 <= total <= |ip| {
        var udp := Slice(ip, 20, total);
        UdpPart(frame, total);
      }
    }
  }

  lemma UdpPart(frame: seq<Byte>, total: nat)
    requires |frame| >= 42 && 28 <= total <= |frame| - 14
    ensures var udp := Slice(frame[14..], 20, total);
            && |udp| == total - 20 && U16(udp, 0) == U16(frame, 34) && U16(udp, 2) == U16(frame, 36)
            && U16(udp, 4) == U16(frame, 38) && Slice(udp, 8, |udp|) == frame[42..14 + total]
    ensures Slice(frame, 6, 12) == frame[6..12] && Slice(frame, 0, 6) == frame[..6]
    ensures Slice(frame[14..], 12, 16) == frame[26..30] && Slice(frame[14..], 16, 20) == frame[30..34]
  {
    hide WordOf;
    var udp := Slice(frame[14..], 20, total);
    assert udp == frame[34..14 + total];
    assert udp[8..] == frame[42..14 + total] && Slice(udp, 8, |udp|) == udp[8..];
  }
}
