/** Building and parsing the TCP and UDP frames the model peers exchange with the program under test. */
module Wire {
  import opened Bytes
  import opened InetChecksum

  type Mac = s: seq<Byte> | |s| == 6 witness [0, 0, 0, 0, 0, 0]
  type Ip = s: seq<Byte> | |s| == 4 witness [0, 0, 0, 0]

  // ---- numbers in bytes ----

  function High(x: int): Byte {
    x / 0x100 % 0x100
  }

  function Low(x: int): Byte {
    x % 0x100
  }

  /** Reading past the end gives JavaScript's undefined, which shifts and masks treat as 0. */
  function At(bytes: seq<Byte>, i: nat): Byte {
    if i < |bytes| then bytes[i] else 0
  }

  function U16(bytes: seq<Byte>, i: nat): Word {
    WordOf(At(bytes, i), At(bytes, i + 1))
  }

  function U32(bytes: seq<Byte>, i: nat): Dword {
    LongOf(U16(bytes, i), U16(bytes, i + 2))
  }

  function LongOf(high: Word, low: Word): Dword {
    high * 0x1_0000 + low
  }

  function Slice(bytes: seq<Byte>, from: nat, to: nat): seq<Byte> {
    bytes[Min(from, |bytes|)..Max(Min(from, |bytes|), Min(to, |bytes|))]
  }

  function TwoBytes(x: int): (r: seq<Byte>)
    ensures |r| == 2
  {
    [High(x), Low(x)]
  }

  function FourBytes(x: Dword): (r: seq<Byte>)
    ensures |r| == 4
  {
    TwoBytes(x / 0x1_0000) + TwoBytes(x)
  }

  lemma TwoBytesRead(x: int)
    ensures U16(TwoBytes(x), 0) == x % 0x1_0000
  {
  }

  /** Reading a number that lies inside a longer sequence. */
  lemma Inside(bytes: seq<Byte>, i: nat, part: seq<Byte>)
    requires i + |part| <= |bytes| && bytes[i..i + |part|] == part
    ensures |part| >= 2 ==> U16(bytes, i) == U16(part, 0)
    ensures |part| >= 4 ==> U16(bytes, i + 2) == U16(part, 2) && U32(bytes, i) == U32(part, 0)
    ensures forall k :: 0 <= k < |part| ==> bytes[i + k] == part[k]
  {
    forall k | 0 <= k < |part|
      ensures bytes[i + k] == part[k]
    {
      assert bytes[i + k] == bytes[i..i + |part|][k];
    }
  }

  lemma FourBytesRead(x: Dword)
    ensures U32(FourBytes(x), 0) == x
  {
    hide TwoBytes, WordOf, At;
    Inside(FourBytes(x), 0, TwoBytes(x / 0x1_0000));
    Inside(FourBytes(x), 2, TwoBytes(x));
    TwoBytesRead(x / 0x1_0000);
    TwoBytesRead(x);
  }

  // ---- headers ----

  function Ethernet(to: Mac, from: Mac): (r: seq<Byte>)
    ensures |r| == 14
  {
    to + from + [8, 0]
  }

  datatype IpInfo = IpInfo(total: nat, id: Word, flags: Byte, ttl: Byte, protocol: Byte, source: Ip, destination: Ip)

  /** The header before its checksum is written. */
  function IpBare(i: IpInfo): (r: seq<Byte>)
    ensures |r| == 20
  {
    [0x45, 0] + TwoBytes(i.total) + TwoBytes(i.id) + [i.flags, 0, i.ttl, i.protocol] + [0, 0] + i.source + i.destination
  }

  function IpHeader(i: IpInfo): (r: seq<Byte>)
    ensures |r| == 20
  {
    Put(IpBare(i), 0, 20, 10)
  }

  /** What the transport checksums add to the segment. */
  function Pseudo(source: Ip, destination: Ip, protocol: Byte, length: nat): (r: seq<Byte>)
    ensures |r| == 12
  {
    source + destination + [0, protocol] + TwoBytes(length)
  }

  function Frame(to: Mac, from: Mac, ip: IpInfo, body: seq<Byte>): (r: seq<Byte>)
    ensures |r| == 34 + |body|
  {
    Ethernet(to, from) + IpHeader(ip) + body
  }

  lemma BareBytes(i: IpInfo)
    ensures var h := IpBare(i);
            && h[0] == 0x45 && h[2] == High(i.total) && h[3] == Low(i.total) && h[9] == i.protocol
            && h[10] == 0 && h[11] == 0 && h[12..16] == i.source && h[16..20] == i.destination
  {
    hide High, Low;
  }

  lemma HeaderBytes(i: IpInfo)
    ensures var h := IpHeader(i);
            && h[0] == 0x45 && h[2] == High(i.total) && h[3] == Low(i.total) && h[9] == i.protocol
            && h[12..16] == i.source && h[16..20] == i.destination
  {
    hide IpBare, High, Low, Checksum;
    BareBytes(i);
  }

  /** What a parser reads from a frame is in its parts. */
  lemma FrameBytes(to: Mac, from: Mac, ip: IpInfo, body: seq<Byte>)
    ensures var f := Frame(to, from, ip, body);
            && f[12] == 8 && f[13] == 0 && f[14] == 0x45 && f[23] == ip.protocol
            && f[16] == High(ip.total) && f[17] == Low(ip.total)
            && f[..6] == to && f[6..12] == from && f[26..30] == ip.source && f[30..34] == ip.destination
            && f[34..] == body
  {
    hide IpHeader, High, Low;
    HeaderBytes(ip);
    var e, h := Ethernet(to, from), IpHeader(ip);
    var f := e + h + body;
    assert f[26..30] == h[12..16] && f[30..34] == h[16..20];
    assert f[14] == h[0] && f[23] == h[9] && f[16] == h[2] && f[17] == h[3];
  }

  // ---- the checksums verify ----

  lemma IpVerifies(i: IpInfo)
    ensures Checksum(IpHeader(i)) == 0
  {
    hide IpBare, Checksum;
    PutVerifiesIff(IpBare(i), 0, 20, 10);
    assert Region(IpHeader(i), 0, 20) == IpHeader(i);
  }

  /** Writing the complement of the sum of everything into an even place makes the whole verify. */
  lemma SumVerifies(bytes: seq<Byte>, field: nat, value: Word)
    requires field + 1 < |bytes| && field % 2 == 0 && bytes[field] == 0 && bytes[field + 1] == 0
    requires value == Checksum(bytes) || (value == 0xFFFF && Checksum(bytes) == 0)
    ensures Checksum(WithWord(bytes, field, value)) == 0
  {
    hide Total, Residue, Running;
    assert WithWord(bytes, field, 0) == bytes;
    TotalWithWord(bytes, field, value);
    RunningIsResidue(0, bytes);
    RunningIsResidue(0, WithWord(bytes, field, value));
    Completed(Total(bytes), Checksum(bytes));
    if Checksum(bytes) == 0 {
      AddsNothing(Total(bytes));
    }
  }

  lemma AddsNothing(total: nat)
    requires Residue(total) == 0xFFFF
    ensures Residue(total + 0xFFFF) == 0xFFFF
  {
    var q := ResidueParts(total);
    ResidueOf(total + 0xFFFF, q + 1, 0xFFFF);
  }

  // ---- TCP ----

  datatype Session = Session(
    clientMac: Mac, clientIp: Ip, clientPort: Word, serverMac: Mac, serverIp: Ip, serverPort: Word)

  datatype Sending = Sending(
    flags: Byte, seqNo: Dword, ackNo: Dword, payload: seq<Byte>, window: Word, mss: Option<Word>)

  datatype TcpSegment = TcpSegment(
    sourceMac: seq<Byte>, destMac: seq<Byte>, sourceIp: seq<Byte>, destIp: seq<Byte>, srcPort: Word, dstPort: Word,
    seqNo: Dword, ackNo: Dword, flags: Byte, window: Word, mss: Option<Word>, payload: seq<Byte>)

  function HeaderSize(o: Sending): nat {
    if o.mss.Some? then 24 else 20
  }

  function TcpPorts(s: Session): (r: seq<Byte>)
    ensures |r| == 4
  {
    TwoBytes(s.serverPort) + TwoBytes(s.clientPort)
  }

  /** Data offset, flags and window; checksum and urgent pointer are 0. */
  function TcpControl(o: Sending): (r: seq<Byte>)
    ensures |r| == 8
  {
    [HeaderSize(o) / 4 * 0x10, o.flags] + TwoBytes(o.window) + [0, 0, 0, 0]
  }

  function TcpFixed(s: Session, o: Sending): (r: seq<Byte>)
    ensures |r| == 20
  {
    TcpPorts(s) + FourBytes(o.seqNo) + FourBytes(o.ackNo) + TcpControl(o)
  }

  function MssOption(o: Sending): (r: seq<Byte>)
    ensures |r| == HeaderSize(o) - 20
  {
    if o.mss.Some? then [2, 4] + TwoBytes(o.mss.value) else []
  }

  function TcpBare(s: Session, o: Sending): (r: seq<Byte>)
    ensures |r| == HeaderSize(o) + |o.payload|
  {
    TcpFixed(s, o) + MssOption(o) + o.payload
  }

  function TcpBytes(s: Session, o: Sending): (r: seq<Byte>)
    ensures |r| == HeaderSize(o) + |o.payload|
  {
    var bare := TcpBare(s, o);
    WithWord(bare, 16, Checksum(Pseudo(s.serverIp, s.clientIp, 6, |bare|) + bare))
  }

  function TcpIp(s: Session, o: Sending): IpInfo {
    IpInfo(20 + HeaderSize(o) + |o.payload|, 0, 0, 64, 6, s.serverIp, s.clientIp)
  }

  function BuildTcp(s: Session, o: Sending): seq<Byte> {
    Frame(s.clientMac, s.serverMac, TcpIp(s, o), TcpBytes(s, o))
  }

  function ParseMss(frame: seq<Byte>, tcpStart: nat, dataOffset: nat): Option<Word> {
    if dataOffset >= 24 && At(frame, tcpStart + 20) == 2 && At(frame, tcpStart + 21) == 4
    then Some(U16(frame, tcpStart + 22)) else None
  }

  function ParseTcp(frame: seq<Byte>): Option<TcpSegment> {
    if |frame| < 34 || frame[12] != 8 || frame[13] != 0 then None
    else if frame[23] != 6 then None
    else
      var tcpStart := 14 + frame[14] as int % 0x10 * 4;
      var dataOffset := At(frame, tcpStart + 12) as int / 0x10 * 4;
      Some(TcpSegment(
        Slice(frame, 6, 12), Slice(frame, 0, 6), Slice(frame, 26, 30), Slice(frame, 30, 34),
        U16(frame, tcpStart), U16(frame, tcpStart + 2), U32(frame, tcpStart + 4), U32(frame, tcpStart + 8),
        At(frame, tcpStart + 13), U16(frame, tcpStart + 14), ParseMss(frame, tcpStart, dataOffset),
        Slice(frame, tcpStart + dataOffset, Max(14 + U16(frame, 16), tcpStart + dataOffset))))
  }

  lemma PortFields(s: Session)
    ensures U16(TcpPorts(s), 0) == s.serverPort && U16(TcpPorts(s), 2) == s.clientPort
  {
    hide TwoBytes, WordOf, At;
    TwoBytesRead(s.serverPort);
    TwoBytesRead(s.clientPort);
    Inside(TcpPorts(s), 0, TwoBytes(s.serverPort));
    Inside(TcpPorts(s), 2, TwoBytes(s.clientPort));
  }

  lemma ControlFields(o: Sending)
    ensures var h := TcpControl(o);
            && h[0] == HeaderSize(o) / 4 * 0x10 && h[1] == o.flags && U16(h, 2) == o.window && h[4] == 0 && h[5] == 0
  {
    hide TwoBytes, WordOf, At, HeaderSize;
    TwoBytesRead(o.window);
    Inside(TcpControl(o), 2, TwoBytes(o.window));
  }

  lemma FixedFields(s: Session, o: Sending)
    ensures var h := TcpFixed(s, o);
            && U16(h, 0) == s.serverPort && U16(h, 2) == s.clientPort
            && U32(h, 4) == o.seqNo && U32(h, 8) == o.ackNo
            && h[12] == HeaderSize(o) / 4 * 0x10 && h[13] == o.flags && U16(h, 14) == o.window
            && h[16] == 0 && h[17] == 0
  {
    hide TcpPorts, TcpControl, FourBytes, HeaderSize, WordOf, LongOf, At;
    PortFields(s);
    ControlFields(o);
    FourBytesRead(o.seqNo);
    FourBytesRead(o.ackNo);
    var h := TcpFixed(s, o);
    Inside(h, 0, TcpPorts(s));
    Inside(h, 4, FourBytes(o.seqNo));
    Inside(h, 8, FourBytes(o.ackNo));
    Inside(h, 12, TcpControl(o));
  }

  /** The checksum changes only its own two bytes. */
  lemma BodyParts(s: Session, o: Sending)
    ensures var t, h := TcpBytes(s, o), TcpFixed(s, o);
            && t[..16] == h[..16] && t[20..HeaderSize(o)] == MssOption(o) && t[HeaderSize(o)..] == o.payload
  {
    hide TcpFixed, MssOption, Checksum, Pseudo;
  }

  lemma BodyFields(s: Session, o: Sending)
    ensures var t := TcpBytes(s, o);
            && U16(t, 0) == s.serverPort && U16(t, 2) == s.clientPort
            && U32(t, 4) == o.seqNo && U32(t, 8) == o.ackNo
            && t[12] == HeaderSize(o) / 4 * 0x10 && t[13] == o.flags && U16(t, 14) == o.window
  {
    hide TcpFixed, TcpBytes, MssOption, HeaderSize, WordOf, LongOf;
    BodyParts(s, o);
    FixedFields(s, o);
    var t, h := TcpBytes(s, o), TcpFixed(s, o);
    forall k | 0 <= k < 16
      ensures t[k] == h[k]
    {
      assert t[..16][k] == h[..16][k];
    }
  }

  lemma BodyMss(s: Session, o: Sending)
    ensures ParseMss(TcpBytes(s, o), 0, HeaderSize(o)) == o.mss
  {
    hide TcpFixed, TcpBytes, WordOf, High, Low;
    BodyParts(s, o);
    if o.mss.Some? {
      var t := TcpBytes(s, o);
      Inside(t, 20, MssOption(o));
      TwoBytesRead(o.mss.value);
      Inside(MssOption(o), 2, TwoBytes(o.mss.value));
      hide MssOption, TwoBytes;
      Inside(t, 22, TwoBytes(o.mss.value));
    }
  }

  /** A parser that reads 34 bytes on in the frame reads the body. */
  lemma ReadsBody(frame: seq<Byte>, body: seq<Byte>, i: nat)
    requires |frame| >= 34 && frame[34..] == body
    ensures At(frame, 34 + i) == At(body, i)
  {
    if i < |body| {
      assert frame[34 + i] == frame[34..][i];
    }
  }

  lemma ReadsNumbers(frame: seq<Byte>, body: seq<Byte>, i: nat)
    requires |frame| >= 34 && frame[34..] == body
    ensures U16(frame, 34 + i) == U16(body, i) && U32(frame, 34 + i) == U32(body, i)
  {
    hide At, WordOf, LongOf;
    ReadsBody(frame, body, i);
    ReadsBody(frame, body, i + 1);
    ReadsBody(frame, body, i + 2);
    ReadsBody(frame, body, i + 3);
  }

  lemma ReadsMss(frame: seq<Byte>, body: seq<Byte>, offset: nat)
    requires |frame| >= 34 && frame[34..] == body
    ensures ParseMss(frame, 34, offset) == ParseMss(body, 0, offset)
  {
    hide At, U16;
    ReadsBody(frame, body, 20);
    ReadsBody(frame, body, 21);
    ReadsNumbers(frame, body, 22);
  }

  /** The data offset and header length as the parser computes them. */
  lemma Offsets(o: Sending)
    ensures HeaderSize(o) >= 20 && HeaderSize(o) / 4 * 0x10 / 0x10 * 4 == HeaderSize(o) && 0x45 % 0x10 * 4 == 20
  {
  }

  /** How much of the payload a 16-bit total length still covers. */
  function Covered(o: Sending): seq<Byte> {
    Slice(o.payload, 0, Max(0, (20 + HeaderSize(o) + |o.payload|) % 0x1_0000 - 20 - HeaderSize(o)))
  }

  lemma PayloadIs(frame: seq<Byte>, s: Session, o: Sending, total: Word)
    requires |frame| >= 34 && frame[34..] == TcpBytes(s, o)
    requires total == (20 + HeaderSize(o) + |o.payload|) % 0x1_0000
    ensures Slice(frame, 34 + HeaderSize(o), Max(14 + total, 34 + HeaderSize(o))) == Covered(o)
  {
    hide TcpBytes, HeaderSize;
    BodyParts(s, o);
    var start := 34 + HeaderSize(o);
    assert frame[start..] == o.payload;
    SliceOfTail(frame, start, Max(0, total - 20 - HeaderSize(o)));
  }

  lemma SliceOfTail(frame: seq<Byte>, start: nat, size: nat)
    requires start <= |frame|
    ensures Slice(frame, start, start + size) == Slice(frame[start..], 0, size)
  {
  }

  /** Everything but the payload always comes back, and the payload as far as the total length covers it. */
  lemma TcpComesBack(s: Session, o: Sending)
    ensures ParseTcp(BuildTcp(s, o)) == Some(TcpSegment(
              s.serverMac, s.clientMac, s.serverIp, s.clientIp, s.serverPort, s.clientPort,
              o.seqNo, o.ackNo, o.flags, o.window, o.mss, Covered(o)))
  {
    hide TcpBytes, HeaderSize, WordOf, LongOf, U16, U32, Covered, Frame, ParseMss, High, Low;
    var frame, body := BuildTcp(s, o), TcpBytes(s, o);
    FrameBytes(s.clientMac, s.serverMac, TcpIp(s, o), body);
    BodyFields(s, o);
    BodyMss(s, o);
    Offsets(o);
    ReadsNumbers(frame, body, 0);
    ReadsNumbers(frame, body, 2);
    ReadsNumbers(frame, body, 4);
    ReadsNumbers(frame, body, 8);
    ReadsNumbers(frame, body, 14);
    ReadsBody(frame, body, 12);
    ReadsBody(frame, body, 13);
    ReadsMss(frame, body, HeaderSize(o));
    TotalRead(frame, 20 + HeaderSize(o) + |o.payload|);
    PayloadIs(frame, s, o, U16(frame, 16));
    Addresses(frame);
  }

  lemma TotalRead(frame: seq<Byte>, total: nat)
    requires |frame| >= 34 && frame[16] == High(total) && frame[17] == Low(total)
    ensures U16(frame, 16) == total % 0x1_0000
  {
    var q, r := total / 0x1_0000, total % 0x1_0000;
    assert total / 0x100 == 0x100 * q + r / 0x100;
  }

  lemma Addresses(frame: seq<Byte>)
    requires |frame| >= 34
    ensures Slice(frame, 0, 6) == frame[..6] && Slice(frame, 6, 12) == frame[6..12]
    ensures Slice(frame, 26, 30) == frame[26..30] && Slice(frame, 30, 34) == frame[30..34]
  {
  }

  /** The round trip is exact if and only if the datagram fits the 16-bit total length. */
  lemma TcpRoundTripIff(s: Session, o: Sending)
    ensures ParseTcp(BuildTcp(s, o)).Some? && ParseTcp(BuildTcp(s, o)).value.payload <= o.payload
    ensures ParseTcp(BuildTcp(s, o)).value.payload == o.payload <==> 20 + HeaderSize(o) + |o.payload| <= 0xFFFF
  {
    hide ParseTcp, BuildTcp;
    TcpComesBack(s, o);
  }

  /** A payload of 65496 bytes without options makes the total length 65536, of which 0 is sent: nothing comes back. */
  lemma LongPayloadIsLost(s: Session, o: Sending)
    requires o.mss.None? && |o.payload| == 65496
    ensures ParseTcp(BuildTcp(s, o)).Some? && ParseTcp(BuildTcp(s, o)).value.payload == [] != o.payload
  {
    hide ParseTcp, BuildTcp;
    TcpComesBack(s, o);
  }

  /** The segment's checksum verifies over the pseudo header of addresses, protocol and length. */
  lemma TcpVerifies(s: Session, o: Sending)
    ensures Checksum(Pseudo(s.serverIp, s.clientIp, 6, |TcpBytes(s, o)|) + TcpBytes(s, o)) == 0
  {
    hide TcpBare, Checksum, Pseudo;
    var bare := TcpBare(s, o);
    var pseudo := Pseudo(s.serverIp, s.clientIp, 6, |bare|);
    BareSum(s, o);
    SumVerifies(pseudo + bare, 28, Checksum(pseudo + bare));
    WordAfter(pseudo, bare, 16, Checksum(pseudo + bare));
  }

  lemma BareSum(s: Session, o: Sending)
    ensures TcpBare(s, o)[16] == 0 && TcpBare(s, o)[17] == 0
  {
    hide TcpFixed, MssOption;
    FixedFields(s, o);
  }

  lemma WordAfter(front: seq<Byte>, bytes: seq<Byte>, field: nat, value: Word)
    requires field + 1 < |bytes|
    ensures WithWord(front + bytes, |front| + field, value) == front + WithWord(bytes, field, value)
  {
  }

  // ---- UDP ----

  datatype Datagram = Datagram(
    sourceMac: seq<Byte>, destMac: seq<Byte>, sourceIp: seq<Byte>, destIp: seq<Byte>,
    sourcePort: Word, destPort: Word, payload: seq<Byte>)

  /** Where a reply comes from and goes to. */
  datatype Route = Route(
    sourceMac: Mac, sourceIp: Ip, sourcePort: Word,
    destinationMac: Mac, destinationIp: Ip, destinationPort: Word, ttl: Byte)

  function UdpBare(r: Route, payload: seq<Byte>): (u: seq<Byte>)
    ensures |u| == 8 + |payload|
  {
    TwoBytes(r.sourcePort) + TwoBytes(r.destinationPort) + TwoBytes(8 + |payload|) + [0, 0] + payload
  }

  /** A checksum of 0 is sent as all ones. */
  function UdpSum(r: Route, payload: seq<Byte>): Word {
    var sum := Checksum(Pseudo(r.sourceIp, r.destinationIp, 17, 8 + |payload|) + UdpBare(r, payload));
    if sum == 0 then 0xFFFF else sum
  }

  function UdpBytes(r: Route, payload: seq<Byte>): (u: seq<Byte>)
    ensures |u| == 8 + |payload|
  {
    WithWord(UdpBare(r, payload), 6, UdpSum(r, payload))
  }

  function UdpIp(r: Route, payload: seq<Byte>): IpInfo {
    IpInfo(28 + |payload|, 0x6321, 0x40, r.ttl, 17, r.sourceIp, r.destinationIp)
  }

  function PadTo60(frame: seq<Byte>): (r: seq<Byte>)
    ensures |r| == Max(60, |frame|) && frame <= r
    decreases 60 - |frame|
  {
    if |frame| < 60 then PadTo60(frame + [0]) else frame
  }

  function BuildUdp(r: Route, payload: seq<Byte>): seq<Byte> {
    PadTo60(Frame(r.destinationMac, r.sourceMac, UdpIp(r, payload), UdpBytes(r, payload)))
  }

  function ParseUdp(frame: seq<Byte>): Option<Datagram> {
    if |frame| < 42 || frame[12] != 8 || frame[13] != 0 then None
    else
      var ip := frame[14..];
      if ip[0] != 0x45 || ip[9] != 17 then None
      else
        var total := U16(ip, 2);
        if total < 28 || total > |ip| then None
        else
          var udp := Slice(ip, 20, total);
          if U16(udp, 4) != |udp| || U16(udp, 4) < 8 then None
          else
            Some(Datagram(Slice(frame, 6, 12), Slice(frame, 0, 6), Slice(ip, 12, 16), Slice(ip, 16, 20),
                          U16(udp, 0), U16(udp, 2), Slice(udp, 8, |udp|)))
  }

  lemma UdpFields(r: Route, payload: seq<Byte>)
    requires 8 + |payload| <= 0xFFFF
    ensures var u := UdpBytes(r, payload);
            && U16(u, 0) == r.sourcePort && U16(u, 2) == r.destinationPort && U16(u, 4) == |u|
            && Slice(u, 8, |u|) == payload
  {
    hide High, Low, TwoBytes, WordOf, UdpSum;
    TwoBytesRead(r.sourcePort);
    TwoBytesRead(r.destinationPort);
    TwoBytesRead(8 + |payload|);
    var u := UdpBytes(r, payload);
    Inside(u, 0, TwoBytes(r.sourcePort));
    Inside(u, 2, TwoBytes(r.destinationPort));
    Inside(u, 4, TwoBytes(8 + |payload|));
  }

  /** The datagram in a frame, with whatever padding follows it. */
  lemma UdpInFrame(r: Route, payload: seq<Byte>, padded: seq<Byte>)
    requires 28 + |payload| <= 0xFFFF
    requires Frame(r.destinationMac, r.sourceMac, UdpIp(r, payload), UdpBytes(r, payload)) <= padded
    ensures |padded| >= 42 && padded[12] == 8 && padded[13] == 0
    ensures var ip := padded[14..];
            && ip[0] == 0x45 && ip[9] == 17 && U16(ip, 2) == 28 + |payload| && 28 + |payload| <= |ip|
            && Slice(ip, 20, 28 + |payload|) == UdpBytes(r, payload)
            && Slice(ip, 12, 16) == r.sourceIp && Slice(ip, 16, 20) == r.destinationIp
            && Slice(padded, 6, 12) == r.sourceMac && Slice(padded, 0, 6) == r.destinationMac
  {
    hide Frame, UdpBytes, WordOf, High, Low;
    var frame := Frame(r.destinationMac, r.sourceMac, UdpIp(r, payload), UdpBytes(r, payload));
    FrameBytes(r.destinationMac, r.sourceMac, UdpIp(r, payload), UdpBytes(r, payload));
    TotalRead(frame, 28 + |payload|);
    var ip := padded[14..];
    assert ip[..20 + |UdpBytes(r, payload)|] == frame[14..];
    assert ip[2] == frame[16] && ip[3] == frame[17] && ip[0] == frame[14] && ip[9] == frame[23];
    assert ip[20..28 + |payload|] == frame[34..];
    assert ip[12..16] == frame[26..30] && ip[16..20] == frame[30..34];
  }

  /** Building and parsing a UDP reply gives back its addresses, ports and payload, despite the padding. */
  lemma UdpRoundTrip(r: Route, payload: seq<Byte>)
    requires 28 + |payload| <= 0xFFFF
    ensures ParseUdp(BuildUdp(r, payload)) == Some(Datagram(
              r.sourceMac, r.destinationMac, r.sourceIp, r.destinationIp, r.sourcePort, r.destinationPort, payload))
  {
    hide Frame, UdpBytes, U16, Slice, PadTo60;
    UdpInFrame(r, payload, BuildUdp(r, payload));
    UdpFields(r, payload);
  }

  lemma UdpVerifies(r: Route, payload: seq<Byte>)
    ensures Checksum(Pseudo(r.sourceIp, r.destinationIp, 17, 8 + |payload|) + UdpBytes(r, payload)) == 0
  {
    hide UdpBare, Checksum, Pseudo;
    var bare := UdpBare(r, payload);
    var pseudo := Pseudo(r.sourceIp, r.destinationIp, 17, 8 + |payload|);
    NoSumYet(r, payload);
    SumVerifies(pseudo + bare, 18, UdpSum(r, payload));
    WordAfter(pseudo, bare, 6, UdpSum(r, payload));
  }

  lemma NoSumYet(r: Route, payload: seq<Byte>)
    ensures UdpBare(r, payload)[6] == 0 && UdpBare(r, payload)[7] == 0
  {
    hide TwoBytes;
  }
}
