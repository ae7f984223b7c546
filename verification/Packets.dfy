/**
 The inner-packet parsers: the shared IP header parser, and the firewall's
 parsers for flows and for the packets quoted inside ICMP errors. Bytes are
 numbers below 256; shifts and masks are written as the divisions they are.
 */
module Packets {
  import opened Common

  type Byte = b: nat | b < 256

  datatype Ip = V4(octets: seq<Byte>) | V6(octets: seq<Byte>)

  const ICMP: Byte := 1
  const TCP: Byte := 6
  const UDP: Byte := 17
  const ICMPV6: Byte := 58

  const ICMP_HEADER_LEN: nat := 8

  /** Big-endian `u16`. */
  function U16(hi: Byte, lo: Byte): nat {
    256 * hi + lo
  }

  function Version(b: Byte): nat {
    b / 16
  }

  // ---------------------------------------------------------------------
  // IP headers
  // ---------------------------------------------------------------------

  datatype Header = Header(src: Ip, dst: Ip, protocol: Byte, headerLen: nat, totalLen: nat)

  function ParseHeader(p: seq<Byte>): (h: Option<Header>)
    ensures h.Some? ==> 20 <= h.value.headerLen <= h.value.totalLen <= |p|
    ensures h.Some? ==> (h.value.src.V4? <==> Version(p[0]) == 4) && (h.value.dst.V4? <==> h.value.src.V4?)
    ensures h.Some? && h.value.src.V6? ==> Version(p[0]) == 6 && h.value.headerLen == 40
  {
    if p == [] then None
    else if Version(p[0]) == 4 then ParseV4Header(p)
    else if Version(p[0]) == 6 then ParseV6Header(p)
    else None
  }

  function ParseV4Header(p: seq<Byte>): Option<Header>
    requires p != []
  {
    if |p| < 20 || Version(p[0]) != 4 then None
    else
      var headerLen := p[0] % 16 * 4;
      if headerLen < 20 || |p| < headerLen then None
      else
        var totalLen := U16(p[2], p[3]);
        if totalLen < headerLen || totalLen > |p| then None
        else Some(Header(V4(p[12..16]), V4(p[16..20]), p[9], headerLen, totalLen))
  }

  function ParseV6Header(p: seq<Byte>): Option<Header>
    requires p != []
  {
    if |p| < 40 || Version(p[0]) != 6 then None
    else
      var totalLen := 40 + U16(p[4], p[5]);
      if totalLen > |p| then None
      else Some(Header(V6(p[8..24]), V6(p[24..40]), p[6], 40, totalLen))
  }

  /** More fragments set, or a nonzero fragment offset. */
  predicate IsV4Fragment(p: seq<Byte>) {
    |p| >= 20 && Version(p[0]) == 4 && U16(p[6], p[7]) % 0x4000 != 0
  }

  // ---------------------------------------------------------------------
  // Flows
  // ---------------------------------------------------------------------

  datatype FlowKey = FlowKey(src: Ip, dst: Ip, protocol: Byte, srcPort: nat, dstPort: nat)

  predicate IsReverseOf(a: FlowKey, b: FlowKey) {
    && a.protocol == b.protocol
    && a.src == b.dst && a.dst == b.src
    && a.srcPort == b.dstPort && a.dstPort == b.srcPort
  }

  datatype Kind = Tcp(flags: Byte) | Udp | EchoRequest | EchoReply | Error

  datatype Parsed = Parsed(key: FlowKey, kind: Kind)

  predicate Fin(f: Byte) { f % 2 == 1 }
  predicate Syn(f: Byte) { f / 2 % 2 == 1 }
  predicate Rst(f: Byte) { f / 4 % 2 == 1 }
  predicate Ack(f: Byte) { f / 16 % 2 == 1 }

  predicate PlausibleTcpFlags(f: Byte) {
    && !(Syn(f) && Fin(f))
    && !(Syn(f) && Rst(f))
    && !(Fin(f) && Rst(f))
    && (Syn(f) || Fin(f) || Rst(f) || Ack(f))
  }

  predicate OpensNewFlow(p: Parsed) {
    match p.kind
    case Udp => true
    case EchoRequest => true
    case Tcp(f) => Syn(f) && !Ack(f)
    case EchoReply => false
    case Error => false
  }

  predicate IsClosing(p: Parsed) {
    p.kind.Tcp? && (Fin(p.kind.flags) || Rst(p.kind.flags))
  }

  function ParseFlow(p: seq<Byte>): Option<Parsed> {
    match ParseHeader(p)
    case None => None
    case Some(h) =>
      if IsV4Fragment(p) then None
      else if h.protocol == TCP || h.protocol == UDP then ParseTransport(p, h)
      else if h.protocol == ICMP && h.src.V4? then ParseIcmp(p, h, 4)
      else if h.protocol == ICMPV6 && h.src.V6? then ParseIcmp(p, h, 6)
      else None
  }

  function ParseTransport(p: seq<Byte>, h: Header): Option<Parsed>
    requires h.totalLen <= |p|
  {
    var minimum := if h.protocol == TCP then 20 else 8;
    var o := h.headerLen;
    if o + minimum > h.totalLen then None
    else
      var key := FlowKey(h.src, h.dst, h.protocol, U16(p[o], p[o + 1]), U16(p[o + 2], p[o + 3]));
      if h.protocol == TCP then
        if PlausibleTcpFlags(p[o + 13]) then Some(Parsed(key, Tcp(p[o + 13]))) else None
      else
        Some(Parsed(key, Udp))
  }

  function EchoRequestType(version: nat): Byte { if version == 4 then 8 else 128 }
  function EchoReplyType(version: nat): Byte { if version == 4 then 0 else 129 }

  /** Destination unreachable, time exceeded, parameter problem, and for ICMPv6 packet too big. */
  predicate IsErrorType(t: Byte, version: nat) {
    if version == 4 then t == 3 || t == 11 || t == 12 else 1 <= t <= 4
  }

  function ParseIcmp(p: seq<Byte>, h: Header, version: nat): Option<Parsed>
    requires h.totalLen <= |p|
  {
    var o := h.headerLen;
    if o + ICMP_HEADER_LEN > h.totalLen then None
    else
      var protocol := if version == 4 then ICMP else ICMPV6;
      var t := p[o];
      if t == EchoRequestType(version) || t == EchoReplyType(version) then
        var id := U16(p[o + 4], p[o + 5]);
        Some(Parsed(FlowKey(h.src, h.dst, protocol, id, id),
                    if t == EchoRequestType(version) then EchoRequest else EchoReply))
      else if !IsErrorType(t, version) then None
      else
        match ParseQuoted(p[o + ICMP_HEADER_LEN..h.totalLen], version)
        case None => None
        case Some(key) => if key.src != h.dst then None else Some(Parsed(key, Error))
  }

  /** The flow key of the packet quoted in an ICMP error; its own length fields are not trusted. */
  function ParseQuoted(q: seq<Byte>, version: nat): Option<FlowKey> {
    if q == [] || Version(q[0]) != version then None
    else if version == 4 then
      if |q| < 20 then None
      else
        var ihl := q[0] % 16 * 4;
        if ihl < 20 || U16(q[6], q[7]) % 0x2000 != 0 then None
        else QuotedPorts(q, V4(q[12..16]), V4(q[16..20]), q[9], ihl)
    else if |q| < 40 then None
    else QuotedPorts(q, V6(q[8..24]), V6(q[24..40]), q[6], 40)
  }

  function QuotedPorts(q: seq<Byte>, src: Ip, dst: Ip, protocol: Byte, o: nat): Option<FlowKey> {
    if protocol == TCP || protocol == UDP then
      if |q| < o + 4 then None
      else Some(FlowKey(src, dst, protocol, U16(q[o], q[o + 1]), U16(q[o + 2], q[o + 3])))
    else if protocol == ICMP || protocol == ICMPV6 then
      if |q| < o + 6 then None
      else if (protocol == ICMP && q[o] == 8) || (protocol == ICMPV6 && q[o] == 128) then
        var id := U16(q[o + 4], q[o + 5]);
        Some(FlowKey(src, dst, protocol, id, id))
      else None
    else None
  }

  // ---------------------------------------------------------------------
  // The parsers read what the protocols write
  // ---------------------------------------------------------------------

  function Be16(x: nat): seq<Byte>
    requires x < 65536
  {
    [x / 256, x % 256]
  }

  /** An unfragmented IPv4 packet without options (section 3.1 of RFC 791). */
  function V4Packet(src: seq<Byte>, dst: seq<Byte>, protocol: Byte, body: seq<Byte>): seq<Byte>
    requires |src| == 4 && |dst| == 4 && 20 + |body| < 65536
  {
    [0x45, 0] + Be16(20 + |body|) + [0, 0, 0, 0, 64, protocol, 0, 0] + src + dst + body
  }

  /** An IPv6 packet without extension headers (section 3 of RFC 8200). */
  function V6Packet(src: seq<Byte>, dst: seq<Byte>, next: Byte, body: seq<Byte>): seq<Byte>
    requires |src| == 16 && |dst| == 16 && |body| < 65536
  {
    [0x60, 0, 0, 0] + Be16(|body|) + [next, 64] + src + dst + body
  }

  /** A TCP segment: ports, sequence numbers and offset, flags, the rest (section 3.1 of RFC 9293). */
  function TcpSegment(srcPort: nat, dstPort: nat, numbers: seq<Byte>, flags: Byte, rest: seq<Byte>): seq<Byte>
    requires srcPort < 65536 && dstPort < 65536 && |numbers| == 9
  {
    Be16(srcPort) + Be16(dstPort) + numbers + [flags] + rest
  }

  /** A UDP datagram: ports, then length, checksum and data (RFC 768). */
  function UdpDatagram(srcPort: nat, dstPort: nat, rest: seq<Byte>): seq<Byte>
    requires srcPort < 65536 && dstPort < 65536
  {
    Be16(srcPort) + Be16(dstPort) + rest
  }

  /** An ICMP or ICMPv6 echo message (RFC 792; section 4 of RFC 4443). */
  function EchoMessage(kind: Byte, checksum: seq<Byte>, id: nat, rest: seq<Byte>): seq<Byte>
    requires |checksum| == 2 && id < 65536
  {
    [kind, 0] + checksum + Be16(id) + rest
  }

  lemma V4Reads(src: seq<Byte>, dst: seq<Byte>, protocol: Byte, body: seq<Byte>)
    requires |src| == 4 && |dst| == 4 && 20 + |body| < 65536
    ensures var p := V4Packet(src, dst, protocol, body);
            && |p| == 20 + |body| && p[20..] == body && !IsV4Fragment(p)
            && ParseHeader(p) == Some(Header(V4(src), V4(dst), protocol, 20, |p|))
  {
    var p := V4Packet(src, dst, protocol, body);
    assert p[12..16] == src && p[16..20] == dst && p[20..] == body;
    assert p[0] == 0x45 && p[9] == protocol && p[6] == 0 && p[7] == 0;
    assert U16(p[2], p[3]) == 20 + |body|;
  }

  lemma V6Reads(src: seq<Byte>, dst: seq<Byte>, next: Byte, body: seq<Byte>)
    requires |src| == 16 && |dst| == 16 && |body| < 65536
    ensures var p := V6Packet(src, dst, next, body);
            && |p| == 40 + |body| && p[40..] == body && !IsV4Fragment(p)
            && ParseHeader(p) == Some(Header(V6(src), V6(dst), next, 40, |p|))
  {
    var p := V6Packet(src, dst, next, body);
    assert p[8..24] == src && p[24..40] == dst && p[40..] == body;
    assert p[0] == 0x60 && p[6] == next;
    assert U16(p[4], p[5]) == |body|;
  }

  /** The flow a packet with parsed header `h` and body `body` belongs to. */
  ghost predicate HasBody(p: seq<Byte>, h: Header, body: seq<Byte>) {
    && ParseHeader(p) == Some(h) && !IsV4Fragment(p)
    && h.totalLen == |p| && h.headerLen + |body| == |p| && p[h.headerLen..] == body
  }

  lemma BodyBytes(p: seq<Byte>, h: Header, body: seq<Byte>, i: nat)
    requires HasBody(p, h, body) && i < |body|
    ensures p[h.headerLen + i] == body[i]
  {
    assert p[h.headerLen..][i] == body[i];
  }

  /** TCP: the first two bytes are the source port, the next two the destination port, the fourteenth the flags. */
  lemma TcpReads(p: seq<Byte>, h: Header, srcPort: nat, dstPort: nat, numbers: seq<Byte>, flags: Byte, rest: seq<Byte>)
    requires srcPort < 65536 && dstPort < 65536 && |numbers| == 9 && |rest| >= 6 && h.protocol == 6
    requires HasBody(p, h, TcpSegment(srcPort, dstPort, numbers, flags, rest))
    ensures ParseFlow(p) == if PlausibleTcpFlags(flags)
                            then Some(Parsed(FlowKey(h.src, h.dst, 6, srcPort, dstPort), Tcp(flags))) else None
  {
    var body := TcpSegment(srcPort, dstPort, numbers, flags, rest);
    forall i | i == 0 || i == 1 || i == 2 || i == 3 || i == 13 ensures p[h.headerLen + i] == body[i] {
      BodyBytes(p, h, body, i);
    }
    assert body[0] == srcPort / 256 && body[1] == srcPort % 256 && body[2] == dstPort / 256 && body[3] == dstPort % 256;
    assert body[13] == flags;
  }

  lemma UdpReads(p: seq<Byte>, h: Header, srcPort: nat, dstPort: nat, rest: seq<Byte>)
    requires srcPort < 65536 && dstPort < 65536 && |rest| >= 4 && h.protocol == 17
    requires HasBody(p, h, UdpDatagram(srcPort, dstPort, rest))
    ensures ParseFlow(p) == Some(Parsed(FlowKey(h.src, h.dst, 17, srcPort, dstPort), Udp))
  {
    var body := UdpDatagram(srcPort, dstPort, rest);
    forall i | 0 <= i < 4 ensures p[h.headerLen + i] == body[i] {
      BodyBytes(p, h, body, i);
    }
    assert body[0] == srcPort / 256 && body[1] == srcPort % 256 && body[2] == dstPort / 256 && body[3] == dstPort % 256;
  }

  /** Echo requests are types 8 and 128, replies 0 and 129; the identifier stands for both ports. */
  lemma EchoReads(p: seq<Byte>, h: Header, kind: Byte, checksum: seq<Byte>, id: nat, rest: seq<Byte>)
    requires |checksum| == 2 && id < 65536 && |rest| >= 2
    requires if h.src.V4? then h.protocol == 1 && (kind == 8 || kind == 0)
             else h.protocol == 58 && (kind == 128 || kind == 129)
    requires HasBody(p, h, EchoMessage(kind, checksum, id, rest))
    ensures ParseFlow(p) == Some(Parsed(FlowKey(h.src, h.dst, h.protocol, id, id),
                                        if kind == 8 || kind == 128 then EchoRequest else EchoReply))
  {
    var body := EchoMessage(kind, checksum, id, rest);
    forall i | i == 0 || i == 4 || i == 5 ensures p[h.headerLen + i] == body[i] {
      BodyBytes(p, h, body, i);
    }
    assert body[0] == kind && body[4] == id / 256 && body[5] == id % 256;
  }

  /** What a whole IPv4 TCP packet parses to. */
  lemma V4TcpRoundTrip(src: seq<Byte>, dst: seq<Byte>, srcPort: nat, dstPort: nat, numbers: seq<Byte>, flags: Byte,
                       rest: seq<Byte>)
    requires |src| == 4 && |dst| == 4 && srcPort < 65536 && dstPort < 65536 && |numbers| == 9
    requires 6 <= |rest| < 65000 && PlausibleTcpFlags(flags)
    ensures ParseFlow(V4Packet(src, dst, 6, TcpSegment(srcPort, dstPort, numbers, flags, rest)))
         == Some(Parsed(FlowKey(V4(src), V4(dst), 6, srcPort, dstPort), Tcp(flags)))
  {
    var body := TcpSegment(srcPort, dstPort, numbers, flags, rest);
    V4Reads(src, dst, 6, body);
    TcpReads(V4Packet(src, dst, 6, body), Header(V4(src), V4(dst), 6, 20, 20 + |body|),
             srcPort, dstPort, numbers, flags, rest);
  }

  /** What a whole IPv6 UDP packet parses to. */
  lemma V6UdpRoundTrip(src: seq<Byte>, dst: seq<Byte>, srcPort: nat, dstPort: nat, rest: seq<Byte>)
    requires |src| == 16 && |dst| == 16 && srcPort < 65536 && dstPort < 65536 && 4 <= |rest| < 65000
    ensures ParseFlow(V6Packet(src, dst, 17, UdpDatagram(srcPort, dstPort, rest)))
         == Some(Parsed(FlowKey(V6(src), V6(dst), 17, srcPort, dstPort), Udp))
  {
    var body := UdpDatagram(srcPort, dstPort, rest);
    V6Reads(src, dst, 17, body);
    UdpReads(V6Packet(src, dst, 17, body), Header(V6(src), V6(dst), 17, 40, 40 + |body|), srcPort, dstPort, rest);
  }

  /** The reply to a packet, with addresses and ports exchanged, is what the firewall calls its reverse. */
  lemma ReplyIsReverse(key: FlowKey)
    ensures IsReverseOf(FlowKey(key.dst, key.src, key.protocol, key.dstPort, key.srcPort), key)
    ensures forall f | IsReverseOf(f, key) :: f == FlowKey(key.dst, key.src, key.protocol, key.dstPort, key.srcPort)
  {
  }

  /** Which packets may open a flow: any UDP datagram, an echo request, and a TCP SYN without ACK. */
  lemma OpenersMeaning(p: Parsed)
    ensures OpensNewFlow(p) <==>
              || p.kind == Udp || p.kind == EchoRequest
              || (p.kind.Tcp? && p.kind.flags / 2 % 2 == 1 && p.kind.flags / 16 % 2 == 0)
  {
  }

  // ---------------------------------------------------------------------
  // The parsers agree
  // ---------------------------------------------------------------------

  /** Padding after the packet's own length is invisible to every parser. */
  lemma FlowIgnoresPadding(p: seq<Byte>, q: seq<Byte>)
    requires ParseHeader(p).Some?
    requires ParseHeader(p).value.totalLen <= |q|
    requires q[..ParseHeader(p).value.totalLen] == p[..ParseHeader(p).value.totalLen]
    ensures ParseHeader(q) == ParseHeader(p)
    ensures ParseFlow(q) == ParseFlow(p)
  {
    var h := ParseHeader(p).value;
    var n := h.totalLen;
    assert forall i | 0 <= i < n :: q[i] == q[..n][i] == p[..n][i] == p[i];
    if h.src.V4? {
      assert q[12..16] == p[12..16] && q[16..20] == p[16..20];
    } else {
      assert q[8..24] == p[8..24] && q[24..40] == p[24..40];
    }
    assert ParseHeader(q) == ParseHeader(p);
    if h.headerLen + ICMP_HEADER_LEN <= n {
      assert q[h.headerLen + ICMP_HEADER_LEN..n] == p[h.headerLen + ICMP_HEADER_LEN..n];
    }
  }

  /** The packets whose flows the firewall tracks and an ICMP error may quote. */
  predicate Quotable(p: seq<Byte>) {
    && ParseFlow(p).Some?
    && (ParseFlow(p).value.kind.Tcp? || ParseFlow(p).value.kind.Udp? || ParseFlow(p).value.kind.EchoRequest?)
  }

  /**
   However a router truncates a tracked packet, as long as the IP header and
   eight bytes remain the quoted packet is recognised as the same flow.
   */
  lemma QuoteKeepsFlow(p: seq<Byte>, n: nat)
    requires Quotable(p) && ParseHeader(p).value.headerLen + 8 <= n <= |p|
    ensures ParseQuoted(p[..n], Version(p[0])) == Some(ParseFlow(p).value.key)
  {
    var h := ParseHeader(p).value;
    QuotableKey(p);
    QuotedHeader(p, n);
    PortsKept(p, n, h.src, h.dst, h.protocol, h.headerLen);
  }

  /** A tracked packet is no fragment, and its key is what its header and first eight bytes say. */
  lemma QuotableKey(p: seq<Byte>)
    requires Quotable(p)
    ensures var h := ParseHeader(p).value;
            && !IsV4Fragment(p)
            && QuotedPorts(p, h.src, h.dst, h.protocol, h.headerLen) == Some(ParseFlow(p).value.key)
  {
  }

  /** The quoted header is read as the header itself. */
  lemma QuotedHeader(p: seq<Byte>, n: nat)
    requires ParseHeader(p).Some? && !IsV4Fragment(p) && ParseHeader(p).value.headerLen <= n <= |p|
    ensures var h := ParseHeader(p).value;
            ParseQuoted(p[..n], Version(p[0])) == QuotedPorts(p[..n], h.src, h.dst, h.protocol, h.headerLen)
  {
    var q := p[..n];
    if Version(p[0]) == 4 {
      FirstBytes(p, n, 20);
      assert q[12..16] == p[12..16] && q[16..20] == p[16..20];
      FragmentBits(U16(p[6], p[7]));
    } else {
      FirstBytes(p, n, 40);
      assert q[8..24] == p[8..24] && q[24..40] == p[24..40];
    }
  }

  lemma FirstBytes(p: seq<Byte>, n: nat, k: nat)
    requires k <= n <= |p|
    ensures forall i | 0 <= i < k :: p[..n][i] == p[i]
  {
  }

  lemma PortsKept(p: seq<Byte>, n: nat, src: Ip, dst: Ip, protocol: Byte, o: nat)
    requires o + 8 <= n <= |p|
    ensures QuotedPorts(p[..n], src, dst, protocol, o) == QuotedPorts(p, src, dst, protocol, o)
  {
    assert p[..n][o] == p[o] && p[..n][o + 1] == p[o + 1] && p[..n][o + 2] == p[o + 2] && p[..n][o + 3] == p[o + 3];
    assert p[..n][o + 4] == p[o + 4] && p[..n][o + 5] == p[o + 5];
  }

  /** A packet that is no fragment has a zero fragment offset. */
  lemma FragmentBits(x: nat)
    requires x % 0x4000 == 0
    ensures x % 0x2000 == 0
  {
    var q := x / 0x4000;
    assert x == 0x2000 * (2 * q);
    MultipleOf(2 * q);
  }

  lemma MultipleOf(k: nat)
    ensures (0x2000 * k) % 0x2000 == 0
  {
  }

  /**
   An error packet about `p`: an ICMP error of `p`'s family, returned to `p`'s source,
   quoting its first `n` bytes.
   */
  predicate ErrorAbout(e: seq<Byte>, p: seq<Byte>, n: nat) {
    && n <= |p| && p != []
    && ParseHeader(e).Some? && !IsV4Fragment(e)
    && var h := ParseHeader(e).value;
    && Version(e[0]) == Version(p[0])
    && h.protocol == (if h.src.V4? then ICMP else ICMPV6)
    && h.headerLen + ICMP_HEADER_LEN <= h.totalLen
    && IsErrorType(e[h.headerLen], Version(e[0]))
    && e[h.headerLen + ICMP_HEADER_LEN..h.totalLen] == p[..n]
  }

  /** Such an error is parsed as related to `p`'s flow exactly when it was returned to the flow's source. */
  lemma ErrorIsRelated(e: seq<Byte>, p: seq<Byte>, n: nat)
    requires Quotable(p) && ParseHeader(p).value.headerLen + 8 <= n && ErrorAbout(e, p, n)
    ensures var key := ParseFlow(p).value.key;
            ParseFlow(e) == if key.src == ParseHeader(e).value.dst then Some(Parsed(key, Error)) else None
  {
    QuoteKeepsFlow(p, n);
    ErrorParses(e, p[..n]);
  }

  /** An ICMP error is related to the flow it quotes when it is addressed to that flow's source. */
  lemma ErrorParses(e: seq<Byte>, quoted: seq<Byte>)
    requires ParseHeader(e).Some? && !IsV4Fragment(e)
    requires var h := ParseHeader(e).value;
             && h.protocol == (if h.src.V4? then ICMP else ICMPV6)
             && h.headerLen + ICMP_HEADER_LEN <= h.totalLen
             && IsErrorType(e[h.headerLen], Version(e[0]))
             && e[h.headerLen + ICMP_HEADER_LEN..h.totalLen] == quoted
    ensures var key := ParseQuoted(quoted, Version(e[0]));
            ParseFlow(e) ==
            if key.Some? && key.value.src == ParseHeader(e).value.dst then Some(Parsed(key.value, Error)) else None
  {
  }
}
