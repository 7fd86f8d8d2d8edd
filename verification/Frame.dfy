/** The IP and UDP framing around a DHCP packet: what `dhcp_send_raw_packet` puts on the
    wire, `dhcp_recv_l2_packet` takes off it unchanged. */
module Frame {
  import opened Basics
  import opened Checksum
  import opened DhcpOptions
  import opened OptionBuilder
  import opened DhcpPacket

  const IP_SIZE := 20
  const UDP_SIZE := 8
  const HEADERS := IP_SIZE + UDP_SIZE
  const FRAME_SIZE := HEADERS + SIZE - EXTENSION
  const BUFFER_SIZE := HEADERS + SIZE

  const IPPROTO_UDP: Byte := 17
  const IPVERSION_IHL: Byte := 0x45
  const IPDEFTTL: Byte := 64
  const CLIENT_PORT: Word := 68

  // ---------------------------------------------------------------- headers

  /** An address as four octets in the order of the wire. */
  type Address = s: seq<Byte> | |s| == 4 witness [0, 0, 0, 0]

  const ANY: Address := [0, 0, 0, 0]

  datatype IpHeader = IpHeader(
    versionIhl: Byte, tos: Byte, totLen: Word, id: Word, fragOff: Word,
    ttl: Byte, protocol: Byte, check: Word, saddr: Address, daddr: Address)

  datatype UdpHeader = UdpHeader(source: Word, dest: Word, len: Word, check: Word)

  const ZERO_IP := IpHeader(0, 0, 0, 0, 0, 0, 0, 0, ANY, ANY)

  const ZERO_UDP := UdpHeader(0, 0, 0, 0)

  /** Numbers are in network byte order, checksums as the machine computes them. */
  function IpBytes(h: IpHeader): (r: seq<Byte>)
    ensures |r| == IP_SIZE
  {
    [h.versionIhl, h.tos, h.totLen / 256, h.totLen % 256, h.id / 256, h.id % 256, h.fragOff / 256, h.fragOff % 256,
     h.ttl, h.protocol, h.check % 256, h.check / 256] + h.saddr + h.daddr
  }

  function UdpBytes(h: UdpHeader): (r: seq<Byte>)
    ensures |r| == UDP_SIZE
  {
    [h.source / 256, h.source % 256, h.dest / 256, h.dest % 256, h.len / 256, h.len % 256, h.check % 256, h.check / 256]
  }

  function ParseIp(s: seq<Byte>): IpHeader
    requires |s| >= IP_SIZE
  {
    IpHeader(s[0], s[1], Pair(s[3], s[2]), Pair(s[5], s[4]), Pair(s[7], s[6]), s[8], s[9], Pair(s[10], s[11]),
        s[12..16], s[16..20])
  }

  function ParseUdp(s: seq<Byte>): UdpHeader
    requires |s| >= UDP_SIZE
  {
    UdpHeader(Pair(s[1], s[0]), Pair(s[3], s[2]), Pair(s[5], s[4]), Pair(s[6], s[7]))
  }

  lemma ParseIpBytes(h: IpHeader, s: seq<Byte>)
    requires |s| >= IP_SIZE && s[..IP_SIZE] == IpBytes(h)
    ensures ParseIp(s) == h
  {
    var b := IpBytes(h);
    assert forall k :: 0 <= k < IP_SIZE ==> s[k] == b[k];
    assert s[12..16] == h.saddr && s[16..20] == h.daddr;
  }

  lemma ParseUdpBytes(h: UdpHeader, s: seq<Byte>)
    requires |s| >= UDP_SIZE && s[..UDP_SIZE] == UdpBytes(h)
    ensures ParseUdp(s) == h
  {
    var b := UdpBytes(h);
    assert forall k :: 0 <= k < UDP_SIZE ==> s[k] == b[k];
  }

  // ---------------------------------------------------------------- sending

  /** The headers of a frame, given their checksums. */
  function SentIp(saddr: Address, daddr: Address, check: Word): IpHeader {
    IpHeader(IPVERSION_IHL, 0, FRAME_SIZE, 0, 0, IPDEFTTL, IPPROTO_UDP, check, saddr, daddr)
  }

  function SentUdp(source: Word, dest: Word, check: Word): UdpHeader {
    UdpHeader(source, dest, FRAME_SIZE - IP_SIZE, check)
  }

  /** The octets the UDP checksum is computed over: the pseudo header, written where the IP
      header will be, and the datagram without its checksum. */
  function Pseudo(payload: seq<Byte>, saddr: Address, source: Word, daddr: Address, dest: Word): seq<Byte> {
    IpBytes(IpHeader(0, 0, FRAME_SIZE - IP_SIZE, 0, 0, 0, IPPROTO_UDP, 0, saddr, daddr)) +
        UdpBytes(SentUdp(source, dest, 0)) + payload
  }

  /** The frame of `dhcp_send_raw_packet`: all but the last 80 octets of the packet. */
  function Framed(dhcp: seq<Byte>, saddr: Address, source: Word, daddr: Address, dest: Word): (f: seq<Byte>)
    requires |dhcp| == SIZE
    ensures |f| == FRAME_SIZE
  {
    var payload := dhcp[..SIZE - EXTENSION];
    var udpCheck := InternetChecksum(Pseudo(payload, saddr, source, daddr, dest));
    var ipCheck := InternetChecksum(IpBytes(SentIp(saddr, daddr, 0)));
    IpBytes(SentIp(saddr, daddr, ipCheck)) + UdpBytes(SentUdp(source, dest, udpCheck)) + payload
  }

  /** `dhcp_send_raw_packet` up to the system call: the headers are filled in field by field,
      in the order in which the checksums need it. */
  method SendRawPacket(dhcp: seq<Byte>, saddr: Address, source: Word, daddr: Address, dest: Word)
    returns (frame: seq<Byte>)
    requires |dhcp| == SIZE
    ensures frame == Framed(dhcp, saddr, source, daddr, dest)
  {
    var ip, udp, data := ZERO_IP, ZERO_UDP, dhcp;
    ip := ip.(protocol := IPPROTO_UDP);
    ip := ip.(saddr := saddr);
    ip := ip.(daddr := daddr);
    udp := udp.(source := source);
    udp := udp.(dest := dest);
    udp := udp.(len := FRAME_SIZE - IP_SIZE);
    ip := ip.(totLen := udp.len);
    var udpCheck := DhcpChecksum(IpBytes(ip) + UdpBytes(udp) + data[..SIZE - EXTENSION]);
    udp := udp.(check := udpCheck);
    ip := ip.(totLen := FRAME_SIZE);
    ip := ip.(versionIhl := IPVERSION_IHL);
    ip := ip.(ttl := IPDEFTTL);
    var ipCheck := DhcpChecksum(IpBytes(ip));
    ip := ip.(check := ipCheck);
    frame := IpBytes(ip) + UdpBytes(udp) + data[..SIZE - EXTENSION];
  }

  // ---------------------------------------------------------------- receiving

  /** What becomes of a frame.  A packet is the received octets in front of whatever was in
      the caller's buffer; a total length below the two headers would make the copy length
      negative. */
  datatype Received = Rejected | Negative | Accepted(packet: seq<Byte>, length: nat)

  /** The buffer after reading a frame into it. */
  function Buffer(frame: seq<Byte>): (r: seq<Byte>)
    ensures |r| == BUFFER_SIZE
  {
    if |frame| >= BUFFER_SIZE then frame[..BUFFER_SIZE] else frame + seq(BUFFER_SIZE - |frame|, _ => 0)
  }

  /** The octets the receiver sums for the UDP checksum: its IP header reduced to the pseudo
      header. */
  function Summed(ip: IpHeader, udp: UdpHeader, data: seq<Byte>): seq<Byte> {
    IpBytes(IpHeader(0, 0, udp.len, 0, 0, 0, ip.protocol, 0, ip.saddr, ip.daddr)) + UdpBytes(udp.(check := 0)) + data
  }

  /** The tests of `dhcp_recv_l2_packet` and `sanity_check` on a frame of `n` octets. */
  predicate Acceptable(ip: IpHeader, udp: UdpHeader, data: seq<Byte>, n: nat)
    requires |data| == SIZE && n <= BUFFER_SIZE
  {
    && n >= HEADERS && n >= ip.totLen
    && ip.protocol == IPPROTO_UDP && ip.versionIhl == IPVERSION_IHL && udp.dest == CLIENT_PORT
    && udp.len == (ip.totLen - IP_SIZE) % 0x1_0000
    && ip.check == InternetChecksum(IpBytes(ip.(check := 0)))
    && (udp.check == 0 || udp.check == InternetChecksum(Summed(ip, udp, data)[..ip.totLen]))
  }

  function Receive(frame: seq<Byte>, rest: seq<Byte>): Received
    requires |rest| == SIZE
  {
    var buffer := Buffer(frame);
    var ip, udp, data := ParseIp(buffer), ParseUdp(buffer[IP_SIZE..]), buffer[HEADERS..];
    var n := if |frame| <= BUFFER_SIZE then |frame| else BUFFER_SIZE;
    if !Acceptable(ip, udp, data, n) then Rejected
    else if ip.totLen < HEADERS then Negative
    else
      var length := ip.totLen - HEADERS;
      var q := data[..length] + rest[length..];
      if q[COOKIE..OPTIONS] != MAGIC then Rejected else Accepted(q, length)
  }

  /** `dhcp_recv_l2_packet` after the system call; it reuses the IP header for the pseudo
      header. */
  method RecvL2Packet(frame: seq<Byte>, rest: seq<Byte>) returns (r: Received)
    requires |rest| == SIZE
    ensures r == Receive(frame, rest)
  {
    var buffer := Buffer(frame);
    var ip, udp, data := ParseIp(buffer), ParseUdp(buffer[IP_SIZE..]), buffer[HEADERS..];
    var bytes := if |frame| <= BUFFER_SIZE then |frame| else BUFFER_SIZE;
    if bytes < HEADERS {
      return Rejected;
    }
    if bytes < ip.totLen {
      return Rejected;
    }
    bytes := ip.totLen;
    if ip.protocol != IPPROTO_UDP || ip.versionIhl != IPVERSION_IHL || udp.dest != CLIENT_PORT
       || udp.len != (bytes - IP_SIZE) % 0x1_0000 {
      return Rejected;
    }
    var check := ip.check;
    ip := ip.(check := 0);
    var sum := DhcpChecksum(IpBytes(ip));
    if check != sum {
      return Rejected;
    }
    ip := ip.(versionIhl := 0, tos := 0, totLen := 0, id := 0, fragOff := 0, ttl := 0);
    ip := ip.(totLen := udp.len);
    check := udp.check;
    udp := udp.(check := 0);
    sum := DhcpChecksum((IpBytes(ip) + UdpBytes(udp) + data)[..bytes]);
    if check != 0 && check != sum {
      return Rejected;
    }
    if bytes < HEADERS {
      return Negative;
    }
    var q := data[..bytes - HEADERS] + rest[bytes - HEADERS..];
    if q[COOKIE..OPTIONS] != MAGIC {
      return Rejected;
    }
    r := Accepted(q, bytes - HEADERS);
  }

  // ---------------------------------------------------------------- round trip

  /** The packet a receiver ends up with: the sent part of the packet, and whatever its
      buffer held behind it. */
  function Arrived(dhcp: seq<Byte>, rest: seq<Byte>): (q: seq<Byte>)
    requires |dhcp| == SIZE && |rest| == SIZE
    ensures |q| == SIZE
  {
    dhcp[..SIZE - EXTENSION] + rest[SIZE - EXTENSION..]
  }

  lemma FramedParts(dhcp: seq<Byte>, saddr: Address, source: Word, daddr: Address, dest: Word)
    requires |dhcp| == SIZE
    ensures
      var f := Framed(dhcp, saddr, source, daddr, dest);
      var payload := dhcp[..SIZE - EXTENSION];
      && ParseIp(Buffer(f)) == SentIp(saddr, daddr, InternetChecksum(IpBytes(SentIp(saddr, daddr, 0))))
      && ParseUdp(Buffer(f)[IP_SIZE..]) == SentUdp(source, dest,
          InternetChecksum(Pseudo(payload, saddr, source, daddr, dest)))
      && Buffer(f)[HEADERS..] == payload + seq(EXTENSION, _ => 0)
  {
    hide InternetChecksum, IpBytes, UdpBytes, ParseIp, ParseUdp, Pseudo;
    var f := Framed(dhcp, saddr, source, daddr, dest);
    var payload := dhcp[..SIZE - EXTENSION];
    var ip := SentIp(saddr, daddr, InternetChecksum(IpBytes(SentIp(saddr, daddr, 0))));
    var udp := SentUdp(source, dest, InternetChecksum(Pseudo(payload, saddr, source, daddr, dest)));
    var b := Buffer(f);
    assert b == IpBytes(ip) + (UdpBytes(udp) + (payload + seq(EXTENSION, _ => 0)));
    ParseIpBytes(ip, b);
    assert b[IP_SIZE..] == UdpBytes(udp) + (payload + seq(EXTENSION, _ => 0));
    ParseUdpBytes(udp, b[IP_SIZE..]);
    assert b[HEADERS..] == b[IP_SIZE..][UDP_SIZE..];
  }

  /** A frame sent to the client port is accepted, with its packet unchanged. */
  lemma FrameRoundTrip(dhcp: seq<Byte>, saddr: Address, source: Word, daddr: Address, rest: seq<Byte>)
    requires |dhcp| == SIZE && |rest| == SIZE && dhcp[COOKIE..OPTIONS] == MAGIC
    ensures Receive(Framed(dhcp, saddr, source, daddr, CLIENT_PORT), rest) ==
        Accepted(Arrived(dhcp, rest), SIZE - EXTENSION)
  {
    hide InternetChecksum, IpBytes, UdpBytes, ParseIp, ParseUdp, Framed, Buffer;
    FramedParts(dhcp, saddr, source, daddr, CLIENT_PORT);
    var f := Framed(dhcp, saddr, source, daddr, CLIENT_PORT);
    var payload := dhcp[..SIZE - EXTENSION];
    var ip, udp, data := ParseIp(Buffer(f)), ParseUdp(Buffer(f)[IP_SIZE..]), Buffer(f)[HEADERS..];
    assert ip.(check := 0) == SentIp(saddr, daddr, 0);
    assert udp.(check := 0) == SentUdp(source, CLIENT_PORT, 0);
    assert Summed(ip, udp, data)[..FRAME_SIZE] == Pseudo(payload, saddr, source, daddr, CLIENT_PORT);
    assert data[..SIZE - EXTENSION] == payload;
    assert Arrived(dhcp, rest)[COOKIE..OPTIONS] == dhcp[COOKIE..OPTIONS];
  }

  /** Any packet built by `dhcp_init_header` and additions of proper options, sent to the
      client port, arrives such that looking up any code on the receiver answers the first
      option with that code that was accepted, within the octets that were sent; the 80
      octets that were not are never looked at. */
  lemma OptionsRoundTrip(dhcp: seq<Byte>, items: seq<Item>, more: seq<Item>, saddr: Address, source: Word,
                         daddr: Address,
                         rest: seq<Byte>, code: Byte)
    requires |dhcp| == SIZE && |rest| == SIZE && dhcp[COOKIE..OPTIONS] == MAGIC
    requires OptionBuilder.Holds(dhcp[OPTIONS..], items) && AllProper(more)
    ensures
      && AddAll(dhcp[OPTIONS..], more).Some?
      && var sent := dhcp[..OPTIONS] + AddAll(dhcp[OPTIONS..], more).value;
      && |sent| == SIZE
      && var r := Receive(Framed(sent, saddr, source, daddr, CLIENT_PORT), rest);
      && r.Accepted? && |r.packet| == SIZE && r.packet[..OPTIONS] == dhcp[..OPTIONS]
      && var fields := FieldsOf(r.packet);
      && !Diverges(fields, code)
      && match First(AcceptAll(items, more), code)
         case None => DhcpOptions.GetOption(fields, code) == Missing
         case Some(value) =>
           var a := DhcpOptions.GetOption(fields, code);
           && a.At? && a.field == InOptions && 2 <= a.at && a.at + |value| < BUFSIZE - 1
           && fields.options[a.at - 1] == |value| && fields.options[a.at..a.at + |value|] == value
  {
    hide Receive, Framed, OptionBuilder.Holds, Diverges, First, AcceptAll, AddAll, DhcpOptions.GetOption;
    HoldsSize(dhcp[OPTIONS..], items);
    AddAllHolds(dhcp[OPTIONS..], items, more);
    var opts := AddAll(dhcp[OPTIONS..], more).value;
    HoldsSize(opts, AcceptAll(items, more));
    var sent := dhcp[..OPTIONS] + opts;
    assert sent[COOKIE..OPTIONS] == dhcp[COOKIE..OPTIONS];
    FrameRoundTrip(sent, saddr, source, daddr, rest);
    var q := Arrived(sent, rest);
    assert q[..OPTIONS] == dhcp[..OPTIONS];
    assert q[OPTIONS..][..BUFSIZE] == opts[..BUFSIZE];
    HoldsPrefix(opts, q[OPTIONS..], AcceptAll(items, more));
    LookupHolds(FieldsOf(q), AcceptAll(items, more), code);
  }

  lemma HoldsSize(s: seq<Byte>, items: seq<Item>)
    requires OptionBuilder.Holds(s, items)
    ensures |s| == FIELD && AllProper(items)
  {
  }
}
