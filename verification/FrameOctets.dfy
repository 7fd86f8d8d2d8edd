/** Which frames a client accepts, by their octets: the formats of RFC 791 and RFC 768 and the
    checksum of RFC 1071. */
module FrameOctets {
  import opened Basics
  import opened Checksum
  import opened DhcpPacket
  import opened Frame

  // ---------------------------------------------------------------- sums of octets

  /** The sum of the 16-bit words of a buffer. */
  function Weighed(s: seq<Byte>): nat {
    if s == [] then 0 else if |s| == 1 then s[0] else s[0] + 256 * s[1] + Weighed(s[2..])
  }

  lemma {:induction false} SumCons(w: Word, ws: seq<Word>)
    ensures Sum([w] + ws) == w + Sum(ws)
  {
    var all := [w] + ws;
    if ws == [] {
      assert all[..0] == [];
    } else {
      assert all[..|all| - 1] == [w] + ws[..|ws| - 1];
      SumCons(w, ws[..|ws| - 1]);
    }
  }

  lemma {:induction false} WeighedIsSum(s: seq<Byte>)
    ensures Weighed(s) == Sum(Words(s))
    decreases |s|
  {
    if |s| == 1 {
      SumCons(s[0], []);
      assert [s[0] as Word] + [] == Words(s);
    } else if |s| > 1 {
      WeighedIsSum(s[2..]);
      SumCons(Pair(s[0], s[1]), Words(s[2..]));
    }
  }

  lemma {:induction false} WeighedJoin(a: seq<Byte>, b: seq<Byte>)
    requires |a| % 2 == 0
    ensures Weighed(a + b) == Weighed(a) + Weighed(b)
    decreases |a|
  {
    if a == [] {
      assert a + b == b;
    } else {
      assert (a + b)[2..] == a[2..] + b;
      WeighedJoin(a[2..], b);
    }
  }

  /** The weight of an octet. */
  function Weight(i: nat): nat {
    if i % 2 == 0 then 1 else 256
  }

  lemma {:induction false} WeighedUpdate(s: seq<Byte>, i: nat, b: Byte)
    requires i < |s|
    ensures Weighed(s[i := b]) == Weighed(s) + Weight(i) * b - Weight(i) * s[i]
    decreases |s|
  {
    if i >= 2 {
      assert s[i := b][2..] == s[2..][i - 2 := b];
      WeighedUpdate(s[2..], i - 2, b);
    } else if |s| > 1 {
      assert s[i := b][2..] == s[2..];
    }
  }

  /** The words add up to all ones if and only if their sum is a positive multiple of 2^16 - 1. */
  lemma AllOnes(s: seq<Byte>)
    ensures OnesSum(Words(s)) == 0xffff <==> Weighed(s) > 0 && Weighed(s) % 0xffff == 0
  {
    hide Words, OnesSum, Weighed, Sum, Folded;
    WeighedIsSum(s);
    OnesSumFolds(Words(s));
    FoldedFull(Weighed(s), OnesSum(Words(s)));
  }

  lemma FoldedFull(sum: nat, r: Word)
    requires Folded(sum, r)
    ensures r == 0xffff <==> sum > 0 && sum % 0xffff == 0
  {
    assert r % 0xffff == 0 <==> r == 0 || r == 0xffff;
  }

  /** A checksum field is right if and only if together with it the words add up to all ones and it is
      not itself all ones. */
  lemma FieldRight(zeroed: seq<Byte>, check: Word)
    requires Weighed(zeroed) > 0
    ensures check == InternetChecksum(zeroed) <==> (Weighed(zeroed) + check) % 0xffff == 0 && check != 0xffff
  {
    hide Words, OnesSum, Weighed, Sum, Folded;
    WeighedIsSum(zeroed);
    OnesSumFolds(Words(zeroed));
    FoldedRight(Weighed(zeroed), OnesSum(Words(zeroed)), check);
  }

  lemma FoldedRight(sum: nat, r: Word, check: Word)
    requires sum > 0 && Folded(sum, r)
    ensures check == 0xffff - r <==> (sum + check) % 0xffff == 0 && check != 0xffff
  {
    ModAdd(sum, r, check);
    MultipleOf(r + check);
  }

  lemma MultipleOf(x: nat)
    requires 0 < x <= 0x1_fffe
    ensures x % 0xffff == 0 <==> x == 0xffff || x == 0x1_fffe
  {
  }

  // ---------------------------------------------------------------- the IP header

  /** Version 4 with a header of five words, UDP, and a header checksum that is right. */
  predicate IpRight(s: seq<Byte>)
    requires |s| == 20
  {
    s[0] == 0x45 && s[9] == 17 && OnesSum(Words(s)) == 0xffff && s[10..12] != [255, 255]
  }

  lemma ZeroedIp(s: seq<Byte>)
    requires |s| == 20
    ensures IpBytes(ParseIp(s).(check := 0)) == s[10 := 0][11 := 0]
    ensures Weighed(s[10 := 0][11 := 0]) + ParseIp(s).check == Weighed(s)
  {
    WeighedUpdate(s, 10, 0);
    WeighedUpdate(s[10 := 0], 11, 0);
    var h := ParseIp(s);
    assert h.saddr + h.daddr == s[12..];
    PairBytes(s[3], s[2]);
    PairBytes(s[5], s[4]);
    PairBytes(s[7], s[6]);
  }

  lemma PairBytes(lo: Byte, hi: Byte)
    ensures Pair(lo, hi) % 256 == lo && Pair(lo, hi) / 256 == hi
  {
  }

  lemma FirstCounts(s: seq<Byte>)
    requires s != [] && s[0] > 0
    ensures Weighed(s) > 0
  {
  }

  lemma TwoOnes(lo: Byte, hi: Byte)
    ensures Pair(lo, hi) == 0xffff <==> [lo, hi] == [255, 255]
    ensures Pair(lo, hi) == 0 <==> [lo, hi] == [0, 0]
  {
    var x, y := [lo, hi], [255 as Byte, 255];
    assert x == y ==> x[0] == y[0] && x[1] == y[1];
    assert [lo, hi] == [0, 0] ==> [lo, hi][0] == 0 && [lo, hi][1] == 0;
  }

  lemma IpRightIff(s: seq<Byte>)
    requires |s| == 20
    ensures
      var ip := ParseIp(s);
      IpRight(s) <==>
      ip.protocol == 17 && ip.versionIhl == 0x45 && ip.check == InternetChecksum(IpBytes(ip.(check := 0)))
  {
    hide InternetChecksum, OnesSum, Words, Weighed, IpBytes;
    var ip := ParseIp(s);
    if s[0] == 0x45 {
      var z := s[10 := 0][11 := 0];
      ZeroedIp(s);
      AllOnes(s);
      FirstCounts(s);
      FirstCounts(z);
      FieldRight(z, ip.check);
      TwoOnes(s[10], s[11]);
      assert s[10..12] == [s[10], s[11]];
    }
  }

  // ---------------------------------------------------------------- the datagram

  /** The total length that an IP header claims. */
  function TotalLength(frame: seq<Byte>): nat
    requires |frame| >= 28
  {
    256 * (frame[2] as int) + frame[3]
  }

  /** The octets under the checksum of a datagram (RFC 768): addresses, protocol and length in front
      of it. */
  function UnderCheck(frame: seq<Byte>): seq<Byte>
    requires |frame| >= 28 && 28 <= TotalLength(frame) <= |frame|
  {
    frame[12..20] + [0, 17] + frame[24..26] + frame[20..TotalLength(frame)]
  }

  /** The datagram has no checksum, or a right one. */
  predicate UdpRight(frame: seq<Byte>)
    requires |frame| >= 28 && 28 <= TotalLength(frame) <= |frame|
  {
    frame[26..28] == [0, 0] || (OnesSum(Words(UnderCheck(frame))) == 0xffff && frame[26..28] != [255, 255])
  }

  /** All that is asked of a frame. */
  predicate WellFramed(frame: seq<Byte>) {
    && |frame| >= 28 && 28 <= TotalLength(frame) <= |frame| && TotalLength(frame) <= BUFFER_SIZE
    && IpRight(frame[..20])
    && frame[22..24] == [0, 68] && 256 * (frame[24] as int) + frame[25] == TotalLength(frame) - 20
    && UdpRight(frame)
  }

  lemma ZeroedUdp(frame: seq<Byte>, ip: IpHeader, udp: UdpHeader, data: seq<Byte>)
    requires |frame| >= 28 && 28 <= TotalLength(frame) <= |frame| && TotalLength(frame) - 28 <= |data|
    requires ip == ParseIp(frame[..20]) && udp == ParseUdp(frame[20..28])
    requires data[..TotalLength(frame) - 28] == frame[28..TotalLength(frame)] && ip.protocol == 17
    ensures |Summed(ip, udp, data)| == 28 + |data|
    ensures Weighed(Summed(ip, udp, data)[..TotalLength(frame)]) + udp.check == Weighed(UnderCheck(frame))
    ensures Weighed(Summed(ip, udp, data)[..TotalLength(frame)]) > 0
  {
    hide Weighed, Summed, UnderCheck, ParseIp, ParseUdp;
    var tot := TotalLength(frame);
    var a, u, body := frame[12..20], frame[20..28], frame[28..tot];
    SummedIs(frame, ip, udp, data);
    UnderCheckIs(frame);
    Weighings(a, u, body);
    assert u[4] == frame[24] && u[5] == frame[25] && udp.check == Pair(u[6], u[7]) by { UdpCheck(frame, udp); }
  }

  /** The pseudo header as the receiver lays it out. */
  function Head(hi: Byte, lo: Byte): seq<Byte> {
    [0, 0, hi, lo, 0, 0, 0, 0, 0, 17, 0, 0]
  }

  lemma UdpCheck(frame: seq<Byte>, udp: UdpHeader)
    requires |frame| >= 28 && udp == ParseUdp(frame[20..28])
    ensures
      var u := frame[20..28];
      u[4] == frame[24] && u[5] == frame[25] && udp.check == Pair(u[6], u[7])
  {
  }

  lemma Weighings(a: seq<Byte>, u: seq<Byte>, body: seq<Byte>)
    requires |a| == 8 && |u| == 8
    ensures
      var z := Weighed(Head(u[4], u[5]) + (a + (u[..6] + [0, 0] + body)));
      z > 0 && z + Pair(u[6], u[7]) == Weighed(a + ([0, 17] + ([u[4], u[5]] + (u + body))))
  {
    hide Weighed, Head;
    var mid := u[..6] + [0, 0];
    HeadWeighs(u[4], u[5]);
    WeighedJoin(Head(u[4], u[5]), a + (mid + body));
    WeighedJoin(a, mid + body);
    WeighedJoin(mid, body);
    WeighedJoin(a, [0, 17] + ([u[4], u[5]] + (u + body)));
    WeighedJoin([0, 17], [u[4], u[5]] + (u + body));
    WeighedJoin([u[4], u[5]], u + body);
    WeighedJoin(u, body);
    assert mid == u[6 := 0][7 := 0];
    WeighedUpdate(u, 6, 0);
    WeighedUpdate(u[6 := 0], 7, 0);
    TwoWeigh(0, 17);
    TwoWeigh(u[4], u[5]);
  }

  lemma UnderCheckIs(frame: seq<Byte>)
    requires |frame| >= 28 && 28 <= TotalLength(frame) <= |frame|
    ensures
      var u := frame[20..28];
      UnderCheck(frame) == frame[12..20] + ([0, 17] + ([u[4], u[5]] + (u + frame[28..TotalLength(frame)])))
  {
    hide TotalLength;
    assert frame[24..26] == [frame[24], frame[25]];
    assert frame[20..TotalLength(frame)] == frame[20..28] + frame[28..TotalLength(frame)];
  }

  lemma SummedIs(frame: seq<Byte>, ip: IpHeader, udp: UdpHeader, data: seq<Byte>)
    requires |frame| >= 28 && 28 <= TotalLength(frame) <= |frame| && TotalLength(frame) - 28 <= |data|
    requires ip == ParseIp(frame[..20]) && udp == ParseUdp(frame[20..28])
    requires data[..TotalLength(frame) - 28] == frame[28..TotalLength(frame)] && ip.protocol == 17
    ensures |Summed(ip, udp, data)| == 28 + |data|
    ensures
      var u := frame[20..28];
      Summed(ip, udp, data)[..TotalLength(frame)] ==
          Head(u[4], u[5]) + (frame[12..20] + (u[..6] + [0, 0] + frame[28..TotalLength(frame)]))
  {
    hide IpBytes, UdpBytes, ParseIp, ParseUdp, TotalLength;
    SummedParts(frame, ip, udp);
    var u, n := frame[20..28], TotalLength(frame) - 28;
    assert frame[20..26] == u[..6];
    var h := Head(u[4], u[5]) + frame[12..20];
    assert Summed(ip, udp, data) == h + (u[..6] + [0, 0]) + data;
    assert (h + (u[..6] + [0, 0]) + data)[..28 + n] == h + (u[..6] + [0, 0]) + data[..n];
    assert h + (u[..6] + [0, 0]) + data[..n] == Head(u[4], u[5]) + (frame[12..20] + (u[..6] + [0, 0] + data[..n]));
  }

  lemma SummedParts(frame: seq<Byte>, ip: IpHeader, udp: UdpHeader)
    requires |frame| >= 28 && ip == ParseIp(frame[..20]) && udp == ParseUdp(frame[20..28]) && ip.protocol == 17
    ensures IpBytes(IpHeader(0, 0, udp.len, 0, 0, 0, ip.protocol, 0, ip.saddr, ip.daddr)) ==
            Head(frame[24], frame[25]) + frame[12..20]
    ensures UdpBytes(udp.(check := 0)) == frame[20..26] + [0, 0]
  {
    assert frame[..20][12..16] + frame[..20][16..20] == frame[12..20];
    PairBytes(frame[21], frame[20]);
    PairBytes(frame[23], frame[22]);
    PairBytes(frame[25], frame[24]);
  }

  lemma HeadWeighs(hi: Byte, lo: Byte)
    ensures |Head(hi, lo)| == 12 && Weighed(Head(hi, lo)) == hi + 256 * (lo as int) + 256 * 17
  {
    hide Weighed;
    assert Head(hi, lo) ==
        [0, 0] + ([hi, lo] + ([0, 0] + ([0, 0] + ([0, 17] + [0, 0]))));
    TwoWeigh(0, 0);
    TwoWeigh(hi, lo);
    TwoWeigh(0, 17);
    WeighedJoin([0, 17], [0, 0]);
    WeighedJoin([0, 0], [0, 17] + [0, 0]);
    WeighedJoin([0, 0], [0, 0] + ([0, 17] + [0, 0]));
    WeighedJoin([hi, lo], [0, 0] + ([0, 0] + ([0, 17] + [0, 0])));
    WeighedJoin([0, 0], [hi, lo] + ([0, 0] + ([0, 0] + ([0, 17] + [0, 0]))));
  }

  lemma TwoWeigh(a: Byte, b: Byte)
    ensures Weighed([a, b]) == a + 256 * (b as int)
  {
    assert [a, b][2..] == [];
  }

  lemma UdpRightIff(frame: seq<Byte>, ip: IpHeader, udp: UdpHeader, data: seq<Byte>)
    requires |frame| >= 28 && 28 <= TotalLength(frame) <= |frame| && TotalLength(frame) - 28 <= |data|
    requires ip == ParseIp(frame[..20]) && udp == ParseUdp(frame[20..28])
    requires data[..TotalLength(frame) - 28] == frame[28..TotalLength(frame)] && ip.protocol == 17
    ensures UdpRight(frame) <==>
            udp.check == 0 || udp.check == InternetChecksum(Summed(ip, udp, data)[..TotalLength(frame)])
  {
    hide InternetChecksum, OnesSum, Words, Weighed, Summed, UnderCheck;
    ZeroedUdp(frame, ip, udp, data);
    var z := Summed(ip, udp, data)[..TotalLength(frame)];
    AllOnes(UnderCheck(frame));
    FieldRight(z, udp.check);
    TwoOnes(frame[26], frame[27]);
    assert frame[26..28] == [frame[26], frame[27]];
  }

  // ---------------------------------------------------------------- reception

  /** The packet that comes out, and what the receiver's buffer held behind it. */
  function Payload(frame: seq<Byte>, rest: seq<Byte>): seq<Byte>
    requires WellFramed(frame) && |rest| == SIZE
  {
    frame[28..TotalLength(frame)] + rest[TotalLength(frame) - 28..]
  }

  lemma Parts(frame: seq<Byte>)
    requires |frame| >= 28
    ensures
      var b := Buffer(frame);
      && ParseIp(b) == ParseIp(frame[..20]) && ParseUdp(b[IP_SIZE..]) == ParseUdp(frame[20..28])
      && forall k :: 28 <= k <= |frame| && k <= BUFFER_SIZE ==> b[HEADERS..][..k - 28] == frame[28..k]
  {
    var b := Buffer(frame);
    assert forall i :: 0 <= i < |frame| && i < BUFFER_SIZE ==> b[i] == frame[i];
    assert b[12..16] == frame[..20][12..16] && b[16..20] == frame[..20][16..20];
  }

  /** A frame is accepted if and only if its headers are right octet by octet and a DHCP packet is in
      it; then the packet is what follows the headers. */
  lemma AcceptedIff(frame: seq<Byte>, rest: seq<Byte>)
    requires |rest| == SIZE
    ensures Receive(frame, rest).Accepted? <==>
            WellFramed(frame) && Payload(frame, rest)[COOKIE..OPTIONS] == [0x63, 0x82, 0x53, 0x63]
    ensures Receive(frame, rest).Accepted? ==>
            Receive(frame, rest) == Accepted(Payload(frame, rest), TotalLength(frame) - 28)
    ensures Receive(frame, rest).Negative? ==> |frame| >= 28 && TotalLength(frame) < 28 && IpRight(frame[..20])
  {
    hide InternetChecksum, OnesSum, Words, Summed, UdpRight, IpRight, Buffer, ParseIp, ParseUdp, Acceptable;
    if |frame| >= 28 {
      Parts(frame);
      Fields(frame);
      AcceptableIff(frame);
    } else {
      TooShort(frame);
    }
  }

  /** The first octets of a frame, as far as the buffer goes. */
  function Taken(frame: seq<Byte>): (n: nat)
    ensures n <= BUFFER_SIZE
  {
    if |frame| <= BUFFER_SIZE then |frame| else BUFFER_SIZE
  }

  lemma TooShort(frame: seq<Byte>)
    requires |frame| < 28
    ensures
      var b := Buffer(frame);
      !Acceptable(ParseIp(b), ParseUdp(b[IP_SIZE..]), b[HEADERS..], Taken(frame))
  {
  }

  lemma AcceptableIff(frame: seq<Byte>)
    requires |frame| >= 28
    ensures
      var b, tot := Buffer(frame), TotalLength(frame);
      var ok := Acceptable(ParseIp(b), ParseUdp(b[IP_SIZE..]), b[HEADERS..], Taken(frame));
      && (tot >= 28 ==> (ok <==> WellFramed(frame)))
      && (ok ==> IpRight(frame[..20]))
  {
    hide InternetChecksum, OnesSum, Words, Summed, UdpRight, IpRight, Buffer, ParseIp, ParseUdp;
    Parts(frame);
    var ip, udp := ParseIp(frame[..20]), ParseUdp(frame[20..28]);
    var tot := TotalLength(frame);
    Fields(frame);
    IpRightIff(frame[..20]);
    if 28 <= tot <= |frame| && tot <= BUFFER_SIZE && ip.protocol == 17 {
      UdpRightIff(frame, ip, udp, Buffer(frame)[HEADERS..]);
    }
  }

  lemma Fields(frame: seq<Byte>)
    requires |frame| >= 28
    ensures
      var ip, udp := ParseIp(frame[..20]), ParseUdp(frame[20..28]);
      && ip.totLen == TotalLength(frame) && udp.len == 256 * (frame[24] as int) + frame[25]
      && (udp.dest == 68 <==> frame[22..24] == [0, 68])
  {
    assert frame[22..24] == [frame[22], frame[23]];
    assert [frame[22], frame[23]] == [0, 68] <==> frame[22] == 0 && frame[23] == 68 by {
      if [frame[22], frame[23]] == [0, 68] {
        assert [frame[22], frame[23]][0] == 0 && [frame[22], frame[23]][1] == 68;
      }
    }
  }

  // ---------------------------------------------------------------- damaged frames

  lemma OctetChanges(s: seq<Byte>, i: nat, b: Byte)
    requires i < |s| && b != s[i] && OnesSum(Words(s)) == 0xffff
    ensures OnesSum(Words(s[i := b])) != 0xffff
  {
    hide OnesSum, Words, Weighed;
    AllOnes(s);
    AllOnes(s[i := b]);
    WeighedUpdate(s, i, b);
    NotMultiple(Weighed(s), Weighed(s[i := b]), Weight(i), b, s[i]);
  }

  lemma ModShift(x: nat, d: int)
    requires x % 0xffff == 0
    ensures (x + d) % 0xffff == d % 0xffff
  {
  }

  lemma NotMultiple(x: nat, y: nat, w: nat, a: Byte, b: Byte)
    requires (w == 1 || w == 256) && a != b && y == x + w * a - w * b && x % 0xffff == 0
    ensures y % 0xffff != 0
  {
    var d := w * a - w * b;
    assert d != 0 && -0xffff < d < 0xffff;
    ModShift(x, d);
  }

  /** No octet of the IP header of an accepted frame can be changed without the frame being rejected. */
  lemma HeaderDamageRejected(frame: seq<Byte>, rest: seq<Byte>, i: nat, b: Byte)
    requires |rest| == SIZE && Receive(frame, rest).Accepted? && i < 20 && b != frame[i]
    ensures Receive(frame[i := b], rest) == Rejected
  {
    hide Receive, OnesSum, Words, UdpRight;
    AcceptedIff(frame, rest);
    AcceptedIff(frame[i := b], rest);
    assert frame[i := b][..20] == frame[..20][i := b];
    OctetChanges(frame[..20], i, b);
  }

  /** Nor one behind it, up to the end of the datagram, if the datagram has a checksum before and
      after. */
  lemma DatagramDamageRejected(frame: seq<Byte>, rest: seq<Byte>, i: nat, b: Byte)
    requires |rest| == SIZE && Receive(frame, rest).Accepted?
    requires 20 <= i < TotalLength(frame) && i < |frame| && b != frame[i]
    requires frame[26..28] != [0, 0] && frame[i := b][26..28] != [0, 0]
    ensures Receive(frame[i := b], rest) == Rejected
  {
    hide Receive, OnesSum, Words, IpRight;
    AcceptedIff(frame, rest);
    AcceptedIff(frame[i := b], rest);
    var f := frame[i := b];
    assert TotalLength(f) == TotalLength(frame);
    if i == 24 || i == 25 {
      assert !WellFramed(f);
    } else {
      var s := UnderCheck(frame);
      assert UnderCheck(f) == s[12 + (i - 20) := b];
      OctetChanges(s, 12 + (i - 20), b);
    }
  }

  /** A checksum of zero stands for none, so that RFC 768 has one that comes out as zero sent as all
      ones. Such a datagram, right as it is, is rejected. */
  lemma AllOnesRejected(frame: seq<Byte>, rest: seq<Byte>)
    requires |rest| == SIZE && Receive(frame, rest).Accepted?
    requires frame[26..28] == [0, 0] && OnesSum(Words(UnderCheck(frame))) == 0xffff
    ensures
      var f := frame[26 := 255][27 := 255];
      && |f| >= 28 && 28 <= TotalLength(f) <= |f| && OnesSum(Words(UnderCheck(f))) == 0xffff
      && Receive(f, rest) == Rejected
  {
    hide Receive, OnesSum, Words, IpRight, UnderCheck;
    AcceptedIff(frame, rest);
    var f := frame[26 := 255][27 := 255];
    AcceptedIff(f, rest);
    assert f[26..28] == [255, 255] && [255, 255][0] != [0, 0][0];
    AllOnesField(frame);
  }

  lemma AllOnesField(frame: seq<Byte>)
    requires |frame| >= 28 && 28 <= TotalLength(frame) <= |frame|
    requires frame[26..28] == [0, 0] && OnesSum(Words(UnderCheck(frame))) == 0xffff
    ensures
      var f := frame[26 := 255][27 := 255];
      TotalLength(f) == TotalLength(frame) && OnesSum(Words(UnderCheck(f))) == 0xffff
  {
    hide OnesSum, Words, Weighed;
    var f := frame[26 := 255][27 := 255];
    var s := UnderCheck(frame);
    assert UnderCheck(f) == s[18 := 255][19 := 255];
    AllOnes(s);
    AllOnes(s[18 := 255][19 := 255]);
    assert s[18] == frame[26] == frame[26..28][0] && s[19] == frame[27] == frame[26..28][1];
    WeighedUpdate(s, 18, 255);
    WeighedUpdate(s[18 := 255], 19, 255);
  }

  // ---------------------------------------------------------------- what is sent

  /** The frame that is sent, octet by octet: a plain header of IP version 4 with both addresses, a
      datagram with both ports, all but the last 80 octets of the packet, and two checksums with which
      the words add up to all ones. */
  lemma SentOctets(dhcp: seq<Byte>, saddr: Address, source: Word, daddr: Address, dest: Word)
    requires |dhcp| == SIZE
    ensures
      var f := Framed(dhcp, saddr, source, daddr, dest);
      && |f| == 576 == TotalLength(f)
      && f[..2] == [0x45, 0] && f[4..10] == [0, 0, 0, 0, 64, 17] && f[12..16] == saddr && f[16..20] == daddr
      && 256 * (f[20] as int) + f[21] == source && 256 * (f[22] as int) + f[23] == dest
      && 256 * (f[24] as int) + f[25] == 556 && f[28..] == dhcp[..548]
      && OnesSum(Words(f[..20])) == 0xffff && OnesSum(Words(UnderCheck(f))) == 0xffff
  {
    hide InternetChecksum, OnesSum, Words, Summed, UnderCheck, Framed, Pseudo;
    var f := Framed(dhcp, saddr, source, daddr, dest);
    SentHeaders(dhcp, saddr, source, daddr, dest);
    SentIpSum(f, saddr, daddr);
    SentUdpSum(dhcp, saddr, source, daddr, dest);
  }

  lemma SentHeaders(dhcp: seq<Byte>, saddr: Address, source: Word, daddr: Address, dest: Word)
    requires |dhcp| == SIZE
    ensures
      var f := Framed(dhcp, saddr, source, daddr, dest);
      && |f| == 576 == TotalLength(f)
      && f[..2] == [0x45, 0] && f[4..10] == [0, 0, 0, 0, 64, 17] && f[12..16] == saddr && f[16..20] == daddr
      && 256 * (f[20] as int) + f[21] == source && 256 * (f[22] as int) + f[23] == dest
      && 256 * (f[24] as int) + f[25] == 556 && f[28..] == dhcp[..548]
      && ParseIp(f[..20]) == SentIp(saddr, daddr, InternetChecksum(IpBytes(SentIp(saddr, daddr, 0))))
      && ParseUdp(f[20..28]) ==
         SentUdp(source, dest, InternetChecksum(Pseudo(dhcp[..548], saddr, source, daddr, dest)))
  {
    hide InternetChecksum, Pseudo;
    var f := Framed(dhcp, saddr, source, daddr, dest);
    var ip := SentIp(saddr, daddr, InternetChecksum(IpBytes(SentIp(saddr, daddr, 0))));
    var udp := SentUdp(source, dest, InternetChecksum(Pseudo(dhcp[..548], saddr, source, daddr, dest)));
    assert f == IpBytes(ip) + UdpBytes(udp) + dhcp[..548];
    assert f[..20] == IpBytes(ip) && f[20..28] == UdpBytes(udp) && f[28..] == dhcp[..548];
    ParseIpBytes(ip, f[..20]);
    ParseUdpBytes(udp, f[20..28]);
    assert f[12..16] == f[..20][12..16] && f[16..20] == f[..20][16..20];
  }

  lemma SentIpSum(f: seq<Byte>, saddr: Address, daddr: Address)
    requires |f| >= 20 && ParseIp(f[..20]) == SentIp(saddr, daddr, InternetChecksum(IpBytes(SentIp(saddr, daddr, 0))))
    ensures OnesSum(Words(f[..20])) == 0xffff
  {
    hide InternetChecksum, OnesSum, Words, IpBytes;
    var ip := ParseIp(f[..20]);
    assert ip.(check := 0) == SentIp(saddr, daddr, 0);
    IpRightIff(f[..20]);
  }

  lemma SentUdpSum(dhcp: seq<Byte>, saddr: Address, source: Word, daddr: Address, dest: Word)
    requires |dhcp| == SIZE
    ensures
      var f := Framed(dhcp, saddr, source, daddr, dest);
      |f| == 576 == TotalLength(f) && OnesSum(Words(UnderCheck(f))) == 0xffff
  {
    hide InternetChecksum, OnesSum, Words, IpBytes, UdpBytes, Framed, UnderCheck, ParseIp, ParseUdp;
    SentHeaders(dhcp, saddr, source, daddr, dest);
    var f := Framed(dhcp, saddr, source, daddr, dest);
    var ip, udp, data := ParseIp(f[..20]), ParseUdp(f[20..28]), f[28..];
    assert data[..548] == data;
    ZeroedUdp(f, ip, udp, data);
    var z := Summed(ip, udp, data);
    assert z[..576] == z && z == Pseudo(data, saddr, source, daddr, dest);
    FieldRight(z, udp.check);
    AllOnes(UnderCheck(f));
  }
}
