/** Ordering the addresses of a host name (gweb/gresolv.c, after section 6 of RFC 3484). */
module DestinationOrder {
  import opened Basics
  import opened BitRows
  import opened PolicyTable
  import opened PolicyValues

  /** A destination with what is known about it; `pos` is its place in the array. */
  datatype SortResult = SortResult(
    dst: Sockaddr, src: Sockaddr, reachable: bool,
    dstScope: int, srcScope: int, dstLabel: int, srcLabel: int, precedence: int, pos: nat)

  /** A socket address read as an IPv6 one: that of an IPv4 address has only zero octets there. */
  function Sin6(sa: Sockaddr): Addr {
    if sa.Inet6? then sa.addr else ZERO
  }

  /** The number of leading bits that the source and the destination have in common. */
  function MatchingBits(r: SortResult): (n: nat)
    ensures n <= 128
  {
    CommonPrefix(AddrBits(Sin6(r.src)), AddrBits(Sin6(r.dst)))
  }

  // ---------------------------------------------------------------- longest matching prefix

  /** Word `i` of an address. */
  function Word(a: Addr, i: nat): U32
    requires i < 4
  {
    ((a[4 * i] as int * 256 + a[4 * i + 1]) * 256 + a[4 * i + 2]) * 256 + a[4 * i + 3]
  }

  lemma WordBits(a: Addr, i: nat)
    requires i < 4
    ensures Bits(Word(a, i), 32) == AddrBits(a[4 * i..4 * i + 4])
  {
    hide Bits;
    var b := a[4 * i..4 * i + 4];
    var w := b[0] as int * 256 + b[1];
    var x := w * 256 + b[2];
    assert Pow2(8) == 256;
    BitsJoin(b[0], b[1], 8, 8);
    BitsJoin(w, b[2], 16, 8);
    BitsJoin(x, b[3], 24, 8);
    assert b == [b[0]] + ([b[1]] + ([b[2]] + [b[3]]));
    AddrBitsJoin([b[0]], [b[1]] + ([b[2]] + [b[3]]));
    AddrBitsJoin([b[1]], [b[2]] + [b[3]]);
    AddrBitsJoin([b[2]], [b[3]]);
    forall k | 0 <= k < 4 ensures AddrBits([b[k]]) == Bits(b[k], 8) {
      assert [b[k]][1..] == [] && AddrBits([b[k]]) == Bits(b[k], 8) + [];
    }
    JoinFour(Bits(b[0], 8), Bits(b[1], 8), Bits(b[2], 8), Bits(b[3], 8));
  }

  lemma JoinFour(s: seq<bool>, t: seq<bool>, u: seq<bool>, v: seq<bool>)
    ensures ((s + t) + u) + v == s + (t + (u + v))
  {
  }

  lemma SplitWord(a: Addr, i: nat)
    requires i < 4
    ensures AddrBits(a) == AddrBits(a[..4 * i]) + (Bits(Word(a, i), 32) + AddrBits(a[4 * i + 4..]))
  {
    hide AddrBits, Bits, Word;
    WordBits(a, i);
    assert a == a[..4 * i] + (a[4 * i..4 * i + 4] + a[4 * i + 4..]);
    AddrBitsJoin(a[..4 * i], a[4 * i..4 * i + 4] + a[4 * i + 4..]);
    AddrBitsJoin(a[4 * i..4 * i + 4], a[4 * i + 4..]);
  }

  /** One word decides on the common prefix, or is part of it. */
  lemma WordPrefix(s: Addr, d: Addr, i: nat)
    requires i < 4 && s[..4 * i] == d[..4 * i]
    ensures
      var x := Xor(Word(s, i), Word(d, i), 32);
      var n := CommonPrefix(AddrBits(s), AddrBits(d));
      && (x == 0 ==> s[..4 * i + 4] == d[..4 * i + 4] && n >= 32 * i + 32)
      && (x != 0 ==> BitStorage(x) <= 32 && n == 32 * i + 32 - BitStorage(x) && n < 32 * i + 32)
  {
    hide AddrBits, Bits, Word, Xor, CommonPrefix;
    var x, y := Word(s, i), Word(d, i);
    SplitWord(s, i);
    SplitWord(d, i);
    var p := AddrBits(s[..4 * i]);
    var u, v := AddrBits(s[4 * i + 4..]), AddrBits(d[4 * i + 4..]);
    CommonPrefixJoin(p, p, Bits(x, 32) + u, Bits(y, 32) + v);
    CommonPrefixJoin(Bits(x, 32), Bits(y, 32), u, v);
    XorZero(x, y, 32);
    if Xor(x, y, 32) == 0 {
      WordBits(s, i);
      WordBits(d, i);
      SameBytes(s[4 * i..4 * i + 4], d[4 * i..4 * i + 4]);
      assert s[..4 * i + 4] == s[..4 * i] + s[4 * i..4 * i + 4];
      assert d[..4 * i + 4] == d[..4 * i] + d[4 * i..4 * i + 4];
    } else {
      TopBitIsPrefix(x, y, 32);
    }
  }

  /** The loop of rule 9 compares the lengths of the two common prefixes. */
  method LongerPrefix(one: SortResult, two: SortResult) returns (r: int)
    ensures r < 0 <==> MatchingBits(one) > MatchingBits(two)
    ensures r > 0 <==> MatchingBits(one) < MatchingBits(two)
  {
    hide CommonPrefix, AddrBits, Word, Xor, BitStorage;
    var s1, d1, s2, d2 := Sin6(one.src), Sin6(one.dst), Sin6(two.src), Sin6(two.dst);
    var i := 0;
    while i < 4
      invariant i <= 4 && s1[..4 * i] == d1[..4 * i] && s2[..4 * i] == d2[..4 * i]
      invariant MatchingBits(one) >= 32 * i && MatchingBits(two) >= 32 * i
    {
      WordPrefix(s1, d1, i);
      WordPrefix(s2, d2, i);
      var cmpOne := Xor(Word(s1, i), Word(d1, i), 32);
      var cmpTwo := Xor(Word(s2, i), Word(d2, i), 32);
      if cmpOne != 0 && cmpTwo == 0 { return 1; }
      if cmpTwo != 0 && cmpOne == 0 { return -1; }
      if cmpOne != 0 {
        var bitsOne := GBitStorage(cmpOne);
        var bitsTwo := GBitStorage(cmpTwo);
        return bitsOne as int - bitsTwo;
      }
      i := i + 1;
    }
    return 0;
  }

  // ---------------------------------------------------------------- the order

  /** The sort key: smaller is better, in every place. */
  function Key(r: SortResult): seq<int> {
    [ if r.reachable then 0 else 1,
      if r.dstScope == r.srcScope then 0 else 1,
      if r.dstLabel == r.srcLabel then 0 else 1,
      -r.precedence,
      r.dstScope,
      -(MatchingBits(r) as int),
      r.pos ]
  }

  predicate LexLess(s: seq<int>, t: seq<int>)
    requires |s| == |t|
  {
    s != [] && (s[0] < t[0] || (s[0] == t[0] && LexLess(s[1..], t[1..])))
  }

  /** Nothing before the longest matching prefix tells the two apart. */
  predicate Tied(one: SortResult, two: SortResult) {
    Key(one)[..5] == Key(two)[..5]
  }

  /** An IPv4 destination meets an IPv6 one of equal standing that is closer to the front, and
      which the prefix rule would put behind it; the comparison does not look at the prefixes
      when the first of the two is the IPv4 one. */
  predicate Clash(one: SortResult, two: SortResult) {
    && one.dst.Inet? && !two.dst.Inet? && Tied(one, two)
    && MatchingBits(two) < 128 && two.pos <= one.pos
  }

  predicate Before(one: SortResult, two: SortResult) {
    LexLess(Key(one), Key(two)) && !Clash(one, two)
  }

  lemma {:induction false} SameMatches(a: seq<bool>)
    ensures CommonPrefix(a, a) == |a|
  {
    if a != [] { SameMatches(a[1..]); }
  }

  /** The common prefix of an IPv4 destination read as IPv6 is everything. */
  lemma InetMatches(r: SortResult)
    requires r.dst.Inet? && !r.src.Inet6?
    ensures MatchingBits(r) == 128
  {
    SameMatches(AddrBits(ZERO));
  }

  /** The key order, place by place. */
  lemma LexUnfolds(one: SortResult, two: SortResult)
    ensures
      var s, t := Key(one), Key(two);
      LexLess(s, t) <==>
      (s[0] < t[0] || (s[0] == t[0] &&
      (s[1] < t[1] || (s[1] == t[1] &&
      (s[2] < t[2] || (s[2] == t[2] &&
      (s[3] < t[3] || (s[3] == t[3] &&
      (s[4] < t[4] || (s[4] == t[4] &&
      (s[5] < t[5] || (s[5] == t[5] && s[6] < t[6]))))))))))))
  {
    hide MatchingBits, LexLess;
    LexSeven(Key(one), Key(two));
  }

  lemma LexSeven(s: seq<int>, t: seq<int>)
    requires |s| == |t| == 7
    ensures
      LexLess(s, t) <==>
      (s[0] < t[0] || (s[0] == t[0] &&
      (s[1] < t[1] || (s[1] == t[1] &&
      (s[2] < t[2] || (s[2] == t[2] &&
      (s[3] < t[3] || (s[3] == t[3] &&
      (s[4] < t[4] || (s[4] == t[4] &&
      (s[5] < t[5] || (s[5] == t[5] && s[6] < t[6]))))))))))))
  {
    hide LexLess;
    LexAt(s, t, 0); LexAt(s, t, 1); LexAt(s, t, 2); LexAt(s, t, 3); LexAt(s, t, 4); LexAt(s, t, 5); LexAt(s, t, 6);
    assert s[0..] == s && t[0..] == t && s[7..] == [] && t[7..] == [];
    LexNone();
  }

  /** The rules of section 6 that the comparison follows, one after the other: a reachable destination
      goes before an unreachable one (rule 1), then one whose scope is that of its source (2), whose label
      is that of its source (5), of higher precedence (6), of smaller scope (8), with more leading bits in
      common with its source (9), and at last the one that came first (10). */
  lemma RulesInOrder(one: SortResult, two: SortResult)
    requires !Clash(one, two)
    ensures Before(one, two) <==>
            if one.reachable != two.reachable then one.reachable
            else if (one.dstScope == one.srcScope) != (two.dstScope == two.srcScope) then one.dstScope == one.srcScope
            else if (one.dstLabel == one.srcLabel) != (two.dstLabel == two.srcLabel) then one.dstLabel == one.srcLabel
            else if one.precedence != two.precedence then one.precedence > two.precedence
            else if one.dstScope != two.dstScope then one.dstScope < two.dstScope
            else if MatchingBits(one) != MatchingBits(two) then MatchingBits(one) > MatchingBits(two)
            else one.pos < two.pos
  {
    hide MatchingBits, LexLess, Clash;
    LexUnfolds(one, two);
  }

  lemma LexNone()
    ensures !LexLess([], [])
  {
  }

  lemma LexAt(s: seq<int>, t: seq<int>, k: nat)
    requires |s| == |t| && k < |s|
    ensures LexLess(s[k..], t[k..]) <==> s[k] < t[k] || (s[k] == t[k] && LexLess(s[k + 1..], t[k + 1..]))
  {
    assert s[k..][1..] == s[k + 1..] && t[k..][1..] == t[k + 1..];
  }

  /** The comparison function: negative exactly when the first destination goes before the
      second in the order of the keys, unless the two clash. */
  method Rfc3484Compare(one: SortResult, two: SortResult) returns (r: int)
    requires (one.dst.Inet? ==> !one.src.Inet6?) && (two.dst.Inet? ==> !two.src.Inet6?)
    ensures r != 0 && (r < 0 <==> Before(one, two))
  {
    hide MatchingBits, LexLess;
    LexUnfolds(one, two);
    if one.reachable && !two.reachable { return -1; } else if two.reachable && !one.reachable { return 1; }
    if one.dstScope == one.srcScope && two.dstScope != two.srcScope { return -1; }
    else if two.dstScope == two.srcScope && one.dstScope != one.srcScope { return 1; }
    if one.dstLabel == one.srcLabel && two.dstLabel != two.srcLabel { return -1; }
    else if two.dstLabel == two.srcLabel && one.dstLabel != one.srcLabel { return 1; }
    if one.precedence > two.precedence { return -1; } else if two.precedence > one.precedence { return 1; }
    if one.dstScope != two.dstScope { return one.dstScope - two.dstScope; }
    assert Tied(one, two);
    if one.dst.Inet? {
      InetMatches(one);
      if two.dst.Inet? { InetMatches(two); }
    } else {
      var longer := LongerPrefix(one, two);
      if longer != 0 { return longer; }
    }
    if one.pos < two.pos { return -1; } else { return 1; }
  }

  // ---------------------------------------------------------------- a strict total order

  lemma {:induction false} LexTransitive(s: seq<int>, t: seq<int>, u: seq<int>)
    requires |s| == |t| == |u| && LexLess(s, t) && LexLess(t, u)
    ensures LexLess(s, u)
  {
    if s[0] == t[0] == u[0] { LexTransitive(s[1..], t[1..], u[1..]); }
  }

  lemma {:induction false} LexTotal(s: seq<int>, t: seq<int>)
    requires |s| == |t|
    ensures !(LexLess(s, t) && LexLess(t, s))
    ensures LexLess(s, t) || LexLess(t, s) || s == t
  {
    if s != [] {
      LexTotal(s[1..], t[1..]);
      assert s == [s[0]] + s[1..] && t == [t[0]] + t[1..];
    }
  }

  /** The comparison ranks two destinations in one way only, if and only if they do not clash. */
  lemma RanksIff(one: SortResult, two: SortResult)
    requires one.pos != two.pos
    requires (one.dst.Inet? ==> !one.src.Inet6?) && (two.dst.Inet? ==> !two.src.Inet6?)
    ensures (Before(one, two) <==> !Before(two, one)) <==> !Clash(one, two) && !Clash(two, one)
  {
    hide MatchingBits, LexLess;
    LexTotal(Key(one), Key(two));
    assert Key(one)[6] != Key(two)[6];
    LexUnfolds(one, two);
    LexUnfolds(two, one);
    if one.dst.Inet? { InetMatches(one); }
    if two.dst.Inet? { InetMatches(two); }
  }

  /** No two of the destinations clash. */
  ghost predicate Clashless(rs: set<SortResult>) {
    forall x, y :: x in rs && y in rs ==> !Clash(x, y)
  }

  /** Among destinations that do not clash, and that have different places, the comparison is a
      strict total order. */
  lemma StrictTotalOrder(rs: set<SortResult>, x: SortResult, y: SortResult, z: SortResult)
    requires Clashless(rs) && x in rs && y in rs && z in rs
    ensures !Before(x, x)
    ensures Before(x, y) && Before(y, z) ==> Before(x, z)
    ensures x.pos != y.pos ==> (Before(x, y) <==> !Before(y, x))
  {
    hide LexLess, Clash, MatchingBits;
    LexTotal(Key(x), Key(x));
    LexTotal(Key(x), Key(y));
    if Before(x, y) && Before(y, z) { LexTransitive(Key(x), Key(y), Key(z)); }
    assert x.pos != y.pos ==> Key(x)[6] != Key(y)[6];
  }

  // ---------------------------------------------------------------- scopes

  const SCOPE_LINK := 2
  const SCOPE_SITE := 5
  const SCOPE_GLOBAL := 14

  /** The macro `V4MATCH`: zero if the first `m` bits agree. */
  function V4Match(addr: U32, net: U32, m: nat): nat
    requires m <= 32
  {
    Shr(Xor(addr, net, 32), 32 - m)
  }

  function Ipv4Value(ip: Addr4): U32 {
    ((ip[0] as int * 256 + ip[1]) * 256 + ip[2]) * 256 + ip[3]
  }

  type Prefix = r: Row | r.mask <= 128 witness Row(ZERO, 0, 0)

  /** The IPv6 half of `addr_scope`. */
  function Scope6(a: Addr): int {
    if a[0] == 0xff then a[1] % 16
    else if (a[0] == 0xfe && a[1] / 64 == 2) || a == LOOPBACK then SCOPE_LINK
    else if a[0] == 0xfe && a[1] / 64 == 3 then SCOPE_SITE
    else SCOPE_GLOBAL
  }

  const MULTICAST: Prefix := Row([0xff, 0, 0, 0, 0, 0, 0, 0, 0, 0, 0, 0, 0, 0, 0, 0], 8, 0)
  const LINK_LOCAL: Prefix := Row([0xfe, 0x80, 0, 0, 0, 0, 0, 0, 0, 0, 0, 0, 0, 0, 0, 0], 10, 0)
  const LOOPBACK_ONLY: Prefix := Row(LOOPBACK, 128, 0)
  const SITE_LOCALS: Prefix := Row(SITE_LOCAL, 10, 0)

  /** By prefixes (sections 2.4 and 2.7 of RFC 4291): a multicast address, ff00::/8, carries its scope;
      of the others fe80::/10 and the loopback address have that of a link, fec0::/10 that of a site,
      and all others the global one. */
  lemma Scope6ByPrefix(a: Addr)
    ensures Scope6(a) ==
            if Covers(MULTICAST, a) then a[1] % 16
            else if Covers(LINK_LOCAL, a) || Covers(LOOPBACK_ONLY, a) then 2
            else if Covers(SITE_LOCALS, a) then 5
            else 14
  {
    hide Covers, Shr;
    CoversOctets(MULTICAST, a, 1);
    assert a[..1] == [a[0]] && MULTICAST.addr[..1] == [0xff] && a[..1][0] == a[0] && MULTICAST.addr[..1][0] == 0xff;
    CoversOctets(LOOPBACK_ONLY, a, 16);
    assert a[..16] == a && LOOPBACK[..16] == LOOPBACK;
    SiteRow(SITE_LOCALS, a);
    CoversBits(LINK_LOCAL, a, 1, 2);
    assert LINK_LOCAL.addr[..1] == [0xfe] && LINK_LOCAL.addr[..1][0] == 0xfe;
    ShiftSix(a[1]);
    ShiftSix(0x80);
  }

  /** `addr_scope`, with its tests of IPv4 addresses for a value that is not zero. */
  function AddrScope(sa: Sockaddr): int {
    match sa
    case Inet(ip) =>
      var addr := Ipv4Value(ip);
      if V4Match(addr, 0xa9fe_0000, 16) != 0 || V4Match(addr, 0x7f00_0000, 8) != 0 then SCOPE_LINK
      else if V4Match(addr, 0x0a00_0000, 8) != 0 || V4Match(addr, 0xac10_0000, 12) != 0 ||
          V4Match(addr, 0xc0a8_0000, 16) != 0
      then SCOPE_SITE
      else SCOPE_GLOBAL
    case Inet6(a) => Scope6(a)
    case Unspec => Scope6(ZERO)
  }

  /** No address is in 169.254.0.0/16 and in 127.0.0.0/8 at once: every IPv4 address gets the scope
      of a link-local one, whichever it is. */
  lemma Ipv4ScopeIsLink(ip: Addr4)
    ensures AddrScope(Inet(ip)) == SCOPE_LINK
  {
    hide Bits, Xor, Shr;
    var v := Ipv4Value(ip);
    ShiftedXor(v, 0xa9fe_0000, 32, 16);
    ShiftedXor(v, 0x7f00_0000, 32, 24);
    var u, w := Bits(0xa9fe_0000, 32), Bits(0x7f00_0000, 32);
    assert u[..16][0] == u[0] && w[..8][0] == w[0] && Bits(v, 32)[..16][0] == Bits(v, 32)[..8][0];
    TopBits();
  }

  predicate InNet(ip: Addr4, net: Addr4, m: nat)
    requires m <= 32
  {
    AddrBits(ip)[..m] == AddrBits(net)[..m]
  }

  datatype Net = Net(net: Addr4, m: nat)

  const LINK_NETS: seq<Net> := [Net([169, 254, 0, 0], 16), Net([127, 0, 0, 0], 8)]
  const SITE_NETS: seq<Net> := [Net([10, 0, 0, 0], 8), Net([172, 16, 0, 0], 12), Net([192, 168, 0, 0], 16)]

  predicate InSome(ip: Addr4, nets: seq<Net>) {
    exists i :: 0 <= i < |nets| && nets[i].m <= 32 && InNet(ip, nets[i].net, nets[i].m)
  }

  /** The scope of an IPv4 address in section 3.2 of RFC 3484. */
  function Rfc3484Scope(ip: Addr4): int {
    if InSome(ip, LINK_NETS) then SCOPE_LINK else if InSome(ip, SITE_NETS) then SCOPE_SITE else SCOPE_GLOBAL
  }

  /** The scope is that of the standard if and only if the address is in 169.254.0.0/16 or in
      127.0.0.0/8. */
  lemma Ipv4ScopeRightIff(ip: Addr4)
    ensures AddrScope(Inet(ip)) == Rfc3484Scope(ip) <==> InSome(ip, LINK_NETS)
  {
    hide AddrScope, InSome;
    Ipv4ScopeIsLink(ip);
  }

  /** 8.8.8.8 is in neither. */
  lemma GlobalTakenForLink()
    ensures AddrScope(Inet([8, 8, 8, 8])) == SCOPE_LINK && Rfc3484Scope([8, 8, 8, 8]) == SCOPE_GLOBAL
  {
    hide AddrScope, InNet;
    var ip: Addr4 := [8, 8, 8, 8];
    Ipv4ScopeIsLink(ip);
    InNone(ip, LINK_NETS);
    InNone(ip, SITE_NETS);
  }

  lemma InNone(ip: Addr4, nets: seq<Net>)
    requires forall i :: 0 <= i < |nets| ==> nets[i].m >= 8 && nets[i].net[0] != ip[0]
    ensures !InSome(ip, nets)
  {
    hide InNet;
    forall i | 0 <= i < |nets| && nets[i].m <= 32 ensures !InNet(ip, nets[i].net, nets[i].m) {
      OtherNet(ip, nets[i].net, nets[i].m);
    }
  }

  lemma OtherNet(ip: Addr4, net: Addr4, m: nat)
    requires 8 <= m <= 32 && ip[0] != net[0]
    ensures !InNet(ip, net, m)
  {
    hide AddrBits;
    WholeBytes(ip, 1);
    WholeBytes(net, 1);
    SameBytes(ip[..1], net[..1]);
    assert ip[..1][0] == ip[0] && net[..1][0] == net[0];
    var s, t := AddrBits(ip), AddrBits(net);
    assert s[..m][..8] == s[..8] && t[..m][..8] == t[..8];
  }

  lemma TopBits()
    ensures Bits(0xa9fe_0000, 32)[0] && !Bits(0x7f00_0000, 32)[0]
  {
    hide Bits;
    BitByShift(0xa9fe_0000, 32, 0);
    BitByShift(0x7f00_0000, 32, 0);
    ShrHalves(0xa9fe_0000, 31);
    ShrHalves(0x7f00_0000, 31);
    assert Pow2(31) == 0x8000_0000 by { Pow2Of31(); }
  }

  lemma {:induction false} ShrHalves(v: nat, k: nat)
    ensures v < Pow2(k) ==> Shr(v, k) == 0
    ensures Pow2(k) <= v < 2 * Pow2(k) ==> Shr(v, k) == 1
  {
    if k > 0 { ShrHalves(v / 2, k - 1); }
  }

  lemma Pow2Of31()
    ensures Pow2(31) == 0x8000_0000
  {
    assert Pow2(10) == 1024;
    assert Pow2(20) == 0x10_0000;
    assert Pow2(30) == 0x4000_0000;
  }

  // ---------------------------------------------------------------- results as they are sorted

  /** An IPv6 destination that is a mapped IPv4 address. */
  predicate Mapped(sa: Sockaddr) {
    sa.Inet6? && sa.addr[..12] == MAPPED
  }

  /** The value of the policy table for an address. */
  ghost predicate ValueOf(tbl: seq<Row>, sa: Sockaddr, value: int)
    requires Masks(tbl)
  {
    exists k: nat :: Longest(tbl, AddressOf(sa), k) && value == tbl[k].value
  }

  /** A result as `rfc3484_sort_results` fills it in: a destination of one of the two families, a
      source of the same family or none, and the values for both. */
  ghost predicate Filled(r: SortResult) {
    && !r.dst.Unspec? && (r.dst.Inet? ==> !r.src.Inet6?) && (r.dst.Inet6? ==> !r.src.Inet?)
    && r.dstScope == AddrScope(r.dst) && r.srcScope == AddrScope(r.src)
    && Masks(GAI_LABELS) && ValueOf(GAI_LABELS, r.dst, r.dstLabel) && ValueOf(GAI_LABELS, r.src, r.srcLabel)
    && Masks(GAI_PRECEDENCES) && ValueOf(GAI_PRECEDENCES, r.dst, r.precedence)
  }

  lemma MappedCovered(a: Addr)
    ensures Covers(GAI_PRECEDENCES[3], a) <==> a[..12] == MAPPED
  {
    hide AddrBits;
    WholeBytes(a, 12);
    WholeBytes(V4MAPPED, 12);
    assert V4MAPPED[..12] == MAPPED;
    SameBytes(a[..12], MAPPED);
  }

  /** Precedence 10 is for IPv4 and mapped IPv4 destinations. */
  lemma LegacyPrecedence(sa: Sockaddr, precedence: int)
    ensures Masks(GAI_PRECEDENCES)
    ensures ValueOf(GAI_PRECEDENCES, sa, precedence) ==> (precedence == 10 <==> AddressOf(sa)[..12] == MAPPED)
  {
    hide Covers;
    var t, a := GAI_PRECEDENCES, AddressOf(sa);
    if ValueOf(t, sa, precedence) {
      var k: nat :| Longest(t, a, k) && precedence == t[k].value;
      MappedCovered(a);
      if Covers(t[3], a) && k != 3 {
        assert k == 0;
        LoopbackApart(a);
      }
    }
  }

  lemma LoopbackApart(a: Addr)
    requires Covers(GAI_PRECEDENCES[0], a)
    ensures a[..12] != MAPPED
  {
    hide AddrBits;
    WholeBytes(a, 16);
    WholeBytes(LOOPBACK, 16);
    assert a[..16] == a && LOOPBACK[..16] == LOOPBACK;
    SameBytes(a, LOOPBACK);
    assert a[..12][10] == a[10] == 0;
  }

  lemma MappedScope(sa: Sockaddr)
    requires Mapped(sa)
    ensures AddrScope(sa) == SCOPE_GLOBAL
  {
    assert sa.addr[..12][0] == sa.addr[0] && sa.addr[..12][10] == sa.addr[10];
  }

  lemma TiedAlike(x: SortResult, y: SortResult)
    ensures Tied(x, y) ==> x.precedence == y.precedence && x.dstScope == y.dstScope
  {
    hide MatchingBits;
    var s, t := Key(x), Key(y);
    assert s[..5][3] == s[3] && s[..5][4] == s[4] && t[..5][3] == t[3] && t[..5][4] == t[4];
  }

  /** Destinations as they are sorted never clash: an IPv4 one shares its precedence with mapped ones
      only, and has another scope than they have. */
  lemma FilledNeverClash(x: SortResult, y: SortResult)
    requires Filled(x) && Filled(y)
    ensures !Clash(x, y)
  {
    hide MatchingBits, ValueOf, AddrScope;
    if x.dst.Inet? && !y.dst.Inet? {
      Ipv4ScopeIsLink(x.dst.ip);
      LegacyPrecedence(x.dst, x.precedence);
      LegacyPrecedence(y.dst, y.precedence);
      assert AddressOf(x.dst)[..12] == MAPPED;
      if Mapped(y.dst) { MappedScope(y.dst); }
      TiedAlike(x, y);
    }
  }

  /** On results as they are sorted the comparison is the order of the sort keys, and a strict total
      order of results in different places, mapped destinations included. */
  lemma FilledOrder(x: SortResult, y: SortResult, z: SortResult)
    requires Filled(x) && Filled(y) && Filled(z)
    ensures Before(x, y) <==> LexLess(Key(x), Key(y))
    ensures !Before(x, x)
    ensures Before(x, y) && Before(y, z) ==> Before(x, z)
    ensures x.pos != y.pos ==> (Before(x, y) <==> !Before(y, x))
  {
    hide Filled, Before, Clash, LexLess, MatchingBits;
    var rs := {x, y, z};
    forall a, b | a in rs && b in rs ensures !Clash(a, b) { FilledNeverClash(a, b); }
    StrictTotalOrder(rs, x, y, z);
    assert Before(x, y) <==> LexLess(Key(x), Key(y)) by { BeforeIsLess(x, y); }
  }

  lemma BeforeIsLess(x: SortResult, y: SortResult)
    requires !Clash(x, y)
    ensures Before(x, y) <==> LexLess(Key(x), Key(y))
  {
  }

  /** A source address that `find_srcaddr` may find, and whether the destination is reachable: of the
      family of the destination, or none. */
  predicate SourceFor(dst: Sockaddr, found: (Sockaddr, bool)) {
    found.0.Unspec? || (dst.Inet? && found.0.Inet?) || (dst.Inet6? && found.0.Inet6?)
  }

  /** The loop of `rfc3484_sort_results` in front of the sorting, with what `find_srcaddr` finds for
      each result. */
  method FillResults(policy: Policy, results: array<SortResult>, found: seq<(Sockaddr, bool)>)
    requires policy.Valid() && |found| == results.Length
    requires forall i :: 0 <= i < results.Length ==> !results[i].dst.Unspec? && SourceFor(results[i].dst, found[i])
    modifies results, policy.v4mapped
    ensures policy.Valid()
    ensures forall i :: 0 <= i < results.Length ==>
              && Filled(results[i]) && results[i].pos == i && results[i].dst == old(results[i].dst)
              && (results[i].src, results[i].reachable) == found[i]
  {
    hide ValueOf, AddrScope, Graded, Masks;
    LabelsGraded();
    PrecedencesGraded();
    var i := 0;
    while i < results.Length
      invariant i <= results.Length && policy.Valid()
      invariant forall j :: i <= j < results.Length ==> results[j] == old(results[j])
      invariant forall j :: 0 <= j < i ==>
                  && Filled(results[j]) && results[j].pos == j && results[j].dst == old(results[j].dst)
                  && (results[j].src, results[j].reachable) == found[j]
    {
      var res := FillOne(policy, results[i].dst, found[i], i);
      results[i] := res;
      i := i + 1;
    }
  }

  method FillOne(policy: Policy, dst: Sockaddr, found: (Sockaddr, bool), pos: nat) returns (r: SortResult)
    requires policy.Valid() && !dst.Unspec? && SourceFor(dst, found)
    modifies policy.v4mapped
    ensures policy.Valid() && Filled(r) && r.pos == pos && r.dst == dst && (r.src, r.reachable) == found
  {
    hide AddrScope, Apart, Longest;
    LabelsGraded();
    PrecedencesGraded();
    var src := found.0;
    var precedence := policy.MatchGaiTable(dst, GAI_PRECEDENCES);
    var dstLabel := policy.MatchGaiTable(dst, GAI_LABELS);
    var srcLabel := policy.MatchGaiTable(src, GAI_LABELS);
    r := SortResult(dst, src, found.1, AddrScope(dst), AddrScope(src), dstLabel, srcLabel, precedence, pos);
  }
}
