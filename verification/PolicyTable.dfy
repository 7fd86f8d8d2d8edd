/** The prefix policy tables for address selection (gweb/gresolv.c, after section 2.1 of RFC 3484). */
module PolicyTable {
  import opened Basics
  import opened BitRows

  /** An IPv6 address, in network byte order. */
  type Addr = a: seq<Byte> | |a| == 16 witness [0, 0, 0, 0, 0, 0, 0, 0, 0, 0, 0, 0, 0, 0, 0, 0]

  type Addr4 = a: seq<Byte> | |a| == 4 witness [0, 0, 0, 0]

  const ZERO: Addr := [0, 0, 0, 0, 0, 0, 0, 0, 0, 0, 0, 0, 0, 0, 0, 0]
  const MAPPED: seq<Byte> := [0, 0, 0, 0, 0, 0, 0, 0, 0, 0, 0xff, 0xff]

  /** A socket address; the source of an unreachable destination stays all zero. */
  datatype Sockaddr = Inet(ip: Addr4) | Inet6(addr: Addr) | Unspec

  // ---------------------------------------------------------------- prefixes

  function AddrBits(a: seq<Byte>): (r: seq<bool>)
    ensures |r| == 8 * |a|
  {
    if a == [] then [] else Bits(a[0], 8) + AddrBits(a[1..])
  }

  lemma {:induction false} AddrBitsJoin(a: seq<Byte>, b: seq<Byte>)
    ensures AddrBits(a + b) == AddrBits(a) + AddrBits(b)
  {
    if a == [] {
      assert a + b == b;
    } else {
      assert (a + b)[1..] == a[1..] + b;
      AddrBitsJoin(a[1..], b);
    }
  }

  lemma {:induction false} BitsInjective(x: nat, y: nat, n: nat)
    requires x < Pow2(n) && y < Pow2(n) && Bits(x, n) == Bits(y, n)
    ensures x == y
  {
    if n > 0 {
      SnocEqual(Bits(x / 2, n - 1), Bits(y / 2, n - 1), x % 2 == 1, y % 2 == 1);
      BitsInjective(x / 2, y / 2, n - 1);
    }
  }

  /** Octet strings are equal if and only if their bits are. */
  lemma {:induction false} SameBytes(a: seq<Byte>, b: seq<Byte>)
    requires |a| == |b|
    ensures a == b <==> AddrBits(a) == AddrBits(b)
  {
    if a != [] && AddrBits(a) == AddrBits(b) {
      var s, t := Bits(a[0], 8), Bits(b[0], 8);
      assert s == AddrBits(a)[..8] && t == AddrBits(b)[..8];
      assert AddrBits(a[1..]) == AddrBits(a)[8..] && AddrBits(b[1..]) == AddrBits(b)[8..];
      assert Pow2(8) == 256;
      BitsInjective(a[0], b[0], 8);
      SameBytes(a[1..], b[1..]);
      assert a == [a[0]] + a[1..] && b == [b[0]] + b[1..];
    }
  }

  /** The first `8 * p + m` bits are those of `p` octets and `m` bits of the next. */
  lemma LeadingBits(a: seq<Byte>, p: nat, m: nat)
    requires p < |a| && m <= 8
    ensures AddrBits(a)[..8 * p + m] == AddrBits(a[..p]) + Bits(a[p], 8)[..m]
  {
    hide *;
    SplitAt(a, p);
    PrefixOfJoin(AddrBits(a[..p]), Bits(a[p], 8), AddrBits(a[p + 1..]), m);
  }

  lemma SplitAt(a: seq<Byte>, p: nat)
    requires p < |a|
    ensures AddrBits(a) == AddrBits(a[..p]) + (Bits(a[p], 8) + AddrBits(a[p + 1..]))
  {
    hide Bits;
    var rest := a[p..];
    assert a == a[..p] + rest;
    AddrBitsJoin(a[..p], rest);
    assert rest[0] == a[p] && rest[1..] == a[p + 1..];
  }

  lemma PrefixOfJoin<T>(s: seq<T>, t: seq<T>, u: seq<T>, m: nat)
    requires m <= |t|
    ensures (s + (t + u))[..|s| + m] == s + t[..m]
  {
  }

  lemma WholeBytes(a: seq<Byte>, p: nat)
    requires p <= |a|
    ensures AddrBits(a)[..8 * p] == AddrBits(a[..p])
  {
    assert a == a[..p] + a[p..];
    AddrBitsJoin(a[..p], a[p..]);
  }

  lemma JoinEqual<T>(s: seq<T>, t: seq<T>, u: seq<T>, v: seq<T>)
    requires |s| == |t|
    ensures s + u == t + v <==> s == t && u == v
  {
    assert (s + u)[..|s|] == s && (t + v)[..|t|] == t;
    assert (s + u)[|s|..] == u && (t + v)[|t|..] == v;
  }

  /** `mask_compare` decides whether two addresses agree in their first `mask` bits. */
  method MaskCompare(one: Addr, two: Addr, mask: nat) returns (same: bool)
    requires mask <= 128
    ensures same <==> AddrBits(one)[..mask] == AddrBits(two)[..mask]
  {
    hide Bits, AddrBits, Xor, Shr;
    var p, m := 0, mask;
    if m > 8 {
      p := mask / 8;
      WholeBytes(one, p);
      WholeBytes(two, p);
      SameBytes(one[..p], two[..p]);
      if one[..p] != two[..p] {
        assert AddrBits(one)[..mask][..8 * p] == AddrBits(one)[..8 * p];
        assert AddrBits(two)[..mask][..8 * p] == AddrBits(two)[..8 * p];
        return false;
      }
      m := mask % 8;
    }
    if m == 0 { return true; }
    LeadingBits(one, p, m);
    LeadingBits(two, p, m);
    ShiftedXor(one[p], two[p], 8, 8 - m);
    JoinEqual(AddrBits(one[..p]), AddrBits(two[..p]), Bits(one[p], 8)[..m], Bits(two[p], 8)[..m]);
    return Shr(Xor(one[p], two[p], 8), 8 - m) == 0;
  }

  // ---------------------------------------------------------------- policy tables

  datatype Row = Row(addr: Addr, mask: nat, value: int)

  const LOOPBACK: Addr := [0, 0, 0, 0, 0, 0, 0, 0, 0, 0, 0, 0, 0, 0, 0, 1]
  const V4MAPPED: Addr := [0, 0, 0, 0, 0, 0, 0, 0, 0, 0, 0xff, 0xff, 0, 0, 0, 0]
  const SIXTOFOUR: Addr := [0x20, 0x02, 0, 0, 0, 0, 0, 0, 0, 0, 0, 0, 0, 0, 0, 0]
  const TEREDO: Addr := [0x20, 0x01, 0, 0, 0, 0, 0, 0, 0, 0, 0, 0, 0, 0, 0, 0]
  const SITE_LOCAL: Addr := [0xfe, 0xc0, 0, 0, 0, 0, 0, 0, 0, 0, 0, 0, 0, 0, 0, 0]
  const UNIQUE_LOCAL: Addr := [0xfc, 0, 0, 0, 0, 0, 0, 0, 0, 0, 0, 0, 0, 0, 0, 0]

  const GAI_LABELS: seq<Row> := [
    Row(LOOPBACK, 128, 0),
    Row(SIXTOFOUR, 16, 2),
    Row(ZERO, 96, 3),
    Row(V4MAPPED, 96, 4),
    Row(SITE_LOCAL, 10, 5),
    Row(UNIQUE_LOCAL, 7, 6),
    Row(TEREDO, 32, 7),
    Row(ZERO, 0, 1)
  ]

  const GAI_PRECEDENCES: seq<Row> := [
    Row(LOOPBACK, 128, 50),
    Row(SIXTOFOUR, 16, 30),
    Row(ZERO, 96, 20),
    Row(V4MAPPED, 96, 10),
    Row(ZERO, 0, 40)
  ]

  ghost predicate Covers(r: Row, a: Addr)
    requires r.mask <= 128
  {
    AddrBits(a)[..r.mask] == AddrBits(r.addr)[..r.mask]
  }

  /** Row `k` is the one row with the longest prefix of `a`. */
  ghost predicate Longest(tbl: seq<Row>, a: Addr, k: nat)
    requires Masks(tbl)
  {
    && k < |tbl| && Covers(tbl[k], a)
    && forall j :: 0 <= j < |tbl| && j != k && Covers(tbl[j], a) ==> tbl[j].mask < tbl[k].mask
  }

  ghost predicate Masks(tbl: seq<Row>) {
    forall k :: 0 <= k < |tbl| ==> tbl[k].mask <= 128
  }

  /** No address is covered by both rows. */
  ghost predicate Apart(r: Row, s: Row)
    requires r.mask <= 128 && s.mask <= 128
  {
    exists b :: 0 <= b < r.mask && b < s.mask && AddrBits(r.addr)[b] != AddrBits(s.addr)[b]
  }

  /** A row comes before the shorter ones, or has nothing in common with a later one. */
  ghost predicate Graded(tbl: seq<Row>) {
    && Masks(tbl) && tbl != [] && tbl[|tbl| - 1].mask == 0
    && forall i, j :: 0 <= i < j < |tbl| ==> tbl[i].mask > tbl[j].mask || Apart(tbl[i], tbl[j])
  }

  lemma ApartExcludes(r: Row, s: Row, a: Addr)
    requires r.mask <= 128 && s.mask <= 128 && Apart(r, s) && Covers(r, a)
    ensures !Covers(s, a)
  {
    hide AddrBits;
    var b :| 0 <= b < r.mask && b < s.mask && AddrBits(r.addr)[b] != AddrBits(s.addr)[b];
    assert AddrBits(a)[..r.mask][b] == AddrBits(a)[b] && AddrBits(r.addr)[..r.mask][b] == AddrBits(r.addr)[b];
    assert AddrBits(a)[..s.mask][b] == AddrBits(a)[b] && AddrBits(s.addr)[..s.mask][b] == AddrBits(s.addr)[b];
  }

  /** The first match in a graded table is the longest match. */
  lemma FirstIsLongest(tbl: seq<Row>, a: Addr, k: nat)
    requires Graded(tbl) && k < |tbl| && Covers(tbl[k], a)
    requires forall j :: 0 <= j < k ==> !Covers(tbl[j], a)
    ensures Longest(tbl, a, k)
  {
    hide Covers, Apart;
    forall j | k < j < |tbl| && Covers(tbl[j], a) ensures tbl[j].mask < tbl[k].mask {
      if Apart(tbl[k], tbl[j]) { ApartExcludes(tbl[k], tbl[j], a); }
    }
  }

  lemma BitOf(a: Addr, b: nat)
    requires b < 128
    ensures AddrBits(a)[b] == Bits(a[b / 8], 8)[b % 8]
  {
    hide Bits;
    LeadingBits(a, b / 8, b % 8 + 1);
    assert AddrBits(a)[b] == AddrBits(a)[..8 * (b / 8) + (b % 8 + 1)][b];
  }

  lemma PartAt(r: Row, s: Row, b: nat)
    requires b < r.mask <= 128 && b < s.mask <= 128
    requires Bits(r.addr[b / 8], 8)[b % 8] != Bits(s.addr[b / 8], 8)[b % 8]
    ensures Apart(r, s)
  {
    hide Bits;
    BitOf(r.addr, b);
    BitOf(s.addr, b);
  }

  /** The value of one bit, by shifting. */
  lemma {:induction false} BitByShift(v: nat, n: nat, i: nat)
    requires i < n
    ensures Bits(v, n)[i] == (Shr(v, n - 1 - i) % 2 == 1)
  {
    if i < n - 1 { BitByShift(v / 2, n - 1, i); }
  }

  lemma KnownBits()
    ensures Bits(0x20, 8)[2] && !Bits(0x20, 8)[0] && !Bits(0, 8)[2] && !Bits(0, 8)[0] && Bits(0xff, 8)[0]
  {
    hide Bits;
    BitByShift(0x20, 8, 2);
    BitByShift(0x20, 8, 0);
    BitByShift(0, 8, 2);
    BitByShift(0, 8, 0);
    BitByShift(0xff, 8, 0);
    assert Shr(0x20, 5) == 1 && Shr(0x20, 7) == 0 && Shr(0, 5) == 0 && Shr(0, 7) == 0 && Shr(0xff, 7) == 1;
  }

  lemma KnownLabelBits()
    ensures Bits(0xfe, 8)[0] && Bits(0xfc, 8)[0] && Bits(2, 8)[6] && !Bits(1, 8)[6]
  {
    hide Bits;
    BitByShift(0xfe, 8, 0);
    BitByShift(0xfc, 8, 0);
    BitByShift(2, 8, 6);
    BitByShift(1, 8, 6);
    assert Shr(0xfe, 7) == 1 && Shr(0xfc, 7) == 1;
  }

  lemma PrecedencesGraded()
    ensures Graded(GAI_PRECEDENCES)
  {
    hide Apart, Bits;
    var t := GAI_PRECEDENCES;
    KnownBits();
    PartAt(t[1], t[2], 2);
    PartAt(t[1], t[3], 2);
    PartAt(t[2], t[3], 80);
  }

  lemma LabelsGraded()
    ensures Graded(GAI_LABELS)
  {
    hide Apart, Bits;
    var t := GAI_LABELS;
    KnownBits();
    KnownLabelBits();
    PartAt(t[1], t[2], 2);
    PartAt(t[1], t[3], 2);
    PartAt(t[1], t[6], 14);
    PartAt(t[2], t[3], 80);
    PartAt(t[4], t[6], 0);
    PartAt(t[5], t[6], 0);
  }

  /** The address that is looked up: an IPv4 address is mapped into IPv6. */
  function AddressOf(sa: Sockaddr): Addr {
    match sa
    case Inet(ip) => MAPPED + ip
    case Inet6(addr) => addr
    case Unspec => ZERO
  }

  /** The table lookup with its buffer for mapped addresses. */
  class Policy {
    const v4mapped: array<Byte>

    ghost predicate Valid()
      reads v4mapped
    {
      v4mapped.Length == 16 && v4mapped[..12] == MAPPED
    }

    constructor ()
      ensures Valid() && fresh(v4mapped)
    {
      var buffer := new Byte[16](i => if i == 10 || i == 11 then 0xff else 0);
      v4mapped := buffer;
    }

    /** The value of the row with the longest matching prefix. */
    method MatchGaiTable(sa: Sockaddr, tbl: seq<Row>) returns (value: int)
      requires Valid() && Graded(tbl)
      modifies v4mapped
      ensures Valid()
      ensures exists k: nat :: Longest(tbl, AddressOf(sa), k) && value == tbl[k].value
    {
      hide AddrBits, Apart, Longest;
      var addr: Addr;
      match sa {
        case Inet(ip) =>
          v4mapped[12], v4mapped[13], v4mapped[14], v4mapped[15] := ip[0], ip[1], ip[2], ip[3];
          assert v4mapped[..] == MAPPED + ip && v4mapped[..12] == v4mapped[..][..12];
          addr := v4mapped[..];
        case Inet6(a) => addr := a;
        case Unspec => addr := ZERO;
      }
      assert addr == AddressOf(sa) && Covers(tbl[|tbl| - 1], addr);
      var k := 0;
      while true
        invariant k < |tbl| && Valid()
        invariant forall j :: 0 <= j < k ==> !Covers(tbl[j], addr)
        decreases |tbl| - k
      {
        var same := MaskCompare(addr, tbl[k].addr, tbl[k].mask);
        if same {
          FirstIsLongest(tbl, addr, k);
          value := tbl[k].value;
          assert Longest(tbl, AddressOf(sa), k);
          return;
        }
        k := k + 1;
      }
    }
  }
}
