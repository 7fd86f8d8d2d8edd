/** The precedence and the label of every address, by its octets. */
module PolicyValues {
  import opened Basics
  import opened BitRows
  import opened PolicyTable

  /** The leading zeros of the unspecified, the loopback and the compatible addresses. */
  const ZEROS: seq<Byte> := [0, 0, 0, 0, 0, 0, 0, 0, 0, 0, 0, 0]

  function Precedence(a: Addr): int {
    if a[..12] == ZEROS && a[12..] == [0, 0, 0, 1] then 50
    else if a[0] == 0x20 && a[1] == 0x02 then 30
    else if a[..12] == ZEROS then 20
    else if a[..12] == [0, 0, 0, 0, 0, 0, 0, 0, 0, 0, 0xff, 0xff] then 10
    else 40
  }

  function Label(a: Addr): int {
    if a[..12] == ZEROS && a[12..] == [0, 0, 0, 1] then 0
    else if a[0] == 0x20 && a[1] == 0x02 then 2
    else if a[..12] == ZEROS then 3
    else if a[..12] == [0, 0, 0, 0, 0, 0, 0, 0, 0, 0, 0xff, 0xff] then 4
    else if a[0] == 0xfe && a[1] / 64 == 3 then 5
    else if a[0] / 2 == 0x7e then 6
    else if a[..4] == [0x20, 0x01, 0, 0] then 7
    else 1
  }

  // ---------------------------------------------------------------- prefixes by octets

  lemma CoversOctets(r: Row, a: Addr, p: nat)
    requires p <= 16 && r.mask == 8 * p
    ensures Covers(r, a) <==> a[..p] == r.addr[..p]
  {
    hide AddrBits;
    WholeBytes(a, p);
    WholeBytes(r.addr, p);
    SameBytes(a[..p], r.addr[..p]);
  }

  lemma {:induction false} LeadingIsShift(x: nat, n: nat, k: nat)
    requires k <= n
    ensures Bits(x, n)[..n - k] == Bits(Shr(x, k), n - k)
  {
    if k == 0 {
      assert Bits(x, n)[..n] == Bits(x, n);
    } else {
      LeadingIsShift(x / 2, n - 1, k - 1);
      assert Bits(x, n)[..n - k] == Bits(x / 2, n - 1)[..n - k];
    }
  }

  lemma {:induction false} ShiftBound(x: nat, n: nat, k: nat)
    requires k <= n && x < Pow2(n)
    ensures Shr(x, k) < Pow2(n - k)
  {
    if k > 0 { ShiftBound(x / 2, n - 1, k - 1); }
  }

  lemma CoversBits(r: Row, a: Addr, p: nat, m: nat)
    requires p < 16 && m <= 8 && r.mask == 8 * p + m
    ensures Covers(r, a) <==> a[..p] == r.addr[..p] && Shr(a[p], 8 - m) == Shr(r.addr[p], 8 - m)
  {
    hide AddrBits, Bits, Shr;
    LeadingBits(a, p, m);
    LeadingBits(r.addr, p, m);
    SameBytes(a[..p], r.addr[..p]);
    LeadingIsShift(a[p], 8, 8 - m);
    LeadingIsShift(r.addr[p], 8, 8 - m);
    JoinEqual(AddrBits(a[..p]), AddrBits(r.addr[..p]), Bits(a[p], 8)[..m], Bits(r.addr[p], 8)[..m]);
    assert Pow2(8) == 256;
    ShiftBound(a[p], 8, 8 - m);
    ShiftBound(r.addr[p], 8, 8 - m);
    if Bits(Shr(a[p], 8 - m), m) == Bits(Shr(r.addr[p], 8 - m), m) {
      BitsInjective(Shr(a[p], 8 - m), Shr(r.addr[p], 8 - m), m);
    }
  }

  lemma LongestIsOne(tbl: seq<Row>, a: Addr, j: nat, k: nat)
    requires Masks(tbl) && Longest(tbl, a, j) && Longest(tbl, a, k)
    ensures j == k
  {
  }

  // ---------------------------------------------------------------- the rows

  lemma LoopbackRow(r: Row, a: Addr)
    requires r.addr == LOOPBACK && r.mask == 128
    ensures Covers(r, a) <==> a[..12] == ZEROS && a[12..] == [0, 0, 0, 1]
  {
    hide Covers;
    CoversOctets(r, a, 16);
    assert a[..16] == a == a[..12] + a[12..] && r.addr[..16] == ZEROS + [0, 0, 0, 1];
  }

  lemma SixToFourRow(r: Row, a: Addr)
    requires r.addr == SIXTOFOUR && r.mask == 16
    ensures Covers(r, a) <==> a[0] == 0x20 && a[1] == 0x02
  {
    hide Covers;
    CoversOctets(r, a, 2);
    assert a[..2] == [a[0], a[1]] && r.addr[..2] == [0x20, 0x02];
    assert a[..2][0] == a[0] && a[..2][1] == a[1] && r.addr[..2][0] == 0x20 && r.addr[..2][1] == 0x02;
  }

  lemma LongRow(r: Row, a: Addr)
    requires r.mask == 96
    ensures Covers(r, a) <==> a[..12] == r.addr[..12]
  {
    hide Covers;
    CoversOctets(r, a, 12);
  }

  lemma SiteRow(r: Row, a: Addr)
    requires r.addr == SITE_LOCAL && r.mask == 10
    ensures Covers(r, a) <==> a[0] == 0xfe && a[1] / 64 == 3
  {
    hide Covers, Shr;
    CoversBits(r, a, 1, 2);
    assert a[..1] == [a[0]] && r.addr[..1] == [0xfe] && a[..1][0] == a[0] && r.addr[..1][0] == 0xfe;
    ShiftSix(a[1]);
    ShiftSix(0xc0);
  }

  lemma ShiftSix(x: Byte)
    ensures Shr(x, 6) == x / 64
  {
    assert Shr(x, 6) == Shr(x / 2, 5) == Shr(x / 4, 4);
    assert Shr(x / 4, 4) == Shr(x / 8, 3) == Shr(x / 16, 2);
    assert Shr(x / 16, 2) == Shr(x / 32, 1) == x / 64;
  }

  lemma UniqueRow(r: Row, a: Addr)
    requires r.addr == UNIQUE_LOCAL && r.mask == 7
    ensures Covers(r, a) <==> a[0] / 2 == 0x7e
  {
    hide Covers;
    CoversBits(r, a, 0, 7);
    assert a[..0] == r.addr[..0] == [];
  }

  lemma TeredoRow(r: Row, a: Addr)
    requires r.addr == TEREDO && r.mask == 32
    ensures Covers(r, a) <==> a[..4] == [0x20, 0x01, 0, 0]
  {
    hide Covers;
    CoversOctets(r, a, 4);
  }

  lemma AnyRow(r: Row, a: Addr)
    requires r.mask == 0
    ensures Covers(r, a)
  {
  }

  // ---------------------------------------------------------------- the tables

  /** The row with the longest prefix of an address in the precedence table has the value that the
      octets of the address say. */
  lemma PrecedenceIs(a: Addr, k: nat)
    requires Masks(GAI_PRECEDENCES) && Longest(GAI_PRECEDENCES, a, k)
    ensures GAI_PRECEDENCES[k].value == Precedence(a)
  {
    hide Covers, Longest, Apart;
    var t := GAI_PRECEDENCES;
    PrecedencesGraded();
    LoopbackRow(t[0], a);
    SixToFourRow(t[1], a);
    LongRow(t[2], a);
    LongRow(t[3], a);
    AnyRow(t[4], a);
    assert t[2].addr[..12] == ZEROS && t[3].addr[..12] == [0, 0, 0, 0, 0, 0, 0, 0, 0, 0, 0xff, 0xff];
    var j := if Covers(t[0], a) then 0 else if Covers(t[1], a) then 1 else if Covers(t[2], a) then 2
             else if Covers(t[3], a) then 3 else 4;
    FirstIsLongest(t, a, j);
    LongestIsOne(t, a, j, k);
  }

  /** And so in the label table. */
  lemma LabelIs(a: Addr, k: nat)
    requires Masks(GAI_LABELS) && Longest(GAI_LABELS, a, k)
    ensures GAI_LABELS[k].value == Label(a)
  {
    hide Covers, Longest, Apart;
    var t := GAI_LABELS;
    LabelsGraded();
    LoopbackRow(t[0], a);
    SixToFourRow(t[1], a);
    LongRow(t[2], a);
    LongRow(t[3], a);
    SiteRow(t[4], a);
    UniqueRow(t[5], a);
    TeredoRow(t[6], a);
    AnyRow(t[7], a);
    assert t[2].addr[..12] == ZEROS && t[3].addr[..12] == [0, 0, 0, 0, 0, 0, 0, 0, 0, 0, 0xff, 0xff];
    var j := if Covers(t[0], a) then 0 else if Covers(t[1], a) then 1 else if Covers(t[2], a) then 2
             else if Covers(t[3], a) then 3 else if Covers(t[4], a) then 4 else if Covers(t[5], a) then 5
             else if Covers(t[6], a) then 6 else 7;
    FirstIsLongest(t, a, j);
    LongestIsOne(t, a, j, k);
  }
}
