/** The Internet checksum (section 1 of RFC 1071) as gdhcp/common.c computes it, on a
    little-endian machine. */
module Checksum {
  import opened Basics

  newtype Int32 = x: int | -0x8000_0000 <= x < 0x8000_0000

  type Word = n: nat | n < 0x1_0000

  function Pair(lo: Byte, hi: Byte): Word {
    lo as int + 256 * (hi as int)
  }

  /** The buffer as 16-bit words; a trailing octet is padded with zero. */
  function Words(s: seq<Byte>): seq<Word> {
    if s == [] then [] else if |s| == 1 then [s[0]] else [Pair(s[0], s[1])] + Words(s[2..])
  }

  // ---------------------------------------------------------------- reference

  /** Addition with end-around carry. */
  function OnesAdd(a: Word, b: Word): Word {
    if a + b >= 0x1_0000 then a + b - 0xffff else a + b
  }

  function OnesSum(ws: seq<Word>): Word {
    if ws == [] then 0 else OnesAdd(OnesSum(ws[..|ws| - 1]), ws[|ws| - 1])
  }

  /** The complement of the one's complement sum. */
  function InternetChecksum(s: seq<Byte>): Word {
    0xffff - OnesSum(Words(s))
  }

  // ---------------------------------------------------------------- the running sum

  function Sum(ws: seq<Word>): nat {
    if ws == [] then 0 else Sum(ws[..|ws| - 1]) + ws[|ws| - 1]
  }

  /** What folding the carries of a sum does: the same value modulo 2^16 - 1, and 0 only for 0. */
  ghost predicate Folded(sum: nat, r: Word) {
    sum % 0xffff == r % 0xffff && (sum == 0 <==> r == 0)
  }

  lemma FoldedUnique(sum: nat, a: Word, b: Word)
    requires Folded(sum, a) && Folded(sum, b)
    ensures a == b
  {
  }

  lemma {:induction false} OnesSumFolds(ws: seq<Word>)
    ensures Folded(Sum(ws), OnesSum(ws))
  {
    if ws != [] {
      OnesSumFolds(ws[..|ws| - 1]);
      var a, s, w := OnesSum(ws[..|ws| - 1]), Sum(ws[..|ws| - 1]), ws[|ws| - 1];
      ModAdd(s, a, w);
    }
  }

  lemma ModAdd(s: nat, a: nat, w: nat)
    requires s % 0xffff == a % 0xffff
    ensures (s + w) % 0xffff == (a + w) % 0xffff
  {
  }

  /** One pass of the fold: `(sum & 0xffff) + (sum >> 16)`. */
  lemma FoldStep(sum: nat)
    requires sum >= 0x1_0000
    ensures
      var sum' := sum % 0x1_0000 + sum / 0x1_0000;
      0 < sum' < sum && sum' % 0xffff == sum % 0xffff
  {
    var h, l := sum / 0x1_0000, sum % 0x1_0000;
    assert sum == h * 0xffff + (h + l);
    MulMod(h, h + l);
  }

  lemma MulMod(h: nat, x: nat)
    ensures (h * 0xffff + x) % 0xffff == x % 0xffff
  {
  }

  lemma {:induction false} WordsTake(s: seq<Byte>, k: nat)
    requires 2 * k <= |s|
    ensures |Words(s)| >= k
    ensures 2 * k + 1 < |s| ==> |Words(s)| > k && Words(s)[k] == Pair(s[2 * k], s[2 * k + 1])
    ensures 2 * k + 1 == |s| ==> |Words(s)| == k + 1 && Words(s)[k] == s[2 * k]
    ensures 2 * k == |s| ==> |Words(s)| == k
    decreases k
  {
    if k > 0 {
      WordsTake(s[2..], k - 1);
    }
  }

  /** `dhcp_checksum`.  For every buffer of up to 65535 octets the 32-bit accumulator never
      overflows (it would not verify otherwise), the fold ends, and the result is the
      complement of the one's complement sum. */
  method DhcpChecksum(addr: seq<Byte>) returns (r: Word)
    requires |addr| <= 0xffff
    ensures r == InternetChecksum(addr)
  {
    var sum: Int32 := 0;
    var count := |addr|;
    var source := 0;
    ghost var ws := Words(addr);
    while count > 1
      invariant count == |addr| - 2 * source && count >= 0 && source <= |ws|
      invariant 0 <= sum as int == Sum(ws[..source]) <= 0xffff * source
    {
      WordsTake(addr, source);
      assert ws[..source + 1][..source] == ws[..source];
      sum := sum + Pair(addr[2 * source], addr[2 * source + 1]) as Int32;
      source := source + 1;
      count := count - 2;
    }
    WordsTake(addr, source);
    if count > 0 {
      assert ws[..source + 1][..source] == ws[..source];
      sum := sum + addr[2 * source] as Int32;
      source := source + 1;
    }
    assert ws[..source] == ws;
    OnesSumFolds(ws);
    while sum / 0x1_0000 != 0
      invariant 0 <= sum && sum as int % 0xffff == Sum(ws) % 0xffff && (sum == 0 <==> Sum(ws) == 0)
      decreases sum
    {
      FoldStep(sum as int);
      sum := sum % 0x1_0000 + sum / 0x1_0000;
    }
    FoldedUnique(Sum(ws), OnesSum(ws), sum as int);
    r := 0xffff - sum as int;
  }
}
