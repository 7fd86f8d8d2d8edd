/** Unsigned numbers as rows of bits, most significant first. */
module BitRows {
  import opened Basics

  function Bits(v: nat, n: nat): (r: seq<bool>)
    ensures |r| == n
  {
    if n == 0 then [] else Bits(v / 2, n - 1) + [v % 2 == 1]
  }

  /** Exclusive or of two `n`-bit numbers. */
  function Xor(x: nat, y: nat, n: nat): (r: nat) {
    if n == 0 then 0 else 2 * Xor(x / 2, y / 2, n - 1) + (if x % 2 == y % 2 then 0 else 1)
  }

  /** Logical shift right. */
  function Shr(v: nat, k: nat): nat {
    if k == 0 then v else Shr(v / 2, k - 1)
  }

  /** `g_bit_storage`: the number of bits it takes to write a number, one for zero. */
  function BitStorage(v: nat): (r: nat) {
    if v < 2 then 1 else 1 + BitStorage(v / 2)
  }

  method GBitStorage(number: nat) returns (bits: nat)
    ensures bits == BitStorage(number)
  {
    bits := 1;
    var v: nat := number / 2;
    while v != 0
      invariant BitStorage(number) == if v == 0 then bits else bits + BitStorage(v)
      decreases v
    {
      bits := bits + 1;
      v := v / 2;
    }
  }

  /** How many elements two rows have in common at the front. */
  function CommonPrefix(s: seq<bool>, t: seq<bool>): (r: nat)
    ensures r <= |s| && r <= |t|
  {
    if s != [] && t != [] && s[0] == t[0] then 1 + CommonPrefix(s[1..], t[1..]) else 0
  }

  /** The common prefix is common, and the next elements differ. */
  lemma {:induction false} CommonPrefixIs(s: seq<bool>, t: seq<bool>, k: nat)
    requires k <= |s| && k <= |t|
    ensures s[..k] == t[..k] <==> k <= CommonPrefix(s, t)
  {
    if k > 0 {
      assert s[..k] == [s[0]] + s[1..][..k - 1] && t[..k] == [t[0]] + t[1..][..k - 1];
      if s[0] == t[0] {
        CommonPrefixIs(s[1..], t[1..], k - 1);
        if s[..k] == t[..k] { assert s[1..][..k - 1] == s[..k][1..] && t[1..][..k - 1] == t[..k][1..]; }
      } else {
        assert s[..k][0] != t[..k][0];
      }
    }
  }

  lemma {:induction false} CommonPrefixJoin(s: seq<bool>, t: seq<bool>, u: seq<bool>, v: seq<bool>)
    requires |s| == |t|
    ensures CommonPrefix(s + u, t + v) == if s == t then |s| + CommonPrefix(u, v) else CommonPrefix(s, t)
    ensures s != t ==> CommonPrefix(s, t) < |s|
  {
    if s == [] {
      assert s + u == u && t + v == v;
    } else {
      assert (s + u)[1..] == s[1..] + u && (t + v)[1..] == t[1..] + v;
      assert s == [s[0]] + s[1..] && t == [t[0]] + t[1..];
      CommonPrefixJoin(s[1..], t[1..], u, v);
    }
  }

  /** The exclusive or is zero for equal rows only. */
  lemma {:induction false} XorZero(x: nat, y: nat, n: nat)
    ensures Xor(x, y, n) == 0 <==> Bits(x, n) == Bits(y, n)
  {
    if n > 0 {
      XorZero(x / 2, y / 2, n - 1);
      SnocEqual(Bits(x / 2, n - 1), Bits(y / 2, n - 1), x % 2 == 1, y % 2 == 1);
    }
  }

  lemma SnocEqual(s: seq<bool>, t: seq<bool>, a: bool, b: bool)
    ensures s + [a] == t + [b] <==> s == t && a == b
  {
    assert (s + [a])[..|s|] == s && (t + [b])[..|t|] == t;
    assert (s + [a])[|s|] == a && (t + [b])[|t|] == b;
  }

  lemma OneBit(a: bool, b: bool)
    ensures CommonPrefix([a], [b]) == if a == b then 1 else 0
  {
  }

  /** The highest bit of the exclusive or is where two rows part. */
  lemma {:induction false} TopBitIsPrefix(x: nat, y: nat, n: nat)
    requires Xor(x, y, n) != 0
    ensures BitStorage(Xor(x, y, n)) <= n
    ensures CommonPrefix(Bits(x, n), Bits(y, n)) == n - BitStorage(Xor(x, y, n))
  {
    hide CommonPrefix;
    var s, t := Bits(x / 2, n - 1), Bits(y / 2, n - 1);
    CommonPrefixJoin(s, t, [x % 2 == 1], [y % 2 == 1]);
    OneBit(x % 2 == 1, y % 2 == 1);
    XorZero(x / 2, y / 2, n - 1);
    if Xor(x / 2, y / 2, n - 1) != 0 { TopBitIsPrefix(x / 2, y / 2, n - 1); }
  }

  /** Shifting the exclusive or leaves the exclusive or of the leading bits. */
  lemma {:induction false} ShiftedXor(x: nat, y: nat, n: nat, k: nat)
    requires k <= n
    ensures Shr(Xor(x, y, n), k) == 0 <==> Bits(x, n)[..n - k] == Bits(y, n)[..n - k]
  {
    if k == 0 {
      XorZero(x, y, n);
      assert Bits(x, n)[..n] == Bits(x, n) && Bits(y, n)[..n] == Bits(y, n);
    } else {
      assert Xor(x, y, n) / 2 == Xor(x / 2, y / 2, n - 1);
      ShiftedXor(x / 2, y / 2, n - 1, k - 1);
      assert Bits(x, n)[..n - k] == Bits(x / 2, n - 1)[..n - k];
      assert Bits(y, n)[..n - k] == Bits(y / 2, n - 1)[..n - k];
    }
  }

  /** A number made of a high and a low part has the bits of both. */
  lemma {:induction false} BitsJoin(hi: nat, lo: nat, n: nat, m: nat)
    requires lo < Pow2(m)
    ensures Bits(hi * Pow2(m) + lo, n + m) == Bits(hi, n) + Bits(lo, m)
  {
    if m == 0 {
      assert Bits(hi, n) + Bits(lo, m) == Bits(hi, n);
    } else {
      var p := Pow2(m - 1);
      var v := hi * Pow2(m) + lo;
      assert v == 2 * (hi * p) + lo;
      assert v / 2 == hi * p + lo / 2 && v % 2 == lo % 2;
      BitsJoin(hi, lo / 2, n, m - 1);
    }
  }
}
