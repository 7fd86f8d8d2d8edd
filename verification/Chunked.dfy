/** The chunked transfer coding (section 4.1 of RFC 7230) of gweb/gweb.c as values: the
    octet automaton behind `decode_chunked`, and the encoding `process_next_chunk` emits. */
module Chunked {
  import opened Basics
  import opened Buffers

  const CR: Byte := 13
  const LF: Byte := 10
  const ZERO: Byte := 48

  const ULONG_MAX: nat := 0xffff_ffff_ffff_ffff

  // ---------------------------------------------------------------- strtoul(str, NULL, 16)

  predicate IsSpace(b: Byte) {
    9 <= b <= 13 || b == 32
  }

  function HexValue(b: Byte): (r: Option<nat>)
    ensures r.Some? ==> r.value < 16
  {
    if 48 <= b <= 57 then Some(b - 48)
    else if 97 <= b <= 102 then Some(b - 87)
    else if 65 <= b <= 70 then Some(b - 55)
    else None
  }

  function SkipSpace(s: seq<Byte>): seq<Byte> {
    if s != [] && IsSpace(s[0]) then SkipSpace(s[1..]) else s
  }

  /** The value of the leading hexadecimal digits, continuing from `acc`. */
  function Digits(s: seq<Byte>, acc: nat): nat {
    if s == [] || HexValue(s[0]).None? then acc else Digits(s[1..], 16 * acc + HexValue(s[0]).value)
  }

  function SkipPrefix(s: seq<Byte>): seq<Byte> {
    if |s| >= 3 && s[0] == ZERO && (s[1] == 120 || s[1] == 88) && HexValue(s[2]).Some? then s[2..] else s
  }

  /** The C library's conversion: white space, sign, prefix, digits; saturating. */
  function Strtoul16(s: seq<Byte>): (r: nat)
    ensures r <= ULONG_MAX
  {
    var s := SkipSpace(s);
    var negative := s != [] && s[0] == 45;
    var s := if s != [] && (s[0] == 45 || s[0] == 43) then s[1..] else s;
    var v := Digits(SkipPrefix(s), 0);
    if v > ULONG_MAX then ULONG_MAX
    else if negative && v != 0 then ULONG_MAX + 1 - v
    else v
  }

  // ---------------------------------------------------------------- decoding octet by octet

  datatype Phase = Size | RBody | NBody | Data

  /** The decoder's fields, and all that it has passed on so far. */
  datatype Decoder = Decoder(phase: Phase, header: seq<Byte>, size: nat, left: nat, total: nat, delivered: seq<Byte>)

  const START := Decoder(Size, [], 0, 0, 0, [])

  ghost predicate Valid(d: Decoder) {
    d.phase == Data && d.size != 0 ==> d.left > 0
  }

  datatype Outcome = Failed | Running(d: Decoder)

  /** The end of a size line.  `einval` is whether `errno` has been left at `EINVAL`. */
  function EndSizeLine(d: Decoder, cr: bool, einval: bool): Outcome {
    if !cr then Failed
    else
      var counter := Strtoul16(d.header);
      if (counter == 0 && einval) || counter == ULONG_MAX then Failed
      else Running(d.(phase := Data, size := counter, left := counter))
  }

  /** One octet; `cr` says that the octet before it, in the same buffer, was a CR. */
  function StepByte(d: Decoder, cr: bool, b: Byte, einval: bool): Outcome {
    match d.phase
    case Size => if b == LF then EndSizeLine(d, cr, einval) else Running(d.(header := d.header + [b]))
    case RBody => if b == CR then Running(d.(phase := NBody)) else Failed
    case NBody => if b == LF then Running(d.(phase := Size)) else Failed
    case Data =>
      if d.size == 0 then Running(d.(header := []))
      else
        var left := if d.left == 0 then 0 else d.left - 1;
        var d := d.(delivered := d.delivered + [b], total := d.total + 1, left := left);
        Running(if d.left == 0 then d.(header := [], phase := RBody) else d)
  }

  /** Whether the next octet comes right after a CR of the size line. */
  predicate AfterCr(d: Decoder, b: Byte) {
    d.phase == Size && b == CR
  }

  function Fold(d: Decoder, cr: bool, s: seq<Byte>, einval: bool): Outcome
    decreases |s|
  {
    if s == [] then Running(d)
    else match StepByte(d, cr, s[0], einval)
      case Failed => Failed
      case Running(d') => Fold(d', AfterCr(d, s[0]), s[1..], einval)
  }

  /** One buffer: the decoder does not remember a CR from the buffer before. */
  function DecodeBuffer(d: Decoder, buf: seq<Byte>, einval: bool): Outcome {
    Fold(d, false, buf, einval)
  }

  function DecodeAll(d: Decoder, bufs: seq<seq<Byte>>, einval: bool): Outcome
    decreases |bufs|
  {
    if bufs == [] then Running(d)
    else match DecodeBuffer(d, bufs[0], einval)
      case Failed => Failed
      case Running(d') => DecodeAll(d', bufs[1..], einval)
  }

  // ---------------------------------------------------------------- splitting the stream

  /** Whether the last octet of a buffer was a CR of a size line. */
  function LastCr(d: Decoder, cr: bool, s: seq<Byte>, einval: bool): bool
    decreases |s|
  {
    if s == [] then cr
    else match StepByte(d, cr, s[0], einval)
      case Failed => false
      case Running(d') => LastCr(d', AfterCr(d, s[0]), s[1..], einval)
  }

  /** No buffer ends between the CR and the LF of a size line. */
  predicate CleanCuts(d: Decoder, cr: bool, bufs: seq<seq<Byte>>, einval: bool)
    decreases |bufs|
  {
    bufs == [] ||
    match Fold(d, cr, bufs[0], einval)
    case Failed => true
    case Running(d') =>
      var cr' := LastCr(d, cr, bufs[0], einval);
      var rest := Concat(bufs[1..]);
      && !(d'.phase == Size && cr' && rest != [] && rest[0] == LF)
      && CleanCuts(d', cr', bufs[1..], einval)
  }

  lemma {:induction false} FoldConcat(d: Decoder, cr: bool, a: seq<Byte>, b: seq<Byte>, einval: bool)
    ensures Fold(d, cr, a + b, einval) ==
            match Fold(d, cr, a, einval)
            case Failed => Failed
            case Running(d') => Fold(d', LastCr(d, cr, a, einval), b, einval)
    decreases |a|
  {
    if a == [] {
      assert a + b == b;
    } else {
      assert (a + b)[1..] == a[1..] + b;
      match StepByte(d, cr, a[0], einval)
      case Failed =>
      case Running(d') => FoldConcat(d', AfterCr(d, a[0]), a[1..], b, einval);
    }
  }

  /** A remembered CR only matters in front of the LF of a size line, and there it decides. */
  lemma CrMatters(d: Decoder, s: seq<Byte>, einval: bool)
    ensures if d.phase == Size && s != [] && s[0] == LF then Fold(d, false, s, einval) == Failed
            else Fold(d, true, s, einval) == Fold(d, false, s, einval)
  {
  }

  /** The decoder forgets a CR at the start of a buffer: decoding buffer by buffer gives what
      decoding the whole stream gives if no cut separates a size line's CR from its LF, and
      fails if one does. */
  lemma {:induction false} SplitIff(d: Decoder, cr: bool, bufs: seq<seq<Byte>>, einval: bool)
    requires cr && d.phase == Size && Concat(bufs) != [] ==> Concat(bufs)[0] != LF
    ensures
      if CleanCuts(d, cr, bufs, einval) then DecodeAll(d, bufs, einval) == Fold(d, cr, Concat(bufs), einval)
      else DecodeAll(d, bufs, einval) == Failed
    decreases |bufs|
  {
    if bufs != [] {
      var rest := Concat(bufs[1..]);
      FoldConcat(d, cr, bufs[0], rest, einval);
      CrMatters(d, Concat(bufs), einval);
      FoldConcat(d, false, bufs[0], rest, einval);
      FirstBuffer(d, cr, bufs[0], rest, einval);
      match Fold(d, cr, bufs[0], einval) {
        case Failed =>
        case Running(d') =>
          var cr' := LastCr(d, cr, bufs[0], einval);
          if d'.phase == Size && cr' && rest != [] && rest[0] == LF {
            LateLf(d', bufs[1..], einval);
          } else {
            SplitIff(d', cr', bufs[1..], einval);
          }
      }
    }
  }

  /** The first buffer is decoded alike with and without the memory. */
  lemma FirstBuffer(d: Decoder, cr: bool, buf: seq<Byte>, rest: seq<Byte>, einval: bool)
    requires cr && d.phase == Size && buf + rest != [] ==> (buf + rest)[0] != LF
    ensures Fold(d, cr, buf, einval) == Fold(d, false, buf, einval)
  {
    if buf != [] {
      assert (buf + rest)[0] == buf[0];
      CrMatters(d, buf, einval);
    }
  }

  /** A LF that comes first in its buffer fails, however many empty buffers precede it. */
  lemma {:induction false} LateLf(d: Decoder, bufs: seq<seq<Byte>>, einval: bool)
    requires d.phase == Size && Concat(bufs) != [] && Concat(bufs)[0] == LF
    ensures DecodeAll(d, bufs, einval) == Failed
    decreases |bufs|
  {
    if bufs[0] == [] {
      assert Concat(bufs) == Concat(bufs[1..]);
      LateLf(d, bufs[1..], einval);
    } else {
      assert Concat(bufs)[0] == bufs[0][0];
      CrMatters(d, bufs[0], einval);
    }
  }

  // ---------------------------------------------------------------- encoding

  function HexDigit(n: nat): Byte
    requires n < 16
  {
    if n < 10 then 48 + n else 87 + n
  }

  /** The conversion `%zx`. */
  function Hex(n: nat): (r: seq<Byte>)
    ensures r != []
  {
    if n < 16 then [HexDigit(n)] else Hex(n / 16) + [HexDigit(n % 16)]
  }

  function Chunk(body: seq<Byte>): seq<Byte> {
    if body == [] then [] else Hex(|body|) + [CR, LF] + body + [CR, LF]
  }

  function Chunks(bodies: seq<seq<Byte>>): seq<Byte> {
    if bodies == [] then [] else Chunks(bodies[..|bodies| - 1]) + Chunk(bodies[|bodies| - 1])
  }

  const LAST_CHUNK: seq<Byte> := [ZERO, CR, LF, CR, LF]

  function Encode(bodies: seq<seq<Byte>>): seq<Byte> {
    Chunks(bodies) + LAST_CHUNK
  }

  function Bodies(bodies: seq<seq<Byte>>): seq<Byte> {
    if bodies == [] then [] else Bodies(bodies[..|bodies| - 1]) + bodies[|bodies| - 1]
  }

  // ---------------------------------------------------------------- runs of octets

  lemma {:induction false} FoldSize(d: Decoder, cr: bool, s: seq<Byte>, einval: bool)
    requires d.phase == Size && LF !in s
    ensures Fold(d, cr, s, einval) == Running(d.(header := d.header + s))
    ensures LastCr(d, cr, s, einval) == if s == [] then cr else s[|s| - 1] == CR
    decreases |s|
  {
    if s == [] {
      assert d.header + s == d.header;
    } else {
      var d' := d.(header := d.header + [s[0]]);
      FoldSize(d', s[0] == CR, s[1..], einval);
      assert d.header + [s[0]] + s[1..] == d.header + s;
    }
  }

  /** The decoder after passing on `s`. */
  function Deliver(d: Decoder, s: seq<Byte>): Decoder
    requires |s| <= d.left
  {
    var d := d.(delivered := d.delivered + s, total := d.total + |s|, left := d.left - |s|);
    if d.left == 0 then d.(header := [], phase := RBody) else d
  }

  lemma {:induction false} FoldData(d: Decoder, cr: bool, s: seq<Byte>, einval: bool)
    requires d.phase == Data && d.size != 0 && s != [] && |s| <= d.left
    ensures Fold(d, cr, s, einval) == Running(Deliver(d, s)) && !LastCr(d, cr, s, einval)
    decreases |s|
  {
    var d' := StepByte(d, cr, s[0], einval).d;
    if |s| == 1 {
      assert s == [s[0]];
    } else {
      FoldData(d', false, s[1..], einval);
      assert d.delivered + [s[0]] + s[1..] == d.delivered + s;
    }
  }

  lemma {:induction false} FoldDone(d: Decoder, cr: bool, s: seq<Byte>, einval: bool)
    requires d.phase == Data && d.size == 0
    ensures Fold(d, cr, s, einval) == Running(if s == [] then d else d.(header := []))
    decreases |s|
  {
    if s != [] { FoldDone(d.(header := []), false, s[1..], einval); }
  }

  // ---------------------------------------------------------------- numbers

  predicate AllHex(s: seq<Byte>) {
    forall i :: 0 <= i < |s| ==> HexValue(s[i]).Some?
  }

  lemma {:induction false} HexIsHex(n: nat)
    ensures AllHex(Hex(n)) && LF !in Hex(n)
  {
    if n >= 16 { HexIsHex(n / 16); }
  }

  lemma {:induction false} DigitsAdd(s: seq<Byte>, b: Byte, acc: nat)
    requires AllHex(s) && HexValue(b).Some?
    ensures Digits(s + [b], acc) == 16 * Digits(s, acc) + HexValue(b).value
  {
    if s == [] {
      assert s + [b] == [b];
    } else {
      assert (s + [b])[1..] == s[1..] + [b];
      DigitsAdd(s[1..], b, 16 * acc + HexValue(s[0]).value);
    }
  }

  lemma {:induction false} DigitsStop(s: seq<Byte>, b: Byte, acc: nat)
    requires AllHex(s) && HexValue(b).None?
    ensures Digits(s + [b], acc) == Digits(s, acc)
  {
    if s == [] {
      assert s + [b] == [b];
    } else {
      assert (s + [b])[1..] == s[1..] + [b];
      DigitsStop(s[1..], b, 16 * acc + HexValue(s[0]).value);
    }
  }

  lemma {:induction false} DigitsHex(n: nat)
    ensures Digits(Hex(n), 0) == n
  {
    if n < 16 {
      assert Hex(n) == [HexDigit(n)];
      assert Hex(n)[1..] == [];
    } else {
      DigitsHex(n / 16);
      HexIsHex(n / 16);
      DigitsAdd(Hex(n / 16), HexDigit(n % 16), 0);
    }
  }

  /** `strtoul` undoes `%zx`. */
  lemma StrtoulHex(n: nat)
    requires n <= ULONG_MAX
    ensures Strtoul16(Hex(n) + [CR]) == n
  {
    var s := Hex(n) + [CR];
    HexIsHex(n);
    assert s[0] == Hex(n)[0] && HexValue(s[0]).Some?;
    assert |s| >= 3 ==> s[1] == Hex(n)[1] && HexValue(s[1]).Some?;
    DigitsStop(Hex(n), CR, 0);
    DigitsHex(n);
  }

  /** `%zx` writes lower-case digits, without zeros in front. */
  lemma {:induction false} HexPlain(n: nat)
    ensures forall i :: 0 <= i < |Hex(n)| ==> 48 <= Hex(n)[i] <= 57 || 97 <= Hex(n)[i] <= 102
    ensures n > 0 ==> Hex(n)[0] != 48
  {
    if n >= 16 { HexPlain(n / 16); }
  }

  /** A hexadecimal digit and the case it is written in. */
  datatype Written = Written(digit: nat, upper: bool)

  function Octet(w: Written): (b: Byte)
    requires w.digit < 16
  {
    if w.digit < 10 then 48 + w.digit else if w.upper then 65 + (w.digit - 10) else 97 + (w.digit - 10)
  }

  predicate Numeral(ws: seq<Written>) {
    ws != [] && forall i :: 0 <= i < |ws| ==> ws[i].digit < 16
  }

  function Octets(ws: seq<Written>): seq<Byte>
    requires forall i :: 0 <= i < |ws| ==> ws[i].digit < 16
  {
    seq(|ws|, i requires 0 <= i < |ws| => Octet(ws[i]))
  }

  function Positional(ws: seq<Written>): nat {
    if ws == [] then 0 else 16 * Positional(ws[..|ws| - 1]) + ws[|ws| - 1].digit
  }

  lemma {:induction false} DigitsPositional(ws: seq<Written>)
    requires forall i :: 0 <= i < |ws| ==> ws[i].digit < 16
    ensures AllHex(Octets(ws)) && Digits(Octets(ws), 0) == Positional(ws)
  {
    if ws != [] {
      var front, last := ws[..|ws| - 1], ws[|ws| - 1];
      DigitsPositional(front);
      assert Octets(ws) == Octets(front) + [Octet(last)];
      DigitsAdd(Octets(front), Octet(last), 0);
    }
  }

  lemma DigitsOf(ws: seq<Written>)
    requires Numeral(ws)
    ensures
      var s := Octets(ws) + [CR];
      && !IsSpace(s[0]) && s[0] != 45 && s[0] != 43 && SkipPrefix(s) == s && Digits(s, 0) == Positional(ws)
      && HexValue(s[0]).Some?
  {
    hide Digits;
    var s := Octets(ws) + [CR];
    DigitsPositional(ws);
    assert s[0] == Octet(ws[0]) && HexValue(s[0]).Some?;
    assert |s| >= 3 ==> s[1] == Octet(ws[1]) && HexValue(s[1]).Some?;
    DigitsStop(Octets(ws), CR, 0);
  }

  lemma {:induction false} SkipsSpace(spaces: seq<Byte>, s: seq<Byte>)
    requires (forall i :: 0 <= i < |spaces| ==> spaces[i] in [9, 10, 11, 12, 13, 32]) && s != [] && !IsSpace(s[0])
    ensures SkipSpace(spaces + s) == s
  {
    if spaces == [] {
      assert spaces + s == s;
    } else {
      assert (spaces + s)[1..] == spaces[1..] + s;
      SkipsSpace(spaces[1..], s);
    }
  }

  const PLUS: Byte := 43
  const MINUS: Byte := 45

  /** The number that a size line is read as: white space in front of it does not count, nor does a
      prefix, the digits may be of either case and have zeros in front; a number that is too large is
      taken for the largest one, and a minus sign makes it the complement to 2^64. */
  lemma StrtoulText(spaces: seq<Byte>, sign: seq<Byte>, prefix: seq<Byte>, ws: seq<Written>)
    requires forall i :: 0 <= i < |spaces| ==> spaces[i] in [9, 10, 11, 12, 13, 32]
    requires sign == [] || sign == [PLUS] || sign == [MINUS]
    requires prefix == [] || prefix == [48, 120] || prefix == [48, 88]
    requires Numeral(ws)
    ensures
      var v := Positional(ws);
      Strtoul16(spaces + (sign + (prefix + (Octets(ws) + [CR])))) ==
          if v > ULONG_MAX then ULONG_MAX
          else if sign == [MINUS] && v > 0 then 0x1_0000_0000_0000_0000 - v
          else v
  {
    hide Digits, Octets, SkipSpace, Positional;
    var s := Octets(ws) + [CR];
    DigitsOf(ws);
    var t := prefix + s;
    assert prefix == [] ==> t == s;
    if prefix != [] { assert t[0] == 48 && t[1] == prefix[1] && t[2] == s[0] && t[2..] == s; }
    assert SkipPrefix(t) == s;
    var u := sign + t;
    if sign == [] {
      assert u == t;
    } else {
      assert u[0] == sign[0] && u[1..] == t;
    }
    SkipsSpace(spaces, u);
  }

  // ---------------------------------------------------------------- round trip

  /** Between two chunks, with `out` passed on so far. */
  ghost predicate Between(d: Decoder, out: seq<Byte>) {
    d.phase == Size && d.header == [] && d.delivered == out && d.total == |out|
  }

  lemma SizeLine(d: Decoder, out: seq<Byte>, n: nat, einval: bool)
    requires Between(d, out) && n < ULONG_MAX && (n == 0 ==> !einval)
    ensures
      var line := Hex(n) + [CR, LF];
      && Fold(d, false, line, einval) == Running(d.(header := Hex(n) + [CR], phase := Data, size := n, left := n))
      && !LastCr(d, false, line, einval)
  {
    hide Hex, Strtoul16, Fold, LastCr, AllHex;
    var front := Hex(n) + [CR];
    HexIsHex(n);
    StrtoulHex(n);
    FoldSize(d, false, front, einval);
    assert d.header + front == front;
    assert Hex(n) + [CR, LF] == front + [LF];
    FoldConcat(d, false, front, [LF], einval);
    LastConcat(d, false, front, [LF], einval);
    LineEnds(d.(header := front), einval);
  }

  lemma LineEnds(d: Decoder, einval: bool)
    requires d.phase == Size
    ensures Fold(d, true, [LF], einval) == EndSizeLine(d, true, einval) && !LastCr(d, true, [LF], einval)
  {
    assert [LF][1..] == [];
  }

  lemma {:induction false} LastConcat(d: Decoder, cr: bool, a: seq<Byte>, b: seq<Byte>, einval: bool)
    requires Fold(d, cr, a, einval).Running?
    ensures LastCr(d, cr, a + b, einval) == LastCr(Fold(d, cr, a, einval).d, LastCr(d, cr, a, einval), b, einval)
    decreases |a|
  {
    if a == [] {
      assert a + b == b;
    } else {
      assert (a + b)[1..] == a[1..] + b;
      LastConcat(StepByte(d, cr, a[0], einval).d, AfterCr(d, a[0]), a[1..], b, einval);
    }
  }

  lemma ChunkDecodes(d: Decoder, out: seq<Byte>, body: seq<Byte>, einval: bool)
    requires Between(d, out) && |body| < ULONG_MAX
    ensures
      var r := Fold(d, false, Chunk(body), einval);
      r.Running? && Between(r.d, out + body) && !LastCr(d, false, Chunk(body), einval)
  {
    if body == [] {
      assert out + body == out;
    } else {
      var n := |body|;
      var line := Hex(n) + [CR, LF];
      SizeLine(d, out, n, einval);
      var d1 := d.(header := Hex(n) + [CR], phase := Data, size := n, left := n);
      FoldData(d1, false, body, einval);
      var d2 := Deliver(d1, body);
      assert [CR, LF][1..] == [LF] && [LF][1..] == [];
      var d3 := d2.(phase := NBody);
      assert Fold(d2, false, [CR, LF], einval) == Fold(d3, false, [LF], einval) == Running(d3.(phase := Size));
      assert LastCr(d2, false, [CR, LF], einval) == LastCr(d3, false, [LF], einval) == false;
      FoldConcat(d, false, line, body, einval);
      LastConcat(d, false, line, body, einval);
      FoldConcat(d, false, line + body, [CR, LF], einval);
      LastConcat(d, false, line + body, [CR, LF], einval);
    }
  }

  lemma {:induction false} ChunksDecode(bodies: seq<seq<Byte>>, einval: bool)
    requires forall i :: 0 <= i < |bodies| ==> |bodies[i]| < ULONG_MAX
    ensures
      var r := Fold(START, false, Chunks(bodies), einval);
      r.Running? && Between(r.d, Bodies(bodies)) && !LastCr(START, false, Chunks(bodies), einval)
    decreases |bodies|
  {
    if bodies != [] {
      var front, last := bodies[..|bodies| - 1], bodies[|bodies| - 1];
      ChunksDecode(front, einval);
      var d := Fold(START, false, Chunks(front), einval).d;
      ChunkDecodes(d, Bodies(front), last, einval);
      FoldConcat(START, false, Chunks(front), Chunk(last), einval);
      LastConcat(START, false, Chunks(front), Chunk(last), einval);
    }
  }

  /** Decoding an encoding in one piece. */
  lemma WholeDecodes(bodies: seq<seq<Byte>>)
    requires forall i :: 0 <= i < |bodies| ==> |bodies[i]| < ULONG_MAX
    ensures
      var r := Fold(START, false, Encode(bodies), false);
      r.Running? && r.d.delivered == Bodies(bodies) && r.d.total == |Bodies(bodies)| && r.d.phase == Data &&
          r.d.size == 0
  {
    ChunksDecode(bodies, false);
    var d := Fold(START, false, Chunks(bodies), false).d;
    SizeLine(d, Bodies(bodies), 0, false);
    assert Hex(0) == [ZERO];
    var line := Hex(0) + [CR, LF];
    assert LAST_CHUNK == line + [CR, LF];
    FoldConcat(d, false, line, [CR, LF], false);
    var d1 := Fold(d, false, line, false).d;
    FoldDone(d1, LastCr(d, false, line, false), [CR, LF], false);
    FoldConcat(START, false, Chunks(bodies), LAST_CHUNK, false);
  }

  /** Round trip: any list of bodies, encoded and fed to the decoder in any buffers, comes
      out exactly as it went in, with `total_len` the number of octets passed on, if no
      buffer ends between the CR and the LF of a size line; if one does, decoding fails. */
  lemma ChunkedRoundTrip(bodies: seq<seq<Byte>>, bufs: seq<seq<Byte>>)
    requires forall i :: 0 <= i < |bodies| ==> |bodies[i]| < ULONG_MAX
    requires Concat(bufs) == Encode(bodies)
    ensures
      var r := DecodeAll(START, bufs, false);
      if CleanCuts(START, false, bufs, false)
      then r.Running? && r.d.delivered == Bodies(bodies) && r.d.total == |Bodies(bodies)|
      else r == Failed
  {
    WholeDecodes(bodies);
    SplitIff(START, false, bufs, false);
  }

  /** With `errno` left at `EINVAL` no encoding can be decoded, however it is cut into buffers. */
  lemma StaleErrnoFails(bodies: seq<seq<Byte>>, bufs: seq<seq<Byte>>)
    requires forall i :: 0 <= i < |bodies| ==> |bodies[i]| < ULONG_MAX
    requires Concat(bufs) == Encode(bodies)
    ensures DecodeAll(START, bufs, true) == Failed
  {
    WholeStaleFails(bodies);
    SplitIff(START, false, bufs, true);
  }

  /** The last size line reads 0. */
  lemma WholeStaleFails(bodies: seq<seq<Byte>>)
    requires forall i :: 0 <= i < |bodies| ==> |bodies[i]| < ULONG_MAX
    ensures Fold(START, false, Encode(bodies), true) == Failed
  {
    ChunksDecode(bodies, true);
    var d := Fold(START, false, Chunks(bodies), true).d;
    var front := [ZERO, CR];
    assert LAST_CHUNK == front + [LF, CR, LF];
    FoldSize(d, false, front, true);
    FoldConcat(d, false, front, [LF, CR, LF], true);
    assert Hex(0) + [CR] == d.header + front;
    StrtoulHex(0);
    FoldConcat(START, false, Chunks(bodies), LAST_CHUNK, true);
  }

  /** Such a buffer boundary indeed makes the decoder fail. */
  lemma CutSizeLineFails()
    ensures DecodeAll(START, [[49, CR], [LF, 97, CR, LF] + LAST_CHUNK], false) == Failed
  {
    var bufs := [[49, CR], [LF, 97, CR, LF] + LAST_CHUNK];
    FoldSize(START, false, [49, CR], false);
    CrMatters(Fold(START, false, [49, CR], false).d, bufs[1], false);
    assert bufs[1..] == [bufs[1]];
  }
}
