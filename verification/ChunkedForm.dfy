/** Exactly which streams the decoder of the chunked coding accepts, and what it passes on of them. */
module ChunkedForm {
  import opened Basics
  import opened Buffers
  import opened Chunked

  // ---------------------------------------------------------------- the form of a stream

  /** A chunk: its size line, up to the CR, and its body. */
  datatype Piece = Piece(line: seq<Byte>, body: seq<Byte>)

  /** The number that a size line stands for. */
  function SizeOf(line: seq<Byte>): nat {
    Strtoul16(line + [CR])
  }

  /** A size line has no LF and a number below the largest one. */
  predicate Line(line: seq<Byte>) {
    LF !in line && SizeOf(line) != ULONG_MAX
  }

  predicate Complete(p: Piece) {
    Line(p.line) && p.body != [] && |p.body| == SizeOf(p.line)
  }

  function Stream(ps: seq<Piece>): seq<Byte> {
    if ps == [] then []
    else Stream(ps[..|ps| - 1]) + ps[|ps| - 1].line + [CR, LF] + ps[|ps| - 1].body + [CR, LF]
  }

  function BodiesOf(ps: seq<Piece>): seq<Byte> {
    if ps == [] then [] else BodiesOf(ps[..|ps| - 1]) + ps[|ps| - 1].body
  }

  /** What comes behind the last complete chunk: a part of a size line, of a body or of the CR LF after
      a body, or the last chunk, of size zero, and anything behind its size line. */
  datatype Tail =
    | InLine(line: seq<Byte>)
    | InBody(line: seq<Byte>, part: seq<Byte>)
    | BodyEnd(line: seq<Byte>, part: seq<Byte>, cr: bool)
    | Over(line: seq<Byte>, rest: seq<Byte>)

  predicate TailOk(t: Tail, einval: bool) {
    match t
    case InLine(line) => LF !in line
    case InBody(line, part) => Line(line) && |part| < SizeOf(line)
    case BodyEnd(line, part, _) => Complete(Piece(line, part))
    case Over(line, _) => Line(line) && SizeOf(line) == 0 && !einval
  }

  function TailOctets(t: Tail): seq<Byte> {
    match t
    case InLine(line) => line
    case InBody(line, part) => line + [CR, LF] + part
    case BodyEnd(line, part, cr) => line + [CR, LF] + part + (if cr then [CR] else [])
    case Over(line, rest) => line + [CR, LF] + rest
  }

  function TailBody(t: Tail): seq<Byte> {
    match t case InLine(_) => [] case InBody(_, part) => part case BodyEnd(_, part, _) => part case Over(_, _) => []
  }

  /** The stream is chunks and a tail. */
  ghost predicate Formed(s: seq<Byte>, ps: seq<Piece>, t: Tail, einval: bool) {
    && (forall i :: 0 <= i < |ps| ==> Complete(ps[i])) && TailOk(t, einval)
    && s == Stream(ps) + TailOctets(t)
  }

  /** The decoder has passed on all bodies so far, and stands where the tail says. */
  ghost predicate Stands(d: Decoder, ps: seq<Piece>, t: Tail) {
    && d.delivered == BodiesOf(ps) + TailBody(t) && d.total == |d.delivered|
    && match t
       case InLine(line) => d.phase == Size && d.header == line
       case InBody(line, part) =>
         d.phase == Data && d.size == SizeOf(line) && d.left == d.size - |part| && d.header == line + [CR]
       case BodyEnd(_, _, cr) => d.phase == (if cr then NBody else RBody) && d.header == []
       case Over(line, rest) => d.phase == Data && d.size == 0
  }

  predicate EndsInCr(t: Tail) {
    t.InLine? && t.line != [] && t.line[|t.line| - 1] == CR
  }

  // ---------------------------------------------------------------- one octet more

  lemma NextLine(d: Decoder, ps: seq<Piece>, t: Tail, b: Byte, einval: bool) returns (t': Tail)
    requires t.InLine? && TailOk(t, einval) && Stands(d, ps, t) && StepByte(d, EndsInCr(t), b, einval).Running?
    ensures TailOk(t', einval) && TailOctets(t') == TailOctets(t) + [b]
    ensures Stands(StepByte(d, EndsInCr(t), b, einval).d, ps, t') && AfterCr(d, b) == EndsInCr(t')
  {
    hide Strtoul16, BodiesOf;
    if b != LF {
      t' := InLine(t.line + [b]);
    } else {
      var line := t.line[..|t.line| - 1];
      assert t.line == line + [CR];
      assert TailOctets(t) + [b] == line + [CR, LF];
      assert line + [CR, LF] + [] == line + [CR, LF];
      if SizeOf(line) == 0 { t' := Over(line, []); } else { t' := InBody(line, []); }
    }
  }

  lemma NextBody(d: Decoder, ps: seq<Piece>, t: Tail, b: Byte, einval: bool) returns (t': Tail)
    requires t.InBody? && TailOk(t, einval) && Stands(d, ps, t)
    ensures StepByte(d, false, b, einval).Running?
    ensures TailOk(t', einval) && TailOctets(t') == TailOctets(t) + [b]
    ensures Stands(StepByte(d, false, b, einval).d, ps, t') && !t'.InLine? && AfterCr(d, b) == false
  {
    hide Strtoul16, BodiesOf;
    var part := t.part + [b];
    assert d.delivered + [b] == BodiesOf(ps) + part;
    assert t.line + [CR, LF] + part == TailOctets(t) + [b];
    if |part| < SizeOf(t.line) {
      t' := InBody(t.line, part);
    } else {
      t' := BodyEnd(t.line, part, false);
      assert TailOctets(t') == t.line + [CR, LF] + part;
    }
  }

  lemma BodyOver(ps: seq<Piece>, t: Tail)
    requires t.BodyEnd? && t.cr
    ensures
      var ps' := ps + [Piece(t.line, t.part)];
      && Stream(ps') + [] == Stream(ps) + TailOctets(t) + [LF]
      && BodiesOf(ps') + [] == BodiesOf(ps) + TailBody(t)
  {
    var ps' := ps + [Piece(t.line, t.part)];
    assert ps'[..|ps'| - 1] == ps;
    assert [CR] + [LF] == [CR, LF];
    var l, p := t.line + [CR, LF], t.part;
    assert Stream(ps) + (l + p + [CR]) + [LF] == Stream(ps) + t.line + [CR, LF] + p + [CR, LF];
  }

  lemma Longer(ps: seq<Piece>, t: Tail, t': Tail, b: Byte)
    requires TailOctets(t') == TailOctets(t) + [b]
    ensures Stream(ps) + TailOctets(t') == Stream(ps) + TailOctets(t) + [b]
  {
  }

  /** Whatever octet the decoder takes, the stream keeps its form. */
  lemma Next(d: Decoder, s: seq<Byte>, ps: seq<Piece>, t: Tail, b: Byte, einval: bool)
    returns (ps': seq<Piece>, t': Tail)
    requires Formed(s, ps, t, einval) && Stands(d, ps, t) && StepByte(d, EndsInCr(t), b, einval).Running?
    ensures Formed(s + [b], ps', t', einval) && Stands(StepByte(d, EndsInCr(t), b, einval).d, ps', t')
    ensures AfterCr(d, b) == EndsInCr(t')
  {
    hide Strtoul16, Stream, BodiesOf;
    match t {
      case InLine(_) =>
        ps' := ps;
        t' := NextLine(d, ps, t, b, einval);
        Longer(ps, t, t', b);
      case InBody(_, _) =>
        ps' := ps;
        t' := NextBody(d, ps, t, b, einval);
        Longer(ps, t, t', b);
      case BodyEnd(line, part, cr) =>
        if cr {
          ps', t' := ps + [Piece(line, part)], InLine([]);
          BodyOver(ps, t);
        } else {
          ps', t' := ps, BodyEnd(line, part, true);
          assert line + [CR, LF] + part + [] + [CR] == line + [CR, LF] + part + [CR];
          Longer(ps, t, t', b);
        }
      case Over(line, rest) =>
        ps', t' := ps, Over(line, rest + [b]);
        assert line + [CR, LF] + (rest + [b]) == line + [CR, LF] + rest + [b];
        Longer(ps, t, t', b);
    }
  }

  /** A stream that is not refused has the form. */
  lemma {:induction false} AcceptedFormed(s: seq<Byte>, einval: bool) returns (ps: seq<Piece>, t: Tail)
    requires Fold(START, false, s, einval).Running?
    ensures Formed(s, ps, t, einval) && Stands(Fold(START, false, s, einval).d, ps, t)
    ensures LastCr(START, false, s, einval) == EndsInCr(t)
    decreases |s|
  {
    hide Formed, Stands, TailOk;
    if s == [] {
      ps, t := [], InLine([]);
      Nothing(einval);
    } else {
      var front, b := s[..|s| - 1], s[|s| - 1];
      assert s == front + [b];
      FoldConcat(START, false, front, [b], einval);
      var qs, u := AcceptedFormed(front, einval);
      var d := Fold(START, false, front, einval).d;
      LastConcat(START, false, front, [b], einval);
      OneOctet(d, EndsInCr(u), b, einval);
      ps, t := Next(d, front, qs, u, b, einval);
    }
  }

  lemma Nothing(einval: bool)
    ensures Formed([], [], InLine([]), einval) && Stands(START, [], InLine([]))
  {
  }

  lemma OneOctet(d: Decoder, cr: bool, b: Byte, einval: bool)
    ensures Fold(d, cr, [b], einval) == StepByte(d, cr, b, einval)
    ensures StepByte(d, cr, b, einval).Running? ==> LastCr(d, cr, [b], einval) == AfterCr(d, b)
  {
    assert [b][1..] == [];
  }

  // ---------------------------------------------------------------- streams of the form

  lemma LineDecodes(d: Decoder, line: seq<Byte>, einval: bool)
    requires d.phase == Size && d.header == [] && Line(line) && !(SizeOf(line) == 0 && einval)
    ensures
      var r := d.(header := line + [CR], phase := Data, size := SizeOf(line), left := SizeOf(line));
      Fold(d, false, line + [CR, LF], einval) == Running(r) && !LastCr(d, false, line + [CR, LF], einval)
  {
    hide Strtoul16, Fold, LastCr;
    var front := line + [CR];
    FoldSize(d, false, front, einval);
    assert d.header + front == front && line + [CR, LF] == front + [LF];
    FoldConcat(d, false, front, [LF], einval);
    LastConcat(d, false, front, [LF], einval);
    LineEnds(d.(header := front), einval);
  }

  /** Up to the end of a body. */
  lemma BodyDecodes(d: Decoder, out: seq<Byte>, line: seq<Byte>, part: seq<Byte>, einval: bool)
    requires Between(d, out) && Line(line) && |part| <= SizeOf(line) && SizeOf(line) != 0
    ensures
      var s := line + [CR, LF] + part;
      var r := Fold(d, false, s, einval);
      && r.Running? && !LastCr(d, false, s, einval) && r.d.delivered == out + part && r.d.total == |out + part|
      && if |part| < SizeOf(line) then
           r.d.phase == Data && r.d.size == SizeOf(line) && r.d.left == r.d.size - |part| && r.d.header == line + [CR]
         else r.d.phase == RBody && r.d.header == []
  {
    hide Strtoul16, Fold, LastCr;
    var n := SizeOf(line);
    LineDecodes(d, line, einval);
    var d1 := d.(header := line + [CR], phase := Data, size := n, left := n);
    FoldConcat(d, false, line + [CR, LF], part, einval);
    LastConcat(d, false, line + [CR, LF], part, einval);
    if part == [] {
      NoOctet(d1, false, einval);
      assert out + part == out;
    } else {
      FoldData(d1, false, part, einval);
    }
  }

  lemma NoOctet(d: Decoder, cr: bool, einval: bool)
    ensures Fold(d, cr, [], einval) == Running(d) && LastCr(d, cr, [], einval) == cr
  {
  }

  lemma CrLfDecodes(d: Decoder, einval: bool)
    requires d.phase == RBody
    ensures Fold(d, false, [CR], einval) == Running(d.(phase := NBody)) && !LastCr(d, false, [CR], einval)
    ensures Fold(d, false, [CR, LF], einval) == Running(d.(phase := Size)) && !LastCr(d, false, [CR, LF], einval)
  {
    OneOctet(d, false, CR, einval);
    OneOctet(d.(phase := NBody), false, LF, einval);
    assert [CR] + [LF] == [CR, LF];
    FoldConcat(d, false, [CR], [LF], einval);
    LastConcat(d, false, [CR], [LF], einval);
  }

  lemma PieceDecodes(d: Decoder, out: seq<Byte>, p: Piece, einval: bool)
    requires Between(d, out) && Complete(p)
    ensures
      var s := p.line + [CR, LF] + p.body + [CR, LF];
      var r := Fold(d, false, s, einval);
      r.Running? && Between(r.d, out + p.body) && !LastCr(d, false, s, einval)
  {
    hide Strtoul16, Fold, LastCr;
    var s := p.line + [CR, LF] + p.body;
    BodyDecodes(d, out, p.line, p.body, einval);
    FoldConcat(d, false, s, [CR, LF], einval);
    LastConcat(d, false, s, [CR, LF], einval);
    CrLfDecodes(Fold(d, false, s, einval).d, einval);
  }

  lemma {:induction false} StreamDecodes(ps: seq<Piece>, einval: bool)
    requires forall i :: 0 <= i < |ps| ==> Complete(ps[i])
    ensures
      var r := Fold(START, false, Stream(ps), einval);
      r.Running? && Between(r.d, BodiesOf(ps)) && !LastCr(START, false, Stream(ps), einval)
    decreases |ps|
  {
    hide Complete, Between;
    if ps == [] {
      NoOctet(START, false, einval);
      assert Between(START, []) by { NothingYet(); }
    } else {
      var front, p := ps[..|ps| - 1], ps[|ps| - 1];
      StreamDecodes(front, einval);
      PieceDecodes(Fold(START, false, Stream(front), einval).d, BodiesOf(front), p, einval);
      var s := p.line + [CR, LF] + p.body + [CR, LF];
      assert Stream(ps) == Stream(front) + s;
      FoldConcat(START, false, Stream(front), s, einval);
      LastConcat(START, false, Stream(front), s, einval);
    }
  }

  lemma NothingYet()
    ensures Between(START, [])
  {
  }

  lemma TailDecodes(d: Decoder, out: seq<Byte>, t: Tail, einval: bool)
    requires Between(d, out) && TailOk(t, einval)
    ensures
      var r := Fold(d, false, TailOctets(t), einval);
      r.Running? && r.d.delivered == out + TailBody(t)
  {
    hide Strtoul16, Fold, LastCr;
    assert out + [] == out;
    match t {
      case InLine(line) => FoldSize(d, false, line, einval);
      case InBody(line, part) => BodyDecodes(d, out, line, part, einval);
      case BodyEnd(line, part, cr) =>
        var s := line + [CR, LF] + part;
        BodyDecodes(d, out, line, part, einval);
        if cr {
          FoldConcat(d, false, s, [CR], einval);
          CrLfDecodes(Fold(d, false, s, einval).d, einval);
        } else {
          assert s + [] == s;
        }
      case Over(line, rest) =>
        LineDecodes(d, line, einval);
        FoldConcat(d, false, line + [CR, LF], rest, einval);
        FoldDone(Fold(d, false, line + [CR, LF], einval).d, false, rest, einval);
    }
  }

  lemma FormedAccepted(s: seq<Byte>, ps: seq<Piece>, t: Tail, einval: bool)
    requires Formed(s, ps, t, einval)
    ensures
      var r := Fold(START, false, s, einval);
      r.Running? && r.d.delivered == BodiesOf(ps) + TailBody(t)
  {
    hide TailOk;
    StreamDecodes(ps, einval);
    var d := Fold(START, false, Stream(ps), einval).d;
    TailDecodes(d, BodiesOf(ps), t, einval);
    FoldConcat(START, false, Stream(ps), TailOctets(t), einval);
  }

  /** A stream is accepted so far if and only if it is a sequence of chunks, each with a size line that
      ends in CR LF and reads as the number of octets in the body, and with CR LF after its body, up to a
      cut anywhere or to anything behind a size line that reads as zero; what has been passed on then is
      exactly the bodies. */
  lemma AcceptedIff(s: seq<Byte>, einval: bool)
    ensures Fold(START, false, s, einval).Running? <==> exists ps, t :: Formed(s, ps, t, einval)
    ensures forall ps, t :: Formed(s, ps, t, einval) ==>
              Fold(START, false, s, einval).Running? &&
              Fold(START, false, s, einval).d.delivered == BodiesOf(ps) + TailBody(t)
  {
    hide Formed, Stands;
    forall ps, t | Formed(s, ps, t, einval)
      ensures Fold(START, false, s, einval).Running?
      ensures Fold(START, false, s, einval).d.delivered == BodiesOf(ps) + TailBody(t)
    {
      FormedAccepted(s, ps, t, einval);
    }
    if Fold(START, false, s, einval).Running? { var ps, t := AcceptedFormed(s, einval); }
  }
}
