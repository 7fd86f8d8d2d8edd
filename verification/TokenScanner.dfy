/** The token scanner of gweb/gweb.c: it cuts the pieces from a begin token to an end token
    out of a stream that arrives in buffers. */
module TokenScanner {
  import opened Basics
  import opened Buffers

  datatype Tokens = Tokens(begin: seq<Byte>, end: seq<Byte>)

  /** The scanner's state, and the pieces it has handed out. */
  datatype Scanner = Scanner(inToken: bool, pos: nat, content: seq<Byte>, emitted: seq<seq<Byte>>)

  const START := Scanner(false, 0, [], [])

  predicate Proper(t: Tokens) {
    |t.begin| >= 2 && |t.end| >= 2
  }

  function Current(t: Tokens, s: Scanner): seq<Byte> {
    if s.inToken then t.end else t.begin
  }

  predicate Valid(t: Tokens, s: Scanner) {
    Proper(t) && s.pos < |Current(t, s)|
  }

  // ---------------------------------------------------------------- the automaton

  /** The current token is complete. */
  function Complete(t: Tokens, s: Scanner): Scanner {
    if !s.inToken then Scanner(true, 0, s.content + t.begin, s.emitted)
    else Scanner(false, 0, [], s.emitted + [s.content])
  }

  /** One octet: it is collected inside a piece, and moves the match on or ends it. */
  function StepByte(t: Tokens, s: Scanner, b: Byte): (r: Scanner)
    requires Valid(t, s)
    ensures Valid(t, r)
  {
    var chr := Current(t, s)[s.pos];
    var s := if s.inToken then s.(content := s.content + [b]) else s;
    if b != chr then s.(pos := 0)
    else if s.pos + 1 == |Current(t, s)| then Complete(t, s)
    else s.(pos := s.pos + 1)
  }

  function Fold(t: Tokens, s: Scanner, data: seq<Byte>): (r: Scanner)
    requires Valid(t, s)
    ensures Valid(t, r)
    decreases |data|
  {
    if data == [] then s else Fold(t, StepByte(t, s, data[0]), data[1..])
  }

  lemma {:induction false} FoldConcat(t: Tokens, s: Scanner, a: seq<Byte>, b: seq<Byte>)
    requires Valid(t, s)
    ensures Fold(t, s, a + b) == Fold(t, Fold(t, s, a), b)
    decreases |a|
  {
    if a == [] {
      assert a + b == b;
    } else {
      assert (a + b)[1..] == a[1..] + b;
      FoldConcat(t, StepByte(t, s, a[0]), a[1..], b);
    }
  }

  /** Octets without the first of the current token are only collected. */
  lemma {:induction false} FoldSkip(t: Tokens, s: Scanner, data: seq<Byte>)
    requires Valid(t, s) && s.pos == 0 && Current(t, s)[0] !in data
    ensures Fold(t, s, data) == Collect(s, data)
    decreases |data|
  {
    if data == [] {
      assert s.content + data == s.content;
    } else {
      var s' := StepByte(t, s, data[0]);
      FoldSkip(t, s', data[1..]);
      assert s.content + [data[0]] + data[1..] == s.content + data;
    }
  }

  function Collect(s: Scanner, data: seq<Byte>): Scanner {
    if s.inToken then s.(content := s.content + data) else s
  }

  lemma FoldFirst(t: Tokens, s: Scanner, data: seq<Byte>)
    requires Valid(t, s) && data != []
    ensures Fold(t, s, data) == Fold(t, StepByte(t, s, data[0]), data[1..])
  {
  }

  /** Skipping to the first octet of the token. */
  lemma FoldSeek(t: Tokens, s: Scanner, data: seq<Byte>, ptr: nat, pos: nat)
    requires Valid(t, s) && s.pos == 0 && ptr <= pos <= |data|
    requires Current(t, s)[0] !in data[ptr..pos] && (pos < |data| ==> data[pos] == Current(t, s)[0])
    ensures pos == |data| ==> Fold(t, s, data[ptr..]) == Fold(t, Collect(s, data[ptr..]), data[pos..])
    ensures pos < |data| ==>
            Fold(t, s, data[ptr..]) == Fold(t, Collect(s, data[ptr..pos + 1]).(pos := 1), data[pos + 1..])
  {
    hide Fold;
    var skipped := data[ptr..pos];
    assert data[ptr..] == skipped + data[pos..];
    FoldSkip(t, s, skipped);
    FoldConcat(t, s, skipped, data[pos..]);
    if pos == |data| {
      assert data[ptr..] == skipped;
    } else {
      assert data[ptr..pos + 1] == skipped + [data[pos]];
      assert s.content + skipped + [data[pos]] == s.content + data[ptr..pos + 1];
      assert data[pos..][1..] == data[pos + 1..];
      FoldFirst(t, Collect(s, skipped), data[pos..]);
      assert StepByte(t, Collect(s, skipped), data[pos]) == Collect(s, data[ptr..pos + 1]).(pos := 1);
    }
  }

  // ---------------------------------------------------------------- the parser object

  class Parser {
    const tokens: Tokens
    var inToken: bool
    var tokenPos: nat
    var content: seq<Byte>
    /** What the callback has been given. */
    ghost var emitted: seq<seq<Byte>>

    ghost function View(): Scanner
      reads this
    {
      Scanner(inToken, tokenPos, content, emitted)
    }

    /** `g_web_parser_new`. */
    constructor (tokens: Tokens)
      requires Proper(tokens)
      ensures this.tokens == tokens && View() == START
    {
      this.tokens := tokens;
      inToken, tokenPos, content, emitted := false, 0, [], [];
    }

    /** Looking for the first octet of the token by `memchr`. */
    method Seek(data: seq<Byte>, ptr: nat) returns (next: nat)
      requires Valid(tokens, View()) && tokenPos == 0 && ptr < |data|
      modifies this`tokenPos, this`content
      ensures Valid(tokens, View()) && ptr < next <= |data|
      ensures Fold(tokens, old(View()), data[ptr..]) == Fold(tokens, View(), data[next..])
    {
      hide Fold;
      var chr := if inToken then tokens.end[0] else tokens.begin[0];
      var pos := Memchr(data, ptr, chr);
      FoldSeek(tokens, View(), data, ptr, pos);
      if pos == |data| {
        if inToken {
          content := content + data[ptr..];
        }
        next := |data|;
        return;
      }
      if inToken {
        content := content + data[ptr..pos + 1];
      }
      tokenPos := tokenPos + 1;
      next := pos + 1;
    }

    /** One octet in the middle of a token. */
    method Match(b: Byte)
      requires Valid(tokens, View()) && tokenPos > 0
      modifies this
      ensures Valid(tokens, View()) && View() == StepByte(tokens, old(View()), b)
    {
      var token := if inToken then tokens.end else tokens.begin;
      if inToken {
        content := content + [b];
      }
      if b != token[tokenPos] {
        tokenPos := 0;
        return;
      }
      tokenPos := tokenPos + 1;
      if tokenPos == |token| {
        if !inToken {
          content := content + token;
          inToken := true;
        } else {
          emitted := emitted + [content];
          content := [];
          inToken := false;
        }
        tokenPos := 0;
      }
    }

    /** `g_web_parser_feed_data`. */
    method FeedData(data: seq<Byte>)
      requires Valid(tokens, View())
      modifies this
      ensures Valid(tokens, View()) && View() == Fold(tokens, old(View()), data)
    {
      var ptr := 0;
      assert data[0..] == data;
      while ptr < |data|
        invariant ptr <= |data| && Valid(tokens, View())
        invariant Fold(tokens, old(View()), data) == Fold(tokens, View(), data[ptr..])
      {
        if tokenPos == 0 {
          ptr := Seek(data, ptr);
        } else {
          assert data[ptr..][1..] == data[ptr + 1..];
          Match(data[ptr]);
          ptr := ptr + 1;
        }
      }
    }
  }

  // ---------------------------------------------------------------- any split

  function FeedAll(t: Tokens, s: Scanner, bufs: seq<seq<Byte>>): Scanner
    requires Valid(t, s)
    decreases |bufs|
  {
    if bufs == [] then s else FeedAll(t, Fold(t, s, bufs[0]), bufs[1..])
  }

  /** However the stream is cut into buffers, the state and the pieces are the same. */
  lemma {:induction false} SplitIndependent(t: Tokens, s: Scanner, bufs: seq<seq<Byte>>)
    requires Valid(t, s)
    ensures FeedAll(t, s, bufs) == Fold(t, s, Concat(bufs))
    decreases |bufs|
  {
    if bufs != [] {
      FoldConcat(t, s, bufs[0], Concat(bufs[1..]));
      SplitIndependent(t, Fold(t, s, bufs[0]), bufs[1..]);
    }
  }

  // ---------------------------------------------------------------- the pieces

  /** A piece lies in the stream from `from` up to `to`. */
  datatype Span = Span(from: nat, to: nat)

  predicate StartsWith(s: seq<Byte>, p: seq<Byte>) {
    |p| <= |s| && s[..|p|] == p
  }

  predicate EndsWith(s: seq<Byte>, p: seq<Byte>) {
    |p| <= |s| && s[|s| - |p|..] == p
  }

  predicate Piece(t: Tokens, s: seq<Byte>) {
    |s| >= |t.begin| + |t.end| && StartsWith(s, t.begin) && EndsWith(s, t.end)
  }

  /** The pieces are slices of the stream, in order and apart, each from a begin token to an
      end token. */
  ghost predicate Cut(t: Tokens, stream: seq<Byte>, pieces: seq<seq<Byte>>, spans: seq<Span>, limit: nat) {
    && |spans| == |pieces|
    && (forall i :: 0 <= i < |spans| ==> spans[i].from <= spans[i].to <= limit)
    && (forall i, j :: 0 <= i < j < |spans| ==> spans[i].to <= spans[j].from)
    && limit <= |stream|
    && (forall i :: 0 <= i < |spans| ==> stream[spans[i].from..spans[i].to] == pieces[i])
    && (forall i :: 0 <= i < |spans| ==> Piece(t, pieces[i]))
  }

  /** Where the scanner stands: a match of `pos` octets has begun, or the piece since `limit`
      is being collected. */
  ghost predicate Standing(t: Tokens, s: Scanner, stream: seq<Byte>, spans: seq<Span>, limit: nat) {
    && Valid(t, s) && Cut(t, stream, s.emitted, spans, limit)
    && if !s.inToken then
         && s.content == [] && limit + s.pos <= |stream| && stream[|stream| - s.pos..] == t.begin[..s.pos]
       else
         && s.content == stream[limit..] && StartsWith(s.content, t.begin)
         && |s.content| >= |t.begin| + s.pos && EndsWith(s.content, t.end[..s.pos])
  }

  lemma CutGrows(t: Tokens, stream: seq<Byte>, b: Byte, pieces: seq<seq<Byte>>, spans: seq<Span>, limit: nat,
          limit': nat)
    requires Cut(t, stream, pieces, spans, limit) && limit <= limit' <= |stream| + 1
    ensures Cut(t, stream + [b], pieces, spans, limit')
  {
    forall i | 0 <= i < |spans|
      ensures (stream + [b])[spans[i].from..spans[i].to] == pieces[i]
    {
      assert (stream + [b])[spans[i].from..spans[i].to] == stream[spans[i].from..spans[i].to];
    }
  }

  lemma SuffixGrows(s: seq<Byte>, token: seq<Byte>, pos: nat, b: Byte)
    requires pos < |token| && pos <= |s| && s[|s| - pos..] == token[..pos] && b == token[pos]
    ensures (s + [b])[|s| - pos..] == token[..pos + 1]
  {
    assert (s + [b])[|s| - pos..] == s[|s| - pos..] + [b];
    assert token[..pos + 1] == token[..pos] + [b];
  }

  lemma OutsideStep(t: Tokens, s: Scanner, stream: seq<Byte>, spans: seq<Span>, limit: nat, b: Byte)
    returns (limit': nat)
    requires Standing(t, s, stream, spans, limit) && !s.inToken
    ensures Standing(t, StepByte(t, s, b), stream + [b], spans, limit')
  {
    var s' := StepByte(t, s, b);
    limit' := limit;
    CutGrows(t, stream, b, s.emitted, spans, limit, limit);
    if b == t.begin[s.pos] {
      SuffixGrows(stream, t.begin, s.pos, b);
      if s.pos + 1 == |t.begin| {
        limit' := |stream| - s.pos;
        CutGrows(t, stream, b, s.emitted, spans, limit, limit');
        assert (stream + [b])[limit'..] == t.begin;
        assert t.begin[..|t.begin|] == t.begin && [] + t.begin == t.begin;
        assert t.begin[|t.begin|..] == [] == t.end[..0];
      }
    } else {
      assert (stream + [b])[|stream + [b]|..] == [] == t.begin[..0];
    }
  }

  lemma PrefixStays(s: seq<Byte>, b: Byte, p: seq<Byte>)
    requires StartsWith(s, p)
    ensures StartsWith(s + [b], p)
  {
    assert (s + [b])[..|p|] == s[..|p|];
  }

  lemma InsideStep(t: Tokens, s: Scanner, stream: seq<Byte>, spans: seq<Span>, limit: nat, b: Byte)
    returns (spans': seq<Span>, limit': nat)
    requires Standing(t, s, stream, spans, limit) && s.inToken
    ensures Standing(t, StepByte(t, s, b), stream + [b], spans', limit')
  {
    hide Standing, StepByte;
    StandingShape(t, s, stream, spans, limit);
    if b != t.end[s.pos] {
      spans', limit' := spans, limit;
      InsideBreaks(t, s, stream, spans, limit, b);
    } else if s.pos + 1 < |t.end| {
      spans', limit' := spans, limit;
      InsideGoesOn(t, s, stream, spans, limit, b);
    } else {
      spans', limit' := spans + [Span(limit, |stream| + 1)], |stream| + 1;
      InsideEnds(t, s, stream, spans, limit, b);
    }
  }

  lemma StandingShape(t: Tokens, s: Scanner, stream: seq<Byte>, spans: seq<Span>, limit: nat)
    requires Standing(t, s, stream, spans, limit) && s.inToken
    ensures s.pos < |t.end| && limit <= |stream|
  {
  }

  /** What stays while a piece is collected. */
  lemma InsideStays(t: Tokens, s: Scanner, stream: seq<Byte>, spans: seq<Span>, limit: nat, b: Byte)
    requires Standing(t, s, stream, spans, limit) && s.inToken
    ensures Cut(t, stream + [b], s.emitted, spans, limit)
    ensures (stream + [b])[limit..] == s.content + [b] && StartsWith(s.content + [b], t.begin)
  {
    PrefixStays(s.content, b, t.begin);
    CutGrows(t, stream, b, s.emitted, spans, limit, limit);
  }

  lemma InsideBreaks(t: Tokens, s: Scanner, stream: seq<Byte>, spans: seq<Span>, limit: nat, b: Byte)
    requires Standing(t, s, stream, spans, limit) && s.inToken && s.pos < |t.end| && b != t.end[s.pos]
    ensures Standing(t, StepByte(t, s, b), stream + [b], spans, limit)
  {
    hide Cut;
    InsideStays(t, s, stream, spans, limit, b);
    var content := s.content + [b];
    assert content[|content|..] == [] == t.end[..0];
  }

  lemma InsideGoesOn(t: Tokens, s: Scanner, stream: seq<Byte>, spans: seq<Span>, limit: nat, b: Byte)
    requires Standing(t, s, stream, spans, limit) && s.inToken && s.pos + 1 < |t.end| && b == t.end[s.pos]
    ensures Standing(t, StepByte(t, s, b), stream + [b], spans, limit)
  {
    hide Cut, StartsWith;
    InsideStays(t, s, stream, spans, limit, b);
    SuffixGrows(s.content, t.end, s.pos, b);
  }

  lemma InsideEnds(t: Tokens, s: Scanner, stream: seq<Byte>, spans: seq<Span>, limit: nat, b: Byte)
    requires Standing(t, s, stream, spans, limit) && s.inToken && s.pos + 1 == |t.end| && b == t.end[s.pos]
    ensures Standing(t, StepByte(t, s, b), stream + [b], spans + [Span(limit, |stream| + 1)], |stream| + 1)
  {
    hide Cut;
    InsideStays(t, s, stream, spans, limit, b);
    SuffixGrows(s.content, t.end, s.pos, b);
    var content := s.content + [b];
    assert t.end[..|t.end|] == t.end;
    assert EndsWith(content, t.end) && Piece(t, content);
    PieceAdded(t, stream + [b], s.emitted, spans, limit, content);
    assert (stream + [b])[|stream + [b]|..] == [] == t.begin[..0];
  }

  lemma PieceAdded(t: Tokens, stream: seq<Byte>, pieces: seq<seq<Byte>>, spans: seq<Span>, limit: nat, piece: seq<Byte>)
    requires Cut(t, stream, pieces, spans, limit) && stream[limit..] == piece && Piece(t, piece)
    ensures Cut(t, stream, pieces + [piece], spans + [Span(limit, |stream|)], |stream|)
  {
    assert stream[limit..|stream|] == piece;
  }

  /** Whatever is fed to a new scanner, the pieces it hands out are disjoint slices of the
      stream, in order, each starting with the begin token and ending with the end token. */
  lemma {:induction false} PiecesAreSlices(t: Tokens, stream: seq<Byte>) returns (spans: seq<Span>, limit: nat)
    requires Proper(t)
    ensures Standing(t, Fold(t, START, stream), stream, spans, limit)
    ensures Cut(t, stream, Fold(t, START, stream).emitted, spans, limit)
    decreases |stream|
  {
    if stream == [] {
      spans, limit := [], 0;
    } else {
      var front, b := stream[..|stream| - 1], stream[|stream| - 1];
      spans, limit := PiecesAreSlices(t, front);
      assert stream == front + [b];
      FoldConcat(t, START, front, [b]);
      var s := Fold(t, START, front);
      assert [b][1..] == [];
      assert Fold(t, s, [b]) == StepByte(t, s, b);
      if s.inToken {
        spans, limit := InsideStep(t, s, front, spans, limit, b);
      } else {
        limit := OutsideStep(t, s, front, spans, limit, b);
      }
    }
  }

  // ---------------------------------------------------------------- what is found

  /** The scanner comes to the end of its current token somewhere in `data`. */
  ghost predicate Completes(t: Tokens, s: Scanner, data: seq<Byte>)
    requires Valid(t, s)
  {
    exists k :: 0 <= k <= |data| && Fold(t, s, data[..k]).inToken != s.inToken
  }

  /** `data` is what the match under way is waiting for, as far as it goes. */
  ghost predicate Awaited(t: Tokens, s: Scanner, data: seq<Byte>) {
    forall i :: 0 <= i < |data| && s.pos + i < |Current(t, s)| ==> data[i] == Current(t, s)[s.pos + i]
  }

  /** Octets that go on with the match move it on. */
  lemma {:induction false} MatchGoesOn(t: Tokens, s: Scanner, data: seq<Byte>)
    requires Valid(t, s) && s.pos + |data| < |Current(t, s)| && Awaited(t, s, data)
    ensures Fold(t, s, data).inToken == s.inToken && Fold(t, s, data).pos == s.pos + |data|
    decreases |data|
  {
    if data != [] {
      var s' := StepByte(t, s, data[0]);
      assert forall i :: 0 <= i < |data[1..]| ==> data[1..][i] == data[i + 1];
      MatchGoesOn(t, s', data[1..]);
    }
  }

  /** Fewer octets than are missing do not complete the token, whatever they are. */
  lemma {:induction false} TooFew(t: Tokens, s: Scanner, data: seq<Byte>)
    requires Valid(t, s) && s.pos + |data| < |Current(t, s)|
    ensures Fold(t, s, data).inToken == s.inToken
    decreases |data|
  {
    if data != [] { TooFew(t, StepByte(t, s, data[0]), data[1..]); }
  }

  /** Feeding the first `j` octets and then `b`. */
  lemma FoldSnoc(t: Tokens, s: Scanner, data: seq<Byte>, j: nat)
    requires Valid(t, s) && j < |data|
    ensures Fold(t, s, data[..j + 1]) == StepByte(t, Fold(t, s, data[..j]), data[j])
  {
    assert data[..j + 1] == data[..j] + [data[j]];
    FoldConcat(t, s, data[..j], [data[j]]);
    assert [data[j]][1..] == [];
  }

  lemma Breaks(t: Tokens, s: Scanner, b: Byte)
    requires Valid(t, s) && b != Current(t, s)[s.pos]
    ensures StepByte(t, s, b).pos == 0 && StepByte(t, s, b).inToken == s.inToken
  {
  }

  /** The octet at `j` breaks the match, and from there the rest of the token is too short. */
  lemma BrokenMatch(t: Tokens, s: Scanner, w: seq<Byte>, j: nat, k: nat)
    requires Valid(t, s) && w == Current(t, s) && s.pos + j < |w| && k <= |w|
    requires Awaited(t, s, w[..j]) && w[j] != w[s.pos + j]
    ensures Fold(t, s, w[..k]).inToken == s.inToken
  {
    hide Fold, StepByte;
    if k <= j {
      assert Awaited(t, s, w[..k]) by { assert forall i :: 0 <= i < k ==> w[..k][i] == w[..j][i]; }
      MatchGoesOn(t, s, w[..k]);
    } else {
      MatchGoesOn(t, s, w[..j]);
      FoldSnoc(t, s, w, j);
      Breaks(t, Fold(t, s, w[..j]), w[j]);
      TooLate(t, s, w, j + 1, k);
    }
  }

  lemma TooLate(t: Tokens, s: Scanner, w: seq<Byte>, j: nat, k: nat)
    requires Valid(t, s) && w == Current(t, s) && 0 < j <= k <= |w|
    requires Fold(t, s, w[..j]).pos == 0 && Fold(t, s, w[..j]).inToken == s.inToken
    ensures Fold(t, s, w[..k]).inToken == s.inToken
  {
    hide Fold;
    assert w[..k] == w[..j] + w[j..k];
    FoldConcat(t, s, w[..j], w[j..k]);
    TooFew(t, Fold(t, s, w[..j]), w[j..k]);
  }

  /** The match under way gets all it is waiting for, or is broken at some place. */
  lemma {:induction false} FirstBreak(t: Tokens, s: Scanner, w: seq<Byte>, n: nat) returns (j: nat)
    requires Valid(t, s) && w == Current(t, s) && s.pos + n <= |w|
    ensures j <= n && Awaited(t, s, w[..j]) && (j < n ==> w[j] != w[s.pos + j])
  {
    if n == 0 {
      j := 0;
    } else {
      j := FirstBreak(t, s, w, n - 1);
      if j == n - 1 && w[j] == w[s.pos + j] {
        assert w[..n] == w[..j] + [w[j]];
        j := n;
      }
    }
  }

  /** The octet that breaks a match is not looked at again.  So a token is seen while it comes, be
      it the begin token outside a piece or the end token inside one, if and only if what is missing
      of the match under way is the beginning of the token itself; in particular, if no match is. */
  lemma TokenSeenIff(t: Tokens, s: Scanner)
    requires Valid(t, s)
    ensures
      var w := Current(t, s);
      Completes(t, s, w) <==> w[s.pos..] == w[..|w| - s.pos]
  {
    hide Fold, StepByte;
    var w := Current(t, s);
    var m := |w| - s.pos;
    var j := FirstBreak(t, s, w, m);
    if j == m {
      assert forall i :: 0 <= i < m ==> w[..m][i] == w[s.pos..][i];
      SeenInTime(t, s, w, m);
    } else {
      assert w[..m][j] != w[s.pos..][j];
      forall k | 0 <= k <= |w| ensures Fold(t, s, w[..k]).inToken == s.inToken { BrokenMatch(t, s, w, j, k); }
    }
  }

  lemma SeenInTime(t: Tokens, s: Scanner, w: seq<Byte>, m: nat)
    requires Valid(t, s) && w == Current(t, s) && m == |w| - s.pos && Awaited(t, s, w[..m])
    ensures Completes(t, s, w)
  {
    hide Fold;
    assert forall i :: 0 <= i < m - 1 ==> w[..m - 1][i] == w[..m][i];
    MatchGoesOn(t, s, w[..m - 1]);
    FoldSnoc(t, s, w, m - 1);
    assert w[m - 1] == w[..m][m - 1] == w[|w| - 1];
    assert Fold(t, s, w[..m]).inToken != s.inToken;
  }

  /** A token that comes while the match waits for another octet than the token's first is missed. */
  lemma TokenMissed(t: Tokens, s: Scanner)
    requires Valid(t, s) && s.pos > 0 && Current(t, s)[0] != Current(t, s)[s.pos]
    ensures !Completes(t, s, Current(t, s))
  {
    TokenSeenIff(t, s);
    var w := Current(t, s);
    assert w[s.pos..][0] != w[..|w| - s.pos][0];
  }
}
