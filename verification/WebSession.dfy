/** The chunked coding of a session in gweb/gweb.c, on its fields. */
module WebSession {
  import opened Basics
  import opened Buffers
  import opened Chunked

  const EILSEQ := 84

  class Session {
    var phase: Phase
    var currentHeader: seq<Byte>
    var chunkSize: nat
    var chunkLeft: nat
    var totalLen: nat
    var sendBuffer: seq<Byte>
    var moreData: bool
    /** All octets handed to the result function so far. */
    ghost var delivered: seq<Byte>

    ghost function View(): Decoder
      reads this
    {
      Decoder(phase, currentHeader, chunkSize, chunkLeft, totalLen, delivered)
    }

    constructor ()
      ensures View() == START && sendBuffer == []
    {
      phase, currentHeader, chunkSize, chunkLeft, totalLen := Size, [], 0, 0, 0;
      sendBuffer, moreData, delivered := [], false, [];
    }

    // -------------------------------------------------------------- decoding

    /** The `CHUNK_SIZE` case: on to the end of the line or of the buffer. */
    method SizeLine(buf: seq<Byte>, ptr: nat, einval: bool) returns (err: int, next: nat)
      requires ptr < |buf| && phase == Size
      modifies this`phase, this`currentHeader, this`chunkSize, this`chunkLeft
      ensures err == 0 ==> ptr < next <= |buf| && (phase == Size ==> next == |buf|) && (phase == Size || phase == Data)
      ensures phase == Data && chunkSize != 0 ==> chunkLeft > 0
      ensures
        var r := Fold(old(View()), false, buf[ptr..], einval);
        if err != 0 then err == -EILSEQ && r == Failed else r == Fold(View(), false, buf[next..], einval)
    {
      ghost var d := View();
      var pos := Memchr(buf, ptr, LF);
      ghost var line := buf[ptr..pos];
      FoldSize(d, false, line, einval);
      if pos == |buf| {
        assert line == buf[ptr..];
        currentHeader := currentHeader + buf[ptr..];
        return 0, |buf|;
      }
      assert buf[ptr..] == line + buf[pos..];
      FoldConcat(d, false, line, buf[pos..], einval);
      ghost var d' := d.(header := d.header + line);
      ghost var cr := LastCr(d, false, line, einval);
      assert buf[pos..][0] == LF && buf[pos..][1..] == buf[pos + 1..];
      assert pos > ptr ==> line[|line| - 1] == buf[pos - 1];
      if pos - ptr < 1 || buf[pos - 1] != CR {
        return -EILSEQ, ptr;
      }
      currentHeader := currentHeader + buf[ptr..pos];
      assert View() == d';
      var counter := Strtoul16(currentHeader);
      if (counter == 0 && einval) || counter == ULONG_MAX {
        return -EILSEQ, ptr;
      }
      chunkSize := counter;
      chunkLeft := counter;
      phase := Data;
      return 0, pos + 1;
    }

    /** The `CHUNK_DATA` case: hand on what the buffer has of the chunk. */
    method DataPart(buf: seq<Byte>, ptr: nat, ghost einval: bool) returns (next: nat)
      requires ptr < |buf| && phase == Data && chunkSize != 0 && chunkLeft > 0
      modifies this`phase, this`currentHeader, this`chunkLeft, this`totalLen, this`delivered
      ensures ptr < next <= |buf| && Valid(View())
      ensures Fold(old(View()), false, buf[ptr..], einval) == Fold(View(), false, buf[next..], einval)
    {
      hide Fold;
      ghost var d := View();
      ghost var rest := buf[ptr..];
      var len := |buf| - ptr;
      if chunkLeft <= len {
        ghost var part := buf[ptr..ptr + chunkLeft];
        assert rest == part + buf[ptr + chunkLeft..];
        FoldData(d, false, part, einval);
        FoldConcat(d, false, part, buf[ptr + chunkLeft..], einval);
        delivered := delivered + part;
        next := ptr + chunkLeft;
        totalLen := totalLen + chunkLeft;
        chunkLeft := 0;
        currentHeader := [];
        phase := RBody;
      } else {
        FoldData(d, false, rest, einval);
        FoldNothing(Deliver(d, rest), einval);
        delivered := delivered + rest;
        chunkLeft := chunkLeft - len;
        totalLen := totalLen + len;
        next := |buf|;
        assert buf[next..] == [];
      }
    }

    static lemma FoldNothing(d: Decoder, einval: bool)
      ensures Fold(d, false, [], einval) == Running(d)
    {
    }

    /** `decode_chunked`: the result is that of the octet automaton. */
    method DecodeChunked(buf: seq<Byte>, einval: bool) returns (err: int)
      requires Valid(View())
      modifies this`phase, this`currentHeader, this`chunkSize, this`chunkLeft, this`totalLen, this`delivered
      ensures match DecodeBuffer(old(View()), buf, einval)
              case Failed => err == -EILSEQ
              case Running(d) => err == 0 && View() == d && Valid(d)
    {
      var ptr := 0;
      while ptr < |buf|
        invariant ptr <= |buf| && Valid(View())
        invariant DecodeBuffer(old(View()), buf, einval) == Fold(View(), false, buf[ptr..], einval)
      {
        ghost var rest := buf[ptr..];
        ghost var d := View();
        match phase {
          case Size =>
            var next;
            err, next := SizeLine(buf, ptr, einval);
            if err != 0 {
              return;
            }
            ptr := next;
          case RBody =>
            if buf[ptr] != CR {
              return -EILSEQ;
            }
            phase := NBody;
            ptr := ptr + 1;
          case NBody =>
            if buf[ptr] != LF {
              return -EILSEQ;
            }
            phase := Size;
            ptr := ptr + 1;
          case Data =>
            if chunkSize == 0 {
              FoldDone(d, false, rest, einval);
              currentHeader := [];
              return 0;
            }
            ptr := DataPart(buf, ptr, einval);
        }
      }
      return 0;
    }

    // -------------------------------------------------------------- encoding

    /** The body part of `start_request`: the first chunk of a chunked body, or a body of
        known length as it is. */
    method StartBody(body: seq<Byte>, more: bool)
      modifies this`sendBuffer, this`moreData
      ensures moreData == more && sendBuffer == old(sendBuffer) + if more then Chunk(body) else body
    {
      moreData := more;
      if |body| > 0 {
        if moreData {
          sendBuffer := sendBuffer + Hex(|body|) + [CR, LF];
          sendBuffer := sendBuffer + body;
          sendBuffer := sendBuffer + [CR, LF];
        } else {
          sendBuffer := sendBuffer + body;
        }
      }
    }

    /** `process_next_chunk` on what the input function returned. */
    method ProcessNextChunk(body: seq<Byte>, more: bool)
      modifies this`sendBuffer, this`moreData
      ensures moreData == more && sendBuffer == old(sendBuffer) + Chunk(body) + if more then [] else LAST_CHUNK
    {
      hide Hex;
      moreData := more;
      ghost var sent := sendBuffer;
      if |body| > 0 {
        sendBuffer := sendBuffer + Hex(|body|) + [CR, LF];
        sendBuffer := sendBuffer + body;
        sendBuffer := sendBuffer + [CR, LF];
      }
      assert sendBuffer == sent + Chunk(body);
      if !moreData {
        sendBuffer := sendBuffer + LAST_CHUNK;
      }
    }

    /** A whole chunked body: `start_request` and one `process_next_chunk` for every further
        part, all buffered. */
    method SendChunkedBody(bodies: seq<seq<Byte>>)
      requires |bodies| >= 2
      modifies this`sendBuffer, this`moreData
      ensures sendBuffer == old(sendBuffer) + Encode(bodies) && !moreData
    {
      hide Chunk;
      StartBody(bodies[0], true);
      ghost var sent := old(sendBuffer);
      assert bodies[..1][..0] == [];
      assert Chunks(bodies[..1]) == Chunk(bodies[0]);
      for i := 1 to |bodies|
        invariant sendBuffer == old(sendBuffer) + Chunks(bodies[..i]) + if i == |bodies| then LAST_CHUNK else []
        invariant moreData == (i < |bodies|)
      {
        assert bodies[..i + 1][..i] == bodies[..i];
        ghost var front := Chunks(bodies[..i]);
        assert Chunks(bodies[..i + 1]) == front + Chunk(bodies[i]);
        ProcessNextChunk(bodies[i], i + 1 < |bodies|);
        assert sent + front + Chunk(bodies[i]) == sent + (front + Chunk(bodies[i]));
      }
      assert bodies[..|bodies|] == bodies;
    }
  }
}
