/** Streams of octets that arrive in buffers. */
module Buffers {
  import opened Basics

  /** The stream that a list of buffers carries. */
  function Concat(bufs: seq<seq<Byte>>): seq<Byte> {
    if bufs == [] then [] else bufs[0] + Concat(bufs[1..])
  }

  /** `memchr` from `ptr` on; the end of the buffer stands for "not found". */
  method Memchr(buf: seq<Byte>, ptr: nat, b: Byte) returns (pos: nat)
    requires ptr <= |buf|
    ensures ptr <= pos <= |buf| && b !in buf[ptr..pos] && (pos < |buf| ==> buf[pos] == b)
  {
    pos := ptr;
    while pos < |buf| && buf[pos] != b
      invariant ptr <= pos <= |buf| && b !in buf[ptr..pos]
    {
      pos := pos + 1;
    }
  }
}
