/** The packed DHCP packet of gdhcp/common.h and the functions of gdhcp/common.c that write
    options into it and look them up. */
module DhcpPacket {
  import opened Basics
  import opened DhcpOptions
  import opened OptionBuilder

  // Offsets in the packed structure.
  const SNAME := 44
  const FILE := 108
  const COOKIE := 236
  const OPTIONS := 240
  const SIZE := OPTIONS + FIELD

  const BOOTREQUEST: Byte := 1
  const BOOTREPLY: Byte := 2
  const MESSAGE_TYPE: Byte := 0x35

  const MAGIC: seq<Byte> := [0x63, 0x82, 0x53, 0x63]

  function FieldsOf(b: seq<Byte>): Fields
    requires |b| == SIZE
  {
    Fields(b[OPTIONS..], b[FILE..COOKIE], b[SNAME..FILE])
  }

  function Offset(w: Where): nat {
    match w case InOptions => OPTIONS case InFile => FILE case InSname => SNAME
  }

  /** The types of options, and the length of one value of each: `dhcp_option_lengths`. */
  datatype OptionType = Unknown | IpType | StringType | U8Type | U16Type | U32Type

  function LengthOf(ty: OptionType): nat {
    match ty
    case Unknown => 0
    case IpType | U32Type => 4
    case U16Type => 2
    case StringType | U8Type => 1
  }

  /** The table `client_options`; that an option may be a list of values makes no difference to the
      length of one. */
  function TypeOf(code: Byte): OptionType {
    match code
    case 0x01 => IpType case 0x03 => IpType case 0x06 => IpType
    case 0x0c => StringType case 0x0f => StringType
    case 0x2a => IpType case 0x33 => U32Type
    case 0x32 => IpType case 0x35 => U8Type case 0x36 => U32Type case 0x39 => U16Type
    case 0x3c => StringType case 0x3d => StringType case 0xfc => StringType
    case _ => Unknown
  }

  /** The data length of the options that can be added as one number. */
  function OptionLength(code: Byte): (r: Option<nat>)
    ensures r.Some? ==> 1 <= r.value <= 4 && code != PADDING && code != OVERLOAD && code != END
  {
    var ty := TypeOf(code);
    if ty == Unknown then None else Some(LengthOf(ty))
  }

  /** Addresses, the lease time and the server identifier have four octets, the maximal size two, and
      the message type, like the names, of which only the first octet would fit, one; there is none of
      another code. */
  lemma OptionLengths(code: Byte)
    ensures OptionLength(code) == Some(4) <==> code in [1, 3, 6, 42, 50, 51, 54]
    ensures OptionLength(code) == Some(2) <==> code == 57
    ensures OptionLength(code) == Some(1) <==> code in [12, 15, 53, 60, 61, 252]
    ensures OptionLength(code) == None <==> code !in [1, 3, 6, 42, 50, 51, 54, 57, 12, 15, 53, 60, 61, 252]
  {
  }

  /** A number as a little-endian machine stores it. */
  function LittleEndian(n: U32): (r: seq<Byte>)
    ensures |r| == 4
  {
    [n % 256, n / 256 % 256, n / 65536 % 256, n / 16777216]
  }

  lemma LittleEndianValue(n: U32)
    ensures
      var r := LittleEndian(n);
      n == r[0] + 0x100 * (r[1] as int) + 0x1_0000 * (r[2] as int) + 0x100_0000 * (r[3] as int)
  {
  }

  function SimpleItem(code: Byte, data: U32): (o: Item)
    requires OptionLength(code).Some?
    ensures Proper(o)
  {
    Item(code, LittleEndian(data)[..OptionLength(code).value])
  }

  /** The header that all packets start with; everything else is zero. */
  ghost predicate BlankHeader(h: seq<Byte>, messageType: Byte) {
    && |h| == OPTIONS
    && h[0] == (if messageType in [2, 5, 6] then 2 else 1) && h[1] == 1 && h[2] == 6
    && (forall k :: 3 <= k < COOKIE ==> h[k] == 0)
    && h[COOKIE..] == MAGIC
  }

  class Packet {
    const buf: array<Byte>

    ghost predicate Valid()
      reads this
    {
      buf.Length == SIZE
    }

    constructor ()
      ensures Valid() && fresh(buf)
    {
      buf := new Byte[SIZE](_ => 0);
    }

    /** `dhcp_end_option`. */
    method EndOption() returns (i: nat)
      requires Valid() && EndIndex(buf[OPTIONS..], 0).Some?
      ensures EndIndex(buf[OPTIONS..], 0) == Some(i) && i < FIELD
    {
      ghost var s := buf[OPTIONS..];
      i := 0;
      while buf[OPTIONS + i] != END
        invariant i < FIELD && EndIndex(s, i) == EndIndex(s, 0)
        decreases FIELD - i
      {
        assert buf[OPTIONS + i] == s[i];
        if buf[OPTIONS + i] != PADDING {
          i := i + (buf[OPTIONS + i + 1] as int + 1);
        }
        i := i + 1;
      }
      assert buf[OPTIONS + i] == s[i];
    }

    /** `dhcp_add_binary_option`. */
    method AddBinaryOption(addopt: seq<Byte>)
      requires Valid() && EndIndex(buf[OPTIONS..], 0).Some? && 2 <= |addopt| == 2 + addopt[1] as int
      modifies buf
      ensures buf[..OPTIONS] == old(buf[..OPTIONS])
      ensures buf[OPTIONS..] == AddOption(old(buf[OPTIONS..]), addopt)
    {
      var end := EndOption();
      var len := 2 + addopt[1] as int;
      if end + len + 1 >= BUFSIZE {
        return;
      }
      ghost var s := buf[OPTIONS..];
      forall k | 0 <= k < len {
        buf[OPTIONS + end + k] := addopt[k];
      }
      buf[OPTIONS + end + len] := END;
      assert buf[OPTIONS..] == s[..end] + addopt + [END] + s[end + len + 1..];
    }

    /** `dhcp_add_simple_option`. */
    method AddSimpleOption(code: Byte, data: U32)
      requires Valid() && EndIndex(buf[OPTIONS..], 0).Some?
      modifies buf
      ensures buf[..OPTIONS] == old(buf[..OPTIONS])
      ensures buf[OPTIONS..] ==
              if OptionLength(code).Some? then AddOption(old(buf[OPTIONS..]), Binary(SimpleItem(code, data)))
              else old(buf[OPTIONS..])
    {
      var ty := OptionLength(code);
      if ty == None {
        return;
      }
      var option := [code, ty.value] + LittleEndian(data)[..ty.value];
      AddBinaryOption(option);
    }

    /** The fixed part of `dhcp_init_header`. */
    method FixedHeader(messageType: Byte)
      requires Valid()
      modifies buf
      ensures BlankHeader(buf[..OPTIONS], messageType) && buf[OPTIONS] == END
    {
      forall k | 0 <= k < SIZE {
        buf[k] := 0;
      }
      buf[0] := BOOTREQUEST;
      if messageType == DHCPOFFER || messageType == DHCPACK || messageType == DHCPNAK {
        buf[0] := BOOTREPLY;
      }
      buf[1], buf[2] := 1, 6;
      buf[COOKIE], buf[COOKIE + 1], buf[COOKIE + 2], buf[COOKIE + 3] := 0x63, 0x82, 0x53, 0x63;
      buf[OPTIONS] := END;
    }

    /** `dhcp_init_header`: the fixed part of the header, and the message type as the only
        option. */
    method InitHeader(messageType: Byte)
      requires Valid()
      modifies buf
      ensures BlankHeader(buf[..OPTIONS], messageType)
      ensures OptionBuilder.Holds(buf[OPTIONS..], [SimpleItem(MESSAGE_TYPE, messageType)])
    {
      hide BlankHeader;
      FixedHeader(messageType);
      ghost var s := buf[OPTIONS..];
      ghost var o := SimpleItem(MESSAGE_TYPE, messageType);
      BlankHolds(s);
      AddHolds(s, [], o);
      assert Accept([], o) == [o];
      AddSimpleOption(MESSAGE_TYPE, messageType);
      assert buf[OPTIONS..] == AddOption(s, Binary(o));
    }

    /** `dhcp_get_option`: one cursor moving through the option field and, after its end,
        through the fields that the overload bits name. */
    method GetOption(code: Byte) returns (r: Answer)
      requires Valid() && !Diverges(FieldsOf(buf[..]), code)
      ensures r == DhcpOptions.GetOption(FieldsOf(buf[..]), code)
    {
      hide Diverges, Halts, DhcpOptions.GetOption, Lookup, ScanField, FieldsOf, Field, Offset, With;
      ghost var p := FieldsOf(buf[..]);
      ghost var answer := DhcpOptions.GetOption(p, code);
      HaltedIsGetOption(p, code, 3);
      FieldSizes(buf[..]);
      var w, i: nat, overload := InOptions, 0, NO_OVERLOAD;
      var rem: nat := FIELD;
      ghost var fuel: nat := 3;
      while true
        invariant i + rem == |Field(p, w)|
        invariant Lookup(p, code, w, i, overload, fuel) == Some(answer)
        decreases fuel, rem
      {
        LookupStep(p, code, w, i, overload, fuel);
        if rem <= 0 {
          return Missing;
        }
        ByteOf(buf[..], w, i);
        if buf[Offset(w) + i] == PADDING {
          rem, i := rem - 1, i + 1;
          continue;
        }
        if buf[Offset(w) + i] == END {
          if overload.file {
            overload := overload.(file := false);
            w, i, rem := InFile, 0, COOKIE - FILE;
            fuel := fuel - 1;
            continue;
          } else if overload.sname {
            overload := overload.(sname := false);
            w, i, rem := InSname, 0, FILE - SNAME;
            fuel := fuel - 1;
            continue;
          }
          return Missing;
        }
        // With one octet left the length octet lies outside the field; whatever it is, the
        // option does not fit.
        if rem < 2 {
          return Missing;
        }
        ByteOf(buf[..], w, i + 1);
        var len := 2 + buf[Offset(w) + i + 1] as int;
        if rem < len {
          return Missing;
        }
        if buf[Offset(w) + i] == code {
          return At(w, i + 2);
        }
        if buf[Offset(w) + i] == OVERLOAD && 2 < rem {
          ByteOf(buf[..], w, i + 2);
          overload := With(overload, buf[Offset(w) + i + 2]);
        }
        rem, i := rem - len, i + len;
      }
    }
  }

  /** The sizes of section 2 of RFC 2131, and an option field of 388 octets. */
  lemma FieldSizes(b: seq<Byte>)
    requires |b| == SIZE
    ensures |Field(FieldsOf(b), InOptions)| == 388
    ensures |Field(FieldsOf(b), InFile)| == 128
    ensures |Field(FieldsOf(b), InSname)| == 64
  {
  }

  lemma ByteOf(b: seq<Byte>, w: Where, i: nat)
    requires |b| == SIZE && i < |Field(FieldsOf(b), w)|
    ensures Offset(w) + i < SIZE && b[Offset(w) + i] == Field(FieldsOf(b), w)[i]
  {
  }

  lemma BlankHolds(s: seq<Byte>)
    requires |s| == FIELD && s[0] == END
    ensures OptionBuilder.Holds(s, [])
  {
  }
}
