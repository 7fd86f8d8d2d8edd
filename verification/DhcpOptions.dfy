/** Looking up an option in a DHCP packet (sections 3 and 9.3 of RFC 2132): the scan of
    `dhcp_get_option` over the option field and, as the overload option says, over `file`
    and `sname`. */
module DhcpOptions {
  import opened Basics

  const PADDING: Byte := 0x00
  const OVERLOAD: Byte := 0x34
  const END: Byte := 0xff

  /** The option-bearing fields of a packet. */
  datatype Fields = Fields(options: seq<Byte>, file: seq<Byte>, sname: seq<Byte>)

  datatype Where = InOptions | InFile | InSname

  /** The two bits of the overload value that the scan consults. */
  datatype Overload = Overload(file: bool, sname: bool)

  const NO_OVERLOAD := Overload(false, false)

  function Field(p: Fields, w: Where): seq<Byte> {
    match w case InOptions => p.options case InFile => p.file case InSname => p.sname
  }

  function With(ov: Overload, data: Byte): Overload {
    Overload(ov.file || data % 2 == 1, ov.sname || data / 2 % 2 == 1)
  }

  // ---------------------------------------------------------------- one field

  datatype Scan = Found(at: nat) | Malformed | Ended(overload: Overload)

  /** The scan of one field from octet `i` on.  An option whose length does not fit is
      malformed; so is a code in the last octet. */
  function ScanField(s: seq<Byte>, i: nat, code: Byte, ov: Overload): (r: Scan)
    ensures r.Found? ==> i + 2 <= r.at <= |s| && r.at + s[r.at - 1] <= |s| && s[r.at - 2] == code
    decreases |s| - i
  {
    if i >= |s| then Malformed
    else if s[i] == PADDING then ScanField(s, i + 1, code, ov)
    else if s[i] == END then Ended(ov)
    else if i + 1 >= |s| || i + 2 + s[i + 1] > |s| then Malformed
    else if s[i] == code then Found(i + 2)
    else ScanField(s, i + 2 + s[i + 1], code, if s[i] == OVERLOAD && i + 2 < |s| then With(ov, s[i + 2]) else ov)
  }

  // ---------------------------------------------------------------- the whole scan

  datatype Answer = Missing | At(field: Where, at: nat)

  /** The scan from octet `i` of a field on, changing fields at most `fuel` times; `None` if
      that is not enough. */
  function Lookup(p: Fields, code: Byte, w: Where, i: nat, ov: Overload, fuel: nat): Option<Answer>
    decreases fuel
  {
    match ScanField(Field(p, w), i, code, ov)
    case Found(at) => Some(At(w, at))
    case Malformed => Some(Missing)
    case Ended(ov) =>
      if ov.file then
        if fuel == 0 then None else Lookup(p, code, InFile, 0, ov.(file := false), fuel - 1)
      else if ov.sname then
        if fuel == 0 then None else Lookup(p, code, InSname, 0, ov.(sname := false), fuel - 1)
      else Some(Missing)
  }

  /** One octet, one option or one change of field at a time. */
  lemma LookupStep(p: Fields, code: Byte, w: Where, i: nat, ov: Overload, fuel: nat)
    ensures
      var s := Field(p, w);
      var r := Lookup(p, code, w, i, ov, fuel);
      if i >= |s| then r == Some(Missing)
      else if s[i] == PADDING then r == Lookup(p, code, w, i + 1, ov, fuel)
      else if s[i] == END then
        if ov.file then r == if fuel == 0 then None else Lookup(p, code, InFile, 0, ov.(file := false), fuel - 1)
        else if ov.sname then r == if fuel == 0 then None
            else Lookup(p, code, InSname, 0, ov.(sname := false), fuel - 1)
        else r == Some(Missing)
      else if i + 1 >= |s| || i + 2 + s[i + 1] > |s| then r == Some(Missing)
      else if s[i] == code then r == Some(At(w, i + 2))
      else
        var ov' := if s[i] == OVERLOAD && i + 2 < |s| then With(ov, s[i + 2]) else ov;
        r == Lookup(p, code, w, i + 2 + s[i + 1], ov', fuel)
  {
  }

  ghost predicate Halts(p: Fields, code: Byte) {
    exists fuel: nat :: Lookup(p, code, InOptions, 0, NO_OVERLOAD, fuel).Some?
  }

  predicate Ends(p: Fields, code: Byte, w: Where) {
    ScanField(Field(p, w), 0, code, NO_OVERLOAD).Ended?
  }

  /** The overload bits the options of a field set, if the scan gets to its end. */
  function Bits(p: Fields, code: Byte, w: Where): Overload {
    var r := ScanField(Field(p, w), 0, code, NO_OVERLOAD);
    if r.Ended? then r.overload else NO_OVERLOAD
  }

  /** The `sname` field, once entered, is entered for ever. */
  predicate SnameDiverges(p: Fields, code: Byte) {
    var f, s := Bits(p, code, InFile), Bits(p, code, InSname);
    && Ends(p, code, InSname)
    && if s.file then Ends(p, code, InFile) && (f.file || f.sname || s.sname) else s.sname
  }

  predicate FileDiverges(p: Fields, code: Byte, sname: bool) {
    var f := Bits(p, code, InFile);
    Ends(p, code, InFile) && (f.file || ((sname || f.sname) && SnameDiverges(p, code)))
  }

  /** The scan runs for ever: overload options inside `file` or `sname` send it in circles. */
  predicate Diverges(p: Fields, code: Byte) {
    var o := Bits(p, code, InOptions);
    if o.file then FileDiverges(p, code, o.sname) else o.sname && SnameDiverges(p, code)
  }

  /** The bits a field is entered with only add to those its options set. */
  lemma {:induction false} ScanBits(s: seq<Byte>, i: nat, code: Byte, ov: Overload, ov0: Overload)
    ensures
      var r, r0 := ScanField(s, i, code, ov), ScanField(s, i, code, ov0);
      match r0
      case Ended(b) => r.Ended? && (r.overload.file || ov0.file) == (b.file || ov.file) &&
          (r.overload.sname || ov0.sname) == (b.sname || ov.sname)
                       && (ov.file ==> r.overload.file) && (ov.sname ==> r.overload.sname)
                       && (ov0.file ==> b.file) && (ov0.sname ==> b.sname)
      case _ => r == r0
    decreases |s| - i
  {
    if i < |s| {
      if s[i] == PADDING {
        ScanBits(s, i + 1, code, ov, ov0);
      } else if s[i] != END && i + 1 < |s| && i + 2 + s[i + 1] <= |s| && s[i] != code {
        var data := if s[i] == OVERLOAD && i + 2 < |s| then s[i + 2] else 0;
        ScanBits(s, i + 2 + s[i + 1], code, if s[i] == OVERLOAD && i + 2 < |s| then With(ov, data) else ov,
                 if s[i] == OVERLOAD && i + 2 < |s| then With(ov0, data) else ov0);
      }
    }
  }

  lemma FieldScan(p: Fields, code: Byte, w: Where, ov: Overload)
    ensures
      var r := ScanField(Field(p, w), 0, code, ov);
      var b := Bits(p, code, w);
      r.Ended? == Ends(p, code, w) && (r.Ended? ==> r.overload == Overload(b.file || ov.file, b.sname || ov.sname))
  {
    ScanBits(Field(p, w), 0, code, ov, NO_OVERLOAD);
  }

  // Outside the diverging packets three changes of field are enough.

  lemma SnameHalts(p: Fields, code: Byte, fuel: nat)
    requires !SnameDiverges(p, code) && fuel >= 1
    ensures Lookup(p, code, InSname, 0, NO_OVERLOAD, fuel).Some?
  {
    FieldScan(p, code, InSname, NO_OVERLOAD);
    var s := Bits(p, code, InSname);
    FieldScan(p, code, InFile, Overload(false, s.sname));
  }

  lemma FileHalts(p: Fields, code: Byte, sname: bool, fuel: nat)
    requires !FileDiverges(p, code, sname) && fuel >= 2
    ensures Lookup(p, code, InFile, 0, Overload(false, sname), fuel).Some?
  {
    FieldScan(p, code, InFile, Overload(false, sname));
    if !SnameDiverges(p, code) { SnameHalts(p, code, fuel - 1); }
  }

  // Inside them no number is.

  lemma {:induction false} NeverHalts(p: Fields, code: Byte, w: Where, sname: bool, fuel: nat)
    requires w == InFile ==> FileDiverges(p, code, sname)
    requires w == InSname ==> !sname && SnameDiverges(p, code)
    requires w != InOptions
    ensures Lookup(p, code, w, 0, Overload(false, sname), fuel).None?
    decreases fuel
  {
    FieldScan(p, code, w, Overload(false, sname));
    var b := Bits(p, code, w);
    if fuel > 0 {
      if b.file {
        NeverHalts(p, code, InFile, sname || b.sname, fuel - 1);
      } else {
        NeverHalts(p, code, InSname, false, fuel - 1);
      }
    }
  }

  /** `dhcp_get_option` comes to an end if and only if the packet does not send it in
      circles, and then within three changes of field. */
  lemma HaltsIff(p: Fields, code: Byte)
    ensures Halts(p, code) <==> !Diverges(p, code)
    ensures !Diverges(p, code) ==> Lookup(p, code, InOptions, 0, NO_OVERLOAD, 3).Some?
  {
    FieldScan(p, code, InOptions, NO_OVERLOAD);
    var o := Bits(p, code, InOptions);
    if !Diverges(p, code) {
      if o.file { FileHalts(p, code, o.sname, 2); } else if o.sname { SnameHalts(p, code, 2); }
      assert Lookup(p, code, InOptions, 0, NO_OVERLOAD, 3).Some?;
    } else {
      forall fuel: nat ensures Lookup(p, code, InOptions, 0, NO_OVERLOAD, fuel).None? {
        if fuel > 0 {
          if o.file {
            NeverHalts(p, code, InFile, o.sname, fuel - 1);
          } else {
            NeverHalts(p, code, InSname, false, fuel - 1);
          }
        }
      }
    }
  }

  const OVERLOAD_FILE: seq<Byte> := [OVERLOAD, 1, 1, END]

  /** Such a packet is every one whose options start by overloading `file`, and whose `file` starts
      by overloading itself, whatever else it holds. */
  lemma SelfOverloadDiverges(p: Fields, code: Byte)
    requires code != OVERLOAD && OVERLOAD_FILE <= p.options && OVERLOAD_FILE <= p.file
    ensures !Halts(p, code)
  {
    StartsOverloading(p.options, code);
    StartsOverloading(p.file, code);
    HaltsIff(p, code);
  }

  lemma StartsOverloading(s: seq<Byte>, code: Byte)
    requires code != OVERLOAD && OVERLOAD_FILE <= s
    ensures ScanField(s, 0, code, NO_OVERLOAD) == Ended(Overload(true, false))
  {
    assert s[0] == OVERLOAD && s[1] == 1 && s[2] == 1 && s[3] == END;
    assert ScanField(s, 3, code, Overload(true, false)) == Ended(Overload(true, false));
  }

  lemma {:induction false} FuelIsEnough(p: Fields, code: Byte, w: Where, i: nat, ov: Overload, fuel: nat, more: nat)
    requires fuel <= more && Lookup(p, code, w, i, ov, fuel).Some?
    ensures Lookup(p, code, w, i, ov, more) == Lookup(p, code, w, i, ov, fuel)
    decreases fuel
  {
    match ScanField(Field(p, w), i, code, ov)
    case Found(_) =>
    case Malformed =>
    case Ended(b) =>
      if b.file {
        FuelIsEnough(p, code, InFile, 0, b.(file := false), fuel - 1, more - 1);
      } else if b.sname {
        FuelIsEnough(p, code, InSname, 0, b.(sname := false), fuel - 1, more - 1);
      }
  }

  /** The answer of the scan. */
  ghost function GetOption(p: Fields, code: Byte): (r: Answer)
    requires !Diverges(p, code)
  {
    HaltsIff(p, code);
    Lookup(p, code, InOptions, 0, NO_OVERLOAD, 3).value
  }

  /** However many changes of field are allowed, a lookup that comes to its end within them gives
      this answer; three are enough. */
  lemma HaltedIsGetOption(p: Fields, code: Byte, fuel: nat)
    ensures
      var r := Lookup(p, code, InOptions, 0, NO_OVERLOAD, fuel);
      && (r.Some? ==> !Diverges(p, code) && r.value == GetOption(p, code))
      && (r.None? && fuel >= 3 ==> Diverges(p, code))
  {
    HaltsIff(p, code);
    if Lookup(p, code, InOptions, 0, NO_OVERLOAD, fuel).Some? {
      var more := if fuel < 3 then 3 else fuel;
      FuelIsEnough(p, code, InOptions, 0, NO_OVERLOAD, fuel, more);
      FuelIsEnough(p, code, InOptions, 0, NO_OVERLOAD, 3, more);
    } else if !Diverges(p, code) && fuel >= 3 {
      FuelIsEnough(p, code, InOptions, 0, NO_OVERLOAD, 3, fuel);
    }
  }

  // ---------------------------------------------------------------- reference: first match

  /** An option of a field: its code and where its data lie. */
  datatype Opt = Opt(code: Byte, field: Where, at: nat)

  /** The options of a field in order, up to its end or its first malformed octet. */
  function OptionsOf(s: seq<Byte>, w: Where, i: nat): seq<Opt>
    decreases |s| - i
  {
    if i >= |s| || s[i] == END then []
    else if s[i] == PADDING then OptionsOf(s, w, i + 1)
    else if i + 1 >= |s| || i + 2 + s[i + 1] > |s| then []
    else [Opt(s[i], w, i + 2)] + OptionsOf(s, w, i + 2 + s[i + 1])
  }

  /** Whether a field is closed by an END option. */
  predicate Closed(s: seq<Byte>, i: nat)
    decreases |s| - i
  {
    if i >= |s| then false
    else if s[i] == END then true
    else if s[i] == PADDING then Closed(s, i + 1)
    else if i + 1 >= |s| || i + 2 + s[i + 1] > |s| then false
    else Closed(s, i + 2 + s[i + 1])
  }

  function OverloadOf(s: seq<Byte>, opts: seq<Opt>): Overload
  {
    if opts == [] then NO_OVERLOAD
    else
      var rest := OverloadOf(s, opts[1..]);
      if opts[0].code == OVERLOAD && opts[0].at < |s| then With(rest, s[opts[0].at]) else rest
  }

  function FirstMatch(opts: seq<Opt>, code: Byte): Answer {
    if opts == [] then Missing
    else if opts[0].code == code then At(opts[0].field, opts[0].at)
    else FirstMatch(opts[1..], code)
  }

  /** All options of a packet in the order of section 9.3: the option field, then `file`,
      then `sname`, as far as the overload option extends the option field to them. */
  function AllOptions(p: Fields): seq<Opt> {
    var opts := OptionsOf(p.options, InOptions, 0);
    var ov := if Closed(p.options, 0) then OverloadOf(p.options, opts) else NO_OVERLOAD;
    var file := if ov.file then OptionsOf(p.file, InFile, 0) else [];
    var sname := if ov.sname && (ov.file ==> Closed(p.file, 0)) then OptionsOf(p.sname, InSname, 0) else [];
    opts + file + sname
  }

  ghost predicate NoOverload(opts: seq<Opt>) {
    forall o :: o in opts ==> o.code != OVERLOAD
  }

  ghost predicate ScanMatches(s: seq<Byte>, w: Where, i: nat, code: Byte, ov: Overload) {
    var r := ScanField(s, i, code, ov);
    var opts := OptionsOf(s, w, i);
    match FirstMatch(opts, code)
    case At(f, at) => r == Found(at) && f == w
    case Missing =>
      if Closed(s, i) then
        var more := OverloadOf(s, opts);
        r == Ended(Overload(ov.file || more.file, ov.sname || more.sname))
      else r == Malformed
  }

  /** The scan of a field finds the first matching option, or ends with the field's bits. */
  lemma {:induction false} ScanIsFirstMatch(s: seq<Byte>, w: Where, i: nat, code: Byte, ov: Overload)
    ensures ScanMatches(s, w, i, code, ov)
    decreases |s| - i, 1
  {
    if i >= |s| || s[i] == END {
    } else if s[i] == PADDING {
      ScanIsFirstMatch(s, w, i + 1, code, ov);
    } else if i + 1 >= |s| || i + 2 + s[i + 1] > |s| {
    } else {
      ScanOption(s, w, i, code, ov);
    }
  }

  /** What the scan and the list of options make of one option. */
  lemma OneOption(s: seq<Byte>, w: Where, i: nat, code: Byte, ov: Overload)
    requires i + 1 < |s| && i + 2 + s[i + 1] <= |s| && s[i] != END && s[i] != PADDING
    ensures
      var j := i + 2 + s[i + 1];
      var ov' := if s[i] == OVERLOAD && i + 2 < |s| then With(ov, s[i + 2]) else ov;
      && OptionsOf(s, w, i) == [Opt(s[i], w, i + 2)] + OptionsOf(s, w, j)
      && Closed(s, i) == Closed(s, j)
      && ScanField(s, i, code, ov) == if s[i] == code then Found(i + 2) else ScanField(s, j, code, ov')
  {
  }

  lemma ScanOption(s: seq<Byte>, w: Where, i: nat, code: Byte, ov: Overload)
    requires i + 1 < |s| && i + 2 + s[i + 1] <= |s| && s[i] != END && s[i] != PADDING
    ensures ScanMatches(s, w, i, code, ov)
    decreases |s| - i, 0
  {
    hide OptionsOf, Closed, ScanField;
    var j := i + 2 + s[i + 1];
    var ov' := if s[i] == OVERLOAD && i + 2 < |s| then With(ov, s[i + 2]) else ov;
    OneOption(s, w, i, code, ov);
    var opts := OptionsOf(s, w, i);
    assert opts[1..] == OptionsOf(s, w, j);
    if s[i] != code { ScanIsFirstMatch(s, w, j, code, ov'); }
  }

  lemma {:induction false} NoBits(s: seq<Byte>, opts: seq<Opt>)
    requires NoOverload(opts)
    ensures OverloadOf(s, opts) == NO_OVERLOAD
  {
    if opts != [] { NoBits(s, opts[1..]); }
  }

  lemma {:induction false} FirstMatchConcat(a: seq<Opt>, b: seq<Opt>, code: Byte)
    ensures FirstMatch(a + b, code) == if FirstMatch(a, code) == Missing then FirstMatch(b, code)
        else FirstMatch(a, code)
  {
    if a == [] {
      assert a + b == b;
    } else {
      assert (a + b)[1..] == a[1..] + b;
      FirstMatchConcat(a[1..], b, code);
    }
  }

  lemma SnameAnswer(p: Fields, code: Byte, fuel: nat)
    requires NoOverload(OptionsOf(p.sname, InSname, 0))
    ensures Lookup(p, code, InSname, 0, NO_OVERLOAD, fuel) == Some(FirstMatch(OptionsOf(p.sname, InSname, 0), code))
  {
    hide ScanField, OptionsOf, FirstMatch, Closed;
    ScanIsFirstMatch(p.sname, InSname, 0, code, NO_OVERLOAD);
    NoBits(p.sname, OptionsOf(p.sname, InSname, 0));
  }

  lemma FileAnswer(p: Fields, code: Byte, sname: bool, fuel: nat)
    requires NoOverload(OptionsOf(p.file, InFile, 0)) && NoOverload(OptionsOf(p.sname, InSname, 0)) && fuel >= 1
    ensures
      var rest := if sname && Closed(p.file, 0) then OptionsOf(p.sname, InSname, 0) else [];
      Lookup(p, code, InFile, 0, Overload(false, sname), fuel) ==
          Some(FirstMatch(OptionsOf(p.file, InFile, 0) + rest, code))
  {
    hide ScanField, OptionsOf, Closed;
    ScanIsFirstMatch(p.file, InFile, 0, code, Overload(false, sname));
    NoBits(p.file, OptionsOf(p.file, InFile, 0));
    SnameAnswer(p, code, fuel - 1);
    var rest := if sname && Closed(p.file, 0) then OptionsOf(p.sname, InSname, 0) else [];
    FirstMatchConcat(OptionsOf(p.file, InFile, 0), rest, code);
  }

  lemma NoOverloadHalts(p: Fields, code: Byte)
    requires NoOverload(OptionsOf(p.file, InFile, 0)) && NoOverload(OptionsOf(p.sname, InSname, 0))
    ensures !Diverges(p, code)
  {
    ScanIsFirstMatch(p.file, InFile, 0, code, NO_OVERLOAD);
    ScanIsFirstMatch(p.sname, InSname, 0, code, NO_OVERLOAD);
    NoBits(p.file, OptionsOf(p.file, InFile, 0));
    NoBits(p.sname, OptionsOf(p.sname, InSname, 0));
  }

  /** For a packet whose `file` and `sname` carry no overload option the scan comes to an
      end and answers the first option with the code, in the order of section 9.3. */
  lemma GetOptionIsFirstMatch(p: Fields, code: Byte)
    requires NoOverload(OptionsOf(p.file, InFile, 0)) && NoOverload(OptionsOf(p.sname, InSname, 0))
    ensures !Diverges(p, code)
    ensures GetOption(p, code) == FirstMatch(AllOptions(p), code)
  {
    hide ScanField, OptionsOf, Closed, Diverges, OverloadOf;
    NoOverloadHalts(p, code);
    ScanIsFirstMatch(p.options, InOptions, 0, code, NO_OVERLOAD);
    var opts := OptionsOf(p.options, InOptions, 0);
    var ov := if Closed(p.options, 0) then OverloadOf(p.options, opts) else NO_OVERLOAD;
    var file := if ov.file then OptionsOf(p.file, InFile, 0) else [];
    var sname := if ov.sname && (ov.file ==> Closed(p.file, 0)) then OptionsOf(p.sname, InSname, 0) else [];
    assert AllOptions(p) == opts + (file + sname);
    FirstMatchConcat(opts, file + sname, code);
    assert file == [] ==> file + sname == sname;
    FileAnswer(p, code, ov.sname, 2);
    SnameAnswer(p, code, 2);
    HaltsIff(p, code);
  }

  /** A returned option lies wholly inside its field. */
  lemma {:induction false} LookupInside(p: Fields, code: Byte, w: Where, i: nat, ov: Overload, fuel: nat)
    ensures
      match Lookup(p, code, w, i, ov, fuel)
      case Some(At(f, at)) => 2 <= at <= |Field(p, f)| && at + Field(p, f)[at - 1] <= |Field(p, f)| &&
          Field(p, f)[at - 2] == code
      case _ => true
    decreases fuel
  {
    match ScanField(Field(p, w), i, code, ov)
    case Found(_) =>
    case Malformed =>
    case Ended(b) =>
      if fuel > 0 {
        if b.file { LookupInside(p, code, InFile, 0, b.(file := false), fuel - 1); }
        else if b.sname { LookupInside(p, code, InSname, 0, b.(sname := false), fuel - 1); }
      }
  }

  // ---------------------------------------------------------------- the values of the overload option

  /** The overload option of section 9.3: 1 extends the options to `file`, 2 to `sname`, and 3 to both,
      `file` first; any other value below 4 to none. For a packet whose first option it is, and no
      other option in front of END. */
  lemma OverloadValues(p: Fields, code: Byte, v: Byte, fuel: nat)
    requires [OVERLOAD, 1, v, END] <= p.options && v < 4 && code != OVERLOAD && fuel >= 3
    requires NoOverload(OptionsOf(p.file, InFile, 0)) && NoOverload(OptionsOf(p.sname, InSname, 0))
    ensures
      var file, sname := OptionsOf(p.file, InFile, 0), OptionsOf(p.sname, InSname, 0);
      Lookup(p, code, InOptions, 0, NO_OVERLOAD, fuel) ==
          Some(match v
               case 1 => FirstMatch(file, code)
               case 2 => FirstMatch(sname, code)
               case 3 => FirstMatch(file + (if Closed(p.file, 0) then sname else []), code)
               case _ => Missing)
  {
    hide OptionsOf, Closed, FirstMatch;
    var s := p.options;
    assert s[0] == OVERLOAD && s[1] == 1 && s[2] == v && s[3] == END;
    var ov := With(NO_OVERLOAD, v);
    assert ScanField(s, 0, code, NO_OVERLOAD) == ScanField(s, 3, code, ov) == Ended(ov);
    FileAnswer(p, code, ov.sname, fuel - 1);
    SnameAnswer(p, code, fuel - 1);
    assert OptionsOf(p.file, InFile, 0) + [] == OptionsOf(p.file, InFile, 0);
  }
}
