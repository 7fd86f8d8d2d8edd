/** Building the option field of a packet: every option is put where the END option was,
    and an option that does not fit is dropped. */
module OptionBuilder {
  import opened Basics
  import opened DhcpOptions

  const BUFSIZE := 308
  const EXTENSION := 80
  const FIELD := BUFSIZE + EXTENSION

  /** An option in binary form: code, length and data. */
  datatype Item = Item(code: Byte, data: seq<Byte>)

  /** Codes that do not break the option format, and do not overload. */
  predicate Proper(o: Item) {
    |o.data| < 256 && o.code != PADDING && o.code != END && o.code != OVERLOAD
  }

  ghost predicate AllProper(items: seq<Item>) {
    forall i :: 0 <= i < |items| ==> Proper(items[i])
  }

  function Binary(o: Item): seq<Byte>
    requires |o.data| < 256
  {
    [o.code, |o.data|] + o.data
  }

  function Encoded(items: seq<Item>): seq<Byte>
    requires AllProper(items)
  {
    if items == [] then [] else Binary(items[0]) + Encoded(items[1..])
  }

  /** `dhcp_end_option`: the index of the END option, `None` if the walk leaves the field. */
  function EndIndex(s: seq<Byte>, i: nat): Option<nat>
    decreases |s| - i
  {
    if i >= |s| then None
    else if s[i] == END then Some(i)
    else if s[i] == PADDING then EndIndex(s, i + 1)
    else if i + 1 >= |s| then None
    else EndIndex(s, i + 2 + s[i + 1])
  }

  /** `dhcp_add_binary_option`. */
  function AddOption(s: seq<Byte>, opt: seq<Byte>): (r: seq<Byte>)
    requires EndIndex(s, 0).Some? && |s| == FIELD && 2 <= |opt| <= 257
    ensures |r| == |s|
  {
    var end := EndIndex(s, 0).value;
    if end + |opt| + 1 >= BUFSIZE then s else s[..end] + opt + [END] + s[end + |opt| + 1..]
  }

  /** The field holds exactly these options, closed by END within its first 307 octets. */
  ghost predicate Holds(s: seq<Byte>, items: seq<Item>) {
    && AllProper(items) && |s| == FIELD
    && |Encoded(items)| <= BUFSIZE - 2
    && s[..|Encoded(items)|] == Encoded(items)
    && s[|Encoded(items)|] == END
  }

  /** The options a packet accepts: those that leave room for END. */
  function Accept(items: seq<Item>, o: Item): (r: seq<Item>)
    requires AllProper(items) && Proper(o)
    ensures AllProper(r)
  {
    if |Encoded(items)| + 2 + |o.data| + 1 >= BUFSIZE then items else items + [o]
  }

  /** The first option with a code. */
  function First(items: seq<Item>, code: Byte): Option<seq<Byte>> {
    if items == [] then None else if items[0].code == code then Some(items[0].data) else First(items[1..], code)
  }

  // ---------------------------------------------------------------- walking an encoded list

  /** The octets from `i` on are the encoding of `items`. */
  ghost predicate Lies(s: seq<Byte>, i: nat, items: seq<Item>)
    requires AllProper(items)
  {
    i + |Encoded(items)| <= |s| && s[i..i + |Encoded(items)|] == Encoded(items)
  }

  lemma {:induction false} EncodedAdd(items: seq<Item>, o: Item)
    requires AllProper(items) && Proper(o)
    ensures AllProper(items + [o]) && Encoded(items + [o]) == Encoded(items) + Binary(o)
  {
    hide Binary;
    if items == [] {
      assert items + [o] == [o] && [o][1..] == [];
      assert Binary(o) + [] == [] + Binary(o);
    } else {
      EncodedAdd(items[1..], o);
      assert (items + [o])[1..] == items[1..] + [o] && (items + [o])[0] == items[0];
      EncodedStep(items + [o]);
      assert Encoded(items + [o]) == Binary(items[0]) + (Encoded(items[1..]) + Binary(o));
    }
  }

  lemma EncodedStep(items: seq<Item>)
    requires AllProper(items) && items != []
    ensures Encoded(items) == Binary(items[0]) + Encoded(items[1..])
  {
  }

  lemma SplitSlice<T>(s: seq<T>, i: nat, a: seq<T>, b: seq<T>)
    requires i + |a| + |b| <= |s| && s[i..i + |a| + |b|] == a + b
    ensures s[i..i + |a|] == a && s[i + |a|..i + |a| + |b|] == b
  {
    var seg := s[i..i + |a| + |b|];
    assert seg[..|a|] == a && seg[|a|..] == b;
    assert seg[..|a|] == s[i..i + |a|] && seg[|a|..] == s[i + |a|..i + |a| + |b|];
  }

  lemma EncodedCons(items: seq<Item>)
    requires AllProper(items) && items != []
    ensures Encoded(items) == Binary(items[0]) + Encoded(items[1..])
  {
  }

  lemma BinaryLies(s: seq<Byte>, i: nat, o: Item)
    requires |o.data| < 256 && i + 2 + |o.data| <= |s| && s[i..i + 2 + |o.data|] == Binary(o)
    ensures s[i] == o.code && s[i + 1] == |o.data| && s[i + 2..i + 2 + |o.data|] == o.data
  {
    SplitSlice(s, i, [o.code, |o.data|], o.data);
    assert s[i..i + 2][0] == s[i] && s[i..i + 2][1] == s[i + 1];
  }

  lemma BinarySize(o: Item)
    requires |o.data| < 256
    ensures |Binary(o)| == 2 + |o.data|
  {
  }

  lemma LiesStep(s: seq<Byte>, i: nat, items: seq<Item>)
    requires AllProper(items) && items != [] && Lies(s, i, items)
    ensures
      var o := items[0];
      && i + 2 + |o.data| + |Encoded(items[1..])| == i + |Encoded(items)| <= |s|
      && s[i] == o.code && s[i + 1] == |o.data| && s[i + 2..i + 2 + |o.data|] == o.data
      && Lies(s, i + 2 + |o.data|, items[1..])
  {
    hide Encoded, Binary;
    EncodedCons(items);
    BinarySize(items[0]);
    SplitSlice(s, i, Binary(items[0]), Encoded(items[1..]));
    BinaryLies(s, i, items[0]);
  }

  lemma EncodedNone()
    ensures Encoded([]) == []
  {
  }

  lemma {:induction false} EndOfLies(s: seq<Byte>, i: nat, items: seq<Item>)
    requires AllProper(items) && Lies(s, i, items) && i + |Encoded(items)| < |s| && s[i + |Encoded(items)|] == END
    ensures EndIndex(s, i) == Some(i + |Encoded(items)|)
    decreases |items|
  {
    hide Encoded, Lies, Binary;
    if items == [] {
      EncodedNone();
    } else {
      LiesStep(s, i, items);
      EndOfLies(s, i + 2 + |items[0].data|, items[1..]);
    }
  }

  /** The scan finds the first option with a code, with its data, or gets to END. */
  lemma {:induction false} ScanOfLies(s: seq<Byte>, i: nat, items: seq<Item>, code: Byte, ov: Overload)
    requires AllProper(items) && Lies(s, i, items) && i + |Encoded(items)| < |s| && s[i + |Encoded(items)|] == END
    ensures
      var r := ScanField(s, i, code, ov);
      match First(items, code)
      case None => r == Ended(ov)
      case Some(data) =>
        r.Found? && r.at + |data| <= i + |Encoded(items)| && s[r.at - 1] == |data| && s[r.at..r.at + |data|] == data
    decreases |items|
  {
    hide Encoded, Lies, Binary;
    if items == [] {
      EncodedNone();
    } else {
      LiesStep(s, i, items);
      if items[0].code != code { ScanOfLies(s, i + 2 + |items[0].data|, items[1..], code, ov); }
    }
  }

  lemma HoldsLies(s: seq<Byte>, items: seq<Item>)
    requires Holds(s, items)
    ensures Lies(s, 0, items) && EndIndex(s, 0) == Some(|Encoded(items)|)
  {
    assert s[0..|Encoded(items)|] == s[..|Encoded(items)|];
    EndOfLies(s, 0, items);
  }

  // ---------------------------------------------------------------- adding

  /** Adding an option keeps the field in form and END at index 306 or below. */
  lemma AddHolds(s: seq<Byte>, items: seq<Item>, o: Item)
    requires Holds(s, items) && Proper(o)
    ensures EndIndex(s, 0).Some? && Holds(AddOption(s, Binary(o)), Accept(items, o))
  {
    HoldsLies(s, items);
    var e := Encoded(items);
    var r := AddOption(s, Binary(o));
    if |e| + 2 + |o.data| + 1 < BUFSIZE {
      EncodedAdd(items, o);
      assert r == e + Binary(o) + [END] + s[|e| + |Binary(o)| + 1..];
      assert r[..|e + Binary(o)|] == e + Binary(o);
    }
  }

  function AcceptAll(items: seq<Item>, more: seq<Item>): (r: seq<Item>)
    requires AllProper(items) && AllProper(more)
    ensures AllProper(r)
    decreases |more|
  {
    if more == [] then items else AcceptAll(Accept(items, more[0]), more[1..])
  }

  function AddAll(s: seq<Byte>, more: seq<Item>): Option<seq<Byte>>
    requires AllProper(more) && |s| == FIELD
    decreases |more|
  {
    if more == [] then Some(s)
    else if EndIndex(s, 0).None? then None
    else AddAll(AddOption(s, Binary(more[0])), more[1..])
  }

  /** So does any sequence of additions. */
  lemma {:induction false} AddAllHolds(s: seq<Byte>, items: seq<Item>, more: seq<Item>)
    requires Holds(s, items) && AllProper(more)
    ensures AddAll(s, more).Some? && Holds(AddAll(s, more).value, AcceptAll(items, more))
    decreases |more|
  {
    if more != [] {
      AddHolds(s, items, more[0]);
      AddAllHolds(AddOption(s, Binary(more[0])), Accept(items, more[0]), more[1..]);
    }
  }

  /** Only the first 308 octets of the field matter. */
  lemma HoldsPrefix(s: seq<Byte>, s': seq<Byte>, items: seq<Item>)
    requires Holds(s, items) && |s'| == FIELD && s'[..BUFSIZE] == s[..BUFSIZE]
    ensures Holds(s', items)
  {
    var n := |Encoded(items)|;
    assert s'[..n] == s'[..BUFSIZE][..n] && s[..n] == s[..BUFSIZE][..n];
    assert s'[n] == s'[..BUFSIZE][n] && s[n] == s[..BUFSIZE][n];
  }

  /** Looking an option up in such a field answers the first one accepted, and looks at
      nothing behind END. */
  lemma LookupHolds(p: Fields, items: seq<Item>, code: Byte)
    requires Holds(p.options, items)
    ensures !Diverges(p, code)
    ensures
      match First(items, code)
      case None => GetOption(p, code) == Missing
      case Some(data) =>
        var a := GetOption(p, code);
        && a.At? && a.field == InOptions && a.at + |data| < BUFSIZE - 1
        && 2 <= a.at && p.options[a.at - 1] == |data| && p.options[a.at..a.at + |data|] == data
  {
    HoldsLies(p.options, items);
    ScanOfLies(p.options, 0, items, code, NO_OVERLOAD);
    HaltsIff(p, code);
  }
}
