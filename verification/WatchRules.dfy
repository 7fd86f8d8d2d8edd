/** Which signals a watch gets: the rules of filters and the search for the first filter that
    fits (gdbus/watch.c). */
module WatchRules {
  import opened Basics

  /** What a watch asks of a signal, or what a signal has; unset fields match anything. */
  datatype Rule = Rule(name: Option<string>, owner: Option<string>, path: Option<string>,
                       interface: Option<string>, member: Option<string>, argument: Option<string>)

  predicate Fits(a: Option<string>, b: Option<string>) {
    a.None? || b.None? || a == b
  }

  /** The test of `filter_data_find`. */
  predicate Compatible(a: Rule, b: Rule) {
    && Fits(a.name, b.name) && Fits(a.owner, b.owner) && Fits(a.path, b.path)
    && Fits(a.interface, b.interface) && Fits(a.member, b.member) && Fits(a.argument, b.argument)
  }

  /** Some field is set in both rules and differs. */
  predicate Disagree(a: Rule, b: Rule) {
    || (a.name.Some? && b.name.Some? && a.name.value != b.name.value)
    || (a.owner.Some? && b.owner.Some? && a.owner.value != b.owner.value)
    || (a.path.Some? && b.path.Some? && a.path.value != b.path.value)
    || (a.interface.Some? && b.interface.Some? && a.interface.value != b.interface.value)
    || (a.member.Some? && b.member.Some? && a.member.value != b.member.value)
    || (a.argument.Some? && b.argument.Some? && a.argument.value != b.argument.value)
  }

  // ---------------------------------------------------------------- the first filter

  /** The first rule of a list that does not disagree. */
  function First(rs: seq<Rule>, r: Rule): (k: Option<nat>)
    ensures k.Some? ==> k.value < |rs| && !Disagree(rs[k.value], r)
    ensures forall j :: 0 <= j < (if k.Some? then k.value else |rs|) ==> Disagree(rs[j], r)
  {
    if rs == [] then None
    else if !Disagree(rs[0], r) then Some(0)
    else match First(rs[1..], r)
      case None => None
      case Some(k) =>
        assert forall j :: 1 <= j < |rs| ==> rs[j] == rs[1..][j - 1];
        Some(k + 1)
  }

  /** The rules of the filters after a watch has been added, and its filter. */
  function Added(rs: seq<Rule>, w: Rule): (seq<Rule>, nat) {
    match First(rs, w)
    case None => (rs + [w], |rs|)
    case Some(k) => (rs, k)
  }

  // ---------------------------------------------------------------- signals

  /** The fields that a signal has: its sender, path, interface, member and first argument. */
  function Seen(r: Rule): (s: seq<Option<string>>)
    ensures |s| == 5
  {
    [r.owner, r.path, r.interface, r.member, r.argument]
  }

  /** The values of a signal, and what `message_filter` looks it up by. */
  type Values = v: seq<string> | |v| == 5 witness ["", "", "", "", ""]

  function Signal(v: Values): Rule {
    Rule(None, Some(v[0]), Some(v[1]), Some(v[2]), Some(v[3]), Some(v[4]))
  }

  /** The watch asks for the signal: each field it sets has that value. */
  predicate Wants(w: Rule, v: Values) {
    forall i :: 0 <= i < 5 ==> Seen(w)[i].None? || Seen(w)[i].value == v[i]
  }

  lemma WantsIff(r: Rule, v: Values)
    ensures Disagree(r, Signal(v)) <==> !Wants(r, v)
  {
    assert Seen(r)[0] == r.owner && Seen(r)[1] == r.path && Seen(r)[2] == r.interface && Seen(r)[3] == r.member
           && Seen(r)[4] == r.argument;
  }

  /** The rules disagree in a field that signals have. */
  ghost predicate DisagreeSeen(a: Rule, b: Rule) {
    exists i :: 0 <= i < 5 && DifferAt(a, b, i)
  }

  predicate DifferAt(a: Rule, b: Rule, i: nat)
    requires i < 5
  {
    Seen(a)[i].Some? && Seen(b)[i].Some? && Seen(a)[i].value != Seen(b)[i].value
  }

  lemma DifferDisagree(a: Rule, b: Rule, i: nat)
    requires i < 5 && DifferAt(a, b, i)
    ensures Disagree(a, b)
  {
  }

  // ---------------------------------------------------------------- what a watch gets

  /** A watch in filter `k` gets exactly the signals it asks for. */
  ghost predicate GetsWanted(rs: seq<Rule>, k: nat, w: Rule) {
    forall v: Values :: First(rs, Signal(v)) == Some(k) <==> Wants(w, v)
  }

  /** The filter asks for what the watch asks for, and all filters before it for something else. */
  ghost predicate OwnFilter(rs: seq<Rule>, k: nat, w: Rule)
    requires k < |rs|
  {
    Seen(rs[k]) == Seen(w) && forall j :: 0 <= j < k ==> DisagreeSeen(rs[j], w)
  }

  lemma FirstIs(rs: seq<Rule>, v: Values, k: nat)
    requires k < |rs| && Wants(rs[k], v) && forall j :: 0 <= j < k ==> !Wants(rs[j], v)
    ensures First(rs, Signal(v)) == Some(k)
  {
    hide Disagree, Wants;
    WantsIff(rs[k], v);
    forall j | 0 <= j < k ensures Disagree(rs[j], Signal(v)) { WantsIff(rs[j], v); }
  }

  lemma FirstWants(rs: seq<Rule>, v: Values, k: nat)
    requires First(rs, Signal(v)) == Some(k)
    ensures k < |rs| && Wants(rs[k], v) && forall j :: 0 <= j < k ==> !Wants(rs[j], v)
  {
    hide Disagree, Wants;
    WantsIff(rs[k], v);
    forall j | 0 <= j < k ensures !Wants(rs[j], v) { WantsIff(rs[j], v); }
  }

  lemma DifferNotBoth(g: Rule, w: Rule, v: Values)
    requires DisagreeSeen(g, w) && Wants(w, v)
    ensures !Wants(g, v)
  {
  }

  lemma OwnFilterGets(rs: seq<Rule>, k: nat, w: Rule)
    requires k < |rs| && OwnFilter(rs, k, w)
    ensures GetsWanted(rs, k, w)
  {
    hide DisagreeSeen;
    forall v: Values ensures First(rs, Signal(v)) == Some(k) <==> Wants(w, v) {
      if Wants(w, v) {
        forall j | 0 <= j < k ensures !Wants(rs[j], v) { DifferNotBoth(rs[j], w, v); }
        FirstIs(rs, v, k);
      } else if First(rs, Signal(v)) == Some(k) {
        FirstWants(rs, v, k);
      }
    }
  }

  // Where the filter is not the watch's own some signal goes wrong.

  /** A value that both rules accept. */
  function Common(a: Rule, b: Rule, i: nat): string
    requires i < 5
  {
    if Seen(a)[i].Some? then Seen(a)[i].value else if Seen(b)[i].Some? then Seen(b)[i].value else ""
  }

  function CommonSignal(a: Rule, b: Rule): Values {
    seq(5, i requires 0 <= i < 5 => Common(a, b, i))
  }

  lemma CommonWanted(a: Rule, b: Rule)
    requires !DisagreeSeen(a, b)
    ensures Wants(a, CommonSignal(a, b)) && Wants(b, CommonSignal(a, b))
  {
    forall i | 0 <= i < 5 ensures Seen(b)[i].None? || Seen(b)[i].value == CommonSignal(a, b)[i] {
      assert !DifferAt(a, b, i);
    }
  }

  /** An earlier filter takes a signal that the watch asks for. */
  lemma TakenBefore(rs: seq<Rule>, k: nat, w: Rule, j: nat)
    requires j < k < |rs| && !DisagreeSeen(rs[j], w)
    ensures !GetsWanted(rs, k, w)
  {
    var v := CommonSignal(w, rs[j]);
    assert !DisagreeSeen(w, rs[j]) by {
      forall i | 0 <= i < 5 ensures !DifferAt(w, rs[j], i) { assert !DifferAt(rs[j], w, i); }
    }
    CommonWanted(w, rs[j]);
    if First(rs, Signal(v)) == Some(k) { FirstWants(rs, v, k); }
  }

  /** The filter is narrower than the watch: it misses a signal that the watch asks for. */
  lemma TooNarrow(rs: seq<Rule>, k: nat, w: Rule, i: nat)
    requires k < |rs| && i < 5 && Seen(w)[i].None? && Seen(rs[k])[i].Some?
    ensures !GetsWanted(rs, k, w)
  {
    var v: Values := CommonSignal(w, w)[i := Seen(rs[k])[i].value + "x"];
    assert Wants(w, v);
    assert |v[i]| != |Seen(rs[k])[i].value|;
    if First(rs, Signal(v)) == Some(k) { FirstWants(rs, v, k); }
  }

  /** A string longer than any value of field `i`. */
  function Bulk(rs: seq<Rule>, i: nat): (n: nat)
    requires i < 5
    ensures forall j :: 0 <= j < |rs| && Seen(rs[j])[i].Some? ==> |Seen(rs[j])[i].value| < n
  {
    if rs == [] then 0
    else
      var m, r := Bulk(rs[..|rs| - 1], i), Seen(rs[|rs| - 1])[i];
      assert forall j :: 0 <= j < |rs| - 1 ==> rs[j] == rs[..|rs| - 1][j];
      if r.Some? && |r.value| >= m then |r.value| + 1 else m
  }

  /** The filter is wider than the watch: it brings a signal that the watch does not ask for. */
  lemma TooWide(rs: seq<Rule>, k: nat, w: Rule, i: nat)
    requires k < |rs| && i < 5 && Seen(w)[i].Some? && Seen(rs[k])[i].None? && !DisagreeSeen(w, rs[k])
    requires forall j :: 0 <= j < k ==> DisagreeSeen(rs[j], w)
    ensures !GetsWanted(rs, k, w)
  {
    var y: string := seq(Bulk(rs + [w], i), _ => 'x');
    var v: Values := CommonSignal(w, rs[k])[i := y];
    Longer(rs, w, i, y);
    CommonWanted(w, rs[k]);
    assert Wants(rs[k], v);
    assert !Wants(w, v);
    forall j | 0 <= j < k ensures !Wants(rs[j], v) {
      var l :| 0 <= l < 5 && DifferAt(rs[j], w, l);
      if l != i { assert v[l] == Seen(w)[l].value; }
    }
    FirstIs(rs, v, k);
  }

  lemma Longer(rs: seq<Rule>, w: Rule, i: nat, y: string)
    requires i < 5 && |y| == Bulk(rs + [w], i)
    ensures Seen(w)[i].Some? ==> Seen(w)[i].value != y
    ensures forall j :: 0 <= j < |rs| && Seen(rs[j])[i].Some? ==> Seen(rs[j])[i].value != y
  {
    var all := rs + [w];
    assert all[|rs|] == w;
    assert forall j :: 0 <= j < |rs| ==> all[j] == rs[j];
  }

  lemma SeenDiffer(a: Rule, b: Rule) returns (i: nat)
    requires Seen(a) != Seen(b)
    ensures i < 5 && Seen(a)[i] != Seen(b)[i]
  {
    i :| 0 <= i < 5 && Seen(a)[i] != Seen(b)[i];
  }

  /** A watch that is added gets exactly the signals it asks for if and only if the filter it is put
      into asks for the same and all filters before that one ask for something else; for all lists of
      filters and all watches. */
  lemma GetsWantedIff(rs: seq<Rule>, w: Rule)
    ensures
      var (rs', k) := Added(rs, w);
      k < |rs'| && (GetsWanted(rs', k, w) <==> OwnFilter(rs', k, w))
  {
    hide GetsWanted, DisagreeSeen, Disagree, Seen;
    var (rs', k) := Added(rs, w);
    if OwnFilter(rs', k, w) {
      OwnFilterGets(rs', k, w);
    } else if j :| 0 <= j < k && !DisagreeSeen(rs'[j], w) {
      TakenBefore(rs', k, w, j);
    } else {
      var i := SeenDiffer(rs'[k], w);
      NotOther(rs, w);
      if Seen(w)[i].None? { TooNarrow(rs', k, w, i); } else { TooWide(rs', k, w, i); }
    }
  }

  lemma NotOther(rs: seq<Rule>, w: Rule)
    ensures
      var (rs', k) := Added(rs, w);
      && k < |rs'| && !DisagreeSeen(w, rs'[k])
      && forall i :: 0 <= i < 5 ==> Seen(rs'[k])[i].None? || Seen(w)[i].None? || Seen(rs'[k])[i] == Seen(w)[i]
  {
    hide Seen;
    var (rs', k) := Added(rs, w);
    assert !Disagree(rs'[k], w);
    forall i | 0 <= i < 5
      ensures !DifferAt(rs'[k], w, i) && !DifferAt(w, rs'[k], i)
      ensures Seen(rs'[k])[i].None? || Seen(w)[i].None? || Seen(rs'[k])[i] == Seen(w)[i]
    {
      if DifferAt(rs'[k], w, i) { DifferDisagree(rs'[k], w, i); }
    }
  }

  /** Filters that are added later change nothing about that. */
  lemma {:induction false} LaterFilters(rs: seq<Rule>, more: seq<Rule>, k: nat, r: Rule)
    requires k < |rs|
    ensures First(rs + more, r) == Some(k) <==> First(rs, r) == Some(k)
  {
    var all := rs + more;
    assert forall j :: 0 <= j < |rs| ==> all[j] == rs[j];
    var a, b := First(all, r), First(rs, r);
    if b.Some? { assert Disagree(all[b.value], r) <==> Disagree(rs[b.value], r); }
  }

  // ---------------------------------------------------------------- filters that are shared

  function Fields(r: Rule): (s: seq<Option<string>>)
    ensures |s| == 6
  {
    [r.name, r.owner, r.path, r.interface, r.member, r.argument]
  }

  /** Both watches can be in a filter with rule `f`, although they differ in a field that both set. */
  ghost predicate Shared(f: Rule, i: nat, a: Rule, b: Rule)
    requires i < 6
  {
    && !Disagree(f, a) && !Disagree(f, b)
    && Fields(a)[i].Some? && Fields(b)[i].Some? && Fields(a)[i].value != Fields(b)[i].value
  }

  /** Two watches that differ in a field never share a filter if and only if the rule of the filter
      sets that field. */
  lemma SharedIff(f: Rule, i: nat)
    requires i < 6
    ensures (forall a, b :: !Shared(f, i, a, b)) <==> Fields(f)[i].Some?
  {
    if Fields(f)[i].None? {
      var a, b := Only(i, "x"), Only(i, "y");
      OnlyFits(f, i, "x");
      OnlyFits(f, i, "y");
      assert "x"[0] != "y"[0];
      assert Shared(f, i, a, b);
    } else {
      forall a, b ensures !Shared(f, i, a, b) {
        if Shared(f, i, a, b) { FieldsAgree(f, a, i); FieldsAgree(f, b, i); }
      }
    }
  }

  /** A rule that sets one field. */
  function Only(i: nat, x: string): Rule {
    Rule(if i == 0 then Some(x) else None, if i == 1 then Some(x) else None, if i == 2 then Some(x) else None,
         if i == 3 then Some(x) else None, if i == 4 then Some(x) else None, if i == 5 then Some(x) else None)
  }

  lemma OnlyFits(f: Rule, i: nat, x: string)
    requires i < 6 && Fields(f)[i].None?
    ensures !Disagree(f, Only(i, x)) && Fields(Only(i, x))[i] == Some(x)
  {
  }

  lemma FieldsAgree(f: Rule, a: Rule, i: nat)
    requires i < 6 && !Disagree(f, a) && Fields(f)[i].Some? && Fields(a)[i].Some?
    ensures Fields(f)[i] == Fields(a)[i]
  {
  }

  /** After a watch for all signals of an interface, two watches for different members of it are put
      into its filter, and each gets the signals of the other. */
  lemma MembersShared()
    ensures
      var all := Rule(None, None, None, Some("i"), None, None);
      var a, b := all.(member := Some("a")), all.(member := Some("b"));
      && Added([], all) == ([all], 0) && Added([all], a) == ([all], 0) && Added([all], b) == ([all], 0)
      && First([all], Signal([":1", "/", "i", "a", ""])) == Some(0) && !Wants(b, [":1", "/", "i", "a", ""])
  {
    var all := Rule(None, None, None, Some("i"), None, None);
    var b := all.(member := Some("b"));
    assert [] + [all] == [all];
    assert "a"[0] != "b"[0];
    var v: Values := [":1", "/", "i", "a", ""];
    assert v[3] == "a" && Seen(b)[3] == Some("b");
  }
}
