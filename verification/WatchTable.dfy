/** The list of signal filters and the operations on it (gdbus/watch.c). */
module WatchTable {
  import opened Basics
  import opened WatchDispatch
  import opened WatchRules

  /** A filter: the watches for the signals that its rule matches. */
  class FilterData {
    const rule: Rule
    var callbacks: seq<nat>
    var processed: seq<nat>
    var lock: bool

    constructor (rule: Rule)
      ensures this.rule == rule && callbacks == [] && processed == [] && !lock
    {
      this.rule := rule;
      callbacks, processed, lock := [], [], false;
    }
  }

  /** The state of a filter in which `l` is the rest of its dispatch. */
  ghost predicate Matches(f: FilterData, last: nat, l: Local)
    reads f
  {
    f.lock && f.callbacks == l.todo && f.processed == l.done && last == l.last
  }

  /** The handler of a filter. For a service watch it knows whether the signal carries the three
      strings it should, whether the watched name is a unique bus name, and which watches lack the
      function for one of the two directions. */
  datatype Handler = Signal | Service(wellFormed: bool, busName: bool, oneSided: nat -> bool)

  /** The callbacks as the handler treats them: a one-sided watch for a unique bus name does not
      stay after its run. */
  function Effective(handler: Handler, script: Script): Script {
    match handler
    case Signal => script
    case Service(_, busName, oneSided) => (id: nat) => Reaction(script(id).acts, !(busName && oneSided(id)))
  }

  /** The handler rejects the signal: it returns before its loop. */
  predicate Rejects(handler: Handler) {
    handler.Service? && !handler.wellFormed
  }

  /** What the handler makes of a filter. */
  function Handled(l: Local, here: set<nat>, handler: Handler, script: Script): Local {
    if Rejects(handler) then l else Dispatch(l, here, Effective(handler, script))
  }

  /** The watches of a filter run as they should, and those that should stay, and no others of
      them, are its watches afterwards. */
  ghost predicate RunsAndKeeps(present: seq<nat>, script: Script, r: Local) {
    && r.ran == Expected(script, present, [])
    && forall x :: x in present ==> (x in r.done <==> x in r.ran && script(x).keep && x !in Gone(script, r.ran))
  }

  /** For a filter with watches that is so if and only if the handler does not reject the signal;
      if it does, no watch runs and none is left. */
  lemma HandledIff(handler: Handler, script: Script, here: set<nat>, present: seq<nat>, last: nat)
    requires present != [] && NoDup(present) && forall y :: y in present ==> y <= last
    ensures
      var r := Handled(Begin(present, last), here, handler, script);
      && (RunsAndKeeps(present, Effective(handler, script), r) <==> !Rejects(handler))
      && (Rejects(handler) ==> r.ran == [] && r.done == [])
  {
    hide Dispatch, Effective, Gone, Expected, NoDup;
    var s := Effective(handler, script);
    if Rejects(handler) {
      FirstExpected(s, present);
    } else {
      RunsExpected(s, here, present, last);
      forall x | x in present
        ensures var r := Dispatch(Begin(present, last), here, s);
                x in r.done <==> x in r.ran && s(x).keep && x !in Gone(s, r.ran)
      {
        PresentSurvive(s, here, present, last, x);
      }
    }
  }

  lemma {:induction false} GoneEffective(handler: Handler, script: Script, ids: seq<nat>)
    ensures Gone(Effective(handler, script), ids) == Gone(script, ids)
  {
    if ids != [] { GoneEffective(handler, script, ids[..|ids| - 1]); }
  }

  lemma {:induction false} ExpectedEffective(handler: Handler, script: Script, rest: seq<nat>, ran: seq<nat>)
    ensures Expected(Effective(handler, script), rest, ran) == Expected(script, rest, ran)
    decreases |rest|
  {
    hide Gone, Effective;
    if rest != [] {
      GoneEffective(handler, script, ran);
      ExpectedEffective(handler, script, rest[1..], ran);
      ExpectedEffective(handler, script, rest[1..], ran + [rest[0]]);
    }
  }

  /** A well-formed NameOwnerChanged signal: the watches of the name run as they would for a signal,
      and one that ran stays unless a callback removed it, or the name is a unique one and the watch is
      for one direction only; whether its callback wants to stay does not matter. */
  lemma ServiceKeeps(busName: bool, oneSided: nat -> bool, script: Script, here: set<nat>, present: seq<nat>,
                     last: nat, x: nat)
    requires NoDup(present) && (forall y :: y in present ==> y <= last) && x in present
    ensures
      var r := Handled(Begin(present, last), here, Service(true, busName, oneSided), script);
      && r.ran == Expected(script, present, [])
      && (x in r.done <==> x in r.ran && x !in Gone(script, r.ran) && !(busName && oneSided(x)))
  {
    hide Dispatch, Gone, Expected, NoDup;
    var handler := Service(true, busName, oneSided);
    var s := Effective(handler, script);
    RunsExpected(s, here, present, last);
    PresentSurvive(s, here, present, last, x);
    ExpectedEffective(handler, script, present, []);
    GoneEffective(handler, script, Expected(script, present, []));
  }

  lemma SignalEffective(script: Script)
    ensures Effective(Signal, script) == script
  {
  }

  /** A NameOwnerChanged signal without its three arguments takes all watches of its filter with it:
      here two, of which none has run. */
  lemma RejectedSignalDrops(script: Script)
    ensures
      var r := Handled(Begin([1, 2], 2), {}, Service(false, true, _ => true), script);
      r.ran == [] && r.done == [] && Expected(script, [1, 2], []) != []
  {
    FirstExpected(script, [1, 2]);
  }

  lemma FirstExpected(script: Script, present: seq<nat>)
    requires present != []
    ensures Expected(script, present, []) != []
  {
    ExpectedGrows(script, present[1..], [present[0]]);
    assert [] + [present[0]] == [present[0]];
  }

  lemma {:induction false} ExpectedGrows(script: Script, rest: seq<nat>, ran: seq<nat>)
    ensures ran <= Expected(script, rest, ran)
    decreases |rest|
  {
    if rest != [] {
      ExpectedGrows(script, rest[1..], ran);
      ExpectedGrows(script, rest[1..], ran + [rest[0]]);
    }
  }

  class Watches {
    var listeners: seq<FilterData>
    var listenerId: nat
    /** Which filter a watch belongs to. */
    ghost var owner: map<nat, FilterData>
    /** The filters there are or have been. */
    ghost var Repr: set<FilterData>

    constructor ()
      ensures Valid() && listeners == [] && listenerId == 0
    {
      listeners, listenerId, owner, Repr := [], 0, map[], {};
    }

    ghost predicate Valid()
      reads this, Repr
    {
      ValidBut(null)
    }

    /** No filter is listed twice, no watch is listed twice, and a filter at rest has watches,
        but perhaps `d`. */
    ghost predicate ValidBut(d: FilterData?)
      reads this, Repr
    {
      && (forall f :: f in listeners ==> f in Repr)
      && Distinct(listeners)
      && (forall id :: id in owner ==> id <= listenerId)
      && forall f :: f in listeners ==> Sound(f) && (f != d && !f.lock ==> f.callbacks != [])
    }

    ghost predicate Sound(f: FilterData)
      reads this`owner, this`listenerId, f
    {
      && NoDup(f.callbacks) && NoDup(f.processed)
      && (forall x :: x in f.callbacks ==> x !in f.processed && Owns(f, x))
      && (forall x :: x in f.processed ==> Owns(f, x))
      && (!f.lock ==> f.processed == [])
    }

    ghost predicate Owns(f: FilterData, x: nat)
      reads this`owner, this`listenerId
    {
      0 < x <= listenerId && x in owner && owner[x] == f
    }

    /** The watches that have ever been added to a filter. */
    ghost function Landed(f: FilterData): set<nat>
      reads this`owner
    {
      set id | id in owner && owner[id] == f
    }

    /** What has been added to the filter before stays so. */
    twostate predicate Later(f: FilterData)
      reads this
    {
      old(listenerId) <= listenerId && Agree(old(Landed(f)), Landed(f), old(listenerId))
    }

    predicate Has(f: FilterData, x: nat)
      reads f
    {
      x in f.callbacks || x in f.processed
    }

    /** `f` is what it was, but for the watch `x`. */
    twostate predicate Lost(f: FilterData, x: nat)
      reads f
    {
      && f.callbacks == ListRemove(old(f.callbacks), x)
      && f.processed == ListRemove(old(f.processed), x)
      && f.lock == old(f.lock)
    }

    twostate predicate Gained(f: FilterData, x: nat)
      reads f
    {
      && f.lock == old(f.lock)
      && f.callbacks == (if f.lock then old(f.callbacks) else old(f.callbacks) + [x])
      && f.processed == (if f.lock then old(f.processed) + [x] else old(f.processed))
    }

    /** The first filter whose rule is compatible, or a new one at the end of the list if there is
        none. */
    method FilterDataGet(rule: Rule) returns (data: FilterData)
      requires Valid()
      modifies this`listeners, this`Repr
      ensures fresh(Repr - old(Repr)) && old(Repr) <= Repr
      ensures ValidBut(data) && data in listeners
      ensures if data in old(listeners) then listeners == old(listeners) && FirstMatch(listeners, rule, data)
              else
                && fresh(data) && listeners == old(listeners) + [data] && data.rule == rule
                && data.callbacks == [] && !data.lock && NoMatch(old(listeners), rule)
    {
      var k := 0;
      while k < |listeners|
        invariant k <= |listeners|
        invariant forall j :: 0 <= j < k ==> Disagree(listeners[j].rule, rule)
      {
        if Compatible(listeners[k].rule, rule) { return listeners[k]; }
        k := k + 1;
      }
      data := new FilterData(rule);
      listeners := listeners + [data];
      Repr := Repr + {data};
    }

    method NewId(data: FilterData) returns (id: nat)
      requires ValidBut(data) && data in listeners
      modifies this`listenerId, this`owner
      ensures ValidBut(data) && id == listenerId == old(listenerId) + 1 && owner == old(owner)[id := data]
      ensures Owns(data, id) && id !in data.callbacks && id !in data.processed
    {
      hide Distinct, NoDup;
      assert forall f, x :: f in listeners && x in f.callbacks ==> Owns(f, x);
      assert forall f, x :: f in listeners && x in f.processed ==> Owns(f, x);
      listenerId := listenerId + 1;
      id := listenerId;
      owner := owner[id := data];
      assert forall f, x :: f in listeners && old(Owns(f, x)) ==> Owns(f, x);
    }

    /** A new watch gets a new id; while its filter is being dispatched it waits among those done. */
    method AddCallback(data: FilterData) returns (id: nat)
      requires ValidBut(data) && data in listeners
      modifies this`listenerId, this`owner, data
      ensures Valid() && id == listenerId == old(listenerId) + 1
      ensures Gained(data, id) && owner == old(owner)[id := data]
    {
      hide Distinct, NoDup, Owns;
      id := NewId(data);
      NoDupMore(data.callbacks, id);
      NoDupMore(data.processed, id);
      if data.lock {
        data.processed := data.processed + [id];
      } else {
        data.callbacks := data.callbacks + [id];
        assert id in data.callbacks;
      }
    }

    /** `g_dbus_add_signal_watch`: the first filter with a compatible rule gains the watch, or a new
        one has it. */
    method AddWatch(rule: Rule) returns (id: nat)
      requires Valid()
      modifies this, Repr
      ensures Valid() && id == listenerId == old(listenerId) + 1
      ensures old(listeners) <= listeners && fresh(Repr - old(Repr))
      ensures forall f :: f in listeners && f !in old(listeners) ==>
                fresh(f) && f.rule == rule && f.callbacks == [id] && !f.lock && NoMatch(old(listeners), rule)
      ensures forall f :: f in old(listeners) ==>
                && if FirstMatch(old(listeners), rule, f) then Gained(f, id) else unchanged(f)
      ensures forall f :: f in old(listeners) ==>
                Later(f) && (id in Landed(f) <==> FirstMatch(old(listeners), rule, f))
    {
      hide Sound, Disagree, NoDup;
      var data := FilterDataGet(rule);
      OneMatch(old(listeners), rule);
      assert forall x :: x in owner ==> x <= listenerId;
      id := AddCallback(data);
      assert forall f :: f in old(listeners) ==> (FirstMatch(old(listeners), rule, f) <==> f == data);
    }

    /** Takes a watch off its filter, and the filter off the list when it is at rest and empty. */
    method RemoveCallback(data: FilterData, id: nat)
      requires Valid() && data in listeners && Has(data, id)
      modifies this`listeners, data
      ensures Valid() && Lost(data, id)
      ensures forall f :: f in listeners <==> f in old(listeners) && (f == data ==> data.callbacks != [] || data.lock)
    {
      hide Distinct, NoDup;
      ListRemoveContents(data.callbacks, id);
      ListRemoveContents(data.processed, id);
      data.callbacks := ListRemove(data.callbacks, id);
      data.processed := ListRemove(data.processed, id);
      if data.callbacks == [] && !data.lock {
        Unlist(data);
      }
    }

    method Unlist(data: FilterData)
      requires ValidBut(data) && data in listeners
      modifies this`listeners
      ensures Valid()
      ensures forall f :: f in listeners <==> f in old(listeners) && f != data
    {
      hide Sound;
      var k := 0;
      while listeners[k] != data
        invariant k < |listeners| && data !in listeners[..k]
        decreases |listeners| - k
      {
        k := k + 1;
      }
      Dropped(listeners, k);
      listeners := listeners[..k] + listeners[k + 1..];
    }

    /** `g_dbus_remove_watch`: the watch is nowhere afterwards, and nothing else changes. */
    method RemoveWatch(id: nat) returns (found: bool)
      requires Valid()
      modifies this`listeners, Repr
      ensures Valid()
      ensures found <==> exists f :: f in old(listeners) && old(Has(f, id))
      ensures forall f :: f in old(listeners) ==> Lost(f, id)
      ensures forall f :: f in listeners <==> f in old(listeners) && (old(Has(f, id)) ==> f.callbacks != [] || f.lock)
    {
      hide Distinct, NoDup;
      if id == 0 { return false; }
      var k := 0;
      while k < |listeners| && !Has(listeners[k], id)
        invariant k <= |listeners|
        invariant forall j :: 0 <= j < k ==> !Has(listeners[j], id)
      {
        k := k + 1;
      }
      found := k < |listeners|;
      if found {
        RemoveCallback(listeners[k], id);
      }
    }

    /** One action of a callback of the filter being dispatched. */
    method RunAct(data: FilterData, a: Act, ghost l: Local)
      requires Valid() && data in listeners && Matches(data, listenerId, l)
      modifies this, Repr
      ensures Valid() && data in listeners && Matches(data, listenerId, LocalAct(l, Landed(data), a))
      ensures fresh(Repr - old(Repr)) && Later(data)
    {
      hide Sound, Distinct, FirstMatch, Landed;
      match a {
        case Add(rule) =>
          var _ := AddWatch(rule);
        case Remove(id) =>
          var _ := RemoveWatch(id);
      }
    }

    /** What a callback of the filter being dispatched does to the watches. */
    method RunActs(data: FilterData, acts: seq<Act>, ghost l: Local)
      requires Valid() && data in listeners && Matches(data, listenerId, l)
      modifies this, Repr
      ensures Valid() && data in listeners && Matches(data, listenerId, LocalActs(l, Landed(data), acts))
      ensures fresh(Repr - old(Repr)) && Later(data)
      decreases |acts|
    {
      hide Valid, Landed;
      if acts != [] {
        RunAct(data, acts[0], l);
        ghost var l', n, h := LocalAct(l, Landed(data), acts[0]), listenerId, Landed(data);
        RunActs(data, acts[1..], l');
        assert Agree(h, Landed(data), n);
        assert l' == LocalAct(l, Landed(data), acts[0]);
      }
    }

    /** The loop over the callbacks of a signal watch. */
    method SignalFilter(data: FilterData, script: Script, ghost l: Local) returns (ghost r: Local)
      requires Valid() && data in listeners && Matches(data, listenerId, l) && Polite(script)
      modifies this, Repr
      ensures Valid() && data in listeners && Matches(data, listenerId, r)
      ensures r == Dispatch(l, Landed(data), script)
      ensures fresh(Repr - old(Repr)) && Later(data)
    {
      hide Valid, Landed, Turn;
      r := l;
      while data.callbacks != []
        invariant Valid() && data in listeners && Matches(data, listenerId, r)
        invariant forall h :: Agree(Landed(data), h, listenerId) ==> Dispatch(l, h, script) == Dispatch(r, h, script)
        invariant fresh(Repr - old(Repr)) && Later(data)
        decreases |r.todo|
      {
        ghost var was, n, landed := r, listenerId, Landed(data);
        OneTurn(data, script, r);
        r := Turn(was, Landed(data), script);
        GoOn(l, was, landed, n, Landed(data), script);
      }
    }

    /** One callback of a signal watch: it runs, and leaves or moves to those done. */
    method OneTurn(data: FilterData, script: Script, ghost l: Local)
      requires Valid() && data in listeners && Matches(data, listenerId, l) && Polite(script) && data.callbacks != []
      modifies this, Repr
      ensures Valid() && data in listeners && Matches(data, listenerId, Turn(l, Landed(data), script))
      ensures fresh(Repr - old(Repr)) && Later(data)
    {
      hide Distinct, LocalActs, Landed, Agree;
      var cb := data.callbacks[0];
      ghost var l1 := l.(ran := l.ran + [cb]);
      RunActs(data, script(cb).acts, l1);
      if !script(cb).keep {
        assert cb in data.callbacks by { StillThere(l1, Landed(data), script(cb).acts, cb); }
        RemoveCallback(data, cb);
      } else if cb in data.callbacks {
        Move(data, cb);
      }
    }

    /** The loop over the callbacks of a service watch, if the signal is what it should be. */
    method ServiceFilter(data: FilterData, handler: Handler, script: Script, ghost l: Local) returns (ghost r: Local)
      requires Valid() && data in listeners && Matches(data, listenerId, l) && handler.Service?
      modifies this, Repr
      ensures Valid() && data in listeners && Matches(data, listenerId, r)
      ensures r == Handled(l, Landed(data), handler, script)
      ensures fresh(Repr - old(Repr)) && Later(data)
    {
      hide Valid, Landed, Turn, Effective;
      r := l;
      if !handler.wellFormed {
        return;
      }
      ghost var s := Effective(handler, script);
      while data.callbacks != []
        invariant Valid() && data in listeners && Matches(data, listenerId, r)
        invariant forall h :: Agree(Landed(data), h, listenerId) ==> Dispatch(l, h, s) == Dispatch(r, h, s)
        invariant fresh(Repr - old(Repr)) && Later(data)
        decreases |r.todo|
      {
        ghost var was, n, landed := r, listenerId, Landed(data);
        ServiceTurn(data, handler, script, r);
        r := Turn(was, Landed(data), s);
        GoOn(l, was, landed, n, Landed(data), s);
      }
    }

    /** One callback of a service watch: it runs, and unless it has removed itself it is removed
        or moves to those done. */
    method ServiceTurn(data: FilterData, handler: Handler, script: Script, ghost l: Local)
      requires Valid() && data in listeners && Matches(data, listenerId, l) && handler.Service? && data.callbacks != []
      modifies this, Repr
      ensures Valid() && data in listeners
      ensures Matches(data, listenerId, Turn(l, Landed(data), Effective(handler, script)))
      ensures fresh(Repr - old(Repr)) && Later(data)
    {
      hide Distinct, LocalActs, NoDup, Landed, Agree;
      var cb := data.callbacks[0];
      ghost var l1 := l.(ran := l.ran + [cb]);
      RunActs(data, script(cb).acts, l1);
      if cb in data.callbacks {
        if handler.busName && handler.oneSided(cb) {
          RemoveCallback(data, cb);
        } else {
          Move(data, cb);
        }
      } else {
        assert cb !in data.processed by { StaysAway(l1, Landed(data), script(cb).acts, cb); }
      }
    }

    /** Hands a signal to the first filter whose rule does not disagree with it: if no field that is
        set in both differs, and in all filters before it one does. What its handler leaves
        among those done are the watches of the filter afterwards, and without any it is gone. */
    method MessageFilter(rule: Rule, handler: Handler, script: Script) returns (ghost r: Option<Local>)
      requires Valid() && (forall f :: f in listeners && FirstMatch(listeners, rule, f) ==> !f.lock)
      requires handler.Signal? ==> Polite(script)
      modifies this, Repr
      ensures Valid() && fresh(Repr - old(Repr))
      ensures r.None? <==> forall f :: f in old(listeners) ==> Disagree(f.rule, rule)
      ensures r.None? ==> unchanged(this) && forall f :: f in listeners ==> unchanged(f)
      ensures r.Some? ==> exists data :: data in old(listeners) && FirstMatch(old(listeners), rule, data) &&
                                         Delivered(data, handler, script, r.value)
    {
      var k := 0;
      while k < |listeners|
        invariant k <= |listeners|
        invariant forall j :: 0 <= j < k ==> Disagree(listeners[j].rule, rule)
      {
        if Compatible(listeners[k].rule, rule) {
          assert FirstMatch(listeners, rule, listeners[k]);
          var l := Deliver(listeners[k], handler, script);
          return Some(l);
        }
        k := k + 1;
      }
      r := None;
    }

    method Deliver(data: FilterData, handler: Handler, script: Script) returns (ghost r: Local)
      requires Valid() && data in listeners && !data.lock
      requires handler.Signal? ==> Polite(script)
      modifies this, Repr
      ensures Valid() && fresh(Repr - old(Repr))
      ensures Delivered(data, handler, script, r)
    {
      hide Sound, Dispatch, Distinct, Effective, Landed;
      ghost var l := Begin(data.callbacks, listenerId);
      Lock(data);
      if handler.Signal? {
        assert Effective(handler, script) == script by { SignalEffective(script); }
        r := SignalFilter(data, script, l);
      } else {
        r := ServiceFilter(data, handler, script, l);
      }
      Unlock(data);
      if data.callbacks == [] { Unlist(data); }
    }

    /** The outcome of handing a signal to `data`. */
    twostate predicate Delivered(data: FilterData, handler: Handler, script: Script, r: Local)
      reads this, data
    {
      && r == Handled(Begin(old(data.callbacks), old(listenerId)), Landed(data), handler, script)
      && (data in listeners <==> r.done != [])
      && data.callbacks == r.done && data.processed == [] && !data.lock
    }

    method Lock(data: FilterData)
      requires Valid() && data in listeners && !data.lock
      modifies data
      ensures Valid() && data.lock && data.callbacks == old(data.callbacks) && data.processed == []
    {
      hide Distinct, NoDup;
      data.lock := true;
    }

    method Unlock(data: FilterData)
      requires Valid() && data in listeners && data.lock
      modifies data
      ensures ValidBut(data) && !data.lock && data.callbacks == old(data.processed) && data.processed == []
      ensures data.callbacks != [] ==> Valid()
    {
      hide Distinct;
      data.callbacks := data.processed;
      data.processed := [];
      data.lock := false;
    }

    /** `cb` goes from the callbacks to run to those done. */
    method Move(data: FilterData, cb: nat)
      requires Valid() && data in listeners && data.lock && cb in data.callbacks
      modifies data
      ensures Valid() && data.lock
      ensures data.callbacks == ListRemove(old(data.callbacks), cb) && data.processed == old(data.processed) + [cb]
    {
      hide Distinct, NoDup;
      ListRemoveContents(data.callbacks, cb);
      NoDupMore(data.processed, cb);
      data.callbacks := ListRemove(data.callbacks, cb);
      data.processed := data.processed + [cb];
    }
  }

  ghost predicate Distinct(fs: seq<FilterData>) {
    forall i, j :: 0 <= i < j < |fs| ==> fs[i] != fs[j]
  }

  /** `f` is the first filter of the list whose rule does not disagree. */
  ghost predicate FirstMatch(fs: seq<FilterData>, rule: Rule, f: FilterData) {
    exists k :: 0 <= k < |fs| && fs[k] == f && !Disagree(f.rule, rule) && NoneBefore(fs, k, rule)
  }

  ghost predicate NoneBefore(fs: seq<FilterData>, k: nat, rule: Rule)
    requires k <= |fs|
  {
    forall j :: 0 <= j < k ==> Disagree(fs[j].rule, rule)
  }

  ghost predicate NoMatch(fs: seq<FilterData>, rule: Rule) {
    NoneBefore(fs, |fs|, rule)
  }

  lemma OneMatch(fs: seq<FilterData>, rule: Rule)
    ensures forall f, g :: FirstMatch(fs, rule, f) && FirstMatch(fs, rule, g) ==> f == g
    ensures NoMatch(fs, rule) ==> forall f :: !FirstMatch(fs, rule, f)
  {
    hide Disagree;
    forall f, g | FirstMatch(fs, rule, f) && FirstMatch(fs, rule, g) ensures f == g {
      var i :| 0 <= i < |fs| && fs[i] == f && !Disagree(f.rule, rule) && NoneBefore(fs, i, rule);
      var j :| 0 <= j < |fs| && fs[j] == g && !Disagree(g.rule, rule) && NoneBefore(fs, j, rule);
      assert i == j;
    }
  }

  /** The rules of the filters, in the order of the list. */
  function RulesOf(fs: seq<FilterData>): seq<Rule> {
    seq(|fs|, i requires 0 <= i < |fs| => fs[i].rule)
  }

  /** The filter a signal or a new watch goes to is the one that `First` names. */
  lemma MatchIsFirst(fs: seq<FilterData>, rule: Rule, k: nat)
    requires Distinct(fs) && k < |fs|
    ensures FirstMatch(fs, rule, fs[k]) <==> First(RulesOf(fs), rule) == Some(k)
    ensures NoMatch(fs, rule) <==> First(RulesOf(fs), rule) == None
  {
    hide Disagree;
    var rs := RulesOf(fs);
    var first := First(rs, rule);
    assert forall j :: 0 <= j < |fs| ==> rs[j] == fs[j].rule;
    if first.Some? { assert NoneBefore(fs, first.value, rule) && FirstMatch(fs, rule, fs[first.value]); }
    OneMatch(fs, rule);
  }

  /** One more turn, with what has landed in the filter during it. */
  lemma GoOn(l: Local, r: Local, before: set<nat>, n: nat, after: set<nat>, script: Script)
    requires r.todo != [] && Agree(before, after, n) && n <= Turn(r, after, script).last
    requires forall h :: Agree(before, h, n) ==> Dispatch(l, h, script) == Dispatch(r, h, script)
    ensures
      var r' := Turn(r, after, script);
      forall h :: Agree(after, h, r'.last) ==> Dispatch(l, h, script) == Dispatch(r', h, script)
  {
    hide Turn;
    var r' := Turn(r, after, script);
    forall h | Agree(after, h, r'.last) ensures Dispatch(l, h, script) == Dispatch(r', h, script) {
      assert Agree(before, h, n);
      TurnAgree(r, after, h, script);
    }
  }

  lemma Dropped(fs: seq<FilterData>, k: nat)
    requires Distinct(fs) && k < |fs|
    ensures
      var r := fs[..k] + fs[k + 1..];
      Distinct(r) && forall f :: f in r <==> f in fs && f != fs[k]
  {
    var r := fs[..k] + fs[k + 1..];
    forall f | f in fs && f != fs[k] ensures f in r {
      var i :| 0 <= i < |fs| && fs[i] == f;
      assert f == if i < k then r[i] else r[i - 1];
    }
  }
}
