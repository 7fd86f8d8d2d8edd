/** Dispatching one signal to the watches of a filter (gdbus/watch.c), while the callbacks
    add and remove watches. */
module WatchDispatch {
  import opened Basics
  import opened WatchRules

  // ---------------------------------------------------------------- callbacks

  /** What a callback does to the watches: add one to a filter, or remove one by its id. */
  datatype Act = Add(rule: Rule) | Remove(id: nat)

  /** What a callback does when it is called, and whether it wants to stay. */
  datatype Reaction = Reaction(acts: seq<Act>, keep: bool)

  /** The behaviour of all callbacks, by id. */
  type Script = nat -> Reaction

  /** A callback that asks to be removed has not removed itself. */
  ghost predicate Polite(script: Script) {
    forall id :: !script(id).keep ==> Remove(id) !in script(id).acts
  }

  // ---------------------------------------------------------------- lists

  ghost predicate NoDup(s: seq<nat>) {
    forall i, j :: 0 <= i < j < |s| ==> s[i] != s[j]
  }

  lemma NoDupMore(s: seq<nat>, x: nat)
    requires NoDup(s) && x !in s
    ensures NoDup(s + [x])
  {
    assert forall i :: 0 <= i < |s| ==> (s + [x])[i] == s[i] && s[i] in s;
  }

  lemma {:induction false} ListRemoveContents(s: seq<nat>, x: nat)
    requires NoDup(s)
    ensures NoDup(ListRemove(s, x)) && forall y :: y in ListRemove(s, x) <==> y in s && y != x
  {
    if s != [] {
      assert NoDup(s[1..]);
      assert forall k :: 0 <= k < |s[1..]| ==> s[1..][k] == s[k + 1];
      assert s[0] !in s[1..];
      assert forall y :: y in s <==> y == s[0] || y in s[1..];
      ListRemoveContents(s[1..], x);
    }
  }

  // ---------------------------------------------------------------- dispatch of one filter

  /** What happens during a dispatch, in order. */
  datatype Ev = Added(id: nat) | Removed(id: nat) | Kept(id: nat)

  /** The filter being dispatched: callbacks still to run, callbacks done or added meanwhile,
      the last id given out, the callbacks run so far, and the history. */
  datatype Local = Local(todo: seq<nat>, done: seq<nat>, last: nat, ran: seq<nat>, log: seq<Ev>)

  /** One action. `here` are the new ids whose watches land in the filter being dispatched, which
      depends on the other filters. */
  function LocalAct(l: Local, here: set<nat>, a: Act): (r: Local)
    ensures r.todo == l.todo || |r.todo| < |l.todo|
  {
    match a
    case Add(_) =>
      var id := l.last + 1;
      if id in here then l.(last := id, done := l.done + [id], log := l.log + [Added(id)])
      else l.(last := id)
    case Remove(x) => LocalRemove(l, x)
  }

  function LocalRemove(l: Local, x: nat): (r: Local)
    ensures r.todo == l.todo || |r.todo| < |l.todo|
  {
    l.(todo := ListRemove(l.todo, x), done := ListRemove(l.done, x), log := l.log + [Removed(x)])
  }

  function LocalActs(l: Local, here: set<nat>, acts: seq<Act>): (r: Local)
    ensures r.todo == l.todo || |r.todo| < |l.todo|
    decreases |acts|
  {
    if acts == [] then l else LocalActs(LocalAct(l, here, acts[0]), here, acts[1..])
  }

  /** One turn of the loop in `signal_filter`. */
  function Turn(l: Local, here: set<nat>, script: Script): (r: Local)
    requires l.todo != []
    ensures |r.todo| < |l.todo|
  {
    var cb := l.todo[0];
    var l' := LocalActs(l.(ran := l.ran + [cb]), here, script(cb).acts);
    if !script(cb).keep then
      assert l'.todo == l.todo ==> cb in l'.todo;
      LocalRemove(l', cb)
    else if cb !in l'.todo then l'
    else l'.(todo := ListRemove(l'.todo, cb), done := l'.done + [cb], log := l'.log + [Kept(cb)])
  }

  function Dispatch(l: Local, here: set<nat>, script: Script): (r: Local)
    ensures r.todo == []
    decreases |l.todo|
  {
    if l.todo == [] then l else Dispatch(Turn(l, here, script), here, script)
  }

  // ---------------------------------------------------------------- who is run

  /** The watches that some callback among `ids` removes. */
  function Gone(script: Script, ids: seq<nat>): set<nat> {
    if ids == [] then {}
    else Gone(script, ids[..|ids| - 1]) + RemovedIn(script(ids[|ids| - 1]).acts)
  }

  function RemovedIn(acts: seq<Act>): set<nat> {
    set a | a in acts && a.Remove? :: a.id
  }

  /** Reference: of the watches in `rest` each one runs in its turn, unless one that ran before
      has removed it. `ran` are those that have run already. */
  function Expected(script: Script, rest: seq<nat>, ran: seq<nat>): seq<nat>
    decreases |rest|
  {
    if rest == [] then ran
    else if rest[0] in Gone(script, ran) then Expected(script, rest[1..], ran)
    else Expected(script, rest[1..], ran + [rest[0]])
  }

  /** The watches in `s` that are not in `out`, in order. */
  function Keep(s: seq<nat>, out: set<nat>): seq<nat> {
    if s == [] then [] else (if s[0] in out then [] else [s[0]]) + Keep(s[1..], out)
  }

  lemma {:induction false} KeepTwice(s: seq<nat>, a: set<nat>, b: set<nat>)
    ensures Keep(Keep(s, a), b) == Keep(s, a + b)
  {
    if s != [] {
      KeepTwice(s[1..], a, b);
      var t := Keep(s[1..], a);
      if s[0] in a { assert Keep(s, a) == t; } else { assert ([s[0]] + t)[1..] == t; }
    }
  }

  lemma {:induction false} KeepSame(s: seq<nat>, a: set<nat>, b: set<nat>)
    requires forall x :: x in s ==> (x in a <==> x in b)
    ensures Keep(s, a) == Keep(s, b)
  {
    if s != [] { KeepSame(s[1..], a, b); }
  }

  lemma {:induction false} KeepAll(s: seq<nat>, out: set<nat>)
    requires forall x :: x in s ==> x !in out
    ensures Keep(s, out) == s
  {
    if s != [] { KeepAll(s[1..], out); }
  }

  lemma NotInTail(s: seq<nat>)
    requires NoDup(s) && s != []
    ensures s[0] !in s[1..] && NoDup(s[1..])
  {
    assert forall k :: 0 <= k < |s[1..]| ==> s[1..][k] == s[k + 1];
  }

  lemma {:induction false} ListRemoveIsKeep(s: seq<nat>, x: nat)
    requires NoDup(s)
    ensures ListRemove(s, x) == Keep(s, {x})
  {
    if s != [] {
      NotInTail(s);
      if s[0] == x { KeepAll(s[1..], {x}); } else { ListRemoveIsKeep(s[1..], x); }
    }
  }

  lemma {:induction false} ActsKeep(l: Local, here: set<nat>, acts: seq<Act>)
    requires NoDup(l.todo)
    ensures LocalActs(l, here, acts).todo == Keep(l.todo, RemovedIn(acts))
    ensures NoDup(LocalActs(l, here, acts).todo) && LocalActs(l, here, acts).ran == l.ran
    decreases |acts|
  {
    if acts == [] {
      KeepAll(l.todo, RemovedIn(acts));
    } else {
      var rest := acts[1..];
      var l' := LocalAct(l, here, acts[0]);
      assert acts == [acts[0]] + rest;
      if acts[0].Remove? {
        var x := acts[0].id;
        ListRemoveContents(l.todo, x);
        ListRemoveIsKeep(l.todo, x);
        ActsKeep(l', here, rest);
        KeepTwice(l.todo, {x}, RemovedIn(rest));
        assert RemovedIn(acts) == {x} + RemovedIn(rest);
      } else {
        ActsKeep(l', here, rest);
        assert RemovedIn(acts) == RemovedIn(rest);
      }
    }
  }

  lemma {:induction false} KeepContents(s: seq<nat>, out: set<nat>, x: nat)
    ensures x in Keep(s, out) <==> x in s && x !in out
  {
    if s != [] { KeepContents(s[1..], out, x); }
  }

  /** Actions that do not remove a callback leave it to do. */
  lemma StillThere(l: Local, here: set<nat>, acts: seq<Act>, x: nat)
    requires NoDup(l.todo) && x in l.todo && Remove(x) !in acts
    ensures x in LocalActs(l, here, acts).todo
  {
    ActsKeep(l, here, acts);
    KeepContents(l.todo, RemovedIn(acts), x);
  }

  /** Actions do not bring a callback to those done, but new ones. */
  lemma {:induction false} StaysAway(l: Local, here: set<nat>, acts: seq<Act>, x: nat)
    requires NoDup(l.done) && (forall y :: y in l.done ==> y <= l.last) && x !in l.done && x <= l.last
    ensures x !in LocalActs(l, here, acts).done
    decreases |acts|
  {
    if acts != [] {
      var l' := LocalAct(l, here, acts[0]);
      match acts[0] {
        case Add(_) => NoDupMore(l.done, l.last + 1);
        case Remove(y) => ListRemoveContents(l.done, y);
      }
      StaysAway(l', here, acts[1..], x);
    }
  }

  /** What a turn leaves to do. */
  lemma TurnKeeps(l: Local, here: set<nat>, script: Script)
    requires l.todo != [] && NoDup(l.todo)
    ensures
      var cb := l.todo[0];
      var r := Turn(l, here, script);
      r.ran == l.ran + [cb] && NoDup(r.todo) && r.todo == Keep(l.todo, RemovedIn(script(cb).acts) + {cb})
  {
    var cb := l.todo[0];
    var l1 := l.(ran := l.ran + [cb]);
    var acts := script(cb).acts;
    ActsKeep(l1, here, acts);
    var l' := LocalActs(l1, here, acts);
    ListRemoveContents(l'.todo, cb);
    ListRemoveIsKeep(l'.todo, cb);
    KeepTwice(l.todo, RemovedIn(acts), {cb});
  }

  /** A turn runs the first watch that remains, and leaves what remains after it. */
  lemma TurnTodo(l: Local, here: set<nat>, script: Script, rest: seq<nat>)
    requires NoDup(rest) && rest != [] && rest[0] !in Gone(script, l.ran)
    requires l.todo == Keep(rest, Gone(script, l.ran)) && NoDup(l.todo)
    ensures
      var r := Turn(l, here, script);
      r.ran == l.ran + [rest[0]] && r.todo == Keep(rest[1..], Gone(script, r.ran)) && NoDup(r.todo)
  {
    hide Turn;
    var cb := rest[0];
    var out := Gone(script, l.ran);
    var more := RemovedIn(script(cb).acts) + {cb};
    TurnKeeps(l, here, script);
    KeepTwice(rest, out, more);
    NotInTail(rest);
    var ran := l.ran + [cb];
    assert ran[..|ran| - 1] == l.ran;
    KeepSame(rest[1..], out + more, Gone(script, ran));
  }

  lemma {:induction false} RunsRemaining(l: Local, here: set<nat>, script: Script, rest: seq<nat>)
    requires NoDup(rest) && l.todo == Keep(rest, Gone(script, l.ran)) && NoDup(l.todo)
    ensures Dispatch(l, here, script).ran == Expected(script, rest, l.ran)
    decreases |rest|
  {
    hide Turn, Gone;
    if rest != [] {
      NotInTail(rest);
      if rest[0] in Gone(script, l.ran) {
        RunsRemaining(l, here, script, rest[1..]);
      } else {
        TurnTodo(l, here, script, rest);
        RunsRemaining(Turn(l, here, script), here, script, rest[1..]);
      }
    }
  }

  /** For one signal, each watch present at the start runs exactly once and in order, unless a
      callback that ran before has removed it; nothing else runs. */
  lemma RunsExpected(script: Script, here: set<nat>, present: seq<nat>, last: nat)
    requires NoDup(present)
    ensures Dispatch(Begin(present, last), here, script).ran == Expected(script, present, [])
  {
    KeepAll(present, Gone(script, []));
    RunsRemaining(Begin(present, last), here, script, present);
  }

  function Begin(present: seq<nat>, last: nat): Local {
    Local(present, [], last, [], [])
  }

  // ---------------------------------------------------------------- who survives

  /** `x` was added or kept at some point of the history, and not removed since. */
  ghost predicate Lives(log: seq<Ev>, x: nat) {
    exists p :: 0 <= p < |log| && (log[p] == Added(x) || log[p] == Kept(x)) && Removed(x) !in log[p..]
  }

  ghost predicate Accounted(l: Local) {
    && NoDup(l.todo) && NoDup(l.done)
    && (forall x :: x in l.todo ==> x !in l.done && x <= l.last)
    && (forall x :: x in l.done ==> x <= l.last)
    && (forall x :: x in l.done <==> Lives(l.log, x))
  }

  /** One more event brings a watch to life, ends it, or leaves it as it was. */
  lemma LivesMore(log: seq<Ev>, e: Ev, x: nat)
    ensures Lives(log + [e], x) <==> e == Added(x) || e == Kept(x) || (e != Removed(x) && Lives(log, x))
  {
    var more := log + [e];
    if e == Added(x) || e == Kept(x) {
      assert more[|log|..] == [e];
      assert more[|log|] == e;
    }
    if e != Removed(x) && Lives(log, x) {
      var p :| 0 <= p < |log| && (log[p] == Added(x) || log[p] == Kept(x)) && Removed(x) !in log[p..];
      assert more[p..] == log[p..] + [e];
      assert more[p] == log[p];
    }
    if Lives(more, x) && e != Added(x) && e != Kept(x) {
      var p :| 0 <= p < |more| && (more[p] == Added(x) || more[p] == Kept(x)) && Removed(x) !in more[p..];
      assert more[p..] == log[p..] + [e];
      assert log[p] == more[p] && e in more[p..];
    }
  }

  lemma ExtendAccounted(l: Local, x: nat, e: Ev, last: nat)
    requires Accounted(l) && x !in l.todo && x !in l.done && l.last <= last && x <= last
    requires e == Added(x) || e == Kept(x)
    ensures Accounted(l.(done := l.done + [x], log := l.log + [e], last := last))
  {
    hide Lives;
    forall y ensures Lives(l.log + [e], y) <==> y == x || Lives(l.log, y) { LivesMore(l.log, e, y); }
  }

  lemma RemoveAccounted(l: Local, x: nat)
    requires Accounted(l)
    ensures Accounted(LocalRemove(l, x))
  {
    hide Lives;
    ListRemoveContents(l.todo, x);
    ListRemoveContents(l.done, x);
    forall y ensures Lives(l.log + [Removed(x)], y) <==> y != x && Lives(l.log, y) { LivesMore(l.log, Removed(x), y); }
  }

  lemma {:induction false} ActsAccounted(l: Local, here: set<nat>, acts: seq<Act>)
    requires Accounted(l)
    ensures Accounted(LocalActs(l, here, acts))
    decreases |acts|
  {
    hide Lives, LocalRemove;
    if acts != [] {
      var l' := LocalAct(l, here, acts[0]);
      match acts[0] {
        case Add(_) =>
          if l.last + 1 in here { ExtendAccounted(l, l.last + 1, Added(l.last + 1), l.last + 1); }
        case Remove(x) =>
          RemoveAccounted(l, x);
      }
      ActsAccounted(l', here, acts[1..]);
    }
  }

  lemma TurnAccounted(l: Local, here: set<nat>, script: Script)
    requires Accounted(l) && l.todo != []
    ensures Accounted(Turn(l, here, script))
  {
    hide Lives, LocalRemove, LocalActs;
    var cb := l.todo[0];
    var l1 := l.(ran := l.ran + [cb]);
    ActsAccounted(l1, here, script(cb).acts);
    var l' := LocalActs(l1, here, script(cb).acts);
    if !script(cb).keep {
      RemoveAccounted(l', cb);
    } else if cb in l'.todo {
      ListRemoveContents(l'.todo, cb);
      ExtendAccounted(l'.(todo := ListRemove(l'.todo, cb)), cb, Kept(cb), l'.last);
    }
  }

  lemma {:induction false} DispatchAccounted(l: Local, here: set<nat>, script: Script)
    requires Accounted(l)
    ensures Accounted(Dispatch(l, here, script))
    decreases |l.todo|
  {
    hide Lives, Turn, Accounted;
    if l.todo != [] {
      TurnAccounted(l, here, script);
      DispatchAccounted(Turn(l, here, script), here, script);
    }
  }

  /** After a signal the filter holds exactly the watches that were kept after their run or added
      meanwhile, and not removed since; each of them once. */
  lemma Survivors(script: Script, here: set<nat>, present: seq<nat>, last: nat)
    requires NoDup(present) && forall x :: x in present ==> x <= last
    ensures
      var r := Dispatch(Begin(present, last), here, script);
      NoDup(r.done) && forall x :: x in r.done <==> Lives(r.log, x)
  {
    DispatchAccounted(Begin(present, last), here, script);
  }

  /** Removals take a watch out of `done`; nothing an action does brings an old one back. */
  lemma {:induction false} ActsDone(l: Local, here: set<nat>, acts: seq<Act>, x: nat)
    requires Accounted(l) && x <= l.last
    ensures
      var r := LocalActs(l, here, acts);
      && (x in r.done <==> x in l.done && x !in RemovedIn(acts))
      && (x in r.todo <==> x in l.todo && x !in RemovedIn(acts))
      && l.last <= r.last && r.ran == l.ran
    decreases |acts|
  {
    hide Lives;
    if acts != [] {
      var l' := LocalAct(l, here, acts[0]);
      ActsAccounted(l, here, acts[..1]);
      assert LocalActs(l, here, acts[..1]) == l';
      assert acts == [acts[0]] + acts[1..];
      if acts[0].Remove? {
        ListRemoveContents(l.todo, acts[0].id);
        ListRemoveContents(l.done, acts[0].id);
      }
      ActsDone(l', here, acts[1..], x);
    }
  }

  /** Where a watch that was present at the start stands. */
  ghost predicate Stands(l: Local, script: Script, x: nat) {
    && x <= l.last
    && (x in l.done <==> x in l.ran && script(x).keep && x !in Gone(script, l.ran))
    && (x in l.todo <==> x !in l.ran && x !in Gone(script, l.ran))
  }

  lemma TurnStands(l: Local, here: set<nat>, script: Script, x: nat)
    requires Accounted(l) && l.todo != [] && Stands(l, script, x)
    ensures Stands(Turn(l, here, script), script, x)
  {
    hide Lives, LocalActs;
    var cb := l.todo[0];
    var l1 := l.(ran := l.ran + [cb]);
    var acts := script(cb).acts;
    ActsAccounted(l1, here, acts);
    ActsDone(l1, here, acts, x);
    var l' := LocalActs(l1, here, acts);
    ListRemoveContents(l'.todo, cb);
    ListRemoveContents(l'.done, cb);
    assert l1.ran[..|l1.ran| - 1] == l.ran;
    assert Gone(script, l1.ran) == Gone(script, l.ran) + RemovedIn(acts);
  }

  lemma {:induction false} DispatchStands(l: Local, here: set<nat>, script: Script, x: nat)
    requires Accounted(l) && Stands(l, script, x)
    ensures Stands(Dispatch(l, here, script), script, x)
    decreases |l.todo|
  {
    hide Stands, Accounted, Turn;
    if l.todo != [] {
      TurnAccounted(l, here, script);
      TurnStands(l, here, script, x);
      DispatchStands(Turn(l, here, script), here, script, x);
    }
  }

  /** Of the watches present at the start, those survive that ran, wanted to stay, and were
      removed by no callback of this signal. */
  lemma PresentSurvive(script: Script, here: set<nat>, present: seq<nat>, last: nat, x: nat)
    requires NoDup(present) && (forall y :: y in present ==> y <= last) && x in present
    ensures
      var r := Dispatch(Begin(present, last), here, script);
      x in r.done <==> x in r.ran && script(x).keep && x !in Gone(script, r.ran)
  {
    DispatchStands(Begin(present, last), here, script, x);
  }

  // ---------------------------------------------------------------- who comes in

  /** Everything the callbacks in `ids` do, in order. */
  function Trace(script: Script, ids: seq<nat>): seq<Act> {
    if ids == [] then [] else Trace(script, ids[..|ids| - 1]) + script(ids[|ids| - 1]).acts
  }

  function Additions(acts: seq<Act>): nat {
    if acts == [] then 0 else (if acts[0].Add? then 1 else 0) + Additions(acts[1..])
  }

  /** The ids of the watches that the actions add to the filter: every addition, to whichever
      filter, takes the next id after `last`. */
  function Newcomers(acts: seq<Act>, here: set<nat>, last: nat): set<nat>
    decreases |acts|
  {
    if acts == [] then {}
    else
      var rest := Newcomers(acts[1..], here, if acts[0].Add? then last + 1 else last);
      if acts[0].Add? && last + 1 in here then {last + 1} + rest else rest
  }

  lemma {:induction false} NewcomersJoin(a: seq<Act>, b: seq<Act>, here: set<nat>, last: nat)
    ensures Additions(a + b) == Additions(a) + Additions(b)
    ensures Newcomers(a + b, here, last) == Newcomers(a, here, last) + Newcomers(b, here, last + Additions(a))
    decreases |a|
  {
    if a == [] {
      assert a + b == b;
    } else {
      assert (a + b)[1..] == a[1..] + b;
      NewcomersJoin(a[1..], b, here, if a[0].Add? then last + 1 else last);
    }
  }

  lemma ActAccounted(l: Local, here: set<nat>, a: Act)
    requires Accounted(l)
    ensures Accounted(LocalAct(l, here, a))
  {
    hide Accounted, LocalAct;
    ActsAccounted(l, here, [a]);
    assert [a][1..] == [] && LocalActs(LocalAct(l, here, a), here, []) == LocalAct(l, here, a);
  }

  lemma AccountedRemove(l: Local, y: nat, x: nat)
    requires Accounted(l)
    ensures x in ListRemove(l.done, y) <==> x in l.done && x != y
  {
    ListRemoveContents(l.done, y);
  }

  lemma {:induction false} ActsAdd(l: Local, here: set<nat>, acts: seq<Act>, x: nat)
    requires Accounted(l) && x !in RemovedIn(acts)
    ensures
      var r := LocalActs(l, here, acts);
      r.last == l.last + Additions(acts) && (x in r.done <==> x in l.done || x in Newcomers(acts, here, l.last))
    decreases |acts|
  {
    hide Accounted, ListRemove;
    if acts != [] {
      ActAccounted(l, here, acts[0]);
      assert x !in RemovedIn(acts[1..]) && acts[0] in acts;
      if acts[0].Remove? { AccountedRemove(l, acts[0].id, x); }
      ActsAdd(LocalAct(l, here, acts[0]), here, acts[1..], x);
    }
  }

  /** Where a watch that was not there at the start stands. */
  ghost predicate Arrived(l: Local, script: Script, here: set<nat>, last: nat, x: nat) {
    && x !in l.todo
    && l.last == last + Additions(Trace(script, l.ran))
    && (x !in Gone(script, l.ran) ==> (x in l.done <==> x in Newcomers(Trace(script, l.ran), here, last)))
  }

  lemma {:induction false} TodoShrinks(l: Local, here: set<nat>, acts: seq<Act>, x: nat)
    requires NoDup(l.todo) && x !in l.todo
    ensures x !in LocalActs(l, here, acts).todo
  {
    ActsKeep(l, here, acts);
    KeepContents(l.todo, RemovedIn(acts), x);
  }

  lemma {:induction false} LastGrows(l: Local, here: set<nat>, acts: seq<Act>)
    ensures LocalActs(l, here, acts).last == l.last + Additions(acts)
    decreases |acts|
  {
    if acts != [] { LastGrows(LocalAct(l, here, acts[0]), here, acts[1..]); }
  }

  /** A turn does to the other watches what the callback's actions do. */
  lemma TurnOthers(l: Local, here: set<nat>, script: Script, x: nat)
    requires Accounted(l) && l.todo != [] && x != l.todo[0]
    ensures
      var l' := LocalActs(l.(ran := l.ran + [l.todo[0]]), here, script(l.todo[0]).acts);
      var r := Turn(l, here, script);
      (x in r.done <==> x in l'.done) && (x in r.todo <==> x in l'.todo) && r.last == l'.last && r.ran == l'.ran
  {
    hide Lives, LocalActs;
    var cb := l.todo[0];
    ActsAccounted(l.(ran := l.ran + [cb]), here, script(cb).acts);
    var l' := LocalActs(l.(ran := l.ran + [cb]), here, script(cb).acts);
    ListRemoveContents(l'.todo, cb);
    ListRemoveContents(l'.done, cb);
  }

  lemma HistoryStep(script: Script, ran: seq<nat>, cb: nat)
    ensures Trace(script, ran + [cb]) == Trace(script, ran) + script(cb).acts
    ensures Gone(script, ran + [cb]) == Gone(script, ran) + RemovedIn(script(cb).acts)
  {
    assert (ran + [cb])[..|ran|] == ran;
  }

  lemma TurnArrived(l: Local, here: set<nat>, script: Script, last: nat, x: nat)
    requires Accounted(l) && l.todo != [] && Arrived(l, script, here, last, x)
    ensures Arrived(Turn(l, here, script), script, here, last, x)
  {
    hide Lives, LocalActs, Turn, Trace, Gone, Newcomers, Additions;
    var cb := l.todo[0];
    var l1 := l.(ran := l.ran + [cb]);
    var acts := script(cb).acts;
    HistoryStep(script, l.ran, cb);
    NewcomersJoin(Trace(script, l.ran), acts, here, last);
    ActsKeep(l1, here, acts);
    LastGrows(l1, here, acts);
    TodoShrinks(l1, here, acts, x);
    TurnOthers(l, here, script, x);
    if x !in Gone(script, l1.ran) { ActsAdd(l1, here, acts, x); }
  }

  lemma {:induction false} DispatchArrived(l: Local, here: set<nat>, script: Script, last: nat, x: nat)
    requires Accounted(l) && Arrived(l, script, here, last, x)
    ensures Arrived(Dispatch(l, here, script), script, here, last, x)
    decreases |l.todo|
  {
    hide Arrived, Accounted, Turn;
    if l.todo != [] {
      TurnAccounted(l, here, script);
      TurnArrived(l, here, script, last, x);
      DispatchArrived(Turn(l, here, script), here, script, last, x);
    }
  }

  /** A watch added to this filter meanwhile does not run for this signal, and it is there
      afterwards unless a callback of this signal removes it; nothing else comes in. */
  lemma AddedSurvive(script: Script, here: set<nat>, present: seq<nat>, last: nat, x: nat)
    requires NoDup(present) && (forall y :: y in present ==> y <= last) && x > last
    ensures
      var r := Dispatch(Begin(present, last), here, script);
      && x !in r.ran
      && (x !in Gone(script, r.ran) ==> (x in r.done <==> x in Newcomers(Trace(script, r.ran), here, last)))
  {
    DispatchArrived(Begin(present, last), here, script, last, x);
    RunsExpected(script, here, present, last);
    ExpectedWithin(script, present, [], x);
  }

  lemma {:induction false} ExpectedWithin(script: Script, rest: seq<nat>, ran: seq<nat>, x: nat)
    requires x !in rest && x !in ran
    ensures x !in Expected(script, rest, ran)
    decreases |rest|
  {
    if rest != [] {
      ExpectedWithin(script, rest[1..], ran, x);
      ExpectedWithin(script, rest[1..], ran + [rest[0]], x);
    }
  }

  // ---------------------------------------------------------------- where new watches land

  /** Two accounts of where new watches land agree up to the id `n`. */
  ghost predicate Agree(a: set<nat>, b: set<nat>, n: nat) {
    forall id :: id <= n ==> (id in a <==> id in b)
  }

  lemma {:induction false} ActsAgree(l: Local, a: set<nat>, b: set<nat>, acts: seq<Act>)
    requires Agree(a, b, l.last + Additions(acts))
    ensures LocalActs(l, a, acts) == LocalActs(l, b, acts)
    decreases |acts|
  {
    if acts != [] { ActsAgree(LocalAct(l, a, acts[0]), a, b, acts[1..]); }
  }

  lemma TurnAgree(l: Local, a: set<nat>, b: set<nat>, script: Script)
    requires l.todo != [] && Agree(a, b, Turn(l, a, script).last)
    ensures Turn(l, a, script) == Turn(l, b, script)
  {
    hide LocalActs, Additions;
    var cb := l.todo[0];
    LastGrows(l.(ran := l.ran + [cb]), a, script(cb).acts);
    ActsAgree(l.(ran := l.ran + [cb]), a, b, script(cb).acts);
  }

  // ---------------------------------------------------------------- in which order they are left

  /** The elements of `a` that are also in `b`, in the order of `a`. */
  function Among(a: seq<nat>, b: seq<nat>): seq<nat> {
    if a == [] then [] else (if a[0] in b then [a[0]] else []) + Among(a[1..], b)
  }

  lemma {:induction false} AmongJoin(a: seq<nat>, a': seq<nat>, b: seq<nat>)
    ensures Among(a + a', b) == Among(a, b) + Among(a', b)
  {
    hide Among;
    if a == [] {
      assert a + a' == a';
      assert Among([], b) == [] by { AmongNone(b); }
      assert [] + Among(a', b) == Among(a', b);
    } else {
      assert (a + a')[1..] == a[1..] + a' && (a + a')[0] == a[0];
      AmongJoin(a[1..], a', b);
      AmongStep(a, b);
      AmongStep(a + a', b);
      var first := if a[0] in b then [a[0]] else [];
      assert first + (Among(a[1..], b) + Among(a', b)) == first + Among(a[1..], b) + Among(a', b);
    }
  }

  lemma AmongNone(b: seq<nat>)
    ensures Among([], b) == []
  {
  }

  lemma AmongStep(a: seq<nat>, b: seq<nat>)
    requires a != []
    ensures Among(a, b) == (if a[0] in b then [a[0]] else []) + Among(a[1..], b)
  {
  }

  lemma {:induction false} AmongKeep(a: seq<nat>, b: seq<nat>, x: nat)
    ensures Among(Keep(a, {x}), b) == Keep(Among(a, b), {x})
  {
    if a != [] {
      AmongKeep(a[1..], b, x);
      assert Keep(a, {x}) == (if a[0] == x then [] else [a[0]]) + Keep(a[1..], {x});
      KeepJoin(if a[0] in b then [a[0]] else [], Among(a[1..], b), {x});
      AmongJoin(if a[0] == x then [] else [a[0]], Keep(a[1..], {x}), b);
    }
  }

  lemma {:induction false} KeepJoin(a: seq<nat>, b: seq<nat>, out: set<nat>)
    ensures Keep(a + b, out) == Keep(a, out) + Keep(b, out)
  {
    hide Keep;
    if a == [] {
      assert a + b == b;
      assert Keep([], out) == [] by { KeepNone(out); }
      assert [] + Keep(b, out) == Keep(b, out);
    } else {
      assert (a + b)[1..] == a[1..] + b && (a + b)[0] == a[0];
      KeepJoin(a[1..], b, out);
      KeepStep(a, out);
      KeepStep(a + b, out);
      var first := if a[0] in out then [] else [a[0]];
      assert first + (Keep(a[1..], out) + Keep(b, out)) == first + Keep(a[1..], out) + Keep(b, out);
    }
  }

  lemma KeepNone(out: set<nat>)
    ensures Keep([], out) == []
  {
  }

  lemma KeepStep(s: seq<nat>, out: set<nat>)
    requires s != []
    ensures Keep(s, out) == (if s[0] in out then [] else [s[0]]) + Keep(s[1..], out)
  {
  }

  /** Without `x` on the right there is no `x` on the left. */
  lemma {:induction false} AmongWithout(a: seq<nat>, b: seq<nat>, x: nat)
    ensures Among(a, Keep(b, {x})) == Keep(Among(a, b), {x})
  {
    if a != [] {
      AmongWithout(a[1..], b, x);
      KeepContents(b, {x}, a[0]);
      KeepJoin(if a[0] in b then [a[0]] else [], Among(a[1..], b), {x});
    }
  }

  lemma {:induction false} AmongAll(a: seq<nat>, b: seq<nat>)
    requires forall x :: x in a ==> x in b
    ensures Among(a, b) == a
  {
    if a != [] { AmongAll(a[1..], b); }
  }

  /** Of the watches present at the start those done and those to do, in this order, are in the order of
      the start. */
  ghost predicate InOrder(l: Local, present: seq<nat>) {
    && NoDup(l.todo) && NoDup(l.done)
    && var s := Among(l.done, present) + l.todo;
    s == Among(present, s)
  }

  lemma RemoveInOrder(l: Local, present: seq<nat>, x: nat)
    requires InOrder(l, present)
    ensures InOrder(LocalRemove(l, x), present)
  {
    hide Among, Keep, ListRemove, NoDup;
    var r := LocalRemove(l, x);
    ListRemoveIsKeep(l.todo, x);
    ListRemoveIsKeep(l.done, x);
    ListRemoveContents(l.todo, x);
    ListRemoveContents(l.done, x);
    AmongKeep(l.done, present, x);
    var s := Among(l.done, present) + l.todo;
    KeepJoin(Among(l.done, present), l.todo, {x});
    AmongWithout(present, s, x);
  }

  lemma NewInOrder(l: Local, here: set<nat>, present: seq<nat>, rule: Rule)
    requires InOrder(l, present) && (forall x :: x in present || x in l.done ==> x <= l.last)
    ensures InOrder(LocalAct(l, here, Add(rule)), present)
  {
    hide Among;
    var id := l.last + 1;
    if id in here {
      NoDupMore(l.done, id);
      AmongJoin(l.done, [id], present);
      assert Among([id], present) == [] by { AmongOne(id, present); }
      assert Among(l.done, present) + [] == Among(l.done, present);
    }
  }

  lemma AmongOne(x: nat, b: seq<nat>)
    ensures Among([x], b) == if x in b then [x] else []
  {
    assert [x][1..] == [];
  }

  lemma {:induction false} ActsInOrder(l: Local, here: set<nat>, acts: seq<Act>, present: seq<nat>)
    requires InOrder(l, present) && (forall x :: x in present || x in l.done ==> x <= l.last)
    ensures
      var r := LocalActs(l, here, acts);
      InOrder(r, present) && forall x :: x in present || x in r.done ==> x <= r.last
    decreases |acts|
  {
    hide InOrder;
    if acts != [] {
      var l' := LocalAct(l, here, acts[0]);
      match acts[0] {
        case Add(rule) => NewInOrder(l, here, present, rule);
        case Remove(x) =>
          RemoveInOrder(l, present, x);
          assert NoDup(l.done) by { InOrderNoDup(l, present); }
          ListRemoveContents(l.done, x);
      }
      ActsInOrder(l', here, acts[1..], present);
    }
  }

  lemma InOrderNoDup(l: Local, present: seq<nat>)
    requires InOrder(l, present)
    ensures NoDup(l.done) && NoDup(l.todo)
  {
  }

  /** What is done comes behind all that was done before it. */
  lemma KeptInOrder(l: Local, present: seq<nat>, x: nat)
    requires InOrder(l, present) && l.todo != [] && x == l.todo[0] && x in present && x !in l.done
    ensures InOrder(l.(todo := l.todo[1..], done := l.done + [x]), present)
  {
    hide Among;
    AmongJoin(l.done, [x], present);
    AmongOne(x, present);
    NoDupMore(l.done, x);
    assert l.todo == [x] + l.todo[1..];
    assert Among(l.done, present) + l.todo == Among(l.done, present) + [x] + l.todo[1..];
  }

  lemma KeepFirst(s: seq<nat>, out: set<nat>)
    requires s != [] && s[0] !in out
    ensures Keep(s, out) != [] && Keep(s, out)[0] == s[0]
  {
  }

  lemma TurnInOrder(l: Local, here: set<nat>, script: Script, present: seq<nat>)
    requires Accounted(l) && InOrder(l, present) && l.todo != []
    requires (forall x :: x in present ==> x <= l.last) && forall x :: x in l.todo ==> x in present
    ensures
      var r := Turn(l, here, script);
      InOrder(r, present) && (forall x :: x in present ==> x <= r.last) && forall x :: x in r.todo ==> x in present
  {
    hide InOrder, Keep, ListRemove, NoDup, LocalActs, Lives;
    var cb, acts := l.todo[0], script(l.todo[0]).acts;
    var l1 := l.(ran := l.ran + [cb]);
    var l' := LocalActs(l1, here, acts);
    assert InOrder(l1, present) by { SameOrder(l, l1, present); }
    ActsInOrder(l1, here, acts, present);
    ActsKeep(l1, here, acts);
    forall x | x in l'.todo ensures x in present { KeepContents(l.todo, RemovedIn(acts), x); }
    if !script(cb).keep {
      RemoveInOrder(l', present, cb);
      ListRemoveContents(l'.todo, cb);
    } else if cb in l'.todo {
      KeepContents(l.todo, RemovedIn(acts), cb);
      KeepFirst(l.todo, RemovedIn(acts));
      StaysAway(l1, here, acts, cb);
      KeptInOrder(l', present, cb);
      assert ListRemove(l'.todo, cb) == l'.todo[1..] by { RemoveFirst(l'.todo); }
      SameOrder(l'.(todo := l'.todo[1..], done := l'.done + [cb]), Turn(l, here, script), present);
    }
  }

  lemma SameOrder(l: Local, r: Local, present: seq<nat>)
    requires InOrder(l, present) && r.todo == l.todo && r.done == l.done
    ensures InOrder(r, present)
  {
  }

  lemma RemoveFirst(s: seq<nat>)
    requires s != []
    ensures ListRemove(s, s[0]) == s[1..]
  {
  }

  lemma {:induction false} DispatchInOrder(l: Local, here: set<nat>, script: Script, present: seq<nat>)
    requires Accounted(l) && InOrder(l, present)
    requires (forall x :: x in present ==> x <= l.last) && forall x :: x in l.todo ==> x in present
    ensures InOrder(Dispatch(l, here, script), present)
    decreases |l.todo|
  {
    hide Accounted, InOrder, Turn;
    if l.todo != [] {
      TurnInOrder(l, here, script, present);
      TurnAccounted(l, here, script);
      DispatchInOrder(Turn(l, here, script), here, script, present);
    }
  }

  /** The watches of the start that are left are in the order they had. */
  lemma OrderKept(script: Script, here: set<nat>, present: seq<nat>, last: nat)
    requires NoDup(present) && forall y :: y in present ==> y <= last
    ensures
      var r := Dispatch(Begin(present, last), here, script);
      Among(r.done, present) == Among(present, r.done)
  {
    hide Dispatch;
    var l := Begin(present, last);
    AmongAll(present, present);
    assert Among([], present) + present == present;
    DispatchInOrder(l, here, script, present);
    var r := Dispatch(l, here, script);
    assert Among(r.done, present) + [] == Among(r.done, present);
    AmongTwice(present, r.done, present);
  }

  /** Only what is in both counts. */
  lemma {:induction false} AmongTwice(a: seq<nat>, b: seq<nat>, c: seq<nat>)
    requires forall x :: x in a ==> x in c
    ensures Among(a, Among(b, c)) == Among(a, b)
  {
    if a != [] {
      AmongContents(b, c, a[0]);
      AmongTwice(a[1..], b, c);
    }
  }

  lemma {:induction false} AmongContents(a: seq<nat>, b: seq<nat>, x: nat)
    ensures x in Among(a, b) <==> x in a && x in b
  {
    if a != [] { AmongContents(a[1..], b, x); }
  }
}
