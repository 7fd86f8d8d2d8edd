/** What an Introspect call lists, told from the calls made before it. */
module Introspection {
  import opened Basics
  import opened ObjectTree

  // ---------------------------------------------------------------- one call

  /** The answer for a registered path: its interfaces in order, and an element below it if and only
      if some path is registered through that element. */
  lemma IntrospectLists(t: Tree, p: Path)
    requires Coherent(t) && p in t
    ensures
      var r := Introspect(t, p).1;
      && r.Some? && r.value.Xml? && r.value.interfaces == t[p].interfaces
      && forall s :: s in r.value.children <==> exists q :: q in t && |p| < |q| && q[..|p|] == p && q[|p|] == s
  {
    IntrospectCoherent(t, p);
  }

  lemma NotRegistered(t: Tree, p: Path)
    requires p !in t
    ensures Introspect(t, p) == (t, None)
  {
  }

  // ---------------------------------------------------------------- what is registered

  /** The interfaces without those of a name. */
  function Without(ifaces: seq<Iface>, name: string): seq<Iface> {
    if ifaces == [] then []
    else (if ifaces[0].name == name then [] else [ifaces[0]]) + Without(ifaces[1..], name)
  }

  /** The interfaces of users that are registered at a path after some calls, in the order of their
      registration: a name counts once, and the name of Introspectable, which is not a user's, takes
      the last one with it when it is unregistered. */
  function Users(calls: seq<Call>, p: Path): seq<Iface> {
    if calls == [] then []
    else
      var before := Users(calls[..|calls| - 1], p);
      match calls[|calls| - 1]
      case DoRegister(q, iface) =>
        if q != p || iface.name == INTROSPECTABLE || HasIface(before, iface.name) then before else before + [iface]
      case DoUnregister(q, name) =>
        if q != p then before
        else if name == INTROSPECTABLE && |before| == 1 then []
        else Without(before, name)
      case DoIntrospect(_) => before
  }

  // ---------------------------------------------------------------- lists

  lemma {:induction false} WithoutIsRemove(ifaces: seq<Iface>, name: string)
    requires Distinct(ifaces)
    ensures Without(ifaces, name) == RemoveIface(ifaces, name)
  {
    if ifaces != [] {
      assert Distinct(ifaces[1..]);
      WithoutIsRemove(ifaces[1..], name);
      if ifaces[0].name == name {
        assert !HasIface(ifaces[1..], name) by {
          assert forall i :: 0 <= i < |ifaces[1..]| ==> ifaces[1..][i] == ifaces[i + 1];
        }
      }
    }
  }

  lemma HasTail(users: seq<Iface>, name: string)
    ensures HasIface([INTROSPECT_IFACE] + users, name) <==> name == INTROSPECTABLE || HasIface(users, name)
  {
    var all := [INTROSPECT_IFACE] + users;
    assert all[0].name == INTROSPECTABLE;
    assert forall i :: 0 <= i < |users| ==> all[i + 1] == users[i];
    if HasIface(all, name) {
      var i :| 0 <= i < |all| && all[i].name == name;
      if i > 0 { assert users[i - 1].name == name; }
    }
    if HasIface(users, name) {
      var i :| 0 <= i < |users| && users[i].name == name;
      assert all[i + 1].name == name;
    }
  }

  lemma RemoveTail(users: seq<Iface>, name: string)
    requires Distinct([INTROSPECT_IFACE] + users) && name != INTROSPECTABLE
    ensures RemoveIface([INTROSPECT_IFACE] + users, name) == [INTROSPECT_IFACE] + Without(users, name)
    ensures Distinct(users) && |Without(users, name)| == if HasIface(users, name) then |users| - 1 else |users|
  {
    var all := [INTROSPECT_IFACE] + users;
    assert all[1..] == users;
    assert forall i :: 0 <= i < |users| ==> users[i] == all[i + 1];
    WithoutIsRemove(users, name);
  }

  // ---------------------------------------------------------------- the tree shows it

  /** The tree has exactly the paths with interfaces of users, each with Introspectable and those. */
  ghost predicate Shows(t: Tree, calls: seq<Call>) {
    && (forall p :: p in t <==> Users(calls, p) != [])
    && (forall p :: p in t ==> t[p].interfaces == [INTROSPECT_IFACE] + Users(calls, p))
  }

  /** The interfaces at a path, none if it is not registered. */
  function At(t: Tree, p: Path): seq<Iface> {
    if p in t then t[p].interfaces else []
  }

  /** `t'` differs from `t` in the interfaces of one path at most. */
  ghost predicate Elsewhere(t: Tree, t': Tree, p: Path) {
    forall q :: q != p ==> (q in t' <==> q in t) && At(t', q) == At(t, q)
  }

  lemma RegisterAt(t: Tree, p: Path, iface: Iface)
    requires AllCounted(t)
    ensures
      var t' := Register(t, p, iface).0;
      && Elsewhere(t, t', p)
      && (p in t' <==> p in t || iface.name != INTROSPECTABLE)
      && At(t', p) == (if p in t then
                         t[p].interfaces + (if HasIface(t[p].interfaces, iface.name) then [] else [iface])
                       else if iface.name == INTROSPECTABLE then [] else [INTROSPECT_IFACE, iface])
  {
    hide HasIface, Register, AllCounted;
    if p in t { RegisterKnown(t, p, iface); } else { RegisterNew(t, p, iface); }
  }

  lemma RegisterKnown(t: Tree, p: Path, iface: Iface)
    requires AllCounted(t) && p in t
    ensures
      var t' := Register(t, p, iface).0;
      && Elsewhere(t, t', p) && p in t'
      && t'[p].interfaces == t[p].interfaces + (if HasIface(t[p].interfaces, iface.name) then [] else [iface])
  {
    hide HasIface, Counted;
    FirstIsIntrospectable(t, p);
  }

  lemma RegisterNew(t: Tree, p: Path, iface: Iface)
    requires p !in t
    ensures
      var t' := Register(t, p, iface).0;
      && Elsewhere(t, t', p) && (p in t' <==> iface.name != INTROSPECTABLE)
      && (p in t' ==> t'[p].interfaces == [INTROSPECT_IFACE, iface])
  {
    hide HasIface;
    assert [INTROSPECT_IFACE] + [iface] == [INTROSPECT_IFACE, iface];
    HasTail([], iface.name);
    assert [INTROSPECT_IFACE] + [] == [INTROSPECT_IFACE];
    NoneIn(iface.name);
  }

  lemma UnregisterAt(t: Tree, p: Path, name: string)
    requires AllCounted(t)
    ensures
      var t' := Unregister(t, p, name).0;
      && Elsewhere(t, t', p)
      && if p !in t || !HasIface(t[p].interfaces, name) then t' == t
         else if t[p].refcount == 1 then p !in t'
         else p in t' && t'[p].interfaces == RemoveIface(t[p].interfaces, name)
  {
    hide HasIface, RemoveIface, Counted;
    if p in t { FirstIsIntrospectable(t, p); }
  }

  lemma {:induction false} UsersSnoc(calls: seq<Call>, call: Call, p: Path)
    ensures
      var before, after := Users(calls, p), Users(calls + [call], p);
      match call
      case DoRegister(q, iface) =>
        after == if q != p || iface.name == INTROSPECTABLE || HasIface(before, iface.name) then before
                 else before + [iface]
      case DoUnregister(q, name) =>
        after == if q != p then before
                 else if name == INTROSPECTABLE && |before| == 1 then []
                 else Without(before, name)
      case DoIntrospect(_) => after == before
  {
    assert (calls + [call])[..|calls|] == calls;
  }

  lemma ShowsElsewhere(t: Tree, t': Tree, calls: seq<Call>, call: Call, p: Path)
    requires Shows(t, calls) && Elsewhere(t, t', p) && !call.DoIntrospect? && call.path == p
    requires p in t' <==> Users(calls + [call], p) != []
    requires p in t' ==> t'[p].interfaces == [INTROSPECT_IFACE] + Users(calls + [call], p)
    ensures Shows(t', calls + [call])
  {
    hide Users;
    forall q | q != p
      ensures (q in t' <==> Users(calls + [call], q) != [])
      ensures q in t' ==> t'[q].interfaces == [INTROSPECT_IFACE] + Users(calls + [call], q)
    {
      UsersSnoc(calls, call, q);
      assert At(t', q) == At(t, q);
    }
  }

  lemma RegisterShows(t: Tree, calls: seq<Call>, p: Path, iface: Iface)
    requires AllCounted(t) && Shows(t, calls)
    ensures Shows(Register(t, p, iface).0, calls + [DoRegister(p, iface)])
  {
    hide Users, Register, HasIface, AllCounted;
    var call := DoRegister(p, iface);
    RegisterAt(t, p, iface);
    UsersSnoc(calls, call, p);
    var users := Users(calls, p);
    HasTail(users, iface.name);
    assert [INTROSPECT_IFACE] + [] == [INTROSPECT_IFACE] && [INTROSPECT_IFACE] + [iface] == [INTROSPECT_IFACE, iface];
    assert users == [] ==> !HasIface(users, iface.name) by { NoneIn(iface.name); }
    assert [INTROSPECT_IFACE] + users + [iface] == [INTROSPECT_IFACE] + (users + [iface]);
    ShowsElsewhere(t, Register(t, p, iface).0, calls, call, p);
  }

  lemma NoneIn(name: string)
    ensures !HasIface([], name)
  {
  }

  lemma UnregisterShows(t: Tree, calls: seq<Call>, p: Path, name: string)
    requires AllCounted(t) && Shows(t, calls) && Fair(t, DoUnregister(p, name))
    ensures Shows(Unregister(t, p, name).0, calls + [DoUnregister(p, name)])
  {
    hide Users, Unregister, HasIface, RemoveIface;
    var call := DoUnregister(p, name);
    UnregisterAt(t, p, name);
    UsersSnoc(calls, call, p);
    var users := Users(calls, p);
    if p in t {
      HasTail(users, name);
      if name != INTROSPECTABLE { RemoveTail(users, name); }
    }
    ShowsElsewhere(t, Unregister(t, p, name).0, calls, call, p);
  }

  lemma IntrospectShows(t: Tree, calls: seq<Call>, p: Path)
    requires Shows(t, calls)
    ensures Shows(Introspect(t, p).0, calls + [DoIntrospect(p)])
  {
    hide Users, HasIface;
    forall q ensures Users(calls + [DoIntrospect(p)], q) == Users(calls, q) { UsersSnoc(calls, DoIntrospect(p), q); }
  }

  // ---------------------------------------------------------------- runs

  lemma {:induction false} ApplySnoc(t: Tree, calls: seq<Call>, call: Call)
    ensures ApplyAll(t, calls + [call]) == Apply(ApplyAll(t, calls), call)
    ensures AllFair(t, calls + [call]) <==> AllFair(t, calls) && Fair(ApplyAll(t, calls), call)
    decreases |calls|
  {
    hide Apply, Fair;
    var all := calls + [call];
    if calls == [] {
      assert all == [call] && all[1..] == [];
    } else {
      assert all[0] == calls[0] && all[1..] == calls[1..] + [call];
      ApplySnoc(Apply(t, calls[0]), calls[1..], call);
    }
  }

  lemma {:induction false} RunShows(calls: seq<Call>)
    requires AllFair(map[], calls)
    ensures Coherent(ApplyAll(map[], calls)) && Shows(ApplyAll(map[], calls), calls)
    decreases |calls|
  {
    hide Apply, Fair, Users, Shows, Coherent;
    AlwaysCoherent(map[], calls) by { NothingCoherent(); }
    if calls == [] {
      NothingShown();
    } else {
      var front, call := calls[..|calls| - 1], calls[|calls| - 1];
      assert calls == front + [call];
      ApplySnoc(map[], front, call);
      RunShows(front);
      StepShows(ApplyAll(map[], front), front, call);
    }
  }

  lemma NothingCoherent()
    ensures Coherent(map[])
  {
  }

  lemma NothingShown()
    ensures Shows(map[], [])
  {
  }

  lemma StepShows(t: Tree, calls: seq<Call>, call: Call)
    requires Coherent(t) && Shows(t, calls) && Fair(t, call)
    ensures Shows(Apply(t, call), calls + [call])
  {
    hide Shows, AllFresh, AllCounted;
    match call {
      case DoRegister(p, iface) => RegisterShows(t, calls, p, iface);
      case DoUnregister(p, name) => UnregisterShows(t, calls, p, name);
      case DoIntrospect(p) => IntrospectShows(t, calls, p);
    }
  }

  /** After any fair calls on a new connection an Introspect call answers if and only if the path has an
      interface of a user. It lists Introspectable and exactly the interfaces registered there and not
      unregistered since, in order, and as elements below exactly those that lead to a path with an
      interface of a user. */
  lemma IntrospectAfter(calls: seq<Call>, p: Path)
    requires AllFair(map[], calls)
    ensures
      var r := Introspect(ApplyAll(map[], calls), p).1;
      if Users(calls, p) == [] then r == None
      else
        && r.Some? && r.value.Xml? && r.value.interfaces == [INTROSPECT_IFACE] + Users(calls, p)
        && forall s :: s in r.value.children <==>
             exists q :: Users(calls, q) != [] && |p| < |q| && q[..|p|] == p && q[|p|] == s
  {
    hide Users, Coherent, Introspect;
    RunShows(calls);
    var t := ApplyAll(map[], calls);
    if p in t { IntrospectLists(t, p); } else { NotRegistered(t, p); }
  }
}
