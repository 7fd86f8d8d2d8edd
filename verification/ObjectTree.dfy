/** The object paths of a D-Bus connection in gdbus/object.c as values: interfaces, reference
    counts and the introspection data cached for every path. */
module ObjectTree {
  import opened Basics

  /** A path as its elements; the root has none. */
  type Path = seq<string>

  /** An interface, and the part of the introspection data that describes it. */
  datatype Iface = Iface(name: string, description: string)

  const INTROSPECTABLE := "org.freedesktop.DBus.Introspectable"

  const INTROSPECT_IFACE := Iface(INTROSPECTABLE, "Introspect")

  /** Introspection data: the interfaces in order and the elements one level below; or the
      empty node that a new path starts with. */
  datatype Xml = EmptyNode | Xml(interfaces: seq<Iface>, children: set<string>)

  datatype Info = Info(refcount: int, interfaces: seq<Iface>, introspect: Option<Xml>)

  type Tree = map<Path, Info>

  // ---------------------------------------------------------------- paths

  predicate Above(p: Path, q: Path) {
    |p| < |q| && q[..|p|] == p
  }

  /** What `dbus_connection_list_registered` lists: the next element of every registered path
      below. */
  function Children(t: Tree, p: Path): set<string> {
    set q | q in t && Above(p, q) :: q[|p|]
  }

  /** What `generate_introspection_xml` would write now. */
  function Regenerate(t: Tree, p: Path): Xml
    requires p in t
  {
    Xml(t[p].interfaces, Children(t, p))
  }

  // ---------------------------------------------------------------- interfaces

  /** `find_interface`. */
  predicate HasIface(ifaces: seq<Iface>, name: string) {
    exists i :: 0 <= i < |ifaces| && ifaces[i].name == name
  }

  /** `g_slist_remove` of the interface found under a name. */
  function RemoveIface(ifaces: seq<Iface>, name: string): (r: seq<Iface>)
    ensures forall i :: 0 <= i < |r| ==> r[i] in ifaces
    ensures HasIface(ifaces, name) ==> |r| == |ifaces| - 1
    ensures !HasIface(ifaces, name) ==> r == ifaces
  {
    if ifaces == [] then []
    else if ifaces[0].name == name then ifaces[1..]
    else
      var r := RemoveIface(ifaces[1..], name);
      assert HasIface(ifaces, name) ==> HasIface(ifaces[1..], name) by {
        if HasIface(ifaces, name) {
          var i :| 0 <= i < |ifaces| && ifaces[i].name == name;
          assert ifaces[1..][i - 1].name == name;
        }
      }
      assert HasIface(ifaces[1..], name) ==> HasIface(ifaces, name) by {
        if HasIface(ifaces[1..], name) {
          var i :| 0 <= i < |ifaces[1..]| && ifaces[1..][i].name == name;
          assert ifaces[i + 1].name == name;
        }
      }
      [ifaces[0]] + r
  }

  // ---------------------------------------------------------------- operations

  /** `invalidate_parent_data`: no path above keeps its cache. */
  function Invalidate(t: Tree, p: Path): (r: Tree)
    ensures r.Keys == t.Keys
  {
    map q | q in t :: if Above(q, p) then t[q].(introspect := None) else t[q]
  }

  /** `object_path_ref`. */
  function Ref(t: Tree, p: Path): (r: Tree)
    ensures r.Keys == t.Keys + {p}
  {
    if p in t then t[p := t[p].(refcount := t[p].refcount + 1)]
    else Invalidate(t, p)[p := Info(1, [INTROSPECT_IFACE], Some(EmptyNode))]
  }

  /** `object_path_unref`. */
  function Unref(t: Tree, p: Path): Tree {
    if p !in t then t
    else if t[p].refcount - 1 > 0 then t[p := t[p].(refcount := t[p].refcount - 1)]
    else Invalidate(t, p) - {p}
  }

  /** `g_dbus_register_interface`. */
  function Register(t: Tree, p: Path, iface: Iface): (Tree, bool) {
    var t := Ref(t, p);
    if HasIface(t[p].interfaces, iface.name) then (Unref(t, p), false)
    else (t[p := t[p].(interfaces := t[p].interfaces + [iface], introspect := None)], true)
  }

  /** `g_dbus_unregister_interface`. */
  function Unregister(t: Tree, p: Path, name: string): (Tree, bool) {
    if p !in t || !HasIface(t[p].interfaces, name) then (t, false)
    else
      var t := t[p := t[p].(interfaces := RemoveIface(t[p].interfaces, name), introspect := None)];
      (Unref(t, p), true)
  }

  /** `introspect`, reached through `generic_message`: the answer to an Introspect call. */
  function Introspect(t: Tree, p: Path): (Tree, Option<Xml>) {
    if p !in t || !HasIface(t[p].interfaces, INTROSPECTABLE) then (t, None)
    else if t[p].introspect.Some? then (t, t[p].introspect)
    else (t[p := t[p].(introspect := Some(Regenerate(t, p)))], Some(Regenerate(t, p)))
  }

  // ---------------------------------------------------------------- the invariant

  ghost predicate Distinct(ifaces: seq<Iface>) {
    forall i, j :: 0 <= i < j < |ifaces| ==> ifaces[i].name != ifaces[j].name
  }

  /** A registered path has Introspectable first and one reference for each interface of a
      user, of which there is at least one. */
  ghost predicate Counted(info: Info) {
    && |info.interfaces| >= 2 && info.interfaces[0] == INTROSPECT_IFACE && Distinct(info.interfaces)
    && info.refcount == |info.interfaces| - 1
  }

  /** A cache is empty or up to date. */
  ghost predicate Fresh(t: Tree, p: Path)
    requires p in t
  {
    t[p].introspect == None || t[p].introspect == Some(Regenerate(t, p))
  }

  ghost predicate AllFresh(t: Tree) {
    forall p :: p in t ==> Fresh(t, p)
  }

  ghost predicate AllCounted(t: Tree) {
    forall p :: p in t ==> Counted(t[p])
  }

  ghost predicate Coherent(t: Tree) {
    AllFresh(t) && AllCounted(t)
  }

  // ---------------------------------------------------------------- children

  /** Adding or removing a path changes the children of the paths above it only. */
  lemma ChildrenElsewhere(t: Tree, t': Tree, p: Path, q: Path)
    requires t'.Keys - {p} == t.Keys - {p} && !Above(q, p)
    ensures Children(t', q) == Children(t, q)
  {
    forall r | Above(q, r) ensures r in t' <==> r in t {
      if r != p { assert r in t'.Keys - {p} <==> r in t.Keys - {p}; }
    }
    assert forall c :: c in Children(t', q) ==> c in Children(t, q);
    assert forall c :: c in Children(t, q) ==> c in Children(t', q);
  }

  lemma SameChildren(t: Tree, t': Tree, q: Path)
    requires t'.Keys == t.Keys
    ensures Children(t', q) == Children(t, q)
  {
    assert forall r :: r in t' <==> r in t;
  }

  // ---------------------------------------------------------------- caches

  /** A change of one record leaves all caches fresh, if that of the record is. */
  lemma ChangedFresh(t: Tree, t': Tree, p: Path)
    requires AllFresh(t) && p in t && p in t' && t' == t[p := t'[p]] && Fresh(t', p)
    ensures AllFresh(t')
  {
    hide Children;
    forall q | q in t' && q != p ensures Fresh(t', q) { SameChildren(t, t', q); }
  }

  /** Adding or removing a path leaves all caches fresh if those above it are cleared. */
  lemma MovedFresh(t: Tree, t': Tree, p: Path)
    requires AllFresh(t) && t'.Keys - {p} == t.Keys - {p} && (p in t' ==> Fresh(t', p))
    requires forall q :: q in t' && q != p ==> q in t
    requires forall q :: q in t' && q != p ==> t'[q] == if Above(q, p) then t[q].(introspect := None) else t[q]
    ensures AllFresh(t')
  {
    hide Children;
    forall q | q in t' && q != p ensures Fresh(t', q) {
      if !Above(q, p) { ChildrenElsewhere(t, t', p, q); }
    }
  }

  lemma UnrefFresh(t: Tree, p: Path)
    requires forall q :: q in t && q != p && !Above(q, p) ==> Fresh(t, q)
    requires p in t && t[p].refcount > 1 ==> AllFresh(t)
    requires p !in t ==> AllFresh(t)
    ensures AllFresh(Unref(t, p))
  {
    hide Children;
    var t' := Unref(t, p);
    if p in t {
      if t[p].refcount > 1 {
        SameChildren(t, t', p);
        ChangedFresh(t, t', p);
      } else {
        forall q | q in t' ensures Fresh(t', q) {
          if !Above(q, p) { ChildrenElsewhere(t, t', p, q); }
        }
      }
    }
  }

  /** Whatever is called, every cache stays empty or up to date. */
  lemma RegisterFresh(t: Tree, p: Path, iface: Iface)
    requires AllFresh(t)
    ensures AllFresh(Register(t, p, iface).0)
  {
    hide HasIface, Children, Unref;
    var (t', ok) := Register(t, p, iface);
    var t1 := Ref(t, p);
    if p in t {
      SameChildren(t, t1, p);
      ChangedFresh(t, t1, p);
      if ok { ChangedFresh(t, t', p); } else { UnrefFresh(t1, p); }
    } else if ok {
      MovedFresh(t, t', p);
    } else {
      forall q | q in t1 && q != p && !Above(q, p) ensures Fresh(t1, q) { ChildrenElsewhere(t, t1, p, q); }
      UnrefFresh(t1, p);
    }
  }

  lemma UnregisterFresh(t: Tree, p: Path, name: string)
    requires AllFresh(t)
    ensures AllFresh(Unregister(t, p, name).0)
  {
    hide HasIface, Children, Unref, RemoveIface;
    if Unregister(t, p, name).1 {
      var t1 := t[p := t[p].(interfaces := RemoveIface(t[p].interfaces, name), introspect := None)];
      ChangedFresh(t, t1, p);
      UnrefFresh(t1, p);
    }
  }

  lemma IntrospectFresh(t: Tree, p: Path)
    requires AllFresh(t)
    ensures AllFresh(Introspect(t, p).0)
    ensures Introspect(t, p).1 ==
            if p in t && HasIface(t[p].interfaces, INTROSPECTABLE) then Some(Regenerate(t, p)) else None
  {
    hide HasIface, Children;
    var t' := Introspect(t, p).0;
    if p in t {
      SameChildren(t, t', p);
      ChangedFresh(t, t', p);
    }
  }

  // ---------------------------------------------------------------- counts

  lemma DistinctAdd(ifaces: seq<Iface>, iface: Iface)
    requires Distinct(ifaces) && !HasIface(ifaces, iface.name)
    ensures Distinct(ifaces + [iface])
  {
  }

  lemma {:induction false} RemoveDistinct(ifaces: seq<Iface>, name: string)
    requires Distinct(ifaces)
    ensures Distinct(RemoveIface(ifaces, name))
  {
    if ifaces != [] && ifaces[0].name != name {
      assert Distinct(ifaces[1..]);
      RemoveDistinct(ifaces[1..], name);
      var r := RemoveIface(ifaces[1..], name);
      forall j | 0 <= j < |r| ensures r[j].name != ifaces[0].name {
        assert r[j] in ifaces[1..];
        var k :| 0 <= k < |ifaces[1..]| && ifaces[1..][k] == r[j];
        assert ifaces[k + 1] == r[j];
      }
    }
  }

  lemma FirstIsIntrospectable(t: Tree, p: Path)
    requires AllCounted(t) && p in t
    ensures HasIface(t[p].interfaces, INTROSPECTABLE) && t[p].refcount > 0
  {
    assert t[p].interfaces[0].name == INTROSPECTABLE;
  }

  /** Registering keeps the invariant, also when it is refused. */
  lemma RegisterCoherent(t: Tree, p: Path, iface: Iface)
    requires Coherent(t)
    ensures Coherent(Register(t, p, iface).0)
    ensures Register(t, p, iface).1 <==>
            iface.name != INTROSPECTABLE && (p !in t || !HasIface(t[p].interfaces, iface.name))
  {
    RegisterFresh(t, p, iface);
    if p in t {
      FirstIsIntrospectable(t, p);
    } else {
      assert [INTROSPECT_IFACE][0].name == INTROSPECTABLE;
    }
    if Register(t, p, iface).1 { DistinctAdd(Ref(t, p)[p].interfaces, iface); }
  }

  lemma KeepsFirst(ifaces: seq<Iface>, name: string)
    requires ifaces != [] && ifaces[0] == INTROSPECT_IFACE && name != INTROSPECTABLE
    ensures RemoveIface(ifaces, name) != [] && RemoveIface(ifaces, name)[0] == INTROSPECT_IFACE
  {
  }

  /** Unregistering keeps it unless a caller names Introspectable on a path with more than one
      interface of a user; named on one with a single such interface, it takes the path away. */
  lemma UnregisterCoherent(t: Tree, p: Path, name: string)
    requires Coherent(t)
    ensures Coherent(Unregister(t, p, name).0) <==> name != INTROSPECTABLE || p !in t || t[p].refcount == 1
    ensures Unregister(t, p, name).1 <==> p in t && HasIface(t[p].interfaces, name)
    ensures p in t && t[p].refcount == 1 && HasIface(t[p].interfaces, name) ==> p !in Unregister(t, p, name).0
  {
    hide HasIface;
    UnregisterFresh(t, p, name);
    var (t', ok) := Unregister(t, p, name);
    if p in t { FirstIsIntrospectable(t, p); }
    if ok {
      RemoveDistinct(t[p].interfaces, name);
      if name != INTROSPECTABLE { KeepsFirst(t[p].interfaces, name); }
      if name == INTROSPECTABLE && t[p].refcount > 1 { assert p in t' && !Counted(t'[p]); }
    }
  }

  /** Introspecting keeps it, and answers what is registered now. */
  lemma IntrospectCoherent(t: Tree, p: Path)
    requires Coherent(t)
    ensures Coherent(Introspect(t, p).0)
    ensures Introspect(t, p).1 == if p in t then Some(Regenerate(t, p)) else None
  {
    hide HasIface;
    IntrospectFresh(t, p);
    if p in t { FirstIsIntrospectable(t, p); }
  }

  // ---------------------------------------------------------------- runs

  datatype Call = DoRegister(path: Path, iface: Iface) | DoUnregister(path: Path, name: string)
          | DoIntrospect(path: Path)

  function Apply(t: Tree, call: Call): Tree {
    match call
    case DoRegister(p, iface) => Register(t, p, iface).0
    case DoUnregister(p, name) => Unregister(t, p, name).0
    case DoIntrospect(p) => Introspect(t, p).0
  }

  function ApplyAll(t: Tree, calls: seq<Call>): Tree
    decreases |calls|
  {
    if calls == [] then t else ApplyAll(Apply(t, calls[0]), calls[1..])
  }

  /** After any calls whatsoever every cache is empty or what regeneration would give. */
  lemma {:induction false} AlwaysFresh(t: Tree, calls: seq<Call>)
    requires AllFresh(t)
    ensures AllFresh(ApplyAll(t, calls))
    decreases |calls|
  {
    hide AllFresh;
    if calls != [] {
      match calls[0] {
        case DoRegister(p, iface) => RegisterFresh(t, p, iface);
        case DoUnregister(p, name) => UnregisterFresh(t, p, name);
        case DoIntrospect(p) => IntrospectFresh(t, p);
      }
      AlwaysFresh(Apply(t, calls[0]), calls[1..]);
    }
  }

  /** The call does not unregister Introspectable beside more than one interface of a user. */
  predicate Fair(t: Tree, call: Call) {
    call.DoUnregister? && call.name == INTROSPECTABLE && call.path in t ==> t[call.path].refcount == 1
  }

  predicate AllFair(t: Tree, calls: seq<Call>)
    decreases |calls|
  {
    calls == [] || (Fair(t, calls[0]) && AllFair(Apply(t, calls[0]), calls[1..]))
  }

  ghost predicate Throughout(t: Tree, calls: seq<Call>)
    decreases |calls|
  {
    Coherent(t) && (calls == [] || Throughout(Apply(t, calls[0]), calls[1..]))
  }

  /** In all states of a run every cache is empty or what regeneration would give, every registered
      path has a user's interface, and its reference count is their number, if and only if all calls
      are fair. */
  lemma {:induction false} AlwaysCoherent(t: Tree, calls: seq<Call>)
    requires Coherent(t)
    ensures Throughout(t, calls) <==> AllFair(t, calls)
    ensures AllFair(t, calls) ==> Coherent(ApplyAll(t, calls))
    decreases |calls|
  {
    hide Coherent;
    if calls != [] {
      match calls[0] {
        case DoRegister(p, iface) => RegisterCoherent(t, p, iface);
        case DoUnregister(p, name) => UnregisterCoherent(t, p, name);
        case DoIntrospect(p) => IntrospectCoherent(t, p);
      }
      if Fair(t, calls[0]) { AlwaysCoherent(Apply(t, calls[0]), calls[1..]); }
    }
  }

  // ---------------------------------------------------------------- path names

  /** An element of a path is not empty and has no slash in it. */
  predicate Element(s: string) {
    s != "" && '/' !in s
  }

  function Slashed(p: Path): string {
    if p == [] then "" else Slashed(p[..|p| - 1]) + "/" + p[|p| - 1]
  }

  /** The name of a path. */
  function Name(p: Path): string {
    if p == [] then "/" else Slashed(p)
  }

  /** `strrchr(s, '/')`. */
  function LastSlash(s: string): (r: Option<nat>)
    ensures r.Some? ==> r.value < |s| && s[r.value] == '/'
  {
    if s == "" then None else if s[|s| - 1] == '/' then Some(|s| - 1) else LastSlash(s[..|s| - 1])
  }

  /** The parent name as `invalidate_parent_data` cuts it out of a name. */
  function ParentName(s: string): Option<string> {
    var slash := LastSlash(s);
    if slash == None then None
    else
      var parent := if slash.value == 0 && |s| > 1 then "/" else s[..slash.value];
      if parent == "" then None else Some(parent)
  }

  lemma {:induction false} LastSlashOf(front: string, e: string)
    requires '/' !in e
    ensures LastSlash(front + "/" + e) == Some(|front|)
  {
    var s := front + "/" + e;
    if e == "" {
      assert s[|s| - 1] == '/';
    } else {
      assert s[|s| - 1] == e[|e| - 1];
      assert s[..|s| - 1] == front + "/" + e[..|e| - 1];
      LastSlashOf(front, e[..|e| - 1]);
    }
  }

  lemma {:induction false} SlashedNonempty(p: Path)
    requires p != []
    ensures |Slashed(p)| >= 1
  {
  }

  /** Cutting the name of a path at its last slash gives the name of the path above. */
  lemma ParentIsAbove(p: Path)
    requires forall i :: 0 <= i < |p| ==> Element(p[i])
    ensures ParentName(Name(p)) == if p == [] then None else Some(Name(p[..|p| - 1]))
  {
    if p == [] {
      assert "/"[..0] == "";
    } else {
      var front, e := Slashed(p[..|p| - 1]), p[|p| - 1];
      LastSlashOf(front, e);
      assert Name(p) == front + "/" + e;
      assert Name(p)[..|front|] == front;
      if |p| > 1 { SlashedNonempty(p[..|p| - 1]); }
    }
  }
}
