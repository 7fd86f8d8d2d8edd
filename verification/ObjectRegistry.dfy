/** The records behind the object paths of a connection, updated in place as gdbus/object.c
    does; every call is proved against `ObjectTree`. */
module ObjectRegistry {
  import opened Basics
  import opened ObjectTree

  class GenericData {
    var refcount: int
    var interfaces: seq<Iface>
    var introspect: Option<Xml>

    constructor ()
      ensures refcount == 1 && interfaces == [] && introspect == Some(EmptyNode)
    {
      refcount, interfaces, introspect := 1, [], Some(EmptyNode);
    }

    ghost function Value(): Info
      reads this
    {
      Info(refcount, interfaces, introspect)
    }
  }

  /** Every path has a record of its own. */
  ghost predicate Holds(objects: map<Path, GenericData>, t: Tree)
    reads objects.Values
  {
    && objects.Keys == t.Keys
    && (forall p :: p in objects ==> objects[p].Value() == t[p])
    && (forall p, q :: p in objects && q in objects && p != q ==> objects[p] != objects[q])
  }

  class Connection {
    var objects: map<Path, GenericData>
    ghost var tree: Tree

    ghost predicate Valid()
      reads this, objects.Values
    {
      Holds(objects, tree)
    }

    constructor ()
      ensures Valid() && tree == map[] && objects == map[]
    {
      objects, tree := map[], map[];
    }

    /** Changing the record of one path. */
    method Update(p: Path, refcount: int, interfaces: seq<Iface>, introspect: Option<Xml>)
      requires Valid() && p in objects
      modifies this`tree, objects[p]
      ensures Valid() && tree == old(tree)[p := Info(refcount, interfaces, introspect)]
    {
      var data := objects[p];
      data.refcount, data.interfaces, data.introspect := refcount, interfaces, introspect;
      tree := tree[p := data.Value()];
    }

    /** `invalidate_parent_data`: up to the root, then down again clearing caches. */
    method InvalidateParentData(child: Path)
      requires Valid()
      modifies this`tree, objects.Values
      ensures Valid() && tree == Invalidate(old(tree), child)
      decreases |child|
    {
      if child == [] {
        assert tree == Invalidate(tree, child);
        return;
      }
      var parent := child[..|child| - 1];
      InvalidateParentData(parent);
      ghost var t := old(tree);
      InvalidateOne(t, child);
      if parent in objects {
        Update(parent, objects[parent].refcount, objects[parent].interfaces, None);
      }
    }

    /** `object_path_ref`. */
    method ObjectPathRef(p: Path)
      requires Valid()
      modifies this, objects.Values
      ensures Valid() && p in objects && tree == Ref(old(tree), p)
      ensures forall o :: o in objects.Values ==> o in old(objects.Values) || fresh(o)
    {
      hide Holds, Invalidate;
      SameKeys();
      if p in objects {
        RecordOf(p);
        Update(p, objects[p].refcount + 1, objects[p].interfaces, objects[p].introspect);
        return;
      }
      var data := new GenericData();
      InvalidateParentData(p);
      AddRecord(p, data);
    }

    /** A new path: the record is filled in and registered. */
    method AddRecord(p: Path, data: GenericData)
      requires Valid() && p !in objects && data !in objects.Values
      requires data.refcount == 1 && data.interfaces == [] && data.introspect == Some(EmptyNode)
      modifies this, data
      ensures Valid() && objects == old(objects)[p := data]
      ensures tree == old(tree)[p := Info(1, [INTROSPECT_IFACE], Some(EmptyNode))]
    {
      data.interfaces := data.interfaces + [INTROSPECT_IFACE];
      assert data.interfaces == [INTROSPECT_IFACE];
      objects := objects[p := data];
      tree := tree[p := data.Value()];
    }

    /** `object_path_unref`. */
    method ObjectPathUnref(p: Path)
      requires Valid()
      modifies this, objects.Values
      ensures Valid() && tree == Unref(old(tree), p)
      ensures forall o :: o in objects.Values ==> o in old(objects.Values)
    {
      if p !in objects {
        return;
      }
      if objects[p].refcount - 1 > 0 {
        Update(p, objects[p].refcount - 1, objects[p].interfaces, objects[p].introspect);
        return;
      }
      InvalidateParentData(p);
      objects := objects - {p};
      tree := tree - {p};
    }

    /** `g_dbus_register_interface`. */
    method RegisterInterface(p: Path, iface: Iface) returns (ok: bool)
      requires Valid()
      modifies this, objects.Values
      ensures Valid() && (tree, ok) == Register(old(tree), p, iface)
    {
      hide Holds, Unref, Ref;
      ObjectPathRef(p);
      RecordOf(p);
      var data := objects[p];
      if HasIface(data.interfaces, iface.name) {
        ObjectPathUnref(p);
        return false;
      }
      Update(p, data.refcount, data.interfaces + [iface], None);
      return true;
    }

    lemma RecordOf(p: Path)
      requires Valid() && p in objects
      ensures p in tree && objects[p].Value() == tree[p]
    {
    }

    lemma SameKeys()
      requires Valid()
      ensures objects.Keys == tree.Keys
    {
    }

    /** `g_dbus_unregister_interface`. */
    method UnregisterInterface(p: Path, name: string) returns (ok: bool)
      requires Valid()
      modifies this, objects.Values
      ensures Valid() && (tree, ok) == Unregister(old(tree), p, name)
    {
      hide Holds, Unref;
      SameKeys();
      if p !in objects {
        assert p !in tree.Keys;
        return false;
      }
      RecordOf(p);
      var data := objects[p];
      if !HasIface(data.interfaces, name) {
        return false;
      }
      Update(p, data.refcount, RemoveIface(data.interfaces, name), None);
      ObjectPathUnref(p);
      return true;
    }

    /** An Introspect call on a path. */
    method Introspect(p: Path) returns (r: Option<Xml>)
      requires Valid()
      modifies this`tree, objects.Values
      ensures Valid() && (tree, r) == ObjectTree.Introspect(old(tree), p)
    {
      hide Holds, Children;
      SameKeys();
      if p !in objects {
        assert p !in tree.Keys;
        return None;
      }
      RecordOf(p);
      var data := objects[p];
      if !HasIface(data.interfaces, INTROSPECTABLE) {
        return None;
      }
      if data.introspect == None {
        var children := set q | q in objects && Above(p, q) :: q[|p|];
        assert children == Children(tree, p) by { ListsChildren(p); }
        var xml := Xml(data.interfaces, children);
        assert xml == Regenerate(tree, p);
        Update(p, data.refcount, data.interfaces, Some(xml));
        return Some(xml);
      }
      r := data.introspect;
    }

    /** What the connection lists are the children of the path. */
    lemma ListsChildren(p: Path)
      requires Valid()
      ensures (set q | q in objects && Above(p, q) :: q[|p|]) == Children(tree, p)
    {
      assert forall q :: q in objects.Keys <==> q in tree.Keys;
    }
  }

  /** Clearing the parent after everything above it clears everything above the child. */
  lemma InvalidateOne(t: Tree, child: Path)
    requires child != []
    ensures
      var parent := child[..|child| - 1];
      var t1 := Invalidate(t, parent);
      Invalidate(t, child) == if parent in t then t1[parent := t1[parent].(introspect := None)] else t1
  {
    var parent := child[..|child| - 1];
    forall q ensures Above(q, child) <==> Above(q, parent) || q == parent {
      if |q| < |child| { assert child[..|q|] == parent[..|q|]; }
    }
  }
}
