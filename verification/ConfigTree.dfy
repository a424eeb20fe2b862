/** Configuration objects in memory, and setDotpath writing into them. */
module ConfigTree {
  import opened Text
  import opened Documents
  import opened Dotpath

  /** A property's value: an object, or a value that writes do not go into. */
  datatype Node = Leaf(value: Value) | Ref(o: ConfigObject)

  class ConfigObject {
    var fields: map<string, Node>
    ghost var repr: set<ConfigObject>
    ghost var contents: Object

    /** The object and its descendants form a tree that holds the contents. */
    ghost predicate Valid()
      reads this, repr
      decreases repr
    {
      this in repr && contents.Keys == fields.Keys &&
      (forall k :: k in fields ==> Holds(fields[k], contents[k])) &&
      (forall j, k :: j in fields && k in fields && j != k && fields[j].Ref? && fields[k].Ref? ==>
        fields[j].o.repr !! fields[k].o.repr)
    }

    /** A property's value, in a part of the tree of its own. */
    ghost predicate Holds(n: Node, v: Value)
      reads this, repr
      decreases repr, 0
    {
      match n
      case Leaf(w) => v == w && !w.Obj?
      case Ref(o) => o in repr && o.repr < repr && this !in o.repr && o.Valid() && v == Obj(o.contents)
    }

    constructor ()
      ensures Valid() && contents == map[] && repr == {this}
    {
      fields, repr, contents := map[], {this}, map[];
    }

    /** A new object under a key, in place of anything but an object. */
    method CreateUnder(key: string) returns (child: ConfigObject)
      requires Valid() && (key in fields ==> fields[key].Leaf?)
      modifies this
      ensures Valid() && child.Valid() && child.contents == map[]
      ensures fields == old(fields)[key := Ref(child)]
      ensures contents == old(contents)[key := Obj(map[])]
      ensures fresh(child) && repr == old(repr) + {child}
    {
      child := new ConfigObject();
      ghost var before, was := fields, contents;
      fields := fields[key := Ref(child)];
      repr := repr + {child};
      contents := contents[key := Obj(map[])];
      forall k | k in fields ensures Holds(fields[k], contents[k]) {
        if k != key { assert old(Holds(before[k], was[k])); }
      }
    }

    /** ensureConfigObjectKey */
    method EnsureKey(key: string) returns (child: ConfigObject)
      requires Valid()
      modifies this
      ensures Valid() && key in fields && fields[key] == Ref(child)
      ensures child.contents == ObjectUnder(old(contents), key)
      ensures contents == old(contents)[key := Obj(child.contents)]
      ensures fields == old(fields)[key := Ref(child)]
      ensures old(repr) <= repr && fresh(repr - old(repr))
    {
      assert key in fields ==> Holds(fields[key], contents[key]);
      if key in fields && fields[key].Ref? {
        child := fields[key].o;
      } else {
        child := CreateUnder(key);
      }
    }

    /** current[leafKey] = value */
    method Assign(key: string, node: Node, ghost v: Value)
      requires Valid() && IsApart(node, v)
      modifies this
      ensures Valid() && contents == old(contents)[key := v]
      ensures fields == old(fields)[key := node]
      ensures repr == old(repr) + ReprOf(node)
    {
      ghost var before, was := fields, contents;
      fields := fields[key := node];
      repr := repr + ReprOf(node);
      contents := contents[key := v];
      forall k | k in fields ensures Holds(fields[k], contents[k]) {
        if k != key { assert old(Holds(before[k], was[k])); }
      }
    }

    /** The tree is valid but for what the object under a key now holds. */
    ghost predicate ValidBut(key: string)
      reads this, repr, if key in fields then ReprOf(fields[key]) else {}
    {
      this in repr && contents.Keys == fields.Keys && key in fields && fields[key].Ref? &&
      this !in fields[key].o.repr && fields[key].o.Valid() &&
      (forall k :: k in fields && k != key ==> Holds(fields[k], contents[k])) &&
      (forall k :: k in fields && k != key && fields[k].Ref? ==> fields[k].o.repr !! fields[key].o.repr) &&
      (forall j, k :: j in fields && k in fields && j != k && j != key && k != key &&
                      fields[j].Ref? && fields[k].Ref? ==>
        fields[j].o.repr !! fields[k].o.repr)
    }

    ghost method Repair(key: string)
      requires ValidBut(key)
      modifies this
      ensures Valid() && fields == old(fields)
      ensures contents == old(contents)[key := Obj(fields[key].o.contents)]
      ensures repr == old(repr) + old(fields[key].o.repr)
    {
      ghost var was := contents;
      repr := repr + fields[key].o.repr;
      contents := contents[key := Obj(fields[key].o.contents)];
      forall k | k in fields ensures Holds(fields[k], contents[k]) {
        if k != key { assert old(Holds(fields[k], was[k])); }
      }
    }

    /** The value to write holds v and shares nothing with this tree. */
    ghost predicate IsApart(node: Node, v: Value)
      reads this, ReprOf(node)
    {
      match node
      case Leaf(w) => v == w && !w.Obj?
      case Ref(o) => o in o.repr && o.repr !! repr && o.Valid() && v == Obj(o.contents)
    }
  }

  ghost function ReprOf(node: Node): set<ConfigObject>
    reads if node.Ref? then {node.o} else {}
  {
    match node
    case Leaf(_) => {}
    case Ref(o) => {o} + o.repr
  }

  /** setDotpath: what it changes of the tree is what the write changes of the document. */
  method SetDotpath(obj: ConfigObject, dotpath: string, node: Node, ghost v: Value)
    requires obj.Valid() && obj.IsApart(node, v)
    modifies obj.repr
    ensures obj.Valid() && obj.contents == Dotpath.SetDotpath(old(obj.contents), dotpath, v)
    ensures fresh(obj.repr - old(obj.repr) - old(ReprOf(node)))
  {
    var keys := Keys(dotpath);
    if keys[|keys|-1] == "" { return; }
    WriteInto(obj, keys, node, v);
  }

  /** Down to the last key's object, one level at a time, then one assignment. */
  method WriteInto(obj: ConfigObject, keys: seq<string>, node: Node, ghost v: Value)
    requires |keys| > 0
    requires obj.Valid() && obj.IsApart(node, v)
    modifies obj.repr
    ensures obj.Valid() && obj.contents == Write(old(obj.contents), keys, v)
    ensures fresh(obj.repr - old(obj.repr) - old(ReprOf(node)))
    ensures forall k :: k in obj.fields && k != keys[0] ==> k in old(obj.fields) && obj.fields[k] == old(obj.fields[k])
    decreases |keys|, 1
  {
    if |keys| == 1 {
      obj.Assign(keys[0], node, v);
    } else {
      var child := obj.EnsureKey(keys[0]);
      ghost var was := obj.contents;
      WriteBelow(obj, child, keys, node, v);
      obj.Repair(keys[0]);
      assert was[keys[0] := Obj(child.contents)] == old(obj.contents)[keys[0] := Obj(child.contents)];
    }
  }

  /** The write goes on below the first key's object; nothing else in the tree changes. */
  method WriteBelow(obj: ConfigObject, child: ConfigObject, keys: seq<string>, node: Node, ghost v: Value)
    requires |keys| > 1
    requires obj.Valid() && obj.IsApart(node, v)
    requires keys[0] in obj.fields && obj.fields[keys[0]] == Ref(child)
    modifies child.repr
    ensures unchanged(obj) && obj.ValidBut(keys[0])
    ensures child.contents == Write(old(child.contents), keys[1..], v)
    ensures fresh(child.repr - old(child.repr) - old(ReprOf(node)))
    decreases |keys|, 0
  {
    var key := keys[0];
    assert obj.Holds(Ref(child), obj.contents[key]);
    ghost var below, all := child.repr, obj.repr;
    ghost var parts := map k | k in obj.fields && obj.fields[k].Ref? :: obj.fields[k].o.repr;
    forall k | k in parts && k != key ensures parts[k] !! below && parts[k] <= all {
      assert obj.Holds(obj.fields[k], obj.contents[k]);
    }
    assert forall k :: k in obj.fields && k != key ==> obj.Holds(obj.fields[k], obj.contents[k]);
    label before:
    WriteInto(child, keys[1..], node, v);
    forall k | k in obj.fields && k != key
      ensures obj.Holds(obj.fields[k], obj.contents[k])
      ensures k in parts ==> obj.fields[k].o.repr == parts[k]
    {
      assert old@before(obj.Holds(obj.fields[k], obj.contents[k]));
      if obj.fields[k].Ref? {
        var o := obj.fields[k].o;
        assert old@before(o.Valid()) && o !in below;
        assert o.repr == old@before(o.repr);
        assert o.Valid();
      }
    }
    assert child.repr * all <= below;
    forall k | k in parts && k != key ensures obj.fields[k].o.repr !! child.repr {
      assert parts[k] <= all;
    }
  }
}
