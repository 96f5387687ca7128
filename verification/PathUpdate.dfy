/** The path write on the document's own objects: nested mappings and lists are changed in place
    (gigaevo/cli/manifest_cmd.py). */
module PathUpdate {
  import opened Basics
  import opened PathLens

  datatype Kind = Scalar | Sequence | Mapping

  class Node {
    var kind: Kind
    var data: string
    var items: seq<Node>
    var fields: map<string, Node>
    /** The objects the document reaches from here, and the tree they spell. */
    ghost var repr: set<Node>
    ghost var value: Tree

    /** Nothing is shared: different elements and different fields lead to disjoint objects. */
    ghost predicate Valid()
      reads this, repr
      decreases repr
    {
      && this in repr
      && (kind != Sequence ==> items == [])
      && (kind != Mapping ==> fields == map[])
      && (forall i :: 0 <= i < |items| ==>
            items[i] in repr && items[i].repr <= repr && this !in items[i].repr && items[i].Valid())
      && (forall k :: k in fields ==>
            fields[k] in repr && fields[k].repr <= repr && this !in fields[k].repr && fields[k].Valid())
      && (forall i, j :: 0 <= i < j < |items| ==> items[i].repr !! items[j].repr)
      && (forall k, l :: k in fields && l in fields && k != l ==> fields[k].repr !! fields[l].repr)
      && match kind
         case Scalar => value == Leaf(data)
         case Sequence =>
           value.List? && |value.items| == |items| && forall i :: 0 <= i < |items| ==> value.items[i] == items[i].value
         case Mapping =>
           value.Dict? && value.fields.Keys == fields.Keys
           && forall k :: k in fields ==> value.fields[k] == fields[k].value
    }

    constructor EmptyMapping()
      ensures Valid() && fresh(repr) && kind == Mapping && fields == map[] && value == EMPTY
    {
      kind, data, items, fields := Mapping, "", [], map[];
      value := EMPTY;
      repr := {this};
    }

    method PutField(k: string, c: Node)
      requires Valid() && c.Valid() && repr !! c.repr && kind == Mapping
      modifies this
      ensures Valid() && repr == old(repr) + c.repr
      ensures kind == Mapping && fields == old(fields)[k := c]
      ensures value == Dict(old(value).fields[k := c.value])
    {
      fields := fields[k := c];
      repr := repr + c.repr;
      value := Dict(value.fields[k := c.value]);
    }

    method PutItem(i: nat, c: Node)
      requires Valid() && c.Valid() && repr !! c.repr && kind == Sequence && i < |items|
      modifies this
      ensures Valid() && repr == old(repr) + c.repr
      ensures value == List(old(value).items[i := c.value])
    {
      items := items[i := c];
      repr := repr + c.repr;
      value := List(value.items[i := c.value]);
    }

    /** The new objects of a document after a write: its own, those of the written value, and new ones. */
    twostate predicate GrewBy(v: Node)
      reads this, v
    {
      forall o :: o in repr ==> o in old(repr) || o in v.repr || fresh(o)
    }

    /** As `Valid`, except that the field `k` may have outgrown what is recorded here. */
    ghost predicate ValidBut(k: string)
      reads this, repr, if k in fields then {fields[k]} + fields[k].repr else {}
    {
      && kind == Mapping && items == [] && this in repr
      && k in fields && fields[k].Valid() && this !in fields[k].repr
      && (forall l :: l in fields && l != k ==>
            fields[l] in repr && fields[l].repr <= repr && this !in fields[l].repr && fields[l].Valid())
      && (forall l, m :: l in fields && m in fields && l != m && l != k && m != k ==> fields[l].repr !! fields[m].repr)
      && (forall l :: l in fields && l != k ==> fields[l].repr !! fields[k].repr)
      && value.Dict? && value.fields.Keys == fields.Keys
      && forall l :: l in fields && l != k ==> value.fields[l] == fields[l].value
    }

    ghost method FieldChanged(k: string)
      requires ValidBut(k)
      modifies this`repr, this`value
      ensures Valid() && repr == old(repr) + fields[k].repr
      ensures value == Dict(old(value).fields[k := fields[k].value])
    {
      var more, spelled := fields[k].repr, fields[k].value;
      repr := repr + more;
      value := Dict(value.fields[k := spelled]);
    }

    ghost predicate ValidButItem(i: nat)
      reads this, repr, if i < |items| then {items[i]} + items[i].repr else {}
    {
      && kind == Sequence && fields == map[] && this in repr
      && i < |items| && items[i].Valid() && this !in items[i].repr
      && (forall j :: 0 <= j < |items| && j != i ==>
            items[j] in repr && items[j].repr <= repr && this !in items[j].repr && items[j].Valid())
      && (forall j, l :: 0 <= j < l < |items| && j != i && l != i ==> items[j].repr !! items[l].repr)
      && (forall j :: 0 <= j < |items| && j != i ==> items[j].repr !! items[i].repr)
      && value.List? && |value.items| == |items|
      && forall j :: 0 <= j < |items| && j != i ==> value.items[j] == items[j].value
    }

    ghost method ItemChanged(i: nat)
      requires ValidButItem(i)
      modifies this`repr, this`value
      ensures Valid() && repr == old(repr) + items[i].repr
      ensures value == List(old(value).items[i := items[i].value])
    {
      repr := repr + items[i].repr;
      value := List(value.items[i := items[i].value]);
    }

    /** The list element a part names, on the objects and on the tree they spell. */
    lemma SpelledItem(p: Part)
      requires p.Item? && Valid()
      ensures HasItem(value, p) <==>
              kind == Mapping && p.key in fields && fields[p.key].kind == Sequence
              && InRange(p.index, |fields[p.key].items|)
      ensures HasItem(value, p) ==>
                var list := fields[p.key];
                && list.value == value.fields[p.key] && |list.items| == |list.value.items|
                && list.items[Place(p.index, |list.items|)].value == ItemAt(value, p)
    {
    }

    /** The object at the path; None stands for the KeyError. */
    method TraverseRaw(path: seq<Part>) returns (r: Option<Node>)
      requires Valid() && path != []
      ensures r == None <==> Get(value, path) == None
      ensures r != None ==> r.value.Valid() && r.value.repr <= repr && Get(value, path) == Some(r.value.value)
    {
      var current := this;
      for i := 0 to |path|
        invariant current.Valid() && current.repr <= repr
        invariant Get(value, path) == Get(current.value, path[i..])
      {
        var part := path[i];
        assert path[i..][0] == part && path[i..][1..] == path[i + 1..];
        if current.kind != Mapping || part.key !in current.fields { return None; }
        if part.Item? {
          var list := current.fields[part.key];
          current.SpelledItem(part);
          if list.kind != Sequence { return None; }
          if !(-|list.items| <= part.index < |list.items|) { return None; }
          current := list.items[if part.index < 0 then part.index + |list.items| else part.index];
        } else {
          current.SpelledField(part.key);
          current := current.fields[part.key];
        }
      }
      return Some(current);
    }

    /** Writing element `i` of this list, or going on below it. */
    method ChangeItem(i: nat, path: seq<Part>, v: Node) returns (ok: bool)
      requires Valid() && v.Valid() && repr !! v.repr
      requires kind == Sequence && i < |items|
      modifies repr
      ensures Valid() && GrewBy(v)
      ensures var (child, done) := Rest(old(value).items[i], path, v.value);
              ok == done && value == List(old(value).items[i := child])
      decreases |path|, 2
    {
      hide Set;
      if path == [] {
        PutItem(i, v);
        ok := true;
      } else {
        var item := items[i];
        ok := item.SetNested(path, v);
        ItemChanged(i);
      }
    }

    /** The list under `key` changes, and this mapping with it. */
    method ChangeUnder(key: string, i: nat, path: seq<Part>, v: Node) returns (ok: bool)
      requires Valid() && v.Valid() && repr !! v.repr
      requires kind == Mapping && key in fields && fields[key].kind == Sequence && i < |fields[key].items|
      requires fields[key].value.List? && i < |fields[key].value.items|
      modifies repr
      ensures Valid() && GrewBy(v)
      ensures var items := old(fields[key].value.items);
              var (child, done) := Rest(items[i], path, v.value);
              ok == done && value == Dict(old(value).fields[key := List(items[i := child])])
      decreases |path|, 3
    {
      hide Rest;
      var list := fields[key];
      ok := list.ChangeItem(i, path, v);
      FieldChanged(key);
    }

    method SetInList(path: seq<Part>, v: Node) returns (ok: bool)
      requires path != [] && path[0].Item? && Valid() && v.Valid() && repr !! v.repr
      requires HasItem(value, path[0])
      modifies repr
      ensures Valid() && GrewBy(v)
      ensures (value, ok) == Set(old(value), path, v.value)
      decreases |path|, 0
    {
      SpelledItem(path[0]);
      SetItemStep(value, path, v.value);
      var key, index := path[0].key, path[0].index;
      var size := |fields[key].items|;
      hide Set, Rest, Valid;
      ok := ChangeUnder(key, if index < 0 then index + size else index, path[1..], v);
    }

    /** Going on below the mapping under `key`. */
    method SetBelow(key: string, path: seq<Part>, v: Node) returns (ok: bool)
      requires path != [] && Valid() && v.Valid() && repr !! v.repr
      requires kind == Mapping && key in fields
      modifies repr
      ensures Valid() && GrewBy(v)
      ensures var (child, done) := Set(old(value).fields[key], path, v.value);
              ok == done && value == Dict(old(value).fields[key := child])
      decreases |path|, 2
    {
      hide Set;
      var child := fields[key];
      ok := child.SetNested(path, v);
      FieldChanged(key);
    }

    method EnsureField(key: string)
      requires Valid() && kind == Mapping
      modifies this
      ensures Valid() && kind == Mapping && key in fields && forall o :: o in repr ==> o in old(repr) || fresh(o)
      ensures value == if key in old(value).fields then old(value) else Dict(old(value).fields[key := EMPTY])
    {
      if key !in fields {
        var empty := new Node.EmptyMapping();
        PutField(key, empty);
      }
    }

    lemma SpelledField(key: string)
      requires Valid() && kind == Mapping
      ensures value.Dict? && (key in value.fields <==> key in fields)
      ensures key in fields ==>
                fields[key].value == value.fields[key] && (fields[key].kind == Mapping <==> value.fields[key].Dict?)
    {
    }

    /** A missing mapping is created; what is already there decides whether the walk goes on. */
    method SetInField(path: seq<Part>, v: Node) returns (ok: bool)
      requires |path| > 1 && path[0].Field? && Valid() && v.Valid() && repr !! v.repr && kind == Mapping
      modifies repr
      ensures Valid() && GrewBy(v)
      ensures (value, ok) == Set(old(value), path, v.value)
      decreases |path|, 0
    {
      hide Set;
      var key := path[0].key;
      SpelledField(key);
      SetFieldStep(value, path, v.value);
      ghost var was := value;
      EnsureField(key);
      SpelledField(key);
      assert value.fields[key] == Below(was, key);
      FieldOverrides(was.fields, key, EMPTY, Set(Below(was, key), path[1..], v.value).0);
      if fields[key].kind != Mapping { return false; }
      ok := SetBelow(key, path[1..], v);
    }

    /** Writes `v` at the path, mutating the mappings and lists on the way; false stands for the KeyError. */
    method SetNested(path: seq<Part>, v: Node) returns (ok: bool)
      requires path != [] && Valid() && v.Valid() && repr !! v.repr
      modifies repr
      ensures Valid() && GrewBy(v)
      ensures (value, ok) == Set(old(value), path, v.value)
      decreases |path|, 1
    {
      var key := path[0].key;
      if kind != Mapping { return false; }
      if path[0].Item? {
        if key !in fields { return false; }
        var list, index := fields[key], path[0].index;
        SpelledItem(path[0]);
        if list.kind != Sequence || !(-|list.items| <= index < |list.items|) { return false; }
        ok := SetInList(path, v);
      } else if |path| == 1 {
        PutField(key, v);
        ok := true;
      } else {
        ok := SetInField(path, v);
      }
    }
  }

  /** The rest of a walk, which may be over. */
  function Rest(t: Tree, path: seq<Part>, value: Tree): (Tree, bool) {
    if path == [] then (value, true) else Set(t, path, value)
  }

  lemma SetItemStep(t: Tree, path: seq<Part>, value: Tree)
    requires path != [] && path[0].Item? && HasItem(t, path[0])
    ensures var (child, ok) := Rest(ItemAt(t, path[0]), path[1..], value);
            Set(t, path, value) == (WithItem(t, path[0], child), ok)
  {
  }

  lemma SetFieldStep(t: Tree, path: seq<Part>, value: Tree)
    requires |path| > 1 && path[0].Field? && t.Dict?
    ensures var below := Below(t, path[0].key);
            var (child, ok) := Set(below, path[1..], value);
            Set(t, path, value) == if below.Dict? then (Dict(t.fields[path[0].key := child]), ok) else (t, false)
  {
  }
}
