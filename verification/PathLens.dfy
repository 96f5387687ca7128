/** Reading and writing one place of a nested document (gigaevo/cli/manifest_cmd.py). */
module PathLens {
  import opened Basics

  datatype Tree =
    | Leaf(data: string)
    | List(items: seq<Tree>)
    | Dict(fields: map<string, Tree>)

  /** One part of a dotted path: `key`, or `key[index]` with a possibly negative index. */
  datatype Part = Field(key: string) | Item(key: string, index: int)

  const EMPTY := Dict(map[])

  predicate InRange(index: int, size: nat) {
    0 - size <= index < size
  }

  /** The place a possibly negative index stands for. */
  function Place(index: int, size: nat): (i: nat)
    requires InRange(index, size)
    ensures i < size && (i == index || i == index + size)
  {
    if index < 0 then index + size else index
  }

  /** The list under `p.key` has the element `p` names. */
  predicate HasItem(t: Tree, p: Part)
    requires p.Item?
  {
    t.Dict? && p.key in t.fields && t.fields[p.key].List? && InRange(p.index, |t.fields[p.key].items|)
  }

  function ItemAt(t: Tree, p: Part): Tree
    requires p.Item? && HasItem(t, p)
  {
    t.fields[p.key].items[Place(p.index, |t.fields[p.key].items|)]
  }

  function WithItem(t: Tree, p: Part, child: Tree): Tree
    requires p.Item? && HasItem(t, p)
  {
    var items := t.fields[p.key].items;
    Dict(t.fields[p.key := List(items[Place(p.index, |items|) := child])])
  }

  /** What one part leads to. */
  function Enter(t: Tree, p: Part): Option<Tree> {
    match p
    case Field(k) => if t.Dict? && k in t.fields then Some(t.fields[k]) else None
    case Item(_, _) => if HasItem(t, p) then Some(ItemAt(t, p)) else None
  }

  function Get(t: Tree, path: seq<Part>): Option<Tree> {
    if path == [] then Some(t)
    else match Enter(t, path[0])
      case None => None
      case Some(child) => Get(child, path[1..])
  }

  /** The document after the call, and whether it returned normally. A missing mapping on the way is
      created; mappings created before a failure stay. */
  function Set(t: Tree, path: seq<Part>, value: Tree): (Tree, bool)
    requires path != []
    decreases |path|
  {
    match path[0]
    case Item(_, _) =>
      if !HasItem(t, path[0]) then (t, false)
      else if |path| == 1 then (WithItem(t, path[0], value), true)
      else
        var (child, ok) := Set(ItemAt(t, path[0]), path[1..], value);
        (WithItem(t, path[0], child), ok)
    case Field(k) =>
      if !t.Dict? then (t, false)
      else if |path| == 1 then (Dict(t.fields[k := value]), true)
      else
        var present := if k in t.fields then t.fields[k] else EMPTY;
        if !present.Dict? then (t, false)
        else
          var (child, ok) := Set(present, path[1..], value);
          (Dict(t.fields[k := child]), ok)
  }

  // ----- what reading means, and when writing succeeds -----

  /** Step by step: a plain part leads into a mapping's field, a bracketed one to an element of a list that is
      a mapping's field, negative indices counting from the end; anything else leads nowhere. */
  lemma ReadStep(t: Tree, p: Part, rest: seq<Part>)
    ensures Get(t, []) == Some(t)
    ensures !(t.Dict? && p.key in t.fields) ==> Get(t, [p] + rest) == None
    ensures t.Dict? && p.key in t.fields && p.Field? ==> Get(t, [p] + rest) == Get(t.fields[p.key], rest)
    ensures t.Dict? && p.key in t.fields && p.Item? && !t.fields[p.key].List? ==> Get(t, [p] + rest) == None
    ensures t.Dict? && p.key in t.fields && p.Item? && t.fields[p.key].List? ==>
              var items := t.fields[p.key].items;
              Get(t, [p] + rest) == if 0 <= p.index < |items| then Get(items[p.index], rest)
                                    else if 0 <= p.index + |items| < |items| then Get(items[p.index + |items|], rest)
                                    else None
  {
    assert ([p] + rest)[0] == p && ([p] + rest)[1..] == rest;
  }

  /** The last part can be written below `t`: `t` is a mapping, and a bracketed part finds its element. */
  predicate Writable(t: Tree, last: Part) {
    t.Dict? && (last.Field? || HasItem(t, last))
  }

  /** From place `j` on the path leaves a mapping by plain parts only, the first of them naming no field. */
  predicate LeavesAt(t: Tree, path: seq<Part>, j: nat)
    requires j < |path|
  {
    && (forall i :: j <= i < |path| ==> path[i].Field?)
    && var at := Get(t, path[..j]);
       at.Some? && at.value.Dict? && path[j].key !in at.value.fields
  }

  ghost predicate Leaves(t: Tree, path: seq<Part>) {
    exists j :: 0 <= j < |path| && LeavesAt(t, path, j)
  }

  predicate AllPlain(path: seq<Part>) {
    forall i :: 0 <= i < |path| ==> path[i].Field?
  }

  /** A set succeeds exactly when the place before the last part exists and can be written, or else the path
      leaves the document through a missing field with only plain parts to go. */
  lemma {:induction false} SetSucceedsIff(t: Tree, path: seq<Part>, value: Tree)
    requires path != []
    ensures Set(t, path, value).1 <==>
            var before := Get(t, path[..|path| - 1]);
            (before.Some? && Writable(before.value, path[|path| - 1]))
            || Leaves(t, path)
    decreases |path|
  {
    var n := |path|;
    if n == 1 {
      assert path[..0] == [];
      assert Get(t, path[..0]) == Some(t);
      if Leaves(t, path) {
        assert LeavesAt(t, path, 0);
      }
    } else {
      var p, rest := path[0], path[1..];
      assert path[..n - 1] == [p] + rest[..|rest| - 1];
      assert path == [p] + rest;
      ReadStep(t, p, rest[..|rest| - 1]);
      var child := if p.Item? then (if HasItem(t, p) then ItemAt(t, p) else Leaf("")) else Below(t, p.key);
      SetSucceedsIff(child, rest, value);
      LeavesBelow(t, path, child);
      EmptyIsLeft(rest);
      assert AllPlain(path) <==> p.Field? && AllPlain(rest) by {
        assert forall i :: 0 < i < n ==> path[i] == rest[i - 1];
      }
    }
  }

  lemma EmptyIsLeft(path: seq<Part>)
    requires path != []
    ensures Leaves(EMPTY, path) <==> AllPlain(path)
  {
    assert path[..0] == [];
    if AllPlain(path) {
      assert LeavesAt(EMPTY, path, 0);
    }
    forall j | 0 < j < |path| ensures !LeavesAt(EMPTY, path, j) {
      EmptyResolvesNothing(path[..j]);
    }
  }

  /** The place where a path leaves, seen from the child its first part leads to. */
  lemma LeavesBelow(t: Tree, path: seq<Part>, child: Tree)
    requires |path| > 1
    requires path[0].Item? ==> child == if HasItem(t, path[0]) then ItemAt(t, path[0]) else Leaf("")
    requires path[0].Field? ==> child == Below(t, path[0].key)
    ensures Enter(t, path[0]) == Some(child) ==>
              (Leaves(t, path)
               <==> Leaves(child, path[1..]))
    ensures path[0].Item? && !HasItem(t, path[0]) ==> !Leaves(t, path)
    ensures path[0].Field? && !t.Dict? ==> !Leaves(t, path)
    ensures path[0].Field? && t.Dict? && path[0].key !in t.fields ==>
              (Leaves(t, path) <==> AllPlain(path))
  {
    var rest := path[1..];
    assert path[..0] == [];
    forall j | 1 <= j < |path|
      ensures LeavesAt(t, path, j) <==> Enter(t, path[0]).Some? && LeavesAt(Enter(t, path[0]).value, rest, j - 1)
    {
      assert path[..j] == [path[0]] + rest[..j - 1];
      ReadStep(t, path[0], rest[..j - 1]);
    }
    if Enter(t, path[0]) == Some(child) {
      forall j | 0 <= j < |rest| && LeavesAt(child, rest, j) ensures LeavesAt(t, path, j + 1) {
      }
    }
    if path[0].Field? && t.Dict? && path[0].key !in t.fields && AllPlain(path) {
      assert LeavesAt(t, path, 0);
    }
  }

  // ----- laws -----

  /** What was set is what is read. */
  lemma {:induction false} GetAfterSet(t: Tree, path: seq<Part>, value: Tree)
    requires path != [] && Set(t, path, value).1
    ensures Get(Set(t, path, value).0, path) == Some(value)
    decreases |path|
  {
    if |path| == 1 {
      assert path[1..] == [];
    } else if path[0].Item? {
      GetAfterSet(ItemAt(t, path[0]), path[1..], value);
    } else {
      GetAfterSet(Below(t, path[0].key), path[1..], value);
    }
  }

  /** The mapping a plain part goes on with. */
  function Below(t: Tree, k: string): Tree {
    if t.Dict? && k in t.fields then t.fields[k] else EMPTY
  }

  /** Setting the value already present changes nothing. */
  lemma {:induction false} SetPresent(t: Tree, path: seq<Part>, value: Tree)
    requires path != [] && Get(t, path) == Some(value)
    ensures Set(t, path, value) == (t, true)
    decreases |path|
  {
    var child := Enter(t, path[0]).value;
    if |path| == 1 {
      assert path[1..] == [];
    } else {
      SetPresent(child, path[1..], value);
      StaysDict(child, path[1..], value);
    }
    if path[0].Item? {
      var items := t.fields[path[0].key].items;
      assert items[Place(path[0].index, |items|) := child] == items;
    }
    assert t.fields[path[0].key := t.fields[path[0].key]] == t.fields;
  }

  lemma StaysDict(t: Tree, path: seq<Part>, value: Tree)
    requires path != [] && Set(t, path, value).1
    ensures t.Dict? && Set(t, path, value).0.Dict?
  {
  }

  /** A second set at the same path overrides the first, and whether it succeeds is up to the path. */
  lemma {:induction false} SetOverrides(t: Tree, path: seq<Part>, first: Tree, second: Tree)
    requires path != []
    ensures Set(t, path, first).1 == Set(t, path, second).1
    ensures Set(t, path, first).1 ==> Set(Set(t, path, first).0, path, second) == Set(t, path, second)
    decreases |path|
  {
    if path[0].Field? && t.Dict? {
      var k := path[0].key;
      if |path| > 1 {
        SetOverrides(Below(t, k), path[1..], first, second);
      }
      if Set(t, path, first).1 {
        if |path| > 1 { StaysDict(Below(t, k), path[1..], first); }
        FieldOverrides(t.fields, k, if |path| == 1 then first else Set(Below(t, k), path[1..], first).0,
                       if |path| == 1 then second else Set(Below(t, k), path[1..], second).0);
      }
    } else if path[0].Item? && HasItem(t, path[0]) {
      if |path| > 1 {
        SetOverrides(ItemAt(t, path[0]), path[1..], first, second);
      }
      ItemOverrides(t, path[0], if |path| == 1 then first else Set(ItemAt(t, path[0]), path[1..], first).0);
    }
  }

  lemma FieldOverrides(fields: map<string, Tree>, k: string, a: Tree, b: Tree)
    ensures fields[k := a][k := b] == fields[k := b]
  {
  }

  lemma ItemOverrides(t: Tree, p: Part, child: Tree)
    requires p.Item? && HasItem(t, p)
    ensures HasItem(WithItem(t, p, child), p) && ItemAt(WithItem(t, p, child), p) == child
    ensures forall c :: WithItem(WithItem(t, p, child), p, c) == WithItem(t, p, c)
  {
    var items := t.fields[p.key].items;
    var i := Place(p.index, |items|);
    forall c ensures WithItem(WithItem(t, p, child), p, c) == WithItem(t, p, c) {
      assert items[i := child][i := c] == items[i := c];
      assert t.fields[p.key := List(items[i := child])][p.key := List(items[i := c])] ==
        t.fields[p.key := List(items[i := c])];
    }
  }

  /** `p` and `q` part company in `t`: at some point they name different keys, or different elements of
      the same list. */
  ghost predicate Diverge(t: Tree, p: seq<Part>, q: seq<Part>)
    decreases |p|
  {
    && p != [] && q != []
    && (p[0].key != q[0].key
        || (p[0].Field? && q[0].Field? && Diverge(Below(t, p[0].key), p[1..], q[1..]))
        || (p[0].Item? && q[0].Item? && HasItem(t, p[0]) && HasItem(t, q[0])
            && var n := |t.fields[p[0].key].items|;
               (Place(p[0].index, n) != Place(q[0].index, n) || Diverge(ItemAt(t, p[0]), p[1..], q[1..]))))
  }

  /** Everything off the path stays as it was, whether or not the call succeeds: what resolved still
      resolves to the same value, and nothing new appears. */
  lemma {:induction false} SetElsewhere(t: Tree, p: seq<Part>, value: Tree, q: seq<Part>)
    requires Diverge(t, p, q)
    ensures Get(Set(t, p, value).0, q) == Get(t, q)
    decreases |p|
  {
    if p[0].key == q[0].key && p[0].Field? && |p| > 1 {
      SetElsewhere(Below(t, p[0].key), p[1..], value, q[1..]);
      EmptyResolvesNothing(q[1..]);
    } else if p[0].key == q[0].key && p[0].Item? && |p| > 1 {
      var n := |t.fields[p[0].key].items|;
      if Place(p[0].index, n) == Place(q[0].index, n) {
        SetElsewhere(ItemAt(t, p[0]), p[1..], value, q[1..]);
      }
    }
  }

  lemma EmptyResolvesNothing(q: seq<Part>)
    ensures q != [] ==> Get(EMPTY, q) == None
  {
  }

  /** Mappings of mappings, holding no data. */
  ghost predicate Hollow(t: Tree) {
    t.Dict? && forall k :: k in t.fields ==> Hollow(t.fields[k])
  }

  /** `t'` is `t` with hollow mappings added. */
  ghost predicate Extends(t: Tree, t': Tree)
    decreases t
  {
    match t
    case Leaf(_) => t' == t
    case List(items) =>
      t'.List? && |t'.items| == |items| && forall i :: 0 <= i < |items| ==> Extends(items[i], t'.items[i])
    case Dict(fields) =>
      && t'.Dict?
      && (forall k :: k in fields ==> k in t'.fields && Extends(fields[k], t'.fields[k]))
      && (forall k :: k in t'.fields && k !in fields ==> Hollow(t'.fields[k]))
  }

  lemma {:induction false} ExtendsItself(t: Tree)
    ensures Extends(t, t)
    decreases t
  {
    match t
    case Leaf(_) =>
    case List(items) =>
      forall i | 0 <= i < |items| ensures Extends(items[i], items[i]) { ExtendsItself(items[i]); }
    case Dict(fields) =>
      forall k | k in fields ensures Extends(fields[k], fields[k]) { ExtendsItself(fields[k]); }
  }

  /** A failed call leaves nothing behind but empty mappings. */
  lemma {:induction false} FailedSetAddsNoData(t: Tree, path: seq<Part>, value: Tree)
    requires path != [] && !Set(t, path, value).1
    ensures Extends(t, Set(t, path, value).0)
    decreases |path|
  {
    ExtendsItself(t);
    if path[0].Item? && HasItem(t, path[0]) {
      FailedSetAddsNoData(ItemAt(t, path[0]), path[1..], value);
      assert t.fields[path[0].key].List?;
    } else if path[0].Field? && t.Dict? && Below(t, path[0].key).Dict? {
      FailedSetAddsNoData(Below(t, path[0].key), path[1..], value);
    }
  }

  /** Some mapping on the way, other than at the end of the path, is missing. */
  predicate MissesOnTheWay(t: Tree, path: seq<Part>)
    decreases |path|
  {
    && |path| > 1
    && match path[0]
       case Item(_, _) => HasItem(t, path[0]) && MissesOnTheWay(ItemAt(t, path[0]), path[1..])
       case Field(k) => t.Dict? && (k !in t.fields || MissesOnTheWay(t.fields[k], path[1..]))
  }

  /** A failed call changes nothing exactly when no mapping was missing on the way. */
  lemma {:induction false} FailedSetChangesNothingIff(t: Tree, path: seq<Part>, value: Tree)
    requires path != [] && !Set(t, path, value).1
    ensures Set(t, path, value).0 == t <==> !MissesOnTheWay(t, path)
    decreases |path|
  {
    if |path| > 1 {
      if path[0].Item? && HasItem(t, path[0]) {
        var items, i := t.fields[path[0].key].items, Place(path[0].index, |t.fields[path[0].key].items|);
        FailedSetChangesNothingIff(ItemAt(t, path[0]), path[1..], value);
        assert Set(t, path, value).0.fields[path[0].key].items[i] == Set(ItemAt(t, path[0]), path[1..], value).0;
        assert items[i := items[i]] == items;
        assert t.fields[path[0].key := t.fields[path[0].key]] == t.fields;
      } else if path[0].Field? && t.Dict? && path[0].key in t.fields {
        var child := t.fields[path[0].key];
        if child.Dict? {
          FailedSetChangesNothingIff(child, path[1..], value);
          assert Set(t, path, value).0.fields[path[0].key] == Set(child, path[1..], value).0;
          assert t.fields[path[0].key := child] == t.fields;
        }
      } else if path[0].Field? && t.Dict? {
        assert path[0].key in Set(t, path, value).0.fields;
      }
    }
  }

  /** The empty document is left with an empty mapping when the list below it does not exist. */
  lemma FailedSetLeavesMapping(a: string, b: string, index: int, value: Tree)
    ensures Set(EMPTY, [Field(a), Item(b, index)], value) == (Dict(map[a := EMPTY]), false)
  {
    var path := [Field(a), Item(b, index)];
    assert path[1..] == [Item(b, index)];
    assert !HasItem(EMPTY, path[1]);
  }

  /** ... so every piece of data is still where it was. */
  lemma {:induction false} ExtensionKeepsData(t: Tree, t': Tree, q: seq<Part>, data: string)
    requires Extends(t, t') && Get(t, q) == Some(Leaf(data))
    ensures Get(t', q) == Some(Leaf(data))
    decreases |q|
  {
    if q != [] {
      if q[0].Item? {
        assert Extends(t.fields[q[0].key], t'.fields[q[0].key]);
        ExtensionKeepsData(ItemAt(t, q[0]), ItemAt(t', q[0]), q[1..], data);
      } else {
        ExtensionKeepsData(t.fields[q[0].key], t'.fields[q[0].key], q[1..], data);
      }
    }
  }
}
