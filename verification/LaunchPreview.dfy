/** Flattening nested settings to dotted paths and looking such paths up again
    (gigaevo/experiment/launch_preview.py). */
module LaunchPreview {
  import opened Basics

  /** A mapping keeps its entries in insertion order. */
  datatype Doc = Leaf(data: string) | Dict(entries: seq<Item>)

  datatype Item = Item(key: string, value: Doc)

  predicate DotFree(s: string) { '.' !in s }

  /** Keys of one mapping are distinct, as in any mapping, and hold no dot, at every level. */
  ghost predicate WellKeyed(es: seq<Item>) {
    && (forall i, j :: 0 <= i < j < |es| ==> es[i].key != es[j].key)
    && (forall i :: 0 <= i < |es| ==> DotFree(es[i].key) && (es[i].value.Dict? ==> WellKeyed(es[i].value.entries)))
  }

  // ----- the original's functions -----

  /** Entry by entry, later ones overriding earlier ones. */
  function Flat(es: seq<Item>, prefix: string): map<string, string>
    decreases es
  {
    if es == [] then map[]
    else Flat(es[..|es| - 1], prefix) + Entry(es[|es| - 1], prefix)
  }

  function Entry(e: Item, prefix: string): map<string, string>
    decreases e
  {
    match e.value
    case Dict(entries) => Flat(entries, prefix + e.key + ".")
    case Leaf(data) => map[prefix + e.key := data]
  }

  method Flatten(d: seq<Item>, prefix: string) returns (out: map<string, string>)
    ensures out == Flat(d, prefix)
    decreases d
  {
    out := map[];
    for i := 0 to |d|
      invariant out == Flat(d[..i], prefix)
    {
      FlatSnoc(d, i, prefix);
      var (k, v) := (d[i].key, d[i].value);
      var dotted := prefix + k;
      match v
      case Dict(entries) =>
        var inner := Flatten(entries, dotted + ".");
        out := out + inner;
      case Leaf(data) =>
        out := out[dotted := data];
    }
    assert d[..|d|] == d;
  }

  lemma FlatSnoc(d: seq<Item>, i: nat, prefix: string)
    requires i < |d|
    ensures Flat(d[..i + 1], prefix) ==
            match d[i].value
            case Dict(entries) => Flat(d[..i], prefix) + Flat(entries, prefix + d[i].key + ".")
            case Leaf(data) => Flat(d[..i], prefix)[prefix + d[i].key := data]
  {
    assert d[..i + 1][..i] == d[..i];
    var was, now := Flat(d[..i], prefix), Entry(d[i], prefix);
    assert d[i].value.Leaf? ==> was + now == was[prefix + d[i].key := d[i].value.data];
  }

  function Find(es: seq<Item>, k: string): Option<Doc> {
    if es == [] then None
    else if es[|es| - 1].key == k then Some(es[|es| - 1].value)
    else Find(es[..|es| - 1], k)
  }

  /** The pieces between the dots; there is always at least one. */
  function Split(s: string): (parts: seq<string>)
    ensures parts != []
  {
    if s == [] then [[]]
    else
      var rest := Split(s[1..]);
      if s[0] == '.' then [[]] + rest else [[s[0]] + rest[0]] + rest[1..]
  }

  function Walk(doc: Doc, parts: seq<string>): Option<Doc>
    decreases |parts|
  {
    if parts == [] then Some(doc)
    else if !doc.Dict? then None
    else match Find(doc.entries, parts[0])
      case None => None
      case Some(child) => Walk(child, parts[1..])
  }

  method LookupDotted(doc: Doc, path: string) returns (r: Option<Doc>)
    ensures r == Walk(doc, Split(path))
  {
    var cur := doc;
    var parts := Split(path);
    for i := 0 to |parts|
      invariant Walk(doc, parts) == Walk(cur, parts[i..])
    {
      assert parts[i..][0] == parts[i] && parts[i..][1..] == parts[i + 1..];
      if !cur.Dict? {
        return None;
      }
      var child := Find(cur.entries, parts[i]);
      if child == None {
        return None;
      }
      cur := child.value;
    }
    return Some(cur);
  }

  // ----- joining and splitting -----

  function Join(parts: seq<string>): string
    requires parts != []
  {
    if |parts| == 1 then parts[0] else parts[0] + "." + Join(parts[1..])
  }

  lemma {:induction false} SplitFirst(k: string, rest: string)
    requires DotFree(k)
    ensures Split(k) == [k]
    ensures Split(k + "." + rest) == [k] + Split(rest)
  {
    var s := k + "." + rest;
    if k == [] {
      assert s[0] == '.' && s[1..] == rest;
    } else {
      assert k[0] in k && forall c :: c in k[1..] ==> c in k;
      SplitFirst(k[1..], rest);
      assert s[0] == k[0] && s[1..] == k[1..] + "." + rest;
      assert [k[0]] + k[1..] == k;
    }
  }

  /** Dot-free pieces come back from their dotted path. */
  lemma {:induction false} SplitJoin(parts: seq<string>)
    requires parts != [] && forall p :: p in parts ==> DotFree(p)
    ensures Split(Join(parts)) == parts
  {
    assert parts[0] in parts;
    if |parts| == 1 {
      SplitFirst(parts[0], "");
    } else {
      assert forall p :: p in parts[1..] ==> p in parts;
      SplitJoin(parts[1..]);
      SplitFirst(parts[0], Join(parts[1..]));
    }
  }

  lemma {:induction false} JoinSplit(s: string)
    ensures Join(Split(s)) == s
    ensures forall p :: p in Split(s) ==> DotFree(p)
  {
    if s != [] {
      JoinSplit(s[1..]);
      var rest := Split(s[1..]);
      assert s == [s[0]] + s[1..];
      assert rest[0] in rest && forall p :: p in rest[1..] ==> p in rest;
      if s[0] == '.' {
        assert Split(s)[1..] == rest;
        assert [] + "." + Join(rest) == s;
      } else {
        assert Split(s)[1..] == rest[1..];
        if |rest| > 1 {
          assert [s[0]] + rest[0] + "." + Join(rest[1..]) == [s[0]] + (rest[0] + "." + Join(rest[1..]));
        }
        assert forall c :: c in [s[0]] + rest[0] ==> c == s[0] || c in rest[0];
      }
    }
  }

  // ----- agreement -----

  /** The datum a list of pieces leads to, if it leads to one. */
  function Datum(es: seq<Item>, parts: seq<string>): Option<string> {
    match Walk(Dict(es), parts)
    case Some(Leaf(data)) => Some(data)
    case _ => None
  }

  function LookedUp(m: map<string, string>, k: string): Option<string> {
    if k in m then Some(m[k]) else None
  }

  lemma {:induction false} FlatUnderPrefix(es: seq<Item>, prefix: string, key: string)
    requires key in Flat(es, prefix)
    ensures prefix <= key
    decreases es
  {
    var e := es[|es| - 1];
    if key in Entry(e, prefix) {
      EntryUnderPrefix(e, prefix, key);
    } else {
      FlatUnderPrefix(es[..|es| - 1], prefix, key);
    }
  }

  lemma {:induction false} EntryUnderPrefix(e: Item, prefix: string, key: string)
    requires key in Entry(e, prefix)
    ensures prefix + e.key <= key
    ensures e.value.Dict? ==> prefix + e.key + "." <= key
    decreases e
  {
    if e.value.Dict? {
      FlatUnderPrefix(e.value.entries, prefix + e.key + ".", key);
    }
  }

  lemma WellKeyedInit(es: seq<Item>)
    requires WellKeyed(es) && es != []
    ensures WellKeyed(es[..|es| - 1]) && DotFree(es[|es| - 1].key)
    ensures es[|es| - 1].value.Dict? ==> WellKeyed(es[|es| - 1].value.entries)
    ensures Find(es[..|es| - 1], es[|es| - 1].key) == None
  {
    FindNone(es[..|es| - 1], es[|es| - 1].key);
  }

  lemma {:induction false} FindNone(es: seq<Item>, k: string)
    requires forall i :: 0 <= i < |es| ==> es[i].key != k
    ensures Find(es, k) == None
  {
    if es != [] { FindNone(es[..|es| - 1], k); }
  }

  /** Below any prefix, flattening maps exactly the dotted paths of the leaves to their data. */
  lemma {:induction false} FlatAgrees(es: seq<Item>, prefix: string, rest: string)
    requires WellKeyed(es)
    ensures LookedUp(Flat(es, prefix), prefix + rest) == Datum(es, Split(rest))
    decreases es
  {
    var parts := Split(rest);
    if es != [] {
      WellKeyedInit(es);
      var init, e := es[..|es| - 1], es[|es| - 1];
      FlatAgrees(init, prefix, rest);
      EntryAgrees(e, prefix, rest);
      assert parts[0] != e.key ==> Walk(Dict(es), parts) == Walk(Dict(init), parts);
    }
  }

  lemma WalkOne(e: Item, parts: seq<string>)
    requires parts != []
    ensures Walk(Dict([e]), parts) == if parts[0] == e.key then Walk(e.value, parts[1..]) else None
  {
    assert [e][..0] == [];
    assert Find([], parts[0]) == None;
  }

  /** Cutting a known beginning off a path. */
  lemma CutPrefix(prefix: string, start: string, rest: string)
    requires prefix + start <= prefix + rest
    ensures start <= rest && rest == start + rest[|start|..]
  {
    assert (prefix + start)[|prefix|..] == start;
    assert (prefix + rest)[|prefix|..] == rest;
    assert (prefix + rest)[..|prefix| + |start|] == prefix + start;
    assert rest[..|start|] == (prefix + rest)[|prefix|..|prefix| + |start|];
  }

  /** Where the pieces of a path start with a dot-free `k`, so does the path. */
  lemma PathStart(k: string, rest: string)
    requires DotFree(k)
    ensures Split(rest) == [k] <==> rest == k
    ensures |Split(rest)| > 1 && Split(rest)[0] == k ==>
              rest == k + "." + Join(Split(rest)[1..]) && Split(Join(Split(rest)[1..])) == Split(rest)[1..]
    ensures k + "." <= rest ==> |Split(rest)| > 1 && Split(rest)[0] == k
  {
    var parts := Split(rest);
    JoinSplit(rest);
    SplitFirst(k, "");
    if |parts| > 1 {
      assert forall p :: p in parts[1..] ==> p in parts;
      SplitJoin(parts[1..]);
    }
    if k + "." <= rest {
      var tail := rest[|k| + 1..];
      assert rest == k + "." + tail;
      SplitFirst(k, tail);
    }
  }

  lemma {:induction false} EntryAgrees(e: Item, prefix: string, rest: string)
    requires DotFree(e.key) && (e.value.Dict? ==> WellKeyed(e.value.entries))
    ensures LookedUp(Entry(e, prefix), prefix + rest) == Datum([e], Split(rest))
    ensures Split(rest)[0] != e.key ==> LookedUp(Entry(e, prefix), prefix + rest) == None
    decreases e
  {
    hide Split, Join, WellKeyed, Flat;
    var k, parts := e.key, Split(rest);
    WalkOne(e, parts);
    PathStart(k, rest);
    match e.value
    case Leaf(data) =>
      if prefix + rest == prefix + k { CutPrefix(prefix, k, rest); }
      assert parts[0] == k && |parts| > 1 ==> Walk(Leaf(data), parts[1..]) == None;
    case Dict(entries) =>
      var inner := prefix + k + ".";
      assert inner == prefix + (k + ".");
      if prefix + rest in Entry(e, prefix) {
        EntryUnderPrefix(e, prefix, prefix + rest);
        CutPrefix(prefix, k + ".", rest);
      }
      if parts[0] == k && |parts| > 1 {
        var below := Join(parts[1..]);
        assert prefix + rest == inner + below;
        FlatAgrees(entries, inner, below);
      }
  }

  /** For nested mappings of any depth with dot-free keys: a path maps to `v` in the flattened form exactly
      when looking it up reaches the value `v`. */
  lemma FlattenAgreesWithLookup(es: seq<Item>, path: string, v: string)
    requires WellKeyed(es)
    ensures (path in Flat(es, "") && Flat(es, "")[path] == v) <==> Walk(Dict(es), Split(path)) == Some(Leaf(v))
  {
    FlatAgrees(es, "", path);
    assert "" + path == path;
  }

  function Leaves(es: seq<Item>): nat
    decreases es
  {
    if es == [] then 0
    else Leaves(es[..|es| - 1]) + match es[|es| - 1].value case Leaf(_) => 1 case Dict(inner) => Leaves(inner)
  }

  lemma LastEntryApart(init: seq<Item>, e: Item, prefix: string)
    requires WellKeyed(init) && DotFree(e.key) && (e.value.Dict? ==> WellKeyed(e.value.entries))
    requires Find(init, e.key) == None
    ensures Flat(init, prefix).Keys !! Entry(e, prefix).Keys
  {
    forall key | key in Flat(init, prefix) ensures key !in Entry(e, prefix) {
      FlatUnderPrefix(init, prefix, key);
      var rest := key[|prefix|..];
      assert key == prefix + rest;
      FlatAgrees(init, prefix, rest);
      EntryAgrees(e, prefix, rest);
    }
  }

  /** No two leaves share a dotted path: there are as many paths as leaves. */
  lemma {:induction false} OnePathPerLeaf(es: seq<Item>, prefix: string)
    requires WellKeyed(es)
    ensures |Flat(es, prefix)| == Leaves(es)
    decreases es
  {
    if es != [] {
      WellKeyedInit(es);
      var init, e := es[..|es| - 1], es[|es| - 1];
      assert e.value.Leaf? ==> |Entry(e, prefix)| == 1;
      assert e.value.Dict? ==> Entry(e, prefix) == Flat(e.value.entries, prefix + e.key + ".");
      OnePathPerLeaf(init, prefix);
      if e.value.Dict? { OnePathPerLeaf(e.value.entries, prefix + e.key + "."); }
      var a, b := Flat(init, prefix), Entry(e, prefix);
      LastEntryApart(init, e, prefix);
      hide Flat, Entry, WellKeyed;
      assert (a + b).Keys == a.Keys + b.Keys;
      assert |a.Keys| == |a| && |b.Keys| == |b| && |(a + b).Keys| == |a + b|;
    }
  }

  // ----- keys with dots -----

  ghost predicate DistinctKeys(es: seq<Item>) {
    && (forall i, j :: 0 <= i < j < |es| ==> es[i].key != es[j].key)
    && (forall i :: 0 <= i < |es| && es[i].value.Dict? ==> DistinctKeys(es[i].value.entries))
  }

  predicate AllDotFree(parts: seq<string>) {
    forall p :: p in parts ==> DotFree(p)
  }

  /** No other leaf has the same dotted path. */
  ghost predicate Unshared(es: seq<Item>, parts: seq<string>)
    requires parts != []
  {
    forall other :: other != [] && Datum(es, other) != None && Join(other) == Join(parts) ==> other == parts
  }

  lemma WalkLast(es: seq<Item>, parts: seq<string>)
    requires es != [] && parts != []
    ensures Walk(Dict(es), parts) ==
            if parts[0] == es[|es| - 1].key then Walk(es[|es| - 1].value, parts[1..])
            else Walk(Dict(es[..|es| - 1]), parts)
  {
  }

  lemma JoinCons(k: string, parts: seq<string>)
    requires parts != []
    ensures Join([k] + parts) == k + "." + Join(parts)
  {
    assert ([k] + parts)[1..] == parts;
  }

  lemma DistinctKeysInit(es: seq<Item>)
    requires DistinctKeys(es) && es != []
    ensures DistinctKeys(es[..|es| - 1])
    ensures es[|es| - 1].value.Dict? ==> DistinctKeys(es[|es| - 1].value.entries)
    ensures Find(es[..|es| - 1], es[|es| - 1].key) == None
  {
    FindNone(es[..|es| - 1], es[|es| - 1].key);
  }

  /** Every flattened path is the dotted path of a leaf with that datum, dots in keys or not. */
  lemma {:induction false} LeafOfPath(es: seq<Item>, prefix: string, key: string) returns (parts: seq<string>)
    requires DistinctKeys(es) && key in Flat(es, prefix)
    ensures parts != [] && Datum(es, parts) == Some(Flat(es, prefix)[key]) && key == prefix + Join(parts)
    decreases es
  {
    DistinctKeysInit(es);
    var init, e := es[..|es| - 1], es[|es| - 1];
    if key !in Entry(e, prefix) {
      parts := LeafOfPath(init, prefix, key);
      WalkLast(es, parts);
    } else if e.value.Leaf? {
      parts := [e.key];
      WalkLast(es, parts);
    } else {
      var below := LeafOfPath(e.value.entries, prefix + e.key + ".", key);
      JoinCons(e.key, below);
      parts := [e.key] + below;
      WalkLast(es, parts);
      assert parts[1..] == below;
      assert prefix + Join(parts) == prefix + e.key + "." + Join(below);
    }
  }

  /** And every leaf's dotted path is flattened. */
  lemma {:induction false} PathOfLeaf(es: seq<Item>, prefix: string, parts: seq<string>)
    requires parts != [] && Datum(es, parts) != None
    ensures prefix + Join(parts) in Flat(es, prefix)
    decreases es
  {
    if es != [] {
      WalkLast(es, parts);
      var e := es[|es| - 1];
      if parts[0] != e.key {
        PathOfLeaf(es[..|es| - 1], prefix, parts);
      } else if e.value.Dict? {
        assert parts[1..] != [];
        PathOfLeaf(e.value.entries, prefix + e.key + ".", parts[1..]);
        assert prefix + Join(parts) == prefix + e.key + "." + Join(parts[1..]);
      }
    }
  }

  /** A leaf whose dotted path is its own is flattened to that path, and looking the path up finds it
      exactly when no key on the way holds a dot. */
  lemma DottedPathIsFoundIff(es: seq<Item>, parts: seq<string>, v: string)
    requires DistinctKeys(es) && parts != [] && Datum(es, parts) == Some(v) && Unshared(es, parts)
    ensures Join(parts) in Flat(es, "") && Flat(es, "")[Join(parts)] == v
    ensures Walk(Dict(es), Split(Join(parts))) == Some(Leaf(v)) <==> AllDotFree(parts)
  {
    var path := Join(parts);
    PathOfLeaf(es, "", parts);
    assert "" + path == path;
    var leaf := LeafOfPath(es, "", path);
    assert "" + Join(leaf) == Join(leaf);
    JoinSplit(path);
    if AllDotFree(parts) {
      SplitJoin(parts);
    }
  }

  /** Flattening and lookup give the same answer for this path. */
  ghost predicate AgreeAt(es: seq<Item>, path: string) {
    LookedUp(Flat(es, ""), path) == Datum(es, Split(path))
  }

  /** The pieces lead to a leaf. */
  ghost predicate LeafAt(es: seq<Item>, parts: seq<string>) {
    parts != [] && Datum(es, parts) != None
  }

  lemma AgreeAtLeafIff(es: seq<Item>, parts: seq<string>)
    requires DistinctKeys(es) && LeafAt(es, parts) && Unshared(es, parts)
    ensures AgreeAt(es, Join(parts)) <==> AllDotFree(parts)
  {
    var path := Join(parts);
    DottedPathIsFoundIff(es, parts, Datum(es, parts).value);
    if AgreeAt(es, path) {
      assert Walk(Dict(es), Split(path)) == Some(Leaf(Datum(es, parts).value));
    } else {
      assert Walk(Dict(es), Split(path)) != Some(Leaf(Datum(es, parts).value));
    }
  }

  lemma AgreeWithoutDots(es: seq<Item>, path: string)
    requires DistinctKeys(es) && forall parts :: LeafAt(es, parts) ==> AllDotFree(parts)
    ensures AgreeAt(es, path)
  {
    JoinSplit(path);
    assert "" + path == path;
    if path in Flat(es, "") {
      var parts := LeafOfPath(es, "", path);
      assert "" + Join(parts) == Join(parts);
      assert LeafAt(es, parts);
      SplitJoin(parts);
    } else if LeafAt(es, Split(path)) {
      PathOfLeaf(es, "", Split(path));
    }
  }

  /** So when no two leaves share a dotted path, flattening and lookup agree on every path exactly when no
      key on the way to a leaf holds a dot. */
  lemma AgreementIff(es: seq<Item>)
    requires DistinctKeys(es) && forall parts :: LeafAt(es, parts) ==> Unshared(es, parts)
    ensures (forall path :: AgreeAt(es, path)) <==> (forall parts :: LeafAt(es, parts) ==> AllDotFree(parts))
  {
    hide AgreeAt, AllDotFree, Datum;
    if forall path :: AgreeAt(es, path) {
      forall parts | LeafAt(es, parts) ensures AllDotFree(parts) {
        AgreeAtLeafIff(es, parts);
      }
    }
    if forall parts :: LeafAt(es, parts) ==> AllDotFree(parts) {
      forall path ensures AgreeAt(es, path) {
        AgreeWithoutDots(es, path);
      }
    }
  }

  /** Another entry can make the lookup of a dotted key succeed, with that entry's datum. */
  lemma SharedPathIsFound(a: string, b: string, v: string, w: string)
    requires DotFree(a) && DotFree(b)
    ensures var es := [Item(a + "." + b, Leaf(v)), Item(a, Dict([Item(b, Leaf(w))]))];
            Walk(Dict(es), Split(a + "." + b)) == Some(Leaf(w))
  {
    var es := [Item(a + "." + b, Leaf(v)), Item(a, Dict([Item(b, Leaf(w))]))];
    SplitFirst(a, b);
    SplitFirst(b, "");
    WalkLast(es, [a] + [b]);
    assert ([a] + [b])[1..] == [b];
    WalkOne(Item(b, Leaf(w)), [b]);
  }

  /** Where two entries share a dotted path the later one's datum is kept; every other path stays. */
  lemma LaterEntryWins(es: seq<Item>, e: Item, prefix: string, path: string)
    ensures path in Flat(es + [e], prefix) <==> path in Flat(es, prefix) || path in Flat([e], prefix)
    ensures path in Flat([e], prefix) ==> Flat(es + [e], prefix)[path] == Flat([e], prefix)[path]
    ensures path in Flat(es, prefix) && path !in Flat([e], prefix) ==>
              Flat(es + [e], prefix)[path] == Flat(es, prefix)[path]
  {
    assert (es + [e])[..|es|] == es && [e][..0] == [];
    assert Flat([e], prefix) == map[] + Entry(e, prefix);
  }

  /** Outer key, dot, inner key: the one path of a document with one nested leaf, found again by lookup. */
  lemma NestedPath(a: string, b: string, v: string)
    requires DotFree(a) && DotFree(b)
    ensures var es := [Item(a, Dict([Item(b, Leaf(v))]))];
            Flat(es, "") == map[a + "." + b := v] && Walk(Dict(es), Split(a + "." + b)) == Some(Leaf(v))
  {
    var inner := [Item(b, Leaf(v))];
    var es := [Item(a, Dict(inner))];
    SplitFirst(a, b);
    SplitFirst(b, "");
    assert ([a] + [b])[1..] == [b];
    WalkOne(es[0], [a] + [b]);
    WalkOne(inner[0], [b]);
    FlatOne(inner[0], "" + a + ".");
    FlatOne(es[0], "");
    assert "" + a == a;
  }

  lemma FlatOne(e: Item, prefix: string)
    ensures Flat([e], prefix) == Entry(e, prefix)
  {
    assert [e][..0] == [];
    assert Flat([], prefix) == map[];
  }

  /** In a document of one entry, a key holding a dot is flattened to a path that leads nowhere. */
  lemma DottedKeyIsLost(a: string, b: string, v: string)
    requires DotFree(a)
    ensures var es := [Item(a + "." + b, Leaf(v))];
            a + "." + b in Flat(es, "") && Walk(Dict(es), Split(a + "." + b)) == None
  {
    var k := a + "." + b;
    SplitFirst(a, b);
    assert "" + k == k;
    WalkOne(Item(k, Leaf(v)), Split(k));
    assert |k| > |a|;
  }
}
