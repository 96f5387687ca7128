/** Sorting by a number and then by a name, as both sorted sets and `sorted` with a two-part key do. */
module Ranking {
  /** Strings compare character by character, a proper prefix first. */
  predicate Before(a: string, b: string) {
    b != [] && (a == [] || a[0] < b[0] || (a[0] == b[0] && Before(a[1..], b[1..])))
  }

  /** Alphabetical order, by the first place where the strings differ. */
  lemma {:induction false} BeforeIff(a: string, b: string)
    ensures Before(a, b) <==>
            (a <= b && a != b)
            || exists i :: 0 <= i < |a| && i < |b| && a[..i] == b[..i] && a[i] < b[i]
  {
    if a != [] && b != [] {
      if a[0] == b[0] {
        BeforeIff(a[1..], b[1..]);
        assert a == [a[0]] + a[1..] && b == [b[0]] + b[1..];
        if Before(a[1..], b[1..]) && !(a[1..] <= b[1..]) {
          var i :| 0 <= i < |a[1..]| && i < |b[1..]| && a[1..][..i] == b[1..][..i] && a[1..][i] < b[1..][i];
          assert a[..i + 1] == [a[0]] + a[1..][..i] && b[..i + 1] == [b[0]] + b[1..][..i];
          assert a[i + 1] < b[i + 1];
        }
        if exists i :: 0 <= i < |a| && i < |b| && a[..i] == b[..i] && a[i] < b[i] {
          var i :| 0 <= i < |a| && i < |b| && a[..i] == b[..i] && a[i] < b[i];
          assert i > 0 && a[1..][i - 1] < b[1..][i - 1];
          assert a[1..][..i - 1] == a[..i][1..] && b[1..][..i - 1] == b[..i][1..];
        }
      } else {
        assert a[..0] == b[..0];
        if exists i :: 0 <= i < |a| && i < |b| && a[..i] == b[..i] && a[i] < b[i] {
          var i :| 0 <= i < |a| && i < |b| && a[..i] == b[..i] && a[i] < b[i];
          FirstAgrees(a, b, i);
        }
      }
    }
  }

  lemma FirstAgrees(a: string, b: string, i: nat)
    requires i < |a| && i < |b| && a[..i] == b[..i]
    ensures i == 0 || a[0] == b[0]
  {
    assert i > 0 ==> a[..i][0] == a[0] && b[..i][0] == b[0];
  }

  datatype Key = Key(value: real, name: string)

  predicate AtMost(a: Key, b: Key) {
    a.value < b.value || (a.value == b.value && !Before(b.name, a.name))
  }

  lemma {:induction false} BeforeTotal(a: string, b: string)
    ensures Before(a, b) || Before(b, a) || a == b
    ensures !(Before(a, b) && Before(b, a))
    ensures a == b ==> !Before(a, b)
  {
    if a != [] && b != [] && a[0] == b[0] {
      BeforeTotal(a[1..], b[1..]);
      assert a == [a[0]] + a[1..] && b == [b[0]] + b[1..];
    }
  }

  lemma {:induction false} BeforeTransitive(a: string, b: string, c: string)
    requires Before(a, b) && Before(b, c)
    ensures Before(a, c)
  {
    if a != [] && a[0] == b[0] && b[0] == c[0] {
      BeforeTransitive(a[1..], b[1..], c[1..]);
    }
  }

  lemma AtMostTotal(a: Key, b: Key)
    ensures AtMost(a, b) || AtMost(b, a)
    ensures AtMost(a, b) && AtMost(b, a) <==> a == b
  {
    BeforeTotal(a.name, b.name);
  }

  lemma AtMostTransitive(a: Key, b: Key, c: Key)
    requires AtMost(a, b) && AtMost(b, c)
    ensures AtMost(a, c)
  {
    BeforeTotal(a.name, b.name);
    BeforeTotal(b.name, c.name);
    BeforeTotal(a.name, c.name);
    if Before(a.name, b.name) && Before(b.name, c.name) {
      BeforeTransitive(a.name, b.name, c.name);
    }
  }

  ghost predicate Ranked<T>(s: seq<T>, key: T -> Key) {
    forall i, j :: 0 <= i < j < |s| ==> AtMost(key(s[i]), key(s[j]))
  }

  function Insert<T>(x: T, s: seq<T>, key: T -> Key): (r: seq<T>)
    ensures multiset(r) == multiset(s) + multiset{x}
  {
    if s == [] || AtMost(key(x), key(s[0])) then [x] + s
    else
      assert s == [s[0]] + s[1..];
      [s[0]] + Insert(x, s[1..], key)
  }

  lemma {:induction false} InsertRanked<T>(x: T, s: seq<T>, key: T -> Key)
    requires Ranked(s, key)
    ensures Ranked(Insert(x, s, key), key)
  {
    var r := Insert(x, s, key);
    if s == [] {
    } else if AtMost(key(x), key(s[0])) {
      forall j | 0 <= j < |s| ensures AtMost(key(x), key(s[j])) {
        if j > 0 { AtMostTransitive(key(x), key(s[0]), key(s[j])); }
      }
    } else {
      AtMostTotal(key(x), key(s[0]));
      var rest := Insert(x, s[1..], key);
      InsertRanked(x, s[1..], key);
      forall j | 0 <= j < |rest| ensures AtMost(key(s[0]), key(rest[j])) {
        assert rest[j] in multiset(rest);
        if rest[j] != x {
          assert rest[j] in s[1..];
        }
      }
    }
  }

  /** A stable sort. */
  function Sort<T>(s: seq<T>, key: T -> Key): (r: seq<T>)
    ensures multiset(r) == multiset(s)
  {
    if s == [] then []
    else
      assert s == [s[0]] + s[1..];
      Insert(s[0], Sort(s[1..], key), key)
  }

  lemma {:induction false} SortRanked<T>(s: seq<T>, key: T -> Key)
    ensures Ranked(Sort(s, key), key)
  {
    if s != [] {
      SortRanked(s[1..], key);
      InsertRanked(s[0], Sort(s[1..], key), key);
    }
  }

  ghost predicate KeyedApart<T>(s: seq<T>, key: T -> Key) {
    forall x, y :: x in s && y in s && key(x) == key(y) ==> x == y
  }

  lemma SameFirst<T>(a: seq<T>, b: seq<T>, key: T -> Key)
    requires Ranked(a, key) && Ranked(b, key) && multiset(a) == multiset(b) && KeyedApart(a, key)
    requires a != [] && b != []
    ensures a[0] == b[0]
  {
    hide AtMost;
    assert a[0] in multiset(b) && b[0] in multiset(a);
    var i :| 0 <= i < |a| && a[i] == b[0];
    var j :| 0 <= j < |b| && b[j] == a[0];
    AtMostTotal(key(a[0]), key(b[0]));
  }

  lemma WithoutFirst<T>(s: seq<T>, key: T -> Key)
    requires s != []
    ensures multiset(s[1..]) == multiset(s) - multiset{s[0]}
    ensures s == [s[0]] + s[1..]
    ensures Ranked(s, key) ==> Ranked(s[1..], key)
    ensures KeyedApart(s, key) ==> KeyedApart(s[1..], key)
  {
    assert s == [s[0]] + s[1..];
  }

  /** When equal keys mean equal elements there is only one ranking, so the order before sorting is
      forgotten. */
  lemma {:induction false} RankedUnique<T>(a: seq<T>, b: seq<T>, key: T -> Key)
    requires Ranked(a, key) && Ranked(b, key) && multiset(a) == multiset(b) && KeyedApart(a, key)
    ensures a == b
  {
    assert |multiset(a)| == |a| && |multiset(b)| == |b|;
    if a != [] {
      hide Ranked, KeyedApart;
      SameFirst(a, b, key);
      WithoutFirst(a, key);
      WithoutFirst(b, key);
      RankedUnique(a[1..], b[1..], key);
    }
  }

  lemma SortForgetsOrder<T>(a: seq<T>, b: seq<T>, key: T -> Key)
    requires multiset(a) == multiset(b) && KeyedApart(a, key)
    ensures Sort(a, key) == Sort(b, key)
  {
    SortRanked(a, key);
    SortRanked(b, key);
    forall x, y | x in Sort(a, key) && y in Sort(a, key) && key(x) == key(y) ensures x == y {
      assert x in multiset(a) && y in multiset(a);
    }
    RankedUnique(Sort(a, key), Sort(b, key), key);
  }
}
