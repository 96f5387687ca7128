/** Small shared vocabulary: optional values, results, and facts about sequences and finite sets. */
module Basics {

  datatype Option<+T> = None | Some(value: T)

  datatype Result<+T, +E> = Ok(value: T) | Err(error: E)

  ghost predicate Distinct<T>(s: seq<T>) {
    forall i, j :: 0 <= i < j < |s| ==> s[i] != s[j]
  }

  function Elements<T>(s: seq<T>): set<T> {
    set x | x in s
  }

  ghost predicate Increasing(s: seq<nat>) {
    forall i, j :: 0 <= i < j < |s| ==> s[i] < s[j]
  }

  /** The members of `xs` that are not in `seen`, in order. */
  function Without<T(==)>(xs: seq<T>, seen: set<T>): (r: seq<T>)
    ensures forall x :: x in r ==> x in xs && x !in seen
    ensures forall x :: x in xs && x !in seen ==> x in r
  {
    if xs == [] then []
    else if xs[0] in seen then Without(xs[1..], seen)
    else [xs[0]] + Without(xs[1..], seen)
  }

  lemma {:induction false} WithoutAllSeen<T>(xs: seq<T>, seen: set<T>)
    requires forall x :: x in xs ==> x in seen
    ensures Without(xs, seen) == []
  {
    if xs != [] {
      assert forall x :: x in xs[1..] ==> x in xs;
      WithoutAllSeen(xs[1..], seen);
    }
  }

  lemma ElementsEmpty<T>(s: seq<T>)
    ensures Elements(s) == {} <==> s == []
  {
    if s != [] {
      assert s[0] in Elements(s);
    }
  }

  lemma ElementsSnoc<T>(s: seq<T>, x: T)
    ensures Elements(s + [x]) == Elements(s) + {x}
  {
  }

  lemma {:induction false} DistinctSize<T>(s: seq<T>)
    requires Distinct(s)
    ensures |Elements(s)| == |s|
  {
    if s == [] {
      assert Elements(s) == {};
    } else {
      var init, last := s[..|s| - 1], s[|s| - 1];
      assert s == init + [last];
      ElementsSnoc(init, last);
      assert last !in Elements(init);
      DistinctSize(init);
    }
  }

  lemma SubsetSize<T>(a: set<T>, b: set<T>)
    requires a <= b
    ensures |a| <= |b|
    ensures |a| == |b| ==> a == b
  {
    assert b == a + (b - a);
  }

  lemma IncreasingInit(a: seq<nat>)
    requires Increasing(a) && a != []
    ensures Increasing(a[..|a| - 1])
    ensures Elements(a[..|a| - 1]) == Elements(a) - {a[|a| - 1]}
    ensures a == a[..|a| - 1] + [a[|a| - 1]]
    ensures forall x :: x in Elements(a) ==> x <= a[|a| - 1]
    ensures a[|a| - 1] in Elements(a)
  {
  }

  /** Two strictly increasing sequences with the same members are the same sequence. */
  lemma {:induction false} IncreasingUnique(a: seq<nat>, b: seq<nat>)
    requires Increasing(a) && Increasing(b)
    requires Elements(a) == Elements(b)
    ensures a == b
    decreases |a|
  {
    ElementsEmpty(a);
    ElementsEmpty(b);
    if a != [] && b != [] {
      hide Increasing, Elements;
      IncreasingInit(a);
      IncreasingInit(b);
      IncreasingUnique(a[..|a| - 1], b[..|b| - 1]);
    }
  }

  lemma HasMaximum(s: set<nat>) returns (m: nat)
    requires s != {}
    ensures m in s && forall x :: x in s ==> x <= m
  {
    m :| m in s;
    var rest := s - {m};
    assert forall x :: x in s ==> x == m || x in rest;
    if rest != {} {
      var m' := HasMaximum(rest);
      m := if m < m' then m' else m;
    }
  }

  lemma IncreasingSnoc(r: seq<nat>, m: nat)
    requires Increasing(r) && forall x :: x in r ==> x < m
    ensures Increasing(r + [m])
  {
    forall i | 0 <= i < |r| ensures r[i] < m {
      assert r[i] in r;
    }
  }

  lemma SortedSnoc(init: seq<nat>, s: set<nat>, m: nat)
    requires Increasing(init) && Elements(init) == s - {m}
    requires m in s && forall x :: x in s ==> x <= m
    ensures Increasing(init + [m]) && Elements(init + [m]) == s
  {
    assert forall x :: x in init ==> x in Elements(init);
    IncreasingSnoc(init, m);
    ElementsSnoc(init, m);
  }

  /** The elements of a finite set of numbers in increasing order. */
  function Sorted(s: set<nat>): (r: seq<nat>)
    ensures Increasing(r) && Elements(r) == s
    decreases |s|
  {
    if s == {} then []
    else
      assert exists m :: m in s && forall x :: x in s ==> x <= m by { var m := HasMaximum(s); }
      var m :| m in s && forall x :: x in s ==> x <= m;
      var init := Sorted(s - {m});
      SortedSnoc(init, s, m);
      init + [m]
  }

  // ----- draining a set one element at a time -----

  /** `ids` splits into the elements already handled and those still to do. */
  ghost predicate Split<T(!new)>(ids: set<T>, done: set<T>, todo: set<T>) {
    done + todo == ids && done !! todo
  }

  lemma SplitStart<T(!new)>(ids: set<T>)
    ensures Split(ids, {}, ids)
  {
  }

  lemma SplitNext<T(!new)>(ids: set<T>, done: set<T>, todo: set<T>, x: T)
    requires Split(ids, done, todo) && x in todo
    ensures Split(ids, done + {x}, todo - {x})
    ensures x !in done && done + {x} <= ids
  {
  }

  lemma SplitEnd<T(!new)>(ids: set<T>, done: set<T>)
    requires Split(ids, done, {})
    ensures done == ids
  {
  }
}
