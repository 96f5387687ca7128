/** Score-ordered ranges of a sorted set, highest first. */
module SortedSets {
  import opened Basics
  import opened Ranking

  function KeyIn(m: map<string, real>, x: string): Key {
    Key(if x in m then m[x] else 0.0, x)
  }

  /** `r` lists the `n` highest members from the top down; among equal scores the later name comes first. */
  ghost predicate IsTop(m: map<string, real>, n: int, r: seq<string>) {
    && |r| == n
    && (forall i :: 0 <= i < |r| ==> r[i] in m)
    && (forall i, j :: 0 <= i < j < |r| ==> r[i] != r[j] && AtMost(KeyIn(m, r[j]), KeyIn(m, r[i])))
    && (forall i, y :: 0 <= i < |r| && y in m && y !in r ==> AtMost(KeyIn(m, y), KeyIn(m, r[i])))
  }

  /** How many members a range from 0 to `stop` holds; a negative `stop` counts from the end. */
  function RangeSize(size: nat, stop: int): nat {
    var last := if stop < 0 then size + stop else stop;
    if last < 0 then 0 else if last >= size then size else last + 1
  }

  /** A range ending at `k - 1` holds at most `k` members exactly when `k` is positive, or when so far
      below zero that the range is empty. */
  lemma AtMostIff(size: nat, k: int)
    ensures RangeSize(size, k - 1) == if k >= 1 then (if k < size then k else size)
                                      else if size + k > 0 then size + k else 0
    ensures RangeSize(size, k - 1) <= (if k < 0 then 0 else k) <==> k >= 1 || size + k <= 0
  {
  }

  /** For `k` zero the range ends at -1 and holds everything; for `k` minus one it leaves out one member. */
  lemma NotAtMost(size: nat)
    requires size > 1
    ensures RangeSize(size, 0 - 1) == size && RangeSize(size, -1 - 1) == size - 1
  {
  }

  method Names(m: map<string, real>) returns (names: seq<string>)
    ensures Distinct(names) && Elements(names) == m.Keys
  {
    names := [];
    var todo := m.Keys;
    while todo != {}
      invariant todo <= m.Keys && Distinct(names) && Elements(names) == m.Keys - todo
    {
      var x :| x in todo;
      ElementsSnoc(names, x);
      assert x !in Elements(names);
      names := names + [x];
      todo := todo - {x};
    }
  }

  method RevRange(m: map<string, real>, stop: int) returns (r: seq<string>)
    ensures IsTop(m, RangeSize(|m|, stop), r)
  {
    var names := Names(m);
    var key := (x: string) => KeyIn(m, x);
    var ranking := Sort(names, key);
    SortRanked(names, key);
    SortedNames(m, names, ranking);
    var n := RangeSize(|m|, stop);
    r := seq(n, i requires 0 <= i < n => ranking[|m| - 1 - i]);
    TopOfRanking(m, ranking, key, n, r);
  }

  lemma SortedNames(m: map<string, real>, names: seq<string>, ranking: seq<string>)
    requires Distinct(names) && Elements(names) == m.Keys && multiset(ranking) == multiset(names)
    ensures |ranking| == |m| && Distinct(ranking) && forall x :: x in ranking <==> x in m
  {
    DistinctSize(names);
    assert |multiset(ranking)| == |ranking| && |multiset(names)| == |names|;
    assert |m.Keys| == |m|;
    forall x ensures x in ranking <==> x in m {
      assert x in ranking <==> x in multiset(ranking);
      assert x in names <==> x in multiset(names);
      assert x in names <==> x in Elements(names);
    }
    assert Elements(ranking) == m.Keys;
    AllDistinct(ranking);
  }

  /** A sequence with as many members as places repeats none. */
  lemma {:induction false} AllDistinct(s: seq<string>)
    requires |Elements(s)| == |s|
    ensures Distinct(s)
  {
    if s != [] {
      var init, last := s[..|s| - 1], s[|s| - 1];
      assert s == init + [last];
      ElementsSnoc(init, last);
      ElementsAtMost(init);
      AllDistinct(init);
      assert last in Elements(init) ==> Elements(init) + {last} == Elements(init);
    }
  }

  lemma {:induction false} ElementsAtMost(s: seq<string>)
    ensures |Elements(s)| <= |s|
  {
    if s == [] {
      assert Elements(s) == {};
    } else {
      var init, last := s[..|s| - 1], s[|s| - 1];
      assert s == init + [last];
      ElementsSnoc(init, last);
      ElementsAtMost(init);
    }
  }

  lemma TopOfRanking(m: map<string, real>, ranking: seq<string>, key: string -> Key, n: nat, r: seq<string>)
    requires forall x :: key(x) == KeyIn(m, x)
    requires |ranking| == |m| && Distinct(ranking) && Ranked(ranking, key) && forall x :: x in ranking <==> x in m
    requires n == |r| <= |m| && forall i :: 0 <= i < n ==> r[i] == ranking[|m| - 1 - i]
    ensures IsTop(m, n, r)
  {
    hide AtMost, KeyIn;
    forall i | 0 <= i < n ensures r[i] in m {
      assert ranking[|m| - 1 - i] in ranking;
    }
    forall i, j | 0 <= i < j < n ensures r[i] != r[j] && AtMost(KeyIn(m, r[j]), KeyIn(m, r[i])) {
      assert AtMost(key(ranking[|m| - 1 - j]), key(ranking[|m| - 1 - i]));
    }
    forall k | |m| - n <= k < |m| ensures ranking[k] in r {
      assert r[|m| - 1 - k] == ranking[k];
    }
    forall i, y | 0 <= i < n && y in m && y !in r ensures AtMost(KeyIn(m, y), KeyIn(m, r[i])) {
      var k :| 0 <= k < |ranking| && ranking[k] == y;
      assert AtMost(key(ranking[k]), key(ranking[|m| - 1 - i]));
    }
  }

  /** There is only one such list. */
  lemma {:induction false} TopUnique(m: map<string, real>, n: nat, r: seq<string>, r': seq<string>, k: nat)
    requires IsTop(m, n, r) && IsTop(m, n, r') && k <= n
    ensures r[..k] == r'[..k]
  {
    if k > 0 {
      TopUnique(m, n, r, r', k - 1);
      var i := k - 1;
      assert r[..k] == r[..i] + [r[i]] && r'[..k] == r'[..i] + [r'[i]];
      NoneHigher(m, n, r, i, r'[i]) by { NotEarlier(m, n, r', i); }
      NoneHigher(m, n, r', i, r[i]) by { NotEarlier(m, n, r, i); }
      AtMostTotal(KeyIn(m, r[i]), KeyIn(m, r'[i]));
    }
  }

  lemma NotEarlier(m: map<string, real>, n: nat, r: seq<string>, i: nat)
    requires IsTop(m, n, r) && i < n
    ensures r[i] !in r[..i]
  {
  }

  lemma NoneHigher(m: map<string, real>, n: nat, r: seq<string>, i: nat, y: string)
    requires IsTop(m, n, r) && i < n && y in m && y !in r[..i]
    ensures AtMost(KeyIn(m, y), KeyIn(m, r[i]))
  {
    if y in r {
      var j :| 0 <= j < |r| && r[j] == y;
      AtMostTotal(KeyIn(m, y), KeyIn(m, y));
      assert j >= i;
    }
  }
}
