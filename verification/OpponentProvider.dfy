/** Opponent selection from the archive, one elite per behaviour cell
    (gigaevo/adversarial/opponent_provider.py). */
module OpponentProvider {
  import opened Basics
  import opened Ranking

  datatype Opponent = Opponent(id: string, code: string, fitness: real)

  /** What selection needs of a stored program; `metric` is None where the role's metric is missing. */
  datatype Blob = Blob(code: string, metric: Option<real>)

  function SortKey(o: Opponent, higher: bool): Key {
    Key(if higher then -o.fitness else o.fitness, o.id)
  }

  function By(higher: bool): Opponent -> Key {
    (o: Opponent) => SortKey(o, higher)
  }

  /** A program the cell map does not know counts as a cell of its own. */
  function Cell(cells: map<string, string>, o: Opponent): string {
    if o.id in cells then cells[o.id] else o.id
  }

  function CellSet(cells: map<string, string>, cache: seq<Opponent>): set<string> {
    set o | o in cache :: Cell(cells, o)
  }

  ghost predicate OneProgramPerId(cache: seq<Opponent>) {
    forall x, y :: x in cache && y in cache && x.id == y.id ==> x == y
  }

  /** The strongest program of its cell. */
  ghost predicate Champion(cells: map<string, string>, cache: seq<Opponent>, higher: bool, o: Opponent) {
    && o in cache
    && forall x :: x in cache && Cell(cells, x) == Cell(cells, o) ==> AtMost(SortKey(o, higher), SortKey(x, higher))
  }

  ghost predicate DistinctCells(cells: map<string, string>, r: seq<Opponent>) {
    forall i, j :: 0 <= i < j < |r| ==> Cell(cells, r[i]) != Cell(cells, r[j])
  }

  /** `r` is the ranking of the `k` strongest cell champions: at least one, and no more than there are. */
  ghost predicate IsTopK(cells: map<string, string>, cache: seq<Opponent>, k: int, higher: bool, r: seq<Opponent>) {
    var wanted := if k < 1 then 1 else k;
    var available := |CellSet(cells, cache)|;
    && |r| == (if wanted < available then wanted else available)
    && Ranked(r, By(higher))
    && DistinctCells(cells, r)
    && (forall o :: o in r ==> Champion(cells, cache, higher, o))
    && (forall o, c :: o in r && Champion(cells, cache, higher, c) && c !in r ==>
          AtMost(SortKey(o, higher), SortKey(c, higher)))
  }

  /** `x` is the fitter of two programs under the role's direction. */
  predicate Fitter(x: Opponent, y: Opponent, higher: bool) {
    if higher then x.fitness > y.fitness else x.fitness < y.fitness
  }

  /** On the programs themselves: the selection runs from the fittest down, equally fit ones by id; no cached
      program is fitter than the selected one of its cell; and none of a cell left out is fitter than any
      selected one. */
  lemma TopKByFitness(cells: map<string, string>, cache: seq<Opponent>, k: int, higher: bool, r: seq<Opponent>)
    requires IsTopK(cells, cache, k, higher, r)
    ensures forall i, j :: 0 <= i < j < |r| ==>
              !Fitter(r[j], r[i], higher) && (r[i].fitness == r[j].fitness ==> !Before(r[j].id, r[i].id))
    ensures forall o, x :: o in r && x in cache && x.id in cells && o.id in cells && cells[x.id] == cells[o.id] ==>
              !Fitter(x, o, higher)
    ensures forall o, x :: o in r && x in cache && Cell(cells, x) == Cell(cells, o) ==> !Fitter(x, o, higher)
    ensures forall o, x :: o in r && x in cache && (forall y :: y in r ==> Cell(cells, y) != Cell(cells, x)) ==>
              !Fitter(x, o, higher)
    ensures forall o :: o in r ==> o in cache
    ensures forall i, j :: 0 <= i < j < |r| ==>
              (if r[i].id in cells then cells[r[i].id] else r[i].id)
              != (if r[j].id in cells then cells[r[j].id] else r[j].id)
  {
    forall i, j | 0 <= i < j < |r|
      ensures !Fitter(r[j], r[i], higher) && (r[i].fitness == r[j].fitness ==> !Before(r[j].id, r[i].id))
    {
      assert AtMost(By(higher)(r[i]), By(higher)(r[j]));
    }
    forall o, x | o in r && x in cache && forall y :: y in r ==> Cell(cells, y) != Cell(cells, x)
      ensures !Fitter(x, o, higher)
    {
      var c := CellChampion(cells, cache, higher, x);
      assert c !in r;
    }
  }

  /** Every cell with a cached program has a champion at least as strong. */
  lemma {:induction false} CellChampion(cells: map<string, string>, cache: seq<Opponent>, higher: bool, x: Opponent)
    returns (c: Opponent)
    requires x in cache
    ensures Champion(cells, cache, higher, c) && Cell(cells, c) == Cell(cells, x)
    ensures AtMost(SortKey(c, higher), SortKey(x, higher))
  {
    c := x;
    AtMostTotal(SortKey(x, higher), SortKey(x, higher));
    var i := 0;
    while i < |cache|
      invariant 0 <= i <= |cache|
      invariant c in cache && Cell(cells, c) == Cell(cells, x) && AtMost(SortKey(c, higher), SortKey(x, higher))
      invariant forall j :: 0 <= j < i && Cell(cells, cache[j]) == Cell(cells, x) ==>
                  AtMost(SortKey(c, higher), SortKey(cache[j], higher))
    {
      hide AtMost;
      var y := cache[i];
      AtMostTotal(SortKey(c, higher), SortKey(y, higher));
      if Cell(cells, y) == Cell(cells, x) && !AtMost(SortKey(c, higher), SortKey(y, higher)) {
        AtMostTotal(SortKey(y, higher), SortKey(y, higher));
        forall j | 0 <= j < i && Cell(cells, cache[j]) == Cell(cells, x)
          ensures AtMost(SortKey(y, higher), SortKey(cache[j], higher))
        {
          AtMostTransitive(SortKey(y, higher), SortKey(c, higher), SortKey(cache[j], higher));
        }
        AtMostTransitive(SortKey(y, higher), SortKey(c, higher), SortKey(x, higher));
        c := y;
      }
      i := i + 1;
    }
  }

  // ----- reading the archive -----

  function Readable(blobs: map<string, Blob>, id: string): bool {
    id in blobs && blobs[id].metric != None && blobs[id].code != ""
  }

  /** The programs an archive listing of (cell, id) leads to. */
  function Fetched(archive: seq<(string, string)>, blobs: map<string, Blob>): seq<Opponent> {
    if archive == [] then []
    else
      var id := archive[|archive| - 1].1;
      Fetched(archive[..|archive| - 1], blobs)
      + if Readable(blobs, id) then [Opponent(id, blobs[id].code, blobs[id].metric.value)] else []
  }

  function CellsFetched(archive: seq<(string, string)>, blobs: map<string, Blob>): map<string, string> {
    if archive == [] then map[]
    else
      var (cell, id) := archive[|archive| - 1];
      var m := CellsFetched(archive[..|archive| - 1], blobs);
      if Readable(blobs, id) then m[id := cell] else m
  }

  lemma {:induction false} FetchedMembers(archive: seq<(string, string)>, blobs: map<string, Blob>)
    ensures forall o :: o in Fetched(archive, blobs) <==>
              && (exists cell :: (cell, o.id) in archive) && Readable(blobs, o.id)
              && o == Opponent(o.id, blobs[o.id].code, blobs[o.id].metric.value)
    ensures forall o :: o in Fetched(archive, blobs) <==>
              && (exists cell :: (cell, o.id) in archive)
              && o.id in blobs && o.code == blobs[o.id].code != "" && blobs[o.id].metric == Some(o.fitness)
    ensures OneProgramPerId(Fetched(archive, blobs))
    ensures forall o :: o in Fetched(archive, blobs) ==>
              o.id in CellsFetched(archive, blobs) && (CellsFetched(archive, blobs)[o.id], o.id) in archive
    ensures forall i :: 0 <= i < |archive| && Readable(blobs, archive[i].1) ==>
              || (exists j :: i < j < |archive| && archive[j].1 == archive[i].1)
              || (archive[i].1, archive[i].0) in CellsFetched(archive, blobs).Items
  {
    if archive != [] {
      var init, last := archive[..|archive| - 1], archive[|archive| - 1];
      assert archive == init + [last];
      FetchedMembers(init, blobs);
      assert forall x :: x in archive <==> x in init || x == last;
    }
  }

  class CellStratifiedProvider {
    const higherIsBetter: bool
    var cache: seq<Opponent>
    var cellFields: map<string, string>

    ghost predicate Valid()
      reads this
    {
      OneProgramPerId(cache)
    }

    constructor (higherIsBetter: bool)
      ensures Valid() && cache == [] && cellFields == map[] && this.higherIsBetter == higherIsBetter
    {
      this.higherIsBetter := higherIsBetter;
      cache, cellFields := [], map[];
    }

    method RefreshCache(archive: seq<(string, string)>, blobs: map<string, Blob>)
      modifies this
      ensures Valid() && cache == Fetched(archive, blobs) && cellFields == CellsFetched(archive, blobs)
    {
      var opponents: seq<Opponent> := [];
      var cellMap: map<string, string> := map[];
      for i := 0 to |archive|
        invariant opponents == Fetched(archive[..i], blobs)
        invariant cellMap == CellsFetched(archive[..i], blobs)
      {
        assert archive[..i + 1][..i] == archive[..i];
        var (cell, id) := archive[i];
        if Readable(blobs, id) {
          opponents := opponents + [Opponent(id, blobs[id].code, blobs[id].metric.value)];
          cellMap := cellMap[id := cell];
        }
      }
      assert archive[..|archive|] == archive;
      FetchedMembers(archive, blobs);
      cache, cellFields := opponents, cellMap;
    }

    /** `archive` and `blobs` are what a refresh would read; it happens when the cache is empty or old. */
    method GetTopK(k: int, higher: bool, expired: bool, archive: seq<(string, string)>, blobs: map<string, Blob>)
        returns (picked: seq<Opponent>)
      requires Valid()
      modifies this
      ensures Valid()
      ensures if expired || old(cache) == []
              then cache == Fetched(archive, blobs) && cellFields == CellsFetched(archive, blobs)
              else cache == old(cache) && cellFields == old(cellFields)
      ensures IsTopK(cellFields, cache, k, higherIsBetter && higher, picked)
    {
      if cache == [] || expired {
        RefreshCache(archive, blobs);
      }
      if cache == [] {
        return [];
      }
      picked := Pick(k, higherIsBetter && higher);
    }

    method Pick(k: int, higher: bool) returns (picked: seq<Opponent>)
      requires Valid() && cache != []
      ensures IsTopK(cellFields, cache, k, higher, picked)
    {
      var ranking := Sort(cache, By(higher));
      SortRanked(cache, By(higher));
      picked := [];
      var seenCells: set<string> := {};
      ghost var n := 0;
      for i := 0 to |ranking|
        invariant n == i
        invariant Greedy(cellFields, ranking[..i], higher, picked, seenCells)
        invariant |picked| == 0 || |picked| < k
      {
        hide Greedy;
        var op := ranking[i];
        var cellField := Cell(cellFields, op);
        n := n + 1;
        GreedyNext(cellFields, ranking, higher, i, picked, seenCells);
        if cellField in seenCells { continue; }
        picked := picked + [op];
        seenCells := seenCells + {cellField};
        if |picked| >= k { break; }
      }
      GreedyEnd(cellFields, cache, k, higher, ranking, n, picked, seenCells);
    }
  }

  // ----- why the greedy pass finds the champions -----

  /** State of the pass after `done`: one program per cell met so far, the strongest met there. */
  ghost predicate Greedy(cells: map<string, string>, done: seq<Opponent>, higher: bool,
      picked: seq<Opponent>, seen: set<string>)
  {
    && seen == CellSet(cells, done) == CellSet(cells, picked)
    && DistinctCells(cells, picked)
    && Ranked(picked, By(higher))
    && (forall o :: o in picked ==> o in done)
    && (forall o, x :: o in picked && x in done && Cell(cells, o) == Cell(cells, x) ==>
          AtMost(SortKey(o, higher), SortKey(x, higher)))
  }

  lemma RankedAhead(ranking: seq<Opponent>, higher: bool, i: nat)
    requires Ranked(ranking, By(higher)) && i <= |ranking|
    ensures forall o, x :: o in ranking[..i] && x in ranking[i..] ==> AtMost(SortKey(o, higher), SortKey(x, higher))
  {
    forall o, x | o in ranking[..i] && x in ranking[i..] ensures AtMost(SortKey(o, higher), SortKey(x, higher)) {
      var a :| 0 <= a < i && ranking[a] == o;
      var b :| i <= b < |ranking| && ranking[b] == x;
      assert AtMost(By(higher)(ranking[a]), By(higher)(ranking[b]));
    }
  }

  lemma CellSetSnoc(cells: map<string, string>, s: seq<Opponent>, o: Opponent)
    ensures CellSet(cells, s + [o]) == CellSet(cells, s) + {Cell(cells, o)}
  {
    assert forall x :: x in s + [o] <==> x in s || x == o;
  }

  lemma GreedyNext(cells: map<string, string>, ranking: seq<Opponent>, higher: bool, i: nat,
      picked: seq<Opponent>, seen: set<string>)
    requires Ranked(ranking, By(higher)) && i < |ranking|
    requires Greedy(cells, ranking[..i], higher, picked, seen)
    ensures var op := ranking[i];
            var cell := Cell(cells, op);
            if cell in seen then Greedy(cells, ranking[..i + 1], higher, picked, seen)
            else Greedy(cells, ranking[..i + 1], higher, picked + [op], seen + {cell})
  {
    hide AtMost, CellSet;
    var op := ranking[i];
    var done := ranking[..i];
    assert ranking[..i + 1] == done + [op];
    RankedAhead(ranking, higher, i);
    assert op in ranking[i..];
    CellSetSnoc(cells, done, op);
    CellSetSnoc(cells, picked, op);
    AtMostTotal(SortKey(op, higher), SortKey(op, higher));
    if Cell(cells, op) !in seen {
      SeenCells(cells, done, seen);
      SeenCells(cells, picked, seen);
    } else {
      assert seen + {Cell(cells, op)} == seen;
    }
  }

  lemma SeenCells(cells: map<string, string>, s: seq<Opponent>, seen: set<string>)
    requires seen == CellSet(cells, s)
    ensures forall o :: o in s ==> Cell(cells, o) in seen
  {
  }

  lemma {:induction false} DistinctCellsSize(cells: map<string, string>, r: seq<Opponent>)
    requires DistinctCells(cells, r)
    ensures |CellSet(cells, r)| == |r|
  {
    if r != [] {
      var init, last := r[..|r| - 1], r[|r| - 1];
      assert r == init + [last];
      CellSetSnoc(cells, init, last);
      DistinctCellsSize(cells, init);
      assert Cell(cells, last) !in CellSet(cells, init);
    } else {
      assert CellSet(cells, r) == {};
    }
  }

  lemma SameMembers(a: seq<Opponent>, b: seq<Opponent>)
    requires multiset(a) == multiset(b)
    ensures forall o :: o in a <==> o in b
  {
    assert forall o :: o in a <==> o in multiset(a);
    assert forall o :: o in b <==> o in multiset(b);
  }

  lemma GreedyEnd(cells: map<string, string>, cache: seq<Opponent>, k: int, higher: bool,
      ranking: seq<Opponent>, n: nat, picked: seq<Opponent>, seen: set<string>)
    requires OneProgramPerId(cache) && cache != []
    requires multiset(ranking) == multiset(cache) && Ranked(ranking, By(higher))
    requires n <= |ranking| && Greedy(cells, ranking[..n], higher, picked, seen)
    requires if n == |ranking| then |picked| <= if k < 1 then 1 else k else |picked| == if k < 1 then 1 else k
    ensures IsTopK(cells, cache, k, higher, picked)
  {
    hide AtMost, CellSet;
    SameMembers(ranking, cache);
    assert ranking == ranking[..n] + ranking[n..];
    RankedAhead(ranking, higher, n);
    GreedySize(cells, cache, ranking, n, higher, picked, seen);
    forall c | Champion(cells, cache, higher, c) && c in ranking[..n] ensures c in picked {
      SeenCells(cells, ranking[..n], seen);
      var p := PickedIn(cells, picked, seen, Cell(cells, c));
      assert p in cache;
      AtMostTotal(SortKey(p, higher), SortKey(c, higher));
    }
  }

  lemma PickedIn(cells: map<string, string>, picked: seq<Opponent>, seen: set<string>, cell: string)
    returns (p: Opponent)
    requires seen == CellSet(cells, picked) && cell in seen
    ensures p in picked && Cell(cells, p) == cell
  {
    p :| p in picked && Cell(cells, p) == cell;
  }

  lemma GreedySize(cells: map<string, string>, cache: seq<Opponent>, ranking: seq<Opponent>, n: nat, higher: bool,
      picked: seq<Opponent>, seen: set<string>)
    requires multiset(ranking) == multiset(cache) && n <= |ranking|
    requires Greedy(cells, ranking[..n], higher, picked, seen)
    ensures |picked| <= |CellSet(cells, cache)|
    ensures n == |ranking| ==> |picked| == |CellSet(cells, cache)|
  {
    SameMembers(ranking, cache);
    DistinctCellsSize(cells, picked);
    assert CellSet(cells, ranking) == CellSet(cells, cache);
    assert forall o :: o in ranking[..n] ==> o in ranking;
    SubsetSize(CellSet(cells, ranking[..n]), CellSet(cells, ranking));
    assert ranking[..|ranking|] == ranking;
  }

  lemma EveryCellOnce(cells: map<string, string>, cache: seq<Opponent>, r: seq<Opponent>)
    requires DistinctCells(cells, r) && |r| == |CellSet(cells, cache)|
    requires forall o :: o in r ==> o in cache
    ensures forall x :: x in cache ==> exists o :: o in r && Cell(cells, o) == Cell(cells, x)
  {
    DistinctCellsSize(cells, r);
    SubsetSize(CellSet(cells, r), CellSet(cells, cache));
    forall x | x in cache ensures exists o :: o in r && Cell(cells, o) == Cell(cells, x) {
      assert Cell(cells, x) in CellSet(cells, r);
    }
  }

  /** At most `k` programs are selected exactly when `k` is positive or nothing is cached. */
  lemma SelectsAtMostIff(cells: map<string, string>, cache: seq<Opponent>, k: int, higher: bool, r: seq<Opponent>)
    requires IsTopK(cells, cache, k, higher, r)
    ensures |r| <= if k < 1 then 1 else k
    ensures |r| < (if k < 1 then 1 else k) ==>
              forall x :: x in cache ==> exists o :: o in r && Cell(cells, o) == Cell(cells, x)
    ensures |r| <= (if k < 0 then 0 else k) <==> k >= 1 || cache == []
  {
    if |r| == |CellSet(cells, cache)| {
      EveryCellOnce(cells, cache, r);
    }
    hide DistinctCells, Champion;
    if cache != [] {
      assert Cell(cells, cache[0]) in CellSet(cells, cache);
    } else {
      assert CellSet(cells, cache) == {};
    }
  }

  /** Asking for none of one cached program selects it all the same. */
  lemma SelectsOneForZero(o: Opponent, higher: bool)
    ensures IsTopK(map[], [o], 0, higher, [o])
  {
    AtMostTotal(SortKey(o, higher), SortKey(o, higher));
    assert [o][0] == o && Cell(map[], o) == o.id;
    assert CellSet(map[], [o]) == {o.id};
  }

  // ----- what selection depends on -----

  lemma SameChampions(cells: map<string, string>, a: seq<Opponent>, b: seq<Opponent>, higher: bool)
    requires Elements(a) == Elements(b)
    ensures forall o :: Champion(cells, a, higher, o) <==> Champion(cells, b, higher, o)
    ensures CellSet(cells, a) == CellSet(cells, b)
  {
    assert forall o :: o in a <==> o in Elements(a);
    assert forall o :: o in b <==> o in Elements(b);
  }

  /** The description fixes the answer, and only the set of cached programs matters: neither the order of
      the cache nor repetitions in it. */
  lemma {:induction false} TopKUnique(cells: map<string, string>, a: seq<Opponent>, b: seq<Opponent>,
      k: int, higher: bool, r: seq<Opponent>, r': seq<Opponent>)
    requires OneProgramPerId(a) && Elements(a) == Elements(b)
    requires IsTopK(cells, a, k, higher, r) && IsTopK(cells, b, k, higher, r')
    ensures r == r'
  {
    SameChampions(cells, a, b, higher);
    PrefixesAgree(cells, a, b, k, higher, r, r', |r|);
    assert r[..|r|] == r && r'[..|r|] == r';
  }

  lemma {:induction false} PrefixesAgree(cells: map<string, string>, a: seq<Opponent>, b: seq<Opponent>,
      k: int, higher: bool, r: seq<Opponent>, r': seq<Opponent>, n: nat)
    requires OneProgramPerId(a) && Elements(a) == Elements(b)
    requires IsTopK(cells, a, k, higher, r) && IsTopK(cells, b, k, higher, r')
    requires |r| == |r'| && n <= |r|
    ensures r[..n] == r'[..n]
  {
    if n > 0 {
      hide IsTopK;
      PrefixesAgree(cells, a, b, k, higher, r, r', n - 1);
      SameChampions(cells, a, b, higher);
      NextIsAhead(cells, b, k, higher, r', n - 1, r[n - 1]) by { NextIsChampion(cells, a, k, higher, r, n - 1); }
      NextIsAhead(cells, a, k, higher, r, n - 1, r'[n - 1]) by { NextIsChampion(cells, b, k, higher, r', n - 1); }
      NextIsChampion(cells, a, k, higher, r, n - 1);
      NextIsChampion(cells, b, k, higher, r', n - 1);
      AtMostTotal(SortKey(r[n - 1], higher), SortKey(r'[n - 1], higher));
      assert r[..n] == r[..n - 1] + [r[n - 1]] && r'[..n] == r'[..n - 1] + [r'[n - 1]];
    }
  }

  lemma NextIsChampion(cells: map<string, string>, cache: seq<Opponent>, k: int, higher: bool, r: seq<Opponent>, i: nat)
    requires IsTopK(cells, cache, k, higher, r) && i < |r|
    ensures Champion(cells, cache, higher, r[i]) && r[i] !in r[..i]
  {
    assert r[i] in r;
    assert DistinctCells(cells, r);
  }

  /** Of the champions not ranked before place `i`, none is ahead of the one at place `i`. */
  lemma NextIsAhead(cells: map<string, string>, cache: seq<Opponent>, k: int, higher: bool,
      r: seq<Opponent>, i: nat, c: Opponent)
    requires IsTopK(cells, cache, k, higher, r) && i < |r|
    requires Champion(cells, cache, higher, c) && c !in r[..i]
    ensures AtMost(SortKey(r[i], higher), SortKey(c, higher))
  {
    assert r[i] in r;
    if c in r {
      var j :| 0 <= j < |r| && r[j] == c;
      AtMostTotal(SortKey(c, higher), SortKey(c, higher));
      assert j >= i;
      assert j > i ==> AtMost(By(higher)(r[i]), By(higher)(r[j]));
    }
  }

  /** Whatever order the archive lists its cells in, even when one program holds several of them, the
      selection is the same. */
  lemma SelectionForgetsArchiveOrder(archive: seq<(string, string)>, archive': seq<(string, string)>,
      blobs: map<string, Blob>, k: int, higher: bool, r: seq<Opponent>, r': seq<Opponent>)
    requires Elements(archive) == Elements(archive') && OneIdPerCell(archive)
    requires IsTopK(CellsFetched(archive, blobs), Fetched(archive, blobs), k, higher, r)
    requires IsTopK(CellsFetched(archive', blobs), Fetched(archive', blobs), k, higher, r')
    ensures r == r'
  {
    var a, a' := Fetched(archive, blobs), Fetched(archive', blobs);
    hide IsTopK, OneProgramPerId, Apart, OneIdPerCell;
    FetchedTogether(archive, archive', blobs);
    CellsApart(archive, blobs);
    CellsApart(archive', blobs);
    ApartIsPlain(CellsFetched(archive, blobs), a, k, higher, r);
    ApartIsPlain(CellsFetched(archive', blobs), a', k, higher, r');
    TopKUnique(map[], a, a', k, higher, r, r');
  }

  ghost predicate OneIdPerCell(archive: seq<(string, string)>) {
    forall x, y :: x in archive && y in archive && x.0 == y.0 ==> x.1 == y.1
  }

  lemma FetchedTogether(archive: seq<(string, string)>, archive': seq<(string, string)>, blobs: map<string, Blob>)
    requires Elements(archive) == Elements(archive') && OneIdPerCell(archive)
    ensures OneIdPerCell(archive')
    ensures Elements(Fetched(archive, blobs)) == Elements(Fetched(archive', blobs))
    ensures OneProgramPerId(Fetched(archive, blobs)) && OneProgramPerId(Fetched(archive', blobs))
  {
    FetchedMembers(archive, blobs);
    FetchedMembers(archive', blobs);
    assert forall x :: x in archive <==> x in Elements(archive);
    assert forall x :: x in archive' <==> x in Elements(archive');
  }

  lemma CellsApart(archive: seq<(string, string)>, blobs: map<string, Blob>)
    requires OneIdPerCell(archive)
    ensures Apart(CellsFetched(archive, blobs), Fetched(archive, blobs))
  {
    FetchedMembers(archive, blobs);
  }

  /** No two cached programs share a cell. */
  ghost predicate Apart(cells: map<string, string>, cache: seq<Opponent>) {
    forall x, y :: x in cache && y in cache && Cell(cells, x) == Cell(cells, y) ==> x.id == y.id
  }

  /** With an archive that keeps one program per cell the cells play no part: the selection ranks the
      distinct programs. */
  lemma ApartIsPlain(cells: map<string, string>, cache: seq<Opponent>, k: int, higher: bool, r: seq<Opponent>)
    requires OneProgramPerId(cache) && Apart(cells, cache) && IsTopK(cells, cache, k, higher, r)
    ensures IsTopK(map[], cache, k, higher, r)
  {
    assert Apart(map[], cache);
    ApartChampions(cells, cache, higher);
    ApartChampions(map[], cache, higher);
    ApartSize(cells, cache, Elements(cache));
    ApartSize(map[], cache, Elements(cache));
    forall i, j | 0 <= i < j < |r| ensures r[i].id != r[j].id {
      assert Cell(cells, r[i]) != Cell(cells, r[j]);
    }
  }

  lemma ApartChampions(cells: map<string, string>, cache: seq<Opponent>, higher: bool)
    requires OneProgramPerId(cache) && Apart(cells, cache)
    ensures forall o :: Champion(cells, cache, higher, o) <==> o in cache
  {
    forall o | o in cache ensures Champion(cells, cache, higher, o) {
      AtMostTotal(SortKey(o, higher), SortKey(o, higher));
    }
  }

  lemma {:induction false} ApartSize(cells: map<string, string>, cache: seq<Opponent>, members: set<Opponent>)
    requires OneProgramPerId(cache) && Apart(cells, cache) && members == Elements(cache)
    ensures |CellSet(cells, cache)| == |members|
  {
    assert CellSet(cells, cache) == set o | o in members :: Cell(cells, o);
    ImageSize(cells, members);
  }

  lemma {:induction false} ImageSize(cells: map<string, string>, members: set<Opponent>)
    requires forall x, y :: x in members && y in members && Cell(cells, x) == Cell(cells, y) ==> x == y
    ensures |set o | o in members :: Cell(cells, o)| == |members|
  {
    if members != {} {
      var o :| o in members;
      ImageSize(cells, members - {o});
      assert (set x | x in members :: Cell(cells, x)) ==
        (set x | x in members - {o} :: Cell(cells, x)) + {Cell(cells, o)};
    }
  }

  // ----- the plain provider -----

  /** A slice up to `k` as Python takes it. */
  function Upto(s: seq<Opponent>, k: int): (r: seq<Opponent>)
    ensures r <= s
    ensures k >= 0 ==> |r| == k || (|r| == |s| < k)
    ensures k < 0 ==> |r| == |s| + k || (r == [] && |s| + k < 0)
  {
    if k >= |s| then s
    else if k >= 0 then s[..k]
    else if |s| + k >= 0 then s[..|s| + k]
    else []
  }

  function PlainTopK(cache: seq<Opponent>, k: int, higher: bool): seq<Opponent> {
    Upto(Sort(cache, By(higher)), k)
  }

  lemma PlainForgetsOrder(a: seq<Opponent>, b: seq<Opponent>, k: int, higher: bool)
    requires multiset(a) == multiset(b) && OneProgramPerId(a)
    ensures PlainTopK(a, k, higher) == PlainTopK(b, k, higher)
  {
    SortForgetsOrder(a, b, By(higher));
  }

  /** For k >= 1 and an archive holding every program in one cell only, both providers select alike. */
  lemma StratifiedIsPlain(cells: map<string, string>, cache: seq<Opponent>, k: int, higher: bool, r: seq<Opponent>)
    requires OneProgramPerId(cache) && Distinct(cache) && Apart(cells, cache) && k >= 1
    requires IsTopK(cells, cache, k, higher, r)
    ensures r == PlainTopK(cache, k, higher)
  {
    var ranking := Sort(cache, By(higher));
    var p := PlainTopK(cache, k, higher);
    SortRanked(cache, By(higher));
    SameMembers(ranking, cache);
    ApartIsPlain(cells, cache, k, higher, r);
    PlainIsTopK(cache, k, higher);
    TopKUnique(map[], cache, cache, k, higher, r, p);
  }

  lemma StillDistinct(a: seq<Opponent>, b: seq<Opponent>)
    requires multiset(a) == multiset(b) && Distinct(a)
    ensures Distinct(b)
  {
    forall i, j | 0 <= i < j < |b| ensures b[i] != b[j] {
      if b[i] == b[j] {
        assert b == b[..i] + [b[i]] + b[i + 1..j] + [b[j]] + b[j + 1..];
        assert multiset(b)[b[i]] >= 2;
        AtMostOnce(a, b[i]);
        assert false;
      }
    }
  }

  lemma {:induction false} AtMostOnce(a: seq<Opponent>, o: Opponent)
    requires Distinct(a)
    ensures multiset(a)[o] <= 1
  {
    if a != [] {
      assert a == [a[0]] + a[1..];
      assert a[0] !in a[1..];
      AtMostOnce(a[1..], o);
    }
  }

  lemma PlainIsTopK(cache: seq<Opponent>, k: int, higher: bool)
    requires OneProgramPerId(cache) && Distinct(cache) && k >= 1
    ensures IsTopK(map[], cache, k, higher, PlainTopK(cache, k, higher))
  {
    var ranking := Sort(cache, By(higher));
    SortRanked(cache, By(higher));
    SameMembers(ranking, cache);
    StillDistinct(cache, ranking);
    assert |multiset(ranking)| == |ranking| && |multiset(cache)| == |cache|;
    StartOfRanking(cache, ranking, k, higher, if k < |ranking| then k else |ranking|);
  }

  lemma StartOfRanking(cache: seq<Opponent>, ranking: seq<Opponent>, k: int, higher: bool, n: nat)
    requires OneProgramPerId(cache) && Distinct(cache) && Distinct(ranking) && Ranked(ranking, By(higher))
    requires |ranking| == |cache| && forall o :: o in ranking <==> o in cache
    requires k >= 1 && n == if k < |ranking| then k else |ranking|
    ensures IsTopK(map[], cache, k, higher, ranking[..n])
  {
    hide AtMost, CellSet;
    ApartChampions(map[], cache, higher);
    ApartSize(map[], cache, Elements(cache));
    DistinctSize(cache);
    RankedAhead(ranking, higher, n);
    assert ranking == ranking[..n] + ranking[n..];
    forall i, j | 0 <= i < j < n ensures ranking[i].id != ranking[j].id {
      assert ranking[i] in cache && ranking[j] in cache;
    }
  }
}
