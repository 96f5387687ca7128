/** Improvement bookkeeping between two populations D and G (gigaevo/adversarial/dg_tracker.py). */
module DGTracker {
  import opened Basics
  import opened Ranking
  import opened SortedSets

  type Id = string
  type Metrics = map<string, real>

  /** One measured pair: its record must name the delta. */
  datatype Pair = Pair(d: Id, g: Id, record: Metrics)

  predicate HasDelta(p: Pair) { "delta" in p.record }

  function Delta(p: Pair): real
    requires HasDelta(p)
  {
    p.record["delta"]
  }

  /** What reached the store: a measured pair, or a bare improvement without a record. */
  datatype Entry =
    | Measured(d: Id, g: Id, delta: real, record: Metrics)
    | Improved(d: Id, g: Id, delta: real)

  function Member(d: Id, g: Id): string {
    d + "|" + g
  }

  /** The five families of keys; an absent key reads as empty. */
  datatype Indices = Indices(
    scores: map<Id, map<Id, real>>,
    pairs: map<string, real>,
    wins: map<Id, set<Id>>,
    resisted: map<Id, set<Id>>,
    metrics: map<Id, map<Id, Metrics>>)

  function Inner<V>(m: map<Id, map<Id, V>>, k: Id): map<Id, V> {
    if k in m then m[k] else map[]
  }

  function Lookup<K, V>(m: map<K, V>, k: K): Option<V> {
    if k in m then Some(m[k]) else None
  }

  function Score(m: map<Id, map<Id, real>>, d: Id, g: Id): Option<real> {
    Lookup(Inner(m, g), d)
  }

  function Members(m: map<Id, set<Id>>, k: Id): set<Id> {
    if k in m then m[k] else {}
  }

  // ----- what the history says, without any index -----

  function Max(a: Option<real>, b: Option<real>): Option<real> {
    match (a, b)
    case (None, _) => b
    case (_, None) => a
    case (Some(x), Some(y)) => if x < y then b else a
  }

  function Positive(e: Entry): Option<real> {
    if e.delta > 0.0 then Some(e.delta) else None
  }

  predicate About(e: Entry, d: Id, g: Id) {
    e.d == d && e.g == g
  }

  /** The largest positive delta of the pair. */
  function Best(log: seq<Entry>, d: Id, g: Id): Option<real> {
    if log == [] then None
    else
      var (init, e) := (log[..|log| - 1], log[|log| - 1]);
      if About(e, d, g) then Max(Best(init, d, g), Positive(e)) else Best(init, d, g)
  }

  /** The last positive delta among the entries whose pair is written `m`. */
  function Last(log: seq<Entry>, m: string): Option<real> {
    if log == [] then None
    else
      var (init, e) := (log[..|log| - 1], log[|log| - 1]);
      if Member(e.d, e.g) == m && e.delta > 0.0 then Some(e.delta) else Last(init, m)
  }

  function LastRecord(log: seq<Entry>, d: Id, g: Id): Option<Metrics> {
    if log == [] then None
    else
      var (init, e) := (log[..|log| - 1], log[|log| - 1]);
      if e.Measured? && About(e, d, g) then Some(e.record) else LastRecord(init, d, g)
  }

  function Beaten(log: seq<Entry>, d: Id): set<Id> {
    set e | e in log && e.Measured? && e.d == d && e.delta > 0.0 :: e.g
  }

  function Resisting(log: seq<Entry>, g: Id): set<Id> {
    set e | e in log && e.Measured? && e.g == g && e.delta <= 0.0 :: e.d
  }

  /** Each write to the store is one batch. */
  function Flat(history: seq<seq<Entry>>): seq<Entry> {
    if history == [] then [] else Flat(history[..|history| - 1]) + history[|history| - 1]
  }

  /** What the global index keeps for `m`: per batch the last value, over batches the largest. */
  function Kept(history: seq<seq<Entry>>, m: string): Option<real> {
    if history == [] then None
    else Max(Kept(history[..|history| - 1], m), Last(history[|history| - 1], m))
  }

  /** All five families against the history. */
  ghost predicate Represents(ix: Indices, history: seq<seq<Entry>>) {
    var log := Flat(history);
    && (forall d, g :: Score(ix.scores, d, g) == Best(log, d, g))
    && (forall m :: Lookup(ix.pairs, m) == Kept(history, m))
    && (forall d :: Members(ix.wins, d) == Beaten(log, d))
    && (forall g :: Members(ix.resisted, g) == Resisting(log, g))
    && (forall d, g :: Lookup(Inner(ix.metrics, d), g) == LastRecord(log, d, g))
  }

  // ----- the tracker -----

  /** A sorted-set write that only raises scores. */
  function Raise<K(!new)>(m: map<K, real>, k: K, score: real): (r: map<K, real>)
    ensures forall x :: Lookup(r, x) == if x == k then Max(Lookup(m, k), Some(score)) else Lookup(m, x)
  {
    if k in m && m[k] >= score then m else m[k := score]
  }

  function RaiseScore(m: map<Id, map<Id, real>>, d: Id, g: Id, score: real): (r: map<Id, map<Id, real>>)
    ensures forall x, y :: Score(r, x, y) ==
              if x == d && y == g then Max(Score(m, d, g), Some(score)) else Score(m, x, y)
  {
    m[g := Raise(Inner(m, g), d, score)]
  }

  function Add(m: map<Id, set<Id>>, k: Id, x: Id): (r: map<Id, set<Id>>)
    ensures forall k' :: Members(r, k') == if k' == k then Members(m, k) + {x} else Members(m, k')
  {
    m[k := Members(m, k) + {x}]
  }

  function Put<V>(m: map<Id, map<Id, V>>, k: Id, f: Id, v: V): (r: map<Id, map<Id, V>>)
    ensures forall k', f' :: Lookup(Inner(r, k'), f') ==
              if k' == k && f' == f then Some(v) else Lookup(Inner(m, k'), f')
  {
    m[k := Inner(m, k)[f := v]]
  }

  function Entry1(p: Pair): Entry
    requires HasDelta(p)
  {
    Measured(p.d, p.g, Delta(p), p.record)
  }

  ghost predicate Complete(pairs: seq<Pair>) {
    forall p :: p in pairs ==> HasDelta(p)
  }

  function Entries(pairs: seq<Pair>): seq<Entry>
    requires Complete(pairs)
  {
    seq(|pairs|, i requires 0 <= i < |pairs| => Entry1(pairs[i]))
  }

  function RaiseAll(m: map<string, real>, added: map<string, real>): (r: map<string, real>)
    ensures forall x :: Lookup(r, x) == Max(Lookup(m, x), Lookup(added, x))
  {
    map x | x in m.Keys + added.Keys :: Max(Lookup(m, x), Lookup(added, x)).value
  }

  /** One command per key. */
  method AddAll(m: map<Id, set<Id>>, added: map<Id, set<Id>>) returns (r: map<Id, set<Id>>)
    ensures forall k :: Members(r, k) == Members(m, k) + Members(added, k)
  {
    r := m;
    var todo := added.Keys;
    while todo != {}
      invariant todo <= added.Keys
      invariant forall k :: Members(r, k) ==
                  if k in added && k !in todo then Members(m, k) + added[k] else Members(m, k)
    {
      var k :| k in todo;
      r := r[k := Members(r, k) + added[k]];
      todo := todo - {k};
    }
  }

  method SetAll(m: map<Id, map<Id, Metrics>>, added: map<Id, map<Id, Metrics>>) returns (r: map<Id, map<Id, Metrics>>)
    ensures forall k, f :: Lookup(Inner(r, k), f) == Latest(Lookup(Inner(m, k), f), Lookup(Inner(added, k), f))
  {
    r := m;
    var todo := added.Keys;
    while todo != {}
      invariant todo <= added.Keys
      invariant forall k :: Inner(r, k) == if k in added && k !in todo then Inner(m, k) + added[k] else Inner(m, k)
    {
      var k :| k in todo;
      r := r[k := Inner(r, k) + added[k]];
      todo := todo - {k};
    }
  }

  function Latest<V>(before: Option<V>, after: Option<V>): Option<V> {
    if after == None then before else after
  }

  /** The dictionaries the loop over a batch fills; `scores` is what the queued score commands lead to. */
  datatype Commands = Commands(
    scores: map<Id, map<Id, real>>, globals: map<string, real>,
    dWins: map<Id, set<Id>>, gResisted: map<Id, set<Id>>, dMetrics: map<Id, map<Id, Metrics>>)

  /** What the loop has collected once `done` is handled. */
  ghost predicate Collected(done: seq<Entry>, was: map<Id, map<Id, real>>, c: Commands) {
    && (forall d, g :: Score(c.scores, d, g) == Max(Score(was, d, g), Best(done, d, g)))
    && (forall m :: Lookup(c.globals, m) == Last(done, m))
    && (forall d :: Members(c.dWins, d) == Beaten(done, d))
    && (forall g :: Members(c.gResisted, g) == Resisting(done, g))
    && (forall d, g :: Lookup(Inner(c.dMetrics, d), g) == LastRecord(done, d, g))
  }

  /** The commands for every pair, or None when a record does not name its delta. */
  method Prepare(batch: seq<Pair>, was: map<Id, map<Id, real>>) returns (r: Option<Commands>, positive: nat)
    ensures r != None <==> Complete(batch)
    ensures r != None ==> positive == Positives(batch) && Collected(Entries(batch), was, r.value)
  {
    var c := Commands(was, map[], map[], map[], map[]);
    positive := 0;
    for i := 0 to |batch|
      invariant Complete(batch[..i])
      invariant positive == Positives(batch[..i])
      invariant Collected(Entries(batch[..i]), was, c)
    {
      hide Collected, Entries, Entry1;
      var p := batch[i];
      if !HasDelta(p) {
        assert p in batch;
        return None, 0;
      }
      EntriesSnoc(batch, i);
      if Delta(p) > 0.0 {
        CollectPositive(Entries(batch[..i]), was, c, p);
        positive := positive + 1;
        c := c.(scores := RaiseScore(c.scores, p.d, p.g, Delta(p)),
                globals := c.globals[Member(p.d, p.g) := Delta(p)],
                dWins := Add(c.dWins, p.d, p.g));
      } else {
        CollectOther(Entries(batch[..i]), was, c, p);
        c := c.(gResisted := Add(c.gResisted, p.g, p.d));
      }
      c := c.(dMetrics := Put(c.dMetrics, p.d, p.g, p.record));
    }
    assert batch[..|batch|] == batch;
    return Some(c), positive;
  }

  lemma EntriesAre(batch: seq<Pair>)
    requires Complete(batch)
    ensures |Entries(batch)| == |batch|
    ensures forall i :: 0 <= i < |batch| ==>
              && "delta" in batch[i].record
              && Entries(batch)[i] == Measured(batch[i].d, batch[i].g, batch[i].record["delta"], batch[i].record)
  {
    assert forall i :: 0 <= i < |batch| ==> batch[i] in batch;
  }

  lemma EntriesSnoc(batch: seq<Pair>, i: nat)
    requires i < |batch| && Complete(batch[..i]) && HasDelta(batch[i])
    ensures Complete(batch[..i + 1])
    ensures Entries(batch[..i + 1]) == Entries(batch[..i]) + [Entry1(batch[i])]
    ensures Positives(batch[..i + 1]) == Positives(batch[..i]) + if Delta(batch[i]) > 0.0 then 1 else 0
  {
    assert batch[..i + 1] == batch[..i] + [batch[i]];
    assert batch[..i + 1][..i] == batch[..i];
  }

  lemma MembersSnoc(log: seq<Entry>, e: Entry)
    ensures forall d :: Beaten(log + [e], d) ==
              Beaten(log, d) + if e.Measured? && e.d == d && e.delta > 0.0 then {e.g} else {}
    ensures forall g :: Resisting(log + [e], g) ==
              Resisting(log, g) + if e.Measured? && e.g == g && e.delta <= 0.0 then {e.d} else {}
  {
    assert forall x :: x in log + [e] <==> x in log || x == e;
  }

  lemma LogSnoc(log: seq<Entry>, e: Entry)
    ensures forall d, g :: Best(log + [e], d, g) ==
              if About(e, d, g) then Max(Best(log, d, g), Positive(e)) else Best(log, d, g)
    ensures forall m :: Last(log + [e], m) ==
              if Member(e.d, e.g) == m && e.delta > 0.0 then Some(e.delta) else Last(log, m)
    ensures forall d, g :: LastRecord(log + [e], d, g) ==
              if e.Measured? && About(e, d, g) then Some(e.record) else LastRecord(log, d, g)
  {
    assert (log + [e])[..|log|] == log;
  }

  lemma CollectPositive(done: seq<Entry>, was: map<Id, map<Id, real>>, c: Commands, p: Pair)
    requires HasDelta(p) && Delta(p) > 0.0 && Collected(done, was, c)
    ensures Collected(done + [Entry1(p)], was,
              Commands(RaiseScore(c.scores, p.d, p.g, Delta(p)), c.globals[Member(p.d, p.g) := Delta(p)],
                       Add(c.dWins, p.d, p.g), c.gResisted, Put(c.dMetrics, p.d, p.g, p.record)))
  {
    hide Best, Last, LastRecord, Beaten, Resisting, Member, Score, Members, Inner;
    MembersSnoc(done, Entry1(p));
    LogSnoc(done, Entry1(p));
  }

  lemma CollectOther(done: seq<Entry>, was: map<Id, map<Id, real>>, c: Commands, p: Pair)
    requires HasDelta(p) && Delta(p) <= 0.0 && Collected(done, was, c)
    ensures Collected(done + [Entry1(p)], was,
              c.(gResisted := Add(c.gResisted, p.g, p.d), dMetrics := Put(c.dMetrics, p.d, p.g, p.record)))
  {
    hide Best, Last, LastRecord, Beaten, Resisting, Member, Score, Members, Inner;
    MembersSnoc(done, Entry1(p));
    LogSnoc(done, Entry1(p));
  }

  // ----- one more batch -----

  lemma {:induction false} LogAppend(log: seq<Entry>, b: seq<Entry>, d: Id, g: Id)
    ensures Best(log + b, d, g) == Max(Best(log, d, g), Best(b, d, g))
    ensures LastRecord(log + b, d, g) == Latest(LastRecord(log, d, g), LastRecord(b, d, g))
    ensures Beaten(log + b, d) == Beaten(log, d) + Beaten(b, d)
    ensures Resisting(log + b, g) == Resisting(log, g) + Resisting(b, g)
  {
    if b == [] {
      assert log + b == log;
    } else {
      var init, e := b[..|b| - 1], b[|b| - 1];
      assert b == init + [e] && log + b == (log + init) + [e];
      LogAppend(log, init, d, g);
      hide Best, Last, LastRecord, Beaten, Resisting;
      LogSnoc(init, e);
      LogSnoc(log + init, e);
      MembersSnoc(init, e);
      MembersSnoc(log + init, e);
    }
  }

  lemma HistorySnoc(history: seq<seq<Entry>>, b: seq<Entry>)
    ensures Flat(history + [b]) == Flat(history) + b
    ensures forall m :: Kept(history + [b], m) == Max(Kept(history, m), Last(b, m))
  {
    assert (history + [b])[..|history|] == history;
  }

  /** `ix'` is `ix` with the effect of the batch `b` added family by family. */
  ghost predicate Updated(ix: Indices, b: seq<Entry>, ix': Indices) {
    && (forall d, g :: Score(ix'.scores, d, g) == Max(Score(ix.scores, d, g), Best(b, d, g)))
    && (forall m :: Lookup(ix'.pairs, m) == Max(Lookup(ix.pairs, m), Last(b, m)))
    && (forall d :: Members(ix'.wins, d) == Members(ix.wins, d) + Beaten(b, d))
    && (forall g :: Members(ix'.resisted, g) == Members(ix.resisted, g) + Resisting(b, g))
    && (forall d, g :: Lookup(Inner(ix'.metrics, d), g) ==
          Latest(Lookup(Inner(ix.metrics, d), g), LastRecord(b, d, g)))
  }

  lemma UpdatedRepresents(ix: Indices, history: seq<seq<Entry>>, b: seq<Entry>, ix': Indices)
    requires Represents(ix, history) && Updated(ix, b, ix')
    ensures Represents(ix', history + [b])
  {
    hide Best, Last, LastRecord, Beaten, Resisting, Kept, Flat, Score, Members, Inner, Lookup, Max;
    HistorySnoc(history, b);
    forall d, g
      ensures Score(ix'.scores, d, g) == Best(Flat(history + [b]), d, g)
      ensures Lookup(Inner(ix'.metrics, d), g) == LastRecord(Flat(history + [b]), d, g)
      ensures Members(ix'.wins, d) == Beaten(Flat(history + [b]), d)
      ensures Members(ix'.resisted, g) == Resisting(Flat(history + [b]), g)
    {
      LogAppend(Flat(history), b, d, g);
    }
  }

  lemma RaisedIsUpdate(ix: Indices, e: Entry)
    requires e.Improved? && e.delta > 0.0
    ensures Updated(ix, [e], ix.(scores := RaiseScore(ix.scores, e.d, e.g, e.delta),
                                 pairs := Raise(ix.pairs, Member(e.d, e.g), e.delta)))
  {
    hide Best, Last, LastRecord, Beaten, Resisting, Member, Score, Members, Inner, RaiseScore, Raise;
    assert [e] == [] + [e];
    EmptyLog();
    MembersSnoc([], e);
    LogSnoc([], e);
  }

  lemma EmptyLog()
    ensures forall d, g :: Best([], d, g) == None && LastRecord([], d, g) == None
    ensures forall m :: Last([], m) == None
    ensures forall x :: Beaten([], x) == {} && Resisting([], x) == {}
  {
  }

  lemma CollectedIsUpdate(ix: Indices, done: seq<Entry>, c: Commands, ix': Indices)
    requires Collected(done, ix.scores, c)
    requires ix'.scores == c.scores
    requires forall m :: Lookup(ix'.pairs, m) == Max(Lookup(ix.pairs, m), Lookup(c.globals, m))
    requires forall k :: Members(ix'.wins, k) == Members(ix.wins, k) + Members(c.dWins, k)
    requires forall k :: Members(ix'.resisted, k) == Members(ix.resisted, k) + Members(c.gResisted, k)
    requires forall k, f :: Lookup(Inner(ix'.metrics, k), f) ==
               Latest(Lookup(Inner(ix.metrics, k), f), Lookup(Inner(c.dMetrics, k), f))
    ensures Updated(ix, done, ix')
  {
    hide Best, Last, LastRecord, Beaten, Resisting, Member, Members, Inner, Lookup, Max, Latest;
  }

  function Positives(pairs: seq<Pair>): (n: nat)
    requires Complete(pairs)
    ensures n <= |pairs|
  {
    if pairs == [] then 0
    else Positives(pairs[..|pairs| - 1]) + if Delta(pairs[|pairs| - 1]) > 0.0 then 1 else 0
  }

  /** The places of the pairs with a positive delta. */
  function PositivePlaces(pairs: seq<Pair>): set<nat> {
    set i: nat | i < |pairs| && "delta" in pairs[i].record && pairs[i].record["delta"] > 0.0
  }

  lemma {:induction false} PositivesCount(pairs: seq<Pair>)
    requires Complete(pairs)
    ensures Positives(pairs) == |PositivePlaces(pairs)|
  {
    if pairs == [] {
      assert PositivePlaces(pairs) == {};
    } else {
      var init, last := pairs[..|pairs| - 1], |pairs| - 1;
      PositivesCount(init);
      assert pairs[last] in pairs;
      assert PositivePlaces(pairs) == PositivePlaces(init) + if Delta(pairs[last]) > 0.0 then {last} else {};
    }
  }

  class DGImprovementTracker {
    var scores: map<Id, map<Id, real>>
    var pairs: map<string, real>
    var wins: map<Id, set<Id>>
    var resisted: map<Id, set<Id>>
    var metrics: map<Id, map<Id, Metrics>>
    ghost var history: seq<seq<Entry>>

    ghost function Value(): Indices
      reads this
    {
      Indices(scores, pairs, wins, resisted, metrics)
    }

    ghost predicate Valid()
      reads this
    {
      Represents(Value(), history)
    }

    constructor ()
      ensures Valid() && history == []
    {
      scores, pairs, wins, resisted, metrics, history := map[], map[], map[], map[], map[], [];
    }

    /** None when a record does not name its delta: the commands are only sent once all are prepared. */
    method RecordBatch(batch: seq<Pair>) returns (count: Option<nat>)
      requires Valid()
      modifies this
      ensures Valid()
      ensures count == if Complete(batch) then Some(Positives(batch)) else None
      ensures history == if Complete(batch) && batch != [] then old(history) + [Entries(batch)] else old(history)
      ensures !Complete(batch) ==> Value() == old(Value())
      ensures count.Some? <==> forall p :: p in batch ==> "delta" in p.record
      ensures count.Some? ==> count.value == |PositivePlaces(batch)|
      ensures count.Some? && batch != [] ==>
                && |history| == |old(history)| + 1 && history[..|old(history)|] == old(history)
                && var b := history[|old(history)|];
                   && |b| == |batch|
                   && forall i :: 0 <= i < |batch| ==>
                        && "delta" in batch[i].record
                        && b[i] == Measured(batch[i].d, batch[i].g, batch[i].record["delta"], batch[i].record)
    {
      if Complete(batch) {
        PositivesCount(batch);
        EntriesAre(batch);
      }
      hide Represents, Entries, Collected, Updated, Lookup, Max, Latest, Inner, Members;
      if batch == [] {
        return Some(0);
      }
      var prepared, positive := Prepare(batch, scores);
      if prepared == None {
        return None;
      }
      ghost var before := Value();
      var c := prepared.value;
      scores := c.scores;
      pairs := RaiseAll(pairs, c.globals);
      wins := AddAll(wins, c.dWins);
      resisted := AddAll(resisted, c.gResisted);
      metrics := SetAll(metrics, c.dMetrics);
      CollectedIsUpdate(before, Entries(batch), c, Value());
      UpdatedRepresents(before, history, Entries(batch), Value());
      history := history + [Entries(batch)];
      return Some(positive);
    }

    method RecordImprovement(d: Id, g: Id, delta: real)
      requires Valid()
      modifies this
      ensures Valid()
      ensures history == if delta > 0.0 then old(history) + [[Improved(d, g, delta)]] else old(history)
    {
      if delta <= 0.0 {
        return;
      }
      hide Represents, Updated;
      ghost var e := Improved(d, g, delta);
      ghost var before := Value();
      RaisedIsUpdate(before, e);
      scores := RaiseScore(scores, d, g, delta);
      pairs := Raise(pairs, Member(d, g), delta);
      UpdatedRepresents(before, history, [e], Value());
      history := history + [[e]];
    }

    method CountGBeatenByD(d: Id) returns (n: nat)
      requires Valid()
      ensures n == |Beaten(Flat(history), d)|
    {
      n := |Members(wins, d)|;
    }

    method CountDResistedByG(g: Id) returns (n: nat)
      requires Valid()
      ensures n == |Resisting(Flat(history), g)|
    {
      n := |Members(resisted, g)|;
    }

    method FacedByD(d: Id) returns (gs: set<Id>)
      requires Valid()
      ensures forall g :: g in gs <==> g in Beaten(Flat(history), d) || d in Resisting(Flat(history), g)
    {
      gs := Inner(metrics, d).Keys;
      forall g ensures g in gs <==> g in Beaten(Flat(history), d) || d in Resisting(Flat(history), g) {
        FacedIffWonOrResisted(Flat(history), d, g);
        assert Lookup(Inner(metrics, d), g) == LastRecord(Flat(history), d, g);
      }
    }

    /** The D with the largest delta ever recorded for `g`, the later id among equals. */
    method GetBestDForG(g: Id) returns (best: Option<(Id, real)>)
      requires Valid()
      ensures best == None <==> forall d :: Best(Flat(history), d, g) == None
      ensures best != None ==>
                && Best(Flat(history), best.value.0, g) == Some(best.value.1)
                && forall d :: Best(Flat(history), d, g) != None ==>
                     Best(Flat(history), d, g).value < best.value.1
                     || (Best(Flat(history), d, g).value == best.value.1 && !Before(best.value.0, d))
    {
      var m := Inner(scores, g);
      var top := RevRange(m, 0);
      assert forall d :: Lookup(m, d) == Best(Flat(history), d, g) by {
        forall d ensures Lookup(m, d) == Best(Flat(history), d, g) {
          assert Score(scores, d, g) == Best(Flat(history), d, g);
        }
      }
      if top == [] {
        assert m == map[];
        assert forall d :: Lookup(m, d) == None;
        assert forall d :: Best(Flat(history), d, g) == None;
        return None;
      }
      assert top[0] in m;
      assert Lookup(m, top[0]) == Best(Flat(history), top[0], g);
      assert Best(Flat(history), top[0], g) != None;
      best := Some((top[0], m[top[0]]));
      forall d | d in m ensures AtMost(KeyIn(m, d), KeyIn(m, top[0])) {
        AtMostTotal(KeyIn(m, d), KeyIn(m, d));
      }
    }

    /** The `k` best pairs overall; a range ending at k - 1 holds every pair when `k` is zero. */
    method GetBestPairs(k: int) returns (r: seq<(Id, Id, real)>)
      requires Valid()
      ensures exists top :: r == Parsed(pairs, top) &&
                IsTop(pairs, if k >= 1 then (if k < |pairs| then k else |pairs|)
                             else if |pairs| + k > 0 then |pairs| + k else 0, top)
    {
      var top := RevRange(pairs, k - 1);
      AtMostIff(|pairs|, k);
      r := [];
      for i := 0 to |top|
        invariant r == Parsed(pairs, top[..i])
      {
        assert top[..i + 1][..i] == top[..i];
        var parts := SplitBar(top[i]);
        if parts.Some? {
          r := r + [(parts.value.0, parts.value.1, pairs[top[i]])];
        }
      }
      assert top[..|top|] == top;
    }
  }

  /** At the first bar. */
  function SplitBar(s: string): Option<(Id, Id)> {
    if s == [] then None
    else if s[0] == '|' then Some(([], s[1..]))
    else match SplitBar(s[1..])
      case None => None
      case Some((d, g)) => Some(([s[0]] + d, g))
  }

  function Parsed(m: map<string, real>, names: seq<string>): seq<(Id, Id, real)> {
    if names == [] then []
    else
      var (init, x) := (names[..|names| - 1], names[|names| - 1]);
      match SplitBar(x)
      case None => Parsed(m, init)
      case Some((d, g)) => Parsed(m, init) + [(d, g, if x in m then m[x] else 0.0)]
  }

  // ----- the histories behind the indices -----

  /** `Best` is the maximum: attained by some positive delta of the pair, exceeded by none. */
  lemma {:induction false} BestIsMaximum(log: seq<Entry>, d: Id, g: Id)
    ensures Best(log, d, g) == None <==> forall e :: e in log && About(e, d, g) ==> e.delta <= 0.0
    ensures Best(log, d, g) != None ==>
              && (exists e :: e in log && About(e, d, g) && e.delta == Best(log, d, g).value > 0.0)
              && forall e :: e in log && About(e, d, g) ==> e.delta <= Best(log, d, g).value
  {
    if log != [] {
      var init, last := log[..|log| - 1], log[|log| - 1];
      assert log == init + [last];
      assert forall e :: e in log <==> e in init || e == last;
      BestIsMaximum(init, d, g);
      if Best(init, d, g) != None {
        var e :| e in init && About(e, d, g) && e.delta == Best(init, d, g).value > 0.0;
        assert e in log;
      }
      assert last in log;
    }
  }

  /** D has faced G exactly when it beat it or was resisted by it. */
  lemma {:induction false} FacedIffWonOrResisted(log: seq<Entry>, d: Id, g: Id)
    ensures LastRecord(log, d, g) != None <==> g in Beaten(log, d) || d in Resisting(log, g)
  {
    if log != [] {
      var init, last := log[..|log| - 1], log[|log| - 1];
      assert log == init + [last];
      FacedIffWonOrResisted(init, d, g);
      hide Beaten, Resisting;
      MembersSnoc(init, last);
      LogSnoc(init, last);
    }
  }

  /** The metrics hash keeps the last record of each pair. */
  lemma {:induction false} LastRecordIs(log: seq<Entry>, d: Id, g: Id, i: nat)
    requires i < |log| && log[i].Measured? && About(log[i], d, g)
    requires forall j :: i < j < |log| && About(log[j], d, g) ==> !log[j].Measured?
    ensures LastRecord(log, d, g) == Some(log[i].record)
  {
    var n := |log| - 1;
    if i < n {
      assert log[..n][i] == log[i];
      LastRecordIs(log[..n], d, g, i);
    }
  }

  /** In a history of batches only, D's wins are exactly the pairs with a score. */
  lemma WonIffScored(log: seq<Entry>, d: Id, g: Id)
    ensures g in Beaten(log, d) ==> Best(log, d, g) != None
    ensures (forall e :: e in log ==> e.Measured?) ==> (g in Beaten(log, d) <==> Best(log, d, g) != None)
  {
    BestIsMaximum(log, d, g);
    if g in Beaten(log, d) {
      var e :| e in log && e.Measured? && e.d == d && e.delta > 0.0 && e.g == g;
      assert About(e, d, g);
    }
  }

  // ----- when the global index agrees with the per-G one -----

  predicate BarFree(d: Id) { '|' !in d }

  /** A bar-free D id makes the written pair readable again, so distinct pairs are written apart. */
  lemma {:induction false} MemberRoundTrip(d: Id, g: Id)
    requires BarFree(d)
    ensures SplitBar(Member(d, g)) == Some((d, g))
  {
    if d == [] {
      assert Member(d, g)[0] == '|' && Member(d, g)[1..] == g;
    } else {
      MemberRoundTrip(d[1..], g);
      assert d[0] in d && d == [d[0]] + d[1..];
      assert Member(d, g)[0] == d[0] && Member(d, g)[1..] == Member(d[1..], g);
    }
  }

  /** `Last` is the delta of the last positive entry written as `m`. */
  lemma {:induction false} LastIs(log: seq<Entry>, m: string, i: nat)
    requires i < |log| && log[i].d + "|" + log[i].g == m && log[i].delta > 0.0
    requires forall j :: i < j < |log| && log[j].d + "|" + log[j].g == m ==> log[j].delta <= 0.0
    ensures Last(log, m) == Some(log[i].delta)
  {
    var n := |log| - 1;
    if i < n {
      assert log[..n][i] == log[i];
      LastIs(log[..n], m, i);
    }
  }

  ghost predicate BarFreeLog(log: seq<Entry>) {
    forall e :: e in log ==> BarFree(e.d)
  }

  /** No positive delta of the pair in `log` exceeds `v`. */
  ghost predicate NoneAbove(log: seq<Entry>, d: Id, g: Id, v: Option<real>) {
    forall e :: e in log && About(e, d, g) && e.delta > 0.0 ==> v != None && e.delta <= v.value
  }

  /** The last positive delta is one of them, hence at most the best. */
  lemma {:induction false} LastIsAmongThem(log: seq<Entry>, d: Id, g: Id)
    requires BarFreeLog(log) && BarFree(d)
    ensures Max(Last(log, Member(d, g)), Best(log, d, g)) == Best(log, d, g)
    ensures Last(log, Member(d, g)) == None <==> Best(log, d, g) == None
  {
    if log != [] {
      var init, last := log[..|log| - 1], log[|log| - 1];
      assert log == init + [last];
      LastIsAmongThem(init, d, g);
      MemberRoundTrip(d, g);
      MemberRoundTrip(last.d, last.g);
      hide Member, SplitBar;
    }
  }

  /** The global index still agrees after a batch exactly when no delta of the pair in that batch is above
      both what was kept before and the pair's last delta in the batch. */
  lemma AgreementKeptIff(history: seq<seq<Entry>>, b: seq<Entry>, d: Id, g: Id)
    requires BarFreeLog(b) && BarFree(d)
    requires Kept(history, Member(d, g)) == Best(Flat(history), d, g)
    ensures Kept(history + [b], Member(d, g)) == Best(Flat(history + [b]), d, g) <==>
            NoneAbove(b, d, g, Max(Kept(history, Member(d, g)), Last(b, Member(d, g))))
  {
    HistorySnoc(history, b);
    LogAppend(Flat(history), b, d, g);
    LastIsAmongThem(b, d, g);
    BestIsMaximum(b, d, g);
    hide Flat, Kept, Last, Best, Member;
  }

  /** What is kept is the last positive delta of some batch, the largest of these, and at most the best. */
  lemma {:induction false} KeptIsLargestLast(history: seq<seq<Entry>>, d: Id, g: Id)
    requires (forall b :: b in history ==> BarFreeLog(b)) && BarFree(d)
    ensures var kept, best := Kept(history, Member(d, g)), Best(Flat(history), d, g);
            && (kept == None <==> best == None) && Max(kept, best) == best
            && (kept != None ==> exists b :: b in history && Last(b, Member(d, g)) == kept)
            && (forall b :: b in history ==> Max(Last(b, Member(d, g)), kept) == kept)
  {
    hide Flat, Kept, Last, Best, Member, BarFreeLog, BarFree;
    if history == [] {
      EmptyHistory(d, g);
    } else {
      var init, b := history[..|history| - 1], history[|history| - 1];
      assert history == init + [b] && b in history;
      assert forall x :: x in history <==> x in init || x == b;
      KeptIsLargestLast(init, d, g);
      HistorySnoc(init, b);
      LogAppend(Flat(init), b, d, g);
      LastIsAmongThem(b, d, g);
    }
  }

  lemma EmptyHistory(d: Id, g: Id)
    ensures Kept([], Member(d, g)) == None && Best(Flat([]), d, g) == None
  {
  }

  /** Exactly the histories in which the two scores of a pair agree: those with no positive delta for it, and
      those in which some batch ends with its best. */
  lemma ScoresAgreeIff(history: seq<seq<Entry>>, d: Id, g: Id)
    requires (forall b :: b in history ==> BarFreeLog(b)) && BarFree(d)
    ensures Kept(history, Member(d, g)) == Best(Flat(history), d, g) <==>
            Best(Flat(history), d, g) == None
            || exists b :: b in history && Last(b, Member(d, g)) == Best(Flat(history), d, g)
  {
    KeptIsLargestLast(history, d, g);
    hide Flat, Kept, Last, Best, Member;
  }

  ghost predicate PairsOnce(b: seq<Entry>) {
    forall i, j :: 0 <= i < j < |b| ==> !(b[i].d == b[j].d && b[i].g == b[j].g)
  }

  lemma {:induction false} OnceIsBest(b: seq<Entry>, d: Id, g: Id)
    requires PairsOnce(b) && BarFreeLog(b) && BarFree(d)
    ensures Last(b, Member(d, g)) == Best(b, d, g)
  {
    if b != [] {
      var init, last := b[..|b| - 1], b[|b| - 1];
      assert b == init + [last];
      OnceIsBest(init, d, g);
      LastIsAmongThem(init, d, g);
      BestIsMaximum(init, d, g);
      MemberRoundTrip(d, g);
      MemberRoundTrip(last.d, last.g);
      hide Member, SplitBar;
    }
  }

  /** With each pair at most once a batch and no bar in a D id, the global and the per-G score are the
      same maximum, over any history. */
  lemma {:induction false} ScoresAgree(history: seq<seq<Entry>>, d: Id, g: Id)
    requires forall b :: b in history ==> PairsOnce(b) && BarFreeLog(b)
    requires BarFree(d)
    ensures Kept(history, Member(d, g)) == Best(Flat(history), d, g)
  {
    if history != [] {
      var init, b := history[..|history| - 1], history[|history| - 1];
      assert history == init + [b];
      ScoresAgree(init, d, g);
      HistorySnoc(init, b);
      LogAppend(Flat(init), b, d, g);
      OnceIsBest(b, d, g);
    }
  }

  lemma {:induction false} KeptFromLog(history: seq<seq<Entry>>, m: string)
    requires forall b :: b in history ==> BarFreeLog(b)
    requires Kept(history, m) != None
    ensures exists d, g :: BarFree(d) && Member(d, g) == m
  {
    var init, b := history[..|history| - 1], history[|history| - 1];
    assert history == init + [b];
    HistorySnoc(init, b);
    if Kept(init, m) != None { KeptFromLog(init, m); } else { LastFromLog(b, m); }
  }

  lemma {:induction false} LastFromLog(log: seq<Entry>, m: string)
    requires BarFreeLog(log) && Last(log, m) != None
    ensures exists d, g :: BarFree(d) && Member(d, g) == m
  {
    var init, last := log[..|log| - 1], log[|log| - 1];
    assert log == init + [last];
    if Last(init, m) != None { LastFromLog(init, m); } else { assert BarFree(last.d) && Member(last.d, last.g) == m; }
  }

  lemma {:induction false} ParsedAll(m: map<string, real>, names: seq<string>)
    requires forall i :: 0 <= i < |names| ==> names[i] in m && SplitBar(names[i]).Some?
    ensures |Parsed(m, names)| == |names|
    ensures forall i :: 0 <= i < |names| ==>
              Parsed(m, names)[i] == (SplitBar(names[i]).value.0, SplitBar(names[i]).value.1, m[names[i]])
  {
    if names != [] {
      ParsedAll(m, names[..|names| - 1]);
    }
  }

  /** The pairs read back from the global index are genuine pairs with their best deltas, and no pair left
      out has a larger one. */
  lemma BestPairsAreBest(ix: Indices, history: seq<seq<Entry>>, n: int, top: seq<string>)
    requires Represents(ix, history) && IsTop(ix.pairs, n, top)
    requires forall b :: b in history ==> PairsOnce(b) && BarFreeLog(b)
    ensures var r := Parsed(ix.pairs, top);
            && |r| == n
            && (forall i :: 0 <= i < n ==> BarFree(r[i].0) && Best(Flat(history), r[i].0, r[i].1) == Some(r[i].2))
            && (forall i, j :: 0 <= i < j < n ==> r[j].2 <= r[i].2 && (r[i].0 != r[j].0 || r[i].1 != r[j].1))
            && (forall d, g, i :: 0 <= i < n && BarFree(d) && Best(Flat(history), d, g) != None && Member(d, g) !in top
                  ==> Best(Flat(history), d, g).value <= r[i].2)
  {
    hide Best, Flat, Kept, Member, SplitBar, Parsed, PairsOnce, BarFree;
    var r, m := Parsed(ix.pairs, top), ix.pairs;
    forall i | 0 <= i < n
      ensures SplitBar(top[i]).Some? && Written(SplitBar(top[i]).value.0, SplitBar(top[i]).value.1, top[i])
      ensures Best(Flat(history), SplitBar(top[i]).value.0, SplitBar(top[i]).value.1) == Some(m[top[i]])
    {
      assert Lookup(m, top[i]) == Kept(history, top[i]);
      KeptFromLog(history, top[i]);
      var d, g :| BarFree(d) && Member(d, g) == top[i];
      MemberRoundTrip(d, g);
      ScoresAgree(history, d, g);
    }
    ParsedAll(m, top);
    forall i, j | 0 <= i < j < n ensures r[j].2 <= r[i].2 && (r[i].0 != r[j].0 || r[i].1 != r[j].1) {
      assert Written(r[i].0, r[i].1, top[i]) && Written(r[j].0, r[j].1, top[j]);
    }
    forall d, g, i | 0 <= i < n && BarFree(d) && Best(Flat(history), d, g) != None && Member(d, g) !in top
      ensures Best(Flat(history), d, g).value <= r[i].2
    {
      ScoresAgree(history, d, g);
      assert Lookup(m, Member(d, g)) == Kept(history, Member(d, g));
      assert AtMost(KeyIn(m, Member(d, g)), KeyIn(m, top[i]));
    }
  }

  lemma {:induction false} WrittenHasBar(d: Id, g: Id)
    ensures SplitBar(Member(d, g)).Some?
  {
    if d == [] {
      assert Member(d, g)[0] == '|';
    } else {
      WrittenHasBar(d[1..], g);
      assert Member(d, g)[1..] == Member(d[1..], g);
    }
  }

  lemma {:induction false} LastHasBar(log: seq<Entry>, m: string)
    requires Last(log, m) != None
    ensures SplitBar(m).Some?
  {
    var init, last := log[..|log| - 1], log[|log| - 1];
    if Last(init, m) != None { LastHasBar(init, m); } else { WrittenHasBar(last.d, last.g); }
  }

  lemma {:induction false} KeptHasBar(history: seq<seq<Entry>>, m: string)
    requires Kept(history, m) != None
    ensures SplitBar(m).Some?
  {
    var init, b := history[..|history| - 1], history[|history| - 1];
    if Kept(init, m) != None { KeptHasBar(init, m); } else { LastHasBar(b, m); }
  }

  /** Over every history, at most `k` pairs are returned exactly when `k` is positive or the index is too
      small for a non-positive `k` to reach into it. */
  lemma BestPairsAtMostIff(ix: Indices, history: seq<seq<Entry>>, k: int, top: seq<string>)
    requires Represents(ix, history) && IsTop(ix.pairs, RangeSize(|ix.pairs|, k - 1), top)
    ensures |Parsed(ix.pairs, top)| <= (if k < 0 then 0 else k) <==> k >= 1 || |ix.pairs| + k <= 0
  {
    hide Parsed, SplitBar, Kept, Flat, Best, Beaten, Resisting, LastRecord;
    forall i | 0 <= i < |top| ensures SplitBar(top[i]).Some? {
      assert Lookup(ix.pairs, top[i]) == Kept(history, top[i]);
      KeptHasBar(history, top[i]);
    }
    ParsedAll(ix.pairs, top);
    AtMostIff(|ix.pairs|, k);
  }

  ghost predicate Written(d: Id, g: Id, m: string) {
    BarFree(d) && Member(d, g) == m
  }

  /** A pair measured twice in one batch: the global index forgets the better delta. */
  lemma TwiceInOneBatch(d: Id, g: Id, big: real, small: real)
    requires 0.0 < small < big
    ensures var b := Entries([Pair(d, g, map["delta" := big]), Pair(d, g, map["delta" := small])]);
            Kept([b], Member(d, g)) == Some(small) && Best(Flat([b]), d, g) == Some(big)
  {
    var p, q := Pair(d, g, map["delta" := big]), Pair(d, g, map["delta" := small]);
    var b := Entries([p, q]);
    assert b == [Entry1(p), Entry1(q)];
    LastAndBest(b, d, g, big, small);
    hide Entries, Entry1, Last, Best, Member;
    HistorySnoc([], b);
    assert [b] == [] + [b] && [] + b == b;
  }

  lemma LastAndBest(b: seq<Entry>, d: Id, g: Id, big: real, small: real)
    requires |b| == 2 && About(b[0], d, g) && About(b[1], d, g)
    requires b[0].delta == big && b[1].delta == small && 0.0 < small < big
    ensures Last(b, Member(d, g)) == Some(small) && Best(b, d, g) == Some(big)
  {
    hide Member;
    EmptyLog();
    LogSnoc([], b[0]);
    LogSnoc([b[0]], b[1]);
    assert b == [b[0]] + [b[1]] && [b[0]] == [] + [b[0]];
  }
}
