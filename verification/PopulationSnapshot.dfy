/** The epoch cache over the store's full listing, with incremental refresh
    (gigaevo/database/program_storage.py). */
module PopulationSnapshot {
  import opened Basics
  import opened ProgramState
  import opened MergeStrategies

  /** The fields a reader may ask to skip. */
  datatype Field = StageResults | Metadata | Metrics | Name

  type Exclude = Option<set<Field>>

  type Store = map<Id, Program>

  predicate Skips(exclude: Exclude, f: Field) {
    exclude.Some? && f in exclude.value
  }

  /** What deserialization with `exclude` yields. */
  function Project(p: Program, exclude: Exclude): Program {
    p.(stageResults := if Skips(exclude, StageResults) then map[] else p.stageResults,
       metadata := if Skips(exclude, Metadata) then map[] else p.metadata,
       metrics := if Skips(exclude, Metrics) then map[] else p.metrics,
       name := if Skips(exclude, Name) then None else p.name)
  }

  function Listing(store: Store, exclude: Exclude): Store {
    map id | id in store :: Project(store[id], exclude)
  }

  /** A skipped field is empty, every other field is the stored one; only four fields can be skipped. */
  lemma ProjectedFields(p: Program, exclude: Exclude)
    ensures var q := Project(p, exclude);
            var skipped := if exclude.Some? then exclude.value else {};
            && q.stageResults == (if StageResults in skipped then map[] else p.stageResults)
            && q.metadata == (if Metadata in skipped then map[] else p.metadata)
            && q.metrics == (if Metrics in skipped then map[] else p.metrics)
            && q.name == (if Name in skipped then None else p.name)
            && q.(stageResults := p.stageResults, metadata := p.metadata, metrics := p.metrics, name := p.name) == p
  {
  }

  // ----- specification: lists as id-to-program maps -----

  datatype Cache = Cache(
    epoch: int, cachedEpoch: int, cachedExclude: Exclude, cached: Store, ids: Store)

  const FRESH := Cache(0, -1, None, map[], map[])

  function Bumped(s: Cache, incremental: bool): Cache {
    s.(epoch := s.epoch + 1,
       ids := if !incremental then map[] else if s.ids == map[] then s.cached else s.ids)
  }

  predicate Hit(s: Cache, exclude: Exclude) {
    s.cachedEpoch == s.epoch && s.cachedExclude == exclude
  }

  predicate Incremental(s: Cache, exclude: Exclude) {
    s.ids != map[] && s.cachedExclude == exclude
  }

  /** The id cache after reading the id listing `ids` and then, from `store`, the programs that are
      new or were incomplete. */
  function Refreshed(cache: Store, ids: set<Id>, store: Store, exclude: Exclude): Store {
    map id | id in (cache.Keys + store.Keys) * ids ::
      if id in cache && !(id in store && Incomplete(cache[id].state)) then cache[id]
      else Project(store[id], exclude)
  }

  function Labelled(s: Cache, programs: Store, ids: Store, exclude: Exclude): Cache {
    s.(cached := programs, ids := ids, cachedExclude := exclude, cachedEpoch := s.epoch)
  }

  /** One `get_all`: the listing of ids is `ids`, programs are then read from `store`. */
  function Fetched(s: Cache, ids: set<Id>, store: Store, exclude: Exclude): Cache {
    if Hit(s, exclude) then s
    else if Incremental(s, exclude) then
      var m := Refreshed(s.ids, ids, store, exclude);
      Labelled(s, m, m, exclude)
    else
      Labelled(s, Listing(store, exclude), map[], exclude)
  }

  // ----- the original's object -----

  function Index(ps: seq<Program>): Store {
    if ps == [] then map[] else Index(ps[..|ps| - 1])[ps[|ps| - 1].id := ps[|ps| - 1]]
  }

  lemma {:induction false} IndexKeyed(ps: seq<Program>)
    ensures KeyedById(Index(ps))
    ensures forall p :: p in ps ==> p.id in Index(ps)
  {
    if ps != [] {
      IndexKeyed(ps[..|ps| - 1]);
      assert ps == ps[..|ps| - 1] + [ps[|ps| - 1]];
    }
  }

  class PopulationSnapshot {
    var epoch: int
    var cachedEpoch: int
    var cachedExclude: Exclude
    var cached: seq<Program>
    var idCache: Store

    ghost function Value(): Cache
      reads this
    {
      Cache(epoch, cachedEpoch, cachedExclude, Index(cached), idCache)
    }

    ghost predicate Valid()
      reads this
    {
      KeyedById(idCache)
    }

    constructor ()
      ensures Valid() && Value() == FRESH
    {
      epoch, cachedEpoch, cachedExclude, cached, idCache := 0, -1, None, [], map[];
    }

    method Bump(incremental: bool)
      requires Valid()
      modifies this
      ensures Valid() && Value() == Bumped(old(Value()), incremental)
    {
      epoch := epoch + 1;
      if incremental {
        PrepareIdCache();
      } else {
        idCache := map[];
      }
    }

    method PrepareIdCache()
      requires Valid()
      modifies this`idCache
      ensures Valid()
      ensures idCache == if old(idCache) == map[] then Index(cached) else old(idCache)
    {
      if idCache == map[] && cached != [] {
        idCache := Index(cached);
        IndexKeyed(cached);
      }
    }

    method GetAll(ids: set<Id>, store: Store, exclude: Exclude) returns (programs: seq<Program>)
      requires Valid() && KeyedById(store)
      modifies this
      ensures Valid() && Value() == Fetched(old(Value()), ids, store, exclude)
      ensures Index(programs) == Value().cached
      ensures old(cachedExclude) == exclude && old(cachedEpoch) == old(epoch) ==> programs == old(cached)
    {
      if cachedEpoch == epoch && cachedExclude == exclude {
        return cached;
      }
      if idCache != map[] && cachedExclude == exclude {
        programs := IncrementalUpdate(ids, store, exclude);
      } else {
        programs := Values(Listing(store, exclude));
        idCache := map[];
      }
      cached := programs;
      cachedExclude := exclude;
      cachedEpoch := epoch;
    }

    method IncrementalUpdate(ids: set<Id>, store: Store, exclude: Exclude) returns (programs: seq<Program>)
      requires Valid() && KeyedById(store)
      modifies this`idCache
      ensures Valid()
      ensures idCache == Refreshed(old(idCache), ids, store, exclude)
      ensures Index(programs) == idCache
    {
      var cachedIds := idCache.Keys;
      var newIds := ids - cachedIds;
      var removedIds := cachedIds - ids;
      var staleIds := set id | id in idCache && Incomplete(idCache[id].state) && id in ids;
      MgetInto(newIds + staleIds, store, exclude);
      idCache := idCache - removedIds;
      OverlayIsRefreshed(old(idCache), ids, store, exclude);
      programs := Values(idCache);
    }

    /** `mget` skips missing ids; what it returns replaces the cached entries. */
    method MgetInto(refreshIds: set<Id>, store: Store, exclude: Exclude)
      requires Valid() && KeyedById(store)
      modifies this`idCache
      ensures idCache == Overlay(old(idCache), refreshIds, store, exclude)
    {
      hide Project, Overlay;
      var todo := refreshIds;
      OverlayStep(idCache, {}, None, store, exclude);
      assert refreshIds - todo == {};
      while todo != {}
        invariant todo <= refreshIds
        invariant idCache == Overlay(old(idCache), refreshIds - todo, store, exclude)
      {
        var id :| id in todo;
        OverlayStep(old(idCache), refreshIds - todo, Some(id), store, exclude);
        if id in store {
          idCache := idCache[id := Project(store[id], exclude)];
        }
        assert refreshIds - (todo - {id}) == (refreshIds - todo) + {id};
        todo := todo - {id};
      }
      assert refreshIds - todo == refreshIds;
    }
  }

  /** `cache` with the entries of `ids` that exist in the store replaced by fresh copies. */
  function Overlay(cache: Store, ids: set<Id>, store: Store, exclude: Exclude): Store {
    map id | id in cache.Keys + ids * store.Keys ::
      if id in ids && id in store then Project(store[id], exclude) else cache[id]
  }

  lemma OverlayStep(cache: Store, ids: set<Id>, next: Option<Id>, store: Store, exclude: Exclude)
    ensures Overlay(cache, {}, store, exclude) == cache
    ensures next.Some? ==>
              Overlay(cache, ids + {next.value}, store, exclude)
              == if next.value in store
                 then Overlay(cache, ids, store, exclude)[next.value := Project(store[next.value], exclude)]
                 else Overlay(cache, ids, store, exclude)
  {
    hide Project;
  }

  lemma OverlayIsRefreshed(cache: Store, ids: set<Id>, store: Store, exclude: Exclude)
    requires KeyedById(cache) && KeyedById(store)
    ensures var refresh := (ids - cache.Keys) + set id | id in cache && Incomplete(cache[id].state) && id in ids;
            Overlay(cache, refresh, store, exclude) - (cache.Keys - ids) == Refreshed(cache, ids, store, exclude)
    ensures KeyedById(Refreshed(cache, ids, store, exclude))
  {
  }

  /** Some list of a map's values; the original lists them in insertion order. */
  method Values(m: Store) returns (ps: seq<Program>)
    requires KeyedById(m)
    ensures Index(ps) == m && |ps| == |m|
  {
    ps := [];
    var todo := m.Keys;
    while todo != {}
      invariant todo <= m.Keys
      invariant |ps| + |todo| == |m.Keys|
      invariant Index(ps) == map id | id in m && id !in todo :: m[id]
    {
      var id :| id in todo;
      ghost var before := ps;
      ps := ps + [m[id]];
      assert ps[..|ps| - 1] == before;
      todo := todo - {id};
    }
  }

  // ----- incremental refresh against full refresh -----

  datatype Event = Bump(incremental: bool) | Get(ids: set<Id>, store: Store, exclude: Exclude)

  function Apply(s: Cache, e: Event): Cache {
    match e
    case Bump(incremental) => Bumped(s, incremental)
    case Get(ids, store, exclude) => Fetched(s, ids, store, exclude)
  }

  function Run(s: Cache, es: seq<Event>): Cache
    decreases |es|
  {
    if es == [] then s else Run(Apply(s, es[0]), es[1..])
  }

  /** The id cache, when present, is the last returned list; the label never runs ahead. */
  ghost predicate Inv(s: Cache) {
    && (s.ids == map[] || s.ids == s.cached)
    && s.cachedEpoch <= s.epoch
  }

  lemma {:induction false} RunKeepsInv(s: Cache, es: seq<Event>)
    requires Inv(s)
    ensures Inv(Run(s, es))
    decreases |es|
  {
    if es != [] {
      assert Inv(Apply(s, es[0]));
      RunKeepsInv(Apply(s, es[0]), es[1..]);
    }
  }

  /** The finished programs of the last returned list are unchanged or gone. */
  ghost predicate FinishedUnchanged(s: Cache, store: Store, exclude: Exclude) {
    forall id :: id in s.cached && id in store && !Incomplete(s.cached[id].state)
      ==> s.cached[id] == Project(store[id], exclude)
  }

  /** After any history of bumps and reads, a read in a new epoch returns exactly the store's current
      programs if and only if it refetches everything or no listed finished program has changed. */
  lemma RefreshIsExactIff(es: seq<Event>, store: Store, exclude: Exclude)
    requires !Hit(Run(FRESH, es), exclude)
    ensures var s := Run(FRESH, es);
            (Fetched(s, store.Keys, store, exclude).cached == Listing(store, exclude)
             <==> !Incremental(s, exclude) || FinishedUnchanged(s, store, exclude))
  {
    var s := Run(FRESH, es);
    RunKeepsInv(FRESH, es);
    var got, want := Fetched(s, store.Keys, store, exclude).cached, Listing(store, exclude);
    if Incremental(s, exclude) {
      assert s.ids == s.cached;
      assert got.Keys == store.Keys;
      if got == want {
        forall id | id in s.cached && id in store && !Incomplete(s.cached[id].state)
          ensures s.cached[id] == Project(store[id], exclude)
        {
          assert got[id] == want[id];
        }
      }
    }
  }

  lemma {:induction false} RunSnoc(s: Cache, es: seq<Event>, e: Event)
    ensures Run(s, es + [e]) == Apply(Run(s, es), e)
    decreases |es|
  {
    if es == [] {
      assert Run(s, [e]) == Run(Apply(s, e), [e][1..]);
    } else {
      assert (es + [e])[1..] == es[1..] + [e];
      RunSnoc(Apply(s, es[0]), es[1..], e);
    }
  }

  /** A full bump followed directly by a read needs no premise. */
  lemma FullBumpThenRead(es: seq<Event>, store: Store, exclude: Exclude)
    ensures var s := Run(FRESH, es + [Bump(false)]);
            Fetched(s, store.Keys, store, exclude).cached == Listing(store, exclude)
  {
    RunSnoc(FRESH, es, Bump(false));
    RunKeepsInv(FRESH, es);
  }

  /** An incremental bump after a full one, with no read between them, revives the old list: the
      full invalidation is lost for a finished program whose data changed. */
  lemma FullBumpCanBeUndone(p: Program, q: Program)
    requires p.state == Done && q.id == p.id && p != q
    ensures var before, now := map[p.id := p], map[p.id := q];
            var s := Run(FRESH, [Get({p.id}, before, None), Bump(false), Bump(true)]);
            && s.epoch != s.cachedEpoch
            && Fetched(s, now.Keys, now, None).cached == before != Listing(now, None)
  {
    var before, now := map[p.id := p], map[p.id := q];
    var s1 := Fetched(FRESH, {p.id}, before, None);
    assert s1.cached == before;
    var s3 := Bumped(Bumped(s1, false), true);
    assert s3.ids == before;
    assert Run(FRESH, [Get({p.id}, before, None), Bump(false), Bump(true)]) == s3 by {
      RunSnoc(FRESH, [], Get({p.id}, before, None));
      RunSnoc(FRESH, [Get({p.id}, before, None)], Bump(false));
      RunSnoc(FRESH, [Get({p.id}, before, None), Bump(false)], Bump(true));
      assert [] + [Get({p.id}, before, None)] == [Get({p.id}, before, None)];
      assert [Get({p.id}, before, None)] + [Bump(false)] == [Get({p.id}, before, None), Bump(false)];
      assert [Get({p.id}, before, None), Bump(false)] + [Bump(true)] ==
        [Get({p.id}, before, None), Bump(false), Bump(true)];
    }
    assert Fetched(s3, now.Keys, now, None).cached == before;
    assert Listing(now, None)[p.id] == q;
  }

  function IncrementalBumps(n: nat): seq<Event> {
    if n == 0 then [] else IncrementalBumps(n - 1) + [Bump(true)]
  }

  /** After a full bump the next read refetches everything, unless an incremental bump comes in between and
      the same fields of a non-empty list were read last. */
  lemma {:induction false} FullBumpUndoneIff(es: seq<Event>, n: nat, exclude: Exclude)
    ensures var last := Run(FRESH, es);
            var s := Run(FRESH, es + [Bump(false)] + IncrementalBumps(n));
            && s.cached == last.cached && s.cachedExclude == last.cachedExclude
            && s.ids == (if n > 0 then last.cached else map[])
            && (Incremental(s, exclude) <==> n > 0 && last.cached != map[] && last.cachedExclude == exclude)
  {
    RunSnoc(FRESH, es, Bump(false));
    if n == 0 {
      assert es + [Bump(false)] + [] == es + [Bump(false)];
    } else {
      hide Run;
      var before := es + [Bump(false)] + IncrementalBumps(n - 1);
      FullBumpUndoneIff(es, n - 1, exclude);
      RunSnoc(FRESH, before, Bump(true));
      assert es + [Bump(false)] + IncrementalBumps(n) == before + [Bump(true)];
    }
  }

  /** The three ways a read is answered: in the epoch and under the filter of the cached list, that list; with
      an id cache for the filter, listed ids only, finished ones as cached and the others freshly read;
      otherwise the whole store, freshly read. */
  lemma AnswerOfRead(s: Cache, ids: set<Id>, store: Store, exclude: Exclude)
    ensures var r := Fetched(s, ids, store, exclude);
            && r.epoch == s.epoch
            && (s.cachedExclude == exclude && s.cachedEpoch == s.epoch ==> r == s)
            && (s.cachedExclude != exclude || s.cachedEpoch != s.epoch ==>
                  && r.cachedEpoch == s.epoch && r.cachedExclude == exclude
                  && if s.cachedExclude == exclude && s.ids != map[] then
                       && r.ids == r.cached
                       && forall id ::
                            && (id in r.cached <==> id in ids && (id in s.ids || id in store))
                            && (id in r.cached && id in s.ids && (id !in store || !Incomplete(s.ids[id].state)) ==>
                                  r.cached[id] == s.ids[id])
                            && (id in r.cached && (id !in s.ids || (id in store && Incomplete(s.ids[id].state))) ==>
                                  r.cached[id] == Project(store[id], exclude))
                     else
                       && r.ids == map[]
                       && forall id :: (id in r.cached <==> id in store)
                                       && (id in store ==> r.cached[id] == Project(store[id], exclude)))
  {
    hide Project;
  }

  // ----- every list was fetched under the filter it is served for -----

  /** One of the reads so far, asked with this filter, met the program `q` is the projection of. */
  ghost predicate FetchedUnder(es: seq<Event>, exclude: Exclude, id: Id, q: Program) {
    exists k :: 0 <= k < |es| && ReadAs(es[k], exclude, id, q)
  }

  ghost predicate ReadAs(e: Event, exclude: Exclude, id: Id, q: Program) {
    e.Get? && e.exclude == exclude && id in e.store && q == Project(e.store[id], exclude)
  }

  ghost predicate AllFetchedUnder(es: seq<Event>, exclude: Exclude, m: Store) {
    forall id :: id in m ==> FetchedUnder(es, exclude, id, m[id])
  }

  lemma FetchedEarlier(es: seq<Event>, e: Event, exclude: Exclude, m: Store)
    requires AllFetchedUnder(es, exclude, m)
    ensures AllFetchedUnder(es + [e], exclude, m)
  {
    forall id | id in m ensures FetchedUnder(es + [e], exclude, id, m[id]) {
      var k :| 0 <= k < |es| && ReadAs(es[k], exclude, id, m[id]);
      assert (es + [e])[k] == es[k];
    }
  }

  lemma FetchedNow(es: seq<Event>, e: Event, id: Id, q: Program)
    requires e.Get? && ReadAs(e, e.exclude, id, q)
    ensures FetchedUnder(es + [e], e.exclude, id, q)
  {
    assert (es + [e])[|es|] == e;
  }

  /** Over every run, whatever the filters of the reads: each program of the cached list, and of the id cache,
      is what a read asked with the very filter the list is labelled with saw of it. */
  lemma {:induction false} ListsKeepTheirFilter(es: seq<Event>)
    ensures var s := Run(FRESH, es);
            AllFetchedUnder(es, s.cachedExclude, s.cached) && AllFetchedUnder(es, s.cachedExclude, s.ids)
    decreases |es|
  {
    if es != [] {
      hide Run, Project, AllFetchedUnder, FetchedUnder;
      var init, e := es[..|es| - 1], es[|es| - 1];
      assert es == init + [e];
      ListsKeepTheirFilter(init);
      RunSnoc(FRESH, init, e);
      KeepsFilter(init, Run(FRESH, init), e);
    }
  }

  lemma KeepsFilter(es: seq<Event>, s: Cache, e: Event)
    requires AllFetchedUnder(es, s.cachedExclude, s.cached) && AllFetchedUnder(es, s.cachedExclude, s.ids)
    ensures var s' := Apply(s, e);
            && AllFetchedUnder(es + [e], s'.cachedExclude, s'.cached)
            && AllFetchedUnder(es + [e], s'.cachedExclude, s'.ids)
  {
    var s' := Apply(s, e);
    FetchedEarlier(es, e, s.cachedExclude, s.cached);
    FetchedEarlier(es, e, s.cachedExclude, s.ids);
    hide Project, FetchedUnder;
    if e.Get? && !(s.cachedEpoch == s.epoch && s.cachedExclude == e.exclude) {
      forall id | id in s'.cached ensures FetchedUnder(es + [e], e.exclude, id, s'.cached[id]) {
        if !(s.cachedExclude == e.exclude && id in s.ids && s'.cached[id] == s.ids[id]) {
          FetchedNow(es, e, id, s'.cached[id]);
        }
      }
    }
  }

  /** Two reads in one epoch: with the same filter the second returns the same list; with another filter it
      returns the whole store under its own filter, so each read gets its own fields. */
  lemma ReadsInOneEpoch(es: seq<Event>, ids: set<Id>, store: Store, exclude: Exclude,
      ids': set<Id>, store': Store, exclude': Exclude)
    ensures var s := Fetched(Run(FRESH, es), ids, store, exclude);
            var s' := Fetched(s, ids', store', exclude');
            && s'.epoch == s.epoch == Run(FRESH, es).epoch
            && (exclude' == exclude ==> s'.cached == s.cached)
            && (exclude' != exclude ==>
                  s'.cached.Keys == store'.Keys
                  && forall id :: id in store' ==> s'.cached[id] == Project(store'[id], exclude'))
  {
    hide Project, Run;
  }
}
