/** The snapshot cache with every await of a read as a step of its own, so that bumps may fall between the
    steps (gigaevo/database/program_storage.py). */
module SnapshotReads {
  import opened Basics
  import opened ProgramState
  import opened MergeStrategies
  import opened PopulationSnapshot

  /** What the bumps since a read began have made of the id cache: nothing, emptied it, or emptied it and
      built it again from the last returned list. */
  datatype Effect = Kept | Cleared | Rebuilt

  /** The lock admits one read at a time. */
  datatype Phase =
    | Idle
    | AwaitAll(exclude: Exclude)
    | HaveAll(exclude: Exclude, read: Store)
    | AwaitIds(exclude: Exclude)
    | HaveIds(exclude: Exclude, ids: set<Id>)
    | AwaitPrograms(exclude: Exclude, ids: set<Id>, before: Effect, refresh: set<Id>, removed: set<Id>)
    | HavePrograms(exclude: Exclude, ids: set<Id>, before: Effect, refresh: set<Id>, removed: set<Id>, read: Store)

  /** The cache and the read in progress. No step depends on the rest, which records the id cache at the
      beginning of the current read, the bumps since, and how many reads ended in a KeyError; so does
      `before`, the effect of the bumps up to the point where the read planned what to refresh. */
  datatype System = System(cache: Cache, phase: Phase, base: Store, effect: Effect, errors: nat)

  const INITIAL := System(FRESH, Idle, map[], Kept, 0)

  /** `gone` in `End`: the removed ids deleted before a missing one stopped the loop. */
  datatype Event =
    | Bump(incremental: bool)
    | Begin(exclude: Exclude)
    | ReadAll(store: Store)
    | ReadIds(ids: set<Id>)
    | Resume
    | ReadPrograms(store: Store)
    | End(gone: set<Id>)

  function Affected(effect: Effect, incremental: bool): Effect {
    if !incremental then Cleared else if effect == Cleared then Rebuilt else effect
  }

  /** New ids, and cached ones that were incomplete. */
  function ToRefresh(cache: Store, ids: set<Id>): set<Id> {
    (ids - cache.Keys) + set id | id in cache && Incomplete(cache[id].state) && id in ids
  }

  /** The deletions, the labelling and the return. */
  function Finish(s: System, exclude: Exclude, merged: Store, removed: set<Id>, gone: set<Id>): System {
    if removed <= merged.Keys then
      s.(cache := Labelled(s.cache, merged - removed, merged - removed, exclude), phase := Idle)
    else
      s.(cache := s.cache.(ids := merged - gone * removed), phase := Idle, errors := s.errors + 1)
  }

  function Step(s: System, e: Event): System {
    match (e, s.phase)
    case (Bump(incremental), _) =>
      s.(cache := Bumped(s.cache, incremental), effect := Affected(s.effect, incremental))
    case (Begin(exclude), Idle) =>
      if Hit(s.cache, exclude) then s
      else
        var phase := if Incremental(s.cache, exclude) then AwaitIds(exclude) else AwaitAll(exclude);
        s.(phase := phase, base := s.cache.ids, effect := Kept)
    case (ReadAll(store), AwaitAll(exclude)) => s.(phase := HaveAll(exclude, store))
    case (End(_), HaveAll(exclude, read)) =>
      s.(cache := Labelled(s.cache, Listing(read, exclude), map[], exclude), phase := Idle)
    case (ReadIds(ids), AwaitIds(exclude)) => s.(phase := HaveIds(exclude, ids))
    case (Resume, HaveIds(exclude, ids)) =>
      var refresh, removed := ToRefresh(s.cache.ids, ids), s.cache.ids.Keys - ids;
      if refresh == {} then Finish(s, exclude, s.cache.ids, removed, {})
      else s.(phase := AwaitPrograms(exclude, ids, s.effect, refresh, removed))
    case (ReadPrograms(store), AwaitPrograms(exclude, ids, before, refresh, removed)) =>
      s.(phase := HavePrograms(exclude, ids, before, refresh, removed, store))
    case (End(gone), HavePrograms(exclude, _, _, refresh, removed, read)) =>
      Finish(s, exclude, Overlay(s.cache.ids, refresh, read, exclude), removed, gone)
    case _ => s
  }

  function Run(s: System, es: seq<Event>): System {
    if es == [] then s else Step(Run(s, es[..|es| - 1]), es[|es| - 1])
  }

  lemma PlanIsRefreshed(cache: Store, ids: set<Id>, store: Store, exclude: Exclude)
    requires KeyedById(cache) && KeyedById(store)
    ensures var refresh, removed := ToRefresh(cache, ids), cache.Keys - ids;
            && removed <= Overlay(cache, refresh, store, exclude).Keys
            && Overlay(cache, refresh, store, exclude) - removed == Refreshed(cache, ids, store, exclude)
            && (refresh == {} ==> cache - removed == Refreshed(cache, ids, store, exclude))
  {
    OverlayIsRefreshed(cache, ids, store, exclude);
    OverlayStep(cache, {}, None, store, exclude);
    hide Refreshed;
  }

  /** Left alone, the steps of a read amount to the read as one event. */
  lemma UndisturbedReadIsFetched(s: System, ids: set<Id>, store: Store, exclude: Exclude, gone: set<Id>)
    requires s.phase == Idle && KeyedById(s.cache.ids) && KeyedById(store)
    ensures var s1 := Step(s, Begin(exclude));
            var s2 := Step(Step(s1, ReadIds(ids)), Resume);
            Fetched(s.cache, ids, store, exclude) ==
            (if s1.phase.AwaitAll? then Step(Step(s1, ReadAll(store)), End(gone)).cache
             else if s1.phase.AwaitIds? && s2.phase != Idle then Step(Step(s2, ReadPrograms(store)), End(gone)).cache
             else s2.cache)
  {
    hide Overlay, Refreshed, ToRefresh, Listing;
    PlanIsRefreshed(s.cache.ids, ids, store, exclude);
  }

  // ----- the invariant -----

  function Content(effect: Effect, base: Store, cached: Store): Store {
    match effect
    case Kept => base
    case Cleared => map[]
    case Rebuilt => cached
  }

  /** The id cache when the current read planned what to refresh. */
  function Planned(s: System): Store
    requires s.phase.AwaitPrograms? || s.phase.HavePrograms?
  {
    Content(s.phase.before, s.base, s.cache.cached)
  }

  predicate Refreshing(p: Phase) {
    p.AwaitIds? || p.HaveIds? || p.AwaitPrograms? || p.HavePrograms?
  }

  /** Labels never run ahead; the recorded effect of the bumps is what they did; and until a read has
      failed, an id cache is the last returned list. */
  ghost predicate Inv(s: System) {
    && s.cache.cachedEpoch <= s.cache.epoch
    && (s.errors == 0 ==> s.cache.ids == map[] || s.cache.ids == s.cache.cached)
    && (Refreshing(s.phase) ==>
          && s.base != map[] && (s.errors == 0 ==> s.base == s.cache.cached)
          && s.cache.ids == Content(s.effect, s.base, s.cache.cached))
    && (s.phase.AwaitPrograms? || s.phase.HavePrograms? ==>
          && s.phase.refresh == ToRefresh(Planned(s), s.phase.ids)
          && s.phase.removed == Planned(s).Keys - s.phase.ids)
  }

  lemma StepKeepsInv(s: System, e: Event)
    requires Inv(s)
    ensures Inv(Step(s, e))
  {
    hide Overlay, Listing, ToRefresh;
  }

  lemma {:induction false} RunKeepsInv(es: seq<Event>)
    ensures Inv(Run(INITIAL, es))
  {
    if es != [] {
      hide Step, Inv;
      RunKeepsInv(es[..|es| - 1]);
      StepKeepsInv(Run(INITIAL, es[..|es| - 1]), es[|es| - 1]);
    } else {
      assert Inv(INITIAL);
    }
  }

  // ----- incremental reads -----

  /** The finished programs that were not to be refreshed are in `now` with their stored data. */
  ghost predicate FinishedThere(planned: Store, now: Store, store: Store, exclude: Exclude) {
    forall id :: id in planned && id in store && !Incomplete(planned[id].state) ==>
      id in now && now[id] == Project(store[id], exclude)
  }

  /** Nothing deleted is stored, nothing else kept is missing from the store, and every stored program that
      was not fetched is in the id cache with its stored data. */
  ghost predicate MatchesStore(refresh: set<Id>, removed: set<Id>, now: Store, store: Store, exclude: Exclude) {
    && removed !! store.Keys
    && now.Keys - removed <= store.Keys
    && forall id :: id in store && id !in refresh ==> id in now && now[id] == Project(store[id], exclude)
  }

  /** One entry of the id cache after the fetched programs are put in and the removed ones deleted. */
  lemma MergedAt(refresh: set<Id>, removed: set<Id>, now: Store, store: Store, exclude: Exclude, id: Id)
    ensures var got := Overlay(now, refresh, store, exclude) - removed;
            && (id in got <==> id !in removed && (id in now || (id in refresh && id in store)))
            && (id in got ==> got[id] == if id in refresh && id in store then Project(store[id], exclude) else now[id])
    ensures id in Overlay(now, refresh, store, exclude) <==> id in now || (id in refresh && id in store)
    ensures id in Listing(store, exclude) <==> id in store
    ensures id in store ==> Listing(store, exclude)[id] == Project(store[id], exclude)
  {
    hide Project;
  }

  lemma MergedExactIff(refresh: set<Id>, removed: set<Id>, now: Store, store: Store, exclude: Exclude)
    requires refresh !! removed
    ensures var merged := Overlay(now, refresh, store, exclude);
            && (removed <= merged.Keys <==> removed <= now.Keys)
            && (merged - removed == Listing(store, exclude) <==> MatchesStore(refresh, removed, now, store, exclude))
  {
    hide Overlay, Listing, Project;
    var merged, want := Overlay(now, refresh, store, exclude), Listing(store, exclude);
    var got := merged - removed;
    forall id | id in removed ensures id in merged <==> id in now {
      MergedAt(refresh, removed, now, store, exclude, id);
    }
    if got == want {
      forall id ensures id in want <==> id in store
                ensures id in store ==> id !in removed && (id !in refresh ==> id in now && now[id] == want[id])
                ensures id in now && id !in removed ==> id in store
                ensures id in store ==> want[id] == Project(store[id], exclude)
      {
        MergedAt(refresh, removed, now, store, exclude, id);
      }
    }
    if MatchesStore(refresh, removed, now, store, exclude) {
      forall id ensures id in got <==> id in want
                ensures id in got ==> got[id] == want[id]
      {
        MergedAt(refresh, removed, now, store, exclude, id);
      }
    }
  }

  /** For a store at rest the condition is on the finished programs and on what came into the id cache. */
  lemma OverlayExactIff(planned: Store, now: Store, store: Store, exclude: Exclude)
    ensures var ids := store.Keys;
            var removed := planned.Keys - ids;
            var merged := Overlay(now, ToRefresh(planned, ids), store, exclude);
            && (removed <= merged.Keys <==> removed <= now.Keys)
            && (merged - removed == Listing(store, exclude) <==>
                now.Keys - planned.Keys <= ids && FinishedThere(planned, now, store, exclude))
  {
    hide Overlay, Listing, Project;
    var ids := store.Keys;
    var removed, refresh := planned.Keys - ids, ToRefresh(planned, ids);
    MergedExactIff(refresh, removed, now, store, exclude);
    forall id | id in store ensures id !in refresh <==> id in planned && !Incomplete(planned[id].state) {
    }
    hide ToRefresh, Incomplete;
    assert now.Keys - removed <= ids <==> now.Keys - planned.Keys <= ids;
  }

  /** Over all runs, whatever the store did between the two awaits: exactly when an incremental read raises
      a KeyError, and exactly when its result equals the full fetch of the store its programs came from. */
  lemma IncrementalReadExactIff(es: seq<Event>, gone: set<Id>)
    requires Run(INITIAL, es).phase.HavePrograms?
    ensures var s := Run(INITIAL, es);
            var s' := Step(s, End(gone));
            var store, exclude, planned := s.phase.read, s.phase.exclude, Planned(s);
            var now := Content(s.effect, s.base, s.cache.cached);
            var refresh, removed := ToRefresh(planned, s.phase.ids), planned.Keys - s.phase.ids;
            && (s'.errors > s.errors <==> !(removed <= now.Keys))
            && (s'.errors == s.errors ==>
                  && s'.cache.cachedEpoch == s'.cache.epoch
                  && (s'.cache.cached == Listing(store, exclude) <==>
                      MatchesStore(refresh, removed, now, store, exclude)))
  {
    hide Run, Overlay, MatchesStore, Listing;
    RunKeepsInv(es);
    var s := Run(INITIAL, es);
    MergedExactIff(s.phase.refresh, s.phase.removed, s.cache.ids, s.phase.read, s.phase.exclude);
  }

  /** Over all runs, for a store that stays as it is while being read: an incremental read raises a KeyError
      exactly when a removed program has left the id cache since it was listed for deletion. Otherwise its
      result carries the current epoch, and equals the full fetch exactly when every finished program
      spared the refetch is in the id cache, unchanged, and the id cache gained no program meanwhile that
      the store does not hold. */
  lemma SteadyReadExactIff(es: seq<Event>, gone: set<Id>)
    requires Run(INITIAL, es).phase.HavePrograms?
    requires Run(INITIAL, es).phase.ids == Run(INITIAL, es).phase.read.Keys
    ensures var s := Run(INITIAL, es);
            var s' := Step(s, End(gone));
            var store, exclude, planned := s.phase.read, s.phase.exclude, Planned(s);
            var now := Content(s.effect, s.base, s.cache.cached);
            && s.cache.ids == now
            && (s'.errors > s.errors <==> !(planned.Keys - store.Keys <= now.Keys))
            && (s'.errors == s.errors ==>
                  && s'.cache.cachedEpoch == s'.cache.epoch
                  && (s'.cache.cached == Listing(store, exclude) <==>
                      now.Keys - planned.Keys <= store.Keys && FinishedThere(planned, now, store, exclude)))
            && (s'.errors > s.errors ==>
                  s'.cache.cached == s.cache.cached && s'.cache.cachedEpoch == s.cache.cachedEpoch)
  {
    hide Run, ToRefresh, Overlay, FinishedThere, Listing;
    RunKeepsInv(es);
    var s := Run(INITIAL, es);
    OverlayExactIff(Planned(s), s.cache.ids, s.phase.read, s.phase.exclude);
  }

  /** As long as no read has failed, what matters is only which bump came last before the read planned its
      refresh, and which came last before its end: two incremental or no bumps leave the condition of an
      undisturbed read; a full bump before the plan and none undone later makes the read exact; a full bump
      after the plan drops every finished program; a full bump before it that is undone by an incremental
      one after it brings back every program removed since. */
  lemma BumpsDuringReadIff(es: seq<Event>, gone: set<Id>)
    requires var s := Run(INITIAL, es);
             s.errors == 0 && s.phase.HavePrograms? && s.phase.ids == s.phase.read.Keys
    ensures var s := Run(INITIAL, es);
            var s' := Step(s, End(gone));
            var listed, store, exclude := s.cache.cached, s.phase.read, s.phase.exclude;
            (s'.errors == 0 && s'.cache.cachedEpoch == s'.cache.epoch && s'.cache.cached == Listing(store, exclude))
            <==>
            if s.phase.before == Cleared then s.effect == Cleared || listed.Keys <= store.Keys
            else if s.effect == Cleared then forall id :: id in listed ==> id in store && Incomplete(listed[id].state)
            else FinishedUnchanged(s.cache, store, exclude)
  {
    hide Run, Step;
    RunKeepsInv(es);
    SteadyReadExactIff(es, gone);
    var s := Run(INITIAL, es);
    var listed, store := s.cache.cached, s.phase.read;
    assert s.base == listed;
    if s.phase.before == Cleared {
      assert Planned(s) == map[];
      assert listed.Keys - Planned(s).Keys == listed.Keys;
    } else {
      assert Planned(s) == listed;
      if s.effect == Cleared {
        ClearedAfterPlan(listed, store, s.phase.exclude);
      }
    }
  }

  /** With nothing to refresh the read ends where it planned, and the same condition decides. */
  lemma NothingToRefreshExactIff(es: seq<Event>, store: Store)
    requires var s := Run(INITIAL, es);
             s.phase.HaveIds? && s.phase.ids == store.Keys && ToRefresh(s.cache.ids, store.Keys) == {}
    ensures var s := Run(INITIAL, es);
            var s' := Step(s, Resume);
            && s'.errors == s.errors && s'.phase == Idle && s'.cache.cachedEpoch == s'.cache.epoch
            && (s'.cache.cached == Listing(store, s.phase.exclude) <==>
                FinishedThere(s.cache.ids, s.cache.ids, store, s.phase.exclude))
  {
    hide Run, ToRefresh, Overlay, FinishedThere, Listing;
    var s := Run(INITIAL, es);
    OverlayStep(s.cache.ids, {}, None, store, s.phase.exclude);
    OverlayExactIff(s.cache.ids, s.cache.ids, store, s.phase.exclude);
  }

  lemma ClearedAfterPlan(listed: Store, store: Store, exclude: Exclude)
    ensures (listed.Keys - store.Keys <= {} && FinishedThere(listed, map[], store, exclude))
       <==> forall id :: id in listed ==> id in store && Incomplete(listed[id].state)
  {
    if listed.Keys - store.Keys <= {} && FinishedThere(listed, map[], store, exclude) {
      forall id | id in listed ensures id in store && Incomplete(listed[id].state) {
        assert id !in listed.Keys - store.Keys;
      }
    }
  }

  // ----- full reads -----

  function BumpCount(es: seq<Event>): nat {
    if es == [] then 0 else BumpCount(es[..|es| - 1]) + if es[|es| - 1].Bump? then 1 else 0
  }

  /** While a full read waits for its end, whatever else happens is a bump or has no effect. */
  lemma {:induction false} WhileReadWaits(s: System, mid: seq<Event>)
    requires s.phase.HaveAll? && forall e :: e in mid ==> !e.End?
    ensures var s' := Run(s, mid);
            s'.phase == s.phase && s'.errors == s.errors && s'.cache.epoch == s.cache.epoch + BumpCount(mid)
    decreases |mid|
  {
    if mid != [] {
      var init, e := mid[..|mid| - 1], mid[|mid| - 1];
      assert mid == init + [e] && e in mid;
      assert forall x :: x in init ==> x in mid;
      WhileReadWaits(s, init);
    }
  }

  /** And before its data are read the same: bumps there are obeyed, the read going on as it was. */
  lemma {:induction false} BeforeDataAreRead(s: System, early: seq<Event>)
    requires s.phase.AwaitAll? && forall e :: e in early ==> !e.ReadAll?
    ensures var s' := Run(s, early);
            s'.phase == s.phase && s'.errors == s.errors && s'.cache.epoch == s.cache.epoch + BumpCount(early)
    decreases |early|
  {
    if early != [] {
      var init, e := early[..|early| - 1], early[|early| - 1];
      assert early == init + [e] && e in early;
      assert forall x :: x in init ==> x in early;
      BeforeDataAreRead(s, init);
    }
  }

  /** Bumps that follow a read with nothing in between. */
  lemma {:induction false} AfterRead(s: System, bumps: seq<Event>)
    requires s.phase == Idle && forall e :: e in bumps ==> e.Bump?
    ensures var s' := Run(s, bumps);
            && s'.phase == Idle && s'.cache.epoch == s.cache.epoch + |bumps|
            && s'.cache.cached == s.cache.cached && s'.cache.cachedEpoch == s.cache.cachedEpoch
            && s'.cache.cachedExclude == s.cache.cachedExclude
    decreases |bumps|
  {
    if bumps != [] {
      var init, e := bumps[..|bumps| - 1], bumps[|bumps| - 1];
      assert bumps == init + [e] && e in bumps;
      assert forall x :: x in init ==> x in bumps;
      AfterRead(s, init);
    }
  }

  /** The rest of a full read that awaits its data: `early` happens before they are read, `mid` between that
      and the end. */
  function FullRead(early: seq<Event>, store: Store, mid: seq<Event>, gone: set<Id>): seq<Event> {
    early + [ReadAll(store)] + mid + [End(gone)]
  }

  /** The result is the store as it was read and carries the epoch of the end. */
  lemma FullReadRuns(s: System, early: seq<Event>, store: Store, mid: seq<Event>, gone: set<Id>)
    requires s.phase.AwaitAll?
    requires (forall e :: e in early ==> !e.ReadAll?) && forall e :: e in mid ==> !e.End?
    ensures var exclude := s.phase.exclude;
            var s' := Run(s, FullRead(early, store, mid, gone));
            && s'.phase == Idle && s'.errors == s.errors
            && s'.cache.epoch == s.cache.epoch + BumpCount(early) + BumpCount(mid)
            && s'.cache.cachedEpoch == s'.cache.epoch && s'.cache.cachedExclude == exclude
            && s'.cache.cached == Listing(store, exclude)
  {
    hide Run, Listing;
    BeforeDataAreRead(s, early);
    RunSnoc(s, early, ReadAll(store));
    var s1 := Run(s, early + [ReadAll(store)]);
    WhileReadWaits(s1, mid);
    RunConcat(s, early + [ReadAll(store)], mid);
    RunSnoc(s, early + [ReadAll(store)] + mid, End(gone));
  }

  /** The label of a full read is the epoch in which its data were read exactly when no bump fell between
      reading them and the end; bumps before that, full or not and however many, do no harm. */
  lemma FullReadLabelIff(es: seq<Event>, early: seq<Event>, store: Store, mid: seq<Event>, gone: set<Id>)
    requires Run(INITIAL, es).phase.AwaitAll?
    requires (forall e :: e in early ==> !e.ReadAll?) && forall e :: e in mid ==> !e.End?
    ensures var whenRead := Run(INITIAL, es + early);
            var s' := Run(INITIAL, es + FullRead(early, store, mid, gone));
            && s'.phase == Idle && s'.cache.cachedEpoch == s'.cache.epoch
            && s'.cache.cached == Listing(store, Run(INITIAL, es).phase.exclude)
            && (s'.cache.cachedEpoch == whenRead.cache.epoch <==> forall e :: e in mid ==> !e.Bump?)
  {
    hide Run, Listing;
    var s := Run(INITIAL, es);
    RunConcat(INITIAL, es, early);
    RunConcat(INITIAL, es, FullRead(early, store, mid, gone));
    BeforeDataAreRead(s, early);
    FullReadRuns(s, early, store, mid, gone);
    NoBumpsIff(mid);
  }

  lemma {:induction false} NoBumpsIff(es: seq<Event>)
    ensures BumpCount(es) == 0 <==> forall e :: e in es ==> !e.Bump?
  {
    if es != [] {
      var init, last := es[..|es| - 1], es[|es| - 1];
      assert es == init + [last];
      NoBumpsIff(init);
      assert last in es;
    }
  }

  /** So of the bumps that follow the reading of the data only those after the end count: the next read
      with the same filter answers with the data read exactly when there is none of these, however many
      fell inside; then its answer is the data from before those. */
  lemma FullReadServedIff(es: seq<Event>, early: seq<Event>, store: Store, mid: seq<Event>, gone: set<Id>,
      later: seq<Event>, now: Store)
    requires Run(INITIAL, es).phase.AwaitAll?
    requires (forall e :: e in early ==> !e.ReadAll?) && forall e :: e in mid ==> !e.End?
    requires forall e :: e in later ==> e.Bump?
    ensures var exclude := Run(INITIAL, es).phase.exclude;
            var s' := Run(INITIAL, es + FullRead(early, store, mid, gone) + later);
            && (Hit(s'.cache, exclude) <==> later == [])
            && (later == [] ==> Fetched(s'.cache, now.Keys, now, exclude).cached == Listing(store, exclude))
            && (later != [] && later[|later| - 1] == Event.Bump(false) ==>
                  Fetched(s'.cache, now.Keys, now, exclude).cached == Listing(now, exclude))
  {
    hide Run, Listing;
    var all := es + FullRead(early, store, mid, gone);
    FullReadLabelIff(es, early, store, mid, gone);
    RunConcat(INITIAL, es, FullRead(early, store, mid, gone));
    FullReadRuns(Run(INITIAL, es), early, store, mid, gone);
    RunConcat(INITIAL, all, later);
    AfterRead(Run(INITIAL, all), later);
    if later != [] {
      var init, last := later[..|later| - 1], later[|later| - 1];
      assert later == init + [last];
      RunSnoc(Run(INITIAL, all), init, last);
    }
  }

  /** A bump just before the end of a full read is swallowed; just after it, it is obeyed. */
  lemma BumpDuringReadIsSwallowed(es: seq<Event>, gone: set<Id>, now: Store)
    requires Run(INITIAL, es).phase.HaveAll?
    ensures var s := Run(INITIAL, es);
            var read, exclude := s.phase.read, s.phase.exclude;
            var inside := Step(Step(s, Event.Bump(false)), End(gone));
            var outside := Step(Step(s, End(gone)), Event.Bump(false));
            && inside.cache.epoch == outside.cache.epoch
            && Fetched(inside.cache, now.Keys, now, exclude).cached == Listing(read, exclude)
            && Fetched(outside.cache, now.Keys, now, exclude).cached == Listing(now, exclude)
  {
    RunKeepsInv(es);
  }

  // ----- what goes wrong, on a store of one finished and one queued program -----

  lemma RunSnoc(s: System, es: seq<Event>, e: Event)
    ensures Run(s, es + [e]) == Step(Run(s, es), e)
  {
    assert (es + [e])[..|es|] == es;
  }

  /** Reads the whole store, then begins an incremental read in the next epoch. */
  function ListedOnce(both: Store): seq<Event> {
    [Begin(None)] + [ReadAll(both)] + [End({})] + [Event.Bump(true)] + [Begin(None)]
  }

  lemma WholeListing(store: Store)
    ensures Listing(store, None) == store
  {
  }

  lemma AfterListedOnce(both: Store)
    requires both != map[]
    ensures Run(INITIAL, ListedOnce(both)) ==
            System(Cache(1, 0, None, both, both), AwaitIds(None), both, Kept, 0)
  {
    assert Run(INITIAL, []) == INITIAL;
    hide Run;
    WholeListing(both);
    var es := [Begin(None)];
    assert es == [] + es;
    RunSnoc(INITIAL, [], Begin(None));
    RunSnoc(INITIAL, es, ReadAll(both));
    RunSnoc(INITIAL, es + [ReadAll(both)], End({}));
    RunSnoc(INITIAL, es + [ReadAll(both)] + [End({})], Event.Bump(true));
    RunSnoc(INITIAL, es + [ReadAll(both)] + [End({})] + [Event.Bump(true)], Begin(None));
  }

  /** The rest of that read: bumps, if any, around the plan and before the end. */
  function Rest(ids: set<Id>, early: seq<Event>, late: seq<Event>, store: Store): seq<Event> {
    [ReadIds(ids)] + early + [Resume] + late + [ReadPrograms(store)] + [End({})]
  }

  lemma {:induction false} RunConcat(s: System, a: seq<Event>, b: seq<Event>)
    ensures Run(s, a + b) == Run(Run(s, a), b)
    decreases |b|
  {
    if b == [] {
      assert a + b == a;
    } else {
      var init, e := b[..|b| - 1], b[|b| - 1];
      assert b == init + [e] && a + b == (a + init) + [e];
      RunConcat(s, a, init);
      RunSnoc(s, a + init, e);
      RunSnoc(Run(s, a), init, e);
    }
  }

  lemma RunRest(s: System, ids: set<Id>, early: seq<Event>, late: seq<Event>, store: Store)
    ensures Run(s, Rest(ids, early, late, store)) ==
            Step(Step(Run(Step(Run(Step(s, ReadIds(ids)), early), Resume), late), ReadPrograms(store)), End({}))
  {
    var s1 := [ReadIds(ids)];
    RunConcat(s, s1, early);
    RunSnoc(s, [], ReadIds(ids));
    assert [] + s1 == s1;
    RunSnoc(s, s1 + early, Resume);
    RunConcat(s, s1 + early + [Resume], late);
    RunSnoc(s, s1 + early + [Resume] + late, ReadPrograms(store));
    RunSnoc(s, s1 + early + [Resume] + late + [ReadPrograms(store)], End({}));
  }

  lemma RunOne(s: System, e: Event)
    ensures Run(s, []) == s && Run(s, [e]) == Step(s, e)
  {
    assert [] + [e] == [e];
    RunSnoc(s, [], e);
  }

  function Both(p: Program, q: Program): Store {
    map[p.id := p, q.id := q]
  }

  /** How the read begun by `ListedOnce` ends when a full bump falls before its end. */
  lemma EndAfterFullBump(both: Store, ids: set<Id>, store: Store)
    requires both != map[] && ToRefresh(both, ids) != {}
    ensures var merged := Overlay(map[], ToRefresh(both, ids), store, None);
            var removed := both.Keys - ids;
            var s := Run(INITIAL, ListedOnce(both) + Rest(ids, [], [Event.Bump(false)], store));
            && s.phase == Idle
            && (removed <= merged.Keys ==> s.errors == 0 && s.cache.cached == merged - removed
                                           && s.cache.cachedEpoch == s.cache.epoch)
            && (!(removed <= merged.Keys) ==> s.errors == 1)
  {
    hide Run, ToRefresh, Overlay, Listing, ListedOnce, Rest;
    AfterListedOnce(both);
    RunConcat(INITIAL, ListedOnce(both), Rest(ids, [], [Event.Bump(false)], store));
    var s0 := Run(INITIAL, ListedOnce(both));
    RunRest(s0, ids, [], [Event.Bump(false)], store);
    var s1 := Step(s0, ReadIds(ids));
    RunOne(s1, Resume);
    RunOne(Step(s1, Resume), Event.Bump(false));
  }

  /** And when a full bump falls before its plan and an incremental one before its end. */
  lemma EndAfterUndoneBump(both: Store, ids: set<Id>, store: Store)
    requires both != map[] && ToRefresh(map[], ids) != {}
    ensures var s := Run(INITIAL, ListedOnce(both) + Rest(ids, [Event.Bump(false)], [Event.Bump(true)], store));
            && s.phase == Idle && s.errors == 0 && s.cache.cachedEpoch == s.cache.epoch
            && s.cache.cached == Overlay(both, ToRefresh(map[], ids), store, None)
  {
    hide Run, ToRefresh, Overlay, Listing, ListedOnce, Rest;
    AfterListedOnce(both);
    RunConcat(INITIAL, ListedOnce(both), Rest(ids, [Event.Bump(false)], [Event.Bump(true)], store));
    var s0 := Run(INITIAL, ListedOnce(both));
    RunRest(s0, ids, [Event.Bump(false)], [Event.Bump(true)], store);
    var s1 := Step(s0, ReadIds(ids));
    RunOne(s1, Event.Bump(false));
    var s3 := Step(Step(s1, Event.Bump(false)), Resume);
    RunOne(s3, Event.Bump(true));
    var s5 := Step(Step(s3, Event.Bump(true)), ReadPrograms(store));
    var merged := Overlay(both, ToRefresh(map[], ids), store, None);
    assert s5.phase.removed == {};
    assert merged - {} == merged;
  }

  /** A full bump while the programs are being read: the finished program is missing from the result,
      which is labelled with the current epoch. */
  lemma FinishedProgramIsLost(p: Program, q: Program)
    requires p.state == Done && q.state == Queued && p.id != q.id
    ensures var both := Both(p, q);
            var s := Run(INITIAL, ListedOnce(both) + Rest(both.Keys, [], [Event.Bump(false)], both));
            && s.phase == Idle && s.errors == 0 && s.cache.cachedEpoch == s.cache.epoch
            && s.cache.cached == map[q.id := q] != Listing(both, None)
  {
    hide Run, ListedOnce, Rest, Step;
    var both := Both(p, q);
    assert ToRefresh(both, both.Keys) == {q.id};
    var merged := Overlay(map[], {q.id}, both, None);
    assert merged == map[q.id := q] && merged - (both.Keys - both.Keys) == merged;
    assert p.id in Listing(both, None);
    EndAfterFullBump(both, both.Keys, both);
  }

  /** The same bump when a listed program has been removed from the store: KeyError. */
  lemma RemovedProgramRaises(p: Program, q: Program)
    requires p.state == Done && q.state == Queued && p.id != q.id
    ensures var left := map[q.id := q];
            Run(INITIAL, ListedOnce(Both(p, q)) + Rest(left.Keys, [], [Event.Bump(false)], left)).errors == 1
  {
    hide Run, ListedOnce, Rest, Step;
    var both, left := Both(p, q), map[q.id := q];
    assert ToRefresh(both, left.Keys) == {q.id};
    assert p.id in both.Keys - left.Keys;
    assert p.id !in Overlay(map[], {q.id}, left, None);
    EndAfterFullBump(both, left.Keys, left);
  }

  /** A full bump before the plan and an incremental one after it: the removed program is listed again. */
  lemma RemovedProgramReturns(p: Program, q: Program)
    requires p.state == Done && q.state == Queued && p.id != q.id
    ensures var left := map[q.id := q];
            var s := Run(INITIAL,
                         ListedOnce(Both(p, q)) + Rest(left.Keys, [Event.Bump(false)], [Event.Bump(true)], left));
            && s.phase == Idle && s.errors == 0 && s.cache.cachedEpoch == s.cache.epoch
            && s.cache.cached == Both(p, q) != Listing(left, None)
  {
    hide Run, ListedOnce, Rest, Step;
    var both, left := Both(p, q), map[q.id := q];
    assert ToRefresh(map[], left.Keys) == {q.id};
    assert Overlay(both, {q.id}, left, None) == both;
    assert p.id in both && p.id !in Listing(left, None);
    EndAfterUndoneBump(both, left.Keys, left);
  }

  /** A bump while a full read is awaited: the next read still answers with the data read before it. */
  lemma OldDataIsServed(p: Program, q: Program)
    requires q.id == p.id && p != q
    ensures var before, now := map[p.id := p], map[p.id := q];
            var s := Run(INITIAL, [Begin(None)] + [ReadAll(before)] + [Event.Bump(false)] + [End({})]);
            && s.cache.cachedEpoch == s.cache.epoch
            && Fetched(s.cache, now.Keys, now, None).cached == before != Listing(now, None)
  {
    var before, now := map[p.id := p], map[p.id := q];
    RunOne(INITIAL, Begin(None));
    RunSnoc(INITIAL, [Begin(None)], ReadAll(before));
    RunSnoc(INITIAL, [Begin(None)] + [ReadAll(before)], Event.Bump(false));
    RunSnoc(INITIAL, [Begin(None)] + [ReadAll(before)] + [Event.Bump(false)], End({}));
    WholeListing(before);
    WholeListing(now);
    assert before[p.id] != now[p.id];
  }
}
