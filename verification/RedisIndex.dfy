/** Agreement between the status-set index and the stored blobs. */
module RedisIndex {
  import opened Basics
  import opened ProgramState
  import opened MergeStrategies
  import opened RedisData
  import opened RedisMachine
  import opened RedisRuns
  import RedisBatch

  /** An indexed id has a blob, and its state names the set. */
  ghost predicate Sound(d: Data) {
    forall e :: e in d.index ==> e.1 in d.blobs && e.0 == Lifecycle(d.blobs[e.1].state)
  }

  /** Every blob is indexed. */
  ghost predicate Complete(d: Data) {
    forall id :: id in d.blobs ==> (Lifecycle(d.blobs[id].state), id) in d.index
  }

  lemma NoIdInTwoSets(d: Data, id: Id, a: Status, b: Status)
    requires Sound(d) && (a, id) in d.index && (b, id) in d.index
    ensures a == b
  {
    assert (a, id).1 == (b, id).1;
  }

  // ----- what the unguarded operations demand of their callers -----

  /** All memberships of `id` are among `allowed`. */
  ghost predicate OnlyIn(d: Data, id: Id, allowed: set<Status>) {
    forall st :: (st, id) in d.index ==> st in allowed
  }

  ghost predicate CallerKeepsIndex(d: Data, x: ExclusiveOp) {
    match x
    case WriteExclusive(p) => OnlyIn(d, p.id, {Lifecycle(p.state)})
    case FastTransition(p, fromSet, toSet) =>
      toSet == Lifecycle(p.state) && OnlyIn(d, p.id, {fromSet, toSet})
    case BatchState(ps, prev, next) =>
      ValidTransition(prev, next) ==> forall p :: p in ps ==> OnlyIn(d, p.id, {Lifecycle(prev), Lifecycle(next)})
    case _ => true
  }

  /** Completeness also needs the blind write of `write_exclusive` to hit a known id. */
  ghost predicate CallerKeepsIds(d: Data, x: ExclusiveOp) {
    x.WriteExclusive? ==> x.program.id in d.blobs
  }

  lemma {:induction false} PutAllWrites(d: Data, ps: seq<Program>, state: State, base: nat)
    requires forall p :: p in ps ==> p.state == state
    ensures var r := PutAll(d, ps, base);
            && (forall id :: id in Ids(ps) ==> id in r.blobs && r.blobs[id].state == state)
            && (forall id :: id !in Ids(ps) ==> Lookup(r, id) == Lookup(d, id))
            && r.index == d.index
    decreases |ps|
  {
    if ps != [] {
      assert ps == [ps[0]] + ps[1..];
      PutAllWrites(Put(d, Stamp(ps[0], base + 1)), ps[1..], state, base + 1);
    }
  }

  /** A chunk's programs end in `next` and leave the set of `prev`; everything else is untouched. */
  ghost predicate Moves(d: Data, d': Data, ids: set<Id>, prev: State, next: State) {
    && (forall id :: id in ids ==> id in d'.blobs && d'.blobs[id].state == next)
    && (forall id :: id !in ids ==> Lookup(d', id) == Lookup(d, id))
    && d'.index == MoveIds(d, prev, next, ids).index
  }

  lemma IdsWithState(ps: seq<Program>, next: State)
    ensures Ids(WithState(ps, next)) == Ids(ps)
    ensures forall q :: q in WithState(ps, next) ==> q.state == next
  {
    WithStateIds(ps, next);
  }

  lemma PutChunkMoves(d: Data, ps: seq<Program>, prev: State, next: State, base: nat)
    ensures Moves(d, PutChunk(d, ps, prev, next, base), Ids(ps), prev, next)
  {
    hide PutAll, WithState;
    if ps == [] {
      hide Moves;
      assert Ids(ps) == {};
      MovesNothing(d, prev, next);
    } else {
      var d1 := PutAll(d, WithState(ps, next), base);
      IdsWithState(ps, next);
      PutAllWrites(d, WithState(ps, next), next, base);
      hide Ids;
      assert PutChunk(d, ps, prev, next, base) == MoveIds(d1, prev, next, Ids(ps));
    }
  }

  lemma MovesTransitive(a: Data, b: Data, c: Data, i: set<Id>, j: set<Id>, prev: State, next: State)
    requires Moves(a, b, i, prev, next) && Moves(b, c, j, prev, next)
    ensures Moves(a, c, i + j, prev, next)
  {
    assert MoveIds(b, prev, next, j).index == MoveIds(a, prev, next, i + j).index;
    forall id | id in i + j ensures id in c.blobs && c.blobs[id].state == next {
      if id !in j {
        assert Lookup(c, id) == Lookup(b, id);
      }
    }
  }

  lemma MovesNothing(d: Data, prev: State, next: State)
    ensures Moves(d, d, {}, prev, next)
  {
    assert MoveIds(d, prev, next, {}).index == d.index;
  }

  lemma IdsConcat(ps: seq<Program>, qs: seq<Program>)
    ensures Ids(ps + qs) == Ids(ps) + Ids(qs)
  {
  }

  lemma {:induction false} StateChunksMove(d: Data, chunks: seq<seq<Program>>, prev: State, next: State, base: nat)
    ensures Moves(d, StateChunks(d, chunks, prev, next, base), Ids(Flatten(chunks)), prev, next)
    decreases |chunks|
  {
    hide PutChunk, Moves;
    if chunks == [] {
      MovesNothing(d, prev, next);
      assert Ids(Flatten(chunks)) == {};
    } else {
      var d1 := PutChunk(d, chunks[0], prev, next, base);
      PutChunkMoves(d, chunks[0], prev, next, base);
      StateChunksMove(d1, chunks[1..], prev, next, base + |chunks[0]|);
      IdsConcat(chunks[0], Flatten(chunks[1..]));
      MovesTransitive(d, d1, StateChunks(d, chunks, prev, next, base), Ids(chunks[0]), Ids(Flatten(chunks[1..])),
        prev, next);
    }
  }

  /** Moving ids keeps the index sound exactly when none of them sits in a third set. */
  lemma MovesSoundIff(d: Data, d': Data, ids: set<Id>, prev: State, next: State)
    requires Sound(d) && Moves(d, d', ids, prev, next)
    ensures Sound(d') <==> forall id :: id in ids ==> OnlyIn(d, id, {Lifecycle(prev), Lifecycle(next)})
    ensures Complete(d) ==> Complete(d')
  {
    if Sound(d') {
      forall id, st | id in ids && (st, id) in d.index ensures st == Lifecycle(prev) || st == Lifecycle(next) {
        if st != Lifecycle(prev) {
          assert (st, id) in d'.index;
        }
      }
    }
    forall e | e in d.index && e.1 !in ids
      ensures e in d'.index && e.1 in d'.blobs && e.0 == Lifecycle(d'.blobs[e.1].state) {
      assert Lookup(d', e.1) == Lookup(d, e.1);
    }
    if forall id :: id in ids ==> OnlyIn(d, id, {Lifecycle(prev), Lifecycle(next)}) {
      forall e | e in d'.index ensures e.1 in d'.blobs && e.0 == Lifecycle(d'.blobs[e.1].state) {
        if e.1 in ids {
          assert e in d.index ==> (e.0, e.1) in d.index;
        } else {
          assert e in d.index;
        }
      }
    }
    if Complete(d) {
      forall id | id in d'.blobs ensures (Lifecycle(d'.blobs[id].state), id) in d'.index {
        if id !in ids {
          assert Lookup(d', id) == Lookup(d, id);
        }
      }
    }
  }

  lemma MatchedChunkKeepsIndex(d: Data, ids: seq<Id>, prev: State, next: State, base: nat)
    requires Keyed(d) && Sound(d)
    ensures var d' := PutChunk(d, Matching(d, ids, prev), prev, next, base);
            Keyed(d') && Sound(d') && (Complete(d) ==> Complete(d'))
  {
    hide PutChunk, Matching, Moves, Complete;
    var ps := Matching(d, ids, prev);
    MatchingIds(d, ids, prev);
    PutChunkMoves(d, ps, prev, next, base);
    RedisBatch.PutChunkFrame(d, ps, prev, next, base);
    forall id | id in Ids(ps) ensures OnlyIn(d, id, {Lifecycle(prev), Lifecycle(next)}) {
      forall st | (st, id) in d.index ensures st == Lifecycle(prev) {
        assert (st, id).1 == id;
      }
    }
    MovesSoundIff(d, PutChunk(d, ps, prev, next, base), Ids(ps), prev, next);
  }

  lemma {:induction false} IdChunksKeepIndex(d: Data, chunks: seq<seq<Id>>, prev: State, next: State, base: nat)
    requires Keyed(d) && Sound(d)
    ensures Sound(IdChunks(d, chunks, prev, next, base).0)
    ensures Complete(d) ==> Complete(IdChunks(d, chunks, prev, next, base).0)
    decreases |chunks|
  {
    hide PutChunk, Matching, Sound, Complete;
    if chunks != [] {
      var ps := Matching(d, chunks[0], prev);
      MatchedChunkKeepsIndex(d, chunks[0], prev, next, base);
      IdChunksKeepIndex(PutChunk(d, ps, prev, next, base), chunks[1..], prev, next, base + |ps|);
    }
  }

  /** Exactly which unguarded calls keep a sound index sound. */
  lemma ExclusiveSoundIff(d: Data, x: ExclusiveOp, base: nat)
    requires Keyed(d) && Sound(d)
    ensures Sound(Exclusive(d, x, base)) <==> CallerKeepsIndex(d, x)
  {
    var d' := Exclusive(d, x, base);
    match x
    case Add(p) =>
      forall e | e in d'.index ensures e.1 in d'.blobs && e.0 == Lifecycle(d'.blobs[e.1].state) {
        assert e in d.index || e == (Lifecycle(p.state), p.id);
      }
    case Remove(id) =>
      forall e | e in d'.index ensures e.1 in d'.blobs && e.0 == Lifecycle(d'.blobs[e.1].state) {
        assert e in d.index;
      }
    case WriteExclusive(p) =>
      forall st | (st, p.id) in d.index ensures Sound(d') ==> st == Lifecycle(p.state) {
      }
      if CallerKeepsIndex(d, x) {
        forall e | e in d'.index ensures e.1 in d'.blobs && e.0 == Lifecycle(d'.blobs[e.1].state) {
          assert (e.0, e.1) in d.index;
        }
      }
    case FastTransition(p, fromSet, toSet) =>
      FastSoundIff(d, p, fromSet, toSet, base + 1);
    case BatchState(ps, prev, next) =>
      if ValidTransition(prev, next) {
        hide StateChunks, Chunks, Flatten;
        ChunksCover(ps, MGET_CHUNK_SIZE);
        StateChunksMove(d, Chunks(ps, MGET_CHUNK_SIZE), prev, next, base);
        MovesSoundIff(d, d', Ids(ps), prev, next);
        assert forall p :: p in ps ==> p.id in Ids(ps);
      }
    case BatchByIds(ids, prev, next) =>
      if ValidTransition(prev, next) {
        hide IdChunks;
        IdChunksKeepIndex(d, Chunks(ids, MGET_CHUNK_SIZE), prev, next, base);
      }
  }

  lemma FastSoundIff(d: Data, p: Program, fromSet: Status, toSet: Status, n: nat)
    requires Keyed(d) && Sound(d)
    ensures Sound(FastData(d, p, fromSet, toSet, n))
       <==> toSet == Lifecycle(p.state) && OnlyIn(d, p.id, {fromSet, toSet})
  {
    var d' := FastData(d, p, fromSet, toSet, n);
    assert (toSet, p.id) in d'.index;
    if Sound(d') {
      assert toSet == Lifecycle(p.state) by { assert (toSet, p.id).1 == p.id; }
      forall st | (st, p.id) in d.index ensures st in {fromSet, toSet} {
        if st != fromSet {
          assert (st, p.id) in d'.index;
          NoIdInTwoSets(d', p.id, st, toSet);
        }
      }
    }
    if toSet == Lifecycle(p.state) && OnlyIn(d, p.id, {fromSet, toSet}) {
      forall e | e in d'.index ensures e.1 in d'.blobs && e.0 == Lifecycle(d'.blobs[e.1].state) {
        if e != (toSet, p.id) {
          assert e in d.index;
          assert e.1 == p.id ==> (e.0, p.id) in d.index;
        }
      }
    }
  }

  /** And which of those also keep a complete index complete. */
  lemma ExclusiveCompleteIff(d: Data, x: ExclusiveOp, base: nat)
    requires Keyed(d) && Sound(d) && Complete(d) && CallerKeepsIndex(d, x)
    ensures Complete(Exclusive(d, x, base)) <==> CallerKeepsIds(d, x)
  {
    var d' := Exclusive(d, x, base);
    match x
    case WriteExclusive(p) =>
      if p.id in d.blobs {
        assert OnlyIn(d, p.id, {Lifecycle(p.state)});
        assert (Lifecycle(d.blobs[p.id].state), p.id) in d.index;
      } else {
        var e := (Lifecycle(p.state), p.id);
        assert e !in d.index by { assert e.1 == p.id; }
        assert d'.blobs[p.id].state == p.state;
      }
    case BatchState(ps, prev, next) =>
      if ValidTransition(prev, next) {
        hide StateChunks, Chunks, Flatten;
        ChunksCover(ps, MGET_CHUNK_SIZE);
        StateChunksMove(d, Chunks(ps, MGET_CHUNK_SIZE), prev, next, base);
        MovesSoundIff(d, d', Ids(ps), prev, next);
      }
    case BatchByIds(ids, prev, next) =>
      if ValidTransition(prev, next) {
        hide IdChunks;
        IdChunksKeepIndex(d, Chunks(ids, MGET_CHUNK_SIZE), prev, next, base);
      }
    case FastTransition(p, fromSet, toSet) =>
      forall id | id in d'.blobs ensures (Lifecycle(d'.blobs[id].state), id) in d'.index {
        if id != p.id {
          assert (Lifecycle(d.blobs[id].state), id) in d.index;
        }
      }
    case _ =>
      forall id | id in d'.blobs ensures (Lifecycle(d'.blobs[id].state), id) in d'.index {
      }
  }

  /** The memberships after a bulk move of `ids` from one status set to another. */
  ghost predicate Moved(before: set<(Status, Id)>, after: set<(Status, Id)>, ids: set<Id>, prev: State, next: State) {
    forall st, id :: (st, id) in after <==>
      if id in ids then st == Lifecycle(next) || ((st, id) in before && st != Lifecycle(prev)) else (st, id) in before
  }

  /** `q` is `p` in another state, up to the revision counter. */
  ghost predicate MovedTo(p: Program, q: Program, state: State) {
    q == p.(state := state, atomicCounter := q.atomicCounter)
  }

  lemma MoveIdsMoves(d: Data, ids: set<Id>, prev: State, next: State)
    ensures Moved(d.index, MoveIds(d, prev, next, ids).index, ids, prev, next)
  {
    forall st, id
      ensures (st, id) in MoveIds(d, prev, next, ids).index <==>
        if id in ids then st == Lifecycle(next) || ((st, id) in d.index && st != Lifecycle(prev))
        else (st, id) in d.index
    {
      assert (st, id).0 == st && (st, id).1 == id;
    }
  }

  /** What an accepted batch over programs does. */
  lemma BatchStateDoes(d: Data, ps: seq<Program>, prev: State, next: State, base: nat)
    requires ValidTransition(prev, next)
    ensures var d' := Exclusive(d, BatchState(ps, prev, next), base);
            && RedisBatch.WrittenInOrder(d.blobs, d'.blobs, ps, next, base)
            && Moved(d.index, d'.index, set p | p in ps :: p.id, prev, next)
  {
    hide StateChunks, Chunks, Flatten, MoveIds, Moved, RedisBatch.WrittenInOrder;
    RedisBatch.BatchStateWrites(d, ps, prev, next, base);
    ChunksCover(ps, MGET_CHUNK_SIZE);
    StateChunksMove(d, Chunks(ps, MGET_CHUNK_SIZE), prev, next, base);
    MoveIdsMoves(d, Ids(ps), prev, next);
  }

  /** What an accepted raw batch does: exactly the stored programs in the old state among the ids move to the
      new state, each under a new counter, and nothing else of them changes. */
  lemma BatchByIdsDoes(d: Data, ids: seq<Id>, prev: State, next: State, base: nat)
    requires Keyed(d) && Distinct(ids) && ValidTransition(prev, next)
    ensures var d' := Exclusive(d, BatchByIds(ids, prev, next), base);
            var n := Width(d, BatchByIds(ids, prev, next), base);
            var moved := set id | id in ids && id in d.blobs && d.blobs[id].state == prev;
            && n == |moved|
            && d'.blobs.Keys == d.blobs.Keys
            && (forall id :: id in d.blobs ==>
                  if id in moved
                  then MovedTo(d.blobs[id], d'.blobs[id], next) && base < d'.blobs[id].atomicCounter <= base + n
                  else d'.blobs[id] == d.blobs[id])
            && Moved(d.index, d'.index, moved, prev, next)
  {
    hide IdChunks, Chunks, Matching, Moved, PutAll, RedisBatch.OneByOne;
    var ps := Matching(d, ids, prev);
    var d' := Exclusive(d, BatchByIds(ids, prev, next), base);
    var moved := set id | id in ids && id in d.blobs && d.blobs[id].state == prev;
    RedisBatch.BatchByIdsWrites(d, ids, prev, next, base);
    RedisBatch.RawBatchRefinesOneByOne(d, ids, prev, next, base);
    RedisBatch.MatchingStored(d, ids, prev);
    RedisBatch.ChunkIsOneByOne(d, ps, prev, next, base);
    MatchingIds(d, ids, prev);
    PutChunkMoves(d, ps, prev, next, base);
    assert Ids(ps) == moved;
    RedisBatch.IdsSize(ps);
    MoveIdsMoves(d, moved, prev, next);
    hide MoveIds, PutChunk, Ids;
    forall id ensures id in d'.blobs <==> id in d.blobs
      ensures id in d.blobs ==>
                  if id in moved
                  then MovedTo(d.blobs[id], d'.blobs[id], next) && base < d'.blobs[id].atomicCounter <= base + |ps|
                  else d'.blobs[id] == d.blobs[id]
    {
      assert RedisBatch.WrittenAt(d.blobs, d'.blobs, ps, next, base, id);
      RedisBatch.LastOfIds(ps, id);
      var i := RedisBatch.LastOf(ps, id);
      if i >= 0 {
        assert ps[i] in ps;
      }
    }
  }

  /** A guarded commit keeps the index sound for every `old_state` argument, and complete exactly
      when it is not an `update` of an id the store does not know. */
  lemma CommitKeepsIndex(d: Data, op: GuardedOp, n: nat)
    requires Keyed(d) && Sound(d) && Commit(d, op, Lookup(d, op.program.id), n).Ok?
    ensures var d' := Commit(d, op, Lookup(d, op.program.id), n).value;
            && Sound(d')
            && (Complete(d) ==> (Complete(d') <==> (op.Update? ==> op.program.id in d.blobs)))
            && (op.Update? ==> d'.index == d.index)
            && (op.Transition? ==> op.program.id in d'.blobs && forall st ::
                  (st, op.program.id) in d'.index <==> st == Lifecycle(d'.blobs[op.program.id].state))
  {
    var id := op.program.id;
    var d' := Commit(d, op, Lookup(d, id), n).value;
    forall e | e in d'.index ensures e.1 in d'.blobs && e.0 == Lifecycle(d'.blobs[e.1].state) {
      if e.1 != id {
        assert e in d.index;
      } else if e in d.index {
        assert e.0 == Lifecycle(d.blobs[id].state);
      }
    }
    if op.Transition? {
      forall st ensures (st, id) in d'.index <==> st == Lifecycle(d'.blobs[id].state) {
        assert (st, id).1 == id;
      }
    }
    if Complete(d) {
      if op.Update? && id !in d.blobs {
        var e := (Lifecycle(d'.blobs[id].state), id);
        assert e !in d.index by { assert e.1 == id; }
      } else {
        forall i | i in d'.blobs ensures (Lifecycle(d'.blobs[i].state), i) in d'.index {
          assert i != id ==> (Lifecycle(d.blobs[i].state), i) in d.index;
        }
      }
    }
  }

  /** An `update` of an unknown id on the empty store: the blob is there, the index does not know it. */
  lemma UpdateLeavesUnindexed(p: Program, n: nat)
    ensures var d' := Commit(Data(map[], {}), Update(p), None, n);
            d'.Ok? && p.id in d'.value.blobs && d'.value.index == {} && Sound(d'.value) && !Complete(d'.value)
  {
    var d' := Commit(Data(map[], {}), Update(p), None, n).value;
    assert (Lifecycle(d'.blobs[p.id].state), p.id) !in d'.index;
  }

  function OneIndexed(p: Program): Data {
    Data(map[p.id := p], {(Lifecycle(p.state), p.id)})
  }

  /** A program indexed as queued, written by each trusting operation in a way it does not check. */
  lemma TrustingCallsBreakIndex(p: Program, base: nat)
    requires p.state == Queued
    ensures var d := OneIndexed(p);
            && Sound(d) && Complete(d)
            && !Sound(Exclusive(d, WriteExclusive(p.(state := Running)), base))
            && !Sound(Exclusive(d, FastTransition(p.(state := Done), Lifecycle(Running), Lifecycle(Done)), base))
            && !Sound(Exclusive(d, BatchState([p], Running, Done), base))
  {
    var d := OneIndexed(p);
    assert (Lifecycle(Queued), p.id) in d.index && p in [p];
    hide Exclusive;
    ExclusiveSoundIff(d, WriteExclusive(p.(state := Running)), base);
    ExclusiveSoundIff(d, FastTransition(p.(state := Done), Lifecycle(Running), Lifecycle(Done)), base);
    ExclusiveSoundIff(d, BatchState([p], Running, Done), base);
  }

  // ----- whole runs -----

  /** Unguarded calls of the history respect `CallerKeepsIndex` at the moment they ran. */
  ghost predicate CallersKeepIndex(d: Data, es: seq<Entry>)
    decreases |es|
  {
    es == [] ||
    ((es[0].Unguarded? ==> CallerKeepsIndex(d, es[0].x)) && CallersKeepIndex(ApplyEntry(d, es[0]), es[1..]))
  }

  /** Ids enter the store only through `add`, the transitions and the batches. */
  ghost predicate EntersIndexed(d: Data, e: Entry) {
    match e
    case Unguarded(x, _, _, _) => CallerKeepsIds(d, x)
    case Guarded(op, _) => op.Update? ==> op.program.id in d.blobs
  }

  ghost predicate IdsEnterIndexed(d: Data, es: seq<Entry>)
    decreases |es|
  {
    es == [] ||
    (EntersIndexed(d, es[0]) && IdsEnterIndexed(ApplyEntry(d, es[0]), es[1..]))
  }

  lemma ApplyKeepsKeyed(d: Data, e: Entry)
    requires Keyed(d)
    ensures Keyed(ApplyEntry(d, e))
  {
    match e
    case Guarded(op, n) =>
      if Commit(d, op, Lookup(d, op.program.id), n).Ok? {
        CommitFrame(d, op, Lookup(d, op.program.id), n);
      }
    case Unguarded(x, base, _, _) =>
      hide StateChunks, IdChunks, Chunks, Flatten;
      match x
      case BatchState(ps, prev, next) =>
        StateChunksKeyed(d, Chunks(ps, MGET_CHUNK_SIZE), prev, next, base);
      case BatchByIds(ids, prev, next) =>
        IdChunksKeyed(d, Chunks(ids, MGET_CHUNK_SIZE), prev, next, base);
      case _ =>
  }

  lemma {:induction false} StateChunksKeyed(d: Data, chunks: seq<seq<Program>>, prev: State, next: State, base: nat)
    requires Keyed(d)
    ensures Keyed(StateChunks(d, chunks, prev, next, base))
    decreases |chunks|
  {
    hide PutChunk;
    if chunks != [] {
      RedisBatch.PutChunkFrame(d, chunks[0], prev, next, base);
      StateChunksKeyed(PutChunk(d, chunks[0], prev, next, base), chunks[1..], prev, next, base + |chunks[0]|);
    }
  }

  lemma {:induction false} IdChunksKeyed(d: Data, chunks: seq<seq<Id>>, prev: State, next: State, base: nat)
    requires Keyed(d)
    ensures Keyed(IdChunks(d, chunks, prev, next, base).0)
    decreases |chunks|
  {
    hide PutChunk, Matching;
    if chunks != [] {
      var ps := Matching(d, chunks[0], prev);
      RedisBatch.PutChunkFrame(d, ps, prev, next, base);
      IdChunksKeyed(PutChunk(d, ps, prev, next, base), chunks[1..], prev, next, base + |ps|);
    }
  }

  lemma ApplyKeepsIndex(d: Data, e: Entry)
    requires Keyed(d) && Sound(d)
    requires e.Unguarded? ==> CallerKeepsIndex(d, e.x)
    ensures Sound(ApplyEntry(d, e))
    ensures Complete(d) && EntersIndexed(d, e) ==> Complete(ApplyEntry(d, e))
  {
    hide Exclusive, Commit;
    match e
    case Guarded(op, n) =>
      if Commit(d, op, Lookup(d, op.program.id), n).Ok? {
        CommitKeepsIndex(d, op, n);
      }
    case Unguarded(x, base, _, _) =>
      ExclusiveSoundIff(d, x, base);
      if Complete(d) {
        ExclusiveCompleteIff(d, x, base);
      }
  }

  lemma {:induction false} ReplayKeepsIndex(d: Data, es: seq<Entry>)
    requires Keyed(d) && Sound(d) && CallersKeepIndex(d, es)
    ensures Sound(Replay(d, es))
    ensures Complete(d) && IdsEnterIndexed(d, es) ==> Complete(Replay(d, es))
    decreases |es|
  {
    if es != [] {
      hide ApplyEntry, Sound, Complete;
      ApplyKeepsKeyed(d, es[0]);
      ApplyKeepsIndex(d, es[0]);
      ReplayKeepsIndex(ApplyEntry(d, es[0]), es[1..]);
    }
  }

  /** In every reachable state the index is sound; if ids enter only indexed, it is exact. */
  lemma ReachableIndex(s: System, actions: seq<Action>, es: seq<Entry>)
    requires Inv(s) && Sound(s.server.data)
    requires Run(s, actions).history == s.history + es
    requires CallersKeepIndex(s.server.data, es)
    ensures Sound(Run(s, actions).server.data)
    ensures Complete(s.server.data) && IdsEnterIndexed(s.server.data, es)
        ==> Complete(Run(s, actions).server.data)
  {
    hide Sound, Complete, Run;
    Serializable(s, actions);
    assert Run(s, actions).history[|s.history|..] == es;
    ReplayKeepsIndex(s.server.data, es);
  }

  // ----- the three ways to enumerate the store -----

  function Members(d: Data, st: Status): set<Id> {
    set e | e in d.index && e.0 == st :: e.1
  }

  /** SUNION over the status sets of the four states. */
  function SunionIds(d: Data): set<Id> {
    Members(d, Lifecycle(Queued)) + Members(d, Lifecycle(Running))
    + Members(d, Lifecycle(Done)) + Members(d, Lifecycle(Discarded))
  }

  /** SCARD summed over the same sets. */
  function ScardTotal(d: Data): nat {
    |Members(d, Lifecycle(Queued))| + |Members(d, Lifecycle(Running))|
    + |Members(d, Lifecycle(Done))| + |Members(d, Lifecycle(Discarded))|
  }

  lemma MemberInUnion(d: Data, id: Id, state: State)
    requires (Lifecycle(state), id) in d.index
    ensures id in SunionIds(d)
  {
    assert (Lifecycle(state), id).1 == id;
    assert id in Members(d, Lifecycle(state));
    match state
    case Queued =>
    case Running =>
    case Done =>
    case Discarded =>
  }

  lemma MembersDisjoint(d: Data, a: Status, b: Status)
    requires Sound(d) && a != b
    ensures Members(d, a) !! Members(d, b)
  {
    forall id | id in Members(d, a) ensures id !in Members(d, b) {
      assert (a, id) in d.index;
      assert (b, id) !in d.index by { assert (b, id).1 == (a, id).1; }
    }
  }

  lemma DisjointUnionSize(a: set<Id>, b: set<Id>, c: set<Id>, e: set<Id>)
    requires a !! b && a !! c && a !! e && b !! c && b !! e && c !! e
    ensures |a + b + c + e| == |a| + |b| + |c| + |e|
  {
    assert (a + b + c) !! e && (a + b) !! c;
  }

  lemma SizeIsUnion(d: Data)
    requires Sound(d)
    ensures ScardTotal(d) == |SunionIds(d)|
  {
    hide Sound, Members;
    var q, r, n, x := Lifecycle(Queued), Lifecycle(Running), Lifecycle(Done), Lifecycle(Discarded);
    MembersDisjoint(d, q, r);
    MembersDisjoint(d, q, n);
    MembersDisjoint(d, q, x);
    MembersDisjoint(d, r, n);
    MembersDisjoint(d, r, x);
    MembersDisjoint(d, n, x);
    DisjointUnionSize(Members(d, q), Members(d, r), Members(d, n), Members(d, x));
  }

  lemma UnionHasKeys(d: Data, id: Id)
    requires Sound(d)
    ensures id in SunionIds(d) ==> id in d.blobs && (Lifecycle(d.blobs[id].state), id) in d.index
    ensures id in d.blobs && (Lifecycle(d.blobs[id].state), id) in d.index ==> id in SunionIds(d)
  {
    if id in SunionIds(d) {
      var e :| e in d.index && e.1 == id;
      assert e == (Lifecycle(d.blobs[id].state), id);
    }
    if id in d.blobs && (Lifecycle(d.blobs[id].state), id) in d.index {
      MemberInUnion(d, id, d.blobs[id].state);
    }
  }

  /** With a sound index, `size` counts the ids of `get_all_program_ids`; both agree with the
      SCAN-based `get_all` exactly when the index is complete. */
  lemma EnumerationsAgree(d: Data)
    requires Sound(d)
    ensures SunionIds(d) <= d.blobs.Keys
    ensures ScardTotal(d) == |SunionIds(d)|
    ensures SunionIds(d) == d.blobs.Keys <==> Complete(d)
    ensures ScardTotal(d) == |d.blobs| <==> Complete(d)
  {
    hide SunionIds, ScardTotal, Sound;
    SizeIsUnion(d);
    forall id ensures id in SunionIds(d) <==> id in d.blobs && (Lifecycle(d.blobs[id].state), id) in d.index {
      UnionHasKeys(d, id);
    }
    SubsetSize(SunionIds(d), d.blobs.Keys);
  }
}
