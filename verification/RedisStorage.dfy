/** The storage operations that run without WATCH, in the original's imperative form: keys, status
    sets and the revision counter are changed command by command, batches chunk by chunk
    (gigaevo/database/redis_program_storage.py). */
module RedisStorage {
  import opened Basics
  import opened ProgramState
  import opened MergeStrategies
  import opened RedisData
  import RedisBatch
  import RedisIndex

  class RedisProgramStorage {
    var blobs: map<Id, Program>
    var index: set<(Status, Id)>
    var counter: nat

    ghost function Value(): Data
      reads this
    {
      Data(blobs, index)
    }

    constructor ()
      ensures Value() == Data(map[], {}) && counter == 0
    {
      blobs, index, counter := map[], {}, 0;
    }

    method IncrBy(n: nat) returns (r: nat)
      modifies this`counter
      ensures r == counter == old(counter) + n
    {
      counter := counter + n;
      r := counter;
    }

    method SetBlob(p: Program)
      modifies this`blobs
      ensures Value() == Put(old(Value()), p)
    {
      blobs := blobs[p.id := p];
    }

    method SRemove(status: Status, ids: set<Id>)
      modifies this`index
      ensures Value() == SRem(old(Value()), status, ids)
    {
      index := set e | e in index && !(e.0 == status && e.1 in ids);
    }

    method SAddAll(status: Status, ids: set<Id>)
      modifies this`index
      ensures Value() == SAdd(old(Value()), status, ids)
    {
      index := index + set id | id in ids :: (status, id);
    }

    method AddProgram(p: Program)
      modifies this
      ensures Value() == Exclusive(old(Value()), Add(p), old(counter))
      ensures counter == old(counter) + 1
      ensures blobs == old(blobs)[p.id := p.(atomicCounter := counter)]
      ensures forall st, id :: (st, id) in index <==>
                (id == p.id && st == Lifecycle(p.state))
                || ((st, id) in old(index)
                    && (id == p.id && id in old(blobs) ==> st != Lifecycle(old(blobs)[id].state)))
    {
      var oldStatus := None;
      if p.id in blobs {
        oldStatus := Some(blobs[p.id].state);
      }
      var n := IncrBy(1);
      SetBlob(Stamp(p, n));
      if oldStatus.Some? && oldStatus.value != p.state {
        SRemove(Lifecycle(oldStatus.value), {p.id});
      }
      SAddAll(Lifecycle(p.state), {p.id});
    }

    method RemoveProgram(id: Id)
      modifies this
      ensures Value() == Exclusive(old(Value()), Remove(id), old(counter))
      ensures counter == old(counter)
      ensures blobs == old(blobs) - {id}
      ensures forall st, j :: (st, j) in index <==>
                (st, j) in old(index)
                && (j == id && id in old(blobs) ==> st != Lifecycle(old(blobs)[id].state))
      ensures RedisIndex.Sound(old(Value())) ==>
                RedisIndex.Sound(Value()) && forall st, j :: (st, j) in index <==> j != id && (st, j) in old(index)
    {
      var oldStatus := None;
      if id in blobs {
        oldStatus := Some(blobs[id].state);
      }
      blobs := blobs - {id};
      if oldStatus.Some? {
        SRemove(Lifecycle(oldStatus.value), {id});
      }
    }

    method WriteProgramExclusive(p: Program)
      modifies this
      ensures Value() == Exclusive(old(Value()), WriteExclusive(p), old(counter))
      ensures counter == old(counter) + 1
      ensures blobs == old(blobs)[p.id := p.(atomicCounter := counter)] && index == old(index)
    {
      var n := IncrBy(1);
      SetBlob(Stamp(p, n));
    }

    method FastStateTransition(p: Program, fromSet: Status, toSet: Status)
      modifies this
      ensures Value() == Exclusive(old(Value()), FastTransition(p, fromSet, toSet), old(counter))
      ensures counter == old(counter) + 1
      ensures blobs == old(blobs)[p.id := p.(atomicCounter := counter)]
      ensures forall st, id :: (st, id) in index <==>
                (id == p.id && st == toSet) || ((st, id) in old(index) && !(id == p.id && st == fromSet))
    {
      var n := IncrBy(1);
      SetBlob(Stamp(p, n));
      if fromSet != toSet {
        SRemove(fromSet, {p.id});
      }
      SAddAll(toSet, {p.id});
    }

    /** SET each program of a chunk, numbering them from `start`; `moved` are the caller's objects after it. */
    method SetEach(ps: seq<Program>, next: State, start: nat) returns (ids: set<Id>, moved: seq<Program>)
      requires start > 0
      modifies this`blobs
      ensures ids == Ids(ps) && moved == WithState(ps, next)
      ensures Value() == PutAll(old(Value()), WithState(ps, next), start - 1)
    {
      hide PutAll, Put, Stamp, WithState, Ids;
      ids, moved := {}, [];
      IdsEmpty(ps);
      ghost var all := WithState(ps, next);
      ghost var goal := PutAll(Value(), all, start - 1);
      var i := 0;
      while i < |ps|
        invariant 0 <= i <= |ps|
        invariant ids == Ids(ps[..i]) && moved == all[..i]
        invariant PutAll(Value(), all[i..], start - 1 + i) == goal
      {
        var p := ps[i].(state := next);
        IdsSnoc(ps, i);
        PutAllAt(Value(), all, i, start - 1 + i);
        SetBlob(Stamp(p, start + i));
        ids := ids + {p.id};
        moved := moved + [p];
        i := i + 1;
      }
      assert ps[..|ps|] == ps;
      PutAllAt(Value(), all, |ps|, start - 1 + |ps|);
    }

    /** SET each program of a chunk, then one bulk SREM and one bulk SADD. */
    method SendChunk(ps: seq<Program>, prev: State, next: State) returns (moved: seq<Program>)
      requires ps != []
      modifies this
      ensures moved == WithState(ps, next)
      ensures Value() == PutChunk(old(Value()), ps, prev, next, old(counter))
      ensures counter == old(counter) + |ps|
    {
      hide PutAll, WithState, SRem, SAdd;
      var end := IncrBy(|ps|);
      var ids;
      ids, moved := SetEach(ps, next, end - |ps| + 1);
      SRemove(Lifecycle(prev), ids);
      SAddAll(Lifecycle(next), ids);
    }

    method SendStateChunks(chunks: seq<seq<Program>>, prev: State, next: State)
      returns (count: nat, moved: seq<Program>)
      requires forall c :: c in chunks ==> c != []
      modifies this
      ensures count == |Flatten(chunks)| && moved == WithState(Flatten(chunks), next)
      ensures Value() == StateChunks(old(Value()), chunks, prev, next, old(counter))
      ensures counter == old(counter) + count
    {
      hide PutChunk, WithState;
      count, moved := 0, [];
      MovedConcat([], [], next);
      var k := 0;
      while k < |chunks|
        invariant 0 <= k <= |chunks|
        invariant count == |Flatten(chunks[..k])| && moved == WithState(Flatten(chunks[..k]), next)
        invariant counter == old(counter) + count
        invariant Value() == StateChunks(old(Value()), chunks[..k], prev, next, old(counter))
      {
        hide StateChunks, Flatten;
        var c := chunks[k];
        assert c in chunks;
        assert chunks[..k + 1] == chunks[..k] + [c];
        StateChunksSplit(old(Value()), chunks[..k], c, prev, next, old(counter));
        FlattenSnoc(chunks[..k], c);
        MovedConcat(Flatten(chunks[..k]), c, next);
        var movedNow := SendChunk(c, prev, next);
        moved := moved + movedNow;
        count := count + |c|;
        k := k + 1;
      }
      assert chunks[..|chunks|] == chunks;
    }

    /** `moved` are the caller's own objects afterwards: an accepted call assigns them the new state. */
    method BatchTransitionState(programs: seq<Program>, prev: State, next: State)
      returns (r: Result<nat, ()>, moved: seq<Program>)
      modifies this
      ensures moved == if ValidTransition(prev, next) then WithState(programs, next) else programs
      ensures r == if programs == [] || ValidTransition(prev, next) then Ok(|programs|) else Err(())
      ensures Value() == Exclusive(old(Value()), BatchState(programs, prev, next), old(counter))
      ensures counter == old(counter) + Width(old(Value()), BatchState(programs, prev, next), old(counter))
      ensures counter == old(counter) + if ValidTransition(prev, next) then |programs| else 0
      ensures if ValidTransition(prev, next)
              then RedisBatch.WrittenInOrder(old(blobs), blobs, programs, next, old(counter))
                   && RedisIndex.Moved(old(index), index, set p | p in programs :: p.id, prev, next)
              else Value() == old(Value())
    {
      if ValidTransition(prev, next) {
        RedisIndex.BatchStateDoes(Value(), programs, prev, next, counter);
      }
      hide StateChunks, IdChunks, Flatten, Chunks;
      if programs == [] {
        EmptyBatch(Value(), prev, next, counter);
        return Ok(0), [];
      }
      if !ValidTransition(prev, next) {
        return Err(()), programs;
      }
      ChunksCover(programs, MGET_CHUNK_SIZE);
      var count;
      count, moved := SendStateChunks(Chunks(programs, MGET_CHUNK_SIZE), prev, next);
      return Ok(count), moved;
    }

    /** The patch list of one chunk: stored programs whose state is `prev`. */
    method SelectMatching(ids: seq<Id>, prev: State) returns (toPatch: seq<Program>)
      ensures toPatch == Matching(Value(), ids, prev)
    {
      toPatch := [];
      var i := 0;
      while i < |ids|
        invariant 0 <= i <= |ids|
        invariant toPatch == Matching(Value(), ids[..i], prev)
      {
        hide Matching;
        assert ids[..i + 1] == ids[..i] + [ids[i]];
        RedisBatch.MatchingSplit(Value(), ids[..i], [ids[i]], prev);
        MatchingOne(Value(), ids[i], prev);
        if ids[i] in blobs && blobs[ids[i]].state == prev {
          toPatch := toPatch + [blobs[ids[i]]];
        }
        i := i + 1;
      }
      assert ids[..|ids|] == ids;
    }

    method PatchIdChunks(chunks: seq<seq<Id>>, prev: State, next: State) returns (count: nat)
      modifies this
      ensures (Value(), count) == IdChunks(old(Value()), chunks, prev, next, old(counter))
      ensures counter == old(counter) + count
    {
      hide PutChunk, Matching;
      count := 0;
      var k := 0;
      while k < |chunks|
        invariant 0 <= k <= |chunks|
        invariant counter == old(counter) + count
        invariant (Value(), count) == IdChunks(old(Value()), chunks[..k], prev, next, old(counter))
      {
        hide IdChunks;
        assert chunks[..k + 1] == chunks[..k] + [chunks[k]];
        IdChunksSplit(old(Value()), chunks[..k], chunks[k], prev, next, old(counter));
        var toPatch := SelectMatching(chunks[k], prev);
        SendMatching(toPatch, prev, next);
        count := count + |toPatch|;
        k := k + 1;
      }
      assert chunks[..|chunks|] == chunks;
    }

    method BatchTransitionByIds(ids: seq<Id>, prev: State, next: State)
      returns (r: Result<nat, ()>)
      modifies this
      ensures var op := BatchByIds(ids, prev, next);
              && r == (if ids == [] || ValidTransition(prev, next)
                       then Ok(Width(old(Value()), op, old(counter))) else Err(()))
              && Value() == Exclusive(old(Value()), op, old(counter))
              && counter == old(counter) + Width(old(Value()), op, old(counter))
      ensures !ValidTransition(prev, next) ==> Value() == old(Value())
      ensures ValidTransition(prev, next) && Keyed(old(Value())) && Distinct(ids) ==>
                var moved := set id | id in ids && id in old(blobs) && old(blobs)[id].state == prev;
                && r == Ok(|moved|) && counter == old(counter) + |moved|
                && blobs.Keys == old(blobs).Keys
                && (forall id :: id in blobs ==>
                      if id in moved
                      then RedisIndex.MovedTo(old(blobs)[id], blobs[id], next)
                           && old(counter) < blobs[id].atomicCounter <= counter
                      else blobs[id] == old(blobs)[id])
                && RedisIndex.Moved(old(index), index, moved, prev, next)
    {
      if ValidTransition(prev, next) && Keyed(Value()) && Distinct(ids) {
        RedisIndex.BatchByIdsDoes(Value(), ids, prev, next, counter);
      }
      hide StateChunks, IdChunks, Chunks;
      if ids == [] {
        EmptyBatch(Value(), prev, next, counter);
        return Ok(0);
      }
      if !ValidTransition(prev, next) {
        return Err(());
      }
      var count := PatchIdChunks(Chunks(ids, MGET_CHUNK_SIZE), prev, next);
      return Ok(count);
    }

    method SendMatching(ps: seq<Program>, prev: State, next: State)
      modifies this
      ensures Value() == PutChunk(old(Value()), ps, prev, next, old(counter))
      ensures counter == old(counter) + |ps|
    {
      if ps != [] {
        var _ := SendChunk(ps, prev, next);
      }
    }
  }

  lemma MovedConcat(a: seq<Program>, b: seq<Program>, next: State)
    ensures WithState(a + b, next) == WithState(a, next) + WithState(b, next)
    ensures WithState([], next) == []
  {
  }

  lemma MatchingOne(d: Data, id: Id, prev: State)
    ensures Matching(d, [id], prev)
         == if id in d.blobs && d.blobs[id].state == prev then [d.blobs[id]] else []
  {
    assert [id][1..] == [];
  }

  lemma EmptyBatch(d: Data, prev: State, next: State, base: nat)
    ensures StateChunks(d, Chunks([], MGET_CHUNK_SIZE), prev, next, base) == d
    ensures IdChunks(d, Chunks([], MGET_CHUNK_SIZE), prev, next, base) == (d, 0)
  {
  }

  lemma IdsEmpty(ps: seq<Program>)
    ensures Ids(ps[..0]) == {}
  {
  }

  lemma IdsSnoc(ps: seq<Program>, i: nat)
    requires i < |ps|
    ensures Ids(ps[..i + 1]) == Ids(ps[..i]) + {ps[i].id}
  {
    assert ps[..i + 1] == ps[..i] + [ps[i]];
  }

  lemma {:induction false} FlattenSnoc<T>(chunks: seq<seq<T>>, last: seq<T>)
    ensures Flatten(chunks + [last]) == Flatten(chunks) + last
  {
    var all := chunks + [last];
    if chunks == [] {
      assert all[1..] == [];
    } else {
      assert all[1..] == chunks[1..] + [last];
      FlattenSnoc(chunks[1..], last);
    }
  }
}
