/** The raw-blob batch transition refines moving the matching programs one at a time
    (gigaevo/database/redis_program_storage.py, gigaevo/database/program_storage.py). */
module RedisBatch {
  import opened Basics
  import opened ProgramState
  import opened MergeStrategies
  import opened RedisData

  /** The simple form: one merging state transition per program, each with its own counter. */
  function OneByOne(d: Data, ps: seq<Program>, prev: State, next: State, base: nat): Data
    decreases |ps|
  {
    if ps == [] then d
    else
      var op := Transition(ps[0].(state := next), Some(Lifecycle(prev)));
      match Commit(d, op, Lookup(d, ps[0].id), base + 1)
      case Ok(d') => OneByOne(d', ps[1..], prev, next, base + 1)
      case Err(_) => d
  }

  ghost predicate DistinctIds(ps: seq<Program>) {
    forall i, j :: 0 <= i < j < |ps| ==> ps[i].id != ps[j].id
  }

  /** `ps` are programs of `d` in state `prev`, without repetition. */
  ghost predicate StoredIn(d: Data, ps: seq<Program>, prev: State) {
    && DistinctIds(ps)
    && forall p :: p in ps ==> p.id in d.blobs && d.blobs[p.id] == p && p.state == prev
  }

  /** Merging a stored program with its own copy in another state only changes the state. */
  lemma MergeOwnCopy(p: Program, next: State)
    requires ValidTransition(p.state, next)
    ensures MergePrograms(Some(p), p.(state := next)) == Ok(p.(state := next))
  {
    var copy := p.(state := next);
    MergeStatesSymmetric(p.state, next);
    MergeIsNoOpIffAbsorbed(p, copy);
    var m := MergePrograms(Some(p), copy).value;
    assert SameData(m, p);
  }

  function Moved(d: Data, p: Program, prev: State, next: State, base: nat): Data {
    MoveIds(Put(d, Stamp(p.(state := next), base + 1)), prev, next, {p.id})
  }

  lemma OneStep(d: Data, p: Program, prev: State, next: State, base: nat)
    requires StoredIn(d, [p], prev) && ValidTransition(prev, next)
    ensures Commit(d, Transition(p.(state := next), Some(Lifecycle(prev))), Lookup(d, p.id), base + 1)
         == Ok(Moved(d, p, prev, next, base))
  {
    assert p in [p];
    MergeOwnCopy(p, next);
    var got := Commit(d, Transition(p.(state := next), Some(Lifecycle(prev))), Lookup(d, p.id), base + 1);
    assert got.value.index == Moved(d, p, prev, next, base).index;
  }

  lemma OneByOneCons(d: Data, p: Program, ps: seq<Program>, prev: State, next: State, base: nat)
    requires StoredIn(d, [p], prev) && ValidTransition(prev, next)
    ensures OneByOne(d, [p] + ps, prev, next, base)
         == OneByOne(Moved(d, p, prev, next, base), ps, prev, next, base + 1)
  {
    OneStep(d, p, prev, next, base);
    assert ([p] + ps)[1..] == ps;
  }

  lemma MovedKeepsStored(d: Data, ps: seq<Program>, prev: State, next: State, base: nat)
    requires ps != [] && StoredIn(d, ps, prev)
    ensures StoredIn(d, [ps[0]], prev)
    ensures StoredIn(Moved(d, ps[0], prev, next, base), ps[1..], prev)
  {
    assert ps[0] in ps;
    forall p | p in ps[1..] ensures p in ps && p.id != ps[0].id {
    }
  }

  lemma MoveIdsUnion(d: Data, prev: State, next: State, a: set<Id>, b: set<Id>)
    ensures MoveIds(MoveIds(d, prev, next, a), prev, next, b) == MoveIds(d, prev, next, a + b)
  {
    assert MoveIds(MoveIds(d, prev, next, a), prev, next, b).index == MoveIds(d, prev, next, a + b).index;
  }

  lemma {:induction false} PutAllIgnoresIndex(d: Data, e: Data, ps: seq<Program>, base: nat)
    requires d.blobs == e.blobs
    ensures PutAll(d, ps, base).blobs == PutAll(e, ps, base).blobs
    decreases |ps|
  {
    if ps != [] {
      PutAllIgnoresIndex(Put(d, Stamp(ps[0], base + 1)), Put(e, Stamp(ps[0], base + 1)), ps[1..], base + 1);
    }
  }

  lemma IdsCons(ps: seq<Program>)
    requires ps != []
    ensures Ids(ps) == {ps[0].id} + Ids(ps[1..])
  {
    assert ps == [ps[0]] + ps[1..];
  }

  lemma {:induction false} PutChunkCons(d: Data, ps: seq<Program>, prev: State, next: State, base: nat)
    requires ps != []
    ensures PutChunk(d, ps, prev, next, base)
         == PutChunk(Moved(d, ps[0], prev, next, base), ps[1..], prev, next, base + 1)
  {
    var p, rest := ps[0], ps[1..];
    var d1 := Put(d, Stamp(p.(state := next), base + 1));
    var d' := Moved(d, p, prev, next, base);
    IdsCons(ps);
    assert WithState(ps, next)[1..] == WithState(rest, next);
    var last := PutAll(d1, WithState(rest, next), base + 1);
    assert PutAll(d, WithState(ps, next), base) == last;
    PutAllIgnoresIndex(d1, d', WithState(rest, next), base + 1);
    MoveIdsUnion(last, prev, next, {p.id}, Ids(rest));
    if rest == [] {
      assert WithState(rest, next) == [];
      assert {p.id} + Ids(rest) == {p.id};
    } else {
      var got := PutChunk(d', rest, prev, next, base + 1);
      assert got.blobs == last.blobs;
      assert got.index == MoveIds(MoveIds(last, prev, next, {p.id}), prev, next, Ids(rest)).index;
    }
  }

  lemma {:induction false} ChunkIsOneByOne(d: Data, ps: seq<Program>, prev: State, next: State, base: nat)
    requires StoredIn(d, ps, prev) && ValidTransition(prev, next)
    ensures OneByOne(d, ps, prev, next, base) == PutChunk(d, ps, prev, next, base)
    decreases |ps|
  {
    if ps != [] {
      MovedKeepsStored(d, ps, prev, next, base);
      assert ps == [ps[0]] + ps[1..];
      OneByOneCons(d, ps[0], ps[1..], prev, next, base);
      ChunkIsOneByOne(Moved(d, ps[0], prev, next, base), ps[1..], prev, next, base + 1);
      PutChunkCons(d, ps, prev, next, base);
    }
  }

  lemma {:induction false} OneByOneSplit(d: Data, ps: seq<Program>, qs: seq<Program>,
      prev: State, next: State, base: nat)
    requires StoredIn(d, ps, prev) && ValidTransition(prev, next)
    ensures OneByOne(d, ps + qs, prev, next, base)
         == OneByOne(OneByOne(d, ps, prev, next, base), qs, prev, next, base + |ps|)
    decreases |ps|
  {
    hide Commit, Moved;
    if ps == [] {
      assert ps + qs == qs;
    } else {
      var p, rest := ps[0], ps[1..];
      MovedKeepsStored(d, ps, prev, next, base);
      assert ps == [p] + rest;
      assert ps + qs == [p] + (rest + qs);
      OneByOneCons(d, p, rest, prev, next, base);
      OneByOneCons(d, p, rest + qs, prev, next, base);
      OneByOneSplit(Moved(d, p, prev, next, base), rest, qs, prev, next, base + 1);
    }
  }

  lemma {:induction false} MatchingSplit(d: Data, a: seq<Id>, b: seq<Id>, prev: State)
    ensures Matching(d, a + b, prev) == Matching(d, a, prev) + Matching(d, b, prev)
  {
    if a == [] {
      assert a + b == b;
    } else {
      assert (a + b)[1..] == a[1..] + b;
      MatchingSplit(d, a[1..], b, prev);
    }
  }

  lemma {:induction false} MatchingStored(d: Data, ids: seq<Id>, prev: State)
    requires Keyed(d) && Distinct(ids)
    ensures StoredIn(d, Matching(d, ids, prev), prev)
    ensures Ids(Matching(d, ids, prev)) <= Elements(ids)
  {
    if ids != [] {
      MatchingStored(d, ids[1..], prev);
      var rest := Matching(d, ids[1..], prev);
      assert forall p :: p in rest ==> p.id in Ids(rest);
      assert ids[0] !in Elements(ids[1..]);
      assert Elements(ids[1..]) <= Elements(ids);
      var r := Matching(d, ids, prev);
      if r != rest {
        assert r == [d.blobs[ids[0]]] + rest;
      }
    }
  }

  lemma {:induction false} MatchingFrame(d: Data, e: Data, ids: seq<Id>, prev: State)
    requires forall id :: id in ids ==> Lookup(d, id) == Lookup(e, id)
    ensures Matching(d, ids, prev) == Matching(e, ids, prev)
  {
    if ids != [] {
      assert forall id :: id in ids[1..] ==> id in ids;
      assert Lookup(d, ids[0]) == Lookup(e, ids[0]);
      MatchingFrame(d, e, ids[1..], prev);
    }
  }

  lemma {:induction false} PutAllFrame(d: Data, ps: seq<Program>, base: nat)
    requires Keyed(d)
    ensures Keyed(PutAll(d, ps, base))
    ensures forall id :: id !in Ids(ps) ==> Lookup(PutAll(d, ps, base), id) == Lookup(d, id)
    decreases |ps|
  {
    if ps != [] {
      IdsCons(ps);
      PutAllFrame(Put(d, Stamp(ps[0], base + 1)), ps[1..], base + 1);
    }
  }

  lemma PutChunkFrame(d: Data, ps: seq<Program>, prev: State, next: State, base: nat)
    requires Keyed(d)
    ensures Keyed(PutChunk(d, ps, prev, next, base))
    ensures forall id :: id !in Ids(ps) ==> Lookup(PutChunk(d, ps, prev, next, base), id) == Lookup(d, id)
  {
    var qs := WithState(ps, next);
    PutAllFrame(d, qs, base);
    assert Ids(qs) <= Ids(ps) by {
      forall q | q in qs ensures q.id in Ids(ps) {
        var i :| 0 <= i < |qs| && qs[i] == q;
        assert ps[i] in ps;
      }
    }
  }

  /** One chunk, seen from the one-at-a-time side. */
  lemma ChunkStep(d: Data, c: seq<Id>, rest: seq<Id>, prev: State, next: State, base: nat)
    requires Keyed(d) && Distinct(c + rest) && ValidTransition(prev, next)
    ensures var ps := Matching(d, c, prev);
            var d' := PutChunk(d, ps, prev, next, base);
            && Keyed(d')
            && |Matching(d, c + rest, prev)| == |ps| + |Matching(d', rest, prev)|
            && OneByOne(d, Matching(d, c + rest, prev), prev, next, base)
               == OneByOne(d', Matching(d', rest, prev), prev, next, base + |ps|)
  {
    hide Commit, PutChunk, OneByOne, Matching;
    var all := c + rest;
    assert c == all[..|c|] && rest == all[|c|..];
    var ps := Matching(d, c, prev);
    var d' := PutChunk(d, ps, prev, next, base);
    MatchingStored(d, c, prev);
    ChunkIsOneByOne(d, ps, prev, next, base);
    PutChunkFrame(d, ps, prev, next, base);
    forall id | id in rest ensures Lookup(d', id) == Lookup(d, id) {
      var j :| |c| <= j < |all| && all[j] == id;
      assert id !in Elements(c);
    }
    MatchingFrame(d, d', rest, prev);
    MatchingSplit(d, c, rest, prev);
    OneByOneSplit(d, ps, Matching(d, rest, prev), prev, next, base);
  }

  lemma {:induction false} IdChunksAreOneByOne(d: Data, chunks: seq<seq<Id>>, prev: State, next: State, base: nat)
    requires Keyed(d) && Distinct(Flatten(chunks)) && ValidTransition(prev, next)
    ensures var ps := Matching(d, Flatten(chunks), prev);
            IdChunks(d, chunks, prev, next, base) == (OneByOne(d, ps, prev, next, base), |ps|)
    decreases |chunks|
  {
    hide Commit, PutChunk;
    if chunks != [] {
      hide OneByOne, Matching;
      var c, rest := chunks[0], Flatten(chunks[1..]);
      assert rest == (c + rest)[|c|..];
      ChunkStep(d, c, rest, prev, next, base);
      var ps := Matching(d, c, prev);
      IdChunksAreOneByOne(PutChunk(d, ps, prev, next, base), chunks[1..], prev, next, base + |ps|);
    }
  }

  /** Raw batch patching, chunk by chunk, leaves exactly the blobs (counters included), the status
      sets and the count that moving the matching programs one at a time would leave. */
  lemma RawBatchRefinesOneByOne(d: Data, ids: seq<Id>, prev: State, next: State, base: nat)
    requires Keyed(d) && Distinct(ids) && ValidTransition(prev, next)
    ensures var ps := Matching(d, ids, prev);
            && Exclusive(d, BatchByIds(ids, prev, next), base) == OneByOne(d, ps, prev, next, base)
            && Width(d, BatchByIds(ids, prev, next), base) == |ps|
  {
    hide IdChunks, OneByOne, Matching, Flatten, Chunks;
    ChunksCover(ids, MGET_CHUNK_SIZE);
    IdChunksAreOneByOne(d, Chunks(ids, MGET_CHUNK_SIZE), prev, next, base);
  }

  lemma StoredInFrame(d: Data, c: seq<Program>, rest: seq<Program>, prev: State, next: State, base: nat)
    requires Keyed(d) && StoredIn(d, c + rest, prev)
    ensures StoredIn(d, c, prev)
    ensures Keyed(PutChunk(d, c, prev, next, base))
    ensures StoredIn(PutChunk(d, c, prev, next, base), rest, prev)
  {
    hide PutChunk;
    var all := c + rest;
    assert c == all[..|c|] && rest == all[|c|..];
    PutChunkFrame(d, c, prev, next, base);
    var d' := PutChunk(d, c, prev, next, base);
    forall p | p in rest ensures p.id in d'.blobs && d'.blobs[p.id] == p {
      var j :| |c| <= j < |all| && all[j] == p;
      assert p.id !in Ids(c) by {
        forall q | q in c ensures q.id != p.id {
          var i :| 0 <= i < |c| && all[i] == q;
        }
      }
      assert Lookup(d', p.id) == Lookup(d, p.id);
    }
    forall p | p in c ensures p in all {}
  }

  lemma {:induction false} StateChunksAreOneByOne(d: Data, chunks: seq<seq<Program>>,
      prev: State, next: State, base: nat)
    requires Keyed(d) && StoredIn(d, Flatten(chunks), prev) && ValidTransition(prev, next)
    ensures StateChunks(d, chunks, prev, next, base) == OneByOne(d, Flatten(chunks), prev, next, base)
    decreases |chunks|
  {
    hide Commit, PutChunk;
    if chunks != [] {
      hide OneByOne;
      var c, rest := chunks[0], Flatten(chunks[1..]);
      StoredInFrame(d, c, rest, prev, next, base);
      ChunkIsOneByOne(d, c, prev, next, base);
      OneByOneSplit(d, c, rest, prev, next, base);
      StateChunksAreOneByOne(PutChunk(d, c, prev, next, base), chunks[1..], prev, next, base + |c|);
    }
  }

  /** The pipelined batch over programs equals the default loop of merging transitions whenever the
      caller passes the stored programs themselves. */
  lemma BatchStateRefinesOneByOne(d: Data, ps: seq<Program>, prev: State, next: State, base: nat)
    requires Keyed(d) && StoredIn(d, ps, prev) && ValidTransition(prev, next)
    ensures Exclusive(d, BatchState(ps, prev, next), base) == OneByOne(d, ps, prev, next, base)
  {
    hide StateChunks, OneByOne, Flatten, Chunks, StoredIn;
    ChunksCover(ps, MGET_CHUNK_SIZE);
    StateChunksAreOneByOne(d, Chunks(ps, MGET_CHUNK_SIZE), prev, next, base);
  }

  // ----- what the batches write -----

  lemma {:induction false} PutAllConcat(d: Data, a: seq<Program>, b: seq<Program>, base: nat)
    ensures PutAll(d, a + b, base) == PutAll(PutAll(d, a, base), b, base + |a|)
    decreases |a|
  {
    if a == [] {
      assert a + b == b;
    } else {
      assert (a + b)[1..] == a[1..] + b;
      PutAllConcat(Put(d, Stamp(a[0], base + 1)), a[1..], b, base + 1);
    }
  }

  lemma {:induction false} StateChunksBlobs(d: Data, chunks: seq<seq<Program>>, prev: State, next: State, base: nat)
    ensures StateChunks(d, chunks, prev, next, base).blobs
         == PutAll(d, WithState(Flatten(chunks), next), base).blobs
    decreases |chunks|
  {
    hide PutAll, WithState;
    if chunks == [] {
      NothingPut(d, next, base);
    } else {
      var c, rest := chunks[0], Flatten(chunks[1..]);
      var d1 := PutChunk(d, c, prev, next, base);
      StateChunksBlobs(d1, chunks[1..], prev, next, base + |c|);
      assert WithState(c + rest, next) == WithState(c, next) + WithState(rest, next);
      PutAllConcat(d, WithState(c, next), WithState(rest, next), base);
      PutAllIgnoresIndex(d1, PutAll(d, WithState(c, next), base), WithState(rest, next), base + |c|) by {
        NothingPut(d, next, base);
      }
    }
  }

  lemma NothingPut(d: Data, next: State, base: nat)
    ensures WithState([], next) == [] && PutAll(d, [], base) == d
  {
  }

  /** The last place of `id` in `ps`, or -1. */
  function LastOf(ps: seq<Program>, id: Id): (i: int)
    ensures -1 <= i < |ps| && (i >= 0 ==> ps[i].id == id)
    ensures forall j :: i < j < |ps| ==> ps[j].id != id
  {
    if ps == [] then -1
    else if ps[|ps| - 1].id == id then |ps| - 1
    else LastOf(ps[..|ps| - 1], id)
  }

  /** Each program is stored in the new state under the counter of its place in the batch, the last
      occurrence of an id counting; no other blob changes. */
  ghost predicate WrittenInOrder(before: map<Id, Program>, after: map<Id, Program>, ps: seq<Program>,
      next: State, base: nat)
  {
    forall id :: WrittenAt(before, after, ps, next, base, id)
  }

  ghost predicate WrittenAt(before: map<Id, Program>, after: map<Id, Program>, ps: seq<Program>,
      next: State, base: nat, id: Id)
  {
    var i := LastOf(ps, id);
    if i >= 0 then id in after && after[id] == ps[i].(state := next, atomicCounter := base + i + 1)
    else (id in after <==> id in before) && (id in before ==> after[id] == before[id])
  }

  lemma {:induction false} PutAllWritten(d: Data, ps: seq<Program>, next: State, base: nat)
    ensures WrittenInOrder(d.blobs, PutAll(d, WithState(ps, next), base).blobs, ps, next, base)
    decreases |ps|
  {
    hide WithState, PutAll;
    if ps == [] {
      NothingPut(d, next, base);
    } else {
      hide WrittenInOrder;
      var init, last := ps[..|ps| - 1], ps[|ps| - 1];
      assert ps == init + [last];
      PutAllWritten(d, init, next, base);
      assert WithState(ps, next) == WithState(init, next) + [last.(state := next)];
      PutAllConcat(d, WithState(init, next), [last.(state := next)], base);
      var mid := PutAll(d, WithState(init, next), base);
      PutOne(mid, last.(state := next), base + |init|);
      WrittenSnoc(d.blobs, mid.blobs, init, last, next, base);
    }
  }

  lemma WrittenSnoc(before: map<Id, Program>, mid: map<Id, Program>, init: seq<Program>, last: Program,
      next: State, base: nat)
    requires WrittenInOrder(before, mid, init, next, base)
    ensures WrittenInOrder(before, mid[last.id := last.(state := next, atomicCounter := base + |init| + 1)],
                           init + [last], next, base)
  {
    var ps, after := init + [last], mid[last.id := last.(state := next, atomicCounter := base + |init| + 1)];
    assert ps[..|init|] == init && ps[|init|] == last;
    forall id ensures WrittenAt(before, after, ps, next, base, id) {
      assert WrittenAt(before, mid, init, next, base, id);
      if last.id != id {
        assert LastOf(ps, id) == LastOf(init, id);
      }
    }
  }

  lemma LastOfIds(ps: seq<Program>, id: Id)
    ensures id in Ids(ps) <==> LastOf(ps, id) >= 0
  {
    if id in Ids(ps) {
      var p :| p in ps && p.id == id;
      var j :| 0 <= j < |ps| && ps[j] == p;
    }
    if LastOf(ps, id) >= 0 {
      assert ps[LastOf(ps, id)] in ps;
    }
  }

  lemma {:induction false} IdsSize(ps: seq<Program>)
    requires DistinctIds(ps)
    ensures |Ids(ps)| == |ps|
  {
    if ps == [] {
      assert Ids(ps) == {};
    } else {
      IdsCons(ps);
      IdsSize(ps[1..]);
      assert ps[0].id !in Ids(ps[1..]);
    }
  }

  lemma PutOne(d: Data, p: Program, base: nat)
    ensures PutAll(d, [p], base).blobs == d.blobs[p.id := p.(atomicCounter := base + 1)]
  {
    assert [p][1..] == [];
  }

  /** The accepted pipelined batch, on the blobs. */
  lemma BatchStateWrites(d: Data, ps: seq<Program>, prev: State, next: State, base: nat)
    requires ValidTransition(prev, next)
    ensures WrittenInOrder(d.blobs, Exclusive(d, BatchState(ps, prev, next), base).blobs, ps, next, base)
  {
    hide StateChunks, PutAll, Chunks, Flatten, WithState, WrittenInOrder;
    ChunksCover(ps, MGET_CHUNK_SIZE);
    StateChunksBlobs(d, Chunks(ps, MGET_CHUNK_SIZE), prev, next, base);
    PutAllWritten(d, ps, next, base);
  }

  /** The accepted raw batch writes exactly the stored programs among the ids that are in the old state, in
      the order of the ids, and reserves one counter for each. */
  lemma BatchByIdsWrites(d: Data, ids: seq<Id>, prev: State, next: State, base: nat)
    requires Keyed(d) && Distinct(ids) && ValidTransition(prev, next)
    ensures var ps := Matching(d, ids, prev);
            && WrittenInOrder(d.blobs, Exclusive(d, BatchByIds(ids, prev, next), base).blobs, ps, next, base)
            && Width(d, BatchByIds(ids, prev, next), base) == |ps|
  {
    hide IdChunks, OneByOne, PutAll, Chunks, WithState, WrittenInOrder, Matching;
    var ps := Matching(d, ids, prev);
    RawBatchRefinesOneByOne(d, ids, prev, next, base);
    MatchingStored(d, ids, prev);
    ChunkIsOneByOne(d, ps, prev, next, base);
    PutAllWritten(d, ps, next, base);
    if ps == [] {
      NothingPut(d, next, base);
    }
  }
}
