/** The program blobs and the status-set index kept in Redis, and the effect of every storage
    operation on them as one transaction (gigaevo/database/redis_program_storage.py). */
module RedisData {
  import opened Basics
  import opened ProgramState
  import opened MergeStrategies

  /** The name of a status set: one of the four lifecycle states, or any other string a caller passes. */
  datatype Status = Lifecycle(state: State) | Other(name: string)

  datatype Data = Data(blobs: map<Id, Program>, index: set<(Status, Id)>)

  const MGET_CHUNK_SIZE := 1024

  function Lookup(d: Data, id: Id): Option<Program> {
    if id in d.blobs then Some(d.blobs[id]) else None
  }

  ghost predicate Keyed(d: Data) {
    KeyedById(d.blobs)
  }

  // ----- commands -----

  function Put(d: Data, p: Program): Data {
    d.(blobs := d.blobs[p.id := p])
  }

  function Delete(d: Data, id: Id): Data {
    d.(blobs := d.blobs - {id})
  }

  function SRem(d: Data, status: Status, ids: set<Id>): Data {
    d.(index := set e | e in d.index && !(e.0 == status && e.1 in ids))
  }

  function SAdd(d: Data, status: Status, ids: set<Id>): Data {
    d.(index := d.index + set id | id in ids :: (status, id))
  }

  // ----- WATCH-guarded operations: what EXEC writes, given what GET returned -----

  datatype GuardedOp =
    | Update(program: Program)
    | Transition(program: Program, oldState: Option<Status>)

  function StaleSets(oldState: Option<Status>, seen: Option<Program>, actual: Status): set<Status> {
    (if oldState.Some? then {oldState.value} else {})
    + (if seen.Some? then {Lifecycle(seen.value.state)} else {})
    - {actual}
  }

  function SRemEach(d: Data, statuses: set<Status>, id: Id): Data {
    d.(index := set e | e in d.index && !(e.0 in statuses && e.1 == id))
  }

  function Commit(d: Data, op: GuardedOp, seen: Option<Program>, counter: nat): Result<Data, MergeError> {
    match MergePrograms(seen, op.program)
    case Err(e) => Err(e)
    case Ok(merged) =>
      match op
      case Update(_) =>
        var kept := if seen.Some? then merged.(state := seen.value.state) else merged;
        Ok(Put(d, Stamp(kept, counter)))
      case Transition(p, oldState) =>
        var actual := Lifecycle(merged.state);
        var d1 := Put(d, Stamp(merged, counter));
        var d2 := SRemEach(d1, StaleSets(oldState, seen, actual), p.id);
        Ok(SAdd(d2, actual, {p.id}))
  }

  // ----- operations the original runs without WATCH -----

  datatype ExclusiveOp =
    | Add(program: Program)
    | Remove(id: Id)
    | WriteExclusive(program: Program)
    | FastTransition(program: Program, fromSet: Status, toSet: Status)
    | BatchState(programs: seq<Program>, prev: State, next: State)
    | BatchByIds(ids: seq<Id>, prev: State, next: State)

  function AddData(d: Data, p: Program, counter: nat): Data {
    var d1 := Put(d, Stamp(p, counter));
    var d2 := if p.id in d.blobs && d.blobs[p.id].state != p.state
              then SRem(d1, Lifecycle(d.blobs[p.id].state), {p.id}) else d1;
    SAdd(d2, Lifecycle(p.state), {p.id})
  }

  function RemoveData(d: Data, id: Id): Data {
    var d1 := Delete(d, id);
    if id in d.blobs then SRem(d1, Lifecycle(d.blobs[id].state), {id}) else d1
  }

  function FastData(d: Data, p: Program, prev: Status, next: Status, counter: nat): Data {
    var d1 := Put(d, Stamp(p, counter));
    SAdd(if prev != next then SRem(d1, prev, {p.id}) else d1, next, {p.id})
  }

  /** SET every program in order, stamped with consecutive counters after `base`. */
  function PutAll(d: Data, ps: seq<Program>, base: nat): (r: Data)
    ensures r.index == d.index
    decreases |ps|
  {
    if ps == [] then d
    else
      PutAll(Put(d, Stamp(ps[0], base + 1)), ps[1..], base + 1)
  }

  lemma PutAllAt(d: Data, ps: seq<Program>, i: nat, base: nat)
    requires i <= |ps|
    ensures i == |ps| ==> PutAll(d, ps[i..], base) == d
    ensures i < |ps| ==>
              PutAll(d, ps[i..], base) == PutAll(Put(d, Stamp(ps[i], base + 1)), ps[i + 1..], base + 1)
  {
    if i < |ps| {
      assert ps[i..][1..] == ps[i + 1..];
    }
  }

  function Ids(ps: seq<Program>): (r: set<Id>) {
    set p | p in ps :: p.id
  }

  function WithState(ps: seq<Program>, state: State): (r: seq<Program>)
    ensures |r| == |ps|
    ensures forall i :: 0 <= i < |ps| ==> r[i] == ps[i].(state := state)
  {
    if ps == [] then [] else [ps[0].(state := state)] + WithState(ps[1..], state)
  }

  function MoveIds(d: Data, prev: State, next: State, ids: set<Id>): Data {
    SAdd(SRem(d, Lifecycle(prev), ids), Lifecycle(next), ids)
  }

  /** The pipeline sent for one chunk of programs. */
  function PutChunk(d: Data, ps: seq<Program>, prev: State, next: State, base: nat): Data {
    if ps == [] then d
    else MoveIds(PutAll(d, WithState(ps, next), base), prev, next, Ids(ps))
  }

  /** The stored programs among `ids` whose current state is `prev`, in order. */
  function Matching(d: Data, ids: seq<Id>, prev: State): (r: seq<Program>)
    ensures |r| <= |ids|
  {
    if ids == [] then []
    else
      (if ids[0] in d.blobs && d.blobs[ids[0]].state == prev then [d.blobs[ids[0]]] else [])
      + Matching(d, ids[1..], prev)
  }

  /** Consecutive slices of length `n`, the last one possibly shorter. */
  function Chunks<T>(items: seq<T>, n: nat): (r: seq<seq<T>>)
    requires n > 0
    decreases |items|
  {
    if items == [] then []
    else
      var m := if |items| <= n then |items| else n;
      [items[..m]] + Chunks(items[m..], n)
  }

  function Flatten<T>(chunks: seq<seq<T>>): seq<T> {
    if chunks == [] then [] else chunks[0] + Flatten(chunks[1..])
  }

  lemma FlattenCons<T>(c: seq<T>, chunks: seq<seq<T>>)
    ensures Flatten([c] + chunks) == c + Flatten(chunks)
  {
    assert ([c] + chunks)[1..] == chunks;
  }

  /** Chunking covers every item exactly once and in order, in slices of one to `n` items. */
  lemma {:induction false} ChunksCover<T>(items: seq<T>, n: nat)
    requires n > 0
    ensures Flatten(Chunks(items, n)) == items
    ensures forall c :: c in Chunks(items, n) ==> 0 < |c| <= n
    decreases |items|
  {
    if items != [] {
      hide Flatten;
      var m := if |items| <= n then |items| else n;
      ChunksCover(items[m..], n);
      FlattenCons(items[..m], Chunks(items[m..], n));
      assert items == items[..m] + items[m..];
    }
  }

  function StateChunks(d: Data, chunks: seq<seq<Program>>, prev: State, next: State, base: nat): Data
    decreases |chunks|
  {
    if chunks == [] then d
    else StateChunks(PutChunk(d, chunks[0], prev, next, base), chunks[1..], prev, next, base + |chunks[0]|)
  }

  /** Each chunk is read when it is reached: MGET, filter by stored state, patch, move. */
  function IdChunks(d: Data, chunks: seq<seq<Id>>, prev: State, next: State, base: nat): (r: (Data, nat))
    decreases |chunks|
  {
    if chunks == [] then (d, 0)
    else
      var ps := Matching(d, chunks[0], prev);
      var rest := IdChunks(PutChunk(d, ps, prev, next, base), chunks[1..], prev, next, base + |ps|);
      (rest.0, |ps| + rest.1)
  }

  /** How many revision counters the operation reserves. */
  function Width(d: Data, x: ExclusiveOp, base: nat): nat {
    match x
    case Remove(_) => 0
    case BatchState(ps, prev, next) => if ValidTransition(prev, next) then |ps| else 0
    case BatchByIds(ids, prev, next) =>
      if ValidTransition(prev, next) then IdChunks(d, Chunks(ids, MGET_CHUNK_SIZE), prev, next, base).1 else 0
    case _ => 1
  }

  function Exclusive(d: Data, x: ExclusiveOp, base: nat): Data {
    match x
    case Add(p) => AddData(d, p, base + 1)
    case Remove(id) => RemoveData(d, id)
    case WriteExclusive(p) => Put(d, Stamp(p, base + 1))
    case FastTransition(p, prev, next) => FastData(d, p, prev, next, base + 1)
    case BatchState(ps, prev, next) =>
      if ValidTransition(prev, next) then StateChunks(d, Chunks(ps, MGET_CHUNK_SIZE), prev, next, base) else d
    case BatchByIds(ids, prev, next) =>
      if ValidTransition(prev, next) then IdChunks(d, Chunks(ids, MGET_CHUNK_SIZE), prev, next, base).0 else d
  }

  // ----- batches -----

  lemma {:induction false} StateChunksSplit(d: Data, chunks: seq<seq<Program>>, last: seq<Program>,
      prev: State, next: State, base: nat)
    ensures StateChunks(d, chunks + [last], prev, next, base)
         == PutChunk(StateChunks(d, chunks, prev, next, base), last, prev, next, base + |Flatten(chunks)|)
    decreases |chunks|
  {
    hide PutChunk, Matching;
    var all := chunks + [last];
    if chunks == [] {
      assert all[1..] == [];
    } else {
      assert all[1..] == chunks[1..] + [last];
      StateChunksSplit(PutChunk(d, chunks[0], prev, next, base), chunks[1..], last, prev, next, base + |chunks[0]|);
    }
  }

  lemma {:induction false} IdChunksSplit(d: Data, chunks: seq<seq<Id>>, last: seq<Id>,
      prev: State, next: State, base: nat)
    ensures var before := IdChunks(d, chunks, prev, next, base);
            var ps := Matching(before.0, last, prev);
            IdChunks(d, chunks + [last], prev, next, base)
            == (PutChunk(before.0, ps, prev, next, base + before.1), before.1 + |ps|)
    decreases |chunks|
  {
    hide PutChunk, Matching;
    var all := chunks + [last];
    if chunks == [] {
      assert all[1..] == [];
      assert all[0] == last;
    } else {
      assert all[1..] == chunks[1..] + [last];
      assert all[0] == chunks[0];
      var ps := Matching(d, chunks[0], prev);
      IdChunksSplit(PutChunk(d, ps, prev, next, base), chunks[1..], last, prev, next, base + |ps|);
    }
  }
}
