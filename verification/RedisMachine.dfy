/** The WATCH / GET / INCR / MULTI / EXEC retry loops as a step machine: any number of clients, each
    with a program counter, take their steps in any order, interleaved with unguarded operations
    (gigaevo/database/redis_program_storage.py). */
module RedisMachine {
  import opened Basics
  import opened ProgramState
  import opened MergeStrategies
  import opened RedisData
  import RedisBatch

  /** `versions` counts the writes to each key; EXEC compares it with the value at WATCH. */
  datatype Server = Server(data: Data, versions: map<Id, nat>, counter: nat)

  datatype Phase =
    | Begin
    | Watching(version: nat)
    | Fetched(version: nat, seen: Option<Program>)
    | Numbered(version: nat, seen: Option<Program>, counter: nat)
    | Finished
    | Failed(error: MergeError)

  datatype Client = Client(op: GuardedOp, retries: nat, phase: Phase)

  /** What reached the server, in order. */
  datatype Entry =
    | Guarded(op: GuardedOp, counter: nat)
    | Unguarded(x: ExclusiveOp, base: nat, width: nat, written: set<Id>)

  datatype System = System(server: Server, clients: map<nat, Client>, history: seq<Entry>)

  datatype Action =
    | Submit(c: nat, op: GuardedOp)
    | Watch(c: nat)
    | Get(c: nat)
    | Incr(c: nat)
    | Exec(c: nat)
    | Direct(x: ExclusiveOp)

  const INITIAL: System := System(Server(Data(map[], {}), map[], 0), map[], [])

  function Version(s: Server, id: Id): nat {
    if id in s.versions then s.versions[id] else 0
  }

  function Bump(versions: map<Id, nat>, ids: set<Id>): map<Id, nat> {
    versions + map id | id in ids :: (if id in versions then versions[id] else 0) + 1
  }

  /** The keys an unguarded operation writes. */
  function Written(d: Data, x: ExclusiveOp): set<Id> {
    match x
    case Add(p) => {p.id}
    case Remove(id) => if id in d.blobs then {id} else {}
    case WriteExclusive(p) => {p.id}
    case FastTransition(p, _, _) => {p.id}
    case BatchState(ps, prev, next) => if ValidTransition(prev, next) then Ids(ps) else {}
    case BatchByIds(ids, prev, next) =>
      if ValidTransition(prev, next)
      then set id | id in ids && id in d.blobs && d.blobs[id].state == prev else {}
  }

  function Key(client: Client): Id {
    client.op.program.id
  }

  function Step(s: System, a: Action): System {
    match a
    case Submit(c, op) =>
      if c in s.clients && !s.clients[c].phase.Finished? && !s.clients[c].phase.Failed? then s
      else s.(clients := s.clients[c := Client(op, 0, Begin)])
    case Watch(c) =>
      if c !in s.clients || !s.clients[c].phase.Begin? then s
      else
        var v := Version(s.server, Key(s.clients[c]));
        s.(clients := s.clients[c := s.clients[c].(phase := Watching(v))])
    case Get(c) =>
      if c !in s.clients || !s.clients[c].phase.Watching? then s
      else
        var client := s.clients[c];
        var phase := Fetched(client.phase.version, Lookup(s.server.data, Key(client)));
        s.(clients := s.clients[c := client.(phase := phase)])
    case Incr(c) =>
      if c !in s.clients || !s.clients[c].phase.Fetched? then s
      else
        var client := s.clients[c];
        var n := s.server.counter + 1;
        var phase := Numbered(client.phase.version, client.phase.seen, n);
        s.(server := s.server.(counter := n), clients := s.clients[c := client.(phase := phase)])
    case Exec(c) =>
      if c !in s.clients || !s.clients[c].phase.Numbered? then s
      else StepExec(s, c)
    case Direct(x) =>
      var width := Width(s.server.data, x, s.server.counter);
      var written := Written(s.server.data, x);
      s.(server := Server(Exclusive(s.server.data, x, s.server.counter),
                          Bump(s.server.versions, written),
                          s.server.counter + width),
         history := s.history + [Unguarded(x, s.server.counter, width, written)])
  }

  /** The merge happens on the client before EXEC and may raise; EXEC itself fails when the key has
      been written since WATCH, and the loop starts over. */
  function StepExec(s: System, c: nat): System
    requires c in s.clients && s.clients[c].phase.Numbered?
  {
    var client := s.clients[c];
    var Numbered(version, seen, n) := client.phase;
    match Commit(s.server.data, client.op, seen, n)
    case Err(e) => s.(clients := s.clients[c := client.(phase := Failed(e))])
    case Ok(d) =>
      if Version(s.server, Key(client)) != version then
        s.(clients := s.clients[c := client.(phase := Begin, retries := client.retries + 1)])
      else
        System(Server(d, Bump(s.server.versions, {Key(client)}), s.server.counter),
               s.clients[c := client.(phase := Finished)],
               s.history + [Guarded(client.op, n)])
  }

  function Run(s: System, actions: seq<Action>): System
    decreases |actions|
  {
    if actions == [] then s else Run(Step(s, actions[0]), actions[1..])
  }

  // ----- revision counters -----

  /** Entry `e` owns the counters in the half-open interval (Lo(e), Hi(e)]. */
  function Lo(e: Entry): int {
    match e
    case Guarded(_, n) => n - 1
    case Unguarded(_, base, _, _) => base
  }

  function Hi(e: Entry): int {
    match e
    case Guarded(_, n) => n
    case Unguarded(_, base, width, _) => base + width
  }

  function Touches(e: Entry): set<Id> {
    match e
    case Guarded(op, _) => {op.program.id}
    case Unguarded(_, _, _, written) => written
  }

  ghost predicate Owns(e: Entry, n: int) {
    Lo(e) < n <= Hi(e)
  }

  /** Entries on a common key, and any entry before an unguarded one, use increasing counters. */
  ghost predicate Ordered(a: Entry, b: Entry) {
    && (b.Unguarded? || Touches(a) * Touches(b) != {} ==> Hi(a) <= Lo(b))
    && forall n :: Owns(a, n) ==> !Owns(b, n)
  }

  ghost predicate HistoryOk(h: seq<Entry>, counter: nat) {
    && (forall i, j :: 0 <= i < j < |h| ==> Ordered(h[i], h[j]))
    && forall e :: e in h ==> Hi(e) <= counter
  }

  function WritesTo(h: seq<Entry>, id: Id): nat {
    if h == [] then 0
    else WritesTo(h[..|h| - 1], id) + if id in Touches(h[|h| - 1]) then 1 else 0
  }

  // ----- the invariant -----

  /** While the key is unwritten since WATCH, what the client saw is what the server holds and
      every counter used on that key is smaller than the client's. */
  ghost predicate ClientOk(s: Server, h: seq<Entry>, client: Client) {
    var id := Key(client);
    var now := Version(s, id);
    && client.retries <= now
    && match client.phase
       case Watching(v) => client.retries <= v <= now
       case Fetched(v, seen) => client.retries <= v <= now && (v == now ==> seen == Lookup(s.data, id))
       case Numbered(v, seen, n) =>
         && client.retries <= v <= now
         && n <= s.counter
         && (forall e :: e in h ==> !Owns(e, n))
         && (v == now ==> seen == Lookup(s.data, id))
         && (v == now && id in s.data.blobs ==> s.data.blobs[id].atomicCounter < n)
         && (v == now ==> forall e :: e in h && id in Touches(e) ==> Hi(e) < n)
       case _ => true
  }

  ghost predicate NumbersDistinct(clients: map<nat, Client>) {
    forall c, c' :: c in clients && c' in clients && c != c'
      && clients[c].phase.Numbered? && clients[c'].phase.Numbered?
      ==> clients[c].phase.counter != clients[c'].phase.counter
  }

  ghost predicate Inv(s: System) {
    && Bounded(s.server.data, s.server.counter)
    && HistoryOk(s.history, s.server.counter)
    && NumbersDistinct(s.clients)
    && forall c :: c in s.clients ==> ClientOk(s.server, s.history, s.clients[c])
  }

  // ----- unguarded operations write only the keys they name -----

  ghost predicate CountersAtMost(d: Data, top: int) {
    forall id :: id in d.blobs ==> d.blobs[id].atomicCounter <= top
  }

  ghost predicate Bounded(d: Data, top: int) {
    Keyed(d) && CountersAtMost(d, top)
  }

  lemma {:induction false} PutAllBounds(d: Data, ps: seq<Program>, base: nat, top: int)
    requires CountersAtMost(d, top) && base + |ps| <= top
    ensures CountersAtMost(PutAll(d, ps, base), top)
    ensures forall id :: id in Ids(ps) ==> Newer(PutAll(d, ps, base), id, base)
    decreases |ps|
  {
    if ps != [] {
      RedisBatch.IdsCons(ps);
      var d1 := Put(d, Stamp(ps[0], base + 1));
      assert CountersAtMost(d1, top);
      PutAllBounds(d1, ps[1..], base + 1, top);
      assert Newer(d1, ps[0].id, base);
      if ps[0].id !in Ids(ps[1..]) {
        PutAllSkips(d1, ps[1..], base + 1, ps[0].id);
      }
    }
  }

  lemma {:induction false} PutAllSkips(d: Data, ps: seq<Program>, base: nat, id: Id)
    requires id !in Ids(ps)
    ensures Lookup(PutAll(d, ps, base), id) == Lookup(d, id)
    decreases |ps|
  {
    if ps != [] {
      RedisBatch.IdsCons(ps);
      PutAllSkips(Put(d, Stamp(ps[0], base + 1)), ps[1..], base + 1, id);
    }
  }

  /** The blob of `id` was written under a counter after `base`. */
  ghost predicate Newer(d: Data, id: Id, base: int) {
    id in d.blobs && d.blobs[id].atomicCounter > base
  }

  lemma PutChunkBounded(d: Data, ps: seq<Program>, prev: State, next: State, base: nat)
    requires Bounded(d, base)
    ensures Bounded(PutChunk(d, ps, prev, next, base), base + |ps|)
    ensures forall id :: id !in Ids(ps) ==> Lookup(PutChunk(d, ps, prev, next, base), id) == Lookup(d, id)
    ensures forall id :: id in Ids(ps) ==> Newer(PutChunk(d, ps, prev, next, base), id, base)
  {
    RedisBatch.PutChunkFrame(d, ps, prev, next, base);
    WithStateIds(ps, next);
    assert CountersAtMost(d, base + |ps|);
    PutAllBounds(d, WithState(ps, next), base, base + |ps|);
  }

  lemma {:induction false} StateChunksBounded(d: Data, chunks: seq<seq<Program>>, prev: State, next: State, base: nat)
    requires Bounded(d, base)
    ensures Bounded(StateChunks(d, chunks, prev, next, base), base + |Flatten(chunks)|)
    ensures forall id :: id !in Ids(Flatten(chunks))
              ==> Lookup(StateChunks(d, chunks, prev, next, base), id) == Lookup(d, id)
    ensures forall id :: id in Ids(Flatten(chunks)) ==> Newer(StateChunks(d, chunks, prev, next, base), id, base)
    decreases |chunks|
  {
    hide PutChunk;
    if chunks != [] {
      PutChunkBounded(d, chunks[0], prev, next, base);
      StateChunksBounded(PutChunk(d, chunks[0], prev, next, base), chunks[1..], prev, next, base + |chunks[0]|);
      assert Flatten(chunks) == chunks[0] + Flatten(chunks[1..]);
      forall id | id in Ids(Flatten(chunks)) ensures Newer(StateChunks(d, chunks, prev, next, base), id, base) {
        if id !in Ids(Flatten(chunks[1..])) {
          assert Newer(PutChunk(d, chunks[0], prev, next, base), id, base);
        }
      }
    }
  }

  lemma WithStateIds(ps: seq<Program>, next: State)
    ensures Ids(WithState(ps, next)) == Ids(ps)
  {
    var qs := WithState(ps, next);
    assert forall i :: 0 <= i < |ps| ==> qs[i].id == ps[i].id;
    forall id ensures id in Ids(qs) <==> id in Ids(ps) {
      if id in Ids(qs) {
        var i :| 0 <= i < |qs| && qs[i].id == id;
        assert ps[i] in ps;
      }
      if id in Ids(ps) {
        var i :| 0 <= i < |ps| && ps[i].id == id;
        assert qs[i] in qs;
      }
    }
  }

  lemma {:induction false} MatchingIds(d: Data, ids: seq<Id>, prev: State)
    requires Keyed(d)
    ensures forall p :: p in Matching(d, ids, prev) ==> p.id in ids && Lookup(d, p.id) == Some(p) && p.state == prev
    ensures forall id :: id in ids && id in d.blobs && d.blobs[id].state == prev ==> id in Ids(Matching(d, ids, prev))
  {
    if ids != [] {
      MatchingIds(d, ids[1..], prev);
      assert forall id :: id in ids <==> id == ids[0] || id in ids[1..];
      assert forall p :: p in Matching(d, ids[1..], prev) ==> p in Matching(d, ids, prev);
    }
  }

  lemma {:induction false} IdChunksBounded(d: Data, chunks: seq<seq<Id>>, prev: State, next: State, base: nat)
    requires Bounded(d, base)
    ensures var (d', n) := IdChunks(d, chunks, prev, next, base);
            && Bounded(d', base + n)
            && (forall id :: id !in Flatten(chunks) || id !in d.blobs || d.blobs[id].state != prev
                 ==> Lookup(d', id) == Lookup(d, id))
            && (forall id :: id in Flatten(chunks) && id in d.blobs && d.blobs[id].state == prev ==>
                  Newer(d', id, base))
    decreases |chunks|
  {
    hide PutChunk, Matching;
    if chunks != [] {
      var ps := Matching(d, chunks[0], prev);
      MatchingIds(d, chunks[0], prev);
      PutChunkBounded(d, ps, prev, next, base);
      var d1 := PutChunk(d, ps, prev, next, base);
      IdChunksBounded(d1, chunks[1..], prev, next, base + |ps|);
      assert Flatten(chunks) == chunks[0] + Flatten(chunks[1..]);
      forall id | id !in Flatten(chunks) || id !in d.blobs || d.blobs[id].state != prev
        ensures Lookup(d1, id) == Lookup(d, id)
      {
        assert id !in Ids(ps);
      }
      var d' := IdChunks(d, chunks, prev, next, base).0;
      forall id | id in Flatten(chunks) && id in d.blobs && d.blobs[id].state == prev ensures Newer(d', id, base) {
        if id in Ids(ps) {
          assert Newer(d1, id, base);
        } else {
          assert Lookup(d1, id) == Lookup(d, id);
        }
        assert Lookup(d', id) == Lookup(d1, id) || Newer(d', id, base + |ps|);
      }
    }
  }

  lemma ExclusiveBounded(d: Data, x: ExclusiveOp, base: nat)
    requires Keyed(d) && CountersAtMost(d, base)
    ensures Bounded(Exclusive(d, x, base), base + Width(d, x, base))
    ensures forall id :: id in Written(d, x) <==> Lookup(Exclusive(d, x, base), id) != Lookup(d, id)
  {
    hide StateChunks, IdChunks, Chunks, Flatten;
    match x
    case BatchState(ps, prev, next) =>
      ChunksCover(ps, MGET_CHUNK_SIZE);
      if ValidTransition(prev, next) {
        StateChunksBounded(d, Chunks(ps, MGET_CHUNK_SIZE), prev, next, base);
        assert forall id :: id in Ids(ps) ==> Newer(Exclusive(d, x, base), id, base);
      }
    case BatchByIds(ids, prev, next) =>
      ChunksCover(ids, MGET_CHUNK_SIZE);
      if ValidTransition(prev, next) {
        IdChunksBounded(d, Chunks(ids, MGET_CHUNK_SIZE), prev, next, base);
        assert forall id :: id in Written(d, x) ==> Newer(Exclusive(d, x, base), id, base);
      }
    case _ =>
  }

  // ----- every step keeps the invariant -----

  /** A client is not disturbed by an entry that does not own its counter. */
  lemma AppendKeepsClient(s: Server, h: seq<Entry>, s': Server, e: Entry, client: Client)
    requires ClientOk(s, h, client)
    requires s'.versions == Bump(s.versions, Touches(e)) && s.counter <= s'.counter
    requires forall id :: id !in Touches(e) ==> Lookup(s'.data, id) == Lookup(s.data, id)
    requires client.phase.Numbered? ==> !Owns(e, client.phase.counter)
    ensures ClientOk(s', h + [e], client)
  {
    var id := Key(client);
    if id in Touches(e) {
      assert Version(s', id) == Version(s, id) + 1;
    } else {
      assert Version(s', id) == Version(s, id);
      assert Lookup(s'.data, id) == Lookup(s.data, id);
    }
  }

  lemma AppendKeepsHistory(h: seq<Entry>, e: Entry, counter: nat, counter': nat)
    requires HistoryOk(h, counter) && counter <= counter' && Hi(e) <= counter'
    requires forall a :: a in h ==> Ordered(a, e)
    ensures HistoryOk(h + [e], counter')
  {
  }

  lemma DirectKeepsInv(s: System, x: ExclusiveOp)
    requires Inv(s)
    ensures Inv(Step(s, Direct(x)))
  {
    hide Exclusive, Width, Written;
    var s' := Step(s, Direct(x));
    var e := s'.history[|s.history|];
    ExclusiveBounded(s.server.data, x, s.server.counter);
    AppendKeepsHistory(s.history, e, s.server.counter, s'.server.counter);
    forall c | c in s'.clients ensures ClientOk(s'.server, s'.history, s'.clients[c]) {
      AppendKeepsClient(s.server, s.history, s'.server, e, s.clients[c]);
    }
  }

  lemma CommitFrame(d: Data, op: GuardedOp, seen: Option<Program>, n: nat)
    requires Commit(d, op, seen, n).Ok?
    requires Keyed(d) && (seen.Some? ==> seen.value.id == op.program.id)
    ensures var d' := Commit(d, op, seen, n).value;
            && Keyed(d')
            && op.program.id in d'.blobs && d'.blobs[op.program.id].atomicCounter == n
            && forall id :: id != op.program.id ==> Lookup(d', id) == Lookup(d, id)
  {
  }

  /** No lost update: a successful EXEC writes the merge of the caller's copy with the blob that is
      in the store at that very instant. */
  lemma ExecMergesCurrent(s: System, c: nat)
    requires Inv(s) && c in s.clients && s.clients[c].phase.Numbered?
    requires Step(s, Exec(c)).clients[c].phase.Finished?
    ensures var client := s.clients[c];
            var n := client.phase.counter;
            && Commit(s.server.data, client.op, Lookup(s.server.data, Key(client)), n)
               == Ok(Step(s, Exec(c)).server.data)
            && Step(s, Exec(c)).history == s.history + [Guarded(client.op, n)]
            && Step(s, Exec(c)).server.versions == Bump(s.server.versions, {Key(client)})
            && Step(s, Exec(c)).server.counter == s.server.counter
            && Step(s, Exec(c)).clients == s.clients[c := client.(phase := Finished)]
            && forall e :: e in s.history ==> Ordered(e, Guarded(client.op, n))
  {
    hide Commit;
    assert ClientOk(s.server, s.history, s.clients[c]);
  }

  lemma CommitBounded(d: Data, op: GuardedOp, seen: Option<Program>, n: nat, top: nat)
    requires Commit(d, op, seen, n).Ok? && Bounded(d, top) && n <= top
    requires seen.Some? ==> seen.value.id == op.program.id
    ensures Bounded(Commit(d, op, seen, n).value, top)
  {
    CommitFrame(d, op, seen, n);
    hide Commit;
    var d' := Commit(d, op, seen, n).value;
    forall id | id in d'.blobs ensures d'.blobs[id].atomicCounter <= top {
      assert id != op.program.id ==> Lookup(d', id) == Lookup(d, id);
    }
  }

  /** The other clients are not disturbed by a commit, and the one that made it is done. */
  lemma CommitKeepsClient(s: Server, h: seq<Entry>, s': Server, client: Client, n: nat, other: Client)
    requires ClientOk(s, h, other) && s'.counter == s.counter
    requires s'.versions == Bump(s.versions, {Key(client)})
    requires forall id :: id != Key(client) ==> Lookup(s'.data, id) == Lookup(s.data, id)
    requires other.phase.Numbered? ==> other.phase.counter != n
    ensures ClientOk(s', h + [Guarded(client.op, n)], other)
  {
    AppendKeepsClient(s, h, s', Guarded(client.op, n), other);
  }

  lemma FinishedClientOk(s: Server, h: seq<Entry>, s': Server, h': seq<Entry>, client: Client)
    requires ClientOk(s, h, client) && s'.versions == Bump(s.versions, {Key(client)})
    ensures ClientOk(s', h', client.(phase := Finished))
  {
    assert Version(s', Key(client)) == Version(s, Key(client)) + 1;
  }

  lemma CommitKeepsInv(s: System, c: nat)
    requires Inv(s) && c in s.clients && s.clients[c].phase.Numbered?
    requires Step(s, Exec(c)).clients[c].phase.Finished?
    ensures Inv(Step(s, Exec(c)))
  {
    var client := s.clients[c];
    var n := client.phase.counter;
    var s' := Step(s, Exec(c));
    var e := Guarded(client.op, n);
    assert ClientOk(s.server, s.history, client) && n <= s.server.counter;
    ExecMergesCurrent(s, c);
    hide Commit, Ordered, Step, StepExec, ClientOk, Version;
    CommitFrame(s.server.data, client.op, Lookup(s.server.data, Key(client)), n);
    CommitBounded(s.server.data, client.op, Lookup(s.server.data, Key(client)), n, s.server.counter);
    AppendKeepsHistory(s.history, e, s.server.counter, s.server.counter);
    FinishedClientOk(s.server, s.history, s'.server, s'.history, client);
    hide HistoryOk, Bounded;
    forall c' | c' in s'.clients ensures ClientOk(s'.server, s'.history, s'.clients[c']) {
      if c' != c {
        CommitKeepsClient(s.server, s.history, s'.server, client, n, s.clients[c']);
      }
    }
  }

  /** A failed EXEC or a refused merge changes one client only; a retry was paid for by a write. */
  lemma RetryKeepsClients(s: System, c: nat)
    requires Inv(s) && c in s.clients && s.clients[c].phase.Numbered?
    requires !Step(s, Exec(c)).clients[c].phase.Finished?
    ensures var s' := Step(s, Exec(c));
            && s'.server == s.server && s'.history == s.history
            && ClientOk(s.server, s.history, s'.clients[c]) && !s'.clients[c].phase.Numbered?
            && s'.clients == s.clients[c := s'.clients[c]]
            && (Version(s.server, Key(s.clients[c])) != s.clients[c].phase.version
                && Commit(s.server.data, s.clients[c].op, s.clients[c].phase.seen, s.clients[c].phase.counter).Ok? ==>
                  s'.clients[c] == s.clients[c].(phase := Begin, retries := s.clients[c].retries + 1))
  {
    hide Commit, HistoryOk, Bounded, Touches, Owns;
    assert ClientOk(s.server, s.history, s.clients[c]);
  }

  lemma ExecKeepsInv(s: System, c: nat)
    requires Inv(s) && c in s.clients && s.clients[c].phase.Numbered?
    ensures Inv(Step(s, Exec(c)))
  {
    hide Commit, ClientOk, HistoryOk, Bounded;
    if Step(s, Exec(c)).clients[c].phase.Finished? {
      CommitKeepsInv(s, c);
    } else {
      RetryKeepsClients(s, c);
    }
  }

  lemma IncrKeepsInv(s: System, c: nat)
    requires Inv(s)
    ensures Inv(Step(s, Incr(c)))
  {
    hide Commit, Exclusive, Ordered, Touches, Version;
    var s' := Step(s, Incr(c));
    forall c' | c' in s'.clients ensures ClientOk(s'.server, s'.history, s'.clients[c']) {
      assert ClientOk(s.server, s.history, s.clients[c']);
      VersionSame(s.server, s'.server, Key(s.clients[c']));
    }
  }

  lemma VersionSame(s: Server, s': Server, id: Id)
    requires s.versions == s'.versions
    ensures Version(s, id) == Version(s', id)
  {
  }

  /** SUBMIT, WATCH and GET touch their own client only. */
  lemma LocalTouchesOne(s: System, a: Action)
    requires Inv(s) && (a.Submit? || a.Watch? || a.Get?)
    ensures var s' := Step(s, a);
            && s'.server == s.server && s'.history == s.history
            && (s' == s || (a.c in s'.clients && ClientOk(s.server, s.history, s'.clients[a.c])
                            && !s'.clients[a.c].phase.Numbered? && s'.clients == s.clients[a.c := s'.clients[a.c]]))
  {
    hide Commit, Exclusive, HistoryOk, Bounded, Touches, NumbersDistinct;
    assert a.c in s.clients ==> ClientOk(s.server, s.history, s.clients[a.c]);
  }

  lemma LocalKeepsInv(s: System, a: Action)
    requires Inv(s) && (a.Submit? || a.Watch? || a.Get?)
    ensures Inv(Step(s, a))
  {
    hide Step, ClientOk, HistoryOk, Bounded;
    LocalTouchesOne(s, a);
  }

  lemma StepKeepsInv(s: System, a: Action)
    requires Inv(s)
    ensures Inv(Step(s, a))
  {
    match a
    case Direct(x) => DirectKeepsInv(s, x);
    case Exec(c) =>
      if c in s.clients && s.clients[c].phase.Numbered? {
        ExecKeepsInv(s, c);
      }
    case Incr(c) => IncrKeepsInv(s, c);
    case _ => LocalKeepsInv(s, a);
  }

  lemma {:induction false} RunKeepsInv(s: System, actions: seq<Action>)
    requires Inv(s)
    ensures Inv(Run(s, actions))
    decreases |actions|
  {
    if actions != [] {
      StepKeepsInv(s, actions[0]);
      RunKeepsInv(Step(s, actions[0]), actions[1..]);
    }
  }
}
