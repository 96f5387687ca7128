/** What holds over whole runs of the concurrent store, whatever the interleaving. */
module RedisRuns {
  import opened Basics
  import opened ProgramState
  import opened MergeStrategies
  import opened RedisData
  import opened RedisMachine

  // ----- serializability -----

  /** One entry of the history, run alone as a transaction. */
  function ApplyEntry(d: Data, e: Entry): Data {
    match e
    case Guarded(op, n) =>
      (match Commit(d, op, Lookup(d, op.program.id), n)
       case Ok(d') => d'
       case Err(_) => d)
    case Unguarded(x, base, _, _) => Exclusive(d, x, base)
  }

  function Replay(d: Data, es: seq<Entry>): Data
    decreases |es|
  {
    if es == [] then d else Replay(ApplyEntry(d, es[0]), es[1..])
  }

  lemma StepAppends(s: System, a: Action)
    requires Inv(s)
    ensures var s' := Step(s, a);
            || (s'.history == s.history && s'.server.data == s.server.data)
            || (exists e :: s'.history == s.history + [e] && s'.server.data == ApplyEntry(s.server.data, e))
  {
    hide Commit, Exclusive;
    match a
    case Exec(c) =>
      if c in s.clients && s.clients[c].phase.Numbered? && Step(s, a).clients[c].phase.Finished? {
        ExecMergesCurrent(s, c);
        var e := Guarded(s.clients[c].op, s.clients[c].phase.counter);
        assert Step(s, a).history == s.history + [e];
      }
    case _ =>
  }

  /** Every interleaving of retry loops and unguarded operations leaves exactly the blobs and status
      sets of running the committed operations one after another, in commit order. */
  lemma {:induction false} Serializable(s: System, actions: seq<Action>)
    requires Inv(s)
    ensures var s' := Run(s, actions);
            && s.history <= s'.history
            && s'.server.data == Replay(s.server.data, s'.history[|s.history|..])
    decreases |actions|
  {
    hide Step, Inv, ApplyEntry;
    if actions != [] {
      var s1, s' := Step(s, actions[0]), Run(s, actions);
      StepAppends(s, actions[0]);
      StepKeepsInv(s, actions[0]);
      Serializable(s1, actions[1..]);
      var tail := s'.history[|s1.history|..];
      if s1.history != s.history {
        var e :| s1.history == s.history + [e] && s1.server.data == ApplyEntry(s.server.data, e);
        assert s'.history[|s.history|..] == [e] + tail;
        assert ([e] + tail)[1..] == tail;
      }
    } else {
      assert s.history[|s.history|..] == [];
    }
  }

  // ----- revision counters -----

  /** No counter is used by two commits, and commits to one key use increasing counters, although
      INCR runs outside the transaction and other clients may commit in between. */
  lemma CountersNeverReused(actions: seq<Action>, i: nat, j: nat, n: int)
    requires var h := Run(INITIAL, actions).history; i < j < |h|
    ensures var h := Run(INITIAL, actions).history;
            && !(Owns(h[i], n) && Owns(h[j], n))
            && (Owns(h[i], n) ==> n <= Run(INITIAL, actions).server.counter)
            && (Touches(h[i]) * Touches(h[j]) != {} ==> Hi(h[i]) <= Lo(h[j]))
            && (h[j].Unguarded? ==> Hi(h[i]) <= Lo(h[j]))
  {
    RunKeepsInv(INITIAL, actions);
    var s := Run(INITIAL, actions);
    assert Ordered(s.history[i], s.history[j]);
    assert s.history[i] in s.history;
  }

  // ----- retries -----

  ghost predicate VersionsCount(s: System) {
    forall id :: Version(s.server, id) == WritesTo(s.history, id)
  }

  lemma StepKeepsVersionsCount(s: System, a: Action)
    requires Inv(s) && VersionsCount(s)
    ensures VersionsCount(Step(s, a))
  {
    hide Commit, Exclusive, Width, Written, ClientOk;
    var s' := Step(s, a);
    forall id ensures Version(s'.server, id) == WritesTo(s'.history, id) {
      assert Version(s.server, id) == WritesTo(s.history, id);
      if s'.history != s.history {
        var e := s'.history[|s.history|];
        assert s'.history[..|s'.history| - 1] == s.history;
        assert s'.server.versions == Bump(s.server.versions, Touches(e));
      }
    }
  }

  lemma {:induction false} RunKeepsVersionsCount(s: System, actions: seq<Action>)
    requires Inv(s) && VersionsCount(s)
    ensures Inv(Run(s, actions)) && VersionsCount(Run(s, actions))
    decreases |actions|
  {
    hide Step, Inv, VersionsCount;
    if actions != [] {
      StepKeepsInv(s, actions[0]);
      StepKeepsVersionsCount(s, actions[0]);
      RunKeepsVersionsCount(Step(s, actions[0]), actions[1..]);
    }
  }

  /** Every retry of a client is paid for by a write that really reached its key. */
  lemma RetriesBoundedByWrites(actions: seq<Action>, c: nat)
    requires c in Run(INITIAL, actions).clients
    ensures var s := Run(INITIAL, actions);
            s.clients[c].retries <= WritesTo(s.history, Key(s.clients[c]))
  {
    RunKeepsVersionsCount(INITIAL, actions);
    var s := Run(INITIAL, actions);
    assert ClientOk(s.server, s.history, s.clients[c]);
    assert Version(s.server, Key(s.clients[c])) == WritesTo(s.history, Key(s.clients[c]));
  }

  function Attempt(c: nat): seq<Action> {
    [Watch(c), Get(c), Incr(c), Exec(c)]
  }

  lemma RunAttempt(s: System, c: nat)
    ensures Run(s, Attempt(c)) == Step(Step(Step(Step(s, Watch(c)), Get(c)), Incr(c)), Exec(c))
  {
    hide Step;
    var s1 := Step(s, Watch(c));
    var s2 := Step(s1, Get(c));
    var s3 := Step(s2, Incr(c));
    RunCons(s, Watch(c), [Get(c), Incr(c), Exec(c)]);
    RunCons(s1, Get(c), [Incr(c), Exec(c)]);
    RunCons(s2, Incr(c), [Exec(c)]);
    RunCons(s3, Exec(c), []);
    assert Attempt(c) == [Watch(c)] + [Get(c), Incr(c), Exec(c)];
    assert [Get(c), Incr(c), Exec(c)] == [Get(c)] + [Incr(c), Exec(c)];
    assert [Incr(c), Exec(c)] == [Incr(c)] + [Exec(c)];
    assert [Exec(c)] == [Exec(c)] + [];
  }

  lemma RunCons(s: System, a: Action, rest: seq<Action>)
    ensures Run(s, [a] + rest) == Run(Step(s, a), rest)
  {
    assert ([a] + rest)[1..] == rest;
  }

  /** A client that starts an attempt and is left alone commits it, unless the merge itself refuses. */
  lemma UndisturbedAttemptCommits(s: System, c: nat)
    requires c in s.clients && s.clients[c].phase.Begin?
    ensures var client := s.clients[c];
            var n := s.server.counter + 1;
            var s' := Run(s, Attempt(c));
            && c in s'.clients
            && (s'.clients[c].phase.Finished? <==>
                Commit(s.server.data, client.op, Lookup(s.server.data, Key(client)), n).Ok?)
            && (s'.clients[c].phase.Finished? ==> s'.history == s.history + [Guarded(client.op, n)])
  {
    hide Commit, Run, Attempt;
    RunAttempt(s, c);
    var client := s.clients[c];
    var v := Version(s.server, Key(client));
    var s3 := Step(Step(Step(s, Watch(c)), Get(c)), Incr(c));
    assert s3.clients[c].phase == Numbered(v, Lookup(s.server.data, Key(client)), s.server.counter + 1);
    assert s3.server == s.server.(counter := s.server.counter + 1);
  }

  // ----- no lost update over whole runs of guarded operations -----

  ghost predicate GuardedOnly(actions: seq<Action>) {
    forall a :: a in actions ==> !a.Direct?
  }

  ghost predicate AllGrow(d: Data, d': Data) {
    forall id :: id in d.blobs ==> id in d'.blobs && Grows(d.blobs[id], d'.blobs[id])
  }

  ghost predicate AllKeepValues(d: Data, d': Data) {
    forall id :: id in d.blobs ==> id in d'.blobs && KeepsValues(d.blobs[id], d'.blobs[id])
  }

  lemma CommitGrows(d: Data, op: GuardedOp, n: nat)
    requires Keyed(d) && op.program.id in d.blobs && d.blobs[op.program.id].atomicCounter <= n
    requires Commit(d, op, Lookup(d, op.program.id), n).Ok?
    ensures var p := d.blobs[op.program.id];
            var q := Commit(d, op, Some(p), n).value.blobs[op.program.id];
            && Grows(p, q)
            && Absorbed(q, op.program)
            && (op.program.atomicCounter <= p.atomicCounter ==> KeepsValues(p, q))
  {
    var p := d.blobs[op.program.id];
    MergeGrows(p, op.program);
    if op.program.atomicCounter <= p.atomicCounter {
      MergeKeepsValues(p, op.program);
    }
  }

  ghost predicate CopyFromStorage(d: Data, p: Program) {
    p.atomicCounter <= if p.id in d.blobs then d.blobs[p.id].atomicCounter else 0
  }

  ghost predicate Active(client: Client) {
    !client.phase.Finished? && !client.phase.Failed?
  }

  ghost predicate CopiesFromStorage(s: System) {
    forall c :: c in s.clients && Active(s.clients[c]) ==> CopyFromStorage(s.server.data, s.clients[c].op.program)
  }

  /** Every submitted copy carries a revision that was in the store when it was submitted. */
  ghost predicate SubmitsCopies(s: System, actions: seq<Action>)
    decreases |actions|
  {
    actions == [] ||
    ((actions[0].Submit? ==> CopyFromStorage(s.server.data, actions[0].op.program))
     && SubmitsCopies(Step(s, actions[0]), actions[1..]))
  }

  lemma CommitGrowsAll(d: Data, op: GuardedOp, n: nat)
    requires Keyed(d) && Commit(d, op, Lookup(d, op.program.id), n).Ok?
    requires op.program.id in d.blobs ==> d.blobs[op.program.id].atomicCounter <= n
    ensures var d' := Commit(d, op, Lookup(d, op.program.id), n).value;
            && AllGrow(d, d')
            && (CopyFromStorage(d, op.program) ==> AllKeepValues(d, d'))
            && (forall id :: id in d'.blobs && id !in d.blobs ==> d'.blobs[id].atomicCounter >= 0)
  {
    hide Commit, Grows, KeepsValues;
    var id := op.program.id;
    var d' := Commit(d, op, Lookup(d, id), n).value;
    CommitFrame(d, op, Lookup(d, id), n);
    if id in d.blobs {
      CommitGrows(d, op, n);
    }
    forall i | i in d.blobs && i != id ensures i in d'.blobs && d'.blobs[i] == d.blobs[i] {
      assert Lookup(d', i) == Lookup(d, i);
    }
    GrowsReflexive();
    forall i | i in d'.blobs && i !in d.blobs ensures d'.blobs[i].atomicCounter >= 0 {
      assert i != id ==> Lookup(d', i) == Lookup(d, i);
    }
  }

  lemma GrowsReflexive()
    ensures forall p: Program :: Grows(p, p) && KeepsValues(p, p)
  {
  }

  lemma GuardedStep(s: System, a: Action)
    requires Inv(s) && !a.Direct?
    ensures AllGrow(s.server.data, Step(s, a).server.data)
    ensures CopiesFromStorage(s) ==> AllKeepValues(s.server.data, Step(s, a).server.data)
    ensures var d, d' := s.server.data, Step(s, a).server.data;
            forall id :: id in d'.blobs && id !in d.blobs ==> d'.blobs[id].atomicCounter >= 0
  {
    hide Commit, Grows, KeepsValues, CopyFromStorage;
    GrowsReflexive();
    if a.Exec? && a.c in s.clients && s.clients[a.c].phase.Numbered? && Step(s, a).clients[a.c].phase.Finished? {
      ExecMergesCurrent(s, a.c);
      assert ClientOk(s.server, s.history, s.clients[a.c]);
      CommitGrowsAll(s.server.data, s.clients[a.c].op, s.clients[a.c].phase.counter);
    }
  }

  lemma GuardedStepKeepsCopies(s: System, a: Action)
    requires Inv(s) && !a.Direct? && CopiesFromStorage(s)
    requires a.Submit? ==> CopyFromStorage(s.server.data, a.op.program)
    ensures CopiesFromStorage(Step(s, a))
  {
    hide Commit;
    var s' := Step(s, a);
    GuardedStep(s, a);
    forall c | c in s'.clients && Active(s'.clients[c])
      ensures CopyFromStorage(s'.server.data, s'.clients[c].op.program)
    {
      var p := s'.clients[c].op.program;
      assert CopyFromStorage(s.server.data, p);
      if p.id in s.server.data.blobs {
        assert Grows(s.server.data.blobs[p.id], s'.server.data.blobs[p.id]);
      }
    }
  }

  lemma AllGrowTransitive(a: Data, b: Data, c: Data)
    requires AllGrow(a, b) && AllGrow(b, c)
    ensures AllGrow(a, c)
    ensures AllKeepValues(a, b) && AllKeepValues(b, c) ==> AllKeepValues(a, c)
  {
    forall id | id in a.blobs ensures Grows(a.blobs[id], c.blobs[id]) {
      GrowsTransitive(a.blobs[id], b.blobs[id], c.blobs[id]);
    }
  }

  /** No lost update, over whole runs: under any interleaving of guarded operations no program
      disappears, its identity and lineage immutables never change, and its children, its counter
      and its three key sets only grow. */
  lemma {:induction false} GuardedRunsGrow(s: System, actions: seq<Action>)
    requires Inv(s) && GuardedOnly(actions)
    ensures AllGrow(s.server.data, Run(s, actions).server.data)
    decreases |actions|
  {
    if actions != [] {
      hide Step, Inv, Grows;
      var s1 := Step(s, actions[0]);
      assert GuardedOnly(actions[1..]);
      GuardedStep(s, actions[0]);
      StepKeepsInv(s, actions[0]);
      GuardedRunsGrow(s1, actions[1..]);
      AllGrowTransitive(s.server.data, s1.server.data, Run(s, actions).server.data);
    }
  }

  /** If moreover every submitted copy was obtained from the store, the value of an existing key
      and the code never change either: guarded operations are purely additive. */
  lemma {:induction false} GuardedRunsAreAdditive(s: System, actions: seq<Action>)
    requires Inv(s) && GuardedOnly(actions) && CopiesFromStorage(s) && SubmitsCopies(s, actions)
    ensures AllKeepValues(s.server.data, Run(s, actions).server.data)
    decreases |actions|
  {
    if actions != [] {
      hide Step, Inv, Grows, KeepsValues, CopiesFromStorage, CopyFromStorage;
      var s1 := Step(s, actions[0]);
      assert GuardedOnly(actions[1..]);
      GuardedStep(s, actions[0]);
      GuardedStepKeepsCopies(s, actions[0]);
      StepKeepsInv(s, actions[0]);
      GuardedRunsAreAdditive(s1, actions[1..]);
      GuardedRunsGrow(s1, actions[1..]);
      AllGrowTransitive(s.server.data, s1.server.data, Run(s, actions).server.data);
    } else {
      assert forall p: Program :: KeepsValues(p, p);
    }
  }

  /** Once a copy has been committed, submitting it again, at any later point of any guarded run and
      by either operation, changes no data field of the stored program. */
  lemma ResubmissionIsNoOp(s: System, c: nat, actions: seq<Action>, again: GuardedOp, n: nat)
    requires Inv(s) && c in s.clients && s.clients[c].phase.Numbered?
    requires Step(s, Exec(c)).clients[c].phase.Finished?
    requires GuardedOnly(actions)
    requires again.program == s.clients[c].op.program
    requires again.program.atomicCounter <= s.clients[c].phase.counter
    ensures var d := Run(Step(s, Exec(c)), actions).server.data;
            var id := again.program.id;
            && id in d.blobs
            && Commit(d, again, Lookup(d, id), n).Ok?
            && SameData(Commit(d, again, Lookup(d, id), n).value.blobs[id], d.blobs[id])
  {
    var client := s.clients[c];
    var copy, m := client.op.program, client.phase.counter;
    var s1 := Step(s, Exec(c));
    var d0, d1 := s.server.data, s1.server.data;
    assert ClientOk(s.server, s.history, client);
    CommittedIsAbsorbed(s, c);
    StepKeepsInv(s, Exec(c));
    GuardedRunsGrow(s1, actions);
    var d := Run(s1, actions).server.data;
    hide Run, Step;
    assert Grows(d1.blobs[copy.id], d.blobs[copy.id]);
    AbsorbedPersists(d1.blobs[copy.id], d.blobs[copy.id], copy);
    MergeIsNoOpIffAbsorbed(d.blobs[copy.id], copy);
  }

  /** What a commit leaves in the store: the copy itself for an unknown id, otherwise the merge; `update`
      keeps the stored state and touches no status set, a transition takes the merged state and leaves the
      id in the set of that state and in none that was named or stored before. */
  lemma CommitWrites(d: Data, op: GuardedOp, n: nat)
    requires Keyed(d) && Commit(d, op, Lookup(d, op.program.id), n).Ok?
    ensures var p, d' := op.program, Commit(d, op, Lookup(d, op.program.id), n).value;
            && p.id in d'.blobs
            && d'.blobs == d.blobs[p.id := d'.blobs[p.id]]
            && d'.blobs[p.id].atomicCounter == n
            && (p.id !in d.blobs ==> d'.blobs[p.id] == p.(atomicCounter := n))
            && (p.id in d.blobs ==>
                  && MergesData(d.blobs[p.id], p, d'.blobs[p.id])
                  && d'.blobs[p.id].state ==
                     if op.Update? then d.blobs[p.id].state else MergeStates(d.blobs[p.id].state, p.state))
            && (op.Update? ==> d'.index == d.index)
            && (op.Transition? ==> forall st, id :: (st, id) in d'.index <==>
                  if id != p.id then (st, id) in d.index
                  else st == Lifecycle(d'.blobs[p.id].state)
                       || ((st, id) in d.index && op.oldState != Some(st)
                           && (id in d.blobs ==> st != Lifecycle(d.blobs[id].state))))
  {
    var p, d' := op.program, Commit(d, op, Lookup(d, op.program.id), n).value;
    if p.id in d.blobs {
      MergedFields(d.blobs[p.id], p);
    }
    hide MergePrograms, TakesBoth, MergeStates;
    if op.Transition? {
      forall st, id ensures (st, id) in d'.index <==>
          if id != p.id then (st, id) in d.index
          else st == Lifecycle(d'.blobs[p.id].state)
               || ((st, id) in d.index && op.oldState != Some(st)
                   && (id in d.blobs ==> st != Lifecycle(d.blobs[id].state)))
      {
        assert (st, id).0 == st && (st, id).1 == id;
      }
    }
  }

  lemma CommittedIsAbsorbed(s: System, c: nat)
    requires Inv(s) && c in s.clients && s.clients[c].phase.Numbered?
    requires Step(s, Exec(c)).clients[c].phase.Finished?
    ensures var p := s.clients[c].op.program;
            var d, d' := s.server.data, Step(s, Exec(c)).server.data;
            && p.id in d'.blobs
            && Absorbed(d'.blobs[p.id], p)
            && d'.blobs[p.id].atomicCounter == s.clients[c].phase.counter
            && d'.blobs == d.blobs[p.id := d'.blobs[p.id]]
            && (p.id !in d.blobs ==> d'.blobs[p.id] == p.(atomicCounter := s.clients[c].phase.counter))
            && (p.id in d.blobs ==>
                  && MergesData(d.blobs[p.id], p, d'.blobs[p.id])
                  && d'.blobs[p.id].state == if s.clients[c].op.Update? then d.blobs[p.id].state
                                             else MergeStates(d.blobs[p.id].state, p.state))
  {
    hide Commit;
    var client := s.clients[c];
    var d := s.server.data;
    ExecMergesCurrent(s, c);
    assert ClientOk(s.server, s.history, client);
    CommitFrame(d, client.op, Lookup(d, Key(client)), client.phase.counter);
    CommitWrites(d, client.op, client.phase.counter);
    hide MergesData, MergeStates;
    if Key(client) in d.blobs {
      CommitGrows(d, client.op, client.phase.counter);
    }
  }
}
