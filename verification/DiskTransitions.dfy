/** What the disk store's transition, which does not merge, loses against the stored revision
    (gigaevo/database/disk_program_storage.py, gigaevo/database/redis_program_storage.py). */
module DiskTransitions {
  import opened Basics
  import opened ProgramState
  import opened MergeStrategies
  import opened DiskStorage
  import RedisData

  /** Everything `q` holds is still there in `q'`. */
  ghost predicate NothingLost(q: Program, q': Program) {
    Grows(q, q') && KeepsValues(q, q')
  }

  function ApplyUpdates(m: Memory, copies: seq<Program>): Memory {
    if copies == [] then m
    else Apply(ApplyUpdates(m, copies[..|copies| - 1]), Update(copies[|copies| - 1]))
  }

  ghost predicate Counted(m: Memory) {
    forall id :: id in m.programs ==> m.programs[id].atomicCounter <= m.counter
  }

  lemma UpdateGrows(m: Memory, p: Program, id: Id)
    requires KeyedById(m.programs) && Counted(m) && id in m.programs
    ensures var m' := Apply(m, Update(p));
            KeyedById(m'.programs) && Counted(m') && id in m'.programs && Grows(m.programs[id], m'.programs[id])
  {
    if p.id in m.programs && MergePrograms(Some(m.programs[p.id]), p).Ok? {
      MergeGrows(m.programs[p.id], p);
    }
  }

  lemma {:induction false} UpdatesGrow(m: Memory, copies: seq<Program>, id: Id)
    requires KeyedById(m.programs) && Counted(m) && id in m.programs
    ensures var m' := ApplyUpdates(m, copies);
            KeyedById(m'.programs) && Counted(m') && id in m'.programs && Grows(m.programs[id], m'.programs[id])
  {
    if copies != [] {
      var mid := ApplyUpdates(m, copies[..|copies| - 1]);
      UpdatesGrow(m, copies[..|copies| - 1], id);
      UpdateGrows(mid, copies[|copies| - 1], id);
      GrowsTransitive(m.programs[id], mid.programs[id], ApplyUpdates(m, copies).programs[id]);
    }
  }

  /** A caller reads a program, other callers `update` it any number of times, then the first one moves its
      copy to another state: nothing is lost exactly when the updates changed no data. */
  lemma StaleTransitionLosesNothingIff(m: Memory, id: Id, copies: seq<Program>, state: State)
    requires KeyedById(m.programs) && Counted(m) && id in m.programs
    ensures var m1 := ApplyUpdates(m, copies);
            var m2 := Apply(m1, Transition(m.programs[id].(state := state)));
            && id in m1.programs && id in m2.programs
            && (NothingLost(m1.programs[id], m2.programs[id]) <==> SameData(m.programs[id], m1.programs[id]))
  {
    hide ApplyUpdates;
    UpdatesGrow(m, copies, id);
    var m1 := ApplyUpdates(m, copies);
    var read, stored := m.programs[id], m1.programs[id];
    var after := Apply(m1, Transition(read.(state := state))).programs[id];
    assert after == Stamp(read.(state := state), m1.counter + 1);
    if NothingLost(stored, after) {
      assert read.lineage.children == stored.lineage.children;
      assert read.metadata == stored.metadata;
      assert read.metrics == stored.metrics;
      assert read.stageResults == stored.stageResults;
    }
  }

  /** A metric added by an `update` is dropped by a transition with the copy read before it, while the
      Redis store's transition keeps it. */
  lemma OldCopyDropsMetric(p: Program, key: string, value: Json, n: nat)
    requires p.state == Running && key !in p.metrics
    ensures var m1 := Apply(Memory(map[p.id := p], {(Running, p.id)}, p.atomicCounter),
                            Update(p.(metrics := p.metrics[key := value])));
            var done := p.(state := Done);
            var kept := RedisData.Commit(RedisData.Data(m1.programs, {}), RedisData.Transition(done, None),
                                         Some(m1.programs[p.id]), n);
            && key in m1.programs[p.id].metrics
            && key !in Apply(m1, Transition(done)).programs[p.id].metrics
            && kept.Ok? && key in kept.value.blobs[p.id].metrics
  {
  }

  /** The parts of a program a copy must agree on or include for the merge to return the copy itself. */
  predicate MergesToItself(stored: Program, copy: Program) {
    var newer := copy.atomicCounter > stored.atomicCounter;
    && copy.createdAt == stored.createdAt && copy.iteration == stored.iteration
    && copy.lineage.(children := []) == stored.lineage.(children := [])
    && copy.lineage.children
       == stored.lineage.children + Without(copy.lineage.children, Elements(stored.lineage.children))
    && (stored.name.Some? ==> copy.name == stored.name)
    && ValidTransition(stored.state, copy.state)
    && (newer || copy.code == stored.code)
    && Includes(stored.metadata, copy.metadata, newer)
    && Includes(stored.metrics, copy.metrics, newer)
    && Includes(stored.stageResults, copy.stageResults, newer)
  }

  predicate Includes(stored: Dict, copy: Dict, newer: bool) {
    forall k :: k in stored ==> k in copy && (newer || copy[k] == stored[k])
  }

  lemma MergedDictIsIncomingIff(stored: Dict, copy: Dict, newer: bool)
    ensures MergedDict(stored, copy, newer) == copy <==> Includes(stored, copy, newer)
  {
    var r := MergedDict(stored, copy, newer);
    if r == copy {
      forall k | k in stored ensures k in copy && (newer || copy[k] == stored[k]) {
        assert k in r;
      }
    }
  }

  /** On a known id the two stores' transitions write the same program exactly when the caller's copy
      already includes the stored revision and its state may legally follow the stored one. */
  lemma StoresAgreeIff(m: Memory, p: Program)
    requires p.id in m.programs && m.programs[p.id].id == p.id
    ensures var stored, n := m.programs[p.id], m.counter + 1;
            MergePrograms(Some(stored), p).Ok?
            && Stamp(MergePrograms(Some(stored), p).value, n) == Apply(m, Transition(p)).programs[p.id]
            <==> MergesToItself(stored, p)
  {
    var stored := m.programs[p.id];
    var newer := p.atomicCounter > stored.atomicCounter;
    MergedDictIsIncomingIff(stored.metadata, p.metadata, newer);
    MergedDictIsIncomingIff(stored.metrics, p.metrics, newer);
    MergedDictIsIncomingIff(stored.stageResults, p.stageResults, newer);
    MergeStatesSymmetric(stored.state, p.state);
    hide MergedDict, Includes, MergeStates, ValidTransition;
  }

}
