/** Crash safety of the disk-backed store: a crash may fall before or after any file write of any
    operation of a run, any number of times. */
module DiskCrashes {
  import opened Basics
  import opened ProgramState
  import opened MergeStrategies
  import opened DiskStorage

  lemma {:induction false} RebuiltCounterExists(programs: Programs) returns (counter: int)
    ensures IsRebuiltCounter(programs, counter)
    decreases |programs|
  {
    if programs == map[] {
      counter := 0;
    } else {
      var id :| id in programs;
      var rest := programs - {id};
      var c := RebuiltCounterExists(rest);
      RebuiltStep(rest, c, id, programs[id]);
      assert rest[id := programs[id]] == programs;
      counter := if programs[id].atomicCounter > c then programs[id].atomicCounter else c;
    }
  }

  lemma RebuiltCounterUnique(programs: Programs, a: int, b: int)
    requires IsRebuiltCounter(programs, a) && IsRebuiltCounter(programs, b)
    ensures a == b
  {
  }

  ghost function RebuiltCounter(programs: Programs): (counter: int)
    ensures IsRebuiltCounter(programs, counter)
  {
    assert exists c :: IsRebuiltCounter(programs, c) by {
      var c := RebuiltCounterExists(programs);
    }
    var c :| IsRebuiltCounter(programs, c);
    c
  }

  /** What a new process holds after loading. */
  ghost function Reload(d: Disk): (m: Memory)
    ensures Loaded(d, m)
  {
    Memory(d.files, IndexOf(d.files), RebuiltCounter(d.files))
  }

  /** Nothing else counts as loaded: what a restart holds is determined by the disk. */
  lemma ReloadIsTheOnlyLoad(d: Disk, m: Memory)
    requires Loaded(d, m)
    ensures m == Reload(d)
  {
    RebuiltCounterUnique(d.files, m.counter, RebuiltCounter(d.files));
  }

  // ----- runs with crashes -----

  datatype System = System(mem: Memory, disk: Disk)

  /** In a crash the process dies after so many of the operation's file writes and restarts. Recovery
      takes the RUNNING ids in some order. */
  datatype Event =
    | Completed(op: Op)
    | Crashed(op: Op, writes: nat)
    | Recovered(order: seq<Id>)
    | RecoveryCrashed(order: seq<Id>, writes: nat)

  function After(d: Disk, passed: seq<Disk>, writes: nat): Disk {
    Last(d, if writes <= |passed| then passed[..writes] else passed)
  }

  ghost predicate Enabled(s: System, e: Event) {
    match e
    case Recovered(order) => IsOrder(order, s.mem.index)
    case RecoveryCrashed(order, _) => IsOrder(order, s.mem.index)
    case _ => true
  }

  ghost function Step(s: System, e: Event): System {
    if !Enabled(s, e) then s
    else
      match e
      case Completed(op) => System(Apply(s.mem, op), Last(s.disk, Passed(s.disk, s.mem, op)))
      case Recovered(order) =>
        System(RequeueEach(s.mem, order), Last(s.disk, RecoveryPassed(s.disk, s.mem, order)))
      case Crashed(op, writes) =>
        var d := After(s.disk, Passed(s.disk, s.mem, op), writes);
        System(Reload(d), d)
      case RecoveryCrashed(order, writes) =>
        var d := After(s.disk, RecoveryPassed(s.disk, s.mem, order), writes);
        System(Reload(d), d)
  }

  ghost function Run(s: System, es: seq<Event>): System
    decreases |es|
  {
    if es == [] then s else Run(Step(s, es[0]), es[1..])
  }

  /** Revisions of stored programs are pairwise different and covered by the counter. */
  ghost predicate CountersOk(programs: Programs, counter: int) {
    && (forall i, j :: i in programs && j in programs && i != j
          ==> programs[i].atomicCounter != programs[j].atomicCounter)
    && forall i :: i in programs ==> programs[i].atomicCounter <= counter
  }

  ghost predicate IndexSound(index: StatusIndex, programs: Programs) {
    forall e :: e in index ==> e.1 in programs && programs[e.1].state == e.0
  }

  ghost predicate MemoryOk(m: Memory) {
    && KeyedById(m.programs)
    && CountersOk(m.programs, m.counter)
    && IndexSound(m.index, m.programs)
  }

  ghost predicate Inv(s: System) {
    s.mem.programs == s.disk.files && MemoryOk(s.mem)
  }

  lemma PassedFiles(s: System, op: Op)
    requires Inv(s)
    ensures var passed := Passed(s.disk, s.mem, op);
            && (forall d :: d in passed ==> d.files == s.mem.programs || d.files == Apply(s.mem, op).programs)
            && Last(s.disk, passed).files == Apply(s.mem, op).programs
  {
  }

  /** Wherever the crash falls, the reloaded program map is the one from just before or the one from
      just after the interrupted operation, and the rebuilt index agrees with it exactly. */
  lemma CrashIsAtomic(s: System, op: Op, writes: nat)
    requires Inv(s)
    ensures var s' := Step(s, Crashed(op, writes));
            && (s'.mem.programs == s.mem.programs || s'.mem.programs == Apply(s.mem, op).programs)
            && (writes >= |Passed(s.disk, s.mem, op)| ==> s'.mem.programs == Apply(s.mem, op).programs)
            && (forall id, st :: (st, id) in s'.mem.index <==>
                  id in s'.mem.programs && s'.mem.programs[id].state == st)
  {
    PassedFiles(s, op);
    hide Passed, Apply;
    var passed := Passed(s.disk, s.mem, op);
    var s' := Step(s, Crashed(op, writes));
    if 0 < writes <= |passed| {
      assert After(s.disk, passed, writes) == passed[writes - 1];
    }
    if writes == |passed| {
      assert passed[..writes] == passed;
    }
    forall id, st | id in s'.mem.programs && s'.mem.programs[id].state == st ensures (st, id) in s'.mem.index {
      assert (st, id) in IndexOf(s'.mem.programs);
    }
  }

  lemma UpdatedId(programs: Programs, p: Program)
    requires KeyedById(programs) && Updated(programs, p).Some?
    ensures Updated(programs, p).value.id == p.id
    ensures p.id in programs ==> Updated(programs, p).value.state == programs[p.id].state
  {
  }

  lemma ApplyKeepsCounters(m: Memory, op: Op)
    requires KeyedById(m.programs) && CountersOk(m.programs, m.counter)
    ensures KeyedById(Apply(m, op).programs) && CountersOk(Apply(m, op).programs, Apply(m, op).counter)
  {
    if op.Update? && Updated(m.programs, op.program).Some? {
      UpdatedId(m.programs, op.program);
    }
    hide Updated;
  }

  lemma ApplyKeepsIndex(m: Memory, op: Op)
    requires KeyedById(m.programs) && IndexSound(m.index, m.programs)
    ensures IndexSound(Apply(m, op).index, Apply(m, op).programs)
  {
    if op.Update? && Updated(m.programs, op.program).Some? {
      UpdatedId(m.programs, op.program);
    }
    hide Updated;
  }

  lemma ApplyKeepsInv(s: System, op: Op)
    requires Inv(s)
    ensures Inv(Step(s, Completed(op)))
  {
    hide Passed, Apply, KeyedById, CountersOk, IndexSound;
    PassedFiles(s, op);
    ApplyKeepsCounters(s.mem, op);
    ApplyKeepsIndex(s.mem, op);
  }

  ghost predicate IndexComplete(index: StatusIndex, programs: Programs) {
    forall id :: id in programs ==> (programs[id].state, id) in index
  }

  /** An operation leaves a complete index complete exactly unless it updates an unknown id, recovery leaves
      it complete, and every restart, from whatever crash, makes it complete. */
  lemma IndexCompleteIff(s: System, e: Event)
    requires Inv(s) && Enabled(s, e)
    ensures var m := Step(s, e).mem;
            match e
            case Crashed(_, _) => IndexComplete(m.index, m.programs)
            case RecoveryCrashed(_, _) => IndexComplete(m.index, m.programs)
            case Recovered(_) => IndexComplete(s.mem.index, s.mem.programs) ==> IndexComplete(m.index, m.programs)
            case Completed(op) =>
              IndexComplete(s.mem.index, s.mem.programs) ==>
                (IndexComplete(m.index, m.programs) <==> (op.Update? ==> op.program.id in s.mem.programs))
  {
    match e
    case Crashed(_, _) =>
    case RecoveryCrashed(_, _) =>
    case Recovered(order) =>
      if IndexComplete(s.mem.index, s.mem.programs) {
        OrderIsRunning(order, s.mem.index);
        RecoveryKeepsComplete(s.mem, order);
      }
    case Completed(op) =>
      if IndexComplete(s.mem.index, s.mem.programs) { OperationCompleteIff(s, op); }
  }

  lemma OperationCompleteIff(s: System, op: Op)
    requires Inv(s) && IndexComplete(s.mem.index, s.mem.programs)
    ensures var m := Apply(s.mem, op);
            IndexComplete(m.index, m.programs) <==> (op.Update? ==> op.program.id in s.mem.programs)
  {
    var m := Apply(s.mem, op);
    match op
    case Update(p) =>
      if p.id in s.mem.programs {
        if Updated(s.mem.programs, p).Some? { UpdatedId(s.mem.programs, p); }
      } else {
        var e := (m.programs[p.id].state, p.id);
        assert e !in s.mem.index by { assert e.1 == p.id; }
      }
    case _ =>
  }

  lemma {:induction false} RecoveryKeepsComplete(m: Memory, order: seq<Id>)
    requires MemoryOk(m) && IndexComplete(m.index, m.programs)
    requires Distinct(order) && forall id :: id in order ==> (Running, id) in m.index
    ensures IndexComplete(RequeueEach(m, order).index, RequeueEach(m, order).programs)
  {
    if order != [] {
      var init, last := order[..|order| - 1], order[|order| - 1];
      assert order == init + [last];
      assert last !in init;
      RecoveryKeepsComplete(m, init);
      RecoveryKeepsMemory(m, init);
      hide RequeueEach;
      var mid := RequeueEach(m, init);
      assert (Running, last).1 == last && mid.programs[last].state == Running;
      assert RequeueEach(m, order) == Requeue(mid, last) by { RequeueSnoc(Disk(map[], {}, {}), m, init, last); }
      forall id | id in Requeue(mid, last).programs
        ensures (Requeue(mid, last).programs[id].state, id) in Requeue(mid, last).index
      {
        assert id != last ==> (mid.programs[id].state, id) in mid.index;
      }
    }
  }

  /** A new program handed to `update` on an empty directory is stored and not indexed. */
  lemma UpdateLeavesUnindexed(p: Program)
    ensures var m := Apply(Memory(map[], {}, 0), Update(p));
            p.id in m.programs && m.index == {} && !IndexComplete(m.index, m.programs)
  {
    var m := Apply(Memory(map[], {}, 0), Update(p));
    assert (m.programs[p.id].state, p.id) !in m.index;
  }

  // ----- recovery as an operation of the run -----

  lemma RequeueKeepsMemory(m: Memory, id: Id)
    requires MemoryOk(m) && (Running, id) in m.index
    ensures MemoryOk(Requeue(m, id))
    ensures forall j :: j != id && (Running, j) in m.index ==> (Running, j) in Requeue(m, id).index
  {
    assert (Running, id).1 == id && m.programs[id].state == Running;
    var m' := Requeue(m, id);
    forall e | e in m'.index ensures e.1 in m'.programs && m'.programs[e.1].state == e.0 {
      if e.1 != id { assert e in m.index; }
    }
  }

  lemma {:induction false} RecoveryKeepsMemory(m: Memory, order: seq<Id>)
    requires MemoryOk(m) && Distinct(order) && forall id :: id in order ==> (Running, id) in m.index
    ensures MemoryOk(RequeueEach(m, order))
    ensures forall j :: j !in order && (Running, j) in m.index ==> (Running, j) in RequeueEach(m, order).index
  {
    if order != [] {
      hide Requeue, MemoryOk;
      var init, last := order[..|order| - 1], order[|order| - 1];
      assert order == init + [last];
      assert last !in init;
      RecoveryKeepsMemory(m, init);
      RequeueKeepsMemory(RequeueEach(m, init), last);
    }
  }

  /** What recovery has written after the first `k` ids. */
  ghost predicate WrittenUpTo(m: Memory, order: seq<Id>, d: Disk, k: int) {
    0 <= k <= |order| && d.files == RequeueEach(m, order[..k]).programs
  }

  lemma {:induction false} RecoveryPassedFiles(d: Disk, m: Memory, order: seq<Id>)
    requires d.files == m.programs && MemoryOk(m)
    requires Distinct(order) && forall id :: id in order ==> (Running, id) in m.index
    ensures Last(d, RequeueEachPassed(d, m, order)).files == RequeueEach(m, order).programs
    ensures forall x :: x in RequeueEachPassed(d, m, order) ==> exists k :: WrittenUpTo(m, order, x, k)
  {
    if order != [] {
      var n := |order|;
      var init, last := order[..n - 1], order[n - 1];
      assert order == init + [last];
      RecoveryPassedFiles(d, m, init);
      RecoveryKeepsMemory(m, init);
      var before, mid := RequeueEachPassed(d, m, init), RequeueEach(m, init);
      RequeuePassedFiles(Last(d, before), mid, last);
      hide RequeuePassed, RequeueEach, Requeue;
      RequeueSnoc(d, m, init, last);
      var added := RequeuePassed(Last(d, before), mid, last);
      LastConcat(d, before, added);
      assert order[..n - 1] == init && order[..n] == order;
      forall x | x in RequeueEachPassed(d, m, order) ensures exists k :: WrittenUpTo(m, order, x, k) {
        if x in before {
          var k :| WrittenUpTo(m, init, x, k);
          assert init[..k] == order[..k];
          assert WrittenUpTo(m, order, x, k);
        } else {
          assert x in added;
          assert WrittenUpTo(m, order, x, n - 1) || WrittenUpTo(m, order, x, n);
        }
      }
    }
  }

  lemma RequeuePassedFiles(d: Disk, m: Memory, id: Id)
    requires d.files == m.programs && KeyedById(m.programs)
    ensures var passed := RequeuePassed(d, m, id);
            && Last(d, passed).files == Requeue(m, id).programs
            && forall x :: x in passed ==> x.files == m.programs || x.files == Requeue(m, id).programs
  {
  }

  /** Wherever a crash interrupts recovery, the reloaded map is that of recovery after some of the ids. */
  lemma RecoveryCrashIsPartial(s: System, order: seq<Id>, writes: nat)
    requires Inv(s) && IsOrder(order, s.mem.index)
    ensures exists k :: WrittenUpTo(s.mem, order, After(s.disk, RecoveryPassed(s.disk, s.mem, order), writes), k)
    ensures Last(s.disk, RecoveryPassed(s.disk, s.mem, order)).files == RequeueEach(s.mem, order).programs
  {
    OrderIsRunning(order, s.mem.index);
    RecoveryPassedFiles(s.disk, s.mem, order);
    assert s.disk.files == s.mem.programs && RequeueEach(s.mem, []) == s.mem;
    hide RequeueEach, RequeueEachPassed, Inv, IsOrder;
    var each, passed := RequeueEachPassed(s.disk, s.mem, order), RecoveryPassed(s.disk, s.mem, order);
    var d := After(s.disk, passed, writes);
    assert order[..|order|] == order && order[..0] == [];
    if d == s.disk {
      assert WrittenUpTo(s.mem, order, d, 0);
    } else {
      assert d in passed;
      if d !in each {
        assert d.files == Last(s.disk, each).files;
        assert WrittenUpTo(s.mem, order, d, |order|);
      }
    }
  }

  lemma OrderIsRunning(order: seq<Id>, index: StatusIndex)
    requires IsOrder(order, index)
    ensures Distinct(order) && forall id :: id in order ==> (Running, id) in index
  {
    forall id | id in order ensures (Running, id) in index {
      assert id in Elements(order);
    }
  }

  lemma RecoveryKeepsInv(s: System, order: seq<Id>)
    requires Inv(s) && IsOrder(order, s.mem.index)
    ensures Inv(Step(s, Recovered(order)))
  {
    OrderIsRunning(order, s.mem.index);
    RecoveryKeepsMemory(s.mem, order);
    RecoveryCrashIsPartial(s, order, 0);
    hide RequeueEach, RecoveryPassed, MemoryOk, IsOrder;
  }

  lemma RecoveryCrashKeepsInv(s: System, order: seq<Id>, writes: nat)
    requires Inv(s) && IsOrder(order, s.mem.index)
    ensures Inv(Step(s, RecoveryCrashed(order, writes)))
  {
    OrderIsRunning(order, s.mem.index);
    RecoveryCrashIsPartial(s, order, writes);
    var d := After(s.disk, RecoveryPassed(s.disk, s.mem, order), writes);
    var k :| WrittenUpTo(s.mem, order, d, k);
    forall id | id in order[..k] ensures id in order {
    }
    RecoveryKeepsMemory(s.mem, order[..k]);
    hide RequeueEach, RecoveryPassed, IsOrder, IsRebuiltCounter;
    LoadKeepsCounters(d.files, RequeueEach(s.mem, order[..k]).counter);
  }

  lemma StepKeepsInv(s: System, e: Event)
    requires Inv(s)
    ensures Inv(Step(s, e))
  {
    hide Passed, Apply, IsRebuiltCounter, RequeueEach, RecoveryPassed;
    match e
    case Completed(op) => ApplyKeepsInv(s, op);
    case Recovered(order) =>
      if Enabled(s, e) { RecoveryKeepsInv(s, order); }
    case RecoveryCrashed(order, writes) =>
      if Enabled(s, e) { RecoveryCrashKeepsInv(s, order, writes); }
    case Crashed(op, writes) =>
      ApplyKeepsInv(s, op);
      CrashIsAtomic(s, op, writes);
      LoadKeepsCounters(s.mem.programs, s.mem.counter);
      LoadKeepsCounters(Apply(s.mem, op).programs, Apply(s.mem, op).counter);
  }

  lemma LoadKeepsCounters(programs: Programs, counter: int)
    requires CountersOk(programs, counter)
    ensures CountersOk(programs, RebuiltCounter(programs))
  {
  }

  /** Over every run of operations and recoveries with any number of crashes: memory and disk hold the
      same programs, the index is sound, and the revisions of stored programs are distinct and covered by
      the counter, although a restart may rebuild a smaller counter than the one that was lost. */
  lemma {:induction false} RunKeepsInv(s: System, es: seq<Event>)
    requires Inv(s)
    ensures Inv(Run(s, es))
    decreases |es|
  {
    hide Step, Inv;
    if es != [] {
      StepKeepsInv(s, es[0]);
      RunKeepsInv(Step(s, es[0]), es[1..]);
    }
  }

  // ----- restartable recovery -----

  function RunningPrograms(programs: Programs): set<Id> {
    set id | id in programs && programs[id].state == Running
  }

  lemma LoadedRunning(d: Disk, m: Memory)
    requires Loaded(d, m)
    ensures RunningIds(m.index) == RunningPrograms(d.files)
    ensures RunningIds(m.index) * m.programs.Keys == RunningPrograms(d.files)
  {
    forall id | id in RunningPrograms(d.files) ensures id in RunningIds(m.index) {
      assert (Running, id) in m.index;
    }
  }

  /** A disk content that an interrupted recovery of `before` may leave behind. */
  ghost predicate LeftBehind(before: Programs, after: Programs) {
    exists done: set<Id> :: done <= RunningPrograms(before) && RecoveredOn(before, after, done)
  }

  lemma LeftBehindRunning(before: Programs, after: Programs, done: set<Id>)
    requires RecoveredOn(before, after, done)
    ensures RunningPrograms(after) == RunningPrograms(before) - done
  {
  }

  lemma RecoveredOnCompose(a: Programs, b: Programs, c: Programs, i: set<Id>, j: set<Id>)
    requires RecoveredOn(a, b, i) && RecoveredOn(b, c, j)
    ensures RecoveredOn(a, c, i + j)
  {
  }

  /** Recovery may crash and restart any number of times: `disks` are the contents left behind by the
      successive attempts, the last attempt runs to its end. */
  lemma {:induction false} RecoveryIsRestartable(disks: seq<Programs>, final: Programs)
    requires |disks| > 0
    requires forall i :: 0 <= i < |disks| - 1 ==> LeftBehind(disks[i], disks[i + 1])
    requires RecoveredOn(disks[|disks| - 1], final, RunningPrograms(disks[|disks| - 1]))
    ensures RecoveredOn(disks[0], final, RunningPrograms(disks[0]))
    decreases |disks|
  {
    if |disks| > 1 {
      hide RecoveredOn, RunningPrograms;
      RecoveryIsRestartable(disks[1..], final);
      assert LeftBehind(disks[0], disks[1]);
      var done :| done <= RunningPrograms(disks[0]) && RecoveredOn(disks[0], disks[1], done);
      LeftBehindRunning(disks[0], disks[1], done);
      RecoveredOnCompose(disks[0], disks[1], final, done, RunningPrograms(disks[1]));
      assert done + (RunningPrograms(disks[0]) - done) == RunningPrograms(disks[0]);
    }
  }

  /** Requeuing ids one by one is a recovery on them. */
  lemma {:induction false} RequeueEachRecovers(m: Memory, order: seq<Id>)
    requires KeyedById(m.programs)
    ensures KeyedById(RequeueEach(m, order).programs)
    ensures RecoveredOn(m.programs, RequeueEach(m, order).programs, Elements(order))
  {
    if order == [] {
      RecoveredOnNothing(m.programs, m.index);
      assert Elements(order) == {};
    } else {
      var init, last := order[..|order| - 1], order[|order| - 1];
      assert order == init + [last];
      RequeueEachRecovers(m, init);
      ElementsSnoc(init, last);
      var mid := RequeueEach(m, init);
      RecoveredOnStep(m.programs, mid.programs, Elements(init), last, mid.counter + 1);
      hide RecoveredOn;
      assert RequeueEach(m, order).programs == RequeuedOne(mid.programs, last, mid.counter + 1);
    }
  }

  lemma ExactRunningIds(m: Memory)
    requires MemoryOk(m) && IndexComplete(m.index, m.programs)
    ensures RunningIds(m.index) == RunningPrograms(m.programs)
  {
    forall id | id in RunningIds(m.index) ensures id in RunningPrograms(m.programs) {
      assert (Running, id) in m.index && (Running, id).1 == id;
    }
    forall id | id in RunningPrograms(m.programs) ensures id in RunningIds(m.index) {
      assert (Running, id) in m.index;
    }
  }

  /** After a crash in recovery the restarted process holds a partial recovery of what was there before. */
  lemma CrashLeavesPartOfRecovery(s: System, e: Event)
    requires Inv(s) && IndexComplete(s.mem.index, s.mem.programs) && e.RecoveryCrashed?
    ensures var s' := Step(s, e);
            && Inv(s') && IndexComplete(s'.mem.index, s'.mem.programs)
            && LeftBehind(s.mem.programs, s'.mem.programs)
  {
    StepKeepsInv(s, e);
    if !Enabled(s, e) {
      RecoveredOnNothing(s.mem.programs, s.mem.index);
    } else {
      assert KeyedById(s.mem.programs);
      hide MemoryOk, RequeueEach, RecoveryPassed, RecoveredOn, IndexComplete;
      IndexCompleteIff(s, e);
      RecoveryCrashIsPartial(s, e.order, e.writes);
      ExactRunningIds(s.mem);
      OrderIsRunning(e.order, s.mem.index);
      var d := After(s.disk, RecoveryPassed(s.disk, s.mem, e.order), e.writes);
      var k :| WrittenUpTo(s.mem, e.order, d, k);
      RequeueEachRecovers(s.mem, e.order[..k]);
      assert Elements(e.order[..k]) <= Elements(e.order);
    }
  }

  lemma LeftBehindTransitive(a: Programs, b: Programs, c: Programs)
    requires LeftBehind(a, b) && LeftBehind(b, c)
    ensures LeftBehind(a, c)
  {
    hide RecoveredOn, RunningPrograms;
    var i :| i <= RunningPrograms(a) && RecoveredOn(a, b, i);
    var j :| j <= RunningPrograms(b) && RecoveredOn(b, c, j);
    LeftBehindRunning(a, b, i);
    RecoveredOnCompose(a, b, c, i, j);
    assert i + j <= RunningPrograms(a);
  }

  lemma {:induction false} CrashesLeavePartOfRecovery(s: System, crashes: seq<Event>)
    requires Inv(s) && IndexComplete(s.mem.index, s.mem.programs) && forall e :: e in crashes ==> e.RecoveryCrashed?
    ensures var s' := Run(s, crashes);
            && Inv(s') && IndexComplete(s'.mem.index, s'.mem.programs)
            && LeftBehind(s.mem.programs, s'.mem.programs)
    decreases |crashes|
  {
    hide Step, Inv, IndexComplete, LeftBehind;
    if crashes == [] {
      LeftBehindItself(s.mem.programs);
    } else {
      var s1 := Step(s, crashes[0]);
      CrashLeavesPartOfRecovery(s, crashes[0]);
      CrashesLeavePartOfRecovery(s1, crashes[1..]);
      LeftBehindTransitive(s.mem.programs, s1.mem.programs, Run(s, crashes).mem.programs);
    }
  }

  lemma LeftBehindItself(programs: Programs)
    ensures LeftBehind(programs, programs)
  {
    RecoveredOnNothing(programs, {});
  }

  /** Over runs: however often recovery crashes, wherever, and in whatever orders its attempts take the ids,
      the first attempt that completes leaves what one undisturbed recovery of the start would. */
  lemma RestartedRecoveryRecovers(s: System, crashes: seq<Event>, order: seq<Id>)
    requires Inv(s) && IndexComplete(s.mem.index, s.mem.programs) && forall e :: e in crashes ==> e.RecoveryCrashed?
    requires Enabled(Run(s, crashes), Recovered(order))
    ensures var s' := Step(Run(s, crashes), Recovered(order));
            && RecoveredOn(s.mem.programs, s'.mem.programs, RunningPrograms(s.mem.programs))
            && s'.disk.files == s'.mem.programs
  {
    hide Run, RecoveredOn, IndexComplete, RequeueEach, RecoveryPassed, CountersOk, IndexSound;
    CrashesLeavePartOfRecovery(s, crashes);
    var mid := Run(s, crashes);
    RecoveryKeepsInv(mid, order);
    ExactRunningIds(mid.mem);
    RequeueEachRecovers(mid.mem, order);
    var final := RequeueEach(mid.mem, order).programs;
    var disks := [s.mem.programs, mid.mem.programs];
    RecoveryIsRestartable(disks, final);
  }

  /** What a complete recovery means: nothing is RUNNING, what was RUNNING is QUEUED with its data,
      everything else is untouched; two such recoveries differ at most in revision counters. */
  lemma RecoveryOutcome(before: Programs, after: Programs, other: Programs)
    requires RecoveredOn(before, after, RunningPrograms(before))
    requires RecoveredOn(before, other, RunningPrograms(before))
    ensures RunningPrograms(after) == {}
    ensures forall id :: id in before ==>
              if before[id].state == Running
              then after[id].state == Queued && SameData(after[id], before[id])
              else after[id] == before[id]
    ensures after.Keys == other.Keys
    ensures forall id :: id in after ==> Stamp(after[id], 0) == Stamp(other[id], 0)
  {
    LeftBehindRunning(before, after, RunningPrograms(before));
    hide RunningPrograms;
  }

  /** The object's own method, started on a freshly loaded disk, whatever happened to that disk before. */
  method LoadAndRecover(d: Disk) returns (recovered: nat, s: DiskProgramStorage)
    requires KeyedById(d.files)
    ensures recovered == |RunningPrograms(d.files)|
    ensures RecoveredOn(d.files, s.programs, RunningPrograms(d.files))
    ensures exists order :: IsOrder(order, Reload(d).index) && s.Mem() == RequeueEach(Reload(d), order)
    ensures forall i :: 0 <= i < |s.trace| ==> LeftBehind(d.files, s.trace[i].files)
  {
    s := new DiskProgramStorage(d);
    ghost var m := s.Mem();
    LoadedRunning(d, m);
    ReloadIsTheOnlyLoad(d, m);
    ghost var order, passed;
    recovered, order, passed := s.RecoverStrandedPrograms();
    forall i | 0 <= i < |s.trace| ensures LeftBehind(d.files, s.trace[i].files) {
      assert s.trace[i] in passed;
    }
  }
}
