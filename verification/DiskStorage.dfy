/** The disk-backed store: authoritative maps in memory, written through to one file per program,
    reloaded after a crash (gigaevo/database/disk_program_storage.py). */
module DiskStorage {
  import opened Basics
  import opened ProgramState
  import opened MergeStrategies

  type Programs = map<Id, Program>
  type StatusIndex = set<(State, Id)>

  datatype File = ProgramFile(id: Id) | StatusFile

  /** `temporaries` are half-written `.tmp` files; loading never looks at them. */
  datatype Disk = Disk(files: Programs, statusFile: StatusIndex, temporaries: set<File>)

  datatype Memory = Memory(programs: Programs, index: StatusIndex, counter: int)

  datatype Op = Add(program: Program) | Update(program: Program) | Remove(id: Id) | Transition(program: Program)

  // ----- specification of one operation -----

  function DiscardFromAll(index: StatusIndex, id: Id): StatusIndex {
    set e | e in index && e.1 != id
  }

  /** What `update` stores: nothing when the merge refuses, else the merge in the stored state. */
  function Updated(programs: Programs, p: Program): Option<Program> {
    if p.id !in programs then Some(p)
    else
      match MergePrograms(Some(programs[p.id]), p)
      case Ok(merged) => Some(merged.(state := programs[p.id].state))
      case Err(_) => None
  }

  function Apply(m: Memory, op: Op): Memory {
    match op
    case Remove(id) => m.(programs := m.programs - {id}, index := DiscardFromAll(m.index, id))
    case Update(p) =>
      (match Updated(m.programs, p)
       case None => m
       case Some(q) => m.(programs := m.programs[p.id := Stamp(q, m.counter + 1)], counter := m.counter + 1))
    case _ =>
      var q := Stamp(op.program, m.counter + 1);
      Memory(m.programs[q.id := q], DiscardFromAll(m.index, q.id) + {(q.state, q.id)}, m.counter + 1)
  }

  /** Every content the disk passes through while one program file is replaced atomically. */
  function ReplaceProgram(d: Disk, p: Program): seq<Disk> {
    [d.(temporaries := d.temporaries + {ProgramFile(p.id)}),
     d.(files := d.files[p.id := p], temporaries := d.temporaries - {ProgramFile(p.id)})]
  }

  function ReplaceStatus(d: Disk, index: StatusIndex): seq<Disk> {
    [d.(temporaries := d.temporaries + {StatusFile}),
     d.(statusFile := index, temporaries := d.temporaries - {StatusFile})]
  }

  function Last(d: Disk, passed: seq<Disk>): Disk {
    if passed == [] then d else passed[|passed| - 1]
  }

  function Passed(d: Disk, m: Memory, op: Op): seq<Disk> {
    var after := Apply(m, op);
    match op
    case Remove(id) =>
      var d1 := d.(files := d.files - {id});
      [d1] + ReplaceStatus(d1, after.index)
    case Update(p) =>
      if Updated(m.programs, p).None? then [] else ReplaceProgram(d, after.programs[p.id])
    case _ =>
      var passed := ReplaceProgram(d, after.programs[op.program.id]);
      passed + ReplaceStatus(passed[1], after.index)
  }

  // ----- specification of recovery, the RUNNING ids being taken in some order -----

  function Requeue(m: Memory, id: Id): Memory {
    var index := m.index - {(Running, id)};
    if id !in m.programs then m.(index := index)
    else
      var q := Stamp(m.programs[id].(state := Queued), m.counter + 1);
      Memory(m.programs[id := q], index + {(Queued, id)}, m.counter + 1)
  }

  function RequeuePassed(d: Disk, m: Memory, id: Id): seq<Disk> {
    if id in m.programs then ReplaceProgram(d, Requeue(m, id).programs[id]) else []
  }

  function RequeueEach(m: Memory, ids: seq<Id>): Memory {
    if ids == [] then m else Requeue(RequeueEach(m, ids[..|ids| - 1]), ids[|ids| - 1])
  }

  function RequeueEachPassed(d: Disk, m: Memory, ids: seq<Id>): seq<Disk> {
    if ids == [] then []
    else
      var init, before := ids[..|ids| - 1], RequeueEachPassed(d, m, ids[..|ids| - 1]);
      before + RequeuePassed(Last(d, before), RequeueEach(m, init), ids[|ids| - 1])
  }

  function RecoveryPassed(d: Disk, m: Memory, ids: seq<Id>): seq<Disk> {
    var each := RequeueEachPassed(d, m, ids);
    each + ReplaceStatus(Last(d, each), RequeueEach(m, ids).index)
  }

  lemma RequeueSnoc(d: Disk, m: Memory, ids: seq<Id>, id: Id)
    ensures RequeueEach(m, ids + [id]) == Requeue(RequeueEach(m, ids), id)
    ensures var before := RequeueEachPassed(d, m, ids);
            RequeueEachPassed(d, m, ids + [id]) == before + RequeuePassed(Last(d, before), RequeueEach(m, ids), id)
  {
    assert (ids + [id])[..|ids|] == ids;
  }

  lemma LastConcat(d: Disk, a: seq<Disk>, b: seq<Disk>)
    ensures Last(d, a + b) == Last(Last(d, a), b)
  {
  }

  function RunningIds(index: StatusIndex): set<Id> {
    set e | e in index && e.0 == Running :: e.1
  }

  /** `ids` lists the RUNNING set without repetition. */
  ghost predicate IsOrder(ids: seq<Id>, index: StatusIndex) {
    Distinct(ids) && Elements(ids) == RunningIds(index)
  }

  // ----- loading -----

  function IndexOf(programs: Programs): StatusIndex {
    set id | id in programs :: (programs[id].state, id)
  }

  /** The largest revision on disk, or 0. */
  ghost predicate IsRebuiltCounter(programs: Programs, counter: int) {
    && counter >= 0
    && (forall id :: id in programs ==> programs[id].atomicCounter <= counter)
    && (counter == 0 || exists id :: id in programs && programs[id].atomicCounter == counter)
  }

  ghost predicate Loaded(d: Disk, m: Memory) {
    && m.programs == d.files
    && m.index == IndexOf(d.files)
    && IsRebuiltCounter(d.files, m.counter)
  }

  // ----- the original's object -----

  class DiskProgramStorage {
    var programs: Programs
    var index: StatusIndex
    var counter: int
    var disk: Disk
    /** Every content the disk has had, so that a crash can be placed anywhere. */
    ghost var trace: seq<Disk>

    ghost function Mem(): Memory
      reads this
    {
      Memory(programs, index, counter)
    }

    ghost predicate Valid()
      reads this
    {
      KeyedById(programs) && disk.files == programs
    }

    /** A new process on an existing directory. */
    constructor (d: Disk)
      requires KeyedById(d.files)
      ensures Valid() && disk == d && trace == []
      ensures Loaded(d, Mem())
    {
      disk, trace := d, [];
      programs, index, counter := map[], {}, 0;
      new;
      var todo := d.files.Keys;
      ghost var done: set<Id> := {};
      assert Split(d.files.Keys, {}, todo);
      assert Restricted(d.files, {}) == map[] && Restricted(d.files, d.files.Keys) == d.files;
      assert IsRebuiltCounter(map[], 0);
      hide IsRebuiltCounter, Restricted, Split, IndexOf, KeyedById;
      while todo != {}
        invariant Split(d.files.Keys, done, todo)
        invariant disk == d && trace == []
        invariant programs == Restricted(d.files, done)
        invariant IsRebuiltCounter(programs, counter)
      {
        var id :| id in todo;
        SplitNext(d.files.Keys, done, todo, id);
        RestrictedStep(d.files, done, id);
        RebuiltStep(programs, counter, id, d.files[id]);
        programs := programs[id := d.files[id]];
        if d.files[id].atomicCounter > counter {
          counter := d.files[id].atomicCounter;
        }
        done, todo := done + {id}, todo - {id};
      }
      SplitEnd(d.files.Keys, done);
      index := IndexOf(programs);
    }

    method PersistProgram(p: Program)
      modifies this`disk, this`trace
      ensures trace == old(trace) + ReplaceProgram(old(disk), p)
      ensures disk == ReplaceProgram(old(disk), p)[1]
    {
      disk := disk.(temporaries := disk.temporaries + {ProgramFile(p.id)});
      trace := trace + [disk];
      disk := disk.(files := disk.files[p.id := p], temporaries := disk.temporaries - {ProgramFile(p.id)});
      trace := trace + [disk];
      assert disk.temporaries == old(disk).temporaries - {ProgramFile(p.id)};
    }

    method PersistStatusSets()
      modifies this`disk, this`trace
      ensures trace == old(trace) + ReplaceStatus(old(disk), index)
      ensures disk == ReplaceStatus(old(disk), index)[1]
    {
      disk := disk.(temporaries := disk.temporaries + {StatusFile});
      trace := trace + [disk];
      disk := disk.(statusFile := index, temporaries := disk.temporaries - {StatusFile});
      trace := trace + [disk];
      assert disk.temporaries == old(disk).temporaries - {StatusFile};
    }

    /** Stamp, keep in memory, write through. */
    method Store(p: Program) returns (stored: Program)
      modifies this`programs, this`counter, this`disk, this`trace
      ensures counter == old(counter) + 1 && stored == Stamp(p, counter)
      ensures programs == old(programs)[stored.id := stored]
      ensures trace == old(trace) + ReplaceProgram(old(disk), stored)
      ensures disk == ReplaceProgram(old(disk), stored)[1]
    {
      counter := counter + 1;
      stored := p.(atomicCounter := counter);
      programs := programs[stored.id := stored];
      PersistProgram(stored);
    }

    method AddProgram(p: Program)
      requires Valid()
      modifies this
      ensures Valid() && Mem() == Apply(old(Mem()), Add(p))
      ensures trace == old(trace) + Passed(old(disk), old(Mem()), Add(p))
      ensures disk == Last(old(disk), Passed(old(disk), old(Mem()), Add(p)))
      ensures counter == old(counter) + 1 && programs == old(programs)[p.id := p.(atomicCounter := counter)]
      ensures forall st, id :: (st, id) in index <==> if id == p.id then st == p.state else (st, id) in old(index)
      ensures disk.statusFile == index
    {
      index := set e | e in index && e.1 != p.id;
      var stored := Store(p);
      index := index + {(stored.state, stored.id)};
      PersistStatusSets();
    }

    /** Unlike the Redis store, this one writes the caller's copy without merging it. */
    method AtomicStateTransition(p: Program)
      requires Valid()
      modifies this
      ensures Valid() && Mem() == Apply(old(Mem()), Transition(p))
      ensures trace == old(trace) + Passed(old(disk), old(Mem()), Transition(p))
      ensures disk == Last(old(disk), Passed(old(disk), old(Mem()), Transition(p)))
      ensures counter == old(counter) + 1 && programs == old(programs)[p.id := p.(atomicCounter := counter)]
      ensures forall st, id :: (st, id) in index <==> if id == p.id then st == p.state else (st, id) in old(index)
      ensures disk.statusFile == index
    {
      var stored := Store(p);
      index := set e | e in index && e.1 != stored.id;
      index := index + {(stored.state, stored.id)};
      PersistStatusSets();
    }

    method UpdateProgram(p: Program) returns (r: Result<(), MergeError>)
      requires Valid()
      modifies this
      ensures Valid() && Mem() == Apply(old(Mem()), Update(p))
      ensures r.Ok? <==> Updated(old(programs), p).Some?
      ensures trace == old(trace) + Passed(old(disk), old(Mem()), Update(p))
      ensures disk == Last(old(disk), Passed(old(disk), old(Mem()), Update(p)))
      ensures index == old(index) && disk.statusFile == old(disk).statusFile
      ensures r.Err? <==> p.id in old(programs) && MergePrograms(Some(old(programs)[p.id]), p).Err?
      ensures r.Err? ==> programs == old(programs) && counter == old(counter)
      ensures r.Ok? ==> counter == old(counter) + 1 && p.id in programs
                        && programs == old(programs)[p.id := programs[p.id]]
                        && programs[p.id].atomicCounter == counter
      ensures r.Ok? && p.id !in old(programs) ==> programs[p.id] == p.(atomicCounter := counter)
      ensures r.Ok? && p.id in old(programs) ==>
                MergesData(old(programs)[p.id], p, programs[p.id]) && programs[p.id].state == old(programs)[p.id].state
    {
      if p.id !in programs {
        var stored := Store(p);
        return Ok(());
      }
      var existing := programs[p.id];
      match MergePrograms(Some(existing), p)
      case Err(e) => return Err(e);
      case Ok(merged) =>
        MergedFields(existing, p);
        hide MergePrograms, TakesBoth;
        var stored := Store(merged.(state := existing.state));
        return Ok(());
    }

    method RemoveProgram(id: Id)
      requires Valid()
      modifies this
      ensures Valid() && Mem() == Apply(old(Mem()), Remove(id))
      ensures trace == old(trace) + Passed(old(disk), old(Mem()), Remove(id))
      ensures disk == Last(old(disk), Passed(old(disk), old(Mem()), Remove(id)))
      ensures counter == old(counter) && programs == old(programs) - {id}
      ensures forall st, j :: (st, j) in index <==> j != id && (st, j) in old(index)
      ensures disk.statusFile == index
    {
      programs := programs - {id};
      disk := disk.(files := disk.files - {id});
      trace := trace + [disk];
      index := set e | e in index && e.1 != id;
      PersistStatusSets();
    }

    /** The loop body of recovery, for one id of the RUNNING set. */
    method RecoverOne(id: Id, ghost ps: Programs, ghost ix: StatusIndex, ghost done: set<Id>,
                      ghost from: seq<Disk>, ghost passed: seq<Disk>)
      returns (known: bool, ghost passed': seq<Disk>)
      requires Valid() && trace == from + passed && Recovering(ps, ix, done, programs, index, passed)
      requires done + {id} <= RunningIds(ix)
      modifies this
      ensures known == (id in ps)
      ensures Valid() && trace == from + passed' && Recovering(ps, ix, done + {id}, programs, index, passed')
      ensures Mem() == Requeue(old(Mem()), id)
      ensures passed' == passed + RequeuePassed(old(disk), old(Mem()), id)
      ensures disk == Last(old(disk), RequeuePassed(old(disk), old(Mem()), id))
    {
      hide RecoveredOn, PartlyRecovered, Requeued, RunningIds;
      passed' := passed;
      known := id in programs;
      RequeuedStep(ix, ps.Keys, done, id);
      RecoveredOnStep(ps, programs, done, id, counter + 1);
      RecoveredOnIsPartly(ps, ix, programs, done);
      index := index - {(Running, id)};
      if known {
        ghost var d0 := disk;
        var stored := Store(programs[id].(state := Queued));
        passed' := passed + ReplaceProgram(d0, stored);
        index := index + {(Queued, id)};
      }
      RecoveredOnIsPartly(ps, ix, programs, done + {id});
    }

    method RecoverEach() returns (recovered: nat, ghost order: seq<Id>, ghost passed: seq<Disk>)
      requires Valid()
      modifies this
      ensures IsOrder(order, old(index)) && Mem() == RequeueEach(old(Mem()), order)
      ensures passed == RequeueEachPassed(old(disk), old(Mem()), order) && disk == Last(old(disk), passed)
      ensures Valid() && trace == old(trace) + passed
      ensures Recovering(old(programs), old(index), RunningIds(old(index)), programs, index, passed)
      ensures recovered == |RunningIds(old(index)) * old(programs).Keys|
    {
      hide Recovering, RunningIds, KeyedById, Split, Distinct, Elements;
      hide Requeue, RequeuePassed, RequeueEach, RequeueEachPassed, Last;
      recovered, order, passed := 0, [], [];
      OrderStart(disk, Mem());
      var todo := RunningIds(index);
      ghost var ids, done: set<Id> := todo, {};
      ghost var ps, ix, from := programs, index, trace;
      RecoveringNothing(ps, ix);
      SplitStart(ids);
      while todo != {}
        invariant Split(ids, done, todo)
        invariant recovered == |done * ps.Keys|
        invariant Valid() && trace == from + passed
        invariant Recovering(ps, ix, done, programs, index, passed)
        invariant Distinct(order) && Elements(order) == done
        invariant Mem() == RequeueEach(old(Mem()), order)
        invariant passed == RequeueEachPassed(old(disk), old(Mem()), order) && disk == Last(old(disk), passed)
      {
        var id :| id in todo;
        SplitNext(ids, done, todo, id);
        RequeueSnoc(old(disk), old(Mem()), order, id);
        LastConcat(old(disk), passed, RequeuePassed(disk, Mem(), id));
        OrderNext(order, id);
        CountStep(done, id, ps.Keys);
        var known;
        known, passed := RecoverOne(id, ps, ix, done, from, passed);
        if known {
          recovered := recovered + 1;
        }
        order, done, todo := order + [id], done + {id}, todo - {id};
      }
      SplitEnd(ids, done);
    }

    /** RUNNING programs go back to QUEUED, one file at a time; whatever the order of the ids, every
        disk content on the way is a partial recovery. */
    method RecoverStrandedPrograms() returns (recovered: nat, ghost order: seq<Id>, ghost passed: seq<Disk>)
      requires Valid()
      modifies this
      ensures Valid()
      ensures IsOrder(order, old(index)) && Mem() == RequeueEach(old(Mem()), order)
      ensures passed == RecoveryPassed(old(disk), old(Mem()), order) && disk == Last(old(disk), passed)
      ensures RecoveredOn(old(programs), programs, RunningIds(old(index)))
      ensures recovered == |RunningIds(old(index)) * old(programs).Keys|
      ensures index == Requeued(old(index), old(programs).Keys, RunningIds(old(index)))
      ensures trace == old(trace) + passed
      ensures forall d :: d in passed ==> PartlyRecovered(old(programs), old(index), d.files)
    {
      hide RecoveredOn, PartlyRecovered, Requeued, RunningIds, IsOrder, RequeueEach, RequeueEachPassed;
      recovered, order, passed := RecoverEach();
      RecoveredOnIsPartly(old(programs), old(index), programs, RunningIds(old(index)));
      passed := passed + ReplaceStatus(disk, index);
      PersistStatusSets();
    }
  }

  lemma OrderStart(d: Disk, m: Memory)
    ensures Distinct<Id>([]) && Elements<Id>([]) == {}
    ensures RequeueEach(m, []) == m && RequeueEachPassed(d, m, []) == [] && Last(d, []) == d
  {
  }

  lemma OrderNext(order: seq<Id>, id: Id)
    ensures Elements(order + [id]) == Elements(order) + {id}
    ensures Distinct(order) && id !in Elements(order) ==> Distinct(order + [id])
  {
    ElementsSnoc(order, id);
    assert forall i :: 0 <= i < |order| ==> order[i] in Elements(order);
  }

  lemma CountStep(done: set<Id>, id: Id, keys: set<Id>)
    requires id !in done
    ensures |(done + {id}) * keys| == |done * keys| + if id in keys then 1 else 0
  {
    assert (done + {id}) * keys == done * keys + if id in keys then {id} else {};
  }

  function Restricted(programs: Programs, ids: set<Id>): Programs {
    map id | id in programs && id in ids :: programs[id]
  }

  lemma RestrictedStep(programs: Programs, done: set<Id>, id: Id)
    requires id in programs && id !in done
    ensures id in programs && id !in Restricted(programs, done)
    ensures Restricted(programs, done + {id}) == Restricted(programs, done)[id := programs[id]]
  {
  }

  lemma RebuiltStep(programs: Programs, c: int, id: Id, p: Program)
    requires IsRebuiltCounter(programs, c) && id !in programs
    ensures IsRebuiltCounter(programs[id := p], if p.atomicCounter > c then p.atomicCounter else c)
  {
    var after := programs[id := p];
    if p.atomicCounter > c {
      assert after[id].atomicCounter == p.atomicCounter;
    } else if c != 0 {
      var w :| w in programs && programs[w].atomicCounter == c;
      assert after[w].atomicCounter == c;
    }
  }

  // ----- recovery -----

  /** `q` is `p` requeued, up to its revision counter. */
  ghost predicate RequeuedFrom(p: Program, q: Program) {
    q == p.(state := Queued, atomicCounter := q.atomicCounter)
  }

  function RequeuedOne(programs: Programs, id: Id, counter: int): Programs {
    if id in programs then programs[id := Stamp(programs[id].(state := Queued), counter)] else programs
  }

  /** The programs of `done` are requeued, all others untouched. */
  ghost predicate RecoveredOn(before: Programs, after: Programs, done: set<Id>) {
    && after.Keys == before.Keys
    && forall id :: id in before ==>
         if id in done then RequeuedFrom(before[id], after[id]) else after[id] == before[id]
  }

  ghost predicate PartlyRecovered(before: Programs, index: StatusIndex, after: Programs) {
    exists done: set<Id> :: done <= RunningIds(index) && RecoveredOn(before, after, done)
  }

  function Requeued(index: StatusIndex, known: set<Id>, done: set<Id>): StatusIndex {
    (set e | e in index && !(e.0 == Running && e.1 in done)) + set id | id in done * known :: (Queued, id)
  }

  lemma RequeuedStep(index: StatusIndex, known: set<Id>, done: set<Id>, id: Id)
    ensures Requeued(index, known, done + {id})
         == Requeued(index, known, done) - {(Running, id)} + (if id in known then {(Queued, id)} else {})
  {
  }

  lemma RecoveredOnNothing(programs: Programs, index: StatusIndex)
    ensures RecoveredOn(programs, programs, {})
    ensures Requeued(index, programs.Keys, {}) == index
  {
  }

  /** Recovery of `ps`, indexed by `ix`, has handled `done` and passed through `passed`. */
  ghost predicate Recovering(ps: Programs, ix: StatusIndex, done: set<Id>,
                             programs: Programs, index: StatusIndex, passed: seq<Disk>) {
    && RecoveredOn(ps, programs, done)
    && index == Requeued(ix, ps.Keys, done)
    && forall d :: d in passed ==> PartlyRecovered(ps, ix, d.files)
  }

  lemma RecoveringNothing(ps: Programs, ix: StatusIndex)
    ensures Recovering(ps, ix, {}, ps, ix, [])
  {
    RecoveredOnNothing(ps, ix);
  }

  lemma RecoveredOnStep(ps: Programs, before: Programs, done: set<Id>, id: Id, counter: int)
    requires KeyedById(before) && RecoveredOn(ps, before, done)
    ensures before.Keys == ps.Keys
    ensures RecoveredOn(ps, RequeuedOne(before, id, counter), done + {id})
  {
  }

  lemma RecoveredOnIsPartly(ps: Programs, index: StatusIndex, programs: Programs, done: set<Id>)
    requires done <= RunningIds(index) && RecoveredOn(ps, programs, done)
    ensures PartlyRecovered(ps, index, programs)
  {
  }
}
