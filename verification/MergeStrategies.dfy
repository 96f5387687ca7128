/** The additive merge of two revisions of one program (gigaevo/database/merge_strategies.py). */
module MergeStrategies {
  import opened Basics
  import opened ProgramState

  type Id = string
  type Json = string
  type Dict = map<string, Json>

  datatype Lineage = Lineage(
    parents: seq<Id>, children: seq<Id>, mutation: Option<string>, generation: int)

  datatype Program = Program(
    id: Id,
    code: string,
    name: Option<string>,
    stageResults: Dict,
    metrics: Dict,
    metadata: Dict,
    iteration: nat,
    state: State,
    lineage: Lineage,
    createdAt: int,
    atomicCounter: int)

  datatype MergeError = IdMismatch | NameMismatch

  function Stamp(p: Program, counter: int): Program {
    p.(atomicCounter := counter)
  }

  ghost predicate KeyedById(programs: map<Id, Program>) {
    forall id :: id in programs ==> programs[id].id == id
  }

  // ----- dictionaries -----

  function MergedDict(current: Dict, incoming: Dict, preferIncoming: bool): (r: Dict)
    ensures r.Keys == current.Keys + incoming.Keys
    ensures forall k :: k in r && !(k in current && k in incoming) ==>
              r[k] == if k in current then current[k] else incoming[k]
    ensures forall k :: k in current && k in incoming ==> r[k] == if preferIncoming then incoming[k] else current[k]
  {
    if preferIncoming then current + incoming else incoming + current
  }

  /** The original's loop: incoming entries are copied in unless the key is already taken. */
  method MergeDictByProgTs(current: Dict, incoming: Dict, currentCounter: int, incomingCounter: int)
    returns (merged: Dict)
    ensures merged == MergedDict(current, incoming, incomingCounter > currentCounter)
  {
    merged := current;
    if incoming == map[] {
      return;
    }
    if incomingCounter > currentCounter {
      merged := merged + incoming;
      return;
    }
    var todo := incoming.Keys;
    while todo != {}
      invariant todo <= incoming.Keys
      invariant merged.Keys == current.Keys + (incoming.Keys - todo)
      invariant forall k :: k in merged ==> merged[k] == if k in current then current[k] else incoming[k]
    {
      var k :| k in todo;
      if k !in merged {
        merged := merged[k := incoming[k]];
      }
      todo := todo - {k};
    }
  }

  // ----- lineage -----

  function MergedLineage(current: Lineage, incoming: Lineage): (r: Lineage)
    ensures r.parents == current.parents && r.mutation == current.mutation && r.generation == current.generation
    ensures r.children == current.children + Without(incoming.children, Elements(current.children))
    ensures Elements(r.children) == Elements(current.children) + Elements(incoming.children)
  {
    var r := current.(children := current.children + Without(incoming.children, Elements(current.children)));
    assert r.children[..|current.children|] == current.children;
    r
  }

  /** The documented deduplication covers the current side only: the union is duplicate-free
      exactly when the current list is and the incoming list does not repeat a new child. */
  lemma MergedChildrenDistinct(current: Lineage, incoming: Lineage)
    ensures Distinct(MergedLineage(current, incoming).children)
       <==> Distinct(current.children) && Distinct(Without(incoming.children, Elements(current.children)))
  {
    var added := Without(incoming.children, Elements(current.children));
    var all := MergedLineage(current, incoming).children;
    var n := |current.children|;
    assert all == current.children + added;
    if Distinct(all) {
      forall i, j | 0 <= i < j < n ensures current.children[i] != current.children[j] {
        assert all[i] != all[j];
      }
      forall i, j | 0 <= i < j < |added| ensures added[i] != added[j] {
        assert all[n + i] != all[n + j];
      }
    }
    assert forall j :: 0 <= j < |added| ==> added[j] in added;
  }

  /** A child listed twice by the incoming side is listed twice afterwards. */
  lemma RepeatedChildStays(current: Lineage, incoming: Lineage, c: Id)
    requires current.children == [] && incoming.children == [c, c]
    ensures MergedLineage(current, incoming).children == [c, c]
  {
    assert [c, c][1..] == [c] && [c][1..] == [];
    ElementsEmpty(current.children);
    assert Without([c], {}) == [c];
    assert Without([c, c], {}) == [c] + Without([c], {});
  }

  // ----- programs -----

  function MergePrograms(current: Option<Program>, incoming: Program): (r: Result<Program, MergeError>)
  {
    match current
    case None => Ok(incoming)
    case Some(cur) =>
      if cur.id != incoming.id then Err(IdMismatch)
      else if cur.name.Some? && incoming.name.Some? && cur.name != incoming.name then Err(NameMismatch)
      else
        var newer := incoming.atomicCounter > cur.atomicCounter;
        Ok(cur.(
           state := MergeStates(cur.state, incoming.state),
           metadata := MergedDict(cur.metadata, incoming.metadata, newer),
           metrics := MergedDict(cur.metrics, incoming.metrics, newer),
           stageResults := MergedDict(cur.stageResults, incoming.stageResults, newer),
           lineage := MergedLineage(cur.lineage, incoming.lineage),
           code := if newer then incoming.code else cur.code,
           name := if cur.name.Some? then cur.name else incoming.name))
  }

  /** What no sequence of merges may take back. */
  ghost predicate Grows(before: Program, after: Program) {
    && after.id == before.id
    && after.createdAt == before.createdAt
    && after.iteration == before.iteration
    && after.lineage.parents == before.lineage.parents
    && after.lineage.mutation == before.lineage.mutation
    && after.lineage.generation == before.lineage.generation
    && before.lineage.children <= after.lineage.children
    && before.metadata.Keys <= after.metadata.Keys
    && before.metrics.Keys <= after.metrics.Keys
    && before.stageResults.Keys <= after.stageResults.Keys
    && (before.name.Some? ==> after.name == before.name)
    && before.atomicCounter <= after.atomicCounter
  }

  ghost predicate Extends(before: Dict, after: Dict) {
    forall k :: k in before ==> k in after && after[k] == before[k]
  }

  /** Stronger: the code and the value of every existing key are also kept. */
  ghost predicate KeepsValues(before: Program, after: Program) {
    && after.code == before.code
    && Extends(before.metadata, after.metadata)
    && Extends(before.metrics, after.metrics)
    && Extends(before.stageResults, after.stageResults)
  }

  /** Everything except the lifecycle state and the revision counter. */
  ghost predicate SameData(a: Program, b: Program) {
    a.(state := b.state, atomicCounter := b.atomicCounter) == b
  }

  /** `current` already holds everything `copy` would contribute. */
  ghost predicate Absorbed(current: Program, copy: Program) {
    && copy.id == current.id
    && (copy.name.Some? ==> current.name == copy.name)
    && copy.metadata.Keys <= current.metadata.Keys
    && copy.metrics.Keys <= current.metrics.Keys
    && copy.stageResults.Keys <= current.stageResults.Keys
    && Elements(copy.lineage.children) <= Elements(current.lineage.children)
  }

  /** `merged` takes every key of either side: with the value of the only side that has it, and on a conflict
      with the incoming value exactly if the incoming side is newer. */
  ghost predicate TakesBoth(current: Dict, incoming: Dict, newer: bool, merged: Dict) {
    forall k ::
      && (k in merged <==> k in current || k in incoming)
      && (k in current && k !in incoming ==> merged[k] == current[k])
      && (k !in current && k in incoming ==> merged[k] == incoming[k])
      && (k in current && k in incoming ==> merged[k] == if newer then incoming[k] else current[k])
  }

  /** `q` is the merge of the stored `cur` with the caller's `copy`, data field by data field. */
  ghost predicate MergesData(cur: Program, copy: Program, q: Program) {
    var newer := copy.atomicCounter > cur.atomicCounter;
    && TakesBoth(cur.metadata, copy.metadata, newer, q.metadata)
    && TakesBoth(cur.metrics, copy.metrics, newer, q.metrics)
    && TakesBoth(cur.stageResults, copy.stageResults, newer, q.stageResults)
    && q.code == (if newer then copy.code else cur.code)
    && q.name == (if cur.name.Some? then cur.name else copy.name)
    && q.id == cur.id && q.createdAt == cur.createdAt && q.iteration == cur.iteration
    && q.lineage.(children := []) == cur.lineage.(children := [])
    && cur.lineage.children <= q.lineage.children
    && forall c :: c in q.lineage.children <==> c in cur.lineage.children || c in copy.lineage.children
  }

  /** The merge refuses another id, and another name where both sides have one. */
  lemma MergeRefusedIff(current: Option<Program>, incoming: Program)
    ensures current == None ==> MergePrograms(current, incoming) == Ok(incoming)
    ensures current != None ==>
              && (MergePrograms(current, incoming) == Err(IdMismatch) <==> current.value.id != incoming.id)
              && (MergePrograms(current, incoming) == Err(NameMismatch) <==>
                  current.value.id == incoming.id && current.value.name.Some? && incoming.name.Some?
                  && current.value.name.value != incoming.name.value)
  {
  }

  /** Field by field, what an accepted merge with a stored revision consists of. */
  lemma MergedFields(current: Program, incoming: Program)
    requires MergePrograms(Some(current), incoming).Ok?
    ensures var r := MergePrograms(Some(current), incoming).value;
            && MergesData(current, incoming, r)
            && r.state == MergeStates(current.state, incoming.state)
            && r.atomicCounter == current.atomicCounter
  {
    var r := MergePrograms(Some(current), incoming).value;
    forall c ensures c in r.lineage.children <==> c in current.lineage.children || c in incoming.lineage.children {
      assert c in r.lineage.children <==> c in Elements(r.lineage.children);
    }
  }

  lemma MergeGrows(current: Program, incoming: Program)
    requires MergePrograms(Some(current), incoming).Ok?
    ensures Grows(current, MergePrograms(Some(current), incoming).value)
    ensures Absorbed(MergePrograms(Some(current), incoming).value, incoming)
  {
  }

  /** A copy that is not newer than the stored revision can only add. */
  lemma MergeKeepsValues(current: Program, incoming: Program)
    requires MergePrograms(Some(current), incoming).Ok?
    requires incoming.atomicCounter <= current.atomicCounter
    ensures KeepsValues(current, MergePrograms(Some(current), incoming).value)
  {
  }

  /** A copy that is not newer changes no data field exactly when it was absorbed before. */
  lemma MergeIsNoOpIffAbsorbed(current: Program, copy: Program)
    requires copy.atomicCounter <= current.atomicCounter
    ensures (MergePrograms(Some(current), copy).Ok? && SameData(MergePrograms(Some(current), copy).value, current))
       <==> Absorbed(current, copy)
  {
    var added := Without(copy.lineage.children, Elements(current.lineage.children));
    if Absorbed(current, copy) {
      assert forall c :: c in copy.lineage.children ==> c in Elements(copy.lineage.children);
      WithoutAllSeen(copy.lineage.children, Elements(current.lineage.children));
      assert MergedLineage(current.lineage, copy.lineage).children == current.lineage.children;
      var m := MergePrograms(Some(current), copy).value;
      assert m.metadata == current.metadata;
      assert m.metrics == current.metrics;
      assert m.stageResults == current.stageResults;
    }
    if MergePrograms(Some(current), copy).Ok? && SameData(MergePrograms(Some(current), copy).value, current) {
      MergeGrows(current, copy);
    }
  }

  lemma GrowsTransitive(a: Program, b: Program, c: Program)
    requires Grows(a, b) && Grows(b, c)
    ensures Grows(a, c)
    ensures KeepsValues(a, b) && KeepsValues(b, c) ==> KeepsValues(a, c)
  {
  }

  lemma AbsorbedPersists(a: Program, b: Program, copy: Program)
    requires Absorbed(a, copy) && Grows(a, b)
    ensures Absorbed(b, copy)
  {
    forall c | c in Elements(copy.lineage.children) ensures c in Elements(b.lineage.children) {
      assert c in Elements(a.lineage.children);
    }
  }
}
