/** From payload to diff: what validation makes of a repaired payload, compared with the payload the model
    emitted (gigaevo/chains/dag_changes.py). */
module SlotRepair {
  import opened Basics
  import opened SlotNames
  import C = SlotCompaction
  import T = SlotTranscription

  function Text(fields: C.Payload, k: string): Option<string> {
    if k in fields && fields[k].Str? then Some(fields[k].s) else None
  }

  /** A list of names; only positions after the first have the field, which may be omitted. */
  function ParseRefs(fields: C.Payload, k: nat): Option<seq<string>> {
    if C.DEPENDENCIES !in fields then Some([])
    else if k <= 1 || !fields[C.DEPENDENCIES].List? then None
    else Names(fields[C.DEPENDENCIES].items)
  }

  function Names(refs: seq<C.Value>): (r: Option<seq<string>>)
    ensures r.Some? <==> forall v :: v in refs ==> v.Str?
    ensures r.Some? ==> |r.value| == |refs| && forall i :: 0 <= i < |refs| ==> refs[i].Str? && r.value[i] == refs[i].s
  {
    if refs == [] then Some([])
    else
      match Names(refs[1..])
      case None => None
      case Some(rest) => if refs[0].Str? then Some([refs[0].s] + rest) else None
  }

  /** Edits left null count as absent. */
  function ParseEdits(fields: C.Payload): Option<T.Content> {
    if "edits" !in fields then Some(map[])
    else if !fields["edits"].Dict? then None
    else
      var edits := fields["edits"].fields;
      if edits.Keys <= T.CONTENT_FIELDS && forall k :: k in edits ==> edits[k].Str? || edits[k] == C.Null
      then Some(map k | k in edits && edits[k].Str? :: edits[k].s) else None
  }

  const KEEP_KEYS := {"kind", "id", "edits", C.DEPENDENCIES}
  const NEW_KEYS := {"kind", "step_type", "title", "aim", "stage_action", "reasoning_questions", C.DEPENDENCIES}

  /** Everything but the dependencies. */
  function ParseBody(fields: C.Payload): Option<T.Slot> {
    if Text(fields, "kind") == Some("keep") then
      match (Text(fields, "id"), ParseEdits(fields))
      case (Some(id), Some(edits)) => if fields.Keys <= KEEP_KEYS then Some(T.Keep(id, edits, [])) else None
      case _ => None
    else if Text(fields, "kind") == Some("new") then
      if fields.Keys <= NEW_KEYS && {"title", "aim"} <= fields.Keys
         && ("step_type" in fields ==> fields["step_type"] == C.Str("llm"))
         && forall k :: k in fields && k in T.NEW_FIELDS ==> fields[k].Str?
      then Some(T.New(map k | k in fields && k in T.NEW_FIELDS && fields[k].Str? :: fields[k].s, [])) else None
    else None
  }

  function ParseSlot(body: C.Value, k: nat): Option<T.Slot> {
    if !body.Dict? then None
    else
      match (ParseBody(body.fields), ParseRefs(body.fields, k))
      case (Some(slot), Some(refs)) => Some(slot.(refs := refs))
      case _ => None
  }

  /** Every slot key names one of the positions and every filled position parses; the evidence fields are
      left aside. */
  function ParseDiff(p: C.Payload, maxSteps: nat): Option<T.Diff> {
    if Text(p, "base_parent") == None then None
    else if exists k :: k in p && IsSlot(k) && !PositionKey(k, maxSteps) then None
    else if exists k :: 1 <= k <= maxSteps && !ParsesAt(p, k) then None
    else
      Some(T.Diff(Text(p, "base_parent").value,
                  seq(maxSteps, k requires 0 <= k < maxSteps =>
                    if C.Slot(p, k + 1) == C.Null then None else ParseSlot(C.Slot(p, k + 1), k + 1))))
  }

  predicate PositionKey(k: string, maxSteps: nat) {
    SlotIndex(k).Some? && 1 <= SlotIndex(k).value <= maxSteps
  }

  predicate ParsesAt(p: C.Payload, k: nat) {
    C.Slot(p, k) == C.Null || ParseSlot(C.Slot(p, k), k).Some?
  }

  /** What a parsed slot says is what the body says: every text and every reference under its own name, edits
      left null apart; and a body has no other keys. */
  lemma ParsedSlotIs(body: C.Value, k: nat)
    requires ParseSlot(body, k).Some?
    ensures var s := ParseSlot(body, k).value;
            if "dependencies" !in body.fields then s.refs == []
            else
              && k > 1 && body.fields["dependencies"].List?
              && |s.refs| == |body.fields["dependencies"].items|
              && forall j :: 0 <= j < |s.refs| ==> body.fields["dependencies"].items[j] == C.Str(s.refs[j])
    ensures var s := ParseSlot(body, k).value;
            s.Keep? ==>
              && body.fields.Keys <= {"kind", "id", "edits", "dependencies"}
              && Text(body.fields, "kind") == Some("keep") && Text(body.fields, "id") == Some(s.id)
              && forall f, v :: (f in s.edits && s.edits[f] == v) <==>
                   && "edits" in body.fields && body.fields["edits"].Dict?
                   && Text(body.fields["edits"].fields, f) == Some(v)
    ensures var s := ParseSlot(body, k).value;
            s.New? ==>
              && body.fields.Keys <= T.NEW_FIELDS + {"kind", "step_type", "dependencies"}
              && Text(body.fields, "kind") == Some("new")
              && forall f, v :: (f in s.fields && s.fields[f] == v) <==>
                   f in T.NEW_FIELDS && Text(body.fields, f) == Some(v)
  {
  }

  function Strings(names: seq<string>): (r: seq<C.Value>)
    ensures |r| == |names| && forall i :: 0 <= i < |names| ==> r[i] == C.Str(names[i])
  {
    seq(|names|, i requires 0 <= i < |names| => C.Str(names[i]))
  }

  /** A kept step lists every editable field, null where it is not edited. */
  function DumpedEdits(edits: T.Content): C.Payload {
    map f | f in T.CONTENT_FIELDS :: if f in edits then C.Str(edits[f]) else C.Null
  }

  function DumpedBody(slot: T.Slot): C.Payload {
    match slot
    case Keep(id, edits, _) => map["kind" := C.Str("keep"), "id" := C.Str(id), "edits" := C.Dict(DumpedEdits(edits))]
    case New(fields, _) => (map f | f in fields :: C.Str(fields[f]))["kind" := C.Str("new")]
  }

  /** A slot as a payload holds it. */
  function Dumped(slot: T.Slot): C.Value {
    C.Dict(if slot.refs == [] then DumpedBody(slot)
           else DumpedBody(slot)["dependencies" := C.List(Strings(slot.refs))])
  }

  lemma DumpedEditsParse(edits: T.Content)
    requires edits.Keys <= T.CONTENT_FIELDS
    ensures var d := DumpedEdits(edits);
            d.Keys <= T.CONTENT_FIELDS && (map k | k in d && d[k].Str? :: d[k].s) == edits
  {
  }

  lemma DumpedBodyParses(slot: T.Slot)
    requires slot.Keep? ==> slot.edits.Keys <= T.CONTENT_FIELDS
    requires slot.New? ==> {"title", "aim"} <= slot.fields.Keys <= T.NEW_FIELDS
    ensures "dependencies" !in DumpedBody(slot)
    ensures ParseBody(DumpedBody(slot)) == Some(slot.(refs := []))
  {
    var d := DumpedBody(slot);
    assert Text(d, "kind") == Some(if slot.Keep? then "keep" else "new");
    if slot.Keep? {
      DumpedEditsParse(slot.edits);
      hide DumpedEdits, T.CONTENT_FIELDS;
      assert ParseEdits(d) == Some(slot.edits);
      assert Text(d, "id") == Some(slot.id);
    } else {
      assert (map f | f in d && f in T.NEW_FIELDS && d[f].Str? :: d[f].s) == slot.fields;
    }
  }

  /** Dumping and parsing round-trip at every position that admits the references. */
  lemma DumpParses(slot: T.Slot, k: nat)
    requires slot.refs == [] || k > 1
    requires slot.Keep? ==> slot.edits.Keys <= T.CONTENT_FIELDS
    requires slot.New? ==> {"title", "aim"} <= slot.fields.Keys <= T.NEW_FIELDS
    ensures ParseSlot(Dumped(slot), k) == Some(slot)
  {
    DumpedBodyParses(slot);
    hide ParseBody, DumpedBody;
    assert Names(Strings(slot.refs)).value == slot.refs;
    BodyIgnoresRefs(DumpedBody(slot), C.List(Strings(slot.refs)));
  }

  // ----- one slot -----

  /** `s'` is `s` with every reference renamed to the rank of the slot it names. */
  ghost predicate RenamedAs(s: T.Slot, s': T.Slot, f: seq<nat>) {
    && s' == s.(refs := s'.refs)
    && |s'.refs| == |s.refs|
    && forall j :: 0 <= j < |s.refs| ==>
         && SlotIndex(s.refs[j]).Some? && SlotIndex(s.refs[j]).value in f
         && s'.refs[j] == SlotName(C.Rank(f, SlotIndex(s.refs[j]).value))
  }

  lemma BodyIgnoresRefs(fields: C.Payload, v: C.Value)
    ensures ParseBody(fields[C.DEPENDENCIES := v]) == ParseBody(fields)
  {
    var after := fields[C.DEPENDENCIES := v];
    assert after.Keys == fields.Keys + {C.DEPENDENCIES};
    assert Text(after, "kind") == Text(fields, "kind") && Text(after, "id") == Text(fields, "id");
    assert ParseEdits(after) == ParseEdits(fields);
    hide ParseEdits, Text, T.CONTENT_FIELDS;
    assert (map k | k in after && k in T.NEW_FIELDS && after[k].Str? :: after[k].s)
        == (map k | k in fields && k in T.NEW_FIELDS && fields[k].Str? :: fields[k].s);
    assert forall k :: k in T.NEW_FIELDS && k in fields ==> after[k] == fields[k];
  }

  lemma RenamedNames(refs: seq<C.Value>, f: seq<nat>)
    requires forall r :: r in refs ==> C.GoodRef(r, f)
    ensures Names(refs).Some? && Names(C.RenamedRefs(refs, f)).Some?
    ensures forall j :: 0 <= j < |refs| ==>
              && refs[j].Str? && SlotIndex(refs[j].s).Some? && SlotIndex(refs[j].s).value in f
              && Names(refs).value[j] == refs[j].s
              && Names(C.RenamedRefs(refs, f)).value[j] == SlotName(C.Rank(f, SlotIndex(refs[j].s).value))
  {
    hide SlotIndex, SlotName;
    var renamed := C.RenamedRefs(refs, f);
    forall v | v in renamed ensures v.Str? {
      var j :| 0 <= j < |renamed| && renamed[j] == v;
      assert C.GoodRef(refs[j], f);
    }
    forall j | 0 <= j < |refs| ensures C.GoodRef(refs[j], f) {
      assert refs[j] in refs;
    }
  }

  /** Parsing commutes with the repair of a slot, except that a slot moved to the first position must not
      carry a dependency list at all. */
  lemma RepairedSlotIff(body: C.Value, f: seq<nat>, i: nat, m: nat)
    requires C.GoodBody(body, f) && 1 <= m <= i
    ensures ParseSlot(C.CompactBody(body, f), m).Some? <==>
            ParseSlot(body, i).Some? && (m > 1 || C.DEPENDENCIES !in body.fields)
    ensures ParseSlot(C.CompactBody(body, f), m).Some? ==>
              RenamedAs(ParseSlot(body, i).value, ParseSlot(C.CompactBody(body, f), m).value, f)
  {
    hide ParseBody, SlotIndex, SlotName, C.Rank;
    var fields := body.fields;
    if C.DEPENDENCIES in fields && fields[C.DEPENDENCIES].List? {
      var refs := fields[C.DEPENDENCIES].items;
      BodyIgnoresRefs(fields, C.List(C.RenamedRefs(refs, f)));
      RenamedNames(refs, f);
    }
  }

  lemma {:induction false} IndexAtLeast(f: seq<nat>, n: nat)
    requires Increasing(f) && 1 <= n <= |f| && f[0] >= 1
    ensures f[n - 1] >= n
  {
    if n > 1 { IndexAtLeast(f, n - 1); }
  }

  lemma FilledFromOne(p: C.Payload, n: nat)
    requires 1 <= n <= |C.Filled(p)|
    ensures C.Filled(p)[n - 1] >= n && C.Filled(p)[n - 1] in C.Filled(p) && C.Rank(C.Filled(p), C.Filled(p)[n - 1]) == n
  {
    var f := C.Filled(p);
    assert f[0] in f;
    C.FilledSlot(p, f[0]);
    IndexAtLeast(f, n);
    C.RankAt(f, n);
  }

  // ----- the repaired step -----

  /** The step transcribed from a repaired slot has the content the original slot describes and depends on
      exactly the ranks of the slots the original names. */
  lemma RepairedStep(s: T.Slot, s': T.Slot, f: seq<nat>, m: nat, byId: map<string, T.Step>)
    requires RenamedAs(s, s', f) && m >= 1 && (m == 1 ==> s'.refs == [])
    ensures var step := T.StepAt(s', m, byId);
            && step.number == m
            && step.content == T.StepContent(s, byId)
            && Increasing(step.dependencies)
            && forall d :: d in step.dependencies <==>
                 exists j :: j in T.RefSet(s.refs) && j in f && d == C.Rank(f, j)
  {
    hide SlotName, SlotIndex, C.Rank;
    var step := T.StepAt(s', m, byId);
    forall d ensures d in step.dependencies <==> exists j :: j in T.RefSet(s.refs) && j in f && d == C.Rank(f, j) {
      assert d in step.dependencies <==> d in Elements(step.dependencies);
      assert d in step.dependencies <==> d in T.RefSet(s'.refs);
      if d in T.RefSet(s'.refs) {
        var r :| r in s'.refs && SlotIndex(r) == Some(d);
        var x :| 0 <= x < |s'.refs| && s'.refs[x] == r;
        var j := SlotIndex(s.refs[x]).value;
        SlotNameRoundTrip(C.Rank(f, j), r);
        assert s.refs[x] in s.refs && j in T.RefSet(s.refs);
      }
      if exists j :: j in T.RefSet(s.refs) && j in f && d == C.Rank(f, j) {
        var j :| j in T.RefSet(s.refs) && j in f && d == C.Rank(f, j);
        var r :| r in s.refs && SlotIndex(r) == Some(j);
        var x :| 0 <= x < |s.refs| && s.refs[x] == r;
        SlotNameRoundTrip(d, s'.refs[x]);
        assert s'.refs[x] in s'.refs;
      }
    }
  }

  /** A repaired payload that validates describes a contiguous diff whose m-th step is the m-th filled slot
      of the original emission: same content, dependencies renumbered by rank. */
  lemma RepairedDiffTranscribes(p: C.Payload, maxSteps: nat, byId: map<string, T.Step>, m: nat)
    requires C.Compactable(p) && ParseDiff(C.Compacted(p), maxSteps).Some?
    requires 1 <= m <= |C.Filled(p)|
    ensures var f, d := C.Filled(p), ParseDiff(C.Compacted(p), maxSteps).value;
            var i := f[m - 1];
            && T.FilledPrefix(d.slots, |f|)
            && d.slots[m - 1].Some?
            && ParseSlot(C.Slot(p, i), i).Some?
            && var s, step := ParseSlot(C.Slot(p, i), i).value, T.StepAt(d.slots[m - 1].value, m, byId);
               && step.number == m
               && step.content == T.StepContent(s, byId)
               && Increasing(step.dependencies)
               && forall x :: x in step.dependencies <==>
                    exists j :: j in T.RefSet(s.refs) && j in f && x == C.Rank(f, j)
  {
    hide C.Compactable, C.Compacted, C.Filled, C.GoodBody, C.CompactBody, ParseSlot;
    var f, out := C.Filled(p), C.Compacted(p);
    var d := ParseDiff(out, maxSteps).value;
    RepairedFilledPrefix(p, maxSteps);
    C.CompactionSlots(p);
    FilledFromOne(p, m);
    var i := f[m - 1];
    var s' := d.slots[m - 1].value;
    assert C.Slot(out, m) == C.CompactBody(C.Slot(p, i), f);
    RepairedSlotIff(C.Slot(p, i), f, i, m);
    FirstHasNoRefs(C.Slot(out, m), m);
    RepairedStep(ParseSlot(C.Slot(p, i), i).value, s', f, m, byId);
  }

  lemma FirstHasNoRefs(body: C.Value, m: nat)
    requires ParseSlot(body, m).Some?
    ensures m == 1 ==> ParseSlot(body, m).value.refs == []
  {
  }

  lemma RepairedFilledPrefix(p: C.Payload, maxSteps: nat)
    requires C.Compactable(p) && ParseDiff(C.Compacted(p), maxSteps).Some?
    ensures |C.Filled(p)| <= maxSteps
    ensures T.FilledPrefix(ParseDiff(C.Compacted(p), maxSteps).value.slots, |C.Filled(p)|)
  {
    hide C.Compactable, C.Compacted, C.Filled, C.GoodBody, C.CompactBody, ParseSlot, SlotName, SlotIndex;
    var f, out := C.Filled(p), C.Compacted(p);
    C.CompactionFills(p);
    var n := |f|;
    forall k | 1 <= k ensures C.Slot(out, k) != C.Null <==> k <= n {
      C.FilledSlot(out, k);
      C.FirstNMember(n, k);
    }
    if n > 0 {
      SlotNameRoundTrip(n, SlotName(n));
      assert C.Slot(out, n) != C.Null;
      assert SlotName(n) in out;
      assert PositionKey(SlotName(n), maxSteps);
    }
    forall k | 0 <= k < maxSteps ensures ParseDiff(out, maxSteps).value.slots[k].Some? <==> k < n {
      assert ParsesAt(out, k + 1);
      assert C.Slot(out, k + 1) != C.Null <==> k + 1 <= n;
    }
  }

  // ----- when the repaired payload is accepted -----

  /** The schema caps the length of a dependency list by the position, so of the slots it would accept
      where they were emitted it accepts, after the repair, exactly those whose list still fits. */
  lemma RepairedSlotAcceptedIff(p: C.Payload, i: nat, ids: set<string>)
    requires C.Compactable(p) && i in C.Filled(p)
    requires ParseSlot(C.Slot(p, i), i).Some? && T.GoodSlot(ParseSlot(C.Slot(p, i), i).value, i, ids)
    ensures var f := C.Filled(p);
            var m, body := C.Rank(f, i), C.Slot(p, i);
            var repaired := ParseSlot(C.Slot(C.Compacted(p), m), m);
            (repaired.Some? && T.GoodSlot(repaired.value, m, ids)) <==>
            (if m == 1 then C.DEPENDENCIES !in body.fields else |ParseSlot(body, i).value.refs| < m)
  {
    hide C.Compactable, C.Compacted, C.Filled, C.CompactBody, ParseSlot, SlotName;
    var f := C.Filled(p);
    var m, body := C.Rank(f, i), C.Slot(p, i);
    C.CompactionSlots(p);
    FilledFromOne(p, m);
    RepairedSlotIff(body, f, i, m);
    assert C.Slot(C.Compacted(p), m) == C.CompactBody(body, f);
    var repaired := ParseSlot(C.Slot(C.Compacted(p), m), m);
    if repaired.Some? {
      var s, s' := ParseSlot(body, i).value, repaired.value;
      FirstHasNoRefs(C.Slot(C.Compacted(p), m), m);
      forall r | r in s'.refs ensures SlotIndex(r).Some? && 1 <= SlotIndex(r).value < m {
        var x :| 0 <= x < |s'.refs| && s'.refs[x] == r;
        var j := SlotIndex(s.refs[x]).value;
        SlotNameRoundTrip(C.Rank(f, j), r);
        assert s.refs[x] in s.refs;
        C.RankMonotone(f, j, i);
      }
    }
  }

  /** A list without repetitions always fits: it names filled slots before its own. */
  lemma DistinctRefsFit(p: C.Payload, i: nat, refs: seq<string>)
    requires i in C.Filled(p) && Distinct(refs)
    requires forall r :: r in refs ==> SlotIndex(r).Some? && SlotIndex(r).value in C.Filled(p) && SlotIndex(r).value < i
    ensures |refs| < C.Rank(C.Filled(p), i)
  {
    hide SlotIndex, SlotName, C.Filled, C.Rank;
    var f := C.Filled(p);
    var m := C.Rank(f, i);
    var ranks := seq(|refs|, x requires 0 <= x < |refs| => assert refs[x] in refs; C.Rank(f, SlotIndex(refs[x]).value));
    forall x, y | 0 <= x < y < |refs| ensures ranks[x] != ranks[y] {
      assert refs[x] in refs && refs[y] in refs && refs[x] != refs[y];
      var a, b := SlotIndex(refs[x]).value, SlotIndex(refs[y]).value;
      SlotNameRoundTrip(a, refs[x]);
      SlotNameRoundTrip(a, refs[y]);
      C.RankMonotone(f, a, b);
      C.RankMonotone(f, b, a);
    }
    DistinctSize(ranks);
    forall d | d in Elements(ranks) ensures d in T.Below(m) && d != 0 {
      var x :| 0 <= x < |ranks| && ranks[x] == d;
      assert refs[x] in refs;
      C.RankMonotone(f, SlotIndex(refs[x]).value, i);
      T.BelowHas(m, d);
    }
    T.BelowHas(m, 0);
    SubsetSize(Elements(ranks), T.Below(m) - {0});
  }

  // ----- when the whole payload is accepted -----

  /** The schema would take this slot where it was emitted. */
  predicate FineWhereEmitted(p: C.Payload, i: nat, ids: set<string>) {
    var slot := ParseSlot(C.Slot(p, i), i);
    slot.Some? && T.GoodSlot(slot.value, i, ids)
  }

  /** And its dependency list fits the position it moves to. */
  predicate FitsAfterwards(p: C.Payload, i: nat)
    requires i in C.Filled(p) && C.Slot(p, i).Dict? && ParseSlot(C.Slot(p, i), i).Some?
  {
    var m := C.Rank(C.Filled(p), i);
    if m == 1 then C.DEPENDENCIES !in C.Slot(p, i).fields else |ParseSlot(C.Slot(p, i), i).value.refs| < m
  }

  ghost predicate AllFine(p: C.Payload, ids: set<string>) {
    forall i :: i in C.Filled(p) ==> FineWhereEmitted(p, i, ids)
  }

  ghost predicate AllFit(p: C.Payload, ids: set<string>)
    requires AllFine(p, ids)
  {
    forall i :: i in C.Filled(p) ==> FitsAfterwards(p, i)
  }

  predicate NamesBase(p: C.Payload, parents: T.Parents) {
    Text(p, "base_parent").Some? && Text(p, "base_parent").value in T.Namespaces(parents)
  }

  function RenderedIds(parents: T.Parents): set<string> {
    T.ById(T.Rendered(parents)).Keys
  }

  /** The validator's verdict on a payload. */
  ghost predicate Validates(p: C.Payload, parents: T.Parents, minSteps: nat, maxSteps: nat) {
    ParseDiff(p, maxSteps).Some? && T.Accepted(ParseDiff(p, maxSteps).value, parents, minSteps, maxSteps)
  }

  /** The slot at position `m` of the repaired payload passes. */
  ghost predicate PassesAt(out: C.Payload, m: nat, ids: set<string>) {
    ParseSlot(C.Slot(out, m), m).Some? && T.GoodSlot(ParseSlot(C.Slot(out, m), m).value, m, ids)
  }

  lemma SlotPassesIff(p: C.Payload, i: nat, ids: set<string>)
    requires C.Compactable(p) && AllFine(p, ids) && i in C.Filled(p)
    ensures PassesAt(C.Compacted(p), C.Rank(C.Filled(p), i), ids) <==> FitsAfterwards(p, i)
  {
    assert FineWhereEmitted(p, i, ids);
    RepairedSlotAcceptedIff(p, i, ids);
    hide ParseSlot, T.GoodSlot, C.Compacted, C.Compactable, C.Filled, C.Rank;
  }

  lemma AllPassIff(p: C.Payload, ids: set<string>)
    requires C.Compactable(p) && AllFine(p, ids)
    ensures AllFit(p, ids) <==> forall m :: 1 <= m <= |C.Filled(p)| ==> PassesAt(C.Compacted(p), m, ids)
  {
    hide C.Compacted, C.Compactable, C.Filled, C.Rank, PassesAt, FitsAfterwards;
    var f, out := C.Filled(p), C.Compacted(p);
    if AllFit(p, ids) {
      forall m | 1 <= m <= |f| ensures PassesAt(out, m, ids) {
        FilledFromOne(p, m);
        SlotPassesIff(p, f[m - 1], ids);
      }
    }
    if forall m :: 1 <= m <= |f| ==> PassesAt(out, m, ids) {
      forall i | i in f ensures FitsAfterwards(p, i) {
        SlotPassesIff(p, i, ids);
        assert PassesAt(out, C.Rank(f, i), ids);
      }
    }
  }

  lemma BaseIsNoSlot()
    ensures !IsSlot("base_parent")
  {
    assert "base_parent"[0] != PREFIX[0];
  }

  lemma SameBase(p: C.Payload)
    requires C.Compactable(p)
    ensures Text(C.Compacted(p), "base_parent") == Text(p, "base_parent")
  {
    C.CompactedKeys(p);
    hide C.Compactable, C.Compacted;
    var k, out := "base_parent", C.Compacted(p);
    BaseIsNoSlot();
    assert k in p <==> k in C.NonSlots(p);
    assert k in out <==> k in C.NonSlots(out);
    assert k in p ==> C.NonSlots(p)[k] == p[k];
    assert k in out ==> C.NonSlots(out)[k] == out[k];
  }

  /** The repaired payload is a diff when it names a base parent, has no more filled slots than positions,
      and its slots parse. */
  lemma RepairedParses(p: C.Payload, maxSteps: nat)
    requires C.Compactable(p) && Text(p, "base_parent").Some? && |C.Filled(p)| <= maxSteps
    requires forall m :: 1 <= m <= |C.Filled(p)| ==> ParseSlot(C.Slot(C.Compacted(p), m), m).Some?
    ensures ParseDiff(C.Compacted(p), maxSteps).Some?
  {
    hide C.Compactable, C.Compacted, C.Filled, C.GoodBody, C.CompactBody, ParseSlot, Text;
    var out := C.Compacted(p);
    SameBase(p);
    C.CompactedKeys(p);
    C.CompactionSlots(p);
    forall k | k in out && IsSlot(k) ensures PositionKey(k, maxSteps) {
    }
    forall k | 1 <= k <= maxSteps ensures ParsesAt(out, k) {
      if k > |C.Filled(p)| {
        assert C.Slot(out, k) == C.Null;
      }
    }
  }

  lemma ValidatedParts(p: C.Payload, parents: T.Parents, minSteps: nat, maxSteps: nat)
    requires C.Compactable(p) && Validates(C.Compacted(p), parents, minSteps, maxSteps)
    ensures NamesBase(p, parents) && minSteps <= |C.Filled(p)| <= maxSteps
    ensures forall m :: 1 <= m <= |C.Filled(p)| ==> PassesAt(C.Compacted(p), m, RenderedIds(parents))
  {
    hide C.Compactable, C.Compacted, C.Filled, ParseSlot, Text, T.GoodSlot, T.ById, T.Rendered, T.Namespaces;
    var out, n := C.Compacted(p), |C.Filled(p)|;
    var d := ParseDiff(out, maxSteps).value;
    SameBase(p);
    RepairedFilledPrefix(p, maxSteps);
    assert forall k :: 0 <= k < minSteps ==> d.slots[k].Some?;
    assert n < maxSteps ==> d.slots[n].None?;
    forall m | 1 <= m <= n ensures PassesAt(out, m, RenderedIds(parents)) {
      assert d.slots[m - 1].Some?;
      assert T.GoodSlot(d.slots[m - 1].value, m - 1 + 1, RenderedIds(parents));
    }
  }

  lemma PartsValidate(p: C.Payload, parents: T.Parents, minSteps: nat, maxSteps: nat)
    requires C.Compactable(p) && 1 <= minSteps <= |C.Filled(p)| <= maxSteps && NamesBase(p, parents)
    requires forall m :: 1 <= m <= |C.Filled(p)| ==> PassesAt(C.Compacted(p), m, RenderedIds(parents))
    ensures Validates(C.Compacted(p), parents, minSteps, maxSteps)
  {
    hide C.Compactable, C.Compacted, C.Filled, ParseSlot, Text, T.GoodSlot, T.ById, T.Rendered, T.Namespaces;
    var out, n := C.Compacted(p), |C.Filled(p)|;
    forall m | 1 <= m <= n ensures ParseSlot(C.Slot(out, m), m).Some? {
      assert PassesAt(out, m, RenderedIds(parents));
    }
    RepairedParses(p, maxSteps);
    RepairedFilledPrefix(p, maxSteps);
    SameBase(p);
    var d := ParseDiff(out, maxSteps).value;
    assert T.Contiguous(d.slots) by { assert T.FilledPrefix(d.slots, n); }
    forall k | 0 <= k < maxSteps && d.slots[k].Some?
      ensures T.GoodSlot(d.slots[k].value, k + 1, RenderedIds(parents))
    {
      assert k < n;
      assert PassesAt(out, k + 1, RenderedIds(parents));
    }
  }

  /** Of the gapped payloads whose slots would all be accepted where they were emitted, the repair makes
      valid exactly those that name a base parent, fill between min_steps and max_steps slots, and have
      dependency lists that fit the positions they move to. */
  lemma RepairValidatesIff(p: C.Payload, parents: T.Parents, minSteps: nat, maxSteps: nat)
    requires C.Compactable(p) && AllFine(p, RenderedIds(parents)) && 1 <= minSteps <= maxSteps
    ensures Validates(C.Compacted(p), parents, minSteps, maxSteps) <==>
            NamesBase(p, parents) && minSteps <= |C.Filled(p)| <= maxSteps && AllFit(p, RenderedIds(parents))
  {
    hide C.Compactable, C.Compacted, C.Filled, AllFine, AllFit, Validates, PassesAt, NamesBase, RenderedIds;
    AllPassIff(p, RenderedIds(parents));
    if Validates(C.Compacted(p), parents, minSteps, maxSteps) {
      ValidatedParts(p, parents, minSteps, maxSteps);
    }
    if NamesBase(p, parents) && minSteps <= |C.Filled(p)| <= maxSteps && AllFit(p, RenderedIds(parents)) {
      PartsValidate(p, parents, minSteps, maxSteps);
    }
  }

  // ----- two gapped payloads that the repair cannot save -----

  /** Only the second slot is filled: it keeps a rendered step. */
  function LateSlot(base: string, body: C.Value): C.Payload {
    map["base_parent" := C.Str(base), SlotName(1) := C.Null, SlotName(2) := body]
  }

  function KeepBody(id: string): C.Value {
    C.Dict(map["kind" := C.Str("keep"), "id" := C.Str(id)])
  }

  function KeepBodyWithList(id: string): C.Value {
    C.Dict(map["kind" := C.Str("keep"), "id" := C.Str(id), C.DEPENDENCIES := C.List([])])
  }

  /** Moved to the first position a slot may not carry a dependency list, be it empty. */
  lemma MovedFirstSlotIsRejected(parents: T.Parents, base: string, id: string, maxSteps: nat)
    requires base in T.Namespaces(parents) && id in RenderedIds(parents) && maxSteps >= 2
    ensures var p := LateSlot(base, KeepBodyWithList(id));
            && C.Compactable(p) && NamesBase(p, parents) && AllFine(p, RenderedIds(parents))
            && 1 <= |C.Filled(p)| <= maxSteps
            && !Validates(C.Compacted(p), parents, 1, maxSteps)
  {
    hide C.Compactable, C.Compacted, C.Slot, C.Filled, Validates, NamesBase, RenderedIds, ParseSlot, LateSlot;
    hide T.Namespaces, T.GoodSlot, SlotIndex, SlotName;
    var body := KeepBodyWithList(id);
    var p := LateSlot(base, body);
    KeepBodiesParse(id, RenderedIds(parents));
    LateSlotShape(base, body, RenderedIds(parents));
    NamesItsBase(base, body, parents);
    RepairValidatesIff(p, parents, 1, maxSteps);
    var f := C.Filled(p);
    assert 2 in f && C.Rank(f, 2) == 1;
    assert !FitsAfterwards(p, 2) by { assert FineWhereEmitted(p, 2, RenderedIds(parents)); }
  }

  /** The repair adds no steps: with fewer filled slots than required it is in vain, though each passes. */
  lemma TooFewSlotsAreRejected(parents: T.Parents, base: string, id: string, maxSteps: nat)
    requires base in T.Namespaces(parents) && id in RenderedIds(parents) && maxSteps >= 2
    ensures var p := LateSlot(base, KeepBody(id));
            && C.Compactable(p) && NamesBase(p, parents) && AllFine(p, RenderedIds(parents))
            && AllFit(p, RenderedIds(parents))
            && Validates(C.Compacted(p), parents, 1, maxSteps) && !Validates(C.Compacted(p), parents, 2, maxSteps)
  {
    hide C.Compactable, C.Compacted, C.Slot, C.Filled, Validates, NamesBase, RenderedIds, ParseSlot, LateSlot;
    hide T.Namespaces, T.GoodSlot, SlotIndex, SlotName;
    var body := KeepBody(id);
    var p := LateSlot(base, body);
    KeepBodiesParse(id, RenderedIds(parents));
    LateSlotShape(base, body, RenderedIds(parents));
    NamesItsBase(base, body, parents);
    forall i | i in C.Filled(p) ensures FitsAfterwards(p, i) {
      assert i == 2 && FineWhereEmitted(p, 2, RenderedIds(parents));
      assert C.Rank(C.Filled(p), 2) == 1;
    }
    RepairValidatesIff(p, parents, 1, maxSteps);
    RepairValidatesIff(p, parents, 2, maxSteps);
  }

  lemma KeepBodiesParse(id: string, ids: set<string>)
    requires id in ids
    ensures T.GoodSlot(T.Keep(id, map[], []), 2, ids)
    ensures ParseSlot(KeepBody(id), 2) == Some(T.Keep(id, map[], []))
    ensures ParseSlot(KeepBodyWithList(id), 2) == Some(T.Keep(id, map[], []))
  {
  }

  lemma NamesItsBase(base: string, body: C.Value, parents: T.Parents)
    requires base in T.Namespaces(parents)
    ensures NamesBase(LateSlot(base, body), parents)
  {
    BaseIsNoSlot();
    SlotNameRoundTrip(1, SlotName(1));
    SlotNameRoundTrip(2, SlotName(2));
  }

  lemma LateSlotShape(base: string, body: C.Value, ids: set<string>)
    requires body.Dict? && ParseSlot(body, 2).Some? && T.GoodSlot(ParseSlot(body, 2).value, 2, ids)
    requires C.DEPENDENCIES in body.fields ==> body.fields[C.DEPENDENCIES] == C.List([])
    ensures var p := LateSlot(base, body);
            && C.Filled(p) == [2] && C.Slot(p, 2) == body
            && C.Compactable(p) && AllFine(p, ids)
  {
    hide LateSlot, SlotName, SlotIndex, C.Filled, ParseSlot, T.GoodSlot;
    var p := LateSlot(base, body);
    LateSlotReads(base, body);
    LateSlotFilled(p);
    assert C.Filled(p)[0] == 2 && C.FirstN(1)[0] == 1;
    assert forall i :: i in C.Filled(p) ==> i == 2;
    assert C.GoodBody(body, C.Filled(p));
  }

  lemma LateSlotReads(base: string, body: C.Value)
    ensures var p := LateSlot(base, body);
            && C.Slot(p, 1) == C.Null && C.Slot(p, 2) == body && C.CanonicalSlots(p)
            && forall k :: k in p && IsSlot(k) ==> k == SlotName(1) || k == SlotName(2)
  {
    SlotNameRoundTrip(2, SlotName(2));
    SlotNameRoundTrip(1, SlotName(2));
    SlotNameRoundTrip(1, SlotName(1));
    BaseIsNoSlot();
    hide SlotName, SlotIndex, IsSlot;
  }

  lemma LateSlotFilled(p: C.Payload)
    requires C.Slot(p, 1) == C.Null && C.Slot(p, 2) != C.Null
    requires forall k :: k in p && IsSlot(k) ==> k == SlotName(1) || k == SlotName(2)
    ensures C.Filled(p) == [2]
  {
    hide SlotName, SlotIndex, C.Filled;
    forall i: nat ensures i in C.FilledSet(p) <==> i == 2 {
      C.FilledSlot(p, i);
      if C.Slot(p, i) != C.Null {
        SlotNameRoundTrip(i, SlotName(i));
        SlotNameRoundTrip(1, SlotName(i));
        SlotNameRoundTrip(2, SlotName(i));
      }
    }
    C.FilledSlot(p, 2);
    assert Elements([2]) == {2};
    IncreasingUnique(C.Filled(p), [2]);
  }
}
