/** Repair of slot payloads with gaps: filled slots slide left and every dependency is renumbered
    (gigaevo/chains/dag_changes.py). */
module SlotCompaction {
  import opened Basics
  import opened SlotNames

  datatype Value = Null | Number(n: int) | Str(s: string) | List(items: seq<Value>) | Dict(fields: Payload)

  type Payload = map<string, Value>

  const DEPENDENCIES := "dependencies"

  // ----- reading a payload -----

  predicate Canonical(k: string) {
    SlotIndex(k).Some? && SlotIndex(k).value >= 1
  }

  predicate CanonicalSlots(p: Payload) {
    forall k :: k in p && IsSlot(k) ==> Canonical(k)
  }

  function FilledSet(p: Payload): set<nat> {
    set k | k in p && Canonical(k) && p[k] != Null :: SlotIndex(k).value
  }

  /** The indices of the filled slots, in increasing order. */
  function Filled(p: Payload): (r: seq<nat>)
    ensures Increasing(r) && Elements(r) == FilledSet(p)
  {
    Sorted(FilledSet(p))
  }

  function FirstN(n: nat): (r: seq<nat>)
    ensures |r| == n && forall i :: 0 <= i < n ==> r[i] == i + 1
  {
    if n == 0 then [] else FirstN(n - 1) + [n]
  }

  /** The value of slot `i`; an absent slot reads as null. */
  function Slot(p: Payload, i: nat): Value {
    if SlotName(i) in p then p[SlotName(i)] else Null
  }

  lemma FilledSlot(p: Payload, i: nat)
    ensures i in FilledSet(p) <==> i >= 1 && Slot(p, i) != Null
    ensures i in Filled(p) <==> i in FilledSet(p)
  {
    SlotNameRoundTrip(i, SlotName(i));
    forall k | k in p && Canonical(k) && SlotIndex(k).value == i ensures k == SlotName(i) {
      SlotNameRoundTrip(i, k);
    }
    assert i in Filled(p) <==> i in Elements(Filled(p));
  }

  /** Position of `j` among the filled indices, counted from 1. */
  function Rank(f: seq<nat>, j: nat): (n: nat)
    requires j in f
    ensures 1 <= n <= |f| && f[n - 1] == j
  {
    if f[0] == j then 1 else 1 + Rank(f[1..], j)
  }

  lemma RankMonotone(f: seq<nat>, i: nat, j: nat)
    requires Increasing(f) && i in f && j in f
    ensures i < j <==> Rank(f, i) < Rank(f, j)
  {
  }

  lemma RankAt(f: seq<nat>, n: nat)
    requires Increasing(f) && 1 <= n <= |f|
    ensures f[n - 1] in f && Rank(f, f[n - 1]) == n
  {
  }

  predicate GoodRef(r: Value, f: seq<nat>) {
    r.Str? && SlotIndex(r.s).Some? && SlotIndex(r.s).value in f
  }

  predicate GoodBody(body: Value, f: seq<nat>) {
    && body.Dict?
    && (DEPENDENCIES in body.fields && body.fields[DEPENDENCIES].List? ==>
          forall r :: r in body.fields[DEPENDENCIES].items ==> GoodRef(r, f))
  }

  predicate Compactable(p: Payload) {
    && CanonicalSlots(p)
    && Filled(p) != FirstN(|Filled(p)|)
    && forall i :: i in Filled(p) ==> GoodBody(Slot(p, i), Filled(p))
  }

  // ----- what is repaired, in the payload's own terms -----

  /** Slot `i` holds a step. */
  predicate IsFilled(p: Payload, i: nat) {
    var k := "slot_" + Decimal(i);
    i >= 1 && k in p && p[k] != Null
  }

  ghost predicate NamedAsRendered(k: string) {
    exists i: nat :: i >= 1 && k == "slot_" + Decimal(i)
  }

  ghost predicate HasGap(p: Payload) {
    exists i: nat, j: nat :: 1 <= i < j && !IsFilled(p, i) && IsFilled(p, j)
  }

  ghost predicate NamesFilled(p: Payload, r: Value) {
    exists j: nat :: r == Str("slot_" + Decimal(j)) && IsFilled(p, j)
  }

  lemma CanonicalIff(k: string)
    ensures (IsSlot(k) ==> Canonical(k)) <==> ("slot_" <= k ==> NamedAsRendered(k))
  {
    if Canonical(k) {
      var i := SlotIndex(k).value;
      SlotNameRoundTrip(i, k);
      assert i >= 1 && k == "slot_" + Decimal(i);
    }
    if NamedAsRendered(k) {
      var i: nat :| i >= 1 && k == "slot_" + Decimal(i);
      SlotNameRoundTrip(i, k);
    }
  }

  lemma FilledIff(p: Payload, i: nat)
    ensures i in Filled(p) <==> IsFilled(p, i)
  {
    FilledSlot(p, i);
  }

  lemma GoodRefIff(p: Payload, r: Value)
    ensures GoodRef(r, Filled(p)) <==> NamesFilled(p, r)
  {
    hide Decimal, ParseDecimal;
    if GoodRef(r, Filled(p)) {
      var j := SlotIndex(r.s).value;
      SlotNameRoundTrip(j, r.s);
      FilledIff(p, j);
    }
    if NamesFilled(p, r) {
      var j: nat :| r == Str("slot_" + Decimal(j)) && IsFilled(p, j);
      SlotNameRoundTrip(j, r.s);
      FilledIff(p, j);
    }
  }

  lemma GapIff(p: Payload)
    ensures Filled(p) != FirstN(|Filled(p)|) <==> HasGap(p)
  {
    hide IsFilled, Filled;
    var f := Filled(p);
    FilledBasics(p);
    if HasGap(p) {
      var i: nat, j: nat :| 1 <= i < j && !IsFilled(p, i) && IsFilled(p, j);
      FilledIff(p, i);
      FilledIff(p, j);
      FirstNIs(|f|);
      assert (i in f <==> i in Elements(f)) && (j in f <==> j in Elements(f));
    } else if f != [] {
      var m := f[|f| - 1];
      IncreasingInit(f);
      forall i: nat ensures i in Elements(f) <==> 1 <= i <= m {
        FilledIff(p, i);
        FilledIff(p, m);
        assert i in f <==> i in Elements(f);
        if 1 <= i < m {
          assert IsFilled(p, i);
        }
      }
      FirstNIs(m);
      IncreasingUnique(f, FirstN(m));
    }
  }

  lemma FilledBasics(p: Payload)
    ensures Increasing(Filled(p)) && forall i :: i in Filled(p) ==> i >= 1
  {
    forall i | i in Filled(p) ensures i >= 1 {
      FilledSlot(p, i);
    }
  }

  lemma FirstNIs(n: nat)
    ensures Increasing(FirstN(n)) && forall i: nat :: i in Elements(FirstN(n)) <==> 1 <= i <= n
  {
    forall i: nat | 1 <= i <= n ensures i in FirstN(n) {
      assert FirstN(n)[i - 1] == i;
    }
  }

  /** A payload is repaired exactly when every slot key is written as rendered, some slot is filled after an
      unfilled one, and every filled slot is a mapping whose dependency list, if it has one, names filled
      slots as rendered. */
  lemma CompactableIff(p: Payload)
    ensures Compactable(p) <==>
            && (forall k :: k in p && "slot_" <= k ==> NamedAsRendered(k))
            && HasGap(p)
            && forall i: nat :: IsFilled(p, i) ==>
                 var body := p["slot_" + Decimal(i)];
                 && body.Dict?
                 && ("dependencies" in body.fields && body.fields["dependencies"].List? ==>
                       forall r :: r in body.fields["dependencies"].items ==> NamesFilled(p, r))
  {
    hide Filled, HasGap, NamedAsRendered, NamesFilled, GoodRef, Canonical, Decimal;
    GapIff(p);
    forall k ensures (IsSlot(k) ==> Canonical(k)) <==> ("slot_" <= k ==> NamedAsRendered(k)) {
      CanonicalIff(k);
    }
    forall i: nat ensures i in Filled(p) <==> IsFilled(p, i) {
      FilledIff(p, i);
    }
    forall r ensures GoodRef(r, Filled(p)) <==> NamesFilled(p, r) {
      GoodRefIff(p, r);
    }
    forall i: nat | IsFilled(p, i) ensures Slot(p, i) == p["slot_" + Decimal(i)] {
    }
  }

  // ----- the compacted payload -----

  function RenamedRef(r: Value, f: seq<nat>): Value
    requires GoodRef(r, f)
  {
    Str(SlotName(Rank(f, SlotIndex(r.s).value)))
  }

  function RenamedRefs(refs: seq<Value>, f: seq<nat>): (r: seq<Value>)
    requires forall x :: x in refs ==> GoodRef(x, f)
    ensures |r| == |refs|
    ensures forall i :: 0 <= i < |refs| ==> GoodRef(refs[i], f) && r[i] == RenamedRef(refs[i], f)
  {
    if refs == [] then []
    else
      var init := refs[..|refs| - 1];
      assert refs[|refs| - 1] in refs;
      RenamedRefs(init, f) + [RenamedRef(refs[|refs| - 1], f)]
  }

  function CompactBody(body: Value, f: seq<nat>): Value
    requires GoodBody(body, f)
  {
    if DEPENDENCIES in body.fields && body.fields[DEPENDENCIES].List? then
      Dict(body.fields[DEPENDENCIES := List(RenamedRefs(body.fields[DEPENDENCIES].items, f))])
    else body
  }

  /** The first `n` filled slots, slid to positions 1..n. */
  function Rebuilt(p: Payload, f: seq<nat>, n: nat): Payload
    requires n <= |f|
    requires forall i :: 0 <= i < n ==> GoodBody(Slot(p, f[i]), f)
  {
    if n == 0 then map[]
    else Rebuilt(p, f, n - 1)[SlotName(n) := CompactBody(Slot(p, f[n - 1]), f)]
  }

  function NonSlots(p: Payload): Payload {
    map k | k in p && !IsSlot(k) :: p[k]
  }

  function Compacted(p: Payload): Payload
    requires Compactable(p)
  {
    var f := Filled(p);
    assert forall i :: 0 <= i < |f| ==> f[i] in f;
    NonSlots(p) + Rebuilt(p, f, |f|)
  }

  // ----- the original's loops -----

  method RenameRefs(refs: seq<Value>, f: seq<nat>) returns (r: Option<seq<Value>>)
    ensures r.Some? <==> forall x :: x in refs ==> GoodRef(x, f)
    ensures r.Some? ==> r.value == RenamedRefs(refs, f)
  {
    var renamed := [];
    var i := 0;
    while i < |refs|
      invariant 0 <= i <= |refs|
      invariant forall x :: x in refs[..i] ==> GoodRef(x, f)
      invariant renamed == RenamedRefs(refs[..i], f)
    {
      if !refs[i].Str? || SlotIndex(refs[i].s).None? || SlotIndex(refs[i].s).value !in f {
        assert refs[i] in refs;
        return None;
      }
      assert refs[..i + 1] == refs[..i] + [refs[i]];
      assert refs[..i + 1][..i] == refs[..i];
      renamed := renamed + [Str(SlotName(Rank(f, SlotIndex(refs[i].s).value)))];
      i := i + 1;
    }
    assert refs[..|refs|] == refs;
    return Some(renamed);
  }

  method RebuildBody(body: Value, f: seq<nat>) returns (r: Option<Value>)
    ensures r.Some? <==> GoodBody(body, f)
    ensures r.Some? ==> r.value == CompactBody(body, f)
  {
    hide GoodRef, RenamedRefs;
    if !body.Dict? {
      return None;
    }
    if DEPENDENCIES in body.fields && body.fields[DEPENDENCIES].List? {
      var deps := RenameRefs(body.fields[DEPENDENCIES].items, f);
      if deps.None? {
        return None;
      }
      return Some(Dict(body.fields[DEPENDENCIES := List(deps.value)]));
    }
    return Some(body);
  }

  method RebuildSlots(p: Payload, f: seq<nat>) returns (r: Option<Payload>)
    ensures r.Some? <==> forall i :: 0 <= i < |f| ==> GoodBody(Slot(p, f[i]), f)
    ensures r.Some? ==> r.value == Rebuilt(p, f, |f|)
  {
    hide SlotName, SlotIndex, Slot, GoodBody, CompactBody;
    var rebuilt: Payload := map[];
    var n := 0;
    while n < |f|
      invariant 0 <= n <= |f|
      invariant forall i :: 0 <= i < n ==> GoodBody(Slot(p, f[i]), f)
      invariant rebuilt == Rebuilt(p, f, n)
    {
      var body := RebuildBody(Slot(p, f[n]), f);
      if body.None? {
        return None;
      }
      n := n + 1;
      rebuilt := rebuilt[SlotName(n) := body.value];
    }
    return Some(rebuilt);
  }

  method AllCanonical(p: Payload) returns (r: bool)
    ensures r == CanonicalSlots(p)
  {
    var slots := set k | k in p && IsSlot(k);
    var todo := slots;
    while todo != {}
      invariant todo <= slots
      invariant forall k :: k in slots - todo ==> Canonical(k)
    {
      var k :| k in todo;
      if SlotIndex(k).None? || SlotIndex(k).value < 1 {
        return false;
      }
      todo := todo - {k};
    }
    assert forall k :: k in p && IsSlot(k) ==> k in slots;
    return true;
  }

  method CompactPayload(payload: Value) returns (r: Option<Payload>)
    ensures r.Some? <==> payload.Dict? && Compactable(payload.fields)
    ensures r.Some? ==> r.value == Compacted(payload.fields)
  {
    if !payload.Dict? {
      return None;
    }
    hide Rebuilt, Slot, CanonicalSlots, GoodBody;
    var p := payload.fields;
    var canonical := AllCanonical(p);
    if !canonical {
      return None;
    }
    var f := Filled(p);
    if f == FirstN(|f|) {
      return None;
    }
    assert forall i :: 0 <= i < |f| ==> f[i] in f;
    var rebuilt := RebuildSlots(p, f);
    if rebuilt.None? {
      return None;
    }
    return Some(NonSlots(p) + rebuilt.value);
  }

  // ----- what compaction preserves -----

  lemma {:induction false} RebuiltAt(p: Payload, f: seq<nat>, n: nat, k: string)
    requires n <= |f|
    requires forall i :: 0 <= i < n ==> GoodBody(Slot(p, f[i]), f)
    ensures k in Rebuilt(p, f, n) <==> SlotIndex(k).Some? && 1 <= SlotIndex(k).value <= n
    ensures k in Rebuilt(p, f, n) ==>
              Rebuilt(p, f, n)[k] == CompactBody(Slot(p, f[SlotIndex(k).value - 1]), f)
  {
    if n > 0 {
      hide SlotIndex, SlotName, Slot, CompactBody, GoodBody;
      RebuiltAt(p, f, n - 1, k);
      SlotNameRoundTrip(n, k);
    }
  }

  /** The filled slots of the result are exactly 1..n, slot m holding the m-th filled slot of the
      original; every other entry is untouched and no slot key besides 1..n is left. */
  lemma CompactionSlots(p: Payload)
    requires Compactable(p)
    ensures var f, out := Filled(p), Compacted(p);
            && (forall i :: 0 <= i < |f| ==> f[i] in f && GoodBody(Slot(p, f[i]), f))
            && (forall m {:trigger Slot(out, m)} :: 1 <= m <= |f| ==> Slot(out, m) == CompactBody(Slot(p, f[m - 1]), f))
            && (forall m {:trigger Slot(out, m)} :: m > |f| ==> Slot(out, m) == Null)
            && CanonicalSlots(out)
            && NonSlots(out) == NonSlots(p)
  {
    var f, out := Filled(p), Compacted(p);
    hide Rebuilt, Filled, CompactBody, GoodBody;
    assert forall i :: 0 <= i < |f| ==> f[i] in f;
    forall m: nat | 1 <= m
      ensures Slot(out, m) == if m <= |f| then CompactBody(Slot(p, f[m - 1]), f) else Null
    {
      CompactedSlot(p, m);
    }
    CompactedKeys(p);
  }

  lemma CompactedSlot(p: Payload, m: nat)
    requires Compactable(p) && 1 <= m
    ensures var f := Filled(p);
            Slot(Compacted(p), m) == if m <= |f| then CompactBody(Slot(p, f[m - 1]), f) else Null
  {
    hide Filled, CompactBody, GoodBody, Rebuilt;
    RebuiltAt(p, Filled(p), |Filled(p)|, SlotName(m));
    SlotNameRoundTrip(m, SlotName(m));
  }

  lemma CompactedKeys(p: Payload)
    requires Compactable(p)
    ensures CanonicalSlots(Compacted(p)) && NonSlots(Compacted(p)) == NonSlots(p)
    ensures forall k :: k in Compacted(p) && IsSlot(k) ==>
              SlotIndex(k).Some? && 1 <= SlotIndex(k).value <= |Filled(p)|
  {
    hide Filled, CompactBody, GoodBody, Rebuilt;
    var f, out := Filled(p), Compacted(p);
    forall k | k in out && IsSlot(k)
      ensures Canonical(k) && SlotIndex(k).Some? && 1 <= SlotIndex(k).value <= |f|
    {
      RebuiltAt(p, f, |f|, k);
    }
    forall k | !IsSlot(k) ensures k !in Rebuilt(p, f, |f|) {
      RebuiltAt(p, f, |f|, k);
    }
  }

  lemma CompactionFills(p: Payload)
    requires Compactable(p)
    ensures Filled(Compacted(p)) == FirstN(|Filled(p)|)
  {
    var f, out := Filled(p), Compacted(p);
    CompactionSlots(p);
    hide Compacted, Filled, Slot, FilledSet, GoodBody, FirstN;
    forall i: nat ensures i in FilledSet(out) <==> 1 <= i <= |f| {
      FilledSlot(out, i);
      if 1 <= i <= |f| {
        CompactBodyFilled(Slot(p, f[i - 1]), f);
      }
    }
    var g := FirstN(|f|);
    forall i | i in FilledSet(out) ensures i in Elements(g) {
      assert g[i - 1] == i;
    }
    assert Elements(g) == FilledSet(out);
    IncreasingUnique(Filled(out), g);
  }

  lemma CompactBodyFilled(body: Value, f: seq<nat>)
    requires GoodBody(body, f)
    ensures CompactBody(body, f).Dict?
  {
  }

  /** Compacting a compacted payload reports no gap. */
  lemma CompactionIsFinal(p: Payload)
    requires Compactable(p)
    ensures !Compactable(Compacted(p))
  {
    hide Compacted, Filled;
    CompactionFills(p);
  }

  // ----- edges and meaning -----

  /** The dependency list of a step. */
  function Refs(body: Value): seq<Value> {
    if body.Dict? && DEPENDENCIES in body.fields && body.fields[DEPENDENCIES].List?
    then body.fields[DEPENDENCIES].items else []
  }

  /** The slots that slot `i` reads, in the order listed. */
  function Deps(p: Payload, i: nat): seq<nat> {
    RefIndices(Refs(Slot(p, i)))
  }

  function RefIndices(refs: seq<Value>): (r: seq<nat>)
    ensures |r| == |refs|
    ensures forall i :: 0 <= i < |refs| ==>
              r[i] == if refs[i].Str? && SlotIndex(refs[i].s).Some? then SlotIndex(refs[i].s).value else 0
  {
    seq(|refs|, i requires 0 <= i < |refs| =>
      if refs[i].Str? && SlotIndex(refs[i].s).Some? then SlotIndex(refs[i].s).value else 0)
  }

  /** What a step is, apart from its wiring. */
  function Content(body: Value): Payload {
    if body.Dict? then body.fields - {DEPENDENCIES} else map[]
  }

  lemma CompactBodyRefs(body: Value, f: seq<nat>)
    requires GoodBody(body, f)
    ensures Content(CompactBody(body, f)) == Content(body)
    ensures forall r :: r in Refs(body) ==> GoodRef(r, f)
    ensures Refs(CompactBody(body, f)) == RenamedRefs(Refs(body), f)
  {
    assert RenamedRefs([], f) == [];
    hide RenamedRefs, GoodRef;
  }

  lemma RenamedRefsIndices(refs: seq<Value>, f: seq<nat>)
    requires forall r :: r in refs ==> GoodRef(r, f)
    ensures forall k :: 0 <= k < |refs| ==>
              RefIndices(refs)[k] in f && RefIndices(RenamedRefs(refs, f))[k] == Rank(f, RefIndices(refs)[k])
  {
    hide SlotName, SlotIndex, Rank;
    forall k | 0 <= k < |refs|
      ensures RefIndices(refs)[k] in f && RefIndices(RenamedRefs(refs, f))[k] == Rank(f, RefIndices(refs)[k])
    {
      assert refs[k] in refs;
      var j := Rank(f, SlotIndex(refs[k].s).value);
      SlotNameRoundTrip(j, SlotName(j));
    }
  }

  /** Edges map one to one, position by position, under the renumbering; contents are untouched. */
  lemma CompactionEdges(p: Payload, i: nat)
    requires Compactable(p) && i in Filled(p)
    ensures var f, out := Filled(p), Compacted(p);
            var m := Rank(f, i);
            && Content(Slot(out, m)) == Content(Slot(p, i))
            && |Deps(out, m)| == |Deps(p, i)|
            && forall k :: 0 <= k < |Deps(p, i)| ==>
                 Deps(p, i)[k] in f && Deps(out, m)[k] == Rank(f, Deps(p, i)[k])
  {
    var f := Filled(p);
    CompactionSlots(p);
    hide Compacted, Compactable, Filled, GoodBody, CompactBody, Content, Refs, Slot, RefIndices, RenamedRefs;
    CompactBodyRefs(Slot(p, i), f);
    RenamedRefsIndices(Refs(Slot(p, i)), f);
    assert Slot(Compacted(p), Rank(f, i)) == CompactBody(Slot(p, i), f);
  }

  /** All edges of the filled slots point to earlier filled slots. */
  ghost predicate Backward(p: Payload) {
    forall i :: i in Filled(p) ==> BackwardAt(Filled(p), i, Deps(p, i))
  }

  ghost predicate BackwardAt(f: seq<nat>, i: nat, deps: seq<nat>) {
    forall k :: 0 <= k < |deps| ==> deps[k] in f && deps[k] < i
  }

  lemma FirstNMember(n: nat, i: nat)
    ensures i in FirstN(n) <==> 1 <= i <= n
  {
    if 1 <= i <= n {
      assert FirstN(n)[i - 1] == i;
    }
  }

  lemma DirectionAt(p: Payload, i: nat)
    requires Compactable(p) && i in Filled(p)
    ensures var f, out := Filled(p), Compacted(p);
            && Rank(f, i) in Filled(out)
            && (BackwardAt(f, i, Deps(p, i)) <==> BackwardAt(Filled(out), Rank(f, i), Deps(out, Rank(f, i))))
  {
    var f, out := Filled(p), Compacted(p);
    CompactionFills(p);
    CompactionEdges(p, i);
    hide Compacted, Compactable, Deps, Filled, FirstN, FilledSet, Rank, Increasing;
    FirstNMember(|f|, Rank(f, i));
    var deps, renamed := Deps(p, i), Deps(out, Rank(f, i));
    forall k | 0 <= k < |deps|
      ensures renamed[k] in Filled(out)
      ensures renamed[k] < Rank(f, i) <==> deps[k] < i
    {
      RankMonotone(f, deps[k], i);
      FirstNMember(|f|, Rank(f, deps[k]));
    }
  }

  /** Backward edges stay backward, and only backward edges become backward. */
  lemma CompactionKeepsDirection(p: Payload)
    requires Compactable(p)
    ensures Backward(Compacted(p)) <==> Backward(p)
  {
    var f, out := Filled(p), Compacted(p);
    CompactionFills(p);
    hide Compacted, Compactable, Deps, Filled, FirstN, FilledSet, Rank, Increasing, BackwardAt;
    forall i | i in f
      ensures Rank(f, i) in Filled(out)
      ensures BackwardAt(f, i, Deps(p, i)) <==> BackwardAt(Filled(out), Rank(f, i), Deps(out, Rank(f, i)))
    {
      DirectionAt(p, i);
    }
    if Backward(p) {
      forall m | m in Filled(out) ensures BackwardAt(Filled(out), m, Deps(out, m)) {
        FirstNMember(|f|, m);
        RankAt(f, m);
        assert BackwardAt(f, f[m - 1], Deps(p, f[m - 1]));
      }
    }
  }

  /** The value computed at slot `i`, each step being an arbitrary function of its content and of the
      values it reads. */
  ghost function Eval<T>(p: Payload, i: nat, step: (Payload, seq<T>) -> T): T
    requires Backward(p) && i in Filled(p)
    decreases i, 1, 0
  {
    step(Content(Slot(p, i)), EvalAll(p, i, Deps(p, i), step))
  }

  ghost function EvalAll<T>(p: Payload, i: nat, deps: seq<nat>, step: (Payload, seq<T>) -> T): (r: seq<T>)
    requires Backward(p) && BackwardAt(Filled(p), i, deps)
    ensures |r| == |deps|
    decreases i, 0, |deps|
  {
    if deps == [] then []
    else
      [Eval(p, deps[0], step)] + EvalAll(p, i, deps[1..], step)
  }

  /** Compaction preserves meaning: every step computes the value it computed before. */
  lemma {:induction false} CompactionPreservesEval<T>(p: Payload, i: nat, step: (Payload, seq<T>) -> T)
    requires Compactable(p) && Backward(p) && i in Filled(p)
    ensures Backward(Compacted(p)) && Rank(Filled(p), i) in Filled(Compacted(p))
    ensures Eval(Compacted(p), Rank(Filled(p), i), step) == Eval(p, i, step)
    decreases i, 1, 0
  {
    var f, out := Filled(p), Compacted(p);
    CompactionKeepsDirection(p);
    CompactionFills(p);
    FirstNMember(|f|, Rank(f, i));
    CompactionEdges(p, i);
    hide Compacted, Compactable, Filled, Deps, Content, Rank;
    EvalAllPreserved(p, i, Deps(p, i), Deps(out, Rank(f, i)), step);
  }

  lemma {:induction false} EvalAllPreserved<T>(p: Payload, i: nat, deps: seq<nat>, renamed: seq<nat>,
                                               step: (Payload, seq<T>) -> T)
    requires Compactable(p) && Backward(p) && Backward(Compacted(p)) && i in Filled(p)
    requires BackwardAt(Filled(p), i, deps)
    requires BackwardAt(Filled(Compacted(p)), Rank(Filled(p), i), renamed)
    requires |renamed| == |deps|
    requires forall k :: 0 <= k < |deps| ==> renamed[k] == Rank(Filled(p), deps[k])
    ensures EvalAll(Compacted(p), Rank(Filled(p), i), renamed, step) == EvalAll(p, i, deps, step)
    decreases i, 0, |deps|
  {
    hide Compacted, Compactable, Filled, Backward, Eval, Rank;
    if deps != [] {
      CompactionPreservesEval(p, deps[0], step);
      EvalAllPreserved(p, i, deps[1..], renamed[1..], step);
    }
  }
}
