/** Slot diffs as the schema accepts them, and their transcription into a numbered chain
    (gigaevo/chains/dag_changes.py). */
module SlotTranscription {
  import opened Basics
  import opened SlotNames

  type Content = map<string, string>

  datatype Step = Step(number: nat, dependencies: seq<nat>, content: Content)

  datatype Chain = Chain(steps: seq<Step>, scaffold: map<string, string>, task: string)

  /** Parents in rendering order, by namespace. */
  type Parents = seq<(string, Chain)>

  datatype Slot =
    | Keep(id: string, edits: Content, refs: seq<string>)
    | New(fields: Content, refs: seq<string>)

  datatype Diff = Diff(baseParent: string, slots: seq<Option<Slot>>)

  const CONTENT_FIELDS := {"title", "aim", "stage_action", "reasoning_questions", "example_reasoning"}

  /** The fields a new step may set; the others stay empty. */
  const NEW_FIELDS := {"title", "aim", "stage_action", "reasoning_questions"}

  // ----- ids -----

  function Lower(s: string): (r: string)
    ensures |r| == |s|
  {
    seq(|s|, i requires 0 <= i < |s| => if 'A' <= s[i] <= 'Z' then s[i] + 32 as char else s[i])
  }

  function BaseId(ns: string, i: nat): string {
    Lower(ns) + Decimal(i + 1)
  }

  /** Every rendered step with its id, parent by parent. */
  function Rendered(parents: Parents): seq<(string, Step)> {
    if parents == [] then []
    else
      var (ns, chain) := parents[0];
      seq(|chain.steps|, i requires 0 <= i < |chain.steps| => (BaseId(ns, i), chain.steps[i]))
      + Rendered(parents[1..])
  }

  /** The dict over rendered ids; a later entry replaces an earlier one with the same id. */
  function ById(rendered: seq<(string, Step)>): map<string, Step> {
    if rendered == [] then map[]
    else ById(rendered[..|rendered| - 1])[rendered[|rendered| - 1].0 := rendered[|rendered| - 1].1]
  }

  ghost predicate UniqueIds(rendered: seq<(string, Step)>) {
    forall i, j :: 0 <= i < j < |rendered| ==> rendered[i].0 != rendered[j].0
  }

  lemma {:induction false} ByIdFinds(rendered: seq<(string, Step)>, i: nat)
    requires UniqueIds(rendered) && i < |rendered|
    ensures rendered[i].0 in ById(rendered) && ById(rendered)[rendered[i].0] == rendered[i].1
  {
    var init := rendered[..|rendered| - 1];
    if i < |rendered| - 1 {
      assert rendered[i].0 != rendered[|rendered| - 1].0;
      assert init[i] == rendered[i];
      ByIdFinds(init, i);
    }
  }

  lemma {:induction false} RenderedHas(parents: Parents, p: nat, i: nat)
    requires p < |parents| && i < |parents[p].1.steps|
    ensures (BaseId(parents[p].0, i), parents[p].1.steps[i]) in Rendered(parents)
  {
    var (ns, chain) := parents[0];
    var head := seq(|chain.steps|, k requires 0 <= k < |chain.steps| => (BaseId(ns, k), chain.steps[k]));
    if p == 0 {
      assert head[i] in head;
    } else {
      RenderedHas(parents[1..], p - 1, i);
    }
  }

  // ----- what the slot models accept -----

  function Refs(slot: Slot): seq<string> {
    slot.refs
  }

  /** Position `k` offers only the earlier slots, at most `k - 1` of them; slot 1 has no such field. */
  predicate GoodRefs(refs: seq<string>, k: nat) {
    && |refs| < k
    && forall r :: r in refs ==> SlotIndex(r).Some? && 1 <= SlotIndex(r).value < k
  }

  predicate GoodSlot(slot: Slot, k: nat, ids: set<string>) {
    && GoodRefs(slot.refs, k)
    && match slot
       case Keep(id, edits, _) =>
         && id in ids
         && edits.Keys <= CONTENT_FIELDS
         && ("title" in edits ==> edits["title"] != "")
         && ("aim" in edits ==> edits["aim"] != "")
       case New(fields, _) =>
         && {"title", "aim"} <= fields.Keys <= NEW_FIELDS
         && fields["title"] != "" && fields["aim"] != ""
  }

  /** The filled slots come first. */
  ghost predicate Contiguous(slots: seq<Option<Slot>>) {
    exists n :: FilledPrefix(slots, n)
  }

  /** Exactly the first `n` slots are filled. */
  ghost predicate FilledPrefix(slots: seq<Option<Slot>>, n: int) {
    0 <= n <= |slots| && forall k :: 0 <= k < |slots| ==> (slots[k].Some? <==> k < n)
  }

  /** The validator: no slot is filled after an empty one. */
  method SlotsContiguous(slots: seq<Option<Slot>>) returns (ok: bool)
    ensures ok <==> Contiguous(slots)
  {
    var empty := false;
    ghost var n := 0;
    var k := 0;
    while k < |slots|
      invariant 0 <= n <= k <= |slots|
      invariant !empty ==> n == k
      invariant empty ==> n < k && slots[n].None?
      invariant forall j :: 0 <= j < k ==> (slots[j].Some? <==> j < n)
    {
      if slots[k].None? {
        empty := true;
      } else if empty {
        assert slots[n].None? && slots[k].Some?;
        return false;
      } else {
        n := n + 1;
      }
      k := k + 1;
    }
    assert FilledPrefix(slots, n);
    return true;
  }

  function Namespaces(parents: Parents): set<string> {
    set p | p in parents :: p.0
  }

  ghost predicate Accepted(diff: Diff, parents: Parents, minSteps: nat, maxSteps: nat) {
    && 1 <= minSteps <= maxSteps
    && |diff.slots| == maxSteps
    && diff.baseParent in Namespaces(parents)
    && Contiguous(diff.slots)
    && (forall k :: 0 <= k < minSteps ==> diff.slots[k].Some?)
    && forall k :: 0 <= k < maxSteps && diff.slots[k].Some? ==>
         GoodSlot(diff.slots[k].value, k + 1, ById(Rendered(parents)).Keys)
  }

  // ----- transcription -----

  function RefSet(refs: seq<string>): set<nat> {
    set r | r in refs && SlotIndex(r).Some? :: SlotIndex(r).value
  }

  function StepContent(slot: Slot, byId: map<string, Step>): Content {
    match slot
    case Keep(id, edits, _) => if id in byId then byId[id].content + edits else edits
    case New(fields, _) => (map f | f in CONTENT_FIELDS :: "") + fields
  }

  function StepAt(slot: Slot, k: nat, byId: map<string, Step>): Step {
    Step(k, Sorted(RefSet(if k > 1 then slot.refs else [])), StepContent(slot, byId))
  }

  datatype Wire = Wire(scaffold: map<string, string>, steps: seq<Step>, task: string, outputStep: nat)

  function Lookup(parents: Parents, ns: string): Option<Chain> {
    if parents == [] then None
    else if parents[0].0 == ns then Some(parents[0].1)
    else Lookup(parents[1..], ns)
  }

  lemma {:induction false} LookupFinds(parents: Parents, ns: string)
    requires ns in Namespaces(parents)
    ensures Lookup(parents, ns).Some?
  {
    if parents[0].0 != ns {
      var p :| p in parents && p.0 == ns;
      assert p in parents[1..];
      LookupFinds(parents[1..], ns);
    }
  }

  /** Parents are keyed by namespace. */
  ghost predicate DistinctNamespaces(parents: Parents) {
    forall p, q :: 0 <= p < q < |parents| ==> parents[p].0 != parents[q].0
  }

  lemma {:induction false} LookupIs(parents: Parents, ns: string)
    ensures forall p :: 0 <= p < |parents| && parents[p].0 == ns && DistinctNamespaces(parents) ==>
              Lookup(parents, ns) == Some(parents[p].1)
  {
    if parents != [] {
      LookupIs(parents[1..], ns);
      forall p | 0 <= p < |parents| && parents[p].0 == ns && DistinctNamespaces(parents)
        ensures Lookup(parents, ns) == Some(parents[p].1)
      {
        if p > 0 {
          assert parents[0].0 != parents[p].0;
          assert parents[1..][p - 1] == parents[p];
        }
      }
    }
  }

  method Transcribe(diff: Diff, parents: Parents, minSteps: nat, maxSteps: nat) returns (wire: Wire)
    requires Accepted(diff, parents, minSteps, maxSteps)
    ensures minSteps <= |wire.steps| <= maxSteps
    ensures forall k :: 0 <= k < maxSteps ==> (diff.slots[k].Some? <==> k < |wire.steps|)
    ensures forall k :: 0 <= k < |wire.steps| ==>
              diff.slots[k].Some? && wire.steps[k] == StepAt(diff.slots[k].value, k + 1, ById(Rendered(parents)))
    ensures Lookup(parents, diff.baseParent).Some?
    ensures wire.scaffold == Lookup(parents, diff.baseParent).value.scaffold
    ensures wire.task == Lookup(parents, diff.baseParent).value.task
    ensures forall p :: 0 <= p < |parents| && parents[p].0 == diff.baseParent && DistinctNamespaces(parents) ==>
              wire.scaffold == parents[p].1.scaffold && wire.task == parents[p].1.task
    ensures wire.outputStep == |wire.steps|
  {
    hide GoodSlot, ById, Rendered, Lookup, Namespaces, SlotIndex;
    LookupFinds(parents, diff.baseParent);
    LookupIs(parents, diff.baseParent);
    var base := Lookup(parents, diff.baseParent).value;
    var byId := ById(Rendered(parents));
    var steps: seq<Step> := [];
    ghost var n :| FilledPrefix(diff.slots, n);
    assert n >= minSteps by { assert n < maxSteps ==> diff.slots[n].None?; }
    var k := 1;
    while k <= maxSteps
      invariant 1 <= k <= n + 1
      invariant |steps| == k - 1
      invariant forall j :: 0 <= j < |steps| ==> steps[j] == StepAt(diff.slots[j].value, j + 1, byId)
    {
      if diff.slots[k - 1].None? {
        break;
      }
      var slot := diff.slots[k - 1].value;
      var refs := if k > 1 then slot.refs else [];
      var deps := Sorted(set r | r in refs && SlotIndex(r).Some? :: SlotIndex(r).value);
      var data := StepContent(slot, byId);
      steps := steps + [Step(k, deps, data)];
      k := k + 1;
    }
    assert |steps| == n;
    wire := Wire(base.scaffold, steps, base.task, |steps|);
  }

  /** The content of a step that keeps a rendered one: the fields of the step at that place of that parent,
      with the edited ones replaced. */
  lemma KeptContent(parents: Parents, p: nat, i: nat, edits: Content, refs: seq<string>, k: nat)
    requires UniqueIds(Rendered(parents)) && p < |parents| && i < |parents[p].1.steps|
    ensures var kept := parents[p].1.steps[i].content;
            var content := StepAt(Keep(BaseId(parents[p].0, i), edits, refs), k, ById(Rendered(parents))).content;
            forall f :: (f in content <==> f in kept || f in edits)
                        && (f in edits ==> content[f] == edits[f])
                        && (f in kept && f !in edits ==> content[f] == kept[f])
  {
    RenderedHas(parents, p, i);
    var rendered := Rendered(parents);
    var j :| 0 <= j < |rendered| && rendered[j] == (BaseId(parents[p].0, i), parents[p].1.steps[i]);
    ByIdFinds(rendered, j);
  }

  /** The content of a new step: the five content fields, as given or empty. */
  lemma NewContent(fields: Content, refs: seq<string>, k: nat, byId: map<string, Step>)
    requires fields.Keys <= NEW_FIELDS
    ensures var content := StepAt(New(fields, refs), k, byId).content;
            && content.Keys == {"title", "aim", "stage_action", "reasoning_questions", "example_reasoning"}
            && forall f :: f in content ==> content[f] == if f in fields then fields[f] else ""
  {
  }

  /** Ids are the namespace in lower case followed by the place, counted from 1. */
  lemma BaseIdIs(ns: string, i: nat)
    ensures var id := BaseId(ns, i);
            && id[|ns|..] == Decimal(i + 1)
            && forall c :: 0 <= c < |ns| ==>
                 id[c] == if 'A' <= ns[c] <= 'Z' then (ns[c] - 'A') + 'a' else ns[c]
  {
  }

  /** Every reference of an accepted diff is to a filled slot before its own. */
  lemma AcceptedRefsAreFilled(diff: Diff, parents: Parents, minSteps: nat, maxSteps: nat, k: nat, r: string)
    requires Accepted(diff, parents, minSteps, maxSteps)
    requires k < maxSteps && diff.slots[k].Some? && r in diff.slots[k].value.refs
    ensures exists j :: 0 <= j < k && r == SlotName(j + 1) && diff.slots[j].Some?
  {
    var n :| FilledPrefix(diff.slots, n);
    assert GoodSlot(diff.slots[k].value, k + 1, ById(Rendered(parents)).Keys);
    hide SlotName, ById, Rendered;
    var j := SlotIndex(r).value - 1;
    SlotNameRoundTrip(j + 1, r);
    assert diff.slots[j].Some?;
  }

  /** What the chain's own validator asks of a step. */
  predicate Named(content: Content) {
    && "title" in content && content["title"] != ""
    && "aim" in content && content["aim"] != ""
  }

  lemma {:induction false} RenderedNamed(parents: Parents)
    requires forall p, i :: 0 <= p < |parents| && 0 <= i < |parents[p].1.steps| ==> Named(parents[p].1.steps[i].content)
    ensures forall r :: r in Rendered(parents) ==> Named(r.1.content)
  {
    if parents != [] {
      forall p, i | 0 <= p < |parents[1..]| && 0 <= i < |parents[1..][p].1.steps|
        ensures Named(parents[1..][p].1.steps[i].content)
      {
        assert parents[1..][p] == parents[p + 1];
      }
      RenderedNamed(parents[1..]);
      var steps := parents[0].1.steps;
      forall r | r in Rendered(parents) && r !in Rendered(parents[1..]) ensures Named(r.1.content) {
        var i :| 0 <= i < |steps| && r == (BaseId(parents[0].0, i), steps[i]);
        assert Named(parents[0].1.steps[i].content);
      }
    }
  }

  lemma {:induction false} ByIdNamed(rendered: seq<(string, Step)>)
    requires forall r :: r in rendered ==> Named(r.1.content)
    ensures forall id :: id in ById(rendered) ==> Named(ById(rendered)[id].content)
  {
    if rendered != [] {
      ByIdNamed(rendered[..|rendered| - 1]);
      assert rendered[|rendered| - 1] in rendered;
    }
  }

  /** The schema cannot break what the chain's validator demands: from parents whose steps all have a title and
      an aim, every accepted diff is transcribed into steps that have both. */
  lemma AcceptedStepsAreNamed(diff: Diff, parents: Parents, minSteps: nat, maxSteps: nat, k: nat)
    requires Accepted(diff, parents, minSteps, maxSteps) && k < maxSteps && diff.slots[k].Some?
    requires forall p, i :: 0 <= p < |parents| && 0 <= i < |parents[p].1.steps| ==> Named(parents[p].1.steps[i].content)
    ensures Named(StepAt(diff.slots[k].value, k + 1, ById(Rendered(parents))).content)
  {
    RenderedNamed(parents);
    ByIdNamed(Rendered(parents));
    var byId := ById(Rendered(parents));
    hide ById, Rendered;
    assert GoodSlot(diff.slots[k].value, k + 1, byId.Keys);
  }

  /** A position may name any of the earlier ones: the schema takes a step of either form that refers to
      each slot before it once. */
  lemma EarlierSlotsAreOffered(k: nat, id: string, ids: set<string>, title: string, aim: string)
    requires id in ids && title != "" && aim != "" && k >= 1
    ensures var refs := seq(k - 1, j requires 0 <= j => SlotName(j + 1));
            && GoodSlot(Keep(id, map[], refs), k, ids)
            && GoodSlot(New(map["title" := title, "aim" := aim], refs), k, ids)
  {
    var refs := seq(k - 1, j requires 0 <= j => SlotName(j + 1));
    forall r | r in refs ensures SlotIndex(r).Some? && 1 <= SlotIndex(r).value < k {
      var j :| 0 <= j < |refs| && refs[j] == r;
      SlotNameRoundTrip(j + 1, r);
    }
  }

  /** Steps are numbered by position; dependencies are sorted, duplicate-free, smaller than the step's
      own number, and are exactly the slots the diff refers to. */
  lemma TranscribedStepWellFormed(slot: Slot, k: nat, ids: set<string>, byId: map<string, Step>)
    requires k >= 1 && GoodSlot(slot, k, ids)
    ensures var s := StepAt(slot, k, byId);
            && s.number == k
            && Increasing(s.dependencies)
            && (forall d :: d in s.dependencies ==> 1 <= d < k)
            && (forall d :: d in s.dependencies <==> SlotName(d) in slot.refs)
  {
    var s := StepAt(slot, k, byId);
    assert k == 1 ==> slot.refs == [];
    forall d ensures d in s.dependencies <==> SlotName(d) in slot.refs {
      SlotNameRoundTrip(d, SlotName(d));
      assert d in s.dependencies <==> d in Elements(s.dependencies);
      if d in s.dependencies {
        var r :| r in slot.refs && SlotIndex(r) == Some(d);
        SlotNameRoundTrip(d, r);
      }
    }
    forall d | d in s.dependencies ensures 1 <= d < k {
      SlotNameRoundTrip(d, SlotName(d));
    }
  }

  // ----- keeping a parent unchanged -----

  /** A parent as the platform renders it: step numbers are distinct and every dependency carries the
      number of an earlier step, listed once. Numbers need not match positions. */
  ghost predicate WellFormedChain(c: Chain) {
    && (forall i, j :: 0 <= i < j < |c.steps| ==> c.steps[i].number != c.steps[j].number)
    && (forall i :: 0 <= i < |c.steps| ==> Distinct(c.steps[i].dependencies))
    && forall i, d :: 0 <= i < |c.steps| && d in c.steps[i].dependencies ==> PositionOf(c, d) < i
  }

  /** Index of the step with number `d`, or the number of steps. */
  function PositionOf(c: Chain, d: nat): (i: nat)
    ensures i <= |c.steps|
    ensures i < |c.steps| ==> c.steps[i].number == d
  {
    FirstWithNumber(c.steps, d)
  }

  function FirstWithNumber(steps: seq<Step>, d: nat): (i: nat)
    ensures i <= |steps| && (i < |steps| ==> steps[i].number == d)
  {
    if steps == [] || steps[0].number == d then 0 else 1 + FirstWithNumber(steps[1..], d)
  }

  function PositionRefs(c: Chain, deps: seq<nat>): (r: seq<string>)
    ensures |r| == |deps|
    ensures forall i :: 0 <= i < |deps| ==> r[i] == SlotName(PositionOf(c, deps[i]) + 1)
  {
    seq(|deps|, i requires 0 <= i < |deps| => SlotName(PositionOf(c, deps[i]) + 1))
  }

  /** The diff that keeps every step of a parent in order, dependencies renumbered to positions. */
  function KeepAll(ns: string, c: Chain, maxSteps: nat): (diff: Diff)
    requires |c.steps| <= maxSteps
    ensures |diff.slots| == maxSteps
    ensures forall k :: 0 <= k < maxSteps ==>
              diff.slots[k] == if k < |c.steps|
                               then Some(Keep(BaseId(ns, k), map[], PositionRefs(c, c.steps[k].dependencies)))
                               else None
  {
    Diff(ns, seq(maxSteps, k requires 0 <= k < maxSteps =>
      if k < |c.steps| then Some(Keep(BaseId(ns, k), map[], PositionRefs(c, c.steps[k].dependencies))) else None))
  }

  lemma DistinctBelow(deps: seq<nat>, c: Chain, k: nat)
    requires Distinct(deps) && k <= |c.steps|
    requires forall d :: d in deps ==> PositionOf(c, d) < k
    ensures |deps| <= k
  {
    var positions := set d | d in deps :: PositionOf(c, d);
    forall x | x in positions ensures x in Below(k) {
      BelowHas(k, x);
    }
    SubsetSize(positions, Below(k));
    InjectiveImage(deps, c);
  }

  function Below(k: nat): (r: set<nat>)
    ensures |r| <= k
  {
    if k == 0 then {} else Below(k - 1) + {k - 1}
  }

  lemma {:induction false} BelowHas(k: nat, x: nat)
    requires x < k
    ensures x in Below(k)
  {
    if x < k - 1 {
      BelowHas(k - 1, x);
    }
  }

  lemma {:induction false} InjectiveImage(deps: seq<nat>, c: Chain)
    requires Distinct(deps) && forall d :: d in deps ==> PositionOf(c, d) < |c.steps|
    ensures |set d | d in deps :: PositionOf(c, d)| == |deps|
  {
    if deps == [] {
      assert (set d | d in deps :: PositionOf(c, d)) == {};
    } else {
      var init, last := deps[..|deps| - 1], deps[|deps| - 1];
      InjectiveImage(init, c);
      assert deps == init + [last];
      forall d | d in init ensures PositionOf(c, d) != PositionOf(c, last) {
        assert d != last;
      }
      assert (set d | d in deps :: PositionOf(c, d)) == (set d | d in init :: PositionOf(c, d)) + {PositionOf(c, last)};
    }
  }

  lemma KeepAllAccepted(parents: Parents, p: nat, minSteps: nat, maxSteps: nat)
    requires p < |parents| && WellFormedChain(parents[p].1) && UniqueIds(Rendered(parents))
    requires 1 <= minSteps <= |parents[p].1.steps| <= maxSteps
    ensures Accepted(KeepAll(parents[p].0, parents[p].1, maxSteps), parents, minSteps, maxSteps)
  {
    var (ns, c) := parents[p];
    var diff := KeepAll(ns, c, maxSteps);
    assert parents[p] in parents;
    assert Contiguous(diff.slots) by {
      assert FilledPrefix(diff.slots, |c.steps|);
    }
    forall k | 0 <= k < maxSteps && diff.slots[k].Some?
      ensures GoodSlot(diff.slots[k].value, k + 1, ById(Rendered(parents)).Keys)
    {
      var deps := c.steps[k].dependencies;
      var refs := PositionRefs(c, deps);
      DistinctBelow(deps, c, k);
      forall r | r in refs ensures SlotIndex(r).Some? && 1 <= SlotIndex(r).value < k + 1 {
        var i :| 0 <= i < |refs| && refs[i] == r;
        assert deps[i] in deps;
        SlotNameRoundTrip(PositionOf(c, deps[i]) + 1, r);
      }
      RenderedHas(parents, p, k);
      var rendered := Rendered(parents);
      var j :| 0 <= j < |rendered| && rendered[j] == (BaseId(ns, k), c.steps[k]);
      ByIdFinds(rendered, j);
    }
  }

  /** When rendered ids are unique, keeping a parent whole reproduces it: the diff is accepted and
      every step of its transcription has the parent step's content and reads exactly the positions
      of the steps the parent step reads. */
  lemma KeepAllReproduces(parents: Parents, p: nat, minSteps: nat, maxSteps: nat, k: nat)
    requires p < |parents| && WellFormedChain(parents[p].1) && UniqueIds(Rendered(parents))
    requires 1 <= minSteps <= |parents[p].1.steps| <= maxSteps
    requires k < |parents[p].1.steps|
    ensures var c := parents[p].1;
            var diff := KeepAll(parents[p].0, c, maxSteps);
            && Accepted(diff, parents, minSteps, maxSteps)
            && diff.slots[k].Some?
            && var s := StepAt(diff.slots[k].value, k + 1, ById(Rendered(parents)));
               && s.content == c.steps[k].content
               && (forall j :: 0 <= j < |c.steps| ==>
                     (j + 1 in s.dependencies <==> c.steps[j].number in c.steps[k].dependencies))
  {
    var (ns, c) := parents[p];
    var diff := KeepAll(ns, c, maxSteps);
    var byId := ById(Rendered(parents));
    KeepAllAccepted(parents, p, minSteps, maxSteps);
    RenderedHas(parents, p, k);
    var rendered := Rendered(parents);
    var i :| 0 <= i < |rendered| && rendered[i] == (BaseId(ns, k), c.steps[k]);
    ByIdFinds(rendered, i);
    var slot := diff.slots[k].value;
    var s := StepAt(slot, k + 1, byId);
    TranscribedStepWellFormed(slot, k + 1, byId.Keys, byId);
    KeepAllDependencies(c, k, slot, s);
  }

  lemma NumberPosition(c: Chain, j: nat)
    requires WellFormedChain(c) && j < |c.steps|
    ensures PositionOf(c, c.steps[j].number) == j
  {
    FirstWithNumberAt(c.steps, j);
  }

  lemma {:induction false} FirstWithNumberAt(steps: seq<Step>, j: nat)
    requires j < |steps| && forall a, b :: 0 <= a < b < |steps| ==> steps[a].number != steps[b].number
    ensures FirstWithNumber(steps, steps[j].number) == j
  {
    if j > 0 {
      assert steps[0].number != steps[j].number;
      FirstWithNumberAt(steps[1..], j - 1);
    }
  }

  lemma KeepAllDependencies(c: Chain, k: nat, slot: Slot, s: Step)
    requires WellFormedChain(c) && k < |c.steps|
    requires slot.refs == PositionRefs(c, c.steps[k].dependencies)
    requires Increasing(s.dependencies) && forall d :: d in s.dependencies <==> SlotName(d) in slot.refs
    ensures forall j :: 0 <= j < |c.steps| ==>
              (j + 1 in s.dependencies <==> c.steps[j].number in c.steps[k].dependencies)
  {
    var deps := c.steps[k].dependencies;
    hide WellFormedChain, PositionOf;
    forall j | 0 <= j < |c.steps|
      ensures j + 1 in s.dependencies <==> c.steps[j].number in deps
    {
      NumberPosition(c, j);
      RefsHavePosition(c, deps, j);
    }
  }

  lemma RefsHavePosition(c: Chain, deps: seq<nat>, j: nat)
    requires j < |c.steps| && PositionOf(c, c.steps[j].number) == j
    ensures SlotName(j + 1) in PositionRefs(c, deps) <==> c.steps[j].number in deps
  {
    var refs := PositionRefs(c, deps);
    hide SlotName;
    if c.steps[j].number in deps {
      var i :| 0 <= i < |deps| && deps[i] == c.steps[j].number;
      assert refs[i] == SlotName(j + 1);
    }
    if SlotName(j + 1) in refs {
      var i :| 0 <= i < |refs| && refs[i] == SlotName(j + 1);
      SlotNameRoundTrip(j + 1, SlotName(j + 1));
      SlotNameRoundTrip(PositionOf(c, deps[i]) + 1, SlotName(j + 1));
      assert PositionOf(c, deps[i]) == j;
      assert deps[i] in deps;
    }
  }
}
