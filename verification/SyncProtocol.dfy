/** Any number of populations, each syncing on others through its own hook, interleaved arbitrarily. */
module SyncProtocol {
  import opened Basics
  import opened SyncHook

  /** The hook's settings for one population, and the most programs it processes between two calls. */
  datatype Conf = Conf(sources: seq<nat>, driftCap: nat, every: nat, perEpoch: nat)

  /** Inside a poll the own progress is read first, then the sources one by one. */
  datatype Mode =
    | Working(processed: nat)
    | AtHook
    | Polling(own: Option<nat>, readings: seq<nat>)

  /** `armed`: the last sync that did not only take the baseline ended within the cap. */
  datatype Member = Member(progress: nat, count: nat, first: bool, mode: Mode, armed: bool)

  type System = seq<Member>

  ghost predicate ValidConf(cs: seq<Conf>) {
    forall p :: 0 <= p < |cs| ==>
      && cs[p].sources != [] && cs[p].every >= 1
      && forall i :: 0 <= i < |cs[p].sources| ==> cs[p].sources[i] < |cs|
  }

  function Init(cs: seq<Conf>): System {
    seq(|cs|, _ => Member(0, 0, true, Working(0), false))
  }

  datatype Action =
    | Process(p: nat, programs: nat)
    | EndEpoch(p: nat)
    | Call(p: nat)
    | ReadOwn(p: nat)
    | ReadSource(p: nat)
    | Decide(p: nat, timedOut: bool)

  ghost predicate Enabled(cs: seq<Conf>, s: System, a: Action) {
    a.p < |s| == |cs| &&
    var m, c := s[a.p], cs[a.p];
    match a
    case Process(_, n) => m.mode.Working? && m.mode.processed + n <= c.perEpoch
    case EndEpoch(_) => m.mode.Working?
    case Call(_) => m.mode.AtHook?
    case ReadOwn(_) => m.mode.Polling? && m.mode.own == None
    case ReadSource(_) => m.mode.Polling? && m.mode.own != None && |m.mode.readings| < |c.sources|
    case Decide(_, _) =>
      m.mode.Polling? && m.mode.own != None && m.mode.readings != [] && |m.mode.readings| == |c.sources|
  }

  function Wait(): Mode { Polling(None, []) }

  ghost function Next(cs: seq<Conf>, s: System, a: Action): Member
    requires ValidConf(cs) && Enabled(cs, s, a)
  {
    var m, c := s[a.p], cs[a.p];
    match a
    case Process(_, n) => m.(progress := m.progress + n, mode := Working(m.mode.processed + n))
    case EndEpoch(_) => m.(mode := AtHook)
    case Call(_) =>
      var (purpose, count, first) := Dispatch(m.count, m.first, c.every);
      m.(count := count, first := first, mode := if purpose == Synchronise then Wait() else Working(0))
    case ReadOwn(_) => m.(mode := Polling(Some(m.progress), []))
    case ReadSource(_) =>
      var q := c.sources[|m.mode.readings|];
      m.(mode := Polling(m.mode.own, m.mode.readings + [s[q].progress]))
    case Decide(_, timedOut) =>
      if m.mode.own.value - Min(m.mode.readings) <= c.driftCap then m.(mode := Working(0), armed := true)
      else if timedOut then m.(mode := Working(0), armed := false)
      else m.(mode := Wait())
  }

  ghost function Step(cs: seq<Conf>, s: System, a: Action): System
    requires ValidConf(cs) && Enabled(cs, s, a)
  {
    s[a.p := Next(cs, s, a)]
  }

  ghost predicate Reaches(cs: seq<Conf>, s: System, actions: seq<Action>, s': System)
    requires ValidConf(cs)
    decreases |actions|
  {
    if actions == [] then s == s'
    else Enabled(cs, s, actions[0]) && Reaches(cs, Step(cs, s, actions[0]), actions[1..], s')
  }

  // ----- how far a population may be ahead -----

  /** Population `p` leads none of its sources by more than `bound`. */
  ghost predicate LeadAtMost(cs: seq<Conf>, s: System, p: nat, bound: int)
    requires ValidConf(cs) && p < |cs| == |s|
  {
    forall i :: 0 <= i < |cs[p].sources| ==> s[p].progress - s[cs[p].sources[i]].progress <= bound
  }

  /** The lead a population can have built up since its last sync within the cap. */
  function Allowance(c: Conf, m: Member): nat {
    match m.mode
    case Working(n) => c.driftCap + m.count * c.perEpoch + n
    case AtHook => c.driftCap + (m.count + 1) * c.perEpoch
    case Polling(_, _) => c.driftCap + c.every * c.perEpoch
  }

  /** What a population read in the current poll is still true of itself and a lower bound for others. */
  ghost predicate ReadingsOk(cs: seq<Conf>, s: System, p: nat)
    requires ValidConf(cs) && p < |cs| == |s|
  {
    s[p].mode.Polling? ==>
      && (s[p].mode.own != None ==> s[p].mode.own == Some(s[p].progress))
      && |s[p].mode.readings| <= |cs[p].sources|
      && forall i :: 0 <= i < |s[p].mode.readings| ==> s[p].mode.readings[i] <= s[cs[p].sources[i]].progress
  }

  ghost predicate MemberOk(cs: seq<Conf>, s: System, p: nat)
    requires ValidConf(cs) && p < |cs| == |s|
  {
    && s[p].count < cs[p].every
    && (s[p].mode.Working? ==> s[p].mode.processed <= cs[p].perEpoch)
    && (s[p].mode.Polling? ==> s[p].count == 0)
    && (s[p].mode.Polling? || s[p].armed ==> !s[p].first)
    && ReadingsOk(cs, s, p)
    && (s[p].armed ==> LeadAtMost(cs, s, p, Allowance(cs[p], s[p])))
  }

  ghost predicate Inv(cs: seq<Conf>, s: System)
    requires ValidConf(cs)
  {
    |s| == |cs| && forall p: nat :: p < |cs| ==> MemberOk(cs, s, p)
  }

  /** Progress never goes back. */
  lemma StepAdvances(cs: seq<Conf>, s: System, a: Action, q: nat)
    requires ValidConf(cs) && Enabled(cs, s, a) && q < |s|
    ensures Step(cs, s, a)[q].progress == s[q].progress + if a.Process? && a.p == q then a.programs else 0
    ensures q != a.p ==> Step(cs, s, a)[q] == s[q]
  {
  }

  /** Others may only catch up while `p` does nothing. */
  lemma OthersStep(cs: seq<Conf>, s: System, a: Action, p: nat)
    requires ValidConf(cs) && Enabled(cs, s, a) && p < |cs| && p != a.p && MemberOk(cs, s, p)
    ensures MemberOk(cs, Step(cs, s, a), p)
  {
    forall i | 0 <= i < |cs[p].sources|
      ensures s[cs[p].sources[i]].progress <= Step(cs, s, a)[cs[p].sources[i]].progress
    {
      StepAdvances(cs, s, a, cs[p].sources[i]);
    }
  }

  lemma AllowanceGrows(c: Conf, m: Member)
    requires m.count < c.every
    ensures (m.count + 1) * c.perEpoch == m.count * c.perEpoch + c.perEpoch
    ensures (m.count + 1) * c.perEpoch <= c.every * c.perEpoch
  {
    assert c.every * c.perEpoch == (m.count + 1) * c.perEpoch + (c.every - m.count - 1) * c.perEpoch;
  }

  lemma OwnStep(cs: seq<Conf>, s: System, a: Action)
    requires ValidConf(cs) && Enabled(cs, s, a) && MemberOk(cs, s, a.p)
    ensures MemberOk(cs, Step(cs, s, a), a.p)
  {
    var p, s' := a.p, Step(cs, s, a);
    AllowanceGrows(cs[p], s[p]);
    forall i | 0 <= i < |cs[p].sources|
      ensures s[cs[p].sources[i]].progress <= s'[cs[p].sources[i]].progress
    {
      StepAdvances(cs, s, a, cs[p].sources[i]);
    }
    var c, m, m' := cs[p], s[p], s'[p];
    if a.Decide? {
      DriftWithinCapIff(m.mode.own.value, m.mode.readings, c.driftCap);
    }
    if m'.armed {
      forall i | 0 <= i < |c.sources|
        ensures m'.progress - s'[c.sources[i]].progress <= Allowance(c, m')
      {
        var q := c.sources[i];
        if a.Decide? && m'.mode.Working? {
          assert m.mode.own.value - m.mode.readings[i] <= c.driftCap;
        } else {
          assert m.progress - s[q].progress <= Allowance(c, m);
          assert Allowance(c, m') - Allowance(c, m) >= m'.progress - m.progress;
        }
      }
    }
  }

  lemma StepKeepsInv(cs: seq<Conf>, s: System, a: Action)
    requires ValidConf(cs) && Inv(cs, s) && Enabled(cs, s, a)
    ensures Inv(cs, Step(cs, s, a)) && |Step(cs, s, a)| == |s| == |cs|
  {
    hide MemberOk;
    forall p: nat | p < |cs| ensures MemberOk(cs, Step(cs, s, a), p) {
      if p == a.p { OwnStep(cs, s, a); } else { OthersStep(cs, s, a, p); }
    }
  }

  lemma InitInv(cs: seq<Conf>)
    requires ValidConf(cs)
    ensures Inv(cs, Init(cs))
  {
  }

  lemma {:induction false} RunKeepsInv(cs: seq<Conf>, s: System, actions: seq<Action>, s': System)
    requires ValidConf(cs) && Inv(cs, s) && Reaches(cs, s, actions, s')
    ensures Inv(cs, s')
    decreases |actions|
  {
    if actions != [] {
      hide Inv, Step, Enabled;
      StepKeepsInv(cs, s, actions[0]);
      RunKeepsInv(cs, Step(cs, s, actions[0]), actions[1..], s');
    }
  }

  lemma AllowanceBounded(c: Conf, m: Member)
    requires m.count < c.every && (m.mode.Working? ==> m.mode.processed <= c.perEpoch)
    ensures Allowance(c, m) <= c.driftCap + c.every * c.perEpoch
  {
    AllowanceGrows(c, m);
  }

  /** In every run, whatever the interleaving and however stale the readings: from a sync that ended
      within the cap until one that timed out, no population leads any of its sources by more than the
      cap plus the programs of `every` epochs. */
  lemma BoundedLead(cs: seq<Conf>, actions: seq<Action>, s: System, p: nat)
    requires ValidConf(cs) && Reaches(cs, Init(cs), actions, s)
    requires p < |cs|
    ensures |s| == |cs|
    ensures s[p].armed ==> LeadAtMost(cs, s, p, cs[p].driftCap + cs[p].every * cs[p].perEpoch)
  {
    hide Reaches;
    InitInv(cs);
    RunKeepsInv(cs, Init(cs), actions, s);
    assert MemberOk(cs, s, p);
    AllowanceBounded(cs[p], s[p]);
  }

  /** `armed` changes only where a sync ends: set within the cap, cleared by a timeout. */
  lemma ArmedUntilTimeout(cs: seq<Conf>, s: System, a: Action, p: nat)
    requires ValidConf(cs) && Inv(cs, s) && Enabled(cs, s, a) && p < |cs|
    ensures var m, m' := s[p], Step(cs, s, a)[p];
            m.armed && !m'.armed <==> m.armed && a == Decide(p, true) && exists i ::
              0 <= i < |m.mode.readings| && m.progress - m.mode.readings[i] > cs[p].driftCap
    ensures var m, m' := s[p], Step(cs, s, a)[p];
            m.mode.Polling? && m'.mode.Working? && !(a == Decide(p, true) && !m'.armed) ==>
              m'.armed && LeadAtMost(cs, Step(cs, s, a), p, cs[p].driftCap)
    ensures var m, m' := s[p], Step(cs, s, a)[p];
            a.Decide? && a.p == p ==>
              (m'.mode.Working? <==>
               a.timedOut
               || forall i :: 0 <= i < |m.mode.readings| ==> m.progress - m.mode.readings[i] <= cs[p].driftCap)
  {
    StepKeepsInv(cs, s, a);
    assert MemberOk(cs, s, p) && MemberOk(cs, Step(cs, s, a), p);
    if a.Decide? && a.p == p {
      DriftWithinCapIff(s[p].mode.own.value, s[p].mode.readings, cs[p].driftCap);
    }
  }

  // ----- which calls synchronise -----

  function CallsOf(actions: seq<Action>, p: nat): nat {
    if actions == [] then 0
    else CallsOf(actions[1..], p) + if actions[0] == Call(p) then 1 else 0
  }

  /** After `calls` calls: so many full rounds and the rest in the count; the first round is the baseline's. */
  ghost predicate InRound(c: Conf, m: Member, calls: nat) {
    exists rounds: nat :: Counted(calls, rounds, c.every, m.count) && (m.first <==> rounds == 0)
  }

  lemma StepKeepsRound(cs: seq<Conf>, s: System, a: Action, p: nat, calls: nat)
    requires ValidConf(cs) && Enabled(cs, s, a) && p < |cs| == |s| && InRound(cs[p], s[p], calls)
    ensures InRound(cs[p], Step(cs, s, a)[p], if a == Call(p) then calls + 1 else calls)
    ensures a == Call(p) ==>
              (Step(cs, s, a)[p].mode.Polling? <==> (calls + 1) % cs[p].every == 0 && calls + 1 > cs[p].every)
  {
    var rounds: nat :| Counted(calls, rounds, cs[p].every, s[p].count) && (s[p].first <==> rounds == 0);
    hide Counted;
    var s' := Step(cs, s, a);
    if a == Call(p) {
      DispatchCounts(calls, rounds, cs[p].every, s[p].count);
      var purpose := Dispatch(s[p].count, s[p].first, cs[p].every).0;
      var rounds' := if purpose == Skip then rounds else rounds + 1;
      assert Counted(calls + 1, rounds', cs[p].every, s'[p].count);
    } else {
      assert Counted(calls, rounds, cs[p].every, s'[p].count);
    }
  }

  lemma {:induction false} RunKeepsRound(cs: seq<Conf>, s: System, actions: seq<Action>, s': System, p: nat, calls: nat)
    requires ValidConf(cs) && p < |cs| == |s| && InRound(cs[p], s[p], calls) && Reaches(cs, s, actions, s')
    ensures |s'| == |cs| && InRound(cs[p], s'[p], calls + CallsOf(actions, p))
    decreases |actions|
  {
    hide InRound, Step, Enabled;
    if actions != [] {
      StepKeepsRound(cs, s, actions[0], p, calls);
      assert |Step(cs, s, actions[0])| == |s| by { SameSize(cs, s, actions[0]); }
      RunKeepsRound(cs, Step(cs, s, actions[0]), actions[1..], s', p,
                    if actions[0] == Call(p) then calls + 1 else calls);
    }
  }

  lemma SameSize(cs: seq<Conf>, s: System, a: Action)
    requires ValidConf(cs) && Enabled(cs, s, a)
    ensures |Step(cs, s, a)| == |s|
  {
  }

  /** In every run a population starts to poll at its K-th call, 2K-th call and so on, the K-th itself being
      the baseline's, and at no other. */
  lemma EveryKthCallPolls(cs: seq<Conf>, actions: seq<Action>, s: System, p: nat)
    requires ValidConf(cs) && Reaches(cs, Init(cs), actions, s) && p < |cs| && Enabled(cs, s, Call(p))
    ensures var calls := CallsOf(actions, p) + 1;
            Step(cs, s, Call(p))[p].mode.Polling? <==> calls % cs[p].every == 0 && calls > cs[p].every
  {
    assert Counted(0, 0, cs[p].every, 0);
    assert InRound(cs[p], Init(cs)[p], 0);
    RunKeepsRound(cs, Init(cs), actions, s, p, 0);
    StepKeepsRound(cs, s, Call(p), p, CallsOf(actions, p));
  }

  // ----- nobody waits in a circle -----

  /** `p` is held back by `q`: it is inside a sync and more than its cap ahead of `q`. */
  ghost predicate WaitsFor(cs: seq<Conf>, s: System, p: nat, q: nat)
    requires ValidConf(cs) && |s| == |cs|
  {
    p < |cs| && q in cs[p].sources && s[p].mode.Polling? && s[p].progress - s[q].progress > cs[p].driftCap
  }

  /** Along any chain of waiting populations progress strictly falls, so no chain closes. */
  lemma {:induction false} NoWaitCycle(cs: seq<Conf>, s: System, chain: seq<nat>)
    requires ValidConf(cs) && |s| == |cs| && |chain| >= 2
    requires forall i :: 0 <= i < |chain| - 1 ==> WaitsFor(cs, s, chain[i], chain[i + 1])
    ensures forall i :: 0 <= i < |chain| ==> chain[i] < |s|
    ensures s[chain[0]].progress > s[chain[|chain| - 1]].progress
    ensures chain[0] != chain[|chain| - 1]
  {
    assert WaitsFor(cs, s, chain[0], chain[1]);
    if |chain| > 2 {
      var rest := chain[1..];
      forall i | 0 <= i < |rest| - 1 ensures WaitsFor(cs, s, rest[i], rest[i + 1]) {
        assert WaitsFor(cs, s, chain[i + 1], chain[i + 2]);
      }
      NoWaitCycle(cs, s, rest);
      assert rest[|rest| - 1] == chain[|chain| - 1];
      assert forall i :: 0 < i < |chain| ==> chain[i] == rest[i - 1];
    }
  }

  /** Someone is always free to go on: in every non-empty group a least advanced member waits for no
      one in it. */
  lemma {:induction false} LeastAdvancedIsFree(cs: seq<Conf>, s: System, group: set<nat>) returns (p: nat)
    requires ValidConf(cs) && |s| == |cs| && group != {} && forall q :: q in group ==> q < |cs|
    ensures p in group && forall q :: q in group ==> s[p].progress <= s[q].progress && !WaitsFor(cs, s, p, q)
  {
    p :| p in group;
    var rest := group - {p};
    assert forall q :: q in group ==> q == p || q in rest;
    if rest != {} {
      var r := LeastAdvancedIsFree(cs, s, rest);
      if s[r].progress < s[p].progress { p := r; }
    }
  }

  // ----- a population that is not ahead gets through -----

  /** `p` syncs without leading any source beyond its cap, and everything read so far says so. */
  ghost predicate Favoured(cs: seq<Conf>, s: System, p: nat)
    requires ValidConf(cs) && p < |cs| == |s|
  {
    && s[p].mode.Polling? && LeadAtMost(cs, s, p, cs[p].driftCap)
    && forall i :: 0 <= i < |s[p].mode.readings| ==> s[p].progress - s[p].mode.readings[i] <= cs[p].driftCap
  }

  /** Whatever anyone does, the current poll can only end in letting it go on. */
  lemma FavouredPasses(cs: seq<Conf>, s: System, a: Action, p: nat)
    requires ValidConf(cs) && Inv(cs, s) && Enabled(cs, s, a) && p < |cs| && Favoured(cs, s, p)
    ensures if a.Decide? && a.p == p then Step(cs, s, a)[p].mode.Working? && Step(cs, s, a)[p].armed
            else Favoured(cs, Step(cs, s, a), p)
  {
    var s' := Step(cs, s, a);
    assert MemberOk(cs, s, p);
    forall i | 0 <= i < |cs[p].sources|
      ensures s[cs[p].sources[i]].progress <= s'[cs[p].sources[i]].progress
    {
      StepAdvances(cs, s, a, cs[p].sources[i]);
    }
    if a.Decide? && a.p == p {
      DriftWithinCapIff(s[p].mode.own.value, s[p].mode.readings, cs[p].driftCap);
    }
  }

  /** A poll with stale readings may hold it once; the next one cannot. */
  lemma UnblockedStep(cs: seq<Conf>, s: System, a: Action, p: nat)
    requires ValidConf(cs) && Inv(cs, s) && Enabled(cs, s, a) && p < |cs|
    requires s[p].mode.Polling? && LeadAtMost(cs, s, p, cs[p].driftCap)
    ensures var s' := Step(cs, s, a);
            if !s'[p].mode.Polling? then a.Decide? && a.p == p && s'[p].mode.Working?
            else LeadAtMost(cs, s', p, cs[p].driftCap) && (a.Decide? && a.p == p ==> Favoured(cs, s', p))
  {
    var s' := Step(cs, s, a);
    assert MemberOk(cs, s, p);
    forall i | 0 <= i < |cs[p].sources|
      ensures s[cs[p].sources[i]].progress <= s'[cs[p].sources[i]].progress
    {
      StepAdvances(cs, s, a, cs[p].sources[i]);
    }
  }

  /** How often `p` comes to the end of a poll. */
  function Polls(actions: seq<Action>, p: nat): nat {
    if actions == [] then 0
    else (if actions[0].Decide? && actions[0].p == p then 1 else 0) + Polls(actions[1..], p)
  }

  /** At some point of the run `p` is back at work. */
  ghost predicate Resumes(cs: seq<Conf>, s: System, actions: seq<Action>, p: nat)
    requires ValidConf(cs) && p < |cs|
    decreases |actions|
  {
    || (p < |s| && s[p].mode.Working?)
    || (actions != [] && Enabled(cs, s, actions[0]) && Resumes(cs, Step(cs, s, actions[0]), actions[1..], p))
  }

  /** A syncing population that leads none of its sources beyond the cap -- the least advanced one above
      all -- is back at work after at most two polls, whatever the others do meanwhile. */
  lemma {:induction false} NeverBlocked(cs: seq<Conf>, s: System, actions: seq<Action>, s': System, p: nat)
    requires ValidConf(cs) && Inv(cs, s) && Reaches(cs, s, actions, s') && p < |cs|
    requires s[p].mode.Polling? && LeadAtMost(cs, s, p, cs[p].driftCap)
    requires Polls(actions, p) >= if Favoured(cs, s, p) then 1 else 2
    ensures Resumes(cs, s, actions, p)
    decreases |actions|
  {
    hide Inv, Favoured, LeadAtMost, Step, Enabled;
    var a, s1 := actions[0], Step(cs, s, actions[0]);
    StepKeepsInv(cs, s, a);
    UnblockedStep(cs, s, a, p);
    if Favoured(cs, s, p) { FavouredPasses(cs, s, a, p); }
    if s1[p].mode.Polling? {
      NeverBlocked(cs, s1, actions[1..], s', p);
    }
  }

  /** In every reachable state the least advanced population gets through. */
  lemma LeastAdvancedResumes(cs: seq<Conf>, before: seq<Action>, s: System, p: nat,
      actions: seq<Action>, s': System)
    requires ValidConf(cs) && Reaches(cs, Init(cs), before, s) && Reaches(cs, s, actions, s')
    requires p < |cs| && |s| == |cs| && s[p].mode.Polling? && Polls(actions, p) >= 2
    requires forall q: nat :: q < |s| ==> s[p].progress <= s[q].progress
    ensures Resumes(cs, s, actions, p)
  {
    hide Reaches, Resumes;
    InitInv(cs);
    RunKeepsInv(cs, Init(cs), before, s);
    assert LeadAtMost(cs, s, p, cs[p].driftCap);
    NeverBlocked(cs, s, actions, s', p);
  }
}
