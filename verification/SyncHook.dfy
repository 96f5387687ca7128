/** The drift-cap synchroniser between populations (gigaevo/adversarial/sync.py). */
module SyncHook {
  import opened Basics

  function Min(values: seq<int>): (r: int)
    requires values != []
    ensures r in values && forall v :: v in values ==> r <= v
  {
    if |values| == 1 then values[0]
    else
      var rest := Min(values[1..]);
      assert forall v :: v in values ==> v == values[0] || v in values[1..];
      if values[0] <= rest then values[0] else rest
  }

  /** The drift is within the cap exactly when no opponent is further behind than the cap. */
  lemma DriftWithinCapIff(own: int, values: seq<int>, cap: int)
    requires values != []
    ensures own - Min(values) <= cap <==> forall i :: 0 <= i < |values| ==> own - values[i] <= cap
  {
    var m := Min(values);
    var i :| 0 <= i < |values| && values[i] == m;
  }

  // ----- the hook object -----

  /** `calls` calls make `rounds` full rounds of `every` and `count` more. */
  ghost predicate Counted(calls: nat, rounds: nat, every: nat, count: nat) {
    count < every && calls == rounds * every + count
  }

  /** What a call is for. */
  datatype Purpose = Skip | TakeBaseline | Synchronise

  /** The purpose of a call, and the two fields after it. */
  function Dispatch(count: nat, first: bool, every: nat): (Purpose, nat, bool) {
    if count + 1 < every then (Skip, count + 1, first)
    else if first then (TakeBaseline, 0, false)
    else (Synchronise, 0, false)
  }

  /** Counting the calls: every `every`-th one is not skipped, and the first of those takes the baseline. */
  lemma DispatchCounts(calls: nat, rounds: nat, every: nat, count: nat)
    requires Counted(calls, rounds, every, count)
    ensures var (purpose, count', first') := Dispatch(count, rounds == 0, every);
            && Counted(calls + 1, if purpose == Skip then rounds else rounds + 1, every, count')
            && (purpose == Skip <==> (calls + 1) % every != 0)
            && (purpose == TakeBaseline <==> calls + 1 == every)
            && (purpose == Synchronise <==> (calls + 1) % every == 0 && calls + 1 > every)
            && (first' <==> (purpose == Skip && rounds == 0))
  {
    NextCounted(calls, rounds, every, count);
    CountedIsMod(calls + 1, if count + 1 < every then rounds else rounds + 1, every,
                 if count + 1 < every then count + 1 else 0);
    CountedAtLeast(calls + 1, if count + 1 < every then rounds else rounds + 1, every,
                   if count + 1 < every then count + 1 else 0);
  }

  lemma CountedAtLeast(calls: nat, rounds: nat, every: nat, count: nat)
    requires Counted(calls, rounds, every, count)
    ensures rounds == 0 ==> calls < every
    ensures rounds == 1 && count == 0 ==> calls == every
    ensures rounds > 1 ==> calls > every
  {
    if rounds > 1 {
      assert rounds * every == (rounds - 2) * every + 2 * every;
    }
  }

  lemma CountedIsMod(calls: nat, rounds: nat, every: nat, count: nat)
    requires Counted(calls, rounds, every, count)
    ensures calls % every == count
  {
    var q, r := calls / every, calls % every;
    assert calls == q * every + r;
    QuotientUnique(q, rounds, r, count, every);
  }

  lemma QuotientUnique(a: nat, b: nat, r: nat, s: nat, n: nat)
    requires a * n + r == b * n + s && r < n && s < n
    ensures a == b && r == s
  {
    if a < b {
      MoreRounds(a, b, n);
    } else if b < a {
      MoreRounds(b, a, n);
    }
  }

  lemma MoreRounds(a: nat, b: nat, n: nat)
    requires a < b
    ensures b * n >= a * n + n
  {
    var more := b - a - 1;
    assert b * n == a * n + n + more * n;
  }

  datatype ConfigError = NoSources | NoCap | NegativeCap

  datatype Outcome = Skipped | Baseline | Passed | TimedOut

  class ProgressBasedSyncHook {
    const driftCap: int
    const every: nat
    const timeout: real
    const pollInterval: real
    var epochCallCount: nat
    var firstCall: bool
    ghost var calls: nat
    ghost var rounds: nat

    /** Of the calls made so far, one in `every` was a synchronising one; those are the `rounds`. */
    ghost predicate Valid()
      reads this
    {
      && every >= 1 && driftCap >= 0
      && Counted(calls, rounds, every, epochCallCount)
      && (firstCall <==> rounds == 0)
    }

    constructor (driftCap: int, syncEvery: int, timeout: real, pollInterval: real)
      requires driftCap >= 0
      ensures Valid() && calls == 0 && rounds == 0
      ensures this.driftCap == driftCap && this.timeout == timeout && this.pollInterval == pollInterval
      ensures every == if syncEvery < 1 then 1 else syncEvery
    {
      this.driftCap := driftCap;
      this.every := if syncEvery < 1 then 1 else syncEvery;
      this.timeout := timeout;
      this.pollInterval := pollInterval;
      epochCallCount, firstCall, calls, rounds := 0, true, 0, 0;
    }

    /** The configured cap, or else the deprecated `min_delta`, is taken if it is not negative. */
    static method Create(sources: nat, driftCap: Option<int>, minDelta: Option<int>,
        syncEvery: int, timeout: real, pollInterval: real) returns (r: Result<ProgressBasedSyncHook, ConfigError>)
      ensures r.Ok? <==> sources > 0 && (driftCap.Some? || minDelta.Some?)
                         && (driftCap.Some? ==> driftCap.value >= 0) && (driftCap.None? ==> minDelta.value >= 0)
      ensures r.Err? ==> r.error == if sources == 0 then NoSources
                                    else if driftCap == None == minDelta then NoCap else NegativeCap
      ensures r.Ok? ==> fresh(r.value) && r.value.Valid() && r.value.calls == 0
                        && r.value.driftCap == (if driftCap.Some? then driftCap.value else minDelta.value)
                        && r.value.every == (if syncEvery < 1 then 1 else syncEvery)
                        && r.value.timeout == timeout && r.value.pollInterval == pollInterval
    {
      if sources == 0 {
        return Err(NoSources);
      }
      if driftCap == None && minDelta == None {
        return Err(NoCap);
      }
      var cap := if driftCap == None then minDelta.value else driftCap.value;
      if cap < 0 {
        return Err(NegativeCap);
      }
      var hook := new ProgressBasedSyncHook(cap, syncEvery, timeout, pollInterval);
      return Ok(hook);
    }

    /** Between two polls the clock advances by the interval at least, if that is positive. */
    ghost predicate Ticks(start: real, clock: nat -> real) {
      && clock(0) >= start
      && forall k: nat :: clock(k + 1) >= clock(k) + if pollInterval > 0.0 then pollInterval else 0.0
    }

    /** Poll `k` would end the wait. */
    ghost predicate Ends(own: nat -> int, opponents: nat -> seq<int>, start: real, clock: nat -> real, k: nat)
      requires forall k: nat :: opponents(k) != []
    {
      own(k) - Min(opponents(k)) <= driftCap || clock(k) - start > timeout
    }

    /** One call. `own(k)` and `opponents(k)` are the readings of poll k, `clock(k)` the time after them. With
        an interval of zero or less the wait might not end at all, so then some poll has to end it. */
    method Call(own: nat -> int, opponents: nat -> seq<int>, start: real, clock: nat -> real)
        returns (outcome: Outcome, polls: nat)
      requires Valid() && Ticks(start, clock)
      requires forall k: nat :: opponents(k) != []
      requires pollInterval > 0.0 || exists k :: Ends(own, opponents, start, clock, k)
      modifies this`epochCallCount, this`firstCall, this`calls, this`rounds
      ensures Valid() && calls == old(calls) + 1
      ensures rounds == old(rounds) + if outcome == Skipped then 0 else 1
      ensures outcome == Skipped <==> epochCallCount > 0
      ensures outcome == Skipped <==> calls % every != 0
      ensures outcome == Baseline <==> calls == every
      ensures var (purpose, count, first) := Dispatch(old(epochCallCount), old(firstCall), every);
              && epochCallCount == count && firstCall == first
              && (outcome == Skipped <==> purpose == Skip) && (outcome == Baseline <==> purpose == TakeBaseline)
      ensures outcome == Passed || outcome == TimedOut <==> polls > 0
      ensures polls > 0 ==> Waited(own, opponents, start, clock, outcome, polls)
      ensures polls > 0 ==>
                (outcome == Passed <==> own(polls - 1) - Min(opponents(polls - 1)) <= driftCap)
                && (outcome == TimedOut ==> clock(polls - 1) - start > timeout)
      ensures forall k: nat :: k + 1 < polls ==>
                own(k) - Min(opponents(k)) > driftCap && clock(k) - start <= timeout
      ensures pollInterval > 0.0 ==> polls <= if timeout >= 0.0 then (timeout / pollInterval).Floor + 2 else 1
    {
      hide Counted, Waited, Ticks, Ends;
      NextCounted(calls, rounds, every, epochCallCount);
      DispatchCounts(calls, rounds, every, epochCallCount);
      calls := calls + 1;
      epochCallCount := epochCallCount + 1;
      if epochCallCount < every {
        LimitPositive(timeout, pollInterval);
        return Skipped, 0;
      }
      epochCallCount := 0;
      rounds := rounds + 1;
      if firstCall {
        firstCall := false;
        LimitPositive(timeout, pollInterval);
        return Baseline, 0;
      }
      outcome, polls := WaitForOpponents(own, opponents, start, clock);
    }

    /** Every poll but the last saw too large a drift in good time; the last one saw a drift within the
        cap, or else the time was up. */
    ghost predicate Waited(own: nat -> int, opponents: nat -> seq<int>, start: real, clock: nat -> real,
        outcome: Outcome, polls: nat)
      requires polls > 0 && forall k: nat :: opponents(k) != []
    {
      && (forall k: nat :: k + 1 < polls ==> !Ends(own, opponents, start, clock, k))
      && (if own(polls - 1) - Min(opponents(polls - 1)) <= driftCap then outcome == Passed
          else outcome == TimedOut && clock(polls - 1) - start > timeout)
    }

    method WaitForOpponents(own: nat -> int, opponents: nat -> seq<int>, start: real, clock: nat -> real)
        returns (outcome: Outcome, polls: nat)
      requires forall k: nat :: opponents(k) != []
      requires Ticks(start, clock)
      requires pollInterval > 0.0 || exists k :: Ends(own, opponents, start, clock, k)
      ensures outcome == Passed || outcome == TimedOut
      ensures polls > 0 && Waited(own, opponents, start, clock, outcome, polls)
      ensures outcome == Passed <==> own(polls - 1) - Min(opponents(polls - 1)) <= driftCap
      ensures outcome == TimedOut ==> clock(polls - 1) - start > timeout
      ensures forall k: nat :: k + 1 < polls ==>
                own(k) - Min(opponents(k)) > driftCap && clock(k) - start <= timeout
      ensures pollInterval > 0.0 ==> polls <= if timeout >= 0.0 then (timeout / pollInterval).Floor + 2 else 1
    {
      hide Elapsed;
      polls := 0;
      ghost var end: nat := 0;
      if pollInterval > 0.0 {
        LimitPositive(timeout, pollInterval);
        end := if timeout >= 0.0 then (timeout / pollInterval).Floor + 1 else 0;
      } else {
        end :| Ends(own, opponents, start, clock, end);
      }
      ElapsedNext(0, pollInterval);
      while true
        invariant polls <= end
        invariant pollInterval > 0.0 ==> Elapsed(polls, pollInterval) <= clock(polls) - start
        invariant forall k: nat :: k < polls ==> !Ends(own, opponents, start, clock, k)
        invariant forall k: nat :: k < polls ==>
                    own(k) - Min(opponents(k)) > driftCap && clock(k) - start <= timeout
        decreases end - polls
      {
        var drift := own(polls) - Min(opponents(polls));
        if drift <= driftCap {
          return Passed, polls + 1;
        }
        var elapsed := clock(polls) - start;
        if elapsed > timeout {
          return TimedOut, polls + 1;
        }
        if pollInterval > 0.0 {
          PollsWithin(polls, pollInterval, timeout);
          ElapsedNext(polls, pollInterval);
        }
        assert clock(polls + 1) >= clock(polls) + if pollInterval > 0.0 then pollInterval else 0.0;
        polls := polls + 1;
      }
    }
  }

  lemma LimitPositive(timeout: real, interval: real)
    ensures interval > 0.0 && timeout >= 0.0 ==> timeout / interval >= 0.0
  {
  }

  lemma NextCounted(calls: nat, rounds: nat, every: nat, count: nat)
    requires Counted(calls, rounds, every, count)
    ensures count + 1 < every ==> Counted(calls + 1, rounds, every, count + 1) && calls + 1 != every
    ensures count + 1 >= every ==> Counted(calls + 1, rounds + 1, every, 0) && (calls + 1 == every <==> rounds == 0)
  {
    if rounds > 0 {
      assert rounds * every == (rounds - 1) * every + every;
    }
  }

  function Elapsed(polls: nat, interval: real): real {
    polls as real * interval
  }

  lemma ElapsedNext(polls: nat, interval: real)
    ensures Elapsed(0, interval) == 0.0
    ensures Elapsed(polls + 1, interval) == Elapsed(polls, interval) + interval
  {
  }

  lemma PollsWithin(polls: nat, interval: real, timeout: real)
    requires interval > 0.0 && Elapsed(polls, interval) <= timeout
    ensures timeout >= 0.0 && polls <= (timeout / interval).Floor
  {
    assert polls as real <= timeout / interval;
  }
}
