/** Least-loaded endpoint selection with cooldowns (gigaevo/infra/endpoint_pool.py). */
module EndpointPool {
  import opened Basics

  type Endpoint = string

  /** The shared hashes; a missing field reads as zero. */
  datatype Pool = Pool(
    inflight: map<Endpoint, int>, cooling: set<Endpoint>,
    requests: map<Endpoint, int>, errors: map<Endpoint, int>)

  const EMPTY_POOL := Pool(map[], {}, map[], map[])

  function Field(m: map<Endpoint, int>, e: Endpoint): (n: int)
    ensures e in m ==> n == m[e]
    ensures e !in m ==> n == 0
  {
    if e in m then m[e] else 0
  }

  function Incr(m: map<Endpoint, int>, e: Endpoint, delta: int): map<Endpoint, int> {
    m[e := Field(m, e) + delta]
  }

  /** Endpoints not cooling down; all of them when every one is. */
  function Considered(p: Pool, endpoints: seq<Endpoint>): set<Endpoint> {
    var healthy := Elements(endpoints) - p.cooling;
    if healthy == {} then Elements(endpoints) else healthy
  }

  /** The endpoints the script may return. */
  ghost predicate LeastLoaded(p: Pool, endpoints: seq<Endpoint>, e: Endpoint) {
    && e in Considered(p, endpoints)
    && forall x :: x in Considered(p, endpoints) ==> Field(p.inflight, e) <= Field(p.inflight, x)
  }

  /** Among the listed endpoints that are not cooling down the returned one has the fewest requests in flight;
      if all of them are cooling down, it has the fewest of all. */
  ghost predicate Picked(inflight: map<Endpoint, int>, cooling: set<Endpoint>, endpoints: seq<Endpoint>, e: Endpoint) {
    && e in endpoints
    && ((exists x :: x in endpoints && x !in cooling) ==>
          && e !in cooling
          && forall x :: x in endpoints && x !in cooling ==> Field(inflight, e) <= Field(inflight, x))
    && ((forall x :: x in endpoints ==> x in cooling) ==>
          forall x :: x in endpoints ==> Field(inflight, e) <= Field(inflight, x))
  }

  lemma LeastLoadedIff(p: Pool, endpoints: seq<Endpoint>, e: Endpoint)
    ensures LeastLoaded(p, endpoints, e) <==> Picked(p.inflight, p.cooling, endpoints, e)
  {
    assert forall x :: x in endpoints <==> x in Elements(endpoints);
    if exists x :: x in endpoints && x !in p.cooling {
      var x :| x in endpoints && x !in p.cooling;
      assert x in Elements(endpoints) - p.cooling;
    } else {
      assert Elements(endpoints) - p.cooling == {};
    }
  }

  function Acquired(p: Pool, e: Endpoint): Pool {
    p.(inflight := Incr(p.inflight, e, 1))
  }

  function Released(p: Pool, e: Endpoint): Pool {
    p.(inflight := Incr(p.inflight, e, -1), requests := Incr(p.requests, e, 1))
  }

  function MarkedUnhealthy(p: Pool, e: Endpoint): Pool {
    p.(inflight := Incr(p.inflight, e, -1), cooling := p.cooling + {e}, errors := Incr(p.errors, e, 1))
  }

  // ----- the original's script and object -----

  class EndpointPool {
    const endpoints: seq<Endpoint>
    var inflight: map<Endpoint, int>
    var cooling: set<Endpoint>
    var requests: map<Endpoint, int>
    var errors: map<Endpoint, int>

    ghost function Value(): Pool
      reads this
    {
      Pool(inflight, cooling, requests, errors)
    }

    constructor (endpoints: seq<Endpoint>)
      requires endpoints != []
      ensures this.endpoints == endpoints && Value() == EMPTY_POOL
    {
      this.endpoints := endpoints;
      inflight, cooling, requests, errors := map[], {}, map[], map[];
    }

    /** None stands for the ValueError. */
    static method Create(endpoints: seq<Endpoint>) returns (r: Option<EndpointPool>)
      ensures r == None <==> endpoints == []
      ensures r != None ==> fresh(r.value) && r.value.endpoints == endpoints && r.value.Value() == EMPTY_POOL
    {
      if endpoints == [] {
        return None;
      }
      var pool := new EndpointPool(endpoints);
      return Some(pool);
    }

    /** One pass of the script: the endpoints with the smallest count among those not skipped. */
    method Scan(skip: set<Endpoint>) returns (candidates: seq<Endpoint>)
      ensures candidates == [] <==> Elements(endpoints) - skip == {}
      ensures forall e :: e in candidates <==>
                e in Elements(endpoints) - skip
                && forall x :: x in Elements(endpoints) - skip ==> Field(inflight, e) <= Field(inflight, x)
    {
      candidates := [];
      var best := 0;
      var i := 0;
      while i < |endpoints|
        invariant 0 <= i <= |endpoints|
        invariant candidates == [] <==> Elements(endpoints[..i]) - skip == {}
        invariant forall x :: x in Elements(endpoints[..i]) - skip ==> best <= Field(inflight, x)
        invariant forall e :: e in candidates <==>
                    e in Elements(endpoints[..i]) - skip && Field(inflight, e) == best
      {
        var ep := endpoints[i];
        assert endpoints[..i + 1] == endpoints[..i] + [ep];
        ElementsSnoc(endpoints[..i], ep);
        if ep !in skip {
          var n := Field(inflight, ep);
          if candidates == [] || n < best {
            best := n;
            candidates := [ep];
          } else if n == best {
            candidates := candidates + [ep];
          }
        }
        assert ep !in skip ==> ep in Elements(endpoints[..i + 1]) - skip;
        i := i + 1;
      }
      assert endpoints[..|endpoints|] == endpoints;
      if candidates != [] {
        assert candidates[0] in candidates;
      }
    }

    /** `choice` stands for the script's random tie-break. */
    method Acquire(choice: nat) returns (e: Endpoint)
      requires endpoints != []
      modifies this`inflight
      ensures LeastLoaded(old(Value()), endpoints, e)
      ensures Value() == Acquired(old(Value()), e)
      ensures Picked(old(inflight), old(cooling), endpoints, e)
      ensures inflight == old(inflight)[e := Field(old(inflight), e) + 1]
    {
      ghost var before := Value();
      var candidates := Scan(cooling);
      if candidates == [] {
        assert endpoints[0] in Elements(endpoints);
        candidates := Scan({});
        assert Elements(endpoints) - {} == Elements(endpoints);
      }
      e := candidates[choice % |candidates|];
      assert e in candidates;
      LeastLoadedIff(before, endpoints, e);
      inflight := Incr(inflight, e, 1);
    }

    method Release(e: Endpoint)
      modifies this`inflight, this`requests
      ensures Value() == Released(old(Value()), e)
      ensures inflight == old(inflight)[e := Field(old(inflight), e) - 1]
      ensures requests == old(requests)[e := Field(old(requests), e) + 1]
    {
      inflight := Incr(inflight, e, -1);
      requests := Incr(requests, e, 1);
    }

    method MarkUnhealthy(e: Endpoint)
      modifies this`inflight, this`cooling, this`errors
      ensures Value() == MarkedUnhealthy(old(Value()), e)
      ensures inflight == old(inflight)[e := Field(old(inflight), e) - 1]
      ensures cooling == old(cooling) + {e} && errors == old(errors)[e := Field(old(errors), e) + 1]
    {
      inflight := Incr(inflight, e, -1);
      cooling := cooling + {e};
      errors := Incr(errors, e, 1);
    }

    /** The context manager around one request: `failed` says whether the body raised an Exception. */
    method Use(choice: nat, failed: bool) returns (e: Endpoint)
      requires endpoints != []
      modifies this
      ensures LeastLoaded(old(Value()), endpoints, e) && Picked(old(inflight), old(cooling), endpoints, e)
      ensures cooling == old(cooling) + if failed then {e} else {}
      ensures forall x :: Field(inflight, x) == Field(old(inflight), x)
      ensures Value() == if failed then MarkedUnhealthy(Acquired(old(Value()), e), e)
                                   else Released(Acquired(old(Value()), e), e)
    {
      e := Acquire(choice);
      if failed {
        MarkUnhealthy(e);
      } else {
        Release(e);
      }
    }
  }

  // ----- any number of concurrent requests -----

  /** `outstanding` maps each request in progress to the endpoint it was given. The commands that end
      a request are sent together but not as a transaction, so other clients may run between them:
      `finishing` and `failing` hold the endpoints whose count has come down already while the request
      or the error is yet to be recorded. */
  datatype System = System(
    pool: Pool, outstanding: map<nat, Endpoint>,
    finishing: multiset<Endpoint>, failing: multiset<Endpoint>, started: map<Endpoint, int>)

  const INITIAL := System(EMPTY_POOL, map[], multiset{}, multiset{}, map[])

  datatype Action =
    | Begin(r: nat, endpoints: seq<Endpoint>, choice: Endpoint)
    | Finish(r: nat)
    | CountRequest(e: Endpoint)
    | Fail(r: nat)
    | CountError(e: Endpoint)
    | CooldownBegins(e: Endpoint)
    | CooldownEnds(e: Endpoint)

  ghost predicate Enabled(s: System, a: Action) {
    match a
    case Begin(r, endpoints, choice) => r !in s.outstanding && LeastLoaded(s.pool, endpoints, choice)
    case Finish(r) => r in s.outstanding
    case CountRequest(e) => e in s.finishing
    case Fail(r) => r in s.outstanding
    case CountError(e) => e in s.failing
    case CooldownBegins(_) => true
    case CooldownEnds(_) => true
  }

  ghost function Step(s: System, a: Action): System
    requires Enabled(s, a)
  {
    match a
    case Begin(r, _, e) =>
      s.(pool := Acquired(s.pool, e), outstanding := s.outstanding[r := e], started := Incr(s.started, e, 1))
    case Finish(r) =>
      var e := s.outstanding[r];
      s.(pool := s.pool.(inflight := Incr(s.pool.inflight, e, -1)),
         outstanding := s.outstanding - {r}, finishing := s.finishing + multiset{e})
    case CountRequest(e) =>
      s.(pool := s.pool.(requests := Incr(s.pool.requests, e, 1)), finishing := s.finishing - multiset{e})
    case Fail(r) =>
      var e := s.outstanding[r];
      s.(pool := s.pool.(inflight := Incr(s.pool.inflight, e, -1)),
         outstanding := s.outstanding - {r}, failing := s.failing + multiset{e})
    case CountError(e) =>
      s.(pool := s.pool.(errors := Incr(s.pool.errors, e, 1)), failing := s.failing - multiset{e})
    case CooldownBegins(e) => s.(pool := s.pool.(cooling := s.pool.cooling + {e}))
    case CooldownEnds(e) => s.(pool := s.pool.(cooling := s.pool.cooling - {e}))
  }

  /** With nobody in between, the commands of a completion amount to the object's methods. */
  lemma CompletionIsItsCommands(s: System, r: nat)
    requires r in s.outstanding
    ensures var e := s.outstanding[r];
            var mid := Step(s, Finish(r));
            && Enabled(mid, CountRequest(e))
            && Step(mid, CountRequest(e)) == s.(pool := Released(s.pool, e), outstanding := s.outstanding - {r})
    ensures var e := s.outstanding[r];
            var mid := Step(Step(s, Fail(r)), CooldownBegins(e));
            && Enabled(mid, CountError(e))
            && Step(mid, CountError(e)) == s.(pool := MarkedUnhealthy(s.pool, e), outstanding := s.outstanding - {r})
  {
    var e := s.outstanding[r];
    assert s.finishing + multiset{e} - multiset{e} == s.finishing;
    assert s.failing + multiset{e} - multiset{e} == s.failing;
  }

  function At(outstanding: map<nat, Endpoint>, es: set<Endpoint>): set<nat> {
    set r | r in outstanding && outstanding[r] in es
  }

  /** Requests that ever began on `e`, found again wherever they are now. */
  function Accounted(s: System, e: Endpoint): int {
    Field(s.pool.inflight, e) + s.finishing[e] + Field(s.pool.requests, e) + s.failing[e] + Field(s.pool.errors, e)
  }

  /** In-flight counts are exactly the outstanding acquisitions, and every acquisition is accounted
      for as outstanding, served or failed. */
  ghost predicate Conserved(s: System) {
    forall e ::
      && Field(s.pool.inflight, e) == |At(s.outstanding, {e})|
      && Field(s.started, e) == Accounted(s, e)
  }

  lemma AtInsert(m: map<nat, Endpoint>, r: nat, e: Endpoint, x: Endpoint)
    requires r !in m
    ensures |At(m[r := e], {x})| == |At(m, {x})| + if x == e then 1 else 0
  {
    assert At(m[r := e], {x}) == At(m, {x}) + if x == e then {r} else {};
  }

  lemma AtRemove(m: map<nat, Endpoint>, r: nat, x: Endpoint)
    requires r in m
    ensures |At(m, {x})| == |At(m - {r}, {x})| + if x == m[r] then 1 else 0
  {
    assert At(m, {x}) == At(m - {r}, {x}) + if x == m[r] then {r} else {};
  }

  lemma StepConserves(s: System, a: Action)
    requires Conserved(s) && Enabled(s, a)
    ensures Conserved(Step(s, a))
    ensures a.Begin? ==> Picked(s.pool.inflight, s.pool.cooling, a.endpoints, a.choice)
  {
    if a.Begin? {
      LeastLoadedIff(s.pool, a.endpoints, a.choice);
    }
    hide At, LeastLoaded, Picked, Accounted;
    forall e
      ensures Field(Step(s, a).pool.inflight, e) == |At(Step(s, a).outstanding, {e})|
      ensures Field(Step(s, a).started, e) == Accounted(Step(s, a), e)
    {
      assert Field(s.pool.inflight, e) == |At(s.outstanding, {e})|;
      assert Field(s.started, e) == Accounted(s, e);
      StepCounts(s, a, e);
      StepAccounts(s, a, e);
    }
  }

  lemma StepCounts(s: System, a: Action, e: Endpoint)
    requires Enabled(s, a) && Field(s.pool.inflight, e) == |At(s.outstanding, {e})|
    ensures Field(Step(s, a).pool.inflight, e) == |At(Step(s, a).outstanding, {e})|
  {
    hide At, LeastLoaded;
    match a
    case Begin(r, _, c) => AtInsert(s.outstanding, r, c, e);
    case Finish(r) => AtRemove(s.outstanding, r, e);
    case Fail(r) => AtRemove(s.outstanding, r, e);
    case _ =>
  }

  lemma StepAccounts(s: System, a: Action, e: Endpoint)
    requires Enabled(s, a) && Field(s.started, e) == Accounted(s, e)
    ensures Field(Step(s, a).started, e) == Accounted(Step(s, a), e)
  {
    hide LeastLoaded;
  }

  // ----- the load bound -----

  lemma AtSplit(m: map<nat, Endpoint>, es: set<Endpoint>, e: Endpoint)
    requires e in es
    ensures |At(m, es)| == |At(m, es - {e})| + |At(m, {e})|
    ensures |es| == |es - {e}| + 1
  {
    assert At(m, es) == At(m, es - {e}) + At(m, {e});
    assert At(m, es - {e}) !! At(m, {e});
  }

  /** If every endpoint of `es` carries at least `m` requests, at least m * |es| are outstanding. */
  lemma {:induction false} LoadsAddUp(m: map<nat, Endpoint>, es: set<Endpoint>, load: nat)
    requires forall e :: e in es ==> |At(m, {e})| >= load
    ensures |At(m, es)| >= load * |es|
    decreases |es|
  {
    if es != {} {
      var e :| e in es;
      LoadsAddUp(m, es - {e}, load);
      AtSplit(m, es, e);
      assert load * |es| == load * |es - {e}| + load;
    }
  }

  lemma TimesMonotone(a: nat, b: nat, c: nat)
    requires a <= b
    ensures a * c <= b * c
  {
    assert b * c == a * c + (b - a) * c;
  }

  lemma BeyondFloor(load: nat, h: nat, total: nat)
    requires h >= 1 && load > total / h
    ensures load * h > total
  {
    var q := total / h;
    assert total < q * h + h;
    TimesMonotone(q + 1, load, h);
  }

  lemma FloorBound(load: nat, k: nat, h: nat, total: nat)
    requires h >= 1 && k >= h && load * k <= total
    ensures load <= total / h
  {
    TimesMonotone(h, k, load);
    if load > total / h {
      BeyondFloor(load, h, total);
    }
  }

  function Bound(maxOutstanding: nat, minConsidered: nat): int
    requires maxOutstanding >= 1 && minConsidered >= 1
  {
    (maxOutstanding - 1) / minConsidered + 1
  }

  ghost predicate Loads(s: System, bound: int) {
    forall e :: 0 <= Field(s.pool.inflight, e) <= bound
  }

  /** At most `m` requests at once, and at least `h` endpoints to choose from at every acquire. */
  ghost predicate WithinLimits(s: System, a: Action, m: nat, h: nat) {
    a.Begin? ==> |s.outstanding| < m && |Considered(s.pool, a.endpoints)| >= h
  }

  /** There is always room where the script puts the next request. */
  lemma RoomAtTheLeastLoaded(s: System, endpoints: seq<Endpoint>, c: Endpoint, m: nat, h: nat)
    requires m >= 1 && h >= 1 && Conserved(s) && LeastLoaded(s.pool, endpoints, c)
    requires |s.outstanding| < m && |Considered(s.pool, endpoints)| >= h
    ensures 0 <= Field(s.pool.inflight, c) < Bound(m, h)
  {
    hide Considered;
    var es := Considered(s.pool, endpoints);
    var load := Field(s.pool.inflight, c);
    assert load == |At(s.outstanding, {c})|;
    assert forall e :: e in es ==> Field(s.pool.inflight, e) == |At(s.outstanding, {e})|;
    LoadsAddUp(s.outstanding, es, load);
    assert At(s.outstanding, es) <= s.outstanding.Keys;
    SubsetSize(At(s.outstanding, es), s.outstanding.Keys);
    FloorBound(load, |es|, h, m - 1);
  }

  lemma LoadsNonNegative(s: System)
    requires Conserved(s)
    ensures forall e :: 0 <= Field(s.pool.inflight, e)
  {
  }

  lemma StepKeepsLoads(s: System, a: Action, m: nat, h: nat)
    requires m >= 1 && h >= 1
    requires Conserved(s) && Enabled(s, a) && WithinLimits(s, a, m, h)
    requires Loads(s, Bound(m, h))
    ensures Loads(Step(s, a), Bound(m, h))
  {
    hide Conserved, At, Bound, Considered, LeastLoaded;
    StepConserves(s, a);
    var s' := Step(s, a);
    LoadsNonNegative(s');
    if a.Begin? {
      RoomAtTheLeastLoaded(s, a.endpoints, a.choice, m, h);
    }
    forall e ensures 0 <= Field(s'.pool.inflight, e) <= Bound(m, h) {
      assert Field(s.pool.inflight, e) <= Bound(m, h);
    }
  }

  /** `s'` is reached from `s` by enabled actions that stay within the limits. */
  ghost predicate Reaches(s: System, actions: seq<Action>, s': System, m: nat, h: nat)
    decreases |actions|
  {
    if actions == [] then s == s'
    else
      && Enabled(s, actions[0])
      && WithinLimits(s, actions[0], m, h)
      && Reaches(Step(s, actions[0]), actions[1..], s', m, h)
  }

  /** Whatever the tie-breaks, the order of completions, the failures, the cooldowns and the endpoint
      lists of the callers, no endpoint ever carries more than floor((m-1)/h)+1 requests, no count is
      negative, and nothing is lost. */
  lemma {:induction false} LoadBound(s: System, actions: seq<Action>, s': System, m: nat, h: nat)
    requires m >= 1 && h >= 1
    requires Conserved(s) && Loads(s, Bound(m, h)) && Reaches(s, actions, s', m, h)
    ensures Conserved(s') && Loads(s', Bound(m, h))
    decreases |actions|
  {
    if actions != [] {
      hide Conserved, Loads, Enabled, WithinLimits, Step;
      StepConserves(s, actions[0]);
      StepKeepsLoads(s, actions[0], m, h);
      LoadBound(Step(s, actions[0]), actions[1..], s', m, h);
    }
  }

  /** The bound holds of every run from the empty pool. */
  lemma LoadBoundFromEmpty(actions: seq<Action>, s': System, m: nat, h: nat)
    requires m >= 1 && h >= 1 && Reaches(INITIAL, actions, s', m, h)
    ensures forall e :: 0 <= Field(s'.pool.inflight, e) == |At(s'.outstanding, {e})| <= (m - 1) / h + 1
  {
    hide Reaches, Conserved, Loads;
    InitLoads(Bound(m, h));
    InitConserved();
    LoadBound(INITIAL, actions, s', m, h);
    LoadsAreOutstanding(s', Bound(m, h));
  }

  lemma InitLoads(bound: nat)
    ensures Loads(INITIAL, bound)
  {
  }

  lemma InitConserved()
    ensures Conserved(INITIAL)
  {
    assert forall e: Endpoint :: At(map[], {e}) == {};
  }

  lemma LoadsAreOutstanding(s: System, bound: int)
    requires Conserved(s) && Loads(s, bound)
    ensures forall e :: 0 <= Field(s.pool.inflight, e) == |At(s.outstanding, {e})| <= bound
  {
  }

  lemma {:induction false} LoadsAtMost(m: map<nat, Endpoint>, es: set<Endpoint>, load: nat)
    requires forall e :: e in es ==> |At(m, {e})| <= load
    ensures |At(m, es)| <= load * |es|
    decreases |es|
  {
    if es == {} {
      assert At(m, es) == {};
    } else {
      hide At;
      var e :| e in es;
      LoadsAtMost(m, es - {e}, load);
      AtSplit(m, es, e);
      assert load * |es| == load * |es - {e}| + load;
    }
  }

  /** No allocator does better: whenever all `m` requests run on `h` endpoints, some endpoint carries
      at least floor((m-1)/h)+1 of them. */
  lemma BoundIsOptimal(outstanding: map<nat, Endpoint>, es: set<Endpoint>)
    requires outstanding != map[] && es != {} && outstanding.Values <= es
    ensures exists e :: e in es && |At(outstanding, {e})| >= Bound(|outstanding|, |es|)
  {
    hide At;
    var m, h := |outstanding|, |es|;
    assert (m - 1) / h * h <= m - 1;
    EverythingSomewhere(outstanding, es);
    if forall e :: e in es ==> |At(outstanding, {e})| <= (m - 1) / h {
      LoadsAtMost(outstanding, es, (m - 1) / h);
      assert false;
    }
  }

  lemma EverythingSomewhere(outstanding: map<nat, Endpoint>, es: set<Endpoint>)
    requires outstanding.Values <= es
    ensures |At(outstanding, es)| == |outstanding|
  {
    forall r | r in outstanding ensures outstanding[r] in es {
      assert outstanding[r] in outstanding.Values;
    }
    assert At(outstanding, es) == outstanding.Keys;
  }
}
