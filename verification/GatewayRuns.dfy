/** Whole runs: any number of concurrent `complete` calls for one model, interleaved
    at their awaits (src/kvgate/service.py, routing/router.py, routing/state.py). */
module GatewayRuns {
  import opened Basics
  import opened Deployment
  import opened Strategies
  import opened Router

  /** Where a request is: awaiting deployment `dep` after failing on `tried`, or done. */
  datatype Phase = Waiting(dep: nat, tried: set<string>) | Done

  /** What every deployment has been through, and every request so far. */
  datatype Sys = Sys(logs: seq<seq<Event>>, requests: seq<Phase>)

  /** The fixed part: settings, deployments, load guard; P is a lower bound on the
      size of every pool and C an upper bound on the requests in flight. */
  datatype Config = Config(breaker: Breaker, deps: seq<Dep>, guard: Option<int>, P: nat, C: nat)

  /** An action names the deployment a pick chooses and the time of its health check. */
  datatype Action =
    | Arrive(dep: nat, at: real)
    | Succeed(r: nat, latency: real)
    | FailOver(r: nat, failedAt: real, dep: nat, at: real)
    | FailFinally(r: nat, failedAt: real)

  function ViewAt(c: Config, s: Sys, d: nat): View
    requires d < |c.deps| && d < |s.logs|
  {
    View(Key(c.deps[d]), c.deps[d], Replay(c.breaker, s.logs[d]))
  }

  function SysViews(c: Config, s: Sys): seq<View>
    requires |s.logs| == |c.deps|
  {
    seq(|c.deps|, d requires 0 <= d < |c.deps| => ViewAt(c, s, d))
  }

  predicate WellFormed(c: Config, s: Sys) {
    && |s.logs| == |c.deps|
    && forall r :: 0 <= r < |s.requests| && s.requests[r].Waiting? ==> s.requests[r].dep < |c.deps|
  }

  function Append(s: Sys, d: nat, e: Event): Sys
    requires d < |s.logs|
  {
    s.(logs := s.logs[d := s.logs[d] + [e]])
  }

  /** A pick by the router, on the deployments as they are now. */
  ghost predicate Picks(c: Config, s: Sys, tried: set<string>, at: real, d: nat)
    requires |s.logs| == |c.deps|
  {
    && d < |c.deps|
    && MayPick(SysViews(c, s), tried, at, c.guard, SysViews(c, s)[d])
    && |Pool(SysViews(c, s), tried, at)| >= c.P
  }

  predicate Awaits(s: Sys, r: nat) {
    r < |s.requests| && s.requests[r].Waiting?
  }

  /** The deployments after request `r` failed. */
  function Failed(s: Sys, r: nat, failedAt: real): Sys
    requires Awaits(s, r) && s.requests[r].dep < |s.logs|
  {
    Append(s, s.requests[r].dep, Failure(failedAt)).(requests := s.requests[r := Done])
  }

  /** What request `r` has failed on once its current call has failed. */
  function TriedBy(c: Config, s: Sys, r: nat): set<string>
    requires Awaits(s, r) && s.requests[r].dep < |c.deps|
  {
    s.requests[r].tried + {Key(c.deps[s.requests[r].dep])}
  }

  ghost predicate Enabled(c: Config, s: Sys, a: Action)
    requires WellFormed(c, s)
  {
    match a
    case Arrive(d, at) => Picks(c, s, {}, at, d)
    case Succeed(r, latency) => Awaits(s, r)
    case FailOver(r, failedAt, d, at) => Awaits(s, r) && Picks(c, Failed(s, r, failedAt), TriedBy(c, s, r), at, d)
    case FailFinally(r, failedAt) => Awaits(s, r)
  }

  ghost function Next(c: Config, s: Sys, a: Action): (s': Sys)
    requires WellFormed(c, s) && Enabled(c, s, a)
    ensures WellFormed(c, s')
  {
    match a
    // pick and on_start: no await between them
    case Arrive(d, at) => Append(s, d, Start).(requests := s.requests + [Waiting(d, {})])
    case Succeed(r, latency) => Append(s, s.requests[r].dep, Success(latency)).(requests := s.requests[r := Done])
    // on_failure, the next pick and on_start: no await between them either
    case FailOver(r, failedAt, d, at) =>
      Append(Failed(s, r, failedAt), d, Start).(requests := s.requests[r := Waiting(d, TriedBy(c, s, r))])
    case FailFinally(r, failedAt) => Failed(s, r, failedAt)
  }

  /** The requests in flight. */
  function Active(requests: seq<Phase>): nat {
    if requests == [] then 0
    else Active(requests[..|requests| - 1]) + if requests[|requests| - 1].Waiting? then 1 else 0
  }

  function Initial(c: Config): Sys {
    Sys(seq(|c.deps|, d => []), [])
  }

  ghost predicate Run(c: Config, s: Sys, actions: seq<Action>, s': Sys)
    requires WellFormed(c, s)
    decreases |actions|
  {
    if actions == [] then s' == s
    else
      && Enabled(c, s, actions[0])
      && Active(Next(c, s, actions[0]).requests) <= c.C
      && Run(c, Next(c, s, actions[0]), actions[1..], s')
  }

  // ----- counting -----

  function On(p: Phase, d: nat): nat {
    if p.Waiting? && p.dep == d then 1 else 0
  }

  /** The requests awaiting deployment `d`. */
  function Waiters(requests: seq<Phase>, d: nat): nat {
    if requests == [] then 0
    else Waiters(requests[..|requests| - 1], d) + On(requests[|requests| - 1], d)
  }

  lemma {:induction false} WaitersUpdate(requests: seq<Phase>, r: nat, p: Phase, d: nat)
    requires r < |requests|
    ensures Waiters(requests[r := p], d) == Waiters(requests, d) - On(requests[r], d) + On(p, d)
  {
    var n := |requests| - 1;
    if r == n {
      assert requests[r := p][..n] == requests[..n];
    } else {
      WaitersUpdate(requests[..n], r, p, d);
      assert requests[r := p][..n] == requests[..n][r := p];
    }
  }

  function Total(requests: seq<Phase>, n: nat): nat {
    if n == 0 then 0 else Total(requests, n - 1) + Waiters(requests, n - 1)
  }

  lemma {:induction false} TotalOneMore(requests: seq<Phase>, p: Phase, n: nat)
    ensures Total(requests + [p], n) == Total(requests, n) + if p.Waiting? && p.dep < n then 1 else 0
  {
    if n == 0 {
    } else {
      TotalOneMore(requests, p, n - 1);
      assert (requests + [p])[..|requests|] == requests;
    }
  }

  lemma {:induction false} TotalOfNone(n: nat)
    ensures Total([], n) == 0
  {
    if n == 0 {
    } else {
      TotalOfNone(n - 1);
    }
  }

  lemma {:induction false} TotalIsActive(requests: seq<Phase>, n: nat)
    requires forall r :: 0 <= r < |requests| && requests[r].Waiting? ==> requests[r].dep < n
    ensures Total(requests, n) == Active(requests)
  {
    if requests == [] {
      TotalOfNone(n);
    } else {
      var front := requests[..|requests| - 1];
      TotalIsActive(front, n);
      TotalOneMore(front, requests[|requests| - 1], n);
      assert requests == front + [requests[|requests| - 1]];
    }
  }

  lemma {:induction false} ActiveUpdate(requests: seq<Phase>, r: nat, p: Phase)
    requires r < |requests| && requests[r].Waiting?
    ensures Active(requests[r := p]) == Active(requests) - if p.Waiting? then 0 else 1
  {
    var n := |requests| - 1;
    if r == n {
      assert requests[r := p][..n] == requests[..n];
    } else {
      ActiveUpdate(requests[..n], r, p);
      assert requests[r := p][..n] == requests[..n][r := p];
    }
  }

  // ----- conservation -----

  function Successes(log: seq<Event>): nat {
    if log == [] then 0 else Successes(log[..|log| - 1]) + if log[|log| - 1].Success? then 1 else 0
  }

  /** A deployment's counters against the requests that await it. */
  ghost predicate Conserved(c: Config, s: Sys, d: nat)
    requires WellFormed(c, s) && d < |c.deps|
  {
    var st := Replay(c.breaker, s.logs[d]);
    && st.inFlight == Waiters(s.requests, d)
    && st.totalRequests == Successes(s.logs[d]) + st.totalFailures + st.inFlight
  }

  ghost predicate AllConserved(c: Config, s: Sys)
    requires WellFormed(c, s)
  {
    forall d :: 0 <= d < |c.deps| ==> Conserved(c, s, d)
  }

  lemma ReplayOneMore(b: Breaker, log: seq<Event>, e: Event)
    ensures Replay(b, log + [e]) == Step(b, Replay(b, log), e)
    ensures Successes(log + [e]) == Successes(log) + if e.Success? then 1 else 0
  {
    assert (log + [e])[..|log|] == log;
  }

  /** A request that awaits a deployment is counted there. */
  lemma AwaitedIsCounted(requests: seq<Phase>, r: nat)
    requires r < |requests| && requests[r].Waiting?
    ensures Waiters(requests, requests[r].dep) >= 1
  {
    WaitersUpdate(requests, r, Done, requests[r].dep);
  }

  /** So when its call ends the counter is at least 1, and the clamp at 0 does nothing. */
  lemma ClampNeverActs(c: Config, s: Sys, r: nat)
    requires WellFormed(c, s) && AllConserved(c, s) && Awaits(s, r)
    ensures var inFlight := Replay(c.breaker, s.logs[s.requests[r].dep]).inFlight;
            inFlight >= 1 && Released(inFlight) == inFlight - 1
  {
    AwaitedIsCounted(s.requests, r);
    assert Conserved(c, s, s.requests[r].dep);
  }

  lemma StartConserves(c: Config, s: Sys, d: nat, requests: seq<Phase>)
    requires WellFormed(c, s) && AllConserved(c, s) && d < |c.deps|
    requires WellFormed(c, Append(s, d, Start).(requests := requests))
    requires forall k :: 0 <= k < |c.deps| ==> Waiters(requests, k) == Waiters(s.requests, k) + if k == d then 1 else 0
    ensures AllConserved(c, Append(s, d, Start).(requests := requests))
  {
    var s' := Append(s, d, Start).(requests := requests);
    ReplayOneMore(c.breaker, s.logs[d], Start);
    forall k | 0 <= k < |c.deps| ensures Conserved(c, s', k) {
      assert Conserved(c, s, k);
      assert s'.logs[k] == if k == d then s.logs[d] + [Start] else s.logs[k];
    }
  }

  lemma EndConserves(c: Config, s: Sys, r: nat, e: Event)
    requires WellFormed(c, s) && AllConserved(c, s) && Awaits(s, r) && !e.Start?
    ensures var s' := Append(s, s.requests[r].dep, e).(requests := s.requests[r := Done]);
            WellFormed(c, s') && AllConserved(c, s') && Active(s'.requests) == Active(s.requests) - 1
  {
    var d := s.requests[r].dep;
    var s' := Append(s, d, e).(requests := s.requests[r := Done]);
    ClampNeverActs(c, s, r);
    ReplayOneMore(c.breaker, s.logs[d], e);
    ActiveUpdate(s.requests, r, Done);
    forall k | 0 <= k < |c.deps| ensures Conserved(c, s', k) {
      assert Conserved(c, s, k);
      WaitersUpdate(s.requests, r, Done, k);
    }
  }

  lemma ArriveConserves(c: Config, s: Sys, d: nat)
    requires WellFormed(c, s) && AllConserved(c, s) && d < |c.deps|
    ensures var s' := Append(s, d, Start).(requests := s.requests + [Waiting(d, {})]);
            WellFormed(c, s') && AllConserved(c, s') && Active(s'.requests) == Active(s.requests) + 1
  {
    var requests := s.requests + [Waiting(d, {})];
    assert requests[..|s.requests|] == s.requests;
    StartConserves(c, s, d, requests);
  }

  lemma FailOverConserves(c: Config, s: Sys, r: nat, failedAt: real, d: nat, tried: set<string>)
    requires WellFormed(c, s) && AllConserved(c, s) && Awaits(s, r) && d < |c.deps|
    ensures var s' := Append(Failed(s, r, failedAt), d, Start).(requests := s.requests[r := Waiting(d, tried)]);
            WellFormed(c, s') && AllConserved(c, s') && Active(s'.requests) == Active(s.requests)
  {
    EndConserves(c, s, r, Failure(failedAt));
    var f := Failed(s, r, failedAt);
    var requests := s.requests[r := Waiting(d, tried)];
    ActiveUpdate(s.requests, r, Waiting(d, tried));
    forall k | 0 <= k < |c.deps| ensures Waiters(requests, k) == Waiters(f.requests, k) + if k == d then 1 else 0 {
      WaitersUpdate(s.requests, r, Waiting(d, tried), k);
      WaitersUpdate(s.requests, r, Done, k);
    }
    StartConserves(c, f, d, requests);
  }

  lemma StepConserves(c: Config, s: Sys, a: Action)
    requires WellFormed(c, s) && AllConserved(c, s) && Enabled(c, s, a)
    ensures AllConserved(c, Next(c, s, a))
  {
    match a
    case Arrive(d, at) => ArriveConserves(c, s, d);
    case Succeed(r, latency) => EndConserves(c, s, r, Success(latency));
    case FailOver(r, failedAt, d, at) => FailOverConserves(c, s, r, failedAt, d, TriedBy(c, s, r));
    case FailFinally(r, failedAt) => EndConserves(c, s, r, Failure(failedAt));
  }

  // ----- the load bound -----

  function Load(views: seq<View>): int {
    if views == [] then 0 else Load(views[..|views| - 1]) + views[|views| - 1].status.inFlight
  }

  ghost predicate NonNegative(views: seq<View>) {
    forall v :: v in views ==> v.status.inFlight >= 0
  }

  lemma {:induction false} CandidatesLoad(views: seq<View>, exclude: set<string>)
    requires NonNegative(views)
    ensures Load(Candidates(views, exclude)) <= Load(views)
  {
    if views == [] {
    } else {
      var front, last := views[..|views| - 1], views[|views| - 1];
      CandidatesLoad(front, exclude);
      var rest := Candidates(front, exclude);
      assert (rest + [last])[..|rest|] == rest && rest + [] == rest && last in views;
    }
  }

  lemma {:induction false} HealthyLoad(views: seq<View>, now: real)
    requires NonNegative(views)
    ensures Load(Healthy(views, now)) <= Load(views)
  {
    if views == [] {
    } else {
      var front, last := views[..|views| - 1], views[|views| - 1];
      HealthyLoad(front, now);
      var rest := Healthy(front, now);
      assert (rest + [last])[..|rest|] == rest && rest + [] == rest && last in views;
    }
  }

  lemma PoolLoad(views: seq<View>, exclude: set<string>, now: real)
    requires NonNegative(views)
    ensures Load(Pool(views, exclude, now)) <= Load(views)
  {
    CandidatesContents(views, exclude);
    CandidatesLoad(views, exclude);
    HealthyLoad(Candidates(views, exclude), now);
  }

  lemma {:induction false} MinTimesSize(pool: seq<View>, m: int)
    requires forall v :: v in pool ==> m <= v.status.inFlight
    ensures |pool| * m <= Load(pool)
  {
    if pool == [] {
    } else {
      MinTimesSize(pool[..|pool| - 1], m);
    }
  }

  lemma {:induction false} LoadIsTotal(c: Config, s: Sys, n: nat)
    requires WellFormed(c, s) && AllConserved(c, s) && n <= |c.deps|
    ensures Load(SysViews(c, s)[..n]) == Total(s.requests, n)
  {
    if n == 0 {
    } else {
      LoadIsTotal(c, s, n - 1);
      assert SysViews(c, s)[..n][..n - 1] == SysViews(c, s)[..n - 1];
      assert Conserved(c, s, n - 1);
    }
  }

  function Bound(c: Config, skew: nat): int
    requires c.P >= 1
  {
    (c.C - 1) / c.P + skew + 1
  }

  lemma AtLeastFactor(p: nat, x: int)
    ensures x >= 1 ==> p * x >= p
  {
  }

  lemma Quotient(p: nat, pool: nat, m: nat, limit: int)
    requires 1 <= p <= pool && pool * m <= limit
    ensures m <= limit / p
  {
    assert (pool - p) * m >= 0;
    assert pool * m == p * m + (pool - p) * m;
    var q := limit / p;
    assert limit < p * q + p;
    assert p * (m - q) == p * m - p * q;
    AtLeastFactor(p, m - q);
  }

  ghost predicate WithinBound(c: Config, s: Sys, bound: int)
    requires WellFormed(c, s)
  {
    forall d :: 0 <= d < |c.deps| ==> Replay(c.breaker, s.logs[d]).inFlight <= bound
  }

  /** The pool's load is part of the requests in flight. */
  lemma PoolLoadBounded(c: Config, s: Sys, tried: set<string>, at: real)
    requires WellFormed(c, s) && AllConserved(c, s)
    ensures NonNegative(SysViews(c, s))
    ensures Load(Pool(SysViews(c, s), tried, at)) <= Active(s.requests)
  {
    var views := SysViews(c, s);
    LoadIsTotal(c, s, |c.deps|);
    assert views[..|c.deps|] == views;
    TotalIsActive(s.requests, |c.deps|);
    forall v | v in views ensures v.status.inFlight >= 0 {
      var k :| 0 <= k < |c.deps| && views[k] == v;
      assert Conserved(c, s, k);
    }
    PoolLoad(views, tried, at);
  }

  lemma LeastLoaded(pool: seq<View>, p: nat, limit: int) returns (w: View)
    requires 1 <= p <= |pool| && NonNegative(pool) && Load(pool) <= limit
    ensures w in pool && w.status.inFlight <= limit / p
  {
    var m := MinLoad(pool);
    w :| w in pool && w.status.inFlight == m;
    MinTimesSize(pool, m);
    Quotient(p, |pool|, m, limit);
  }

  /** A pick goes to a deployment whose load, before it, is below the bound. */
  lemma PickIsBounded(c: Config, s: Sys, tried: set<string>, at: real, d: nat, skew: nat)
    requires WellFormed(c, s) && AllConserved(c, s) && c.guard == Some(skew) && c.P >= 1
    requires Picks(c, s, tried, at, d) && Active(s.requests) < c.C
    ensures Replay(c.breaker, s.logs[d]).inFlight + 1 <= Bound(c, skew)
  {
    hide Active, Load, Conserved, Pool;
    PoolLoadBounded(c, s, tried, at);
    PoolContents(SysViews(c, s), tried, at);
    var w := LeastLoaded(Pool(SysViews(c, s), tried, at), c.P, c.C - 1);
    assert SysViews(c, s)[d].status.inFlight <= w.status.inFlight + skew;
  }

  lemma StartKeepsBound(c: Config, s: Sys, d: nat, requests: seq<Phase>, bound: int)
    requires WellFormed(c, s) && WithinBound(c, s, bound) && d < |c.deps|
    requires Replay(c.breaker, s.logs[d]).inFlight + 1 <= bound
    requires WellFormed(c, Append(s, d, Start).(requests := requests))
    ensures WithinBound(c, Append(s, d, Start).(requests := requests), bound)
  {
    ReplayOneMore(c.breaker, s.logs[d], Start);
  }

  lemma EndKeepsBound(c: Config, s: Sys, r: nat, e: Event, bound: int)
    requires WellFormed(c, s) && AllConserved(c, s) && WithinBound(c, s, bound) && Awaits(s, r) && !e.Start?
    requires WellFormed(c, Append(s, s.requests[r].dep, e).(requests := s.requests[r := Done]))
    ensures WithinBound(c, Append(s, s.requests[r].dep, e).(requests := s.requests[r := Done]), bound)
  {
    ClampNeverActs(c, s, r);
    ReplayOneMore(c.breaker, s.logs[s.requests[r].dep], e);
  }

  lemma FailOverKeepsBound(c: Config, s: Sys, r: nat, failedAt: real, d: nat, at: real, skew: nat)
    requires WellFormed(c, s) && AllConserved(c, s) && Enabled(c, s, FailOver(r, failedAt, d, at))
    requires c.guard == Some(skew) && c.P >= 1 && Active(Next(c, s, FailOver(r, failedAt, d, at)).requests) <= c.C
    requires WithinBound(c, s, Bound(c, skew))
    ensures WithinBound(c, Next(c, s, FailOver(r, failedAt, d, at)), Bound(c, skew))
  {
    var f := Failed(s, r, failedAt);
    EndConserves(c, s, r, Failure(failedAt));
    EndKeepsBound(c, s, r, Failure(failedAt), Bound(c, skew));
    FailOverConserves(c, s, r, failedAt, d, TriedBy(c, s, r));
    PickIsBounded(c, f, TriedBy(c, s, r), at, d, skew);
    StartKeepsBound(c, f, d, Next(c, s, FailOver(r, failedAt, d, at)).requests, Bound(c, skew));
  }

  lemma StepKeepsBound(c: Config, s: Sys, a: Action, skew: nat)
    requires WellFormed(c, s) && AllConserved(c, s) && Enabled(c, s, a)
    requires c.guard == Some(skew) && c.P >= 1 && Active(Next(c, s, a).requests) <= c.C
    requires WithinBound(c, s, Bound(c, skew))
    ensures WithinBound(c, Next(c, s, a), Bound(c, skew))
  {
    match a
    case Arrive(d, at) =>
      ArriveConserves(c, s, d);
      PickIsBounded(c, s, {}, at, d, skew);
      StartKeepsBound(c, s, d, Next(c, s, a).requests, Bound(c, skew));
    case Succeed(r, latency) => EndKeepsBound(c, s, r, Success(latency), Bound(c, skew));
    case FailOver(r, failedAt, d, at) => FailOverKeepsBound(c, s, r, failedAt, d, at, skew);
    case FailFinally(r, failedAt) => EndKeepsBound(c, s, r, Failure(failedAt), Bound(c, skew));
  }

  // ----- the theorems -----

  lemma InitialIsConserved(c: Config)
    ensures WellFormed(c, Initial(c)) && AllConserved(c, Initial(c))
  {
  }

  lemma {:induction false} RunConserves(c: Config, s: Sys, actions: seq<Action>, s': Sys)
    requires WellFormed(c, s) && AllConserved(c, s) && Run(c, s, actions, s')
    ensures WellFormed(c, s') && AllConserved(c, s')
    decreases |actions|
  {
    if actions == [] {
    } else {
      StepConserves(c, s, actions[0]);
      RunConserves(c, Next(c, s, actions[0]), actions[1..], s');
    }
  }

  /** Over every interleaving, each deployment's `in_flight` is the number of requests
      awaiting it, and `total_requests` = successes + `total_failures` + `in_flight`. */
  lemma InFlightConservation(c: Config, actions: seq<Action>, s: Sys, d: nat)
    requires WellFormed(c, Initial(c)) && Run(c, Initial(c), actions, s) && d < |c.deps|
    ensures WellFormed(c, s) && Conserved(c, s, d)
  {
    InitialIsConserved(c);
    RunConserves(c, Initial(c), actions, s);
  }

  lemma {:induction false} RunKeepsBound(c: Config, s: Sys, actions: seq<Action>, s': Sys, skew: nat)
    requires WellFormed(c, s) && AllConserved(c, s) && Run(c, s, actions, s')
    requires c.guard == Some(skew) && c.P >= 1 && WithinBound(c, s, Bound(c, skew))
    ensures WellFormed(c, s') && WithinBound(c, s', Bound(c, skew))
    decreases |actions|
  {
    if actions == [] {
    } else {
      StepConserves(c, s, actions[0]);
      StepKeepsBound(c, s, actions[0], skew);
      RunKeepsBound(c, Next(c, s, actions[0]), actions[1..], s', skew);
    }
  }

  lemma InitialIsBounded(c: Config, skew: nat)
    requires c.P >= 1 && c.C >= 1
    ensures WellFormed(c, Initial(c)) && WithinBound(c, Initial(c), Bound(c, skew))
  {
    NonNegativeQuotient(c.C - 1, c.P);
  }

  lemma NonNegativeQuotient(a: nat, p: nat)
    requires p >= 1
    ensures a / p >= 0
  {
  }

  /** If no more than C requests are ever in flight and every pool has at least P
      members, no deployment ever holds more than ⌊(C − 1) / P⌋ + skew + 1 requests. */
  lemma LoadBound(c: Config, actions: seq<Action>, s: Sys, skew: nat, d: nat)
    requires WellFormed(c, Initial(c)) && Run(c, Initial(c), actions, s) && d < |c.deps|
    requires c.guard == Some(skew) && c.P >= 1 && c.C >= 1
    ensures WellFormed(c, s) && Replay(c.breaker, s.logs[d]).inFlight <= Bound(c, skew)
  {
    InitialIsConserved(c);
    InitialIsBounded(c, skew);
    RunKeepsBound(c, Initial(c), actions, s, skew);
  }
}
