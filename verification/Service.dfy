/** The failover loop of `GatewayService.complete` (src/kvgate/service.py). */
module Service {
  import opened Basics
  import opened Deployment
  import opened Strategies
  import opened Router
  import Keying

  datatype Upstream = Ok(latency: real) | ProviderError(retryable: bool, at: real)

  /** One pass of the loop: what the router saw, what it chose, what came back. */
  datatype Attempt = Attempt(views: seq<View>, at: real, chosen: View, result: Upstream)

  datatype Outcome = UnknownModel | Served | Refused | AllFailed

  function Tried(attempts: seq<Attempt>): set<string> {
    set a | a in attempts :: a.chosen.key
  }

  ghost predicate DistinctAttempts(attempts: seq<Attempt>) {
    forall i, j :: 0 <= i < j < |attempts| ==> attempts[i].chosen.key != attempts[j].chosen.key
  }

  /** Every attempt was a legal pick among the deployments not tried before it. */
  ghost predicate LegalAttempts(guard: Option<int>, attempts: seq<Attempt>) {
    forall i :: 0 <= i < |attempts| ==>
      MayPick(attempts[i].views, Tried(attempts[..i]), attempts[i].at, guard, attempts[i].chosen)
  }

  predicate Retryable(a: Attempt) {
    a.result.ProviderError? && a.result.retryable
  }

  ghost predicate AllRetryable(attempts: seq<Attempt>) {
    forall i :: 0 <= i < |attempts| ==> Retryable(attempts[i])
  }

  /** What the outcome says about the attempts. */
  ghost predicate OutcomeMatches(outcome: Outcome, attempts: seq<Attempt>) {
    var n := |attempts| - 1;
    match outcome
    case UnknownModel => attempts == []
    case Served => n >= 0 && attempts[n].result.Ok? && AllRetryable(attempts[..n])
    case Refused => n >= 0 && attempts[n].result.ProviderError? && !attempts[n].result.retryable &&
      AllRetryable(attempts[..n])
    case AllFailed => AllRetryable(attempts)
  }

  function EndOf(result: Upstream): Event {
    match result
    case Ok(latency) => Success(latency)
    case ProviderError(_, at) => Failure(at)
  }

  /** What the attempts do to the deployment with this key. */
  function EventsFor(attempts: seq<Attempt>, key: string): seq<Event> {
    if attempts == [] then []
    else
      var last := attempts[|attempts| - 1];
      EventsFor(attempts[..|attempts| - 1], key) + OwnEvents(last, key)
  }

  function OwnEvents(a: Attempt, key: string): seq<Event> {
    if a.chosen.key == key then [Start, EndOf(a.result)] else []
  }

  ghost predicate AllValid(all: seq<DeploymentState>)
    reads all
  {
    forall s :: s in all ==> s.Valid()
  }

  lemma {:induction false} TriedSize(attempts: seq<Attempt>)
    requires DistinctAttempts(attempts)
    ensures |Tried(attempts)| == |attempts|
  {
    if attempts == [] {
    } else {
      var front, last := attempts[..|attempts| - 1], attempts[|attempts| - 1];
      TriedSize(front);
      assert attempts == front + [last];
      assert Tried(attempts) == Tried(front) + {last.chosen.key};
      forall a | a in front ensures a.chosen.key != last.chosen.key {}
    }
  }

  /** The loop cannot attempt more deployments than there are. */
  lemma AttemptsBounded(attempts: seq<Attempt>, keys: set<string>, n: nat)
    requires DistinctAttempts(attempts) && Tried(attempts) <= keys && |keys| <= n
    ensures |attempts| <= n
    ensures |attempts| >= n ==> Tried(attempts) == keys
  {
    TriedSize(attempts);
    SubsetSize(Tried(attempts), keys);
  }

  lemma OneMoreAttempt(guard: Option<int>, attempts: seq<Attempt>, a: Attempt)
    requires DistinctAttempts(attempts) && LegalAttempts(guard, attempts)
    requires MayPick(a.views, Tried(attempts), a.at, guard, a.chosen)
    ensures DistinctAttempts(attempts + [a]) && LegalAttempts(guard, attempts + [a])
    ensures Tried(attempts + [a]) == Tried(attempts) + {a.chosen.key}
    ensures a.chosen in a.views
  {
    PoolContents(a.views, Tried(attempts), a.at);
    var all := attempts + [a];
    forall i | 0 <= i < |attempts| ensures attempts[i].chosen.key != a.chosen.key {
      assert attempts[i] in attempts;
      assert attempts[i].chosen.key in Tried(attempts);
    }
    forall i | 0 <= i < |all| ensures MayPick(all[i].views, Tried(all[..i]), all[i].at, guard, all[i].chosen) {
      assert all[..i] == attempts[..i];
    }
    assert attempts[..|attempts|] == attempts;
  }

  class GatewayService {
    const router: Router
    const maxAttempts: nat

    constructor (router: Router, providers: nat)
      ensures this.router == router && maxAttempts == if providers > 1 then providers else 1
    {
      this.router := router;
      maxAttempts := if providers > 1 then providers else 1;
    }

    /** What other requests may do while request `who` awaits its upstream: any number
        of picks, starts, successes and failures on the same model. */
    method OtherRequests(model: string, ghost who: nat)
      requires router.Valid() && AllValid(router.States(model))
      modifies router, router.affinity, router.States(model)
      ensures router.Valid() && AllValid(router.States(model))
      ensures forall s :: s in router.States(model) ==> By(s.log, who) == old(By(s.log, who))
    {
      var steps: nat :| true;
      for k := 0 to steps
        invariant router.Valid() && AllValid(router.States(model))
        invariant forall s :: s in router.States(model) ==> By(s.log, who) == old(By(s.log, who))
      {
        ghost var x: int := *;
        ghost var other: nat := if x < 0 || x == who then who + 1 else x;
        if * {
          OtherStarts(model, other);
        } else {
          OtherEnds(model, other);
        }
      }
    }

    method PickAny(model: string, exclude: set<string>, messages: seq<Keying.Message>, poolNow: real, now: real)
      returns (chosen: Option<DeploymentState>)
      requires router.Valid()
      modifies router, router.affinity
      ensures router.Valid()
      ensures chosen.Some? ==> chosen.value in router.States(model)
    {
      chosen := router.Pick(model, exclude, Some(messages), poolNow, now);
    }

    method OtherStarts(model: string, ghost other: nat)
      requires router.Valid() && AllValid(router.States(model))
      modifies router, router.affinity, router.States(model)
      ensures router.Valid() && AllValid(router.States(model))
      ensures forall s, w :: s in router.States(model) && w != other ==> By(s.log, w) == old(By(s.log, w))
    {
      var exclude: set<string> := *;
      var messages: seq<Keying.Message> := *;
      var poolNow: real, now: real := *, *;
      var chosen := PickAny(model, exclude, messages, poolNow, now);
      if chosen.Some? {
        chosen.value.OnStart(other);
      }
    }

    method OtherEnds(model: string, ghost other: nat)
      requires AllValid(router.States(model))
      modifies router.States(model)
      ensures AllValid(router.States(model))
      ensures forall s, w :: s in router.States(model) && w != other ==> By(s.log, w) == old(By(s.log, w))
    {
      var all := router.States(model);
      if all != [] {
        var i: nat :| i < |all|;
        var x: real := *;
        if * {
          all[i].OnSuccess(x, other);
        } else {
          all[i].OnFailure(x, other);
        }
      }
    }

    method Started(model: string, state: DeploymentState, ghost who: nat)
      requires AllValid(router.States(model)) && state in router.States(model)
      modifies state
      ensures AllValid(router.States(model))
      ensures forall s :: s in router.States(model) ==>
        By(s.log, who) == old(By(s.log, who)) + if s == state then [Start] else []
    {
      state.OnStart(who);
    }

    method Ended(model: string, state: DeploymentState, result: Upstream, ghost who: nat)
      requires AllValid(router.States(model)) && state in router.States(model)
      modifies state
      ensures AllValid(router.States(model))
      ensures forall s :: s in router.States(model) ==>
        By(s.log, who) == old(By(s.log, who)) +
          if s != state then [] else if result.Ok? then [Success(result.latency)] else [Failure(result.at)]
    {
      match result
      case Ok(latency) => state.OnSuccess(latency, who);
      case ProviderError(_, at) => state.OnFailure(at, who);
    }

    /** The upstream call: start, await, end. */
    method Call(model: string, state: DeploymentState, ghost who: nat) returns (result: Upstream)
      requires router.Valid() && AllValid(router.States(model)) && state in router.States(model)
      modifies router, router.affinity, router.States(model)
      ensures router.Valid() && AllValid(router.States(model))
      ensures forall s :: s in router.States(model) ==>
        By(s.log, who) == old(By(s.log, who)) +
          if s != state then []
          else if result.Ok? then [Start, Success(result.latency)] else [Start, Failure(result.at)]
    {
      Started(model, state, who);
      OtherRequests(model, who);
      result := *;
      Ended(model, state, result, who);
    }

    /** `router.pick`, with what the router saw. */
    method Next(model: string, messages: seq<Keying.Message>, tried: set<string>)
      returns (chosen: Option<DeploymentState>, views: seq<View>, view: View, at: real)
      requires router.Valid()
      modifies router, router.affinity
      ensures router.Valid()
      ensures views == Views(router.States(model))
      ensures chosen.None? <==> StateKeys(router.States(model)) <= tried
      ensures chosen.Some? ==> chosen.value in router.States(model) && view.key == chosen.value.key
      ensures chosen.Some? ==> MayPick(views, tried, at, Guard(router.routing, true), view)
    {
      views := Views(router.States(model));
      var now: real;
      at, now := *, *;
      chosen := router.Pick(model, tried, Some(messages), at, now);
      EveryoneTried(router.States(model), views, tried);
      if chosen.Some? {
        view := ViewOf(chosen.value);
      } else {
        view := *;
      }
    }

    /** One pass of the loop: pick and start (no await between them), await the
        upstream, record its result.  None when the router has nothing left. */
    method AttemptOnce(model: string, messages: seq<Keying.Message>, tried: set<string>, ghost who: nat)
      returns (attempt: Option<Attempt>)
      requires router.Valid() && AllValid(router.States(model)) && DistinctStates(router.States(model))
      modifies router, router.affinity, router.States(model)
      ensures router.Valid() && AllValid(router.States(model))
      ensures attempt.None? <==> StateKeys(router.States(model)) <= tried
      ensures attempt.Some? ==>
        && attempt.value.views == old(Views(router.States(model)))
        && attempt.value.chosen.key in StateKeys(router.States(model))
      ensures attempt.Some? ==>
        MayPick(attempt.value.views, tried, attempt.value.at, Guard(router.routing, true), attempt.value.chosen)
      ensures forall s :: s in router.States(model) ==>
        By(s.log, who) == old(By(s.log, who)) + if attempt.Some? then OwnEvents(attempt.value, s.key) else []
    {
      hide MayPick, By, Views, Guard;
      var chosen, views, view, at := Next(model, messages, tried);
      if chosen.None? {
        return None;
      }
      SameKeySameState(router.States(model), chosen.value);
      var result := Call(model, chosen.value, who);
      attempt := Some(Attempt(views, at, view, result));
      assert forall s :: s in router.States(model) ==>
        OwnEvents(attempt.value, s.key) ==
          if s != chosen.value then []
          else if result.Ok? then [Start, Success(result.latency)] else [Start, Failure(result.at)];
    }

    /** `complete` after a cache miss. */
    method Complete(model: string, messages: seq<Keying.Message>, ghost who: nat)
      returns (outcome: Outcome, attempts: seq<Attempt>)
      requires router.Valid() && AllValid(router.States(model)) && DistinctStates(router.States(model))
      modifies router, router.affinity, router.States(model)
      ensures router.Valid() && AllValid(router.States(model))
      ensures outcome == UnknownModel <==> model !in router.states
      ensures Failover(Guard(router.routing, true), router.States(model), maxAttempts, outcome, attempts)
      ensures forall s :: s in router.States(model) ==>
        By(s.log, who) == old(By(s.log, who)) + EventsFor(attempts, s.key)
    {
      attempts := [];
      if model !in router.states {
        return UnknownModel, [];
      }
      outcome, attempts := Attempts(model, messages, who);
    }

    /** A pass, and what this request has caused so far: `base` before the loop, then
        the events of `attempts`. */
    method Pass(model: string, messages: seq<Keying.Message>, tried: set<string>, attempts: seq<Attempt>,
                ghost base: map<DeploymentState, seq<Event>>, ghost who: nat)
      returns (attempt: Option<Attempt>)
      requires router.Valid() && AllValid(router.States(model)) && DistinctStates(router.States(model))
      requires Caused(router.States(model), base, attempts, who)
      modifies router, router.affinity, router.States(model)
      ensures router.Valid() && AllValid(router.States(model))
      ensures attempt.None? ==>
        StateKeys(router.States(model)) <= tried && Caused(router.States(model), base, attempts, who)
      ensures attempt.Some? ==> attempt.value.chosen.key in StateKeys(router.States(model))
      ensures attempt.Some? ==>
        MayPick(attempt.value.views, tried, attempt.value.at, Guard(router.routing, true), attempt.value.chosen)
      ensures attempt.Some? ==> Caused(router.States(model), base, attempts + [attempt.value], who)
    {
      attempt := AttemptOnce(model, messages, tried, who);
      if attempt.Some? {
        EventsForOneMore(attempts, attempt.value);
        forall s | s in router.States(model)
          ensures By(s.log, who) == base[s] + EventsFor(attempts + [attempt.value], s.key)
        {
          Reassociate(base[s], EventsFor(attempts, s.key), OwnEvents(attempt.value, s.key));
        }
      }
    }

    method Attempts(model: string, messages: seq<Keying.Message>, ghost who: nat)
      returns (outcome: Outcome, attempts: seq<Attempt>)
      requires router.Valid() && AllValid(router.States(model)) && DistinctStates(router.States(model))
      modifies router, router.affinity, router.States(model)
      ensures router.Valid() && AllValid(router.States(model)) && outcome != UnknownModel
      ensures Failover(Guard(router.routing, true), router.States(model), maxAttempts, outcome, attempts)
      ensures forall s :: s in router.States(model) ==>
        By(s.log, who) == old(By(s.log, who)) + EventsFor(attempts, s.key)
    {
      outcome, attempts := AllFailed, [];
      var tried: set<string> := {};
      ghost var guard, all := Guard(router.routing, true), router.States(model);
      ghost var base := map s | s in all :: By(s.log, who);
      for k := 0 to maxAttempts
        invariant router.Valid() && AllValid(all) && |attempts| == k && outcome == AllFailed
        invariant Progress(guard, all, attempts, tried)
        invariant Caused(all, base, attempts, who)
      {
        var attempt := Pass(model, messages, tried, attempts, base, who);
        if attempt.None? {
          break;
        }
        var a := attempt.value;
        Progresses(guard, all, maxAttempts, attempts, tried, a);
        attempts := attempts + [a];
        if a.result.Ok? {
          outcome := Served;
          break;
        }
        tried := tried + {a.chosen.key};
        if !a.result.retryable {
          outcome := Refused;
          break;
        }
      }
      if outcome == AllFailed {
        GivesUp(guard, all, maxAttempts, attempts, tried);
      }
    }
  }

  ghost predicate Caused(all: seq<DeploymentState>, base: map<DeploymentState, seq<Event>>, attempts: seq<Attempt>,
                         who: nat)
    reads all
  {
    forall s :: s in all ==> s in base && By(s.log, who) == base[s] + EventsFor(attempts, s.key)
  }

  lemma Reassociate<T>(a: seq<T>, b: seq<T>, c: seq<T>)
    ensures a + b + c == a + (b + c)
  {
  }

  lemma EventsForOneMore(attempts: seq<Attempt>, a: Attempt)
    ensures forall key :: EventsFor(attempts + [a], key) == EventsFor(attempts, key) + OwnEvents(a, key)
  {
    assert (attempts + [a])[..|attempts|] == attempts;
  }

  lemma SameKeySameState(all: seq<DeploymentState>, state: DeploymentState)
    requires DistinctStates(all) && state in all
    ensures forall s :: s in all && s.key == state.key ==> s == state
  {
  }

  /** The failover guarantee: distinct legal attempts, no more than `maxAttempts` or
      the number of deployments, an outcome that matches them, and giving up only after
      as many attempts as there may be: every deployment, or `maxAttempts` of them. */
  ghost predicate Failover(guard: Option<int>, all: seq<DeploymentState>, maxAttempts: nat, outcome: Outcome,
                           attempts: seq<Attempt>) {
    && DistinctAttempts(attempts) && LegalAttempts(guard, attempts)
    && |attempts| <= maxAttempts && |attempts| <= |all|
    && OutcomeMatches(outcome, attempts)
    && (outcome == AllFailed ==> |attempts| == Smaller(maxAttempts, |StateKeys(all)|))
    && (outcome == AllFailed && |StateKeys(all)| <= maxAttempts ==> Tried(attempts) == StateKeys(all))
  }

  /** The loop invariant of `complete`. */
  ghost predicate Progress(guard: Option<int>, all: seq<DeploymentState>, attempts: seq<Attempt>, tried: set<string>) {
    && tried == Tried(attempts) <= StateKeys(all)
    && DistinctAttempts(attempts) && LegalAttempts(guard, attempts) && AllRetryable(attempts)
  }

  lemma Progresses(guard: Option<int>, all: seq<DeploymentState>, maxAttempts: nat, attempts: seq<Attempt>,
                   tried: set<string>, a: Attempt)
    requires Progress(guard, all, attempts, tried) && |attempts| < maxAttempts
    requires MayPick(a.views, tried, a.at, guard, a.chosen) && a.chosen.key in StateKeys(all)
    ensures var more := attempts + [a];
      match a.result
      case Ok(_) => Failover(guard, all, maxAttempts, Served, more)
      case ProviderError(retryable, _) =>
        if retryable then Progress(guard, all, more, tried + {a.chosen.key})
        else Failover(guard, all, maxAttempts, Refused, more)
  {
    OneMoreAttempt(guard, attempts, a);
    AllRetryableSoFar(attempts, a);
    StateKeysSize(all);
    AttemptsBounded(attempts + [a], StateKeys(all), |all|);
  }

  lemma GivesUp(guard: Option<int>, all: seq<DeploymentState>, maxAttempts: nat, attempts: seq<Attempt>,
                tried: set<string>)
    requires Progress(guard, all, attempts, tried) && |attempts| <= maxAttempts
    requires |attempts| == maxAttempts || StateKeys(all) <= tried
    ensures Failover(guard, all, maxAttempts, AllFailed, attempts)
  {
    hide LegalAttempts, DistinctAttempts, AllRetryable, Tried, StateKeys;
    var keys := StateKeys(all);
    TriedSize(attempts);
    SubsetSize(Tried(attempts), keys);
    StateKeysSize(all);
    if keys <= tried {
      assert Tried(attempts) == keys;
    }
  }

  function Smaller(a: nat, b: nat): nat {
    if a <= b then a else b
  }

  lemma AllRetryableSoFar(attempts: seq<Attempt>, a: Attempt)
    requires AllRetryable(attempts)
    ensures (attempts + [a])[..|attempts|] == attempts
    ensures Retryable(a) ==> AllRetryable(attempts + [a])
  {
  }

  function StateKeys(all: seq<DeploymentState>): set<string> {
    set s | s in all :: s.key
  }

  lemma {:induction false} StateKeysSize(all: seq<DeploymentState>)
    ensures |StateKeys(all)| <= |all|
  {
    if all == [] {
    } else {
      StateKeysSize(all[1..]);
      assert all == [all[0]] + all[1..];
      assert StateKeys(all) == {all[0].key} + StateKeys(all[1..]);
    }
  }

  lemma EveryoneTried(all: seq<DeploymentState>, views: seq<View>, tried: set<string>)
    requires |views| == |all| && forall k :: 0 <= k < |all| ==> views[k].key == all[k].key
    ensures Candidates(views, tried) == [] <==> StateKeys(all) <= tried
  {
    CandidatesContents(views, tried);
    if Candidates(views, tried) == [] {
      forall s | s in all ensures s.key in tried {
        var k :| 0 <= k < |all| && all[k] == s;
        assert views[k] in views && views[k] !in Candidates(views, tried);
      }
    } else {
      var v := Candidates(views, tried)[0];
      assert v in Candidates(views, tried);
      var k :| 0 <= k < |views| && views[k] == v;
      assert all[k] in all && all[k].key !in tried;
    }
  }

  // ----- what a legal attempt means -----

  /** An ejected deployment is attempted only when every untried one is ejected. */
  lemma EjectedOnlyAsLastResort(guard: Option<int>, attempts: seq<Attempt>, i: nat)
    requires LegalAttempts(guard, attempts) && i < |attempts|
    ensures var a := attempts[i];
      && a.chosen in a.views && a.chosen.key !in Tried(attempts[..i])
      && (!Available(a.chosen.status, a.at) ==>
            forall w :: w in a.views && w.key !in Tried(attempts[..i]) ==> !Available(w.status, a.at))
  {
    PoolContents(attempts[i].views, Tried(attempts[..i]), attempts[i].at);
  }
}
