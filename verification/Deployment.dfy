/** Per-deployment runtime state: in-flight load, latency average and circuit
    breaker (src/kvgate/routing/state.py). */
module Deployment {

  datatype Dep = Dep(provider: string, model: string, weight: real, costPer1kInput: real, costPer1kOutput: real)

  /** The settings every deployment of a router shares. */
  datatype Breaker = Breaker(alpha: real, failureThreshold: int, cooldown: real)

  /** The fields that change. */
  datatype Status = Status(
    ewmaLatency: real, inFlight: int, consecutiveFailures: int,
    totalRequests: int, totalFailures: int, ejectedUntil: real)

  const FRESH := Status(0.0, 0, 0, 0, 0, 0.0)

  function Key(dep: Dep): string {
    dep.provider + "::" + dep.model
  }

  predicate Available(s: Status, now: real) {
    now >= s.ejectedUntil
  }

  function Released(inFlight: int): int {
    if inFlight - 1 > 0 then inFlight - 1 else 0
  }

  datatype Event = Start | Success(latency: real) | Failure(at: real)

  function Step(b: Breaker, s: Status, e: Event): Status {
    match e
    case Start => s.(inFlight := s.inFlight + 1, totalRequests := s.totalRequests + 1)
    case Success(latency) =>
      s.(inFlight := Released(s.inFlight), consecutiveFailures := 0,
         ewmaLatency := if s.ewmaLatency == 0.0 then latency
                        else b.alpha * latency + (1.0 - b.alpha) * s.ewmaLatency)
    case Failure(at) =>
      s.(inFlight := Released(s.inFlight), consecutiveFailures := s.consecutiveFailures + 1,
         totalFailures := s.totalFailures + 1,
         ejectedUntil := if s.consecutiveFailures + 1 >= b.failureThreshold then at + b.cooldown else s.ejectedUntil)
  }

  function Replay(b: Breaker, events: seq<Event>): Status {
    if events == [] then FRESH else Step(b, Replay(b, events[..|events| - 1]), events[|events| - 1])
  }

  /** An event and the request that caused it. */
  datatype Logged = Logged(who: nat, event: Event)

  function Events(log: seq<Logged>): seq<Event> {
    if log == [] then [] else Events(log[..|log| - 1]) + [log[|log| - 1].event]
  }

  /** The events request `who` caused. */
  function By(log: seq<Logged>, who: nat): seq<Event> {
    if log == [] then []
    else By(log[..|log| - 1], who) + if log[|log| - 1].who == who then [log[|log| - 1].event] else []
  }

  lemma OneMoreEvent(b: Breaker, log: seq<Logged>, who: nat, e: Event)
    ensures Replay(b, Events(log + [Logged(who, e)])) == Step(b, Replay(b, Events(log)), e)
    ensures forall w :: By(log + [Logged(who, e)], w) == By(log, w) + if w == who then [e] else []
  {
    var more := log + [Logged(who, e)];
    assert more[..|more| - 1] == log;
    assert Events(more)[..|Events(more)| - 1] == Events(log);
  }

  class DeploymentState {
    const dep: Dep
    const key: string
    const breaker: Breaker
    var ewmaLatency: real
    var inFlight: int
    var consecutiveFailures: int
    var totalRequests: int
    var totalFailures: int
    var ejectedUntil: real

    /** Everything that happened to this deployment. */
    ghost var log: seq<Logged>

    /** The fields are what the log says. */
    ghost predicate Valid()
      reads this
    {
      Now() == Replay(breaker, Events(log))
    }

    function Now(): Status
      reads this
    {
      Status(ewmaLatency, inFlight, consecutiveFailures, totalRequests, totalFailures, ejectedUntil)
    }

    constructor (dep: Dep, breaker: Breaker)
      ensures this.dep == dep && key == Key(dep) && this.breaker == breaker && Now() == FRESH
      ensures Valid() && log == []
    {
      this.dep, key, this.breaker := dep, Key(dep), breaker;
      ewmaLatency, inFlight, consecutiveFailures := 0.0, 0, 0;
      totalRequests, totalFailures, ejectedUntil := 0, 0, 0.0;
      log := [];
    }

    predicate IsAvailable(now: real)
      reads this
    {
      now >= ejectedUntil
    }

    method OnStart(ghost who: nat)
      requires Valid()
      modifies this
      ensures Valid() && log == old(log) + [Logged(who, Start)]
      ensures forall w :: By(log, w) == By(old(log), w) + if w == who then [Start] else []
    {
      inFlight := inFlight + 1;
      totalRequests := totalRequests + 1;
      assert Now() == Step(breaker, old(Now()), Start);
      Append(who, Start);
    }

    method OnSuccess(latency: real, ghost who: nat)
      requires Valid()
      modifies this
      ensures Valid() && log == old(log) + [Logged(who, Success(latency))]
      ensures forall w :: By(log, w) == By(old(log), w) + if w == who then [Success(latency)] else []
    {
      inFlight := Released(inFlight);
      consecutiveFailures := 0;
      if ewmaLatency == 0.0 {
        ewmaLatency := latency;
      } else {
        ewmaLatency := breaker.alpha * latency + (1.0 - breaker.alpha) * ewmaLatency;
      }
      assert Now() == Step(breaker, old(Now()), Success(latency));
      Append(who, Success(latency));
    }

    method OnFailure(now: real, ghost who: nat)
      requires Valid()
      modifies this
      ensures Valid() && log == old(log) + [Logged(who, Failure(now))]
      ensures forall w :: By(log, w) == By(old(log), w) + if w == who then [Failure(now)] else []
    {
      inFlight := Released(inFlight);
      consecutiveFailures := consecutiveFailures + 1;
      totalFailures := totalFailures + 1;
      if consecutiveFailures >= breaker.failureThreshold {
        ejectedUntil := now + breaker.cooldown;
      }
      assert Now() == Step(breaker, old(Now()), Failure(now));
      Append(who, Failure(now));
    }

    ghost method Append(who: nat, e: Event)
      requires Now() == Step(breaker, Replay(breaker, Events(log)), e)
      modifies this`log
      ensures Valid() && log == old(log) + [Logged(who, e)]
      ensures forall w :: By(log, w) == By(old(log), w) + if w == who then [e] else []
    {
      OneMoreEvent(breaker, log, who, e);
      log := log + [Logged(who, e)];
    }
  }

  // ----- the breaker against the history -----

  function Failures(events: seq<Event>): nat {
    if events == [] then 0 else Failures(events[..|events| - 1]) + if events[|events| - 1].Failure? then 1 else 0
  }

  ghost predicate NoSuccess(events: seq<Event>) {
    forall e :: e in events ==> !e.Success?
  }

  /** At least `n` failures and no success among events `j` to `i`. */
  ghost predicate IsRun(events: seq<Event>, j: nat, i: nat, n: int)
    requires j <= i < |events|
  {
    NoSuccess(events[j..i + 1]) && Failures(events[j..i + 1]) >= n
  }

  /** Event `i` is a failure that ends at least `n` failures with no success between. */
  ghost predicate EndsRun(events: seq<Event>, i: nat, n: int)
    requires i < |events|
  {
    events[i].Failure? && exists j :: 0 <= j <= i && IsRun(events, j, i, n)
  }

  ghost predicate TimesNonDecreasing(events: seq<Event>) {
    forall i, j :: 0 <= i < j < |events| && events[i].Failure? && events[j].Failure? ==> events[i].at <= events[j].at
  }

  lemma FailuresOneMore(events: seq<Event>, j: nat)
    requires j < |events|
    ensures Failures(events[j..]) == Failures(events[j..|events| - 1]) + if events[|events| - 1].Failure? then 1 else 0
    ensures NoSuccess(events[j..]) <==> NoSuccess(events[j..|events| - 1]) && !events[|events| - 1].Success?
  {
    assert events[j..] == events[j..|events| - 1] + [events[|events| - 1]];
    assert events[j..][..|events| - j - 1] == events[j..|events| - 1];
  }

  /** The counter is the longest run of failures without a success that ends now. */
  lemma {:induction false} ConsecutiveIsLongestRun(b: Breaker, events: seq<Event>)
    ensures forall j :: 0 <= j <= |events| && NoSuccess(events[j..]) ==>
      Failures(events[j..]) <= Replay(b, events).consecutiveFailures
    ensures exists j :: (0 <= j <= |events| && NoSuccess(events[j..]) &&
                         Failures(events[j..]) == Replay(b, events).consecutiveFailures)
  {
    if events == [] {
      assert NoSuccess(events[0..]) && Failures(events[0..]) == 0;
    } else {
      var front, e := events[..|events| - 1], events[|events| - 1];
      ConsecutiveIsLongestRun(b, front);
      assert events[|events|..] == [];
      forall j | 0 <= j < |events| && NoSuccess(events[j..])
        ensures Failures(events[j..]) <= Replay(b, events).consecutiveFailures
      {
        FailuresOneMore(events, j);
        assert front[j..] == events[j..|events| - 1];
      }
      if e.Success? {
        assert NoSuccess(events[|events|..]) && Failures(events[|events|..]) == 0;
      } else {
        var j :| 0 <= j <= |front| && NoSuccess(front[j..]) &&
          Failures(front[j..]) == Replay(b, front).consecutiveFailures;
        FailuresOneMore(events, j);
        assert front[j..] == events[j..|events| - 1];
      }
    }
  }

  lemma EndsRunIffCounted(b: Breaker, events: seq<Event>, i: nat, n: int)
    requires i < |events| && events[i].Failure?
    ensures EndsRun(events, i, n) <==> Replay(b, events[..i + 1]).consecutiveFailures >= n
  {
    var upto := events[..i + 1];
    ConsecutiveIsLongestRun(b, upto);
    forall j | 0 <= j <= i + 1 ensures upto[j..] == events[j..i + 1] {}
    if Replay(b, upto).consecutiveFailures >= n {
      var j :| 0 <= j <= |upto| && NoSuccess(upto[j..]) && Failures(upto[j..]) == Replay(b, upto).consecutiveFailures;
      CountsThisFailure(b, upto);
      assert IsRun(events, j, i, n);
    }
    if EndsRun(events, i, n) {
      var j :| 0 <= j <= i && IsRun(events, j, i, n);
      assert NoSuccess(upto[j..]);
    }
  }

  lemma CountsThisFailure(b: Breaker, events: seq<Event>)
    requires events != [] && events[|events| - 1].Failure?
    ensures Replay(b, events).consecutiveFailures >= 1
  {
    ConsecutiveIsLongestRun(b, events[..|events| - 1]);
  }

  /** Some failure whose cooldown covers `now` ended a long enough run. */
  ghost predicate OpenedWithin(b: Breaker, events: seq<Event>, now: real) {
    exists i :: 0 <= i < |events| && Covers(b, events, i, now)
  }

  ghost predicate Covers(b: Breaker, events: seq<Event>, i: nat, now: real)
    requires i < |events|
  {
    Opens(b, events, i) && events[i].at <= now < events[i].at + b.cooldown
  }

  ghost predicate Opens(b: Breaker, events: seq<Event>, i: nat)
    requires i < |events|
  {
    EndsRun(events, i, b.failureThreshold)
  }

  lemma OpensPrefix(b: Breaker, events: seq<Event>, k: nat, i: nat)
    requires i < k <= |events|
    ensures Opens(b, events[..k], i) <==> Opens(b, events, i)
  {
    forall j | 0 <= j <= i
      ensures IsRun(events[..k], j, i, b.failureThreshold) <==> IsRun(events, j, i, b.failureThreshold)
    {
      assert events[..k][j..i + 1] == events[j..i + 1];
    }
  }

  lemma OpenedOneMore(b: Breaker, events: seq<Event>, now: real)
    requires events != []
    ensures OpenedWithin(b, events, now) <==>
            OpenedWithin(b, events[..|events| - 1], now) || Covers(b, events, |events| - 1, now)
  {
    var n := |events| - 1;
    forall i | 0 <= i < n ensures Covers(b, events[..n], i, now) <==> Covers(b, events, i, now) {
      OpensPrefix(b, events, n, i);
    }
    if OpenedWithin(b, events[..n], now) {
      var i :| 0 <= i < n && Covers(b, events[..n], i, now);
      assert Covers(b, events, i, now);
    }
  }

  /** A deployment is unavailable exactly while the cooldown of a failure that ended
      `failure_threshold` consecutive failures lasts, whatever happened in between. */
  lemma {:induction false} BreakerMatchesHistory(b: Breaker, events: seq<Event>, now: real)
    requires b.cooldown >= 0.0 && now >= 0.0 && TimesNonDecreasing(events)
    requires forall e :: e in events && e.Failure? ==> e.at <= now
    ensures !Available(Replay(b, events), now) <==> OpenedWithin(b, events, now)
  {
    if events == [] {
    } else {
      var n := |events| - 1;
      var front, e := events[..n], events[n];
      BreakerMatchesHistory(b, front, now);
      OpenedOneMore(b, events, now);
      if e.Failure? {
        EndsRunIffCounted(b, events, n, b.failureThreshold);
        assert events[..n + 1] == events;
        if OpenedWithin(b, front, now) {
          // An older opening ends no later than the one of event n.
          var i :| 0 <= i < n && Covers(b, front, i, now);
          assert events[i].at <= events[n].at;
        }
      }
    }
  }

  /** Once open, every further failure before a success opens it again for a full cooldown. */
  lemma EachFailureReopens(b: Breaker, events: seq<Event>, more: seq<Event>, at: real)
    requires events != [] && Opens(b, events, |events| - 1) && NoSuccess(more)
    ensures Replay(b, events + more + [Failure(at)]).ejectedUntil == at + b.cooldown
  {
    StillAtThreshold(b, events, more);
    assert (events + more + [Failure(at)])[..|events + more|] == events + more;
  }

  lemma StillAtThreshold(b: Breaker, events: seq<Event>, more: seq<Event>)
    requires events != [] && Opens(b, events, |events| - 1) && NoSuccess(more)
    ensures Replay(b, events + more).consecutiveFailures >= b.failureThreshold
  {
    var n := |events| - 1;
    var j :| 0 <= j <= n && IsRun(events, j, n, b.failureThreshold);
    assert events[j..n + 1] == events[j..];
    assert (events + more)[j..] == events[j..] + more;
    FailuresGrow(events[j..], more);
    ConsecutiveIsLongestRun(b, events + more);
  }

  lemma {:induction false} FailuresGrow(events: seq<Event>, more: seq<Event>)
    ensures Failures(events) <= Failures(events + more)
  {
    if more == [] {
      assert events + more == events;
    } else {
      FailuresGrow(events, more[..|more| - 1]);
      assert (events + more)[..|events + more| - 1] == events + more[..|more| - 1];
    }
  }

  // ----- the latency average -----

  ghost predicate LatenciesWithin(events: seq<Event>, lo: real, hi: real) {
    forall e :: e in events && e.Success? ==> lo <= e.latency <= hi
  }

  lemma Fraction(a: real, d: real)
    requires 0.0 <= a <= 1.0 && d >= 0.0
    ensures 0.0 <= a * d <= d
  {
  }

  lemma MeanFromBelow(alpha: real, y: real, d: real)
    ensures alpha * (y + d) + (1.0 - alpha) * y == y + alpha * d
  {
  }

  /** The mean, seen from the smaller of its two values. */
  lemma MeanWithin(alpha: real, y: real, d: real, lo: real, hi: real)
    requires 0.0 <= alpha <= 1.0 && d >= 0.0 && lo <= y && y + d <= hi
    ensures lo <= alpha * (y + d) + (1.0 - alpha) * y <= hi
  {
    MeanFromBelow(alpha, y, d);
    Fraction(alpha, d);
  }

  lemma SwapMean(alpha: real, x: real, y: real)
    ensures alpha * x + (1.0 - alpha) * y == (1.0 - alpha) * y + (1.0 - (1.0 - alpha)) * x
  {
  }

  lemma WeightedMean(alpha: real, x: real, y: real, lo: real, hi: real)
    requires 0.0 <= alpha <= 1.0 && lo <= x <= hi && lo <= y <= hi
    ensures lo <= alpha * x + (1.0 - alpha) * y <= hi
  {
    if x >= y {
      assert y + (x - y) == x;
      MeanWithin(alpha, y, x - y, lo, hi);
    } else {
      assert x + (y - x) == y;
      MeanWithin(1.0 - alpha, x, y - x, lo, hi);
      SwapMean(alpha, x, y);
    }
  }

  lemma AverageStep(b: Breaker, s: Status, e: Event, lo: real, hi: real, none: bool)
    requires 0.0 <= b.alpha <= 1.0 && 0.0 <= lo && (e.Success? ==> lo <= e.latency <= hi)
    requires if none then s.ewmaLatency == 0.0 else lo <= s.ewmaLatency <= hi
    ensures if none && !e.Success? then Step(b, s, e).ewmaLatency == 0.0 else lo <= Step(b, s, e).ewmaLatency <= hi
  {
    if e.Success? && !none {
      WeightedMean(b.alpha, e.latency, s.ewmaLatency, lo, hi);
    }
  }

  /** The average is 0 until the first success, and from then on lies within the
      latencies observed. */
  lemma {:induction false} AverageOfObserved(b: Breaker, events: seq<Event>, lo: real, hi: real)
    requires 0.0 <= b.alpha <= 1.0 && 0.0 <= lo && LatenciesWithin(events, lo, hi)
    ensures NoSuccess(events) ==> Replay(b, events).ewmaLatency == 0.0
    ensures !NoSuccess(events) ==> lo <= Replay(b, events).ewmaLatency <= hi
  {
    if events == [] {
    } else {
      var front, e := events[..|events| - 1], events[|events| - 1];
      assert events == front + [e] && e in events;
      AverageOfObserved(b, front, lo, hi);
      AverageStep(b, Replay(b, front), e, lo, hi, NoSuccess(front));
    }
  }

  lemma UnmeasuredStep(b: Breaker, s: Status, e: Event)
    requires 0.0 <= b.alpha < 1.0 && (e.Success? ==> 0.0 <= e.latency) && s.ewmaLatency >= 0.0
    ensures Step(b, s, e).ewmaLatency >= 0.0
    ensures Step(b, s, e).ewmaLatency == 0.0 <==> s.ewmaLatency == 0.0 && (e.Success? ==> e.latency == 0.0)
  {
    if e.Success? {
      PositiveMean(b.alpha, e.latency, s.ewmaLatency);
    }
  }

  /** A deployment looks unmeasured exactly as long as every observed latency was 0. */
  lemma {:induction false} UnmeasuredExactly(b: Breaker, events: seq<Event>)
    requires 0.0 <= b.alpha < 1.0 && forall e :: e in events && e.Success? ==> 0.0 <= e.latency
    ensures Replay(b, events).ewmaLatency >= 0.0
    ensures Replay(b, events).ewmaLatency == 0.0 <==> forall e :: e in events && e.Success? ==> e.latency == 0.0
  {
    if events == [] {
    } else {
      var front, e := events[..|events| - 1], events[|events| - 1];
      assert events == front + [e] && e in events;
      hide Step;
      UnmeasuredExactly(b, front);
      UnmeasuredStep(b, Replay(b, front), e);
    }
  }

  lemma PositiveMean(alpha: real, x: real, y: real)
    requires 0.0 <= alpha < 1.0 && x >= 0.0 && y >= 0.0
    ensures y > 0.0 ==> alpha * x + (1.0 - alpha) * y > 0.0
  {
    assert alpha * x >= 0.0;
    if y > 0.0 {
      assert (1.0 - alpha) * y > 0.0;
    }
  }
}
