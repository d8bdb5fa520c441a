/** The latency average is an exponentially weighted sum of the latencies observed
    (src/kvgate/routing/state.py). */
module LatencyAverage {
  import opened Deployment

  /** The latencies observed, from the first positive one on. */
  function Observed(events: seq<Event>): seq<real> {
    if events == [] then []
    else
      Observing(Observed(events[..|events| - 1]), events[|events| - 1])
  }

  function Observing(before: seq<real>, e: Event): seq<real> {
    if e.Success? && (before != [] || e.latency != 0.0) then before + [e.latency] else before
  }

  function Power(x: real, n: nat): real {
    if n == 0 then 1.0 else x * Power(x, n - 1)
  }

  /** The weight of observation `i` of `n`: α for all but the first, and 1 - α again for
      every later one. */
  function Weight(alpha: real, n: nat, i: nat): real
    requires i < n
  {
    (if i == 0 then 1.0 else alpha) * Power(1.0 - alpha, n - 1 - i)
  }

  /** The weighted sum of the first `k` observations. */
  function WeightedSum(alpha: real, ls: seq<real>, k: nat): real
    requires k <= |ls|
  {
    if k == 0 then 0.0 else WeightedSum(alpha, ls, k - 1) + Term(Weight(alpha, |ls|, k - 1), ls[k - 1])
  }

  function Term(weight: real, latency: real): real {
    weight * latency
  }

  lemma Distribute(x: real, a: real, b: real)
    ensures Term(x, a + b) == Term(x, a) + Term(x, b)
  {
  }

  lemma WeightDecays(alpha: real, n: nat, i: nat, latency: real)
    requires i < n
    ensures Term(Weight(alpha, n + 1, i), latency) == Term(1.0 - alpha, Term(Weight(alpha, n, i), latency))
  {
    var p, w := Power(1.0 - alpha, n - 1 - i), if i == 0 then 1.0 else alpha;
    assert Power(1.0 - alpha, n - i) == (1.0 - alpha) * p;
    Reorder(w, 1.0 - alpha, p, latency);
  }

  lemma Reorder(w: real, x: real, p: real, latency: real)
    ensures w * (x * p) * latency == x * (w * p * latency)
  {
    assert w * (x * p) == x * (w * p);
  }

  /** One more observation scales all earlier weights by 1 - α. */
  lemma {:induction false} EarlierDecay(alpha: real, ls: seq<real>, x: real, k: nat)
    requires k <= |ls|
    ensures WeightedSum(alpha, ls + [x], k) == Term(1.0 - alpha, WeightedSum(alpha, ls, k))
  {
    hide Term, Weight;
    if k == 0 {
      ZeroTerm(1.0 - alpha);
    } else {
      EarlierDecay(alpha, ls, x, k - 1);
      WeightDecays(alpha, |ls|, k - 1, ls[k - 1]);
      Distribute(1.0 - alpha, WeightedSum(alpha, ls, k - 1), Term(Weight(alpha, |ls|, k - 1), ls[k - 1]));
      assert (ls + [x])[k - 1] == ls[k - 1];
    }
  }

  lemma ZeroTerm(x: real)
    ensures Term(x, 0.0) == 0.0
  {
  }

  lemma OneMoreLatency(alpha: real, ls: seq<real>, x: real)
    ensures WeightedSum(alpha, ls + [x], |ls| + 1)
         == if ls == [] then x else Term(alpha, x) + Term(1.0 - alpha, WeightedSum(alpha, ls, |ls|))
  {
    EarlierDecay(alpha, ls, x, |ls|);
    var n := |ls| + 1;
    assert Power(1.0 - alpha, 0) == 1.0;
    assert Weight(alpha, n, n - 1) == if ls == [] then 1.0 else alpha;
    ZeroTerm(1.0 - alpha);
  }

  lemma AverageMoves(b: Breaker, s: Status, e: Event, before: seq<real>)
    requires s.ewmaLatency == WeightedSum(b.alpha, before, |before|) && (before == [] <==> s.ewmaLatency == 0.0)
    ensures var after := Observing(before, e);
      Step(b, s, e).ewmaLatency == WeightedSum(b.alpha, after, |after|)
  {
    StepMean(b, s, e);
    hide Step, Term, WeightedSum;
    if e.Success? {
      OneMoreLatency(b.alpha, before, e.latency);
    }
  }

  lemma StepMean(b: Breaker, s: Status, e: Event)
    ensures Step(b, s, e).ewmaLatency ==
      if !e.Success? then s.ewmaLatency
      else if s.ewmaLatency == 0.0 then e.latency
      else Term(b.alpha, e.latency) + Term(1.0 - b.alpha, s.ewmaLatency)
  {
  }

  /** After any history the average is the weighted sum of the observed latencies. */
  lemma {:induction false} AverageIsWeightedSum(b: Breaker, events: seq<Event>)
    requires 0.0 <= b.alpha < 1.0 && forall e :: e in events && e.Success? ==> 0.0 <= e.latency
    ensures Replay(b, events).ewmaLatency == WeightedSum(b.alpha, Observed(events), |Observed(events)|)
    ensures Observed(events) == [] <==> Replay(b, events).ewmaLatency == 0.0
  {
    if events == [] {
    } else {
      var front, e := events[..|events| - 1], events[|events| - 1];
      assert events == front + [e] && e in events;
      UnmeasuredExactly(b, front);
      AverageIsWeightedSum(b, front);
      AverageMoves(b, Replay(b, front), e, Observed(front));
      hide Step, WeightedSum;
      UnmeasuredStep(b, Replay(b, front), e);
    }
  }
}
