/** Two picks of one router, with anything in between: the follow-up of a conversation
    goes to the deployment that got its beginning (src/kvgate/routing/router.py). */
module TwoPicks {
  import opened Basics
  import opened Affinity
  import K = Keying
  import opened Deployment
  import opened Strategies
  import opened Router
  import opened StickyRouting
  import opened WarmPicks

  type Served = map<Replica, seq<Registration>>

  function ServedBy(served: Served, key: Replica): seq<Registration> {
    if key in served then served[key] else []
  }

  /** A pick to come: the request, the deployments already tried, and its clock readings. */
  datatype Ask = Ask(messages: seq<K.Message>, tried: set<string>, poolNow: real, now: real)

  function UnitsOf(router: Router, ask: Ask): seq<K.Unit>
    requires router.routing.PrefixKvAware?
  {
    K.Units(router.hash, ask.messages, router.routing.pkv.imageKey)
  }

  /** `s` is in the pool and within the skew, its index still holds the whole blocks of
      `q`, and no other eligible deployment matches `r` or is so idle that `blocks` of
      those blocks do not outweigh it. */
  ghost predicate Sticks(router: Router, q: Ask, r: Ask, views: seq<View>, served: Served, s: View, blocks: nat)
    requires router.routing.PrefixKvAware?
  {
    var pkv, ttl, cap := router.routing.pkv, router.affinity.ttl, router.affinity.maxBlocks;
    var step, pool := K.Step(pkv.blockSize), Pool(views, r.tried, r.poolNow);
    && pkv.maxInflightSkew >= 0 && pkv.weightPrefix >= 0.0
    && blocks >= 1 && blocks * step <= |UnitsOf(router, q)|
    && s in pool && WithinSkew(pkv.maxInflightSkew, pool, s)
    && HoldsBlocks(ttl, DictOf(ttl, cap, served, s.key), router.hash, router.seed, UnitsOf(router, q), step, r.now)
    && var e := Eligible(pkv.maxInflightSkew, pool);
       RivalsOf(pkv, e, IndexMatches(ttl, cap, served, e, router.Chain(r.messages), r.now), s, blocks)
  }

  ghost predicate RivalsOf(pkv: PrefixSettings, e: seq<View>, matched: seq<nat>, s: View, blocks: nat)
    requires |matched| == |e|
  {
    forall i: nat :: i < |e| && e[i] == s ==> RivalsAreWeak(pkv, e, matched, i, blocks)
  }

  lemma {:induction false} UnitsOfPrefix(h: string -> K.Digest, q: seq<K.Message>, r: seq<K.Message>, mode: K.ImageKey)
    requires q <= r
    ensures K.Units(h, q, mode) <= K.Units(h, r, mode)
    decreases |q|
  {
    if q == [] {
    } else {
      UnitsOfPrefix(h, q[1..], r[1..], mode);
    }
  }

  /** What the router counts is what the history of registrations says. */
  lemma MatchesAreServed(router: Router, e: seq<View>, chain: seq<K.Digest>, now: real)
    requires router.Valid()
    ensures router.MatchedOf(e, chain, now) ==
      IndexMatches(router.affinity.ttl, router.affinity.maxBlocks, router.affinity.served, e, chain, now)
  {
    var m := router.MatchedOf(e, chain, now);
    var a := router.affinity;
    forall k | 0 <= k < |e|
      ensures m[k] == Matched(a.ttl, DictOf(a.ttl, a.maxBlocks, a.served, e[k].key), chain, now)
    {
      assert a.Dict(e[k].key) == DictOf(a.ttl, a.maxBlocks, a.served, e[k].key);
    }
  }

  /** The router may answer `ask` with `v`, seeing these deployments and this history. */
  ghost predicate MayAnswer(router: Router, ask: Ask, views: seq<View>, served: Served, v: View)
    requires router.routing.PrefixKvAware?
  {
    var pkv, a := router.routing.pkv, router.affinity;
    var pool := Pool(views, ask.tried, ask.poolNow);
    pool != [] &&
    var e := Eligible(pkv.maxInflightSkew, pool);
    var matched := IndexMatches(a.ttl, a.maxBlocks, served, e, router.Chain(ask.messages), ask.now);
    exists counter: nat :: PrefixPicks(pkv, e, matched, counter, v)
  }

  lemma PickSticks(router: Router, q: Ask, r: Ask, views: seq<View>, served: Served, s: View, blocks: nat, v: View)
    requires router.routing.PrefixKvAware? && q.messages <= r.messages
    requires Sticks(router, q, r, views, served, s, blocks) && MayAnswer(router, r, views, served, v)
    ensures v == s
  {
    var pkv, ttl, cap := router.routing.pkv, router.affinity.ttl, router.affinity.maxBlocks;
    var step, pool := K.Step(pkv.blockSize), Pool(views, r.tried, r.poolNow);
    var e := Eligible(pkv.maxInflightSkew, pool);
    var matched := IndexMatches(ttl, cap, served, e, router.Chain(r.messages), r.now);
    var counter: nat :| PrefixPicks(pkv, e, matched, counter, v);
    UnitsOfPrefix(router.hash, q.messages, r.messages, pkv.imageKey);
    hide PrefixPicks, Eligible, Pool, RivalsAreWeak, Matched, HoldsBlocks;
    ConversationsStick(pkv, ttl, DictOf(ttl, cap, served, s.key), router.hash, router.seed, UnitsOf(router, q),
                       UnitsOf(router, r), r.now, pool, e, s, matched, counter, v, step, blocks);
  }

  /** Any number of other picks, on any model, and any change to the counters, the
      circuit breakers and the latencies of this model's deployments. */
  method Meanwhile(router: Router, model: string, key: Replica)
    requires router.Valid()
    modifies router, router.affinity, router.States(model)
    ensures router.Valid()
    ensures old(ServedBy(router.affinity.served, key)) <= ServedBy(router.affinity.served, key)
  {
    var all := router.States(model);
    var steps: nat :| true;
    for k := 0 to steps
      invariant router.Valid()
      invariant old(ServedBy(router.affinity.served, key)) <= ServedBy(router.affinity.served, key)
    {
      if * {
        OtherPick(router, key);
      } else if all != [] {
        var i: nat :| i < |all|;
        all[i].ewmaLatency, all[i].inFlight, all[i].consecutiveFailures := *, *, *;
        all[i].totalRequests, all[i].totalFailures, all[i].ejectedUntil := *, *, *;
      }
    }
  }

  method OtherPick(router: Router, key: Replica)
    requires router.Valid()
    modifies router, router.affinity
    ensures router.Valid()
    ensures old(ServedBy(router.affinity.served, key)) <= ServedBy(router.affinity.served, key)
  {
    hide PrefixPicks, Eligible, Pool, Cold, MovesByWorth, MayPick, MayChoose, Candidates, Counted;
    var model: string, tried: set<string>, messages: seq<K.Message> := *, *, *;
    var poolNow: real, now: real := *, *;
    var chosen := router.Pick(model, tried, Some(messages), poolNow, now);
  }

  lemma PoolOrNone(views: seq<View>, tried: set<string>, now: real)
    ensures Candidates(views, tried) == [] <==> Pool(views, tried, now) == []
  {
  }

  /** `pick`, with what the router saw. */
  method Answer(router: Router, model: string, ask: Ask) returns (chosen: Option<DeploymentState>)
    requires router.Valid() && router.routing.PrefixKvAware?
    modifies router, router.affinity
    ensures router.Valid()
    ensures chosen.Some? ==> chosen.value in router.States(model)
    ensures chosen.Some? ==>
      MayAnswer(router, ask, Views(router.States(model)), old(router.affinity.served), ViewOf(chosen.value))
    ensures chosen.Some? ==>
      router.affinity.served == old(router.affinity.served)[chosen.value.key :=
        old(ServedBy(router.affinity.served, chosen.value.key)) + [Registration(router.Chain(ask.messages), ask.now)]]
  {
    hide PrefixPicks, Eligible, IndexMatches, Cold, MovesByWorth, MayPick, MayChoose, Counted, Views;
    PoolOrNone(Views(router.States(model)), ask.tried, ask.poolNow);
    hide Pool, Candidates;
    ghost var pool, counter := Pool(Views(router.States(model)), ask.tried, ask.poolNow), router.Counter(model);
    if pool != [] {
      MatchesAreServed(router, Eligible(router.routing.pkv.maxInflightSkew, pool), router.Chain(ask.messages), ask.now);
    }
    chosen := router.Pick(model, ask.tried, Some(ask.messages), ask.poolNow, ask.now);
  }

  /** A pick, whatever happens before the next, and the pick of a follow-up.  `served` is
      what had been registered when the second pick was made: the first pick's chain is
      in it, after what was there before. */
  method PickTwice(router: Router, model: string, q: Ask, r: Ask)
    returns (first: Option<DeploymentState>, second: Option<DeploymentState>, ghost served: Served)
    requires router.Valid() && router.routing.PrefixKvAware? && DistinctStates(router.States(model))
    requires q.messages <= r.messages
    modifies router, router.affinity, router.States(model)
    ensures router.Valid()
    ensures first.Some? ==> first.value in router.States(model)
    ensures first.Some? ==>
      old(ServedBy(router.affinity.served, first.value.key)) + [Registration(router.Chain(q.messages), q.now)]
      <= ServedBy(served, first.value.key)
    ensures second.Some? ==>
      router.affinity.served == served[second.value.key :=
        ServedBy(served, second.value.key) + [Registration(router.Chain(r.messages), r.now)]]
    ensures first.Some? && second.Some? ==> forall blocks: nat ::
      Sticks(router, q, r, Views(router.States(model)), served, ViewOf(first.value), blocks) ==> second == first
  {
    hide Sticks, MayAnswer, Views, DistinctStates;
    first := Answer(router, model, q);
    Meanwhile(router, model, if first.Some? then first.value.key else "");
    served := router.affinity.served;
    second := Answer(router, model, r);
    if first.Some? && second.Some? {
      SecondIsFirst(router, model, q, r, served, first.value, second.value);
    }
  }

  lemma SecondIsFirst(router: Router, model: string, q: Ask, r: Ask, served: Served,
                      first: DeploymentState, second: DeploymentState)
    requires router.routing.PrefixKvAware? && DistinctStates(router.States(model)) && q.messages <= r.messages
    requires first in router.States(model) && second in router.States(model)
    requires MayAnswer(router, r, Views(router.States(model)), served, ViewOf(second))
    ensures forall blocks: nat ::
      Sticks(router, q, r, Views(router.States(model)), served, ViewOf(first), blocks) ==> second == first
  {
    hide Sticks, MayAnswer;
    var views := Views(router.States(model));
    forall blocks: nat | Sticks(router, q, r, views, served, ViewOf(first), blocks) ensures second == first {
      PickSticks(router, q, r, views, served, ViewOf(first), blocks, ViewOf(second));
    }
  }
}
