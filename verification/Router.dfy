/** The router (src/kvgate/routing/router.py): candidate pool, load guard, scoring by
    warm prefix, cold fallback and registration. */
module Router {
  import opened Basics
  import opened Deployment
  import opened Strategies
  import Affinity
  import Keying

  datatype PrefixSettings = PrefixSettings(
    blockSize: int, imageKey: Keying.ImageKey, weightPrefix: real, weightLoad: real,
    maxInflightSkew: int, coldFallback: Strategy)

  datatype Routing = PrefixKvAware(pkv: PrefixSettings) | Plain(strategy: Strategy)

  // ----- the choice, on snapshots -----

  /** Deployments not tried yet. */
  function Candidates(views: seq<View>, exclude: set<string>): seq<View> {
    if views == [] then []
    else
      var last := views[|views| - 1];
      Candidates(views[..|views| - 1], exclude) + if last.key !in exclude then [last] else []
  }

  function Healthy(views: seq<View>, now: real): seq<View> {
    if views == [] then []
    else
      var last := views[|views| - 1];
      Healthy(views[..|views| - 1], now) + if Available(last.status, now) then [last] else []
  }

  /** If every circuit is open the whole set of candidates gets a trial. */
  function Pool(views: seq<View>, exclude: set<string>, now: real): seq<View> {
    var candidates := Candidates(views, exclude);
    if Healthy(candidates, now) == [] then candidates else Healthy(candidates, now)
  }

  function MinLoad(pool: seq<View>): (m: int)
    requires pool != []
    ensures forall v :: v in pool ==> m <= v.status.inFlight
    ensures exists v :: v in pool && v.status.inFlight == m
  {
    var last := pool[|pool| - 1].status.inFlight;
    assert pool[|pool| - 1] in pool;
    if |pool| == 1 then last
    else
      var front := pool[..|pool| - 1];
      assert forall v :: v in pool ==> v in front || v == pool[|pool| - 1];
      if MinLoad(front) < last then MinLoad(front) else last
  }

  function AtMostLoaded(pool: seq<View>, limit: int): seq<View> {
    if pool == [] then []
    else
      var last := pool[|pool| - 1];
      AtMostLoaded(pool[..|pool| - 1], limit) + if last.status.inFlight <= limit then [last] else []
  }

  /** The load guard. */
  function Eligible(skew: int, pool: seq<View>): seq<View>
    requires pool != []
  {
    var e := AtMostLoaded(pool, MinLoad(pool) + skew);
    if e == [] then pool else e
  }

  function Score(pkv: PrefixSettings, v: View, matched: nat): real {
    pkv.weightPrefix * matched as real - pkv.weightLoad * v.status.inFlight as real
  }

  function Scores(pkv: PrefixSettings, e: seq<View>, matched: seq<nat>): (scores: seq<real>)
    requires |matched| == |e|
    ensures |scores| == |e| && forall k :: 0 <= k < |e| ==> scores[k] == Score(pkv, e[k], matched[k])
  {
    seq(|e|, k requires 0 <= k < |e| => Score(pkv, e[k], matched[k]))
  }

  /** `b` is the first index of the highest score. */
  ghost predicate FirstMax(scores: seq<real>, b: nat) {
    && b < |scores|
    && (forall j :: 0 <= j < |scores| ==> scores[j] <= scores[b])
    && (forall j :: 0 <= j < b ==> scores[j] < scores[b])
  }

  /** The best-scoring deployment if its prefix is warm, else what the cold fallback picks. */
  ghost predicate PrefixChoice(pkv: PrefixSettings, e: seq<View>, matched: seq<nat>, counter: nat, i: nat)
    requires |matched| == |e|
  {
    exists b: nat :: FirstMax(Scores(pkv, e, matched), b) &&
      if matched[b] == 0 then MayChoose(pkv.coldFallback, e, counter, i) else i == b
  }

  ghost predicate PrefixPicks(pkv: PrefixSettings, e: seq<View>, matched: seq<nat>, counter: nat, v: View)
    requires |matched| == |e|
  {
    exists i: nat :: i < |e| && e[i] == v && PrefixChoice(pkv, e, matched, counter, i)
  }

  /** The best-scoring deployment has no warm prefix. */
  ghost predicate Cold(pkv: PrefixSettings, e: seq<View>, matched: seq<nat>)
    requires |matched| == |e|
  {
    exists b: nat :: FirstMax(Scores(pkv, e, matched), b) && matched[b] == 0
  }

  /** The round-robin counter moves exactly on cold picks. */
  function Counted(counters: map<string, nat>, model: string, counts: bool): map<string, nat> {
    if counts then counters[model := (if model in counters then counters[model] else 0) + 1] else counters
  }

  lemma Chose(pkv: PrefixSettings, e: seq<View>, matched: seq<nat>, counter: nat, b: nat, i: nat)
    requires |matched| == |e| && FirstMax(Scores(pkv, e, matched), b)
    requires if matched[b] == 0 then MayChoose(pkv.coldFallback, e, counter, i) else i == b
    ensures i < |e| && PrefixChoice(pkv, e, matched, counter, i)
    ensures matched[b] == 0 <==> Cold(pkv, e, matched)
  {
  }

  lemma Picked(pkv: PrefixSettings, e: seq<View>, matched: seq<nat>, counter: nat, i: nat)
    requires i < |e| == |matched| && PrefixChoice(pkv, e, matched, counter, i)
    ensures PrefixPicks(pkv, e, matched, counter, e[i])
  {
  }

  // ----- how two deployments compare -----

  /** The blocks `v` matches beyond `o` outweigh what it is busier by. */
  ghost predicate WorthAtLeast(pkv: PrefixSettings, v: View, m: nat, o: View, n: nat) {
    pkv.weightPrefix * (m - n) as real >= pkv.weightLoad * (v.status.inFlight - o.status.inFlight) as real
  }

  ghost predicate WorthMore(pkv: PrefixSettings, v: View, m: nat, o: View, n: nat) {
    pkv.weightPrefix * (m - n) as real > pkv.weightLoad * (v.status.inFlight - o.status.inFlight) as real
  }

  /** `b` is worth at least as much as every other, and more than those before it. */
  ghost predicate Wins(pkv: PrefixSettings, e: seq<View>, matched: seq<nat>, b: nat)
    requires |matched| == |e|
  {
    && b < |e|
    && (forall j :: 0 <= j < |e| ==> WorthAtLeast(pkv, e[b], matched[b], e[j], matched[j]))
    && (forall j :: 0 <= j < b ==> WorthMore(pkv, e[b], matched[b], e[j], matched[j]))
  }

  /** A warm winner is picked; if the winner is cold, the fallback chooses. */
  ghost predicate PickedByWorth(pkv: PrefixSettings, e: seq<View>, matched: seq<nat>, counter: nat, v: View, cold: bool)
    requires |matched| == |e|
  {
    exists b: nat :: Wins(pkv, e, matched, b) && cold == (matched[b] == 0) &&
      if cold then exists i: nat :: MayChoose(pkv.coldFallback, e, counter, i) && e[i] == v else e[b] == v
  }

  lemma ScoreDifference(pkv: PrefixSettings, v: View, m: nat, o: View, n: nat)
    ensures Score(pkv, v, m) - Score(pkv, o, n) ==
      pkv.weightPrefix * (m - n) as real - pkv.weightLoad * (v.status.inFlight - o.status.inFlight) as real
  {
    var w, l := pkv.weightPrefix, pkv.weightLoad;
    var a, b := v.status.inFlight as real, o.status.inFlight as real;
    assert (m - n) as real == m as real - n as real;
    assert (v.status.inFlight - o.status.inFlight) as real == a - b;
    assert w * (m as real - n as real) == w * m as real - w * n as real;
    assert l * (a - b) == l * a - l * b;
  }

  /** The best score is the winner's. */
  lemma BestScoreWins(pkv: PrefixSettings, e: seq<View>, matched: seq<nat>, b: nat)
    requires |matched| == |e|
    ensures FirstMax(Scores(pkv, e, matched), b) <==> Wins(pkv, e, matched, b)
  {
    if b < |e| {
      hide Score;
      forall j | 0 <= j < |e|
        ensures Score(pkv, e[j], matched[j]) <= Score(pkv, e[b], matched[b]) <==>
                WorthAtLeast(pkv, e[b], matched[b], e[j], matched[j])
        ensures Score(pkv, e[j], matched[j]) < Score(pkv, e[b], matched[b]) <==>
                WorthMore(pkv, e[b], matched[b], e[j], matched[j])
      {
        ScoreDifference(pkv, e[b], matched[b], e[j], matched[j]);
      }
    }
  }

  /** So picked, and the model's round-robin counter one further exactly on a cold pick. */
  ghost predicate MovesByWorth(pkv: PrefixSettings, e: seq<View>, matched: seq<nat>, model: string,
                               counters: map<string, nat>, v: View, counters': map<string, nat>)
    requires |matched| == |e|
  {
    var counter := if model in counters then counters[model] else 0;
    || (PickedByWorth(pkv, e, matched, counter, v, false) && counters' == counters)
    || (PickedByWorth(pkv, e, matched, counter, v, true) && counters' == counters[model := counter + 1])
  }

  lemma WinnerPicked(pkv: PrefixSettings, e: seq<View>, matched: seq<nat>, counter: nat, v: View)
    requires |matched| == |e| && PrefixPicks(pkv, e, matched, counter, v)
    ensures PickedByWorth(pkv, e, matched, counter, v, Cold(pkv, e, matched))
  {
    hide Scores, Wins;
    var i: nat :| i < |e| && e[i] == v && PrefixChoice(pkv, e, matched, counter, i);
    var b: nat :| FirstMax(Scores(pkv, e, matched), b) &&
      if matched[b] == 0 then MayChoose(pkv.coldFallback, e, counter, i) else i == b;
    BestScoreWins(pkv, e, matched, b);
  }

  lemma PicksByWorth(pkv: PrefixSettings, e: seq<View>, matched: seq<nat>, model: string, counters: map<string, nat>,
                     v: View)
    requires |matched| == |e|
    requires PrefixPicks(pkv, e, matched, if model in counters then counters[model] else 0, v)
    ensures MovesByWorth(pkv, e, matched, model, counters, v, Counted(counters, model, Cold(pkv, e, matched)))
  {
    hide Cold, PickedByWorth, PrefixPicks;
    var counter := if model in counters then counters[model] else 0;
    WinnerPicked(pkv, e, matched, counter, v);
  }

  // ----- what every pick guarantees -----

  lemma {:induction false} CandidatesContents(views: seq<View>, exclude: set<string>)
    ensures forall v :: v in Candidates(views, exclude) <==> v in views && v.key !in exclude
  {
    if views == [] {
    } else {
      CandidatesContents(views[..|views| - 1], exclude);
      assert views == views[..|views| - 1] + [views[|views| - 1]];
    }
  }

  lemma {:induction false} HealthyContents(views: seq<View>, now: real)
    ensures forall v :: v in Healthy(views, now) <==> v in views && Available(v.status, now)
  {
    if views == [] {
    } else {
      HealthyContents(views[..|views| - 1], now);
      assert views == views[..|views| - 1] + [views[|views| - 1]];
    }
  }

  lemma {:induction false} AtMostLoadedContents(pool: seq<View>, limit: int)
    ensures forall v :: v in AtMostLoaded(pool, limit) <==> v in pool && v.status.inFlight <= limit
  {
    if pool == [] {
    } else {
      AtMostLoadedContents(pool[..|pool| - 1], limit);
      assert pool == pool[..|pool| - 1] + [pool[|pool| - 1]];
    }
  }

  /** The pool holds the untried deployments, an ejected one only if all of them are. */
  lemma PoolContents(views: seq<View>, exclude: set<string>, now: real)
    ensures forall v :: v in Pool(views, exclude, now) <==>
      v in views && v.key !in exclude &&
      (Available(v.status, now) || forall w :: w in views && w.key !in exclude ==> !Available(w.status, now))
    ensures Pool(views, exclude, now) == [] <==> forall v :: v in views ==> v.key in exclude
  {
    var candidates := Candidates(views, exclude);
    CandidatesContents(views, exclude);
    HealthyContents(candidates, now);
    if Healthy(candidates, now) == [] {
      forall v | v in candidates ensures !Available(v.status, now) {
        assert v !in Healthy(candidates, now);
      }
    } else {
      assert Healthy(candidates, now)[0] in Healthy(candidates, now);
    }
    if Pool(views, exclude, now) == [] {
      forall v | v in views ensures v.key in exclude {
        assert v !in candidates;
      }
    } else {
      assert Pool(views, exclude, now)[0] in Pool(views, exclude, now);
    }
  }

  /** `a` lists some members of `b`, in the order of `b`. */
  ghost predicate InOrder(a: seq<View>, b: seq<View>)
    decreases |b|
  {
    a == [] ||
    (b != [] &&
     (InOrder(a, b[..|b| - 1]) || (a[|a| - 1] == b[|b| - 1] && InOrder(a[..|a| - 1], b[..|b| - 1]))))
  }

  /** Neither the pool nor the load guard changes the order of the deployments. */
  lemma PoolKeepsOrder(views: seq<View>, exclude: set<string>, now: real)
    ensures InOrder(Candidates(views, exclude), views)
    ensures InOrder(Pool(views, exclude, now), Candidates(views, exclude))
  {
    CandidatesInOrder(views, exclude);
    HealthyInOrder(Candidates(views, exclude), now);
    InOrderItself(Candidates(views, exclude));
  }

  lemma EligibleKeepsOrder(skew: int, pool: seq<View>)
    requires pool != []
    ensures InOrder(Eligible(skew, pool), pool)
  {
    AtMostLoadedInOrder(pool, MinLoad(pool) + skew);
    InOrderItself(pool);
  }

  /** With a negative skew no deployment is within the limit, and the guard keeps all. */
  lemma NegativeSkewKeepsAll(skew: int, pool: seq<View>)
    requires pool != [] && skew < 0
    ensures Eligible(skew, pool) == pool
  {
    NoneWithinLimit(pool, MinLoad(pool) + skew);
  }

  lemma {:induction false} NoneWithinLimit(pool: seq<View>, limit: int)
    requires forall v :: v in pool ==> v.status.inFlight > limit
    ensures AtMostLoaded(pool, limit) == []
  {
    if pool == [] {
    } else {
      NoneWithinLimit(pool[..|pool| - 1], limit);
      assert pool[|pool| - 1] in pool;
    }
  }

  lemma {:induction false} InOrderItself(a: seq<View>)
    ensures InOrder(a, a)
  {
    if a == [] {
    } else {
      InOrderItself(a[..|a| - 1]);
    }
  }

  lemma {:induction false} CandidatesInOrder(views: seq<View>, exclude: set<string>)
    ensures InOrder(Candidates(views, exclude), views)
  {
    if views == [] {
    } else {
      CandidatesInOrder(views[..|views| - 1], exclude);
      LastInOrder(Candidates(views[..|views| - 1], exclude), views);
    }
  }

  lemma {:induction false} HealthyInOrder(views: seq<View>, now: real)
    ensures InOrder(Healthy(views, now), views)
  {
    if views == [] {
    } else {
      HealthyInOrder(views[..|views| - 1], now);
      LastInOrder(Healthy(views[..|views| - 1], now), views);
    }
  }

  lemma {:induction false} AtMostLoadedInOrder(views: seq<View>, limit: int)
    ensures InOrder(AtMostLoaded(views, limit), views)
  {
    if views == [] {
    } else {
      AtMostLoadedInOrder(views[..|views| - 1], limit);
      LastInOrder(AtMostLoaded(views[..|views| - 1], limit), views);
    }
  }

  lemma LastInOrder(a: seq<View>, b: seq<View>)
    requires b != [] && InOrder(a, b[..|b| - 1])
    ensures InOrder(a + [], b) && InOrder(a + [b[|b| - 1]], b)
  {
    assert a + [] == a;
    assert (a + [b[|b| - 1]])[..|a|] == a;
  }

  lemma NoCandidates(exclude: set<string>)
    ensures Candidates([], exclude) == []
  {
  }

  ghost predicate WithinSkew(skew: int, pool: seq<View>, v: View) {
    forall w :: w in pool ==> v.status.inFlight <= w.status.inFlight + skew
  }

  /** With a skew of at least 0 the guard keeps exactly the deployments within it. */
  lemma EligibleContents(skew: int, pool: seq<View>)
    requires pool != [] && skew >= 0
    ensures forall v :: v in Eligible(skew, pool) <==> v in pool && WithinSkew(skew, pool, v)
  {
    hide AtMostLoaded, MinLoad;
    AtMostLoadedContents(pool, MinLoad(pool) + skew);
    var least :| least in pool && least.status.inFlight == MinLoad(pool);
    assert least in AtMostLoaded(pool, MinLoad(pool) + skew);
  }

  lemma AtMostLoadedIsPart(pool: seq<View>, limit: int)
    ensures forall v :: v in AtMostLoaded(pool, limit) ==> v in pool
  {
    AtMostLoadedContents(pool, limit);
  }

  /** `v` is in the pool and, when the load guard applies, within its skew. */
  ghost predicate MayPick(views: seq<View>, exclude: set<string>, now: real, guard: Option<int>, v: View) {
    && v in Pool(views, exclude, now)
    && (guard.Some? && guard.value >= 0 ==> WithinSkew(guard.value, Pool(views, exclude, now), v))
  }

  /** The load guard in force for a pick. */
  function Guard(routing: Routing, hasRequest: bool): Option<int> {
    if routing.PrefixKvAware? && hasRequest then Some(routing.pkv.maxInflightSkew) else None
  }

  /** Without the guard anything in the pool may be picked. */
  lemma PooledMayBePicked(views: seq<View>, exclude: set<string>, now: real, v: View)
    requires v in Pool(views, exclude, now)
    ensures MayPick(views, exclude, now, None, v)
  {
  }

  /** What `_pick_prefix_aware` chooses is eligible. */
  lemma EligibleMayBePicked(views: seq<View>, exclude: set<string>, now: real, pkv: PrefixSettings, matched: seq<nat>,
                            counter: nat, v: View)
    requires Pool(views, exclude, now) != []
    requires |matched| == |Eligible(pkv.maxInflightSkew, Pool(views, exclude, now))|
    requires PrefixPicks(pkv, Eligible(pkv.maxInflightSkew, Pool(views, exclude, now)), matched, counter, v)
    ensures MayPick(views, exclude, now, Some(pkv.maxInflightSkew), v)
  {
    ChosenMayBePicked(views, exclude, now, pkv.maxInflightSkew, v);
  }

  lemma ChosenMayBePicked(views: seq<View>, exclude: set<string>, now: real, skew: int, v: View)
    requires Pool(views, exclude, now) != [] && v in Eligible(skew, Pool(views, exclude, now))
    ensures MayPick(views, exclude, now, Some(skew), v)
  {
    var pool := Pool(views, exclude, now);
    AtMostLoadedIsPart(pool, MinLoad(pool) + skew);
    if skew >= 0 {
      EligibleContents(skew, pool);
    }
  }

  // ----- the router -----

  class Router {
    const routing: Routing
    const states: map<string, seq<DeploymentState>>
    const affinity: Affinity.PrefixAffinityIndex
    const hash: string -> Keying.Digest
    const seed: string
    var rrCounter: map<string, nat>

    ghost predicate Valid()
      reads this, affinity
    {
      affinity.Valid()
    }

    constructor (routing: Routing, states: map<string, seq<DeploymentState>>, affinity: Affinity.PrefixAffinityIndex,
                 hash: string -> Keying.Digest, seed: string)
      requires affinity.Valid()
      ensures Valid()
      ensures this.routing == routing && this.states == states && this.affinity == affinity
      ensures this.hash == hash && this.seed == seed && rrCounter == map[]
    {
      this.routing, this.states, this.affinity := routing, states, affinity;
      this.hash, this.seed := hash, seed;
      rrCounter := map[];
    }

    function States(model: string): seq<DeploymentState> {
      if model in states then states[model] else []
    }

    function Counter(model: string): nat
      reads this
    {
      if model in rrCounter then rrCounter[model] else 0
    }

    function Chain(messages: seq<Keying.Message>): seq<Keying.Digest>
      requires routing.PrefixKvAware?
    {
      Keying.ChainOfUnits(hash, seed, Keying.Units(hash, messages, routing.pkv.imageKey),
                          Keying.Step(routing.pkv.blockSize))
    }

    ghost function MatchedFor(key: string, chain: seq<Keying.Digest>, now: real): nat
      reads affinity
    {
      Affinity.Matched(affinity.ttl, affinity.Dict(key), chain, now)
    }

    /** What the index knows about each eligible deployment. */
    ghost function MatchedOf(e: seq<View>, chain: seq<Keying.Digest>, now: real): (m: seq<nat>)
      reads affinity
      ensures |m| == |e| && forall k :: 0 <= k < |e| ==> m[k] == MatchedFor(e[k].key, chain, now)
    {
      if e == [] then [] else [MatchedFor(e[0].key, chain, now)] + MatchedOf(e[1..], chain, now)
    }

    method CountMatched(key: string, chain: seq<Keying.Digest>, now: real) returns (n: nat)
      requires Valid()
      ensures n == MatchedFor(key, chain, now)
    {
      n := affinity.MatchedBlocks(key, chain, now);
      Affinity.LeadingRunIsMatched(affinity.ttl, affinity.Dict(key), chain, now, n);
    }

    /** `_candidate_pool`; None stands for NoDeploymentAvailable. */
    method CandidatePool(model: string, exclude: set<string>, now: real) returns (pool: Option<seq<DeploymentState>>)
      ensures pool.None? <==> Candidates(Views(States(model)), exclude) == []
      ensures pool.Some? ==> pool.value != [] && Views(pool.value) == Pool(Views(States(model)), exclude, now)
      ensures pool.Some? ==> forall s :: s in pool.value ==> s in States(model)
    {
      hide Healthy, Candidates;
      NoCandidates(exclude);
      var all := States(model);
      if all == [] {
        return None;
      }
      var candidates := Untried(all, exclude);
      if candidates == [] {
        return None;
      }
      var healthy := NotEjected(candidates, now);
      return Some(if healthy == [] then candidates else healthy);
    }

    /** The scoring loop; `best_score` starts below every score, so the first
        deployment always replaces it. */
    method Best(pkv: PrefixSettings, e: seq<View>, chain: seq<Keying.Digest>, now: real)
      returns (best: nat, bestMatched: nat)
      requires Valid() && e != []
      ensures var m := MatchedOf(e, chain, now); FirstMax(Scores(pkv, e, m), best) && bestMatched == m[best]
    {
      ghost var m := MatchedOf(e, chain, now);
      ghost var scores := Scores(pkv, e, m);
      best := 0;
      bestMatched := CountMatched(e[0].key, chain, now);
      var bestScore := Score(pkv, e[0], bestMatched);
      for k := 1 to |e|
        invariant best < k && bestMatched == m[best] && bestScore == scores[best]
        invariant forall j :: 0 <= j < k ==> scores[j] <= bestScore
        invariant forall j :: 0 <= j < best ==> scores[j] < bestScore
      {
        var matched := CountMatched(e[k].key, chain, now);
        var score := Score(pkv, e[k], matched);
        assert score == scores[k];
        if score > bestScore {
          best, bestScore, bestMatched := k, score, matched;
        }
      }
    }

    /** The warm or cold decision of `_pick_prefix_aware`. */
    method WarmOrCold(pkv: PrefixSettings, e: seq<View>, chain: seq<Keying.Digest>, counter: nat, now: real)
      returns (i: nat, cold: bool)
      requires Valid() && e != []
      ensures i < |e| && PrefixChoice(pkv, e, MatchedOf(e, chain, now), counter, i)
      ensures cold <==> Cold(pkv, e, MatchedOf(e, chain, now))
    {
      var best, bestMatched := Best(pkv, e, chain, now);
      i, cold := best, bestMatched == 0;
      if cold {
        i := Choose(pkv.coldFallback, e, counter);
      }
      Chose(pkv, e, MatchedOf(e, chain, now), counter, best, i);
    }

    /** The part of `_pick_prefix_aware` that only reads: guard, scores, warm or cold. */
    method Select(pkv: PrefixSettings, pool: seq<DeploymentState>, chain: seq<Keying.Digest>, counter: nat, now: real)
      returns (chosen: DeploymentState, cold: bool)
      requires Valid() && pool != []
      ensures chosen in pool
      ensures var e := Eligible(pkv.maxInflightSkew, Views(pool));
              PrefixPicks(pkv, e, MatchedOf(e, chain, now), counter, ViewOf(chosen)) &&
              (cold <==> Cold(pkv, e, MatchedOf(e, chain, now)))
    {
      hide PrefixChoice, PrefixPicks, Eligible, Cold;
      var eligible := LoadGuard(pool, pkv.maxInflightSkew);
      var e := Views(eligible);
      var i;
      i, cold := WarmOrCold(pkv, e, chain, counter, now);
      chosen := eligible[i];
      Picked(pkv, e, MatchedOf(e, chain, now), counter, i);
    }

    /** `_pick_prefix_aware` */
    method PickPrefixAware(model: string, pool: seq<DeploymentState>, messages: seq<Keying.Message>, now: real)
      returns (chosen: DeploymentState)
      requires Valid() && routing.PrefixKvAware? && pool != []
      modifies this`rrCounter, affinity
      ensures Valid() && chosen in pool
      ensures var e := Eligible(routing.pkv.maxInflightSkew, old(Views(pool)));
              var m := old(MatchedOf(e, Chain(messages), now));
              && PrefixPicks(routing.pkv, e, m, old(Counter(model)), old(ViewOf(chosen)))
              && rrCounter == Counted(old(rrCounter), model, Cold(routing.pkv, e, m))
      ensures var e := Eligible(routing.pkv.maxInflightSkew, old(Views(pool)));
              var m := old(MatchedOf(e, Chain(messages), now));
              MovesByWorth(routing.pkv, e, m, model, old(rrCounter), old(ViewOf(chosen)), rrCounter)
      ensures affinity.served == old(affinity.served)[chosen.key :=
                old(affinity.Served(chosen.key)) + [Affinity.Registration(Chain(messages), now)]]
    {
      hide PrefixPicks, Eligible, Cold, Counted, MovesByWorth;
      ghost var e := Eligible(routing.pkv.maxInflightSkew, Views(pool));
      ghost var m, counters := MatchedOf(e, Chain(messages), now), rrCounter;
      var key := Keying.BuildRoutingKey(hash, messages, routing.pkv.blockSize, routing.pkv.imageKey, seed);
      var cold;
      chosen, cold := Select(routing.pkv, pool, key.blockHashes, Counter(model), now);
      PicksByWorth(routing.pkv, e, m, model, counters, ViewOf(chosen));
      Record(model, chosen, cold, key.blockHashes, now);
    }

    /** The end of `_pick_prefix_aware`: count a cold pick, register the chain. */
    method Record(model: string, chosen: DeploymentState, cold: bool, chain: seq<Keying.Digest>, now: real)
      requires Valid()
      modifies this`rrCounter, affinity
      ensures Valid()
      ensures rrCounter == Counted(old(rrCounter), model, cold)
      ensures affinity.served == old(affinity.served)[chosen.key :=
                old(affinity.Served(chosen.key)) + [Affinity.Registration(chain, now)]]
    {
      hide Counted;
      rrCounter := Counted(rrCounter, model, cold);
      affinity.Register(chosen.key, chain, now);
    }

    /** `pick`; None stands for NoDeploymentAvailable. */
    method Pick(model: string, exclude: set<string>, request: Option<seq<Keying.Message>>, poolNow: real, now: real)
      returns (chosen: Option<DeploymentState>)
      requires Valid()
      modifies this, affinity
      ensures Valid()
      ensures chosen.None? <==> Candidates(old(Views(States(model))), exclude) == []
      ensures chosen.None? ==> affinity.served == old(affinity.served) && rrCounter == old(rrCounter)
      ensures chosen.Some? ==> chosen.value in States(model)
      ensures chosen.Some? ==>
        MayPick(old(Views(States(model))), exclude, poolNow, Guard(routing, request.Some?), old(ViewOf(chosen.value)))
      ensures chosen.Some? && routing.PrefixKvAware? && request.Some? ==>
        var e := Eligible(routing.pkv.maxInflightSkew, Pool(old(Views(States(model))), exclude, poolNow));
        var m := old(MatchedOf(e, Chain(request.value), now));
        && PrefixPicks(routing.pkv, e, m, old(Counter(model)), old(ViewOf(chosen.value)))
        && rrCounter == Counted(old(rrCounter), model, Cold(routing.pkv, e, m))
      ensures chosen.Some? && routing.PrefixKvAware? && request.Some? ==>
        var e := Eligible(routing.pkv.maxInflightSkew, Pool(old(Views(States(model))), exclude, poolNow));
        var m := old(MatchedOf(e, Chain(request.value), now));
        MovesByWorth(routing.pkv, e, m, model, old(rrCounter), old(ViewOf(chosen.value)), rrCounter)
      ensures chosen.Some? && routing.PrefixKvAware? && request.Some? ==>
        affinity.served == old(affinity.served)[chosen.value.key :=
          old(affinity.Served(chosen.value.key)) + [Affinity.Registration(Chain(request.value), now)]]
      ensures chosen.Some? && !(routing.PrefixKvAware? && request.Some?) ==> affinity.served == old(affinity.served)
      ensures chosen.Some? && !(routing.PrefixKvAware? && request.Some?) ==>
        var pool := Pool(old(Views(States(model))), exclude, poolNow);
        var strategy := if routing.PrefixKvAware? then routing.pkv.coldFallback else routing.strategy;
        var counter := if routing.PrefixKvAware? || routing.strategy.RoundRobin? then old(Counter(model)) else 0;
        && (exists i: nat :: MayChoose(strategy, pool, counter, i) && pool[i] == old(ViewOf(chosen.value)))
        && rrCounter == Counted(old(rrCounter), model, routing.PrefixKvAware? || routing.strategy.RoundRobin?)
    {
      hide Candidates, Healthy, AtMostLoaded, MinLoad, TotalWeight, MayPick, PrefixPicks, MovesByWorth, Cold, Counted;
      var found := CandidatePool(model, exclude, poolNow);
      if found.None? {
        return None;
      }
      ghost var views := Views(States(model));
      ghost var pool := Pool(views, exclude, poolNow);
      if routing.PrefixKvAware? && request.Some? {
        ghost var e := Eligible(routing.pkv.maxInflightSkew, pool);
        ghost var m, counter := MatchedOf(e, Chain(request.value), now), Counter(model);
        var s := PickPrefixAware(model, found.value, request.value, now);
        EligibleMayBePicked(views, exclude, poolNow, routing.pkv, m, counter, old(ViewOf(s)));
        return Some(s);
      }
      var s := PickPlain(model, found.value);
      PooledMayBePicked(views, exclude, poolNow, old(ViewOf(s)));
      return Some(s);
    }

    /** A pick by strategy alone. */
    method PickPlain(model: string, pool: seq<DeploymentState>) returns (chosen: DeploymentState)
      requires pool != []
      modifies this`rrCounter
      ensures chosen in pool
      ensures
        var strategy := if routing.PrefixKvAware? then routing.pkv.coldFallback else routing.strategy;
        var counter := if routing.PrefixKvAware? || routing.strategy.RoundRobin? then old(Counter(model)) else 0;
        && (exists i: nat :: MayChoose(strategy, Views(pool), counter, i) && Views(pool)[i] == ViewOf(chosen))
        && rrCounter == Counted(old(rrCounter), model, routing.PrefixKvAware? || routing.strategy.RoundRobin?)
    {
      hide Counted;
      var strategy := if routing.PrefixKvAware? then routing.pkv.coldFallback else routing.strategy;
      var counts := routing.PrefixKvAware? || routing.strategy.RoundRobin?;
      var i := Choose(strategy, Views(pool), if counts then Counter(model) else 0);
      rrCounter := Counted(rrCounter, model, counts);
      chosen := pool[i];
      assert Views(pool)[i] == ViewOf(chosen);
    }
  }

  // ----- the list comprehensions -----

  method Untried(all: seq<DeploymentState>, exclude: set<string>) returns (candidates: seq<DeploymentState>)
    ensures Views(candidates) == Candidates(Views(all), exclude)
    ensures forall s :: s in candidates ==> s in all
  {
    candidates := [];
    for k := 0 to |all|
      invariant Views(candidates) == Candidates(Views(all)[..k], exclude)
      invariant forall s :: s in candidates ==> s in all
    {
      TakeOneMore(all, k);
      if all[k].key !in exclude {
        ViewsAppend(candidates, all[k]);
        candidates := candidates + [all[k]];
      }
    }
    assert Views(all)[..|all|] == Views(all);
  }

  method NotEjected(candidates: seq<DeploymentState>, now: real) returns (healthy: seq<DeploymentState>)
    ensures Views(healthy) == Healthy(Views(candidates), now)
    ensures forall s :: s in healthy ==> s in candidates
  {
    healthy := [];
    for k := 0 to |candidates|
      invariant Views(healthy) == Healthy(Views(candidates)[..k], now)
      invariant forall s :: s in healthy ==> s in candidates
    {
      TakeOneMore(candidates, k);
      if candidates[k].IsAvailable(now) {
        ViewsAppend(healthy, candidates[k]);
        healthy := healthy + [candidates[k]];
      }
    }
    assert Views(candidates)[..|candidates|] == Views(candidates);
  }

  method LoadGuard(pool: seq<DeploymentState>, skew: int) returns (eligible: seq<DeploymentState>)
    requires pool != []
    ensures eligible != [] && Views(eligible) == Eligible(skew, Views(pool))
    ensures forall s :: s in eligible ==> s in pool
  {
    hide AtMostLoaded, MinLoad;
    eligible := WithinLimit(pool, MinLoad(Views(pool)) + skew);
    if eligible == [] {
      eligible := pool;
    }
  }

  method WithinLimit(pool: seq<DeploymentState>, limit: int) returns (eligible: seq<DeploymentState>)
    ensures Views(eligible) == AtMostLoaded(Views(pool), limit)
    ensures forall s :: s in eligible ==> s in pool
  {
    hide MinLoad;
    eligible := [];
    for k := 0 to |pool|
      invariant Views(eligible) == AtMostLoaded(Views(pool)[..k], limit)
      invariant forall s :: s in eligible ==> s in pool
    {
      TakeOneMore(pool, k);
      if pool[k].inFlight <= limit {
        ViewsAppend(eligible, pool[k]);
        eligible := eligible + [pool[k]];
      }
    }
    assert Views(pool)[..|pool|] == Views(pool);
  }

  lemma TakeOneMore(all: seq<DeploymentState>, k: nat)
    requires k < |all|
    ensures var v := Views(all)[..k + 1];
            |v| == k + 1 && v[..|v| - 1] == Views(all)[..k] && v[|v| - 1] == ViewOf(all[k])
  {
  }

  lemma ViewsAppend(some: seq<DeploymentState>, s: DeploymentState)
    ensures Views(some + [s]) == Views(some) + [ViewOf(s)]
  {
  }

  /** A model's deployments are keyed by `deployment_key`. */
  ghost predicate DistinctStates(all: seq<DeploymentState>) {
    forall i, j :: 0 <= i < j < |all| ==> all[i].key != all[j].key
  }

  function ViewOf(s: DeploymentState): View
    reads s
  {
    View(s.key, s.dep, s.Now())
  }

  function Views(states: seq<DeploymentState>): (views: seq<View>)
    reads states
    ensures |views| == |states| && forall k :: 0 <= k < |states| ==> views[k] == ViewOf(states[k])
  {
    if states == [] then [] else [ViewOf(states[0])] + Views(states[1..])
  }
}
