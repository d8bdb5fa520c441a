/** When one warm deployment is enough for a warm pick (src/kvgate/routing/router.py). */
module WarmPicks {
  import opened Affinity
  import opened Deployment
  import opened Strategies
  import opened Router

  // ----- pools and indexes that occur -----

  /** Deployments under their own distinct keys, each in a state some events lead to. */
  ghost predicate RealPool(b: Breaker, pool: seq<View>) {
    && pool != []
    && (forall v :: v in pool ==> v.key == Key(v.dep) && Reachable(b, v.status))
    && forall i, j :: 0 <= i < j < |pool| ==> pool[i].key != pool[j].key
  }

  ghost predicate Reachable(b: Breaker, s: Status) {
    exists events :: s == Replay(b, events)
  }

  /** What the index of a replica is after the registrations it served. */
  function DictOf(ttl: real, cap: nat, served: map<Replica, seq<Registration>>, key: Replica): OrderedDict {
    AfterRun(ttl, cap, if key in served then served[key] else [])
  }

  /** How much of `chain` each deployment matches. */
  ghost function IndexMatches(ttl: real, cap: nat, served: map<Replica, seq<Registration>>, e: seq<View>,
                              chain: seq<Hash>, now: real): (matched: seq<nat>)
    ensures |matched| == |e|
    ensures forall k :: 0 <= k < |e| ==> matched[k] == Matched(ttl, DictOf(ttl, cap, served, e[k].key), chain, now)
  {
    seq(|e|, k requires 0 <= k < |e| => Matched(ttl, DictOf(ttl, cap, served, e[k].key), chain, now))
  }

  /** However the pool is loaded and whatever was served, one warm eligible deployment
      makes the pick a warm one. */
  ghost predicate WarmWins(pkv: PrefixSettings, b: Breaker, ttl: real, cap: nat) {
    forall pool, served, chain, now, j: nat ::
      WarmAt(pkv, b, ttl, cap, pool, served, chain, now, j) ==>
      !ColdPick(pkv, ttl, cap, pool, served, chain, now)
  }

  ghost predicate WarmAt(pkv: PrefixSettings, b: Breaker, ttl: real, cap: nat, pool: seq<View>,
                         served: map<Replica, seq<Registration>>, chain: seq<Hash>, now: real, j: nat) {
    RealPool(b, pool) &&
    var e := Eligible(pkv.maxInflightSkew, pool);
    j < |e| && IndexMatches(ttl, cap, served, e, chain, now)[j] > 0
  }

  ghost predicate ColdPick(pkv: PrefixSettings, ttl: real, cap: nat, pool: seq<View>,
                           served: map<Replica, seq<Registration>>, chain: seq<Hash>, now: real)
    requires pool != []
  {
    var e := Eligible(pkv.maxInflightSkew, pool);
    Cold(pkv, e, IndexMatches(ttl, cap, served, e, chain, now))
  }

  // ----- the exact condition -----

  lemma WarmOutscoresCold(pkv: PrefixSettings, warm: View, cold: View, matched: nat)
    requires pkv.weightPrefix > pkv.weightLoad * pkv.maxInflightSkew as real && pkv.weightLoad >= 0.0
    requires pkv.maxInflightSkew >= 0 && matched > 0
    requires warm.status.inFlight <= cold.status.inFlight + pkv.maxInflightSkew
    ensures Score(pkv, warm, matched) > Score(pkv, cold, 0)
  {
    var w, l, skew := pkv.weightPrefix, pkv.weightLoad, pkv.maxInflightSkew as real;
    var a, b := warm.status.inFlight as real, cold.status.inFlight as real;
    NonNegativeProduct(l, b + skew - a);
    assert l * (b + skew - a) == l * b + l * skew - l * a;
    NonNegativeProduct(l, skew);
    NonNegativeProduct(w, (matched - 1) as real);
    assert w * matched as real == w * (matched - 1) as real + w;
    assert w * 0.0 == 0.0;
  }

  lemma NonNegativeProduct(x: real, y: real)
    requires x >= 0.0 && y >= 0.0
    ensures x * y >= 0.0
  {
  }

  lemma WarmIsNotCold(pkv: PrefixSettings, pool: seq<View>, matched: seq<nat>, j: nat)
    requires pkv.weightPrefix > pkv.weightLoad * pkv.maxInflightSkew as real && pkv.weightLoad >= 0.0
    requires pkv.maxInflightSkew >= 0 && pool != [] && |matched| == |Eligible(pkv.maxInflightSkew, pool)|
    requires j < |matched| && matched[j] > 0
    ensures !Cold(pkv, Eligible(pkv.maxInflightSkew, pool), matched)
  {
    var e := Eligible(pkv.maxInflightSkew, pool);
    EligibleContents(pkv.maxInflightSkew, pool);
    hide Eligible, Score;
    assert e[j] in e;
    forall b: nat | FirstMax(Scores(pkv, e, matched), b) ensures matched[b] > 0 {
      assert e[b] in e;
      if matched[b] == 0 {
        WarmOutscoresCold(pkv, e[j], e[b], matched[j]);
      }
    }
  }

  /** The cold fallback is for requests that are warm nowhere only if one warm block
      outweighs the largest load difference the guard lets through. */
  lemma WarmWinsExactly(pkv: PrefixSettings, b: Breaker, ttl: real, cap: nat)
    requires pkv.weightPrefix >= 0.0 && pkv.weightLoad >= 0.0 && pkv.maxInflightSkew >= 0 && cap >= 1
    ensures WarmWins(pkv, b, ttl, cap) <==> pkv.weightPrefix > pkv.weightLoad * pkv.maxInflightSkew as real
  {
    if pkv.weightPrefix > pkv.weightLoad * pkv.maxInflightSkew as real {
      forall pool, served, chain, now, j: nat | WarmAt(pkv, b, ttl, cap, pool, served, chain, now, j)
        ensures !ColdPick(pkv, ttl, cap, pool, served, chain, now)
      {
        var e := Eligible(pkv.maxInflightSkew, pool);
        WarmIsNotCold(pkv, pool, IndexMatches(ttl, cap, served, e, chain, now), j);
      }
    } else {
      var pool, served := ColdDespiteWarm(pkv, b, ttl, cap, "x", 0.0);
      assert WarmAt(pkv, b, ttl, cap, pool, served, ["x"], 0.0, 1);
    }
  }

  /** Otherwise an idle cold deployment beats a warm one that is busier by the skew: the
      request `x` just served is not routed to the deployment that served it. */
  lemma ColdDespiteWarm(pkv: PrefixSettings, b: Breaker, ttl: real, cap: nat, x: Hash, now: real)
      returns (pool: seq<View>, served: map<Replica, seq<Registration>>)
    requires 0.0 <= pkv.weightPrefix <= pkv.weightLoad * pkv.maxInflightSkew as real
    requires pkv.maxInflightSkew >= 0 && cap >= 1
    ensures RealPool(b, pool) && |pool| == 2 && Eligible(pkv.maxInflightSkew, pool) == pool
    ensures served == map[pool[1].key := [Registration([x], now)]]
    ensures IndexMatches(ttl, cap, served, pool, [x], now) == [0, 1]
    ensures ColdPick(pkv, ttl, cap, pool, served, [x], now)
  {
    var skew := pkv.maxInflightSkew;
    var a, c := Dep("p", "a", 1.0, 0.0, 0.0), Dep("p", "c", 1.0, 0.0, 0.0);
    var busy := FRESH.(inFlight := skew, totalRequests := skew);
    var idle, warm := View(Key(a), a, FRESH), View(Key(c), c, busy);
    assert Key(a)[3] == 'a' && Key(c)[3] == 'c';
    assert Replay(b, []) == FRESH;
    StartsAddUp(b, skew);
    pool, served := [idle, warm], map[Key(c) := [Registration([x], now)]];
    BothEligible(skew, idle, warm);
    hide Eligible, AfterRun, Matched, Replay;
    JustServed(ttl, cap, x, now);
    assert IndexMatches(ttl, cap, served, pool, [x], now) == [0, 1];
    FirstIsMax(pkv, pool, [0, 1]);
  }

  function Starts(n: nat): seq<Event> {
    seq(n, i => Start)
  }

  lemma {:induction false} StartsAddUp(b: Breaker, n: nat)
    ensures Replay(b, Starts(n)) == FRESH.(inFlight := n, totalRequests := n)
  {
    if n == 0 {
    } else {
      StartsAddUp(b, n - 1);
      assert Starts(n)[..n - 1] == Starts(n - 1);
    }
  }

  lemma JustServed(ttl: real, cap: nat, x: Hash, now: real)
    requires cap >= 1
    ensures Matched(ttl, AfterRun(ttl, cap, [Registration([x], now)]), [x], now) == 1
    ensures Matched(ttl, AfterRun(ttl, cap, []), [x], now) == 0
  {
    assert AfterRun(ttl, cap, []) == [];
    var run := [Registration([x], now)];
    assert run[..0] == [] && [x][1..] == [];
    assert AfterRun(ttl, cap, run) == Registered(ttl, cap, [], [x], now);
    assert Touch([], x, now) == [Entry(x, now)] && [Entry(x, now)][1..] == [];
    assert TouchAll([], [x], now) == [Entry(x, now)];
    assert Sweep(ttl, [Entry(x, now)], now) == [Entry(x, now)];
    assert Entry(x, now) in AfterRun(ttl, cap, run);
    assert Holds(ttl, AfterRun(ttl, cap, run), x, now);
  }

  lemma BothEligible(skew: int, idle: View, warm: View)
    requires skew >= 0 && idle.status.inFlight == 0 && warm.status.inFlight == skew
    ensures Eligible(skew, [idle, warm]) == [idle, warm]
  {
    assert [idle, warm][..1] == [idle] && [idle][..0] == [];
    assert MinLoad([idle]) == 0;
    assert MinLoad([idle, warm]) == 0;
    assert AtMostLoaded([idle], skew) == [] + [idle];
    assert AtMostLoaded([idle, warm], skew) == [idle] + [warm];
  }

  lemma FirstIsMax(pkv: PrefixSettings, pool: seq<View>, matched: seq<nat>)
    requires |pool| == 2 && matched == [0, 1]
    requires pool[0].status.inFlight == 0 && pool[1].status.inFlight == pkv.maxInflightSkew
    requires pkv.weightPrefix <= pkv.weightLoad * pkv.maxInflightSkew as real
    ensures FirstMax(Scores(pkv, pool, matched), 0)
  {
    assert pkv.weightPrefix * 1.0 == pkv.weightPrefix && pkv.weightPrefix * 0.0 == 0.0 && pkv.weightLoad * 0.0 == 0.0;
  }
}
